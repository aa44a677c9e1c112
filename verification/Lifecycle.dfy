/**
 8-K lifecycle stamping (app/obligations.py): guarantee rows are edited in place with a status
 driven by termination and amendment marks of the same agreement.

 `StandingOf` is the closed form: one existential per rule over the whole ledger. The methods
 below it group rows, collect mark dates and stamp member by member, as the original does, and
 are proved to reach exactly the closed form whatever the order and aliasing of the rows.
 */
module Lifecycle {
  import opened Wrappers
  import opened Ledger
  import Ordering

  /** A ledger row that callers share and stampers edit. */
  class Entry {
    var row: Row

    constructor (row: Row)
      ensures this.row == row
    {
      this.row := row;
    }
  }

  ghost function Rows(entries: seq<Entry>): (rows: seq<Row>)
    reads entries
    ensures |rows| == |entries| && forall i | 0 <= i < |entries| :: rows[i] == entries[i].row
  {
    seq(|entries|, i requires 0 <= i < |entries| reads entries => entries[i].row)
  }

  /** Quantified 8-K rows and amount-less 8-K marks take part; everything else is left alone. */
  predicate Eligible(r: Row) {
    r.Layer() == EightK && (r.Positive() || (r.amount.Absent? && r.mark != NoMark))
  }

  /** Which marks of one kind a rule looks at: all, quantified only, or amount-less only. */
  datatype Quantity = Any | Quantified | Amountless

  predicate Carries(m: Row, event: Mark, quantity: Quantity) {
    && m.mark == event
    && (quantity == Quantified ==> m.Positive())
    && (quantity == Amountless ==> m.amount.Absent?)
  }

  /** Some row of the ledger is a strictly later mark of this kind on the same agreement. */
  predicate LaterMark(r: Row, rows: seq<Row>, event: Mark, quantity: Quantity) {
    exists m | m in rows ::
      Eligible(m) && m.agreementKey == r.agreementKey && Carries(m, event, quantity) && Later(m.filed, r.filed)
  }

  function StandingOf(r: Row, rows: seq<Row>): Option<Standing> {
    if r.mark == Termination then Some(Terminated)
    else if r.agreementKey.None? || r.amount.Absent? then None
    else if LaterMark(r, rows, Termination, Any) || LaterMark(r, rows, Amendment, Quantified) then Some(Unknown)
    else if LaterMark(r, rows, Amendment, Amountless) then Some(Amended)
    else None
  }

  function Stamp(r: Row, rows: seq<Row>): Row {
    if Eligible(r) then r.(standing := StandingOf(r, rows)) else r
  }

  function StampAll(rows: seq<Row>): (r: seq<Row>)
    ensures |r| == |rows| && forall i | 0 <= i < |rows| :: r[i] == Stamp(rows[i], rows)
  {
    seq(|rows|, i requires 0 <= i < |rows| => Stamp(rows[i], rows))
  }

  // ---------------------------------------------------------------- the stampers, in place

  /** The filing dates of the marks of one kind, in row order, repeats included. */
  function DatesOf(rows: seq<Row>, event: Mark, quantity: Quantity): seq<Option<Day>> {
    if rows == [] then []
    else
      var last := rows[|rows| - 1];
      DatesOf(rows[..|rows| - 1], event, quantity) + (if Carries(last, event, quantity) then [last.filed] else [])
  }

  /** Order of dates; a blank one comes first. */
  predicate NoLater(a: Option<Day>, b: Option<Day>) {
    a.None? || (b.Some? && a.value <= b.value)
  }

  method MarkDates(members: seq<Entry>, event: Mark, quantity: Quantity) returns (dates: seq<Option<Day>>)
    ensures dates == SortedDates(Rows(members), event, quantity)
  {
    hide Carries;
    ghost var rows := Rows(members);
    dates := [];
    for i := 0 to |members|
      invariant dates == DatesOf(rows[..i], event, quantity)
    {
      assert rows[..i + 1][..i] == rows[..i];
      if Carries(members[i].row, event, quantity) {
        dates := dates + [members[i].row.filed];
      }
    }
    assert rows[..|members|] == rows;
    dates := Ordering.StableSort(dates, NoLater);
  }

  function SortedDates(rows: seq<Row>, event: Mark, quantity: Quantity): seq<Option<Day>> {
    Ordering.StableSort(DatesOf(rows, event, quantity), NoLater)
  }

  lemma {:induction false} DatesOfAre(rows: seq<Row>, event: Mark, quantity: Quantity, d: Option<Day>)
    ensures d in DatesOf(rows, event, quantity) <==> exists m | m in rows :: Carries(m, event, quantity) && m.filed == d
  {
    hide Carries;
    if rows != [] {
      var front, last := rows[..|rows| - 1], rows[|rows| - 1];
      DatesOfAre(front, event, quantity, d);
      assert rows == front + [last];
    }
  }

  lemma SortedDatesAre(rows: seq<Row>, event: Mark, quantity: Quantity, d: Option<Day>)
    ensures d in SortedDates(rows, event, quantity) <==>
      exists m | m in rows :: Carries(m, event, quantity) && m.filed == d
  {
    hide Carries, DatesOf;
    var dates := DatesOf(rows, event, quantity);
    DatesOfAre(rows, event, quantity, d);
    assert d in SortedDates(rows, event, quantity) <==> d in multiset(SortedDates(rows, event, quantity));
    assert d in multiset(dates) <==> d in dates;
  }

  predicate AnyLater(dates: seq<Option<Day>>, filed: Option<Day>) {
    exists d | d in dates :: Later(d, filed)
  }

  /** What one member of a linked group is stamped with, given the dates of the group's marks. */
  function DatedStanding(r: Row, terms: seq<Option<Day>>, quantAmends: seq<Option<Day>>,
                         bareAmends: seq<Option<Day>>): Option<Standing>
  {
    if r.mark == Termination then Some(Terminated)
    else if r.amount.Absent? then None
    else if AnyLater(terms, r.filed) || AnyLater(quantAmends, r.filed) then Some(Unknown)
    else if AnyLater(bareAmends, r.filed) then Some(Amended)
    else None
  }

  method StampMember(entry: Entry, terms: seq<Option<Day>>, quantAmends: seq<Option<Day>>,
                     bareAmends: seq<Option<Day>>)
    modifies entry
    ensures entry.row == old(entry.row).(standing := DatedStanding(old(entry.row), terms, quantAmends, bareAmends))
  {
    var row := entry.row;
    if row.mark == Termination {
      entry.row := row.(standing := Some(Terminated));
    } else if row.amount.Absent? {
      entry.row := row.(standing := None);
    } else if AnyLater(terms, row.filed) || AnyLater(quantAmends, row.filed) {
      entry.row := row.(standing := Some(Unknown));
    } else if AnyLater(bareAmends, row.filed) {
      entry.row := row.(standing := Some(Amended));
    } else {
      entry.row := row.(standing := None);
    }
  }

  method StampUnlinked(members: seq<Entry>)
    requires forall m | m in members :: m.row.agreementKey == None
    modifies set m | m in members
    ensures forall m | m in members :: m.row == old(m.row).(standing := StandingOf(old(m.row), []))
  {
    for i := 0 to |members|
      invariant forall m | m in members ::
        m.row == old(m.row) || m.row == old(m.row).(standing := StandingOf(old(m.row), []))
      invariant forall j | 0 <= j < i ::
        members[j].row == old(members[j].row).(standing := StandingOf(old(members[j].row), []))
    {
      assert members[i] in members;
      members[i].row :=
        members[i].row.(standing := if members[i].row.mark == Termination then Some(Terminated) else None);
    }
  }

  method StampMembers(members: seq<Entry>, terms: seq<Option<Day>>, quantAmends: seq<Option<Day>>,
                      bareAmends: seq<Option<Day>>)
    modifies set m | m in members
    ensures forall m | m in members ::
      m.row == old(m.row).(standing := DatedStanding(old(m.row), terms, quantAmends, bareAmends))
  {
    for i := 0 to |members|
      invariant forall m | m in members ::
        || m.row == old(m.row)
        || m.row == old(m.row).(standing := DatedStanding(old(m.row), terms, quantAmends, bareAmends))
      invariant forall j | 0 <= j < i ::
        members[j].row
        == old(members[j].row).(standing := DatedStanding(old(members[j].row), terms, quantAmends, bareAmends))
    {
      assert members[i] in members;
      StampMember(members[i], terms, quantAmends, bareAmends);
    }
  }

  method StampGroup(members: seq<Entry>, ghost key: string)
    requires forall m | m in members :: Eligible(m.row) && m.row.agreementKey == Some(key)
    modifies set m | m in members
    ensures forall m | m in members :: m.row == old(m.row).(standing := StandingOf(old(m.row), old(Rows(members))))
  {
    hide Eligible, LayerOf, SortedDates, LaterMark, AnyLater;
    var terms := MarkDates(members, Termination, Any);
    var quantAmends := MarkDates(members, Amendment, Quantified);
    var bareAmends := MarkDates(members, Amendment, Amountless);
    ghost var group := Rows(members);
    forall m | m in members
      ensures DatedStanding(m.row, terms, quantAmends, bareAmends) == StandingOf(m.row, group)
    {
      GroupIsLinked(members, key);
      DatesAreMarks(m.row, group, Termination, Any);
      DatesAreMarks(m.row, group, Amendment, Quantified);
      DatesAreMarks(m.row, group, Amendment, Amountless);
    }
    StampMembers(members, terms, quantAmends, bareAmends);
  }

  lemma GroupIsLinked(members: seq<Entry>, key: string)
    requires forall m | m in members :: Eligible(m.row) && m.row.agreementKey == Some(key)
    ensures forall r | r in Rows(members) :: Eligible(r) && r.agreementKey == Some(key)
  {
    hide Eligible;
    forall r | r in Rows(members)
      ensures Eligible(r) && r.agreementKey == Some(key)
    {
      var i :| 0 <= i < |members| && Rows(members)[i] == r;
      assert members[i] in members;
    }
  }

  /** Comparing with the collected dates of a linked group asks for a strictly later mark of the agreement. */
  lemma DatesAreMarks(r: Row, group: seq<Row>, event: Mark, quantity: Quantity)
    requires forall m | m in group :: Eligible(m) && m.agreementKey == r.agreementKey
    ensures AnyLater(SortedDates(group, event, quantity), r.filed) <==> LaterMark(r, group, event, quantity)
  {
    hide Eligible, SortedDates, Carries;
    if AnyLater(SortedDates(group, event, quantity), r.filed) {
      var d :| d in SortedDates(group, event, quantity) && Later(d, r.filed);
      SortedDatesAre(group, event, quantity, d);
    }
    if LaterMark(r, group, event, quantity) {
      var m :| m in group && Eligible(m) && m.agreementKey == r.agreementKey && Carries(m, event, quantity) &&
        Later(m.filed, r.filed);
      SortedDatesAre(group, event, quantity, m.filed);
    }
  }

  /** A group that holds exactly the eligible rows of one agreement decides as the whole ledger does. */
  lemma GroupDecides(r: Row, group: seq<Row>, rows: seq<Row>)
    requires forall m | m in group :: m in rows
    requires forall m | m in rows && Eligible(m) && m.agreementKey == r.agreementKey :: m in group
    ensures StandingOf(r, group) == StandingOf(r, rows)
  {
  }

  /** The entries whose row satisfies the test, in order, as often as they occur. */
  ghost function Having(entries: seq<Entry>, test: Row -> bool): seq<Entry>
    reads entries
  {
    if entries == [] then []
    else
      var last := entries[|entries| - 1];
      Having(entries[..|entries| - 1], test) + (if test(last.row) then [last] else [])
  }

  method Guarantees(entries: seq<Entry>) returns (guarantees: seq<Entry>)
    ensures guarantees == Having(entries, Eligible)
  {
    hide Eligible;
    guarantees := [];
    for i := 0 to |entries|
      invariant guarantees == Having(entries[..i], Eligible)
    {
      assert entries[..i + 1][..i] == entries[..i];
      if Eligible(entries[i].row) {
        guarantees := guarantees + [entries[i]];
      }
    }
    assert entries[..|entries|] == entries;
  }

  function OfAgreement(key: Option<string>): Row -> bool {
    (r: Row) => r.agreementKey == key
  }

  ghost function AgreementKeys(entries: seq<Entry>): (keys: seq<Option<string>>)
    reads entries
    ensures |keys| == |entries| && forall i | 0 <= i < |entries| :: keys[i] == entries[i].row.agreementKey
  {
    seq(|entries|, i requires 0 <= i < |entries| reads entries => entries[i].row.agreementKey)
  }

  lemma HavingSnoc(entries: seq<Entry>, e: Entry, test: Row -> bool)
    ensures Having(entries + [e], test) == Having(entries, test) + (if test(e.row) then [e] else [])
  {
    assert (entries + [e])[..|entries|] == entries;
  }

  lemma {:induction false} HavingAre(entries: seq<Entry>, test: Row -> bool)
    ensures forall e :: e in Having(entries, test) <==> e in entries && test(e.row)
  {
    if entries != [] {
      var front := entries[..|entries| - 1];
      HavingAre(front, test);
      assert entries == front + [entries[|entries| - 1]];
    }
  }

  /** Groups in order of their first row, each holding its agreement's rows in order. */
  ghost predicate Grouped(entries: seq<Entry>, order: seq<Option<string>>, groups: map<Option<string>, seq<Entry>>)
    reads entries
  {
    && order == Ordering.Firsts(AgreementKeys(entries))
    && (forall k :: k in order <==> k in groups)
    && (forall k | k in groups :: groups[k] == Having(entries, OfAgreement(k)))
    && (forall k | k !in groups :: Having(entries, OfAgreement(k)) == [])
  }

  lemma KeysSnoc(entries: seq<Entry>, e: Entry)
    ensures var keys := AgreementKeys(entries);
      Ordering.Firsts(AgreementKeys(entries + [e])) ==
      if e.row.agreementKey in Ordering.Firsts(keys) then Ordering.Firsts(keys)
      else Ordering.Firsts(keys) + [e.row.agreementKey]
  {
    var keys := AgreementKeys(entries + [e]);
    assert keys == AgreementKeys(entries) + [e.row.agreementKey];
    Ordering.FirstsSnoc(keys, |entries|);
    assert keys[..|entries|] == AgreementKeys(entries) && keys[..|entries| + 1] == keys;
  }

  method AddToGroup(ghost seen: seq<Entry>, e: Entry, order: seq<Option<string>>,
                    groups: map<Option<string>, seq<Entry>>)
    returns (order': seq<Option<string>>, groups': map<Option<string>, seq<Entry>>)
    requires Grouped(seen, order, groups)
    ensures Grouped(seen + [e], order', groups')
  {
    hide Having, Ordering.Firsts;
    var key := e.row.agreementKey;
    KeysSnoc(seen, e);
    forall k
      ensures Having(seen + [e], OfAgreement(k)) == Having(seen, OfAgreement(k)) + if k == key then [e] else []
    {
      HavingSnoc(seen, e, OfAgreement(k));
    }
    if key in groups {
      order' := order;
      groups' := groups[key := groups[key] + [e]];
    } else {
      order' := order + [key];
      groups' := groups[key := [e]];
    }
  }

  method Groups(guarantees: seq<Entry>)
    returns (order: seq<Option<string>>, groups: map<Option<string>, seq<Entry>>)
    ensures order == Ordering.Firsts(AgreementKeys(guarantees))
    ensures forall k :: k in order <==> k in groups
    ensures forall k | k in groups :: groups[k] == Having(guarantees, OfAgreement(k))
  {
    hide Having, Ordering.Firsts;
    order, groups := [], map[];
    NothingGrouped();
    for i := 0 to |guarantees|
      invariant Grouped(guarantees[..i], order, groups)
    {
      assert guarantees[..i + 1] == guarantees[..i] + [guarantees[i]];
      order, groups := AddToGroup(guarantees[..i], guarantees[i], order, groups);
    }
    assert guarantees[..|guarantees|] == guarantees;
  }

  lemma NothingGrouped()
    ensures Grouped([], [], map[])
  {
  }

  /** So every row is in the one group of its agreement, and groups hold nothing else. */
  lemma GroupsHold(guarantees: seq<Entry>, order: seq<Option<string>>, groups: map<Option<string>, seq<Entry>>)
    requires order == Ordering.Firsts(AgreementKeys(guarantees))
    requires forall k :: k in order <==> k in groups
    requires forall k | k in groups :: groups[k] == Having(guarantees, OfAgreement(k))
    ensures forall k | k in groups :: forall m | m in groups[k] :: m in guarantees && m.row.agreementKey == k
    ensures forall e | e in guarantees :: e.row.agreementKey in groups && e in groups[e.row.agreementKey]
  {
    hide Having;
    forall k
      ensures forall e :: e in Having(guarantees, OfAgreement(k)) <==> e in guarantees && e.row.agreementKey == k
    {
      HavingAre(guarantees, OfAgreement(k));
    }
    forall e | e in guarantees
      ensures e.row.agreementKey in groups
    {
      var i :| 0 <= i < |guarantees| && guarantees[i] == e;
      assert AgreementKeys(guarantees)[i] == e.row.agreementKey;
    }
  }

  ghost function StampedIn(r: Row, rows: seq<Row>, keys: seq<Option<string>>): Row {
    if Eligible(r) && r.agreementKey in keys then Stamp(r, rows) else r
  }

  /** Stamp one agreement whose members still hold their rows of the ledger `base`. */
  method StampKey(members: seq<Entry>, key: Option<string>, ghost base: seq<Row>)
    requires forall m | m in members :: Eligible(m.row) && m.row.agreementKey == key && m.row in base
    requires forall b | b in base && Eligible(b) && b.agreementKey == key :: exists m | m in members :: m.row == b
    modifies set m | m in members
    ensures forall m | m in members :: m.row == Stamp(old(m.row), base)
  {
    hide Eligible, LayerOf;
    ghost var group := Rows(members);
    forall g | g in group
      ensures g in base
    {
      var j :| 0 <= j < |group| && group[j] == g;
      assert members[j] in members;
    }
    forall b | b in base && Eligible(b) && b.agreementKey == key
      ensures b in group
    {
      var m :| m in members && m.row == b;
      var k :| 0 <= k < |members| && members[k] == m;
      assert group[k] == b;
    }
    forall m | m in members
      ensures StandingOf(m.row, group) == StandingOf(m.row, base)
    {
      GroupDecides(m.row, group, base);
    }
    if key.None? {
      StampUnlinked(members);
    } else {
      StampGroup(members, key.value);
    }
  }

  /** Stamp agreement after agreement; `groups` holds the eligible rows of the ledger `base`. */
  method StampGroups(entries: seq<Entry>, order: seq<Option<string>>, groups: map<Option<string>, seq<Entry>>,
                     ghost base: seq<Row>)
    requires base == Rows(entries)
    requires forall k :: k in order <==> k in groups
    requires forall i, j | 0 <= i < j < |order| :: order[i] != order[j]
    requires forall k | k in groups :: forall m | m in groups[k] ::
      m in entries && Eligible(m.row) && m.row.agreementKey == k
    requires forall e | e in entries && Eligible(e.row) ::
      e.row.agreementKey in groups && e in groups[e.row.agreementKey]
    modifies set e | e in entries
    ensures forall e | e in entries :: e.row == Stamp(old(e.row), base)
  {
    hide Eligible, LayerOf;
    forall e | e in entries
      ensures e.row in base
    {
      var j :| 0 <= j < |entries| && entries[j] == e;
      assert base[j] == e.row;
    }
    for i := 0 to |order|
      invariant forall e | e in entries :: e.row == StampedIn(old(e.row), base, order[..i])
    {
      var key := order[i];
      var members := groups[key];
      assert key !in order[..i];
      forall m | m in members
        ensures m in entries && m.row == old(m.row)
      {
      }
      forall b | b in base && Eligible(b) && b.agreementKey == key
        ensures exists m | m in members :: m.row == b
      {
        var j :| 0 <= j < |base| && base[j] == b;
        assert entries[j] in members;
      }
      StampKey(members, key, base);
      assert order[..i + 1] == order[..i] + [key];
    }
    assert order[..|order|] == order;
  }

  /** Stamp every row of the ledger; afterwards each holds exactly its closed form. */
  method ResolveLifecycle(entries: seq<Entry>)
    modifies set e | e in entries
    ensures Rows(entries) == StampAll(old(Rows(entries)))
  {
    hide Having, Eligible, Stamp, Ordering.Firsts;
    ghost var base := Rows(entries);
    var guarantees := Guarantees(entries);
    HavingAre(entries, Eligible);
    var order, groups := Groups(guarantees);
    GroupsHold(guarantees, order, groups);
    StampGroups(entries, order, groups, base);
    forall j | 0 <= j < |entries|
      ensures entries[j].row == Stamp(base[j], base)
    {
      assert entries[j] in entries && base[j] == old(entries[j].row);
    }
  }

  // ---------------------------------------------------------------- what stamping depends on

  datatype Feature = Feature(agreementKey: Option<string>, filed: Option<Day>, mark: Mark, amount: Amount)

  function FeatureOf(r: Row): Feature {
    Feature(r.agreementKey, r.filed, r.mark, r.amount)
  }

  /** The (key, date, mark, amount) facts of the rows that take part. */
  function Features(rows: seq<Row>): set<Feature> {
    set r | r in rows && Eligible(r) :: FeatureOf(r)
  }

  lemma LaterMarkByFeatures(r: Row, a: seq<Row>, b: seq<Row>, event: Mark, quantity: Quantity)
    requires Features(a) <= Features(b)
    requires LaterMark(r, a, event, quantity)
    ensures LaterMark(r, b, event, quantity)
  {
    var m :| m in a && Eligible(m) && m.agreementKey == r.agreementKey && Carries(m, event, quantity) &&
      Later(m.filed, r.filed);
    assert FeatureOf(m) in Features(b);
    var n :| n in b && Eligible(n) && FeatureOf(n) == FeatureOf(m);
  }

  /** A row's status depends on its own features and those of the ledger, on nothing else and in no order. */
  lemma StandingByFeatures(r: Row, r': Row, a: seq<Row>, b: seq<Row>)
    requires FeatureOf(r) == FeatureOf(r') && Features(a) == Features(b)
    ensures StandingOf(r, a) == StandingOf(r', b)
  {
    forall event, quantity
      ensures LaterMark(r, a, event, quantity) == LaterMark(r', b, event, quantity)
    {
      if LaterMark(r, a, event, quantity) {
        LaterMarkByFeatures(r, a, b, event, quantity);
      }
      if LaterMark(r', b, event, quantity) {
        LaterMarkByFeatures(r', b, a, event, quantity);
      }
    }
  }

  lemma FeaturesOfStamped(rows: seq<Row>)
    ensures Features(StampAll(rows)) == Features(rows)
  {
    forall f | f in Features(rows)
      ensures f in Features(StampAll(rows))
    {
      var r :| r in rows && Eligible(r) && FeatureOf(r) == f;
      var i :| 0 <= i < |rows| && rows[i] == r;
      assert StampAll(rows)[i] in StampAll(rows);
    }
    forall f | f in Features(StampAll(rows))
      ensures f in Features(rows)
    {
      var r :| r in StampAll(rows) && Eligible(r) && FeatureOf(r) == f;
      var i :| 0 <= i < |rows| && StampAll(rows)[i] == r;
      assert rows[i] in rows;
    }
  }

  /** A second run over the same ledger changes nothing. */
  lemma StampIdempotent(rows: seq<Row>)
    ensures StampAll(StampAll(rows)) == StampAll(rows)
  {
    FeaturesOfStamped(rows);
    forall i | 0 <= i < |rows|
      ensures Stamp(StampAll(rows)[i], StampAll(rows)) == StampAll(rows)[i]
    {
      StandingByFeatures(StampAll(rows)[i], rows[i], StampAll(rows), rows);
    }
  }

  /** Reordering the ledger reorders the stamped ledger and changes no row of it. */
  lemma StampOrderIndependent(a: seq<Row>, b: seq<Row>)
    requires multiset(a) == multiset(b)
    ensures multiset(StampAll(a)) == multiset(StampAll(b))
    ensures forall r :: Stamp(r, a) == Stamp(r, b)
  {
    assert forall r :: r in a <==> r in multiset(b);
    assert forall r :: r in a <==> r in b;
    forall r
      ensures Stamp(r, a) == Stamp(r, b)
    {
      StandingByFeatures(r, r, a, b);
    }
    var f := (r: Row) => Stamp(r, a);
    assert StampAll(a) == Map(f, a) && StampAll(b) == Map(f, b);
    MapPermuted(f, a, b);
  }
}
