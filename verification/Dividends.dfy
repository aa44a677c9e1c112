/** Declared-dividend events from structured filing facts (app/normalization.py). */
module Dividends {
  import opened Wrappers
  import opened Ordering
  import Ledger
  import Text

  const EPS_UNIT := "USD/shares"
  const AMOUNT_CONCEPT := "DividendsPayableAmountPerShare"
  const DECLARED_CONCEPT := "DividendsPayableDateDeclaredDayMonthAndYear"
  const RECORD_CONCEPT := "DividendsPayableDateOfRecordDayMonthAndYear"
  const PAYMENT_CONCEPT := "DividendPayableDateToBePaidDayMonthAndYear"

  datatype Role = Declaration | Record | Payment

  /** A filing: accession number and filing date. */
  datatype Key = Key(accession: string, filed: string)

  /** A reported fact; its value as a number, if it is one, and as stripped text. */
  datatype Fact = NotAnObject | Fact(accession: string, filed: string, number: Option<real>, text: string)

  datatype Unit = Unit(name: string, facts: seq<Fact>)

  datatype Concept = Concept(namespace: string, tag: string, units: seq<Unit>)

  datatype Entry = Entry(key: Key, amount: real, unit: string, concept: string)

  datatype Event = Event(key: Key, amount: real, unit: string, concept: string,
                         declaration: Option<string>, record: Option<string>, payment: Option<string>)

  /** Dates reported under one filing. */
  datatype Group = Group(declaration: set<string>, record: set<string>, payment: set<string>)
  {
    /** No role has two values. */
    predicate Single() {
      |declaration| <= 1 && |record| <= 1 && |payment| <= 1
    }
  }

  // ---------------------------------------------------------------- which facts contribute

  function RoleOf(tag: string): Option<Role> {
    if tag == DECLARED_CONCEPT then Some(Declaration)
    else if tag == RECORD_CONCEPT then Some(Record)
    else if tag == PAYMENT_CONCEPT then Some(Payment)
    else None
  }

  function KeyOf(fact: Fact): (key: Option<Key>)
    ensures key.Some? ==> fact.Fact?
  {
    if fact.Fact? && fact.accession != "" && fact.filed != "" then Some(Key(fact.accession, fact.filed)) else None
  }

  /** Units that hold facts. */
  function Used(units: seq<Unit>): seq<Unit> {
    if units == [] then []
    else
      var last := units[|units| - 1];
      Used(units[..|units| - 1]) + (if last.facts != [] then [last] else [])
  }

  /** The preferred unit, else the only one there is. */
  function ChosenUnit(units: seq<Unit>): Option<Unit> {
    var used := Used(units);
    if exists u | u in used :: u.name == EPS_UNIT then Some(FirstNamed(used, EPS_UNIT))
    else if |used| == 1 then Some(used[0])
    else None
  }

  function FirstNamed(units: seq<Unit>, name: string): (u: Unit)
    requires exists u | u in units :: u.name == name
    ensures u in units && u.name == name
  {
    if units[0].name == name then units[0] else FirstNamed(units[1..], name)
  }

  function FactEntries(facts: seq<Fact>, unit: string, concept: string): seq<Entry> {
    if facts == [] then []
    else
      var last := facts[|facts| - 1];
      FactEntries(facts[..|facts| - 1], unit, concept) +
        (if KeyOf(last).Some? && last.number.Some? then [Entry(KeyOf(last).value, last.number.value, unit, concept)] else [])
  }

  function ConceptEntries(c: Concept): seq<Entry> {
    var unit := ChosenUnit(c.units);
    if c.tag != AMOUNT_CONCEPT || unit.None? then []
    else FactEntries(unit.value.facts, unit.value.name, c.namespace + ":" + c.tag)
  }

  function Entries(concepts: seq<Concept>): seq<Entry> {
    if concepts == [] then []
    else Entries(concepts[..|concepts| - 1]) + ConceptEntries(concepts[|concepts| - 1])
  }

  /** Date values that these facts report for a filing. */
  function FactDates(facts: seq<Fact>, key: Key): set<string> {
    set f | f in facts && KeyOf(f) == Some(key) && f.text != "" :: f.text
  }

  function UnitDates(units: seq<Unit>, key: Key): set<string> {
    if units == [] then {}
    else UnitDates(units[..|units| - 1], key) + FactDates(units[|units| - 1].facts, key)
  }

  function RoleDates(concepts: seq<Concept>, role: Role, key: Key): set<string> {
    if concepts == [] then {}
    else
      var last := concepts[|concepts| - 1];
      RoleDates(concepts[..|concepts| - 1], role, key) +
        (if RoleOf(last.tag) == Some(role) then UnitDates(last.units, key) else {})
  }

  function GroupOf(concepts: seq<Concept>, key: Key): Group {
    Group(RoleDates(concepts, Declaration, key), RoleDates(concepts, Record, key), RoleDates(concepts, Payment, key))
  }

  // ---------------------------------------------------------------- the events of one filing

  function KeyOfEntry(e: Entry): Key { e.key }

  function AmountOf(e: Entry): real { e.amount }

  function OfKey(key: Key): Entry -> bool {
    (e: Entry) => e.key == key
  }

  predicate AmountAtMost(a: real, b: real) { a <= b }

  predicate KeyAtMost(a: Key, b: Key) {
    if a.accession == b.accession then Text.Leq(a.filed, b.filed) else Text.Leq(a.accession, b.accession)
  }

  function SortedAmounts(entries: seq<Entry>): seq<real> {
    StableSort(Firsts(Ledger.Map(AmountOf, entries)), AmountAtMost)
  }

  function SortedKeys(entries: seq<Entry>): seq<Key> {
    StableSort(Firsts(Ledger.Map(KeyOfEntry, entries)), KeyAtMost)
  }

  /** The first entry of an amount gives its unit and concept. */
  function FirstEntry(entries: seq<Entry>, amount: real): Option<Entry> {
    if entries == [] then None
    else
      var front := FirstEntry(entries[..|entries| - 1], amount);
      if front.Some? then front
      else if entries[|entries| - 1].amount == amount then Some(entries[|entries| - 1])
      else None
  }

  predicate Paired(entries: seq<Entry>, group: Group) {
    |SortedAmounts(entries)| == 1 && group.Single()
  }

  lemma OnlyOne(values: set<string>, a: string, b: string)
    requires |values| <= 1 && a in values && b in values
    ensures a == b
  {
    assert |values - {a}| == |values| - 1;
  }

  function Only(values: set<string>): (r: Option<string>)
    requires |values| <= 1
    ensures r.None? <==> values == {}
    ensures r.Some? ==> r.value in values
  {
    if values == {} then None
    else
      assert forall a, b | a in values && b in values :: a == b by {
        forall a, b | a in values && b in values
          ensures a == b
        {
          OnlyOne(values, a, b);
        }
      }
      var v :| v in values;
      Some(v)
  }

  function EventOf(key: Key, entries: seq<Entry>, group: Group, amount: real): Event {
    var first := FirstEntry(entries, amount);
    var unit, concept := if first.Some? then first.value.unit else "", if first.Some? then first.value.concept else "";
    if Paired(entries, group) then
      Event(key, amount, unit, concept, Only(group.declaration), Only(group.record), Only(group.payment))
    else Event(key, amount, unit, concept, None, None, None)
  }

  function Maker(key: Key, entries: seq<Entry>, group: Group): real -> Event {
    (amount: real) => EventOf(key, entries, group, amount)
  }

  function GroupEvents(key: Key, entries: seq<Entry>, group: Group): seq<Event> {
    Ledger.Map(Maker(key, entries, group), SortedAmounts(entries))
  }

  function KeyEvents(concepts: seq<Concept>): Key -> seq<Event> {
    (key: Key) => GroupEvents(key, Ledger.Filter(Entries(concepts), OfKey(key)), GroupOf(concepts, key))
  }

  /** All events, filing by filing in key order, each filing's by amount. */
  function Events(concepts: seq<Concept>): seq<Event> {
    Flatten(SortedKeys(Entries(concepts)), KeyEvents(concepts))
  }

  // ---------------------------------------------------------------- collecting in place

  type Dates = map<Key, map<Role, set<string>>>

  function ValuesAt(dates: Dates, key: Key, role: Role): set<string> {
    if key in dates && role in dates[key] then dates[key][role] else {}
  }

  function ValuesIf(condition: bool, values: set<string>): set<string> {
    if condition then values else {}
  }

  function FactDate(fact: Fact, key: Key): set<string> {
    if KeyOf(fact) == Some(key) && fact.text != "" then {fact.text} else {}
  }

  lemma NoFactDates()
    ensures forall k :: FactDates([], k) == {}
  {
  }

  lemma FactDatesSnoc(facts: seq<Fact>, i: nat)
    requires i < |facts|
    ensures forall k :: FactDates(facts[..i + 1], k) == FactDates(facts[..i], k) + FactDate(facts[i], k)
  {
    assert facts[..i + 1] == facts[..i] + [facts[i]];
  }

  class Collector {
    var amounts: seq<Entry>
    var dates: Dates

    constructor ()
      ensures amounts == [] && dates == map[]
    {
      amounts, dates := [], map[];
    }

    /** setdefault(key, {}).setdefault(role, set()).add(value) */
    method AddDate(key: Key, role: Role, value: string)
      modifies this`dates
      ensures forall k, r :: ValuesAt(dates, k, r) == old(ValuesAt(dates, k, r)) + ValuesIf(k == key && r == role, {value})
    {
      var roles := if key in dates then dates[key] else map[];
      var values := if role in roles then roles[role] else {};
      dates := dates[key := roles[role := values + {value}]];
    }

    method CollectEventAmounts(c: Concept)
      requires c.tag == AMOUNT_CONCEPT
      modifies this`amounts
      ensures amounts == old(amounts) + ConceptEntries(c)
    {
      var unit := ChosenUnit(c.units);
      if unit.None? {
        return;
      }
      var facts, name := unit.value.facts, c.namespace + ":" + c.tag;
      for i := 0 to |facts|
        invariant amounts == old(amounts) + FactEntries(facts[..i], unit.value.name, name)
      {
        assert facts[..i + 1][..i] == facts[..i];
        var key := KeyOf(facts[i]);
        if key.Some? && facts[i].number.Some? {
          amounts := amounts + [Entry(key.value, facts[i].number.value, unit.value.name, name)];
        }
      }
      assert facts[..|facts|] == facts;
    }

    method CollectFactDates(facts: seq<Fact>, role: Role)
      modifies this`dates
      ensures forall k, r :: ValuesAt(dates, k, r) == old(ValuesAt(dates, k, r)) + ValuesIf(r == role, FactDates(facts, k))
    {
      hide FactDates, ValuesAt, KeyOf;
      assert forall k :: FactDates(facts[..0], k) == {} by {
        NoFactDates();
      }
      for i := 0 to |facts|
        invariant forall k, r :: ValuesAt(dates, k, r) == old(ValuesAt(dates, k, r)) + ValuesIf(r == role, FactDates(facts[..i], k))
      {
        FactDatesSnoc(facts, i);
        var key := KeyOf(facts[i]);
        if key.Some? && facts[i].text != "" {
          AddDate(key.value, role, facts[i].text);
        }
      }
      assert facts[..|facts|] == facts;
    }

    method CollectEventDates(units: seq<Unit>, role: Role)
      modifies this`dates
      ensures forall k, r :: ValuesAt(dates, k, r) == old(ValuesAt(dates, k, r)) + ValuesIf(r == role, UnitDates(units, k))
    {
      for i := 0 to |units|
        invariant forall k, r :: ValuesAt(dates, k, r) == old(ValuesAt(dates, k, r)) + ValuesIf(r == role, UnitDates(units[..i], k))
      {
        assert units[..i + 1][..i] == units[..i];
        CollectFactDates(units[i].facts, role);
      }
      assert units[..|units|] == units;
    }

    /** A concept gives amounts, or dates of one role, or nothing. */
    method ScanEventConcept(c: Concept)
      modifies this
      ensures amounts == old(amounts) + ConceptEntries(c)
      ensures forall k, r ::
        ValuesAt(dates, k, r) == old(ValuesAt(dates, k, r)) + ValuesIf(RoleOf(c.tag) == Some(r), UnitDates(c.units, k))
    {
      var role := RoleOf(c.tag);
      if c.tag == AMOUNT_CONCEPT {
        CollectEventAmounts(c);
      } else if role.Some? {
        CollectEventDates(c.units, role.value);
      }
    }
  }

  method GroupEventAmounts(amounts: seq<Entry>) returns (groups: map<Key, seq<Entry>>)
    ensures forall k :: k in groups <==> HasKey(amounts, k)
    ensures forall k | k in groups :: groups[k] == Ledger.Filter(amounts, OfKey(k))
  {
    hide Ledger.Filter;
    groups := map[];
    forall k
      ensures Ledger.Filter(amounts[..0], OfKey(k)) == []
    {
      Ledger.FilterNone(amounts[..0], OfKey(k));
    }
    for i := 0 to |amounts|
      invariant forall k :: k in groups <==> HasKey(amounts[..i], k)
      invariant forall k | k in groups :: groups[k] == Ledger.Filter(amounts[..i], OfKey(k))
      invariant forall k | k !in groups :: Ledger.Filter(amounts[..i], OfKey(k)) == []
    {
      var e := amounts[i];
      assert amounts[..i + 1] == amounts[..i] + [e];
      forall k
        ensures Ledger.Filter(amounts[..i + 1], OfKey(k)) ==
          Ledger.Filter(amounts[..i], OfKey(k)) + if e.key == k then [e] else []
      {
        Ledger.FilterSnoc(amounts[..i], e, OfKey(k));
      }
      var group := if e.key in groups then groups[e.key] else [];
      groups := groups[e.key := group + [e]];
    }
    assert amounts[..|amounts|] == amounts;
  }

  /** First unit and concept per distinct amount. */
  method DedupedAmounts(entries: seq<Entry>) returns (seen: map<real, (string, string)>)
    ensures forall a :: a in seen <==> FirstEntry(entries, a).Some?
    ensures forall a | a in seen :: var first := FirstEntry(entries, a).value; seen[a] == (first.unit, first.concept)
  {
    seen := map[];
    for i := 0 to |entries|
      invariant forall a :: a in seen <==> FirstEntry(entries[..i], a).Some?
      invariant forall a | a in seen :: var first := FirstEntry(entries[..i], a).value; seen[a] == (first.unit, first.concept)
    {
      assert entries[..i + 1][..i] == entries[..i];
      var e := entries[i];
      if e.amount !in seen {
        seen := seen[e.amount := (e.unit, e.concept)];
      }
    }
    assert entries[..|entries|] == entries;
  }

  method EmitGroupEvents(events: seq<Event>, key: Key, entries: seq<Entry>, group: Group) returns (all: seq<Event>)
    ensures all == events + GroupEvents(key, entries, group)
  {
    hide SortedAmounts, FirstEntry;
    all := events;
    var seen := DedupedAmounts(entries);
    var sorted := SortedAmounts(entries);
    var paired := |sorted| == 1 && group.Single();
    ghost var made := GroupEvents(key, entries, group);
    SortedAmountsAre(entries);
    for i := 0 to |sorted|
      invariant all == events + made[..i]
    {
      assert sorted[i] in sorted;
      FirstEntryIs(entries, sorted[i]);
      var (unit, concept) := seen[sorted[i]];
      var event := Event(key, sorted[i], unit, concept, None, None, None);
      if paired {
        event := event.(declaration := Only(group.declaration), record := Only(group.record), payment := Only(group.payment));
      }
      assert made[..i + 1] == made[..i] + [event];
      all := all + [event];
    }
    assert made[..|sorted|] == made;
  }

  method Collect(concepts: seq<Concept>) returns (collector: Collector)
    ensures fresh(collector) && collector.amounts == Entries(concepts)
    ensures forall k, r :: ValuesAt(collector.dates, k, r) == RoleDates(concepts, r, k)
  {
    hide ConceptEntries, UnitDates;
    collector := new Collector();
    for i := 0 to |concepts|
      invariant fresh(collector) && collector.amounts == Entries(concepts[..i])
      invariant forall k, r :: ValuesAt(collector.dates, k, r) == RoleDates(concepts[..i], r, k)
    {
      assert concepts[..i + 1][..i] == concepts[..i];
      collector.ScanEventConcept(concepts[i]);
    }
    assert concepts[..|concepts|] == concepts;
  }

  method ExtractDividendEvents(concepts: seq<Concept>) returns (events: seq<Event>)
    ensures events == Events(concepts)
  {
    hide SortedKeys, GroupEvents, Entries, RoleDates, Ledger.Filter, ValuesAt;
    var collector := Collect(concepts);
    var amounts, dates := collector.amounts, collector.dates;
    var groups := GroupEventAmounts(amounts);
    events := [];
    var keys := SortedKeys(amounts);
    for i := 0 to |keys|
      invariant events == Flatten(keys[..i], KeyEvents(concepts))
    {
      var key := keys[i];
      assert key in keys;
      SortedKeysAre(amounts, key);
      var group := Group(ValuesAt(dates, key, Declaration), ValuesAt(dates, key, Record),
                         ValuesAt(dates, key, Payment));
      events := EmitGroupEvents(events, key, groups[key], group);
      assert keys[..i + 1] == keys[..i] + [key];
      FlattenConcat(keys[..i], [key], KeyEvents(concepts));
      FlattenOne(key, KeyEvents(concepts));
    }
    assert keys[..|keys|] == keys;
  }

  predicate HasKey(entries: seq<Entry>, key: Key) {
    exists e | e in entries :: e.key == key
  }

  predicate HasAmount(entries: seq<Entry>, amount: real) {
    exists e | e in entries :: e.amount == amount
  }

  lemma SortedKeysAre(entries: seq<Entry>, key: Key)
    ensures key in SortedKeys(entries) <==> HasKey(entries, key)
  {
    var keys := Ledger.Map(KeyOfEntry, entries);
    assert key in SortedKeys(entries) <==> key in multiset(SortedKeys(entries));
    assert key in multiset(Firsts(keys)) <==> key in Firsts(keys);
    if e :| e in entries && e.key == key {
      var i :| 0 <= i < |entries| && entries[i] == e;
      assert keys[i] == key;
    }
  }

  lemma {:induction false} FirstEntryIs(entries: seq<Entry>, amount: real)
    ensures FirstEntry(entries, amount).Some? <==> HasAmount(entries, amount)
    ensures FirstEntry(entries, amount).Some? ==>
      FirstEntry(entries, amount).value in entries && FirstEntry(entries, amount).value.amount == amount
  {
    if entries != [] {
      var front, last := entries[..|entries| - 1], entries[|entries| - 1];
      FirstEntryIs(front, amount);
      assert entries == front + [last];
    }
  }

  lemma SortedAmountsAre(entries: seq<Entry>)
    ensures Distinct(SortedAmounts(entries))
    ensures forall a :: a in SortedAmounts(entries) <==> HasAmount(entries, a)
  {
    var amounts := Ledger.Map(AmountOf, entries);
    var sorted := SortedAmounts(entries);
    DistinctPermuted(Firsts(amounts), sorted);
    forall a
      ensures a in sorted <==> HasAmount(entries, a)
    {
      assert a in sorted <==> a in multiset(sorted);
      assert a in multiset(Firsts(amounts)) <==> a in Firsts(amounts);
      if e :| e in entries && e.amount == a {
        var i :| 0 <= i < |entries| && entries[i] == e;
        assert amounts[i] == a;
      }
    }
  }
}
