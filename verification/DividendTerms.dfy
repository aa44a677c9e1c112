/** Dividend events in terms of the reported facts alone (app/normalization.py). */
module DividendTerms {
  import opened Wrappers
  import opened Ordering
  import opened Dividends
  import opened DividendEvents
  import Ledger
  import Text

  // ---------------------------------------------------------------- the unit of a concept

  /** A preferred unit with facts, the first of its kind. */
  ghost predicate IsPreferred(units: seq<Unit>, i: nat) {
    && i < |units| && units[i].name == "USD/shares" && units[i].facts != []
    && forall j | 0 <= j < i :: units[j].name != "USD/shares" || units[j].facts == []
  }

  /** The only unit with facts. */
  ghost predicate IsSingle(units: seq<Unit>, i: nat) {
    i < |units| && units[i].facts != [] && forall j | 0 <= j < |units| && j != i :: units[j].facts == []
  }

  /** The unit that is read: the preferred one, else the only one with facts. */
  ghost predicate IsChosen(units: seq<Unit>, i: nat) {
    IsPreferred(units, i) || (IsSingle(units, i) && units[i].name != "USD/shares")
  }

  lemma {:induction false} UsedAre(units: seq<Unit>)
    ensures forall u :: u in Used(units) <==> u in units && u.facts != []
  {
    if units != [] {
      UsedAre(units[..|units| - 1]);
      assert units == units[..|units| - 1] + [units[|units| - 1]];
    }
  }

  lemma {:induction false} FirstNamedSnoc(units: seq<Unit>, u: Unit, name: string)
    ensures (exists x | x in units :: x.name == name) ==> FirstNamed(units + [u], name) == FirstNamed(units, name)
    ensures (forall x | x in units :: x.name != name) && u.name == name ==> FirstNamed(units + [u], name) == u
  {
    if units == [] {
      assert units + [u] == [u];
    } else {
      assert (units + [u])[1..] == units[1..] + [u];
      FirstNamedSnoc(units[1..], u, name);
    }
  }

  lemma {:induction false} PreferredIs(units: seq<Unit>) returns (i: nat)
    requires exists u | u in units :: u.name == "USD/shares" && u.facts != []
    ensures IsPreferred(units, i) && units[i] in Used(units) && FirstNamed(Used(units), "USD/shares") == units[i]
  {
    var n := |units| - 1;
    var front, last := units[..n], units[n];
    assert units == front + [last];
    UsedAre(front);
    UsedAre(units);
    FirstNamedSnoc(Used(front), last, "USD/shares");
    if exists u | u in front :: u.name == "USD/shares" && u.facts != [] {
      i := PreferredIs(front);
      assert Used(units) == Used(front) || Used(units) == Used(front) + [last];
    } else {
      i := n;
      assert forall j | 0 <= j < n :: units[j] in front;
    }
  }

  lemma {:induction false} SingleIs(units: seq<Unit>)
    ensures |Used(units)| == 0 <==> forall j | 0 <= j < |units| :: units[j].facts == []
    ensures |Used(units)| == 1 ==> exists i: nat :: IsSingle(units, i) && Used(units)[0] == units[i]
    ensures |Used(units)| >= 2 ==> forall i: nat :: !IsSingle(units, i)
  {
    if units != [] {
      var n := |units| - 1;
      var front, last := units[..n], units[n];
      assert units == front + [last] && forall j | 0 <= j < n :: units[j] == front[j];
      SingleIs(front);
      if last.facts == [] {
        assert Used(units) == Used(front);
        forall i: nat
          ensures IsSingle(units, i) <==> IsSingle(front, i)
        {
        }
      } else if |Used(front)| == 0 {
        assert IsSingle(units, n);
      } else {
        var k :| 0 <= k < n && front[k].facts != [];
        assert units[k].facts != [];
      }
    }
  }

  ghost predicate IsRead(units: seq<Unit>, u: Unit) {
    exists i: nat :: IsChosen(units, i) && units[i] == u
  }

  /** Which unit of a concept is read, if any. */
  lemma ChosenIs(units: seq<Unit>, u: Unit)
    ensures ChosenUnit(units) == Some(u) <==> IsRead(units, u)
  {
    hide Used, FirstNamed;
    UsedAre(units);
    SingleIs(units);
    if exists x | x in units :: x.name == "USD/shares" && x.facts != [] {
      var i := PreferredIs(units);
    }
  }

  // ---------------------------------------------------------------- amounts and dates

  /** A fact of this filing: both parts of its key are given. */
  ghost predicate IsOf(f: Fact, key: Key) {
    f.Fact? && f.accession == key.accession != "" && f.filed == key.filed != ""
  }

  ghost predicate GivesAmount(f: Fact, key: Key, amount: real) {
    IsOf(f, key) && f.number == Some(amount)
  }

  ghost predicate GivesDate(f: Fact, key: Key, value: string) {
    IsOf(f, key) && f.text == value != ""
  }

  /** An amount is reported for a filing iff a fact of it gives it, in the unit read of the amount concept. */
  lemma AmountReported(concepts: seq<Concept>, key: Key, amount: real)
    ensures Reported(concepts, key, amount) <==>
      exists c, u, f | c in concepts && c.tag == "DividendsPayableAmountPerShare" && IsRead(c.units, u) ::
        f in u.facts && GivesAmount(f, key, amount)
  {
    hide Entries, ConceptEntries, IsRead, GivesAmount;
    if Reported(concepts, key, amount) {
      var e :| e in Entries(concepts) && e.key == key && e.amount == amount;
      EntriesAre(concepts, e);
      var c :| c in concepts && e in ConceptEntries(c);
      ConceptEntryIs(c, e);
    }
    if c, u, f :| c in concepts && c.tag == "DividendsPayableAmountPerShare" && IsRead(c.units, u) && f in u.facts && GivesAmount(f, key, amount) {
      var e := Entry(key, amount, u.name, c.namespace + ":" + c.tag);
      ConceptEntryIs(c, e);
      EntriesAre(concepts, e);
    }
  }

  lemma SupportMeans(facts: seq<Fact>, e: Entry)
    ensures Supports(facts, e) <==> exists f | f in facts :: GivesAmount(f, e.key, e.amount)
  {
    if f :| f in facts && GivesAmount(f, e.key, e.amount) {
      assert KeyOf(f) == Some(e.key);
    }
  }

  /** A concept's amount rows, with the name of the unit read and the qualified name of the concept. */
  lemma ConceptEntryIs(c: Concept, e: Entry)
    ensures e in ConceptEntries(c) <==>
      && c.tag == "DividendsPayableAmountPerShare" && e.concept == c.namespace + ":" + c.tag
      && exists u, f | IsRead(c.units, u) && e.unit == u.name :: f in u.facts && GivesAmount(f, e.key, e.amount)
  {
    hide ChosenUnit, IsRead, Supports, GivesAmount;
    forall u
      ensures ChosenUnit(c.units) == Some(u) <==> IsRead(c.units, u)
    {
      ChosenIs(c.units, u);
    }
    if ChosenUnit(c.units).Some? {
      var unit := ChosenUnit(c.units).value;
      FactEntriesAre(unit.facts, unit.name, c.namespace + ":" + c.tag, e);
      SupportMeans(unit.facts, e);
    }
  }

  /** A date is reported for a filing under this tag. */
  ghost predicate DateReported(concepts: seq<Concept>, tag: string, key: Key, value: string) {
    exists c, u, f | c in concepts && c.tag == tag && u in c.units :: f in u.facts && GivesDate(f, key, value)
  }

  lemma {:induction false} UnitDatesAre(units: seq<Unit>, key: Key, value: string)
    ensures value in UnitDates(units, key) <==>
      exists u, f | u in units :: f in u.facts && GivesDate(f, key, value)
  {
    if units != [] {
      var front, last := units[..|units| - 1], units[|units| - 1];
      UnitDatesAre(front, key, value);
      assert units == front + [last];
      assert value in FactDates(last.facts, key) <==> exists f | f in last.facts :: GivesDate(f, key, value);
    }
  }

  lemma RoleDatesReported(concepts: seq<Concept>, role: Role, tag: string, key: Key, value: string)
    requires forall t :: RoleOf(t) == Some(role) <==> t == tag
    ensures value in RoleDates(concepts, role, key) <==> DateReported(concepts, tag, key, value)
  {
    hide RoleDates, UnitDates, RoleOf, GivesDate;
    RoleDatesAre(concepts, role, key, value);
    if value in RoleDates(concepts, role, key) {
      var c :| c in concepts && RoleOf(c.tag) == Some(role) && value in UnitDates(c.units, key);
      UnitDatesAre(c.units, key, value);
    }
    if DateReported(concepts, tag, key, value) {
      var c, u, f :| c in concepts && c.tag == tag && u in c.units && f in u.facts && GivesDate(f, key, value);
      UnitDatesAre(c.units, key, value);
    }
  }

  /** The dates of a filing, by the concept that reports them. */
  lemma DatesReported(concepts: seq<Concept>, key: Key, value: string)
    ensures var group := GroupOf(concepts, key);
      && (value in group.declaration <==> DateReported(concepts, "DividendsPayableDateDeclaredDayMonthAndYear", key, value))
      && (value in group.record <==> DateReported(concepts, "DividendsPayableDateOfRecordDayMonthAndYear", key, value))
      && (value in group.payment <==> DateReported(concepts, "DividendPayableDateToBePaidDayMonthAndYear", key, value))
  {
    hide RoleDates, DateReported;
    RolesAreTold();
    RoleDatesReported(concepts, Declaration, "DividendsPayableDateDeclaredDayMonthAndYear", key, value);
    RoleDatesReported(concepts, Record, "DividendsPayableDateOfRecordDayMonthAndYear", key, value);
    RoleDatesReported(concepts, Payment, "DividendPayableDateToBePaidDayMonthAndYear", key, value);
  }

  lemma RolesAreTold()
    ensures forall t :: RoleOf(t) == Some(Declaration) <==> t == "DividendsPayableDateDeclaredDayMonthAndYear"
    ensures forall t :: RoleOf(t) == Some(Record) <==> t == "DividendsPayableDateOfRecordDayMonthAndYear"
    ensures forall t :: RoleOf(t) == Some(Payment) <==> t == "DividendPayableDateToBePaidDayMonthAndYear"
  {
    assert DECLARED_CONCEPT[20] != RECORD_CONCEPT[20];
    assert DECLARED_CONCEPT[8] != PAYMENT_CONCEPT[8] && RECORD_CONCEPT[8] != PAYMENT_CONCEPT[8];
  }

  /** At most one value is reported for the filing under this tag. */
  ghost predicate AtMostOne(concepts: seq<Concept>, tag: string, key: Key) {
    forall v, w | DateReported(concepts, tag, key, v) && DateReported(concepts, tag, key, w) :: v == w
  }

  lemma SmallMeansEqual(values: set<string>)
    ensures |values| <= 1 <==> forall v, w | v in values && w in values :: v == w
  {
    if |values| <= 1 {
      forall v, w | v in values && w in values
        ensures v == w
      {
        OnlyOne(values, v, w);
      }
    } else {
      var v :| v in values;
      assert |values - {v}| >= 1;
      var w :| w in values - {v};
    }
  }

  lemma SingleMeans(concepts: seq<Concept>, key: Key)
    ensures GroupOf(concepts, key).Single() <==>
      && AtMostOne(concepts, "DividendsPayableDateDeclaredDayMonthAndYear", key)
      && AtMostOne(concepts, "DividendsPayableDateOfRecordDayMonthAndYear", key)
      && AtMostOne(concepts, "DividendPayableDateToBePaidDayMonthAndYear", key)
  {
    hide RoleDates, DateReported;
    var group := GroupOf(concepts, key);
    forall value
      ensures value in group.declaration <==> DateReported(concepts, "DividendsPayableDateDeclaredDayMonthAndYear", key, value)
      ensures value in group.record <==> DateReported(concepts, "DividendsPayableDateOfRecordDayMonthAndYear", key, value)
      ensures value in group.payment <==> DateReported(concepts, "DividendPayableDateToBePaidDayMonthAndYear", key, value)
    {
      DatesReported(concepts, key, value);
    }
    SmallMeansEqual(group.declaration);
    SmallMeansEqual(group.record);
    SmallMeansEqual(group.payment);
  }

  /** The date fields of an event, for every set of facts. */
  lemma EventDates(concepts: seq<Concept>, x: Event)
    requires x in Events(concepts)
    ensures var certain :=
        && (forall amount | Reported(concepts, x.key, amount) :: amount == x.amount)
        && AtMostOne(concepts, "DividendsPayableDateDeclaredDayMonthAndYear", x.key)
        && AtMostOne(concepts, "DividendsPayableDateOfRecordDayMonthAndYear", x.key)
        && AtMostOne(concepts, "DividendPayableDateToBePaidDayMonthAndYear", x.key);
      forall v ::
        && (x.declaration == Some(v) <==> certain && DateReported(concepts, "DividendsPayableDateDeclaredDayMonthAndYear", x.key, v))
        && (x.record == Some(v) <==> certain && DateReported(concepts, "DividendsPayableDateOfRecordDayMonthAndYear", x.key, v))
        && (x.payment == Some(v) <==> certain && DateReported(concepts, "DividendPayableDateToBePaidDayMonthAndYear", x.key, v))
  {
    hide Events, GroupOf, Reported, DateReported, AtMostOne, EventFor;
    EventsAre(concepts, x);
    DatesAreOwnAndCertain(concepts, x);
    SingleMeans(concepts, x.key);
    var group := GroupOf(concepts, x.key);
    forall v
      ensures v in group.declaration <==> DateReported(concepts, "DividendsPayableDateDeclaredDayMonthAndYear", x.key, v)
      ensures v in group.record <==> DateReported(concepts, "DividendsPayableDateOfRecordDayMonthAndYear", x.key, v)
      ensures v in group.payment <==> DateReported(concepts, "DividendPayableDateToBePaidDayMonthAndYear", x.key, v)
    {
      DatesReported(concepts, x.key, v);
    }
    if group.Single() {
      SmallMeansEqual(group.declaration);
      SmallMeansEqual(group.record);
      SmallMeansEqual(group.payment);
    }
  }

  // ---------------------------------------------------------------- order and labels

  /** Filings in order of accession and date, and each filing's events by rising amount. */
  ghost predicate Before(a: Event, b: Event) {
    if a.key == b.key then a.amount < b.amount
    else if a.key.accession == b.key.accession then Text.Leq(a.key.filed, b.key.filed)
    else Text.Leq(a.key.accession, b.key.accession)
  }

  lemma GroupInOrder(key: Key, entries: seq<Entry>, group: Group, i: nat, j: nat)
    requires i < j < |GroupEvents(key, entries, group)|
    ensures Before(GroupEvents(key, entries, group)[i], GroupEvents(key, entries, group)[j])
  {
    hide FirstEntry, Paired, Firsts;
    SortedAmountsAre(entries);
    AmountOrder();
    SortSorted(Firsts(Ledger.Map(AmountOf, entries)), AmountAtMost);
    var amounts := SortedAmounts(entries);
    assert AmountAtMost(amounts[i], amounts[j]) && amounts[i] != amounts[j];
  }

  ghost predicate InOrder(events: seq<Event>) {
    forall i, j | 0 <= i < j < |events| :: Before(events[i], events[j])
  }

  lemma {:induction false} FlattenInOrder(keys: seq<Key>, block: Key -> seq<Event>)
    requires Sorted(keys, KeyAtMost) && Distinct(keys)
    requires forall k | k in keys :: InOrder(block(k)) && forall e | e in block(k) :: e.key == k
    ensures InOrder(Flatten(keys, block))
  {
    hide Before, KeyAtMost;
    if keys != [] {
      var first, rest := block(keys[0]), Flatten(keys[1..], block);
      assert keys[0] in keys && forall k | k in keys[1..] :: k in keys;
      assert Sorted(keys[1..], KeyAtMost);
      FlattenInOrder(keys[1..], block);
      forall x, y | x in first && y in rest
        ensures Before(x, y)
      {
        InFlatten(keys[1..], block, y);
        var k :| k in keys[1..] && y in block(k);
        var i :| 1 <= i < |keys| && keys[i] == k;
        KeysBefore(x, y);
      }
      var all := Flatten(keys, block);
      assert all == first + rest;
      forall i, j | 0 <= i < j < |all|
        ensures Before(all[i], all[j])
      {
        if j < |first| {
          assert Before(first[i], first[j]);
        } else if i >= |first| {
          assert Before(rest[i - |first|], rest[j - |first|]);
        } else {
          assert first[i] in first && rest[j - |first|] in rest;
        }
      }
    }
  }

  lemma KeysBefore(x: Event, y: Event)
    requires KeyAtMost(x.key, y.key) && x.key != y.key
    ensures Before(x, y)
  {
  }

  /** The events come filing by filing, each filing's by amount. */
  lemma EventsInOrder(concepts: seq<Concept>)
    ensures InOrder(Events(concepts))
  {
    hide GroupEvents, SortedKeys, Entries, Before;
    var entries := Entries(concepts);
    SortedKeysDistinct(entries);
    KeysSorted(entries);
    forall k | k in SortedKeys(entries)
      ensures InOrder(KeyEvents(concepts)(k)) && forall e | e in KeyEvents(concepts)(k) :: e.key == k
    {
      var mine, group := Ledger.Filter(entries, OfKey(k)), GroupOf(concepts, k);
      GroupEventsDistinct(k, mine, group);
      forall i, j | 0 <= i < j < |GroupEvents(k, mine, group)|
        ensures Before(GroupEvents(k, mine, group)[i], GroupEvents(k, mine, group)[j])
      {
        GroupInOrder(k, mine, group, i, j);
      }
    }
    FlattenInOrder(SortedKeys(entries), KeyEvents(concepts));
  }

  lemma KeysSorted(entries: seq<Entry>)
    ensures Sorted(SortedKeys(entries), KeyAtMost)
  {
    hide Firsts, KeyAtMost;
    KeyOrder();
    SortSorted(Firsts(Ledger.Map(KeyOfEntry, entries)), KeyAtMost);
  }

  /** Row i is the first of this filing and amount. */
  ghost predicate IsFirstRow(entries: seq<Entry>, key: Key, amount: real, i: nat) {
    && i < |entries| && entries[i].key == key && entries[i].amount == amount
    && forall j | 0 <= j < i :: entries[j].key != key || entries[j].amount != amount
  }

  lemma {:induction false} FirstRowIs(entries: seq<Entry>, key: Key, amount: real) returns (i: nat)
    requires exists e | e in entries :: e.key == key && e.amount == amount
    ensures IsFirstRow(entries, key, amount, i)
    ensures FirstEntry(Ledger.Filter(entries, OfKey(key)), amount) == Some(entries[i])
  {
    hide Ledger.Filter;
    var n := |entries| - 1;
    var front, last := entries[..n], entries[n];
    assert entries == front + [last];
    Ledger.FilterSnoc(front, last, OfKey(key));
    var mine := Ledger.Filter(front, OfKey(key));
    assert (mine + [last])[..|mine|] == mine && mine + [] == mine;
    FirstEntryIs(mine, amount);
    if exists e | e in front :: e.key == key && e.amount == amount {
      i := FirstRowIs(front, key, amount);
    } else {
      i := n;
      assert forall j | 0 <= j < n :: entries[j] in front;
    }
  }

  /** An event has the unit and concept of the first row of its filing and amount. */
  lemma EventLabels(concepts: seq<Concept>, x: Event) returns (i: nat)
    requires x in Events(concepts)
    ensures IsFirstRow(Entries(concepts), x.key, x.amount, i)
    ensures x.unit == Entries(concepts)[i].unit && x.concept == Entries(concepts)[i].concept
  {
    hide Events, Entries, FirstEntry, Paired, GroupOf, Ledger.Filter;
    EventsAre(concepts, x);
    i := FirstRowIs(Entries(concepts), x.key, x.amount);
  }
}
