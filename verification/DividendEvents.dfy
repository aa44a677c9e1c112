/** What the extracted dividend events are, for every set of facts (app/normalization.py). */
module DividendEvents {
  import opened Wrappers
  import opened Ordering
  import opened Dividends
  import Ledger
  import Text

  // ---------------------------------------------------------------- which events there are

  lemma SortedKeysDistinct(entries: seq<Entry>)
    ensures Distinct(SortedKeys(entries))
  {
    var keys := Ledger.Map(KeyOfEntry, entries);
    DistinctPermuted(Firsts(keys), SortedKeys(entries));
  }

  /** The event of one filing and amount. */
  function EventFor(concepts: seq<Concept>, key: Key, amount: real): Event {
    EventOf(key, Ledger.Filter(Entries(concepts), OfKey(key)), GroupOf(concepts, key), amount)
  }

  predicate Reported(concepts: seq<Concept>, key: Key, amount: real) {
    exists e | e in Entries(concepts) :: e.key == key && e.amount == amount
  }

  lemma KeyEventReported(concepts: seq<Concept>, key: Key, x: Event)
    requires x in KeyEvents(concepts)(key)
    ensures x == EventFor(concepts, key, x.amount) && Reported(concepts, key, x.amount)
  {
    hide SortedAmounts, Entries, GroupOf, FirstEntry, Paired, Ledger.Filter;
    var mine := Ledger.Filter(Entries(concepts), OfKey(key));
    SortedAmountsAre(mine);
    var amounts, events := SortedAmounts(mine), KeyEvents(concepts)(key);
    var i :| 0 <= i < |events| && events[i] == x;
    assert amounts[i] in amounts;
    ReportedIn(concepts, key, amounts[i]);
  }

  lemma ReportedEmitted(concepts: seq<Concept>, key: Key, amount: real)
    requires Reported(concepts, key, amount)
    ensures EventFor(concepts, key, amount) in KeyEvents(concepts)(key)
  {
    hide SortedAmounts, Entries, GroupOf, FirstEntry, Paired, Ledger.Filter;
    var mine := Ledger.Filter(Entries(concepts), OfKey(key));
    SortedAmountsAre(mine);
    ReportedIn(concepts, key, amount);
    var amounts, events := SortedAmounts(mine), KeyEvents(concepts)(key);
    var i :| 0 <= i < |amounts| && amounts[i] == amount;
    assert events[i] in events;
  }

  lemma KeyEventsAre(concepts: seq<Concept>, key: Key, x: Event)
    ensures x in KeyEvents(concepts)(key) <==>
      x == EventFor(concepts, key, x.amount) && Reported(concepts, key, x.amount)
  {
    hide KeyEvents, EventFor, Reported;
    if x in KeyEvents(concepts)(key) {
      KeyEventReported(concepts, key, x);
    }
    if x == EventFor(concepts, key, x.amount) && Reported(concepts, key, x.amount) {
      ReportedEmitted(concepts, key, x.amount);
    }
  }

  /** An event is emitted iff it is the one of a reported (accession, filed, amount). */
  lemma EventsAre(concepts: seq<Concept>, x: Event)
    ensures x in Events(concepts) <==> x == EventFor(concepts, x.key, x.amount) && Reported(concepts, x.key, x.amount)
  {
    hide KeyEvents, EventOf, SortedKeys, Entries;
    InFlatten(SortedKeys(Entries(concepts)), KeyEvents(concepts), x);
    forall k
      ensures x in KeyEvents(concepts)(k) <==> x == EventFor(concepts, k, x.amount) && Reported(concepts, k, x.amount)
      ensures EventFor(concepts, k, x.amount).key == k
      ensures k in SortedKeys(Entries(concepts)) <==> HasKey(Entries(concepts), k)
    {
      KeyEventsAre(concepts, k, x);
      SortedKeysAre(Entries(concepts), k);
      EventKey(concepts, k, x.amount);
    }
  }

  lemma EventKey(concepts: seq<Concept>, key: Key, amount: real)
    ensures EventFor(concepts, key, amount).key == key && EventFor(concepts, key, amount).amount == amount
  {
  }

  datatype Id = Id(key: Key, amount: real)

  function IdOf(e: Event): Id {
    Id(e.key, e.amount)
  }

  lemma {:induction false} FlattenDistinct(keys: seq<Key>, block: Key -> seq<Event>)
    requires Distinct(keys)
    requires forall k, e | k in keys && e in block(k) :: e.key == k
    requires forall k | k in keys :: Distinct(Ledger.Map(IdOf, block(k)))
    ensures Distinct(Ledger.Map(IdOf, Flatten(keys, block)))
  {
    if keys != [] {
      var first, rest := block(keys[0]), Flatten(keys[1..], block);
      assert keys[0] in keys && forall k | k in keys[1..] :: k in keys;
      FlattenDistinct(keys[1..], block);
      forall e | e in rest
        ensures e.key != keys[0]
      {
        InFlatten(keys[1..], block, e);
      }
      var ids := Ledger.Map(IdOf, first + rest);
      forall i, j | 0 <= i < j < |ids|
        ensures ids[i] != ids[j]
      {
        if j < |first| {
          assert Ledger.Map(IdOf, first)[i] != Ledger.Map(IdOf, first)[j];
        } else if i >= |first| {
          assert Ledger.Map(IdOf, rest)[i - |first|] != Ledger.Map(IdOf, rest)[j - |first|];
        } else {
          assert first[i] in first && rest[j - |first|] in rest;
        }
      }
    }
  }

  lemma GroupEventsDistinct(key: Key, entries: seq<Entry>, group: Group)
    ensures Distinct(Ledger.Map(IdOf, GroupEvents(key, entries, group)))
    ensures forall e | e in GroupEvents(key, entries, group) :: e.key == key
  {
    hide SortedAmounts, FirstEntry, Paired;
    SortedAmountsAre(entries);
  }

  /** With EventsAre: exactly one event per distinct (accession, filed, amount). */
  lemma OneEventEach(concepts: seq<Concept>)
    ensures Distinct(Ledger.Map(IdOf, Events(concepts)))
  {
    hide GroupEvents, SortedKeys, Entries;
    var keys := SortedKeys(Entries(concepts));
    SortedKeysDistinct(Entries(concepts));
    forall k | k in keys
      ensures Distinct(Ledger.Map(IdOf, KeyEvents(concepts)(k)))
      ensures forall e | e in KeyEvents(concepts)(k) :: e.key == k
    {
      GroupEventsDistinct(k, Ledger.Filter(Entries(concepts), OfKey(k)), GroupOf(concepts, k));
    }
    FlattenDistinct(keys, KeyEvents(concepts));
  }

  // ---------------------------------------------------------------- which dates they carry

  /** The filing reports one distinct amount. */
  ghost predicate OneAmount(concepts: seq<Concept>, key: Key) {
    exists amount :: Reported(concepts, key, amount) && forall other | Reported(concepts, key, other) :: other == amount
  }

  lemma PairedMeans(concepts: seq<Concept>, key: Key)
    ensures Paired(Ledger.Filter(Entries(concepts), OfKey(key)), GroupOf(concepts, key)) <==>
      OneAmount(concepts, key) && GroupOf(concepts, key).Single()
  {
    hide SortedAmounts, Entries, GroupOf, Ledger.Filter;
    var mine := Ledger.Filter(Entries(concepts), OfKey(key));
    var amounts := SortedAmounts(mine);
    SortedAmountsAre(mine);
    forall a
      ensures a in amounts <==> Reported(concepts, key, a)
    {
      ReportedIn(concepts, key, a);
    }
    if |amounts| == 1 {
      assert Reported(concepts, key, amounts[0]) by {
        assert amounts[0] in amounts;
      }
      forall other | Reported(concepts, key, other)
        ensures other == amounts[0]
      {
        assert other in amounts;
      }
      assert OneAmount(concepts, key);
    } else if |amounts| >= 2 {
      assert amounts[0] in amounts && amounts[1] in amounts && amounts[0] != amounts[1];
    }
  }

  /**
   Dates never pair ambiguously: an event has them exactly when its filing has one distinct amount
   and at most one value per role, and then they are precisely what that filing reports.
   */
  lemma DatesAreOwnAndCertain(concepts: seq<Concept>, x: Event)
    requires x in Events(concepts)
    ensures var group := GroupOf(concepts, x.key);
      if OneAmount(concepts, x.key) && group.Single() then
        x.declaration == Only(group.declaration) && x.record == Only(group.record) && x.payment == Only(group.payment)
      else x.declaration == x.record == x.payment == None
  {
    hide Events, Entries, GroupOf, Reported, FirstEntry, Paired;
    EventsAre(concepts, x);
    PairedMeans(concepts, x.key);
  }

  // ---------------------------------------------------------------- order

  /** An event without its unit and concept. */
  function Core(e: Event): Event {
    e.(unit := "", concept := "")
  }

  lemma {:induction false} SameElements<T>(a: seq<T>, b: seq<T>)
    requires Distinct(a) && Distinct(b) && forall x :: x in a <==> x in b
    ensures multiset(a) == multiset(b)
  {
    DistinctCounts(a);
    DistinctCounts(b);
    forall x
      ensures multiset(a)[x] == multiset(b)[x]
    {
      assert x in multiset(a) <==> x in a;
      assert x in multiset(b) <==> x in b;
    }
  }

  lemma AmountOrder()
    ensures TotalPreorder(AmountAtMost) && forall x, y :: AmountAtMost(x, y) && AmountAtMost(y, x) ==> x == y
  {
  }

  lemma KeyOrder()
    ensures TotalPreorder(KeyAtMost) && forall x, y :: KeyAtMost(x, y) && KeyAtMost(y, x) ==> x == y
  {
    forall x, y
      ensures KeyAtMost(x, y) || KeyAtMost(y, x)
      ensures KeyAtMost(x, y) && KeyAtMost(y, x) ==> x == y
    {
      KeyTotal(x, y);
    }
    forall x, y, z | KeyAtMost(x, y) && KeyAtMost(y, z)
      ensures KeyAtMost(x, z)
    {
      KeyTransitive(x, y, z);
    }
  }

  lemma KeyTotal(x: Key, y: Key)
    ensures KeyAtMost(x, y) || KeyAtMost(y, x)
    ensures KeyAtMost(x, y) && KeyAtMost(y, x) ==> x == y
  {
    Text.LeqTotal(x.accession, y.accession);
    Text.LeqTotal(x.filed, y.filed);
    if KeyAtMost(x, y) && KeyAtMost(y, x) {
      if x.accession != y.accession {
        Text.LeqAntisymmetric(x.accession, y.accession);
      } else {
        Text.LeqAntisymmetric(x.filed, y.filed);
      }
    }
  }

  lemma KeyTransitive(x: Key, y: Key, z: Key)
    requires KeyAtMost(x, y) && KeyAtMost(y, z)
    ensures KeyAtMost(x, z)
  {
    if x.accession == y.accession && y.accession == z.accession {
      Text.LeqTransitive(x.filed, y.filed, z.filed);
    } else if x.accession == z.accession {
      Text.LeqAntisymmetric(x.accession, y.accession);
    } else if x.accession != y.accession && y.accession != z.accession {
      Text.LeqTransitive(x.accession, y.accession, z.accession);
    }
  }

  lemma SameSortedAmounts(a: seq<Entry>, b: seq<Entry>)
    requires forall amount :: HasAmount(a, amount) <==> HasAmount(b, amount)
    ensures SortedAmounts(a) == SortedAmounts(b)
  {
    SortedAmountsAre(a);
    SortedAmountsAre(b);
    hide Firsts, Ledger.Map, HasAmount;
    forall x
      ensures x in SortedAmounts(a) <==> x in SortedAmounts(b)
    {
      assert x in SortedAmounts(a) <==> HasAmount(a, x);
      assert x in SortedAmounts(b) <==> HasAmount(b, x);
    }
    SameElements(SortedAmounts(a), SortedAmounts(b));
    AmountOrder();
    SortSorted(Firsts(Ledger.Map(AmountOf, a)), AmountAtMost);
    SortSorted(Firsts(Ledger.Map(AmountOf, b)), AmountAtMost);
    SortedUnique(SortedAmounts(a), SortedAmounts(b), AmountAtMost);
  }

  lemma SameSortedKeys(a: seq<Entry>, b: seq<Entry>)
    requires forall key :: HasKey(a, key) <==> HasKey(b, key)
    ensures SortedKeys(a) == SortedKeys(b)
  {
    SortedKeysDistinct(a);
    SortedKeysDistinct(b);
    hide Firsts, Ledger.Map, KeyAtMost;
    forall key
      ensures key in SortedKeys(a) <==> key in SortedKeys(b)
    {
      SortedKeysAre(a, key);
      SortedKeysAre(b, key);
    }
    SameElements(SortedKeys(a), SortedKeys(b));
    KeyOrder();
    SortSorted(Firsts(Ledger.Map(KeyOfEntry, a)), KeyAtMost);
    SortSorted(Firsts(Ledger.Map(KeyOfEntry, b)), KeyAtMost);
    SortedUnique(SortedKeys(a), SortedKeys(b), KeyAtMost);
  }

  lemma {:induction false} FlattenCores(keys: seq<Key>, f: Key -> seq<Event>, g: Key -> seq<Event>)
    requires forall k | k in keys :: Ledger.Map(Core, f(k)) == Ledger.Map(Core, g(k))
    ensures Ledger.Map(Core, Flatten(keys, f)) == Ledger.Map(Core, Flatten(keys, g))
  {
    if keys != [] {
      assert forall k | k in keys[1..] :: k in keys;
      FlattenCores(keys[1..], f, g);
      Ledger.MapConcat(Core, f(keys[0]), Flatten(keys[1..], f));
      Ledger.MapConcat(Core, g(keys[0]), Flatten(keys[1..], g));
    }
  }

  /** The same amounts and dates under the same filings. */
  ghost predicate SameReports(a: seq<Concept>, b: seq<Concept>) {
    && (forall key, amount :: Reported(a, key, amount) <==> Reported(b, key, amount))
    && (forall key :: GroupOf(a, key) == GroupOf(b, key))
  }

  lemma SameGroupCores(a: seq<Concept>, b: seq<Concept>, key: Key)
    requires SameReports(a, b)
    ensures Ledger.Map(Core, KeyEvents(a)(key)) == Ledger.Map(Core, KeyEvents(b)(key))
  {
    hide SortedAmounts, Entries, GroupOf, FirstEntry, Ledger.Filter;
    var mine, yours := Ledger.Filter(Entries(a), OfKey(key)), Ledger.Filter(Entries(b), OfKey(key));
    forall amount
      ensures HasAmount(mine, amount) <==> HasAmount(yours, amount)
    {
      ReportedIn(a, key, amount);
      ReportedIn(b, key, amount);
    }
    SameSortedAmounts(mine, yours);
  }

  lemma ReportedIn(concepts: seq<Concept>, key: Key, amount: real)
    ensures Reported(concepts, key, amount) <==> HasAmount(Ledger.Filter(Entries(concepts), OfKey(key)), amount)
  {
    hide Entries, Ledger.Filter;
    if e :| e in Entries(concepts) && e.key == key && e.amount == amount {
      assert OfKey(key)(e);
    }
  }

  /** The events, in order, are determined by what is reported, up to unit and concept. */
  lemma OrderIrrelevant(a: seq<Concept>, b: seq<Concept>)
    requires SameReports(a, b)
    ensures Ledger.Map(Core, Events(a)) == Ledger.Map(Core, Events(b))
  {
    hide SortedKeys, Entries, GroupOf, KeyEvents;
    forall key
      ensures HasKey(Entries(a), key) <==> HasKey(Entries(b), key)
    {
      if e :| e in Entries(a) && e.key == key {
        assert Reported(a, key, e.amount);
      }
      if e :| e in Entries(b) && e.key == key {
        assert Reported(b, key, e.amount);
      }
    }
    SameSortedKeys(Entries(a), Entries(b));
    var keys := SortedKeys(Entries(a));
    forall k | k in keys
      ensures Ledger.Map(Core, KeyEvents(a)(k)) == Ledger.Map(Core, KeyEvents(b)(k))
    {
      SameGroupCores(a, b, k);
    }
    FlattenCores(keys, KeyEvents(a), KeyEvents(b));
  }

  lemma {:induction false} EntriesAre(concepts: seq<Concept>, e: Entry)
    ensures e in Entries(concepts) <==> exists c | c in concepts :: e in ConceptEntries(c)
  {
    hide ConceptEntries;
    if concepts != [] {
      var front, last := concepts[..|concepts| - 1], concepts[|concepts| - 1];
      EntriesAre(front, e);
      assert concepts == front + [last];
    }
  }

  lemma {:induction false} RoleDatesAre(concepts: seq<Concept>, role: Role, key: Key, value: string)
    ensures value in RoleDates(concepts, role, key) <==>
      exists c | c in concepts :: RoleOf(c.tag) == Some(role) && value in UnitDates(c.units, key)
  {
    hide RoleOf, UnitDates;
    if concepts != [] {
      var front, last := concepts[..|concepts| - 1], concepts[|concepts| - 1];
      RoleDatesAre(front, role, key, value);
      assert concepts == front + [last];
    }
  }

  lemma SameRoleDates(a: seq<Concept>, b: seq<Concept>, role: Role, key: Key)
    requires forall c :: c in a <==> c in b
    ensures RoleDates(a, role, key) == RoleDates(b, role, key)
  {
    hide RoleOf, UnitDates, RoleDates;
    forall value
      ensures value in RoleDates(a, role, key) <==> value in RoleDates(b, role, key)
    {
      RoleDatesAre(a, role, key, value);
      RoleDatesAre(b, role, key, value);
    }
  }

  /** Namespaces and concepts may come in any order. */
  lemma ConceptOrderIrrelevant(a: seq<Concept>, b: seq<Concept>)
    requires forall c :: c in a <==> c in b
    ensures Ledger.Map(Core, Events(a)) == Ledger.Map(Core, Events(b))
  {
    hide Entries, RoleDates, Events;
    forall e
      ensures e in Entries(a) <==> e in Entries(b)
    {
      EntriesAre(a, e);
      EntriesAre(b, e);
    }
    forall key, amount
      ensures Reported(a, key, amount) <==> Reported(b, key, amount)
    {
    }
    forall key
      ensures GroupOf(a, key) == GroupOf(b, key)
    {
      SameRoleDates(a, b, Declaration, key);
      SameRoleDates(a, b, Record, key);
      SameRoleDates(a, b, Payment, key);
    }
    OrderIrrelevant(a, b);
  }

  /** Which amount rows a unit gives depends on its set of facts only. */
  lemma {:induction false} FactEntriesAre(facts: seq<Fact>, unit: string, concept: string, e: Entry)
    ensures e in FactEntries(facts, unit, concept) <==> e.unit == unit && e.concept == concept && Supports(facts, e)
  {
    if facts != [] {
      var front, last := facts[..|facts| - 1], facts[|facts| - 1];
      FactEntriesAre(front, unit, concept, e);
      assert facts == front + [last];
    }
  }

  predicate Supports(facts: seq<Fact>, e: Entry) {
    exists f | f in facts :: KeyOf(f) == Some(e.key) && f.number == Some(e.amount)
  }

  // ---------------------------------------------------------------- reordered facts

  /** The same unit with its facts in any order. */
  ghost predicate SameUnit(a: Unit, b: Unit) {
    a.name == b.name && multiset(a.facts) == multiset(b.facts)
  }

  ghost predicate SameUnits(a: seq<Unit>, b: seq<Unit>) {
    |a| == |b| && forall i | 0 <= i < |a| :: SameUnit(a[i], b[i])
  }

  ghost predicate SameConcept(a: Concept, b: Concept) {
    a.namespace == b.namespace && a.tag == b.tag && SameUnits(a.units, b.units)
  }

  /** The same concepts, position by position, with the facts of each unit in any order. */
  ghost predicate FactsReordered(a: seq<Concept>, b: seq<Concept>) {
    |a| == |b| && forall i | 0 <= i < |a| :: SameConcept(a[i], b[i])
  }

  lemma SameFacts(a: seq<Fact>, b: seq<Fact>)
    requires multiset(a) == multiset(b)
    ensures forall f :: f in a <==> f in b
    ensures a == [] <==> b == []
  {
    forall f
      ensures f in a <==> f in b
    {
      assert f in multiset(a) <==> f in multiset(b);
    }
    assert |multiset(a)| == |a| && |multiset(b)| == |b|;
  }

  lemma EmptyTogether(a: Unit, b: Unit)
    requires SameUnit(a, b)
    ensures a.facts == [] <==> b.facts == []
  {
    SameFacts(a.facts, b.facts);
  }

  lemma {:induction false} SameUsed(a: seq<Unit>, b: seq<Unit>)
    requires SameUnits(a, b)
    ensures SameUnits(Used(a), Used(b))
  {
    hide SameUnit;
    if a != [] {
      var n := |a| - 1;
      SameUsed(a[..n], b[..n]);
      EmptyTogether(a[n], b[n]);
    }
  }

  lemma {:induction false} SameFirstNamed(a: seq<Unit>, b: seq<Unit>, name: string)
    requires SameUnits(a, b) && exists u | u in a :: u.name == name
    ensures exists u | u in b :: u.name == name
    ensures SameUnit(FirstNamed(a, name), FirstNamed(b, name))
  {
    var u :| u in a && u.name == name;
    var i :| 0 <= i < |a| && a[i] == u;
    assert SameUnit(a[i], b[i]) && b[i] in b && SameUnit(a[0], b[0]);
    if a[0].name != name {
      assert a[1..][i - 1] == u;
      SameFirstNamed(a[1..], b[1..], name);
    }
  }

  lemma SameChosen(a: seq<Unit>, b: seq<Unit>)
    requires SameUnits(a, b)
    ensures ChosenUnit(a).Some? == ChosenUnit(b).Some?
    ensures ChosenUnit(a).Some? ==> SameUnit(ChosenUnit(a).value, ChosenUnit(b).value)
  {
    hide Used, FirstNamed, SameUnit;
    SameUsed(a, b);
    if exists u | u in Used(a) :: u.name == EPS_UNIT {
      SameFirstNamed(Used(a), Used(b), EPS_UNIT);
    } else if exists u | u in Used(b) :: u.name == EPS_UNIT {
      UnitsSymmetric(Used(a), Used(b));
      SameFirstNamed(Used(b), Used(a), EPS_UNIT);
    }
  }

  lemma UnitsSymmetric(a: seq<Unit>, b: seq<Unit>)
    requires SameUnits(a, b)
    ensures SameUnits(b, a)
  {
  }

  lemma SameConceptEntries(a: Concept, b: Concept, e: Entry)
    requires SameConcept(a, b)
    ensures e in ConceptEntries(a) <==> e in ConceptEntries(b)
  {
    hide ChosenUnit;
    SameChosen(a.units, b.units);
    if ChosenUnit(a.units).Some? {
      var mine, yours := ChosenUnit(a.units).value, ChosenUnit(b.units).value;
      SameFacts(mine.facts, yours.facts);
      FactEntriesAre(mine.facts, mine.name, a.namespace + ":" + a.tag, e);
      FactEntriesAre(yours.facts, yours.name, a.namespace + ":" + a.tag, e);
    }
  }

  lemma {:induction false} SameUnitDates(a: seq<Unit>, b: seq<Unit>, key: Key)
    requires SameUnits(a, b)
    ensures UnitDates(a, key) == UnitDates(b, key)
  {
    if a != [] {
      var n := |a| - 1;
      SameUnitDates(a[..n], b[..n], key);
      assert SameUnit(a[n], b[n]);
      SameFacts(a[n].facts, b[n].facts);
    }
  }

  lemma {:induction false} SameReordered(a: seq<Concept>, b: seq<Concept>, e: Entry, role: Role, key: Key)
    requires FactsReordered(a, b)
    ensures e in Entries(a) <==> e in Entries(b)
    ensures RoleDates(a, role, key) == RoleDates(b, role, key)
  {
    hide ConceptEntries, UnitDates, RoleOf;
    if a != [] {
      var n := |a| - 1;
      SameReordered(a[..n], b[..n], e, role, key);
      assert SameConcept(a[n], b[n]);
      SameConceptEntries(a[n], b[n], e);
      SameUnitDates(a[n].units, b[n].units, key);
    }
  }

  /** The facts of every unit may come in any order: the same events, up to unit and concept. */
  lemma FactOrderIrrelevant(a: seq<Concept>, b: seq<Concept>)
    requires FactsReordered(a, b)
    ensures Ledger.Map(Core, Events(a)) == Ledger.Map(Core, Events(b))
  {
    hide Entries, RoleDates, Events, FactsReordered;
    forall e
      ensures e in Entries(a) <==> e in Entries(b)
    {
      SameReordered(a, b, e, Declaration, e.key);
    }
    forall key, amount
      ensures Reported(a, key, amount) <==> Reported(b, key, amount)
    {
    }
    forall key
      ensures GroupOf(a, key) == GroupOf(b, key)
    {
      var any := Entry(key, 0.0, "", "");
      SameReordered(a, b, any, Declaration, key);
      SameReordered(a, b, any, Record, key);
      SameReordered(a, b, any, Payment, key);
    }
    OrderIrrelevant(a, b);
  }
}
