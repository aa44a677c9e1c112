/** Any sequence of persists, of any tickers, comes to one persist of the rows that were new (app/obligations.py). */
module PersistHistory {
  import opened Wrappers
  import opened Ledger
  import opened Persist

  /** The store after persisting work lists one after another. */
  function PersistedAll(store: Store, batches: seq<seq<Row>>): Store {
    if batches == [] then store
    else Persisted(PersistedAll(store, batches[..|batches| - 1]), batches[|batches| - 1])
  }

  function Concat(batches: seq<seq<Row>>): seq<Row> {
    if batches == [] then [] else Concat(batches[..|batches| - 1]) + batches[|batches| - 1]
  }

  function HasTicker(ticker: string): Row -> bool {
    (r: Row) => r.ticker == ticker
  }

  function OfTicker(rows: seq<Row>, ticker: string): seq<Row> {
    Filter(rows, HasTicker(ticker))
  }

  /** The rows that are stored: the first persistable one of each identity. */
  function FirstOfEachId(rows: seq<Row>): (r: seq<Row>)
    ensures forall x | x in r :: x in rows && Persistable(x)
    ensures forall i, j | 0 <= i < j < |r| :: IdOf(r[i]) != IdOf(r[j])
  {
    if rows == [] then []
    else
      var front, last := FirstOfEachId(rows[..|rows| - 1]), rows[|rows| - 1];
      if Persistable(last) && !HasId(front, IdOf(last)) then front + [last] else front
  }

  predicate HasId(rows: seq<Row>, id: Id) {
    exists x | x in rows :: IdOf(x) == id
  }

  /** What the store knows of a ticker after a history of persists. */
  function Known(batches: seq<seq<Row>>, ticker: string): seq<Row> {
    FirstOfEachId(OfTicker(Concat(batches), ticker))
  }

  // ---------------------------------------------------------------- several persists are one

  lemma {:induction false} WriteConcat<T>(table: seq<T>, a: seq<T>, b: seq<T>, id: T -> Id)
    ensures WriteRows(WriteRows(table, a, id), b, id) == WriteRows(table, a + b, id)
    decreases |a|
  {
    if a == [] {
      assert a + b == b;
    } else {
      assert (a + b)[0] == a[0] && (a + b)[1..] == a[1..] + b;
      WriteConcat(if exists t | t in table :: id(t) == id(a[0]) then table else table + [a[0]], a[1..], b, id);
    }
  }

  lemma EventsSnoc(rows: seq<Row>, r: Row)
    ensures Events(rows + [r]) == Events(rows) + (if Persistable(r) then [EventOf(r)] else [])
    ensures Evidences(rows + [r]) == Evidences(rows) + (if Persistable(r) then [Evidence(IdOf(r), r.concept)] else [])
  {
    hide EventOf;
    assert (rows + [r])[..|rows|] == rows;
  }

  lemma {:induction false} EventsConcat(a: seq<Row>, b: seq<Row>)
    ensures Events(a + b) == Events(a) + Events(b) && Evidences(a + b) == Evidences(a) + Evidences(b)
  {
    hide EventOf, Persistable, Events, Evidences;
    if b == [] {
      NothingStored();
      assert a + b == a;
    } else {
      var n := |b| - 1;
      EventsConcat(a, b[..n]);
      EventsSnoc(a + b[..n], b[n]);
      EventsSnoc(b[..n], b[n]);
      assert a + b == a + b[..n] + [b[n]] && b == b[..n] + [b[n]];
    }
  }

  lemma NothingStored()
    ensures Events([]) == [] && Evidences([]) == []
  {
  }

  lemma PersistedTwice(store: Store, a: seq<Row>, b: seq<Row>)
    ensures Persisted(Persisted(store, a), b) == Persisted(store, a + b)
  {
    EventsConcat(a, b);
    WriteConcat(store.events, Events(a), Events(b), EventId);
    WriteConcat(store.evidence, Evidences(a), Evidences(b), EvidenceId);
  }

  lemma {:induction false} PersistsAreOne(store: Store, batches: seq<seq<Row>>)
    ensures PersistedAll(store, batches) == Persisted(store, Concat(batches))
  {
    hide Persisted;
    if batches == [] {
      NothingPersisted(store);
    } else {
      var n := |batches| - 1;
      PersistsAreOne(store, batches[..n]);
      PersistedTwice(store, Concat(batches[..n]), batches[n]);
    }
  }

  lemma NothingPersisted(store: Store)
    ensures Persisted(store, []) == store
  {
  }

  // ---------------------------------------------------------------- later copies change nothing

  /** One more row is appended iff the table does not hold its identity yet. */
  lemma WriteOneMore<T>(table: seq<T>, rows: seq<T>, x: T, id: T -> Id)
    ensures var before := WriteRows(table, rows, id);
      WriteRows(table, rows + [x], id) == if exists t | t in before :: id(t) == id(x) then before else before + [x]
  {
    WriteConcat(table, rows, [x], id);
    var before := WriteRows(table, rows, id);
    assert [x][1..] == [];
    assert WriteRows(before, [], id) == before && WriteRows(before + [x], [], id) == before + [x];
  }

  lemma {:induction false} EventIdsAre(rows: seq<Row>, r: Row)
    requires r in rows && Persistable(r)
    ensures (exists e | e in Events(rows) :: EventId(e) == IdOf(r)) && (exists v | v in Evidences(rows) :: EvidenceId(v) == IdOf(r))
  {
    hide TimingJsons, StoredKind;
    var n := |rows| - 1;
    assert rows == rows[..n] + [rows[n]];
    if r == rows[n] {
      assert EventOf(r) in Events(rows) && Evidence(IdOf(r), r.concept) in Evidences(rows);
    } else {
      EventIdsAre(rows[..n], r);
    }
  }

  lemma WrittenIds(store: Store, rows: seq<Row>, r: Row)
    requires r in rows && Persistable(r)
    ensures exists e | e in WriteRows(store.events, Events(rows), EventId) :: EventId(e) == IdOf(r)
    ensures exists v | v in WriteRows(store.evidence, Evidences(rows), EvidenceId) :: EvidenceId(v) == IdOf(r)
  {
    hide EventOf, IdOf, Persistable;
    EventIdsAre(rows, r);
    WriteHolds(store.events, Events(rows), EventId);
    WriteHolds(store.evidence, Evidences(rows), EvidenceId);
  }

  /** Persisting the first row of each identity is persisting them all. */
  lemma {:induction false} FirstsAreEnough(store: Store, rows: seq<Row>)
    ensures Persisted(store, FirstOfEachId(rows)) == Persisted(store, rows)
  {
    hide WriteRows, Events, Evidences, IdOf, Persistable, HasId;
    if rows != [] {
      var n := |rows| - 1;
      var front, last := rows[..n], rows[n];
      var firsts := FirstOfEachId(front);
      FirstsAreEnough(store, front);
      assert rows == front + [last];
      PersistOneMore(store, front, last);
      PersistOneMore(store, firsts, last);
      if Persistable(last) && HasId(firsts, IdOf(last)) {
        KnownAlready(store, firsts, last);
      }
    }
  }

  /** One more row is appended, or its identity is there already. */
  lemma PersistOneMore(store: Store, rows: seq<Row>, r: Row)
    ensures !Persistable(r) ==> Persisted(store, rows + [r]) == Persisted(store, rows)
    ensures Persistable(r) ==> Persisted(store, rows + [r]) == Appended(Persisted(store, rows), r)
  {
    hide WriteRows, IdOf;
    EventsSnoc(rows, r);
    assert Events(rows) + [] == Events(rows) && Evidences(rows) + [] == Evidences(rows);
    if Persistable(r) {
      WriteOneMore(store.events, Events(rows), EventOf(r), EventId);
      WriteOneMore(store.evidence, Evidences(rows), Evidence(IdOf(r), r.concept), EvidenceId);
    }
  }

  function Appended(store: Store, r: Row): Store
    requires r.filed.Some?
  {
    var event, evidence := EventOf(r), Evidence(IdOf(r), r.concept);
    Store(if exists e | e in store.events :: EventId(e) == EventId(event) then store.events else store.events + [event],
          if exists v | v in store.evidence :: EvidenceId(v) == EvidenceId(evidence) then store.evidence
          else store.evidence + [evidence])
  }

  lemma KnownAlready(store: Store, rows: seq<Row>, r: Row)
    requires Persistable(r) && HasId(rows, IdOf(r)) && forall x | x in rows :: Persistable(x)
    ensures Appended(Persisted(store, rows), r) == Persisted(store, rows)
  {
    hide WriteRows, Events, Evidences, TimingJsons, StoredKind;
    var x :| x in rows && IdOf(x) == IdOf(r);
    WrittenIds(store, rows, x);
  }

  // ---------------------------------------------------------------- tickers do not mix

  function EventOfTicker(ticker: string): Event -> bool {
    (e: Event) => e.id.ticker == ticker
  }

  function EvidenceOfTicker(ticker: string): Evidence -> bool {
    (v: Evidence) => v.event.ticker == ticker
  }

  /** The part of a store that belongs to a ticker. */
  function Part(store: Store, ticker: string): Store {
    Store(Filter(store.events, EventOfTicker(ticker)), Filter(store.evidence, EvidenceOfTicker(ticker)))
  }

  lemma {:induction false} WriteFiltered<T(!new)>(table: seq<T>, rows: seq<T>, id: T -> Id, p: T -> bool)
    requires forall t, u | id(t) == id(u) :: p(t) == p(u)
    ensures Filter(WriteRows(table, rows, id), p) == WriteRows(Filter(table, p), Filter(rows, p), id)
    decreases |rows|
  {
    hide Filter, WriteRows;
    if rows == [] {
      FilterNone(rows, p);
      WriteNothing(table, rows, id);
      WriteNothing(Filter(table, p), Filter(rows, p), id);
    } else {
      var x, rest := rows[0], rows[1..];
      assert rows == [x] + rest;
      FilterConcat([x], rest, p);
      FilterOne(x, p);
      WriteFirst(table, x, rest, id);
      WriteFiltered(if Holds(table, id, x) then table else table + [x], rest, id, p);
      FilterSnoc(table, x, p);
      HoldsFiltered(table, id, p, x);
      if p(x) {
        WriteFirst(Filter(table, p), x, Filter(rest, p), id);
      } else {
        assert [] + Filter(rest, p) == Filter(rest, p) && Filter(table, p) + [] == Filter(table, p);
      }
    }
  }

  predicate Holds<T(==)>(table: seq<T>, id: T -> Id, x: T) {
    exists t | t in table :: id(t) == id(x)
  }

  lemma WriteFirst<T>(table: seq<T>, x: T, rest: seq<T>, id: T -> Id)
    ensures WriteRows(table, [x] + rest, id) == WriteRows(if Holds(table, id, x) then table else table + [x], rest, id)
  {
    assert ([x] + rest)[1..] == rest;
  }

  lemma WriteNothing<T>(table: seq<T>, rows: seq<T>, id: T -> Id)
    requires rows == []
    ensures WriteRows(table, rows, id) == table
  {
  }

  lemma HoldsFiltered<T(!new)>(table: seq<T>, id: T -> Id, p: T -> bool, x: T)
    requires forall t, u | id(t) == id(u) :: p(t) == p(u)
    ensures p(x) ==> Holds(Filter(table, p), id, x) == Holds(table, id, x)
  {
  }

  lemma FilterOne<T>(x: T, p: T -> bool)
    ensures Filter([x], p) == if p(x) then [x] else []
  {
    assert [x][1..] == [];
  }

  lemma {:induction false} EventsOfTicker(rows: seq<Row>, ticker: string)
    ensures Filter(Events(rows), EventOfTicker(ticker)) == Events(OfTicker(rows, ticker))
    ensures Filter(Evidences(rows), EvidenceOfTicker(ticker)) == Evidences(OfTicker(rows, ticker))
  {
    hide TimingJsons, StoredKind, Filter, Events, Evidences;
    if rows == [] {
      NoEvents(ticker);
    } else {
      var n := |rows| - 1;
      var front, last := rows[..n], rows[n];
      assert rows == front + [last];
      EventsOfTicker(front, ticker);
      EventsSnoc(front, last);
      FilterSnoc(front, last, HasTicker(ticker));
      EventsSnoc(OfTicker(front, ticker), last);
      assert OfTicker(front, ticker) + [] == OfTicker(front, ticker);
      assert Events(front) + [] == Events(front) && Evidences(front) + [] == Evidences(front);
      if Persistable(last) {
        FilterSnoc(Events(front), EventOf(last), EventOfTicker(ticker));
        FilterSnoc(Evidences(front), Evidence(IdOf(last), last.concept), EvidenceOfTicker(ticker));
      }
    }
  }

  lemma NoEvents(ticker: string)
    ensures OfTicker([], ticker) == [] && Events([]) == [] && Evidences([]) == []
    ensures Filter<Event>([], EventOfTicker(ticker)) == [] && Filter<Evidence>([], EvidenceOfTicker(ticker)) == []
  {
  }

  lemma PartOfPersisted(store: Store, rows: seq<Row>, ticker: string)
    ensures Part(Persisted(store, rows), ticker) == Persisted(Part(store, ticker), OfTicker(rows, ticker))
  {
    hide WriteRows, Events, Evidences, Filter;
    WriteFiltered(store.events, Events(rows), EventId, EventOfTicker(ticker));
    WriteFiltered(store.evidence, Evidences(rows), EvidenceId, EvidenceOfTicker(ticker));
    EventsOfTicker(rows, ticker);
  }

  /** A replay reads nothing but its ticker's part of the store. */
  lemma ReplayReadsPart(store: Store, ticker: string, asOf: Day)
    ensures ReplayRows(store, ticker, asOf) == ReplayRows(Part(store, ticker), ticker, asOf)
  {
    hide Filter, RebuiltHorizon, HasAmountOrMark;
    var early := FiledAsOf(ticker, asOf);
    FilterFilter(store.events, EventOfTicker(ticker), early, early);
    var events, part := EventsAsOf(store, ticker, asOf), Part(store, ticker);
    forall i | 0 <= i < |events|
      ensures Rebuilt(events[i], store.evidence) == Rebuilt(events[i], part.evidence)
    {
      assert events[i] in events;
      FilterFilter(store.evidence, EvidenceOfTicker(ticker), OfEvent(events[i].id), OfEvent(events[i].id));
    }
    assert RebuiltAll(events, store.evidence) == RebuiltAll(events, part.evidence);
  }

  /** What a replay shows after any history of persists is what persisting the known rows once would show. */
  lemma HistoryIsKnown(store: Store, batches: seq<seq<Row>>, ticker: string, asOf: Day)
    ensures ReplayRows(PersistedAll(store, batches), ticker, asOf) ==
      ReplayRows(Persisted(Part(store, ticker), Known(batches, ticker)), ticker, asOf)
  {
    hide ReplayRows, Persisted, FirstOfEachId, OfTicker, Part;
    PersistsAreOne(store, batches);
    ReplayReadsPart(PersistedAll(store, batches), ticker, asOf);
    PartOfPersisted(store, Concat(batches), ticker);
    FirstsAreEnough(Part(store, ticker), OfTicker(Concat(batches), ticker));
  }

  // ---------------------------------------------------------------- a grown ledger

  /** The rows known so far come first in the ledger, the same but for their derived status. */
  ghost predicate Grown(known: seq<Row>, rows: seq<Row>) {
    |known| <= |rows| && forall i | 0 <= i < |known| :: known[i].(standing := rows[i].standing) == rows[i]
  }

  lemma {:induction false} GrownFirsts(a: seq<Row>, rows: seq<Row>, n: nat)
    requires n <= |rows| && Grown(FirstOfEachId(a), rows)
    requires forall r | r in rows :: Persistable(r)
    requires forall i, j | 0 <= i < j < |rows| :: IdOf(rows[i]) != IdOf(rows[j])
    ensures var k := |FirstOfEachId(a)|;
      FirstOfEachId(a + rows[..n]) == FirstOfEachId(a) + (if n <= k then [] else rows[k..n])
  {
    hide Persistable, FirstOfEachId, HasId, IdOf, Grown;
    var known := FirstOfEachId(a);
    var k := |known|;
    if n == 0 {
      assert a + rows[..0] == a;
    } else {
      GrownFirsts(a, rows, n - 1);
      var before, last := FirstOfEachId(a + rows[..n - 1]), rows[n - 1];
      assert a + rows[..n] == a + rows[..n - 1] + [last];
      assert last in rows;
      FirstsSnoc(a + rows[..n - 1], last);
      HasIdWithin(known, rows, n - 1);
      if n > k {
        assert rows[k..n] == rows[k..n - 1] + [last];
      }
    }
  }

  lemma FirstsSnoc(rows: seq<Row>, r: Row)
    ensures var front := FirstOfEachId(rows);
      FirstOfEachId(rows + [r]) == if Persistable(r) && !HasId(front, IdOf(r)) then front + [r] else front
  {
    hide Persistable, HasId;
    assert (rows + [r])[..|rows|] == rows;
  }

  lemma HasIdWithin(known: seq<Row>, rows: seq<Row>, n: nat)
    requires n < |rows| && Grown(known, rows)
    requires forall i, j | 0 <= i < j < |rows| :: IdOf(rows[i]) != IdOf(rows[j])
    ensures HasId(known + (if n <= |known| then [] else rows[|known|..n]), IdOf(rows[n])) <==> n < |known|
  {
    var k := |known|;
    var all := known + (if n <= k then [] else rows[k..n]);
    forall i | 0 <= i < |all|
      ensures IdOf(all[i]) == IdOf(rows[i])
    {
    }
    if n < k {
      assert all[n] in all;
    } else {
      forall x | x in all
        ensures IdOf(x) != IdOf(rows[n])
      {
        var i :| 0 <= i < |all| && all[i] == x;
      }
    }
  }
}
