/** Persisting ledger rows as corporate events and rebuilding them for any as-of date (app/obligations.py). */
module Persist {
  import opened Wrappers
  import opened Ledger
  import opened Lifecycle
  import Ordering
  import Reconcile
  import Snapshot

  /** payment_timing_json: absent, a schedule, or the three remainder fields. */
  datatype Timing =
    | NoTiming
    | ScheduleTiming(entries: seq<ScheduleEntry>)
    | RemainderTiming(year: Option<string>, remainder: Option<real>, afterRemainder: Option<real>)

  /** Event identity: ticker and content hash, assumed to tell rows apart. */
  datatype Id = Id(ticker: string, contentHash: string)

  datatype Event = Event(
    id: Id,
    kind: string,
    amount: Option<real>,
    certainty: Option<string>,
    status: Option<string>,
    revenueMatched: bool,
    defaultTriggered: bool,
    fiscalYear: Option<string>,
    scheduleJson: Option<seq<ScheduleEntry>>,
    timingJson: Timing,
    filed: Day,
    source: Option<string>,
    agreementKey: Option<string>,
    mark: Mark,
    component: Option<bool>,
    headlineKind: Option<string>)

  datatype Evidence = Evidence(event: Id, xbrlFact: bool)

  datatype Store = Store(events: seq<Event>, evidence: seq<Evidence>)

  function IdOf(r: Row): Id {
    Id(r.ticker, r.contentHash)
  }

  // ---------------------------------------------------------------- writing

  /** A missing or blank type is stored as "other". */
  function StoredKind(kind: Option<string>): string {
    if kind.Some? && kind.value != "" then kind.value else "other"
  }

  function HorizonOf(r: Row): Horizon {
    if r.horizon.Some? then r.horizon.value else NO_HORIZON
  }

  /** The schedule that is stored: the row's own, else the horizon's. */
  function StoredSchedule(r: Row): seq<ScheduleEntry> {
    if r.schedule.Some? && r.schedule.value != [] then r.schedule.value else HorizonOf(r).schedule
  }

  function TimingJsons(r: Row): (Option<seq<ScheduleEntry>>, Timing) {
    var entries := StoredSchedule(r);
    var horizon := HorizonOf(r);
    if entries != [] then (Some(entries), ScheduleTiming(entries))
    else if horizon.remainderYear.Some? || horizon.remainder.Some? || horizon.afterRemainder.Some? then
      (None, RemainderTiming(horizon.remainderYear, horizon.remainder, horizon.afterRemainder))
    else (None, NoTiming)
  }

  predicate Persistable(r: Row) {
    !r.proxied && r.filed.Some?
  }

  function EventOf(r: Row): Event
    requires r.filed.Some?
  {
    var (scheduleJson, timingJson) := TimingJsons(r);
    Event(IdOf(r), StoredKind(r.kind), if r.amount.Num? then Some(r.amount.value) else None, r.certainty, r.status,
          r.revenueMatched, r.defaultTriggered, r.fiscalYear, scheduleJson, timingJson, r.filed.value, r.source,
          r.agreementKey, r.mark, r.component, r.headlineKind)
  }

  function Events(rows: seq<Row>): (events: seq<Event>) {
    if rows == [] then []
    else Events(rows[..|rows| - 1]) +
         (var r := rows[|rows| - 1]; if Persistable(r) then [EventOf(r)] else [])
  }

  function Evidences(rows: seq<Row>): seq<Evidence> {
    if rows == [] then []
    else Evidences(rows[..|rows| - 1]) +
         (var r := rows[|rows| - 1]; if Persistable(r) then [Evidence(IdOf(r), r.concept)] else [])
  }

  function ProxiedCount(rows: seq<Row>): nat {
    if rows == [] then 0
    else ProxiedCount(rows[..|rows| - 1]) + (if rows[|rows| - 1].proxied then 1 else 0)
  }

  function UnfiledCount(rows: seq<Row>): nat {
    if rows == [] then 0
    else UnfiledCount(rows[..|rows| - 1]) +
         (var r := rows[|rows| - 1]; if !r.proxied && r.filed.None? then 1 else 0)
  }

  class Build {
    var events: seq<Event>
    var evidence: seq<Evidence>
    var skipped: nat
    var skippedProxied: nat

    constructor ()
      ensures events == [] && evidence == [] && skipped == 0 && skippedProxied == 0
    {
      events, evidence, skipped, skippedProxied := [], [], 0, 0;
    }

    /** One row becomes one event with its evidence, or is counted as skipped. */
    method AddRow(row: Row)
      modifies this
      ensures events == old(events) + if !row.proxied && row.filed.Some? then [EventOf(row)] else []
      ensures evidence == old(evidence) +
        if !row.proxied && row.filed.Some? then [Evidence(Id(row.ticker, row.contentHash), row.concept)] else []
      ensures skippedProxied == old(skippedProxied) + if row.proxied then 1 else 0
      ensures skipped == old(skipped) + if !row.proxied && row.filed.None? then 1 else 0
    {
      if row.proxied {
        skippedProxied := skippedProxied + 1;
        return;
      }
      if row.filed.None? {
        skipped := skipped + 1;
        return;
      }
      events := events + [EventOf(row)];
      evidence := evidence + [Evidence(IdOf(row), row.concept)];
    }
  }

  /** Append the rows whose identity the table does not hold yet; the first of each identity stays. */
  function WriteRows<T(==)>(table: seq<T>, rows: seq<T>, id: T -> Id): seq<T>
    decreases |rows|
  {
    if rows == [] then table
    else if exists t | t in table :: id(t) == id(rows[0]) then WriteRows(table, rows[1..], id)
    else WriteRows(table + [rows[0]], rows[1..], id)
  }

  function EventId(e: Event): Id { e.id }

  function EvidenceId(e: Evidence): Id { e.event }

  /** The store after persisting a work list. */
  function Persisted(store: Store, rows: seq<Row>): Store {
    Store(WriteRows(store.events, Events(rows), EventId), WriteRows(store.evidence, Evidences(rows), EvidenceId))
  }

  method PersistRows(store: Store, rows: seq<Row>) returns (after: Store, skipped: nat, skippedProxied: nat)
    ensures after == Persisted(store, rows)
    ensures skippedProxied == ProxiedCount(rows)
    ensures skipped == UnfiledCount(rows)
  {
    hide EventOf;
    var sink := new Build();
    for i := 0 to |rows|
      invariant sink.events == Events(rows[..i]) && sink.evidence == Evidences(rows[..i])
      invariant sink.skippedProxied == ProxiedCount(rows[..i])
      invariant sink.skipped == UnfiledCount(rows[..i])
    {
      assert rows[..i + 1][..i] == rows[..i];
      sink.AddRow(rows[i]);
    }
    assert rows[..|rows|] == rows;
    after := Store(WriteRows(store.events, sink.events, EventId), WriteRows(store.evidence, sink.evidence, EvidenceId));
    skipped, skippedProxied := sink.skipped, sink.skippedProxied;
  }

  lemma {:induction false} WriteKnown<T>(table: seq<T>, rows: seq<T>, id: T -> Id)
    requires forall r | r in rows :: exists t | t in table :: id(t) == id(r)
    ensures WriteRows(table, rows, id) == table
    decreases |rows|
  {
    if rows != [] {
      assert rows[0] in rows;
      WriteKnown(table, rows[1..], id);
    }
  }

  lemma {:induction false} WriteHolds<T>(table: seq<T>, rows: seq<T>, id: T -> Id)
    ensures table <= WriteRows(table, rows, id)
    ensures forall r | r in rows :: exists t | t in WriteRows(table, rows, id) :: id(t) == id(r)
    decreases |rows|
  {
    if rows != [] {
      var known := exists t | t in table :: id(t) == id(rows[0]);
      var next := if known then table else table + [rows[0]];
      WriteHolds(next, rows[1..], id);
      var final := WriteRows(table, rows, id);
      assert exists t | t in next :: id(t) == id(rows[0]) by {
        if !known {
          assert rows[0] in next;
        }
      }
      var t :| t in next && id(t) == id(rows[0]);
      assert t in final;
      forall r | r in rows
        ensures exists t | t in final :: id(t) == id(r)
      {
        if r != rows[0] {
          assert r in rows[1..];
        }
      }
    }
  }

  /** Persisting the same rows again writes nothing. */
  lemma PersistRerunWritesNothing(store: Store, rows: seq<Row>)
    ensures Persisted(Persisted(store, rows), rows) == Persisted(store, rows)
  {
    WriteHolds(store.events, Events(rows), EventId);
    WriteHolds(store.evidence, Evidences(rows), EvidenceId);
    WriteKnown(Persisted(store, rows).events, Events(rows), EventId);
    WriteKnown(Persisted(store, rows).evidence, Evidences(rows), EvidenceId);
  }

  lemma {:induction false} WriteFresh<T>(table: seq<T>, rows: seq<T>, id: T -> Id)
    requires forall r, t | r in rows && t in table :: id(t) != id(r)
    requires forall i, j | 0 <= i < j < |rows| :: id(rows[i]) != id(rows[j])
    ensures WriteRows(table, rows, id) == table + rows
    decreases |rows|
  {
    if rows != [] {
      assert forall r | r in rows[1..] :: id(rows[0]) != id(r);
      assert rows[0] in rows && forall r | r in rows[1..] :: r in rows;
      WriteFresh(table + [rows[0]], rows[1..], id);
      assert table + [rows[0]] + rows[1..] == table + rows;
    }
  }

  // ---------------------------------------------------------------- reading back

  function OfEvent(id: Id): Evidence -> bool {
    (e: Evidence) => e.event == id
  }

  /** The first evidence row of the event says whether it came from an XBRL fact. */
  function IsXbrl(evidence: seq<Evidence>, id: Id): bool {
    var found := Filter(evidence, OfEvent(id));
    found != [] && found[0].xbrlFact
  }

  function RebuiltHorizon(timing: Timing): Option<Horizon> {
    match timing
    case NoTiming => None
    case ScheduleTiming(entries) => Some(NO_HORIZON.(schedule := entries))
    case RemainderTiming(year, remainder, after) => Some(Horizon([], year, remainder, after))
  }

  function Rebuilt(e: Event, evidence: seq<Evidence>): Row {
    Row(IsXbrl(evidence, e.id), Some(e.kind), e.source, if e.amount.Some? then Num(e.amount.value) else Absent,
        Some(e.filed), e.agreementKey, e.mark, None, e.component, e.headlineKind, e.fiscalYear, e.certainty, e.status,
        e.revenueMatched, e.defaultTriggered, e.scheduleJson, RebuiltHorizon(e.timingJson), false, e.id.ticker,
        e.id.contentHash)
  }

  /** Rebuilt rows without amount and without mark go to the unquantified bucket. */
  predicate HasAmountOrMark(r: Row) {
    !r.amount.Absent? || r.mark != NoMark
  }

  function FiledAsOf(ticker: string, asOf: Day): Event -> bool {
    (e: Event) => e.id.ticker == ticker && e.filed <= asOf
  }

  function EventsAsOf(store: Store, ticker: string, asOf: Day): seq<Event> {
    Filter(store.events, FiledAsOf(ticker, asOf))
  }

  function Rebuilder(evidence: seq<Evidence>): Event -> Row {
    (e: Event) => Rebuilt(e, evidence)
  }

  function RebuiltAll(events: seq<Event>, evidence: seq<Evidence>): seq<Row> {
    Map(Rebuilder(evidence), events)
  }

  /** The replayed ledger, before any flag or stamp. */
  function ReplayRows(store: Store, ticker: string, asOf: Day): seq<Row> {
    Filter(RebuiltAll(EventsAsOf(store, ticker, asOf), store.evidence), HasAmountOrMark)
  }

  function ReplaySnapshot(store: Store, ticker: string, asOf: Day): seq<Row> {
    Snapshot.Of(Reconcile.LegacyFlags(ReplayRows(store, ticker, asOf)))
  }

  /** The replayed picture: fresh rows, backfilled and stamped in place, and its current snapshot. */
  method GetObligationsAsOf(store: Store, ticker: string, asOf: Day)
    returns (rows: seq<Entry>, snapshot: seq<Entry>)
    ensures Rows(rows) == StampAll(Reconcile.LegacyFlags(ReplayRows(store, ticker, asOf)))
    ensures Rows(snapshot) == ReplaySnapshot(store, ticker, asOf)
  {
    var kept := ReplayRows(store, ticker, asOf);
    rows := FreshEntries(kept);
    Reconcile.ApplyLegacyFlags(rows);
    ghost var flagged := Rows(rows);
    snapshot := Snapshot.CurrentSnapshot(rows);
    Snapshot.SelectedRows(rows, Snapshot.Flags(flagged));
    assert ReplaySnapshot(store, ticker, asOf) == Select(StampAll(flagged), Snapshot.Flags(flagged));
  }

  method FreshEntries(rows: seq<Row>) returns (entries: seq<Entry>)
    ensures Rows(entries) == rows && Ordering.Distinct(entries)
    ensures forall e | e in entries :: fresh(e)
  {
    entries := [];
    for i := 0 to |rows|
      invariant Rows(entries) == rows[..i] && Ordering.Distinct(entries)
      invariant forall e | e in entries :: fresh(e)
    {
      var e := new Entry(rows[i]);
      assert rows[..i + 1] == rows[..i] + [rows[i]];
      entries := entries + [e];
    }
    assert rows[..|rows|] == rows;
  }
}
