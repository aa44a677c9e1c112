/** Persist, then replay: what comes back, for every ledger and every as-of date (app/obligations.py). */
module RoundTrip {
  import opened Wrappers
  import opened Ledger
  import opened Lifecycle
  import opened Persist
  import opened PersistHistory
  import opened Reconcile
  import opened Replay
  import Dedup
  import Snapshot
  import Text

  /** A row as it comes back from its own event and evidence. */
  function Restored(r: Row): Row {
    if r.filed.Some? then Rebuilt(EventOf(r), [Evidence(IdOf(r), r.concept)]) else r
  }

  /** The rows of a ledger that a replay as of this date shows, in ledger order. */
  predicate IsVisible(r: Row, asOf: Day) {
    Persistable(r) && FiledBy(r, asOf) && HasAmountOrMark(Restored(r))
  }

  function VisibleAsOf(asOf: Day): Row -> bool {
    (r: Row) => IsVisible(r, asOf)
  }

  function Visible(rows: seq<Row>, asOf: Day): seq<Row> {
    Filter(rows, VisibleAsOf(asOf))
  }

  /** Rows of one ticker whose stored ones have distinct event ids. */
  ghost predicate IsLedger(rows: seq<Row>, ticker: string) {
    && (forall r | r in rows :: r.ticker == ticker)
    && (forall i, j | 0 <= i < j < |rows| && Persistable(rows[i]) && Persistable(rows[j]) ::
          IdOf(rows[i]) != IdOf(rows[j]))
  }

  /** The store holds nothing of the ticker yet. */
  ghost predicate HasNo(store: Store, ticker: string) {
    && (forall e | e in store.events :: e.id.ticker != ticker)
    && (forall e | e in store.evidence :: e.event.ticker != ticker)
  }

  // ---------------------------------------------------------------- the store holds each row once

  lemma {:induction false} StoredFromRows(rows: seq<Row>)
    ensures forall e | e in Events(rows) :: exists r | r in rows :: Persistable(r) && e == EventOf(r)
    ensures forall e | e in Evidences(rows) :: exists r | r in rows :: Persistable(r) && e == Evidence(IdOf(r), r.concept)
  {
    hide EventOf;
    if rows != [] {
      var front, last := rows[..|rows| - 1], rows[|rows| - 1];
      StoredFromRows(front);
      assert last in rows && forall r | r in front :: r in rows;
    }
  }

  lemma {:induction false} StoredDistinct(rows: seq<Row>, ticker: string)
    requires IsLedger(rows, ticker)
    ensures forall i, j | 0 <= i < j < |Events(rows)| :: Events(rows)[i].id != Events(rows)[j].id
    ensures forall i, j | 0 <= i < j < |Evidences(rows)| :: Evidences(rows)[i].event != Evidences(rows)[j].event
  {
    hide TimingJsons, StoredKind;
    if rows != [] {
      var front, last := rows[..|rows| - 1], rows[|rows| - 1];
      StoredDistinct(front, ticker);
      StoredFromRows(front);
      if Persistable(last) {
        forall e | e in Events(front)
          ensures e.id != IdOf(last)
        {
          var r :| r in front && Persistable(r) && e == EventOf(r);
        }
        forall e | e in Evidences(front)
          ensures e.event != IdOf(last)
        {
          var r :| r in front && Persistable(r) && e == Evidence(IdOf(r), r.concept);
        }
      }
    }
  }

  lemma PersistedAppends(store: Store, rows: seq<Row>, ticker: string)
    requires IsLedger(rows, ticker) && HasNo(store, ticker)
    ensures Persisted(store, rows) == Store(store.events + Events(rows), store.evidence + Evidences(rows))
  {
    hide EventOf;
    StoredFromRows(rows);
    StoredDistinct(rows, ticker);
    forall e, t | e in Events(rows) && t in store.events
      ensures EventId(t) != EventId(e)
    {
      var r :| r in rows && Persistable(r) && e == EventOf(r);
      assert EventOf(r).id == IdOf(r) by {
        EventKeepsId(r);
      }
    }
    forall e, t | e in Evidences(rows) && t in store.evidence
      ensures EvidenceId(t) != EvidenceId(e)
    {
      var r :| r in rows && Persistable(r) && e == Evidence(IdOf(r), r.concept);
    }
    WriteFresh(store.events, Events(rows), EventId);
    WriteFresh(store.evidence, Evidences(rows), EvidenceId);
  }

  lemma EventKeepsId(r: Row)
    requires r.filed.Some?
    ensures EventOf(r).id == IdOf(r) && EventOf(r).filed == r.filed.value
  {
  }

  /** Each stored row finds its own evidence and no other. */
  lemma {:induction false} EvidenceFound(rows: seq<Row>, ticker: string, r: Row)
    requires IsLedger(rows, ticker) && r in rows && Persistable(r)
    ensures Filter(Evidences(rows), OfEvent(IdOf(r))) == [Evidence(IdOf(r), r.concept)]
  {
    hide Evidences, Events, Filter, EventOf;
    var front, last := rows[..|rows| - 1], rows[|rows| - 1];
    var mine := OfEvent(IdOf(r));
    assert rows == front + [last];
    EventsSnoc(front, last);
    FilterSnoc(Evidences(front), Evidence(IdOf(last), last.concept), mine);
    assert Evidences(front) + [] == Evidences(front);
    if r == last {
      NoOtherEvidence(front, r, rows, ticker);
    } else {
      EvidenceFound(front, ticker, r);
      var i :| 0 <= i < |front| && front[i] == r;
      assert rows[i] == r;
      assert [Evidence(IdOf(r), r.concept)] + [] == [Evidence(IdOf(r), r.concept)];
    }
  }

  lemma NoOtherEvidence(front: seq<Row>, r: Row, rows: seq<Row>, ticker: string)
    requires rows == front + [r] && IsLedger(rows, ticker) && Persistable(r)
    ensures Filter(Evidences(front), OfEvent(IdOf(r))) == []
  {
    hide Evidences, Events, Filter, EventOf;
    StoredFromRows(front);
    forall e | e in Evidences(front)
      ensures !OfEvent(IdOf(r))(e)
    {
      var s :| s in front && Persistable(s) && e == Evidence(IdOf(s), s.concept);
      var i :| 0 <= i < |front| && front[i] == s;
      assert rows[i] == s && rows[|front|] == r;
    }
    FilterNone(Evidences(front), OfEvent(IdOf(r)));
  }

  /** Keep the events seen as of a date, rebuild them, drop the unquantified ones. */
  function Pipeline(events: seq<Event>, evidence: seq<Evidence>, ticker: string, asOf: Day): seq<Row> {
    Filter(RebuiltAll(Filter(events, FiledAsOf(ticker, asOf)), evidence), HasAmountOrMark)
  }

  lemma PipelineSnoc(events: seq<Event>, e: Event, evidence: seq<Evidence>, ticker: string, asOf: Day)
    ensures Pipeline(events + [e], evidence, ticker, asOf) == Pipeline(events, evidence, ticker, asOf) +
      (if e.id.ticker == ticker && e.filed <= asOf && HasAmountOrMark(Rebuilt(e, evidence)) then [Rebuilt(e, evidence)]
       else [])
  {
    hide Rebuilt, HasAmountOrMark;
    var early, rebuild := FiledAsOf(ticker, asOf), Rebuilder(evidence);
    FilterSnoc(events, e, early);
    var before := Filter(events, early);
    if early(e) {
      MapConcat(rebuild, before, [e]);
      assert Map(rebuild, [e]) == [rebuild(e)];
      FilterSnoc(Map(rebuild, before), rebuild(e), HasAmountOrMark);
    } else {
      assert before + [] == before;
    }
  }

  lemma {:induction false} RebuildsToVisible(rows: seq<Row>, evidence: seq<Evidence>, ticker: string, asOf: Day)
    requires forall r | r in rows && Persistable(r) ::
      r.ticker == ticker && Rebuilt(EventOf(r), evidence) == Restored(r)
    ensures Pipeline(Events(rows), evidence, ticker, asOf) == Map(Restored, Visible(rows, asOf))
  {
    hide EventOf, Rebuilt, Restored, HasAmountOrMark, Pipeline, Visible, Events, IsVisible;
    if rows == [] {
      PipelineEmpty(evidence, ticker, asOf);
      NothingVisible(asOf);
    } else {
      var front, last := rows[..|rows| - 1], rows[|rows| - 1];
      RebuildsToVisible(front, evidence, ticker, asOf);
      assert rows == front + [last] && last in rows;
      VisibleSnoc(front, last, asOf);
      EventsSnoc(front, last);
      if Persistable(last) {
        PersistableVisible(last, evidence, ticker, asOf);
        PipelineSnoc(Events(front), EventOf(last), evidence, ticker, asOf);
      } else {
        NotVisible(last, asOf);
        assert Events(front) + [] == Events(front);
      }
    }
  }

  lemma NothingVisible(asOf: Day)
    ensures Events([]) == [] && Map(Restored, Visible([], asOf)) == []
  {
  }

  lemma VisibleSnoc(rows: seq<Row>, r: Row, asOf: Day)
    ensures Map(Restored, Visible(rows + [r], asOf)) ==
      Map(Restored, Visible(rows, asOf)) + (if IsVisible(r, asOf) then [Restored(r)] else [])
  {
    hide Restored, IsVisible;
    FilterSnoc(rows, r, VisibleAsOf(asOf));
    MapConcat(Restored, Visible(rows, asOf), if IsVisible(r, asOf) then [r] else []);
  }

  lemma PersistableVisible(r: Row, evidence: seq<Evidence>, ticker: string, asOf: Day)
    requires Persistable(r) && r.ticker == ticker && Rebuilt(EventOf(r), evidence) == Restored(r)
    ensures IsVisible(r, asOf) <==>
      EventOf(r).id.ticker == ticker && EventOf(r).filed <= asOf && HasAmountOrMark(Rebuilt(EventOf(r), evidence))
  {
    hide Rebuilt, Restored, HasAmountOrMark, EventOf;
    EventKeepsId(r);
  }

  lemma NotVisible(r: Row, asOf: Day)
    requires !Persistable(r)
    ensures !IsVisible(r, asOf)
  {
    hide Restored, HasAmountOrMark;
  }

  lemma PipelineEmpty(evidence: seq<Evidence>, ticker: string, asOf: Day)
    ensures Pipeline([], evidence, ticker, asOf) == []
  {
  }

  lemma OwnEvidence(store: Store, rows: seq<Row>, ticker: string, r: Row)
    requires IsLedger(rows, ticker) && HasNo(store, ticker) && r in rows && Persistable(r)
    ensures r.ticker == ticker && Rebuilt(EventOf(r), store.evidence + Evidences(rows)) == Restored(r)
  {
    hide TimingJsons, StoredKind, RebuiltHorizon, Filter, Evidences;
    var mine := OfEvent(IdOf(r));
    EvidenceFound(rows, ticker, r);
    FilterNone(store.evidence, mine);
    FilterConcat(store.evidence, Evidences(rows), mine);
    FilterOne(Evidence(IdOf(r), r.concept), mine);
  }

  lemma FirstReplayedRows(store: Store, rows: seq<Row>, ticker: string, asOf: Day)
    requires IsLedger(rows, ticker) && HasNo(store, ticker)
    ensures ReplayRows(Persisted(store, rows), ticker, asOf) == Map(Restored, Visible(rows, asOf))
  {
    hide EventOf, Rebuilt, Restored, HasAmountOrMark, Visible, Filter, Events, Evidences, IsLedger, Persisted;
    PersistedAppends(store, rows, ticker);
    var evidence := store.evidence + Evidences(rows);
    forall r | r in rows && Persistable(r)
      ensures r.ticker == ticker && Rebuilt(EventOf(r), evidence) == Restored(r)
    {
      OwnEvidence(store, rows, ticker, r);
    }
    var early := FiledAsOf(ticker, asOf);
    FilterNone(store.events, early);
    FilterConcat(store.events, Events(rows), early);
    assert [] + Filter(Events(rows), early) == Filter(Events(rows), early);
    RebuildsToVisible(rows, evidence, ticker, asOf);
  }

  /** After any history of persists the replayed rows are the visible known rows, each restored, in order. */
  lemma ReplayedRows(store: Store, batches: seq<seq<Row>>, ticker: string, asOf: Day)
    requires HasNo(store, ticker)
    ensures ReplayRows(PersistedAll(store, batches), ticker, asOf) == Map(Restored, Visible(Known(batches, ticker), asOf))
  {
    hide ReplayRows, Persisted, PersistedAll, Visible, Restored, FirstOfEachId, Concat;
    HistoryIsKnown(store, batches, ticker, asOf);
    FirstReplayedRows(Part(store, ticker), Known(batches, ticker), ticker, asOf);
  }

  lemma {:induction false} WriteAppends<T>(table: seq<T>, rows: seq<T>, id: T -> Id) returns (added: seq<T>)
    ensures WriteRows(table, rows, id) == table + added
    ensures forall a | a in added :: a in rows
    decreases |rows|
  {
    if rows == [] {
      added := [];
    } else if exists t | t in table :: id(t) == id(rows[0]) {
      added := WriteAppends(table, rows[1..], id);
    } else {
      var rest := WriteAppends(table + [rows[0]], rows[1..], id);
      added := [rows[0]] + rest;
    }
  }

  /** Persisting filings dated after the as-of date leaves the picture as of that date as it was. */
  lemma LaterFilingsInvisible(store: Store, rows: seq<Row>, ticker: string, asOf: Day)
    requires forall r | r in rows && r.filed.Some? :: r.filed.value > asOf
    requires forall e | e in store.events :: exists v | v in store.evidence :: v.event == e.id
    ensures ReplayRows(Persisted(store, rows), ticker, asOf) == ReplayRows(store, ticker, asOf)
  {
    hide EventOf, RebuiltHorizon, HasAmountOrMark;
    var added := WriteAppends(store.events, Events(rows), EventId);
    var addedEvidence := WriteAppends(store.evidence, Evidences(rows), EvidenceId);
    var early := FiledAsOf(ticker, asOf);
    StoredFromRows(rows);
    forall e | e in added
      ensures !early(e)
    {
      var r :| r in rows && Persistable(r) && e == EventOf(r);
      EventKeepsId(r);
    }
    FilterConcat(store.events, added, early);
    FilterNone(added, early);
    var kept := Filter(store.events, early);
    assert kept + [] == kept;
    var after := Persisted(store, rows).evidence;
    forall i | 0 <= i < |kept|
      ensures Rebuilt(kept[i], after) == Rebuilt(kept[i], store.evidence)
    {
      assert kept[i] in kept;
      FirstEvidenceStays(store.evidence, addedEvidence, kept[i].id);
    }
    assert RebuiltAll(kept, after) == RebuiltAll(kept, store.evidence);
  }

  lemma FirstEvidenceStays(evidence: seq<Evidence>, added: seq<Evidence>, id: Id)
    requires exists v | v in evidence :: v.event == id
    ensures IsXbrl(evidence + added, id) == IsXbrl(evidence, id)
  {
    var v :| v in evidence && v.event == id;
    assert v in Filter(evidence, OfEvent(id));
    FilterConcat(evidence, added, OfEvent(id));
  }

  // ---------------------------------------------------------------- the snapshot of what comes back

  /** A filed row whose amount is missing or a number, carrying no status but a derived one. */
  predicate IsPlain(r: Row) {
    r.filed.Some? && r.amount != NonNumeric && (Eligible(r) || r.standing.None?)
  }

  lemma RestoredKeeps(r: Row)
    requires r.filed.Some? && r.amount != NonNumeric
    ensures var s := Restored(r);
      && s.Layer() == r.Layer() && s.kind == Some(StoredKind(r.kind)) && SameText(s, r)
      && s.filed == r.filed && s.component == r.component && s.standing == None
      && FeatureOf(s) == FeatureOf(r) && Eligible(s) == Eligible(r)
  {
    hide TimingJsons, RebuiltHorizon;
    var stored := [Evidence(IdOf(r), r.concept)];
    assert Filter(stored, OfEvent(IdOf(r))) == stored;
    assert "8k_"[0] != "other"[0];
  }

  /** A later filing whose type differs but is stored under the same name: "" and none become "other". */
  predicate KindMerged(r: Row, rows: seq<Row>) {
    exists s | s in rows ::
      s.Layer() == r.Layer() && StoredKind(s.kind) == StoredKind(r.kind) && s.kind != r.kind && Later(s.filed, r.filed)
  }

  /** The two lossy steps: the backfill flags the row, or its type is merged with a later filing's. */
  predicate Lost(r: Row, rows: seq<Row>) {
    LegacyHit(r, rows) || (r.Layer() != EightK && KindMerged(r, rows))
  }

  lemma RestoredFeatures(rows: seq<Row>)
    requires forall r | r in rows :: IsPlain(r)
    ensures Features(Map(Restored, rows)) == Features(rows)
  {
    hide Restored, Eligible, LayerOf;
    var restored := Map(Restored, rows);
    forall i | 0 <= i < |rows|
      ensures Eligible(restored[i]) == Eligible(rows[i]) && FeatureOf(restored[i]) == FeatureOf(rows[i])
    {
      assert rows[i] in rows;
      RestoredKeeps(rows[i]);
    }
    SubsetFeatures(rows, restored);
    SubsetFeatures(restored, rows);
  }

  lemma RestoredWindow(rows: seq<Row>, key: WindowKey)
    requires forall r | r in rows :: IsPlain(r)
    ensures Match(Window(Map(Restored, rows), key)) == Match(Window(rows, key))
  {
    hide Restored, Eligible, LayerOf, IsFiscalTable, IsHeadline, FromNote, Match;
    var inside := (r: Row) => InWindow(r, key);
    forall i | 0 <= i < |rows|
      ensures inside(rows[i]) == inside(Restored(rows[i]))
    {
      assert rows[i] in rows;
      RestoredKeeps(rows[i]);
      SameNote(rows[i], Restored(rows[i]));
    }
    FilterMap(Restored, rows, inside, inside);
    var window := Window(rows, key);
    forall i | 0 <= i < |window|
      ensures SameText(Map(Restored, window)[i], window[i])
    {
      assert window[i] in window;
      RestoredKeeps(window[i]);
    }
    MatchByText(Map(Restored, window), window);
  }

  lemma RestoredLegacyHit(r: Row, rows: seq<Row>)
    requires r in rows && forall r | r in rows :: IsPlain(r)
    ensures LegacyHit(Restored(r), Map(Restored, rows)) == LegacyHit(r, rows)
  {
    hide Restored, Eligible, LayerOf, IsFiscalTable, IsHeadline, FromNote, Match, Window;
    RestoredKeeps(r);
    TextDecides(Restored(r), r);
    SameNote(r, Restored(r));
    RestoredWindow(rows, WindowOf(r));
  }

  lemma RestoredSuperseded(r: Row, rows: seq<Row>)
    requires r in rows && forall r | r in rows :: IsPlain(r)
    ensures Snapshot.Superseded(Restored(r), Map(Restored, rows)) == (Snapshot.Superseded(r, rows) || KindMerged(r, rows))
  {
    hide Restored, Eligible, LayerOf, StoredKind;
    var restored := Map(Restored, rows);
    RestoredKeeps(r);
    forall s | s in rows
      ensures Restored(s) in restored && IsPlain(s)
      ensures s.Layer() == Restored(s).Layer() && Restored(s).kind == Some(StoredKind(s.kind)) && Restored(s).filed == s.filed
    {
      var i :| 0 <= i < |rows| && rows[i] == s;
      assert restored[i] in restored;
      RestoredKeeps(s);
    }
    if Snapshot.Superseded(Restored(r), restored) {
      var t :| t in restored && Snapshot.KeyOf(t) == Snapshot.KeyOf(Restored(r)) && Later(t.filed, r.filed);
      var i :| 0 <= i < |rows| && restored[i] == t;
      assert rows[i] in rows && t == Restored(rows[i]);
    }
  }

  lemma RestoredStanding(r: Row, rows: seq<Row>)
    requires r in rows && forall r | r in rows :: IsPlain(r)
    ensures Stamp(Restored(r), Map(Restored, rows)) == Restored(r).(standing := Stamp(r, rows).standing)
  {
    hide Restored, LayerOf, StandingOf, Eligible;
    RestoredKeeps(r);
    RestoredFeatures(rows);
    StandingByFeatures(Restored(r), r, Map(Restored, rows), rows);
    PlainStanding(r);
  }

  lemma PlainStanding(r: Row)
    requires IsPlain(r)
    ensures r.filed.Some? && (Eligible(r) || r.standing.None?)
  {
  }

  /** A restored row is current exactly when its original was in the live snapshot and was not lost. */
  lemma CurrentWhenNotLost(rows: seq<Row>, i: nat)
    requires i < |rows| && forall r | r in rows :: IsPlain(r)
    ensures Current(Restored(rows[i]), Map(Restored, rows)) <==>
      Snapshot.InSnapshot(rows, i) && !Lost(rows[i], rows)
  {
    hide Restored, LayerOf, StandingOf, Eligible, LegacyHit, KindMerged, Snapshot.Superseded;
    var r := rows[i];
    var restored := Map(Restored, rows);
    assert r in rows;
    RestoredKeeps(r);
    RestoredStanding(r, rows);
    RestoredLegacyHit(r, rows);
    RestoredSuperseded(r, rows);
    SupersededByKey(Stamp(r, rows), r, rows);
    SupersededByKey(Stamp(Restored(r), restored), Restored(r), restored);
  }

  function RestoredAs(r: Row): Row {
    Restored(r).(standing := r.standing)
  }

  function Survivors(rows: seq<Row>): (flags: seq<bool>)
    ensures |flags| == |rows|
    ensures forall i | 0 <= i < |rows| :: flags[i] == (Snapshot.InSnapshot(rows, i) && !Lost(rows[i], rows))
  {
    seq(|rows|, i requires 0 <= i < |rows| => Snapshot.InSnapshot(rows, i) && !Lost(rows[i], rows))
  }

  /** The snapshot of restored rows, for any plain rows: the live one minus the lost rows. */
  lemma SnapshotOfRestored(rows: seq<Row>)
    requires forall r | r in rows :: IsPlain(r)
    ensures var restored := Map(Restored, rows);
      Select(StampAll(LegacyFlags(restored)), CurrentFlags(restored)) ==
      Map(RestoredAs, Select(StampAll(rows), Survivors(rows)))
  {
    hide Restored, LayerOf, StandingOf, Eligible, LegacyHit, Snapshot.InSnapshot, Lost, LegacyFlagged, Stamp, IsPlain;
    var restored := Map(Restored, rows);
    forall i | 0 <= i < |rows|
      ensures CurrentFlags(restored)[i] == Survivors(rows)[i]
    {
      CurrentWhenNotLost(rows, i);
    }
    assert CurrentFlags(restored) == Survivors(rows);
    var replayed, live := StampAll(LegacyFlags(restored)), Map(RestoredAs, StampAll(rows));
    forall i | 0 <= i < |rows| && CurrentFlags(restored)[i]
      ensures replayed[i] == live[i]
    {
      FlaggedStamp(restored, i);
      NotFlagged(restored[i], restored);
      assert rows[i] in rows;
      RestoredStanding(rows[i], rows);
      PlainStanding(rows[i]);
      StampKeepsRestored(rows[i], rows);
    }
    SelectAgree(replayed, live, Survivors(rows));
    SelectMap(RestoredAs, StampAll(rows), Survivors(rows));
  }

  lemma NotFlagged(r: Row, rows: seq<Row>)
    requires Current(r, rows)
    ensures LegacyFlagged(r, rows) == r
  {
    hide LegacyHit, Snapshot.Keep;
  }

  lemma StampKeepsRestored(r: Row, rows: seq<Row>)
    requires r.filed.Some?
    ensures Restored(Stamp(r, rows)) == Restored(r)
  {
    hide StandingOf, Eligible, StoredKind;
    var s := Stamp(r, rows);
    assert StoredSchedule(s) == StoredSchedule(r) && TimingJsons(s) == TimingJsons(r);
  }

  /** A replay that shows given rows restored has the snapshot of these rows, minus the lost ones. */
  lemma ReplayOfRows(store: Store, rows: seq<Row>, ticker: string, asOf: Day)
    requires ReplayRows(store, ticker, asOf) == Map(Restored, rows)
    requires forall r | r in rows :: IsPlain(r)
    ensures var replayed := ReplaySnapshot(store, ticker, asOf);
      && replayed == Map(RestoredAs, Select(StampAll(rows), Survivors(rows)))
      && (replayed == Map(RestoredAs, Snapshot.Of(rows)) <==>
            forall i | 0 <= i < |rows| && Snapshot.InSnapshot(rows, i) :: !Lost(rows[i], rows))
  {
    hide ReplaySnapshot, ReplayRows, Snapshot.InSnapshot, Lost, Restored, IsPlain;
    ReplaySnapshotIsCurrent(store, ticker, asOf);
    SnapshotOfRestored(rows);
    SelectMonotone(StampAll(rows), Survivors(rows), Snapshot.Flags(rows));
    if forall i | 0 <= i < |rows| && Snapshot.InSnapshot(rows, i) :: !Lost(rows[i], rows) {
      assert Survivors(rows) == Snapshot.Flags(rows);
    }
  }

  /**
   What any history of persists replays to, at any date: the live snapshot of the known rows visible
   by then, each as restored with its live status, minus the lost rows. So the snapshot survives
   exactly when no row of it is lost.
   */
  lemma ReplayOfPersisted(store: Store, batches: seq<seq<Row>>, ticker: string, asOf: Day)
    requires HasNo(store, ticker)
    requires forall r | r in Visible(Known(batches, ticker), asOf) :: IsPlain(r)
    ensures var seen := Visible(Known(batches, ticker), asOf);
      var replayed := ReplaySnapshot(PersistedAll(store, batches), ticker, asOf);
      && replayed == Map(RestoredAs, Select(StampAll(seen), Survivors(seen)))
      && (replayed == Map(RestoredAs, Snapshot.Of(seen)) <==>
            forall i | 0 <= i < |seen| && Snapshot.InSnapshot(seen, i) :: !Lost(seen[i], seen))
  {
    hide ReplaySnapshot, ReplayRows, Snapshot.InSnapshot, Lost, Restored, IsPlain, Visible, Known, PersistedAll, HasNo;
    ReplayedRows(store, batches, ticker, asOf);
    ReplayOfRows(PersistedAll(store, batches), Visible(Known(batches, ticker), asOf), ticker, asOf);
  }

  lemma SameRestored(r: Row, s: Row)
    requires r.(standing := s.standing) == s && r.filed.Some?
    ensures Restored(r) == Restored(s)
  {
    hide StoredKind;
    assert StoredSchedule(s) == StoredSchedule(r) && TimingJsons(s) == TimingJsons(r);
  }

  /** Persisting a grown ledger once more leaves the store knowing exactly that ledger. */
  lemma KnownWhenGrown(batches: seq<seq<Row>>, rows: seq<Row>, ticker: string)
    requires IsLedger(rows, ticker) && Grown(Known(batches, ticker), rows)
    requires forall r | r in rows :: Persistable(r)
    ensures Map(Restored, Known(batches + [rows], ticker)) == Map(Restored, rows)
  {
    hide FirstOfEachId, Restored, Persistable, Filter;
    var earlier := OfTicker(Concat(batches), ticker);
    var known := Known(batches, ticker);
    assert (batches + [rows])[..|batches|] == batches;
    FilterConcat(Concat(batches), rows, HasTicker(ticker));
    FilterAll(rows, HasTicker(ticker));
    forall i, j | 0 <= i < j < |rows|
      ensures IdOf(rows[i]) != IdOf(rows[j])
    {
      assert rows[i] in rows && rows[j] in rows;
    }
    assert rows[..|rows|] == rows;
    GrownFirsts(earlier, rows, |rows|);
    forall i | 0 <= i < |known|
      ensures Restored(known[i]) == Restored(rows[i])
    {
      assert rows[i] in rows;
      FiledRow(rows[i]);
      SameRestored(known[i], rows[i]);
    }
  }

  lemma KnownPersistable(batches: seq<seq<Row>>, ticker: string)
    ensures forall r | r in Known(batches, ticker) :: Persistable(r)
  {
  }

  lemma VisibleAlike(k: Row, r: Row, asOf: Day)
    requires Restored(k) == Restored(r) && Persistable(k) && Persistable(r)
    requires FiledBy(r, asOf) && r.amount != NonNumeric && HasAmountOrMark(r)
    ensures IsVisible(k, asOf)
  {
    hide StoredKind, TimingJsons, RebuiltHorizon, IsXbrl;
  }

  lemma AllVisible(rows: seq<Row>, asOf: Day)
    requires forall r | r in rows :: IsVisible(r, asOf)
    ensures Visible(rows, asOf) == rows
  {
    hide IsVisible;
    FilterAll(rows, VisibleAsOf(asOf));
  }

  lemma FiledRow(r: Row)
    requires Persistable(r)
    ensures r.filed.Some?
  {
  }

  /** A deduplicated ledger, as fetched or with its statuses stamped on. */
  function Finished(fetched: seq<Row>, stamped: bool): seq<Row> {
    if stamped then StampAll(Dedup.Deduped(fetched)) else Dedup.Deduped(fetched)
  }

  lemma FinishedRows(fetched: seq<Row>, stamped: bool)
    requires forall r | r in Dedup.Deduped(fetched) :: Eligible(r) || r.standing.None?
    ensures forall r | r in Finished(fetched, stamped) ::
      r.amount != NonNumeric && HasAmountOrMark(r) && (Eligible(r) || r.standing.None?)
  {
    hide Dedup.Deduped, Stamp, Eligible, HasAmountOrMark;
    var rows := Dedup.Deduped(fetched);
    assert forall r | r in rows :: r.Positive() || (r.amount.Absent? && r.mark != NoMark) by {
      hide Dedup.NoRepeats, Dedup.KeyOf;
      Dedup.DedupKeepsOnePerKey(fetched);
    }
    forall r | r in Finished(fetched, stamped)
      ensures r.amount != NonNumeric && HasAmountOrMark(r) && (Eligible(r) || r.standing.None?)
    {
      var i :| 0 <= i < |rows| && Finished(fetched, stamped)[i] == r;
      assert rows[i] in rows;
      FinishedRow(rows[i], rows);
    }
  }

  lemma FinishedRow(r: Row, rows: seq<Row>)
    requires r.Positive() || (r.amount.Absent? && r.mark != NoMark)
    requires Eligible(r) || r.standing.None?
    ensures forall s | s in [r, Stamp(r, rows)] ::
      s.amount != NonNumeric && HasAmountOrMark(s) && (Eligible(s) || s.standing.None?)
  {
    hide StandingOf, LayerOf;
  }

  /**
   End to end, also for a ledger that was persisted before and has grown: replaying a finished, fully
   filed ledger on or after its last filing date gives its live snapshot back exactly when no snapshot
   row is lost.
   */
  lemma FullReplay(store: Store, batches: seq<seq<Row>>, fetched: seq<Row>, stamped: bool, ticker: string, asOf: Day)
    requires HasNo(store, ticker) && IsLedger(Finished(fetched, stamped), ticker)
    requires Grown(Known(batches, ticker), Finished(fetched, stamped))
    requires forall r | r in Dedup.Deduped(fetched) :: Eligible(r) || r.standing.None?
    requires forall r | r in Finished(fetched, stamped) :: Persistable(r) && FiledBy(r, asOf)
    ensures var rows := Finished(fetched, stamped);
      ReplaySnapshot(PersistedAll(store, batches + [rows]), ticker, asOf) == Map(RestoredAs, Snapshot.Of(rows)) <==>
      forall i | 0 <= i < |rows| && Snapshot.InSnapshot(rows, i) :: !Lost(rows[i], rows)
  {
    hide ReplaySnapshot, ReplayRows, Snapshot.InSnapshot, Lost, Restored, IsLedger, HasNo, Eligible, Dedup.Deduped,
         Known, PersistedAll, Grown, Finished, Visible;
    var rows := Finished(fetched, stamped);
    var known := Known(batches + [rows], ticker);
    FinishedRows(fetched, stamped);
    KnownWhenGrown(batches, rows, ticker);
    KnownPersistable(batches + [rows], ticker);
    forall k | k in known
      ensures IsVisible(k, asOf)
    {
      var i :| 0 <= i < |known| && known[i] == k;
      assert Map(Restored, known)[i] == Map(Restored, rows)[i];
      assert rows[i] in rows;
      VisibleAlike(known[i], rows[i], asOf);
    }
    AllVisible(known, asOf);
    ReplayedRows(store, batches + [rows], ticker, asOf);
    ReplayOfRows(PersistedAll(store, batches + [rows]), rows, ticker, asOf);
  }

  const SAMPLE := Row(false, Some("debt"), None, Num(5.0), Some(1), None, NoMark, None, None, None,
                      Some("2020"), None, None, false, false, None, None, false, "T", "1")

  /** A row without a type and a later row of type "other" are both current live, but share a stored type. */
  lemma MergedTypeIsLost()
    ensures exists rows: seq<Row> ::
      && |rows| == 2 && (forall r | r in rows :: IsPlain(r) && Persistable(r))
      && Snapshot.InSnapshot(rows, 0) && Snapshot.InSnapshot(rows, 1) && Lost(rows[0], rows)
  {
    var untyped := SAMPLE.(concept := true, kind := None, source := None);
    var other := untyped.(kind := Some("other"), filed := Some(2), contentHash := "2");
    var rows := [untyped, other];
    assert untyped.Layer() == other.Layer() == Xbrl && !Eligible(untyped) && !Eligible(other);
    hide LayerOf, Eligible, StandingOf;
    assert other in rows && KindMerged(untyped, rows);
    assert Snapshot.KeyOf(untyped) != Snapshot.KeyOf(other);
    assert Snapshot.InSnapshot(rows, 0) && Snapshot.InSnapshot(rows, 1);
  }

  /** A table row of 5.0, its twin, and a headline of 5.2, all of one note and filing. */
  ghost predicate TwinTable(table: Row, twin: Row, headline: Row) {
    && twin == table.(contentHash := "2") && SameText(twin, table)
    && IsFiscalTable(table) && !IsHeadline(table) && FromNote(table)
    && IsHeadline(headline) && !IsFiscalTable(headline) && FromNote(headline)
    && WindowOf(table) == WindowOf(headline) == WindowOf(twin)
    && table.amount == Num(5.0) && headline.amount == Num(5.2)
    && table.filed == headline.filed == Some(1) && table.Layer() == Note
    && table.component == None && headline.component == None
    && YearText(table) != YearText(headline)
  }

  lemma TotalSnoc(rows: seq<Row>, r: Row)
    ensures TableTotal(rows + [r]) == TableTotal(rows) + (if IsFiscalTable(r) then r.PositiveOrZero() else 0.0)
  {
    hide IsFiscalTable;
    assert (rows + [r])[..|rows|] == rows;
  }

  lemma TwinTotals(table: Row, twin: Row, headline: Row)
    requires TwinTable(table, twin, headline)
    ensures TableTotal([table, twin, headline]) == 10.0 && TableTotal([table, headline]) == 5.0
  {
    hide IsFiscalTable, IsHeadline, FromNote, WindowOf, LayerOf, TableTotal;
    TextDecides(twin, table);
    assert TableTotal([]) == 0.0 by {
      NoTableNoTotal([]);
    }
    TotalSnoc([], table);
    TotalSnoc([table], twin);
    TotalSnoc([table, twin], headline);
    TotalSnoc([table], headline);
    assert [] + [table] == [table] && [table] + [twin] == [table, twin] && [table] + [headline] == [table, headline];
    assert [table, twin] + [headline] == [table, twin, headline];
  }

  lemma HeadlineClose(headline: Row)
    requires headline.amount == Num(5.2) && IsHeadline(headline)
    ensures !Close(headline, 10.0) && Close(headline, 5.0)
  {
    hide IsHeadline;
  }

  lemma NotClose(r: Row, total: real)
    requires total > 0.0 && !IsHeadline(r)
    ensures !Close(r, total)
  {
  }

  /** Two table rows of 5.0 exceed the headline of 5.2 too far; one alone is within 10%. */
  lemma TwinMatches(table: Row, twin: Row, headline: Row)
    requires TwinTable(table, twin, headline)
    ensures Match([table, twin, headline]).None? && Match([table, headline]).Some?
  {
    hide IsFiscalTable, IsHeadline, FromNote, WindowOf, LayerOf, TableTotal, Match, Close, Gap;
    TextDecides(twin, table);
    TwinTotals(table, twin, headline);
    HeadlineClose(headline);
    NotClose(table, 10.0);
    NotClose(twin, 10.0);
    MatchIsClosest([table, twin, headline]);
    CloseMeansMatch([table, headline], headline);
  }

  lemma TwinHit(table: Row, twin: Row, headline: Row)
    requires TwinTable(table, twin, headline)
    ensures LegacyHit(table, [table, headline]) && Snapshot.InSnapshot([table, headline], 0)
  {
    hide IsFiscalTable, IsHeadline, FromNote, WindowOf, LayerOf, Match;
    TwinMatches(table, twin, headline);
    var rows := [table, headline];
    var key := WindowOf(table);
    FilterAll(rows, (r: Row) => InWindow(r, key));
    assert Window(rows, key) == rows;
  }

  lemma TwinDeduped(table: Row, twin: Row, headline: Row)
    requires TwinTable(table, twin, headline)
    ensures Dedup.Deduped([table, twin, headline]) == [table, headline]
  {
    hide IsFiscalTable, IsHeadline, FromNote, WindowOf, LayerOf;
    var rows := [table, twin, headline];
    assert Dedup.KeyOf(table) == Dedup.KeyOf(twin) && Dedup.KeyOf(table) != Dedup.KeyOf(headline);
    assert Dedup.IsFirst(rows, 0) && !Dedup.IsFirst(rows, 1) && Dedup.IsFirst(rows, 2);
    assert Dedup.FirstFlags(rows) == [true, false, true];
    assert [headline][1..] == [] && [true][1..] == [] && Select([headline], [true]) == [headline];
    assert rows[1..] == [twin, headline] && [twin, headline][1..] == [headline];
    assert [true, false, true][1..] == [false, true] && [false, true][1..] == [true];
    assert Select([twin, headline], [false, true]) == [headline];
  }

  /**
   A table row that live reconciliation left alone is flagged on replay: deduplication dropped its
   twin, and the shorter table now adds up to a headline.
   */
  lemma BackfillAfterDedupIsLost(table: Row, twin: Row, headline: Row)
    requires TwinTable(table, twin, headline)
    ensures Reconciled([table, twin, headline]) == [table, twin, headline]
    ensures var rows := Dedup.Deduped([table, twin, headline]);
      rows == [table, headline] && Snapshot.InSnapshot(rows, 0) && Lost(table, rows)
  {
    hide TwinTable, Match, LegacyHit, Snapshot.InSnapshot, Dedup.Deduped;
    TwinMatches(table, twin, headline);
    TwinHit(table, twin, headline);
    TwinDeduped(table, twin, headline);
  }

  lemma SuffixOf(a: string, b: string)
    ensures Text.EndsWith(a + b, b) && Text.RemoveSuffix(a + b, b) == a
  {
  }

  const NOTE := " note"
  const TABLE := " note" + " table"

  lemma TableSuffixes()
    ensures Text.EndsWith(TABLE, "note table") && !Text.EndsWith(TABLE, " note")
    ensures Text.RemoveSuffix(TABLE, " table") == NOTE
  {
    assert TABLE == " " + "note table";
    SuffixOf(" ", "note table");
    SuffixOf(NOTE, " table");
    assert TABLE[|TABLE| - 5..][0] == 't';
  }

  lemma TableSource()
    ensures !Text.Contains(TABLE, "8-K") && !Text.Contains(Text.Lower(TABLE), "balance sheet")
  {
    Text.NotContained(TABLE, "8-K");
    Text.LowerKeeps(TABLE);
    Text.NotContained(TABLE, "balance sheet");
  }

  lemma NoteSource()
    ensures Text.EndsWith(NOTE, " note") && !Text.EndsWith(NOTE, "note table")
    ensures Text.RemoveSuffix(NOTE, " table") == NOTE
    ensures Text.Contains("2020", "20") && !Text.Contains("2020", "Due")
  {
    SuffixOf("", " note");
    Text.NotContained("2020", "Due");
    assert "2020"[0..] == "2020" && "20" <= "2020";
  }

  /** Such rows exist: this is one ledger on which replay loses a live row. */
  lemma TwinTableExists()
    ensures exists table, twin, headline :: TwinTable(table, twin, headline)
  {
    hide Text.EndsWith, Text.RemoveSuffix, Text.Contains, Text.Lower;
    TableSuffixes();
    TableSource();
    NoteSource();
    var table := SAMPLE.(source := Some(TABLE));
    var headline := SAMPLE.(source := Some(NOTE), amount := Num(5.2), fiscalYear := None, contentHash := "3");
    assert !("8k_" <= "debt") by {
      assert "8k_"[0] != "debt"[0];
    }
    assert |YearText(table)| == 4 && |YearText(headline)| == 0;
    assert TwinTable(table, table.(contentHash := "2"), headline);
  }
}
