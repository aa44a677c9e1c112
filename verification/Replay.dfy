/**
 The replayed picture as rows of the ledger, and how it moves with the as-of date (app/obligations.py).

 `OneWayReplay` says that, for any store at all, the picture only ever loses rows it has shown.
 What a persisted ledger replays to is in RoundTrip.
 */
module Replay {
  import opened Wrappers
  import opened Ledger
  import opened Lifecycle
  import opened Persist
  import opened Reconcile
  import Snapshot

  // ---------------------------------------------------------------- the picture of given rows

  /** A row of the picture is current: kept by the snapshot and not flagged by the backfill. */
  predicate Current(r: Row, rows: seq<Row>) {
    Snapshot.Keep(Stamp(r, rows), rows) && !LegacyHit(r, rows)
  }

  function CurrentFlags(rows: seq<Row>): (flags: seq<bool>)
    ensures |flags| == |rows| && forall i | 0 <= i < |rows| :: flags[i] == Current(rows[i], rows)
  {
    seq(|rows|, i requires 0 <= i < |rows| => Current(rows[i], rows))
  }

  /** The backfill touches the component flag and the headline type of hit rows, nothing else. */
  lemma FlagKeeps(r: Row, rows: seq<Row>)
    ensures LegacyFlagged(r, rows).(component := r.component, headlineKind := r.headlineKind) == r
    ensures LegacyFlagged(r, rows).component == if LegacyHit(r, rows) then Some(true) else r.component
  {
  }

  lemma SubsetFeatures(a: seq<Row>, b: seq<Row>)
    requires |a| == |b|
    requires forall i | 0 <= i < |a| :: Eligible(a[i]) == Eligible(b[i]) && FeatureOf(a[i]) == FeatureOf(b[i])
    ensures Features(a) <= Features(b)
  {
    hide Eligible;
    forall f | f in Features(a)
      ensures f in Features(b)
    {
      var r :| r in a && Eligible(r) && FeatureOf(r) == f;
      var i :| 0 <= i < |a| && a[i] == r;
      assert b[i] in b;
    }
  }

  lemma SupersededPointwise(r: Row, r': Row, a: seq<Row>, b: seq<Row>)
    requires |a| == |b| && Snapshot.KeyOf(r) == Snapshot.KeyOf(r') && r.filed == r'.filed
    requires forall i | 0 <= i < |a| :: Snapshot.KeyOf(a[i]) == Snapshot.KeyOf(b[i]) && a[i].filed == b[i].filed
    requires Snapshot.Superseded(r, a)
    ensures Snapshot.Superseded(r', b)
  {
    hide Snapshot.KeyOf;
    var s :| s in a && Snapshot.KeyOf(s) == Snapshot.KeyOf(r) && Later(s.filed, r.filed);
    var i :| 0 <= i < |a| && a[i] == s;
    assert b[i] in b;
  }

  lemma FlaggingKeeps(r: Row, rows: seq<Row>)
    ensures Features(LegacyFlags(rows)) == Features(rows)
    ensures Snapshot.Superseded(r, LegacyFlags(rows)) == Snapshot.Superseded(r, rows)
  {
    hide LegacyFlagged, LayerOf;
    var flagged := LegacyFlags(rows);
    forall i | 0 <= i < |rows|
      ensures Snapshot.KeyOf(flagged[i]) == Snapshot.KeyOf(rows[i]) && flagged[i].filed == rows[i].filed
      ensures Eligible(flagged[i]) == Eligible(rows[i]) && FeatureOf(flagged[i]) == FeatureOf(rows[i])
    {
      FlagKeeps(rows[i], rows);
    }
    SubsetFeatures(rows, flagged);
    SubsetFeatures(flagged, rows);
    if Snapshot.Superseded(r, rows) {
      SupersededPointwise(r, r, rows, flagged);
    }
    if Snapshot.Superseded(r, flagged) {
      SupersededPointwise(r, r, flagged, rows);
    }
  }

  lemma FlaggedStamp(rows: seq<Row>, i: nat)
    requires i < |rows|
    ensures StampAll(LegacyFlags(rows))[i] ==
      LegacyFlagged(rows[i], rows).(standing := Stamp(rows[i], rows).standing)
  {
    hide LegacyFlagged, LegacyHit, StandingOf, LayerOf, Snapshot.Superseded;
    var flagged := LegacyFlags(rows);
    FlagKeeps(rows[i], rows);
    FlaggingKeeps(rows[i], rows);
    StandingByFeatures(flagged[i], rows[i], flagged, rows);
  }

  /** After the backfill, a row enters the snapshot exactly when it is Current. */
  lemma PictureKeepsCurrent(rows: seq<Row>, i: nat)
    requires i < |rows|
    ensures Snapshot.InSnapshot(LegacyFlags(rows), i) == Current(rows[i], rows)
  {
    hide LegacyFlagged, LegacyHit, StandingOf, LayerOf, Snapshot.Superseded, Eligible;
    var flagged := LegacyFlags(rows);
    var r := rows[i];
    var before, after := Stamp(r, rows), Stamp(flagged[i], flagged);
    FlaggedStamp(rows, i);
    assert after == StampAll(flagged)[i];
    FlagKeeps(r, rows);
    FlaggingKeeps(r, rows);
    SupersededByKey(after, r, flagged);
    SupersededByKey(before, r, rows);
  }

  lemma SupersededByKey(r: Row, r': Row, rows: seq<Row>)
    requires Snapshot.KeyOf(r) == Snapshot.KeyOf(r') && r.filed == r'.filed
    ensures Snapshot.Superseded(r, rows) == Snapshot.Superseded(r', rows)
  {
  }

  /** The replayed snapshot is the current rows of the picture, flagged and stamped. */
  lemma ReplaySnapshotIsCurrent(store: Store, ticker: string, asOf: Day)
    ensures var rows := ReplayRows(store, ticker, asOf);
      ReplaySnapshot(store, ticker, asOf) == Select(StampAll(LegacyFlags(rows)), CurrentFlags(rows))
  {
    hide ReplayRows, Current, Snapshot.InSnapshot;
    var rows := ReplayRows(store, ticker, asOf);
    forall i | 0 <= i < |rows|
      ensures Snapshot.Flags(LegacyFlags(rows))[i] == CurrentFlags(rows)[i]
    {
      PictureKeepsCurrent(rows, i);
    }
    assert Snapshot.Flags(LegacyFlags(rows)) == CurrentFlags(rows);
  }

  // ---------------------------------------------------------------- time moves one way

  predicate FiledBy(r: Row, asOf: Day) {
    r.filed.Some? && r.filed.value <= asOf
  }

  /** Everything the store will ever show for a ticker. */
  function AllRows(store: Store, ticker: string): seq<Row> {
    Filter(RebuiltAll(Filter(store.events, (e: Event) => e.id.ticker == ticker), store.evidence), HasAmountOrMark)
  }

  /** Replaying as of a date is seeing the rows filed by it. */
  lemma ReplayIsFiledBy(store: Store, ticker: string, asOf: Day)
    ensures ReplayRows(store, ticker, asOf) == Filter(AllRows(store, ticker), (r: Row) => FiledBy(r, asOf))
  {
    hide IsXbrl, Filter, RebuiltHorizon;
    var ofTicker := (e: Event) => e.id.ticker == ticker;
    var early := (e: Event) => e.filed <= asOf;
    var filed := (r: Row) => FiledBy(r, asOf);
    var both := (r: Row) => FiledBy(r, asOf) && HasAmountOrMark(r);
    var rebuild := Rebuilder(store.evidence);
    var events := Filter(store.events, ofTicker);
    FilterFilter(store.events, ofTicker, early, FiledAsOf(ticker, asOf));
    FilterMap(rebuild, events, early, filed);
    FilterFilter(Map(rebuild, events), filed, HasAmountOrMark, both);
    FilterFilter(Map(rebuild, events), HasAmountOrMark, filed, both);
  }

  /** none to amended to unknown; terminated is fixed. */
  predicate OneWay(before: Option<Standing>, after: Option<Standing>) {
    || before == after
    || (before == None && after != Some(Terminated))
    || (before == Some(Amended) && after == Some(Unknown))
  }

  lemma StandingOneWay(r: Row, early: seq<Row>, late: seq<Row>)
    requires forall x | x in early :: x in late
    ensures OneWay(StandingOf(r, early), StandingOf(r, late))
  {
    hide Eligible;
  }

  /** A backfill window is complete as soon as its filing date has come. */
  lemma WindowIsComplete(rows: seq<Row>, key: WindowKey, asOf: Day)
    requires key.0.Some? && key.0.value <= asOf
    ensures Window(Filter(rows, (r: Row) => FiledBy(r, asOf)), key) == Window(rows, key)
  {
    hide FromNote, Filter;
    var filed := (r: Row) => FiledBy(r, asOf);
    var inside := (r: Row) => InWindow(r, key);
    FilterFilter(rows, filed, inside, inside);
  }

  /**
   As the as-of date advances, a row of the picture stays in it, its status only moves none to
   amended to unknown, and once it is not current it never is again. This holds for any store.
   */
  lemma OneWayReplay(store: Store, ticker: string, d1: Day, d2: Day, r: Row)
    requires d1 <= d2 && r in ReplayRows(store, ticker, d1)
    ensures var early, late := ReplayRows(store, ticker, d1), ReplayRows(store, ticker, d2);
      && r in late
      && OneWay(Stamp(r, early).standing, Stamp(r, late).standing)
      && LegacyFlagged(r, early) == LegacyFlagged(r, late)
      && (Current(r, late) ==> Current(r, early))
  {
    hide *;
    ReplayIsFiledBy(store, ticker, d1);
    ReplayIsFiledBy(store, ticker, d2);
    FiledByGrows(AllRows(store, ticker), d1, d2);
    StandingOneWay(r, ReplayRows(store, ticker, d1), ReplayRows(store, ticker, d2));
    FlagsStable(AllRows(store, ticker), d1, d2, r);
    CurrentOneWay(r, ReplayRows(store, ticker, d1), ReplayRows(store, ticker, d2));
  }

  lemma FiledByGrows(rows: seq<Row>, d1: Day, d2: Day)
    requires d1 <= d2
    ensures forall r | r in Filter(rows, (r: Row) => FiledBy(r, d1)) ::
      FiledBy(r, d1) && r in Filter(rows, (r: Row) => FiledBy(r, d2))
  {
  }

  lemma FlagsStable(rows: seq<Row>, d1: Day, d2: Day, r: Row)
    requires d1 <= d2 && FiledBy(r, d1)
    ensures var early, late := Filter(rows, (r: Row) => FiledBy(r, d1)), Filter(rows, (r: Row) => FiledBy(r, d2));
      LegacyHit(r, early) == LegacyHit(r, late) && LegacyFlagged(r, early) == LegacyFlagged(r, late)
  {
    hide Match, Window, FromNote, IsFiscalTable, Filter;
    WindowIsComplete(rows, WindowOf(r), d1);
    WindowIsComplete(rows, WindowOf(r), d2);
  }

  lemma CurrentOneWay(r: Row, early: seq<Row>, late: seq<Row>)
    requires forall x | x in early :: x in late
    requires OneWay(StandingOf(r, early), StandingOf(r, late)) && LegacyHit(r, early) == LegacyHit(r, late)
    ensures OneWay(Stamp(r, early).standing, Stamp(r, late).standing)
    ensures Current(r, late) ==> Current(r, early)
  {
    hide StandingOf, LegacyHit, LayerOf, Snapshot.Superseded;
    SupersededGrows(Stamp(r, early), Stamp(r, late), early, late);
  }

  lemma SupersededGrows(r: Row, r': Row, early: seq<Row>, late: seq<Row>)
    requires Snapshot.KeyOf(r) == Snapshot.KeyOf(r') && r.filed == r'.filed
    requires forall x | x in early :: x in late
    ensures Snapshot.Superseded(r, early) ==> Snapshot.Superseded(r', late)
  {
  }
}
