/** Valuing a replayed picture gives what valuing the live snapshot gave (app/valuation.py, app/obligations.py). */
module ValuationReplay {
  import opened Wrappers
  import opened Ledger
  import opened Persist
  import opened PersistHistory
  import opened Valuation
  import Conservation
  import Lifecycle
  import RoundTrip
  import Snapshot
  import Text

  /** A non-empty schedule of the row's own adds up to something. */
  predicate SchedulePays(r: Row) {
    OwnSchedule(r) != [] ==> ScheduleTotal(OwnSchedule(r)) > 0.0
  }

  lemma RestoredHorizon(r: Row)
    requires r.filed.Some?
    ensures var s, horizon := RoundTrip.Restored(r), HorizonOf(r);
      && OwnSchedule(s) == StoredSchedule(r)
      && HorizonOf(s) == if StoredSchedule(r) != [] then NO_HORIZON.(schedule := StoredSchedule(r)) else horizon
  {
    hide StoredKind, IsXbrl;
  }

  lemma RestoredBucket(r: Row)
    requires r.filed.Some?
    ensures var s := RoundTrip.Restored(r);
      && BucketOf(s) == BucketOf(r) && Counted(s) == Counted(r) && (Counted(r) ==> s.amount == r.amount)
      && StoredKind(s.kind) == StoredKind(r.kind) && s.status == r.status
  {
    hide TimingJsons, RebuiltHorizon, IsXbrl;
  }

  /** One stored schedule replaces two; where each counts, the counting one comes back. */
  lemma RowRestored(r: Row, years: int)
    requires r.filed.Some? && SchedulePays(r)
    ensures var s := RoundTrip.Restored(r);
      && Placements(s, years) == Placements(r, years)
      && (Counted(r) ==> Annual(s, s.amount.value, years) == Annual(r, r.amount.value, years))
  {
    hide RoundTrip.Restored, EntryPlacements, TailOf, Text.Strip, Text.Contains, StoredKind, ScheduleTotal, Annualized,
         BucketOf;
    RestoredHorizon(r);
    RestoredBucket(r);
  }

  /** Valuation looks at neither status nor anything else that a stamp or a replay rewrites. */
  lemma RowSharesRestored(r: Row, years: int, year: string, bucket: Bucket)
    requires r.filed.Some? && SchedulePays(r)
    ensures SameCells(RoundTrip.RestoredAs(r), r, years, year, bucket)
  {
    hide RoundTrip.Restored, BucketOf, Counted, Placements, Annual;
    var restored := RoundTrip.Restored(r);
    RowRestored(r, years);
    RestoredBucket(r);
    StandingIrrelevant(restored, r.standing, years);
  }

  lemma StandingIrrelevant(r: Row, standing: Option<Standing>, years: int)
    ensures var s := r.(standing := standing);
      && BucketOf(s) == BucketOf(r) && Counted(s) == Counted(r) && Placements(s, years) == Placements(r, years)
      && (Counted(r) ==> s.amount == r.amount && Annual(s, r.amount.value, years) == Annual(r, r.amount.value, years))
  {
    hide EntryPlacements, TailOf, Text.Strip, Text.Contains, StoredKind, ScheduleTotal, Annualized;
    var s := r.(standing := standing);
    assert OwnSchedule(s) == OwnSchedule(r) && HorizonOf(s) == HorizonOf(r);
  }

  lemma {:induction false} CellsRestored(rows: seq<Row>, years: int, year: string, bucket: Bucket)
    requires forall r | r in rows :: r.filed.Some? && SchedulePays(r)
    ensures var back := Map(RoundTrip.RestoredAs, rows);
      && FyAmount(back, years, year, bucket) == FyAmount(rows, years, year, bucket)
      && FlatAmount(back, years, bucket) == FlatAmount(rows, years, bucket)
      && AnnualAmount(back, years, bucket) == AnnualAmount(rows, years, bucket)
  {
    hide RoundTrip.RestoredAs, RowFy, RowFlat, RowAnnual, SchedulePays;
    if rows != [] {
      var front, last := rows[..|rows| - 1], rows[|rows| - 1];
      CellsRestored(front, years, year, bucket);
      RowSharesRestored(last, years, year, bucket);
      var back := Map(RoundTrip.RestoredAs, rows);
      assert back[..|back| - 1] == Map(RoundTrip.RestoredAs, front);
    }
  }

  /**
   Any history of persists, replayed at any date and valued: the same cells as valuing the live
   snapshot of the known rows visible by then, provided no snapshot row is lost and own schedules pay.
   */
  lemma ReplayedValuation(store: Store, batches: seq<seq<Row>>, ticker: string, asOf: Day,
                          years: int, year: string, bucket: Bucket)
    requires RoundTrip.HasNo(store, ticker)
    requires forall r | r in RoundTrip.Visible(Known(batches, ticker), asOf) :: RoundTrip.IsPlain(r) && SchedulePays(r)
    requires var seen := RoundTrip.Visible(Known(batches, ticker), asOf);
      forall i | 0 <= i < |seen| && Snapshot.InSnapshot(seen, i) :: !RoundTrip.Lost(seen[i], seen)
    ensures var live := Snapshot.Of(RoundTrip.Visible(Known(batches, ticker), asOf));
      var replayed := ReplaySnapshot(PersistedAll(store, batches), ticker, asOf);
      && FyAmount(replayed, years, year, bucket) == FyAmount(live, years, year, bucket)
      && FlatAmount(replayed, years, bucket) == FlatAmount(live, years, bucket)
      && AnnualAmount(replayed, years, bucket) == AnnualAmount(live, years, bucket)
  {
    hide RoundTrip.Visible, ReplaySnapshot, PersistedAll, Known, Snapshot.InSnapshot, RoundTrip.Lost, RoundTrip.HasNo,
         RoundTrip.IsPlain, SchedulePays, FyAmount, FlatAmount, AnnualAmount, Snapshot.Of;
    var seen := RoundTrip.Visible(Known(batches, ticker), asOf);
    RoundTrip.ReplayOfPersisted(store, batches, ticker, asOf);
    LiveRowsPay(seen);
    CellsRestored(Snapshot.Of(seen), years, year, bucket);
  }

  lemma LiveRowsPay(rows: seq<Row>)
    requires forall r | r in rows :: RoundTrip.IsPlain(r) && SchedulePays(r)
    ensures forall r | r in Snapshot.Of(rows) :: r.filed.Some? && SchedulePays(r)
  {
    hide Lifecycle.StandingOf, Lifecycle.Eligible, ScheduleTotal, Snapshot.InSnapshot;
    var stamped := Lifecycle.StampAll(rows);
    forall r | r in stamped
      ensures r.filed.Some? && SchedulePays(r)
    {
      var i :| 0 <= i < |rows| && stamped[i] == r;
      assert rows[i] in rows;
      assert OwnSchedule(r) == OwnSchedule(rows[i]);
    }
  }

  // ---------------------------------------------------------------- when own schedules do not pay

  lemma {:induction false} ZeroEntries(entries: seq<ScheduleEntry>, year: string)
    requires Conservation.NonNegativeEntries(entries) && ScheduleTotal(entries) == 0.0
    ensures LabelSum(EntryPlacements(entries), year) == 0.0
  {
    hide Text.Strip;
    if entries != [] {
      var front := entries[..|entries| - 1];
      Conservation.EntriesNonNegative(front);
      ZeroEntries(front, year);
      var p := EntryPlacements(entries);
      assert p[..|p| - 1] == EntryPlacements(front);
    }
  }

  /** All shares of one row in the result. */
  ghost predicate SameShares(s: Row, r: Row, years: int) {
    && (forall year, bucket :: RowFy(s, years, year, bucket) == RowFy(r, years, year, bucket))
    && (forall bucket :: RowFlat(s, years, bucket) == RowFlat(r, years, bucket))
    && (forall bucket :: RowAnnual(s, years, bucket) == RowAnnual(r, years, bucket))
  }

  lemma SharesAgree(s: Row, r: Row, years: int)
    requires forall year, bucket :: SameCells(s, r, years, year, bucket)
    ensures SameShares(s, r, years)
  {
    hide RowFy, RowFlat, RowAnnual;
    forall bucket
      ensures RowFlat(s, years, bucket) == RowFlat(r, years, bucket)
      ensures RowAnnual(s, years, bucket) == RowAnnual(r, years, bucket)
    {
      assert SameCells(s, r, years, "", bucket);
    }
    forall year, bucket
      ensures RowFy(s, years, year, bucket) == RowFy(r, years, year, bucket)
    {
      assert SameCells(s, r, years, year, bucket);
    }
  }

  predicate SameCells(s: Row, r: Row, years: int, year: string, bucket: Bucket) {
    && RowFy(s, years, year, bucket) == RowFy(r, years, year, bucket)
    && RowFlat(s, years, bucket) == RowFlat(r, years, bucket)
    && RowAnnual(s, years, bucket) == RowAnnual(r, years, bucket)
  }

  /** The horizon, which the empty schedule hides once stored, has nothing to pay. */
  predicate HorizonIsIdle(r: Row, years: int) {
    var horizon := HorizonOf(r);
    if horizon.schedule != [] then ScheduleTotal(horizon.schedule) == 0.0
    else
      && OrZero(horizon.remainder) == 0.0 && years <= 0
      && !(r.status == Some("off_balance_sheet") && Text.Contains(StoredKind(r.kind), "lease"))
  }

  lemma IdleMeansZero(r: Row, years: int)
    requires Conservation.NonNegative(r) && Counted(r)
    ensures HorizonAnnual(r, r.amount.value, years) == 0.0 <==> HorizonIsIdle(r, years)
  {
    hide Text.Contains, StoredKind, ScheduleTotal, Conservation.NonNegativeEntries;
    var horizon := HorizonOf(r);
    Conservation.EntriesNonNegative(horizon.schedule);
    Conservation.QuotientNonNegative(OrZero(horizon.afterRemainder), AtLeastOne(years - 1));
    if Average(horizon.schedule) == 0.0 {
      ZeroAverage(horizon.schedule);
    }
    PositiveQuotient(r.amount.value, 10);
    if years > 0 {
      PositiveQuotient(r.amount.value, years);
    }
  }

  lemma PositiveQuotient(x: real, n: int)
    requires x > 0.0 && n >= 1
    ensures x / n as real > 0.0
  {
  }

  /**
   Exactly which filed, non-negative rows keep their valuation: those whose own schedule is empty
   or pays, those that valuation ignores, and those whose horizon has nothing to pay.
   */
  lemma ValuationKept(r: Row, years: int)
    requires r.filed.Some? && Conservation.NonNegative(r)
    ensures SameShares(RoundTrip.RestoredAs(r), r, years) <==>
      SchedulePays(r) || !Counted(r) || BucketOf(r).None? || HorizonIsIdle(r, years)
  {
    hide RoundTrip.RestoredAs, RowFy, RowFlat, RowAnnual, BucketOf, HorizonIsIdle, Conservation.NonNegative, SchedulePays;
    if SchedulePays(r) {
      forall year, bucket
        ensures SameCells(RoundTrip.RestoredAs(r), r, years, year, bucket)
      {
        RowSharesRestored(r, years, year, bucket);
      }
      SharesAgree(RoundTrip.RestoredAs(r), r, years);
    } else {
      UnpaidKept(r, years);
    }
  }

  lemma UnpaidKept(r: Row, years: int)
    requires r.filed.Some? && Conservation.NonNegative(r) && !SchedulePays(r)
    ensures SameShares(RoundTrip.RestoredAs(r), r, years) <==>
      !Counted(r) || BucketOf(r).None? || HorizonIsIdle(r, years)
  {
    hide RoundTrip.RestoredAs, RowFy, RowFlat, RowAnnual, BucketOf, HorizonAnnual, Conservation.NonNegative,
         SchedulePays, HorizonIsIdle;
    if Counted(r) {
      IdleMeansZero(r, years);
    }
    var s := RoundTrip.RestoredAs(r);
    if !Counted(r) || BucketOf(r).None? || HorizonIsIdle(r, years) {
      forall year, bucket
        ensures SameCells(s, r, years, year, bucket)
      {
        EmptiedByReplay(r, years, year, bucket);
        UnpaidShares(r, years, year, bucket);
      }
      SharesAgree(s, r, years);
    } else {
      var bucket := BucketOf(r).value;
      EmptiedByReplay(r, years, "", bucket);
      UnpaidShares(r, years, "", bucket);
      assert RowAnnual(s, years, bucket) != RowAnnual(r, years, bucket);
    }
  }

  /** A schedule of zeros comes back as the horizon's schedule too, and so yields nothing. */
  lemma EmptiedByReplay(r: Row, years: int, year: string, bucket: Bucket)
    requires r.filed.Some? && Conservation.NonNegative(r) && !SchedulePays(r)
    ensures var s := RoundTrip.RestoredAs(r);
      RowFy(s, years, year, bucket) == RowFlat(s, years, bucket) == RowAnnual(s, years, bucket) == 0.0
  {
    hide RoundTrip.Restored, BucketOf, EntryPlacements, ScheduleTotal, Text.Strip, Conservation.NonNegativeEntries, LabelSum;
    var entries := OwnSchedule(r);
    var s, restored := RoundTrip.RestoredAs(r), RoundTrip.Restored(r);
    RestoredHorizon(r);
    assert OwnSchedule(s) == OwnSchedule(restored) == entries && HorizonOf(s) == HorizonOf(restored);
    Conservation.EntriesNonNegative(entries);
    ZeroEntries(entries, year);
    assert 0.0 / AtLeastOne(|entries|) as real == 0.0;
  }

  lemma UnpaidShares(r: Row, years: int, year: string, bucket: Bucket)
    requires Conservation.NonNegative(r) && !SchedulePays(r)
    ensures RowAnnual(r, years, bucket) ==
      if Counted(r) && BucketOf(r) == Some(bucket) then HorizonAnnual(r, r.amount.value, years) else 0.0
    ensures RowAnnual(r, years, bucket) == 0.0 ==> RowFy(r, years, year, bucket) == RowFlat(r, years, bucket) == 0.0
  {
    hide BucketOf, EntryPlacements, ScheduleTotal, Text.Strip, Text.Contains, StoredKind, TailOf, RemainderLabel, LabelSum;
    var horizon := HorizonOf(r);
    if In(r, bucket) && horizon.schedule != [] {
      Conservation.EntriesNonNegative(horizon.schedule);
      if RowAnnual(r, years, bucket) == 0.0 {
        ZeroAverage(horizon.schedule);
        ZeroEntries(horizon.schedule, year);
      }
    } else if In(r, bucket) && OrZero(horizon.remainder) != 0.0 {
      Conservation.QuotientNonNegative(OrZero(horizon.afterRemainder), AtLeastOne(years - 1));
    }
  }

  lemma ZeroAverage(entries: seq<ScheduleEntry>)
    requires Average(entries) == 0.0
    ensures ScheduleTotal(entries) == 0.0
  {
    hide ScheduleTotal;
  }

  /** A commitment of 5.0 due in one remainder year, beside a schedule that names a year but no amount. */
  const HIDDEN := RoundTrip.SAMPLE.(
    certainty := Some("contractual"),
    schedule := Some([ScheduleEntry("2026", None)]),
    horizon := Some(Horizon([], Some("2026"), Some(5.0), None)))

  /** Such a row is valued live and worth nothing once stored and restored. */
  lemma HiddenHorizonIsLost(years: int)
    ensures HIDDEN.filed.Some? && Conservation.NonNegative(HIDDEN)
    ensures !SameShares(RoundTrip.RestoredAs(HIDDEN), HIDDEN, years)
  {
    hide RoundTrip.RestoredAs, SameShares, Text.Contains;
    var entries := [ScheduleEntry("2026", None)];
    assert entries[..0] == [] && ScheduleTotal(entries[..0]) == 0.0;
    assert ScheduleTotal(entries) == 0.0;
    assert OwnSchedule(HIDDEN) == entries && HorizonOf(HIDDEN).remainder == Some(5.0);
    ValuationKept(HIDDEN, years);
  }
}
