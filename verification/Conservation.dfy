/** What valuation keeps of the disclosed amounts, per bucket, before rounding (app/valuation.py). */
module Conservation {
  import opened Wrappers
  import opened Ledger
  import opened Valuation
  import Persist
  import Text

  /** What a counted row discloses for the years it is placed in. */
  function RowDisclosed(r: Row, years: int, bucket: Bucket): real {
    var entries, horizon := OwnSchedule(r), Persist.HorizonOf(r);
    if !In(r, bucket) || Placements(r, years).None? then 0.0
    else if entries != [] && ScheduleTotal(entries) > 0.0 then ScheduleTotal(entries)
    else if horizon.schedule != [] then ScheduleTotal(horizon.schedule)
    else OrZero(horizon.remainder) + OrZero(horizon.afterRemainder)
  }

  function BlankTotal(entries: seq<ScheduleEntry>): real {
    if entries == [] then 0.0
    else
      var e := entries[|entries| - 1];
      BlankTotal(entries[..|entries| - 1]) + (if Text.Strip(e.year) == "" then OrZero(e.amount) else 0.0)
  }

  /** No year follows the remainder year: its label has no number, or the horizon ends with it. */
  predicate TailHasNoYear(horizon: Horizon, years: int) {
    BaseYear(RemainderLabel(horizon)).None? || years < 2
  }

  /** The part of it that no fiscal year receives. */
  function RowUnplaced(r: Row, years: int, bucket: Bucket): real {
    var entries, horizon := OwnSchedule(r), Persist.HorizonOf(r);
    if !In(r, bucket) || Placements(r, years).None? then 0.0
    else if entries != [] && ScheduleTotal(entries) > 0.0 then BlankTotal(entries)
    else if horizon.schedule != [] then BlankTotal(horizon.schedule)
    else if TailHasNoYear(horizon, years) then OrZero(horizon.afterRemainder) else 0.0
  }

  function DisclosedAmount(rows: seq<Row>, years: int, bucket: Bucket): real {
    if rows == [] then 0.0
    else DisclosedAmount(rows[..|rows| - 1], years, bucket) + RowDisclosed(rows[|rows| - 1], years, bucket)
  }

  function UnplacedAmount(rows: seq<Row>, years: int, bucket: Bucket): real {
    if rows == [] then 0.0
    else UnplacedAmount(rows[..|rows| - 1], years, bucket) + RowUnplaced(rows[|rows| - 1], years, bucket)
  }

  lemma {:induction false} EntriesSplit(entries: seq<ScheduleEntry>)
    ensures LabelledSum(EntryPlacements(entries)) + BlankTotal(entries) == ScheduleTotal(entries)
  {
    hide Text.Strip;
    if entries != [] {
      var front, e := entries[..|entries| - 1], entries[|entries| - 1];
      EntriesSplit(front);
      LabelledSnoc(EntryPlacements(front), Placement(e.year, OrZero(e.amount)));
    }
  }

  lemma LabelledSnoc(placements: seq<Placement>, p: Placement)
    ensures LabelledSum(placements + [p]) ==
      LabelledSum(placements) + (if Text.Strip(p.year) != "" then p.amount else 0.0)
  {
    hide Text.Strip;
    assert (placements + [p])[..|placements|] == placements;
  }

  lemma DigitsNotBlank(s: string)
    requires s != "" && Text.IsDigit(s[0]) && Text.IsDigit(s[|s| - 1])
    ensures Text.Strip(s) != ""
  {
    assert Text.RStrip(s) == s;
  }

  function Times(part: real, n: nat): real {
    part * n as real
  }

  lemma TimesNext(part: real, n: nat)
    ensures Times(part, 0) == 0.0 && Times(part, n + 1) == Times(part, n) + part
  {
  }

  lemma PartsMakeWhole(whole: real, n: nat)
    requires n > 0
    ensures Times(whole / n as real, n) == whole
  {
  }

  lemma {:induction false} TailSum(base: nat, part: real, n: nat)
    ensures LabelledSum(TailPlacements(base, part, n)) == Times(part, n)
  {
    hide Text.Strip, Text.Decimal, Times;
    if n == 0 {
      TimesNext(part, 0);
    } else {
      TailSum(base, part, n - 1);
      DigitsNotBlank(Text.Decimal(base + n));
      LabelledSnoc(TailPlacements(base, part, n - 1), Placement(Text.Decimal(base + n), part));
      TimesNext(part, n - 1);
    }
  }

  lemma StripTwice(s: string)
    ensures Text.Strip(Text.Strip(s)) == Text.Strip(s)
  {
    var a := Text.RStrip(s);
    var b := Text.LStrip(a);
    if b != [] {
      assert b[|b| - 1] == a[|a| - 1];
      assert Text.RStrip(b) == b;
    }
  }

  lemma {:induction false} LabelledConcat(a: seq<Placement>, b: seq<Placement>)
    ensures LabelledSum(a + b) == LabelledSum(a) + LabelledSum(b)
  {
    hide Text.Strip;
    if b == [] {
      assert a + b == a;
    } else {
      var front := b[..|b| - 1];
      LabelledConcat(a, front);
      LabelledSnoc(a + front, b[|b| - 1]);
      assert a + b == a + front + [b[|b| - 1]];
    }
  }

  /** The years after the remainder receive exactly the tail, or nothing. */
  lemma TailKept(horizon: Horizon, years: int)
    ensures LabelledSum(TailOf(horizon, years)) ==
      if TailHasNoYear(horizon, years) then 0.0 else OrZero(horizon.afterRemainder)
  {
    hide BaseYear, RemainderLabel, Text.Strip, Text.Decimal, TailPlacements, TailPart, Times;
    var base, part := BaseYear(RemainderLabel(horizon)), TailPart(horizon, years);
    if !TailHasNoYear(horizon, years) {
      TailSum(base.value, part, years - 1);
      WholeTail(horizon, years);
    } else if years == 1 && base.Some? {
      TailSum(base.value, part, 0);
      TimesNext(part, 0);
    }
  }

  lemma WholeTail(horizon: Horizon, years: int)
    requires years >= 2
    ensures Times(TailPart(horizon, years), years - 1) == OrZero(horizon.afterRemainder)
    ensures TailPart(horizon, years) == 0.0 ==> OrZero(horizon.afterRemainder) == 0.0
  {
    PartsMakeWhole(OrZero(horizon.afterRemainder), years - 1);
  }

  lemma FrontLoadedSum(horizon: Horizon, years: int)
    requires FrontLoaded(horizon)
    ensures LabelledSum([Placement(RemainderLabel(horizon), OrZero(horizon.remainder))] + TailOf(horizon, years)) ==
      OrZero(horizon.remainder) + (if TailHasNoYear(horizon, years) then 0.0 else OrZero(horizon.afterRemainder))
  {
    hide Text.Strip, TailOf, TailHasNoYear;
    var first := Placement(RemainderLabel(horizon), OrZero(horizon.remainder));
    StripLabel(horizon);
    LabelledConcat([first], TailOf(horizon, years));
    LabelledSnoc([], first);
    assert [] + [first] == [first];
    TailKept(horizon, years);
  }

  lemma StripLabel(horizon: Horizon)
    ensures Text.Strip(RemainderLabel(horizon)) == RemainderLabel(horizon)
  {
    if horizon.remainderYear.Some? {
      StripTwice(horizon.remainderYear.value);
    }
  }

  lemma RowConserved(r: Row, years: int, bucket: Bucket)
    ensures RowPlaced(r, years, bucket) + RowUnplaced(r, years, bucket) == RowDisclosed(r, years, bucket)
  {
    hide Text.Strip, TailOf, TailHasNoYear, BucketOf, Counted, EntryPlacements, RemainderLabel, LabelledSum, BlankTotal;
    var horizon := Persist.HorizonOf(r);
    EntriesSplit(OwnSchedule(r));
    EntriesSplit(horizon.schedule);
    if FrontLoaded(horizon) {
      FrontLoadedSum(horizon, years);
    }
  }

  lemma {:induction false} RowsConserved(rows: seq<Row>, years: int, bucket: Bucket)
    ensures PlacedAmount(rows, years, bucket) + UnplacedAmount(rows, years, bucket) == DisclosedAmount(rows, years, bucket)
  {
    hide RowPlaced, RowUnplaced, RowDisclosed;
    if rows != [] {
      RowsConserved(rows[..|rows| - 1], years, bucket);
      RowConserved(rows[|rows| - 1], years, bucket);
    }
  }

  /** Every placed amount finds a year: no blank labels, and a year for every tail. */
  predicate FullyLabelled(r: Row, years: int) {
    var horizon := Persist.HorizonOf(r);
    && (forall e | e in OwnSchedule(r) + horizon.schedule :: Text.Strip(e.year) != "")
    && (FrontLoaded(horizon) && OrZero(horizon.afterRemainder) != 0.0 ==> !TailHasNoYear(horizon, years))
  }

  lemma {:induction false} NoBlank(entries: seq<ScheduleEntry>)
    requires forall e | e in entries :: Text.Strip(e.year) != ""
    ensures BlankTotal(entries) == 0.0
  {
    hide Text.Strip;
    if entries != [] {
      NoBlank(entries[..|entries| - 1]);
    }
  }

  lemma {:induction false} NothingUnplaced(rows: seq<Row>, years: int, bucket: Bucket)
    requires forall r | r in rows :: FullyLabelled(r, years)
    ensures UnplacedAmount(rows, years, bucket) == 0.0
  {
    hide Text.Strip, TailOf, TailHasNoYear, BucketOf, Counted, RemainderLabel, BlankTotal;
    if rows != [] {
      var r := rows[|rows| - 1];
      NothingUnplaced(rows[..|rows| - 1], years, bucket);
      assert FullyLabelled(r, years);
      NoBlank(OwnSchedule(r));
      NoBlank(Persist.HorizonOf(r).schedule);
    }
  }

  /**
   The fiscal years of a computed impact and the unplaced remainder add up to what was disclosed,
   for every ledger; with every amount labelled, the fiscal years alone do.
   */
  lemma ImpactConserves(impact: Impact, rows: seq<Row>, years: int, bucket: Bucket)
    requires Holds(impact, rows, years)
    ensures FyTotal(impact.byYear, bucket) + UnplacedAmount(rows, years, bucket) == DisclosedAmount(rows, years, bucket)
    ensures (forall r | r in rows :: FullyLabelled(r, years)) ==>
      FyTotal(impact.byYear, bucket) == DisclosedAmount(rows, years, bucket)
  {
    hide FullyLabelled;
    RowsConserved(rows, years, bucket);
    if forall r | r in rows :: FullyLabelled(r, years) {
      NothingUnplaced(rows, years, bucket);
    }
  }

  // ---------------------------------------------------------------- non-negative rows

  predicate NonNegativeEntries(entries: seq<ScheduleEntry>) {
    forall e | e in entries :: OrZero(e.amount) >= 0.0
  }

  predicate NonNegative(r: Row) {
    var horizon := Persist.HorizonOf(r);
    && (r.amount.Num? ==> r.amount.value >= 0.0)
    && NonNegativeEntries(OwnSchedule(r)) && NonNegativeEntries(horizon.schedule)
    && OrZero(horizon.remainder) >= 0.0 && OrZero(horizon.afterRemainder) >= 0.0
  }

  predicate NonNegativePlacements(placements: seq<Placement>) {
    forall p | p in placements :: p.amount >= 0.0
  }

  lemma {:induction false} EntriesNonNegative(entries: seq<ScheduleEntry>)
    requires NonNegativeEntries(entries)
    ensures ScheduleTotal(entries) >= 0.0 && NonNegativePlacements(EntryPlacements(entries))
  {
    if entries != [] {
      EntriesNonNegative(entries[..|entries| - 1]);
    }
  }

  lemma {:induction false} TailNonNegative(base: nat, part: real, n: nat)
    requires part >= 0.0
    ensures NonNegativePlacements(TailPlacements(base, part, n))
  {
    hide Text.Decimal;
    if n > 0 {
      TailNonNegative(base, part, n - 1);
    }
  }

  lemma {:induction false} LabelSumNonNegative(placements: seq<Placement>, year: string)
    requires NonNegativePlacements(placements)
    ensures LabelSum(placements, year) >= 0.0
  {
    hide Text.Strip;
    if placements != [] {
      LabelSumNonNegative(placements[..|placements| - 1], year);
    }
  }

  lemma QuotientNonNegative(x: real, n: int)
    requires x >= 0.0 && n >= 1
    ensures x / n as real >= 0.0
  {
  }

  lemma AnnualNonNegative(r: Row, years: int)
    requires NonNegative(r) && r.amount.Num?
    ensures Annual(r, r.amount.value, years) >= 0.0
    ensures TailPart(Persist.HorizonOf(r), years) >= 0.0
  {
    hide Text.Contains, Persist.StoredKind, ScheduleTotal, NonNegativeEntries;
    var entries, horizon := OwnSchedule(r), Persist.HorizonOf(r);
    EntriesNonNegative(entries);
    EntriesNonNegative(horizon.schedule);
    QuotientNonNegative(ScheduleTotal(entries), AtLeastOne(|entries|));
    QuotientNonNegative(ScheduleTotal(horizon.schedule), AtLeastOne(|horizon.schedule|));
    QuotientNonNegative(OrZero(horizon.afterRemainder), AtLeastOne(years - 1));
    QuotientNonNegative(r.amount.value, 10);
    if years > 0 {
      QuotientNonNegative(r.amount.value, years);
    }
  }

  lemma PlacementsNonNegative(r: Row, years: int)
    requires NonNegative(r) && r.amount.Num? && Placements(r, years).Some?
    ensures NonNegativePlacements(Placements(r, years).value)
  {
    hide RemainderLabel, BaseYear, ScheduleTotal, EntryPlacements, TailPlacements, NonNegativeEntries, TailPart;
    var horizon := Persist.HorizonOf(r);
    EntriesNonNegative(OwnSchedule(r));
    EntriesNonNegative(horizon.schedule);
    AnnualNonNegative(r, years);
    var base := BaseYear(RemainderLabel(horizon));
    if base.Some? && years >= 1 {
      TailNonNegative(base.value, TailPart(horizon, years), years - 1);
    }
  }

  lemma {:induction false} CellsNonNegative(rows: seq<Row>, years: int, year: string, bucket: Bucket)
    requires forall r | r in rows :: NonNegative(r)
    ensures FyAmount(rows, years, year, bucket) >= 0.0
    ensures FlatAmount(rows, years, bucket) >= 0.0
  {
    hide NonNegative, Annual, Placements, BucketOf, LabelSum, NonNegativePlacements;
    if rows != [] {
      var r := rows[|rows| - 1];
      CellsNonNegative(rows[..|rows| - 1], years, year, bucket);
      if In(r, bucket) {
        AnnualNonNegative(r, years);
        if Placements(r, years).Some? {
          PlacementsNonNegative(r, years);
          LabelSumNonNegative(Placements(r, years).value, year);
        }
      }
    }
  }
}
