/**
 Annual impact of a snapshot by EPS treatment and fiscal year (app/valuation.py).

 `FyAmount`, `FlatAmount` and `AnnualAmount` say what each cell of the result is: a sum over rows.
 The loop that fills the dictionaries is proved to compute exactly them.
 */
module Valuation {
  import opened Wrappers
  import opened Ledger
  import Persist
  import Text

  datatype Bucket = Contractual | Contingent | DefaultTriggered | RevenueMatched

  const DEFAULT_TRIGGERED_TYPES := ["8k_guarantees", "facility_lease_guarantees", "guarantees"]

  /** How a row is treated; None for rows already on the balance sheet. */
  function BucketOf(r: Row): Option<Bucket> {
    if r.revenueMatched then Some(RevenueMatched)
    else if r.status == Some("on_balance_sheet") then None
    else if r.certainty == Some("contractual") then Some(Contractual)
    else if r.defaultTriggered || (r.kind.Some? && r.kind.value in DEFAULT_TRIGGERED_TYPES) then Some(DefaultTriggered)
    else Some(Contingent)
  }

  predicate Counted(r: Row) {
    !r.IsComponent() && r.amount.Num? && r.amount.value != 0.0
  }

  function OrZero(x: Option<real>): real {
    if x.Some? then x.value else 0.0
  }

  function ScheduleTotal(entries: seq<ScheduleEntry>): real {
    if entries == [] then 0.0
    else ScheduleTotal(entries[..|entries| - 1]) + OrZero(entries[|entries| - 1].amount)
  }

  function OwnSchedule(r: Row): seq<ScheduleEntry> {
    if r.schedule.Some? then r.schedule.value else []
  }

  function AtLeastOne(n: int): (m: int)
    ensures m >= 1
  {
    if n < 1 then 1 else n
  }

  function Annualized(amount: real, years: int): real {
    if years <= 0 then 0.0 else amount / years as real
  }

  function Average(entries: seq<ScheduleEntry>): real {
    ScheduleTotal(entries) / AtLeastOne(|entries|) as real
  }

  function HorizonAnnual(r: Row, amount: real, years: int): real {
    var horizon := Persist.HorizonOf(r);
    var near := OrZero(horizon.remainder);
    if horizon.schedule != [] then Average(horizon.schedule)
    else if near != 0.0 then near / 0.75 + OrZero(horizon.afterRemainder) / AtLeastOne(years - 1) as real
    else if r.status == Some("off_balance_sheet") && Text.Contains(Persist.StoredKind(r.kind), "lease") then
      Annualized(amount, 10)
    else Annualized(amount, years)
  }

  function Annual(r: Row, amount: real, years: int): real {
    var entries := OwnSchedule(r);
    if entries != [] && ScheduleTotal(entries) > 0.0 then Average(entries)
    else HorizonAnnual(r, amount, years)
  }

  // ---------------------------------------------------------------- where a row lands

  datatype Placement = Placement(year: string, amount: real)

  function EntryPlacements(entries: seq<ScheduleEntry>): (p: seq<Placement>)
    ensures |p| == |entries|
  {
    if entries == [] then []
    else
      var e := entries[|entries| - 1];
      EntryPlacements(entries[..|entries| - 1]) + [Placement(e.year, OrZero(e.amount))]
  }

  /** The year a remainder label starts with: its first four characters, when they are digits. */
  function BaseYear(name: string): Option<nat> {
    var head := if |name| < 4 then name else name[..4];
    if head != "" && forall i | 0 <= i < |head| :: Text.IsDigit(head[i]) then Some(Text.DigitsValue(head)) else None
  }

  /** The tail, in equal parts over the years after the base year, up to the n-th. */
  function TailPlacements(base: nat, part: real, n: nat): (p: seq<Placement>)
    ensures |p| == n
  {
    if n == 0 then [] else TailPlacements(base, part, n - 1) + [Placement(Text.Decimal(base + n), part)]
  }

  function RemainderLabel(horizon: Horizon): string {
    if horizon.remainderYear.Some? then Text.Strip(horizon.remainderYear.value) else ""
  }

  predicate FrontLoaded(horizon: Horizon) {
    OrZero(horizon.remainder) != 0.0 && RemainderLabel(horizon) != ""
  }

  function TailPart(horizon: Horizon, years: int): real {
    OrZero(horizon.afterRemainder) / AtLeastOne(years - 1) as real
  }

  function TailOf(horizon: Horizon, years: int): seq<Placement> {
    var base := BaseYear(RemainderLabel(horizon));
    if TailPart(horizon, years) == 0.0 || base.None? || years < 1 then []
    else TailPlacements(base.value, TailPart(horizon, years), years - 1)
  }

  /** The fiscal-year amounts of a row; None when it has no year to go to and stays flat. */
  function Placements(r: Row, years: int): Option<seq<Placement>> {
    var entries, horizon := OwnSchedule(r), Persist.HorizonOf(r);
    if entries != [] && ScheduleTotal(entries) > 0.0 then Some(EntryPlacements(entries))
    else if horizon.schedule != [] then Some(EntryPlacements(horizon.schedule))
    else if FrontLoaded(horizon) then
      Some([Placement(RemainderLabel(horizon), OrZero(horizon.remainder))] + TailOf(horizon, years))
    else None
  }

  // ---------------------------------------------------------------- the cells of the result

  /** Sum of the placements under one stripped label. */
  function LabelSum(placements: seq<Placement>, year: string): real {
    if placements == [] then 0.0
    else
      var p := placements[|placements| - 1];
      LabelSum(placements[..|placements| - 1], year) + (if Text.Strip(p.year) == year then p.amount else 0.0)
  }

  predicate In(r: Row, bucket: Bucket) {
    Counted(r) && BucketOf(r) == Some(bucket)
  }

  function RowFy(r: Row, years: int, year: string, bucket: Bucket): real {
    var placements := Placements(r, years);
    if In(r, bucket) && placements.Some? && year != "" then LabelSum(placements.value, year) else 0.0
  }

  function RowFlat(r: Row, years: int, bucket: Bucket): real {
    if In(r, bucket) && Placements(r, years).None? then Annual(r, r.amount.value, years) else 0.0
  }

  function RowAnnual(r: Row, years: int, bucket: Bucket): real {
    if In(r, bucket) then Annual(r, r.amount.value, years) else 0.0
  }

  function FyAmount(rows: seq<Row>, years: int, year: string, bucket: Bucket): real {
    if rows == [] then 0.0
    else FyAmount(rows[..|rows| - 1], years, year, bucket) + RowFy(rows[|rows| - 1], years, year, bucket)
  }

  function FlatAmount(rows: seq<Row>, years: int, bucket: Bucket): real {
    if rows == [] then 0.0
    else FlatAmount(rows[..|rows| - 1], years, bucket) + RowFlat(rows[|rows| - 1], years, bucket)
  }

  function AnnualAmount(rows: seq<Row>, years: int, bucket: Bucket): real {
    if rows == [] then 0.0
    else AnnualAmount(rows[..|rows| - 1], years, bucket) + RowAnnual(rows[|rows| - 1], years, bucket)
  }

  // ---------------------------------------------------------------- the accumulators

  type Cells = map<Bucket, real>

  const ZEROS: Cells := map[Contractual := 0.0, Contingent := 0.0, DefaultTriggered := 0.0, RevenueMatched := 0.0]

  predicate Full(cells: Cells) {
    forall b: Bucket :: b in cells
  }

  lemma ZerosFull()
    ensures Full(ZEROS) && forall b :: ZEROS[b] == 0.0
  {
    forall b: Bucket
      ensures b in ZEROS
    {
      match b
      case Contractual =>
      case Contingent =>
      case DefaultTriggered =>
      case RevenueMatched =>
    }
  }

  predicate FullYears(byYear: map<string, Cells>) {
    forall y | y in byYear :: y != "" && Full(byYear[y])
  }

  function At(byYear: map<string, Cells>, year: string, bucket: Bucket): real {
    if year in byYear && bucket in byYear[year] then byYear[year][bucket] else 0.0
  }

  /** Sum of one bucket over the given fiscal years. */
  ghost function YearSum(byYear: map<string, Cells>, years: set<string>, bucket: Bucket): real {
    if years == {} then 0.0
    else var y :| y in years; At(byYear, y, bucket) + YearSum(byYear, years - {y}, bucket)
  }

  ghost function FyTotal(byYear: map<string, Cells>, bucket: Bucket): real {
    YearSum(byYear, byYear.Keys, bucket)
  }

  lemma {:induction false} YearSumAny(byYear: map<string, Cells>, years: set<string>, y: string, bucket: Bucket)
    requires y in years
    ensures YearSum(byYear, years, bucket) == At(byYear, y, bucket) + YearSum(byYear, years - {y}, bucket)
    decreases |years|
  {
    var z :| z in years && YearSum(byYear, years, bucket) == At(byYear, z, bucket) + YearSum(byYear, years - {z}, bucket);
    if y != z {
      YearSumAny(byYear, years - {z}, y, bucket);
      YearSumAny(byYear, years - {y}, z, bucket);
      assert years - {z} - {y} == years - {y} - {z};
    }
  }

  lemma {:induction false} YearSumFrame(a: map<string, Cells>, b: map<string, Cells>, years: set<string>, bucket: Bucket)
    requires forall y | y in years :: At(a, y, bucket) == At(b, y, bucket)
    ensures YearSum(a, years, bucket) == YearSum(b, years, bucket)
    decreases |years|
  {
    if years != {} {
      var y :| y in years && YearSum(a, years, bucket) == At(a, y, bucket) + YearSum(a, years - {y}, bucket);
      YearSumFrame(a, b, years - {y}, bucket);
      YearSumAny(b, years, y, bucket);
    }
  }

  /** The dictionaries that the recording helpers update in place. */
  class Impact {
    var byYear: map<string, Cells>
    var flat: Cells
    var totals: Cells

    ghost predicate Valid()
      reads this
    {
      && FullYears(byYear) && Full(flat) && Full(totals)
    }

    constructor ()
      ensures Valid() && byYear == map[] && flat == ZEROS && totals == ZEROS
    {
      ZerosFull();
      byYear, flat, totals := map[], ZEROS, ZEROS;
    }

    /** Add to one fiscal-year cell; a blank label is ignored. */
    method AddFyAmount(year: string, bucket: Bucket, amount: real)
      requires Valid()
      modifies this`byYear
      ensures byYear == Added(old(byYear), Text.Strip(year), bucket, amount)
    {
      hide Text.Strip;
      ZerosFull();
      var name := Text.Strip(year);
      if name == "" {
        return;
      }
      var cells := if name in byYear then byYear[name] else ZEROS;
      assert Full(cells);
      byYear := byYear[name := cells[bucket := cells[bucket] + amount]];
    }

    method Record(placements: seq<Placement>, bucket: Bucket)
      requires Valid()
      modifies this`byYear
      ensures Valid()
      ensures forall y, b :: At(byYear, y, b) == old(At(byYear, y, b)) + AmountIf(y != "" && b == bucket, LabelSum(placements, y))
      ensures forall b :: FyTotal(byYear, b) == old(FyTotal(byYear, b)) + AmountIf(b == bucket, LabelledSum(placements))
    {
      hide Text.Strip, Added, LabelSum, LabelledSum, FyTotal;
      ghost var before := byYear;
      NothingPlaced(placements[..0]);
      for i := 0 to |placements|
        invariant Valid()
        invariant forall y, b ::
          At(byYear, y, b) == At(before, y, b) + AmountIf(y != "" && b == bucket, LabelSum(placements[..i], y))
        invariant forall b :: FyTotal(byYear, b) == FyTotal(before, b) + AmountIf(b == bucket, LabelledSum(placements[..i]))
      {
        PlacedSnoc(placements, i);
        AddedCells(byYear, Text.Strip(placements[i].year), bucket, placements[i].amount);
        AddFyAmount(placements[i].year, bucket, placements[i].amount);
      }
      assert placements[..|placements|] == placements;
    }
  }

  lemma NothingPlaced(placements: seq<Placement>)
    requires placements == []
    ensures LabelledSum(placements) == 0.0 && forall y :: LabelSum(placements, y) == 0.0
  {
  }

  lemma PlacedSnoc(placements: seq<Placement>, i: nat)
    requires i < |placements|
    ensures var upTo, p := placements[..i + 1], placements[i];
      && LabelledSum(upTo) == LabelledSum(placements[..i]) + AmountIf(Text.Strip(p.year) != "", p.amount)
      && forall y :: LabelSum(upTo, y) == LabelSum(placements[..i], y) + AmountIf(Text.Strip(p.year) == y, p.amount)
  {
    hide Text.Strip;
    assert placements[..i + 1][..i] == placements[..i];
  }

  function AmountIf(condition: bool, amount: real): real {
    if condition then amount else 0.0
  }

  /** The fiscal-year table with an amount added to one cell. */
  function Added(byYear: map<string, Cells>, name: string, bucket: Bucket, amount: real): map<string, Cells>
    requires FullYears(byYear)
  {
    if name == "" then byYear
    else
      ZerosFull();
      var cells := if name in byYear then byYear[name] else ZEROS;
      byYear[name := cells[bucket := cells[bucket] + amount]]
  }

  lemma AddedCells(byYear: map<string, Cells>, name: string, bucket: Bucket, amount: real)
    requires FullYears(byYear)
    ensures var after := Added(byYear, name, bucket, amount);
      && FullYears(after)
      && (forall y, b :: At(after, y, b) == At(byYear, y, b) + AmountIf(y != "" && y == name && b == bucket, amount))
      && (forall b :: FyTotal(after, b) == FyTotal(byYear, b) + AmountIf(name != "" && b == bucket, amount))
  {
    ZerosFull();
    var after := Added(byYear, name, bucket, amount);
    if name != "" {
      forall b
        ensures FyTotal(after, b) == FyTotal(byYear, b) + AmountIf(b == bucket, amount)
      {
        AddedTotal(byYear, after, name, b);
      }
    }
  }

  lemma AddedTotal(before: map<string, Cells>, after: map<string, Cells>, name: string, bucket: Bucket)
    requires after.Keys == before.Keys + {name}
    requires forall y | y != name :: At(after, y, bucket) == At(before, y, bucket)
    ensures FyTotal(after, bucket) == FyTotal(before, bucket) + At(after, name, bucket) - At(before, name, bucket)
  {
    var rest := before.Keys - {name};
    YearSumAny(after, after.Keys, name, bucket);
    assert after.Keys - {name} == rest;
    YearSumFrame(after, before, rest, bucket);
    if name in before.Keys {
      YearSumAny(before, before.Keys, name, bucket);
    } else {
      assert before.Keys == rest;
    }
  }

  /** Sum of the placements that carry a label. */
  function LabelledSum(placements: seq<Placement>): real {
    if placements == [] then 0.0
    else
      var p := placements[|placements| - 1];
      LabelledSum(placements[..|placements| - 1]) + (if Text.Strip(p.year) != "" then p.amount else 0.0)
  }

  function RowPlaced(r: Row, years: int, bucket: Bucket): real {
    var placements := Placements(r, years);
    if In(r, bucket) && placements.Some? then LabelledSum(placements.value) else 0.0
  }

  function PlacedAmount(rows: seq<Row>, years: int, bucket: Bucket): real {
    if rows == [] then 0.0
    else PlacedAmount(rows[..|rows| - 1], years, bucket) + RowPlaced(rows[|rows| - 1], years, bucket)
  }

  /** Everything the impact holds, before rounding, cell by cell. */
  ghost predicate Holds(impact: Impact, rows: seq<Row>, years: int)
    reads impact
  {
    && impact.Valid()
    && (forall y, b | y != "" :: At(impact.byYear, y, b) == FyAmount(rows, years, y, b))
    && (forall b :: b in impact.flat && impact.flat[b] == FlatAmount(rows, years, b))
    && (forall b :: b in impact.totals && impact.totals[b] == AnnualAmount(rows, years, b))
    && (forall b :: FyTotal(impact.byYear, b) == PlacedAmount(rows, years, b))
  }

  method RecordRow(impact: Impact, ghost seen: seq<Row>, row: Row, years: int)
    requires Holds(impact, seen, years)
    modifies impact
    ensures Holds(impact, seen + [row], years)
  {
    hide Placements, Annual, BucketOf, Text.Strip;
    assert (seen + [row])[..|seen|] == seen;
    if row.IsComponent() || !row.amount.Num? || row.amount.value == 0.0 {
      return;
    }
    var annual := Annual(row, row.amount.value, years);
    var bucket := BucketOf(row);
    if bucket.None? {
      return;
    }
    assert Full(impact.totals) && Full(impact.flat);
    impact.totals := impact.totals[bucket.value := impact.totals[bucket.value] + annual];
    var placements := Placements(row, years);
    if placements.Some? {
      impact.Record(placements.value, bucket.value);
    } else {
      impact.flat := impact.flat[bucket.value := impact.flat[bucket.value] + annual];
    }
  }

  /** The impact of a snapshot: every cell is the sum over rows that defines it. */
  method ObligationAnnualImpact(rows: seq<Row>, years: int) returns (impact: Impact)
    ensures fresh(impact) && Holds(impact, rows, years)
  {
    impact := new Impact();
    assert rows[..0] == [];
    ZerosFull();
    for i := 0 to |rows|
      invariant fresh(impact) && Holds(impact, rows[..i], years)
    {
      RecordRow(impact, rows[..i], rows[i], years);
      assert rows[..i + 1] == rows[..i] + [rows[i]];
    }
    assert rows[..|rows|] == rows;
  }
}
