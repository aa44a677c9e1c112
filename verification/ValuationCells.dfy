/** What single rows put into the cells of the annual impact (app/valuation.py). */
module ValuationCells {
  import opened Wrappers
  import opened Ledger
  import opened Valuation
  import Digits
  import Persist
  import Text

  // ---------------------------------------------------------------- years as labels

  lemma DecimalLength(n: nat)
    ensures n < 10 ==> |Text.Decimal(n)| == 1
    ensures n < 100 ==> |Text.Decimal(n)| <= 2
    ensures 10 <= n < 100 ==> |Text.Decimal(n)| == 2
    ensures n < 1000 ==> |Text.Decimal(n)| <= 3
    ensures 100 <= n < 1000 ==> |Text.Decimal(n)| == 3
    ensures n < 10000 ==> |Text.Decimal(n)| <= 4
    ensures 1000 <= n < 10000 ==> |Text.Decimal(n)| == 4
  {
    if 10 <= n < 10000 {
      DecimalLength(n / 10);
    }
  }

  /** A label that starts with a year of four digits, or is a shorter number: the year its tail starts from. */
  ghost predicate NamesYear(name: string, base: nat) {
    exists rest :: name == Text.Decimal(base) + rest && (1000 <= base <= 9999 || (base < 1000 && rest == ""))
  }

  lemma BaseYearIs(name: string, base: nat)
    requires NamesYear(name, base)
    ensures BaseYear(name) == Some(base)
  {
    hide Text.DigitsValue, Text.Decimal;
    var rest :| name == Text.Decimal(base) + rest && (1000 <= base <= 9999 || (base < 1000 && rest == ""));
    DecimalLength(base);
    var head := if |name| < 4 then name else name[..4];
    assert head == Text.Decimal(base);
    Digits.DecimalValue(base);
  }

  lemma YearLabel(n: nat)
    ensures Text.Strip(Text.Decimal(n)) == Text.Decimal(n) != ""
  {
    hide Text.Decimal, Text.Strip;
    var s := Text.Decimal(n);
    assert Text.IsDigit(s[0]) && Text.IsDigit(s[|s| - 1]);
    Text.NoPadding(s);
  }

  lemma DifferentYears(m: nat, n: nat)
    ensures Text.Decimal(m) == Text.Decimal(n) ==> m == n
  {
    Digits.DecimalValue(m);
    Digits.DecimalValue(n);
  }

  // ---------------------------------------------------------------- sums under one label

  lemma {:induction false} LabelConcat(a: seq<Placement>, b: seq<Placement>, year: string)
    ensures LabelSum(a + b, year) == LabelSum(a, year) + LabelSum(b, year)
  {
    hide Text.Strip;
    if b == [] {
      assert a + b == a;
    } else {
      var n := |b| - 1;
      LabelConcat(a, b[..n], year);
      assert (a + b)[..|a| + n] == a + b[..n] && (a + b)[|a| + n] == b[n];
    }
  }

  lemma LabelOne(p: Placement, year: string)
    ensures LabelSum([p], year) == AmountIf(Text.Strip(p.year) == year, p.amount)
  {
    hide Text.Strip;
    assert [p][..0] == [] && LabelSum([], year) == 0.0;
  }

  ghost predicate IsTailYear(base: nat, n: nat, year: string) {
    exists y: nat :: base < y <= base + n && year == Text.Decimal(y)
  }

  lemma OneMoreYear(base: nat, n: nat, year: string)
    requires n > 0
    ensures IsTailYear(base, n, year) <==> IsTailYear(base, n - 1, year) || year == Text.Decimal(base + n)
    ensures !(IsTailYear(base, n - 1, year) && year == Text.Decimal(base + n))
  {
    hide Text.Decimal;
    if y: nat :| base < y <= base + n && year == Text.Decimal(y) {
      DifferentYears(y, base + n);
    }
    if y: nat :| base < y <= base + n - 1 && year == Text.Decimal(y) {
      DifferentYears(y, base + n);
    }
  }

  lemma NoTail(base: nat, year: string)
    ensures LabelSum([], year) == 0.0 && !IsTailYear(base, 0, year)
  {
  }

  /** Each of the n years after the base receives one part; no other label receives anything. */
  lemma {:induction false} TailCells(base: nat, part: real, n: nat, year: string)
    ensures LabelSum(TailPlacements(base, part, n), year) == AmountIf(IsTailYear(base, n, year), part)
  {
    hide Text.Strip, Text.Decimal, LabelSum, IsTailYear;
    if n == 0 {
      NoTail(base, year);
    } else {
      TailCells(base, part, n - 1, year);
      LabelConcat(TailPlacements(base, part, n - 1), [Placement(Text.Decimal(base + n), part)], year);
      LabelOne(Placement(Text.Decimal(base + n), part), year);
      YearLabel(base + n);
      OneMoreYear(base, n, year);
    }
  }

  lemma EntryCells(a: seq<ScheduleEntry>, e: ScheduleEntry, year: string)
    ensures LabelSum(EntryPlacements(a + [e]), year) ==
      LabelSum(EntryPlacements(a), year) + AmountIf(Text.Strip(e.year) == year, OrZero(e.amount))
  {
    hide Text.Strip;
    assert (a + [e])[..|a|] == a;
    LabelConcat(EntryPlacements(a), [Placement(e.year, OrZero(e.amount))], year);
    LabelOne(Placement(e.year, OrZero(e.amount)), year);
  }

  /** A schedule whose stripped years differ puts every entry under its own; no other label receives anything. */
  lemma {:induction false} ScheduleCells(entries: seq<ScheduleEntry>, year: string)
    requires forall i, j | 0 <= i < j < |entries| :: Text.Strip(entries[i].year) != Text.Strip(entries[j].year)
    ensures forall e | e in entries && Text.Strip(e.year) == year ::
      LabelSum(EntryPlacements(entries), year) == if e.amount.Some? then e.amount.value else 0.0
    ensures (forall e | e in entries :: Text.Strip(e.year) != year) ==> LabelSum(EntryPlacements(entries), year) == 0.0
  {
    hide Text.Strip;
    if entries != [] {
      var n := |entries| - 1;
      assert entries == entries[..n] + [entries[n]];
      ScheduleCells(entries[..n], year);
      EntryCells(entries[..n], entries[n], year);
    }
  }

  // ---------------------------------------------------------------- one row alone

  lemma OneRow(r: Row, years: int, year: string, bucket: Bucket)
    ensures FyAmount([r], years, year, bucket) == RowFy(r, years, year, bucket)
    ensures FlatAmount([r], years, bucket) == RowFlat(r, years, bucket)
    ensures AnnualAmount([r], years, bucket) == RowAnnual(r, years, bucket)
  {
    hide RowFy, RowFlat, RowAnnual;
    assert [r][..0] == [];
  }

  /** The impact of two ledgers together is the sum of both. */
  lemma {:induction false} CellsAdd(a: seq<Row>, b: seq<Row>, years: int, year: string, bucket: Bucket)
    ensures FyAmount(a + b, years, year, bucket) == FyAmount(a, years, year, bucket) + FyAmount(b, years, year, bucket)
    ensures FlatAmount(a + b, years, bucket) == FlatAmount(a, years, bucket) + FlatAmount(b, years, bucket)
    ensures AnnualAmount(a + b, years, bucket) == AnnualAmount(a, years, bucket) + AnnualAmount(b, years, bucket)
  {
    hide RowFy, RowFlat, RowAnnual;
    if b == [] {
      assert a + b == a;
    } else {
      var n := |b| - 1;
      CellsAdd(a, b[..n], years, year, bucket);
      assert (a + b)[..|a| + n] == a + b[..n] && (a + b)[|a| + n] == b[n];
    }
  }

  /** A row that counts and is treated in this bucket. */
  ghost predicate CountsIn(r: Row, bucket: Bucket) {
    r.component != Some(true) && r.amount.Num? && r.amount.value != 0.0 && BucketOf(r) == Some(bucket)
  }

  /** The row's own schedule pays: its amounts add up to more than zero. */
  ghost predicate OwnPays(r: Row) {
    r.schedule.Some? && r.schedule.value != [] && ScheduleTotal(r.schedule.value) > 0.0
  }

  /** A first payment under the stripped label, and the rest of the horizon's amount still to come. */
  ghost predicate IsFrontLoaded(r: Row, name: string, near: real, after: real) {
    && !OwnPays(r) && r.horizon.Some? && r.horizon.value.schedule == []
    && r.horizon.value.remainder == Some(near) && near != 0.0
    && r.horizon.value.remainderYear.Some? && Text.Strip(r.horizon.value.remainderYear.value) == name != ""
    && after == if r.horizon.value.afterRemainder.Some? then r.horizon.value.afterRemainder.value else 0.0
  }

  lemma FrontLoadedPlacements(r: Row, name: string, base: nat, near: real, after: real, years: int, year: string)
    requires IsFrontLoaded(r, name, near, after) && NamesYear(name, base) && years >= 2
    ensures Placements(r, years).Some?
    ensures LabelSum(Placements(r, years).value, year) ==
      AmountIf(year == name, near) + AmountIf(IsTailYear(base, years - 1, year), after / (years - 1) as real)
  {
    hide Text.Strip, BaseYear, TailPlacements, NamesYear, LabelSum, IsTailYear;
    var horizon := r.horizon.value;
    BaseYearIs(name, base);
    StripAgain(horizon.remainderYear.value);
    var tail := TailOf(horizon, years);
    TailCells(base, after / (years - 1) as real, years - 1, year);
    NoTail(base, year);
    LabelConcat([Placement(name, near)], tail, year);
    LabelOne(Placement(name, near), year);
  }

  lemma StripAgain(s: string)
    ensures Text.Strip(Text.Strip(s)) == Text.Strip(s)
  {
    var a := Text.RStrip(s);
    var b := Text.LStrip(a);
    if b != [] {
      assert b[|b| - 1] == a[|a| - 1];
      assert Text.RStrip(b) == b;
    }
  }

  /**
   The impact of one front-loaded row: the remainder under its label, equal parts of the rest over the
   years that follow, and nothing anywhere else.
   */
  lemma FrontLoadedImpact(impact: Impact, r: Row, name: string, base: nat, near: real, after: real, years: int,
                          bucket: Bucket)
    requires Holds(impact, [r], years) && CountsIn(r, bucket) && years >= 2
    requires IsFrontLoaded(r, name, near, after) && NamesYear(name, base)
    ensures forall y: nat | base < y < base + years && Text.Decimal(y) != name ::
      At(impact.byYear, Text.Decimal(y), bucket) == after / (years - 1) as real
    ensures (forall y: nat | base < y < base + years :: Text.Decimal(y) != name) ==> At(impact.byYear, name, bucket) == near
    ensures forall year | year != name && !IsTailYear(base, years - 1, year) ::
      At(impact.byYear, year, bucket) == 0.0
    ensures forall year, other | other != bucket :: At(impact.byYear, year, other) == 0.0
    ensures forall other | other in impact.flat :: impact.flat[other] == 0.0
  {
    hide Text.Strip, Text.Decimal, BaseYear, TailPlacements, NamesYear, LabelSum, Annual, BucketOf, IsFrontLoaded, Placements;
    forall year, other
      ensures At(impact.byYear, year, other) == if other != bucket then 0.0 else
        AmountIf(year == name, near) + AmountIf(IsTailYear(base, years - 1, year), after / (years - 1) as real)
    {
      FrontLoadedPlacements(r, name, base, near, after, years, year);
      OneRow(r, years, year, other);
      OneRow(r, years, year, bucket);
      assert name != "" by {
        assert IsFrontLoaded(r, name, near, after);
        NameIsNoBlank(r, name, near, after);
      }
      NoBlankTail(base, years - 1);
    }
    forall other | other in impact.flat
      ensures impact.flat[other] == 0.0
    {
      FrontLoadedPlacements(r, name, base, near, after, years, "");
      OneRow(r, years, "", other);
    }
  }

  lemma NameIsNoBlank(r: Row, name: string, near: real, after: real)
    requires IsFrontLoaded(r, name, near, after)
    ensures name != ""
  {
  }

  lemma NoBlankTail(base: nat, n: nat)
    ensures !IsTailYear(base, n, "")
  {
  }

  /** Labels of the usual form, a year and no further digit, never meet the years that follow. */
  lemma TailYearsApart(base: nat, rest: string, year: nat)
    requires year > base && (rest == "" || !Text.IsDigit(rest[0]))
    ensures Text.Decimal(year) != Text.Decimal(base) + rest
  {
    hide Text.Decimal;
    DifferentYears(base, year);
    var name := Text.Decimal(base) + rest;
    if rest == "" {
      assert name == Text.Decimal(base);
    } else {
      assert name[|Text.Decimal(base)|] == rest[0];
    }
  }

  // ---------------------------------------------------------------- the other rows

  /** A schedule that places its row: the row's own if it pays, else the horizon's. */
  ghost predicate PlacedBy(r: Row, entries: seq<ScheduleEntry>) {
    || (OwnPays(r) && r.schedule == Some(entries))
    || (!OwnPays(r) && r.horizon.Some? && entries != [] && r.horizon.value.schedule == entries)
  }

  /** The impact of one scheduled row: each entry under its own year, nothing anywhere else. */
  lemma ScheduledImpact(impact: Impact, r: Row, entries: seq<ScheduleEntry>, years: int, bucket: Bucket)
    requires Holds(impact, [r], years) && CountsIn(r, bucket) && PlacedBy(r, entries)
    requires forall i, j | 0 <= i < j < |entries| :: Text.Strip(entries[i].year) != Text.Strip(entries[j].year)
    ensures forall e | e in entries && Text.Strip(e.year) != "" ::
      At(impact.byYear, Text.Strip(e.year), bucket) == if e.amount.Some? then e.amount.value else 0.0
    ensures forall year | forall e | e in entries :: Text.Strip(e.year) != year :: At(impact.byYear, year, bucket) == 0.0
    ensures forall year, other | other != bucket :: At(impact.byYear, year, other) == 0.0
    ensures forall other | other in impact.flat :: impact.flat[other] == 0.0
  {
    hide Text.Strip, LabelSum, Annual, BucketOf;
    forall year, other
      ensures At(impact.byYear, year, other) ==
        if other != bucket || year == "" then 0.0 else LabelSum(EntryPlacements(entries), year)
    {
      OneRow(r, years, year, other);
    }
    forall year
      ensures forall e | e in entries && Text.Strip(e.year) == year ::
        LabelSum(EntryPlacements(entries), year) == if e.amount.Some? then e.amount.value else 0.0
      ensures (forall e | e in entries :: Text.Strip(e.year) != year) ==> LabelSum(EntryPlacements(entries), year) == 0.0
    {
      ScheduleCells(entries, year);
    }
    forall other | other in impact.flat
      ensures impact.flat[other] == 0.0
    {
      OneRow(r, years, "", other);
    }
  }

  /** A row with no schedule that pays and no dated remainder has no year. */
  ghost predicate IsUndated(r: Row) {
    && !OwnPays(r)
    && (r.horizon.Some? ==>
          && r.horizon.value.schedule == []
          && (r.horizon.value.remainder in [None, Some(0.0)] || r.horizon.value.remainderYear.None? ||
              Text.Strip(r.horizon.value.remainderYear.value) == ""))
  }

  /** The impact of one undated row: its annual amount, flat, in its bucket; no fiscal year receives anything. */
  lemma UndatedImpact(impact: Impact, r: Row, years: int, bucket: Bucket)
    requires Holds(impact, [r], years) && CountsIn(r, bucket) && IsUndated(r)
    ensures forall other | other in impact.flat ::
      impact.flat[other] == if other == bucket then Annual(r, r.amount.value, years) else 0.0
    ensures forall year, other :: At(impact.byYear, year, other) == 0.0
  {
    hide Text.Strip, LabelSum, Annual, BucketOf;
    assert Placements(r, years).None?;
    forall year, other
      ensures At(impact.byYear, year, other) == 0.0
    {
      OneRow(r, years, year, other);
    }
    forall other | other in impact.flat
      ensures impact.flat[other] == if other == bucket then Annual(r, r.amount.value, years) else 0.0
    {
      OneRow(r, years, "", other);
    }
  }

  /** Exactly which rows are treated how; those already on the balance sheet are not. */
  lemma TreatmentIs(r: Row)
    ensures BucketOf(r) == Some(RevenueMatched) <==> r.revenueMatched
    ensures BucketOf(r) == None <==> !r.revenueMatched && r.status == Some("on_balance_sheet")
    ensures BucketOf(r) == Some(Contractual) <==>
      !r.revenueMatched && r.status != Some("on_balance_sheet") && r.certainty == Some("contractual")
    ensures BucketOf(r) == Some(DefaultTriggered) <==>
      && !r.revenueMatched && r.status != Some("on_balance_sheet") && r.certainty != Some("contractual")
      && (r.defaultTriggered || r.kind in [Some("8k_guarantees"), Some("facility_lease_guarantees"), Some("guarantees")])
  {
  }

  lemma {:induction false} TotalAdds(a: seq<ScheduleEntry>, b: seq<ScheduleEntry>)
    ensures ScheduleTotal(a + b) == ScheduleTotal(a) + ScheduleTotal(b)
    ensures forall e: ScheduleEntry :: ScheduleTotal([e]) == if e.amount.Some? then e.amount.value else 0.0
  {
    assert forall e: ScheduleEntry :: [e][..0] == [];
    if b == [] {
      assert a + b == a;
    } else {
      var n := |b| - 1;
      TotalAdds(a, b[..n]);
      assert (a + b)[..|a| + n] == a + b[..n] && (a + b)[|a| + n] == b[n];
    }
  }

  /** What a row costs a year: its annual amount, times the years it is spread over, is what it discloses. */
  lemma AnnualIs(r: Row, amount: real, years: int)
    ensures var annual := Annual(r, amount, years);
      var horizon := if r.horizon.Some? then r.horizon.value else Horizon([], None, None, None);
      var near := if horizon.remainder.Some? then horizon.remainder.value else 0.0;
      var after := if horizon.afterRemainder.Some? then horizon.afterRemainder.value else 0.0;
      var isLease := r.status == Some("off_balance_sheet") && r.kind.Some? && Text.Contains(r.kind.value, "lease");
      if OwnPays(r) then annual * |r.schedule.value| as real == ScheduleTotal(r.schedule.value)
      else if horizon.schedule != [] then annual * |horizon.schedule| as real == ScheduleTotal(horizon.schedule)
      else if near != 0.0 then
        (annual - near * 4.0 / 3.0) * (if years >= 2 then years - 1 else 1) as real == after
      else if isLease then annual * 10.0 == amount
      else if years <= 0 then annual == 0.0
      else annual * years as real == amount
  {
    hide ScheduleTotal, Average, HorizonAnnual, Text.Contains;
    if OwnPays(r) {
      AverageTimes(r.schedule.value);
    } else {
      HorizonAnnualIs(r, amount, years);
    }
  }

  lemma AverageTimes(entries: seq<ScheduleEntry>)
    requires entries != []
    ensures Average(entries) * |entries| as real == ScheduleTotal(entries)
  {
    hide ScheduleTotal;
    TimesBack(ScheduleTotal(entries), |entries|);
  }

  lemma HorizonAnnualIs(r: Row, amount: real, years: int)
    ensures var annual, horizon := HorizonAnnual(r, amount, years), Persist.HorizonOf(r);
      var near, after := OrZero(horizon.remainder), OrZero(horizon.afterRemainder);
      var isLease := r.status == Some("off_balance_sheet") && r.kind.Some? && Text.Contains(r.kind.value, "lease");
      if horizon.schedule != [] then annual * |horizon.schedule| as real == ScheduleTotal(horizon.schedule)
      else if near != 0.0 then
        (annual - near * 4.0 / 3.0) * (if years >= 2 then years - 1 else 1) as real == after
      else if isLease then annual * 10.0 == amount
      else if years <= 0 then annual == 0.0
      else annual * years as real == amount
  {
    hide ScheduleTotal, Average, Text.Contains, Persist.StoredKind;
    var horizon := Persist.HorizonOf(r);
    var rest := if years >= 2 then years - 1 else 1;
    BlankIsNoLease(r);
    if horizon.schedule != [] {
      AverageTimes(horizon.schedule);
    } else if OrZero(horizon.remainder) != 0.0 {
      assert HorizonAnnual(r, amount, years) - OrZero(horizon.remainder) * 4.0 / 3.0 ==
        OrZero(horizon.afterRemainder) / rest as real;
      TimesBack(OrZero(horizon.afterRemainder), rest);
    } else {
      TimesBack(amount, 10);
      if years > 0 {
        TimesBack(amount, years);
      }
    }
  }

  lemma TimesBack(x: real, n: int)
    requires n >= 1
    ensures x / n as real * n as real == x
  {
  }

  lemma BlankIsNoLease(r: Row)
    ensures Text.Contains(Persist.StoredKind(r.kind), "lease") <==> r.kind.Some? && Text.Contains(r.kind.value, "lease")
  {
    Text.NotContained("other", "lease");
    Text.NotContained("", "lease");
  }
}
