/** What the date order of the partition walk means on the calendar (app/finra_client.py). */
module FinraDates {
  import opened Wrappers
  import opened FinraPayload
  import opened FinraWalk
  import opened FinraLatest
  import opened Text
  import Digits

  /** YYYY-MM-DD, in digits. */
  predicate IsIsoDay(s: string) {
    && |s| == 10 && s[4] == '-' && s[7] == '-'
    && Digits.AllDigits(s[..4]) && Digits.AllDigits(s[5..7]) && Digits.AllDigits(s[8..])
  }

  /** Year, month and day as one number. */
  function DayNumber(s: string): nat
    requires IsIsoDay(s)
  {
    DigitsValue(s[..4]) * 10000 + DigitsValue(s[5..7]) * 100 + DigitsValue(s[8..])
  }

  /** Text order of ISO days is calendar order. */
  lemma IsoOrder(a: string, b: string)
    requires IsIsoDay(a) && IsIsoDay(b)
    ensures Leq(a, b) <==> DayNumber(a) <= DayNumber(b)
  {
    hide DigitsValue, Leq;
    Digits.LeqIsNumeric(a[..4], b[..4]);
    Digits.LeqIsNumeric(a[5..7], b[5..7]);
    Digits.LeqIsNumeric(a[8..], b[8..]);
    Digits.TwoDigits(a[5..7]);
    Digits.TwoDigits(b[5..7]);
    Digits.TwoDigits(a[8..]);
    Digits.TwoDigits(b[8..]);
    IsoParts(a, b);
  }

  /** ISO days compare by year, then month, then day. */
  lemma IsoParts(a: string, b: string)
    requires IsIsoDay(a) && IsIsoDay(b)
    ensures Leq(a, b) <==>
      if a[..4] != b[..4] then Leq(a[..4], b[..4])
      else if a[5..7] != b[5..7] then Leq(a[5..7], b[5..7])
      else Leq(a[8..], b[8..])
  {
    hide Leq;
    assert a == a[..4] + ("-" + (a[5..7] + ("-" + a[8..]))) && b == b[..4] + ("-" + (b[5..7] + ("-" + b[8..])));
    Digits.LeqConcat(a[..4], b[..4], "-" + (a[5..7] + ("-" + a[8..])), "-" + (b[5..7] + ("-" + b[8..])));
    Digits.LeqConcat("-", "-", a[5..7] + ("-" + a[8..]), b[5..7] + ("-" + b[8..]));
    Digits.LeqConcat(a[5..7], b[5..7], "-" + a[8..], "-" + b[8..]);
    Digits.LeqConcat("-", "-", a[8..], b[8..]);
  }

  lemma DigitsAgree(s: string)
    ensures Numeric(s) <==> Digits.AllDigits(s)
  {
    if Digits.AllDigits(s) {
      forall c | c in s
        ensures '0' <= c <= '9'
      {
        var i :| 0 <= i < |s| && s[i] == c;
        assert IsDigit(s[i]);
      }
    }
    if Numeric(s) {
      assert forall i | 0 <= i < |s| :: s[i] in s;
    }
  }

  /** An ISO day, alone or followed by a time. */
  predicate StartsWithIsoDay(s: string) {
    |s| >= 10 && IsIsoDay(s[..10]) && (|s| == 10 || (s[10] in "T " && '\n' !in s[11..]))
  }

  predicate IsCompactDay(s: string) {
    |s| == 8 && Digits.AllDigits(s)
  }

  function CompactNumber(s: string): nat
    requires IsCompactDay(s)
  {
    DigitsValue(s[..4]) * 10000 + DigitsValue(s[4..6]) * 100 + DigitsValue(s[6..])
  }

  /** Which values are dates, and which day each of them is. */
  lemma DatesRead(value: string)
    ensures var s, norm := Strip(value), NormDate(value);
      && (norm.Some? <==> StartsWithIsoDay(s) || IsCompactDay(s))
      && (norm.Some? ==> IsIsoDay(norm.value))
      && (StartsWithIsoDay(s) ==> norm == Some(s[..10]))
      && (IsCompactDay(s) ==> IsIsoDay(norm.value) && DayNumber(norm.value) == CompactNumber(s))
  {
    hide Strip, DigitsValue, Numeric;
    var s := Strip(value);
    if |s| >= 10 {
      DigitsAgree(s[..4]);
      DigitsAgree(s[5..7]);
      DigitsAgree(s[8..10]);
      assert s[..10][..4] == s[..4] && s[..10][5..7] == s[5..7] && s[..10][8..] == s[8..10];
    }
    DigitsAgree(s);
    if IsCompactDay(s) {
      var iso := s[..4] + "-" + s[4..6] + "-" + s[6..];
      assert iso[..4] == s[..4] && iso[5..7] == s[4..6] && iso[8..] == s[6..];
    }
  }

  /** Records in the order of a sort: by day for dates, and values that are no dates at the late end. */
  ghost predicate InDayOrder(x: Record, y: Record, descending: bool) {
    var a, b := NormDate(x.date), NormDate(y.date);
    && (a.Some? && b.Some? && IsIsoDay(a.value) && IsIsoDay(b.value) ==>
          if descending then DayNumber(b.value) <= DayNumber(a.value) else DayNumber(a.value) <= DayNumber(b.value))
    && (if descending then b.None? ==> a.None? else a.None? ==> b.None?)
    && (a.None? && b.None? ==> if descending then Leq(y.date, x.date) else Leq(x.date, y.date))
  }

  lemma OrderMeansDays(x: Record, y: Record, descending: bool)
    requires InOrder(DateKey(x.date), DateKey(y.date), descending)
    ensures InDayOrder(x, y, descending)
  {
    hide NormDate, DayNumber, IsIsoDay, Leq;
    var a, b := NormDate(x.date), NormDate(y.date);
    if a.Some? && b.Some? && IsIsoDay(a.value) && IsIsoDay(b.value) {
      IsoOrder(a.value, b.value);
      IsoOrder(b.value, a.value);
    }
  }

  /**
   "Latest N", on the calendar: every returned date is a day number no less than any that a descending
   answer leaves behind, and no more than any that an ascending one does.
   */
  lemma LatestAreLatest(plan: Plan, partitions: seq<seq<string>>, descending: bool, held: Values -> seq<Record>,
                        failing: set<Values>, result: Result<(seq<Record>, nat, bool), WalkError>, x: Record, y: Record)
    requires forall entry | entry in partitions :: |entry| == |plan.spec.partitionFields|
    requires Refines(plan, partitions, descending, held, failing, result) && result.Ok?
    requires var all := SortedRows(plan.spec, partitions, plan.request, Shown(held, failing), descending);
      x in result.value.0 && |result.value.0| <= |all| && y in all[|result.value.0|..]
    ensures InDayOrder(x, y, descending)
    ensures NormDate(x.date).Some? && NormDate(y.date).Some? ==>
      var a, b := NormDate(x.date).value, NormDate(y.date).value;
      && IsIsoDay(a) && IsIsoDay(b)
      && if descending then DayNumber(b) <= DayNumber(a) else DayNumber(a) <= DayNumber(b)
  {
    hide SortedRows, InOrder, DateKey, NormDate, IsIsoDay, DayNumber, Refines;
    NothingNewerLeft(plan, partitions, descending, held, failing, result);
    OrderMeansDays(x, y, descending);
    DatesRead(x.date);
    DatesRead(y.date);
  }

  /** A true range, given as ISO days, walks exactly the fitting tuples whose day lies in it. */
  lemma RangeWalksItsDays(spec: Spec, partitions: seq<seq<string>>, r: Request, descending: bool, t: Values)
    requires forall entry | entry in partitions :: |entry| == |spec.partitionFields|
    requires IsRange(r) && IsIsoDay(Clean(r.start)) && IsIsoDay(Clean(r.end))
    requires Given(spec.dateField) && spec.dateField.value in spec.partitionFields
    requires t in Fitting(spec.partitionFields, partitions, PinnedFilters(spec, r.filters))
    ensures t in WalkTuples(spec, partitions, r, descending) <==>
      && spec.dateField.value in t && NormDate(t[spec.dateField.value]).Some?
      && IsIsoDay(NormDate(t[spec.dateField.value]).value)
      && DayNumber(Clean(r.start)) <= DayNumber(NormDate(t[spec.dateField.value]).value) <= DayNumber(Clean(r.end))
  {
    hide Fitting, IsIsoDay, DayNumber, NormDate, Clean, PinnedFilters, NarrowTo, InRange, OrderedTuples;
    var field := spec.dateField.value;
    assert PinnedValues(spec, r) == PinnedFilters(spec, r.filters);
    var ordered := OrderedTuples(spec, partitions, PinnedValues(spec, r), descending);
    OrderedAre(spec, partitions, PinnedValues(spec, r), descending);
    NarrowedAre(ordered, field, Clean(r.start), Clean(r.end), t);
    if field in t {
      DatesRead(t[field]);
      InRangeMeansDays(t[field], Clean(r.start), Clean(r.end));
      NoDateIsBlank(t[field]);
    }
  }

  lemma NoDateIsBlank(value: string)
    ensures value == "" ==> NormDate(value).None?
  {
  }

  lemma InRangeMeansDays(value: string, start: string, end: string)
    requires IsIsoDay(start) && IsIsoDay(end)
    ensures InRange(value, start, end) <==>
      && NormDate(value).Some? && IsIsoDay(NormDate(value).value)
      && DayNumber(start) <= DayNumber(NormDate(value).value) <= DayNumber(end)
  {
    hide IsIsoDay, DayNumber, NormDate, Leq;
    DatesRead(value);
    if NormDate(value).Some? {
      IsoOrder(start, NormDate(value).value);
      IsoOrder(NormDate(value).value, end);
    }
  }

  lemma OrderedAre(spec: Spec, partitions: seq<seq<string>>, pinned: map<string, string>, descending: bool)
    requires forall entry | entry in partitions :: |entry| == |spec.partitionFields|
    requires DatePartition(spec).Some?
    ensures forall t :: t in OrderedTuples(spec, partitions, pinned, descending) <==>
      t in Fitting(spec.partitionFields, partitions, pinned)
  {
    hide Fitting, TupleOrder, DatePartition;
    var tuples := OrderedTuples(spec, partitions, pinned, descending);
    var fitting := Fitting(spec.partitionFields, partitions, pinned);
    forall t
      ensures t in tuples <==> t in fitting
    {
      assert t in multiset(tuples) <==> t in multiset(fitting);
    }
  }

  lemma {:induction false} NarrowedAre(tuples: seq<Values>, field: string, start: string, end: string, t: Values)
    ensures t in NarrowTo(tuples, field, start, end) <==>
      t in tuples && field in t && t[field] != "" && InRange(t[field], start, end)
  {
    hide InRange;
    if tuples != [] {
      var front, last := tuples[..|tuples| - 1], tuples[|tuples| - 1];
      NarrowedAre(front, field, start, end, t);
      assert tuples == front + [last];
    }
  }

  /** And the returned rows are in that order themselves. */
  lemma AnswerInDayOrder(plan: Plan, partitions: seq<seq<string>>, descending: bool, held: Values -> seq<Record>,
                         failing: set<Values>, result: Result<(seq<Record>, nat, bool), WalkError>, i: nat, j: nat)
    requires forall entry | entry in partitions :: |entry| == |plan.spec.partitionFields|
    requires Refines(plan, partitions, descending, held, failing, result) && result.Ok?
    requires i < j < |result.value.0|
    ensures InDayOrder(result.value.0[i], result.value.0[j], descending)
  {
    hide SortedRows, InOrder, DateKey, InDayOrder, Reachable, WalkTuples;
    SortedInOrder(plan.spec, partitions, plan.request, Shown(held, failing), descending, i, j);
    OrderMeansDays(result.value.0[i], result.value.0[j], descending);
  }
}
