/** Requests on which the partition walk falls short of its documentation (app/finra_client.py). */
module FinraExamples {
  import opened Wrappers
  import opened FinraPayload
  import opened FinraWalk
  import opened FinraLatest
  import opened Ordering
  import Text

  /** A dataset partitioned by day. */
  const DAILY := Spec("group", "daily", {}, ["day"], None, Some("day"), false, [], map[])
  const ANY_DAY := Request(None, None, None, [])

  function Published(days: seq<string>): (partitions: seq<seq<string>>)
    ensures |partitions| == |days| && forall i | 0 <= i < |days| :: partitions[i] == [days[i]]
  {
    seq(|days|, i requires 0 <= i < |days| => [days[i]])
  }

  function OneRow(t: Values): seq<Record> {
    if "day" in t then [Record(t["day"], "row")] else []
  }

  /** A service with one row a day that fails on some days. */
  function DailyServer(failing: set<Values>): Server {
    (p: Payload) =>
      if |p.compare| == 1 && map["day" := p.compare[0].value] !in failing then Some([Record(p.compare[0].value, "row")])
      else None
  }

  function DailyPlan(failing: set<Values>, limit: nat): Plan {
    Plan(DailyServer(failing), DAILY, ANY_DAY, [], limit)
  }

  lemma DayIsClean()
    ensures Text.Strip("day") == "day"
  {
    Text.NoPadding("day");
  }

  lemma DayPayload(day: string, n: int)
    requires Text.Strip(day) != ""
    ensures WalkPayload(DAILY, ANY_DAY, map["day" := day], n, []) ==
      Ok(Payload(ClampLimit(n), [], [], None, [Compare(EQUAL, "day", day)]))
  {
    hide Text.Strip, Text.Upper;
    DayIsClean();
    EqualIsUpper();
    var fields := ["day"];
    var sent := Extra(Some("day"), Some(day), Some(EQUAL));
    assert fields[..0] == [] && TupleExtras(fields, map["day" := day], None) == [sent];
    assert FilterRow(DAILY, 0, sent) == Ok(Compare(EQUAL, "day", day));
    OneFilter(DAILY, sent, Compare(EQUAL, "day", day));
    assert ANY_DAY.filters + [sent] == [sent];
    NoSymbol();
    var row := Compare(EQUAL, "day", day);
    assert RangeField(DAILY, ANY_DAY) == None && DateParts(DAILY, ANY_DAY) == Ok((None, []));
    assert DefaultRows([], FieldsOf([row])) == [] && [] + [] + [] + [row] == [row];
  }

  lemma OneFilter(spec: Spec, extra: Extra, row: Compare)
    requires FilterRow(spec, 0, extra) == Ok(row)
    ensures FilterRows(spec, [extra]) == Ok([row])
  {
    hide FilterRow;
    assert [extra][..0] == [] && FilterRows(spec, []) == Ok([]);
    assert [] + [row] == [row];
  }

  lemma NoSymbol()
    ensures SymbolRows(DAILY, ANY_DAY) == Ok([])
  {
  }

  lemma {:induction false} AllFit(days: seq<string>)
    ensures |Fitting(["day"], Published(days), map[])| == |days|
    ensures forall t | t in Fitting(["day"], Published(days), map[]) :: exists day | day in days :: t == map["day" := day]
    ensures forall day | day in days :: map["day" := day] in Fitting(["day"], Published(days), map[])
  {
    if days != [] {
      var n := |days| - 1;
      AllFit(days[..n]);
      assert Published(days)[..n] == Published(days[..n]) && days == days[..n] + [days[n]];
      OneDay(days[n]);
    }
  }

  lemma OneDay(day: string)
    ensures Zip(["day"], [day]) == map["day" := day]
  {
    assert ["day"][..0] == [] && [day][..0] == [];
  }

  lemma NoDateIsClean()
    ensures Clean(None) == ""
  {
  }

  lemma DailyPins(r: Request)
    requires r.filters == [] && Clean(r.start) == ""
    ensures PinnedValues(DAILY, r) == map[]
  {
  }

  lemma DailyTuples(days: seq<string>, r: Request, descending: bool)
    requires r.filters == [] && Clean(r.start) == ""
    ensures var tuples := WalkTuples(DAILY, Published(days), r, descending);
      && |tuples| == |days|
      && forall t :: t in tuples <==> exists day | day in days :: t == map["day" := day]
  {
    hide Fitting, Clean, WalkTuples, PinnedValues;
    DailyPins(r);
    AllFit(days);
    WalkedAreOrdered(DAILY, Published(days), r, descending);
  }

  lemma DailyServiced(days: seq<string>, failing: set<Values>, limit: nat, descending: bool)
    requires forall day | day in days :: Text.Strip(day) != ""
    ensures Serviced(DailyPlan(failing, limit), Published(days), descending, OneRow, failing)
  {
    hide Text.Strip, WalkTuples, Fitting, PinnedValues, DateKey, WalkPayload;
    var plan := DailyPlan(failing, limit);
    DailyTuples(days, ANY_DAY, descending);
    WalkedAreOrdered(DAILY, Published(days), ANY_DAY, descending);
    forall t, n | t in WalkTuples(DAILY, Published(days), ANY_DAY, descending) && 1 <= n <= limit
      ensures Answers(plan, t, n, OneRow, failing)
    {
      var day :| day in days && t == map["day" := day];
      DailyAnswer(day, failing, limit, n);
    }
  }

  lemma DailyAnswer(day: string, failing: set<Values>, limit: nat, n: nat)
    requires Text.Strip(day) != "" && 1 <= n
    ensures Answers(DailyPlan(failing, limit), map["day" := day], n, OneRow, failing)
  {
    hide Text.Strip, WalkPayload;
    DayPayload(day, n);
  }

  lemma {:induction false} AtMostOneEach(tuples: seq<Values>, shown: Values -> seq<Record>)
    requires forall t | t in tuples :: |shown(t)| <= 1
    ensures |Flatten(tuples, shown)| <= |tuples|
  {
    if tuples != [] {
      assert tuples[0] in tuples;
      AtMostOneEach(tuples[1..], shown);
    }
  }

  lemma ShownRow(failing: set<Values>, t: Values)
    ensures |Shown(OneRow, failing)(t)| <= 1
    ensures forall day | t == map["day" := day] && t !in failing :: Shown(OneRow, failing)(t) == [Record(day, "row")]
  {
    assert Shown(OneRow, failing)(t) == if t in failing then [] else OneRow(t);
  }

  lemma FewRows(days: seq<string>, failing: set<Values>, descending: bool)
    ensures |SortedRows(DAILY, Published(days), ANY_DAY, Shown(OneRow, failing), descending)| <= |days|
    ensures forall day | day in days && map["day" := day] !in failing ::
      SortedRows(DAILY, Published(days), ANY_DAY, Shown(OneRow, failing), descending) != []
  {
    hide Fitting, StableSort, OneRow, Flatten, Shown, Clean, PinnedValues, RecordOrder;
    assert Clean(ANY_DAY.start) == "" by {
      NoDateIsClean();
    }
    DailyPins(ANY_DAY);
    AllFit(days);
    var fitting, shown := Fitting(["day"], Published(days), map[]), Shown(OneRow, failing);
    forall t | t in fitting
      ensures |shown(t)| <= 1
    {
      ShownRow(failing, t);
    }
    AtMostOneEach(fitting, shown);
    forall day | day in days && map["day" := day] !in failing
      ensures Flatten(fitting, shown) != []
    {
      ShownRow(failing, map["day" := day]);
      assert Record(day, "row") in shown(map["day" := day]);
      InFlatten(fitting, shown, Record(day, "row"));
    }
  }

  const FIRST := map["day" := "1"]
  const SECOND := map["day" := "2"]
  const TWO_DAYS := ["1", "2"]

  lemma TwoDays()
    ensures FIRST != SECOND && "1" in TWO_DAYS && "2" in TWO_DAYS
    ensures forall day | day in TWO_DAYS :: Text.Strip(day) != ""
  {
    Text.NoPadding("1");
    Text.NoPadding("2");
    assert FIRST["day"][0] != SECOND["day"][0];
  }

  lemma AnswersShort(plan: Plan, partitions: seq<seq<string>>, descending: bool, held: Values -> seq<Record>,
                     failing: set<Values>, result: Result<(seq<Record>, nat, bool), WalkError>)
    requires forall entry | entry in partitions :: |entry| == |plan.spec.partitionFields|
    requires Refines(plan, partitions, descending, held, failing, result)
    requires |WalkTuples(plan.spec, partitions, plan.request, descending)| < MAX_QUERIES
    requires 0 < |SortedRows(plan.spec, partitions, plan.request, Shown(held, failing), descending)| < plan.limit
    ensures result.Ok? && result.value.2
  {
    hide WalkTuples, SortedRows;
  }

  /** A short answer that misses a row: two days, of which the second fails. */
  lemma ShortAnswerMisses(result: Result<(seq<Record>, nat, bool), WalkError>, descending: bool)
    requires Refines(DailyPlan({SECOND}, 5), Published(TWO_DAYS), descending, OneRow, {SECOND}, result)
    ensures result.Ok? && result.value.2
    ensures result.value.0 != SortedRows(DAILY, Published(TWO_DAYS), ANY_DAY, OneRow, descending)
  {
    hide WalkTuples, SortedRows, Serviced, Flatten, Refines, Text.Strip;
    var plan := DailyPlan({SECOND}, 5);
    TwoDays();
    DailyServiced(TWO_DAYS, {SECOND}, 5, descending);
    DailyTuples(TWO_DAYS, ANY_DAY, descending);
    FewRows(TWO_DAYS, {SECOND}, descending);
    AnswersShort(plan, Published(TWO_DAYS), descending, OneRow, {SECOND}, result);
    ShortMissesFailedRows(plan, Published(TWO_DAYS), descending, OneRow, {SECOND}, result);
    assert SECOND in WalkTuples(DAILY, Published(TWO_DAYS), ANY_DAY, descending) && OneRow(SECOND) != [];
  }

  const TWELVE_DAYS := ["a", "b", "c", "d", "e", "f", "g", "h", "i", "j", "k", "l"]

  /** A request that is refused although every row was seen: twelve days, a row each, 25 asked for. */
  lemma CompleteAnswerRefused(result: Result<(seq<Record>, nat, bool), WalkError>, descending: bool)
    requires Refines(DailyPlan({}, 25), Published(TWELVE_DAYS), descending, OneRow, {}, result)
    ensures result.Err?
    ensures |WalkTuples(DAILY, Published(TWELVE_DAYS), ANY_DAY, descending)| == MAX_QUERIES
  {
    hide WalkTuples, SortedRows, Serviced, Text.Strip, Refines;
    forall day | day in TWELVE_DAYS
      ensures Text.Strip(day) != ""
    {
      OneLetter(day);
    }
    DailyServiced(TWELVE_DAYS, {}, 25, descending);
    DailyTuples(TWELVE_DAYS, ANY_DAY, descending);
    FewRows(TWELVE_DAYS, {}, descending);
    FullBudgetRefusesShort(DailyPlan({}, 25), Published(TWELVE_DAYS), descending, OneRow, {}, result);
  }

  lemma OneLetter(day: string)
    requires |day| == 1 && 'a' <= day[0] <= 'z'
    ensures Text.Strip(day) != ""
  {
    Text.NoPadding(day);
  }

  /** A request up to day 1 walks day 2 as well. */
  lemma EndDateWalksOthers(descending: bool)
    ensures Clean(Some("1")) == "1"
    ensures SECOND in WalkTuples(DAILY, Published(TWO_DAYS), Request(None, None, Some("1"), []), descending)
  {
    hide WalkTuples, Text.Strip;
    Text.NoPadding("1");
    TwoDays();
    DailyTuples(TWO_DAYS, Request(None, None, Some("1"), []), descending);
  }
}
