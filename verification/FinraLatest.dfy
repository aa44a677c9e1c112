/** The partition walk refines: fetch everything, sort by date, take N (app/finra_client.py). */
module FinraLatest {
  import opened Wrappers
  import opened FinraPayload
  import opened FinraWalk
  import opened Ordering
  import Text

  // ---------------------------------------------------------------- no tuple twice

  lemma ZipDistinct(fields: seq<string>, a: seq<string>, b: seq<string>)
    requires Distinct(fields) && |a| == |b| == |fields| && Zip(fields, a) == Zip(fields, b)
    ensures a == b
  {
    forall i | 0 <= i < |fields|
      ensures a[i] == b[i]
    {
      ZipAt(fields, a, i);
      ZipAt(fields, b, i);
    }
  }

  lemma {:induction false} FittingFrom(fields: seq<string>, partitions: seq<seq<string>>, pinned: map<string, string>)
    requires forall entry | entry in partitions :: |entry| == |fields|
    ensures forall t :: t in Fitting(fields, partitions, pinned) <==>
      Matches(t, pinned) && exists entry | entry in partitions :: Zip(fields, entry) == t
  {
    hide Matches, Zip;
    if partitions != [] {
      var n := |partitions| - 1;
      FittingFrom(fields, partitions[..n], pinned);
      assert partitions == partitions[..n] + [partitions[n]];
      forall t
        ensures t in Fitting(fields, partitions, pinned) <==>
          Matches(t, pinned) && exists entry | entry in partitions :: Zip(fields, entry) == t
      {
        var front, values := Fitting(fields, partitions[..n], pinned), Zip(fields, partitions[n]);
        assert t in Fitting(fields, partitions, pinned) <==> t in front || (t == values && Matches(values, pinned));
        if t in front {
          var entry :| entry in partitions[..n] && Zip(fields, entry) == t;
          assert entry in partitions;
        } else if t == values {
          assert partitions[n] in partitions;
        } else if exists entry :: entry in partitions && Zip(fields, entry) == t {
          var entry :| entry in partitions && Zip(fields, entry) == t;
          assert entry in partitions[..n];
        }
      }
    }
  }

  lemma {:induction false} FittingDistinct(fields: seq<string>, partitions: seq<seq<string>>, pinned: map<string, string>)
    requires forall entry | entry in partitions :: |entry| == |fields|
    requires Distinct(fields) && Distinct(partitions)
    ensures Distinct(Fitting(fields, partitions, pinned))
  {
    hide Matches, Zip;
    if partitions != [] {
      var n := |partitions| - 1;
      FittingDistinct(fields, partitions[..n], pinned);
      FittingFrom(fields, partitions[..n], pinned);
      forall entry | entry in partitions[..n]
        ensures Zip(fields, entry) != Zip(fields, partitions[n])
      {
        if Zip(fields, entry) == Zip(fields, partitions[n]) {
          ZipDistinct(fields, entry, partitions[n]);
        }
      }
    }
  }

  lemma {:induction false} NarrowDistinct(tuples: seq<Values>, field: string, start: string, end: string)
    requires Distinct(tuples)
    ensures Distinct(NarrowTo(tuples, field, start, end))
    ensures forall t | t in NarrowTo(tuples, field, start, end) :: t in tuples
  {
    hide InRange;
    if tuples != [] {
      var front := tuples[..|tuples| - 1];
      assert tuples[|tuples| - 1] !in front;
      NarrowDistinct(front, field, start, end);
    }
  }

  lemma OrderedKeeps(spec: Spec, partitions: seq<seq<string>>, pinned: map<string, string>, descending: bool)
    requires forall entry | entry in partitions :: |entry| == |spec.partitionFields|
    ensures forall t | t in OrderedTuples(spec, partitions, pinned, descending) ::
      t in Fitting(spec.partitionFields, partitions, pinned)
  {
    hide Fitting, TupleOrder;
    var tuples := OrderedTuples(spec, partitions, pinned, descending);
    forall t | t in tuples
      ensures t in Fitting(spec.partitionFields, partitions, pinned)
    {
      assert t in multiset(tuples);
    }
  }

  /** The walk visits published tuples that fit the pins, each at most once. */
  lemma NoTupleTwice(spec: Spec, partitions: seq<seq<string>>, r: Request, descending: bool)
    requires forall entry | entry in partitions :: |entry| == |spec.partitionFields|
    requires Distinct(spec.partitionFields) && Distinct(partitions)
    ensures Distinct(WalkTuples(spec, partitions, r, descending))
    ensures forall t | t in WalkTuples(spec, partitions, r, descending) ::
      Matches(t, PinnedValues(spec, r)) && exists entry | entry in partitions :: Zip(spec.partitionFields, entry) == t
  {
    hide Fitting, TupleOrder, NarrowTo, Matches, PinnedValues, Zip, DatePartition;
    var pinned := PinnedValues(spec, r);
    var fitting := Fitting(spec.partitionFields, partitions, pinned);
    var ordered := OrderedTuples(spec, partitions, pinned, descending);
    FittingDistinct(spec.partitionFields, partitions, pinned);
    FittingFrom(spec.partitionFields, partitions, pinned);
    OrderedKeeps(spec, partitions, pinned, descending);
    if ordered != [] {
      DistinctPermuted(fitting, ordered);
    }
    if Given(RangeField(spec, r)) {
      NarrowDistinct(ordered, RangeField(spec, r).value, Clean(r.start), Clean(r.end));
    }
  }

  lemma WalkedAreComplete(spec: Spec, partitions: seq<seq<string>>, r: Request, descending: bool)
    requires forall entry | entry in partitions :: |entry| == |spec.partitionFields|
    requires Distinct(spec.partitionFields) && Distinct(partitions)
    ensures forall t | t in WalkTuples(spec, partitions, r, descending) :: t.Keys == set f | f in spec.partitionFields
  {
    hide WalkTuples, Zip, Matches;
    NoTupleTwice(spec, partitions, r, descending);
    forall t | t in WalkTuples(spec, partitions, r, descending)
      ensures t.Keys == set f | f in spec.partitionFields
    {
      var entry :| entry in partitions && Zip(spec.partitionFields, entry) == t;
      ZipKeys(spec.partitionFields, entry);
    }
  }

  /** A walk that is not over a true range makes no two queries with the same conditions. */
  lemma NoQueryTwice(plan: Plan, partitions: seq<seq<string>>, descending: bool, walk: Result<Walked, Error>,
                     asked: seq<Payload>, i: nat, j: nat)
    requires forall entry | entry in partitions :: |entry| == |plan.spec.partitionFields|
    requires Distinct(plan.spec.partitionFields) && Distinct(partitions) && !IsRange(plan.request)
    requires IsWalk(plan, WalkTuples(plan.spec, partitions, plan.request, descending), walk, asked)
    requires i < j < |asked|
    ensures asked[i].compare != asked[j].compare
  {
    hide WalkTuples, IsWalk, IsRange, Distinct, Plan.Asked;
    var tuples := WalkTuples(plan.spec, partitions, plan.request, descending);
    NoTupleTwice(plan.spec, partitions, plan.request, descending);
    WalkedAreComplete(plan.spec, partitions, plan.request, descending);
    assert plan.Asked(tuples, asked) by {
      WalkAsks(plan, tuples, walk, asked);
    }
    DistinctQueries(plan, tuples, asked, i, j);
  }

  lemma WalkAsks(plan: Plan, tuples: seq<Values>, walk: Result<Walked, Error>, asked: seq<Payload>)
    requires IsWalk(plan, tuples, walk, asked)
    ensures plan.Asked(tuples, asked)
  {
    hide Plan.Asked, Plan.Collect, Plan.Query, Plan.AnyFailed;
  }

  lemma QueryAt(plan: Plan, tuples: seq<Values>, asked: seq<Payload>, i: nat) returns (missing: int)
    requires plan.Asked(tuples, asked) && i < |asked|
    ensures i < |tuples| && plan.PayloadFor(tuples[i], missing) == Ok(asked[i])
  {
    hide Plan.Collect, Plan.PayloadFor;
    missing := plan.limit - |plan.Collect(tuples[..i])|;
    assert plan.Query(tuples, i) == Ok(asked[i]);
  }

  lemma DistinctQueries(plan: Plan, tuples: seq<Values>, asked: seq<Payload>, i: nat, j: nat)
    requires plan.Asked(tuples, asked) && Distinct(tuples) && !IsRange(plan.request) && i < j < |asked|
    requires forall t | t in tuples :: t.Keys == set f | f in plan.spec.partitionFields
    ensures asked[i].compare != asked[j].compare
  {
    hide Plan.Asked, Plan.PayloadFor, IsRange;
    var m := QueryAt(plan, tuples, asked, i);
    var n := QueryAt(plan, tuples, asked, j);
    assert tuples[i] in tuples && tuples[j] in tuples && tuples[i] != tuples[j];
    DifferentQuestions(plan, tuples[i], tuples[j], m, n);
  }

  lemma DifferentQuestions(plan: Plan, a: Values, b: Values, m: int, n: int)
    requires !IsRange(plan.request) && a != b
    requires a.Keys == b.Keys == set f | f in plan.spec.partitionFields
    requires plan.PayloadFor(a, m).Ok? && plan.PayloadFor(b, n).Ok?
    ensures plan.PayloadFor(a, m).value.compare != plan.PayloadFor(b, n).value.compare
  {
    hide WalkPayload, IsRange, SamePins;
    if plan.PayloadFor(a, m).value.compare == plan.PayloadFor(b, n).value.compare {
      SameCompareSamePins(plan.spec, plan.request, a, b, m, n, plan.selected);
      PinsDetermine(plan.spec, plan.request, a, b);
    }
  }

  lemma PinsDetermine(spec: Spec, r: Request, a: Values, b: Values)
    requires !IsRange(r) && SamePins(spec, r, a, b)
    requires a.Keys == b.Keys == set f | f in spec.partitionFields
    ensures a == b
  {
    hide IsRange;
    assert forall f | f in a :: a[f] == b[f];
  }

  /** A single start date is pinned: every walked tuple has it. */
  lemma StartDateIsPinned(spec: Spec, partitions: seq<seq<string>>, r: Request, descending: bool, t: Values)
    requires forall entry | entry in partitions :: |entry| == |spec.partitionFields|
    requires t in WalkTuples(spec, partitions, r, descending)
    requires !IsRange(r) && Clean(r.start) != ""
    requires spec.dateField.Some? && spec.dateField.value in spec.partitionFields
    ensures spec.dateField.value in t && t[spec.dateField.value] == Clean(r.start)
  {
    hide Fitting, NarrowTo, DatePartition, Text.Strip;
    var pinned := PinnedValues(spec, r);
    OrderedKeeps(spec, partitions, pinned, descending);
    assert Matches(t, pinned);
    assert pinned[spec.dateField.value] == Clean(r.start);
  }

  predicate HasDate(t: Values, field: string, date: string) {
    field in t && t[field] == date
  }

  /** All published tuples that fit the caller's filters carry this date. */
  ghost predicate OnlyDate(spec: Spec, partitions: seq<seq<string>>, r: Request, field: string, date: string)
    requires forall entry | entry in partitions :: |entry| == |spec.partitionFields|
  {
    forall entry | entry in partitions && Matches(Zip(spec.partitionFields, entry), PinnedFilters(spec, r.filters)) ::
      HasDate(Zip(spec.partitionFields, entry), field, date)
  }

  lemma WalkedAreOrdered(spec: Spec, partitions: seq<seq<string>>, r: Request, descending: bool)
    requires forall entry | entry in partitions :: |entry| == |spec.partitionFields|
    requires !IsRange(r) && DatePartition(spec).Some?
    ensures forall t :: t in WalkTuples(spec, partitions, r, descending) <==>
      t in Fitting(spec.partitionFields, partitions, PinnedValues(spec, r))
    ensures |WalkTuples(spec, partitions, r, descending)| ==
      |Fitting(spec.partitionFields, partitions, PinnedValues(spec, r))|
  {
    hide Fitting, TupleOrder, PinnedValues, DatePartition, IsRange;
    var tuples := WalkTuples(spec, partitions, r, descending);
    var fitting := Fitting(spec.partitionFields, partitions, PinnedValues(spec, r));
    assert multiset(tuples) == multiset(fitting);
    assert |tuples| == |multiset(tuples)|;
    forall t
      ensures t in tuples <==> t in fitting
    {
      assert t in multiset(tuples) <==> t in multiset(fitting);
    }
  }

  /**
   An end date alone is not pinned: the walk keeps to it exactly when no other date is published under
   the caller's filters.
   */
  lemma EndDateAloneIsNotPinned(spec: Spec, partitions: seq<seq<string>>, r: Request, descending: bool)
    requires forall entry | entry in partitions :: |entry| == |spec.partitionFields|
    requires Clean(r.start) == "" && Clean(r.end) != ""
    requires Given(spec.dateField) && spec.dateField.value in spec.partitionFields
    ensures var field, date := spec.dateField.value, Clean(r.end);
      (forall t | t in WalkTuples(spec, partitions, r, descending) :: HasDate(t, field, date)) <==>
      OnlyDate(spec, partitions, r, field, date)
  {
    hide Fitting, Matches, Zip, WalkTuples, PinnedFilters, Clean;
    assert PinnedValues(spec, r) == PinnedFilters(spec, r.filters);
    WalkedAreOrdered(spec, partitions, r, descending);
    FittingFrom(spec.partitionFields, partitions, PinnedValues(spec, r));
  }

  // ---------------------------------------------------------------- refinement

  /** What a service that holds these rows per tuple, and fails on some tuples, shows of each. */
  function Shown(held: Values -> seq<Record>, failing: set<Values>): Values -> seq<Record> {
    (t: Values) => if t in failing then [] else held(t)
  }

  /** Every query for a tuple is answered by the first rows held, or fails. */
  ghost predicate Serves(plan: Plan, tuples: seq<Values>, held: Values -> seq<Record>, failing: set<Values>) {
    forall t, n | t in tuples && 1 <= n <= plan.limit :: Answers(plan, t, n, held, failing)
  }

  predicate Answers(plan: Plan, t: Values, n: int, held: Values -> seq<Record>, failing: set<Values>) {
    var payload := plan.PayloadFor(t, n);
    payload.Ok? && plan.server(payload.value) == if t in failing then None else Some(Take(held(t), n))
  }

  lemma TakeMore<T>(a: seq<T>, b: seq<T>, limit: nat)
    ensures var rows := Take(a, limit);
      rows + Take(Take(b, limit - |rows|), limit - |rows|) == Take(a + b, limit)
  {
  }

  lemma {:induction false} CollectIsTake(plan: Plan, tuples: seq<Values>, held: Values -> seq<Record>, failing: set<Values>)
    requires Serves(plan, tuples, held, failing)
    ensures plan.Collect(tuples) == Take(Flatten(tuples, Shown(held, failing)), plan.limit)
  {
    hide Plan.PayloadFor, Take;
    var shown := Shown(held, failing);
    if tuples == [] {
      TakeNothing<Record>(plan.limit);
    } else {
      var front, t := tuples[..|tuples| - 1], tuples[|tuples| - 1];
      assert tuples == front + [t] && t in tuples;
      CollectIsTake(plan, front, held, failing);
      FlattenConcat(front, [t], shown);
      assert Flatten([t], shown) == shown(t);
      TakeMore(Flatten(front, shown), shown(t), plan.limit);
      var remaining := plan.limit - |plan.Collect(front)|;
      ReplyIsTake(plan, t, remaining, held, failing);
    }
  }

  lemma TakeNothing<T>(n: int)
    ensures Take<T>([], n) == []
  {
  }

  lemma ReplyIsTake(plan: Plan, t: Values, n: int, held: Values -> seq<Record>, failing: set<Values>)
    requires 0 <= n <= plan.limit && (1 <= n ==> Answers(plan, t, n, held, failing))
    ensures Take(plan.Reply(t, n), n) == Take(Take(Shown(held, failing)(t), n), n)
  {
    hide Plan.PayloadFor;
  }

  function Always(rows: seq<Record>): Values -> seq<Record> {
    (t: Values) => rows
  }

  /**
   What repeated questions cost: in a true range, a walk over partitions that differ in their date
   only returns the same rows once per partition.
   */
  lemma RangeReturnsAgain(plan: Plan, tuples: seq<Values>, rows: seq<Record>)
    requires tuples != [] && forall t | t in tuples :: SamePins(plan.spec, plan.request, tuples[0], t)
    requires forall n | 1 <= n <= plan.limit :: Answers(plan, tuples[0], n, Always(rows), {})
    ensures plan.Collect(tuples) == Take(Flatten(tuples, Always(rows)), plan.limit)
    ensures |Flatten(tuples, Always(rows))| == |tuples| * |rows|
  {
    hide WalkPayload, SamePins;
    forall t, n | t in tuples && 1 <= n <= plan.limit
      ensures Answers(plan, t, n, Always(rows), {})
    {
      RangeWalkRepeats(plan.spec, plan.request, tuples[0], t, n, plan.selected);
      assert Answers(plan, tuples[0], n, Always(rows), {});
    }
    CollectIsTake(plan, tuples, Always(rows), {});
    assert Flatten(tuples, Shown(Always(rows), {})) == Flatten(tuples, Always(rows)) by {
      FailedRowsMissing(tuples, Always(rows), {});
    }
    RowsPerTuple(tuples, rows);
  }

  lemma {:induction false} RowsPerTuple(tuples: seq<Values>, rows: seq<Record>)
    ensures |Flatten(tuples, Always(rows))| == |tuples| * |rows|
  {
    if tuples != [] {
      RowsPerTuple(tuples[1..], rows);
    }
  }

  function RecordOrder(descending: bool): (Record, Record) -> bool {
    (a: Record, b: Record) => InOrder(DateKey(a.date), DateKey(b.date), descending)
  }

  /** Rows carry the date of their partition. */
  ghost predicate Dated(tuples: seq<Values>, field: string, held: Values -> seq<Record>) {
    forall t, x | t in tuples && x in held(t) :: DateKey(x.date) == TupleKey(t, field)
  }

  /** All rows shown by matching published partitions, in published order. */
  function AllRows(spec: Spec, partitions: seq<seq<string>>, r: Request, shown: Values -> seq<Record>): seq<Record>
    requires forall entry | entry in partitions :: |entry| == |spec.partitionFields|
  {
    Flatten(Fitting(spec.partitionFields, partitions, PinnedValues(spec, r)), shown)
  }

  /** The reference: everything there is, sorted by date. */
  function SortedRows(spec: Spec, partitions: seq<seq<string>>, r: Request, shown: Values -> seq<Record>, descending: bool)
    : (rows: seq<Record>)
    requires forall entry | entry in partitions :: |entry| == |spec.partitionFields|
    ensures |rows| == |AllRows(spec, partitions, r, shown)|
  {
    StableSort(AllRows(spec, partitions, r, shown), RecordOrder(descending))
  }

  lemma BlocksAgree(tuples: seq<Values>, field: string, shown: Values -> seq<Record>, descending: bool)
    requires Dated(tuples, field, shown)
    ensures Agrees(tuples, shown, TupleOrder(field, descending), RecordOrder(descending))
  {
    hide InOrder, DateKey, TupleKey;
  }

  lemma OrderedBlocks(spec: Spec, partitions: seq<seq<string>>, r: Request, shown: Values -> seq<Record>, descending: bool)
    requires forall entry | entry in partitions :: |entry| == |spec.partitionFields|
    requires !IsRange(r) && DatePartition(spec).Some?
    requires Dated(Fitting(spec.partitionFields, partitions, PinnedValues(spec, r)), DatePartition(spec).value, shown)
    ensures Flatten(WalkTuples(spec, partitions, r, descending), shown) ==
      SortedRows(spec, partitions, r, shown, descending)
  {
    hide Fitting, Agrees, Dated, TupleOrder, RecordOrder, PinnedValues, DatePartition, IsRange, TotalPreorder;
    var field := DatePartition(spec).value;
    var fitting := Fitting(spec.partitionFields, partitions, PinnedValues(spec, r));
    TupleOrderIsTotal(field, descending);
    BlocksAgree(fitting, field, shown, descending);
    SortOfBlocks(fitting, shown, TupleOrder(field, descending), RecordOrder(descending));
  }

  /** The sorted rows are in date order. */
  lemma SortedInOrder(spec: Spec, partitions: seq<seq<string>>, r: Request, shown: Values -> seq<Record>,
                      descending: bool, i: nat, j: nat)
    requires forall entry | entry in partitions :: |entry| == |spec.partitionFields|
    requires i < j < |SortedRows(spec, partitions, r, shown, descending)|
    ensures var rows := SortedRows(spec, partitions, r, shown, descending);
      InOrder(DateKey(rows[i].date), DateKey(rows[j].date), descending)
  {
    hide Fitting, InOrder, DateKey, PinnedValues, AllRows;
    var le := RecordOrder(descending);
    RecordOrderIsTotal(descending);
    SortSorted(AllRows(spec, partitions, r, shown), le);
    var rows := SortedRows(spec, partitions, r, shown, descending);
    assert le(rows[i], rows[j]);
  }

  lemma RecordOrderIsTotal(descending: bool)
    ensures TotalPreorder(RecordOrder(descending))
  {
    hide InOrder, DateKey;
    var le := RecordOrder(descending);
    forall a, b
      ensures le(a, b) || le(b, a)
    {
      OrderIsTotal(DateKey(a.date), DateKey(b.date), descending);
    }
    forall a, b, c | le(a, b) && le(b, c)
      ensures le(a, c)
    {
      OrderIsTransitive(DateKey(a.date), DateKey(b.date), DateKey(c.date), descending);
    }
  }

  /** The walk is enough: fewer tuples than the budget, or the budgeted ones fill the limit. */
  predicate Reachable(tuples: seq<Values>, shown: Values -> seq<Record>, limit: nat) {
    |tuples| < MAX_QUERIES || |Flatten(tuples[..MAX_QUERIES], shown)| >= limit
  }

  /**
   What "latest N" by walking owes a non-range caller, for any mix of failures: it succeeds exactly
   when some row is shown and the budget reaches; its rows are then the first N of everything
   shown, sorted, and it says whether there were fewer.
   */
  ghost predicate Refines(plan: Plan, partitions: seq<seq<string>>, descending: bool, held: Values -> seq<Record>,
                          failing: set<Values>, result: Result<(seq<Record>, nat, bool), WalkError>)
    requires forall entry | entry in partitions :: |entry| == |plan.spec.partitionFields|
  {
    var tuples := WalkTuples(plan.spec, partitions, plan.request, descending);
    var all := SortedRows(plan.spec, partitions, plan.request, Shown(held, failing), descending);
    && (result.Ok? <==> all != [] && Reachable(tuples, Shown(held, failing), plan.limit))
    && (result.Ok? ==> result.value.0 == Take(all, plan.limit) && result.value.2 == (|all| < plan.limit))
  }

  /** A non-range request to a service that holds dated rows per tuple. */
  ghost predicate Serviced(plan: Plan, partitions: seq<seq<string>>, descending: bool, held: Values -> seq<Record>,
                           failing: set<Values>)
    requires forall entry | entry in partitions :: |entry| == |plan.spec.partitionFields|
  {
    var fitting := Fitting(plan.spec.partitionFields, partitions, PinnedValues(plan.spec, plan.request));
    && !IsRange(plan.request) && DatePartition(plan.spec).Some?
    && Serves(plan, WalkTuples(plan.spec, partitions, plan.request, descending), held, failing)
    && Dated(fitting, DatePartition(plan.spec).value, held)
  }

  /** No row that an answer leaves behind comes before a returned one; together they are all rows shown. */
  lemma NothingNewerLeft(plan: Plan, partitions: seq<seq<string>>, descending: bool, held: Values -> seq<Record>,
                         failing: set<Values>, result: Result<(seq<Record>, nat, bool), WalkError>)
    requires forall entry | entry in partitions :: |entry| == |plan.spec.partitionFields|
    requires Refines(plan, partitions, descending, held, failing, result) && result.Ok?
    ensures var all := SortedRows(plan.spec, partitions, plan.request, Shown(held, failing), descending);
      var returned := result.value.0;
      && |returned| <= |all| && all == returned + all[|returned|..]
      && forall x, y | x in returned && y in all[|returned|..] :: InOrder(DateKey(x.date), DateKey(y.date), descending)
  {
    hide SortedRows, InOrder, DateKey, WalkTuples, Reachable;
    var all := SortedRows(plan.spec, partitions, plan.request, Shown(held, failing), descending);
    var returned := result.value.0;
    assert returned == all[..|returned|];
    forall x, y | x in returned && y in all[|returned|..]
      ensures InOrder(DateKey(x.date), DateKey(y.date), descending)
    {
      var i :| 0 <= i < |returned| && returned[i] == x;
      var j :| |returned| <= j < |all| && all[j] == y;
      SortedInOrder(plan.spec, partitions, plan.request, Shown(held, failing), descending, i, j);
    }
  }

  /** With exactly as many tuples as the budget, the answer is refused iff it would be short, though all was seen. */
  lemma FullBudgetRefusesShort(plan: Plan, partitions: seq<seq<string>>, descending: bool,
                               held: Values -> seq<Record>, failing: set<Values>,
                               result: Result<(seq<Record>, nat, bool), WalkError>)
    requires forall entry | entry in partitions :: |entry| == |plan.spec.partitionFields|
    requires plan.limit >= 1 && Serviced(plan, partitions, descending, held, failing)
    requires Refines(plan, partitions, descending, held, failing, result)
    requires |WalkTuples(plan.spec, partitions, plan.request, descending)| == MAX_QUERIES
    ensures result.Err? <==>
      |SortedRows(plan.spec, partitions, plan.request, Shown(held, failing), descending)| < plan.limit
  {
    hide SortedRows, WalkTuples, Fitting, PinnedValues, IsRange, Dated, Serves, DatePartition;
    var tuples := WalkTuples(plan.spec, partitions, plan.request, descending);
    var fitting := Fitting(plan.spec.partitionFields, partitions, PinnedValues(plan.spec, plan.request));
    assert tuples[..MAX_QUERIES] == tuples;
    DatedShown(fitting, DatePartition(plan.spec).value, held, failing);
    OrderedBlocks(plan.spec, partitions, plan.request, Shown(held, failing), descending);
  }

  function ResultOf(walk: Result<Walked, Error>, limit: nat): Result<(seq<Record>, nat, bool), WalkError> {
    match walk
    case Err(e) => Err(BadPayload(e))
    case Ok(w) => WalkOutcome(w, limit)
  }

  method DatapointsViaPartitions(plan: Plan, partitions: seq<seq<string>>, descending: bool,
                                 ghost held: Values -> seq<Record>, ghost failing: set<Values>)
    returns (result: Result<(seq<Record>, nat, bool), WalkError>)
    requires forall entry | entry in partitions :: |entry| == |plan.spec.partitionFields|
    requires plan.limit >= 1
    ensures result.Ok? ==> 0 < |result.value.0| <= plan.limit && result.value.1 <= 12
    ensures result.Ok? ==> |result.value.0| == plan.limit ||
                           result.value.1 == |WalkTuples(plan.spec, partitions, plan.request, descending)|
    ensures Serviced(plan, partitions, descending, held, failing) ==>
      Refines(plan, partitions, descending, held, failing, result)
  {
    hide WalkTuples, Plan.PayloadFor, Serviced, Refines;
    var tuples := WalkTuples(plan.spec, partitions, plan.request, descending);
    var walk, asked := WalkPartitions(plan, tuples);
    result := ResultOf(walk, plan.limit);
    if Serviced(plan, partitions, descending, held, failing) {
      WalkRefines(plan, partitions, descending, held, failing, walk, asked);
    }
  }

  lemma WalkRefines(plan: Plan, partitions: seq<seq<string>>, descending: bool, held: Values -> seq<Record>,
                    failing: set<Values>, walk: Result<Walked, Error>, asked: seq<Payload>)
    requires forall entry | entry in partitions :: |entry| == |plan.spec.partitionFields|
    requires plan.limit >= 1 && Serviced(plan, partitions, descending, held, failing)
    requires IsWalk(plan, WalkTuples(plan.spec, partitions, plan.request, descending), walk, asked)
    ensures Refines(plan, partitions, descending, held, failing, ResultOf(walk, plan.limit))
  {
    hide Fitting, PinnedValues, IsRange, Dated, Serves, SortedRows, IsWalk, DatePartition, WalkOutcome, WalkTuples;
    var tuples := WalkTuples(plan.spec, partitions, plan.request, descending);
    var fitting := Fitting(plan.spec.partitionFields, partitions, PinnedValues(plan.spec, plan.request));
    DatedShown(fitting, DatePartition(plan.spec).value, held, failing);
    OrderedBlocks(plan.spec, partitions, plan.request, Shown(held, failing), descending);
    WalkFindsFirst(plan, tuples, held, failing, walk, asked);
  }

  lemma DatedShown(tuples: seq<Values>, field: string, held: Values -> seq<Record>, failing: set<Values>)
    requires Dated(tuples, field, held)
    ensures Dated(tuples, field, Shown(held, failing))
  {
    hide DateKey, TupleKey;
  }

  /** The outcome of a walk over a service that serves: the first rows of all tuples, or budget spent. */
  lemma WalkFindsFirst(plan: Plan, tuples: seq<Values>, held: Values -> seq<Record>, failing: set<Values>,
                       walk: Result<Walked, Error>, asked: seq<Payload>)
    requires plan.limit >= 1 && Serves(plan, tuples, held, failing)
    requires IsWalk(plan, tuples, walk, asked)
    ensures walk.Ok?
    ensures var shown := Shown(held, failing);
      var all := Flatten(tuples, shown);
      var outcome := WalkOutcome(walk.value, plan.limit);
      && (outcome.Ok? <==> all != [] && Reachable(tuples, shown, plan.limit))
      && (outcome.Ok? ==> outcome.value.0 == Take(all, plan.limit) && outcome.value.2 == (|all| < plan.limit))
  {
    hide Plan.PayloadFor, Plan.Collect, Flatten, Plan.AnyFailed;
    var n, shown := |asked|, Shown(held, failing);
    var first, rest := tuples[..n], tuples[n..];
    assert tuples == first + rest && forall t | t in first :: t in tuples;
    CollectIsTake(plan, first, held, failing);
    FlattenConcat(first, rest, shown);
    if n < |tuples| && |plan.Collect(first)| < plan.limit {
      assert Answers(plan, tuples[n], plan.limit - |plan.Collect(first)|, held, failing);
    }
    if n == |tuples| {
      assert first == tuples;
    } else if n < MAX_QUERIES && MAX_QUERIES <= |tuples| {
      assert tuples[..MAX_QUERIES] == first + tuples[n..MAX_QUERIES];
      FlattenConcat(first, tuples[n..MAX_QUERIES], shown);
    }
  }

  lemma {:induction false} FailedRowsMissing(tuples: seq<Values>, held: Values -> seq<Record>, failing: set<Values>)
    ensures Flatten(tuples, Shown(held, failing)) == Flatten(tuples, held) <==>
      forall t | t in tuples && t in failing :: held(t) == []
    ensures |Flatten(tuples, Shown(held, failing))| <= |Flatten(tuples, held)|
    ensures |Flatten(tuples, Shown(held, failing))| == |Flatten(tuples, held)| ==>
      forall t | t in tuples && t in failing :: held(t) == []
  {
    if tuples != [] {
      FailedRowsMissing(tuples[1..], held, failing);
      assert tuples == [tuples[0]] + tuples[1..];
    }
  }

  /** A short answer claims completeness: it holds every held row exactly when each failed partition holds nothing. */
  lemma ShortMissesFailedRows(plan: Plan, partitions: seq<seq<string>>, descending: bool, held: Values -> seq<Record>,
                              failing: set<Values>, result: Result<(seq<Record>, nat, bool), WalkError>)
    requires forall entry | entry in partitions :: |entry| == |plan.spec.partitionFields|
    requires Serviced(plan, partitions, descending, held, failing)
    requires Refines(plan, partitions, descending, held, failing, result)
    requires result.Ok? && result.value.2
    ensures result.value.0 == SortedRows(plan.spec, partitions, plan.request, held, descending) <==>
      forall t | t in WalkTuples(plan.spec, partitions, plan.request, descending) && t in failing :: held(t) == []
  {
    hide Fitting, PinnedValues, IsRange, Dated, Serves, DatePartition, WalkTuples, StableSort, RecordOrder, Reachable;
    var fitting := Fitting(plan.spec.partitionFields, partitions, PinnedValues(plan.spec, plan.request));
    WalkedAreOrdered(plan.spec, partitions, plan.request, descending);
    FailedRowsMissing(fitting, held, failing);
  }

  lemma {:induction false} NothingHeld(tuples: seq<Values>, shown: Values -> seq<Record>)
    requires forall t | t in tuples :: shown(t) == []
    ensures Flatten(tuples, shown) == []
  {
    if tuples != [] {
      assert tuples[0] in tuples;
      NothingHeld(tuples[1..], shown);
    }
  }

  /**
   The contradicting queries use up the budget: when the first tuples are all of other dates, which can
   hold nothing for the request, it fails whatever its own date holds.
   */
  lemma OtherDatesSpendBudget(plan: Plan, partitions: seq<seq<string>>, descending: bool,
                              held: Values -> seq<Record>, failing: set<Values>,
                              result: Result<(seq<Record>, nat, bool), WalkError>, field: string)
    requires forall entry | entry in partitions :: |entry| == |plan.spec.partitionFields|
    requires plan.limit >= 1 && Refines(plan, partitions, descending, held, failing, result)
    requires |WalkTuples(plan.spec, partitions, plan.request, descending)| >= MAX_QUERIES
    requires forall t | t in WalkTuples(plan.spec, partitions, plan.request, descending)[..MAX_QUERIES] ::
      !HasDate(t, field, Clean(plan.request.end))
    requires forall t :: !HasDate(t, field, Clean(plan.request.end)) ==> held(t) == []
    ensures result.Err?
  {
    hide SortedRows, WalkTuples, Clean, HasDate;
    NothingHeld(WalkTuples(plan.spec, partitions, plan.request, descending)[..MAX_QUERIES], Shown(held, failing));
  }
}
