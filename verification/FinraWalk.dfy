/** Answering "latest N" by walking FINRA's published partitions in date order (app/finra_client.py). */
module FinraWalk {
  import opened Wrappers
  import opened FinraPayload
  import opened Ordering
  import Text

  const MAX_QUERIES: nat := 12

  /** One value per partition field. */
  type Values = map<string, string>

  // ---------------------------------------------------------------- published partitions

  /** An availablePartitions entry: a list of values as text, a scalar as text, or neither. */
  datatype Item = Listed(values: seq<string>) | Scalar(text: string) | Unusable

  function EntryTuple(item: Item, n: nat): Option<seq<string>> {
    match item
    case Listed(values) => if |values| == n && "" !in values then Some(values) else None
    case Scalar(text) => if n == 1 then Some([text]) else None
    case Unusable => None
  }

  function Parsed(items: seq<Item>, n: nat): (r: seq<seq<string>>)
    ensures forall t | t in r :: |t| == n
    ensures forall i, j | 0 <= i < j < |r| :: r[i] != r[j]
    ensures forall t :: t in r <==> exists item | item in items :: EntryTuple(item, n) == Some(t)
  {
    if items == [] then []
    else
      var front := Parsed(items[..|items| - 1], n);
      var entry := EntryTuple(items[|items| - 1], n);
      assert items == items[..|items| - 1] + [items[|items| - 1]];
      if entry.None? || entry.value in front then front else front + [entry.value]
  }

  /** What is parsed: the full lists without a blank, and single values where there is one field. */
  lemma {:induction false} ParsedAre(items: seq<Item>, n: nat, t: seq<string>)
    ensures t in Parsed(items, n) <==>
      |t| == n && ((Listed(t) in items && "" !in t) || (n == 1 && Scalar(t[0]) in items))
  {
    if items != [] {
      var front, last := items[..|items| - 1], items[|items| - 1];
      ParsedAre(front, n, t);
      assert items == front + [last];
      assert EntryTuple(last, n) == Some(t) <==>
        (last == Listed(t) && |t| == n && "" !in t) || (|t| == n == 1 && last == Scalar(t[0])) by {
        assert |t| == 1 ==> t == [t[0]];
      }
    }
  }

  /** Each published tuple once, in published order. */
  method ParsePartitions(items: seq<Item>, fields: seq<string>) returns (out: seq<seq<string>>)
    ensures out == if fields == [] then [] else Parsed(items, |fields|)
  {
    if fields == [] {
      return [];
    }
    out := [];
    var seen: set<seq<string>> := {};
    for k := 0 to |items|
      invariant out == Parsed(items[..k], |fields|)
      invariant seen == set t | t in out
    {
      assert items[..k + 1][..k] == items[..k];
      var entry := EntryTuple(items[k], |fields|);
      if entry.Some? && entry.value !in seen {
        seen := seen + {entry.value};
        out := out + [entry.value];
      }
    }
    assert items[..|items|] == items;
  }

  function Zip(fields: seq<string>, entry: seq<string>): Values
    requires |fields| == |entry|
  {
    if fields == [] then map[]
    else
      var n := |fields| - 1;
      Zip(fields[..n], entry[..n])[fields[n] := entry[n]]
  }

  lemma {:induction false} ZipKeys(fields: seq<string>, entry: seq<string>)
    requires |fields| == |entry|
    ensures Zip(fields, entry).Keys == set f | f in fields
  {
    if fields != [] {
      var n := |fields| - 1;
      ZipKeys(fields[..n], entry[..n]);
      assert fields == fields[..n] + [fields[n]];
    }
  }

  lemma {:induction false} ZipAt(fields: seq<string>, entry: seq<string>, i: nat)
    requires |fields| == |entry| && i < |fields|
    requires forall j, k | 0 <= j < k < |fields| :: fields[j] != fields[k]
    ensures fields[i] in Zip(fields, entry) && Zip(fields, entry)[fields[i]] == entry[i]
  {
    var n := |fields| - 1;
    if i < n {
      ZipAt(fields[..n], entry[..n], i);
    }
  }

  // ---------------------------------------------------------------- date order

  predicate Numeric(s: string) {
    forall c | c in s :: '0' <= c <= '9'
  }

  /** YYYY-MM-DD, with or without a time, or YYYYMMDD; as YYYY-MM-DD. */
  function NormDate(value: string): Option<string> {
    var s := Text.Strip(value);
    if |s| >= 10 && Numeric(s[..4]) && s[4] == '-' && Numeric(s[5..7]) && s[7] == '-' && Numeric(s[8..10])
       && (|s| == 10 || (s[10] in "T " && '\n' !in s[11..])) then Some(s[..10])
    else if |s| == 8 && Numeric(s) then Some(s[..4] + "-" + s[4..6] + "-" + s[6..])
    else None
  }

  datatype Key = Key(unparsed: bool, text: string)

  function DateKey(value: string): Key {
    var norm := NormDate(value);
    if norm.Some? then Key(false, norm.value) else Key(true, value)
  }

  predicate KeyLeq(a: Key, b: Key) {
    (!a.unparsed && b.unparsed) || (a.unparsed == b.unparsed && Text.Leq(a.text, b.text))
  }

  /** Order of a sort: ascending, or the same reversed. Ties keep their order either way. */
  predicate InOrder(a: Key, b: Key, descending: bool) {
    if descending then KeyLeq(b, a) else KeyLeq(a, b)
  }

  lemma OrderIsTotal(a: Key, b: Key, descending: bool)
    ensures InOrder(a, b, descending) || InOrder(b, a, descending)
  {
    Text.LeqTotal(a.text, b.text);
  }

  lemma OrderIsTransitive(a: Key, b: Key, c: Key, descending: bool)
    requires InOrder(a, b, descending) && InOrder(b, c, descending)
    ensures InOrder(a, c, descending)
  {
    if a.unparsed == b.unparsed == c.unparsed {
      if descending {
        Text.LeqTransitive(c.text, b.text, a.text);
      } else {
        Text.LeqTransitive(a.text, b.text, c.text);
      }
    }
  }

  function TupleKey(t: Values, field: string): Key {
    if field in t then DateKey(t[field]) else Key(true, "")
  }

  function TupleOrder(field: string, descending: bool): (Values, Values) -> bool {
    (a: Values, b: Values) => InOrder(TupleKey(a, field), TupleKey(b, field), descending)
  }

  lemma TupleOrderIsTotal(field: string, descending: bool)
    ensures TotalPreorder(TupleOrder(field, descending))
  {
    hide InOrder, TupleKey;
    var le := TupleOrder(field, descending);
    forall a, b
      ensures le(a, b) || le(b, a)
    {
      OrderIsTotal(TupleKey(a, field), TupleKey(b, field), descending);
    }
    forall a, b, c | le(a, b) && le(b, c)
      ensures le(a, c)
    {
      OrderIsTransitive(TupleKey(a, field), TupleKey(b, field), TupleKey(c, field), descending);
    }
  }

  // ---------------------------------------------------------------- which tuples are walked

  /** What the caller's EQUAL filters fix; the last filter of a field counts. */
  function PinnedFilters(spec: Spec, filters: seq<Extra>): map<string, string> {
    if filters == [] then map[]
    else
      var last := filters[|filters| - 1];
      var front := PinnedFilters(spec, filters[..|filters| - 1]);
      var field := EqualField(last);
      if field.Some? && field.value in spec.partitionFields then
        front[field.value := if last.value.Some? then last.value.value else "None"]
      else front
  }

  /** A start date that is no range also fixes the date partition; an end date alone does not. */
  function PinnedValues(spec: Spec, r: Request): map<string, string> {
    var pinned := PinnedFilters(spec, r.filters);
    var start, end := Clean(r.start), Clean(r.end);
    if spec.dateField.Some? && spec.dateField.value in spec.partitionFields && start != ""
       && (end == "" || start == end) then pinned[spec.dateField.value := start]
    else pinned
  }

  predicate Matches(t: Values, pinned: map<string, string>) {
    forall f | f in pinned :: f in t && t[f] == pinned[f]
  }

  /** The published tuples that fit the pins, in published order. */
  function Fitting(fields: seq<string>, partitions: seq<seq<string>>, pinned: map<string, string>): (r: seq<Values>)
    requires forall entry | entry in partitions :: |entry| == |fields|
    ensures forall t | t in r :: Matches(t, pinned)
    ensures |r| <= |partitions|
  {
    if partitions == [] then []
    else
      var n := |partitions| - 1;
      var values := Zip(fields, partitions[n]);
      Fitting(fields, partitions[..n], pinned) + (if Matches(values, pinned) then [values] else [])
  }

  function OrderedTuples(spec: Spec, partitions: seq<seq<string>>, pinned: map<string, string>, descending: bool)
    : (r: seq<Values>)
    requires forall entry | entry in partitions :: |entry| == |spec.partitionFields|
  {
    var primary := DatePartition(spec);
    if primary.None? then []
    else StableSort(Fitting(spec.partitionFields, partitions, pinned), TupleOrder(primary.value, descending))
  }

  method OrderedPartitionTuples(spec: Spec, partitions: seq<seq<string>>, pinned: map<string, string>, descending: bool)
    returns (tuples: seq<Values>)
    requires forall entry | entry in partitions :: |entry| == |spec.partitionFields|
    ensures tuples == OrderedTuples(spec, partitions, pinned, descending)
  {
    var primary := DatePartition(spec);
    if primary.None? {
      return [];
    }
    var filtered: seq<Values> := [];
    for i := 0 to |partitions|
      invariant filtered == Fitting(spec.partitionFields, partitions[..i], pinned)
    {
      assert partitions[..i + 1][..i] == partitions[..i];
      var values := Zip(spec.partitionFields, partitions[i]);
      if Matches(values, pinned) {
        filtered := filtered + [values];
      }
    }
    assert partitions[..|partitions|] == partitions;
    return StableSort(filtered, TupleOrder(primary.value, descending));
  }

  predicate InRange(value: string, start: string, end: string) {
    var norm := NormDate(value);
    norm.Some? && Text.Leq(start, norm.value) && Text.Leq(norm.value, end)
  }

  /** The date field that a true range narrows, and whose EQUAL the walk then leaves out. */
  function RangeField(spec: Spec, r: Request): Option<string> {
    if IsRange(r) then spec.dateField else None
  }

  function NarrowTo(tuples: seq<Values>, field: string, start: string, end: string): seq<Values> {
    if tuples == [] then []
    else
      var t := tuples[|tuples| - 1];
      NarrowTo(tuples[..|tuples| - 1], field, start, end) +
        (if field in t && t[field] != "" && InRange(t[field], start, end) then [t] else [])
  }

  function WalkTuples(spec: Spec, partitions: seq<seq<string>>, r: Request, descending: bool): seq<Values>
    requires forall entry | entry in partitions :: |entry| == |spec.partitionFields|
  {
    var tuples := OrderedTuples(spec, partitions, PinnedValues(spec, r), descending);
    var field := RangeField(spec, r);
    if Given(field) && field.value in spec.partitionFields then
      NarrowTo(tuples, field.value, Clean(r.start), Clean(r.end))
    else tuples
  }

  // ---------------------------------------------------------------- the queries of a walk

  /** EQUAL filters for the values of a tuple, once per field, in field order. */
  function TupleExtras(fields: seq<string>, t: Values, rangeField: Option<string>): seq<Extra> {
    if fields == [] then []
    else
      var n := |fields| - 1;
      var f := fields[n];
      TupleExtras(fields[..n], t, rangeField) +
        (if f in t && Some(f) != rangeField && f !in fields[..n] then [Extra(Some(f), Some(t[f]), Some(EQUAL))] else [])
  }

  /** The payload for one tuple: the caller's conditions, its values, and no sort. */
  function WalkPayload(spec: Spec, r: Request, t: Values, remaining: int, selected: seq<string>): Result<Payload, Error> {
    var extra := TupleExtras(spec.partitionFields, t, RangeField(spec, r));
    PayloadOf(spec, r.(filters := r.filters + extra), remaining, selected, [])
  }

  lemma {:induction false} ExtrasPin(fields: seq<string>, t: Values, rangeField: Option<string>, f: string)
    requires f in fields && f in t && Some(f) != rangeField
    ensures Extra(Some(f), Some(t[f]), Some(EQUAL)) in TupleExtras(fields, t, rangeField)
  {
    var n := |fields| - 1;
    if f in fields[..n] {
      ExtrasPin(fields[..n], t, rangeField, f);
    }
  }

  lemma EqualIsUpper()
    ensures Text.Upper(EQUAL) == EQUAL
  {
    assert EQUAL[1..] == "QUAL" && "QUAL"[1..] == "UAL" && "UAL"[1..] == "AL" && "AL"[1..] == "L" && "L"[1..] == "";
    assert Text.Upper("L") == "L" && Text.Upper("AL") == "AL" && Text.Upper("UAL") == "UAL";
  }

  /** A tuple's value reaches the payload as an EQUAL row under its (stripped) field name. */
  lemma TupleValueSent(spec: Spec, r: Request, t: Values, remaining: int, selected: seq<string>, f: string)
    requires f in spec.partitionFields && f in t && Some(f) != RangeField(spec, r)
    requires WalkPayload(spec, r, t, remaining, selected).Ok?
    ensures Compare(EQUAL, Text.Strip(f), t[f]) in WalkPayload(spec, r, t, remaining, selected).value.compare
  {
    hide Text.Strip, Text.Upper, FilterRow, FilterRows, TupleExtras, SymbolRows, DateParts, DefaultRows, RangeField;
    var extra := TupleExtras(spec.partitionFields, t, RangeField(spec, r));
    var filters := r.filters + extra;
    ExtrasPin(spec.partitionFields, t, RangeField(spec, r), f);
    EqualIsUpper();
    var sent := Extra(Some(f), Some(t[f]), Some(EQUAL));
    assert sent in filters;
    var i :| 0 <= i < |filters| && filters[i] == sent;
    FilterRowsKeepFields(spec, filters);
    var row := FilterRows(spec, filters).value[i];
    assert KeptBy(sent, row);
    assert row == Compare(EQUAL, Text.Strip(f), t[f]) && row in FilterRows(spec, filters).value;
  }

  /**
   Walked payloads never sort, and pin every partition field; a true date range leaves out its
   date field only.
   */
  lemma WalkPayloadPins(spec: Spec, r: Request, t: Values, remaining: int, selected: seq<string>)
    requires forall f | f in spec.partitionFields :: f in t
    requires WalkPayload(spec, r, t, remaining, selected).Ok?
    ensures var payload := WalkPayload(spec, r, t, remaining, selected).value;
      && payload.sort == []
      && forall f | f in spec.partitionFields && (IsRange(r) ==> Some(f) != spec.dateField) ::
           Text.Strip(f) in Pinned(payload)
  {
    hide Text.Strip, PayloadOf, TupleExtras;
    var payload := WalkPayload(spec, r, t, remaining, selected).value;
    assert payload.sort == [] by {
      NoSort(spec, r, t, remaining, selected);
    }
    forall f | f in spec.partitionFields && (IsRange(r) ==> Some(f) != spec.dateField)
      ensures Text.Strip(f) in Pinned(payload)
    {
      TupleValueSent(spec, r, t, remaining, selected, f);
    }
  }

  lemma NoSort(spec: Spec, r: Request, t: Values, remaining: int, selected: seq<string>)
    requires WalkPayload(spec, r, t, remaining, selected).Ok?
    ensures WalkPayload(spec, r, t, remaining, selected).value.sort == []
  {
  }

  /** A tuple asked for under an end date alone is sent both dates, as EQUAL rows that contradict each other. */
  lemma OtherDateContradicts(spec: Spec, r: Request, t: Values, remaining: int, selected: seq<string>)
    requires Clean(r.start) == "" && Clean(r.end) != ""
    requires Given(spec.dateField) && spec.dateField.value in spec.partitionFields
    requires spec.dateField.value in t && t[spec.dateField.value] != Clean(r.end)
    requires WalkPayload(spec, r, t, remaining, selected).Ok?
    ensures var field := spec.dateField.value;
      var compare := WalkPayload(spec, r, t, remaining, selected).value.compare;
      Compare(EQUAL, field, Clean(r.end)) in compare && Compare(EQUAL, Text.Strip(field), t[field]) in compare
  {
    hide Text.Strip, FilterRow, FilterRows, TupleExtras, SymbolRows, DefaultRows;
    TupleValueSent(spec, r, t, remaining, selected, spec.dateField.value);
  }

  /** The tuples ask the same: they agree on every partition field that is sent. */
  ghost predicate SamePins(spec: Spec, r: Request, a: Values, b: Values) {
    forall f | f in spec.partitionFields && Some(f) != RangeField(spec, r) :: f in a && f in b && a[f] == b[f]
  }

  ghost predicate Complete(fields: seq<string>, t: Values) {
    forall f | f in fields :: f in t
  }

  lemma {:induction false} SameExtras(fields: seq<string>, a: Values, b: Values, rangeField: Option<string>)
    requires forall f | f in fields && Some(f) != rangeField :: f in a && f in b && a[f] == b[f]
    ensures TupleExtras(fields, a, rangeField) == TupleExtras(fields, b, rangeField)
  {
    if fields != [] {
      SameExtras(fields[..|fields| - 1], a, b, rangeField);
    }
  }

  /** Filters of different tuples stand in the same places, for the same fields. */
  lemma {:induction false} ExtrasAligned(fields: seq<string>, a: Values, b: Values, rangeField: Option<string>)
    requires Complete(fields, a) && Complete(fields, b)
    ensures var x, y := TupleExtras(fields, a, rangeField), TupleExtras(fields, b, rangeField);
      && |x| == |y|
      && (forall i | 0 <= i < |x| :: AlignedAt(x[i], y[i]) && SentValue(x[i], a) && SentValue(y[i], b))
  {
    if fields != [] {
      ExtrasAligned(fields[..|fields| - 1], a, b, rangeField);
    }
  }

  predicate AlignedAt(x: Extra, y: Extra) {
    x.Extra? && y.Extra? && x.field == y.field && x.field.Some? && x.op == y.op
  }

  predicate SentValue(x: Extra, t: Values) {
    x.Extra? && x.field.Some? && x.field.value in t && x.value == Some(t[x.field.value])
  }

  lemma ComparesEndInFilters(spec: Spec, r: Request, t: Values, remaining: int, selected: seq<string>)
    requires WalkPayload(spec, r, t, remaining, selected).Ok?
    ensures var filters := r.filters + TupleExtras(spec.partitionFields, t, RangeField(spec, r));
      var compare := WalkPayload(spec, r, t, remaining, selected).value.compare;
      && FilterRows(spec, filters).Ok? && |filters| <= |compare|
      && compare[|compare| - |filters|..] == FilterRows(spec, filters).value
  {
    hide FilterRows, TupleExtras, SymbolRows, DateParts, DefaultRows, RangeField;
  }

  /** Equal conditions come from equal values. */
  lemma SameCompareSamePins(spec: Spec, r: Request, a: Values, b: Values, m: int, n: int, selected: seq<string>)
    requires Complete(spec.partitionFields, a) && Complete(spec.partitionFields, b)
    requires WalkPayload(spec, r, a, m, selected).Ok? && WalkPayload(spec, r, b, n, selected).Ok?
    requires WalkPayload(spec, r, a, m, selected).value.compare == WalkPayload(spec, r, b, n, selected).value.compare
    ensures SamePins(spec, r, a, b)
  {
    hide WalkPayload, FilterRows, TupleExtras, RangeField, OpOf, Text.Strip;
    var fields, skipped := spec.partitionFields, RangeField(spec, r);
    var x, y := TupleExtras(fields, a, skipped), TupleExtras(fields, b, skipped);
    ComparesEndInFilters(spec, r, a, m, selected);
    ComparesEndInFilters(spec, r, b, n, selected);
    ExtrasAligned(fields, a, b, skipped);
    FilterRowsKeepFields(spec, r.filters + x);
    FilterRowsKeepFields(spec, r.filters + y);
    forall f | f in fields && Some(f) != skipped
      ensures a[f] == b[f]
    {
      ExtrasPin(fields, a, skipped, f);
      var i :| 0 <= i < |x| && x[i] == Extra(Some(f), Some(a[f]), Some(EQUAL));
      assert AlignedAt(x[i], y[i]) && SentValue(y[i], b);
      var k := |r.filters| + i;
      assert (r.filters + x)[k] == x[i] && (r.filters + y)[k] == y[i];
      assert KeptBy(x[i], FilterRows(spec, r.filters + x).value[k]);
      assert KeptBy(y[i], FilterRows(spec, r.filters + y).value[k]);
    }
  }

  /**
   When two partitions are asked the very same question: exactly when they agree on every partition
   field but the one a true range leaves out, and as many rows are missing, up to the service's maximum.
   */
  lemma SameQuestion(spec: Spec, r: Request, a: Values, b: Values, m: int, n: int, selected: seq<string>)
    requires Complete(spec.partitionFields, a) && Complete(spec.partitionFields, b)
    requires WalkPayload(spec, r, a, m, selected).Ok? && WalkPayload(spec, r, b, n, selected).Ok?
    ensures WalkPayload(spec, r, a, m, selected) == WalkPayload(spec, r, b, n, selected) <==>
      SamePins(spec, r, a, b) && ClampLimit(m) == ClampLimit(n)
  {
    hide FilterRows, TupleExtras, SymbolRows, DateParts, DefaultRows, RangeField, ClampLimit;
    if SamePins(spec, r, a, b) {
      SameExtras(spec.partitionFields, a, b, RangeField(spec, r));
    }
    if WalkPayload(spec, r, a, m, selected) == WalkPayload(spec, r, b, n, selected) {
      SameCompareSamePins(spec, r, a, b, m, n, selected);
    }
  }

  /** So in a true range, partitions that differ in their date only get the same query, valid or not. */
  lemma RangeWalkRepeats(spec: Spec, r: Request, a: Values, b: Values, remaining: int, selected: seq<string>)
    requires SamePins(spec, r, a, b)
    ensures WalkPayload(spec, r, a, remaining, selected) == WalkPayload(spec, r, b, remaining, selected)
  {
    hide PayloadOf, RangeField;
    SameExtras(spec.partitionFields, a, b, RangeField(spec, r));
  }

  // ---------------------------------------------------------------- the walk

  datatype Record = Record(date: string, content: string)

  /** What the service answers to a payload: None for an HTTP error. */
  type Server = Payload -> Option<seq<Record>>

  function Take<T>(xs: seq<T>, n: int): seq<T> {
    if n <= 0 then [] else if n < |xs| then xs[..n] else xs
  }

  /** A service and what is asked of it. */
  datatype Plan = Plan(server: Server, spec: Spec, request: Request, selected: seq<string>, limit: nat)
  {
    function PayloadFor(t: Values, remaining: int): Result<Payload, Error> {
      WalkPayload(spec, request, t, remaining, selected)
    }

    /** Rows of one tuple's reply; a failed query has none. */
    function Reply(t: Values, remaining: int): seq<Record> {
      var payload := PayloadFor(t, remaining);
      if payload.Ok? && server(payload.value).Some? then server(payload.value).value else []
    }

    /** Rows gathered from these tuples, each asked for what is still missing. */
    function Collect(tuples: seq<Values>): (rows: seq<Record>)
      ensures |rows| <= limit
    {
      if tuples == [] then []
      else
        var rows := Collect(tuples[..|tuples| - 1]);
        rows + Take(Reply(tuples[|tuples| - 1], limit - |rows|), limit - |rows|)
    }

    /** The payload of the i-th query. */
    function Query(tuples: seq<Values>, i: nat): Result<Payload, Error>
      requires i < |tuples|
    {
      PayloadFor(tuples[i], limit - |Collect(tuples[..i])|)
    }

    /** The queries made are those of the first tuples, each one while rows were missing. */
    ghost predicate Asked(tuples: seq<Values>, asked: seq<Payload>) {
      && |asked| <= |tuples|
      && forall i | 0 <= i < |asked| :: Query(tuples, i) == Ok(asked[i]) && |Collect(tuples[..i])| < limit
    }

    lemma AskedSnoc(tuples: seq<Values>, asked: seq<Payload>, payload: Payload)
      requires Asked(tuples, asked) && |asked| < |tuples|
      requires Query(tuples, |asked|) == Ok(payload) && |Collect(tuples[..|asked|])| < limit
      ensures Asked(tuples, asked + [payload])
    {
      hide Collect, Query;
    }

    lemma CollectSnoc(tuples: seq<Values>, i: nat)
      requires i < |tuples|
      ensures var rows := Collect(tuples[..i]);
        Collect(tuples[..i + 1]) == rows + Take(Reply(tuples[i], limit - |rows|), limit - |rows|)
    {
      hide Reply, PayloadFor, Take;
      var upTo := tuples[..i + 1];
      assert upTo[..|upTo| - 1] == tuples[..i];
    }

    predicate AnyFailed(asked: seq<Payload>) {
      exists p | p in asked :: server(p).None?
    }
  }

  datatype Walked = Walked(rows: seq<Record>, queries: nat, exhausted: bool, failed: bool)

  lemma NothingAsked(plan: Plan, tuples: seq<Values>)
    ensures plan.Collect([]) == [] && plan.Asked(tuples, [])
  {
  }

  /** A walk asks tuples in order, each for what is missing, until the limit, the budget or the end. */
  ghost predicate IsWalk(plan: Plan, tuples: seq<Values>, walk: Result<Walked, Error>, asked: seq<Payload>) {
    var rows := plan.Collect(tuples[..if |asked| <= |tuples| then |asked| else 0]);
    && |asked| <= MAX_QUERIES && plan.Asked(tuples, asked)
    && (walk.Err? ==>
          |asked| < |tuples| && |rows| < plan.limit && plan.Query(tuples, |asked|) == Err(walk.error))
    && (walk.Ok? ==>
          && walk.value == Walked(rows, |asked|, |asked| == MAX_QUERIES && |rows| < plan.limit, plan.AnyFailed(asked))
          && (|rows| == plan.limit || |asked| == MAX_QUERIES || |asked| == |tuples|))
  }

  method WalkPartitions(plan: Plan, tuples: seq<Values>) returns (walk: Result<Walked, Error>, asked: seq<Payload>)
    ensures IsWalk(plan, tuples, walk, asked)
  {
    hide Plan.PayloadFor, Plan.Collect, Plan.Asked;
    assert plan.Collect([]) == [] && plan.Asked(tuples, []) by {
      NothingAsked(plan, tuples);
    }
    assert tuples[..0] == [];
    var accumulated: seq<Record> := [];
    var failed := false;
    asked := [];
    var i := 0;
    while i < |tuples| && |accumulated| < plan.limit && i < MAX_QUERIES
      invariant |asked| == i <= |tuples| && i <= MAX_QUERIES && plan.Asked(tuples, asked)
      invariant accumulated == plan.Collect(tuples[..i])
      invariant failed == plan.AnyFailed(asked)
    {
      var remaining := plan.limit - |accumulated|;
      var payload := plan.PayloadFor(tuples[i], remaining);
      if payload.Err? {
        return Err(payload.error), asked;
      }
      plan.CollectSnoc(tuples, i);
      plan.AskedSnoc(tuples, asked, payload.value);
      assert forall p :: p in asked + [payload.value] <==> p in asked || p == payload.value;
      asked := asked + [payload.value];
      var records := plan.server(payload.value);
      if records.None? {
        failed := true;
      } else {
        accumulated := accumulated + Take(records.value, remaining);
      }
      i := i + 1;
    }
    walk := Ok(Walked(accumulated, i, i >= MAX_QUERIES && |accumulated| < plan.limit, failed));
  }

  datatype WalkError = BadPayload(error: Error) | HttpFailure | BudgetSpent | NoData

  /** The final answer: rows, queries made, and whether fewer rows came than asked for. */
  function WalkOutcome(walk: Walked, limit: nat): Result<(seq<Record>, nat, bool), WalkError> {
    if walk.exhausted then Err(if walk.rows == [] && walk.failed then HttpFailure else BudgetSpent)
    else if walk.rows == [] then Err(if walk.failed then HttpFailure else NoData)
    else Ok((walk.rows, walk.queries, |walk.rows| < limit))
  }

  /** Which error a walk without an answer gives. */
  lemma OutcomeErrors(walk: Walked, limit: nat)
    ensures var outcome := WalkOutcome(walk, limit);
      && (outcome == Err(HttpFailure) <==> walk.rows == [] && walk.failed)
      && (outcome == Err(BudgetSpent) <==> walk.exhausted && (walk.rows != [] || !walk.failed))
      && (outcome == Err(NoData) <==> !walk.exhausted && walk.rows == [] && !walk.failed)
      && (outcome.Ok? <==> !walk.exhausted && walk.rows != [])
  {
  }

  // ---------------------------------------------------------------- what the caller's filters pin

  /** An EQUAL filter on this field, spelled in any way the client accepts. */
  predicate IsEqualOn(x: Extra, f: string) {
    && x.Extra? && x.field.Some? && Text.Strip(x.field.value) == f && f != ""
    && (x.op.None? || x.op.value == "" || Text.Upper(x.op.value) == "EQUAL")
  }

  lemma EqualFieldIs(x: Extra, f: string)
    ensures EqualField(x) == Some(f) <==> IsEqualOn(x, f)
  {
    hide Text.Strip, Text.Upper;
  }

  /** The value of the filter, as the client writes it. */
  function ValueText(x: Extra): string {
    if x.Extra? && x.value.Some? then x.value.value else "None"
  }

  /** Partition fields with an EQUAL filter are pinned, each by its last one; nothing else is. */
  lemma {:induction false} FiltersPin(spec: Spec, filters: seq<Extra>, f: string)
    ensures var pinned := PinnedFilters(spec, filters);
      && (f in pinned <==> f in spec.partitionFields && exists x | x in filters :: IsEqualOn(x, f))
      && (f in pinned ==> exists i | 0 <= i < |filters| ::
            && IsEqualOn(filters[i], f) && pinned[f] == ValueText(filters[i])
            && forall j | i < j < |filters| :: !IsEqualOn(filters[j], f))
  {
    hide IsEqualOn, EqualField;
    if filters != [] {
      var n := |filters| - 1;
      var front, last := filters[..n], filters[n];
      FiltersPin(spec, front, f);
      EqualFieldIs(last, f);
      assert filters == front + [last];
      if EqualField(last) == Some(f) && f in spec.partitionFields {
        EqualIsExtra(last);
        assert IsEqualOn(filters[n], f) && PinnedFilters(spec, filters)[f] == ValueText(filters[n]);
      } else if f in PinnedFilters(spec, front) {
        var i :| 0 <= i < |front| && IsEqualOn(front[i], f) && PinnedFilters(spec, front)[f] == ValueText(front[i]) &&
          forall j | i < j < |front| :: !IsEqualOn(front[j], f);
        assert filters[i] == front[i];
      }
    }
  }

  lemma EqualIsExtra(x: Extra)
    requires EqualField(x).Some?
    ensures x.Extra?
  {
  }
}
