/** Query payloads for FINRA datasets and when a sort may be sent with them (app/finra_client.py). */
module FinraPayload {
  import opened Wrappers
  import Text

  datatype Spec = Spec(
    group: string,
    name: string,
    fieldNames: set<string>,
    partitionFields: seq<string>,
    symbolField: Option<string>,
    dateField: Option<string>,
    marketAggregate: bool,
    defaults: seq<(string, string)>,
    validValues: map<string, seq<string>>)

  /** One entry of the caller's filter list. A field that is no string is None; values are as text. */
  datatype Extra = NotAnObject | Extra(field: Option<string>, value: Option<string>, op: Option<string>)

  datatype Request = Request(ticker: Option<string>, start: Option<string>, end: Option<string>, filters: seq<Extra>)

  datatype SortField = SortField(descending: bool, name: string)

  datatype Compare = Compare(op: string, field: string, value: string)

  datatype DateRange = DateRange(field: string, start: string, end: string)

  datatype Payload = Payload(
    limit: nat, fields: seq<string>, sort: seq<SortField>, range: Option<DateRange>, compare: seq<Compare>)

  datatype Error =
    | NotObject(index: nat)
    | NoField(index: nat)
    | NoValue(field: string)
    | BadOp(op: string)
    | UnknownField(field: string)
    | BadValue(field: string)
    | NoSymbolField
    | NoDateField
    | MultiFieldSort
    | Unwalkable(sort: string)
    | MappedDateRange

  const ALLOWED_OPS := {"EQUAL", "GREATER", "LESSER", "GTE", "LTE", "NOT_EQUAL", "BEGINS_WITH"}
  const EQUAL := "EQUAL"
  const MAX_LIMIT: nat := 1000

  function Clean(text: Option<string>): string {
    if text.Some? then Text.Strip(text.value) else ""
  }

  predicate Given(field: Option<string>) {
    field.Some? && field.value != ""
  }

  function OpOf(extra: Extra): string
    requires extra.Extra?
  {
    if Given(extra.op) then Text.Upper(extra.op.value) else EQUAL
  }

  // ---------------------------------------------------------------- what is covered by EQUAL

  function EqualField(extra: Extra): Option<string> {
    if extra.Extra? && OpOf(extra) == EQUAL && Clean(extra.field) != "" then Some(Clean(extra.field)) else None
  }

  function EqualFields(filters: seq<Extra>): set<string> {
    set extra | extra in filters && EqualField(extra).Some? :: EqualField(extra).value
  }

  function ImpliedDateField(spec: Spec, r: Request): Option<string> {
    var start, end := Clean(r.start), Clean(r.end);
    if Given(spec.dateField) && ((start == end && start != "") || (start != "") != (end != "")) then spec.dateField
    else None
  }

  function ImpliedSymbolField(spec: Spec, r: Request): Option<string> {
    if Given(spec.symbolField) && Clean(r.ticker) != "" then spec.symbolField else None
  }

  function AsSet(field: Option<string>): set<string> {
    if field.Some? then {field.value} else {}
  }

  function Covered(spec: Spec, r: Request): set<string> {
    EqualFields(r.filters) + AsSet(ImpliedDateField(spec, r)) + AsSet(ImpliedSymbolField(spec, r))
  }

  /** The partition field that orders the partitions by date, if one is known. */
  function DatePartition(spec: Spec): Option<string> {
    var mapped := "weekStartDate";
    if Given(spec.dateField) && spec.dateField.value in spec.partitionFields then spec.dateField
    else if Text.Lower(spec.group) == "otcmarket"
            && Text.Lower(spec.name) in ["weeklysummary", "weeklysummaryhistoric"]
            && mapped in spec.partitionFields then Some(mapped)
    else None
  }

  predicate IsRange(r: Request) {
    Clean(r.start) != "" && Clean(r.end) != "" && Clean(r.start) != Clean(r.end)
  }

  /** Whether a sort is resolved by walking partitions; an error when it can be honoured neither way. */
  function UsePartitionFlow(spec: Spec, sort: seq<SortField>, r: Request): Result<bool, Error> {
    if sort == [] || spec.partitionFields == [] || (forall f | f in spec.partitionFields :: f in Covered(spec, r)) then
      Ok(false)
    else if |sort| != 1 then Err(MultiFieldSort)
    else if spec.dateField != Some(sort[0].name) || DatePartition(spec).None? then Err(Unwalkable(sort[0].name))
    else if IsRange(r) && !(spec.dateField.Some? && spec.dateField.value in spec.partitionFields) then
      Err(MappedDateRange)
    else Ok(true)
  }

  // ---------------------------------------------------------------- the payload

  function FilterRow(spec: Spec, index: nat, extra: Extra): Result<Compare, Error> {
    if extra.NotAnObject? then Err(NotObject(index))
    else
      var field := Clean(extra.field);
      if field == "" then Err(NoField(index))
      else if Clean(extra.value) == "" then Err(NoValue(field))
      else if OpOf(extra) !in ALLOWED_OPS then Err(BadOp(OpOf(extra)))
      else if spec.fieldNames != {} && field !in spec.fieldNames then Err(UnknownField(field))
      else if field in spec.validValues && extra.value.value !in spec.validValues[field] then Err(BadValue(field))
      else Ok(Compare(OpOf(extra), field, extra.value.value))
  }

  /** The caller's filters, normalised in order; the first bad one fails. */
  function FilterRows(spec: Spec, filters: seq<Extra>): (r: Result<seq<Compare>, Error>)
    ensures r.Ok? ==> |r.value| == |filters|
  {
    if filters == [] then Ok([])
    else
      var last := |filters| - 1;
      match FilterRows(spec, filters[..last])
      case Err(e) => Err(e)
      case Ok(rows) =>
        match FilterRow(spec, last, filters[last])
        case Err(e) => Err(e)
        case Ok(row) => Ok(rows + [row])
  }

  function FieldsOf(rows: seq<Compare>): set<string> {
    set row | row in rows :: row.field
  }

  function SymbolRows(spec: Spec, r: Request): Result<seq<Compare>, Error> {
    var symbol := Text.Upper(Clean(r.ticker));
    if symbol == "" then Ok([])
    else if spec.marketAggregate || !Given(spec.symbolField) then Err(NoSymbolField)
    else Ok([Compare(EQUAL, spec.symbolField.value, symbol)])
  }

  /** The dataset's own filters, except on fields that the caller filters. */
  function DefaultRows(defaults: seq<(string, string)>, filtered: set<string>): seq<Compare> {
    if defaults == [] then []
    else
      var (field, value) := defaults[|defaults| - 1];
      DefaultRows(defaults[..|defaults| - 1], filtered) + (if field in filtered then [] else [Compare(EQUAL, field, value)])
  }

  function DateParts(spec: Spec, r: Request): Result<(Option<DateRange>, seq<Compare>), Error> {
    var start, end := Clean(r.start), Clean(r.end);
    if start == "" && end == "" then Ok((None, []))
    else if !Given(spec.dateField) then Err(NoDateField)
    else if IsRange(r) then Ok((Some(DateRange(spec.dateField.value, start, end)), []))
    else Ok((None, [Compare(EQUAL, spec.dateField.value, if start != "" then start else end)]))
  }

  function ClampLimit(limit: int): nat {
    if limit < 1 then 1 else if limit > MAX_LIMIT then MAX_LIMIT else limit
  }

  function PayloadOf(spec: Spec, r: Request, limit: int, fields: seq<string>, sort: seq<SortField>): Result<Payload, Error> {
    match FilterRows(spec, r.filters)
    case Err(e) => Err(e)
    case Ok(rows) =>
      match SymbolRows(spec, r)
      case Err(e) => Err(e)
      case Ok(symbol) =>
        match DateParts(spec, r)
        case Err(e) => Err(e)
        case Ok((range, dated)) =>
          Ok(Payload(ClampLimit(limit), fields, sort, range,
                     symbol + DefaultRows(spec.defaults, FieldsOf(rows)) + dated + rows))
  }

  method PayloadFilterRows(spec: Spec, filters: seq<Extra>) returns (r: Result<seq<Compare>, Error>)
    ensures r == FilterRows(spec, filters)
  {
    hide FilterRow;
    var rows: seq<Compare> := [];
    for i := 0 to |filters|
      invariant FilterRows(spec, filters[..i]) == Ok(rows)
    {
      assert filters[..i + 1][..i] == filters[..i];
      var row := FilterRow(spec, i, filters[i]);
      if row.Err? {
        FirstErrorStays(spec, filters, i + 1);
        return Err(row.error);
      }
      rows := rows + [row.value];
    }
    assert filters[..|filters|] == filters;
    return Ok(rows);
  }

  lemma {:induction false} FirstErrorStays(spec: Spec, filters: seq<Extra>, n: nat)
    requires n <= |filters| && FilterRows(spec, filters[..n]).Err?
    ensures FilterRows(spec, filters) == FilterRows(spec, filters[..n])
  {
    if n == |filters| {
      assert filters[..n] == filters;
    } else {
      var front := filters[..|filters| - 1];
      assert front[..n] == filters[..n];
      FirstErrorStays(spec, front, n);
    }
  }

  method PayloadDefaultRows(spec: Spec, filtered: set<string>) returns (rows: seq<Compare>)
    ensures rows == DefaultRows(spec.defaults, filtered)
  {
    rows := [];
    for i := 0 to |spec.defaults|
      invariant rows == DefaultRows(spec.defaults[..i], filtered)
    {
      assert spec.defaults[..i + 1][..i] == spec.defaults[..i];
      var (field, value) := spec.defaults[i];
      if field !in filtered {
        rows := rows + [Compare(EQUAL, field, value)];
      }
    }
    assert spec.defaults[..|spec.defaults|] == spec.defaults;
  }

  method BuildPayload(spec: Spec, r: Request, limit: int, fields: seq<string>, sort: seq<SortField>)
    returns (payload: Result<Payload, Error>)
    ensures payload == PayloadOf(spec, r, limit, fields, sort)
  {
    var rows := PayloadFilterRows(spec, r.filters);
    if rows.Err? {
      return Err(rows.error);
    }
    var symbol := SymbolRows(spec, r);
    if symbol.Err? {
      return Err(symbol.error);
    }
    var compare := symbol.value;
    var defaults := PayloadDefaultRows(spec, FieldsOf(rows.value));
    compare := compare + defaults;
    var dated := DateParts(spec, r);
    if dated.Err? {
      return Err(dated.error);
    }
    compare := compare + dated.value.1 + rows.value;
    return Ok(Payload(ClampLimit(limit), fields, sort, dated.value.0, compare));
  }

  // ---------------------------------------------------------------- coverage and payload agree

  /** The fields that a payload pins with EQUAL. */
  function Pinned(payload: Payload): set<string> {
    set row | row in payload.compare && row.op == EQUAL :: row.field
  }

  predicate KeptBy(extra: Extra, row: Compare) {
    && extra.Extra? && extra.value.Some? && Clean(extra.field) != ""
    && row == Compare(OpOf(extra), Clean(extra.field), extra.value.value)
  }

  lemma {:induction false} FilterRowsKeepFields(spec: Spec, filters: seq<Extra>)
    requires FilterRows(spec, filters).Ok?
    ensures forall i | 0 <= i < |filters| :: KeptBy(filters[i], FilterRows(spec, filters).value[i])
  {
    hide Text.Strip, OpOf;
    if filters != [] {
      FilterRowsKeepFields(spec, filters[..|filters| - 1]);
    }
  }

  lemma FilterRowsPin(spec: Spec, filters: seq<Extra>)
    requires FilterRows(spec, filters).Ok?
    ensures (set row | row in FilterRows(spec, filters).value && row.op == EQUAL :: row.field) == EqualFields(filters)
  {
    hide Text.Strip, Text.Upper, FilterRows;
    FilterRowsKeepFields(spec, filters);
    var rows := FilterRows(spec, filters).value;
    var pinned := set row | row in rows && row.op == EQUAL :: row.field;
    forall f | f in pinned
      ensures f in EqualFields(filters)
    {
      var i :| 0 <= i < |rows| && rows[i].op == EQUAL && rows[i].field == f;
      assert KeptBy(filters[i], rows[i]);
      assert filters[i] in filters && EqualField(filters[i]) == Some(f);
    }
    forall f | f in EqualFields(filters)
      ensures f in pinned
    {
      var i :| 0 <= i < |filters| && EqualField(filters[i]) == Some(f);
      assert KeptBy(filters[i], rows[i]) && rows[i] in rows;
    }
  }

  /** Default filters that the caller leaves in force. */
  function DefaultFields(spec: Spec, r: Request): set<string> {
    var rows := FilterRows(spec, r.filters);
    if rows.Ok? then FieldsOf(DefaultRows(spec.defaults, FieldsOf(rows.value))) else {}
  }

  lemma {:induction false} DefaultsAreEqual(defaults: seq<(string, string)>, filtered: set<string>)
    ensures forall row | row in DefaultRows(defaults, filtered) :: row.op == EQUAL
  {
    if defaults != [] {
      DefaultsAreEqual(defaults[..|defaults| - 1], filtered);
    }
  }

  /** For every mix of filters, ticker and dates: the built payload pins what coverage says, plus defaults. */
  lemma PayloadPinsCoverage(spec: Spec, r: Request, limit: int, fields: seq<string>, sort: seq<SortField>)
    requires PayloadOf(spec, r, limit, fields, sort).Ok?
    ensures Pinned(PayloadOf(spec, r, limit, fields, sort).value) == Covered(spec, r) + DefaultFields(spec, r)
  {
    hide Text.Strip, FilterRows, DefaultRows, EqualFields;
    var payload := PayloadOf(spec, r, limit, fields, sort).value;
    var rows := FilterRows(spec, r.filters).value;
    var defaults := DefaultRows(spec.defaults, FieldsOf(rows));
    var symbol, dated := SymbolRows(spec, r).value, DateParts(spec, r).value.1;
    FilterRowsPin(spec, r.filters);
    DefaultsAreEqual(spec.defaults, FieldsOf(rows));
    assert payload.compare == symbol + defaults + dated + rows;
    assert FieldsOf(symbol) == AsSet(ImpliedSymbolField(spec, r)) && forall row | row in symbol :: row.op == EQUAL;
    assert FieldsOf(dated) == AsSet(ImpliedDateField(spec, r)) && forall row | row in dated :: row.op == EQUAL;
    PinnedOfParts(payload, symbol, defaults, dated, rows);
  }

  lemma PinnedOfParts(payload: Payload, symbol: seq<Compare>, defaults: seq<Compare>, dated: seq<Compare>, rows: seq<Compare>)
    requires payload.compare == symbol + defaults + dated + rows
    requires forall row | row in symbol + defaults + dated :: row.op == EQUAL
    ensures Pinned(payload) == FieldsOf(symbol) + FieldsOf(defaults) + FieldsOf(dated) +
      (set row | row in rows && row.op == EQUAL :: row.field)
  {
    var pinned := Pinned(payload);
    var parts := FieldsOf(symbol) + FieldsOf(defaults) + FieldsOf(dated) +
      (set row | row in rows && row.op == EQUAL :: row.field);
    forall row | row in payload.compare && row.op == EQUAL
      ensures row.field in parts
    {
    }
    forall row | row in symbol + defaults + dated
      ensures row.field in pinned
    {
      assert row in payload.compare;
    }
    forall row | row in rows && row.op == EQUAL
      ensures row.field in pinned
    {
      assert row in payload.compare;
    }
  }

  predicate PinsPartitions(spec: Spec, payload: Payload) {
    forall f | f in spec.partitionFields :: f in Pinned(payload)
  }

  /**
   sortFields goes to a partitioned dataset only with EQUAL on every partition field. The converse
   fails exactly for requests that owe the pin of some partition field to a default filter alone.
   */
  lemma SortSentOnlyWhenPinned(spec: Spec, r: Request, limit: int, fields: seq<string>, sort: seq<SortField>)
    requires sort != [] && spec.partitionFields != []
    requires PayloadOf(spec, r, limit, fields, sort).Ok?
    ensures var payload := PayloadOf(spec, r, limit, fields, sort).value;
      && (UsePartitionFlow(spec, sort, r) == Ok(false) ==> PinsPartitions(spec, payload))
      && (PinsPartitions(spec, payload) && UsePartitionFlow(spec, sort, r) != Ok(false) <==>
            && (forall f | f in spec.partitionFields :: f in Covered(spec, r) + DefaultFields(spec, r))
            && (exists f | f in spec.partitionFields :: f !in Covered(spec, r)))
  {
    hide PayloadOf, Covered, DefaultFields, Pinned, DatePartition;
    PayloadPinsCoverage(spec, r, limit, fields, sort);
  }

  /** A dataset whose only partition field is pinned by its own default filter. */
  const DEFAULTED := Spec("group", "name", {}, ["code"], None, Some("day"), false, [("code", "X")], map[])
  const ONE_DAY := Request(None, Some("d"), None, [])
  const BY_DAY := [SortField(true, "day")]

  /** There the sort is refused, although its payload would pin every partition field. */
  lemma DefaultPinIsRefused(limit: int, fields: seq<string>)
    ensures var payload := PayloadOf(DEFAULTED, ONE_DAY, limit, fields, BY_DAY);
      && payload.Ok? && PinsPartitions(DEFAULTED, payload.value)
      && UsePartitionFlow(DEFAULTED, BY_DAY, ONE_DAY) == Err(Unwalkable("day"))
  {
    DefaultedPayload(limit, fields);
    DefaultedFlow();
  }

  lemma DayIsClean()
    ensures Clean(Some("d")) == "d" && Clean(None) == ""
  {
    assert Text.RStrip("d") == "d" && Text.LStrip("d") == "d";
  }

  lemma DefaultedPayload(limit: int, fields: seq<string>)
    ensures var payload := PayloadOf(DEFAULTED, ONE_DAY, limit, fields, BY_DAY);
      payload.Ok? && PinsPartitions(DEFAULTED, payload.value)
  {
    hide Clean;
    DayIsClean();
    assert Text.Upper("") == "" && FieldsOf([]) == {};
    var defaults := DEFAULTED.defaults;
    assert defaults[..0] == [] && DefaultRows(defaults, {}) == [Compare(EQUAL, "code", "X")];
    assert Compare(EQUAL, "code", "X") in PayloadOf(DEFAULTED, ONE_DAY, limit, fields, BY_DAY).value.compare;
  }

  lemma DefaultedFlow()
    ensures UsePartitionFlow(DEFAULTED, BY_DAY, ONE_DAY) == Err(Unwalkable("day"))
  {
    hide Clean;
    DayIsClean();
    assert "code" !in Covered(DEFAULTED, ONE_DAY) && "code" in DEFAULTED.partitionFields;
    assert Text.Lower("group")[0] == 'g';
  }

  // ---------------------------------------------------------------- what a payload says

  /** A filter the client accepts: an object with a field, a value and a known operator, both allowed. */
  predicate IsGoodFilter(spec: Spec, x: Extra) {
    && x.Extra? && x.field.Some? && x.value.Some?
    && Text.Strip(x.field.value) != "" && Text.Strip(x.value.value) != ""
    && (x.op.None? || x.op.value == "" ||
        Text.Upper(x.op.value) in ["EQUAL", "GREATER", "LESSER", "GTE", "LTE", "NOT_EQUAL", "BEGINS_WITH"])
    && (spec.fieldNames == {} || Text.Strip(x.field.value) in spec.fieldNames)
    && (Text.Strip(x.field.value) in spec.validValues ==> x.value.value in spec.validValues[Text.Strip(x.field.value)])
  }

  /** The row of an accepted filter. */
  predicate IsRowOf(row: Compare, x: Extra) {
    && x.Extra? && x.field.Some? && x.value.Some?
    && row.field == Text.Strip(x.field.value) && row.value == x.value.value
    && row.op == if x.op.Some? && x.op.value != "" then Text.Upper(x.op.value) else "EQUAL"
  }

  lemma FilterRowMeans(spec: Spec, index: nat, x: Extra)
    ensures FilterRow(spec, index, x).Ok? <==> IsGoodFilter(spec, x)
    ensures FilterRow(spec, index, x).Ok? ==> IsRowOf(FilterRow(spec, index, x).value, x)
  {
    hide Text.Strip, Text.Upper;
  }

  /** Which error a filter gives: the first of these that applies. */
  lemma FilterErrors(spec: Spec, index: nat, x: Extra)
    ensures var row := FilterRow(spec, index, x);
      var field := if x.Extra? && x.field.Some? then Text.Strip(x.field.value) else "";
      var op := if x.Extra? && x.op.Some? && x.op.value != "" then Text.Upper(x.op.value) else "EQUAL";
      if x.NotAnObject? then row == Err(NotObject(index))
      else if field == "" then row == Err(NoField(index))
      else if x.value.None? || Text.Strip(x.value.value) == "" then row == Err(NoValue(field))
      else if op !in ["EQUAL", "GREATER", "LESSER", "GTE", "LTE", "NOT_EQUAL", "BEGINS_WITH"] then row == Err(BadOp(op))
      else if spec.fieldNames != {} && field !in spec.fieldNames then row == Err(UnknownField(field))
      else row.Ok? || row == Err(BadValue(field))
  {
    hide Text.Strip, Text.Upper;
  }

  /** All filters are accepted, row by row; or the error is that of the first bad one. */
  lemma {:induction false} FilterRowsMean(spec: Spec, filters: seq<Extra>)
    ensures var rows := FilterRows(spec, filters);
      && (rows.Ok? <==> forall x | x in filters :: IsGoodFilter(spec, x))
      && (rows.Ok? ==> |rows.value| == |filters| && forall i | 0 <= i < |filters| :: IsRowOf(rows.value[i], filters[i]))
      && (rows.Err? ==> exists i | 0 <= i < |filters| ::
            && FilterRow(spec, i, filters[i]) == Err(rows.error) && !IsGoodFilter(spec, filters[i])
            && forall j | 0 <= j < i :: IsGoodFilter(spec, filters[j]))
  {
    hide FilterRow, IsGoodFilter, IsRowOf;
    if filters != [] {
      var n := |filters| - 1;
      var front, last := filters[..n], filters[n];
      FilterRowsMean(spec, front);
      FilterRowMeans(spec, n, last);
      assert filters == front + [last];
      if FilterRows(spec, front).Err? {
        var i :| 0 <= i < |front| && FilterRow(spec, i, front[i]) == Err(FilterRows(spec, front).error) &&
          !IsGoodFilter(spec, front[i]) && forall j | 0 <= j < i :: IsGoodFilter(spec, front[j]);
        assert filters[i] == front[i] && forall j | 0 <= j < i :: filters[j] == front[j];
      } else {
        assert forall j | 0 <= j < n :: filters[j] == front[j] && front[j] in front;
      }
    }
  }

  /** A request has a payload iff its filters are good, its ticker has a symbol field and its dates a date field. */
  lemma PayloadBuiltIff(spec: Spec, r: Request, limit: int, fields: seq<string>, sort: seq<SortField>)
    ensures PayloadOf(spec, r, limit, fields, sort).Ok? <==>
      && (forall x | x in r.filters :: IsGoodFilter(spec, x))
      && (Clean(r.ticker) != "" ==> Given(spec.symbolField) && !spec.marketAggregate)
      && (Clean(r.start) != "" || Clean(r.end) != "" ==> Given(spec.dateField))
  {
    hide FilterRows, IsGoodFilter, Clean, Text.Upper;
    FilterRowsMean(spec, r.filters);
    assert |Text.Upper(Clean(r.ticker))| == |Clean(r.ticker)|;
  }

  lemma {:induction false} DefaultRowsAre(defaults: seq<(string, string)>, filtered: set<string>, row: Compare)
    ensures row in DefaultRows(defaults, filtered) <==>
      row.op == "EQUAL" && (row.field, row.value) in defaults && row.field !in filtered
  {
    if defaults != [] {
      var front, last := defaults[..|defaults| - 1], defaults[|defaults| - 1];
      DefaultRowsAre(front, filtered, row);
      assert defaults == front + [last] && last == (last.0, last.1);
      assert row in DefaultRows(defaults, filtered) <==>
        row in DefaultRows(front, filtered) || (last.0 !in filtered && row == Compare(EQUAL, last.0, last.1));
    }
  }

  /** Some filter of the caller is on this field. */
  predicate IsFiltered(r: Request, field: string) {
    exists x | x in r.filters :: x.Extra? && x.field.Some? && Text.Strip(x.field.value) == field
  }

  /** Exactly the conditions of a request: its symbol, defaults it leaves in force, its single date, its filters. */
  predicate IsCondition(spec: Spec, r: Request, row: Compare) {
    var start, end := Clean(r.start), Clean(r.end);
    || (Clean(r.ticker) != "" && row.op == "EQUAL" && Some(row.field) == spec.symbolField &&
        row.value == Text.Upper(Clean(r.ticker)))
    || (row.op == "EQUAL" && (row.field, row.value) in spec.defaults && !IsFiltered(r, row.field))
    || (row.op == "EQUAL" && Some(row.field) == spec.dateField && row.value != "" &&
        ((start == row.value && (end == "" || end == start)) || (start == "" && end == row.value)))
    || (exists x | x in r.filters :: IsRowOf(row, x))
  }

  /** What a built payload carries: the rows missing, one to a thousand; a true range; and those conditions. */
  lemma PayloadCarries(spec: Spec, r: Request, limit: int, fields: seq<string>, sort: seq<SortField>, row: Compare)
    requires PayloadOf(spec, r, limit, fields, sort).Ok?
    ensures var payload, start, end := PayloadOf(spec, r, limit, fields, sort).value, Clean(r.start), Clean(r.end);
      && 1 <= payload.limit <= 1000 && (1 <= limit <= 1000 ==> payload.limit == limit)
      && payload.fields == fields && payload.sort == sort
      && (payload.range == if start != "" && end != "" && start != end then
            Some(DateRange(spec.dateField.value, start, end)) else None)
      && (row in payload.compare <==> IsCondition(spec, r, row))
  {
    hide FilterRows, DefaultRows, Clean, Text.Upper, IsGoodFilter, IsFiltered, IsRowOf;
    var payload := PayloadOf(spec, r, limit, fields, sort).value;
    var rows := FilterRows(spec, r.filters).value;
    FilterRowsMean(spec, r.filters);
    RowsOfFilters(r.filters, rows, row);
    FilteredFields(r, rows, row.field);
    DefaultRowsAre(spec.defaults, FieldsOf(rows), row);
    assert |Text.Upper(Clean(r.ticker))| == |Clean(r.ticker)|;
    SymbolMeans(spec, r, row);
    DateMeans(spec, r, row);
    assert payload.compare ==
      SymbolRows(spec, r).value + DefaultRows(spec.defaults, FieldsOf(rows)) + DateParts(spec, r).value.1 + rows;
  }

  lemma SymbolMeans(spec: Spec, r: Request, row: Compare)
    requires SymbolRows(spec, r).Ok?
    ensures row in SymbolRows(spec, r).value <==>
      Clean(r.ticker) != "" && row.op == "EQUAL" && Some(row.field) == spec.symbolField &&
      row.value == Text.Upper(Clean(r.ticker))
  {
    hide Clean, Text.Upper;
    assert |Text.Upper(Clean(r.ticker))| == |Clean(r.ticker)|;
  }

  lemma DateMeans(spec: Spec, r: Request, row: Compare)
    requires DateParts(spec, r).Ok?
    ensures var start, end := Clean(r.start), Clean(r.end);
      row in DateParts(spec, r).value.1 <==>
      row.op == "EQUAL" && Some(row.field) == spec.dateField && row.value != "" &&
      ((start == row.value && (end == "" || end == start)) || (start == "" && end == row.value))
  {
    hide Clean;
  }

  lemma RowsOfFilters(filters: seq<Extra>, rows: seq<Compare>, row: Compare)
    requires |rows| == |filters| && forall i | 0 <= i < |filters| :: IsRowOf(rows[i], filters[i])
    ensures row in rows <==> exists x | x in filters :: IsRowOf(row, x)
  {
    hide Text.Strip, Text.Upper;
    if row in rows {
      var i :| 0 <= i < |rows| && rows[i] == row;
      assert filters[i] in filters;
    }
    if x :| x in filters && IsRowOf(row, x) {
      var i :| 0 <= i < |filters| && filters[i] == x;
      assert rows[i] == row;
    }
  }

  lemma FilteredFields(r: Request, rows: seq<Compare>, field: string)
    requires |rows| == |r.filters| && forall i | 0 <= i < |rows| :: IsRowOf(rows[i], r.filters[i])
    ensures field in FieldsOf(rows) <==> IsFiltered(r, field)
  {
    hide Text.Strip, Text.Upper;
    if field in FieldsOf(rows) {
      var i :| 0 <= i < |rows| && rows[i].field == field;
      assert r.filters[i] in r.filters;
    }
    if IsFiltered(r, field) {
      var x :| x in r.filters && x.Extra? && x.field.Some? && Text.Strip(x.field.value) == field;
      var i :| 0 <= i < |r.filters| && r.filters[i] == x;
      assert rows[i] in rows;
    }
  }

  // ---------------------------------------------------------------- when a sort is walked

  /** The partition field with the dates: the date field itself, or the one known for the weekly summaries. */
  lemma DatePartitionIs(spec: Spec, f: string)
    ensures DatePartition(spec) == Some(f) <==>
      && f in spec.partitionFields
      && if Given(spec.dateField) && spec.dateField.value in spec.partitionFields then Some(f) == spec.dateField
         else f == "weekStartDate" && Text.Lower(spec.group) == "otcmarket" &&
              (Text.Lower(spec.name) == "weeklysummary" || Text.Lower(spec.name) == "weeklysummaryhistoric")
  {
    hide Text.Lower;
  }

  /** A sort is walked iff it is one on the date field, not yet pinned, over partitions that can be narrowed. */
  lemma WalkedIff(spec: Spec, sort: seq<SortField>, r: Request)
    ensures UsePartitionFlow(spec, sort, r) == Ok(true) <==>
      && (exists f | f in spec.partitionFields :: f !in Covered(spec, r))
      && |sort| == 1 && Some(sort[0].name) == spec.dateField && DatePartition(spec).Some?
      && (sort[0].name in spec.partitionFields || Clean(r.start) == "" || Clean(r.end) == "" || Clean(r.start) == Clean(r.end))
  {
    hide Covered, DatePartition, Clean;
  }

  /** When a sort that is not sent is refused, and how; without partitions left to pin it is sent as it is. */
  lemma SortRefused(spec: Spec, sort: seq<SortField>, r: Request)
    ensures var flow, open := UsePartitionFlow(spec, sort, r), exists f | f in spec.partitionFields :: f !in Covered(spec, r);
      && (flow == Ok(false) <==> sort == [] || !open)
      && (flow == Err(MultiFieldSort) <==> open && |sort| >= 2)
      && (open && |sort| == 1 ==>
            && (flow == Err(Unwalkable(sort[0].name)) <==> spec.dateField != Some(sort[0].name) || DatePartition(spec).None?)
            && (flow == Err(MappedDateRange) <==>
                  && spec.dateField == Some(sort[0].name) && DatePartition(spec).Some?
                  && sort[0].name !in spec.partitionFields && IsRange(r)))
  {
    hide Covered, DatePartition, IsRange;
  }

  /** The error of a request whose filters are good: no symbol field before no date field. */
  lemma BuildErrors(spec: Spec, r: Request, limit: int, fields: seq<string>, sort: seq<SortField>)
    requires forall x | x in r.filters :: IsGoodFilter(spec, x)
    ensures var payload := PayloadOf(spec, r, limit, fields, sort);
      var noSymbol := Clean(r.ticker) != "" && (spec.marketAggregate || !Given(spec.symbolField));
      && (payload == Err(NoSymbolField) <==> noSymbol)
      && (payload == Err(NoDateField) <==>
            !noSymbol && (Clean(r.start) != "" || Clean(r.end) != "") && !Given(spec.dateField))
  {
    hide FilterRows, IsGoodFilter, Clean, Text.Upper;
    FilterRowsMean(spec, r.filters);
    assert |Text.Upper(Clean(r.ticker))| == |Clean(r.ticker)|;
  }
}
