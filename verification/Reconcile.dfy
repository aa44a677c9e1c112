/**
 Schedule reconciliation (app/obligations.py): within one filing note, a fiscal-year table that
 adds up to a headline amount becomes that headline's breakdown instead of a second amount.
 */
module Reconcile {
  import opened Wrappers
  import opened Ledger
  import opened Lifecycle
  import Ordering
  import Text

  function YearText(r: Row): string {
    if r.fiscalYear.Some? then r.fiscalYear.value else ""
  }

  predicate IsFiscalTable(r: Row) {
    && Text.EndsWith(r.SourceText(), "note table")
    && !Text.Contains(YearText(r), "Due")
    && (Text.Contains(YearText(r), "20") || Text.Contains(Text.Lower(YearText(r)), "hereafter"))
  }

  predicate IsHeadline(r: Row) {
    Text.EndsWith(r.SourceText(), " note") && r.Positive()
  }

  lemma HeadlineIsNoTable(r: Row)
    ensures !(IsHeadline(r) && IsFiscalTable(r))
  {
    var s := r.SourceText();
    if |s| >= 10 {
      assert s[|s| - 5..] == s[|s| - 10..][5..];
    }
  }

  function Last<T>(xs: seq<T>): T
    requires xs != []
  {
    xs[|xs| - 1]
  }

  function TableTotal(rows: seq<Row>): (total: real)
    ensures total >= 0.0
  {
    if rows == [] then 0.0
    else TableTotal(rows[..|rows| - 1]) + (if IsFiscalTable(Last(rows)) then Last(rows).PositiveOrZero() else 0.0)
  }

  function Gap(r: Row, total: real): (g: real)
    ensures g >= 0.0
  {
    var d := total - r.PositiveOrZero();
    if d < 0.0 then -d else d
  }

  /** A headline within the 10% tolerance of the table total. */
  predicate Close(r: Row, total: real)
    requires total > 0.0
  {
    IsHeadline(r) && Gap(r, total) / total < 0.1
  }

  /** The gap of each close headline; None for every other row. */
  function Gaps(rows: seq<Row>, total: real): (gaps: seq<Option<real>>)
    requires total > 0.0
    ensures |gaps| == |rows|
    ensures forall i | 0 <= i < |rows| :: gaps[i] == GapIfClose(rows[i], total)
  {
    seq(|rows|, i requires 0 <= i < |rows| => GapIfClose(rows[i], total))
  }

  function GapIfClose(r: Row, total: real): Option<real>
    requires total > 0.0
  {
    if Close(r, total) then Some(Gap(r, total)) else None
  }

  /** Position of the least gap, the first of them on ties. */
  function ArgMin(gaps: seq<Option<real>>): (best: Option<nat>)
    ensures best.Some? ==> best.value < |gaps| && gaps[best.value].Some?
  {
    if gaps == [] then None
    else
      var n := |gaps| - 1;
      var best := ArgMin(gaps[..n]);
      if gaps[n].Some? && (best.None? || gaps[n].value < gaps[best.value].value) then Some(n) else best
  }

  lemma {:induction false} ArgMinIsLeast(gaps: seq<Option<real>>)
    ensures var best := ArgMin(gaps);
      if best.None? then forall j | 0 <= j < |gaps| :: gaps[j].None?
      else forall j | 0 <= j < |gaps| && gaps[j].Some? ::
        gaps[best.value].value < gaps[j].value || (gaps[best.value] == gaps[j] && best.value <= j)
  {
    if gaps != [] {
      ArgMinIsLeast(gaps[..|gaps| - 1]);
    }
  }

  /** The headline that takes over the table of this window, if there is one. */
  function Match(rows: seq<Row>): (best: Option<nat>)
    ensures best.Some? ==> best.value < |rows|
  {
    var total := TableTotal(rows);
    if total == 0.0 then None else ArgMin(Gaps(rows, total))
  }

  function Breakdown(rows: seq<Row>): seq<ScheduleEntry> {
    if rows == [] then []
    else
      var r := Last(rows);
      Breakdown(rows[..|rows| - 1]) +
      (if IsFiscalTable(r) then [ScheduleEntry(YearText(r), if r.amount.Num? then Some(r.amount.value) else None)]
       else [])
  }

  function AsComponent(r: Row, headline: Row): Row {
    r.(component := Some(true), headlineKind := headline.kind)
  }

  function Attached(rows: seq<Row>, best: nat, i: nat): Row
    requires best < |rows| && i < |rows|
  {
    if IsFiscalTable(rows[i]) then AsComponent(rows[i], rows[best])
    else if i == best && rows[i].schedule.None? then rows[i].(schedule := Some(Breakdown(rows)))
    else rows[i]
  }

  /** One filing-note window after reconciliation. */
  function Reconciled(rows: seq<Row>): (r: seq<Row>)
    ensures |r| == |rows|
  {
    var best := Match(rows);
    if best.None? then rows
    else seq(|rows|, i requires 0 <= i < |rows| => Attached(rows, best.value, i))
  }

  method ReconcileWindow(window: seq<Entry>)
    requires Ordering.Distinct(window)
    modifies set e | e in window
    ensures Rows(window) == Reconciled(old(Rows(window)))
  {
    ghost var rows := Rows(window);
    var total, schedule := SumTable(window);
    if total == 0.0 {
      return;
    }
    var best := Closest(window, total);
    if best.Some? {
      assert GapIfClose(rows[best.value], total).Some?;
      Attach(window, best.value, schedule);
    }
  }

  method SumTable(window: seq<Entry>) returns (total: real, schedule: seq<ScheduleEntry>)
    ensures total == TableTotal(Rows(window)) && schedule == Breakdown(Rows(window))
  {
    ghost var rows := Rows(window);
    total, schedule := 0.0, [];
    for i := 0 to |window|
      invariant total == TableTotal(rows[..i]) && schedule == Breakdown(rows[..i])
    {
      assert rows[..i + 1][..i] == rows[..i];
      var row := window[i].row;
      if IsFiscalTable(row) {
        total := total + row.PositiveOrZero();
        schedule := schedule + [ScheduleEntry(YearText(row), if row.amount.Num? then Some(row.amount.value) else None)];
      }
    }
    assert rows[..|window|] == rows;
  }

  method Closest(window: seq<Entry>, total: real) returns (best: Option<nat>)
    requires total > 0.0
    ensures best == ArgMin(Gaps(Rows(window), total))
  {
    ghost var gaps := Gaps(Rows(window), total);
    best := None;
    var least := 0.0;
    for i := 0 to |window|
      invariant best == ArgMin(gaps[..i])
      invariant best.Some? ==> gaps[best.value] == Some(least)
    {
      assert gaps[..i + 1][..i] == gaps[..i];
      var gap := GapIfClose(window[i].row, total);
      assert gap == gaps[i];
      if gap.Some? && (best.None? || gap.value < least) {
        best, least := Some(i), gap.value;
      }
    }
    assert gaps[..|window|] == gaps;
  }

  method Attach(window: seq<Entry>, best: nat, schedule: seq<ScheduleEntry>)
    requires Ordering.Distinct(window)
    requires best < |window| && IsHeadline(window[best].row)
    requires schedule == Breakdown(Rows(window))
    modifies set e | e in window
    ensures forall i | 0 <= i < |window| :: window[i].row == Attached(old(Rows(window)), best, i)
  {
    hide IsFiscalTable, IsHeadline, Breakdown;
    ghost var rows := Rows(window);
    HeadlineIsNoTable(rows[best]);
    var headline := window[best].row;
    if headline.schedule.None? {
      window[best].row := headline.(schedule := Some(schedule));
    }
    for i := 0 to |window|
      invariant forall j | 0 <= j < i :: window[j].row == Attached(rows, best, j)
      invariant forall j | i <= j < |window| && j != best :: window[j].row == rows[j]
      invariant window[best].row == Attached(rows, best, best)
    {
      TextDecides(rows[i], window[i].row);
      if IsFiscalTable(window[i].row) {
        window[i].row := AsComponent(window[i].row, headline);
      }
    }
  }

  // ---------------------------------------------------------------- what reconciliation keeps

  /** Everything reconciliation reads of a row, apart from the component flag. */
  ghost predicate SameText(a: Row, b: Row) {
    a.source == b.source && a.fiscalYear == b.fiscalYear && a.amount == b.amount
  }

  lemma {:induction false} TotalByText(a: seq<Row>, b: seq<Row>)
    requires |a| == |b| && forall i | 0 <= i < |a| :: SameText(a[i], b[i])
    ensures TableTotal(a) == TableTotal(b) && Breakdown(a) == Breakdown(b)
  {
    if a != [] {
      TotalByText(a[..|a| - 1], b[..|b| - 1]);
    }
  }

  lemma GapByText(a: Row, b: Row, total: real)
    requires SameText(a, b) && total > 0.0
    ensures GapIfClose(a, total) == GapIfClose(b, total)
  {
    hide Text.EndsWith;
  }

  /** Whether and where a window matches depends on the text and amounts of its rows only. */
  lemma MatchByText(a: seq<Row>, b: seq<Row>)
    requires |a| == |b| && forall i | 0 <= i < |a| :: SameText(a[i], b[i])
    ensures Match(a) == Match(b)
  {
    hide IsFiscalTable, IsHeadline, TableTotal, Breakdown, ArgMin, GapIfClose;
    TotalByText(a, b);
    var total := TableTotal(a);
    if total != 0.0 {
      forall i | 0 <= i < |a|
        ensures Gaps(a, total)[i] == Gaps(b, total)[i]
      {
        GapByText(a[i], b[i], total);
      }
      assert Gaps(a, total) == Gaps(b, total);
    }
  }

  lemma TextDecides(a: Row, b: Row)
    requires SameText(a, b)
    ensures IsFiscalTable(a) == IsFiscalTable(b) && IsHeadline(a) == IsHeadline(b)
  {
  }

  lemma ReconciledKeepsText(rows: seq<Row>)
    ensures forall i | 0 <= i < |rows| ::
      SameText(rows[i], Reconciled(rows)[i]) &&
      rows[i].kind == Reconciled(rows)[i].kind && rows[i].filed == Reconciled(rows)[i].filed
  {
  }

  /** Reconciling a window again changes nothing. */
  lemma ReconcileIdempotent(rows: seq<Row>)
    ensures Reconciled(Reconciled(rows)) == Reconciled(rows)
  {
    hide IsFiscalTable, IsHeadline, FromNote;
    var once := Reconciled(rows);
    ReconciledKeepsText(rows);
    MatchByText(rows, once);
    TotalByText(rows, once);
    if Match(rows).Some? {
      var best := Match(rows).value;
      forall i | 0 <= i < |rows|
        ensures Attached(once, best, i) == once[i]
      {
        TextDecides(rows[i], once[i]);
        assert once[best].kind == rows[best].kind;
      }
    }
  }

  /** What the ledger counts: positive amounts of rows that are no component. */
  function NonComponentSum(rows: seq<Row>): real {
    if rows == [] then 0.0
    else NonComponentSum(rows[..|rows| - 1]) + (if Last(rows).IsComponent() then 0.0 else Last(rows).PositiveOrZero())
  }

  lemma {:induction false} FlaggingDropsTotal(rows: seq<Row>, out: seq<Row>)
    requires |rows| == |out|
    requires forall i | 0 <= i < |rows| :: rows[i].amount == out[i].amount
    requires forall i | 0 <= i < |rows| :: out[i].IsComponent() == (rows[i].IsComponent() || IsFiscalTable(rows[i]))
    requires forall r | r in rows && IsFiscalTable(r) :: !r.IsComponent()
    ensures NonComponentSum(out) == NonComponentSum(rows) - TableTotal(rows)
  {
    if rows != [] {
      FlaggingDropsTotal(rows[..|rows| - 1], out[..|out| - 1]);
      assert Last(rows) in rows;
    }
  }

  /** Row h of the window is a headline within 10% of the table total; none is closer, and no earlier one as close. */
  ghost predicate IsClosestHeadline(rows: seq<Row>, h: nat) {
    && h < |rows|
    && TableTotal(rows) > 0.0
    && Close(rows[h], TableTotal(rows))
    && forall j | 0 <= j < |rows| && Close(rows[j], TableTotal(rows)) ::
         || Gap(rows[h], TableTotal(rows)) < Gap(rows[j], TableTotal(rows))
         || (Gap(rows[h], TableTotal(rows)) == Gap(rows[j], TableTotal(rows)) && h <= j)
  }

  lemma MatchIsClosest(rows: seq<Row>)
    ensures Match(rows).Some? ==> IsClosestHeadline(rows, Match(rows).value)
    ensures Match(rows).None? ==> forall h :: !IsClosestHeadline(rows, h)
  {
    var total := TableTotal(rows);
    if total > 0.0 {
      var gaps := Gaps(rows, total);
      ArgMinIsLeast(gaps);
      forall j | 0 <= j < |rows| && Close(rows[j], total)
        ensures gaps[j] == Some(Gap(rows[j], total))
      {
      }
      if Match(rows).Some? {
        assert gaps[Match(rows).value] == GapIfClose(rows[Match(rows).value], total);
      }
    }
  }

  /**
   No amount is counted twice: a window is left alone, or every fiscal-table row becomes a component
   of the closest headline and the counted sum drops by exactly the table total.
   */
  lemma ReconcileNeverDoubleCounts(rows: seq<Row>)
    requires forall r | r in rows && IsFiscalTable(r) :: !r.IsComponent()
    ensures var out := Reconciled(rows);
      if Match(rows).None? then out == rows && forall h :: !IsClosestHeadline(rows, h)
      else var h := Match(rows).value;
        && IsClosestHeadline(rows, h)
        && (forall i | 0 <= i < |rows| && IsFiscalTable(rows[i]) ::
              out[i] == rows[i].(component := Some(true), headlineKind := rows[h].kind))
        && (forall i | 0 <= i < |rows| && !IsFiscalTable(rows[i]) && i != h :: out[i] == rows[i])
        && out[h] == (if rows[h].schedule.None? then rows[h].(schedule := Some(Breakdown(rows))) else rows[h])
        && NonComponentSum(out) == NonComponentSum(rows) - TableTotal(rows)
  {
    hide IsFiscalTable, IsClosestHeadline, Match, TableTotal, NonComponentSum, Breakdown;
    MatchIsClosest(rows);
    if Match(rows).Some? {
      MatchIsNoTable(rows);
      FlaggingDropsTotal(rows, Reconciled(rows));
    }
  }

  lemma MatchIsNoTable(rows: seq<Row>)
    requires Match(rows).Some?
    ensures !IsFiscalTable(rows[Match(rows).value])
  {
    hide IsFiscalTable, IsHeadline, TableTotal, Gap;
    MatchIsClosest(rows);
    HeadlineIsNoTable(rows[Match(rows).value]);
  }

  // ---------------------------------------------------------------- the legacy backfill

  predicate FromNote(r: Row) {
    Text.EndsWith(r.SourceText(), " note") || Text.EndsWith(r.SourceText(), "note table")
  }

  lemma NoteRowIsFromNote(r: Row)
    requires IsFiscalTable(r) || IsHeadline(r)
    ensures FromNote(r)
  {
  }

  type WindowKey = (Option<Day>, string)

  function WindowOf(r: Row): WindowKey {
    (r.filed, Text.RemoveSuffix(r.SourceText(), " table"))
  }

  predicate InWindow(r: Row, key: WindowKey) {
    r.component.None? && FromNote(r) && WindowOf(r) == key
  }

  /** The unflagged note rows of one filing date and note. */
  function Window(rows: seq<Row>, key: WindowKey): seq<Row> {
    Filter(rows, (r: Row) => InWindow(r, key))
  }

  /** The backfill flags this row: an unflagged table row whose window matches a headline. */
  predicate LegacyHit(r: Row, rows: seq<Row>) {
    InWindow(r, WindowOf(r)) && IsFiscalTable(r) && Match(Window(rows, WindowOf(r))).Some?
  }

  function LegacyFlagged(r: Row, rows: seq<Row>): Row {
    if LegacyHit(r, rows) then
      var window := Window(rows, WindowOf(r));
      AsComponent(r, window[Match(window).value])
    else r
  }

  function LegacyFlags(rows: seq<Row>): (r: seq<Row>)
    ensures |r| == |rows| && forall i | 0 <= i < |rows| :: r[i] == LegacyFlagged(rows[i], rows)
  {
    seq(|rows|, i requires 0 <= i < |rows| => LegacyFlagged(rows[i], rows))
  }

  /** windows holds, per (date, note), the unflagged note rows of the entries, in order. */
  ghost predicate Windowed(entries: seq<Entry>, order: seq<WindowKey>, windows: map<WindowKey, seq<Entry>>)
    reads *
  {
    && (forall k :: k in order <==> k in windows)
    && (forall i, j | 0 <= i < j < |order| :: order[i] != order[j])
    && (forall k | k in windows :: Ordering.Distinct(windows[k]) && Rows(windows[k]) == Window(Rows(entries), k))
    && (forall k | k in windows :: forall e | e in windows[k] :: e in entries && InWindow(e.row, k))
    && (forall e | e in entries && InWindow(e.row, WindowOf(e.row)) ::
          WindowOf(e.row) in windows && e in windows[WindowOf(e.row)])
  }

  lemma RowsSnoc(entries: seq<Entry>, e: Entry)
    ensures Rows(entries + [e]) == Rows(entries) + [e.row]
  {
  }

  lemma WindowSnoc(entries: seq<Entry>, e: Entry, k: WindowKey)
    ensures Window(Rows(entries + [e]), k) == Window(Rows(entries), k) + (if InWindow(e.row, k) then [e.row] else [])
  {
    RowsSnoc(entries, e);
    FilterSnoc(Rows(entries), e.row, (r: Row) => InWindow(r, k));
  }

  lemma UnseenWindowEmpty(entries: seq<Entry>, order: seq<WindowKey>, windows: map<WindowKey, seq<Entry>>, k: WindowKey)
    requires Windowed(entries, order, windows) && k !in windows
    ensures Window(Rows(entries), k) == []
  {
    forall r | r in Rows(entries)
      ensures !InWindow(r, k)
    {
      var i :| 0 <= i < |entries| && Rows(entries)[i] == r;
      assert entries[i] in entries;
    }
    FilterNone(Rows(entries), (r: Row) => InWindow(r, k));
  }

  method AddToWindow(ghost seen: seq<Entry>, e: Entry, order: seq<WindowKey>, windows: map<WindowKey, seq<Entry>>)
    returns (order': seq<WindowKey>, windows': map<WindowKey, seq<Entry>>)
    requires Windowed(seen, order, windows) && e !in seen
    ensures Windowed(seen + [e], order', windows')
  {
    hide FromNote, WindowOf, Window;
    order', windows' := order, windows;
    var key := WindowOf(e.row);
    forall k
      ensures Window(Rows(seen + [e]), k) == Window(Rows(seen), k) + (if InWindow(e.row, k) then [e.row] else [])
    {
      WindowSnoc(seen, e, k);
    }
    if e.row.component.None? && FromNote(e.row) {
      if key in windows {
        RowsSnoc(windows[key], e);
        windows' := windows[key := windows[key] + [e]];
      } else {
        UnseenWindowEmpty(seen, order, windows, key);
        RowsSnoc([], e);
        order' := order + [key];
        windows' := windows[key := [e]];
      }
    }
  }

  method LegacyWindows(entries: seq<Entry>) returns (order: seq<WindowKey>, windows: map<WindowKey, seq<Entry>>)
    requires Ordering.Distinct(entries)
    ensures Windowed(entries, order, windows)
  {
    hide FromNote, WindowOf;
    order, windows := [], map[];
    for i := 0 to |entries|
      invariant Windowed(entries[..i], order, windows)
    {
      assert entries[..i + 1] == entries[..i] + [entries[i]];
      order, windows := AddToWindow(entries[..i], entries[i], order, windows);
    }
    assert entries[..|entries|] == entries;
  }

  ghost function FlaggedBy(r: Row, window: seq<Row>, best: Option<nat>): Row
    requires best.Some? ==> best.value < |window|
  {
    if best.Some? && IsFiscalTable(r) then AsComponent(r, window[best.value]) else r
  }

  /** Backfill the flags of one window; only its table rows can change. */
  method FlagWindow(window: seq<Entry>)
    requires Ordering.Distinct(window)
    modifies set e | e in window
    ensures var rows := old(Rows(window));
      forall e | e in window :: e.row == FlaggedBy(old(e.row), rows, Match(rows))
  {
    hide IsFiscalTable, IsHeadline;
    ghost var rows := Rows(window);
    var total, _ := SumTable(window);
    if total == 0.0 {
      return;
    }
    var best := Closest(window, total);
    if best.Some? {
      var headline := window[best.value].row;
      for i := 0 to |window|
        invariant forall j | 0 <= j < i :: window[j].row == FlaggedBy(rows[j], rows, best)
        invariant forall j | i <= j < |window| :: window[j].row == rows[j]
      {
        if IsFiscalTable(window[i].row) {
          window[i].row := AsComponent(window[i].row, headline);
        }
      }
    }
  }

  lemma FlaggedInWindow(r: Row, rows: seq<Row>)
    requires InWindow(r, WindowOf(r))
    ensures var window := Window(rows, WindowOf(r));
      LegacyFlagged(r, rows) == FlaggedBy(r, window, Match(window))
  {
    hide IsFiscalTable, FromNote, WindowOf, Match, Window;
  }

  lemma OutsideWindows(r: Row, rows: seq<Row>)
    requires !InWindow(r, WindowOf(r))
    ensures LegacyFlagged(r, rows) == r
  {
    hide IsFiscalTable, FromNote, WindowOf, Match, Window;
  }

  lemma InWindowIsOwn(r: Row, key: WindowKey)
    requires InWindow(r, key)
    ensures WindowOf(r) == key
  {
  }

  method FlagWindows(entries: seq<Entry>, order: seq<WindowKey>, windows: map<WindowKey, seq<Entry>>,
                     ghost base: seq<Row>)
    requires base == Rows(entries) && Windowed(entries, order, windows)
    modifies set e | e in entries
    ensures forall e | e in entries :: e.row == LegacyFlagged(old(e.row), base)
  {
    hide LegacyFlagged, FlaggedBy, InWindow, WindowOf, Match, Window;
    for i := 0 to |order|
      invariant forall e | e in entries :: e.row == FlaggedIn(old(e.row), base, order[..i])
    {
      var key := order[i];
      var window := windows[key];
      assert key !in order[..i];
      forall e | e in window
        ensures e in entries && WindowOf(old(e.row)) == key && e.row == old(e.row)
        ensures LegacyFlagged(old(e.row), base) == FlaggedBy(old(e.row), Window(base, key), Match(Window(base, key)))
      {
        InWindowIsOwn(old(e.row), key);
        FlaggedInWindow(old(e.row), base);
      }
      assert Rows(window) == Window(base, key);
      FlagWindow(window);
      assert order[..i + 1] == order[..i] + [key];
      forall e | e in entries && e !in window && WindowOf(old(e.row)) == key
        ensures LegacyFlagged(old(e.row), base) == old(e.row)
      {
        OutsideWindows(old(e.row), base);
      }
    }
    assert order[..|order|] == order;
    forall e | e in entries && WindowOf(old(e.row)) !in order
      ensures LegacyFlagged(old(e.row), base) == old(e.row)
    {
      OutsideWindows(old(e.row), base);
    }
  }

  method ApplyLegacyFlags(entries: seq<Entry>)
    requires Ordering.Distinct(entries)
    modifies set e | e in entries
    ensures Rows(entries) == LegacyFlags(old(Rows(entries)))
  {
    ghost var base := Rows(entries);
    var order, windows := LegacyWindows(entries);
    FlagWindows(entries, order, windows, base);
    hide *;
    forall i | 0 <= i < |entries|
      ensures entries[i].row == LegacyFlagged(base[i], base)
    {
      assert entries[i] in entries && base[i] == old(entries[i].row);
    }
  }

  ghost function FlaggedIn(r: Row, rows: seq<Row>, keys: seq<WindowKey>): Row {
    if WindowOf(r) in keys then LegacyFlagged(r, rows) else r
  }

  lemma {:induction false} NoTableNoTotal(rows: seq<Row>)
    requires forall r | r in rows :: !IsFiscalTable(r)
    ensures TableTotal(rows) == 0.0
  {
    if rows != [] {
      NoTableNoTotal(rows[..|rows| - 1]);
      assert Last(rows) in rows;
    }
  }

  /** Rows that are neither table nor headline do not matter to a match. */
  lemma {:induction false} TotalOfNoteRows(rows: seq<Row>, p: Row -> bool)
    requires forall r | r in rows && (IsFiscalTable(r) || IsHeadline(r)) :: p(r)
    ensures TableTotal(Filter(rows, p)) == TableTotal(rows)
  {
    if rows != [] {
      var n := |rows| - 1;
      assert rows == rows[..n] + [rows[n]];
      FilterSnoc(rows[..n], rows[n], p);
      TotalOfNoteRows(rows[..n], p);
      var kept := Filter(rows[..n], p);
      assert (kept + [rows[n]])[..|kept|] == kept;
      assert kept + [] == kept;
    }
  }

  lemma CloseMeansMatch(rows: seq<Row>, h: Row)
    requires h in rows && TableTotal(rows) > 0.0 && Close(h, TableTotal(rows))
    ensures Match(rows).Some?
  {
    hide IsFiscalTable, IsHeadline;
    var gaps := Gaps(rows, TableTotal(rows));
    var i :| 0 <= i < |rows| && rows[i] == h;
    assert gaps[i] == GapIfClose(h, TableTotal(rows));
    ArgMinIsLeast(gaps);
  }

  lemma UnmatchedStaysUnmatched(rows: seq<Row>, key: WindowKey)
    requires forall r | r in rows && FromNote(r) :: InWindow(r, key)
    requires Match(rows).None?
    ensures Match(Window(rows, key)).None?
  {
    hide IsFiscalTable, IsHeadline, FromNote, InWindow;
    forall r | r in rows && (IsFiscalTable(r) || IsHeadline(r))
      ensures InWindow(r, key)
    {
      NoteRowIsFromNote(r);
    }
    var window := Window(rows, key);
    TotalOfNoteRows(rows, (r: Row) => InWindow(r, key));
    MatchIsClosest(window);
    if Match(window).Some? {
      CloseMeansMatch(rows, window[Match(window).value]);
    }
  }

  lemma MatchedLeavesNoTable(rows: seq<Row>, key: WindowKey)
    requires Match(rows).Some?
    ensures Match(Window(Reconciled(rows), key)).None?
  {
    hide IsFiscalTable, IsHeadline, FromNote;
    var window := Window(Reconciled(rows), key);
    ReconciledKeepsText(rows);
    forall r | r in window
      ensures !IsFiscalTable(r)
    {
      var i :| 0 <= i < |rows| && Reconciled(rows)[i] == r;
      TextDecides(rows[i], r);
    }
    NoTableNoTotal(window);
  }

  /** Over a window that was just reconciled, of one note and date, the backfill adds no flag. */
  lemma LegacyAddsNothing(rows: seq<Row>, key: WindowKey)
    requires forall r | r in rows :: r.component.None? && (FromNote(r) ==> WindowOf(r) == key)
    ensures LegacyFlags(Reconciled(rows)) == Reconciled(rows)
  {
    hide IsFiscalTable, IsHeadline, FromNote;
    var out := Reconciled(rows);
    if Match(rows).Some? {
      MatchedLeavesNoTable(rows, key);
    } else {
      UnmatchedStaysUnmatched(rows, key);
    }
    ReconciledKeepsText(rows);
    forall i | 0 <= i < |out|
      ensures LegacyFlagged(out[i], out) == out[i]
    {
      assert rows[i] in rows;
      SameNote(rows[i], out[i]);
    }
  }

  lemma SameNote(a: Row, b: Row)
    requires SameText(a, b)
    ensures FromNote(a) == FromNote(b) && WindowOf(b).1 == WindowOf(a).1
  {
  }
}
