/** The rules of the ledger in terms of the fields of its rows alone (app/obligations.py). */
module LedgerTerms {
  import opened Wrappers
  import opened Ledger
  import opened Lifecycle
  import opened Persist
  import Dedup
  import Reconcile
  import Replay
  import RoundTrip
  import Rounding
  import Snapshot
  import Text
  import Valuation

  // ---------------------------------------------------------------- layers and dates

  ghost predicate OccursIn(part: string, s: string) {
    exists before, after :: s == before + part + after
  }

  lemma ContainsIs(s: string, part: string)
    ensures Text.Contains(s, part) <==> OccursIn(part, s)
  {
    if Text.Contains(s, part) {
      var i :| 0 <= i <= |s| && part <= s[i..];
      assert s == s[..i] + part + s[i + |part|..];
    }
    if OccursIn(part, s) {
      var before, after :| s == before + part + after;
      assert s[|before|..] == part + after;
    }
  }

  /** The layer of a row, from its concept, type and source alone, the first that applies. */
  lemma LayerIs(r: Row)
    ensures r.Layer() ==
      if r.concept then Xbrl
      else if (r.kind.Some? && |r.kind.value| >= 3 && r.kind.value[..3] == "8k_") ||
              (r.source.Some? && OccursIn("8-K", r.source.value)) then EightK
      else if r.source.Some? && OccursIn("balance sheet", Text.Lower(r.source.value)) then Balance
      else Note
  {
    hide Text.Contains, Text.Lower, OccursIn;
    ContainsIs(r.SourceText(), "8-K");
    ContainsIs(Text.Lower(r.SourceText()), "balance sheet");
    if r.source.None? {
      NothingOccurs("8-K");
      NothingOccurs("balance sheet");
    }
    assert var kind := if r.kind.Some? then r.kind.value else "";
      "8k_" <= kind <==> |kind| >= 3 && kind[..3] == "8k_";
  }

  lemma NothingOccurs(part: string)
    requires part != ""
    ensures !OccursIn(part, "") && Text.Lower("") == ""
  {
  }

  // ---------------------------------------------------------------- lifecycle

  /** A row takes part in stamping: an 8-K row with a positive amount, or a mark without any. */
  lemma WhoIsStamped(r: Row)
    ensures Eligible(r) <==>
      r.Layer() == EightK && ((r.amount.Num? && r.amount.value > 0.0) || (r.amount.Absent? && r.mark != NoMark))
  {
    hide LayerOf;
  }

  /** Row m is a later row of r's agreement, 8-K, filed strictly after it (a blank date is before all). */
  ghost predicate IsLaterOfAgreement(m: Row, r: Row) {
    && m.Layer() == EightK && m.agreementKey == r.agreementKey
    && m.filed.Some? && (r.filed.None? || m.filed.value > r.filed.value)
  }

  ghost predicate IsQuantified(m: Row) {
    m.amount.Num? && m.amount.value > 0.0
  }

  /** The status of every row after stamping, by the marks of the ledger. */
  lemma StatusIs(r: Row, rows: seq<Row>)
    ensures !Eligible(r) ==> Stamp(r, rows) == r
    ensures Eligible(r) ==>
      var s := Stamp(r, rows);
      var named := r.mark != Termination && r.agreementKey.Some? && IsQuantified(r);
      && s == r.(standing := s.standing)
      && (s.standing == Some(Terminated) <==> r.mark == Termination)
      && (s.standing == Some(Unknown) <==> named && EndedLater(r, rows))
      && (s.standing == Some(Amended) <==> named && !EndedLater(r, rows) && AmendedLater(r, rows))
  {
    hide LayerOf;
    if Eligible(r) {
      LaterMarksAre(r, rows);
    }
  }

  /** A later termination of the agreement, quantified or bare, or a later quantified amendment. */
  ghost predicate EndedLater(r: Row, rows: seq<Row>) {
    exists m | m in rows :: IsLaterOfAgreement(m, r) &&
      ((m.mark == Termination && (IsQuantified(m) || m.amount.Absent?)) || (m.mark == Amendment && IsQuantified(m)))
  }

  /** A later amendment of the agreement without an amount. */
  ghost predicate AmendedLater(r: Row, rows: seq<Row>) {
    exists m | m in rows :: IsLaterOfAgreement(m, r) && m.mark == Amendment && m.amount.Absent?
  }

  lemma LaterMarksAre(r: Row, rows: seq<Row>)
    ensures LaterMark(r, rows, Termination, Any) || LaterMark(r, rows, Amendment, Quantified) <==> EndedLater(r, rows)
    ensures LaterMark(r, rows, Amendment, Amountless) <==> AmendedLater(r, rows)
  {
    hide LayerOf;
    if EndedLater(r, rows) {
      var m :| m in rows && IsLaterOfAgreement(m, r) &&
        ((m.mark == Termination && (IsQuantified(m) || m.amount.Absent?)) || (m.mark == Amendment && IsQuantified(m)));
      assert Eligible(m) && (Carries(m, Termination, Any) || Carries(m, Amendment, Quantified));
    }
    if AmendedLater(r, rows) {
      var m :| m in rows && IsLaterOfAgreement(m, r) && m.mark == Amendment && m.amount.Absent?;
      assert Eligible(m) && Carries(m, Amendment, Amountless);
    }
  }

  // ---------------------------------------------------------------- snapshot

  /** Which rows are current: outside 8-K the last filings of a type and layer, of 8-K those with a live status. */
  lemma CurrentIs(rows: seq<Row>, i: nat)
    requires i < |rows|
    ensures Snapshot.InSnapshot(rows, i) <==>
      var r := rows[i];
      && r.component != Some(true)
      && if r.Layer() == EightK then
           r.amount != Absent && Stamp(r, rows).standing !in [Some(Terminated), Some(Unknown)]
         else
           r.filed.Some? && forall s | s in rows && s.kind == r.kind && s.Layer() == r.Layer() && s.filed.Some? ::
             s.filed.value <= r.filed.value
  {
    hide LayerOf, StandingOf, Eligible, Snapshot.Superseded;
    if rows[i].filed.Some? {
      SupersededIs(Stamp(rows[i], rows), rows);
    }
  }

  lemma SupersededIs(r: Row, rows: seq<Row>)
    requires r.filed.Some?
    ensures !Snapshot.Superseded(r, rows) <==>
      forall s | s in rows && s.kind == r.kind && s.Layer() == r.Layer() && s.filed.Some? :: s.filed.value <= r.filed.value
  {
    hide LayerOf;
  }

  /** The selection is the kept positions, in order. */
  ghost predicate Lists<T>(selection: seq<T>, xs: seq<T>, keep: seq<bool>, positions: seq<nat>)
    requires |keep| == |xs|
  {
    && |positions| == |selection|
    && (forall k | 0 <= k < |positions| :: positions[k] < |xs| && keep[positions[k]] && selection[k] == xs[positions[k]])
    && (forall k, l | 0 <= k < l < |positions| :: positions[k] < positions[l])
    && (forall i: nat | i < |xs| && keep[i] :: i in positions)
  }

  lemma {:induction false} SelectionPositions<T>(xs: seq<T>, keep: seq<bool>) returns (positions: seq<nat>)
    requires |keep| == |xs|
    ensures Lists(Select(xs, keep), xs, keep, positions)
  {
    hide Lists;
    if xs == [] {
      positions := [];
      assert Lists([], xs, keep, positions) by {
        NothingListed(xs, keep);
      }
    } else {
      var n := |xs| - 1;
      assert xs == xs[..n] + [xs[n]] && keep == keep[..n] + [keep[n]];
      SelectSnoc(xs[..n], keep[..n], xs[n], keep[n]);
      var front := SelectionPositions(xs[..n], keep[..n]);
      positions := front + if keep[n] then [n] else [];
      ListsSnoc(Select(xs[..n], keep[..n]), xs, keep, front);
    }
  }

  lemma NothingListed<T>(xs: seq<T>, keep: seq<bool>)
    requires |keep| == |xs| == 0
    ensures Lists([], xs, keep, [])
  {
  }

  lemma ListsSnoc<T>(selection: seq<T>, xs: seq<T>, keep: seq<bool>, positions: seq<nat>)
    requires |keep| == |xs| > 0
    requires var n := |xs| - 1; Lists(selection, xs[..n], keep[..n], positions)
    ensures var n := |xs| - 1;
      Lists(selection + (if keep[n] then [xs[n]] else []), xs, keep, positions + (if keep[n] then [n] else []))
  {
    var n := |xs| - 1;
    forall i: nat | i < n && keep[i]
      ensures i in positions
    {
      assert keep[..n][i];
    }
  }

  // ---------------------------------------------------------------- deduplication

  /** What makes two rows the same: a bare mark by its facts, a positive amount by type, cents, date and year. */
  lemma SameKeyIs(r: Row, s: Row)
    ensures Dedup.KeyOf(r).Some? <==> (r.amount == Absent && r.mark != NoMark) || IsQuantified(r)
    ensures Dedup.KeyOf(r).Some? ==>
      (Dedup.KeyOf(r) == Dedup.KeyOf(s) <==>
        if r.amount == Absent then
          s.amount == Absent && r.kind == s.kind && r.filed == s.filed && r.agreementKey == s.agreementKey && r.mark == s.mark
        else
          && IsQuantified(s) && r.filed == s.filed
          && (if r.kind.Some? then r.kind.value else "") == (if s.kind.Some? then s.kind.value else "")
          && (if r.fiscalYear.Some? then r.fiscalYear.value else "") ==
             (if s.fiscalYear.Some? then s.fiscalYear.value else "")
          && Rounding.ToInt(r.amount.value * 100.0) == Rounding.ToInt(s.amount.value * 100.0))
  {
    hide Rounding.ToInt;
  }

  // ---------------------------------------------------------------- persisting and replaying

  /** Everything a rebuilt row says, field by field. */
  lemma RebuiltIs(e: Event, evidence: seq<Evidence>)
    ensures var r := Rebuilt(e, evidence);
      && r.ticker == e.id.ticker && r.contentHash == e.id.contentHash && r.kind == Some(e.kind) && r.source == e.source
      && r.amount == (if e.amount.Some? then Num(e.amount.value) else Absent) && r.filed == Some(e.filed)
      && r.agreementKey == e.agreementKey && r.mark == e.mark && r.component == e.component
      && r.headlineKind == e.headlineKind && r.fiscalYear == e.fiscalYear && r.certainty == e.certainty
      && r.status == e.status && r.revenueMatched == e.revenueMatched && r.defaultTriggered == e.defaultTriggered
      && r.standing == None && !r.proxied && r.schedule == e.scheduleJson
      && (r.concept <==> exists k: nat :: IsFirstOf(evidence, e.id, k) && evidence[k].xbrlFact)
  {
    hide RebuiltHorizon;
    FirstEvidenceDecides(evidence, e.id);
  }

  /** Evidence k is the first of this event. */
  ghost predicate IsFirstOf(evidence: seq<Evidence>, id: Id, k: nat) {
    k < |evidence| && evidence[k].event == id && forall j | 0 <= j < k :: evidence[j].event != id
  }

  lemma {:induction false} FirstEvidenceDecides(evidence: seq<Evidence>, id: Id)
    ensures IsXbrl(evidence, id) <==> exists k: nat :: IsFirstOf(evidence, id, k) && evidence[k].xbrlFact
  {
    if evidence != [] {
      FirstEvidenceDecides(evidence[1..], id);
      if evidence[0].event == id {
        assert IsFirstOf(evidence, id, 0);
      } else {
        assert IsXbrl(evidence, id) == IsXbrl(evidence[1..], id);
        forall k: nat
          ensures IsFirstOf(evidence[1..], id, k) <==> IsFirstOf(evidence, id, k + 1)
        {
          LaterFirst(evidence, id, k);
        }
        if k: nat :| IsFirstOf(evidence, id, k) && evidence[k].xbrlFact {
          assert IsFirstOf(evidence[1..], id, k - 1);
        }
      }
    }
  }

  lemma LaterFirst(evidence: seq<Evidence>, id: Id, k: nat)
    requires evidence != [] && evidence[0].event != id
    ensures IsFirstOf(evidence[1..], id, k) <==> IsFirstOf(evidence, id, k + 1)
  {
    if IsFirstOf(evidence[1..], id, k) {
      forall j | 0 <= j < k + 1
        ensures evidence[j].event != id
      {
        if j > 0 {
          assert evidence[j] == evidence[1..][j - 1];
        }
      }
    }
    if IsFirstOf(evidence, id, k + 1) {
      forall j | 0 <= j < k
        ensures evidence[1..][j].event != id
      {
        assert evidence[1..][j] == evidence[j + 1];
      }
    }
  }

  /** What a row becomes once stored and rebuilt: unchanged but for type, schedule, horizon, amount and status. */
  lemma RestoredIs(r: Row)
    requires Persistable(r)
    ensures !r.proxied && r.filed.Some?
    ensures var s := RoundTrip.Restored(r);
      var entries := if r.schedule.Some? && r.schedule.value != [] then r.schedule.value
                     else if r.horizon.Some? then r.horizon.value.schedule else [];
      && s == r.(kind := s.kind, schedule := s.schedule, horizon := s.horizon, amount := s.amount, standing := None)
      && s.kind == (if r.kind.Some? && r.kind.value != "" then r.kind else Some("other"))
      && s.amount == (if r.amount.Num? then r.amount else Absent)
      && s.schedule == (if entries != [] then Some(entries) else None)
      && s.horizon ==
         if entries != [] then Some(Horizon(entries, None, None, None))
         else if r.horizon.Some? && r.horizon.value != Horizon([], None, None, None) then r.horizon
         else None
  {
    var stored := [Evidence(IdOf(r), r.concept)];
    assert Filter(stored, OfEvent(IdOf(r))) == stored;
  }

  /** The replayed rows are the events filed by then that carry an amount or a mark, rebuilt, in store order. */
  lemma ReplayedEvents(store: Store, ticker: string, asOf: Day)
    ensures ReplayRows(store, ticker, asOf) ==
      Map((e: Event) => Rebuilt(e, store.evidence),
          Filter(store.events,
                 (e: Event) => e.id.ticker == ticker && e.filed <= asOf && (e.amount.Some? || e.mark != NoMark)))
  {
    hide Filter, IsXbrl, RebuiltHorizon;
    var early, rebuild := FiledAsOf(ticker, asOf), Rebuilder(store.evidence);
    var shown := (e: Event) => e.amount.Some? || e.mark != NoMark;
    var both := (e: Event) => e.id.ticker == ticker && e.filed <= asOf && (e.amount.Some? || e.mark != NoMark);
    FilterMap(rebuild, Filter(store.events, early), shown, HasAmountOrMark);
    FilterFilter(store.events, early, shown, both);
    var kept := Filter(store.events, both);
    assert Map(rebuild, kept) == Map((e: Event) => Rebuilt(e, store.evidence), kept);
  }

  /** So a row is replayed iff it is such an event, rebuilt. */
  lemma ReplayedIff(store: Store, ticker: string, asOf: Day, r: Row)
    ensures r in ReplayRows(store, ticker, asOf) <==>
      exists e | e in store.events :: e.id.ticker == ticker && e.filed <= asOf && (e.amount.Some? || e.mark != NoMark) &&
        r == Rebuilt(e, store.evidence)
  {
    hide Rebuilt, ReplayRows;
    ReplayedEvents(store, ticker, asOf);
    var both := (e: Event) => e.id.ticker == ticker && e.filed <= asOf && (e.amount.Some? || e.mark != NoMark);
    var kept := Filter(store.events, both);
    if e :| e in store.events && both(e) && r == Rebuilt(e, store.evidence) {
      var i :| 0 <= i < |kept| && kept[i] == e;
      assert ReplayRows(store, ticker, asOf)[i] == r;
    }
  }

  /** An exposure with neither amount nor mark, stored anywhere with its evidence, leaves the picture as it was. */
  lemma UnquantifiedAddsNothing(before: Store, after: Store, e: Event, v: Evidence, i: nat, k: nat, ticker: string, asOf: Day)
    requires i <= |before.events| && after.events == before.events[..i] + [e] + before.events[i..]
    requires k <= |before.evidence| && after.evidence == before.evidence[..k] + [v] + before.evidence[k..]
    requires e.amount == None && e.mark == NoMark && v.event == e.id
    requires forall x | x in before.events :: x.id != e.id
    ensures ReplayRows(after, ticker, asOf) == ReplayRows(before, ticker, asOf)
    ensures ReplaySnapshot(after, ticker, asOf) == ReplaySnapshot(before, ticker, asOf)
  {
    hide ReplayRows, Rebuilt, Filter;
    var both := (e: Event) => e.id.ticker == ticker && e.filed <= asOf && (e.amount.Some? || e.mark != NoMark);
    ReplayedEvents(before, ticker, asOf);
    ReplayedEvents(after, ticker, asOf);
    var kept := Filter(before.events, both);
    assert before.events == before.events[..i] + before.events[i..];
    FilterConcat(before.events[..i], before.events[i..], both);
    FilterConcat(before.events[..i] + [e], before.events[i..], both);
    FilterSnoc(before.events[..i], e, both);
    assert Filter(after.events, both) == kept;
    forall x | x in kept
      ensures Rebuilt(x, after.evidence) == Rebuilt(x, before.evidence)
    {
      OtherEvidence(before.evidence, v, k, x);
    }
    assert ReplayRows(after, ticker, asOf) == ReplayRows(before, ticker, asOf);
  }

  lemma OtherEvidence(evidence: seq<Evidence>, v: Evidence, k: nat, x: Event)
    requires k <= |evidence| && v.event != x.id
    ensures Rebuilt(x, evidence[..k] + [v] + evidence[k..]) == Rebuilt(x, evidence)
  {
    hide RebuiltHorizon, Filter;
    var mine := OfEvent(x.id);
    assert evidence == evidence[..k] + evidence[k..];
    FilterConcat(evidence[..k], evidence[k..], mine);
    FilterConcat(evidence[..k] + [v], evidence[k..], mine);
    FilterSnoc(evidence[..k], v, mine);
  }

  /** Which rows a replay shows: stored, filed by then, and with a number or a mark. */
  lemma VisibleIs(r: Row, asOf: Day)
    ensures RoundTrip.IsVisible(r, asOf) <==>
      !r.proxied && r.filed.Some? && r.filed.value <= asOf && (r.amount.Num? || r.mark != NoMark)
  {
    if r.filed.Some? {
      hide TimingJsons, StoredKind, RebuiltHorizon, IsXbrl;
      assert RoundTrip.Restored(r).mark == r.mark;
    }
  }

  // ---------------------------------------------------------------- reconciliation

  ghost predicate EndsIn(s: string, tail: string) {
    exists before :: s == before + tail
  }

  lemma EndsWithIs(s: string, tail: string)
    ensures Text.EndsWith(s, tail) <==> EndsIn(s, tail)
  {
    if Text.EndsWith(s, tail) {
      assert s == s[..|s| - |tail|] + tail;
    }
  }

  /** A fiscal-year table row, by its source and year text. */
  lemma FiscalTableIs(r: Row)
    ensures Reconcile.IsFiscalTable(r) <==>
      var year := if r.fiscalYear.Some? then r.fiscalYear.value else "";
      && r.source.Some? && EndsIn(r.source.value, "note table")
      && !OccursIn("Due", year) && (OccursIn("20", year) || OccursIn("hereafter", Text.Lower(year)))
  {
    hide Text.Contains, Text.EndsWith, Text.Lower, OccursIn, EndsIn;
    var year := Reconcile.YearText(r);
    ContainsIs(year, "Due");
    ContainsIs(year, "20");
    ContainsIs(Text.Lower(year), "hereafter");
    EndsWithIs(r.SourceText(), "note table");
    NothingEnds("note table");
  }

  lemma NothingEnds(tail: string)
    requires tail != ""
    ensures !EndsIn("", tail)
  {
  }

  /** A headline, and one within a tenth of the table total. */
  lemma HeadlineIs(r: Row, total: real)
    ensures Reconcile.IsHeadline(r) <==> r.source.Some? && EndsIn(r.source.value, " note") && IsQuantified(r)
    ensures total > 0.0 ==>
      (Reconcile.Close(r, total) <==>
        Reconcile.IsHeadline(r) && (total - r.amount.value) * 10.0 < total && (r.amount.value - total) * 10.0 < total)
  {
    hide Text.EndsWith, EndsIn;
    EndsWithIs(r.SourceText(), " note");
    NothingEnds(" note");
    if total > 0.0 && IsQuantified(r) {
      TenthOf(Reconcile.Gap(r, total), total);
    }
  }

  lemma TenthOf(gap: real, total: real)
    requires total > 0.0
    ensures gap / total < 0.1 <==> gap * 10.0 < total
  {
    assert gap == gap / total * total;
    if gap / total < 0.1 {
      Rounding.MulMonotone(gap / total, 0.1, total);
      assert (0.1 - gap / total) * total > 0.0;
    }
  }

  function YearEntry(r: Row): ScheduleEntry {
    ScheduleEntry(if r.fiscalYear.Some? then r.fiscalYear.value else "", if r.amount.Num? then Some(r.amount.value) else None)
  }

  /** The breakdown lists the table rows, in order. */
  lemma {:induction false} BreakdownIs(rows: seq<Row>)
    ensures Reconcile.Breakdown(rows) == Map(YearEntry, Filter(rows, Reconcile.IsFiscalTable))
  {
    hide Reconcile.IsFiscalTable, Filter, Map;
    if rows == [] {
      FilterNone(rows, Reconcile.IsFiscalTable);
      assert Map(YearEntry, []) == [];
    } else {
      var n := |rows| - 1;
      var front, last := rows[..n], rows[n];
      assert rows == front + [last];
      BreakdownIs(front);
      FilterSnoc(front, last, Reconcile.IsFiscalTable);
      var kept, row := Filter(front, Reconcile.IsFiscalTable), if Reconcile.IsFiscalTable(last) then [last] else [];
      MapConcat(YearEntry, kept, row);
      BreakdownSnoc(front, last);
      assert Map(YearEntry, row) == if Reconcile.IsFiscalTable(last) then [YearEntry(last)] else [];
    }
  }

  lemma BreakdownSnoc(rows: seq<Row>, r: Row)
    ensures Reconcile.Breakdown(rows + [r]) ==
      Reconcile.Breakdown(rows) + (if Reconcile.IsFiscalTable(r) then [YearEntry(r)] else [])
  {
    hide Reconcile.IsFiscalTable;
    assert (rows + [r])[..|rows|] == rows;
  }

  lemma NoBreakdown()
    ensures Reconcile.Breakdown([]) == [] && Reconcile.TableTotal([]) == 0.0 && Valuation.ScheduleTotal([]) == 0.0
  {
  }

  /** The table total is the sum of its breakdown where no amount is negative. */
  lemma {:induction false} TotalIsSum(rows: seq<Row>)
    requires forall r | r in rows && r.amount.Num? :: r.amount.value >= 0.0
    ensures Reconcile.TableTotal(rows) == Valuation.ScheduleTotal(Reconcile.Breakdown(rows))
  {
    hide Reconcile.IsFiscalTable, Reconcile.Breakdown, Reconcile.TableTotal, Valuation.ScheduleTotal;
    NoBreakdown();
    if rows != [] {
      var n := |rows| - 1;
      var front, last := rows[..n], rows[n];
      assert rows == front + [last] && last in rows && forall r | r in front :: r in rows;
      TotalIsSum(front);
      BreakdownSnoc(front, last);
      RoundTrip.TotalSnoc(front, last);
      ScheduleSnoc(Reconcile.Breakdown(front), YearEntry(last));
      assert Reconcile.Breakdown(front) + [] == Reconcile.Breakdown(front);
    }
  }

  lemma ScheduleSnoc(entries: seq<ScheduleEntry>, e: ScheduleEntry)
    ensures Valuation.ScheduleTotal(entries + [e]) == Valuation.ScheduleTotal(entries) + Valuation.OrZero(e.amount)
  {
    assert (entries + [e])[..|entries|] == entries;
  }

  /** The note a source belongs to: without " table" at its end. */
  ghost predicate IsNoteOf(note: string, source: string) {
    source == note + " table" || (source == note && !EndsIn(source, " table"))
  }

  /** A backfill window: the unflagged rows of one filing date and note. */
  lemma WindowIs(rows: seq<Row>, r: Row, key: Reconcile.WindowKey)
    ensures r in Reconcile.Window(rows, key) <==>
      var source := if r.source.Some? then r.source.value else "";
      && r in rows && r.component == None && r.filed == key.0 && IsNoteOf(key.1, source)
      && (EndsIn(source, " note") || EndsIn(source, "note table"))
  {
    hide Text.EndsWith, EndsIn;
    var s := r.SourceText();
    EndsWithIs(s, " note");
    EndsWithIs(s, "note table");
    NoteIs(s, key.1);
  }

  lemma NoteIs(source: string, note: string)
    ensures Text.RemoveSuffix(source, " table") == note <==> IsNoteOf(note, source)
  {
    EndsWithIs(source, " table");
    if Text.EndsWith(source, " table") {
      var n := |source| - |" table"|;
      assert source == source[..n] + " table";
      if source == note + " table" {
        assert note == source[..n];
      }
    }
  }

  /** The backfill flags an unflagged table row iff its window has a closest headline, whose type it takes. */
  lemma BackfillIs(r: Row, rows: seq<Row>)
    ensures var window, flagged := Reconcile.Window(rows, Reconcile.WindowOf(r)), Reconcile.LegacyFlagged(r, rows);
      var hit := r.component == None && Reconcile.IsFiscalTable(r) && exists h :: Reconcile.IsClosestHeadline(window, h);
      && (!hit ==> flagged == r)
      && (hit ==> exists h: nat ::
            && h < |window| && Reconcile.IsClosestHeadline(window, h)
            && flagged == r.(component := Some(true), headlineKind := window[h].kind))
  {
    hide Reconcile.IsFiscalTable, Reconcile.FromNote, Reconcile.Match, Reconcile.Window, Reconcile.IsClosestHeadline,
         Reconcile.WindowOf;
    Reconcile.MatchIsClosest(Reconcile.Window(rows, Reconcile.WindowOf(r)));
    if Reconcile.IsFiscalTable(r) {
      Reconcile.NoteRowIsFromNote(r);
    }
  }
}
