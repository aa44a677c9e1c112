/**
 The current snapshot (app/obligations.py): the latest filing per (type, layer), plus every live
 quantified 8-K row; reconciled components never enter.
 */
module Snapshot {
  import opened Wrappers
  import opened Ledger
  import opened Lifecycle

  type BestKey = (Option<string>, Layer)

  function KeyOf(r: Row): BestKey {
    (r.kind, r.Layer())
  }

  /** A later filing of the same type in the same layer, component rows included. */
  predicate Superseded(r: Row, rows: seq<Row>) {
    exists s | s in rows :: KeyOf(s) == KeyOf(r) && Later(s.filed, r.filed)
  }

  predicate Keep(r: Row, rows: seq<Row>) {
    && !r.IsComponent()
    && if r.Layer() == EightK
       then !r.amount.Absent? && r.standing != Some(Terminated) && r.standing != Some(Unknown)
       else r.filed.Some? && !Superseded(r, rows)
  }

  /** Row i of the ledger, once stamped, is in the snapshot. */
  predicate InSnapshot(rows: seq<Row>, i: nat)
    requires i < |rows|
  {
    Keep(Stamp(rows[i], rows), rows)
  }

  function Flags(rows: seq<Row>): (keep: seq<bool>)
    ensures |keep| == |rows| && forall i | 0 <= i < |rows| :: keep[i] == InSnapshot(rows, i)
  {
    seq(|rows|, i requires 0 <= i < |rows| => InSnapshot(rows, i))
  }

  /** The snapshot of a ledger, as values. */
  function Of(rows: seq<Row>): seq<Row> {
    Select(StampAll(rows), Flags(rows))
  }

  /** best maps each non-8-K (type, layer) to its latest filing date. */
  ghost predicate IsBest(best: map<BestKey, Day>, rows: seq<Row>) {
    && (forall r | r in rows && r.Layer() != EightK && r.filed.Some? ::
          KeyOf(r) in best && r.filed.value <= best[KeyOf(r)])
    && (forall k | k in best :: exists r | r in rows :: KeyOf(r) == k && r.filed == Some(best[k]))
  }

  lemma NothingBest()
    ensures IsBest(map[], [])
  {
  }

  /** A row raises the best date of its key, or leaves the table as it is. */
  lemma BestSnoc(best: map<BestKey, Day>, rows: seq<Row>, row: Row)
    requires IsBest(best, rows)
    ensures var raises := row.Layer() != EightK && row.filed.Some? &&
                          (KeyOf(row) !in best || row.filed.value > best[KeyOf(row)]);
      IsBest(if raises then best[KeyOf(row) := row.filed.value] else best, rows + [row])
  {
    hide LayerOf, KeyOf;
    var key := KeyOf(row);
    var raises := row.Layer() != EightK && row.filed.Some? && (key !in best || row.filed.value > best[key]);
    var after := if raises then best[key := row.filed.value] else best;
    assert row in rows + [row];
    forall k | k in after
      ensures exists r | r in rows + [row] :: KeyOf(r) == k && r.filed == Some(after[k])
    {
      if !(raises && k == key) {
        var r :| r in rows && KeyOf(r) == k && r.filed == Some(best[k]);
        assert r in rows + [row];
      }
    }
  }

  method BestFiled(entries: seq<Entry>) returns (best: map<BestKey, Day>)
    ensures IsBest(best, Rows(entries))
  {
    hide IsBest;
    ghost var rows := Rows(entries);
    best := map[];
    assert IsBest(map[], rows[..0]) by {
      NothingBest();
    }
    for i := 0 to |entries|
      invariant IsBest(best, rows[..i])
    {
      var row := entries[i].row;
      assert rows[..i + 1] == rows[..i] + [row];
      BestSnoc(best, rows[..i], row);
      if row.Layer() != EightK && row.filed.Some? {
        var key := KeyOf(row);
        if key !in best || row.filed.value > best[key] {
          best := best[key := row.filed.value];
        }
      }
    }
    assert rows[..|entries|] == rows;
  }

  lemma BestMeansNotSuperseded(r: Row, rows: seq<Row>, best: map<BestKey, Day>)
    requires IsBest(best, rows) && r in rows && r.Layer() != EightK && r.filed.Some?
    ensures best[KeyOf(r)] == r.filed.value <==> !Superseded(r, rows)
  {
    var top :| top in rows && KeyOf(top) == KeyOf(r) && top.filed == Some(best[KeyOf(r)]);
  }

  /** The filter as the original writes it, against the table of best dates. */
  predicate KeepRow(row: Row, best: map<BestKey, Day>) {
    if row.IsComponent() then false
    else if row.Layer() == EightK then
      !row.amount.Absent? && row.standing != Some(Terminated) && row.standing != Some(Unknown)
    else
      row.filed.Some? && KeyOf(row) in best && row.filed.value == best[KeyOf(row)]
  }

  lemma KeepRowDecides(r: Row, rows: seq<Row>, best: map<BestKey, Day>)
    requires IsBest(best, rows) && r in rows
    ensures KeepRow(Stamp(r, rows), best) == Keep(Stamp(r, rows), rows)
  {
    var row := Stamp(r, rows);
    assert KeyOf(row) == KeyOf(r) && row.filed == r.filed;
    if r.Layer() != EightK && r.filed.Some? {
      BestMeansNotSuperseded(r, rows, best);
      assert Superseded(row, rows) == Superseded(r, rows);
    }
  }

  method KeepEntries(entries: seq<Entry>, best: map<BestKey, Day>, ghost keep: seq<bool>)
    returns (snapshot: seq<Entry>)
    requires |keep| == |entries| && forall i | 0 <= i < |entries| :: KeepRow(entries[i].row, best) == keep[i]
    ensures snapshot == Select(entries, keep)
  {
    snapshot := [];
    for i := 0 to |entries|
      invariant snapshot == Select(entries[..i], keep[..i])
    {
      assert entries[..i + 1] == entries[..i] + [entries[i]] && keep[..i + 1] == keep[..i] + [keep[i]];
      SelectSnoc(entries[..i], keep[..i], entries[i], keep[i]);
      if KeepRow(entries[i].row, best) {
        snapshot := snapshot + [entries[i]];
      }
    }
    assert entries[..|entries|] == entries && keep[..|entries|] == keep;
  }

  /** Stamp the ledger in place and return the kept rows: references, in ledger order. */
  method CurrentSnapshot(entries: seq<Entry>) returns (snapshot: seq<Entry>)
    modifies set e | e in entries
    ensures Rows(entries) == StampAll(old(Rows(entries)))
    ensures snapshot == Select(entries, Flags(old(Rows(entries))))
  {
    ghost var base := Rows(entries);
    var best := BestFiled(entries);
    ResolveLifecycle(entries);
    forall i | 0 <= i < |entries|
      ensures KeepRow(entries[i].row, best) == Flags(base)[i]
    {
      assert entries[i].row == Rows(entries)[i] == StampAll(base)[i];
      assert base[i] in base;
      KeepRowDecides(base[i], base, best);
    }
    snapshot := KeepEntries(entries, best, Flags(base));
  }

  /** The returned references hold exactly the rows of the snapshot as values. */
  lemma {:induction false} SelectedRows(entries: seq<Entry>, keep: seq<bool>)
    requires |keep| == |entries|
    ensures Rows(Select(entries, keep)) == Select(Rows(entries), keep)
  {
    if entries != [] {
      SelectedRows(entries[1..], keep[1..]);
      assert Rows(entries)[1..] == Rows(entries[1..]);
      var tail := Select(entries[1..], keep[1..]);
      assert Rows([entries[0]] + tail) == [entries[0].row] + Rows(tail);
    }
  }

  /**
   What the stamps and the filter come to for a quantified, non-component 8-K row: it is current
   unless it is itself a termination, or a strictly later termination or quantified amendment
   names its agreement. Rows without an agreement key are decided by themselves alone.
   */
  lemma Live8KClosedForm(rows: seq<Row>, i: nat)
    requires i < |rows| && rows[i].Layer() == EightK && rows[i].Positive() && !rows[i].IsComponent()
    ensures InSnapshot(rows, i) <==>
      && rows[i].mark != Termination
      && (rows[i].agreementKey.Some? ==>
            !exists m | m in rows ::
              && m.Layer() == EightK && m.agreementKey == rows[i].agreementKey && Later(m.filed, rows[i].filed)
              && (|| (m.mark == Termination && (m.Positive() || m.amount.Absent?))
                  || (m.mark == Amendment && m.Positive())))
  {
    var r := rows[i];
    assert Eligible(r);
    if exists m | m in rows ::
      && m.Layer() == EightK && m.agreementKey == r.agreementKey && Later(m.filed, r.filed)
      && ((m.mark == Termination && (m.Positive() || m.amount.Absent?)) || (m.mark == Amendment && m.Positive()))
    {
      var m :| m in rows && m.Layer() == EightK && m.agreementKey == r.agreementKey && Later(m.filed, r.filed)
        && ((m.mark == Termination && (m.Positive() || m.amount.Absent?)) || (m.mark == Amendment && m.Positive()));
      assert Carries(m, Termination, Any) || Carries(m, Amendment, Quantified);
      assert Eligible(m);
    }
  }

  /**
   Whether a (type, layer) outside 8-K has any snapshot row at all: iff some row filed on its best
   date is no component.
   */
  lemma KeyIsShown(rows: seq<Row>, best: map<BestKey, Day>, key: BestKey)
    requires IsBest(best, rows) && key.1 != EightK
    ensures (exists i | 0 <= i < |rows| :: KeyOf(rows[i]) == key && InSnapshot(rows, i)) <==>
      (exists r | r in rows :: KeyOf(r) == key && key in best && r.filed == Some(best[key]) && !r.IsComponent())
  {
    if i :| 0 <= i < |rows| && KeyOf(rows[i]) == key && InSnapshot(rows, i) {
      assert rows[i] in rows;
      BestMeansNotSuperseded(rows[i], rows, best);
    }
    if r :| r in rows && KeyOf(r) == key && key in best && r.filed == Some(best[key]) && !r.IsComponent() {
      var i :| 0 <= i < |rows| && rows[i] == r;
      BestMeansNotSuperseded(r, rows, best);
      assert InSnapshot(rows, i);
    }
  }

  /** No filing of a type and layer need be current: the best-dated row may be a component. */
  lemma BestMayBeComponent()
    ensures exists rows: seq<Row> :: |rows| == 2 && KeyOf(rows[0]) == KeyOf(rows[1]) && Of(rows) == []
  {
    var older := Row(true, Some("debt"), None, Num(1.0), Some(1), None, NoMark, None, None, None, None, None, None,
                     false, false, None, None, false, "T", "a");
    var newer := older.(filed := Some(2), component := Some(true));
    var rows := [older, newer];
    assert newer in rows && Superseded(older, rows);
    assert Stamp(older, rows) == older && Stamp(newer, rows) == newer;
    assert StampAll(rows) == rows && Flags(rows) == [false, false];
    assert Select(rows[1..], [false]) == [];
    assert Of(rows) == [];
  }
}
