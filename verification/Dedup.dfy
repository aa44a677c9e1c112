/** Deduplication of freshly collected rows (app/obligations.py), first occurrence wins. */
module Dedup {
  import opened Wrappers
  import opened Ledger
  import opened Lifecycle
  import Rounding
  import Snapshot

  datatype Key =
    | AmountKey(kind: string, amount: real, filed: Option<Day>, fiscalYear: string)
    | MarkKey(markKind: Option<string>, markFiled: Option<Day>, agreementKey: Option<string>, mark: Mark)

  function TextOr(value: Option<string>): string {
    if value.Some? then value.value else ""
  }

  /** The identity of a row; None for rows that are dropped (no mark and no positive amount). */
  function KeyOf(r: Row): Option<Key> {
    if r.amount.Absent? && r.mark != NoMark then Some(MarkKey(r.kind, r.filed, r.agreementKey, r.mark))
    else if !r.Positive() then None
    else Some(AmountKey(TextOr(r.kind), Rounding.Round(r.amount.value, 100.0), r.filed, TextOr(r.fiscalYear)))
  }

  predicate IsFirst(rows: seq<Row>, i: nat)
    requires i < |rows|
  {
    KeyOf(rows[i]).Some? && forall j | 0 <= j < i :: KeyOf(rows[j]) != KeyOf(rows[i])
  }

  function FirstFlags(rows: seq<Row>): (flags: seq<bool>)
    ensures |flags| == |rows| && forall i | 0 <= i < |rows| :: flags[i] == IsFirst(rows, i)
  {
    seq(|rows|, i requires 0 <= i < |rows| => IsFirst(rows, i))
  }

  /** The rows that carry a key no earlier row carries, in order. */
  function Deduped(rows: seq<Row>): seq<Row> {
    Select(rows, FirstFlags(rows))
  }

  class Sink {
    var seen: set<Key>
    var seenMarks: set<Key>
    var cleaned: seq<Row>

    constructor ()
      ensures seen == {} && seenMarks == {} && cleaned == []
    {
      seen, seenMarks, cleaned := {}, {}, [];
    }

    method AddMark(row: Row, key: Key)
      modifies this
      ensures seen == old(seen) && seenMarks == old(seenMarks) + {key}
      ensures cleaned == old(cleaned) + if key in old(seenMarks) then [] else [row]
    {
      if key in seenMarks {
        return;
      }
      seenMarks := seenMarks + {key};
      cleaned := cleaned + [row];
    }

    method AddQuantified(row: Row, key: Key)
      modifies this
      ensures seenMarks == old(seenMarks) && seen == old(seen) + {key}
      ensures cleaned == old(cleaned) + if key in old(seen) then [] else [row]
    {
      if key in seen {
        return;
      }
      seen := seen + {key};
      cleaned := cleaned + [row];
    }

    method AddRow(row: Row)
      modifies this
      ensures var key := KeyOf(row);
        if key.None? then seen == old(seen) && seenMarks == old(seenMarks) && cleaned == old(cleaned)
        else if key.value.MarkKey? then
          && seen == old(seen) && seenMarks == old(seenMarks) + {key.value}
          && cleaned == old(cleaned) + if key.value in old(seenMarks) then [] else [row]
        else
          && seenMarks == old(seenMarks) && seen == old(seen) + {key.value}
          && cleaned == old(cleaned) + if key.value in old(seen) then [] else [row]
    {
      if row.amount.Absent? && row.mark != NoMark {
        AddMark(row, MarkKey(row.kind, row.filed, row.agreementKey, row.mark));
        return;
      }
      if !row.amount.Num? || row.amount.value <= 0.0 {
        return;
      }
      AddQuantified(row, AmountKey(TextOr(row.kind), Rounding.Round(row.amount.value, 100.0), row.filed,
                                   TextOr(row.fiscalYear)));
    }
  }

  method Dedup(rows: seq<Row>) returns (cleaned: seq<Row>)
    ensures cleaned == Deduped(rows)
  {
    hide KeyOf;
    var sink := new Sink();
    for i := 0 to |rows|
      invariant sink.cleaned == Select(rows[..i], FirstFlags(rows)[..i])
      invariant forall k :: k in sink.seenMarks <==> k.MarkKey? && exists j | 0 <= j < i :: KeyOf(rows[j]) == Some(k)
      invariant forall k :: k in sink.seen <==> k.AmountKey? && exists j | 0 <= j < i :: KeyOf(rows[j]) == Some(k)
    {
      var first := FirstFlags(rows)[i];
      assert rows[..i + 1] == rows[..i] + [rows[i]];
      assert FirstFlags(rows)[..i + 1] == FirstFlags(rows)[..i] + [first];
      SelectSnoc(rows[..i], FirstFlags(rows)[..i], rows[i], first);
      sink.AddRow(rows[i]);
    }
    assert rows[..|rows|] == rows && FirstFlags(rows)[..|rows|] == FirstFlags(rows);
    cleaned := sink.cleaned;
  }

  predicate NoRepeats(rows: seq<Row>) {
    && (forall r | r in rows :: KeyOf(r).Some?)
    && (forall i, j | 0 <= i < j < |rows| :: KeyOf(rows[i]) != KeyOf(rows[j]))
  }

  lemma {:induction false} SelectKeys(rows: seq<Row>, flags: seq<bool>)
    requires |flags| == |rows|
    requires forall i | 0 <= i < |rows| && flags[i] ::
      KeyOf(rows[i]).Some? && forall j | 0 <= j < i :: KeyOf(rows[j]) != KeyOf(rows[i])
    ensures NoRepeats(Select(rows, flags))
  {
    hide KeyOf;
    if rows != [] {
      SelectKeys(rows[1..], flags[1..]);
      var tail := Select(rows[1..], flags[1..]);
      SelectedFrom(rows[1..], flags[1..]);
      forall r | r in tail
        ensures KeyOf(r) != KeyOf(rows[0])
      {
        var i :| 0 <= i < |rows[1..]| && flags[1..][i] && rows[1..][i] == r;
        assert rows[i + 1] == r && flags[i + 1];
      }
    }
  }

  lemma {:induction false} SelectedFrom(rows: seq<Row>, flags: seq<bool>)
    requires |flags| == |rows|
    ensures forall r | r in Select(rows, flags) :: exists i | 0 <= i < |rows| :: flags[i] && rows[i] == r
    ensures forall i | 0 <= i < |rows| && flags[i] :: rows[i] in Select(rows, flags)
  {
    if rows != [] {
      SelectedFrom(rows[1..], flags[1..]);
      forall r | r in Select(rows, flags)
        ensures exists i | 0 <= i < |rows| :: flags[i] && rows[i] == r
      {
        if !(flags[0] && r == rows[0]) {
          var i :| 0 <= i < |rows[1..]| && flags[1..][i] && rows[1..][i] == r;
          assert flags[i + 1] && rows[i + 1] == r;
        }
      }
      forall i | 0 <= i < |rows| && flags[i]
        ensures rows[i] in Select(rows, flags)
      {
        if i > 0 {
          assert rows[1..][i - 1] == rows[i];
        }
      }
    }
  }

  lemma {:induction false} SelectAll<T>(xs: seq<T>, flags: seq<bool>)
    requires |flags| == |xs| && forall i | 0 <= i < |xs| :: flags[i]
    ensures Select(xs, flags) == xs
  {
    if xs != [] {
      SelectAll(xs[1..], flags[1..]);
      assert xs == [xs[0]] + xs[1..];
    }
  }

  /**
   Deduplication keeps one row per key, keeps a row for every key that occurred, leaves only
   quantified rows and lifecycle marks, and does nothing the second time.
   */
  lemma DedupKeepsOnePerKey(rows: seq<Row>)
    ensures NoRepeats(Deduped(rows))
    ensures forall r | r in rows && KeyOf(r).Some? :: exists d | d in Deduped(rows) :: KeyOf(d) == KeyOf(r)
    ensures forall d | d in Deduped(rows) ::
      d in rows && ((d.amount.Num? && d.amount.value > 0.0) || (d.amount.Absent? && d.mark != NoMark))
    ensures Deduped(Deduped(rows)) == Deduped(rows)
  {
    SelectKeys(rows, FirstFlags(rows));
    SelectedFrom(rows, FirstFlags(rows));
    forall r | r in rows && KeyOf(r).Some?
      ensures exists d | d in Deduped(rows) :: KeyOf(d) == KeyOf(r)
    {
      var i :| 0 <= i < |rows| && rows[i] == r;
      var first := FirstWithKey(rows, i);
    }
    SelectAll(Deduped(rows), FirstFlags(Deduped(rows)));
  }

  lemma {:induction false} FirstWithKey(rows: seq<Row>, i: nat) returns (first: nat)
    requires i < |rows| && KeyOf(rows[i]).Some?
    ensures first <= i && KeyOf(rows[first]) == KeyOf(rows[i]) && IsFirst(rows, first)
    decreases i
  {
    if IsFirst(rows, i) {
      first := i;
    } else {
      var j :| 0 <= j < i && KeyOf(rows[j]) == KeyOf(rows[i]);
      first := FirstWithKey(rows, j);
    }
  }

  /** Every row of the input is represented by a kept row of its own agreement. */
  ghost predicate AgreementsKept(rows: seq<Row>) {
    forall r | r in rows && KeyOf(r).Some? ::
      exists d | d in Deduped(rows) :: KeyOf(d) == KeyOf(r) && d.agreementKey == r.agreementKey
  }

  /** Rows that share a deduplication key share their agreement. */
  ghost predicate KeysTellAgreements(rows: seq<Row>) {
    forall r, s | r in rows && s in rows && KeyOf(r).Some? && KeyOf(r) == KeyOf(s) :: r.agreementKey == s.agreementKey
  }

  lemma OneRowPerKey(rows: seq<Row>, a: Row, b: Row)
    requires NoRepeats(rows) && a in rows && b in rows && KeyOf(a) == KeyOf(b)
    ensures a == b
  {
    hide KeyOf;
    var i :| 0 <= i < |rows| && rows[i] == a;
    var j :| 0 <= j < |rows| && rows[j] == b;
  }

  lemma KeptMeansTell(rows: seq<Row>, r: Row, s: Row)
    requires AgreementsKept(rows)
    requires r in rows && s in rows && KeyOf(r).Some? && KeyOf(r) == KeyOf(s)
    ensures r.agreementKey == s.agreementKey
  {
    hide KeyOf, Deduped, NoRepeats;
    assert NoRepeats(Deduped(rows)) by {
      DedupKeepsOnePerKey(rows);
    }
    var d :| d in Deduped(rows) && KeyOf(d) == KeyOf(r) && d.agreementKey == r.agreementKey;
    var e :| e in Deduped(rows) && KeyOf(e) == KeyOf(s) && e.agreementKey == s.agreementKey;
    OneRowPerKey(Deduped(rows), d, e);
  }

  lemma KeptOfKey(rows: seq<Row>, r: Row) returns (d: Row)
    requires r in rows && KeyOf(r).Some?
    ensures d in Deduped(rows) && d in rows && KeyOf(d) == KeyOf(r)
  {
    hide KeyOf, Deduped, NoRepeats;
    DedupKeepsOnePerKey(rows);
    d :| d in Deduped(rows) && KeyOf(d) == KeyOf(r);
  }

  lemma TellMeansKept(rows: seq<Row>, r: Row)
    requires KeysTellAgreements(rows) && r in rows && KeyOf(r).Some?
    ensures exists d | d in Deduped(rows) :: KeyOf(d) == KeyOf(r) && d.agreementKey == r.agreementKey
  {
    hide KeyOf, Deduped;
    var d := KeptOfKey(rows, r);
  }

  /** Exactly when no agreement is forgotten; the quantified key itself omits it. */
  lemma AgreementsKeptWhenKeysTell(rows: seq<Row>)
    ensures AgreementsKept(rows) <==> KeysTellAgreements(rows)
  {
    hide KeyOf, Deduped;
    if AgreementsKept(rows) {
      forall r, s | r in rows && s in rows && KeyOf(r).Some? && KeyOf(r) == KeyOf(s)
        ensures r.agreementKey == s.agreementKey
      {
        KeptMeansTell(rows, r, s);
      }
    }
    if KeysTellAgreements(rows) {
      forall r | r in rows && KeyOf(r).Some?
        ensures exists d | d in Deduped(rows) :: KeyOf(d) == KeyOf(r) && d.agreementKey == r.agreementKey
      {
        TellMeansKept(rows, r);
      }
    }
  }

  const GUARANTEE := Row(false, Some("8k_guarantees"), None, Num(1.0), Some(1), Some("x"), NoMark, None, None, None, None,
                         None, None, false, true, None, None, false, "T", "a")
  const TWIN := GUARANTEE.(agreementKey := Some("y"), contentHash := "b")

  lemma BothAreLive()
    ensures Snapshot.Of([GUARANTEE, TWIN]) == [GUARANTEE, TWIN]
  {
    var rows := [GUARANTEE, TWIN];
    assert "8k_" <= "8k_guarantees";
    assert GUARANTEE.Layer() == EightK && TWIN.Layer() == EightK;
    assert forall r, event, quantity | r in rows && event != NoMark :: !LaterMark(r, rows, event, quantity);
    assert StampAll(rows) == rows;
    SelectAll(rows, Snapshot.Flags(rows));
  }

  lemma OneIsKept()
    ensures Deduped([GUARANTEE, TWIN]) == [GUARANTEE]
  {
    var rows := [GUARANTEE, TWIN];
    assert GUARANTEE.Positive() && KeyOf(GUARANTEE).Some? && KeyOf(GUARANTEE) == KeyOf(TWIN);
    assert IsFirst(rows, 0) && !IsFirst(rows, 1);
    assert FirstFlags(rows) == [true, false];
    assert Select([TWIN], [false]) == [];
  }

  /** The condition can fail: two live guarantees of different agreements become one. */
  lemma DedupForgetsAgreement()
    ensures exists a: Row, b: Row ::
      && a.agreementKey.Some? && b.agreementKey.Some? && a.agreementKey != b.agreementKey
      && Snapshot.Of([a, b]) == [a, b] && Deduped([a, b]) == [a]
  {
    hide Snapshot.Of, Deduped;
    BothAreLive();
    OneIsKept();
    var a, b := GUARANTEE, TWIN;
    assert "x"[0] != "y"[0];
    assert a.agreementKey != b.agreementKey && Snapshot.Of([a, b]) == [a, b] && Deduped([a, b]) == [a];
  }
}
