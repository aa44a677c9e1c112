/** Byte-budgeted rendering of tool results (app/tool_render.py). */
module Render {
  import opened Wrappers
  import Ordering
  import Text

  const TRUNCATED_MARKER := "... [Tool output truncated]"

  /** Bytes of a code point in UTF-8 (section 3 of RFC 3629). */
  function CharSize(c: char): (n: nat)
    ensures 1 <= n <= 4
  {
    var code := c as int;
    if code < 0x80 then 1 else if code < 0x800 then 2 else if code < 0x1_0000 then 3 else 4
  }

  function Utf8Size(text: string): (n: nat)
    ensures n >= |text|
  {
    if text == "" then 0 else Utf8Size(text[..|text| - 1]) + CharSize(text[|text| - 1])
  }

  predicate Ascii(text: string) {
    forall c | c in text :: CharSize(c) == 1
  }

  lemma {:induction false} SizeConcat(a: string, b: string)
    ensures Utf8Size(a + b) == Utf8Size(a) + Utf8Size(b)
  {
    if b == "" {
      assert a + b == a;
    } else {
      var n := |b| - 1;
      assert (a + b)[..|a| + n] == a + b[..n];
      SizeConcat(a, b[..n]);
    }
  }

  lemma SizePrefix(text: string, n: nat)
    requires n <= |text|
    ensures Utf8Size(text[..n]) <= Utf8Size(text)
    ensures n < |text| ==> Utf8Size(text[..n]) < Utf8Size(text)
  {
    assert text == text[..n] + text[n..];
    SizeConcat(text[..n], text[n..]);
  }

  lemma {:induction false} SizeAscii(text: string)
    requires Ascii(text)
    ensures Utf8Size(text) == |text|
  {
    if text != "" {
      SizeAscii(text[..|text| - 1]);
    }
  }

  // ---------------------------------------------------------------- truncation

  /** Characters of the longest prefix within the room. */
  function Longest(text: string, room: nat): (n: nat)
    ensures n <= |text| && Utf8Size(text[..n]) <= room
  {
    if Utf8Size(text) <= room then
      assert text[..|text|] == text;
      |text|
    else
      var n := Longest(text[..|text| - 1], room);
      assert text[..|text| - 1][..n] == text[..n];
      n
  }

  /** No longer prefix fits, and every shorter one does. */
  lemma {:induction false} LongestIsLongest(text: string, room: nat, n: nat)
    requires n <= |text|
    ensures Utf8Size(text[..n]) <= room <==> n <= Longest(text, room)
  {
    if n == |text| {
      assert text[..n] == text;
      if Utf8Size(text) > room {
        assert Longest(text, room) <= |text| - 1;
      }
    } else {
      SizePrefix(text, n);
      assert text[..|text| - 1][..n] == text[..n];
      LongestIsLongest(text[..|text| - 1], room, n);
    }
  }

  function FirstChars(text: string, n: int): string {
    if n <= 0 then "" else if n < |text| then text[..n] else text
  }

  function Truncated(text: string, maxBytes: int, marker: string): string {
    if Utf8Size(text) <= maxBytes then text
    else if maxBytes < Utf8Size(marker) then FirstChars(marker, maxBytes)
    else Text.RStrip(text[..Longest(text, maxBytes - Utf8Size(marker))]) + marker
  }

  lemma TruncatedBy(text: string, maxBytes: int, marker: string)
    ensures var room := maxBytes - Utf8Size(marker);
      Truncated(text, maxBytes, marker) ==
        if Utf8Size(text) <= maxBytes then text
        else if room < 0 then FirstChars(marker, maxBytes)
        else Text.RStrip(text[..Longest(text, room)]) + marker
  {
    hide Utf8Size, Longest, Text.RStrip, FirstChars;
  }

  /** Binary search for the longest prefix of whole characters that leaves room for the marker. */
  method TruncateBytes(text: string, maxBytes: int, marker: string) returns (r: string)
    ensures r == Truncated(text, maxBytes, marker)
  {
    hide Utf8Size, Longest, Text.RStrip, Truncated, FirstChars;
    TruncatedBy(text, maxBytes, marker);
    if Utf8Size(text) <= maxBytes {
      return text;
    }
    var room := maxBytes - Utf8Size(marker);
    if room < 0 {
      return FirstChars(marker, maxBytes);
    }
    var lo, hi := 0, |text|;
    while lo < hi
      invariant 0 <= lo <= Longest(text, room) <= hi <= |text|
    {
      var mid := (lo + hi + 1) / 2;
      LongestIsLongest(text, room, mid);
      if Utf8Size(text[..mid]) <= room {
        lo := mid;
      } else {
        hi := mid - 1;
      }
    }
    return Text.RStrip(text[..lo]) + marker;
  }

  function Budget(maxBytes: int): nat {
    if maxBytes < 0 then 0 else maxBytes
  }

  /** Truncation ends within its budget, for all text; a text that fits is unchanged. */
  lemma TruncatedFits(text: string, maxBytes: int, marker: string)
    requires Ascii(marker)
    ensures Utf8Size(Truncated(text, maxBytes, marker)) <= Budget(maxBytes)
    ensures Utf8Size(text) <= maxBytes ==> Truncated(text, maxBytes, marker) == text
  {
    hide Utf8Size, Longest, Text.RStrip;
    SizeAscii(marker);
    if Utf8Size(text) > maxBytes {
      if maxBytes < |marker| {
        SizeAscii(FirstChars(marker, maxBytes));
      } else {
        var prefix := text[..Longest(text, maxBytes - |marker|)];
        var stripped := Text.RStrip(prefix);
        assert prefix[..|stripped|] == stripped;
        SizePrefix(prefix, |stripped|);
        SizeConcat(stripped, marker);
      }
    }
  }

  /** A text that starts with an ASCII non-space stays non-empty under any positive budget. */
  lemma TruncatedNotEmpty(text: string, maxBytes: int, marker: string)
    requires maxBytes >= 1 && text != ""
    requires marker == "" ==> CharSize(text[0]) == 1 && !Text.IsSpace(text[0])
    ensures Truncated(text, maxBytes, marker) != ""
  {
    if marker == "" && Utf8Size(text) > maxBytes {
      assert text[..1][..0] == "" && Utf8Size(text[..1]) == 1;
      LongestIsLongest(text, maxBytes, 1);
      var prefix := text[..Longest(text, maxBytes)];
      assert prefix[0] == text[0];
    }
  }

  // ---------------------------------------------------------------- lines within a budget

  /** "\n".join(lines) */
  function Join(lines: seq<string>): string {
    if lines == [] then ""
    else if |lines| == 1 then lines[0]
    else Join(lines[..|lines| - 1]) + "\n" + lines[|lines| - 1]
  }

  /** Each line with its newline. */
  function Cost(lines: seq<string>): nat {
    if lines == [] then 0 else Cost(lines[..|lines| - 1]) + Utf8Size(lines[|lines| - 1]) + 1
  }

  lemma {:induction false} JoinSize(lines: seq<string>)
    requires lines != []
    ensures Utf8Size(Join(lines)) == Cost(lines) - 1
  {
    if |lines| == 1 {
      assert lines[..0] == [];
    } else {
      var front, last := lines[..|lines| - 1], lines[|lines| - 1];
      JoinSize(front);
      SizeConcat(Join(front) + "\n", last);
      SizeConcat(Join(front), "\n");
      assert "\n"[..0] == "" && Utf8Size("\n") == 1;
    }
  }

  lemma CostSnoc(lines: seq<string>, line: string)
    ensures Cost(lines + [line]) == Cost(lines) + Utf8Size(line) + 1
  {
    assert (lines + [line])[..|lines|] == lines;
  }

  datatype Fitted = Fitted(kept: seq<string>, omitted: nat)

  /** What the lines from here on add, with so many bytes used already. */
  function Fit(lines: seq<string>, used: nat, maxBytes: int): Fitted {
    if lines == [] then Fitted([], 0)
    else
      var line, cost := lines[0], Utf8Size(lines[0]) + 1;
      if cost > maxBytes then Fitted([Truncated(line, maxBytes - used, TRUNCATED_MARKER)], 0)
      else if used + cost > maxBytes then
        var rest := Fit(lines[1..], used, maxBytes);
        Fitted(rest.kept, rest.omitted + 1)
      else
        var rest := Fit(lines[1..], used + cost, maxBytes);
        Fitted([line] + rest.kept, rest.omitted)
  }

  method FitLines(lines: seq<string>, maxBytes: int) returns (kept: seq<string>, omitted: nat)
    ensures Fitted(kept, omitted) == Fit(lines, 0, maxBytes)
  {
    hide Truncated, Utf8Size;
    kept, omitted := [], 0;
    var used: nat := 0;
    assert lines[0..] == lines;
    for i := 0 to |lines|
      invariant var rest := Fit(lines[i..], used, maxBytes);
        Fit(lines, 0, maxBytes) == Fitted(kept + rest.kept, omitted + rest.omitted)
    {
      var line := lines[i];
      assert lines[i..][0] == line && lines[i..][1..] == lines[i + 1..];
      var cost := Utf8Size(line) + 1;
      if cost > maxBytes {
        var cut := TruncateBytes(line, maxBytes - used, TRUNCATED_MARKER);
        kept := kept + [cut];
        return;
      }
      if used + cost > maxBytes {
        omitted := omitted + 1;
      } else {
        kept := kept + [line];
        used := used + cost;
      }
    }
  }

  lemma MarkerIsAscii()
    ensures Ascii(TRUNCATED_MARKER)
  {
  }

  /** Lines before this point used exactly their cost; the joined whole fits. */
  lemma {:induction false} FitFits(before: seq<string>, lines: seq<string>, maxBytes: nat)
    requires Cost(before) <= maxBytes
    ensures var all := before + Fit(lines, Cost(before), maxBytes).kept;
      all != [] ==> Utf8Size(Join(all)) <= maxBytes
    decreases |lines|
  {
    hide Truncated, Utf8Size, Cost, Join;
    var used := Cost(before);
    if lines == [] {
      assert before + [] == before;
      if before != [] {
        JoinSize(before);
      }
    } else if Utf8Size(lines[0]) + 1 > maxBytes {
      var cut := Truncated(lines[0], maxBytes - used, TRUNCATED_MARKER);
      MarkerIsAscii();
      TruncatedFits(lines[0], maxBytes - used, TRUNCATED_MARKER);
      CostSnoc(before, cut);
      JoinSize(before + [cut]);
    } else if used + Utf8Size(lines[0]) + 1 > maxBytes {
      FitFits(before, lines[1..], maxBytes);
    } else {
      CostSnoc(before, lines[0]);
      FitFits(before + [lines[0]], lines[1..], maxBytes);
      var rest := Fit(lines[1..], Cost(before + [lines[0]]), maxBytes).kept;
      assert before + [lines[0]] + rest == before + ([lines[0]] + rest);
    }
  }

  /** The joined kept lines fit every non-negative budget. */
  lemma FitLinesFit(lines: seq<string>, maxBytes: nat)
    ensures Utf8Size(Join(Fit(lines, 0, maxBytes).kept)) <= maxBytes
  {
    hide Fit;
    FitFits([], lines, maxBytes);
    var kept := Fit(lines, 0, maxBytes).kept;
    assert [] + kept == kept;
    assert Join([]) == "" && Utf8Size("") == 0;
  }

  predicate Oversized(line: string, maxBytes: int) {
    Utf8Size(line) + 1 > maxBytes
  }

  /** Lines after an oversized one are dropped uncounted: all are accounted for iff there are none. */
  lemma {:induction false} FitAccountsForAll(lines: seq<string>, used: nat, maxBytes: int)
    ensures var fit := Fit(lines, used, maxBytes);
      && |fit.kept| + fit.omitted <= |lines|
      && (|fit.kept| + fit.omitted == |lines| <==> forall i | 0 <= i < |lines| - 1 :: !Oversized(lines[i], maxBytes))
  {
    hide Truncated, Utf8Size;
    if lines != [] && !Oversized(lines[0], maxBytes) {
      var cost := Utf8Size(lines[0]) + 1;
      FitAccountsForAll(lines[1..], if used + cost > maxBytes then used else used + cost, maxBytes);
      assert forall i | 0 < i < |lines| - 1 :: lines[i] == lines[1..][i - 1];
      assert forall i | 0 <= i < |lines[1..]| - 1 :: lines[1..][i] == lines[i + 1];
    }
  }

  // ---------------------------------------------------------------- how good the greedy choice is

  /** Complete lines that could be shown instead: some of the lines, within the budget. */
  ghost predicate Selection(sel: seq<string>, lines: seq<string>, maxBytes: int) {
    multiset(sel) <= multiset(lines) && Cost(sel) <= maxBytes
  }

  predicate Smaller(a: string, b: string) {
    Utf8Size(a) <= Utf8Size(b)
  }

  /** Nothing that fits has more lines. */
  ghost predicate MostLines(n: nat, lines: seq<string>, maxBytes: int) {
    forall sel | Selection(sel, lines, maxBytes) :: |sel| <= n
  }

  lemma CostPicked(lines: seq<string>, i: nat)
    requires i < |lines|
    ensures Cost(lines) == Cost(lines[..i] + lines[i + 1..]) + Utf8Size(lines[i]) + 1
  {
    hide Utf8Size, Cost;
    assert lines == lines[..i] + [lines[i]] + lines[i + 1..];
    CostConcat(lines[..i] + [lines[i]], lines[i + 1..]);
    CostSnoc(lines[..i], lines[i]);
    CostConcat(lines[..i], lines[i + 1..]);
  }

  /** The smallest lines are the cheapest choice of their number. */
  lemma {:induction false} SmallestAreCheapest(sel: seq<string>, sorted: seq<string>)
    requires Ordering.Sorted(sorted, Smaller) && multiset(sel) <= multiset(sorted)
    ensures |sel| <= |sorted| && Cost(sorted[..|sel|]) <= Cost(sel)
    decreases |sorted|
  {
    hide Utf8Size, Cost, Smaller, Ordering.Sorted;
    if sorted == [] {
      NoneLeft(sel);
    } else {
      var n := |sorted| - 1;
      var front, last := sorted[..n], sorted[n];
      assert sorted == front + [last];
      SortedFront(sorted);
      if i :| 0 <= i < |sel| && sel[i] == last {
        var rest := sel[..i] + sel[i + 1..];
        PickedWithin(sel, i, front, last);
        SmallestAreCheapest(rest, front);
        CostPicked(sel, i);
        NextCost(sorted, |rest|);
      } else {
        LastUnused(sel, front, last);
        SmallestAreCheapest(sel, front);
        assert front[..|sel|] == sorted[..|sel|];
      }
    }
  }

  lemma SortedFront(sorted: seq<string>)
    requires Ordering.Sorted(sorted, Smaller) && sorted != []
    ensures Ordering.Sorted(sorted[..|sorted| - 1], Smaller)
  {
    hide Smaller;
  }

  lemma NextCost(sorted: seq<string>, k: nat)
    requires Ordering.Sorted(sorted, Smaller) && k < |sorted|
    ensures var n := |sorted| - 1;
      Cost(sorted[..k + 1]) <= Cost(sorted[..n][..k]) + Utf8Size(sorted[n]) + 1
  {
    hide Utf8Size, Cost;
    var n := |sorted| - 1;
    assert sorted[..n][..k] == sorted[..k] && sorted[..k + 1] == sorted[..k] + [sorted[k]];
    CostSnoc(sorted[..k], sorted[k]);
    assert k == n || Smaller(sorted[k], sorted[n]);
  }

  lemma PickedWithin(sel: seq<string>, i: nat, front: seq<string>, last: string)
    requires i < |sel| && sel[i] == last && multiset(sel) <= multiset(front + [last])
    ensures multiset(sel[..i] + sel[i + 1..]) <= multiset(front)
  {
    assert sel == sel[..i] + [last] + sel[i + 1..];
    assert multiset(sel[..i] + sel[i + 1..]) == multiset(sel) - multiset{last};
    assert multiset(front + [last]) - multiset{last} == multiset(front);
  }

  lemma NoneLeft(sel: seq<string>)
    requires multiset(sel) <= multiset([])
    ensures sel == []
  {
    assert |multiset(sel)| == |sel|;
  }

  lemma LastUnused(sel: seq<string>, front: seq<string>, last: string)
    requires multiset(sel) <= multiset(front + [last]) && last !in sel
    ensures multiset(sel) <= multiset(front)
  {
    assert multiset(front + [last]) == multiset(front) + multiset{last};
    assert last !in multiset(sel);
  }

  /** For every number of lines: nothing that fits has more, exactly when one more of the smallest would not fit. */
  lemma MostLinesIff(n: nat, lines: seq<string>, sorted: seq<string>, maxBytes: int)
    requires multiset(sorted) == multiset(lines) && Ordering.Sorted(sorted, Smaller)
    ensures MostLines(n, lines, maxBytes) <==> n >= |sorted| || Cost(sorted[..n + 1]) > maxBytes
  {
    hide Utf8Size, Cost;
    assert |multiset(sorted)| == |sorted| && |multiset(lines)| == |lines|;
    if n < |lines| && Cost(sorted[..n + 1]) <= maxBytes {
      PrefixWithin(sorted, n + 1);
      assert Selection(sorted[..n + 1], lines, maxBytes);
    } else {
      forall sel | Selection(sel, lines, maxBytes)
        ensures |sel| <= n
      {
        SmallestAreCheapest(sel, sorted);
        if |sel| > n {
          CostPrefix(sorted, n + 1, |sel|);
        }
      }
    }
  }

  lemma PrefixWithin(lines: seq<string>, n: nat)
    requires n <= |lines|
    ensures multiset(lines[..n]) <= multiset(lines)
  {
    assert lines == lines[..n] + lines[n..];
  }

  lemma CostPrefix(lines: seq<string>, m: nat, n: nat)
    requires m <= n <= |lines|
    ensures Cost(lines[..m]) <= Cost(lines[..n])
  {
    assert lines[..n] == lines[..m] + lines[m..n];
    CostConcat(lines[..m], lines[m..n]);
  }

  /** Lines of which none is oversized. */
  ghost predicate NoneOversized(lines: seq<string>, maxBytes: int) {
    forall line | line in lines :: !Oversized(line, maxBytes)
  }

  /** The lines that are counted as omitted. */
  function OmittedLines(lines: seq<string>, used: nat, maxBytes: int): seq<string> {
    if lines == [] then []
    else
      var cost := Utf8Size(lines[0]) + 1;
      if cost > maxBytes then []
      else if used + cost > maxBytes then [lines[0]] + OmittedLines(lines[1..], used, maxBytes)
      else OmittedLines(lines[1..], used + cost, maxBytes)
  }

  lemma AddOne<T>(x: T, a: seq<T>, b: seq<T>, whole: seq<T>)
    requires multiset(a) + multiset(b) == multiset(whole)
    ensures multiset([x] + a) + multiset(b) == multiset([x] + whole)
    ensures multiset(a) + multiset([x] + b) == multiset([x] + whole)
  {
  }

  /** Without oversized lines every line is kept whole or counted as omitted. */
  lemma {:induction false} KeptOrOmitted(lines: seq<string>, used: nat, maxBytes: int)
    requires NoneOversized(lines, maxBytes)
    ensures multiset(Fit(lines, used, maxBytes).kept) + multiset(OmittedLines(lines, used, maxBytes)) == multiset(lines)
  {
    hide Fit, OmittedLines, Utf8Size;
    if lines == [] {
      FitNothing(used, maxBytes);
    } else {
      var line, rest := lines[0], lines[1..];
      assert lines == [line] + rest && line in lines && forall x | x in rest :: x in lines;
      var after := FitStep(lines, used, maxBytes);
      KeptOrOmitted(rest, after, maxBytes);
      AddOne(line, Fit(rest, after, maxBytes).kept, OmittedLines(rest, after, maxBytes), rest);
    }
  }

  lemma FitNothing(used: nat, maxBytes: int)
    ensures Fit([], used, maxBytes).kept == [] && OmittedLines([], used, maxBytes) == []
  {
  }

  /** One line is put in front of the kept or of the omitted ones. */
  lemma FitStep(lines: seq<string>, used: nat, maxBytes: int) returns (after: nat)
    requires lines != [] && !Oversized(lines[0], maxBytes)
    ensures var kept, left := Fit(lines[1..], after, maxBytes).kept, OmittedLines(lines[1..], after, maxBytes);
      || (Fit(lines, used, maxBytes).kept == kept && OmittedLines(lines, used, maxBytes) == [lines[0]] + left)
      || (Fit(lines, used, maxBytes).kept == [lines[0]] + kept && OmittedLines(lines, used, maxBytes) == left)
  {
    hide Utf8Size, Truncated;
    var cost := Utf8Size(lines[0]) + 1;
    after := if used + cost > maxBytes then used else used + cost;
  }

  lemma {:induction false} NoOmittedLineFits(lines: seq<string>, used: nat, maxBytes: int)
    ensures var fit := Fit(lines, used, maxBytes);
      && fit.omitted == |OmittedLines(lines, used, maxBytes)|
      && forall line | line in OmittedLines(lines, used, maxBytes) ::
           used + Cost(fit.kept) + Utf8Size(line) + 1 > maxBytes
  {
    hide Utf8Size, Cost, Truncated;
    if lines != [] {
      var line, rest := lines[0], lines[1..];
      if used + Utf8Size(line) + 1 > maxBytes {
        NoOmittedLineFits(rest, used, maxBytes);
      } else {
        NoOmittedLineFits(rest, used + Utf8Size(line) + 1, maxBytes);
        CostCons(line, Fit(rest, used + Utf8Size(line) + 1, maxBytes).kept);
      }
    }
  }

  /**
   For all lines and budgets no omitted line would still fit in what is left at the end; and unless a
   line is oversized, every line is either kept whole or counted as omitted.
   */
  lemma KeptOrNoRoom(lines: seq<string>, maxBytes: int)
    ensures var fit, left := Fit(lines, 0, maxBytes), OmittedLines(lines, 0, maxBytes);
      && fit.omitted == |left|
      && (forall line | line in left :: Cost(fit.kept) + Utf8Size(line) + 1 > maxBytes)
      && (NoneOversized(lines, maxBytes) ==> multiset(fit.kept) + multiset(left) == multiset(lines))
  {
    hide Utf8Size, Cost, Fit, OmittedLines, Oversized;
    NoOmittedLineFits(lines, 0, maxBytes);
    if NoneOversized(lines, maxBytes) {
      KeptOrOmitted(lines, 0, maxBytes);
    }
  }

  lemma CostCons(line: string, lines: seq<string>)
    ensures Cost([line] + lines) == Utf8Size(line) + 1 + Cost(lines)
  {
    CostConcat([line], lines);
    assert [line][..0] == [];
  }

  /** Of sorted lines a prefix is kept, up to the first that does not fit. */
  lemma {:induction false} SortedFitIsPrefix(lines: seq<string>, used: nat, maxBytes: int)
    requires Ordering.Sorted(lines, Smaller) && NoneOversized(lines, maxBytes)
    ensures var kept := Fit(lines, used, maxBytes).kept;
      && |kept| <= |lines| && kept == lines[..|kept|]
      && (|kept| < |lines| ==> used + Cost(kept) + Utf8Size(lines[|kept|]) + 1 > maxBytes)
    ensures lines != [] && used + Utf8Size(lines[0]) + 1 > maxBytes ==> Fit(lines, used, maxBytes).kept == []
  {
    hide Utf8Size, Truncated, Cost;
    CostNothing([]);
    if lines != [] {
      var line, rest := lines[0], lines[1..];
      assert line in lines && forall x | x in rest :: x in lines;
      assert !Oversized(line, maxBytes);
      var cost := Utf8Size(line) + 1;
      if used + cost > maxBytes {
        assert rest != [] ==> Smaller(line, rest[0]);
        SortedFitIsPrefix(rest, used, maxBytes);
      } else {
        SortedFitIsPrefix(rest, used + cost, maxBytes);
        var later := Fit(rest, used + cost, maxBytes).kept;
        CostCons(line, later);
        assert lines[..|later| + 1] == [line] + rest[..|later|];
      }
    }
  }

  /** So with lines in non-decreasing size, none oversized, nothing that fits has more lines. */
  lemma GreedyIsMostWhenSorted(lines: seq<string>, maxBytes: nat)
    requires Ordering.Sorted(lines, Smaller) && NoneOversized(lines, maxBytes)
    ensures MostLines(|Fit(lines, 0, maxBytes).kept|, lines, maxBytes)
  {
    hide Utf8Size, Fit, Cost, NoneOversized, MostLines, Ordering.Sorted;
    var kept := Fit(lines, 0, maxBytes).kept;
    SortedFitIsPrefix(lines, 0, maxBytes);
    if |kept| < |lines| {
      assert lines[..|kept| + 1] == kept + [lines[|kept|]];
      CostSnoc(kept, lines[|kept|]);
    }
    MostLinesIff(|kept|, lines, lines, maxBytes);
  }

  lemma SmallerIsTotal()
    ensures Ordering.TotalPreorder(Smaller)
  {
    hide Utf8Size;
  }

  lemma {:induction false} KeptWithin(lines: seq<string>, used: nat, maxBytes: int)
    requires NoneOversized(lines, maxBytes) && used <= maxBytes
    ensures used + Cost(Fit(lines, used, maxBytes).kept) <= maxBytes
  {
    hide Utf8Size, Cost, Truncated;
    CostNothing([]);
    if lines != [] {
      var line, rest := lines[0], lines[1..];
      assert line in lines && forall x | x in rest :: x in lines;
      assert !Oversized(line, maxBytes);
      var cost := Utf8Size(line) + 1;
      KeptWithin(rest, if used + cost > maxBytes then used else used + cost, maxBytes);
      CostCons(line, Fit(rest, used + cost, maxBytes).kept);
    }
  }

  lemma SortedKeepsAll(sorted: seq<string>, n: nat, maxBytes: nat)
    requires Ordering.Sorted(sorted, Smaller) && NoneOversized(sorted, maxBytes)
    ensures n >= |sorted| || Cost(sorted[..n + 1]) > maxBytes <==> n >= |Fit(sorted, 0, maxBytes).kept|
  {
    hide Utf8Size, Fit, Cost, Ordering.Sorted, NoneOversized;
    var kept := Fit(sorted, 0, maxBytes).kept;
    var k := |kept|;
    SortedFitIsPrefix(sorted, 0, maxBytes);
    KeptWithin(sorted, 0, maxBytes);
    if n < k {
      CostPrefix(sorted, n + 1, k);
    } else if n < |sorted| {
      assert sorted[..k + 1] == kept + [sorted[k]];
      CostSnoc(kept, sorted[k]);
      CostPrefix(sorted, k + 1, n + 1);
    }
  }

  lemma SortedNoneOversized(lines: seq<string>, maxBytes: int)
    requires NoneOversized(lines, maxBytes)
    ensures NoneOversized(Ordering.StableSort(lines, Smaller), maxBytes)
  {
    hide Utf8Size, Oversized;
    var sorted := Ordering.StableSort(lines, Smaller);
    forall line | line in sorted
      ensures line in lines
    {
      assert line in multiset(sorted) && line in multiset(lines);
    }
  }

  /** In any order, the most lines that fit are as many as the greedy choice keeps of the lines sorted by size. */
  lemma BestIsSortedGreedy(n: nat, lines: seq<string>, maxBytes: nat)
    requires NoneOversized(lines, maxBytes)
    ensures var sorted := Ordering.StableSort(lines, Smaller);
      MostLines(n, lines, maxBytes) <==> n >= |Fit(sorted, 0, maxBytes).kept|
  {
    hide Fit, Cost, MostLines, Ordering.Sorted, NoneOversized, Smaller, Ordering.TotalPreorder;
    var sorted := Ordering.StableSort(lines, Smaller);
    SmallerIsTotal();
    Ordering.SortSorted(lines, Smaller);
    SortedNoneOversized(lines, maxBytes);
    SortedKeepsAll(sorted, n, maxBytes);
    MostLinesIff(n, lines, sorted, maxBytes);
  }

  /** Unsorted, the loop can fall short: a longer early line can cost two later ones. */
  lemma GreedyIsNotMost()
    ensures Fit(["aaaa", "b", "c"], 0, 5) == Fitted(["aaaa"], 2)
    ensures Fit(["b", "c"], 0, 5) == Fitted(["b", "c"], 0)
  {
    var all, rest := ["aaaa", "b", "c"], ["b", "c"];
    assert Ascii("aaaa") && Ascii("b") && Ascii("c");
    SizeAscii("aaaa");
    SizeAscii("b");
    SizeAscii("c");
    assert all[1..] == rest && rest[1..] == ["c"] && ["c"][1..] == [];
    assert Fit(["c"], 5, 5) == Fitted([], 1) && Fit(["c"], 2, 5) == Fitted(["c"], 0);
    assert Fit(rest, 5, 5) == Fitted([], 2);
  }

  // ---------------------------------------------------------------- table bodies

  datatype Body = Body(lines: seq<string>, used: nat, omitted: nat)

  function BodyOf(lines: seq<string>, used: nat, reserved: nat, maxBytes: int): Body {
    if lines == [] then Body([], used, 0)
    else
      var before, line := BodyOf(lines[..|lines| - 1], used, reserved, maxBytes), lines[|lines| - 1];
      if before.used + Utf8Size(line) + 1 + reserved > maxBytes then before.(omitted := before.omitted + 1)
      else before.(lines := before.lines + [line], used := before.used + Utf8Size(line) + 1)
  }

  method DatapointsBodyLines(lines: seq<string>, used: nat, reserved: nat, maxBytes: int) returns (body: Body)
    ensures body == BodyOf(lines, used, reserved, maxBytes)
  {
    body := Body([], used, 0);
    for i := 0 to |lines|
      invariant body == BodyOf(lines[..i], used, reserved, maxBytes)
    {
      assert lines[..i + 1][..i] == lines[..i];
      if body.used + Utf8Size(lines[i]) + 1 + reserved > maxBytes {
        body := body.(omitted := body.omitted + 1);
      } else {
        body := body.(lines := body.lines + [lines[i]], used := body.used + Utf8Size(lines[i]) + 1);
      }
    }
    assert lines[..|lines|] == lines;
  }

  /** Exact bookkeeping, and no row is forgotten. */
  lemma {:induction false} BodyIsExact(lines: seq<string>, used: nat, reserved: nat, maxBytes: int)
    ensures var body := BodyOf(lines, used, reserved, maxBytes);
      && body.used == used + Cost(body.lines) && |body.lines| + body.omitted == |lines|
      && (body.lines != [] ==> body.used + reserved <= maxBytes)
  {
    hide Utf8Size;
    if lines != [] {
      BodyIsExact(lines[..|lines| - 1], used, reserved, maxBytes);
      CostSnoc(BodyOf(lines[..|lines| - 1], used, reserved, maxBytes).lines, lines[|lines| - 1]);
    }
  }

  const OMITTED_ROWS := "Omitted rows: "

  /** Bytes set aside for the footer and the omission notice. */
  function Reserved(footer: string, banner: string): nat {
    Utf8Size(TRUNCATED_MARKER + "\n" + "Omitted rows: 99999\n" + footer) + 32 + if banner != "" then Utf8Size(banner) + 2 else 0
  }

  function TableHead(header: string, sep: string, banner: string): seq<string> {
    [header, sep] + if banner != "" then [banner] else []
  }

  function DatapointsText(header: string, sep: string, banner: string, footer: string, source: string,
                          lines: seq<string>, maxBytes: int): string
  {
    var head := TableHead(header, sep, banner);
    var body := BodyOf(lines, Cost(head), Reserved(footer, banner), maxBytes);
    if Reserved(footer, banner) > maxBytes then Minimal(source, maxBytes)
    else
      Join(head + body.lines) +
      (if body.omitted > 0 then "\n" + TRUNCATED_MARKER + "\n" + OMITTED_ROWS + Text.Decimal(body.omitted) else "") + footer
  }

  lemma {:induction false} CostConcat(a: seq<string>, b: seq<string>)
    ensures Cost(a + b) == Cost(a) + Cost(b)
  {
    hide Cost, Utf8Size;
    if b == [] {
      CostNothing(b);
      assert a + b == a;
    } else {
      var front, last := b[..|b| - 1], b[|b| - 1];
      CostConcat(a, front);
      CostSnoc(a + front, last);
      CostSnoc(front, last);
      assert a + b == a + front + [last] && b == front + [last];
    }
  }

  lemma DecimalSize(n: nat)
    ensures Utf8Size(Text.Decimal(n)) == |Text.Decimal(n)|
  {
    hide Text.Decimal;
    var digits := Text.Decimal(n);
    forall c | c in digits
      ensures CharSize(c) == 1
    {
      var i :| 0 <= i < |digits| && digits[i] == c;
      assert Text.IsDigit(digits[i]);
    }
    SizeAscii(digits);
  }

  lemma NoticeSize(n: nat, footer: string)
    ensures Utf8Size("\n" + TRUNCATED_MARKER + "\n" + OMITTED_ROWS + Text.Decimal(n)) ==
      Utf8Size(TRUNCATED_MARKER) + 16 + |Text.Decimal(n)|
    ensures Utf8Size(TRUNCATED_MARKER + "\n" + "Omitted rows: 99999\n" + footer) ==
      Utf8Size(TRUNCATED_MARKER) + 21 + Utf8Size(footer)
  {
    hide Utf8Size, Text.Decimal;
    MarkerIsAscii();
    SizeAscii("\n");
    SizeAscii(OMITTED_ROWS);
    SizeAscii("Omitted rows: 99999\n");
    DecimalSize(n);
    SizeConcat("\n" + TRUNCATED_MARKER + "\n" + OMITTED_ROWS, Text.Decimal(n));
    SizeConcat("\n" + TRUNCATED_MARKER + "\n", OMITTED_ROWS);
    SizeConcat("\n" + TRUNCATED_MARKER, "\n");
    SizeConcat("\n", TRUNCATED_MARKER);
    SizeConcat(TRUNCATED_MARKER + "\n" + "Omitted rows: 99999\n", footer);
    SizeConcat(TRUNCATED_MARKER + "\n", "Omitted rows: 99999\n");
    SizeConcat(TRUNCATED_MARKER, "\n");
  }

  lemma {:induction false} BodyStarts(lines: seq<string>, used: nat, reserved: nat, maxBytes: int)
    ensures BodyOf(lines, used, reserved, maxBytes).lines != [] <==>
      exists line | line in lines :: used + Utf8Size(line) + 1 + reserved <= maxBytes
  {
    hide Utf8Size, Cost;
    CostNothing([]);
    if lines != [] {
      var front, last := lines[..|lines| - 1], lines[|lines| - 1];
      var before := BodyOf(front, used, reserved, maxBytes);
      BodyStarts(front, used, reserved, maxBytes);
      BodyIsExact(front, used, reserved, maxBytes);
      assert lines == front + [last];
      if before.lines == [] {
        CostNothing(before.lines);
        assert last in lines && forall line | line in lines :: line in front || line == last;
        assert BodyOf(lines, used, reserved, maxBytes).lines != [] <==> used + Utf8Size(last) + 1 + reserved <= maxBytes;
      } else {
        var line :| line in front && used + Utf8Size(line) + 1 + reserved <= maxBytes;
        assert line in lines;
      }
    }
  }

  lemma {:induction false} DecimalGrows(m: nat, n: nat)
    requires m <= n
    ensures |Text.Decimal(m)| <= |Text.Decimal(n)|
  {
    if m >= 10 {
      DecimalGrows(m / 10, n / 10);
    }
  }

  /** Bytes of a table without rows: its head, the notice for all rows, the footer. */
  function BareSize(head: seq<string>, rows: nat, footer: string): int {
    Cost(head) - 1 + (if rows > 0 then Utf8Size(TRUNCATED_MARKER) + 16 + |Text.Decimal(rows)| else 0) + Utf8Size(footer)
  }

  lemma TableSize(head: seq<string>, body: Body, footer: string)
    requires head != []
    ensures var notice := "\n" + TRUNCATED_MARKER + "\n" + OMITTED_ROWS + Text.Decimal(body.omitted);
      Utf8Size(Join(head + body.lines) + (if body.omitted > 0 then notice else "") + footer) ==
      BareSize(head, body.omitted, footer) + Cost(body.lines)
  {
    hide Utf8Size, Cost, Join, Text.Decimal;
    var notice := if body.omitted > 0 then "\n" + TRUNCATED_MARKER + "\n" + OMITTED_ROWS + Text.Decimal(body.omitted) else "";
    CostConcat(head, body.lines);
    JoinSize(head + body.lines);
    NoticeSize(body.omitted, footer);
    SizeAscii("");
    SizeConcat(Join(head + body.lines) + notice, footer);
    SizeConcat(Join(head + body.lines), notice);
  }

  /**
   When a table fits, for every head, footer and row: exactly when there is no room even to reserve (and
   the minimal card is shown), or some row fits beside what is reserved, or the table without rows fits.
   Row counts of up to 38 digits.
   */
  lemma DatapointsFitIff(header: string, sep: string, banner: string, footer: string, source: string,
                         lines: seq<string>, maxBytes: nat)
    requires |Text.Decimal(|lines|)| <= 38
    ensures var head, reserved := TableHead(header, sep, banner), Reserved(footer, banner);
      Utf8Size(DatapointsText(header, sep, banner, footer, source, lines, maxBytes)) <= maxBytes <==>
      || reserved > maxBytes
      || (exists line | line in lines :: Cost(head) + Utf8Size(line) + 1 + reserved <= maxBytes)
      || BareSize(head, |lines|, footer) <= maxBytes
  {
    hide Utf8Size, BodyOf, Text.Decimal, Minimal, Cost, BareSize;
    var head, reserved := TableHead(header, sep, banner), Reserved(footer, banner);
    var body := BodyOf(lines, Cost(head), reserved, maxBytes);
    MinimalFits(source, maxBytes);
    BodyIsExact(lines, Cost(head), reserved, maxBytes);
    BodyStarts(lines, Cost(head), reserved, maxBytes);
    TableSize(head, body, footer);
    CostNothing([]);
    RowsLeaveRoom(head, body, footer, banner, |lines|);
  }

  /** What is reserved covers footer and notice. */
  lemma RowsLeaveRoom(head: seq<string>, body: Body, footer: string, banner: string, rows: nat)
    requires body.omitted <= rows && |Text.Decimal(rows)| <= 38
    ensures BareSize(head, body.omitted, footer) <= Cost(head) + Reserved(footer, banner)
  {
    hide Utf8Size, Text.Decimal, Cost;
    NoticeSize(body.omitted, footer);
    DecimalGrows(body.omitted, rows);
  }

  // ---------------------------------------------------------------- accumulators

  class SecFactsAccumulator {
    const maxBytes: int
    var lines: seq<string>
    var used: nat
    var omitted: nat

    ghost predicate Valid()
      reads this
    {
      used == Cost(lines) && (lines != [] ==> used <= maxBytes)
    }

    constructor (maxBytes: int)
      ensures Valid() && this.maxBytes == maxBytes && lines == [] && omitted == 0
    {
      this.maxBytes := maxBytes;
      lines, used, omitted := [], 0, 0;
    }

    /** Append one line when it fits; count it otherwise. */
    method Add(text: string) returns (added: bool)
      requires Valid()
      modifies this`lines, this`used, this`omitted
      ensures Valid()
      ensures added <==> old(used) + Utf8Size(text) + 1 <= maxBytes
      ensures lines == old(lines) + if added then [text] else []
      ensures omitted == old(omitted) + if added then 0 else 1
    {
      hide Utf8Size, Cost;
      CostSnoc(lines, text);
      var cost := Utf8Size(text) + 1;
      if used + cost > maxBytes {
        omitted := omitted + 1;
        return false;
      }
      lines := lines + [text];
      used := used + cost;
      return true;
    }

    /** The finished card, with the omission notice where it fits; without any line, the minimal one. */
    method Finish(source: string) returns (text: string)
      requires Valid()
      modifies this`lines, this`used, this`omitted
      ensures Valid() && Utf8Size(text) <= Budget(maxBytes)
      ensures var notice := RowsNotice(old(omitted));
        lines == old(lines) +
                 if old(omitted) > 0 && old(used) + Utf8Size(notice) + 1 <= maxBytes then [notice] else []
      ensures text == if lines == [] then Minimal(source, maxBytes) else Join(lines)
    {
      hide Utf8Size, Cost, Truncated;
      if omitted > 0 {
        var _ := Add(RowsNotice(omitted));
      }
      if lines == [] {
        MinimalFits(source, maxBytes);
        return Minimal(source, maxBytes);
      }
      JoinSize(lines);
      return Join(lines);
    }
  }

  class GenericAccumulator {
    const maxBytes: int
    var lines: seq<string>
    var used: nat
    var omitted: seq<string>

    ghost predicate Valid()
      reads this
    {
      used == Cost(lines) && (lines != [] ==> used <= maxBytes)
    }

    constructor (maxBytes: int)
      ensures Valid() && this.maxBytes == maxBytes && lines == [] && omitted == []
    {
      this.maxBytes := maxBytes;
      lines, used, omitted := [], 0, [];
    }

    method Add(text: string) returns (added: bool)
      requires Valid()
      modifies this`lines, this`used
      ensures Valid()
      ensures added <==> old(used) + Utf8Size(text) + 1 <= maxBytes
      ensures lines == old(lines) + if added then [text] else []
    {
      hide Utf8Size, Cost;
      CostSnoc(lines, text);
      var cost := Utf8Size(text) + 1;
      if used + cost > maxBytes {
        return false;
      }
      lines := lines + [text];
      used := used + cost;
      return true;
    }

    /** A list value: its first items in order; where one does not fit, the key is noted and the rest left out. */
    method AddList(key: string, items: seq<string>)
      requires Valid()
      modifies this`lines, this`used, this`omitted
      ensures Valid()
      ensures var none := key + ": none";
        items == [] ==>
          lines == old(lines) + if old(used) + Utf8Size(none) + 1 <= maxBytes then [none] else []
      ensures exists n: nat | n <= |items| ::
        && omitted == old(omitted) + (if n < |items| then [key] else [])
        && (items != [] ==> lines == old(lines) + items[..n])
        && (n < |items| ==> old(used) + Cost(items[..n + 1]) > maxBytes)
    {
      hide Utf8Size, Cost;
      assert Cost(items[..0]) == 0 by {
        CostNothing(items[..0]);
      }
      ghost var before := lines;
      for i := 0 to |items|
        invariant Valid() && lines == before + items[..i] && omitted == old(omitted)
        invariant used == old(used) + Cost(items[..i])
      {
        assert items[..i + 1] == items[..i] + [items[i]];
        CostSnoc(items[..i], items[i]);
        CostSnoc(lines, items[i]);
        var added := Add(items[i]);
        if !added {
          omitted := omitted + [key];
          return;
        }
      }
      assert items[..|items|] == items;
      if items == [] {
        var _ := Add(key + ": none");
      }
    }

    method Finish(source: string) returns (text: string)
      requires Valid()
      modifies this`lines, this`used
      ensures Valid() && Utf8Size(text) <= Budget(maxBytes)
      ensures var notice := KeysNotice(omitted);
        lines == old(lines) +
                 if omitted != [] && old(used) + Utf8Size(notice) + 1 <= maxBytes then [notice] else []
      ensures text == if lines == [] then Minimal(source, maxBytes) else Join(lines)
    {
      hide Utf8Size, Cost, Truncated;
      if omitted != [] {
        var _ := Add(KeysNotice(omitted));
      }
      if lines == [] {
        MinimalFits(source, maxBytes);
        return Minimal(source, maxBytes);
      }
      JoinSize(lines);
      return Join(lines);
    }
  }

  function RowsNotice(omitted: nat): string {
    TRUNCATED_MARKER + " (Omitted rows: " + Text.Decimal(omitted) + ")"
  }

  function KeysNotice(keys: seq<string>): string {
    TRUNCATED_MARKER + " (Omitted rows: " + Text.Decimal(|keys|) + " in " + Listed(keys) + ")"
  }

  function Listed(keys: seq<string>): string {
    if keys == [] then ""
    else if |keys| == 1 then keys[0]
    else Listed(keys[..|keys| - 1]) + ", " + keys[|keys| - 1]
  }

  lemma CostNothing(lines: seq<string>)
    requires lines == []
    ensures Cost(lines) == 0
  {
  }

  // ---------------------------------------------------------------- the whole result

  function Minimal(source: string, maxBytes: int): string {
    Truncated("Source: " + source + " | " + TRUNCATED_MARKER, maxBytes, "")
  }

  lemma MinimalFits(source: string, maxBytes: int)
    ensures Utf8Size(Minimal(source, maxBytes)) <= Budget(maxBytes)
    ensures maxBytes >= 1 ==> Minimal(source, maxBytes) != ""
  {
    hide Utf8Size, Truncated;
    var text := "Source: " + source + " | " + TRUNCATED_MARKER;
    TruncatedFits(text, maxBytes, "");
    if maxBytes >= 1 {
      assert text[0] == 'S';
      TruncatedNotEmpty(text, maxBytes, "");
    }
  }

  /** A tool result as the outermost renderer sees it; `card` is what the matching renderer made of it. */
  datatype ToolResult =
    | Failure(message: string, details: seq<string>)
    | Finalized(lines: seq<string>)
    | Other(content: Option<string>, card: string, source: string)

  const BOTTOM_LINE := "Bottom line:"

  predicate IsAnswer(result: ToolResult) {
    result.Other? && result.content.Some? && BOTTOM_LINE <= Text.LStrip(result.content.value)
  }

  function Rendered(result: ToolResult, maxBytes: int): string {
    match result
    case Failure(message, details) => Truncated(Join(["Error: " + Text.Strip(message)] + details), maxBytes, "")
    case Finalized(lines) => Truncated(Join(["Research finalized"] + lines), maxBytes, TRUNCATED_MARKER)
    case Other(content, card, source) =>
      if IsAnswer(result) then Truncated(Text.Strip(content.value), maxBytes, TRUNCATED_MARKER)
      else if Utf8Size(card) <= maxBytes then card
      else Minimal(source, maxBytes)
  }

  lemma {:induction false} JoinStarts(lines: seq<string>)
    requires lines != [] && lines[0] != ""
    ensures Join(lines) != "" && Join(lines)[0] == lines[0][0]
  {
    if |lines| > 1 {
      JoinStarts(lines[..|lines| - 1]);
    }
  }

  lemma StripKeepsBottomLine(content: string)
    requires BOTTOM_LINE <= Text.LStrip(content)
    ensures Text.Strip(content) != ""
  {
    var i := |content| - |Text.LStrip(content)|;
    assert content[i..] == Text.LStrip(content);
    assert content[i] == 'B' && !Text.IsSpace('B');
    var cut := Text.RStrip(content);
    assert i < |cut|;
    assert cut[i] == 'B';
    assert Text.LStrip(cut) != "";
  }

  /**
   Whatever the result: within the byte budget, and for a positive budget non-empty unless the
   matching renderer itself made an empty card.
   */
  lemma RenderedFits(result: ToolResult, maxBytes: int)
    ensures Utf8Size(Rendered(result, maxBytes)) <= Budget(maxBytes)
    ensures maxBytes >= 1 ==> (Rendered(result, maxBytes) == "" <==> result.Other? && !IsAnswer(result) && result.card == "")
  {
    hide Utf8Size, Truncated, Join, Text.Strip, Text.LStrip;
    MarkerIsAscii();
    match result
    case Failure(message, details) =>
      var lines := ["Error: " + Text.Strip(message)] + details;
      TruncatedFits(Join(lines), maxBytes, "");
      JoinStarts(lines);
      if maxBytes >= 1 {
        TruncatedNotEmpty(Join(lines), maxBytes, "");
      }
    case Finalized(rest) =>
      var lines := ["Research finalized"] + rest;
      TruncatedFits(Join(lines), maxBytes, TRUNCATED_MARKER);
      JoinStarts(lines);
      if maxBytes >= 1 {
        TruncatedNotEmpty(Join(lines), maxBytes, TRUNCATED_MARKER);
      }
    case Other(content, card, source) =>
      if IsAnswer(result) {
        TruncatedFits(Text.Strip(content.value), maxBytes, TRUNCATED_MARKER);
        StripKeepsBottomLine(content.value);
        if maxBytes >= 1 {
          TruncatedNotEmpty(Text.Strip(content.value), maxBytes, TRUNCATED_MARKER);
        }
      } else {
        MinimalFits(source, maxBytes);
        SizeAscii("");
      }
  }
}
