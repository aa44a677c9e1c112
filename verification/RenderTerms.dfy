/** Sizes as encoded bytes, and which lines a budget keeps (app/tool_render.py). */
module RenderTerms {
  import opened Wrappers
  import opened Render
  import Ledger
  import Text

  // ---------------------------------------------------------------- bytes

  /** The bytes of a character in UTF-8 (section 3 of RFC 3629). */
  function Encoded(c: char): (bytes: seq<int>)
    ensures forall b | b in bytes :: 0 <= b < 0x100
  {
    var code := c as int;
    if code < 0x80 then [code]
    else if code < 0x800 then [0xC0 + code / 64, 0x80 + code % 64]
    else if code < 0x1_0000 then [0xE0 + code / 64 / 64, 0x80 + code / 64 % 64, 0x80 + code % 64]
    else [0xF0 + code / 64 / 64 / 64, 0x80 + code / 64 / 64 % 64, 0x80 + code / 64 % 64, 0x80 + code % 64]
  }

  function EncodedText(text: string): seq<int> {
    if text == "" then [] else EncodedText(text[..|text| - 1]) + Encoded(text[|text| - 1])
  }

  /** The code point that the bytes spell. */
  function Decoded(bytes: seq<int>): int
    requires 1 <= |bytes| <= 4
  {
    match |bytes|
    case 1 => bytes[0]
    case 2 => (bytes[0] - 0xC0) * 64 + bytes[1] - 0x80
    case 3 => ((bytes[0] - 0xE0) * 64 + bytes[1] - 0x80) * 64 + bytes[2] - 0x80
    case _ => (((bytes[0] - 0xF0) * 64 + bytes[1] - 0x80) * 64 + bytes[2] - 0x80) * 64 + bytes[3] - 0x80
  }

  /** The size of a character is that of its encoding, from which it can be read back; the first byte tells the length. */
  lemma CharSizeIsEncoding(c: char)
    ensures var bytes := Encoded(c);
      && |bytes| == CharSize(c) && Decoded(bytes) == c as int
      && (|bytes| == 1 <==> bytes[0] < 0x80) && (|bytes| == 2 <==> 0xC0 <= bytes[0] < 0xE0)
      && (|bytes| == 3 <==> 0xE0 <= bytes[0] < 0xF0) && (|bytes| == 4 <==> 0xF0 <= bytes[0])
  {
  }

  lemma {:induction false} SizeIsEncoding(text: string)
    ensures Utf8Size(text) == |EncodedText(text)|
  {
    hide CharSize, Encoded;
    if text != "" {
      SizeIsEncoding(text[..|text| - 1]);
      CharSizeIsEncoding(text[|text| - 1]);
    }
  }

  // ---------------------------------------------------------------- truncation

  /** Up to n characters of the text fit, and one more does not. */
  ghost predicate FitsUpTo(text: string, room: int, n: nat) {
    && n < |text| && |EncodedText(text[..n])| <= room
    && |EncodedText(text[..n + 1])| > room
  }

  /**
   What truncation makes of a text that does not fit: the first characters of the marker where that does
   not fit either; else the longest prefix of whole characters beside it, without trailing space, and it.
   */
  lemma TruncatedIs(text: string, maxBytes: int, marker: string) returns (n: nat)
    requires |EncodedText(text)| > maxBytes
    ensures maxBytes < |EncodedText(marker)| ==>
      Truncated(text, maxBytes, marker) ==
        if maxBytes <= 0 then "" else if maxBytes < |marker| then marker[..maxBytes] else marker
    ensures maxBytes >= |EncodedText(marker)| ==>
      FitsUpTo(text, maxBytes - |EncodedText(marker)|, n) && Truncated(text, maxBytes, marker) == Text.RStrip(text[..n]) + marker
  {
    hide Utf8Size, Longest, EncodedText, Text.RStrip;
    SizeIsEncoding(text);
    SizeIsEncoding(marker);
    n := 0;
    if maxBytes >= |EncodedText(marker)| {
      var room := maxBytes - Utf8Size(marker);
      n := Longest(text, room);
      assert text[..|text|] == text;
      if n < |text| {
        LongestIsLongest(text, room, n + 1);
        SizeIsEncoding(text[..n]);
        SizeIsEncoding(text[..n + 1]);
      }
    }
  }

  // ---------------------------------------------------------------- lines

  /** Lines are joined by single newlines, in order. */
  lemma {:induction false} JoinConcat(a: seq<string>, b: seq<string>)
    requires a != [] && b != []
    ensures Join(a + b) == Join(a) + "\n" + Join(b)
  {
    var n := |b| - 1;
    assert (a + b)[..|a| + n] == a + b[..n];
    if n == 0 {
      assert a + b[..0] == a;
    } else {
      JoinConcat(a, b[..n]);
      assert Join(a) + "\n" + Join(b[..n]) + "\n" + b[n] == Join(a) + "\n" + (Join(b[..n]) + "\n" + b[n]);
    }
  }

  /** The bytes that joined lines take, with one newline each. */
  lemma CostIsBytes(lines: seq<string>)
    requires lines != []
    ensures Cost(lines) == |EncodedText(Join(lines))| + 1
  {
    JoinSize(lines);
    SizeIsEncoding(Join(lines));
  }

  /** Line i is kept iff it fits beside the lines kept before it, with so much in use from the start. */
  ghost predicate KeepsWhatFits(lines: seq<string>, keep: seq<bool>, used: int, maxBytes: int) {
    && |keep| == |lines|
    && forall i | 0 <= i < |lines| ::
         keep[i] <==> used + KeptCost(lines, keep, i) + Utf8Size(lines[i]) + 1 <= maxBytes
  }

  /** What the lines kept before line i cost. */
  ghost function KeptCost(lines: seq<string>, keep: seq<bool>, i: nat): nat
    requires i <= |lines| == |keep|
  {
    Cost(Ledger.Select(lines[..i], keep[..i]))
  }

  lemma KeptCostTail(lines: seq<string>, keep: seq<bool>, i: nat)
    requires 0 < i <= |lines| == |keep|
    ensures KeptCost(lines, keep, i) == (if keep[0] then Utf8Size(lines[0]) + 1 else 0) + KeptCost(lines[1..], keep[1..], i - 1)
  {
    hide Utf8Size, Cost, Ledger.Select;
    assert lines[..i] == [lines[0]] + lines[1..][..i - 1] && keep[..i] == [keep[0]] + keep[1..][..i - 1];
    SelectFirst(lines[0], lines[1..][..i - 1], keep[0], keep[1..][..i - 1]);
    var rest := Ledger.Select(lines[1..][..i - 1], keep[1..][..i - 1]);
    CostCons(lines[0], rest);
    assert [] + rest == rest;
  }

  lemma SelectFirst(line: string, rest: seq<string>, first: bool, keep: seq<bool>)
    requires |keep| == |rest|
    ensures Ledger.Select([line] + rest, [first] + keep) ==
      (if first then [line] else []) + Ledger.Select(rest, keep)
  {
    assert ([line] + rest)[1..] == rest && ([first] + keep)[1..] == keep;
  }

  lemma NothingKept(lines: seq<string>, keep: seq<bool>)
    requires |lines| == |keep|
    ensures KeptCost(lines, keep, 0) == 0
  {
  }

  lemma KeepsFirst(lines: seq<string>, first: bool, keep: seq<bool>, used: int, maxBytes: int)
    requires lines != [] && (first <==> used + Utf8Size(lines[0]) + 1 <= maxBytes)
    requires KeepsWhatFits(lines[1..], keep, used + (if first then Utf8Size(lines[0]) + 1 else 0), maxBytes)
    ensures KeepsWhatFits(lines, [first] + keep, used, maxBytes)
  {
    hide Utf8Size, KeptCost;
    var all := [first] + keep;
    NothingKept(lines, all);
    assert all[1..] == keep;
    forall i | 0 < i < |lines|
      ensures all[i] <==> used + KeptCost(lines, all, i) + Utf8Size(lines[i]) + 1 <= maxBytes
    {
      KeptCostTail(lines, all, i);
      assert lines[1..][i - 1] == lines[i] && keep[i - 1] == all[i];
    }
  }

  /** With no oversized line, the kept lines are exactly those that fit when their turn comes, in order; the rest are counted. */
  lemma {:induction false} FitKeeps(lines: seq<string>, used: nat, maxBytes: int) returns (keep: seq<bool>)
    requires NoneOversized(lines, maxBytes)
    ensures KeepsWhatFits(lines, keep, used, maxBytes)
    ensures Fit(lines, used, maxBytes).kept == Ledger.Select(lines, keep)
    ensures Fit(lines, used, maxBytes).omitted == |lines| - |Ledger.Select(lines, keep)|
  {
    hide Utf8Size, KeepsWhatFits, Truncated;
    if lines == [] {
      keep := [];
      assert KeepsWhatFits([], [], used, maxBytes) by {
        EmptyKeeps(used, maxBytes);
      }
    } else {
      var line, rest := lines[0], lines[1..];
      assert lines == [line] + rest && line in lines && forall x | x in rest :: x in lines;
      assert !Oversized(line, maxBytes);
      var cost := Utf8Size(line) + 1;
      var first := used + cost <= maxBytes;
      var later := FitKeeps(rest, if first then used + cost else used, maxBytes);
      keep := [first] + later;
      KeepsLength(rest, later, if first then used + cost else used, maxBytes);
      SelectFirst(line, rest, first, later);
      KeepsFirst(lines, first, later, used, maxBytes);
    }
  }

  lemma EmptyKeeps(used: int, maxBytes: int)
    ensures KeepsWhatFits([], [], used, maxBytes)
  {
  }

  lemma KeepsLength(lines: seq<string>, keep: seq<bool>, used: int, maxBytes: int)
    requires KeepsWhatFits(lines, keep, used, maxBytes)
    ensures |keep| == |lines|
  {
  }

  /** The first oversized line is cut to what is left, and ends the output; what follows it is not counted. */
  lemma {:induction false} OversizedEnds(before: seq<string>, line: string, later: seq<string>, used: nat, maxBytes: int)
    requires NoneOversized(before, maxBytes) && Utf8Size(line) + 1 > maxBytes
    ensures var fit, front := Fit(before + [line] + later, used, maxBytes), Fit(before, used, maxBytes);
      && fit.omitted == front.omitted
      && fit.kept == front.kept + [Truncated(line, maxBytes - used - Cost(front.kept), "... [Tool output truncated]")]
  {
    hide Utf8Size, Truncated, Cost;
    CostNothing([]);
    var all := before + [line] + later;
    if before == [] {
      assert all[0] == line;
    } else {
      var first, rest := before[0], before[1..];
      assert first in before && forall x | x in rest :: x in before;
      assert !Oversized(first, maxBytes);
      assert all[0] == first && all[1..] == rest + [line] + later;
      var cost := Utf8Size(first) + 1;
      if used + cost > maxBytes {
        OversizedEnds(rest, line, later, used, maxBytes);
      } else {
        OversizedEnds(rest, line, later, used + cost, maxBytes);
        CostCons(first, Fit(rest, used + cost, maxBytes).kept);
      }
    }
  }

  // ---------------------------------------------------------------- tables

  /** The rows of a table are exactly those that fit beside the reserve when their turn comes, in order. */
  lemma {:induction false} BodyKeeps(lines: seq<string>, used: nat, reserved: nat, maxBytes: int) returns (keep: seq<bool>)
    ensures KeepsWhatFits(lines, keep, used, maxBytes - reserved)
    ensures BodyOf(lines, used, reserved, maxBytes).lines == Ledger.Select(lines, keep)
  {
    hide Utf8Size, Cost, BodyOf, KeepsWhatFits, Ledger.Select;
    NoBody(used, reserved, maxBytes);
    if lines == [] {
      keep := [];
    } else {
      var n := |lines| - 1;
      var front, last := lines[..n], lines[n];
      var before := BodyKeeps(front, used, reserved, maxBytes);
      KeepsLength(front, before, used, maxBytes - reserved);
      BodyIsExact(front, used, reserved, maxBytes);
      BodySnoc(front, last, used, reserved, maxBytes);
      var fits := BodyOf(front, used, reserved, maxBytes).used + Utf8Size(last) + 1 + reserved <= maxBytes;
      keep := before + [fits];
      assert lines == front + [last];
      Ledger.SelectSnoc(front, before, last, fits);
      KeepsLast(lines, before, fits, used, maxBytes - reserved);
    }
  }

  lemma NoBody(used: nat, reserved: nat, maxBytes: int)
    ensures BodyOf([], used, reserved, maxBytes).lines == Ledger.Select([], [])
    ensures KeepsWhatFits([], [], used, maxBytes - reserved)
  {
  }

  lemma BodySnoc(lines: seq<string>, line: string, used: nat, reserved: nat, maxBytes: int)
    ensures var before := BodyOf(lines, used, reserved, maxBytes);
      BodyOf(lines + [line], used, reserved, maxBytes).lines ==
        before.lines + if before.used + Utf8Size(line) + 1 + reserved <= maxBytes then [line] else []
  {
    hide Utf8Size;
    assert (lines + [line])[..|lines|] == lines;
  }

  lemma KeepsLast(lines: seq<string>, keep: seq<bool>, last: bool, used: int, maxBytes: int)
    requires lines != [] && KeepsWhatFits(lines[..|lines| - 1], keep, used, maxBytes)
    requires last <==> used + Cost(Ledger.Select(lines[..|lines| - 1], keep)) + Utf8Size(lines[|lines| - 1]) + 1 <= maxBytes
    ensures KeepsWhatFits(lines, keep + [last], used, maxBytes)
  {
    hide Utf8Size, Cost, Ledger.Select;
    var n := |lines| - 1;
    var all := keep + [last];
    forall i | 0 <= i < |lines|
      ensures all[i] <==> used + KeptCost(lines, all, i) + Utf8Size(lines[i]) + 1 <= maxBytes
    {
      assert all[..i] == keep[..i] && lines[..i] == lines[..n][..i];
      if i == n {
        assert keep[..n] == keep && lines[..n][..n] == lines[..n];
      } else {
        assert lines[..n][i] == lines[i] && KeptCost(lines, all, i) == KeptCost(lines[..n], keep, i);
      }
    }
  }

  /** How many bytes are set aside beside a table's rows. */
  lemma ReservedIs(footer: string, banner: string)
    ensures Reserved(footer, banner) == 80 + |EncodedText(footer)| + if banner == "" then 0 else |EncodedText(banner)| + 2
  {
    hide Utf8Size, EncodedText;
    NoticeSize(0, footer);
    MarkerIsAscii();
    SizeAscii(TRUNCATED_MARKER);
    SizeIsEncoding(footer);
    SizeIsEncoding(banner);
  }

  /** A table as shown: its head, the rows kept, a notice for the others if there are any, and the footer. */
  lemma TableShows(header: string, sep: string, banner: string, footer: string, source: string, lines: seq<string>,
                   maxBytes: int)
    requires Reserved(footer, banner) <= maxBytes
    ensures var head := [header, sep] + if banner == "" then [] else [banner];
      var body := BodyOf(lines, Cost(head), Reserved(footer, banner), maxBytes);
      && |body.lines| + body.omitted == |lines|
      && DatapointsText(header, sep, banner, footer, source, lines, maxBytes) ==
         Join(head + body.lines) +
         (if |body.lines| == |lines| then ""
          else "\n" + "... [Tool output truncated]" + "\n" + "Omitted rows: " + Text.Decimal(|lines| - |body.lines|)) + footer
  {
    hide BodyOf, Cost, Utf8Size, Join, Text.Decimal, Reserved;
    var head := TableHead(header, sep, banner);
    BodyIsExact(lines, Cost(head), Reserved(footer, banner), maxBytes);
  }

  /** The notices of the accumulators: how many rows were left out, and under which keys. */
  lemma NoticesAre(omitted: nat, keys: seq<string>, key: string)
    ensures RowsNotice(omitted) == "... [Tool output truncated]" + " (Omitted rows: " + Text.Decimal(omitted) + ")"
    ensures KeysNotice([key]) == "... [Tool output truncated]" + " (Omitted rows: " + Text.Decimal(1) + " in " + key + ")"
    ensures keys != [] ==>
      KeysNotice(keys + [key]) == "... [Tool output truncated]" + " (Omitted rows: " + Text.Decimal(|keys| + 1) + " in " +
                                  (Listed(keys) + ", " + key) + ")"
  {
    hide Text.Decimal;
    if keys != [] {
      assert (keys + [key])[..|keys|] == keys;
    }
  }

  // ---------------------------------------------------------------- the whole result

  /** A result that fits is shown whole. */
  lemma ShownWhole(result: ToolResult, maxBytes: int)
    ensures var whole := match result
        case Failure(message, details) => Join(["Error: " + Text.Strip(message)] + details)
        case Finalized(lines) => Join(["Research finalized"] + lines)
        case Other(content, card, source) => if IsAnswer(result) then Text.Strip(content.value) else card;
      |EncodedText(whole)| <= maxBytes ==> Rendered(result, maxBytes) == whole
    ensures IsAnswer(result) <==>
      result.Other? && result.content.Some? && exists rest :: Text.LStrip(result.content.value) == "Bottom line:" + rest
  {
    hide Utf8Size, EncodedText, Join, Text.Strip, Text.LStrip;
    var whole := match result
      case Failure(message, details) => Join(["Error: " + Text.Strip(message)] + details)
      case Finalized(lines) => Join(["Research finalized"] + lines)
      case Other(content, card, source) => if IsAnswer(result) then Text.Strip(content.value) else card;
    SizeIsEncoding(whole);
    if IsAnswer(result) {
      var start := Text.LStrip(result.content.value);
      assert start == "Bottom line:" + start[|"Bottom line:"|..];
    }
  }

  /** The minimal card that replaces one without room is a prefix of its line, the longest that fits. */
  lemma MinimalIs(source: string, maxBytes: int) returns (n: nat)
    ensures var line := "Source: " + source + " | " + "... [Tool output truncated]";
      if |EncodedText(line)| <= maxBytes then Minimal(source, maxBytes) == line
      else if maxBytes < 0 then Minimal(source, maxBytes) == ""
      else FitsUpTo(line, maxBytes, n) && Minimal(source, maxBytes) == Text.RStrip(line[..n])
  {
    hide Utf8Size, Truncated, EncodedText, Text.RStrip;
    var line := "Source: " + source + " | " + TRUNCATED_MARKER;
    n := 0;
    SizeIsEncoding(line);
    TruncatedFits(line, maxBytes, "");
    NothingEncoded();
    if |EncodedText(line)| > maxBytes {
      n := TruncatedIs(line, maxBytes, "");
      if maxBytes >= 0 {
        assert Text.RStrip(line[..n]) + "" == Text.RStrip(line[..n]);
      }
    }
  }

  lemma NothingEncoded()
    ensures EncodedText("") == []
  {
  }
}
