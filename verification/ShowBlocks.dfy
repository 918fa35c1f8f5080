/** `parse_show_blocks` on multi-unit `systemctl show` output. */
module ShowBlocks {
  import opened Text

  type Block = map<string, string>

  /** The line boundaries of `str.splitlines`. */
  predicate Breaks(c: char) {
    '\n' <= c <= '\r' || '\U{1C}' <= c <= '\U{1E}' || c in ['\U{85}', '\U{2028}', '\U{2029}']
  }

  /** `str.isspace` on one character. */
  predicate White(c: char) {
    || Space(c) || Breaks(c)
    || '\U{2000}' <= c <= '\U{200A}' || c in ['\U{A0}', '\U{1680}', '\U{202F}', '\U{205F}', '\U{3000}']
  }

  /** `not line.strip()` */
  predicate Blank(line: string) {
    forall i :: 0 <= i < |line| ==> White(line[i])
  }

  function LineLength(text: string): (n: nat)
    ensures n <= |text|
  {
    if text == "" || Breaks(text[0]) then 0 else 1 + LineLength(text[1..])
  }

  /** `text.splitlines()` */
  function Lines(text: string): seq<string>
    decreases |text|
  {
    if text == "" then []
    else
      var n := LineLength(text);
      var rest := text[n..];
      var skip := if rest == "" then 0 else if "\r\n" <= rest then 2 else 1;
      if rest == "" then [text] else [text[..n]] + Lines(rest[skip..])
  }

  /** What a line that is not blank does to the block under way. */
  function Entered(current: Block, line: string): Block {
    var i := IndexOf(line, '=');
    if i < |line| then current[line[..i] := line[i + 1..]] else current
  }

  /** The blocks of the remaining lines, given the one under way. */
  function BlocksFrom(lines: seq<string>, current: Block): seq<Block>
    decreases |lines|
  {
    if lines == [] then (if current != map[] then [current] else [])
    else if !Blank(lines[0]) then BlocksFrom(lines[1..], Entered(current, lines[0]))
    else if current != map[] then [current] + BlocksFrom(lines[1..], map[])
    else BlocksFrom(lines[1..], map[])
  }

  /** `parse_show_blocks` */
  method ParseShowBlocks(text: string) returns (blocks: seq<Block>)
    ensures blocks == BlocksFrom(Lines(text), map[])
  {
    hide Blank, Entered, Lines;
    var lines := Lines(text);
    blocks := [];
    var current: Block := map[];
    for i := 0 to |lines|
      invariant BlocksFrom(lines, map[]) == blocks + BlocksFrom(lines[i..], current)
    {
      var line := lines[i];
      assert lines[i..][0] == line && lines[i..][1..] == lines[i + 1..];
      if Blank(line) {
        if current != map[] {
          blocks := blocks + [current];
          current := map[];
        }
        continue;
      }
      current := Entered(current, line);
    }
    if current != map[] {
      blocks := blocks + [current];
    }
  }

  // ---- Odd lines ----

  /** A line without `=` that is not blank is skipped, and does not end its block. */
  lemma {:induction false} NoKeyIsSkipped(before: seq<string>, line: string, after: seq<string>, current: Block)
    requires '=' !in line && !Blank(line)
    ensures BlocksFrom(before + [line] + after, current) == BlocksFrom(before + after, current)
    decreases |before|
  {
    hide Blank;
    var lines, short := before + [line] + after, before + after;
    if before == [] {
      assert lines[1..] == after == short;
    } else {
      assert lines[1..] == before[1..] + [line] + after && short[1..] == before[1..] + after;
      forall current: Block
        ensures BlocksFrom(lines[1..], current) == BlocksFrom(short[1..], current)
      {
        NoKeyIsSkipped(before[1..], line, after, current);
      }
    }
  }

  /** Spaces and tabs alone, or nothing, end a block. */
  lemma WhiteLineEndsBlock(line: string, after: seq<string>, current: Block)
    requires forall i :: 0 <= i < |line| ==> line[i] in {' ', '\t'}
    ensures BlocksFrom([line] + after, current)
         == (if current == map[] then [] else [current]) + BlocksFrom(after, map[])
  {
    assert ([line] + after)[1..] == after;
  }

  /** Printable ASCII holds no line boundary; LF, VT, FF, CR and the separators each are one, and a
      CR with the LF behind it is a single one. */
  lemma LineEnds(line: string, end: string, rest: string)
    requires forall i :: 0 <= i < |line| ==> ' ' <= line[i] <= '~'
    requires end == "\r" ==> rest == "" || rest[0] != '\n'
    requires end in {"\n", "\r", "\U{B}", "\U{C}", "\r\n", "\U{1C}", "\U{1D}", "\U{1E}", "\U{85}",
                     "\U{2028}", "\U{2029}"}
    ensures Lines(line + end + rest) == [line] + Lines(rest)
  {
    var text, tail := line + end + rest, end + rest;
    assert text == line + tail && tail[0] == end[0];
    LineLengthOf(line, tail);
    assert text[..|line|] == line && text[|line|..] == tail;
    if end == "\r\n" {
      assert tail[..2] == "\r\n" && tail[2..] == rest;
    } else {
      assert tail[1..] == rest;
    }
  }

  // ---- Printing ----

  /** One unit's properties, in the order printed. */
  type Unit = seq<(string, string)>

  predicate OneLine(s: string) {
    forall i :: 0 <= i < |s| ==> !Breaks(s[i])
  }

  predicate Printable(u: Unit) {
    u != [] && forall i :: 0 <= i < |u| ==> '=' !in u[i].0 && OneLine(u[i].0) && OneLine(u[i].1)
  }

  function UnitLines(u: Unit): seq<string> {
    if u == [] then [] else [u[0].0 + "=" + u[0].1] + UnitLines(u[1..])
  }

  /** `gaps[i]` are the lines printed after unit i. */
  function PrintedLines(units: seq<Unit>, gaps: seq<seq<string>>): seq<string>
    requires |gaps| == |units|
  {
    if units == [] then []
    else UnitLines(units[0]) + gaps[0] + PrintedLines(units[1..], gaps[1..])
  }

  function Print(lines: seq<string>): string {
    if lines == [] then "" else lines[0] + "\n" + Print(lines[1..])
  }

  function ToBlock(u: Unit, m: Block): Block {
    if u == [] then m else ToBlock(u[1..], m[u[0].0 := u[0].1])
  }

  /** Blank lines that print as lines of their own. */
  predicate Gap(lines: seq<string>) {
    forall i :: 0 <= i < |lines| ==> Blank(lines[i]) && OneLine(lines[i])
  }

  predicate Separated(units: seq<Unit>, gaps: seq<seq<string>>) {
    |gaps| == |units| && (forall i :: 0 <= i < |gaps| ==> Gap(gaps[i]))
    && forall i :: 0 <= i < |gaps| - 1 ==> gaps[i] != []
  }

  lemma {:induction false} LineLengthOf(line: string, rest: string)
    requires OneLine(line) && rest != "" && Breaks(rest[0])
    ensures LineLength(line + rest) == |line|
  {
    if line == "" {
      assert line + rest == rest;
    } else {
      assert (line + rest)[1..] == line[1..] + rest;
      LineLengthOf(line[1..], rest);
    }
  }

  /** `splitlines` undoes printing lines that contain no line boundary. */
  lemma {:induction false} LinesOfPrint(lines: seq<string>)
    requires forall i :: 0 <= i < |lines| ==> OneLine(lines[i])
    ensures Lines(Print(lines)) == lines
  {
    if lines == [] {
    } else {
      var tail := "\n" + Print(lines[1..]);
      var text := lines[0] + tail;
      assert Print(lines) == text;
      LineLengthOf(lines[0], tail);
      assert text[..|lines[0]|] == lines[0] && text[|lines[0]|..] == tail;
      assert tail[0] == '\n' && tail[1..] == Print(lines[1..]);
      LinesOfPrint(lines[1..]);
    }
  }

  lemma PropertyLine(key: string, value: string, current: Block)
    requires '=' !in key
    ensures !Blank(key + "=" + value)
    ensures Entered(current, key + "=" + value) == current[key := value]
  {
    var line := key + "=" + value;
    assert line == key + ("=" + value);
    IndexOfConcat(key, "=" + value, '=');
    assert line[|key|] == '=';
    assert line[..|key|] == key && line[|key| + 1..] == value;
  }

  lemma {:induction false} UnitEntered(u: Unit, rest: seq<string>, current: Block)
    requires forall i :: 0 <= i < |u| ==> '=' !in u[i].0
    ensures BlocksFrom(UnitLines(u) + rest, current) == BlocksFrom(rest, ToBlock(u, current))
    decreases |u|
  {
    if u == [] {
      assert UnitLines(u) + rest == rest;
    } else {
      hide Blank, Entered;
      var lines := UnitLines(u) + rest;
      PropertyLine(u[0].0, u[0].1, current);
      assert lines[0] == u[0].0 + "=" + u[0].1 && lines[1..] == UnitLines(u[1..]) + rest;
      UnitEntered(u[1..], rest, current[u[0].0 := u[0].1]);
    }
  }

  lemma {:induction false} GapCloses(gap: seq<string>, rest: seq<string>, current: Block)
    requires Gap(gap) && (gap != [] || rest == [] || current == map[])
    ensures BlocksFrom(gap + rest, current)
         == (if current == map[] then [] else [current]) + BlocksFrom(rest, map[])
    decreases |gap|
  {
    hide Blank, Entered;
    if gap == [] {
      assert gap + rest == rest;
    } else {
      assert (gap + rest)[0] == gap[0] && (gap + rest)[1..] == gap[1..] + rest;
      GapCloses(gap[1..], rest, map[]);
    }
  }

  lemma {:induction false} ToBlockFilled(u: Unit, m: Block)
    requires u != [] || m != map[]
    ensures ToBlock(u, m) != map[]
    decreases |u|
  {
    if u == [] {
    } else {
      assert u[0].0 in m[u[0].0 := u[0].1];
      ToBlockFilled(u[1..], m[u[0].0 := u[0].1]);
    }
  }

  function Blocks(units: seq<Unit>): seq<Block> {
    seq(|units|, i requires 0 <= i < |units| => ToBlock(units[i], map[]))
  }

  lemma {:induction false} BlocksOfPrinted(units: seq<Unit>, gaps: seq<seq<string>>)
    requires Separated(units, gaps) && forall i :: 0 <= i < |units| ==> Printable(units[i])
    ensures BlocksFrom(PrintedLines(units, gaps), map[]) == Blocks(units)
  {
    if units == [] {
    } else {
      hide Blank, BlocksFrom, UnitLines, ToBlock;
      var rest := PrintedLines(units[1..], gaps[1..]);
      var block := ToBlock(units[0], map[]);
      assert PrintedLines(units, gaps) == UnitLines(units[0]) + (gaps[0] + rest);
      UnitEntered(units[0], gaps[0] + rest, map[]);
      ToBlockFilled(units[0], map[]);
      GapCloses(gaps[0], rest, block);
      BlocksOfPrinted(units[1..], gaps[1..]);
      assert Blocks(units) == [block] + Blocks(units[1..]);
    }
  }

  lemma {:induction false} UnitLinesOneLine(u: Unit)
    requires forall i :: 0 <= i < |u| ==> OneLine(u[i].0) && OneLine(u[i].1)
    ensures forall i :: 0 <= i < |UnitLines(u)| ==> OneLine(UnitLines(u)[i])
  {
    if u == [] {
    } else {
      UnitLinesOneLine(u[1..]);
      assert OneLine(u[0].0 + "=" + u[0].1);
    }
  }

  lemma {:induction false} PrintedOneLine(units: seq<Unit>, gaps: seq<seq<string>>)
    requires Separated(units, gaps) && forall i :: 0 <= i < |units| ==> Printable(units[i])
    ensures forall i :: 0 <= i < |PrintedLines(units, gaps)| ==> OneLine(PrintedLines(units, gaps)[i])
  {
    if units == [] {
    } else {
      hide OneLine, UnitLines, Blank;
      UnitLinesOneLine(units[0]);
      PrintedOneLine(units[1..], gaps[1..]);
    }
  }

  /** Parsing undoes printing: any list of non-empty units, as `key=value` lines with one or more
      blank lines between units, comes back as the same list of dicts. */
  lemma ParseUndoesPrint(units: seq<Unit>, gaps: seq<seq<string>>)
    requires Separated(units, gaps) && forall i :: 0 <= i < |units| ==> Printable(units[i])
    ensures BlocksFrom(Lines(Print(PrintedLines(units, gaps))), map[]) == Blocks(units)
  {
    hide BlocksFrom, Lines, Print, PrintedLines, Blank, OneLine;
    PrintedOneLine(units, gaps);
    LinesOfPrint(PrintedLines(units, gaps));
    BlocksOfPrinted(units, gaps);
  }
}
