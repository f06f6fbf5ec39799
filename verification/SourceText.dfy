/** Lines and columns of a text, and cutting a range of them out again. */
module SourceText {

  /** The number of line breaks. */
  function Line(s: string): nat {
    if s == "" then 0 else Line(s[..|s| - 1]) + if s[|s| - 1] == '\n' then 1 else 0
  }

  /** The number of characters after the last line break. */
  function Column(s: string): (c: nat)
    ensures c <= |s|
  {
    if s == "" || s[|s| - 1] == '\n' then 0 else 1 + Column(s[..|s| - 1])
  }

  lemma {:induction false} LineOfConcat(x: string, y: string)
    ensures Line(x + y) == Line(x) + Line(y)
    ensures '\n' !in y ==> Line(y) == 0 && Column(x + y) == Column(x) + |y|
    ensures '\n' in y ==> Column(x + y) == Column(y)
  {
    if y == "" {
      assert x + y == x;
    } else {
      var front, c := y[..|y| - 1], y[|y| - 1];
      assert (x + y)[..|x + y| - 1] == x + front;
      assert y == front + [c];
      LineOfConcat(x, front);
    }
  }

  /** Lines as `getline` reads them: no line after a final line break. */
  function SplitByLines(s: string): seq<string> {
    if s == "" then []
    else if BreakAt(s) == |s| then [s]
    else [s[..BreakAt(s)]] + SplitByLines(s[BreakAt(s) + 1..])
  }

  /** The position of the first line break, or |s|. */
  function BreakAt(s: string): (k: nat)
    ensures k <= |s| && '\n' !in s[..k] && (k < |s| ==> s[k] == '\n')
  {
    if s == "" || s[0] == '\n' then 0 else
    var k := BreakAt(s[1..]);
    assert s[..k + 1] == [s[0]] + s[1..][..k];
    k + 1
  }

  /** A range of lines and columns counted from 0; the end column is exclusive. */
  datatype Srcref = Srcref(startLine: nat, startPosition: nat, endLine: int, endPosition: int)

  function Column2(line: string, from: nat, to: int): string {
    if from <= to <= |line| then line[from..to] else ""
  }

  /** The text a range selects: the rest of its first line, the lines between, the start of its last line. */
  function Cut(lines: seq<string>, r: Srcref): string
    decreases r.endLine - r.startLine
  {
    if r.startLine >= |lines| || r.startLine > r.endLine then ""
    else if r.startLine == r.endLine then Column2(lines[r.startLine], r.startPosition, r.endPosition)
    else Column2(lines[r.startLine], r.startPosition, |lines[r.startLine]|) + "\n"
         + Cut(lines, Srcref(r.startLine + 1, 0, r.endLine, r.endPosition))
  }

  /** The range from offset a to offset b. */
  function RangeOf(text: string, a: nat, b: nat): (r: Srcref)
    requires a <= b <= |text|
    ensures r.endLine >= 0
  {
    Srcref(Line(text[..a]), Column(text[..a]), Line(text[..b]), Column(text[..b]))
  }

  lemma CutShift(first: string, lines: seq<string>, r: Srcref)
    ensures Cut([first] + lines, Srcref(r.startLine + 1, r.startPosition, r.endLine + 1, r.endPosition)) ==
        Cut(lines, r)
  {
    hide Cut;
    CutLater([first] + lines, lines, r);
  }

  lemma {:induction false} CutLater(all: seq<string>, lines: seq<string>, r: Srcref)
    requires |all| == |lines| + 1 && forall i :: 0 <= i < |lines| ==> all[i + 1] == lines[i]
    ensures Cut(all, Srcref(r.startLine + 1, r.startPosition, r.endLine + 1, r.endPosition)) == Cut(lines, r)
    decreases r.endLine - r.startLine
  {
    hide Column2;
    if r.startLine < |lines| {
      assert all[r.startLine + 1] == lines[r.startLine];
      if r.startLine < r.endLine {
        CutLater(all, lines, Srcref(r.startLine + 1, 0, r.endLine, r.endPosition));
      }
    }
  }

  lemma OneLine(s: string)
    requires '\n' !in s
    ensures Line(s) == 0 && Column(s) == |s|
  {
    LineOfConcat("", s);
    assert "" + s == s;
  }

  function Join(first: string, rest: string): (text: string)
    ensures |text| == |first| + 1 + |rest|
  {
    first + "\n" + rest
  }

  /** A text that starts with the line `first`: prefixes that end on that line, and after it. */
  lemma PrefixOnFirstLine(first: string, rest: string, a: nat)
    requires '\n' !in first && a <= |first|
    ensures Line(Join(first, rest)[..a]) == 0 && Column(Join(first, rest)[..a]) == a
  {
    assert Join(first, rest)[..a] == first[..a];
    OneLine(first[..a]);
  }

  lemma PrefixPastFirstLine(first: string, rest: string, a: nat)
    requires '\n' !in first && a <= |rest|
    ensures
      var p := Join(first, rest)[..|first| + 1 + a];
      Line(p) == Line(rest[..a]) + 1 && Column(p) == Column(rest[..a])
  {
    var head, tail := first + "\n", rest[..a];
    OneLine(first);
    LineOfConcat(first, "\n");
    assert Line("\n") == 1 && Column("\n") == 0;
    LineOfConcat(head, tail);
    if '\n' !in tail {
      OneLine(tail);
    }
    assert Join(first, rest)[..|first| + 1 + a] == head + tail;
  }

  lemma {:induction false} BreakAfter(first: string, rest: string)
    requires '\n' !in first
    ensures BreakAt(Join(first, rest)) == |first|
  {
    if first == "" {
      assert Join(first, rest) == "\n" + rest;
    } else {
      assert Join(first, rest)[1..] == Join(first[1..], rest);
      BreakAfter(first[1..], rest);
    }
  }

  lemma SplitFirst(first: string, rest: string)
    requires '\n' !in first
    ensures SplitByLines(Join(first, rest)) == [first] + SplitByLines(rest)
  {
    BreakAfter(first, rest);
    var text := Join(first, rest);
    assert text[..|first|] == first && text[|first| + 1..] == rest;
  }

  lemma CutUnfold(lines: seq<string>, r: Srcref)
    requires r.startLine < |lines| && r.startLine < r.endLine
    ensures Cut(lines, r) ==
      Column2(lines[r.startLine], r.startPosition, |lines[r.startLine]|) + "\n"
      + Cut(lines, Srcref(r.startLine + 1, 0, r.endLine, r.endPosition))
  {
  }

  /** A range that ends after the first line. */
  lemma CutPastFirstLine(first: string, lines: seq<string>, a: nat, l: int, c: int)
    requires l >= 0
    requires a <= |first|
    ensures Cut([first] + lines, Srcref(0, a, l + 1, c)) == Join(first[a..|first|], Cut(lines, Srcref(0, 0, l, c)))
  {
    var all := [first] + lines;
    assert all[0] == first;
    CutUnfold(all, Srcref(0, a, l + 1, c));
    CutShift(first, lines, Srcref(0, 0, l, c));
    hide Cut;
  }

  /** The characters between two offsets. */
  function Between(text: string, a: nat, b: nat): string
    requires a <= b <= |text|
  {
    text[a..b]
  }

  predicate CutsExactly(text: string, a: nat, b: nat)
    requires a <= b <= |text|
  {
    Cut(SplitByLines(text), RangeOf(text, a, b)) == Between(text, a, b)
  }

  /** Cutting the range of two offsets yields exactly the characters between them. */
  lemma CutIsExact(text: string, a: nat, b: nat)
    requires a <= b <= |text|
    ensures Cut(SplitByLines(text), RangeOf(text, a, b)) == text[a..b]
  {
    hide Cut, SplitByLines, RangeOf;
    CutIsBetween(text, a, b);
  }

  lemma {:induction false} CutIsBetween(text: string, a: nat, b: nat)
    requires a <= b <= |text|
    ensures CutsExactly(text, a, b)
    decreases |text|
  {
    var k := BreakAt(text);
    if k == |text| {
      CutOnOneLine(text, a, b);
    } else {
      var first, rest := text[..k], text[k + 1..];
      assert text == Join(first, rest);
      hide *;
      if b <= k {
        CutWithin(first, rest, a, b);
      } else if a <= k {
        CutIsBetween(rest, 0, b - k - 1);
        CutAcross(first, rest, a, b - k - 1, b);
      } else {
        CutIsBetween(rest, a - k - 1, b - k - 1);
        CutPast(first, rest, a - k - 1, b - k - 1, a, b);
      }
    }
  }

  lemma CutOnOneLine(text: string, a: nat, b: nat)
    requires a <= b <= |text| && BreakAt(text) == |text|
    ensures CutsExactly(text, a, b)
  {
    assert text[..|text|] == text;
    OneLine(text[..a]);
    OneLine(text[..b]);
  }

  /** The range of two offsets of a text that starts with the line `first`. */
  lemma RangeWithin(first: string, rest: string, a: nat, b: nat)
    requires '\n' !in first && a <= b <= |first|
    ensures RangeOf(Join(first, rest), a, b) == Srcref(0, a, 0, b)
  {
    hide Line, Column;
    PrefixOnFirstLine(first, rest, a);
    PrefixOnFirstLine(first, rest, b);
  }

  lemma RangeAcross(first: string, rest: string, a: nat, b: nat)
    requires '\n' !in first && a <= |first| && b <= |rest|
    ensures
      var s := RangeOf(rest, 0, b);
      && s.startLine == s.startPosition == 0
      && RangeOf(Join(first, rest), a, |first| + 1 + b) == Srcref(0, a, s.endLine + 1, s.endPosition)
  {
    PrefixStart(rest);
    hide Line, Column;
    PrefixOnFirstLine(first, rest, a);
    PrefixPastFirstLine(first, rest, b);
  }

  lemma RangePast(first: string, rest: string, a: nat, b: nat)
    requires '\n' !in first && a <= b <= |rest|
    ensures
      var s := RangeOf(rest, a, b);
      RangeOf(Join(first, rest), |first| + 1 + a, |first| + 1 + b) ==
      Srcref(s.startLine + 1, s.startPosition, s.endLine + 1, s.endPosition)
  {
    hide Line, Column;
    PrefixPastFirstLine(first, rest, a);
    PrefixPastFirstLine(first, rest, b);
  }

  /** A range inside the first line, one that starts there, and one behind it. */
  lemma CutWithin(first: string, rest: string, a: nat, b: nat)
    requires '\n' !in first && a <= b <= |first|
    ensures CutsExactly(Join(first, rest), a, b)
  {
    hide Cut, SplitByLines, RangeOf;
    SplitFirst(first, rest);
    RangeWithin(first, rest, a, b);
    CutInFirstLine(first, SplitByLines(rest), a, b);
  }

  lemma CutAcross(first: string, rest: string, a: nat, b: nat, b': nat)
    requires '\n' !in first && a <= |first| && b <= |rest| && b' == |first| + 1 + b && CutsExactly(rest, 0, b)
    ensures CutsExactly(Join(first, rest), a, b')
  {
    hide Cut, SplitByLines, RangeOf, Between, Join, Line, Column;
    RangeAcross(first, rest, a, b);
    SliceAcross(first, rest, a, b);
    SplitFirst(first, rest);
    var s := RangeOf(rest, 0, b);
    assert s == Srcref(0, 0, s.endLine, s.endPosition);
    CutPastFirstLine(first, SplitByLines(rest), a, s.endLine, s.endPosition);
  }

  lemma SliceAcross(first: string, rest: string, a: nat, b: nat)
    requires a <= |first| && b <= |rest|
    ensures Between(Join(first, rest), a, |first| + 1 + b) == Join(first[a..|first|], Between(rest, 0, b))
  {
    var head := first + "\n";
    assert (head + rest)[a..|head| + b] == head[a..] + rest[..b];
    assert head[a..] == first[a..|first|] + "\n";
  }

  lemma CutPast(first: string, rest: string, a: nat, b: nat, a': nat, b': nat)
    requires '\n' !in first && a <= b <= |rest| && a' == |first| + 1 + a && b' == |first| + 1 + b
    requires CutsExactly(rest, a, b)
    ensures CutsExactly(Join(first, rest), a', b')
  {
    hide Cut, SplitByLines, RangeOf, Between, Join, Line, Column;
    RangePast(first, rest, a, b);
    SlicePast(first, rest, a, b);
    SplitFirst(first, rest);
    CutShift(first, SplitByLines(rest), RangeOf(rest, a, b));
  }

  lemma SlicePast(first: string, rest: string, a: nat, b: nat)
    requires a <= b <= |rest|
    ensures Between(Join(first, rest), |first| + 1 + a, |first| + 1 + b) == Between(rest, a, b)
  {
    var head := first + "\n";
    assert (head + rest)[|head| + a..|head| + b] == rest[a..b];
  }

  lemma PrefixStart(s: string)
    ensures Line(s[..0]) == 0 && Column(s[..0]) == 0
  {
  }

  lemma CutInFirstLine(first: string, lines: seq<string>, a: nat, b: nat)
    requires a <= b <= |first|
    ensures Cut([first] + lines, Srcref(0, a, 0, b)) == first[a..b]
  {
    assert ([first] + lines)[0] == first;
  }
}
