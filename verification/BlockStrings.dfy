/**
 Block strings: the dedenting of section 2.9.4 of the GraphQL specification
 (BlockStringValue), its inverse `print_block_string`, and the test whether a value can
 be printed as a block string.
 */
module BlockStrings {
  import opened Options
  import opened Lexing

  predicate IsBlank(c: int) {
    c == SPACE || c == TAB
  }

  // ---------------------------------------------------------------------------
  // Lines
  // ---------------------------------------------------------------------------

  /** The lines between line feeds; a text always has at least one. */
  function Lines(s: Text): (lines: seq<Text>)
    ensures lines != []
  {
    if s == [] then [[]]
    else
      var rest := Lines(s[1..]);
      if s[0] == LF then [[]] + rest else [[s[0]] + rest[0]] + rest[1..]
  }

  /** "\n".join(lines) */
  function Join(lines: seq<Text>): Text {
    if lines == [] then []
    else if |lines| == 1 then lines[0]
    else lines[0] + [LF] + Join(lines[1..])
  }

  predicate OneLine(l: Text) {
    LF !in l
  }

  predicate AllOneLine(lines: seq<Text>) {
    forall i | 0 <= i < |lines| :: OneLine(lines[i])
  }

  lemma {:induction false} LinesOneLine(s: Text)
    ensures AllOneLine(Lines(s))
  {
    if s != [] {
      LinesOneLine(s[1..]);
    }
  }

  lemma {:induction false} JoinLines(s: Text)
    ensures Join(Lines(s)) == s
  {
    if s != [] {
      var rest := Lines(s[1..]);
      JoinLines(s[1..]);
      if s[0] == LF {
        assert ([[]] + rest)[1..] == rest;
      } else if |rest| > 1 {
        assert ([[s[0]] + rest[0]] + rest[1..])[1..] == rest[1..];
      }
    }
  }

  lemma {:induction false} LinesOfOne(l: Text)
    requires OneLine(l)
    ensures Lines(l) == [l]
  {
    if l != [] {
      LinesOfOne(l[1..]);
      assert l == [l[0]] + l[1..];
      assert l[0] != LF;
    }
  }

  lemma {:induction false} LinesOfJoin(l: Text, s: Text)
    requires OneLine(l)
    ensures Lines(l + [LF] + s) == [l] + Lines(s)
  {
    if l == [] {
      assert (l + [LF] + s)[1..] == s;
    } else {
      assert (l + [LF] + s)[1..] == l[1..] + [LF] + s;
      LinesOfJoin(l[1..], s);
      assert l == [l[0]] + l[1..] && l[0] != LF;
      assert ([l[1..]] + Lines(s))[1..] == Lines(s);
    }
  }

  lemma {:induction false} LinesJoin(lines: seq<Text>)
    requires lines != [] && AllOneLine(lines)
    ensures Lines(Join(lines)) == lines
    decreases |lines|
  {
    if |lines| == 1 {
      LinesOfOne(lines[0]);
    } else {
      LinesJoin(lines[1..]);
      LinesOfJoin(lines[0], Join(lines[1..]));
    }
  }

  // ---------------------------------------------------------------------------
  // Dedenting
  // ---------------------------------------------------------------------------

  function LeadingWhiteSpace(s: Text): (n: nat)
    ensures n <= |s|
  {
    if s == [] || !IsBlank(s[0]) then 0 else 1 + LeadingWhiteSpace(s[1..])
  }

  /** The line is white space only. */
  predicate Empty(l: Text) {
    LeadingWhiteSpace(l) == |l|
  }

  /** The line has something on it, and that right at its start. */
  predicate Flush(l: Text) {
    l != [] && !IsBlank(l[0])
  }

  /** The index of the first line that is not empty, or the number of lines. */
  function FirstFilled(lines: seq<Text>): (i: nat)
    ensures i <= |lines|
  {
    if lines == [] || !Empty(lines[0]) then 0 else 1 + FirstFilled(lines[1..])
  }

  /** The number of lines up to and including the last one that is not empty. */
  function LastFilled(lines: seq<Text>): (n: nat)
    ensures n <= |lines|
  {
    if lines == [] then 0
    else if !Empty(lines[|lines| - 1]) then |lines|
    else LastFilled(lines[..|lines| - 1])
  }

  /** The least indentation of the lines that are not empty; `None` stands for the initial maxsize. */
  function MinIndent(lines: seq<Text>): Option<nat> {
    if lines == [] then None
    else
      var last := lines[|lines| - 1];
      var before := MinIndent(lines[..|lines| - 1]);
      if Empty(last) then before
      else if before.None? || LeadingWhiteSpace(last) < before.value then Some(LeadingWhiteSpace(last))
      else before
  }

  /** A Python slice `line[n:]`. */
  function Cut(l: Text, n: Option<nat>): Text {
    if n.None? || n.value > |l| then [] else l[n.value..]
  }

  function CutAll(lines: seq<Text>, n: Option<nat>): (r: seq<Text>)
    ensures |r| == |lines|
    ensures forall i | 0 <= i < |lines| :: r[i] == Cut(lines[i], n)
  {
    if lines == [] then [] else [Cut(lines[0], n)] + CutAll(lines[1..], n)
  }

  /** All lines, with the common indentation taken off all but the first. */
  function Unindented(lines: seq<Text>): (r: seq<Text>)
    ensures |r| == |lines|
  {
    if lines == [] then [] else [lines[0]] + CutAll(lines[1..], MinIndent(lines[1..]))
  }

  function Dedent(lines: seq<Text>): seq<Text> {
    var first, last := FirstFilled(lines), LastFilled(lines);
    if first < last then Unindented(lines)[first..last] else []
  }

  /** `dedent_block_string_lines` */
  method DedentBlockStringLines(lines: seq<Text>) returns (r: seq<Text>)
    ensures r == Dedent(lines)
  {
    var commonIndent: Option<nat> := None;
    var firstNonEmptyLine: Option<nat> := None;
    var lastNonEmptyLine := -1;
    for i := 0 to |lines|
      invariant firstNonEmptyLine == if FirstFilled(lines[..i]) == i then None else Some(FirstFilled(lines[..i]))
      invariant lastNonEmptyLine == LastFilled(lines[..i]) - 1
      invariant commonIndent == if i == 0 then None else MinIndent(lines[1..i])
    {
      var line := lines[i];
      var indent := LeadingWhiteSpaceOf(line);
      assert lines[..i + 1] == lines[..i] + [line];
      FirstFilledSnoc(lines[..i], line);
      if i > 0 {
        assert lines[1..i + 1] == lines[1..i] + [line];
      }
      if indent == |line| {
        continue;
      }
      if firstNonEmptyLine.None? {
        firstNonEmptyLine := Some(i);
      }
      lastNonEmptyLine := i;
      if i > 0 && (commonIndent.None? || indent < commonIndent.value) {
        commonIndent := Some(indent);
      }
    }
    assert lines[..|lines|] == lines;
    if lines != [] {
      assert lines[1..|lines|] == lines[1..];
    }
    var first := if firstNonEmptyLine.None? then 0 else firstNonEmptyLine.value;
    var all := if lines == [] then [] else [lines[0]] + CutAll(lines[1..], commonIndent);
    FilledOrder(lines);
    r := if first < lastNonEmptyLine + 1 then all[first..lastNonEmptyLine + 1] else [];
  }

  /** `leading_white_space` */
  method LeadingWhiteSpaceOf(s: Text) returns (i: nat)
    ensures i == LeadingWhiteSpace(s)
  {
    i := 0;
    for k := 0 to |s|
      invariant i == k && LeadingWhiteSpace(s) == k + LeadingWhiteSpace(s[k..])
    {
      if !IsBlank(s[k]) {
        return i;
      }
      assert s[k..][1..] == s[k + 1..];
      i := i + 1;
    }
  }

  lemma {:induction false} FirstFilledSnoc(lines: seq<Text>, line: Text)
    ensures FirstFilled(lines + [line]) ==
            if FirstFilled(lines) < |lines| then FirstFilled(lines)
            else if Empty(line) then |lines| + 1 else |lines|
  {
    if lines != [] {
      assert (lines + [line])[1..] == lines[1..] + [line];
      FirstFilledSnoc(lines[1..], line);
    }
  }

  /** Either no line is filled, or the first one that is comes before the end of the last one that is. */
  lemma {:induction false} FilledOrder(lines: seq<Text>)
    ensures FirstFilled(lines) == |lines| <==> LastFilled(lines) == 0
    ensures LastFilled(lines) > 0 ==> FirstFilled(lines) < LastFilled(lines)
    ensures FirstFilled(lines) < |lines| ==> !Empty(lines[FirstFilled(lines)])
    ensures LastFilled(lines) > 0 ==> !Empty(lines[LastFilled(lines) - 1])
    ensures forall i | 0 <= i < FirstFilled(lines) :: Empty(lines[i])
    ensures forall i | LastFilled(lines) <= i < |lines| :: Empty(lines[i])
    decreases |lines|
  {
    if lines != [] {
      var front, line := lines[..|lines| - 1], lines[|lines| - 1];
      assert lines == front + [line];
      FilledOrder(front);
      FirstFilledSnoc(front, line);
    }
  }

  // ---------------------------------------------------------------------------
  // The values that dedenting produces
  // ---------------------------------------------------------------------------

  /** Some line starts with something other than white space. */
  predicate SomeFlush(lines: seq<Text>) {
    exists i :: 0 <= i < |lines| && Flush(lines[i])
  }

  /** Neither the first nor the last line is empty, and several lines are not all indented. */
  predicate CanonicalLines(lines: seq<Text>)
    requires lines != []
  {
    && !Empty(lines[0]) && !Empty(lines[|lines| - 1])
    && (|lines| == 1 || SomeFlush(lines))
  }

  predicate Canonical(v: Text) {
    v == [] || CanonicalLines(Lines(v))
  }

  lemma {:induction false} MinIndentIsMin(lines: seq<Text>)
    ensures MinIndent(lines).None? <==> forall i | 0 <= i < |lines| :: Empty(lines[i])
    ensures MinIndent(lines).Some? ==>
              forall i | 0 <= i < |lines| && !Empty(lines[i]) :: MinIndent(lines).value <= LeadingWhiteSpace(lines[i])
    ensures MinIndent(lines).Some? ==>
              exists i :: 0 <= i < |lines| && !Empty(lines[i]) && LeadingWhiteSpace(lines[i]) == MinIndent(lines).value
    decreases |lines|
  {
    if lines != [] {
      var front, last := lines[..|lines| - 1], lines[|lines| - 1];
      MinIndentIsMin(front);
      var n := |lines| - 1;
      assert lines[n] == last;
      if MinIndent(front).Some? {
        var i :| 0 <= i < |front| && !Empty(front[i]) && LeadingWhiteSpace(front[i]) == MinIndent(front).value;
        assert lines[i] == front[i];
      }
      forall i | 0 <= i < n ensures lines[i] == front[i] {
      }
    }
  }

  /** Cutting at most the indentation of a filled line leaves it filled. */
  lemma {:induction false} CutFilled(l: Text, n: nat)
    requires !Empty(l) && n <= LeadingWhiteSpace(l)
    ensures Cut(l, Some(n)) == l[n..]
    ensures LeadingWhiteSpace(l[n..]) == LeadingWhiteSpace(l) - n && !Empty(l[n..])
    ensures n == LeadingWhiteSpace(l) ==> Flush(l[n..])
  {
    if n > 0 {
      CutFilled(l[1..], n - 1);
      assert l[1..][n - 1..] == l[n..];
    } else {
      assert l[0..] == l;
    }
  }

  lemma {:induction false} CutOneLine(l: Text, n: Option<nat>)
    requires OneLine(l)
    ensures OneLine(Cut(l, n))
  {
  }

  lemma {:induction false} UnindentedFilled(lines: seq<Text>, i: nat)
    requires i < |lines| && !Empty(lines[i])
    ensures !Empty(Unindented(lines)[i])
  {
    if i > 0 {
      var rest := lines[1..];
      MinIndentIsMin(rest);
      assert rest[i - 1] == lines[i];
      CutFilled(lines[i], MinIndent(rest).value);
    }
  }

  /** Some line after the first is flush once the common indentation is gone. */
  lemma {:induction false} UnindentedFlush(lines: seq<Text>) returns (i: nat)
    requires |lines| > 1 && exists k :: 1 <= k < |lines| && !Empty(lines[k])
    ensures 1 <= i < |lines| && !Empty(lines[i]) && Flush(Unindented(lines)[i])
  {
    var rest := lines[1..];
    MinIndentIsMin(rest);
    var k :| 1 <= k < |lines| && !Empty(lines[k]);
    assert rest[k - 1] == lines[k];
    var m :| 0 <= m < |rest| && !Empty(rest[m]) && LeadingWhiteSpace(rest[m]) == MinIndent(rest).value;
    CutFilled(rest[m], MinIndent(rest).value);
    i := m + 1;
  }

  /** Whatever lines it is given, dedenting produces none, or those of a canonical value. */
  lemma {:induction false} DedentCanonicalLines(lines: seq<Text>)
    ensures var d := Dedent(lines); d == [] || CanonicalLines(d)
  {
    hide FirstFilled, LastFilled, Unindented, Empty, Flush;
    var first, last := FirstFilled(lines), LastFilled(lines);
    FilledOrder(lines);
    if first < last {
      UnindentedFilled(lines, first);
      UnindentedFilled(lines, last - 1);
      if last - first > 1 {
        var i := UnindentedFlush(lines);
        assert Unindented(lines)[first..last][i - first] == Unindented(lines)[i];
      }
    }
  }

  /** `dedent_block_string_lines` only produces canonical values. */
  lemma {:induction false} DedentCanonical(lines: seq<Text>)
    requires AllOneLine(lines)
    ensures Canonical(Join(Dedent(lines)))
  {
    var d := Dedent(lines);
    DedentCanonicalLines(lines);
    if d != [] {
      forall i | 0 <= i < |lines| ensures OneLine(Unindented(lines)[i]) {
        assert OneLine(lines[i]);
        if i > 0 {
          CutOneLine(lines[i], MinIndent(lines[1..]));
        }
      }
      LinesJoin(d);
    }
  }

  /** Joining lines to a text: the last line of the one runs into the first of the other. */
  function Glue(xs: seq<Text>, ys: seq<Text>): seq<Text>
    requires xs != [] && ys != []
  {
    xs[..|xs| - 1] + [xs[|xs| - 1] + ys[0]] + ys[1..]
  }

  lemma {:induction false} LinesConcat(s: Text, t: Text)
    ensures Lines(s + t) == Glue(Lines(s), Lines(t))
  {
    if s == [] {
      assert s + t == t;
      assert Lines(s) == [[]];
      assert [] + Lines(t)[0] == Lines(t)[0];
    } else {
      assert (s + t)[1..] == s[1..] + t;
      LinesConcat(s[1..], t);
      var xs, ys := Lines(s[1..]), Lines(t);
      if s[0] == LF {
        assert Glue([[]] + xs, ys) == [[]] + Glue(xs, ys);
      } else {
        GlueFirst([s[0]], xs, ys);
      }
    }
  }

  lemma {:induction false} GlueFirst(p: Text, xs: seq<Text>, ys: seq<Text>)
    requires xs != [] && ys != []
    ensures Glue([p + xs[0]] + xs[1..], ys) == [p + Glue(xs, ys)[0]] + Glue(xs, ys)[1..]
  {
    if |xs| == 1 {
      assert p + xs[0] + ys[0] == p + (xs[0] + ys[0]);
    }
  }

  // ---------------------------------------------------------------------------
  // is_printable_as_block_string
  // ---------------------------------------------------------------------------

  /** The control characters that are refused, tabs and line feeds apart. */
  predicate Refused(c: int) {
    c <= 0x0F && c != TAB && c != LF
  }

  predicate NoneRefused(v: Text) {
    forall i | 0 <= i < |v| :: !Refused(v[i])
  }

  lemma {:induction false} LinesSnoc(s: Text, c: int)
    ensures var xs := Lines(s);
            var n := |xs| - 1;
            Lines(s + [c]) == if c == LF then xs + [[]] else xs[..n] + [xs[n] + [c]]
  {
    var xs := Lines(s);
    var n := |xs| - 1;
    LinesConcat(s, [c]);
    assert [c][1..] == [];
    assert Lines([]) == [[]];
    if c == LF {
      assert Lines([c]) == [[]] + [[]];
      assert xs[n] + [] == xs[n] && xs[..n] + [xs[n]] == xs;
    } else {
      assert Lines([c]) == [[c] + []] + [];
      assert [c] + [] == [c];
    }
  }

  /** The flags of the scan, in terms of the lines read so far. */
  ghost predicate Scanned(lines: seq<Text>, isEmptyLine: bool, hasIndent: bool, hasCommonIndent: bool,
      seenNonEmptyLine: bool)
    requires lines != []
  {
    var line := lines[|lines| - 1];
    && isEmptyLine == Empty(line)
    && hasIndent == (line != [] && IsBlank(line[0]))
    && hasCommonIndent == !SomeFlush(lines)
    && seenNonEmptyLine == (|lines| > 1)
    && (|lines| > 1 ==> !Empty(lines[0]))
  }

  lemma {:induction false} EmptySnoc(l: Text, c: int)
    ensures Empty(l + [c]) <==> Empty(l) && IsBlank(c)
  {
    if l != [] {
      assert (l + [c])[1..] == l[1..] + [c];
      EmptySnoc(l[1..], c);
    }
  }

  /** One more character on the last line. */
  lemma {:induction false} FlushSnoc(lines: seq<Text>, c: int)
    requires lines != []
    ensures var n := |lines| - 1;
            SomeFlush(lines[..n] + [lines[n] + [c]]) <==> SomeFlush(lines) || (lines[n] == [] && !IsBlank(c))
  {
    var n := |lines| - 1;
    var longer := lines[..n] + [lines[n] + [c]];
    if SomeFlush(lines) {
      var i :| 0 <= i < |lines| && Flush(lines[i]);
      assert Flush(longer[i]);
    }
    if lines[n] == [] && !IsBlank(c) {
      assert Flush(longer[n]);
    }
    if SomeFlush(longer) {
      var i :| 0 <= i < |longer| && Flush(longer[i]);
      assert i < n ==> Flush(lines[i]);
      assert i == n && lines[n] != [] ==> Flush(lines[n]);
    }
  }

  lemma {:induction false} ScannedChar(lines: seq<Text>, c: int, isEmptyLine: bool, hasIndent: bool,
      hasCommonIndent: bool, seen: bool)
    requires lines != [] && c != LF && Scanned(lines, isEmptyLine, hasIndent, hasCommonIndent, seen)
    ensures var n := |lines| - 1;
            var longer := lines[..n] + [lines[n] + [c]];
            if IsBlank(c) then Scanned(longer, isEmptyLine, hasIndent || isEmptyLine, hasCommonIndent, seen)
            else Scanned(longer, false, hasIndent, hasCommonIndent && hasIndent, seen)
  {
    var n := |lines| - 1;
    EmptySnoc(lines[n], c);
    FlushSnoc(lines, c);
    if Flush(lines[n]) {
      assert SomeFlush(lines);
    }
    hide SomeFlush;
  }

  lemma {:induction false} ScannedBreak(lines: seq<Text>, isEmptyLine: bool, hasIndent: bool, hasCommonIndent: bool,
      seen: bool)
    requires lines != [] && Scanned(lines, isEmptyLine, hasIndent, hasCommonIndent, seen) && !(isEmptyLine && !seen)
    ensures Scanned(lines + [[]], true, false, hasCommonIndent, true)
  {
    var more := lines + [[]];
    if SomeFlush(lines) {
      var i :| 0 <= i < |lines| && Flush(lines[i]);
      assert Flush(more[i]);
    }
    if SomeFlush(more) {
      var i :| 0 <= i < |more| && Flush(more[i]);
      assert more[i] == lines[i];
    }
    hide SomeFlush;
  }

  /** A first line that is empty spoils everything after it. */
  lemma {:induction false} EmptyFirstLine(s: Text, t: Text)
    requires |Lines(s)| == 1 && Empty(Lines(s)[0])
    ensures !Canonical(s + [LF] + t)
  {
    LinesSnoc(s, LF);
    LinesConcat(s + [LF], t);
    assert Lines(s + [LF] + t)[0] == Lines(s)[0];
  }

  /** `is_printable_as_block_string` holds exactly for the canonical values without refused characters. */
  method IsPrintableAsBlockString(value: Text) returns (r: bool)
    ensures r <==> Canonical(value) && NoneRefused(value)
  {
    if value == [] {
      return true;
    }
    hide Empty, SomeFlush, Scanned, Lines;
    var isEmptyLine, hasIndent, hasCommonIndent, seenNonEmptyLine := true, false, true, false;
    ScannedStart();
    for k := 0 to |value|
      invariant Scanned(Lines(value[..k]), isEmptyLine, hasIndent, hasCommonIndent, seenNonEmptyLine)
      invariant NoneRefused(value[..k])
    {
      var c := value[k];
      ghost var lines := Lines(value[..k]);
      assert value[..k + 1] == value[..k] + [c];
      LinesSnoc(value[..k], c);
      if c == LF {
        if isEmptyLine && !seenNonEmptyLine {
          ScannedMeans(lines, isEmptyLine, hasIndent, hasCommonIndent, seenNonEmptyLine);
          EmptyFirstLine(value[..k], value[k + 1..]);
          assert value == value[..k] + [LF] + value[k + 1..];
          return false;
        }
        ScannedBreak(lines, isEmptyLine, hasIndent, hasCommonIndent, seenNonEmptyLine);
        seenNonEmptyLine, isEmptyLine, hasIndent := true, true, false;
      } else {
        ScannedChar(lines, c, isEmptyLine, hasIndent, hasCommonIndent, seenNonEmptyLine);
        if IsBlank(c) {
          hasIndent := hasIndent || isEmptyLine;
        } else if c <= 0x0F {
          assert Refused(value[k]);
          return false;
        } else {
          hasCommonIndent, isEmptyLine := hasCommonIndent && hasIndent, false;
        }
      }
    }
    assert value[..|value|] == value;
    ScannedMeans(Lines(value), isEmptyLine, hasIndent, hasCommonIndent, seenNonEmptyLine);
    if isEmptyLine {
      return false;
    }
    if hasCommonIndent && seenNonEmptyLine {
      return false;
    }
    return true;
  }

  lemma {:induction false} ScannedStart()
    ensures Scanned(Lines([]), true, false, true, false)
  {
  }

  lemma {:induction false} ScannedMeans(lines: seq<Text>, isEmptyLine: bool, hasIndent: bool, hasCommonIndent: bool,
      seen: bool)
    requires lines != [] && Scanned(lines, isEmptyLine, hasIndent, hasCommonIndent, seen)
    ensures isEmptyLine == Empty(lines[|lines| - 1]) && seen == (|lines| > 1) && hasCommonIndent == !SomeFlush(lines)
    ensures CanonicalLines(lines) <==> !isEmptyLine && !(hasCommonIndent && seen)
  {
    hide SomeFlush, Empty;
  }
}
