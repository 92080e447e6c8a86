/**
 `print_block_string`, and what the lexer makes of its output: exactly when the value
 comes back, both as it was printed and after the printer has indented it.
 */
module BlockStringPrinting {
  import opened Options
  import opened Lexing
  import opened BlockStrings

  // ---------------------------------------------------------------------------
  // print_block_string
  // ---------------------------------------------------------------------------

  /** value.replace('"""', '\\"""') */
  function Escaped(v: Text): Text {
    if v == [] then []
    else if StartsWith(v, TRIPLE) then [BACKSLASH] + TRIPLE + Escaped(v[3..])
    else [v[0]] + Escaped(v[1..])
  }

  /** The line boundaries of `str.splitlines`. */
  predicate IsBoundary(c: int) {
    c in {0x0A, 0x0B, 0x0C, 0x0D, 0x1C, 0x1D, 0x1E, 0x85, 0x2028, 0x2029}
  }

  function SplitLines(s: Text): seq<Text>
    decreases |s|
  {
    if s == [] then []
    else if IsBoundary(s[0]) then [[]] + SplitLines(s[LineBreakSize(s)..])
    else
      var rest := SplitLines(s[1..]);
      if rest == [] then [[s[0]]] else [[s[0]] + rest[0]] + rest[1..]
  }

  predicate EndsWith(s: Text, w: Text) {
    |w| <= |s| && s[|s| - |w|..] == w
  }

  predicate IsSingleLine(v: Text) {
    |SplitLines(Escaped(v))| <= 1
  }

  /** force_leading_new_line */
  predicate ForcesLeading(v: Text) {
    var lines := SplitLines(Escaped(v));
    |lines| > 1 && forall i | 1 <= i < |lines| :: lines[i] == [] || IsBlank(lines[i][0])
  }

  predicate HasTrailingTriple(v: Text) {
    EndsWith(Escaped(v), [BACKSLASH] + TRIPLE)
  }

  /** force_trailing_new_line */
  predicate ForcesTrailing(v: Text) {
    || (EndsWith(v, [QUOTE]) && !HasTrailingTriple(v))
    || EndsWith(v, [BACKSLASH])
  }

  predicate PrintsAsMultipleLines(v: Text, minimize: bool) {
    && !minimize
    && (!IsSingleLine(v) || |v| > 70 || ForcesTrailing(v) || ForcesLeading(v) || HasTrailingTriple(v))
  }

  /** A new line is printed before the value. */
  predicate LeadingBreak(v: Text, minimize: bool) {
    var skipLeadingNewLine := IsSingleLine(v) && v != [] && IsBlank(v[0]);
    (PrintsAsMultipleLines(v, minimize) && !skipLeadingNewLine) || ForcesLeading(v)
  }

  /** A new line is printed after the value. */
  predicate TrailingBreak(v: Text, minimize: bool) {
    PrintsAsMultipleLines(v, minimize) || ForcesTrailing(v)
  }

  /** What stands between the quotes. */
  function PrintedBody(v: Text, minimize: bool): Text {
    (if LeadingBreak(v, minimize) then [LF] else [])
    + Escaped(v)
    + (if TrailingBreak(v, minimize) then [LF] else [])
  }

  function PrintBlockString(v: Text, minimize: bool): Text {
    TRIPLE + PrintedBody(v, minimize) + TRIPLE
  }

  // ---------------------------------------------------------------------------
  // Dedenting undoes any indentation put on the lines of a canonical value
  // ---------------------------------------------------------------------------

  predicate AllBlank(pad: Text) {
    forall i | 0 <= i < |pad| :: IsBlank(pad[i])
  }

  function PadAll(lines: seq<Text>, pad: Text): (r: seq<Text>)
    ensures |r| == |lines|
    ensures forall i | 0 <= i < |lines| :: r[i] == pad + lines[i]
  {
    if lines == [] then [] else [pad + lines[0]] + PadAll(lines[1..], pad)
  }

  lemma {:induction false} PadWhiteSpace(pad: Text, l: Text)
    requires AllBlank(pad)
    ensures LeadingWhiteSpace(pad + l) == |pad| + LeadingWhiteSpace(l)
  {
    if pad == [] {
      assert pad + l == l;
    } else {
      assert (pad + l)[1..] == pad[1..] + l;
      PadWhiteSpace(pad[1..], l);
    }
  }

  function Shift(n: nat, o: Option<nat>): Option<nat> {
    if o.None? then None else Some(n + o.value)
  }

  lemma {:induction false} MinIndentPad(lines: seq<Text>, pad: Text)
    requires AllBlank(pad)
    ensures MinIndent(PadAll(lines, pad)) == Shift(|pad|, MinIndent(lines))
    decreases |lines|
  {
    if lines == [] {
      return;
    }
    hide *;
    var front, last := lines[..|lines| - 1], lines[|lines| - 1];
    assert lines == front + [last];
    MinIndentPad(front, pad);
    PadAllSnoc(front, last, pad);
    MinIndentSnocPad(front, last, PadAll(front, pad), pad);
  }

  lemma {:induction false} PadAllSnoc(front: seq<Text>, last: Text, pad: Text)
    ensures PadAll(front + [last], pad) == PadAll(front, pad) + [pad + last]
  {
  }

  lemma {:induction false} MinIndentSnocPad(front: seq<Text>, last: Text, padded: seq<Text>, pad: Text)
    requires AllBlank(pad) && MinIndent(padded) == Shift(|pad|, MinIndent(front))
    ensures MinIndent(padded + [pad + last]) == Shift(|pad|, MinIndent(front + [last]))
  {
    hide MinIndent, LeadingWhiteSpace;
    PadWhiteSpace(pad, last);
    MinIndentSnoc(front, last);
    MinIndentSnoc(padded, pad + last);
  }

  lemma {:induction false} MinIndentSnoc(front: seq<Text>, last: Text)
    ensures var before := MinIndent(front);
            MinIndent(front + [last]) ==
            if Empty(last) then before
            else if before.None? || LeadingWhiteSpace(last) < before.value then Some(LeadingWhiteSpace(last))
            else before
  {
    assert (front + [last])[..|front|] == front;
  }

  /** A blank last line, as a new line before the closing quotes gives, has no say. */
  lemma {:induction false} MinIndentTail(lines: seq<Text>, pad: Text)
    requires AllBlank(pad)
    ensures MinIndent(lines + [pad]) == MinIndent(lines)
  {
    PadWhiteSpace(pad, []);
    assert pad + [] == pad;
    assert (lines + [pad])[..|lines|] == lines;
  }

  lemma {:induction false} CutPad(l: Text, pad: Text, n: Option<nat>)
    ensures Cut(pad + l, Shift(|pad|, n)) == Cut(l, n)
  {
    if n.Some? && n.value <= |l| {
      assert (pad + l)[|pad| + n.value..] == l[n.value..];
    }
  }

  lemma {:induction false} UnindentedCons(head: Text, rest: seq<Text>)
    ensures Unindented([head] + rest) == [head] + CutAll(rest, MinIndent(rest))
  {
    assert ([head] + rest)[1..] == rest;
  }

  lemma {:induction false} CutPadded(lines: seq<Text>, pad: Text, tail: seq<Text>, n: Option<nat>)
    ensures CutAll(PadAll(lines, pad) + tail, Shift(|pad|, n))[..|lines|] == CutAll(lines, n)
  {
    hide Cut, Shift;
    forall i | 0 <= i < |lines| ensures Cut((PadAll(lines, pad) + tail)[i], Shift(|pad|, n)) == Cut(lines[i], n) {
      CutPad(lines[i], pad, n);
    }
  }

  lemma {:induction false} TakeCons<T>(x: T, s: seq<T>, n: nat)
    requires n <= |s|
    ensures ([x] + s)[..1 + n] == [x] + s[..n]
  {
  }

  /** What dedenting makes of a head line, padded further lines and perhaps a blank last line. */
  lemma {:induction false} UnindentedPadded(head: Text, lines: seq<Text>, pad: Text, tail: seq<Text>)
    requires AllBlank(pad) && (tail == [] || tail == [pad])
    ensures Unindented([head] + PadAll(lines, pad) + tail)[..1 + |lines|] == [head] + CutAll(lines, MinIndent(lines))
  {
    hide *;
    var padded, n := PadAll(lines, pad), MinIndent(lines);
    MinIndentPad(lines, pad);
    MinIndentTail(padded, pad);
    assert padded + [] == padded;
    assert MinIndent(padded + tail) == Shift(|pad|, n);
    assert [head] + padded + tail == [head] + (padded + tail);
    UnindentedCons(head, padded + tail);
    CutPadded(lines, pad, tail, n);
    TakeCons(head, CutAll(padded + tail, Shift(|pad|, n)), |lines|);
  }

  /** The lines between the quotes when a canonical value has been printed and indented. */
  function PrintedLines(lines: seq<Text>, leading: bool, trailing: bool, pad: Text): (r: seq<Text>)
    requires lines != []
    ensures r != []
  {
    (if leading then [[]] + PadAll(lines, pad) else [lines[0]] + PadAll(lines[1..], pad))
    + (if trailing then [pad] else [])
  }

  /** The lines that dedenting gets back. */
  function Recovered(lines: seq<Text>, leading: bool): seq<Text>
    requires lines != []
  {
    if leading then CutAll(lines, MinIndent(lines)) else [lines[0]] + CutAll(lines[1..], MinIndent(lines[1..]))
  }

  lemma {:induction false} EmptyPad(pad: Text, l: Text)
    requires AllBlank(pad)
    ensures Empty(pad + l) <==> Empty(l)
    ensures Empty(pad)
  {
    PadWhiteSpace(pad, l);
    PadWhiteSpace(pad, []);
    assert pad + [] == pad;
  }

  lemma {:induction false} DedentPrinted(lines: seq<Text>, leading: bool, trailing: bool, pad: Text)
    requires lines != [] && CanonicalLines(lines) && AllBlank(pad)
    ensures Dedent(PrintedLines(lines, leading, trailing, pad)) == Recovered(lines, leading)
  {
    hide *;
    var tail := if trailing then [pad] else [];
    var first := if leading then 1 else 0;
    var head, body := if leading then [] else lines[0], if leading then lines else lines[1..];
    var all := PrintedLines(lines, leading, trailing, pad);
    PrintedLinesIs(lines, leading, trailing, pad);
    PrintedFilled(lines, leading, trailing, pad);
    DedentIs(all, first, first + |lines|);
    UnindentedPadded(head, body, pad, tail);
    RecoveredIs(lines, leading);
    assert first + |lines| == 1 + |body|;
    SliceOfTake(Unindented(all), first, 1 + |body|);
  }

  lemma {:induction false} DedentIs(lines: seq<Text>, first: nat, last: nat)
    requires FirstFilled(lines) == first < last == LastFilled(lines)
    ensures Dedent(lines) == Unindented(lines)[first..last]
  {
  }

  lemma {:induction false} SliceOfTake<T>(s: seq<T>, a: nat, b: nat)
    requires a <= b <= |s|
    ensures s[a..b] == s[..b][a..]
  {
  }

  lemma {:induction false} PrintedLinesIs(lines: seq<Text>, leading: bool, trailing: bool, pad: Text)
    requires lines != []
    ensures var head, body := if leading then [] else lines[0], if leading then lines else lines[1..];
            PrintedLines(lines, leading, trailing, pad) == [head] + PadAll(body, pad) + if trailing then [pad] else []
  {
  }

  lemma {:induction false} RecoveredIs(lines: seq<Text>, leading: bool)
    requires lines != []
    ensures var head, body := if leading then [] else lines[0], if leading then lines else lines[1..];
            Recovered(lines, leading) == ([head] + CutAll(body, MinIndent(body)))[if leading then 1 else 0..]
  {
    if leading {
      assert ([[]] + CutAll(lines, MinIndent(lines)))[1..] == CutAll(lines, MinIndent(lines));
    }
  }

  /** The filled lines of the print run from the first line of the value to its last. */
  lemma {:induction false} PrintedFilled(lines: seq<Text>, leading: bool, trailing: bool, pad: Text)
    requires lines != [] && CanonicalLines(lines) && AllBlank(pad)
    ensures var all := PrintedLines(lines, leading, trailing, pad);
            var first := if leading then 1 else 0;
            FirstFilled(all) == first && LastFilled(all) == first + |lines|
  {
    var n := |lines|;
    EmptyPad(pad, lines[0]);
    EmptyPad(pad, lines[n - 1]);
    assert Empty([]);
    var first := if leading then 1 else 0;
    var head, body := if leading then [] else lines[0], if leading then lines else lines[1..];
    PrintedLinesIs(lines, leading, trailing, pad);
    var all := [head] + PadAll(body, pad) + if trailing then [pad] else [];
    assert all[first] == if leading then pad + lines[0] else lines[0];
    assert all[first + n - 1] == if leading || n > 1 then pad + lines[n - 1] else lines[n - 1];
    hide *;
    assert all[0] == head;
    FilledBetween(all, first, first + n);
  }

  lemma {:induction false} FilledBetween(lines: seq<Text>, first: nat, last: nat)
    requires first < last <= |lines| && !Empty(lines[first]) && !Empty(lines[last - 1])
    requires forall i | 0 <= i < first :: Empty(lines[i])
    requires forall i | last <= i < |lines| :: Empty(lines[i])
    ensures FirstFilled(lines) == first && LastFilled(lines) == last
  {
    hide Empty, FirstFilled, LastFilled;
    FilledOrder(lines);
  }

  // ---------------------------------------------------------------------------
  // When the lines come back
  // ---------------------------------------------------------------------------

  /** Taking off the common indentation changes nothing exactly when there is none. */
  lemma {:induction false} CutAllSame(lines: seq<Text>)
    requires MinIndent(lines).Some?
    ensures CutAll(lines, MinIndent(lines)) == lines <==> SomeFlush(lines)
  {
    MinIndentIsMin(lines);
    var m := MinIndent(lines).value;
    if SomeFlush(lines) {
      var i :| 0 <= i < |lines| && Flush(lines[i]);
      assert !Empty(lines[i]) && LeadingWhiteSpace(lines[i]) == 0;
      assert m == 0;
      forall k | 0 <= k < |lines| ensures CutAll(lines, MinIndent(lines))[k] == lines[k] {
      }
    }
    if CutAll(lines, MinIndent(lines)) == lines {
      UncutFlush(lines);
    }
  }

  lemma {:induction false} UncutFlush(lines: seq<Text>)
    requires MinIndent(lines).Some? && CutAll(lines, MinIndent(lines)) == lines
    ensures SomeFlush(lines)
  {
    MinIndentIsMin(lines);
    var m := MinIndent(lines).value;
    var i :| 0 <= i < |lines| && !Empty(lines[i]) && LeadingWhiteSpace(lines[i]) == m;
    CutFilled(lines[i], m);
    assert Cut(lines[i], Some(m)) == lines[i];
    assert m == 0 && Flush(lines[i]);
  }

  /** The lines that come back unchanged, given whether a new line was printed before them. */
  predicate Stable(lines: seq<Text>, leading: bool)
    requires lines != []
  {
    if leading then SomeFlush(lines) else |lines| == 1 || SomeFlush(lines[1..])
  }

  lemma {:induction false} RecoveredIff(lines: seq<Text>, leading: bool)
    requires lines != [] && CanonicalLines(lines)
    ensures Recovered(lines, leading) == lines <==> Stable(lines, leading)
  {
    var n := |lines|;
    if leading {
      MinIndentIsMin(lines);
      CutAllSame(lines);
    } else if n > 1 {
      var rest := lines[1..];
      assert rest[n - 2] == lines[n - 1];
      MinIndentIsMin(rest);
      CutAllSame(rest);
      hide CutAll, MinIndent;
      assert lines == [lines[0]] + rest;
      assert ([lines[0]] + CutAll(rest, MinIndent(rest)))[1..] == CutAll(rest, MinIndent(rest));
    } else {
      assert lines == [lines[0]] + lines[1..];
    }
  }

  // ---------------------------------------------------------------------------
  // Reading what was printed
  // ---------------------------------------------------------------------------

  /** Nothing but scalar values and surrogate pairs. */
  predicate ValidText(s: Text)
    decreases |s|
  {
    || s == []
    || (IsScalarValue(s[0]) && ValidText(s[1..]))
    || (!IsScalarValue(s[0]) && StartsWithPair(s) && ValidText(s[2..]))
  }

  /** string.replace("\n", "\n" + pad), which is what the printer's `indent` does inside a value. */
  function Indented(s: Text, pad: Text): Text {
    if s == [] then [] else (if s[0] == LF then [LF] + pad else [s[0]]) + Indented(s[1..], pad)
  }

  lemma {:induction false} IndentedConcat(s: Text, t: Text, pad: Text)
    ensures Indented(s + t, pad) == Indented(s, pad) + Indented(t, pad)
  {
    if s == [] {
      assert s + t == t;
    } else {
      assert (s + t)[1..] == s[1..] + t;
      IndentedConcat(s[1..], t, pad);
    }
  }

  predicate AllSpaces(pad: Text) {
    forall i | 0 <= i < |pad| :: pad[i] == SPACE
  }

  /** The value, indented, between its quotes or breaks. */
  function Inside(v: Text, pad: Text, tail: Text): Text {
    Indented(Escaped(v), pad) + tail
  }

  lemma {:induction false} InsideStep(v: Text, pad: Text, tail: Text)
    ensures v == [] ==> Inside(v, pad, tail) == tail
    ensures v != [] && StartsWith(v, TRIPLE) ==>
              Inside(v, pad, tail) == [BACKSLASH] + TRIPLE + Inside(v[3..], pad, tail)
    ensures v != [] && !StartsWith(v, TRIPLE) && v[0] == LF ==>
              Inside(v, pad, tail) == [LF] + pad + Inside(v[1..], pad, tail)
    ensures v != [] && !StartsWith(v, TRIPLE) && v[0] != LF ==>
              Inside(v, pad, tail) == [v[0]] + Inside(v[1..], pad, tail)
  {
    if v != [] && StartsWith(v, TRIPLE) {
      IndentedConcat([BACKSLASH] + TRIPLE, Escaped(v[3..]), pad);
      IndentedEscapedTriple(pad);
    } else if v != [] {
      assert ([v[0]] + Escaped(v[1..]))[1..] == Escaped(v[1..]);
    }
  }

  lemma {:induction false} IndentedEscapedTriple(pad: Text)
    ensures Indented([BACKSLASH] + TRIPLE, pad) == [BACKSLASH] + TRIPLE
  {
    IndentedConcat([BACKSLASH], TRIPLE, pad);
    IndentedConcat([QUOTE], [QUOTE, QUOTE], pad);
    IndentedConcat([QUOTE], [QUOTE], pad);
    assert TRIPLE == [QUOTE] + [QUOTE, QUOTE] && [QUOTE, QUOTE] == [QUOTE] + [QUOTE];
    assert [QUOTE][1..] == [] && [BACKSLASH][1..] == [];
  }

  /** The value does not end in a quote of its own or in a backslash. */
  predicate SafeEnd(v: Text) {
    if v == [] then true
    else if StartsWith(v, TRIPLE) then SafeEnd(v[3..])
    else if |v| == 1 then v[0] != QUOTE && v[0] != BACKSLASH
    else SafeEnd(v[1..])
  }

  /** What may follow the value: a new line, or the closing quotes if its end is safe. */
  predicate Closes(v: Text, tail: Text) {
    StartsWith(tail, [LF]) || (StartsWith(tail, TRIPLE) && SafeEnd(v))
  }

  function LeadingQuotes(s: Text): (n: nat)
    ensures n <= |s|
  {
    if s == [] || s[0] != QUOTE then 0 else 1 + LeadingQuotes(s[1..])
  }

  lemma {:induction false} ThreeQuotes(s: Text)
    ensures StartsWith(s, TRIPLE) <==> LeadingQuotes(s) >= 3
  {
    if |s| >= 3 {
      var u := s[1..];
      var w := u[1..];
      assert u[0] == s[1] && w[0] == s[2];
      assert LeadingQuotes(w) >= 1 <==> w[0] == QUOTE;
      assert LeadingQuotes(u) >= 2 <==> u[0] == QUOTE && LeadingQuotes(w) >= 1;
      assert StartsWith(s, TRIPLE) <==> s[0] == QUOTE && s[1] == QUOTE && s[2] == QUOTE;
    } else if |s| == 2 {
      assert s[1..][1..] == [];
    } else if |s| == 1 {
      assert s[1..] == [];
    }
  }

  lemma {:induction false} QuotesInside(v: Text, pad: Text, tail: Text)
    ensures v == [] ==> LeadingQuotes(Inside(v, pad, tail)) == LeadingQuotes(tail)
    ensures v != [] && (StartsWith(v, TRIPLE) || v[0] != QUOTE) ==> LeadingQuotes(Inside(v, pad, tail)) == 0
    ensures v != [] && !StartsWith(v, TRIPLE) && v[0] == QUOTE ==>
              LeadingQuotes(Inside(v, pad, tail)) == 1 + LeadingQuotes(Inside(v[1..], pad, tail))
  {
    InsideStep(v, pad, tail);
    if v != [] && !StartsWith(v, TRIPLE) && v[0] == QUOTE {
      assert Inside(v, pad, tail)[1..] == Inside(v[1..], pad, tail);
    }
  }

  /** A value that does not start with three quotes is not read as if it did. */
  lemma {:induction false} NoFalseQuotes(v: Text, pad: Text, tail: Text)
    requires v != [] && !StartsWith(v, TRIPLE) && Closes(v, tail)
    ensures !StartsWith(Inside(v, pad, tail), TRIPLE)
  {
    hide Inside;
    ThreeQuotes(Inside(v, pad, tail));
    ThreeQuotes(v);
    QuotesInside(v, pad, tail);
    if v[0] == QUOTE {
      var w := v[1..];
      QuotesInside(w, pad, tail);
      assert !StartsWith(w, TRIPLE);
      ThreeQuotes(tail);
      if w == [] {
        assert !SafeEnd(v) && LeadingQuotes(tail) == 0;
      } else if w[0] == QUOTE {
        assert v[2..] == w[1..];
        QuotesInside(v[2..], pad, tail);
        if |v| == 2 {
          assert w[1..] == [] && !SafeEnd(w) && !SafeEnd(v) && LeadingQuotes(tail) == 0;
        } else {
          assert v[2..][0] == v[2] != QUOTE;
        }
      }
    }
  }

  /** The same for an escaped triple quote. */
  lemma {:induction false} NoFalseEscape(v: Text, pad: Text, tail: Text)
    requires v != [] && !StartsWith(v, TRIPLE) && Closes(v, tail)
    ensures !StartsWith(Inside(v, pad, tail), [BACKSLASH] + TRIPLE)
  {
    hide Inside;
    InsideStep(v, pad, tail);
    var s := Inside(v, pad, tail);
    if v[0] == BACKSLASH {
      var w := v[1..];
      assert s[1..] == Inside(w, pad, tail);
      assert StartsWith(s, [BACKSLASH] + TRIPLE) ==> s[1..][..3] == TRIPLE;
      if w == [] {
        InsideStep(w, pad, tail);
        assert !SafeEnd(v) && tail[..1][0] == LF;
        assert s[1..] == tail;
        assert tail[0] != QUOTE;
      } else if StartsWith(w, TRIPLE) {
        InsideStep(w, pad, tail);
      } else {
        NoFalseQuotes(w, pad, tail);
      }
    } else {
      assert s[0] != BACKSLASH;
    }
  }

  lemma {:induction false} PrependTwice(p: Text, q: Text, r: Result<Block>)
    requires r.Ok? ==> r.value.lines != []
    ensures PrependToLine(p, |p|, PrependToLine(q, |q|, r)) == PrependToLine(p + q, |p + q|, r)
  {
    if r.Ok? {
      assert p + (q + r.value.lines[0]) == (p + q) + r.value.lines[0];
    }
  }

  /** An ordinary character belongs to the current line. */
  lemma {:induction false} ReadChar(c: int, s: Text)
    requires IsScalarValue(c) && c != LF && c != CR
    requires !StartsWith([c] + s, TRIPLE) && !StartsWith([c] + s, [BACKSLASH] + TRIPLE)
    ensures ReadBlockBody([c] + s) == PrependToLine([c], 1, ReadBlockBody(s))
  {
    hide StartsWith;
    assert ([c] + s)[1..] == s;
  }

  lemma {:induction false} PrependNothing(r: Result<Block>)
    requires r.Ok? ==> r.value.lines != []
    ensures PrependToLine([], 0, r) == r
  {
    if r.Ok? {
      assert [] + r.value.lines[0] == r.value.lines[0];
      assert [r.value.lines[0]] + r.value.lines[1..] == r.value.lines;
    }
  }

  lemma {:induction false} StartsWithHead(s: Text, w: Text)
    requires StartsWith(s, w) && w != []
    ensures s != [] && s[0] == w[0]
  {
    assert s[..|w|][0] == s[0];
  }

  lemma {:induction false} ReadPad(pad: Text, s: Text)
    requires AllSpaces(pad)
    ensures ReadBlockBody(pad + s) == PrependToLine(pad, |pad|, ReadBlockBody(s))
  {
    hide ReadBlockBody, PrependToLine;
    if pad == [] {
      assert pad + s == s;
      PrependNothing(ReadBlockBody(s));
    } else {
      var rest := pad[1..];
      assert pad + s == [SPACE] + (rest + s);
      ReadPad(rest, s);
      if StartsWith([SPACE] + (rest + s), TRIPLE) {
        StartsWithHead([SPACE] + (rest + s), TRIPLE);
      }
      if StartsWith([SPACE] + (rest + s), [BACKSLASH] + TRIPLE) {
        StartsWithHead([SPACE] + (rest + s), [BACKSLASH] + TRIPLE);
      }
      ReadChar(SPACE, rest + s);
      PrependTwice([SPACE], rest, ReadBlockBody(s));
      assert [SPACE] + rest == pad;
    }
  }

  /** The text put in front of the first line. */
  function OntoFirst(p: Text, lines: seq<Text>): (r: seq<Text>)
    requires lines != []
    ensures r != []
  {
    [p + lines[0]] + lines[1..]
  }

  /** The lines of the value as they stand in the print, all but the first of them padded. */
  function PadRest(lines: seq<Text>, pad: Text): (r: seq<Text>)
    requires lines != []
    ensures |r| == |lines|
  {
    [lines[0]] + PadAll(lines[1..], pad)
  }

  /** Text of `size` characters with the lines `xs`, read in front of what `r` has read. */
  function GlueRead(xs: seq<Text>, size: nat, r: Result<Block>): (o: Result<Block>)
    requires xs != [] && (r.Ok? ==> r.value.lines != [])
    ensures o.Ok? ==> o.value.lines != []
  {
    if r.Err? then r else Ok(Block(Glue(xs, r.value.lines), size + r.value.size))
  }

  lemma {:induction false} PrependGlue(p: Text, k: nat, xs: seq<Text>, size: nat, r: Result<Block>)
    requires xs != [] && (r.Ok? ==> r.value.lines != [])
    ensures PrependToLine(p, k, GlueRead(xs, size, r)) == GlueRead(OntoFirst(p, xs), k + size, r)
  {
    if r.Ok? {
      GlueFirst(p, xs, r.value.lines);
    }
  }

  lemma {:induction false} PadRestFirst(p: Text, lines: seq<Text>, pad: Text)
    requires lines != []
    ensures PadRest(OntoFirst(p, lines), pad) == OntoFirst(p, PadRest(lines, pad))
  {
    assert ([p + lines[0]] + lines[1..])[1..] == lines[1..];
  }

  /** A line feed, which brings its padding with it. */
  lemma {:induction false} PadRestBreak(lines: seq<Text>, pad: Text)
    requires lines != []
    ensures PadRest([[]] + lines, pad) == [[]] + OntoFirst(pad, PadRest(lines, pad))
  {
    assert ([[]] + lines)[1..] == lines;
  }

  lemma {:induction false} LinesPrefix(p: Text, v: Text)
    requires OneLine(p)
    ensures Lines(p + v) == OntoFirst(p, Lines(v))
  {
    LinesConcat(p, v);
    LinesOfOne(p);
    assert [p][..0] == [];
  }

  lemma {:induction false} LinesBreak(v: Text)
    ensures Lines([LF] + v) == [[]] + Lines(v)
  {
    assert ([LF] + v)[1..] == v;
  }

  predicate Plain(v: Text) {
    ValidText(v) && CR !in v
  }

  /** The first piece of a value that is read in one go, and its rest. */
  lemma {:induction false} PlainStep(v: Text) returns (p: Text, w: Text)
    requires Plain(v) && v != []
    ensures v == p + w && p != [] && Plain(w)
    ensures if StartsWith(v, TRIPLE) then p == TRIPLE
            else if IsScalarValue(v[0]) then p == [v[0]]
            else |p| == 2 && StartsWithPair(p) && v[..2] == p
    ensures SafeEnd(v) ==> SafeEnd(w)
  {
    if StartsWith(v, TRIPLE) {
      p, w := TRIPLE, v[3..];
      assert v[1..][1..] == v[2..] && v[2..][1..] == v[3..];
      assert v[..3][0] == v[0] && v[..3][1] == v[1] && v[..3][2] == v[2];
      assert v[1..][0] == v[1] && v[2..][0] == v[2];
      assert ValidText(v[1..]) && ValidText(v[2..]) && ValidText(v[3..]);
    } else if IsScalarValue(v[0]) {
      p, w := [v[0]], v[1..];
    } else {
      p, w := v[..2], v[2..];
      var u := v[1..];
      assert u[1..] == w && u[0] == v[1];
      if StartsWith(u, TRIPLE) {
        StartsWithHead(u, TRIPLE);
      }
      assert SafeEnd(v) == SafeEnd(u);
    }
  }

  /** The text reads as the lines `xs`, of `n` characters, in front of whatever `tail` reads as. */
  ghost predicate Glues(text: Text, xs: seq<Text>, n: nat, tail: Text)
    requires xs != []
  {
    ReadBlockBody(text) == GlueRead(xs, n, ReadBlockBody(tail))
  }

  lemma {:induction false} GluesPiece(text: Text, p: Text, k: nat, rest: Text, xs: seq<Text>, n: nat, tail: Text)
    requires xs != [] && Glues(rest, xs, n, tail)
    requires ReadBlockBody(text) == PrependToLine(p, k, ReadBlockBody(rest))
    ensures Glues(text, OntoFirst(p, xs), k + n, tail)
  {
    PrependGlue(p, k, xs, n, ReadBlockBody(tail));
    hide ReadBlockBody, GlueRead, PrependToLine, OntoFirst;
  }

  lemma {:induction false} GluesBreak(text: Text, pad: Text, rest: Text, xs: seq<Text>, n: nat, tail: Text)
    requires xs != [] && Glues(rest, xs, n, tail)
    requires ReadBlockBody(text) == BreakLine(PrependToLine(pad, |pad|, ReadBlockBody(rest)))
    ensures Glues(text, [[]] + OntoFirst(pad, xs), 1 + |pad| + n, tail)
  {
    hide ReadBlockBody, GlueRead, PrependToLine, OntoFirst, BreakLine;
    PrependGlue(pad, |pad|, xs, n, ReadBlockBody(tail));
    BreakGlue(OntoFirst(pad, xs), |pad| + n, ReadBlockBody(tail));
  }

  /** Reading what stands between the quotes gives the lines of the value, padded. */
  lemma {:induction false} ReadInside(v: Text, pad: Text, tail: Text)
    requires Plain(v) && AllSpaces(pad) && Closes(v, tail)
    ensures |Inside(v, pad, tail)| >= |tail|
    ensures Glues(Inside(v, pad, tail), PadRest(Lines(v), pad), |Inside(v, pad, tail)| - |tail|, tail)
    decreases |v|
  {
    var rt := ReadBlockBody(tail);
    if v == [] {
      InsideStep(v, pad, tail);
      GlueNothing(pad, rt);
      return;
    }
    var p, w := PlainStep(v);
    ReadInside(w, pad, tail);
    if !StartsWith(v, TRIPLE) && v[0] == LF {
      ReadInsideBreak(v, w, pad, tail);
    } else {
      ReadInsidePiece(v, p, w, pad, tail);
    }
  }

  lemma {:induction false} ReadInsideBreak(v: Text, w: Text, pad: Text, tail: Text)
    requires AllSpaces(pad) && v == [LF] + w && |Inside(w, pad, tail)| >= |tail|
    requires Glues(Inside(w, pad, tail), PadRest(Lines(w), pad), |Inside(w, pad, tail)| - |tail|, tail)
    ensures |Inside(v, pad, tail)| >= |tail|
    ensures Glues(Inside(v, pad, tail), PadRest(Lines(v), pad), |Inside(v, pad, tail)| - |tail|, tail)
  {
    hide *;
    BreakStart(v, w);
    InsideStep(v, pad, tail);
    ReadBreak(pad, Inside(w, pad, tail));
    LinesBreak(w);
    PadRestBreak(Lines(w), pad);
    GluesBreak(Inside(v, pad, tail), pad, Inside(w, pad, tail), PadRest(Lines(w), pad),
        |Inside(w, pad, tail)| - |tail|, tail);
  }

  lemma {:induction false} BreakStart(v: Text, w: Text)
    requires v == [LF] + w
    ensures v[0] == LF && v[1..] == w && !StartsWith(v, TRIPLE)
  {
    if StartsWith(v, TRIPLE) {
      StartsWithHead(v, TRIPLE);
    }
  }

  lemma {:induction false} ReadInsidePiece(v: Text, p: Text, w: Text, pad: Text, tail: Text)
    requires v == p + w && p != [] && Plain(v) && Closes(v, tail) && |Inside(w, pad, tail)| >= |tail|
    requires StartsWith(v, TRIPLE) || v[0] != LF
    requires if StartsWith(v, TRIPLE) then p == TRIPLE
             else if IsScalarValue(v[0]) then p == [v[0]]
             else |p| == 2 && StartsWithPair(p) && v[..2] == p
    requires Glues(Inside(w, pad, tail), PadRest(Lines(w), pad), |Inside(w, pad, tail)| - |tail|, tail)
    ensures |Inside(v, pad, tail)| >= |tail|
    ensures Glues(Inside(v, pad, tail), PadRest(Lines(v), pad), |Inside(v, pad, tail)| - |tail|, tail)
  {
    ReadPiece(v, p, w, pad, tail);
    PieceOneLine(v, p);
    hide *;
    LinesPrefix(p, w);
    PadRestFirst(p, Lines(w), pad);
    GluesPiece(Inside(v, pad, tail), p, |Inside(v, pad, tail)| - |Inside(w, pad, tail)|, Inside(w, pad, tail),
               PadRest(Lines(w), pad), |Inside(w, pad, tail)| - |tail|, tail);
  }

  lemma {:induction false} GlueNothing(pad: Text, r: Result<Block>)
    requires r.Ok? ==> r.value.lines != []
    ensures GlueRead(PadRest(Lines([]), pad), 0, r) == r
  {
    var one: seq<Text> := [[]];
    assert Lines([]) == one && one[1..] == [] && one[..0] == [];
    assert PadRest(one, pad) == one;
    if r.Ok? {
      var ys := r.value.lines;
      assert [] + ys[0] == ys[0];
      assert Glue(one, ys) == [ys[0]] + ys[1..] == ys;
    }
  }

  /** A new line in front of what `r` has read. */
  function BreakLine(r: Result<Block>): Result<Block> {
    if r.Err? then r else Ok(Block([[]] + r.value.lines, 1 + r.value.size))
  }

  lemma {:induction false} BreakGlue(xs: seq<Text>, size: nat, rt: Result<Block>)
    requires xs != [] && (rt.Ok? ==> rt.value.lines != [])
    ensures BreakLine(GlueRead(xs, size, rt)) == GlueRead([[]] + xs, 1 + size, rt)
  {
    if rt.Ok? {
      GlueCons([], xs, rt.value.lines);
    }
  }

  lemma {:induction false} GlueCons(x: Text, xs: seq<Text>, ys: seq<Text>)
    requires xs != [] && ys != []
    ensures Glue([x] + xs, ys) == [x] + Glue(xs, ys)
  {
    assert ([x] + xs)[..|xs|] == [x] + xs[..|xs| - 1];
    assert ([x] + xs)[|xs|] == xs[|xs| - 1];
  }

  /** A new line and the padding that follows it. */
  lemma {:induction false} ReadBreak(pad: Text, s: Text)
    requires AllSpaces(pad)
    ensures ReadBlockBody([LF] + pad + s) == BreakLine(PrependToLine(pad, |pad|, ReadBlockBody(s)))
  {
    hide *;
    ReadPad(pad, s);
    assert [LF] + pad + s == [LF] + (pad + s);
    ReadLineFeed(pad + s);
  }

  lemma {:induction false} ReadLineFeed(s: Text)
    ensures ReadBlockBody([LF] + s) == BreakLine(ReadBlockBody(s))
  {
    var text := [LF] + s;
    assert text[1..] == s;
    if StartsWith(text, TRIPLE) {
      StartsWithHead(text, TRIPLE);
    }
    if StartsWith(text, [BACKSLASH] + TRIPLE) {
      StartsWithHead(text, [BACKSLASH] + TRIPLE);
    }
    hide StartsWith;
  }

  lemma {:induction false} PieceOneLine(v: Text, p: Text)
    requires v != [] && (StartsWith(v, TRIPLE) || v[0] != LF)
    requires if StartsWith(v, TRIPLE) then p == TRIPLE
             else if IsScalarValue(v[0]) then p == [v[0]]
             else |p| == 2 && StartsWithPair(p) && |v| >= 2 && v[..2] == p
    ensures OneLine(p)
  {
  }

  /** A piece other than a new line is read onto the current line. */
  lemma {:induction false} ReadPiece(v: Text, p: Text, w: Text, pad: Text, tail: Text)
    requires v == p + w && p != [] && Plain(v) && Closes(v, tail)
    requires StartsWith(v, TRIPLE) || v[0] != LF
    requires if StartsWith(v, TRIPLE) then p == TRIPLE
             else if IsScalarValue(v[0]) then p == [v[0]]
             else |p| == 2 && StartsWithPair(p) && v[..2] == p
    ensures |Inside(v, pad, tail)| >= |Inside(w, pad, tail)|
    ensures ReadBlockBody(Inside(v, pad, tail)) ==
            PrependToLine(p, |Inside(v, pad, tail)| - |Inside(w, pad, tail)|, ReadBlockBody(Inside(w, pad, tail)))
  {
    InsideStep(v, pad, tail);
    var text := Inside(v, pad, tail);
    if StartsWith(v, TRIPLE) {
      assert v[3..] == w;
      ReadEscapedTriple(Inside(w, pad, tail));
    } else if IsScalarValue(v[0]) {
      assert v[1..] == w && v[0] != CR;
      NoFalseQuotes(v, pad, tail);
      NoFalseEscape(v, pad, tail);
      ReadChar(v[0], Inside(w, pad, tail));
    } else {
      var u := v[1..];
      assert u[1..] == w && u[0] == v[1];
      if StartsWith(u, TRIPLE) {
        StartsWithHead(u, TRIPLE);
      }
      InsideStep(u, pad, tail);
      assert text == p + Inside(w, pad, tail);
      ReadPair(p, Inside(w, pad, tail));
    }
  }

  lemma {:induction false} ReadEscapedTriple(s: Text)
    ensures ReadBlockBody([BACKSLASH] + TRIPLE + s) == PrependToLine(TRIPLE, 4, ReadBlockBody(s))
  {
    var text := [BACKSLASH] + TRIPLE + s;
    assert text[4..] == s && text[..4] == [BACKSLASH] + TRIPLE;
    if StartsWith(text, TRIPLE) {
      StartsWithHead(text, TRIPLE);
    }
  }

  lemma {:induction false} ReadPair(p: Text, s: Text)
    requires |p| == 2 && StartsWithPair(p)
    ensures ReadBlockBody(p + s) == PrependToLine(p, 2, ReadBlockBody(s))
  {
    var text := p + s;
    assert text[2..] == s && text[..2] == p && text[0] == p[0] && text[1] == p[1];
    if StartsWith(text, TRIPLE) {
      StartsWithHead(text, TRIPLE);
    }
    if StartsWith(text, [BACKSLASH] + TRIPLE) {
      StartsWithHead(text, [BACKSLASH] + TRIPLE);
    }
    hide StartsWith;
  }

  // ---------------------------------------------------------------------------
  // The end of the value
  // ---------------------------------------------------------------------------

  lemma {:induction false} IndentedByNothing(s: Text)
    ensures Indented(s, []) == s
  {
    if s != [] {
      IndentedByNothing(s[1..]);
      assert [LF] + [] == [LF];
      assert s == [s[0]] + s[1..];
    }
  }

  lemma {:induction false} EscapedNotTriple(w: Text)
    ensures Escaped(w) != TRIPLE
  {
    if w != [] && !StartsWith(w, TRIPLE) {
      var e := Escaped(w);
      assert ([LF])[..1] == [LF];
      NoFalseQuotes(w, [], [LF]);
      IndentedByNothing(e);
      assert (TRIPLE + [LF])[..3] == TRIPLE;
    }
  }

  lemma {:induction false} EscapedNothing(w: Text)
    ensures Escaped(w) == [] <==> w == []
  {
  }

  /** `force_trailing_new_line` recognizes every unsafe end. */
  lemma {:induction false} UnsafeEndIsForced(v: Text)
    requires !SafeEnd(v)
    ensures v != []
    ensures v[|v| - 1] == BACKSLASH || (v[|v| - 1] == QUOTE && !EndsWith(Escaped(v), [BACKSLASH] + TRIPLE))
    decreases |v|
  {
    var esc := [BACKSLASH] + TRIPLE;
    if StartsWith(v, TRIPLE) {
      var w := v[3..];
      UnsafeEndIsForced(w);
      var e := Escaped(w);
      assert Escaped(v) == esc + e;
      EscapedNothing(w);
      if |e| >= 4 {
        EndsWithLater(esc, e, esc);
      }
      if |e| < 4 && EndsWith(esc + e, esc) {
        EndsInBackslash(e);
      }
    } else if |v| > 1 {
      var w := v[1..];
      UnsafeEndIsForced(w);
      EscapedNotTriple(w);
      var e := Escaped(w);
      assert Escaped(v) == [v[0]] + e;
      if |e| >= 4 {
        EndsWithLater([v[0]], e, esc);
      }
      if |e| == 3 && EndsWith([v[0]] + e, esc) {
        EndsInTriple(v[0], e);
      }
    } else {
      assert v[1..] == [];
      assert Escaped(v) == [v[0]] + [];
    }
  }

  lemma {:induction false} EndsInBackslash(e: Text)
    requires |e| < 4 && EndsWith([BACKSLASH] + TRIPLE + e, [BACKSLASH] + TRIPLE)
    ensures e == []
  {
    var s := [BACKSLASH] + TRIPLE + e;
    assert s[|e|..][0] == s[|e|];
  }

  lemma {:induction false} EndsInTriple(c: int, e: Text)
    requires |e| == 3 && EndsWith([c] + e, [BACKSLASH] + TRIPLE)
    ensures e == TRIPLE
  {
    var s := [c] + e;
    assert s[0..] == s && s[1..] == e;
  }

  lemma {:induction false} EndsWithLater(p: Text, e: Text, w: Text)
    requires |w| <= |e|
    ensures EndsWith(p + e, w) <==> EndsWith(e, w)
  {
    assert (p + e)[|p + e| - |w|..] == e[|e| - |w|..];
  }

  // ---------------------------------------------------------------------------
  // The whole print, read back
  // ---------------------------------------------------------------------------

  /** What follows the value in an indented print: perhaps a new line, then the closing quotes. */
  function Closing(trailing: bool, pad: Text, post: Text): (r: Text)
    ensures |r| >= |post| + 3
  {
    (if trailing then [LF] + pad else []) + TRIPLE + post
  }

  /** The reader finds the given lines and stops after `size` characters. */
  ghost predicate ReadsTo(s: Text, lines: seq<Text>, size: nat) {
    && ReadBlockBody(s).Ok?
    && ReadBlockBody(s).value.lines == lines
    && ReadBlockBody(s).value.size == size
  }

  lemma {:induction false} ReadsBreak(pad: Text, s: Text, lines: seq<Text>, size: nat)
    requires AllSpaces(pad) && lines != [] && ReadsTo(s, lines, size)
    ensures ReadsTo([LF] + pad + s, [[]] + OntoFirst(pad, lines), 1 + |pad| + size)
  {
    ReadBreak(pad, s);
    hide ReadBlockBody;
  }

  lemma {:induction false} ReadsGlue(s: Text, xs: seq<Text>, n: nat, tail: Text, lines: seq<Text>, size: nat)
    requires xs != [] && lines != [] && ReadsTo(tail, lines, size)
    requires Glues(s, xs, n, tail)
    ensures ReadsTo(s, Glue(xs, lines), n + size)
  {
    hide ReadBlockBody;
  }

  function ClosingLines(trailing: bool, pad: Text): (r: seq<Text>)
    ensures r != []
  {
    if trailing then [[], pad] else [[]]
  }

  lemma {:induction false} ReadClosing(trailing: bool, pad: Text, post: Text)
    requires AllSpaces(pad)
    ensures ReadsTo(Closing(trailing, pad, post), ClosingLines(trailing, pad), |Closing(trailing, pad, post)| - |post|)
  {
    var end := TRIPLE + post;
    assert end[..3] == TRIPLE;
    assert ReadsTo(end, [[]], 3);
    hide ReadsTo;
    if trailing {
      assert Closing(trailing, pad, post) == [LF] + pad + end;
      ReadsBreak(pad, end, [[]], 3);
      assert pad + [] == pad;
      var one: seq<Text> := [[]];
      assert one[1..] == [];
      assert [[]] + OntoFirst(pad, [[]]) == [[], pad];
    } else {
      assert Closing(trailing, pad, post) == end;
    }
  }

  lemma {:induction false} ClosingCloses(v: Text, trailing: bool, pad: Text, post: Text)
    requires trailing || SafeEnd(v)
    ensures Closes(v, Closing(trailing, pad, post))
  {
    var tail := Closing(trailing, pad, post);
    if trailing {
      assert tail[..1] == [LF];
    } else {
      assert tail[..3] == TRIPLE;
    }
  }

  function Break(printed: bool, pad: Text): Text {
    if printed then [LF] + pad else []
  }

  /** The indented print between its quotes: a new line, the value, and what closes it. */
  lemma {:induction false} PrintedIs(v: Text, minimize: bool, pad: Text, post: Text)
    ensures Indented(PrintedBody(v, minimize), pad) + TRIPLE + post ==
            Break(LeadingBreak(v, minimize), pad) + Inside(v, pad, Closing(TrailingBreak(v, minimize), pad, post))
  {
    var a := Break(LeadingBreak(v, minimize), []);
    var b, c := Escaped(v), Break(TrailingBreak(v, minimize), []);
    assert [LF] + [] == [LF];
    assert PrintedBody(v, minimize) == a + b + c;
    hide LeadingBreak, TrailingBreak, Escaped, PrintedBody;
    IndentedConcat(a + b, c, pad);
    IndentedConcat(a, b, pad);
    IndentedBreak(LeadingBreak(v, minimize), pad);
    IndentedBreak(TrailingBreak(v, minimize), pad);
    hide Indented;
    ClosingIs(TrailingBreak(v, minimize), pad, post);
    Reassociate(Break(LeadingBreak(v, minimize), pad), Indented(b, pad), Break(TrailingBreak(v, minimize), pad),
        TRIPLE + post);
    assert Indented(a + b + c, pad) + TRIPLE + post == Indented(a + b + c, pad) + (TRIPLE + post);
  }

  lemma {:induction false} Reassociate(a: Text, b: Text, c: Text, d: Text)
    ensures a + b + c + d == a + (b + (c + d)) == a + (b + c + d)
  {
  }

  lemma {:induction false} ClosingIs(trailing: bool, pad: Text, post: Text)
    ensures Closing(trailing, pad, post) == Break(trailing, pad) + (TRIPLE + post)
  {
  }

  lemma {:induction false} IndentedBreak(printed: bool, pad: Text)
    ensures Indented(Break(printed, []), pad) == Break(printed, pad)
  {
    assert [LF] + [] == [LF] && [LF][1..] == [];
    assert Indented([LF], pad) == [LF] + pad + [];
  }

  /** Without a new line after it, a value ends safely. */
  lemma {:induction false} UnsafeForces(v: Text, minimize: bool)
    ensures TrailingBreak(v, minimize) || SafeEnd(v)
  {
    if !SafeEnd(v) {
      UnsafeEndIsForced(v);
      assert v[|v| - 1..] == [v[|v| - 1]];
      hide SafeEnd, Escaped;
      assert ForcesTrailing(v);
    }
  }

  lemma {:induction false} GlueClosing(lines: seq<Text>, trailing: bool, pad: Text)
    requires lines != []
    ensures Glue(lines, ClosingLines(trailing, pad)) == lines + if trailing then [pad] else []
  {
    var n := |lines| - 1;
    assert lines[n] + [] == lines[n];
    assert lines[..n] + [lines[n]] == lines;
  }

  lemma {:induction false} LeadingLines(lines: seq<Text>, trailing: bool, pad: Text)
    requires lines != []
    ensures var all := PadRest(lines, pad) + if trailing then [pad] else [];
            && PrintedLines(lines, false, trailing, pad) == all
            && PrintedLines(lines, true, trailing, pad) == [[]] + OntoFirst(pad, all)
  {
    var t := if trailing then [pad] else [];
    var all := PadRest(lines, pad) + t;
    assert all[1..] == PadAll(lines[1..], pad) + t;
    assert PadAll(lines, pad) == [pad + lines[0]] + PadAll(lines[1..], pad);
  }

  /** The value, with what closes it, read from its first character. */
  lemma {:induction false} ReadValueLines(v: Text, trailing: bool, pad: Text, post: Text)
    requires Plain(v) && AllSpaces(pad) && (trailing || SafeEnd(v))
    ensures var text := Inside(v, pad, Closing(trailing, pad, post));
            |text| >= |post| && ReadsTo(text, PrintedLines(Lines(v), false, trailing, pad), |text| - |post|)
  {
    hide *;
    var tail := Closing(trailing, pad, post);
    ClosingCloses(v, trailing, pad, post);
    ReadClosing(trailing, pad, post);
    ReadInside(v, pad, tail);
    var xs := PadRest(Lines(v), pad);
    ReadsGlue(Inside(v, pad, tail), xs, |Inside(v, pad, tail)| - |tail|, tail, ClosingLines(trailing, pad),
        |tail| - |post|);
    GlueClosing(xs, trailing, pad);
    LeadingLines(Lines(v), trailing, pad);
  }

  /** The lines the lexer finds in the print. */
  lemma {:induction false} ReadPrinted(v: Text, minimize: bool, pad: Text, post: Text)
    requires Plain(v) && AllSpaces(pad)
    ensures var body := Indented(PrintedBody(v, minimize), pad);
            ReadsTo(body + TRIPLE + post,
                    PrintedLines(Lines(v), LeadingBreak(v, minimize), TrailingBreak(v, minimize), pad), |body| + 3)
  {
    hide *;
    var leading, trailing := LeadingBreak(v, minimize), TrailingBreak(v, minimize);
    UnsafeForces(v, minimize);
    ReadValueLines(v, trailing, pad, post);
    LeadingLines(Lines(v), trailing, pad);
    PrintedIs(v, minimize, pad, post);
    ReadsOpening(leading, pad, Inside(v, pad, Closing(trailing, pad, post)),
        PrintedLines(Lines(v), false, trailing, pad),
                 post, Indented(PrintedBody(v, minimize), pad));
  }

  lemma {:induction false} ReadsOpening(leading: bool, pad: Text, text: Text, lines: seq<Text>, post: Text, body: Text)
    requires AllSpaces(pad) && lines != [] && |text| >= |post| && ReadsTo(text, lines, |text| - |post|)
    requires body + TRIPLE + post == Break(leading, pad) + text
    ensures ReadsTo(body + TRIPLE + post, if leading then [[]] + OntoFirst(pad, lines) else lines, |body| + 3)
  {
    hide ReadsTo, OntoFirst;
    assert |body| + 3 + |post| == |Break(leading, pad)| + |text|;
    if leading {
      ReadsBreak(pad, text, lines, |text| - |post|);
    } else {
      assert [] + text == text;
    }
  }

  // ---------------------------------------------------------------------------
  // Round trips
  // ---------------------------------------------------------------------------

  /** The value of a block string token, from its raw lines. */
  function BlockValue(lines: seq<Text>): Text {
    Join(Dedent(lines))
  }

  /**
   The exact condition for a canonical value to survive printing: where a new line is
   printed before it, some line must be flush; where none is, a value of several lines
   needs a flush line other than the first.
   */
  predicate ComesBack(v: Text, minimize: bool) {
    v == [] || Stable(Lines(v), LeadingBreak(v, minimize))
  }

  lemma {:induction false} PrintNothing(minimize: bool, pad: Text)
    ensures !LeadingBreak([], minimize) && !TrailingBreak([], minimize)
  {
    assert Escaped([]) == [];
    assert SplitLines([]) == [];
    assert !EndsWith([], [QUOTE]) && !EndsWith([], [BACKSLASH]);
  }

  /** What the lexer makes of the print of a canonical value. */
  function Reread(v: Text, minimize: bool): Text {
    if v == [] then [] else Join(Recovered(Lines(v), LeadingBreak(v, minimize)))
  }

  lemma {:induction false} RereadIff(v: Text, minimize: bool)
    requires Canonical(v)
    ensures Reread(v, minimize) == v <==> ComesBack(v, minimize)
  {
    if v != [] {
      var lines, leading := Lines(v), LeadingBreak(v, minimize);
      RecoveredIff(lines, leading);
      JoinLines(v);
      LinesOneLine(v);
      RecoveredOneLine(lines, leading);
      hide Lines, Recovered, Stable, LeadingBreak;
      LinesJoin(Recovered(lines, leading));
    }
  }

  lemma {:induction false} PrintIsReread(v: Text, minimize: bool, pad: Text, post: Text)
    requires Plain(v) && Canonical(v) && AllSpaces(pad)
    ensures var body := Indented(PrintedBody(v, minimize), pad);
            var r := ReadBlockBody(body + TRIPLE + post);
            r.Ok? && r.value.size == |body| + 3 && BlockValue(r.value.lines) == Reread(v, minimize)
  {
    var lines := Lines(v);
    var leading, trailing := LeadingBreak(v, minimize), TrailingBreak(v, minimize);
    ReadPrinted(v, minimize, pad, post);
    if v == [] {
      PrintNothing(minimize, pad);
      assert lines == [[]];
      assert PrintedLines(lines, leading, trailing, pad) == [[]] + PadAll([], pad) + [] == [[]];
      assert Dedent([[]]) == [];
    } else {
      DedentPrinted(lines, leading, trailing, pad);
    }
    hide Lines, PrintedLines, Dedent, Recovered, LeadingBreak, TrailingBreak, Indented, PrintedBody, ReadBlockBody;
  }

  /**
   Printing a canonical value in either mode, indenting the print by any number of
   spaces, and reading it: always a block string of the full length, whose value is the
   one that was printed if and only if `ComesBack` holds.
   */
  lemma {:induction false} BlockRoundTrip(v: Text, minimize: bool, pad: Text, post: Text)
    requires Plain(v) && Canonical(v) && AllSpaces(pad)
    ensures var body := Indented(PrintedBody(v, minimize), pad);
            var r := ReadBlockBody(body + TRIPLE + post);
            r.Ok? && r.value.size == |body| + 3 && (BlockValue(r.value.lines) == v <==> ComesBack(v, minimize))
  {
    hide *;
    PrintIsReread(v, minimize, pad, post);
    RereadIff(v, minimize);
  }

  lemma {:induction false} RecoveredOneLine(lines: seq<Text>, leading: bool)
    requires lines != [] && AllOneLine(lines)
    ensures Recovered(lines, leading) != [] && AllOneLine(Recovered(lines, leading))
  {
    forall i, n | 0 <= i < |lines| ensures OneLine(Cut(lines[i], n)) {
      assert OneLine(lines[i]);
      CutOneLine(lines[i], n);
    }
  }

  // ---------------------------------------------------------------------------
  // Values whose only line boundary is the line feed
  // ---------------------------------------------------------------------------

  /** `splitlines` and the lexer agree on where the lines of the text end. */
  predicate OnlyLineFeeds(v: Text) {
    forall i | 0 <= i < |v| :: IsBoundary(v[i]) ==> v[i] == LF
  }

  /** A last line with nothing on it is no line to `splitlines`. */
  function WithoutEmptyLast(lines: seq<Text>): seq<Text>
    requires lines != []
  {
    if lines[|lines| - 1] == [] then lines[..|lines| - 1] else lines
  }

  lemma {:induction false} SplitIsLines(s: Text)
    requires OnlyLineFeeds(s)
    ensures SplitLines(s) == WithoutEmptyLast(Lines(s))
  {
    if s == [] {
      return;
    }
    SplitFirst(s);
    hide *;
    SplitIsLines(s[1..]);
    var lines := Lines(s[1..]);
    if s[0] == LF {
      WithoutEmptyLastCons(lines);
    } else {
      SplitOnto(s[0], lines, SplitLines(s[1..]));
    }
  }

  lemma {:induction false} WithoutEmptyLastCons(lines: seq<Text>)
    requires lines != []
    ensures WithoutEmptyLast([[]] + lines) == [[]] + WithoutEmptyLast(lines)
  {
    assert ([[]] + lines)[..|lines|] == [[]] + lines[..|lines| - 1];
  }

  lemma {:induction false} SplitOnto(c: int, lines: seq<Text>, rest: seq<Text>)
    requires lines != [] && rest == WithoutEmptyLast(lines)
    ensures WithoutEmptyLast([[c] + lines[0]] + lines[1..]) ==
            if rest == [] then [[c]] else [[c] + rest[0]] + rest[1..]
  {
    var n := |lines| - 1;
    var longer := [[c] + lines[0]] + lines[1..];
    if n == 0 {
      assert [c] + [] == [c];
    } else {
      assert longer[n] == lines[n];
      assert longer[..n] == [[c] + lines[0]] + lines[..n][1..];
    }
  }

  lemma {:induction false} SplitFirst(s: Text)
    requires s != [] && OnlyLineFeeds(s)
    ensures OnlyLineFeeds(s[1..])
    ensures s[0] == LF ==> SplitLines(s) == [[]] + SplitLines(s[1..]) && Lines(s) == [[]] + Lines(s[1..])
    ensures s[0] != LF ==>
              var rest := SplitLines(s[1..]);
              && SplitLines(s) == (if rest == [] then [[s[0]]] else [[s[0]] + rest[0]] + rest[1..])
              && Lines(s) == [[s[0]] + Lines(s[1..])[0]] + Lines(s[1..])[1..]
  {
  }

  /** Escaping keeps the lines, and how each of them starts. */
  ghost predicate SameStarts(xs: seq<Text>, ys: seq<Text>) {
    && |xs| == |ys|
    && forall i | 0 <= i < |xs| ::
         (xs[i] == [] <==> ys[i] == []) && (xs[i] != [] ==> (IsBlank(xs[i][0]) <==> IsBlank(ys[i][0])))
  }

  lemma {:induction false} SameStartsOnto(p: Text, q: Text, xs: seq<Text>, ys: seq<Text>)
    requires xs != [] && SameStarts(xs, ys)
    requires p != [] && q != [] && (IsBlank(p[0]) <==> IsBlank(q[0]))
    ensures SameStarts(OntoFirst(p, xs), OntoFirst(q, ys))
  {
  }

  lemma {:induction false} EscapedFirst(v: Text)
    requires v != []
    ensures StartsWith(v, TRIPLE) ==>
              && Lines(v) == OntoFirst(TRIPLE, Lines(v[3..]))
              && Lines(Escaped(v)) == OntoFirst([BACKSLASH] + TRIPLE, Lines(Escaped(v[3..])))
    ensures !StartsWith(v, TRIPLE) && v[0] == LF ==>
              && Lines(v) == [[]] + Lines(v[1..])
              && Lines(Escaped(v)) == [[]] + Lines(Escaped(v[1..]))
    ensures !StartsWith(v, TRIPLE) && v[0] != LF ==>
              && Lines(v) == OntoFirst([v[0]], Lines(v[1..]))
              && Lines(Escaped(v)) == OntoFirst([v[0]], Lines(Escaped(v[1..])))
  {
    if StartsWith(v, TRIPLE) {
      assert v == TRIPLE + v[3..];
      LinesPrefix(TRIPLE, v[3..]);
      LinesPrefix([BACKSLASH] + TRIPLE, Escaped(v[3..]));
    } else {
      assert v == [v[0]] + v[1..];
      if v[0] == LF {
        LinesBreak(v[1..]);
        LinesBreak(Escaped(v[1..]));
      } else {
        LinesPrefix([v[0]], v[1..]);
        LinesPrefix([v[0]], Escaped(v[1..]));
      }
    }
    hide Lines;
  }

  lemma {:induction false} EscapedLines(v: Text)
    ensures SameStarts(Lines(Escaped(v)), Lines(v))
    decreases |v|
  {
    if v == [] {
      return;
    }
    EscapedFirst(v);
    if StartsWith(v, TRIPLE) {
      EscapedLines(v[3..]);
      SameStartsOnto([BACKSLASH] + TRIPLE, TRIPLE, Lines(Escaped(v[3..])), Lines(v[3..]));
    } else {
      EscapedLines(v[1..]);
      if v[0] != LF {
        SameStartsOnto([v[0]], [v[0]], Lines(Escaped(v[1..])), Lines(v[1..]));
      }
    }
    hide Lines, Escaped, OntoFirst;
  }

  lemma {:induction false} EscapedBoundaries(v: Text)
    requires OnlyLineFeeds(v)
    ensures OnlyLineFeeds(Escaped(v))
    decreases |v|
  {
    if v != [] {
      if StartsWith(v, TRIPLE) {
        EscapedBoundaries(v[3..]);
      } else {
        EscapedBoundaries(v[1..]);
      }
    }
  }

  /** The two tests on the lines of the escaped value, in terms of the lines of the value itself. */
  lemma {:induction false} LineTests(v: Text)
    requires OnlyLineFeeds(v) && v != [] && Canonical(v)
    ensures IsSingleLine(v) <==> |Lines(v)| == 1
    ensures ForcesLeading(v) <==> |Lines(v)| > 1 && !SomeFlush(Lines(v)[1..])
  {
    var lines, escaped := Lines(v), Lines(Escaped(v));
    EscapedLines(v);
    EscapedBoundaries(v);
    SplitIsLines(Escaped(v));
    assert lines[|lines| - 1] != [];
    hide Lines, Escaped, SplitLines;
    assert SplitLines(Escaped(v)) == escaped;
    if |lines| > 1 {
      var rest := lines[1..];
      if SomeFlush(rest) {
        var i :| 0 <= i < |rest| && Flush(rest[i]);
        assert rest[i] == lines[i + 1];
        assert !(escaped[i + 1] == [] || IsBlank(escaped[i + 1][0]));
      } else {
        forall i | 1 <= i < |escaped| ensures escaped[i] == [] || IsBlank(escaped[i][0]) {
          assert !Flush(rest[i - 1]) && rest[i - 1] == lines[i];
        }
      }
    }
  }

  /** Where the line feed is the only line boundary, every canonical value comes back, in both modes. */
  lemma {:induction false} LineFeedsComeBack(v: Text, minimize: bool)
    requires OnlyLineFeeds(v) && Canonical(v)
    ensures ComesBack(v, minimize)
  {
    if v != [] {
      LineTests(v);
      var lines := Lines(v);
      if |lines| == 1 {
        JoinLines(v);
        assert lines[0] == v;
        assert !IsBlank(v[0]) ==> Flush(lines[0]);
      }
      hide Lines, IsSingleLine, ForcesLeading, ForcesTrailing, HasTrailingTriple;
    }
  }

  /**
   Elsewhere it need not: a single line that starts with a space and contains the line
   boundary U+0085, which only `splitlines` knows, loses the space in both modes, ...
   */
  lemma {:induction false} NextLineLosesSpace()
    ensures var v := [SPACE, 'a' as int, 0x85, SPACE, 'b' as int];
            Plain(v) && Canonical(v) && !ComesBack(v, true) && !ComesBack(v, false)
  {
    var a, b := 'a' as int, 'b' as int;
    var v := [SPACE, a, 0x85, SPACE, b];
    LinesOfOne(v);
    PlainAscii(v);
    assert LeadingWhiteSpace(v) == 1 + LeadingWhiteSpace(v[1..]) && v[1..][0] == a;
    EscapedUnquoted(v);
    SplitPlainLine([SPACE, a], 0x85, [SPACE, b]);
    SplitLast([SPACE, b]);
    assert v == [SPACE, a] + [0x85] + [SPACE, b];
    assert SplitLines(v) == [[SPACE, a], [SPACE, b]];
    assert ForcesLeading(v);
  }

  /** ... and of several lines the indentation can be lost when they are printed minimized. */
  lemma {:induction false} NextLineLosesIndent()
    ensures var v := ['a' as int, LF, SPACE, 'b' as int, 0x85, 'c' as int];
            Plain(v) && Canonical(v) && !ComesBack(v, true)
  {
    var a, b, c := 'a' as int, 'b' as int, 'c' as int;
    var v, u := [a, LF, SPACE, b, 0x85, c], [SPACE, b, 0x85, c];
    PlainAscii(v);
    IndentLines(a, b, c);
    var lines: seq<Text> := [[a], u];
    assert lines[1..] == [u] && Flush(lines[0]) && !Flush(u);
    assert LeadingWhiteSpace(u) == 1 + LeadingWhiteSpace(u[1..]) && u[1..][0] == b;
    EscapedUnquoted(v);
    hide Lines, SplitLines, Escaped;
    assert SplitLines(Escaped(v))[2] == [c];
  }

  lemma {:induction false} IndentLines(a: int, b: int, c: int)
    requires forall x | x in [a, b, c] :: !IsBoundary(x)
    ensures Lines([a, LF, SPACE, b, 0x85, c]) == [[a], [SPACE, b, 0x85, c]]
    ensures SplitLines([a, LF, SPACE, b, 0x85, c]) == [[a], [SPACE, b], [c]]
  {
    assert a in [a, b, c] && b in [a, b, c] && c in [a, b, c];
    var u := [SPACE, b, 0x85, c];
    LinesOfJoin([a], u);
    LinesOfOne(u);
    SplitPlainLine([a], LF, u);
    SplitPlainLine([SPACE, b], 0x85, [c]);
    SplitLast([c]);
    hide Lines, SplitLines;
    assert [a, LF, SPACE, b, 0x85, c] == [a] + [LF] + u;
    assert u == [SPACE, b] + [0x85] + [c];
  }

  lemma {:induction false} PlainAscii(v: Text)
    requires forall i | 0 <= i < |v| :: 0 <= v[i] < 0x80 || v[i] == 0x85
    requires CR !in v
    ensures Plain(v)
  {
    if v != [] {
      PlainAscii(v[1..]);
    }
  }

  lemma {:induction false} EscapedUnquoted(v: Text)
    requires QUOTE !in v
    ensures Escaped(v) == v
  {
    if v != [] {
      if StartsWith(v, TRIPLE) {
        StartsWithHead(v, TRIPLE);
      }
      EscapedUnquoted(v[1..]);
    }
  }

  lemma {:induction false} SplitPlainLine(l: Text, c: int, s: Text)
    requires IsBoundary(c) && c != CR && forall i | 0 <= i < |l| :: !IsBoundary(l[i])
    ensures SplitLines(l + [c] + s) == [l] + SplitLines(s)
  {
    var text := l + [c] + s;
    if l == [] {
      assert text[1..] == s;
    } else {
      assert text[1..] == l[1..] + [c] + s;
      SplitPlainLine(l[1..], c, s);
      assert l == [l[0]] + l[1..];
      assert ([l[1..]] + SplitLines(s))[1..] == SplitLines(s);
    }
  }

  lemma {:induction false} SplitLast(l: Text)
    requires l != [] && forall i | 0 <= i < |l| :: !IsBoundary(l[i])
    ensures SplitLines(l) == [l]
  {
    if |l| > 1 {
      SplitLast(l[1..]);
      assert l == [l[0]] + l[1..];
    } else {
      assert l[1..] == [] && l == [l[0]];
    }
  }
}
