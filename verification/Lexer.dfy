/**
 The lexer as an object: readers that move a position over the source, the chain of
 tokens it has read so far, and its line count. Every reader is proved against the
 lexical grammar, and every token's line and column against the source itself.
 */
module Lexer {
  import opened Lexing
  import opened BlockStrings
  import opened BlockStringPrinting
  import opened Tokens

  datatype SourceToken = SourceToken(kind: Kind, start: nat, end: nat, line: nat, column: int, value: Text)

  // ---------------------------------------------------------------------------
  // Lines and columns of the source
  // ---------------------------------------------------------------------------

  predicate IsBreak(c: int) {
    c == LF || c == CR
  }

  /** A line terminator starts here; the line feed of "\r\n" belongs to the one before it. */
  predicate StartsTerminator(body: Text, i: nat)
    requires i < |body|
  {
    body[i] == CR || (body[i] == LF && !(i > 0 && body[i - 1] == CR))
  }

  /** One more than the number of line terminators before a position. */
  function LineAt(body: Text, p: nat): nat
    requires p <= |body|
  {
    if p == 0 then 1 else LineAt(body, p - 1) + if StartsTerminator(body, p - 1) then 1 else 0
  }

  /** The end of the last line terminator before a position. */
  function LineStartAt(body: Text, p: nat): (start: nat)
    requires p <= |body|
    ensures start <= p
  {
    if p == 0 then 0 else if IsBreak(body[p - 1]) then p else LineStartAt(body, p - 1)
  }

  /** The position is not inside a "\r\n". */
  predicate Whole(body: Text, p: nat) {
    p <= |body| && !(0 < p < |body| && body[p - 1] == CR && body[p] == LF)
  }

  /** Line and line start are those of the position. */
  predicate Located(body: Text, p: nat, line: nat, lineStart: nat) {
    Whole(body, p) && line == LineAt(body, p) && lineStart == LineStartAt(body, p)
  }

  lemma {:induction false} LocatedOn(body: Text, p: nat, q: nat, line: nat, lineStart: nat)
    requires Located(body, p, line, lineStart) && p <= q <= |body|
    requires forall i | p <= i < q :: !IsBreak(body[i])
    ensures Located(body, q, line, lineStart)
    decreases q - p
  {
    if p < q {
      LocatedOn(body, p, q - 1, line, lineStart);
    }
  }

  lemma {:induction false} LocatedBreak(body: Text, p: nat, line: nat, lineStart: nat)
    requires Located(body, p, line, lineStart) && p < |body| && IsBreak(body[p])
    ensures var q := p + LineBreakSize(body[p..]); q <= |body| && Located(body, q, line + 1, q)
  {
    var q := p + LineBreakSize(body[p..]);
    assert LineAt(body, p + 1) == LineAt(body, p) + 1;
    if q == p + 2 {
      assert body[p..][1] == body[p + 1];
      assert LineAt(body, q) == LineAt(body, p + 1);
    }
  }

  // ---------------------------------------------------------------------------
  // The tokens of a source
  // ---------------------------------------------------------------------------

  /** A token with the line and column at which it starts. */
  function Place(body: Text, kind: Kind, start: nat, end: nat, value: Text): SourceToken
    requires start <= |body|
  {
    SourceToken(kind, start, end, LineAt(body, start), 1 + start - LineStartAt(body, start), value)
  }

  /** The token that is read at a position, comments included. */
  function TokenFrom(body: Text, start: nat): (r: Result<SourceToken>)
    requires start <= |body|
    ensures r.Ok? ==> start <= r.value.start <= r.value.end <= |body|
    ensures r.Ok? && r.value.kind != EOF ==> start < r.value.end
  {
    var p := start + SkipIgnored(body[start..]);
    if p == |body| then Ok(Place(body, EOF, p, p, []))
    else
      var l := ReadToken(body[p..]);
      if l.Err? then Err(l.error) else Ok(Place(body, l.value.kind, p, p + l.value.size, l.value.value))
  }

  /** The next token that is no comment. */
  function NextToken(body: Text, start: nat): (r: Result<SourceToken>)
    requires start <= |body|
    ensures r.Ok? ==> start <= r.value.start <= r.value.end <= |body| && r.value.kind != COMMENT
    ensures r.Ok? && r.value.kind != EOF ==> start < r.value.end
    decreases |body| - start
  {
    var r := TokenFrom(body, start);
    if r.Ok? && r.value.kind == COMMENT then NextToken(body, r.value.end) else r
  }

  lemma {:induction false} DropDrop(s: Text, p: nat, k: nat)
    requires p + k <= |s|
    ensures s[p..][k..] == s[p + k..]
  {
  }

  lemma {:induction false} PrependPrepend(a: Text, i: nat, b: Text, j: nat, r: Result<Body>)
    ensures Prepend(a, i, Prepend(b, j, r)) == Prepend(a + b, i + j, r)
  {
    if r.Ok? {
      assert a + (b + r.value.value) == a + b + r.value.value;
    }
  }

  function CharAt(body: Text, p: nat): int {
    if p < |body| then body[p] else -1
  }

  predicate IsExponentMark(c: int) {
    c == 'e' as int || c == 'E' as int
  }

  predicate IsSign(c: int) {
    c == PLUS || c == MINUS
  }

  // The grammar of numbers by positions of the source, for a number that begins at `start`.

  lemma {:induction false} IntPartAt(body: Text, start: nat, k: nat)
    requires start < |body| && k == start + if body[start] == MINUS then 1 else 0
    ensures var r := MeasureNumber(body[start..]);
            if CharAt(body, k) == ZERO then
              r == if IsDigit(CharAt(body, k + 1)) then Err(SyntaxError)
                   else MeasureFraction(body[start..], k + 1 - start)
            else
              var d := ReadDigits(body[k..]);
              r == if d.Err? then Err(d.error) else MeasureFraction(body[start..], k + d.value - start)
  {
    hide ReadDigits, MeasureFraction;
    DropDrop(body, start, k - start);
  }

  lemma {:induction false} FractionAt(body: Text, start: nat, k: nat)
    requires start <= k <= |body|
    ensures var r := MeasureFraction(body[start..], k - start);
            if CharAt(body, k) == POINT then
              var d := ReadDigits(body[k + 1..]);
              r == if d.Err? then Err(d.error) else MeasureExponent(body[start..], k - start, k + 1 + d.value - start)
            else r == MeasureExponent(body[start..], k - start, k - start)
  {
    hide ReadDigits, MeasureExponent;
    DropDrop(body, start, k - start);
    if k < |body| {
      DropDrop(body, k, 1);
    }
  }

  /** The last check: no point and no name may follow. */
  function NumberEndAt(body: Text, p: nat, start: nat, n: nat): Result<Extent>
    requires start <= n
  {
    var c := CharAt(body, n);
    if c == POINT || IsNameStart(c) then Err(SyntaxError) else Ok(Extent(p, n - start))
  }

  lemma {:induction false} ExponentAt(body: Text, start: nat, p: nat, k: nat)
    requires start + p <= k <= |body|
    ensures var r := MeasureExponent(body[start..], p, k - start);
            if IsExponentMark(CharAt(body, k)) then
              var n := k + if IsSign(CharAt(body, k + 1)) then 2 else 1;
              var d := ReadDigits(body[n..]);
              r == if d.Err? then Err(d.error) else NumberEndAt(body, p, start, n + d.value)
            else r == NumberEndAt(body, p, start, k)
  {
    hide ReadDigits;
    DropDrop(body, start, k - start);
    if IsExponentMark(CharAt(body, k)) {
      var n := k + if IsSign(CharAt(body, k + 1)) then 2 else 1;
      DropDrop(body, k, n - k);
      var d := ReadDigits(body[n..]);
      if d.Ok? {
        DropDrop(body, start, n + d.value - start);
      }
    }
  }

  lemma {:induction false} NothingPrepended(r: Result<Body>)
    ensures Prepend([], 0, r) == r
  {
    if r.Ok? {
      assert [] + r.value.value == r.value.value;
    }
  }

  /** What is still to be read of a string, on top of what has been read of it. */
  ghost function StringOutcome(body: Text, p: nat, read: Text, n: nat): Result<Body>
    requires p <= |body|
  {
    Prepend(read, n, ReadStringBody(body[p..]))
  }

  lemma {:induction false} StringStep(body: Text, p: nat, value: Text, size: nat, read: Text, n: nat)
    requires p + size <= |body|
    requires ReadStringBody(body[p..]) == Prepend(value, size, ReadStringBody(body[p..][size..]))
    ensures StringOutcome(body, p, read, n) == StringOutcome(body, p + size, read + value, n + size)
  {
    hide ReadStringBody, Prepend;
    DropDrop(body, p, size);
    PrependPrepend(read, n, value, size, ReadStringBody(body[p + size..]));
  }

  lemma {:induction false} StringEscape(body: Text, p: nat, read: Text, n: nat)
    requires p < |body| && body[p] == BACKSLASH
    ensures var e := ReadEscape(body[p..]);
            StringOutcome(body, p, read, n) ==
            if e.Err? then Err(e.error)
            else StringOutcome(body, p + e.value.size, read + e.value.value, n + e.value.size)
  {
    hide ReadEscape;
    var e := ReadEscape(body[p..]);
    if e.Ok? {
      StringStep(body, p, e.value.value, e.value.size, read, n);
    }
  }

  lemma {:induction false} StringChars(body: Text, p: nat, size: nat, read: Text, n: nat)
    requires p < |body| && body[p] != QUOTE && body[p] != BACKSLASH && !IsBreak(body[p])
    requires if IsScalarValue(body[p]) then size == 1 else StartsWithPair(body[p..]) && size == 2
    ensures p + size <= |body|
    ensures StringOutcome(body, p, read, n) == StringOutcome(body, p + size, read + body[p..p + size], n + size)
  {
    assert body[p..][..size] == body[p..p + size];
    assert size == 1 ==> [body[p]] == body[p..p + 1];
    StringStep(body, p, body[p..p + size], size, read, n);
  }

  lemma {:induction false} StringCloses(body: Text, p: nat, read: Text, n: nat)
    requires p < |body| && body[p] == QUOTE
    ensures StringOutcome(body, p, read, n) == Ok(Body(read, n + 1))
  {
    assert read + [] == read;
  }

  lemma {:induction false} StringFails(body: Text, p: nat, read: Text, n: nat)
    requires p <= |body|
    requires p < |body| ==> body[p] != QUOTE && body[p] != BACKSLASH
    requires p < |body| ==> IsBreak(body[p]) || (!IsScalarValue(body[p]) && !StartsWithPair(body[p..]))
    ensures StringOutcome(body, p, read, n) == Err(SyntaxError)
  {
  }

  lemma {:induction false} VariableWidthStep(s: Text, size: nat, point: nat)
    requires size >= 3
    ensures size >= 12 || size >= |s| ==> ReadVariableWidth(s, size, point) == Err(SyntaxError)
    ensures size < 12 && size < |s| && s[size] == '}' as int ==>
              ReadVariableWidth(s, size, point) ==
              if size + 1 < 5 || !IsScalarValue(point) then Err(SyntaxError) else Ok(Escape([point], size + 1))
    ensures size < 12 && size < |s| && s[size] != '}' as int ==>
              var d := HexDigit(s[size]);
              ReadVariableWidth(s, size, point) ==
              if d < 0 then Err(SyntaxError) else ReadVariableWidth(s, size + 1, point * 16 + d)
  {
  }

  lemma {:induction false} StringStarts(body: Text, start: nat)
    requires start < |body|
    ensures StringOutcome(body, start + 1, [], 0) == ReadStringBody(body[start..][1..])
  {
    hide ReadStringBody;
    DropDrop(body, start, 1);
    NothingPrepended(ReadStringBody(body[start + 1..]));
  }

  lemma {:induction false} Chunk(body: Text, value: Text, chunkStart: nat, p: nat, q: nat)
    requires chunkStart <= p <= q <= |body|
    ensures value + body[chunkStart..q] == value + body[chunkStart..p] + body[p..q]
  {
  }

  /** Characters added to the last of the lines. */
  function OntoLast(lines: seq<Text>, p: Text): seq<Text>
    requires lines != []
  {
    lines[..|lines| - 1] + [lines[|lines| - 1] + p]
  }

  /** What is still to be read of a block string, after the lines that have been read of it. */
  ghost function BlockOutcome(body: Text, p: nat, lines: seq<Text>, n: nat): Result<Block>
    requires p <= |body| && lines != []
  {
    GlueRead(lines, n, ReadBlockBody(body[p..]))
  }

  lemma {:induction false} GlueOntoLast(lines: seq<Text>, n: nat, p: Text, k: nat, r: Result<Block>)
    requires lines != [] && (r.Ok? ==> r.value.lines != [])
    ensures GlueRead(lines, n, PrependToLine(p, k, r)) == GlueRead(OntoLast(lines, p), n + k, r)
  {
    if r.Ok? {
      var ys := r.value.lines;
      assert lines[|lines| - 1] + (p + ys[0]) == lines[|lines| - 1] + p + ys[0];
      assert ([p + ys[0]] + ys[1..])[1..] == ys[1..];
    }
  }

  lemma {:induction false} BlockChars(body: Text, p: nat, value: Text, size: nat, lines: seq<Text>, n: nat)
    requires p + size <= |body| && lines != []
    requires ReadBlockBody(body[p..]) == PrependToLine(value, size, ReadBlockBody(body[p..][size..]))
    ensures BlockOutcome(body, p, lines, n) == BlockOutcome(body, p + size, OntoLast(lines, value), n + size)
  {
    hide ReadBlockBody, GlueRead, PrependToLine, OntoLast;
    DropDrop(body, p, size);
    GlueOntoLast(lines, n, value, size, ReadBlockBody(body[p + size..]));
  }

  /** An ordinary character, or a surrogate pair. */
  lemma {:induction false} BlockChar(body: Text, p: nat, size: nat, lines: seq<Text>, n: nat)
    requires p < |body| && lines != [] && !IsBreak(body[p])
    requires !StartsWith(body[p..], TRIPLE) && !StartsWith(body[p..], [BACKSLASH] + TRIPLE)
    requires if IsScalarValue(body[p]) then size == 1 else StartsWithPair(body[p..]) && size == 2
    ensures p + size <= |body|
    ensures BlockOutcome(body, p, lines, n) ==
            BlockOutcome(body, p + size, OntoLast(lines, body[p..p + size]), n + size)
  {
    hide StartsWith, IsScalarValue;
    assert body[p..][..size] == body[p..p + size];
    assert size == 1 ==> [body[p]] == body[p..p + 1];
    BlockChars(body, p, body[p..p + size], size, lines, n);
  }

  lemma {:induction false} BlockEscape(body: Text, p: nat, lines: seq<Text>, n: nat)
    requires p < |body| && lines != [] && StartsWith(body[p..], [BACKSLASH] + TRIPLE)
    ensures p + 4 <= |body|
    ensures BlockOutcome(body, p, lines, n) == BlockOutcome(body, p + 4, OntoLast(lines, TRIPLE), n + 4)
  {
    EscapeIsNoTriple(body[p..]);
    hide StartsWith;
    BlockChars(body, p, TRIPLE, 4, lines, n);
  }

  lemma {:induction false} EscapeIsNoTriple(s: Text)
    requires StartsWith(s, [BACKSLASH] + TRIPLE)
    ensures |s| >= 4 && !StartsWith(s, TRIPLE) && s[0] == BACKSLASH
    ensures s[1] == s[2] == s[3] == QUOTE
  {
    StartsTriple(s);
    assert s[..4][0] == BACKSLASH && s[..4][1..] == TRIPLE;
    assert s[1] == s[..4][1..][0] && s[2] == s[..4][1..][1] && s[3] == s[..4][1..][2];
  }

  lemma {:induction false} BlockBreaks(body: Text, p: nat, lines: seq<Text>, n: nat)
    requires p < |body| && lines != [] && IsBreak(body[p])
    ensures var k := LineBreakSize(body[p..]);
            p + k <= |body| && BlockOutcome(body, p, lines, n) == BlockOutcome(body, p + k, lines + [[]], n + k)
  {
    var s, k := body[p..], LineBreakSize(body[p..]);
    BreakIsNoQuote(s);
    DropDrop(body, p, k);
    var r := ReadBlockBody(body[p + k..]);
    hide StartsWith;
    assert ReadBlockBody(s) == if r.Err? then r else Ok(Block([[]] + r.value.lines, k + r.value.size));
    hide ReadBlockBody;
    if r.Ok? {
      GlueBreak(lines, r.value.lines);
    }
  }

  lemma {:induction false} BreakIsNoQuote(s: Text)
    requires s != [] && IsBreak(s[0])
    ensures !StartsWith(s, TRIPLE) && !StartsWith(s, [BACKSLASH] + TRIPLE)
  {
    StartsTriple(s);
    if StartsWith(s, [BACKSLASH] + TRIPLE) {
      EscapeIsNoTriple(s);
    }
  }

  lemma {:induction false} GlueBreak(lines: seq<Text>, ys: seq<Text>)
    requires lines != [] && ys != []
    ensures Glue(lines, [[]] + ys) == Glue(lines + [[]], ys)
  {
    var k := |lines| - 1;
    assert ([[]] + ys)[1..] == ys && lines[k] + [] == lines[k] && [] + ys[0] == ys[0];
    assert (lines + [[]])[..k + 1] == lines == lines[..k] + [lines[k]];
    assert ys == [ys[0]] + ys[1..];
  }

  lemma {:induction false} BlockCloses(body: Text, p: nat, lines: seq<Text>, n: nat)
    requires p < |body| && lines != [] && StartsWith(body[p..], TRIPLE)
    ensures BlockOutcome(body, p, lines, n) == Ok(Block(lines, n + 3))
  {
    hide StartsWith;
    var s := body[p..];
    var one: seq<Text> := [[]];
    assert ReadBlockBody(s) == Ok(Block(one, 3));
    GlueEnd(lines);
  }

  lemma {:induction false} NewLine(lines: seq<Text>, line: Text)
    requires line == []
    ensures lines + [line] == lines + [[]]
    ensures lines == [] ==> lines + [line] == [[]]
  {
  }

  lemma {:induction false} GlueEnd(lines: seq<Text>)
    requires lines != []
    ensures Glue(lines, [[]]) == lines
  {
    var k := |lines| - 1;
    var one: seq<Text> := [[]];
    assert lines[k] + [] == lines[k] && one[1..] == [] && one[0] == [];
    assert lines[..k] + [lines[k]] == lines;
  }

  lemma {:induction false} BlockFails(body: Text, p: nat, lines: seq<Text>, n: nat)
    requires p <= |body| && lines != []
    requires p < |body| ==>
               && !StartsWith(body[p..], TRIPLE) && !StartsWith(body[p..], [BACKSLASH] + TRIPLE)
               && !IsBreak(body[p]) && !IsScalarValue(body[p]) && !StartsWithPair(body[p..])
    ensures BlockOutcome(body, p, lines, n) == Err(SyntaxError)
  {
    hide StartsWith, IsScalarValue;
  }

  lemma {:induction false} BlockStarts(body: Text, start: nat)
    requires start + 3 <= |body|
    ensures BlockOutcome(body, start + 3, [[]], 0) == ReadBlockBody(body[start..][3..])
  {
    hide ReadBlockBody;
    DropDrop(body, start, 3);
    var r := ReadBlockBody(body[start + 3..]);
    var one: seq<Text> := [[]];
    if r.Ok? {
      assert one[..0] == [] && [] + r.value.lines[0] == r.value.lines[0];
      assert [] + [r.value.lines[0]] + r.value.lines[1..] == r.value.lines;
    }
  }

  lemma {:induction false} OntoLastLine(lines: seq<Text>, line: Text, p: Text)
    ensures OntoLast(lines + [line], p) == lines + [line + p]
  {
  }

  lemma {:induction false} BlockOpens(body: Text, start: nat, line: nat, lineStart: nat)
    requires start < |body| && StartsWith(body[start..], TRIPLE) && Located(body, start, line, lineStart)
    ensures start + 3 <= |body| && Located(body, start + 3, line, lineStart)
  {
    StartsTriple(body[start..]);
    LocatedOn(body, start, start + 3, line, lineStart);
  }

  lemma {:induction false} BlockEnds(body: Text, p: nat, line: nat, lineStart: nat)
    requires p < |body| && StartsWith(body[p..], TRIPLE) && Located(body, p, line, lineStart)
    ensures p + 3 <= |body| && Located(body, p + 3, line, lineStart)
  {
    BlockOpens(body, p, line, lineStart);
  }

  lemma {:induction false} EscapedLocated(body: Text, p: nat, line: nat, lineStart: nat)
    requires p < |body| && StartsWith(body[p..], [BACKSLASH] + TRIPLE) && Located(body, p, line, lineStart)
    ensures p + 4 <= |body| && Located(body, p + 4, line, lineStart)
    ensures body[p + 1..p + 4] == TRIPLE
  {
    EscapeIsNoTriple(body[p..]);
    LocatedOn(body, p, p + 4, line, lineStart);
  }

  lemma {:induction false} BreakLocated(body: Text, p: nat, line: nat, lineStart: nat)
    requires p < |body| && IsBreak(body[p]) && Located(body, p, line, lineStart)
    ensures var q := p + LineBreakSize(body[p..]); q <= |body| && Located(body, q, line + 1, q)
  {
    LocatedBreak(body, p, line, lineStart);
  }

  lemma {:induction false} CharLocated(body: Text, p: nat, size: nat, line: nat, lineStart: nat)
    requires p + size <= |body| && size > 0 && !IsBreak(body[p]) && Located(body, p, line, lineStart)
    requires size == 1 || (size == 2 && StartsWithPair(body[p..]))
    ensures Located(body, p + size, line, lineStart)
  {
    LocatedOn(body, p, p + size, line, lineStart);
  }

  /** The token of a block string whose lines have been read. */
  lemma {:induction false} BlockTokenIs(body: Text, start: nat, size: nat, lines: seq<Text>, line: nat,
      lineStart: nat, value: Text)
    requires start + 3 <= |body| && Located(body, start, line, lineStart) && value == Join(Dedent(lines))
    requires ReadBlockBody(body[start..][3..]) == Ok(Block(lines, size))
    ensures ReadBlockString(body[start..]) == Ok(Lexeme(BLOCK_STRING, 3 + size, value))
    ensures Place(body, BLOCK_STRING, start, start + 3 + size, value) ==
            SourceToken(BLOCK_STRING, start, start + 3 + size, line, 1 + start - lineStart, value)
  {
  }

  /** Where the reader of a block string stands: the lines it has read, and the line it would be on. */
  ghost predicate ReadingBlock(body: Text, start: nat, p: nat, chunkStart: nat, currentLine: Text,
      blockLines: seq<Text>, line: nat, lineStart: nat)
  {
    && start + 3 <= chunkStart <= p <= |body|
    && Located(body, p, line + |blockLines|, lineStart)
    && BlockOutcome(body, p, blockLines + [currentLine + body[chunkStart..p]], p - start - 3)
       == ReadBlockBody(body[start..][3..])
  }

  lemma {:induction false} ReadingStarts(body: Text, start: nat, line: nat, lineStart: nat)
    requires start < |body| && StartsWith(body[start..], TRIPLE) && Located(body, start, line, lineStart)
    ensures start + 3 <= |body| && ReadingBlock(body, start, start + 3, start + 3, [], [], line, lineStart)
  {
    hide ReadBlockBody, BlockOutcome, StartsWith, Located;
    BlockOpens(body, start, line, lineStart);
    BlockStarts(body, start);
    NewLine([], [] + body[start + 3..start + 3]);
  }

  lemma {:induction false} ReadingEscape(body: Text, start: nat, p: nat, chunkStart: nat, currentLine: Text,
      blockLines: seq<Text>, line: nat, lineStart: nat)
    requires ReadingBlock(body, start, p, chunkStart, currentLine, blockLines, line, lineStart)
    requires p < |body| && StartsWith(body[p..], [BACKSLASH] + TRIPLE)
    ensures p + 4 <= |body|
    ensures ReadingBlock(body, start, p + 4, p + 1, currentLine + body[chunkStart..p], blockLines, line, lineStart)
  {
    hide ReadBlockBody, BlockOutcome, StartsWith, Located, OntoLast;
    var last := currentLine + body[chunkStart..p];
    BlockEscape(body, p, blockLines + [last], p - start - 3);
    EscapedLocated(body, p, line + |blockLines|, lineStart);
    OntoLastLine(blockLines, last, TRIPLE);
  }

  lemma {:induction false} ReadingBreak(body: Text, start: nat, p: nat, chunkStart: nat, currentLine: Text,
      blockLines: seq<Text>, line: nat, lineStart: nat)
    requires ReadingBlock(body, start, p, chunkStart, currentLine, blockLines, line, lineStart)
    requires p < |body| && IsBreak(body[p])
    ensures var q := p + LineBreakSize(body[p..]);
            q <= |body| &&
            ReadingBlock(body, start, q, q, [], blockLines + [currentLine + body[chunkStart..p]], line, q)
  {
    hide ReadBlockBody, BlockOutcome, Located;
    var lines := blockLines + [currentLine + body[chunkStart..p]];
    BlockBreaks(body, p, lines, p - start - 3);
    BreakLocated(body, p, line + |blockLines|, lineStart);
    var q := p + LineBreakSize(body[p..]);
    NewLine(lines, [] + body[q..q]);
  }

  lemma {:induction false} ReadingChar(body: Text, start: nat, p: nat, chunkStart: nat, currentLine: Text,
      blockLines: seq<Text>, line: nat, lineStart: nat, size: nat)
    requires ReadingBlock(body, start, p, chunkStart, currentLine, blockLines, line, lineStart)
    requires p < |body| && !IsBreak(body[p])
    requires !StartsWith(body[p..], TRIPLE) && !StartsWith(body[p..], [BACKSLASH] + TRIPLE)
    requires if IsScalarValue(body[p]) then size == 1 else StartsWithPair(body[p..]) && size == 2
    ensures ReadingBlock(body, start, p + size, chunkStart, currentLine, blockLines, line, lineStart)
  {
    hide ReadBlockBody, BlockOutcome, StartsWith, Located, OntoLast, IsScalarValue;
    var last := currentLine + body[chunkStart..p];
    BlockChar(body, p, size, blockLines + [last], p - start - 3);
    CharLocated(body, p, size, line + |blockLines|, lineStart);
    OntoLastLine(blockLines, last, body[p..p + size]);
    Chunk(body, currentLine, chunkStart, p, p + size);
  }

  lemma {:induction false} ReadingCloses(body: Text, start: nat, p: nat, chunkStart: nat, currentLine: Text,
      blockLines: seq<Text>, line: nat, lineStart: nat, lineStart0: nat)
    requires ReadingBlock(body, start, p, chunkStart, currentLine, blockLines, line, lineStart)
    requires p < |body| && StartsWith(body[p..], TRIPLE) && Located(body, start, line, lineStart0)
    ensures p + 3 <= |body| && Located(body, p + 3, line + |blockLines|, lineStart)
    ensures var lines := blockLines + [currentLine + body[chunkStart..p]];
            && ReadBlockString(body[start..]) == Ok(Lexeme(BLOCK_STRING, p + 3 - start, Join(Dedent(lines))))
            && Place(body, BLOCK_STRING, start, p + 3, Join(Dedent(lines))) ==
               SourceToken(BLOCK_STRING, start, p + 3, line, 1 + start - lineStart0, Join(Dedent(lines)))
  {
    hide ReadBlockBody, BlockOutcome, StartsWith, Located, Join, Dedent, ReadBlockString;
    var lines := blockLines + [currentLine + body[chunkStart..p]];
    BlockCloses(body, p, lines, p - start - 3);
    BlockEnds(body, p, line + |blockLines|, lineStart);
    BlockTokenIs(body, start, p - start, lines, line, lineStart0, Join(Dedent(lines)));
  }

  lemma {:induction false} ReadingFails(body: Text, start: nat, p: nat, chunkStart: nat, currentLine: Text,
      blockLines: seq<Text>, line: nat, lineStart: nat)
    requires ReadingBlock(body, start, p, chunkStart, currentLine, blockLines, line, lineStart)
    requires p < |body| ==>
               && !StartsWith(body[p..], TRIPLE) && !StartsWith(body[p..], [BACKSLASH] + TRIPLE)
               && !IsBreak(body[p]) && !IsScalarValue(body[p]) && !StartsWithPair(body[p..])
    ensures ReadBlockString(body[start..]) == Err(SyntaxError)
  {
    hide ReadBlockBody, BlockOutcome, StartsWith, Located;
    BlockFails(body, p, blockLines + [currentLine + body[chunkStart..p]], p - start - 3);
  }

  // ---------------------------------------------------------------------------
  // Only block strings span lines
  // ---------------------------------------------------------------------------

  predicate NoBreak(s: Text, n: nat) {
    n <= |s| && forall i | 0 <= i < n :: !IsBreak(s[i])
  }

  /** Two stretches without a line break, one after the other. */
  lemma {:induction false} NoBreakThen(s: Text, k: nat, n: nat)
    requires NoBreak(s, k) && NoBreak(s[k..], n)
    ensures NoBreak(s, k + n)
  {
    forall i | k <= i < k + n ensures !IsBreak(s[i]) {
      assert s[i] == s[k..][i - k];
    }
  }

  lemma {:induction false} NameRunNoBreak(s: Text)
    ensures NoBreak(s, NameRun(s))
  {
    if NameRun(s) > 0 {
      NameRunNoBreak(s[1..]);
      NoBreakThen(s, 1, NameRun(s[1..]));
    }
  }

  lemma {:induction false} DigitRunNoBreak(s: Text)
    ensures NoBreak(s, DigitRun(s))
  {
    if DigitRun(s) > 0 {
      DigitRunNoBreak(s[1..]);
      NoBreakThen(s, 1, DigitRun(s[1..]));
    }
  }

  lemma {:induction false} CommentRunNoBreak(s: Text)
    ensures NoBreak(s, CommentRun(s))
    decreases |s|
  {
    if CommentRun(s) > 0 {
      var k := if IsScalarValue(s[0]) then 1 else 2;
      CommentRunNoBreak(s[k..]);
      NoBreakThen(s, k, CommentRun(s[k..]));
    }
  }

  lemma {:induction false} DigitsNoBreak(s: Text)
    requires ReadDigits(s).Ok?
    ensures NoBreak(s, ReadDigits(s).value)
  {
    DigitRunNoBreak(s[1..]);
    NoBreakThen(s, 1, DigitRun(s[1..]));
  }

  lemma {:induction false} NumberNoBreak(s: Text)
    requires ReadNumber(s).Ok?
    ensures NoBreak(s, ReadNumber(s).value.size)
  {
    hide MeasureNumber;
    var n := ReadNumber(s).value.size;
    var sign, p, q := NumberHasParts(s);
    IntPartNoBreak(s[sign..]);
    NoBreakThen(s, sign, p - sign);
    FractionNoBreak(s[p..]);
    NoBreakThen(s, p, q - p);
    ExponentNoBreak(s[q..]);
    NoBreakThen(s, q, n - q);
  }

  lemma {:induction false} IntPartNoBreak(s: Text)
    requires ReadIntPart(s).Ok?
    ensures NoBreak(s, ReadIntPart(s).value)
  {
    if s[0] != ZERO {
      DigitsNoBreak(s);
    }
  }

  lemma {:induction false} FractionNoBreak(s: Text)
    requires ReadFraction(s).Ok?
    ensures NoBreak(s, ReadFraction(s).value)
  {
    if ReadFraction(s).value > 0 {
      DigitsNoBreak(s[1..]);
      NoBreakThen(s, 1, ReadDigits(s[1..]).value);
    }
  }

  lemma {:induction false} ExponentNoBreak(s: Text)
    requires ReadExponent(s).Ok?
    ensures NoBreak(s, ReadExponent(s).value)
  {
    if ReadExponent(s).value > 0 {
      var k := if |s| > 1 && (s[1] == PLUS || s[1] == MINUS) then 2 else 1;
      DigitsNoBreak(s[k..]);
      NoBreakThen(s, k, ReadDigits(s[k..]).value);
    }
  }

  lemma {:induction false} Hex16NoBreak(s: Text)
    requires |s| >= 4 && Hex16(s) >= 0
    ensures NoBreak(s, 4)
  {
  }

  lemma {:induction false} FixedWidthNoBreak(s: Text)
    requires ReadFixedWidth(s).Ok? && s[0] == BACKSLASH && s[1] == 'u' as int
    ensures NoBreak(s, ReadFixedWidth(s).value.size)
  {
    hide Hex16;
    Hex16NoBreak(s[2..]);
    NoBreakThen(s, 2, 4);
    if ReadFixedWidth(s).value.size == 12 {
      Hex16NoBreak(s[8..]);
      assert s[6..][..2] == [BACKSLASH, 'u' as int];
      assert s[6] == s[6..][..2][0] && s[7] == s[6..][..2][1];
      NoBreakThen(s, 8, 4);
    }
  }

  lemma {:induction false} VariableWidthNoBreak(s: Text, size: nat, point: nat)
    requires size >= 3 && NoBreak(s, size) && ReadVariableWidth(s, size, point).Ok?
    ensures NoBreak(s, ReadVariableWidth(s, size, point).value.size)
    decreases 12 - size
  {
    HexIsNoBreak(s[size]);
    hide HexDigit, IsScalarValue, IsBreak;
    if s[size] != '}' as int {
      VariableWidthNoBreak(s, size + 1, point * 16 + HexDigit(s[size]));
    }
  }

  lemma {:induction false} HexIsNoBreak(c: int)
    ensures HexDigit(c) >= 0 || c == '}' as int ==> !IsBreak(c)
  {
  }

  lemma {:induction false} EscapeNoBreak(s: Text)
    requires s != [] && s[0] == BACKSLASH && ReadEscape(s).Ok?
    ensures NoBreak(s, ReadEscape(s).value.size)
  {
    hide ReadFixedWidth, ReadVariableWidth;
    if s[1] == 'u' as int {
      EscapeAtLeastTwo(s);
      if s[2] == '{' as int {
        VariableWidthNoBreak(s, 3, 0);
      } else {
        FixedWidthNoBreak(s);
      }
    }
  }

  lemma {:induction false} StringBodyNoBreak(s: Text)
    requires ReadStringBody(s).Ok?
    ensures NoBreak(s, ReadStringBody(s).value.size)
    decreases |s|
  {
    hide ReadEscape;
    if s[0] != QUOTE {
      var k := if s[0] == BACKSLASH then ReadEscape(s).value.size else if IsScalarValue(s[0]) then 1 else 2;
      if s[0] == BACKSLASH {
        EscapeNoBreak(s);
      }
      StringBodyNoBreak(s[k..]);
      NoBreakThen(s, k, ReadStringBody(s[k..]).value.size);
    }
  }

  lemma {:induction false} TokenNoBreak(s: Text)
    requires s != [] && !IsIgnored(s[0]) && ReadToken(s).Ok? && ReadToken(s).value.kind != BLOCK_STRING
    ensures NoBreak(s, ReadToken(s).value.size)
  {
    hide ReadNumber, ReadStringBody, ReadBlockString;
    TokenKinds(s);
    if s[0] == HASH {
      CommentRunNoBreak(s[1..]);
      NoBreakThen(s, 1, CommentRun(s[1..]));
    } else if s[0] == QUOTE {
      StringBodyNoBreak(s[1..]);
      NoBreakThen(s, 1, ReadStringBody(s[1..]).value.size);
    } else if PunctuatorKind(s[0]) != EOF {
    } else if IsDigit(s[0]) || s[0] == MINUS {
      NumberNoBreak(s);
    } else if IsNameStart(s[0]) {
      NameRunNoBreak(s[1..]);
      NoBreakThen(s, 1, NameRun(s[1..]));
    } else {
      assert s[..3] == DOTS;
      assert s[0] == s[..3][0] && s[1] == s[..3][1] && s[2] == s[..3][2];
    }
  }

  /** A lexeme as a token of the source. */
  function PlaceLexeme(body: Text, p: nat, l: Result<Lexeme>): Result<SourceToken>
    requires p <= |body|
  {
    if l.Err? then Err(l.error) else Ok(Place(body, l.value.kind, p, p + l.value.size, l.value.value))
  }

  lemma {:induction false} AfterToken(body: Text, p: nat, line: nat, lineStart: nat)
    requires p < |body| && !IsIgnored(body[p]) && Located(body, p, line, lineStart)
    requires ReadToken(body[p..]).Ok? && ReadToken(body[p..]).value.kind != BLOCK_STRING
    ensures var n := ReadToken(body[p..]).value.size; p + n <= |body| && Located(body, p + n, line, lineStart)
  {
    hide ReadToken, Located;
    var n := ReadToken(body[p..]).value.size;
    TokenNoBreak(body[p..]);
    forall i | p <= i < p + n ensures !IsBreak(body[i]) {
      assert body[i] == body[p..][i - p];
    }
    LocatedOn(body, p, p + n, line, lineStart);
  }

  predicate StartsNoToken(c: int) {
    c != HASH && c != QUOTE && PunctuatorKind(c) == EOF && !IsDigit(c) && c != MINUS && !IsNameStart(c) && c != POINT
  }

  /** The branches of `ReadToken`, by the character at its front. */
  lemma {:induction false} ReadTokenCases(s: Text)
    requires s != []
    ensures s[0] == HASH ==> ReadToken(s) == Ok(ReadComment(s))
    ensures s[0] == QUOTE && StartsWith(s, TRIPLE) ==> |s| >= 3 && ReadToken(s) == ReadBlockString(s)
    ensures s[0] == QUOTE && !StartsWith(s, TRIPLE) ==> ReadToken(s) == ReadString(s)
    ensures PunctuatorKind(s[0]) != EOF ==> ReadToken(s) == Ok(Lexeme(PunctuatorKind(s[0]), 1, []))
    ensures IsDigit(s[0]) || s[0] == MINUS ==> ReadToken(s) == ReadNumber(s)
    ensures IsNameStart(s[0]) ==> ReadToken(s) == Ok(ReadName(s))
    ensures s[0] == POINT && StartsWith(s, DOTS) ==> ReadToken(s) == Ok(Lexeme(SPREAD, 3, []))
    ensures s[0] == POINT && !StartsWith(s, DOTS) ==> ReadToken(s) == Err(SyntaxError)
    ensures StartsNoToken(s[0]) ==> ReadToken(s) == Err(SyntaxError)
  {
    hide ReadComment, ReadBlockString, ReadString, ReadNumber, ReadName;
    if StartsWith(s, DOTS) {
      assert s[0] == s[..3][0];
    }
  }

  lemma {:induction false} SkipStep(body: Text, p: nat)
    requires p < |body|
    ensures SkipIgnored(body[p..]) == if IsIgnored(body[p]) then 1 + SkipIgnored(body[p + 1..]) else 0
  {
    DropDrop(body, p, 1);
  }

  lemma {:induction false} SkipBreak(body: Text, p: nat)
    requires p < |body| && IsBreak(body[p])
    ensures var n := LineBreakSize(body[p..]);
            p + n <= |body| && SkipIgnored(body[p..]) == n + SkipIgnored(body[p + n..])
  {
    hide SkipIgnored;
    SkipStep(body, p);
    if LineBreakSize(body[p..]) == 2 {
      assert body[p..][1] == body[p + 1];
      SkipStep(body, p + 1);
    }
  }

  lemma {:induction false} EndOfSource(body: Text, line: nat, lineStart: nat)
    requires Located(body, |body|, line, lineStart)
    ensures SkipIgnored(body[|body|..]) == 0
    ensures Place(body, EOF, |body|, |body|, []) == SourceToken(EOF, |body|, |body|, line, 1 + |body| - lineStart, [])
  {
  }

  // ---------------------------------------------------------------------------
  // The chain of tokens
  // ---------------------------------------------------------------------------

  const START_OF_FILE := SourceToken(SOF, 0, 0, 0, 0, [])

  /** Every token of the chain is the one that is read where the one before it ends. */
  ghost predicate IsChain(body: Text, chain: seq<SourceToken>) {
    && chain != [] && chain[0] == START_OF_FILE
    && (forall i | 0 <= i < |chain| :: chain[i].end <= |body|)
    && (forall i | 1 <= i < |chain| :: Ok(chain[i]) == TokenFrom(body, chain[i - 1].end))
  }

  lemma {:induction false} ChainGrows(body: Text, chain: seq<SourceToken>, t: SourceToken)
    requires IsChain(body, chain) && TokenFrom(body, chain[|chain| - 1].end) == Ok(t)
    ensures IsChain(body, chain + [t])
  {
    hide TokenFrom;
    var longer := chain + [t];
    forall i | 1 <= i < |longer| ensures Ok(longer[i]) == TokenFrom(body, longer[i - 1].end) {
      assert longer[i - 1] == chain[i - 1];
      assert i < |chain| ==> longer[i] == chain[i];
    }
  }

  /** What `advance` and `lookahead` give after a token: past the end, the end again. */
  function After(body: Text, t: SourceToken): Result<SourceToken>
    requires t.end <= |body|
  {
    if t.kind == EOF then Ok(t) else NextToken(body, t.end)
  }

  lemma {:induction false} CommentStep(body: Text, p: nat)
    requires p <= |body|
    ensures p == |body| ==> CommentRun(body[p..]) == 0
    ensures p < |body| && IsBreak(body[p]) ==> CommentRun(body[p..]) == 0
    ensures p < |body| && !IsBreak(body[p]) && IsScalarValue(body[p]) ==>
              CommentRun(body[p..]) == 1 + CommentRun(body[p + 1..])
    ensures p < |body| && !IsBreak(body[p]) && !IsScalarValue(body[p]) && StartsWithPair(body[p..]) ==>
              p + 2 <= |body| && CommentRun(body[p..]) == 2 + CommentRun(body[p + 2..])
    ensures p < |body| && !IsBreak(body[p]) && !IsScalarValue(body[p]) && !StartsWithPair(body[p..]) ==>
              CommentRun(body[p..]) == 0
  {
    if p + 1 <= |body| {
      DropDrop(body, p, 1);
    }
    if p + 2 <= |body| {
      DropDrop(body, p, 2);
    }
  }

  class Lexer {
    const body: Text
    /** The linked list of the tokens read so far, from the start-of-file token on. */
    var chain: seq<SourceToken>
    /** The indices in the chain of `token` and `last_token`. */
    var token: nat
    var lastToken: nat
    var line: nat
    var lineStart: nat

    ghost predicate Valid()
      reads this
    {
      && IsChain(body, chain) && token < |chain| && lastToken < |chain|
      && Located(body, chain[|chain| - 1].end, line, lineStart)
    }

    ghost function Current(): (t: SourceToken)
      requires Valid()
      reads this
      ensures t.end <= |body|
    {
      chain[token]
    }

    constructor (body: Text)
      ensures Valid() && this.body == body && Current() == START_OF_FILE
    {
      this.body := body;
      chain := [START_OF_FILE];
      token, lastToken := 0, 0;
      line, lineStart := 1, 0;
    }

    /** The character at a position; -1 stands for the empty slice past the end. */
    function At(p: nat): int {
      CharAt(body, p)
    }

    function CreateToken(kind: Kind, start: nat, end: nat, value: Text): SourceToken
      reads this
    {
      SourceToken(kind, start, end, line, 1 + start - lineStart, value)
    }

    method ReadNameToken(start: nat) returns (r: SourceToken)
      requires start < |body|
      ensures var l := ReadName(body[start..]); r == CreateToken(l.kind, start, start + l.size, l.value)
    {
      var position := start + 1;
      while position < |body|
        invariant start < position <= |body|
        invariant NameRun(body[start + 1..]) == position - (start + 1) + NameRun(body[position..])
      {
        if !IsNameContinue(body[position]) {
          break;
        }
        DropDrop(body, position, 1);
        position := position + 1;
      }
      DropDrop(body, start, 1);
      assert body[start..][..position - start] == body[start..position];
      r := CreateToken(NAME, start, position, body[start..position]);
    }

    method ReadCommentToken(start: nat) returns (r: SourceToken)
      requires start < |body|
      ensures var l := ReadComment(body[start..]); r == CreateToken(l.kind, start, start + l.size, l.value)
    {
      hide CommentRun, StartsWithPair, IsScalarValue;
      var position := start + 1;
      while position < |body|
        invariant start < position <= |body|
        invariant CommentRun(body[start + 1..]) == position - (start + 1) + CommentRun(body[position..])
      {
        var c := body[position];
        CommentStep(body, position);
        if IsBreak(c) {
          break;
        }
        if IsScalarValue(c) {
          position := position + 1;
        } else if StartsWithPair(body[position..]) {
          position := position + 2;
        } else {
          break;
        }
      }
      CommentStep(body, position);
      DropDrop(body, start, 1);
      assert body[start..][1..position - start] == body[start + 1..position];
      r := CreateToken(COMMENT, start, position, body[start + 1..position]);
    }

    method ReadDigitsFrom(start: nat, firstChar: int) returns (r: Result<nat>)
      requires start <= |body| && firstChar == At(start)
      ensures r == (var d := ReadDigits(body[start..]); if d.Err? then d else Ok(start + d.value))
    {
      if !IsDigit(firstChar) {
        return Err(SyntaxError);
      }
      var position := start + 1;
      while position < |body| && IsDigit(body[position])
        invariant start < position <= |body|
        invariant DigitRun(body[start + 1..]) == position - (start + 1) + DigitRun(body[position..])
      {
        DropDrop(body, position, 1);
        position := position + 1;
      }
      DropDrop(body, start, 1);
      r := Ok(position);
    }

    // The three steps of `read_number`: each returns the position after its part.

    method ReadWholePart(start: nat, firstChar: int) returns (r: Result<nat>)
      requires start < |body| && firstChar == body[start]
      ensures r.Ok? ==> start < r.value <= |body|
      ensures MeasureNumber(body[start..]) ==
              if r.Err? then Err(r.error) else MeasureFraction(body[start..], r.value - start)
    {
      hide ReadDigits, MeasureFraction, MeasureNumber;
      var position := start;
      var c := firstChar;
      if c == MINUS {
        position := position + 1;
        c := At(position);
      }
      IntPartAt(body, start, position);
      if c == ZERO {
        position := position + 1;
        c := At(position);
        r := if IsDigit(c) then Err(SyntaxError) else Ok(position);
      } else {
        r := ReadDigitsFrom(position, c);
      }
    }

    method ReadFractionPart(ghost start: nat, position: nat) returns (r: Result<nat>)
      requires start <= position <= |body|
      ensures r.Ok? ==> position <= r.value <= |body| && (r.value > position <==> At(position) == POINT)
      ensures MeasureFraction(body[start..], position - start) ==
              if r.Err? then Err(r.error) else MeasureExponent(body[start..], position - start, r.value - start)
    {
      hide ReadDigits, MeasureFraction, MeasureExponent;
      FractionAt(body, start, position);
      r := Ok(position);
      var c := At(position);
      if c == POINT {
        c := At(position + 1);
        r := ReadDigitsFrom(position + 1, c);
      }
    }

    method ReadExponentPart(ghost start: nat, ghost whole: nat, position: nat) returns (r: Result<nat>)
      requires start + whole <= position <= |body|
      ensures r.Ok? ==> position <= r.value <= |body| && (r.value > position <==> IsExponentMark(At(position)))
      ensures MeasureExponent(body[start..], whole, position - start) ==
              if r.Err? then Err(r.error) else NumberEndAt(body, whole, start, r.value)
    {
      hide ReadDigits, MeasureExponent;
      ExponentAt(body, start, whole, position);
      r := Ok(position);
      var c := At(position);
      if IsExponentMark(c) {
        var next := position + 1;
        c := At(next);
        if IsSign(c) {
          next := next + 1;
          c := At(next);
        }
        r := ReadDigitsFrom(next, c);
      }
    }

    method ReadNumberToken(start: nat, firstChar: int) returns (r: Result<SourceToken>)
      requires start < |body| && firstChar == body[start]
      ensures var l := ReadNumber(body[start..]);
              r == if l.Err? then Err(l.error)
                   else Ok(CreateToken(l.value.kind, start, start + l.value.size, l.value.value))
    {
      hide MeasureNumber, MeasureFraction, MeasureExponent;
      var whole := ReadWholePart(start, firstChar);
      if whole.Err? {
        return Err(whole.error);
      }
      var fraction := ReadFractionPart(start, whole.value);
      if fraction.Err? {
        return Err(fraction.error);
      }
      var exponent := ReadExponentPart(start, whole.value - start, fraction.value);
      if exponent.Err? {
        return Err(exponent.error);
      }
      var position := exponent.value;
      var isFloat := fraction.value > whole.value || position > fraction.value;
      var c := At(position);
      if c == POINT || IsNameStart(c) {
        return Err(SyntaxError);
      }
      assert body[start..][..position - start] == body[start..position];
      r := Ok(CreateToken(if isFloat then FLOAT else INT, start, position, body[start..position]));
    }

    method ReadEscapedUnicodeVariableWidth(position: nat) returns (r: Result<Escape>)
      requires position <= |body|
      ensures r == ReadVariableWidth(body[position..], 3, 0)
    {
      hide ReadVariableWidth, HexDigit;
      var point := 0;
      var size := 3;
      var maxSize := if 12 < |body| - position then 12 else |body| - position;
      ghost var s := body[position..];
      while size < maxSize
        invariant 3 <= size <= 12 && 0 <= point
        invariant ReadVariableWidth(s, 3, 0) == ReadVariableWidth(s, size, point)
      {
        VariableWidthStep(s, size, point);
        var c := body[position + size];
        size := size + 1;
        if c == '}' as int {
          if size < 5 || !IsScalarValue(point) {
            return Err(SyntaxError);
          }
          return Ok(Escape([point], size));
        }
        var digit := HexDigit(c);
        if digit < 0 {
          return Err(SyntaxError);
        }
        point := point * 16 + digit;
      }
      VariableWidthStep(s, size, point);
      r := Err(SyntaxError);
    }

    /** `read_16_bit_hex_code`, which fails where the source ends. */
    method Read16BitHexCode(position: nat) returns (r: Result<int>)
      ensures r == if position + 4 <= |body| then Ok(Hex16(body[position..])) else Err(IndexError)
    {
      if position + 4 > |body| {
        return Err(IndexError);
      }
      var a, b := HexDigit(body[position]), HexDigit(body[position + 1]);
      var c, d := HexDigit(body[position + 2]), HexDigit(body[position + 3]);
      r := Ok(if a < 0 || b < 0 || c < 0 || d < 0 then -1 else ((a * 16 + b) * 16 + c) * 16 + d);
    }

    method ReadEscapedUnicodeFixedWidth(position: nat) returns (r: Result<Escape>)
      requires position <= |body|
      ensures r == ReadFixedWidth(body[position..])
    {
      hide Hex16;
      var code := Read16BitHexCode(position + 2);
      if code.Err? {
        return Err(code.error);
      }
      DropDrop(body, position, 2);
      DropDrop(body, position, 6);
      if 0 <= code.value && IsScalarValue(code.value) {
        return Ok(Escape([code.value], 6));
      }
      if 0xD800 <= code.value <= 0xDBFF && StartsWith(body[position + 6..], [BACKSLASH, 'u' as int]) {
        var trailing := Read16BitHexCode(position + 8);
        if trailing.Err? {
          return Err(trailing.error);
        }
        DropDrop(body, position, 8);
        if 0xDC00 <= trailing.value <= 0xDFFF {
          return Ok(Escape([0x10000 + (code.value - 0xD800) * 0x400 + (trailing.value - 0xDC00)], 12));
        }
      }
      r := Err(SyntaxError);
    }

    method ReadEscapedCharacter(position: nat) returns (r: Result<Escape>)
      requires position < |body| && At(position + 1) != 'u' as int
      ensures r == ReadEscape(body[position..])
    {
      if position + 1 >= |body| {
        return Err(IndexError);
      }
      var value := EscapedChar(body[position + 1]);
      r := if value >= 0 then Ok(Escape([value], 2)) else Err(SyntaxError);
    }

    method ReadEscapeSequence(position: nat) returns (r: Result<Escape>)
      requires position < |body|
      ensures r == ReadEscape(body[position..])
    {
      if At(position + 1) == 'u' as int {
        if At(position + 2) == '{' as int {
          r := ReadEscapedUnicodeVariableWidth(position);
        } else {
          r := ReadEscapedUnicodeFixedWidth(position);
        }
      } else {
        r := ReadEscapedCharacter(position);
      }
    }

    method ReadStringToken(start: nat) returns (r: Result<SourceToken>)
      requires start < |body|
      ensures var l := ReadString(body[start..]);
              r == if l.Err? then Err(l.error)
                   else Ok(CreateToken(l.value.kind, start, start + l.value.size, l.value.value))
    {
      hide ReadEscape, ReadStringBody, StringOutcome, IsScalarValue;
      var position := start + 1;
      var chunkStart := position;
      var value: Text := [];
      StringStarts(body, start);
      assert value + body[chunkStart..position] == [];
      while position < |body|
        invariant start < chunkStart <= position <= |body|
        invariant StringOutcome(body, position, value + body[chunkStart..position], position - start - 1)
                  == ReadStringBody(body[start..][1..])
      {
        var c := body[position];
        ghost var read, n := value + body[chunkStart..position], position - start - 1;
        if c == QUOTE {
          StringCloses(body, position, read, n);
          value := value + body[chunkStart..position];
          return Ok(CreateToken(STRING, start, position + 1, value));
        }
        if c == BACKSLASH {
          StringEscape(body, position, read, n);
          var escape := ReadEscapeSequence(position);
          if escape.Err? {
            return Err(escape.error);
          }
          value := value + body[chunkStart..position] + escape.value.value;
          position := position + escape.value.size;
          chunkStart := position;
          assert value + body[chunkStart..position] == value;
          continue;
        }
        if IsBreak(c) {
          break;
        }
        if IsScalarValue(c) {
          StringChars(body, position, 1, read, n);
          Chunk(body, value, chunkStart, position, position + 1);
          position := position + 1;
        } else if StartsWithPair(body[position..]) {
          StringChars(body, position, 2, read, n);
          Chunk(body, value, chunkStart, position, position + 2);
          position := position + 2;
        } else {
          StringFails(body, position, read, n);
          return Err(SyntaxError);
        }
      }
      StringFails(body, position, value + body[chunkStart..position], position - start - 1);
      r := Err(SyntaxError);
    }

    method ReadBlockStringToken(start: nat) returns (r: Result<SourceToken>)
      requires start < |body| && StartsWith(body[start..], TRIPLE) && Located(body, start, line, lineStart)
      modifies this`line, this`lineStart
      ensures var l := ReadBlockString(body[start..]);
              && r == (if l.Err? then Err(l.error)
                       else Ok(Place(body, BLOCK_STRING, start, start + l.value.size, l.value.value)))
              && (l.Err? ==> line == old(line) && lineStart == old(lineStart))
              && (l.Ok? ==> start + l.value.size <= |body| && Located(body, start + l.value.size, line, lineStart))
    {
      hide ReadBlockString, ReadingBlock, StartsWith, Located, IsScalarValue, Dedent, Join, Place;
      ReadingStarts(body, start, line, lineStart);
      var position := start + 3;
      var chunkStart := position;
      var currentLine: Text := [];
      var blockLines: seq<Text> := [];
      var blockLineStart: nat := lineStart;
      while position < |body|
        invariant start + 3 <= chunkStart <= position <= |body|
        invariant line == old(line) && lineStart == old(lineStart)
        invariant ReadingBlock(body, start, position, chunkStart, currentLine, blockLines, line, blockLineStart)
      {
        var c := body[position];
        if StartsWith(body[position..], TRIPLE) {
          ReadingCloses(body, start, position, chunkStart, currentLine, blockLines, line, blockLineStart, lineStart);
          currentLine := currentLine + body[chunkStart..position];
          blockLines := blockLines + [currentLine];
          var dedented := DedentBlockStringLines(blockLines);
          r := Ok(CreateToken(BLOCK_STRING, start, position + 3, Join(dedented)));
          line := line + |blockLines| - 1;
          lineStart := blockLineStart;
          return;
        }
        if StartsWith(body[position..], [BACKSLASH] + TRIPLE) {
          ReadingEscape(body, start, position, chunkStart, currentLine, blockLines, line, blockLineStart);
          currentLine := currentLine + body[chunkStart..position];
          chunkStart := position + 1;
          position := position + 4;
          continue;
        }
        if IsBreak(c) {
          ReadingBreak(body, start, position, chunkStart, currentLine, blockLines, line, blockLineStart);
          currentLine := currentLine + body[chunkStart..position];
          blockLines := blockLines + [currentLine];
          position := position + LineBreakSize(body[position..]);
          currentLine := [];
          chunkStart := position;
          blockLineStart := position;
          continue;
        }
        if IsScalarValue(c) {
          ReadingChar(body, start, position, chunkStart, currentLine, blockLines, line, blockLineStart, 1);
          position := position + 1;
        } else if StartsWithPair(body[position..]) {
          ReadingChar(body, start, position, chunkStart, currentLine, blockLines, line, blockLineStart, 2);
          position := position + 2;
        } else {
          ReadingFails(body, start, position, chunkStart, currentLine, blockLines, line, blockLineStart);
          return Err(SyntaxError);
        }
      }
      ReadingFails(body, start, position, chunkStart, currentLine, blockLines, line, blockLineStart);
      r := Err(SyntaxError);
    }

    /** The token whose first character stands at a position: the dispatch of `read_next_token`. */
    method ReadTokenAt(position: nat) returns (r: Result<SourceToken>)
      requires position < |body| && !IsIgnored(body[position]) && Located(body, position, line, lineStart)
      modifies this`line, this`lineStart
      ensures r == PlaceLexeme(body, position, ReadToken(body[position..]))
      ensures r.Ok? ==> r.value.end <= |body| && Located(body, r.value.end, line, lineStart)
    {
      hide ReadToken, ReadComment, ReadBlockString, ReadString, ReadNumber, ReadName, StartsWith;
      var c := body[position];
      ghost var s := body[position..];
      ReadTokenCases(s);
      if ReadToken(s).Ok? {
        TokenKinds(s);
        if ReadToken(s).value.kind != BLOCK_STRING {
          AfterToken(body, position, line, lineStart);
        }
      }
      if c == HASH {
        var t := ReadCommentToken(position);
        return Ok(t);
      }
      if c == QUOTE {
        if StartsWith(body[position..], TRIPLE) {
          r := ReadBlockStringToken(position);
        } else {
          r := ReadStringToken(position);
        }
        return;
      }
      var kind := PunctuatorKind(c);
      if kind != EOF {
        return Ok(CreateToken(kind, position, position + 1, []));
      }
      if IsDigit(c) || c == MINUS {
        r := ReadNumberToken(position, c);
        return;
      }
      if IsNameStart(c) {
        var t := ReadNameToken(position);
        return Ok(t);
      }
      if c == POINT && StartsWith(body[position..], DOTS) {
        return Ok(CreateToken(SPREAD, position, position + 3, []));
      }
      r := Err(SyntaxError);
    }

    method ReadNextToken(start: nat) returns (r: Result<SourceToken>)
      requires start <= |body| && Located(body, start, line, lineStart)
      modifies this`line, this`lineStart
      ensures r == TokenFrom(body, start)
      ensures r.Ok? ==> Located(body, r.value.end, line, lineStart)
    {
      hide SkipIgnored, ReadToken, Located;
      var position := start;
      while position < |body|
        invariant start <= position <= |body|
        invariant Located(body, position, line, lineStart)
        invariant SkipIgnored(body[start..]) == position - start + SkipIgnored(body[position..])
      {
        var c := body[position];
        SkipStep(body, position);
        if IsBreak(c) {
          SkipBreak(body, position);
          BreakLocated(body, position, line, lineStart);
          position := position + LineBreakSize(body[position..]);
          line := line + 1;
          lineStart := position;
          continue;
        }
        if IsIgnored(c) {
          CharLocated(body, position, 1, line, lineStart);
          position := position + 1;
          continue;
        }
        r := ReadTokenAt(position);
        return;
      }
      EndOfSource(body, line, lineStart);
      r := Ok(CreateToken(EOF, |body|, |body|, []));
    }

    /**
     The next token that is no comment, and its place in the chain. The current token stays
     what it was; only the chain may grow. After an error the lexer is not used again.
     */
    method Lookahead() returns (r: Result<SourceToken>, at: nat)
      requires Valid()
      modifies this`chain, this`line, this`lineStart
      ensures old(chain) <= chain
      ensures r == After(body, old(Current()))
      ensures r.Ok? ==> Valid() && at < |chain| && chain[at] == r.value
    {
      hide TokenFrom, Located;
      at := token;
      if chain[at].kind != EOF {
        while true
          invariant Valid() && old(chain) <= chain
          invariant token <= at < |chain| && chain[at].kind != EOF
          invariant NextToken(body, chain[token].end) == NextToken(body, chain[at].end)
          decreases |body| - chain[at].end
        {
          if at + 1 < |chain| {
            at := at + 1;
          } else {
            var next := ReadNextToken(chain[at].end);
            if next.Err? {
              return Err(next.error), at;
            }
            ChainGrows(body, chain, next.value);
            chain := chain + [next.value];
            at := at + 1;
          }
          assert Ok(chain[at]) == TokenFrom(body, chain[at - 1].end);
          if chain[at].kind != COMMENT {
            break;
          }
        }
      }
      r := Ok(chain[at]);
    }

    /** Makes the next token that is no comment the current one. */
    method Advance() returns (r: Result<SourceToken>)
      requires Valid()
      modifies this
      ensures old(chain) <= chain && lastToken == old(token)
      ensures r == After(body, old(Current()))
      ensures r.Ok? ==> Valid() && Current() == r.value
    {
      hide IsChain, TokenFrom, Located;
      lastToken := token;
      var at;
      r, at := Lookahead();
      if r.Ok? {
        token := at;
      }
    }
  }
}
