/**
 The lexical grammar as the lexer implements it, on the text that is still to be read.
 Characters are code points, so that lone surrogates, which a Python string can hold
 and the lexer refuses, are part of the model.
 */
module Lexing {

  type Text = seq<int>

  datatype LexError = SyntaxError | IndexError

  datatype Result<+T> = Ok(value: T) | Err(error: LexError)

  const TAB := 0x09
  const LF := 0x0A
  const CR := 0x0D
  const SPACE := 0x20
  const QUOTE := 0x22
  const HASH := 0x23
  const COMMA := 0x2C
  const MINUS := 0x2D
  const PLUS := 0x2B
  const POINT := 0x2E
  const ZERO := 0x30
  const BACKSLASH := 0x5C
  const UNICODE_BOM := 0xFEFF

  const TRIPLE: Text := [QUOTE, QUOTE, QUOTE]

  predicate IsDigit(c: int) {
    0x30 <= c <= 0x39
  }

  predicate IsLetter(c: int) {
    0x41 <= c <= 0x5A || 0x61 <= c <= 0x7A
  }

  predicate IsNameStart(c: int) {
    IsLetter(c) || c == '_' as int
  }

  predicate IsNameContinue(c: int) {
    IsLetter(c) || IsDigit(c) || c == '_' as int
  }

  predicate IsScalarValue(c: int) {
    0 <= c <= 0xD7FF || 0xE000 <= c <= 0x10FFFF
  }

  /** A surrogate pair stands at the front. */
  predicate StartsWithPair(s: Text) {
    |s| >= 2 && 0xD800 <= s[0] <= 0xDBFF && 0xDC00 <= s[1] <= 0xDFFF
  }

  predicate IsIgnored(c: int) {
    c == TAB || c == SPACE || c == COMMA || c == UNICODE_BOM || c == LF || c == CR
  }

  predicate StartsWith(s: Text, w: Text) {
    |w| <= |s| && s[..|w|] == w
  }

  // ---------------------------------------------------------------------------
  // Tokens
  // ---------------------------------------------------------------------------

  datatype Kind =
    | SOF | EOF
    | BANG | DOLLAR | AMP | PAREN_L | PAREN_R | SPREAD | COLON | EQUALS | AT
    | BRACKET_L | BRACKET_R | BRACE_L | PIPE | BRACE_R
    | NAME | INT | FLOAT | STRING | BLOCK_STRING | COMMENT

  predicate IsPunctuator(kind: Kind) {
    kind in {BANG, DOLLAR, AMP, PAREN_L, PAREN_R, SPREAD, COLON, EQUALS, AT, BRACKET_L, BRACKET_R, BRACE_L, PIPE,
        BRACE_R}
  }

  /** The punctuators of one character; `EOF` stands for none. */
  function PunctuatorKind(c: int): Kind {
    if c == '!' as int then BANG
    else if c == '$' as int then DOLLAR
    else if c == '&' as int then AMP
    else if c == '(' as int then PAREN_L
    else if c == ')' as int then PAREN_R
    else if c == ':' as int then COLON
    else if c == '=' as int then EQUALS
    else if c == '@' as int then AT
    else if c == '[' as int then BRACKET_L
    else if c == ']' as int then BRACKET_R
    else if c == '{' as int then BRACE_L
    else if c == '}' as int then BRACE_R
    else if c == '|' as int then PIPE
    else EOF
  }

  /** A token at the front of a text: its kind, its length and its value (empty for punctuators). */
  datatype Lexeme = Lexeme(kind: Kind, size: nat, value: Text)

  // ---------------------------------------------------------------------------
  // Names, numbers and comments
  // ---------------------------------------------------------------------------

  function NameRun(s: Text): (n: nat)
    ensures n <= |s|
  {
    if s == [] || !IsNameContinue(s[0]) then 0 else 1 + NameRun(s[1..])
  }

  function DigitRun(s: Text): (n: nat)
    ensures n <= |s|
  {
    if s == [] || !IsDigit(s[0]) then 0 else 1 + DigitRun(s[1..])
  }

  /** One or more digits. */
  function ReadDigits(s: Text): (r: Result<nat>)
    ensures r.Ok? ==> 0 < r.value <= |s|
  {
    if s == [] || !IsDigit(s[0]) then Err(SyntaxError) else Ok(1 + DigitRun(s[1..]))
  }

  function ReadIntPart(s: Text): (r: Result<nat>)
    ensures r.Ok? ==> 0 < r.value <= |s|
  {
    if s != [] && s[0] == ZERO then
      if |s| > 1 && IsDigit(s[1]) then Err(SyntaxError) else Ok(1)
    else ReadDigits(s)
  }

  /** The fractional part, which may be missing. */
  function ReadFraction(s: Text): (r: Result<nat>)
    ensures r.Ok? ==> r.value <= |s|
  {
    if s != [] && s[0] == POINT then
      var r := ReadDigits(s[1..]);
      if r.Err? then r else Ok(1 + r.value)
    else Ok(0)
  }

  /** The exponent part, which may be missing. */
  function ReadExponent(s: Text): (r: Result<nat>)
    ensures r.Ok? ==> r.value <= |s|
  {
    if s != [] && (s[0] == 'e' as int || s[0] == 'E' as int) then
      var sign := if |s| > 1 && (s[1] == PLUS || s[1] == MINUS) then 1 else 0;
      var r := ReadDigits(s[1 + sign..]);
      if r.Err? then r else Ok(1 + sign + r.value)
    else Ok(0)
  }

  /** A number must not run into a point or a name. */
  predicate EndsNumber(s: Text) {
    s == [] || !(s[0] == POINT || IsNameStart(s[0]))
  }

  /** Where the integer part of a number ends, and where all of it ends. */
  datatype Extent = Extent(whole: nat, end: nat)

  function MeasureExponent(s: Text, p: nat, q: nat): (r: Result<Extent>)
    requires p <= q <= |s|
    ensures r.Ok? ==> r.value.whole == p && q <= r.value.end <= |s|
  {
    var e := ReadExponent(s[q..]);
    if e.Err? then Err(e.error)
    else if EndsNumber(s[q + e.value..]) then Ok(Extent(p, q + e.value))
    else Err(SyntaxError)
  }

  function MeasureFraction(s: Text, p: nat): (r: Result<Extent>)
    requires p <= |s|
    ensures r.Ok? ==> r.value.whole == p && p <= r.value.end <= |s|
  {
    var f := ReadFraction(s[p..]);
    if f.Err? then Err(f.error) else MeasureExponent(s, p, p + f.value)
  }

  function MeasureNumber(s: Text): (r: Result<Extent>)
    ensures r.Ok? ==> 0 < r.value.whole <= r.value.end <= |s|
  {
    var sign := if s != [] && s[0] == MINUS then 1 else 0;
    var i := ReadIntPart(s[sign..]);
    if i.Err? then Err(i.error) else MeasureFraction(s, sign + i.value)
  }

  function ReadNumber(s: Text): (r: Result<Lexeme>)
    ensures r.Ok? ==> 0 < r.value.size <= |s|
  {
    var e := MeasureNumber(s);
    if e.Err? then Err(e.error)
    else
      var n := e.value.end;
      Ok(Lexeme(if n > e.value.whole then FLOAT else INT, n, s[..n]))
  }

  /** The length of a comment's text, up to the end of the line. */
  function CommentRun(s: Text): (n: nat)
    ensures n <= |s|
  {
    if s == [] || s[0] == LF || s[0] == CR then 0
    else if IsScalarValue(s[0]) then 1 + CommentRun(s[1..])
    else if StartsWithPair(s) then 2 + CommentRun(s[2..])
    else 0
  }

  // ---------------------------------------------------------------------------
  // Strings
  // ---------------------------------------------------------------------------

  /** The value of a hexadecimal digit, or -1. */
  function HexDigit(c: int): (d: int)
    ensures -1 <= d < 16
  {
    if 0x30 <= c <= 0x39 then c - 0x30
    else if 0x41 <= c <= 0x46 then c - 0x41 + 10
    else if 0x61 <= c <= 0x66 then c - 0x61 + 10
    else -1
  }

  /** Four digits; negative if one of them is none, as bitwise-or with a negative number is. */
  function Hex16(s: Text): (code: int)
    requires |s| >= 4
    ensures -1 <= code < 0x10000
  {
    var a, b, c, d := HexDigit(s[0]), HexDigit(s[1]), HexDigit(s[2]), HexDigit(s[3]);
    if a < 0 || b < 0 || c < 0 || d < 0 then -1 else ((a * 16 + b) * 16 + c) * 16 + d
  }

  /** The value and the length of an escape sequence. */
  datatype Escape = Escape(value: Text, size: nat)

  /** The named escapes; -1 for none. */
  function EscapedChar(c: int): int {
    if c == QUOTE then QUOTE
    else if c == '/' as int then '/' as int
    else if c == BACKSLASH then BACKSLASH
    else if c == 'b' as int then 0x08
    else if c == 'f' as int then 0x0C
    else if c == 'n' as int then LF
    else if c == 'r' as int then CR
    else if c == 't' as int then TAB
    else -1
  }

  /** `\u{...}`, with the digits read so far; at most twelve characters in all. */
  function ReadVariableWidth(s: Text, size: nat, point: nat): (r: Result<Escape>)
    requires size >= 3
    ensures r.Ok? ==> size < r.value.size <= |s|
    decreases 12 - size
  {
    if size >= 12 || size >= |s| then Err(SyntaxError)
    else if s[size] == '}' as int then
      if size + 1 < 5 || !IsScalarValue(point) then Err(SyntaxError) else Ok(Escape([point], size + 1))
    else
      var d := HexDigit(s[size]);
      if d < 0 then Err(SyntaxError) else ReadVariableWidth(s, size + 1, point * 16 + d)
  }

  /** `\uXXXX`, or two of them forming a surrogate pair. */
  function ReadFixedWidth(s: Text): (r: Result<Escape>)
    ensures r.Ok? ==> 0 < r.value.size <= |s|
  {
    if |s| < 6 then Err(IndexError)
    else
      var code := Hex16(s[2..]);
      if code >= 0 && IsScalarValue(code) then Ok(Escape([code], 6))
      else if 0xD800 <= code <= 0xDBFF && StartsWith(s[6..], [BACKSLASH, 'u' as int]) then
        if |s| < 12 then Err(IndexError)
        else
          var trailing := Hex16(s[8..]);
          if 0xDC00 <= trailing <= 0xDFFF then
            Ok(Escape([0x10000 + (code - 0xD800) * 0x400 + (trailing - 0xDC00)], 12))
          else Err(SyntaxError)
      else Err(SyntaxError)
  }

  /** An escape sequence; the text starts with its backslash. */
  function ReadEscape(s: Text): (r: Result<Escape>)
    ensures r.Ok? ==> 0 < r.value.size <= |s|
  {
    if |s| < 2 then Err(IndexError)
    else if s[1] == 'u' as int then
      if |s| > 2 && s[2] == '{' as int then ReadVariableWidth(s, 3, 0) else ReadFixedWidth(s)
    else if EscapedChar(s[1]) >= 0 then Ok(Escape([EscapedChar(s[1])], 2))
    else Err(SyntaxError)
  }

  /** A value read so far and the number of characters it took. */
  datatype Body = Body(value: Text, size: nat)

  function Prepend(value: Text, size: nat, r: Result<Body>): Result<Body> {
    if r.Err? then r else Ok(Body(value + r.value.value, size + r.value.size))
  }

  /** The rest of a string after its opening quote, up to and including the closing one. */
  function ReadStringBody(s: Text): (r: Result<Body>)
    ensures r.Ok? ==> 0 < r.value.size <= |s|
    decreases |s|
  {
    if s == [] then Err(SyntaxError)
    else if s[0] == QUOTE then Ok(Body([], 1))
    else if s[0] == BACKSLASH then
      var e := ReadEscape(s);
      if e.Err? then Err(e.error) else Prepend(e.value.value, e.value.size, ReadStringBody(s[e.value.size..]))
    else if s[0] == LF || s[0] == CR then Err(SyntaxError)
    else if IsScalarValue(s[0]) then Prepend([s[0]], 1, ReadStringBody(s[1..]))
    else if StartsWithPair(s) then Prepend(s[..2], 2, ReadStringBody(s[2..]))
    else Err(SyntaxError)
  }

  // ---------------------------------------------------------------------------
  // Block strings
  // ---------------------------------------------------------------------------

  /** The raw lines of a block string and the number of characters they took. */
  datatype Block = Block(lines: seq<Text>, size: nat)

  /** Puts characters in front of the first of the lines. */
  function PrependToLine(value: Text, size: nat, r: Result<Block>): Result<Block>
    requires r.Ok? ==> r.value.lines != []
  {
    if r.Err? then r
    else Ok(Block([value + r.value.lines[0]] + r.value.lines[1..], size + r.value.size))
  }

  function LineBreakSize(s: Text): nat
    requires s != []
  {
    if s[0] == CR && |s| > 1 && s[1] == LF then 2 else 1
  }

  /** The rest of a block string after its opening quotes, up to and including the closing ones. */
  function ReadBlockBody(s: Text): (r: Result<Block>)
    ensures r.Ok? ==> 0 < r.value.size <= |s| && r.value.lines != []
    decreases |s|
  {
    if s == [] then Err(SyntaxError)
    else if StartsWith(s, TRIPLE) then Ok(Block([[]], 3))
    else if StartsWith(s, [BACKSLASH] + TRIPLE) then PrependToLine(TRIPLE, 4, ReadBlockBody(s[4..]))
    else if s[0] == LF || s[0] == CR then
      var n := LineBreakSize(s);
      var r := ReadBlockBody(s[n..]);
      if r.Err? then r else Ok(Block([[]] + r.value.lines, n + r.value.size))
    else if IsScalarValue(s[0]) then PrependToLine([s[0]], 1, ReadBlockBody(s[1..]))
    else if StartsWithPair(s) then PrependToLine(s[..2], 2, ReadBlockBody(s[2..]))
    else Err(SyntaxError)
  }
}
