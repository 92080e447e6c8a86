/**
 Whole texts as sequences of tokens, and why a token is read the same from its own
 characters alone, whatever follows it, as long as that does not run into it.
 */
module Tokens {
  import opened Lexing
  import opened BlockStringPrinting

  const DOTS: Text := [POINT, POINT, POINT]

  function SkipIgnored(s: Text): (n: nat)
    ensures n <= |s|
  {
    if s == [] || !IsIgnored(s[0]) then 0 else 1 + SkipIgnored(s[1..])
  }

  function ReadName(s: Text): Lexeme
    requires s != []
  {
    var n := 1 + NameRun(s[1..]);
    Lexeme(NAME, n, s[..n])
  }

  function ReadComment(s: Text): Lexeme
    requires s != []
  {
    var n := 1 + CommentRun(s[1..]);
    Lexeme(COMMENT, n, s[1..n])
  }

  function ReadString(s: Text): (r: Result<Lexeme>)
    requires s != []
    ensures r.Ok? ==> 0 < r.value.size <= |s|
  {
    var b := ReadStringBody(s[1..]);
    if b.Err? then Err(b.error) else Ok(Lexeme(STRING, 1 + b.value.size, b.value.value))
  }

  function ReadBlockString(s: Text): (r: Result<Lexeme>)
    requires |s| >= 3
    ensures r.Ok? ==> 0 < r.value.size <= |s|
  {
    var b := ReadBlockBody(s[3..]);
    if b.Err? then Err(b.error) else Ok(Lexeme(BLOCK_STRING, 3 + b.value.size, BlockValue(b.value.lines)))
  }

  /** The token at the front of a text. */
  function ReadToken(s: Text): (r: Result<Lexeme>)
    requires s != []
    ensures r.Ok? ==> 0 < r.value.size <= |s|
  {
    if s[0] == HASH then Ok(ReadComment(s))
    else if s[0] == QUOTE then if StartsWith(s, TRIPLE) then ReadBlockString(s) else ReadString(s)
    else if PunctuatorKind(s[0]) != EOF then Ok(Lexeme(PunctuatorKind(s[0]), 1, []))
    else if IsDigit(s[0]) || s[0] == MINUS then ReadNumber(s)
    else if IsNameStart(s[0]) then Ok(ReadName(s))
    else if StartsWith(s, DOTS) then Ok(Lexeme(SPREAD, 3, []))
    else Err(SyntaxError)
  }

  datatype Token = Token(kind: Kind, text: Text, value: Text)

  function Cons(t: Token, r: Result<seq<Token>>): Result<seq<Token>> {
    if r.Err? then r else Ok([t] + r.value)
  }

  /** The tokens of a text without its comments; the final EOF is the end of the sequence. */
  function Tokenize(s: Text): Result<seq<Token>>
    decreases |s|
  {
    var rest := s[SkipIgnored(s)..];
    if rest == [] then Ok([])
    else
      var l := ReadToken(rest);
      if l.Err? then Err(l.error)
      else
        var more := Tokenize(rest[l.value.size..]);
        if l.value.kind == COMMENT then more else Cons(Token(l.value.kind, rest[..l.value.size], l.value.value), more)
  }

  // ---------------------------------------------------------------------------
  // Reading depends on the token's own characters
  // ---------------------------------------------------------------------------

  /** What may follow a token that is no punctuator. */
  predicate Separates(post: Text) {
    post == [] || IsIgnored(post[0]) || PunctuatorKind(post[0]) != EOF
  }

  /** The texts start with the same `n` characters. */
  predicate Agree(s: Text, t: Text, n: nat) {
    n <= |s| && n <= |t| && forall i | 0 <= i < n :: s[i] == t[i]
  }

  lemma {:induction false} AgreeDrop(s: Text, t: Text, n: nat, k: nat)
    requires Agree(s, t, n) && k <= n
    ensures Agree(s[k..], t[k..], n - k)
  {
  }

  lemma {:induction false} DigitRunAgree(s: Text, t: Text)
    requires var n := DigitRun(s); Agree(s, t, n) && (|t| == n || !IsDigit(t[n]))
    ensures DigitRun(t) == DigitRun(s)
  {
    if DigitRun(s) > 0 {
      assert t[1..] == [] || t[1..][DigitRun(s[1..])..] == t[DigitRun(s)..];
      DigitRunAgree(s[1..], t[1..]);
    }
  }

  lemma {:induction false} DigitRunStops(s: Text)
    ensures DigitRun(s) == |s| || !IsDigit(s[DigitRun(s)])
  {
    if s != [] && IsDigit(s[0]) {
      DigitRunStops(s[1..]);
    }
  }

  lemma {:induction false} NameRunAgree(s: Text, t: Text)
    requires var n := NameRun(s); Agree(s, t, n) && (|t| == n || !IsNameContinue(t[n]))
    ensures NameRun(t) == NameRun(s)
  {
    if NameRun(s) > 0 {
      NameRunAgree(s[1..], t[1..]);
    }
  }

  lemma {:induction false} DigitsAgree(s: Text, t: Text)
    requires var r := ReadDigits(s); r.Ok? && Agree(s, t, r.value) && (|t| == r.value || !IsDigit(t[r.value]))
    ensures ReadDigits(t) == ReadDigits(s)
    ensures var n := ReadDigits(s).value; n == |s| || !IsDigit(s[n])
  {
    AgreeDrop(s, t, ReadDigits(s).value, 1);
    DigitRunAgree(s[1..], t[1..]);
    DigitRunStops(s[1..]);
  }

  lemma {:induction false} IntPartAgree(s: Text, t: Text)
    requires var r := ReadIntPart(s); r.Ok? && Agree(s, t, r.value) && (|t| == r.value || !IsDigit(t[r.value]))
    ensures ReadIntPart(t) == ReadIntPart(s)
  {
    if s[0] != ZERO {
      DigitsAgree(s, t);
    }
  }

  lemma {:induction false} IntPartStops(s: Text)
    requires ReadIntPart(s).Ok?
    ensures var n := ReadIntPart(s).value; n == |s| || !IsDigit(s[n])
  {
    if s[0] != ZERO {
      DigitsAgree(s, s[..ReadIntPart(s).value]);
    }
  }

  lemma {:induction false} FractionAgree(s: Text, t: Text)
    requires var r := ReadFraction(s);
             r.Ok? && Agree(s, t, r.value) && (|t| == r.value || (!IsDigit(t[r.value]) && t[r.value] != POINT))
    ensures ReadFraction(t) == ReadFraction(s)
  {
    var n := ReadFraction(s).value;
    if n > 0 {
      AgreeDrop(s, t, n, 1);
      DigitsAgree(s[1..], t[1..]);
    }
  }

  lemma {:induction false} ExponentAgree(s: Text, t: Text)
    requires var r := ReadExponent(s);
             r.Ok? && Agree(s, t, r.value) && (|t| == r.value || (!IsDigit(t[r.value]) && !IsNameStart(t[r.value])))
    ensures ReadExponent(t) == ReadExponent(s)
  {
    var n := ReadExponent(s).value;
    if n > 0 {
      var sign := if |s| > 1 && (s[1] == PLUS || s[1] == MINUS) then 1 else 0;
      AgreeDrop(s, t, n, 1 + sign);
      DigitsAgree(s[1 + sign..], t[1 + sign..]);
      assert s[1] == t[1];
    }
  }

  /** The parts of a number: sign, integer part, fractional part and exponent part end here. */
  ghost predicate NumberParts(s: Text, sign: nat, p: nat, q: nat, n: nat) {
    && sign <= p <= q <= n <= |s|
    && sign == (if s != [] && s[0] == MINUS then 1 else 0)
    && ReadIntPart(s[sign..]) == Ok(p - sign)
    && ReadFraction(s[p..]) == Ok(q - p)
    && ReadExponent(s[q..]) == Ok(n - q)
  }

  lemma {:induction false} NumberHasParts(s: Text) returns (sign: nat, p: nat, q: nat)
    requires MeasureNumber(s).Ok?
    ensures p == MeasureNumber(s).value.whole && NumberParts(s, sign, p, q, MeasureNumber(s).value.end)
    ensures EndsNumber(s[MeasureNumber(s).value.end..])
  {
    hide ReadIntPart, ReadFraction, ReadExponent;
    sign := if s != [] && s[0] == MINUS then 1 else 0;
    p := sign + ReadIntPart(s[sign..]).value;
    q := p + ReadFraction(s[p..]).value;
  }

  lemma {:induction false} NumberFromParts(s: Text, sign: nat, p: nat, q: nat, n: nat)
    requires NumberParts(s, sign, p, q, n) && EndsNumber(s[n..])
    ensures MeasureNumber(s) == Ok(Extent(p, n))
  {
    hide ReadIntPart, ReadFraction, ReadExponent;
  }

  lemma {:induction false} NumberSize(s: Text, sign: nat, p: nat, q: nat, n: nat)
    requires NumberParts(s, sign, p, q, n)
    ensures p > sign
  {
    hide ReadFraction, ReadExponent;
  }

  /** Nothing digit-, point- or name-like stands at `n`. */
  predicate NumberEnd(t: Text, n: nat) {
    n >= |t| || (!IsDigit(t[n]) && !IsNameStart(t[n]) && t[n] != POINT)
  }

  /** Parts are read the same where the texts agree and end the same way. */
  lemma {:induction false} PartsAgree(s: Text, t: Text, sign: nat, p: nat, q: nat, n: nat)
    requires NumberParts(s, sign, p, q, n) && Agree(s, t, n) && NumberEnd(t, n)
    ensures NumberParts(t, sign, p, q, n)
  {
    NumberSize(s, sign, p, q, n);
    hide ReadIntPart, ReadFraction, ReadExponent;
    IntPartsAgree(s, t, sign, p, q, n);
    FractionsAgree(s, t, sign, p, q, n);
    ExponentsAgree(s, t, sign, p, q, n);
  }

  lemma {:induction false} ExponentsAgree(s: Text, t: Text, sign: nat, p: nat, q: nat, n: nat)
    requires NumberParts(s, sign, p, q, n) && Agree(s, t, n) && NumberEnd(t, n)
    ensures ReadExponent(t[q..]) == ReadExponent(s[q..])
  {
    hide ReadIntPart, ReadFraction, ReadExponent;
    AgreeDrop(s, t, n, q);
    ExponentAgree(s[q..], t[q..]);
  }

  lemma {:induction false} FractionsAgree(s: Text, t: Text, sign: nat, p: nat, q: nat, n: nat)
    requires NumberParts(s, sign, p, q, n) && Agree(s, t, n) && NumberEnd(t, n)
    ensures ReadFraction(t[p..]) == ReadFraction(s[p..])
  {
    hide ReadIntPart, ReadFraction, ReadExponent;
    WhereNumberPartsMeet(s, sign, p, q, n);
    AgreeDrop(s, t, n, p);
    assert q < |t| ==> t[p..][q - p] == t[q];
    assert q < n ==> t[q] == s[q];
    FractionAgree(s[p..], t[p..]);
  }

  lemma {:induction false} IntPartsAgree(s: Text, t: Text, sign: nat, p: nat, q: nat, n: nat)
    requires NumberParts(s, sign, p, q, n) && Agree(s, t, n) && NumberEnd(t, n)
    ensures ReadIntPart(t[sign..]) == ReadIntPart(s[sign..])
  {
    hide ReadIntPart, ReadFraction, ReadExponent;
    WhereNumberPartsMeet(s, sign, p, q, n);
    AgreeDrop(s, t, n, sign);
    assert p < |t| ==> t[sign..][p - sign] == t[p];
    assert p < n ==> t[p] == s[p];
    IntPartAgree(s[sign..], t[sign..]);
  }

  /** A number with nothing digit-, point- or name-like behind it is read the same. */
  lemma {:induction false} NumberAgree(s: Text, t: Text)
    requires var r := ReadNumber(s);
             r.Ok? && Agree(s, t, r.value.size) && NumberEnd(t, r.value.size)
    ensures ReadNumber(t) == ReadNumber(s)
  {
    hide NumberParts, MeasureNumber;
    var n := ReadNumber(s).value.size;
    var sign, p, q := NumberHasParts(s);
    PartsAgree(s, t, sign, p, q, n);
    NumberFromParts(t, sign, p, q, n);
    assert s[..n] == t[..n];
  }

  /** What stands where the parts of a number meet. */
  lemma {:induction false} WhereNumberPartsMeet(s: Text, sign: nat, p: nat, q: nat, n: nat)
    requires NumberParts(s, sign, p, q, n)
    ensures p < |s| ==> !IsDigit(s[p])
    ensures q < n ==> !IsDigit(s[q]) && s[q] != POINT
  {
    IntPartStops(s[sign..]);
  }

  lemma {:induction false} HexAgree(s: Text, t: Text, k: nat)
    requires Agree(s, t, k + 4)
    ensures Hex16(s[k..]) == Hex16(t[k..])
  {
  }

  lemma {:induction false} VariableWidthAgree(s: Text, t: Text, size: nat, point: nat)
    requires size >= 3
    requires var r := ReadVariableWidth(s, size, point); r.Ok? && Agree(s, t, r.value.size)
    ensures ReadVariableWidth(t, size, point) == ReadVariableWidth(s, size, point)
    decreases 12 - size
  {
    if s[size] != '}' as int {
      VariableWidthAgree(s, t, size + 1, point * 16 + HexDigit(s[size]));
    }
  }

  lemma {:induction false} FixedWidthAgree(s: Text, t: Text)
    requires var r := ReadFixedWidth(s); r.Ok? && Agree(s, t, r.value.size)
    ensures ReadFixedWidth(t) == ReadFixedWidth(s)
  {
    hide Hex16;
    HexAgree(s, t, 2);
    var code := Hex16(s[2..]);
    if !(code >= 0 && IsScalarValue(code)) {
      HexAgree(s, t, 8);
      assert s[6..][..2][0] == s[6] && s[6..][..2][1] == s[7];
      assert t[6..][..2] == [BACKSLASH, 'u' as int];
    }
  }

  lemma {:induction false} EscapeAgree(s: Text, t: Text)
    requires var r := ReadEscape(s); r.Ok? && Agree(s, t, r.value.size)
    ensures ReadEscape(t) == ReadEscape(s)
  {
    hide ReadFixedWidth, ReadVariableWidth;
    EscapeAtLeastTwo(s);
    assert s[1] == t[1];
    if s[1] == 'u' as int {
      assert s[2] == t[2];
      if s[2] == '{' as int {
        VariableWidthAgree(s, t, 3, 0);
      } else {
        FixedWidthAgree(s, t);
      }
    }
  }

  lemma {:induction false} EscapeAtLeastTwo(s: Text)
    requires ReadEscape(s).Ok?
    ensures ReadEscape(s).value.size >= if s[1] == 'u' as int then 3 else 2
  {
  }

  lemma {:induction false} StringBodyAgree(s: Text, t: Text)
    requires var r := ReadStringBody(s); r.Ok? && Agree(s, t, r.value.size)
    ensures ReadStringBody(t) == ReadStringBody(s)
    decreases |s|
  {
    hide ReadEscape;
    var n := ReadStringBody(s).value.size;
    if s[0] == QUOTE {
    } else if s[0] == BACKSLASH {
      var k := ReadEscape(s).value.size;
      EscapeAgree(s, t);
      AgreeDrop(s, t, n, k);
      StringBodyAgree(s[k..], t[k..]);
    } else if IsScalarValue(s[0]) {
      AgreeDrop(s, t, n, 1);
      StringBodyAgree(s[1..], t[1..]);
    } else {
      AgreeDrop(s, t, n, 2);
      StringBodyAgree(s[2..], t[2..]);
      assert s[..2] == t[..2];
    }
  }

  lemma {:induction false} StartsAgree(s: Text, t: Text, w: Text, n: nat)
    requires Agree(s, t, n) && |w| <= n
    ensures StartsWith(s, w) == StartsWith(t, w)
  {
    assert s[..|w|] == t[..|w|];
  }

  lemma {:induction false} StringAgree(s: Text, t: Text)
    requires s != [] && s[0] == QUOTE && !StartsWith(s, TRIPLE)
    requires var r := ReadString(s);
             r.Ok? && Agree(s, t, r.value.size) && (|t| == r.value.size || t[r.value.size] != QUOTE)
    ensures !StartsWith(t, TRIPLE) && ReadString(t) == ReadString(s)
  {
    var n := ReadString(s).value.size;
    AgreeDrop(s, t, n, 1);
    StringBodyAgree(s[1..], t[1..]);
    StartsTriple(s);
    StartsTriple(t);
    hide StartsWith;
  }

  lemma {:induction false} StartsTriple(s: Text)
    ensures StartsWith(s, TRIPLE) <==> |s| >= 3 && s[0] == s[1] == s[2] == QUOTE
  {
    if |s| >= 3 {
      assert s[..3] == [s[0], s[1], s[2]];
    }
  }

  lemma {:induction false} NameAgree(s: Text, t: Text)
    requires s != [] && IsNameStart(s[0])
    requires var n := ReadName(s).size; Agree(s, t, n) && (|t| == n || !IsNameContinue(t[n]))
    ensures t != [] && ReadName(t) == ReadName(s)
  {
    var n := ReadName(s).size;
    AgreeDrop(s, t, n, 1);
    NameRunAgree(s[1..], t[1..]);
    assert s[..n] == t[..n];
  }

  /**
   A token is read the same from any text that starts with its characters: a punctuator
   whatever follows it, any other token if what follows separates it.
   */
  lemma {:induction false} TokenIsLocal(s: Text, post: Text)
    requires s != [] && ReadToken(s).Ok?
    requires ReadToken(s).value.kind != COMMENT && ReadToken(s).value.kind != BLOCK_STRING
    requires IsPunctuator(ReadToken(s).value.kind) || Separates(post)
    ensures var t := s[..ReadToken(s).value.size] + post;
            t != [] && t[0] == s[0] && ReadToken(t) == ReadToken(s)
  {
    hide ReadNumber, ReadString, ReadName, ReadBlockString;
    var n := ReadToken(s).value.size;
    var t := s[..n] + post;
    assert Agree(s, t, n);
    assert t[n..] == post && (|t| == n || t[n] == post[0]);
    if s[0] == QUOTE {
      TokenKinds(s);
      StringAgree(s, t);
    } else if PunctuatorKind(s[0]) != EOF {
    } else if IsDigit(s[0]) || s[0] == MINUS {
      TokenKinds(s);
      NumberAgree(s, t);
    } else if IsNameStart(s[0]) {
      TokenKinds(s);
      NameAgree(s, t);
    } else {
      StartsAgree(s, t, DOTS, n);
    }
  }

  /** The kinds that the readers give. */
  lemma {:induction false} TokenKinds(s: Text)
    requires s != []
    ensures ReadString(s).Ok? ==> ReadString(s).value.kind == STRING
    ensures ReadNumber(s).Ok? ==> ReadNumber(s).value.kind in {INT, FLOAT}
    ensures ReadName(s).kind == NAME && ReadComment(s).kind == COMMENT
    ensures |s| >= 3 && ReadBlockString(s).Ok? ==> ReadBlockString(s).value.kind == BLOCK_STRING
  {
    hide MeasureNumber, ReadStringBody, ReadBlockBody, NameRun, CommentRun;
  }
}
