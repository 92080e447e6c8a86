/**
 Where the lexer runs over the end of its source: exactly in the escapes of an open string
 that the end of the source cuts off.
 */
module CutOffEscapes {
  import opened Lexing
  import opened BlockStrings
  import opened Tokens

  /**
   The text ends within an escape: behind its backslash, within four digits, or within the
   four digits of the second half of a surrogate pair.
   */
  predicate IsCutOff(e: Text) {
    && e != [] && e[0] == BACKSLASH
    && (|| |e| == 1
        || (&& e[1] == 'u' as int && (|e| > 2 ==> e[2] != '{' as int)
            && (|e| < 6 || (|e| < 12 && IsFirstHalf(e)))))
  }

  /** `\uXXXX` with a leading surrogate, and the start of another one. */
  predicate IsFirstHalf(e: Text)
    requires |e| >= 6
  {
    0xD800 <= Hex16(e[2..]) <= 0xDBFF && StartsWith(e[6..], [BACKSLASH, 'u' as int])
  }

  lemma {:induction false} VariableWidthStays(s: Text, size: nat, point: nat)
    requires size >= 3
    ensures ReadVariableWidth(s, size, point) != Err(IndexError)
    decreases 12 - size
  {
    hide HexDigit, IsScalarValue;
    if size < 12 && size < |s| && s[size] != '}' as int && HexDigit(s[size]) >= 0 {
      VariableWidthStays(s, size + 1, point * 16 + HexDigit(s[size]));
    }
  }

  lemma {:induction false} EscapeIsCutOff(e: Text)
    requires e != [] && e[0] == BACKSLASH
    ensures ReadEscape(e) == Err(IndexError) <==> IsCutOff(e)
  {
    hide Hex16, HexDigit, ReadVariableWidth, EscapedChar;
    VariableWidthStays(e, 3, 0);
    assert !IsScalarValue(0xD800) && forall c | 0xD800 <= c <= 0xDBFF :: !IsScalarValue(c);
  }

  /** The size of the first character or escape of a string's rest; 0 if there is none. */
  function PieceSize(s: Text): (n: nat)
    ensures n <= |s|
  {
    if s == [] || s[0] == QUOTE || s[0] == LF || s[0] == CR then 0
    else if s[0] == BACKSLASH then
      var e := ReadEscape(s);
      if e.Ok? then e.value.size else 0
    else if IsScalarValue(s[0]) then 1
    else if StartsWithPair(s) then 2
    else 0
  }

  /** At this place of a string's rest, behind whole characters and escapes, the next one starts. */
  predicate StartsPiece(s: Text, p: nat)
    decreases p
  {
    p == 0 || (0 < PieceSize(s) <= p && StartsPiece(s[PieceSize(s)..], p - PieceSize(s)))
  }

  ghost predicate StringIsCutOff(s: Text) {
    exists p: nat :: p <= |s| && CutsOffAt(s, p)
  }

  predicate CutsOffAt(s: Text, p: nat)
    requires p <= |s|
  {
    StartsPiece(s, p) && IsCutOff(s[p..])
  }

  lemma {:induction false} CutsOffLater(s: Text, n: nat)
    requires n == PieceSize(s) && n > 0
    ensures StringIsCutOff(s) <==> StringIsCutOff(s[n..])
  {
    hide PieceSize, IsCutOff;
    if p: nat :| p <= |s[n..]| && CutsOffAt(s[n..], p) {
      assert s[n..][p..] == s[n + p..];
      assert CutsOffAt(s, n + p);
    }
    if p: nat :| p <= |s| && CutsOffAt(s, p) {
      if p == 0 {
        assert s[0..] == s;
        WholeIsNotCutOff(s);
      } else {
        assert s[n..][p - n..] == s[p..];
        assert CutsOffAt(s[n..], p - n);
      }
    }
  }

  lemma {:induction false} WholeIsNotCutOff(s: Text)
    requires PieceSize(s) > 0
    ensures !IsCutOff(s)
  {
    if s[0] == BACKSLASH {
      EscapeIsCutOff(s);
    }
    hide ReadEscape, IsFirstHalf;
  }

  /** The rest of a string runs over the end exactly if the end cuts off one of its escapes. */
  lemma {:induction false} StringBodyIsCutOff(s: Text)
    ensures ReadStringBody(s) == Err(IndexError) <==> StringIsCutOff(s)
    decreases |s|
  {
    var n := PieceSize(s);
    if n > 0 {
      StringBodyIsCutOff(s[n..]);
      CutsOffLater(s, n);
      hide ReadEscape, StringIsCutOff;
    } else {
      if s != [] && s[0] == BACKSLASH {
        EscapeIsCutOff(s);
      }
      hide ReadEscape, IsFirstHalf;
      assert s[0..] == s;
      assert StringIsCutOff(s) <==> CutsOffAt(s, 0);
    }
  }

  // ---------------------------------------------------------------------------
  // Whole sources
  // ---------------------------------------------------------------------------

  /** At this place of the text, behind whole lexemes, the next one starts. */
  predicate StartsLexeme(s: Text, k: nat)
    decreases |s|
  {
    var n := SkipIgnored(s);
    || k == n
    || (&& n < |s| && ReadToken(s[n..]).Ok?
        && var next := n + ReadToken(s[n..]).value.size; k >= next && StartsLexeme(s[next..], k - next))
  }

  /** A string starts here that the end of the text cuts off within an escape. */
  ghost predicate CutOffStringAt(s: Text, k: nat)
    requires k < |s|
  {
    s[k] == QUOTE && !StartsWith(s[k..], TRIPLE) && StringIsCutOff(s[k + 1..])
  }

  lemma {:induction false} BlockStays(s: Text)
    ensures ReadBlockBody(s) != Err(IndexError)
    decreases |s|
  {
    if s != [] && !StartsWith(s, TRIPLE) {
      BlockStays(s[1..]);
      if |s| >= 2 {
        BlockStays(s[2..]);
      }
      if |s| >= 4 {
        BlockStays(s[4..]);
      }
    }
  }

  lemma {:induction false} NumberStays(s: Text)
    requires s != []
    ensures ReadNumber(s) != Err(IndexError)
  {
  }

  lemma {:induction false} TokenIsCutOff(s: Text)
    requires s != []
    ensures ReadToken(s) == Err(IndexError) <==> CutOffStringAt(s, 0)
  {
    StringBodyIsCutOff(s[1..]);
    NumberStays(s);
    if |s| >= 3 {
      BlockStays(s[3..]);
    }
    hide ReadNumber, ReadBlockBody, ReadStringBody, StringIsCutOff;
    assert s[0..] == s;
  }

  ghost predicate IsCutOffInString(s: Text) {
    exists k: nat :: k < |s| && StartsLexeme(s, k) && CutOffStringAt(s, k)
  }

  lemma {:induction false} StartsStep(s: Text, next: nat, k: nat)
    requires var n := SkipIgnored(s); n < |s| && ReadToken(s[n..]).Ok? && next == n + ReadToken(s[n..]).value.size
    ensures StartsLexeme(s, k) <==> k == SkipIgnored(s) || (k >= next && StartsLexeme(s[next..], k - next))
  {
    hide ReadToken, SkipIgnored;
  }

  lemma {:induction false} CutOffShift(s: Text, n: nat, k: nat)
    requires n + k < |s|
    ensures CutOffStringAt(s[n..], k) <==> CutOffStringAt(s, n + k)
  {
    hide StringIsCutOff;
    assert s[n..][k..] == s[n + k..] && s[n..][k + 1..] == s[n + k + 1..];
  }

  lemma {:induction false} CutOffLater(s: Text, next: nat)
    requires var n := SkipIgnored(s); n < |s| && ReadToken(s[n..]).Ok? && next == n + ReadToken(s[n..]).value.size
    ensures IsCutOffInString(s) <==> IsCutOffInString(s[next..])
  {
    var n := SkipIgnored(s);
    NotCutOffHere(s, n);
    hide ReadToken, SkipIgnored, CutOffStringAt, StartsLexeme;
    if k: nat :| k < |s[next..]| && StartsLexeme(s[next..], k) && CutOffStringAt(s[next..], k) {
      CutOffShift(s, next, k);
      StartsStep(s, next, next + k);
      assert StartsLexeme(s, next + k) && CutOffStringAt(s, next + k);
    }
    if k: nat :| k < |s| && StartsLexeme(s, k) && CutOffStringAt(s, k) {
      StartsStep(s, next, k);
      CutOffShift(s, next, k - next);
      assert CutOffStringAt(s[next..], k - next);
    }
  }

  /** A token that is read is no string that is cut off. */
  lemma {:induction false} NotCutOffHere(s: Text, n: nat)
    requires n < |s| && ReadToken(s[n..]).Ok?
    ensures !CutOffStringAt(s, n)
  {
    TokenIsCutOff(s[n..]);
    CutOffShift(s, n, 0);
  }

  /**
   Lexing a source ends in the index error, instead of a syntax error, exactly if the end
   of the source cuts off an escape of a string that is open.
   */
  lemma {:induction false} IndexErrorIff(s: Text)
    ensures Tokenize(s) == Err(IndexError) <==> IsCutOffInString(s)
    decreases |s|
  {
    hide ReadToken, StringIsCutOff;
    var n := SkipIgnored(s);
    var rest := s[n..];
    if rest != [] {
      TokenIsCutOff(rest);
      if ReadToken(rest).Ok? {
        var next := n + ReadToken(rest).value.size;
        assert rest[ReadToken(rest).value.size..] == s[next..];
        CutOffLater(s, next);
        IndexErrorIff(s[next..]);
        hide IsCutOffInString;
      } else {
        assert rest[0..] == rest && rest[1..] == s[n + 1..];
        assert IsCutOffInString(s) <==> CutOffStringAt(s, n);
      }
    }
  }

  /** Two sources that end in the index error: a quote and a backslash, and a quote and `\u12`. */
  lemma {:induction false} CutOffSources()
    ensures Tokenize([QUOTE, BACKSLASH]) == Err(IndexError)
    ensures Tokenize([QUOTE, BACKSLASH, 'u' as int, '1' as int, '2' as int]) == Err(IndexError)
  {
    var s, t := [QUOTE, BACKSLASH], [QUOTE, BACKSLASH, 'u' as int, '1' as int, '2' as int];
    OpenString(s);
    OpenString(t);
  }

  lemma {:induction false} OpenString(s: Text)
    requires |s| >= 2 && s[0] == QUOTE && IsCutOff(s[1..])
    ensures Tokenize(s) == Err(IndexError)
  {
    hide Tokenize, IsFirstHalf;
    assert SkipIgnored(s) == 0;
    assert s[1..][0..] == s[1..] && s[0..] == s;
    assert CutsOffAt(s[1..], 0);
    assert StartsLexeme(s, 0) && CutOffStringAt(s, 0);
    IndexErrorIff(s);
  }
}
