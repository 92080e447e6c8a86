/** `print_string`, and the lexer reading back every string that it prints. */
module StringPrinting {
  import opened Lexing
  import opened BlockStringPrinting
  import opened Tokens

  /** An upper-case hexadecimal digit. */
  function HexChar(d: nat): (c: int)
    requires d < 16
    ensures HexDigit(c) == d
  {
    if d < 10 then 0x30 + d else 0x41 + d - 10
  }

  /** The characters of the table `escape_sequences`. */
  predicate IsEscaped(c: int) {
    0 <= c < 0x20 || c == QUOTE || c == BACKSLASH || 0x7F <= c < 0xA0
  }

  function EscapeSequence(c: int): Text
    requires IsEscaped(c)
  {
    if c == 0x08 then [BACKSLASH, 'b' as int]
    else if c == TAB then [BACKSLASH, 't' as int]
    else if c == LF then [BACKSLASH, 'n' as int]
    else if c == 0x0C then [BACKSLASH, 'f' as int]
    else if c == CR then [BACKSLASH, 'r' as int]
    else if c == QUOTE || c == BACKSLASH then [BACKSLASH, c]
    else [BACKSLASH, 'u' as int, ZERO, ZERO, HexChar(c / 16), HexChar(c % 16)]
  }

  /** s.translate(escape_sequences) */
  function Translate(s: Text): Text {
    if s == [] then [] else (if IsEscaped(s[0]) then EscapeSequence(s[0]) else [s[0]]) + Translate(s[1..])
  }

  function PrintString(s: Text): Text {
    [QUOTE] + Translate(s) + [QUOTE]
  }

  /** Every escape sequence of the table is read as the character it stands for. */
  lemma {:induction false} EscapeIsRead(c: int, rest: Text)
    requires IsEscaped(c)
    ensures ReadEscape(EscapeSequence(c) + rest) == Ok(Escape([c], |EscapeSequence(c)|))
  {
    var s := EscapeSequence(c) + rest;
    assert s[1] == EscapeSequence(c)[1];
    if s[1] == 'u' as int {
      assert s[2] == ZERO && s[3] == ZERO && s[4] == HexChar(c / 16) && s[5] == HexChar(c % 16);
      hide HexDigit, HexChar;
      HexOfZero();
      assert Hex16(s[2..]) == c / 16 * 16 + c % 16 == c;
    }
  }

  lemma {:induction false} HexOfZero()
    ensures HexDigit(ZERO) == 0
  {
  }

  lemma {:induction false} BodyOfEscape(c: int, rest: Text)
    requires IsEscaped(c)
    ensures ReadStringBody(EscapeSequence(c) + rest) == Prepend([c], |EscapeSequence(c)|, ReadStringBody(rest))
  {
    var e := EscapeSequence(c);
    EscapeIsRead(c, rest);
    EscapeStarts(c);
    hide ReadEscape, EscapeSequence;
    assert (e + rest)[|e|..] == rest;
  }

  lemma {:induction false} BodyOfChar(c: int, rest: Text)
    requires IsScalarValue(c) && !IsEscaped(c)
    ensures ReadStringBody([c] + rest) == Prepend([c], 1, ReadStringBody(rest))
  {
    assert ([c] + rest)[1..] == rest;
  }

  lemma {:induction false} BodyOfPair(p: Text, rest: Text)
    requires |p| == 2 && StartsWithPair(p)
    ensures ReadStringBody(p + rest) == Prepend(p, 2, ReadStringBody(rest))
  {
    assert (p + rest)[2..] == rest && (p + rest)[..2] == p;
  }

  lemma {:induction false} NothingIsRead(post: Text)
    ensures ReadStringBody(Translate([]) + [QUOTE] + post) == Ok(Body([], 1)) && |Translate([])| == 0
  {
    assert (Translate([]) + [QUOTE] + post)[0] == QUOTE;
  }

  /** The string comes back, whatever follows its closing quote. */
  lemma {:induction false} TranslateIsRead(s: Text, post: Text)
    requires ValidText(s)
    ensures ReadStringBody(Translate(s) + [QUOTE] + post) == Ok(Body(s, |Translate(s)| + 1))
    decreases |s|
  {
    hide Translate, ReadStringBody, ValidText;
    if s == [] {
      NothingIsRead(post);
    } else {
      var p, e, w := TranslateStep(s);
      TranslateIsRead(w, post);
      StepIsRead(s, p, w, e, Translate(w) + [QUOTE] + post);
      Reassociate(e, Translate(w), [QUOTE], post);
    }
  }

  /** The first piece of a string, what it is translated to, and its rest. */
  lemma {:induction false} TranslateStep(s: Text) returns (p: Text, e: Text, w: Text)
    requires ValidText(s) && s != []
    ensures s == p + w && ValidText(w) && |w| < |s| && Translate(s) == e + Translate(w)
    ensures if IsEscaped(s[0]) then p == [s[0]] && e == EscapeSequence(s[0])
            else e == p && if IsScalarValue(s[0]) then p == [s[0]] else |p| == 2 && StartsWithPair(p)
  {
    hide EscapeSequence;
    if IsScalarValue(s[0]) {
      p, w := [s[0]], s[1..];
      e := if IsEscaped(s[0]) then EscapeSequence(s[0]) else p;
    } else {
      TranslatePair(s);
      p, e, w := s[..2], s[..2], s[2..];
    }
  }

  lemma {:induction false} StepIsRead(s: Text, p: Text, w: Text, e: Text, rest: Text)
    requires s != [] && s == p + w
    requires if IsEscaped(s[0]) then p == [s[0]] && e == EscapeSequence(s[0])
             else e == p && if IsScalarValue(s[0]) then p == [s[0]] else |p| == 2 && StartsWithPair(p)
    requires ReadStringBody(rest).Ok? && ReadStringBody(rest).value.value == w
    ensures ReadStringBody(e + rest) == Ok(Body(s, |e| + ReadStringBody(rest).value.size))
  {
    if IsEscaped(s[0]) {
      BodyOfEscape(s[0], rest);
    } else if IsScalarValue(s[0]) {
      BodyOfChar(s[0], rest);
    } else {
      BodyOfPair(p, rest);
    }
    hide ReadStringBody, EscapeSequence;
  }

  lemma {:induction false} EscapeStarts(c: int)
    requires IsEscaped(c)
    ensures EscapeSequence(c) != [] && EscapeSequence(c)[0] == BACKSLASH
  {
  }

  lemma {:induction false} TranslatePair(s: Text)
    requires StartsWithPair(s)
    ensures Translate(s) == s[..2] + Translate(s[2..])
  {
    assert s[1..][1..] == s[2..];
    assert Translate(s[1..]) == [s[1]] + Translate(s[2..]);
  }

  /** The first character of a translated string is no quote. */
  lemma {:induction false} TranslateStarts(s: Text)
    requires s != []
    ensures Translate(s) != [] && Translate(s)[0] != QUOTE
  {
    if IsEscaped(s[0]) {
      EscapeStarts(s[0]);
    }
  }

  /** The printed string is one STRING token with the string as its value. */
  lemma {:induction false} PrintStringIsRead(s: Text, post: Text)
    requires ValidText(s) && Separates(post)
    ensures ReadToken(PrintString(s) + post) == Ok(Lexeme(STRING, |PrintString(s)|, s))
  {
    hide Translate, ReadStringBody, ValidText;
    var text := PrintString(s) + post;
    TranslateIsRead(s, post);
    assert text[1..] == Translate(s) + [QUOTE] + post;
    if s == [] {
      TranslateNothing();
      assert text[2..] == post;
    } else {
      TranslateStarts(s);
      assert text[1] == Translate(s)[0];
    }
    StartsTriple(text);
    hide StartsWith;
  }

  lemma {:induction false} TranslateNothing()
    ensures Translate([]) == []
  {
  }
}
