/**
 `strip_ignored_characters`: which tokens its output has, when they are those of its
 input, and when stripping twice is the same as stripping once.
 */
module Stripping {
  import opened Options
  import opened Lexing
  import opened BlockStrings
  import opened BlockStringPrinting
  import opened Tokens
  import Lexer

  // ---------------------------------------------------------------------------
  // What the lexer makes of a block string
  // ---------------------------------------------------------------------------

  predicate RawLine(l: Text) {
    ValidText(l) && LF !in l && CR !in l
  }

  predicate RawLines(lines: seq<Text>) {
    forall i | 0 <= i < |lines| :: RawLine(lines[i])
  }

  lemma {:induction false} ValidConcat(s: Text, t: Text)
    requires ValidText(s) && ValidText(t)
    ensures ValidText(s + t)
    decreases |s|
  {
    if s == [] {
      assert s + t == t;
    } else if IsScalarValue(s[0]) {
      ValidConcat(s[1..], t);
      assert (s + t)[1..] == s[1..] + t;
    } else {
      ValidConcat(s[2..], t);
      assert (s + t)[2..] == s[2..] + t;
    }
  }

  lemma {:induction false} RawPrepend(p: Text, lines: seq<Text>)
    requires lines != [] && RawLine(p) && RawLines(lines)
    ensures RawLines([p + lines[0]] + lines[1..])
  {
    ValidConcat(p, lines[0]);
    hide ValidText;
    var longer := [p + lines[0]] + lines[1..];
    forall i | 0 <= i < |longer| ensures RawLine(longer[i]) {
      assert RawLine(lines[i]);
    }
  }

  lemma {:induction false} BlockLinesAreRaw(s: Text)
    requires ReadBlockBody(s).Ok?
    ensures RawLines(ReadBlockBody(s).value.lines)
    decreases |s|
  {
    if StartsWith(s, TRIPLE) {
    } else if StartsWith(s, [BACKSLASH] + TRIPLE) {
      BlockLinesAreRaw(s[4..]);
      TripleIsRaw();
      RawPrepend(TRIPLE, ReadBlockBody(s[4..]).value.lines);
    } else if s[0] == LF || s[0] == CR {
      BlockLinesAreRaw(s[LineBreakSize(s)..]);
    } else if IsScalarValue(s[0]) {
      BlockLinesAreRaw(s[1..]);
      SingleIsRaw(s[0]);
      RawPrepend([s[0]], ReadBlockBody(s[1..]).value.lines);
    } else {
      BlockLinesAreRaw(s[2..]);
      PairIsRaw(s);
      RawPrepend(s[..2], ReadBlockBody(s[2..]).value.lines);
    }
  }

  lemma {:induction false} TripleIsRaw()
    ensures RawLine(TRIPLE)
  {
    assert ValidText([QUOTE]);
    assert [QUOTE, QUOTE][1..] == [QUOTE];
    assert TRIPLE[1..] == [QUOTE, QUOTE];
  }

  lemma {:induction false} SingleIsRaw(c: int)
    requires IsScalarValue(c) && c != LF && c != CR
    ensures RawLine([c])
  {
    assert [c][1..] == [];
  }

  lemma {:induction false} PairIsRaw(s: Text)
    requires StartsWithPair(s)
    ensures RawLine(s[..2])
  {
    assert s[..2][2..] == [];
    assert !IsScalarValue(s[..2][0]);
  }

  /** Cutting only takes blanks, each of them a character of its own. */
  lemma {:induction false} CutRaw(l: Text, n: nat)
    requires RawLine(l) && (n <= LeadingWhiteSpace(l) || n > |l|)
    ensures RawLine(Cut(l, Some(n)))
  {
    if 0 < n <= |l| {
      CutRaw(l[1..], n - 1);
      assert l[1..][n - 1..] == l[n..];
    } else if n == 0 {
      assert l[0..] == l;
    }
  }

  lemma {:induction false} UnindentedRaw(lines: seq<Text>, i: nat)
    requires RawLines(lines) && i < |lines|
    ensures RawLine(Unindented(lines)[i])
  {
    hide RawLine, MinIndent;
    var rest := lines[1..];
    var m := MinIndent(rest);
    assert RawLine(lines[i]);
    if i > 0 {
      MinIndentIsMin(rest);
      EmptyLineIsRaw();
      assert rest[i - 1] == lines[i];
      if m.Some? {
        CutRaw(lines[i], m.value);
      }
    }
  }

  lemma {:induction false} DedentRaw(lines: seq<Text>)
    requires RawLines(lines)
    ensures RawLines(Dedent(lines))
  {
    hide RawLine, Unindented;
    forall i | 0 <= i < |lines| ensures RawLine(Unindented(lines)[i]) {
      UnindentedRaw(lines, i);
    }
  }

  lemma {:induction false} EmptyLineIsRaw()
    ensures RawLine([])
  {
  }

  lemma {:induction false} JoinRaw(lines: seq<Text>)
    requires RawLines(lines)
    ensures Plain(Join(lines))
    decreases |lines|
  {
    if |lines| > 1 {
      JoinRaw(lines[1..]);
      assert RawLine(lines[0]);
      assert [LF][1..] == [];
      assert ValidText([LF]);
      ValidConcat(lines[0], [LF]);
      ValidConcat(lines[0] + [LF], Join(lines[1..]));
    }
  }

  /** The value of a block string that was lexed can be printed. */
  lemma {:induction false} BlockValueIsPrintable(s: Text)
    requires ReadBlockBody(s).Ok?
    ensures var v := BlockValue(ReadBlockBody(s).value.lines); Plain(v) && Canonical(v)
  {
    var lines := ReadBlockBody(s).value.lines;
    BlockLinesAreRaw(s);
    hide ReadBlockBody;
    forall i | 0 <= i < |lines| ensures OneLine(lines[i]) {
      assert RawLine(lines[i]);
    }
    DedentCanonical(lines);
    DedentRaw(lines);
    JoinRaw(Dedent(lines));
  }

  // ---------------------------------------------------------------------------
  // Rendering tokens
  // ---------------------------------------------------------------------------

  function TokenBody(t: Token): Text {
    if t.kind == BLOCK_STRING then PrintBlockString(t.value, true) else t.text
  }

  predicate NeedsSpace(t: Token) {
    !IsPunctuator(t.kind) || t.kind == SPREAD
  }

  /** The stripped text from a token on; `separate` says that the token before it is no punctuator. */
  function Render(ts: seq<Token>, separate: bool): Text {
    if ts == [] then []
    else
      (if separate && NeedsSpace(ts[0]) then [SPACE] else [])
      + TokenBody(ts[0])
      + Render(ts[1..], !IsPunctuator(ts[0].kind))
  }

  /** The stripped text, or the error that lexing ends with. */
  function Stripped(s: Text): Result<Text> {
    var ts := Tokenize(s);
    if ts.Err? then Err(ts.error) else Ok(Render(ts.value, false))
  }

  // ---------------------------------------------------------------------------
  // The loop over the lexer
  // ---------------------------------------------------------------------------

  /** One step of lexing in terms of the token at a position. */
  lemma {:induction false} TokenizeStep(body: Text, p: nat)
    requires p <= |body|
    ensures var r := Lexer.TokenFrom(body, p);
            Tokenize(body[p..]) ==
            if r.Err? then Err(r.error)
            else if r.value.kind == EOF then Ok([])
            else
              var more := Tokenize(body[r.value.end..]);
              if r.value.kind == COMMENT then more
              else Cons(Token(r.value.kind, body[r.value.start..r.value.end], r.value.value), more)
  {
    hide ReadToken, Cons, SkipIgnored, Lexer.Place;
    var s := body[p..];
    var q := p + SkipIgnored(s);
    Lexer.DropDrop(body, p, q - p);
    if q < |body| {
      var rest := body[q..];
      var l := ReadToken(rest);
      if l.Ok? {
        ReadTokenKind(rest);
        Lexer.DropDrop(body, q, l.value.size);
        assert rest[..l.value.size] == body[q..q + l.value.size];
        PlaceIs(body, l.value.kind, q, q + l.value.size, l.value.value);
      }
    } else {
      PlaceIs(body, EOF, q, q, []);
    }
  }

  lemma {:induction false} PlaceIs(body: Text, kind: Kind, start: nat, end: nat, value: Text)
    requires start <= |body|
    ensures var t := Lexer.Place(body, kind, start, end, value);
            t.kind == kind && t.start == start && t.end == end && t.value == value
  {
  }

  /** One step of lexing in terms of the lexer's next token. */
  lemma {:induction false} TokenizeNext(body: Text, p: nat)
    requires p <= |body|
    ensures var r := Lexer.NextToken(body, p);
            Tokenize(body[p..]) ==
            if r.Err? then Err(r.error)
            else if r.value.kind == EOF then Ok([])
            else Cons(Token(r.value.kind, body[r.value.start..r.value.end], r.value.value),
                Tokenize(body[r.value.end..]))
    decreases |body| - p
  {
    hide Tokenize, Cons, Lexer.TokenFrom;
    TokenizeStep(body, p);
    var r := Lexer.TokenFrom(body, p);
    if r.Ok? && r.value.kind == COMMENT {
      TokenizeNext(body, r.value.end);
    }
  }

  lemma {:induction false} ReadTokenKind(s: Text)
    requires s != [] && ReadToken(s).Ok?
    ensures ReadToken(s).value.kind != EOF
  {
    hide ReadString, ReadNumber, ReadName, ReadBlockString, ReadComment;
    TokenKinds(s);
  }

  /** The outcome, from a text stripped so far and the tokens that are left. */
  function GoOn(stripped: Text, separate: bool, rest: Result<seq<Token>>): Result<Text> {
    if rest.Err? then Err(rest.error) else Ok(stripped + Render(rest.value, separate))
  }

  lemma {:induction false} GoOnStart(body: Text)
    ensures GoOn([], false, Tokenize(body[0..])) == Stripped(body)
  {
    hide Tokenize, Render;
    assert body[0..] == body;
    if Tokenize(body).Ok? {
      assert [] + Render(Tokenize(body).value, false) == Render(Tokenize(body).value, false);
    }
  }

  lemma {:induction false} GoOnFails(stripped: Text, separate: bool, error: LexError)
    ensures GoOn(stripped, separate, Err(error)) == Err(error)
  {
  }

  lemma {:induction false} GoOnEnds(stripped: Text, separate: bool)
    ensures GoOn(stripped, separate, Ok([])) == Ok(stripped)
  {
    assert stripped + [] == stripped;
  }

  lemma {:induction false} GoOnStep(stripped: Text, separate: bool, t: Token, rest: Result<seq<Token>>)
    ensures var gap := if separate && NeedsSpace(t) then [SPACE] else [];
            GoOn(stripped, separate, Cons(t, rest)) == GoOn(stripped + gap + TokenBody(t), !IsPunctuator(t.kind), rest)
  {
    hide NeedsSpace, TokenBody;
    if rest.Ok? {
      var ts := [t] + rest.value;
      assert ts[1..] == rest.value;
      var gap := if separate && NeedsSpace(t) then [SPACE] else [];
      var more := Render(rest.value, !IsPunctuator(t.kind));
      assert stripped + (gap + TokenBody(t) + more) == stripped + gap + TokenBody(t) + more;
    }
  }

  /** `strip_ignored_characters` */
  method StripIgnoredCharacters(body: Text) returns (r: Result<Text>)
    ensures r == Stripped(body)
  {
    hide Tokenize, Render, PrintBlockString, Stripped, GoOn, Lexer.IsChain, Lexer.Located, Lexer.NextToken, Cons;
    var lexer := new Lexer.Lexer(body);
    var strippedBody: Text := [];
    var wasLastAddedTokenNonPunctuator := false;
    GoOnStart(body);
    while true
      invariant lexer.body == body && lexer.Valid() && fresh(lexer) && lexer.Current().kind != EOF
      invariant lexer.Current().end <= |body|
      invariant GoOn(strippedBody, wasLastAddedTokenNonPunctuator, Tokenize(body[lexer.Current().end..])) ==
                Stripped(body)
      decreases |body| - lexer.Current().end
    {
      TokenizeNext(body, lexer.Current().end);
      var next := lexer.Advance();
      if next.Err? {
        GoOnFails(strippedBody, wasLastAddedTokenNonPunctuator, next.error);
        return Err(next.error);
      }
      var t := next.value;
      if t.kind == EOF {
        GoOnEnds(strippedBody, wasLastAddedTokenNonPunctuator);
        break;
      }
      var isNonPunctuator := !IsPunctuator(t.kind);
      var tokenBody := body[t.start..t.end];
      GoOnStep(strippedBody, wasLastAddedTokenNonPunctuator, Token(t.kind, tokenBody, t.value),
          Tokenize(body[t.end..]));
      ghost var gap: Text := if wasLastAddedTokenNonPunctuator && (isNonPunctuator || t.kind == SPREAD) then [SPACE]
          else [];
      ghost var stripped := strippedBody;
      if wasLastAddedTokenNonPunctuator && (isNonPunctuator || t.kind == SPREAD) {
        strippedBody := strippedBody + [SPACE];
      }
      assert strippedBody == stripped + gap;
      if t.kind == BLOCK_STRING {
        strippedBody := strippedBody + PrintBlockString(t.value, true);
      } else {
        strippedBody := strippedBody + tokenBody;
      }
      wasLastAddedTokenNonPunctuator := isNonPunctuator;
    }
    r := Ok(strippedBody);
  }

  // ---------------------------------------------------------------------------
  // Reading what was rendered
  // ---------------------------------------------------------------------------

  /** A block string is what the lexer can give; any other token is read back from its own characters. */
  ghost predicate Sound(t: Token) {
    if t.kind == BLOCK_STRING then Plain(t.value) && Canonical(t.value)
    else
      && t.kind != COMMENT && t.text != [] && !IsIgnored(t.text[0])
      && ReadToken(t.text) == Ok(Lexeme(t.kind, |t.text|, t.value))
  }

  ghost predicate AllSound(ts: seq<Token>) {
    forall i | 0 <= i < |ts| :: Sound(ts[i])
  }

  lemma {:induction false} SkipStops(s: Text)
    ensures var n := SkipIgnored(s); n == |s| || !IsIgnored(s[n])
  {
    if s != [] && IsIgnored(s[0]) {
      SkipStops(s[1..]);
    }
  }

  lemma {:induction false} BlockTokenIs(s: Text)
    requires s != [] && ReadToken(s).Ok? && ReadToken(s).value.kind == BLOCK_STRING
    ensures s[0] == QUOTE && |s| >= 3 && ReadBlockBody(s[3..]).Ok?
    ensures ReadToken(s).value.value == BlockValue(ReadBlockBody(s[3..]).value.lines)
  {
    hide ReadString, ReadNumber, ReadName, ReadBlockBody, BlockValue;
    TokenKinds(s);
    assert PunctuatorKind(s[0]) != BLOCK_STRING;
    assert StartsWith(s, TRIPLE);
  }

  lemma {:induction false} ReadTokenIsSound(s: Text)
    requires s != [] && !IsIgnored(s[0]) && ReadToken(s).Ok? && ReadToken(s).value.kind != COMMENT
    ensures var l := ReadToken(s).value; Sound(Token(l.kind, s[..l.size], l.value))
  {
    var l := ReadToken(s).value;
    if l.kind == BLOCK_STRING {
      BlockTokenIs(s);
      BlockValueIsPrintable(s[3..]);
    } else {
      TokenIsLocal(s, []);
      assert s[..l.size] + [] == s[..l.size];
    }
    hide ReadToken, Plain, Canonical;
  }

  lemma {:induction false} TokensAreSound(s: Text)
    requires Tokenize(s).Ok?
    ensures AllSound(Tokenize(s).value)
    decreases |s|
  {
    hide ReadToken, Sound;
    SkipStops(s);
    var rest := s[SkipIgnored(s)..];
    if rest != [] {
      var l := ReadToken(rest).value;
      TokensAreSound(rest[l.size..]);
      if l.kind != COMMENT {
        ReadTokenIsSound(rest);
      }
    }
  }

  /** The token that the lexer gives for a rendered token. */
  function Reprinted(t: Token): Token {
    if t.kind == BLOCK_STRING then Token(BLOCK_STRING, PrintBlockString(t.value, true), Reread(t.value, true)) else t
  }

  function AllReprinted(ts: seq<Token>): (r: seq<Token>)
    ensures |r| == |ts| && forall i | 0 <= i < |ts| :: r[i] == Reprinted(ts[i])
  {
    if ts == [] then [] else [Reprinted(ts[0])] + AllReprinted(ts[1..])
  }

  lemma {:induction false} ReadTriple(rest: Text)
    requires ReadBlockBody(rest).Ok?
    ensures var b := ReadBlockBody(rest).value;
            var l := ReadToken(TRIPLE + rest);
            l.Ok? && l.value.kind == BLOCK_STRING && l.value.size == 3 + b.size && l.value.value == BlockValue(b.lines)
  {
    hide ReadBlockBody, BlockValue;
    var text := TRIPLE + rest;
    assert text[0] == QUOTE && text[..3] == TRIPLE && text[3..] == rest;
  }

  lemma {:induction false} BlockBodyIsRead(t: Token, post: Text)
    requires t.kind == BLOCK_STRING && Sound(t)
    ensures var text := PrintBlockString(t.value, true) + post;
            && |text| >= 3 && text[0] == QUOTE
            && ReadToken(text) == Ok(Lexeme(BLOCK_STRING, |PrintBlockString(t.value, true)|, Reread(t.value, true)))
  {
    hide Plain, Canonical, ReadToken, ReadBlockBody, BlockValue, Reread, PrintedBody, Indented;
    var body := PrintedBody(t.value, true);
    IndentedByNothing(body);
    PrintIsReread(t.value, true, [], post);
    ReadTriple(body + TRIPLE + post);
    assert PrintBlockString(t.value, true) + post == TRIPLE + (body + TRIPLE + post);
  }

  lemma {:induction false} TokenBodyIsRead(t: Token, post: Text)
    requires Sound(t) && (IsPunctuator(t.kind) || Separates(post))
    ensures var text := TokenBody(t) + post;
            && TokenBody(t) != [] && !IsIgnored(text[0])
            && ReadToken(text) == Ok(Lexeme(t.kind, |TokenBody(t)|, Reprinted(t).value))
  {
    if t.kind == BLOCK_STRING {
      BlockBodyIsRead(t, post);
    } else {
      TokenIsLocal(t.text, post);
      assert t.text[..|t.text|] == t.text;
    }
    hide ReadToken, PrintedBody, Reread, Plain, Canonical;
  }

  /** Reading on after a token. */
  lemma {:induction false} TokenizeCons(text: Text, post: Text, kind: Kind, value: Text)
    requires text != [] && !IsIgnored(text[0]) && kind != COMMENT
    requires ReadToken(text + post) == Ok(Lexeme(kind, |text|, value))
    ensures Tokenize(text + post) == Cons(Token(kind, text, value), Tokenize(post))
  {
    hide ReadToken;
    var all := text + post;
    assert SkipIgnored(all) == 0 && all[0..] == all;
    assert all[|text|..] == post && all[..|text|] == text;
  }

  lemma {:induction false} TokenizeSpace(s: Text)
    ensures Tokenize([SPACE] + s) == Tokenize(s)
  {
    hide ReadToken;
    var all := [SPACE] + s;
    assert all[1..] == s;
    assert SkipIgnored(all) == 1 + SkipIgnored(s);
    assert all[1 + SkipIgnored(s)..] == s[SkipIgnored(s)..];
  }

  /** A punctuator of one character is one of the characters that separate. */
  lemma {:induction false} PunctuatorSeparates(t: Token, post: Text)
    requires Sound(t) && !NeedsSpace(t)
    ensures Separates(TokenBody(t) + post)
  {
    hide ReadString, ReadNumber, ReadName, ReadBlockString;
    if t.text[0] == QUOTE || PunctuatorKind(t.text[0]) == EOF {
      TokenKinds(t.text);
    }
  }

  lemma {:induction false} RenderSeparates(ts: seq<Token>)
    requires AllSound(ts)
    ensures Separates(Render(ts, true))
  {
    hide Sound, NeedsSpace, TokenBody;
    if ts != [] {
      var rest := Render(ts[1..], !IsPunctuator(ts[0].kind));
      assert Sound(ts[0]);
      if !NeedsSpace(ts[0]) {
        PunctuatorSeparates(ts[0], rest);
        assert [] + TokenBody(ts[0]) + rest == TokenBody(ts[0]) + rest;
      }
    }
  }

  lemma {:induction false} RenderStep(ts: seq<Token>, separate: bool)
    requires ts != []
    ensures var text := TokenBody(ts[0]) + Render(ts[1..], !IsPunctuator(ts[0].kind));
            Render(ts, separate) == if separate && NeedsSpace(ts[0]) then [SPACE] + text else text
  {
    hide TokenBody, NeedsSpace;
  }

  /** The rendered text lexes, to the reprinted tokens. */
  lemma {:induction false} RenderedTokens(ts: seq<Token>, separate: bool)
    requires AllSound(ts)
    ensures Tokenize(Render(ts, separate)) == Ok(AllReprinted(ts))
  {
    if ts == [] {
      return;
    }
    hide *;
    var t := ts[0];
    var np := !IsPunctuator(t.kind);
    var post := Render(ts[1..], np);
    AllSoundStep(ts);
    RenderedTokens(ts[1..], np);
    if np {
      RenderSeparates(ts[1..]);
    }
    TokenBodyIsRead(t, post);
    SoundKind(t);
    TokenizeCons(TokenBody(t), post, t.kind, Reprinted(t).value);
    TokenizeSpace(TokenBody(t) + post);
    RenderStep(ts, separate);
    ReprintedStep(ts);
  }

  lemma {:induction false} AllSoundStep(ts: seq<Token>)
    requires AllSound(ts) && ts != []
    ensures Sound(ts[0]) && AllSound(ts[1..])
  {
    hide Sound;
  }

  lemma {:induction false} SoundKind(t: Token)
    requires Sound(t)
    ensures t.kind != COMMENT
  {
    hide ReadToken;
  }

  lemma {:induction false} ReprintedStep(ts: seq<Token>)
    requires ts != []
    ensures var t := ts[0];
            Cons(Token(t.kind, TokenBody(t), Reprinted(t).value), Ok(AllReprinted(ts[1..]))) == Ok(AllReprinted(ts))
  {
    hide PrintBlockString, Reread;
  }

  // ---------------------------------------------------------------------------
  // What stripping keeps
  // ---------------------------------------------------------------------------

  /** The same tokens as far as a parser can tell: the same kinds with the same values. */
  predicate SameMeaning(ts: seq<Token>, us: seq<Token>) {
    |ts| == |us| && forall i | 0 <= i < |ts| :: ts[i].kind == us[i].kind && ts[i].value == us[i].value
  }

  /** Every block string survives being printed minimized. */
  predicate AllComeBack(ts: seq<Token>) {
    forall i | 0 <= i < |ts| && ts[i].kind == BLOCK_STRING :: ComesBack(ts[i].value, true)
  }

  /** A source that lexes strips to one that lexes, to the tokens that reprinting gives. */
  lemma {:induction false} StrippedTokens(s: Text)
    requires Tokenize(s).Ok?
    ensures Stripped(s).Ok? && Tokenize(Stripped(s).value) == Ok(AllReprinted(Tokenize(s).value))
  {
    hide Tokenize, Render;
    TokensAreSound(s);
    RenderedTokens(Tokenize(s).value, false);
  }

  lemma {:induction false} ReprintedMeaning(t: Token)
    requires Sound(t)
    ensures Reprinted(t).kind == t.kind
    ensures Reprinted(t).value == t.value <==> t.kind != BLOCK_STRING || ComesBack(t.value, true)
  {
    hide Plain, Canonical, PrintBlockString, Reread, ComesBack, ReadToken;
    if t.kind == BLOCK_STRING {
      RereadIff(t.value, true);
    }
  }

  lemma {:induction false} AllReprintedMeaning(ts: seq<Token>)
    requires AllSound(ts)
    ensures SameMeaning(ts, AllReprinted(ts)) <==> AllComeBack(ts)
  {
    hide Sound, ComesBack, Reprinted;
    forall i | 0 <= i < |ts|
      ensures AllReprinted(ts)[i].kind == ts[i].kind
      ensures AllReprinted(ts)[i].value == ts[i].value <==> ts[i].kind != BLOCK_STRING || ComesBack(ts[i].value, true)
    {
      ReprintedMeaning(ts[i]);
    }
  }

  /** Stripping keeps every token's kind and value exactly when every block string survives its print. */
  lemma {:induction false} StrippingKeepsTokens(s: Text)
    requires Tokenize(s).Ok?
    ensures var r := Stripped(s);
            && r.Ok? && Tokenize(r.value).Ok?
            && (SameMeaning(Tokenize(s).value, Tokenize(r.value).value) <==> AllComeBack(Tokenize(s).value))
  {
    hide *;
    StrippedTokens(s);
    TokensAreSound(s);
    AllReprintedMeaning(Tokenize(s).value);
  }

  /** So it does wherever the line feed is the only line boundary in the values of block strings. */
  lemma {:induction false} StrippingKeepsLineFeedTokens(s: Text)
    requires Tokenize(s).Ok?
    requires forall i | 0 <= i < |Tokenize(s).value| && Tokenize(s).value[i].kind == BLOCK_STRING ::
               OnlyLineFeeds(Tokenize(s).value[i].value)
    ensures var r := Stripped(s);
            r.Ok? && Tokenize(r.value).Ok? && SameMeaning(Tokenize(s).value, Tokenize(r.value).value)
  {
    hide ComesBack, OnlyLineFeeds, Sound, Tokenize, Stripped, SameMeaning, Plain, Canonical;
    var ts := Tokenize(s).value;
    TokensAreSound(s);
    forall i | 0 <= i < |ts| && ts[i].kind == BLOCK_STRING ensures ComesBack(ts[i].value, true) {
      SoundBlock(ts[i]);
      LineFeedsComeBack(ts[i].value, true);
    }
    StrippingKeepsTokens(s);
  }

  lemma {:induction false} SoundBlock(t: Token)
    requires Sound(t) && t.kind == BLOCK_STRING
    ensures Plain(t.value) && Canonical(t.value)
  {
  }

  // ---------------------------------------------------------------------------
  // Stripping twice
  // ---------------------------------------------------------------------------

  /** The lines from the first filled to the last filled one. */
  function Filled(lines: seq<Text>): seq<Text> {
    var first, last := FirstFilled(lines), LastFilled(lines);
    if first < last then lines[first..last] else []
  }

  lemma {:induction false} PrintedFilledLines(lines: seq<Text>, leading: bool, trailing: bool)
    requires lines != [] && CanonicalLines(lines)
    ensures Filled(PrintedLines(lines, leading, trailing, [])) == lines
  {
    PrintedFilled(lines, leading, trailing, []);
    PadByNothing(lines);
    PadByNothing(lines[1..]);
    hide FirstFilled, LastFilled, Empty, PadAll;
  }

  /** The lines of a canonical value are those from the first filled to the last filled line of its print. */
  lemma {:induction false} LinesFromPrint(v: Text, minimize: bool)
    requires Plain(v) && Canonical(v)
    ensures var r := ReadBlockBody(PrintedBody(v, minimize) + TRIPLE);
            r.Ok? && Filled(r.value.lines) == if v == [] then [] else Lines(v)
  {
    hide Plain, PrintedBody, ReadBlockBody, Indented, LeadingBreak, TrailingBreak, Filled, PrintedLines, CanonicalLines;
    var leading, trailing := LeadingBreak(v, minimize), TrailingBreak(v, minimize);
    IndentedByNothing(PrintedBody(v, minimize));
    ReadPrinted(v, minimize, [], []);
    assert PrintedBody(v, minimize) + TRIPLE + [] == PrintedBody(v, minimize) + TRIPLE;
    if v == [] {
      PrintNothing(minimize, []);
      NoneFilled();
    } else {
      PrintedFilledLines(Lines(v), leading, trailing);
    }
  }

  lemma {:induction false} NoneFilled()
    ensures Filled(PrintedLines(Lines([]), false, false, [])) == []
  {
    var lines: seq<Text> := [[]];
    assert PrintedLines(lines, false, false, []) == [[]] + PadAll([], []) + [] == lines;
    assert lines[..0] == [] && Empty(lines[0]);
  }

  lemma {:induction false} PadByNothing(lines: seq<Text>)
    ensures PadAll(lines, []) == lines
  {
    forall i | 0 <= i < |lines| ensures PadAll(lines, [])[i] == lines[i] {
      assert [] + lines[i] == lines[i];
    }
  }

  lemma {:induction false} SomeLines(v: Text)
    ensures Lines(v) != []
  {
  }

  lemma {:induction false} PrintIsInjective(v: Text, w: Text, minimize: bool)
    requires Plain(v) && Canonical(v) && Plain(w) && Canonical(w)
    requires PrintBlockString(v, minimize) == PrintBlockString(w, minimize)
    ensures v == w
  {
    var a, b := PrintedBody(v, minimize), PrintedBody(w, minimize);
    assert a == PrintBlockString(v, minimize)[3..3 + |a|];
    assert b == PrintBlockString(w, minimize)[3..3 + |b|];
    hide *;
    LinesFromPrint(v, minimize);
    LinesFromPrint(w, minimize);
    JoinLines(v);
    JoinLines(w);
    SomeLines(v);
    SomeLines(w);
  }

  /** Rendering looks at the texts of tokens, and at the values of block strings. */
  lemma {:induction false} RenderSame(ts: seq<Token>, us: seq<Token>, separate: bool)
    requires |ts| == |us|
    requires forall i | 0 <= i < |ts| :: ts[i].kind == us[i].kind && TokenBody(ts[i]) == TokenBody(us[i])
    ensures Render(ts, separate) == Render(us, separate)
  {
    hide TokenBody;
    if ts != [] {
      RenderSame(ts[1..], us[1..], !IsPunctuator(ts[0].kind));
    }
  }

  /** Equal renderings have equal bodies, token by token. */
  lemma {:induction false} RenderDetermines(ts: seq<Token>, us: seq<Token>)
    requires AllSound(ts) && AllSound(us) && Render(ts, false) == Render(us, false)
    ensures |ts| == |us| && forall i | 0 <= i < |ts| :: Reprinted(ts[i]) == Reprinted(us[i])
  {
    hide *;
    RenderedTokens(ts, false);
    RenderedTokens(us, false);
    assert AllReprinted(ts) == AllReprinted(us);
  }

  /** Where a token and its reprint are printed the same, they mean the same. */
  lemma {:induction false} ReprintTwice(t: Token)
    requires Sound(t) && Sound(Reprinted(t)) && Reprinted(Reprinted(t)) == Reprinted(t)
    ensures Reprinted(t).value == t.value
  {
    hide Plain, Canonical, PrintBlockString, Reread, ReadToken;
    if t.kind == BLOCK_STRING {
      PrintIsInjective(t.value, Reprinted(t).value, true);
    }
  }

  /** Stripping a stripped text changes nothing exactly when every block string survives its print. */
  lemma {:induction false} StrippingTwice(s: Text)
    requires Tokenize(s).Ok?
    ensures Stripped(s).Ok? && (Stripped(Stripped(s).value) == Stripped(s) <==> AllComeBack(Tokenize(s).value))
  {
    hide ComesBack, Sound, Tokenize, Render, Reprinted, TokenBody, AllComeBack;
    var ts, us := Tokenize(s).value, AllReprinted(Tokenize(s).value);
    StrippedTokens(s);
    TokensAreSound(s);
    TokensAreSound(Stripped(s).value);
    AllReprintedMeaning(ts);
    if Render(us, false) == Render(ts, false) {
      RenderDetermines(ts, us);
      forall i | 0 <= i < |ts| ensures us[i].kind == ts[i].kind && us[i].value == ts[i].value {
        assert us[i] == Reprinted(ts[i]);
        ReprintTwice(ts[i]);
        ReprintedMeaning(ts[i]);
      }
    }
    if SameMeaning(ts, us) {
      forall i | 0 <= i < |ts| ensures us[i].kind == ts[i].kind && TokenBody(us[i]) == TokenBody(ts[i]) {
        SameBody(ts[i]);
      }
      RenderSame(ts, us, false);
    }
  }

  lemma {:induction false} SameBody(t: Token)
    requires Reprinted(t).value == t.value
    ensures Reprinted(t).kind == t.kind && TokenBody(Reprinted(t)) == TokenBody(t)
  {
    hide PrintBlockString, Reread;
  }
}
