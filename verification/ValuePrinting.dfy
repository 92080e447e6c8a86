/**
 The printer's value literals, with their line wrapping and nested indentation, and the
 tokens that the lexer finds in what was printed.
 */
module ValuePrinting {
  import opened Lexing
  import opened BlockStrings
  import opened BlockStringPrinting
  import opened Tokens
  import opened StringPrinting
  import opened Values
  import Lexer
  import Stripping

  const MAX_LINE_LENGTH := 80

  const COMMA_SPACE: Text := [COMMA, SPACE]
  const TWO_SPACES: Text := [SPACE, SPACE]

  // ---------------------------------------------------------------------------
  // join, wrap, indent, block
  // ---------------------------------------------------------------------------

  function WithoutEmpty(strings: seq<Text>): seq<Text> {
    if strings == [] then [] else (if strings[0] == [] then [] else [strings[0]]) + WithoutEmpty(strings[1..])
  }

  function Separated(strings: seq<Text>, separator: Text): Text {
    if strings == [] then []
    else if |strings| == 1 then strings[0]
    else strings[0] + separator + Separated(strings[1..], separator)
  }

  /** `join` leaves out empty strings. */
  function JoinStrings(strings: seq<Text>, separator: Text): Text {
    Separated(WithoutEmpty(strings), separator)
  }

  function Wrap(start: Text, s: Text, end: Text): Text {
    if s == [] then [] else start + s + end
  }

  function Indent(s: Text): Text {
    Wrap(TWO_SPACES, Indented(s, TWO_SPACES), [])
  }

  function BlockOf(strings: seq<Text>): Text {
    Wrap(Ascii("{\n"), Indent(JoinStrings(strings, [LF])), Ascii("\n}"))
  }

  // ---------------------------------------------------------------------------
  // Printing
  // ---------------------------------------------------------------------------

  function PrintList(values: seq<Text>): Text {
    var line := Ascii("[") + JoinStrings(values, COMMA_SPACE) + Ascii("]");
    if |line| > 80 then Ascii("[") + [LF] + Indent(JoinStrings(values, [LF])) + [LF] + Ascii("]") else line
  }

  function PrintObject(fields: seq<Text>): Text {
    var line := Ascii("{ ") + JoinStrings(fields, COMMA_SPACE) + Ascii(" }");
    if |line| > MAX_LINE_LENGTH then BlockOf(fields) else line
  }

  function PrintValue(v: Value): Text {
    match v
    case Variable(name) => Ascii("$") + name
    case IntValue(value) => value
    case FloatValue(value) => value
    case StringValue(value, block) => if block then PrintBlockString(value, false) else PrintString(value)
    case BooleanValue(truth) => if truth then TRUE else FALSE
    case NullValue => NULL
    case EnumValue(value) => value
    case ListValue(values) => PrintList(PrintAll(values))
    case ObjectValue(fields) => PrintObject(PrintAllFields(fields))
  }

  function PrintAll(values: seq<Value>): (r: seq<Text>)
    ensures |r| == |values|
  {
    if values == [] then [] else [PrintValue(values[0])] + PrintAll(values[1..])
  }

  function PrintField(field: ObjectField): Text {
    field.name + Ascii(": ") + PrintValue(field.value)
  }

  function PrintAllFields(fields: seq<ObjectField>): (r: seq<Text>)
    ensures |r| == |fields|
  {
    if fields == [] then [] else [PrintField(fields[0])] + PrintAllFields(fields[1..])
  }

  // ---------------------------------------------------------------------------
  // The values that the lexer can give
  // ---------------------------------------------------------------------------

  /** The text is read as one token of the kind, with itself as the value. */
  ghost predicate ReadsAs(text: Text, kind: Kind) {
    text != [] && !IsIgnored(text[0]) && ReadToken(text) == Ok(Lexeme(kind, |text|, text))
  }

  /** Every leaf is a token's value; block strings are values that dedenting gives. */
  ghost predicate Printable(v: Value) {
    match v
    case Variable(name) => ReadsAs(name, NAME)
    case IntValue(value) => ReadsAs(value, INT)
    case FloatValue(value) => ReadsAs(value, FLOAT)
    case StringValue(value, block) => if block then Plain(value) && Canonical(value) else ValidText(value)
    case EnumValue(value) => ReadsAs(value, NAME)
    case ListValue(values) => forall i | 0 <= i < |values| :: Printable(values[i])
    case ObjectValue(fields) =>
      forall i | 0 <= i < |fields| :: ReadsAs(fields[i].name, NAME) && Printable(fields[i].value)
    case _ => true
  }

  /** The value that is read back: its block strings as the lexer makes them of their print. */
  function RereadValue(v: Value): Value {
    match v
    case StringValue(value, block) => if block then StringValue(Reread(value, false), true) else v
    case ListValue(values) => ListValue(RereadAll(values))
    case ObjectValue(fields) => ObjectValue(RereadFields(fields))
    case _ => v
  }

  function RereadAll(values: seq<Value>): (r: seq<Value>)
    ensures |r| == |values|
  {
    if values == [] then [] else [RereadValue(values[0])] + RereadAll(values[1..])
  }

  function RereadFields(fields: seq<ObjectField>): (r: seq<ObjectField>)
    ensures |r| == |fields|
  {
    if fields == [] then []
    else [ObjectField(fields[0].name, RereadValue(fields[0].value))] + RereadFields(fields[1..])
  }

  // ---------------------------------------------------------------------------
  // Lexing to items
  // ---------------------------------------------------------------------------

  function ItemsOf(ts: seq<Token>): (r: seq<Item>)
    ensures |r| == |ts| && forall i | 0 <= i < |ts| :: r[i] == Item(ts[i].kind, ts[i].value)
  {
    if ts == [] then [] else [Item(ts[0].kind, ts[0].value)] + ItemsOf(ts[1..])
  }

  /** What the parser sees of a text. */
  function Scan(s: Text): Result<seq<Item>> {
    var ts := Tokenize(s);
    if ts.Err? then Err(ts.error) else Ok(ItemsOf(ts.value))
  }

  function Before(items: seq<Item>, r: Result<seq<Item>>): Result<seq<Item>> {
    if r.Err? then r else Ok(items + r.value)
  }

  lemma {:induction false} BeforeBefore(xs: seq<Item>, ys: seq<Item>, r: Result<seq<Item>>)
    ensures Before(xs, Before(ys, r)) == Before(xs + ys, r)
  {
    if r.Ok? {
      assert xs + (ys + r.value) == xs + ys + r.value;
    }
  }

  lemma {:induction false} BeforeNothing(r: Result<seq<Item>>)
    ensures Before([], r) == r
  {
    if r.Ok? {
      assert [] + r.value == r.value;
    }
  }

  /** The text reads as the items, whatever `post` comes after it. */
  ghost predicate Reads(text: Text, items: seq<Item>, post: Text) {
    Scan(text + post) == Before(items, Scan(post))
  }

  lemma {:induction false} ReadsOne(text: Text, kind: Kind, value: Text, post: Text)
    requires text != [] && !IsIgnored(text[0]) && kind != COMMENT
    requires ReadToken(text + post) == Ok(Lexeme(kind, |text|, value))
    ensures Reads(text, [Item(kind, value)], post)
  {
    hide Tokenize, ReadToken;
    Stripping.TokenizeCons(text, post, kind, value);
    var ts := Tokenize(post);
    if ts.Ok? {
      assert ([Token(kind, text, value)] + ts.value)[1..] == ts.value;
    }
  }

  lemma {:induction false} ReadsThen(a: Text, xs: seq<Item>, b: Text, ys: seq<Item>, post: Text)
    requires Reads(a, xs, b + post) && Reads(b, ys, post)
    ensures Reads(a + b, xs + ys, post)
  {
    hide Scan, Before;
    assert a + b + post == a + (b + post);
    BeforeBefore(xs, ys, Scan(post));
  }

  predicate AllIgnored(gap: Text) {
    forall i | 0 <= i < |gap| :: IsIgnored(gap[i])
  }

  lemma {:induction false} SkipGap(gap: Text, s: Text)
    requires AllIgnored(gap)
    ensures SkipIgnored(gap + s) == |gap| + SkipIgnored(s)
  {
    if gap == [] {
      assert gap + s == s;
    } else {
      assert (gap + s)[1..] == gap[1..] + s;
      SkipGap(gap[1..], s);
    }
  }

  lemma {:induction false} ReadsGap(gap: Text, post: Text)
    requires AllIgnored(gap)
    ensures Reads(gap, [], post)
  {
    hide ReadToken, SkipIgnored;
    SkipGap(gap, post);
    assert (gap + post)[|gap| + SkipIgnored(post)..] == post[SkipIgnored(post)..];
    assert Tokenize(gap + post) == Tokenize(post);
    hide Tokenize;
    BeforeNothing(Scan(post));
  }

  // ---------------------------------------------------------------------------
  // Single tokens
  // ---------------------------------------------------------------------------

  lemma {:induction false} ReadsPunctuator(c: int, post: Text)
    requires PunctuatorKind(c) != EOF
    ensures Reads([c], [Punctuator(PunctuatorKind(c))], post)
  {
    hide ReadNumber, ReadString, ReadBlockString, ReadName, Tokenize, Scan, Before;
    assert c != HASH && c != QUOTE;
    ReadsOne([c], PunctuatorKind(c), [], post);
  }

  lemma {:induction false} ReadsSelf(text: Text, kind: Kind, post: Text)
    requires ReadsAs(text, kind) && kind in {NAME, INT, FLOAT} && Separates(post)
    ensures Reads(text, [Item(kind, text)], post)
  {
    hide ReadToken, Tokenize;
    TokenIsLocal(text, post);
    assert text[..|text|] == text;
    ReadsOne(text, kind, text, post);
  }

  lemma {:induction false} ReadsString(s: Text, post: Text)
    requires ValidText(s) && Separates(post)
    ensures Reads(PrintString(s), [Item(STRING, s)], post)
  {
    hide ReadToken, Tokenize, Translate, ValidText;
    PrintStringIsRead(s, post);
    ReadsOne(PrintString(s), STRING, s, post);
  }

  lemma {:induction false} IndentedBlock(v: Text, pad: Text)
    ensures Indented(PrintBlockString(v, false), pad) == TRIPLE + Indented(PrintedBody(v, false), pad) + TRIPLE
  {
    hide PrintedBody, Indented;
    IndentedConcat(TRIPLE + PrintedBody(v, false), TRIPLE, pad);
    IndentedConcat(TRIPLE, PrintedBody(v, false), pad);
    IndentedLine(TRIPLE, pad);
  }

  lemma {:induction false} IndentedLine(s: Text, pad: Text)
    requires OneLine(s)
    ensures Indented(s, pad) == s
  {
    if s != [] {
      IndentedLine(s[1..], pad);
      assert s == [s[0]] + s[1..] && s[0] != LF;
    }
  }

  lemma {:induction false} ReadsBlock(v: Text, pad: Text, post: Text)
    requires Plain(v) && Canonical(v) && AllSpaces(pad)
    ensures Reads(Indented(PrintBlockString(v, false), pad), [Item(BLOCK_STRING, Reread(v, false))], post)
  {
    hide Plain, Canonical, Indented, PrintedBody, PrintBlockString, Reread, ReadBlockBody, ReadToken, BlockValue,
        Reads, AllSpaces;
    var body := Indented(PrintedBody(v, false), pad);
    IndentedBlock(v, pad);
    PrintIsReread(v, false, pad, post);
    Stripping.ReadTriple(body + TRIPLE + post);
    var text := TRIPLE + body + TRIPLE;
    assert text + post == TRIPLE + (body + TRIPLE + post);
    ReadsOneToken(text, BLOCK_STRING, Reread(v, false), post);
  }

  lemma {:induction false} ReadsOneToken(text: Text, kind: Kind, value: Text, post: Text)
    requires text != [] && !IsIgnored(text[0]) && kind != COMMENT && text + post != []
    requires var l := ReadToken(text + post);
             l.Ok? && l.value.kind == kind && l.value.size == |text| && l.value.value == value
    ensures Reads(text, [Item(kind, value)], post)
  {
    hide ReadToken, Tokenize;
    ReadsOne(text, kind, value, post);
  }

  lemma {:induction false} SelfIsOneLine(text: Text, kind: Kind)
    requires ReadsAs(text, kind) && kind in {NAME, INT, FLOAT}
    ensures OneLine(text)
  {
    hide ReadToken;
    Lexer.TokenNoBreak(text);
    forall i | 0 <= i < |text| ensures text[i] != LF {
      assert !Lexer.IsBreak(text[i]);
    }
  }

  lemma {:induction false} StringIsOneLine(s: Text)
    ensures OneLine(PrintString(s))
  {
    TranslateIsOneLine(s);
    hide Translate;
  }

  lemma {:induction false} TranslateIsOneLine(s: Text)
    ensures OneLine(Translate(s))
  {
    if s != [] {
      TranslateIsOneLine(s[1..]);
      if IsEscaped(s[0]) {
        HexIsOneLine(s[0]);
      }
    }
  }

  lemma {:induction false} HexIsOneLine(c: int)
    requires IsEscaped(c)
    ensures OneLine(EscapeSequence(c))
  {
  }

  // ---------------------------------------------------------------------------
  // Lists and objects
  // ---------------------------------------------------------------------------

  lemma {:induction false} IndentedStep(c: int, s: Text, pad: Text)
    ensures Indented([c] + s, pad) == (if c == LF then [LF] + pad else [c]) + Indented(s, pad)
  {
    assert ([c] + s)[1..] == s;
  }

  lemma {:induction false} MoveBracket(q: Text, p: Text, s: Text)
    ensures [LF] + q + (p + s) == [LF] + (q + p) + s
  {
  }

  lemma {:induction false} IndentedTwice(s: Text, p: Text, q: Text)
    requires OneLine(p)
    ensures Indented(Indented(s, p), q) == Indented(s, q + p)
  {
    if s == [] {
      return;
    }
    hide Indented, OneLine;
    var w := s[1..];
    IndentedTwice(w, p, q);
    assert s == [s[0]] + w;
    IndentedStep(s[0], w, p);
    IndentedStep(s[0], w, q + p);
    if s[0] == LF {
      assert [LF] + p + Indented(w, p) == [LF] + (p + Indented(w, p));
      IndentedStep(LF, p + Indented(w, p), q);
      IndentedConcat(p, Indented(w, p), q);
      IndentedLine(p, q);
      MoveBracket(q, p, Indented(w, q + p));
    } else {
      IndentedStep(s[0], Indented(w, p), q);
    }
  }

  /** Brackets around what lies between them. */
  function Enclosed(open: int, before: Text, inner: Text, after: Text, close: int): Text {
    [open] + before + inner + after + [close]
  }

  lemma {:induction false} ReadsEnclosed(open: int, before: Text, inner: Text, items: seq<Item>, after: Text,
      close: int, post: Text)
    requires PunctuatorKind(open) != EOF && PunctuatorKind(close) != EOF && AllIgnored(before) && AllIgnored(after)
    requires Reads(inner, items, after + [close] + post)
    ensures Reads(Enclosed(open, before, inner, after, close),
                  [Punctuator(PunctuatorKind(open))] + items + [Punctuator(PunctuatorKind(close))], post)
  {
    hide Reads, PunctuatorKind, AllIgnored;
    var o, c := [Punctuator(PunctuatorKind(open))], [Punctuator(PunctuatorKind(close))];
    ReadsPunctuator(close, post);
    ReadsGap(after, [close] + post);
    ReadsThen(after, [], [close], c, post);
    assert [] + c == c && after + [close] + post == (after + [close]) + post;
    ReadsThen(inner, items, after + [close], c, post);
    var tail := inner + (after + [close]);
    ReadsGap(before, tail + post);
    ReadsThen(before, [], tail, items + c, post);
    assert [] + (items + c) == items + c;
    ReadsPunctuator(open, before + tail + post);
    assert before + tail + post == (before + tail) + post;
    ReadsThen([open], o, before + tail, items + c, post);
    assert [open] + (before + tail) == Enclosed(open, before, inner, after, close);
    assert o + (items + c) == o + items + c;
  }

  /** An inner text after a separator. */
  lemma {:induction false} ReadsSeparated(a: Text, xs: seq<Item>, gap: Text, b: Text, ys: seq<Item>, post: Text)
    requires AllIgnored(gap) && Reads(a, xs, gap + b + post) && Reads(b, ys, post)
    ensures Reads(a + gap + b, xs + ys, post)
  {
    hide Reads, AllIgnored;
    ReadsGap(gap, b + post);
    ReadsThen(gap, [], b, ys, post);
    assert [] + ys == ys && gap + b + post == (gap + b) + post;
    ReadsThen(a, xs, gap + b, ys, post);
    assert a + (gap + b) == a + gap + b;
  }

  /** The gaps around what is printed in one line, and in several. */
  lemma {:induction false} IndentedEnclosed(open: int, before: Text, inner: Text, after: Text, close: int, pad: Text)
    requires open != LF && close != LF
    ensures Indented(Enclosed(open, before, inner, after, close), pad) ==
            Enclosed(open, Indented(before, pad), Indented(inner, pad), Indented(after, pad), close)
  {
    hide Indented;
    IndentedConcat([open] + before + inner + after, [close], pad);
    IndentedConcat([open] + before + inner, after, pad);
    IndentedConcat([open] + before, inner, pad);
    IndentedConcat([open], before, pad);
    IndentedLine([open], pad);
    IndentedLine([close], pad);
  }

  lemma {:induction false} IndentedIgnored(gap: Text, pad: Text)
    requires AllIgnored(gap) && AllSpaces(pad)
    ensures AllIgnored(Indented(gap, pad))
    ensures gap != [] ==> Indented(gap, pad) != []
  {
    if gap != [] {
      IndentedIgnored(gap[1..], pad);
    }
  }

  predicate NoneEmpty(strings: seq<Text>) {
    forall i | 0 <= i < |strings| :: strings[i] != []
  }

  lemma {:induction false} KeepsAll(strings: seq<Text>)
    requires NoneEmpty(strings)
    ensures WithoutEmpty(strings) == strings
  {
    if strings != [] {
      KeepsAll(strings[1..]);
      assert strings == [strings[0]] + strings[1..];
    }
  }

  lemma {:induction false} JoinShape(strings: seq<Text>, separator: Text)
    requires NoneEmpty(strings)
    ensures JoinStrings(strings, separator) == Separated(strings, separator)
    ensures JoinStrings(strings, separator) == [] <==> strings == []
  {
    KeepsAll(strings);
    hide WithoutEmpty;
  }

  lemma {:induction false} Signs()
    ensures Ascii("[") == ['[' as int] && Ascii("]") == [']' as int]
    ensures Ascii("{ ") == ['{' as int, SPACE] && Ascii(" }") == [SPACE, '}' as int]
    ensures Ascii("{\n") == ['{' as int, LF] && Ascii("\n}") == [LF, '}' as int]
    ensures Ascii(": ") == [':' as int, SPACE] && Ascii("$") == ['$' as int]
  {
  }

  const NEW_LINE: Text := [LF]
  const INDENTED_LINE: Text := [LF, SPACE, SPACE]

  /** What a printed list or object encloses: everything on one line, or one line each, indented. */
  ghost predicate Encloses(text: Text, open: int, space: Text, strings: seq<Text>, close: int) {
    || text == Enclosed(open, space, Separated(strings, COMMA_SPACE), space, close)
    || text == Enclosed(open, INDENTED_LINE, Indented(Separated(strings, NEW_LINE), TWO_SPACES), NEW_LINE, close)
  }

  lemma {:induction false} IndentShape(s: Text)
    requires s != []
    ensures Indent(s) == TWO_SPACES + Indented(s, TWO_SPACES)
  {
    assert Indented(s, TWO_SPACES) != [];
    assert TWO_SPACES + Indented(s, TWO_SPACES) + [] == TWO_SPACES + Indented(s, TWO_SPACES);
  }

  lemma {:induction false} ListShape(strings: seq<Text>)
    requires NoneEmpty(strings)
    ensures Encloses(PrintList(strings), '[' as int, [], strings, ']' as int)
  {
    hide Indented, Separated, Indent;
    var open, close := '[' as int, ']' as int;
    JoinShape(strings, COMMA_SPACE);
    JoinShape(strings, [LF]);
    Signs();
    hide Ascii;
    var inner := JoinStrings(strings, COMMA_SPACE);
    if |inner| + 2 > 80 {
      var s := JoinStrings(strings, [LF]);
      IndentShape(s);
      assert [open] + [LF] + (TWO_SPACES + Indented(s, TWO_SPACES)) + [LF] + [close]
          == Enclosed(open, INDENTED_LINE, Indented(s, TWO_SPACES), NEW_LINE, close);
    } else {
      assert [open] + inner + [close] == Enclosed(open, [], inner, [], close);
    }
  }

  lemma {:induction false} ObjectShape(strings: seq<Text>)
    requires NoneEmpty(strings)
    ensures Encloses(PrintObject(strings), '{' as int, [SPACE], strings, '}' as int)
  {
    hide Indented, Separated, Indent;
    var open, close := '{' as int, '}' as int;
    JoinShape(strings, COMMA_SPACE);
    JoinShape(strings, [LF]);
    Signs();
    hide Ascii;
    var inner := JoinStrings(strings, COMMA_SPACE);
    if |inner| + 4 > 80 {
      var s := JoinStrings(strings, [LF]);
      IndentShape(s);
      assert [open, LF] + (TWO_SPACES + Indented(s, TWO_SPACES)) + [LF, close]
          == Enclosed(open, INDENTED_LINE, Indented(s, TWO_SPACES), NEW_LINE, close);
    } else {
      assert [open, SPACE] + inner + [SPACE, close] == Enclosed(open, [SPACE], inner, [SPACE], close);
    }
  }

  // ---------------------------------------------------------------------------
  // Every printed value reads as its tokens
  // ---------------------------------------------------------------------------

  lemma {:induction false} PrintedSome(v: Value)
    requires Printable(v)
    ensures PrintValue(v) != []
  {
    hide ReadToken, PrintedBody, Translate, Plain, Canonical;
    match v
    case ListValue(values) =>
      assert Ascii("[") != [];
    case ObjectValue(fields) =>
      ObjectSome(PrintAllFields(fields));
    case _ =>
  }

  lemma {:induction false} ObjectSome(fields: seq<Text>)
    ensures PrintObject(fields) != []
  {
    hide Indented, Separated, WithoutEmpty;
    Signs();
    hide Ascii;
    var s := JoinStrings(fields, [LF]);
    var line := Ascii("{ ") + JoinStrings(fields, COMMA_SPACE) + Ascii(" }");
    if |line| > MAX_LINE_LENGTH {
      SameEmptiness(fields);
      IndentShape(s);
    }
  }

  lemma {:induction false} SameEmptiness(strings: seq<Text>)
    requires JoinStrings(strings, COMMA_SPACE) != []
    ensures JoinStrings(strings, [LF]) != []
  {
  }

  lemma {:induction false} AllPrintedSome(values: seq<Value>)
    requires forall i | 0 <= i < |values| :: Printable(values[i])
    ensures NoneEmpty(PrintAll(values))
  {
    hide Printable, PrintValue;
    if values != [] {
      PrintedSome(values[0]);
      AllPrintedSome(values[1..]);
    }
  }

  lemma {:induction false} AllFieldsSome(fields: seq<ObjectField>)
    ensures NoneEmpty(PrintAllFields(fields))
  {
    if fields != [] {
      Signs();
      hide Ascii;
      assert |PrintField(fields[0])| > 0;
      AllFieldsSome(fields[1..]);
    }
  }

  lemma {:induction false} IndentedSeparated(x: Text, separator: Text, rest: Text, pad: Text)
    ensures Indented(x + separator + rest, pad) == Indented(x, pad) + Indented(separator, pad) + Indented(rest, pad)
  {
    IndentedConcat(x + separator, rest, pad);
    IndentedConcat(x, separator, pad);
  }

  /** The texts read as the items, joined in either way and indented. */
  ghost predicate ReadsJoined(strings: seq<Text>, items: seq<Item>) {
    forall separator: Text, pad: Text, post: Text |
      (separator == COMMA_SPACE || separator == NEW_LINE) && AllSpaces(pad) && Separates(post) ::
      Reads(Indented(Separated(strings, separator), pad), items, post)
  }

  lemma {:induction false} NoLineFeed(c: int)
    requires PunctuatorKind(c) != EOF
    ensures c != LF
  {
  }

  lemma {:induction false} GapsAreIgnored()
    ensures AllIgnored(INDENTED_LINE) && AllIgnored(NEW_LINE)
  {
  }

  /** What encloses the texts reads as what encloses the items. */
  lemma {:induction false} EnclosedReads(text: Text, open: int, space: Text, strings: seq<Text>, items: seq<Item>,
      close: int, pad: Text, post: Text)
    requires PunctuatorKind(open) != EOF && PunctuatorKind(close) != EOF && AllIgnored(space) && AllSpaces(pad)
    requires Encloses(text, open, space, strings, close)
    requires ReadsJoined(strings, items)
    ensures Reads(Indented(text, pad),
                  [Punctuator(PunctuatorKind(open))] + items + [Punctuator(PunctuatorKind(close))], post)
  {
    NoLineFeed(open);
    NoLineFeed(close);
    GapsAreIgnored();
    hide Reads, Indented, Separated, PunctuatorKind, Enclosed, AllIgnored, Separates;
    IndentedIgnored(space, pad);
    IndentedIgnored(INDENTED_LINE, pad);
    IndentedIgnored(NEW_LINE, pad);
    var after, inner;
    if text == Enclosed(open, space, Separated(strings, COMMA_SPACE), space, close) {
      after, inner := Indented(space, pad), Separated(strings, COMMA_SPACE);
      IndentedEnclosed(open, space, inner, space, close, pad);
      GapThenClose(after, close, post);
      ReadsEnclosed(open, Indented(space, pad), Indented(inner, pad), items, after, close, post);
    } else {
      after, inner := Indented(NEW_LINE, pad), Separated(strings, NEW_LINE);
      IndentedEnclosed(open, INDENTED_LINE, Indented(inner, TWO_SPACES), NEW_LINE, close, pad);
      IndentedTwice(inner, TWO_SPACES, pad);
      GapThenClose(after, close, post);
      assert AllSpaces(pad + TWO_SPACES);
      ReadsEnclosed(open, Indented(INDENTED_LINE, pad), Indented(inner, pad + TWO_SPACES), items, after, close, post);
    }
  }

  lemma {:induction false} GapThenClose(gap: Text, close: int, post: Text)
    requires AllIgnored(gap) && PunctuatorKind(close) != EOF
    ensures Separates(gap + [close] + post)
  {
  }

  lemma {:induction false} LeafReads(v: Value, pad: Text, post: Text)
    requires Printable(v) && !v.ListValue? && !v.ObjectValue? && AllSpaces(pad) && Separates(post)
    ensures Reads(Indented(PrintValue(v), pad), Items(RereadValue(v)), post)
  {
    hide ReadsAs, Reads, Plain, Canonical, ValidText, Reread, PrintBlockString, PrintString, Separates, AllSpaces,
         Ascii, Indented, PunctuatorKind;
    match v
    case Variable(name) =>
      VariableReads(name, pad, post);
    case IntValue(value) =>
      SelfReads(value, INT, pad, post);
    case FloatValue(value) =>
      SelfReads(value, FLOAT, pad, post);
    case StringValue(value, block) =>
      if block {
        ReadsBlock(value, pad, post);
      } else {
        StringIsOneLine(value);
        IndentedLine(PrintString(value), pad);
        ReadsString(value, post);
      }
    case BooleanValue(truth) =>
      KeywordsAreNames();
      SelfReads(if truth then TRUE else FALSE, NAME, pad, post);
    case NullValue =>
      KeywordsAreNames();
      SelfReads(NULL, NAME, pad, post);
    case EnumValue(value) =>
      SelfReads(value, NAME, pad, post);
  }

  lemma {:induction false} SelfReads(text: Text, kind: Kind, pad: Text, post: Text)
    requires ReadsAs(text, kind) && kind in {NAME, INT, FLOAT} && Separates(post)
    ensures Reads(Indented(text, pad), [Item(kind, text)], post)
  {
    hide ReadsAs, Reads, Indented, Separates;
    SelfIsOneLine(text, kind);
    IndentedLine(text, pad);
    ReadsSelf(text, kind, post);
  }

  lemma {:induction false} VariableReads(name: Text, pad: Text, post: Text)
    requires ReadsAs(name, NAME) && Separates(post)
    ensures Reads(Indented(Ascii("$") + name, pad), [Punctuator(DOLLAR), Item(NAME, name)], post)
  {
    Signs();
    hide ReadsAs, Reads, Indented, Separates, Ascii;
    var dollar := '$' as int;
    IndentedConcat([dollar], name, pad);
    IndentedLine([dollar], pad);
    SelfReads(name, NAME, pad, post);
    ReadsPunctuator(dollar, Indented(name, pad) + post);
    ReadsThen([dollar], [Punctuator(DOLLAR)], Indented(name, pad), [Item(NAME, name)], post);
    assert [Punctuator(DOLLAR)] + [Item(NAME, name)] == [Punctuator(DOLLAR), Item(NAME, name)];
  }

  lemma {:induction false} NameReadsAs(name: Text)
    requires name != [] && IsNameStart(name[0]) && NameRun(name[1..]) == |name| - 1
    ensures ReadsAs(name, NAME)
  {
    assert name[..|name|] == name;
  }

  lemma {:induction false} LettersRun(s: Text)
    requires forall i | 0 <= i < |s| :: IsLetter(s[i])
    ensures NameRun(s) == |s|
  {
    if s != [] {
      LettersRun(s[1..]);
    }
  }

  lemma {:induction false} KeywordsAreNames()
    ensures ReadsAs(TRUE, NAME) && ReadsAs(FALSE, NAME) && ReadsAs(NULL, NAME)
  {
    hide ReadsAs;
    forall w | w == TRUE || w == FALSE || w == NULL ensures ReadsAs(w, NAME) {
      LettersRun(w[1..]);
      NameReadsAs(w);
    }
  }

  lemma {:induction false} ReadsValue(v: Value, pad: Text, post: Text)
    requires Printable(v) && AllSpaces(pad) && Separates(post)
    ensures Reads(Indented(PrintValue(v), pad), Items(RereadValue(v)), post)
    decreases v, 1
  {
    hide ReadsAs, Reads, Plain, Canonical, ValidText, Reread, PrintBlockString, PrintString, Separates, AllSpaces,
         Ascii, Indented, PunctuatorKind, AllItems, AllFieldItems, PrintList, PrintObject, ReadsJoined, Encloses;
    match v
    case ListValue(values) =>
      ReadsValues(values);
      AllPrintedSome(values);
      ListShape(PrintAll(values));
      Brackets();
      EnclosedReads(PrintValue(v), '[' as int, [], PrintAll(values), AllItems(RereadAll(values)), ']' as int, pad,
          post);
    case ObjectValue(fields) =>
      ReadsFields(fields);
      AllFieldsSome(fields);
      ObjectShape(PrintAllFields(fields));
      Brackets();
      EnclosedReads(PrintValue(v), '{' as int, [SPACE], PrintAllFields(fields), AllFieldItems(RereadFields(fields)),
          '}' as int,
                    pad, post);
    case _ =>
      LeafReads(v, pad, post);
  }

  lemma {:induction false} Brackets()
    ensures PunctuatorKind('[' as int) == BRACKET_L && PunctuatorKind(']' as int) == BRACKET_R
    ensures PunctuatorKind('{' as int) == BRACE_L && PunctuatorKind('}' as int) == BRACE_R
    ensures PunctuatorKind(':' as int) == COLON
    ensures AllIgnored([]) && AllIgnored([SPACE])
  {
  }

  lemma {:induction false} ReadsValues(values: seq<Value>)
    requires forall i | 0 <= i < |values| :: Printable(values[i])
    ensures ReadsJoined(PrintAll(values), AllItems(RereadAll(values)))
    decreases values, 2
  {
    hide Printable, Reads, PrintValue, Indented, Separated, Items, RereadValue, Separates, AllSpaces;
    forall separator: Text, pad: Text, post: Text |
      (separator == COMMA_SPACE || separator == NEW_LINE) && AllSpaces(pad) && Separates(post)
      ensures Reads(Indented(Separated(PrintAll(values), separator), pad), AllItems(RereadAll(values)), post)
    {
      ReadsValuesAt(values, separator, pad, post);
    }
  }

  /** One text, or one before others, joined. */
  lemma {:induction false} JoinedReads(strings: seq<Text>, x: seq<Item>, xs: seq<Item>, separator: Text, pad: Text,
      post: Text)
    requires strings != [] && AllSpaces(pad) && separator != [] && AllIgnored(separator)
    requires |strings| == 1 ==> xs == [] && Reads(Indented(strings[0], pad), x, post)
    requires |strings| > 1 ==>
               var rest := Indented(Separated(strings[1..], separator), pad);
               Reads(Indented(strings[0], pad), x, Indented(separator, pad) + rest + post) && Reads(rest, xs, post)
    ensures Reads(Indented(Separated(strings, separator), pad), x + xs, post)
  {
    hide Reads, Indented, AllSpaces, AllIgnored;
    if |strings| == 1 {
      assert x + xs == x;
    } else {
      var rest := Separated(strings[1..], separator);
      IndentedSeparated(strings[0], separator, rest, pad);
      IndentedIgnored(separator, pad);
      ReadsSeparated(Indented(strings[0], pad), x, Indented(separator, pad), Indented(rest, pad), xs, post);
    }
  }

  lemma {:induction false} SeparatorIsGap(separator: Text, pad: Text, rest: Text)
    requires (separator == COMMA_SPACE || separator == NEW_LINE) && AllSpaces(pad)
    ensures separator != [] && AllIgnored(separator) && Separates(Indented(separator, pad) + rest)
  {
    IndentedIgnored(separator, pad);
  }

  lemma {:induction false} ReadsNothing(separator: Text, pad: Text, post: Text)
    ensures Reads(Indented(Separated([], separator), pad), [], post)
  {
    ReadsGap([], post);
  }

  lemma {:induction false} ReadsValuesAt(values: seq<Value>, separator: Text, pad: Text, post: Text)
    requires forall i | 0 <= i < |values| :: Printable(values[i])
    requires (separator == COMMA_SPACE || separator == NEW_LINE) && AllSpaces(pad) && Separates(post)
    ensures Reads(Indented(Separated(PrintAll(values), separator), pad), AllItems(RereadAll(values)), post)
    decreases values, 1
  {
    hide Printable, Reads, PrintValue, Indented, Separated, Items, RereadValue, Separates, AllSpaces, AllIgnored;
    if values == [] {
      ReadsNothing(separator, pad, post);
      return;
    }
    var strings := PrintAll(values);
    assert strings[1..] == PrintAll(values[1..]);
    var rest := Indented(Separated(strings[1..], separator), pad);
    SeparatorIsGap(separator, pad, rest + post);
    assert Indented(separator, pad) + (rest + post) == Indented(separator, pad) + rest + post;
    ReadsValue(values[0], pad, Indented(separator, pad) + rest + post);
    ReadsValue(values[0], pad, post);
    ReadsValuesAt(values[1..], separator, pad, post);
    var reread := RereadAll(values);
    assert reread[1..] == RereadAll(values[1..]) && reread[0] == RereadValue(values[0]);
    JoinedReads(strings, Items(reread[0]), AllItems(reread[1..]), separator, pad, post);
  }

  lemma {:induction false} ReadsField(field: ObjectField, pad: Text, post: Text)
    requires ReadsAs(field.name, NAME) && Printable(field.value) && AllSpaces(pad) && Separates(post)
    ensures Reads(Indented(PrintField(field), pad), FieldItems(ObjectField(field.name, RereadValue(field.value))), post)
    decreases field, 2
  {
    Signs();
    Brackets();
    hide Printable, Reads, PrintValue, Indented, Items, RereadValue, AllSpaces, ReadsAs, Ascii, PunctuatorKind;
    var colon := ':' as int;
    var value := Indented(PrintValue(field.value), pad);
    var items := Items(RereadValue(field.value));
    ReadsValue(field.value, pad, post);
    FieldShape(field, pad);
    ReadsPunctuator(colon, [SPACE] + value + post);
    ReadsSeparated([colon], [Punctuator(COLON)], [SPACE], value, items, post);
    var tail := [colon] + [SPACE] + value;
    SeparatesColon(tail, post);
    SelfReads(field.name, NAME, pad, tail + post);
    ReadsThen(Indented(field.name, pad), [Item(NAME, field.name)], tail, [Punctuator(COLON)] + items, post);
    assert [Item(NAME, field.name)] + ([Punctuator(COLON)] + items) ==
        [Item(NAME, field.name), Punctuator(COLON)] + items;
  }

  lemma {:induction false} SeparatesColon(tail: Text, post: Text)
    requires tail != [] && tail[0] == ':' as int
    ensures Separates(tail + post)
  {
  }

  lemma {:induction false} FieldShape(field: ObjectField, pad: Text)
    ensures Indented(PrintField(field), pad) ==
            Indented(field.name, pad) + ([':' as int] + [SPACE] + Indented(PrintValue(field.value), pad))
  {
    Signs();
    hide Ascii, Indented, PrintValue;
    var gap := [':' as int, SPACE];
    IndentedSeparated(field.name, gap, PrintValue(field.value), pad);
    IndentedLine(gap, pad);
  }

  lemma {:induction false} ReadsFields(fields: seq<ObjectField>)
    requires forall i | 0 <= i < |fields| :: ReadsAs(fields[i].name, NAME) && Printable(fields[i].value)
    ensures ReadsJoined(PrintAllFields(fields), AllFieldItems(RereadFields(fields)))
    decreases fields, 2
  {
    hide Printable, Reads, ReadsAs, PrintField, Indented, Separated, FieldItems, RereadValue, Separates, AllSpaces;
    forall separator: Text, pad: Text, post: Text |
      (separator == COMMA_SPACE || separator == NEW_LINE) && AllSpaces(pad) && Separates(post)
      ensures Reads(Indented(Separated(PrintAllFields(fields), separator), pad), AllFieldItems(RereadFields(fields)),
              post)
    {
      ReadsFieldsAt(fields, separator, pad, post);
    }
  }

  lemma {:induction false} ReadsFieldsAt(fields: seq<ObjectField>, separator: Text, pad: Text, post: Text)
    requires forall i | 0 <= i < |fields| :: ReadsAs(fields[i].name, NAME) && Printable(fields[i].value)
    requires (separator == COMMA_SPACE || separator == NEW_LINE) && AllSpaces(pad) && Separates(post)
    ensures Reads(Indented(Separated(PrintAllFields(fields), separator), pad), AllFieldItems(RereadFields(fields)),
            post)
    decreases fields, 1
  {
    hide Printable, Reads, ReadsAs, PrintField, Indented, Separated, FieldItems, RereadValue, Separates, AllSpaces,
        AllIgnored;
    if fields == [] {
      ReadsNothing(separator, pad, post);
      return;
    }
    var strings := PrintAllFields(fields);
    assert strings[1..] == PrintAllFields(fields[1..]);
    var rest := Indented(Separated(strings[1..], separator), pad);
    SeparatorIsGap(separator, pad, rest + post);
    assert Indented(separator, pad) + (rest + post) == Indented(separator, pad) + rest + post;
    ReadsField(fields[0], pad, Indented(separator, pad) + rest + post);
    ReadsField(fields[0], pad, post);
    ReadsFieldsAt(fields[1..], separator, pad, post);
    var reread := RereadFields(fields);
    assert reread[1..] == RereadFields(fields[1..]) &&
        reread[0] == ObjectField(fields[0].name, RereadValue(fields[0].value));
    JoinedReads(strings, FieldItems(reread[0]), AllFieldItems(reread[1..]), separator, pad, post);
  }
}
