/**
 Printing and parsing value literals: every value comes back from its print, up to the
 block strings that do not; and what parses is what can be printed.
 */
module ValueRoundTrip {
  import opened Lexing
  import opened BlockStrings
  import opened BlockStringPrinting
  import opened Tokens
  import opened StringPrinting
  import opened Values
  import opened ValuePrinting
  import Stripping

  /** `parse_value` and `parse_const_value` on a whole source. */
  function ParseText(s: Text, isConst: bool): Parsed<Value> {
    var items := Scan(s);
    if items.Err? then Fails else ParseOnly(items.value, isConst)
  }

  /** Every block string in the value survives its print. */
  predicate BlocksComeBack(v: Value) {
    match v
    case StringValue(value, block) => block ==> ComesBack(value, false)
    case ListValue(values) => forall i | 0 <= i < |values| :: BlocksComeBack(values[i])
    case ObjectValue(fields) => forall i | 0 <= i < |fields| :: BlocksComeBack(fields[i].value)
    case _ => true
  }

  // ---------------------------------------------------------------------------
  // Print, then parse
  // ---------------------------------------------------------------------------

  lemma {:induction false} RereadAllAt(values: seq<Value>)
    ensures forall i | 0 <= i < |values| :: RereadAll(values)[i] == RereadValue(values[i])
  {
    if values != [] {
      RereadAllAt(values[1..]);
      forall i | 1 <= i < |values| ensures RereadAll(values)[i] == RereadValue(values[i]) {
        assert RereadAll(values)[i] == RereadAll(values[1..])[i - 1];
      }
    }
  }

  lemma {:induction false} RereadFieldsAt(fields: seq<ObjectField>)
    ensures forall i | 0 <= i < |fields| ::
              RereadFields(fields)[i] == ObjectField(fields[i].name, RereadValue(fields[i].value))
  {
    if fields != [] {
      RereadFieldsAt(fields[1..]);
      forall i | 1 <= i < |fields|
        ensures RereadFields(fields)[i] == ObjectField(fields[i].name, RereadValue(fields[i].value))
      {
        assert RereadFields(fields)[i] == RereadFields(fields[1..])[i - 1];
      }
    }
  }

  lemma {:induction false} RereadGrammatical(v: Value, isConst: bool)
    ensures Grammatical(RereadValue(v), isConst) == Grammatical(v, isConst)
  {
    hide Reread, Ascii;
    match v
    case ListValue(values) =>
      RereadAllAt(values);
      forall i | 0 <= i < |values|
        ensures Grammatical(RereadAll(values)[i], isConst) == Grammatical(values[i], isConst)
      {
        RereadGrammatical(values[i], isConst);
      }
    case ObjectValue(fields) =>
      RereadFieldsAt(fields);
      forall i | 0 <= i < |fields|
        ensures Grammatical(RereadFields(fields)[i].value, isConst) == Grammatical(fields[i].value, isConst)
      {
        RereadGrammatical(fields[i].value, isConst);
      }
    case _ =>
  }

  lemma {:induction false} RereadSame(v: Value)
    requires Printable(v)
    ensures RereadValue(v) == v <==> BlocksComeBack(v)
  {
    hide Reread, ComesBack, ReadsAs, Plain, Canonical, ValidText;
    match v
    case StringValue(value, block) =>
      if block {
        RereadIff(value, false);
      }
    case ListValue(values) =>
      RereadAllAt(values);
      forall i | 0 <= i < |values| ensures RereadAll(values)[i] == values[i] <==> BlocksComeBack(values[i]) {
        RereadSame(values[i]);
      }
    case ObjectValue(fields) =>
      RereadFieldsAt(fields);
      forall i | 0 <= i < |fields| ensures RereadFields(fields)[i] == fields[i] <==> BlocksComeBack(fields[i].value) {
        RereadSame(fields[i].value);
      }
    case _ =>
  }

  lemma {:induction false} ScanNothing()
    ensures Scan([]) == Ok([])
  {
  }

  /** The lexer finds the tokens of the value in its print. */
  lemma {:induction false} PrintedValueScans(v: Value)
    requires Printable(v)
    ensures Scan(PrintValue(v)) == Ok(Items(RereadValue(v)))
  {
    hide Printable, PrintValue, Scan, Items, RereadValue, Indented;
    ReadsValue(v, [], []);
    IndentedByNothing(PrintValue(v));
    ScanNothing();
    assert PrintValue(v) + [] == PrintValue(v);
    assert Items(RereadValue(v)) + [] == Items(RereadValue(v));
  }

  /**
   Printing a value and parsing what was printed gives the value with its block strings
   reread; it gives the value itself exactly when every block string survives its print.
   */
  lemma {:induction false} ValuesComeBack(v: Value, isConst: bool)
    requires Printable(v) && Grammatical(v, isConst)
    ensures ParseText(PrintValue(v), isConst) == Parsed(RereadValue(v), [])
    ensures ParseText(PrintValue(v), isConst) == Parsed(v, []) <==> BlocksComeBack(v)
  {
    hide Printable, PrintValue, Scan, Items, RereadValue, Grammatical, ParseValue;
    PrintedValueScans(v);
    RereadGrammatical(v, isConst);
    RereadSame(v);
    ParsesValue(RereadValue(v), isConst, []);
    assert Items(RereadValue(v)) + [] == Items(RereadValue(v));
  }

  predicate OnlyLineFeedBlocks(v: Value) {
    match v
    case StringValue(value, block) => block ==> OnlyLineFeeds(value)
    case ListValue(values) => forall i | 0 <= i < |values| :: OnlyLineFeedBlocks(values[i])
    case ObjectValue(fields) => forall i | 0 <= i < |fields| :: OnlyLineFeedBlocks(fields[i].value)
    case _ => true
  }

  /** Every value whose block strings have no line boundary but the line feed survives. */
  lemma {:induction false} LineFeedBlocksComeBack(v: Value)
    requires Printable(v) && OnlyLineFeedBlocks(v)
    ensures BlocksComeBack(v)
  {
    hide ComesBack, ReadsAs, Plain, Canonical, ValidText, OnlyLineFeeds;
    match v
    case StringValue(value, block) =>
      if block {
        LineFeedsComeBack(value, false);
      }
    case ListValue(values) =>
      forall i | 0 <= i < |values| ensures BlocksComeBack(values[i]) {
        LineFeedBlocksComeBack(values[i]);
      }
    case ObjectValue(fields) =>
      forall i | 0 <= i < |fields| ensures BlocksComeBack(fields[i].value) {
        LineFeedBlocksComeBack(fields[i].value);
      }
    case _ =>
  }

  // ---------------------------------------------------------------------------
  // What the parser gives can be printed
  // ---------------------------------------------------------------------------

  ghost predicate SoundItem(item: Item) {
    && (item.kind in {NAME, INT, FLOAT} ==> ReadsAs(item.value, item.kind))
    && (item.kind == STRING ==> ValidText(item.value))
    && (item.kind == BLOCK_STRING ==> Plain(item.value) && Canonical(item.value))
    && (IsPunctuator(item.kind) ==> item.value == [])
  }

  ghost predicate SoundItems(items: seq<Item>) {
    forall i | 0 <= i < |items| :: SoundItem(items[i])
  }

  lemma {:induction false} EscapeIsValid(s: Text)
    requires ReadEscape(s).Ok?
    ensures ValidText(ReadEscape(s).value.value)
  {
    hide Hex16;
    if |s| > 2 && s[1] == 'u' as int && s[2] == '{' as int {
      VariableWidthIsValid(s, 3, 0);
    }
    ScalarIsValid(ReadEscape(s).value.value);
  }

  lemma {:induction false} ScalarIsValid(s: Text)
    ensures |s| == 1 && IsScalarValue(s[0]) ==> ValidText(s)
  {
  }

  lemma {:induction false} VariableWidthIsValid(s: Text, size: nat, point: nat)
    requires size >= 3 && ReadVariableWidth(s, size, point).Ok?
    ensures var v := ReadVariableWidth(s, size, point).value.value; |v| == 1 && IsScalarValue(v[0])
    decreases 12 - size
  {
    if s[size] != '}' as int {
      VariableWidthIsValid(s, size + 1, point * 16 + HexDigit(s[size]));
    }
  }

  lemma {:induction false} StringIsValid(s: Text)
    requires ReadStringBody(s).Ok?
    ensures ValidText(ReadStringBody(s).value.value)
    decreases |s|
  {
    hide ReadEscape;
    if s[0] == QUOTE {
    } else if s[0] == BACKSLASH {
      var e := ReadEscape(s).value;
      EscapeIsValid(s);
      StringIsValid(s[e.size..]);
      Stripping.ValidConcat(e.value, ReadStringBody(s[e.size..]).value.value);
    } else if IsScalarValue(s[0]) {
      StringIsValid(s[1..]);
      ScalarIsValid([s[0]]);
      Stripping.ValidConcat([s[0]], ReadStringBody(s[1..]).value.value);
    } else {
      StringIsValid(s[2..]);
      Stripping.PairIsRaw(s);
      Stripping.ValidConcat(s[..2], ReadStringBody(s[2..]).value.value);
    }
  }

  /** The value of a name or number is its text; a string's is valid, a punctuator has none. */
  lemma {:induction false} LexemeValues(s: Text)
    requires s != [] && ReadToken(s).Ok?
    ensures var l := ReadToken(s).value;
            && (l.kind in {NAME, INT, FLOAT} ==> l.value == s[..l.size])
            && (l.kind == STRING ==> ValidText(l.value))
            && (IsPunctuator(l.kind) ==> l.value == [])
  {
    hide ReadStringBody, ReadBlockBody, MeasureNumber, NameRun, CommentRun, ValidText;
    if s[0] == QUOTE && !StartsWith(s, TRIPLE) && ReadStringBody(s[1..]).Ok? {
      StringIsValid(s[1..]);
    }
  }

  lemma {:induction false} SoundTokenItem(t: Token)
    requires Stripping.Sound(t)
    ensures SoundItem(Item(t.kind, t.value))
  {
    hide ReadToken, Plain, Canonical, ValidText;
    if t.kind != BLOCK_STRING {
      LexemeValues(t.text);
      assert t.text[..|t.text|] == t.text;
    }
  }

  lemma {:induction false} ScannedItemsAreSound(s: Text)
    requires Scan(s).Ok?
    ensures SoundItems(Scan(s).value)
  {
    hide Tokenize, SoundItem, Stripping.Sound;
    Stripping.TokensAreSound(s);
    var ts := Tokenize(s).value;
    forall i | 0 <= i < |ts| ensures SoundItem(ItemsOf(ts)[i]) {
      SoundTokenItem(ts[i]);
    }
  }

  lemma {:induction false} SoundParts(xs: seq<Item>, ys: seq<Item>)
    requires SoundItems(xs + ys)
    ensures SoundItems(xs) && SoundItems(ys)
  {
    hide SoundItem;
    forall i | 0 <= i < |xs| ensures SoundItem(xs[i]) {
      assert (xs + ys)[i] == xs[i];
    }
    forall i | 0 <= i < |ys| ensures SoundItem(ys[i]) {
      assert (xs + ys)[|xs| + i] == ys[i];
    }
  }

  lemma {:induction false} SoundValueIsPrintable(v: Value)
    requires SoundItems(Items(v))
    ensures Printable(v)
    decreases v, 1
  {
    hide ReadsAs, Plain, Canonical, ValidText, Ascii;
    match v
    case ListValue(values) =>
      SoundParts([Punctuator(BRACKET_L)] + AllItems(values), [Punctuator(BRACKET_R)]);
      SoundParts([Punctuator(BRACKET_L)], AllItems(values));
      SoundValuesArePrintable(values);
    case ObjectValue(fields) =>
      SoundParts([Punctuator(BRACE_L)] + AllFieldItems(fields), [Punctuator(BRACE_R)]);
      SoundParts([Punctuator(BRACE_L)], AllFieldItems(fields));
      SoundFieldsArePrintable(fields);
    case Variable(name) =>
      assert SoundItem(Items(v)[1]);
    case _ =>
      assert SoundItem(Items(v)[0]);
  }

  lemma {:induction false} SoundValuesArePrintable(values: seq<Value>)
    requires SoundItems(AllItems(values))
    ensures forall i | 0 <= i < |values| :: Printable(values[i])
    decreases values, 0
  {
    hide Printable, Items, SoundItems;
    if values != [] {
      SoundParts(Items(values[0]), AllItems(values[1..]));
      SoundValueIsPrintable(values[0]);
      SoundValuesArePrintable(values[1..]);
    }
  }

  lemma {:induction false} SoundFieldsArePrintable(fields: seq<ObjectField>)
    requires SoundItems(AllFieldItems(fields))
    ensures forall i | 0 <= i < |fields| :: ReadsAs(fields[i].name, NAME) && Printable(fields[i].value)
    decreases fields, 0
  {
    hide Printable, Items, ReadsAs;
    if fields != [] {
      SoundParts(FieldItems(fields[0]), AllFieldItems(fields[1..]));
      SoundParts([Item(NAME, fields[0].name), Punctuator(COLON)], Items(fields[0].value));
      assert SoundItem([Item(NAME, fields[0].name), Punctuator(COLON)][0]);
      SoundValueIsPrintable(fields[0].value);
      SoundFieldsArePrintable(fields[1..]);
    }
  }

  lemma {:induction false} SoundIsLexical(items: seq<Item>)
    requires SoundItems(items)
    ensures Lexical(items)
  {
    hide ReadsAs, Plain, Canonical, ValidText;
  }

  /** Whatever parses is a value that can be printed, and the text scans to that value's tokens. */
  lemma {:induction false} ParsedIsPrintable(s: Text, isConst: bool)
    requires ParseText(s, isConst).Parsed?
    ensures var v := ParseText(s, isConst).node;
            Printable(v) && Grammatical(v, isConst) && Scan(s) == Ok(Items(v))
  {
    hide Printable, Scan, Items, Grammatical, ParseValue, SoundItems, Lexical;
    var items := Scan(s).value;
    var v := ParseText(s, isConst).node;
    ScannedItemsAreSound(s);
    SoundIsLexical(items);
    ParsesExactly(items, v, isConst);
    SoundValueIsPrintable(v);
  }

  /** Parse, print and parse again: the same value exactly when its block strings survive. */
  lemma {:induction false} SourcesComeBack(s: Text, isConst: bool)
    requires ParseText(s, isConst).Parsed?
    ensures var v := ParseText(s, isConst).node;
            ParseText(PrintValue(v), isConst) == ParseText(s, isConst) <==> BlocksComeBack(v)
  {
    hide *;
    var v := ParseText(s, isConst).node;
    ParsedIsPrintable(s, isConst);
    ParsedHasNoRest(s, isConst);
    ValuesComeBack(v, isConst);
  }

  lemma {:induction false} ParsedHasNoRest(s: Text, isConst: bool)
    ensures ParseText(s, isConst).Parsed? ==> ParseText(s, isConst).rest == []
  {
    hide ParseValue, Scan;
  }

  // ---------------------------------------------------------------------------
  // Stripping keeps what is parsed
  // ---------------------------------------------------------------------------

  lemma {:induction false} SameMeaningSameItems(ts: seq<Token>, us: seq<Token>)
    ensures Stripping.SameMeaning(ts, us) <==> ItemsOf(ts) == ItemsOf(us)
  {
    if ItemsOf(ts) == ItemsOf(us) {
      forall i | 0 <= i < |ts| ensures ts[i].kind == us[i].kind && ts[i].value == us[i].value {
        assert ItemsOf(ts)[i] == ItemsOf(us)[i];
      }
    }
  }

  /** A value literal parses to the same value after stripping exactly when its block strings survive minimized. */
  lemma {:induction false} StrippingKeepsValue(s: Text, isConst: bool)
    requires ParseText(s, isConst).Parsed?
    ensures Tokenize(s).Ok? && Stripping.Stripped(s).Ok?
    ensures ParseText(Stripping.Stripped(s).value, isConst) == ParseText(s, isConst) <==>
            Stripping.AllComeBack(Tokenize(s).value)
  {
    hide Tokenize, Stripping.Stripped, Stripping.AllComeBack, ParseOnly, Stripping.SameMeaning;
    Stripping.StrippingKeepsTokens(s);
    var t := Stripping.Stripped(s).value;
    SameMeaningSameItems(Tokenize(s).value, Tokenize(t).value);
    if ParseText(t, isConst) == ParseText(s, isConst) {
      ParsedIsPrintable(s, isConst);
      ParsedIsPrintable(t, isConst);
    }
  }
}
