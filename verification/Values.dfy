/**
 The value literals of the language, the grammar by which the parser reads them from a
 sequence of tokens, and why exactly one value can be read from any such sequence.
 */
module Values {
  import opened Lexing

  datatype Value =
    | Variable(name: Text)
    | IntValue(value: Text)
    | FloatValue(value: Text)
    | StringValue(value: Text, block: bool)
    | BooleanValue(truth: bool)
    | NullValue
    | EnumValue(value: Text)
    | ListValue(values: seq<Value>)
    | ObjectValue(fields: seq<ObjectField>)

  datatype ObjectField = ObjectField(name: Text, value: Value)

  /** What the parser sees of a token. */
  datatype Item = Item(kind: Kind, value: Text)

  function Ascii(s: string): (t: Text)
    ensures |t| == |s| && forall i | 0 <= i < |s| :: t[i] == s[i] as int
  {
    seq(|s|, i requires 0 <= i < |s| => s[i] as int)
  }

  const TRUE := Ascii("true")
  const FALSE := Ascii("false")
  const NULL := Ascii("null")

  /** `parse_named_values` */
  function NamedValue(name: Text): Value {
    if name == TRUE then BooleanValue(true)
    else if name == FALSE then BooleanValue(false)
    else if name == NULL then NullValue
    else EnumValue(name)
  }

  // ---------------------------------------------------------------------------
  // Parsing
  // ---------------------------------------------------------------------------

  /** A node and the tokens after it; or a syntax error. */
  datatype Parsed<+T> = Parsed(node: T, rest: seq<Item>) | Fails

  predicate At(ts: seq<Item>, kind: Kind) {
    ts != [] && ts[0].kind == kind
  }

  /** `parse_value_literal` */
  function ParseValue(ts: seq<Item>, isConst: bool): (r: Parsed<Value>)
    ensures r.Parsed? ==> |r.rest| < |ts|
    decreases |ts|, 1
  {
    if ts == [] then Fails
    else
      match ts[0].kind
      case BRACKET_L =>
        var r := ParseItems(ts[1..], isConst);
        if r.Fails? then Fails else Parsed(ListValue(r.node), r.rest)
      case BRACE_L =>
        var r := ParseFields(ts[1..], isConst);
        if r.Fails? then Fails else Parsed(ObjectValue(r.node), r.rest)
      case INT => Parsed(IntValue(ts[0].value), ts[1..])
      case FLOAT => Parsed(FloatValue(ts[0].value), ts[1..])
      case STRING => Parsed(StringValue(ts[0].value, false), ts[1..])
      case BLOCK_STRING => Parsed(StringValue(ts[0].value, true), ts[1..])
      case NAME => Parsed(NamedValue(ts[0].value), ts[1..])
      case DOLLAR => if isConst || !At(ts[1..], NAME) then Fails else Parsed(Variable(ts[1].value), ts[2..])
      case _ => Fails
  }

  /** The rest of a list after its opening bracket. */
  function ParseItems(ts: seq<Item>, isConst: bool): (r: Parsed<seq<Value>>)
    ensures r.Parsed? ==> |r.rest| < |ts|
    decreases |ts|, 2
  {
    if At(ts, BRACKET_R) then Parsed([], ts[1..])
    else
      var v := ParseValue(ts, isConst);
      if v.Fails? then Fails
      else
        var r := ParseItems(v.rest, isConst);
        if r.Fails? then Fails else Parsed([v.node] + r.node, r.rest)
  }

  /** `parse_object_field` */
  function ParseField(ts: seq<Item>, isConst: bool): (r: Parsed<ObjectField>)
    ensures r.Parsed? ==> |r.rest| < |ts|
    decreases |ts|, 1
  {
    if !At(ts, NAME) || !At(ts[1..], COLON) then Fails
    else
      var v := ParseValue(ts[2..], isConst);
      if v.Fails? then Fails else Parsed(ObjectField(ts[0].value, v.node), v.rest)
  }

  /** The rest of an object after its opening brace. */
  function ParseFields(ts: seq<Item>, isConst: bool): (r: Parsed<seq<ObjectField>>)
    ensures r.Parsed? ==> |r.rest| < |ts|
    decreases |ts|, 2
  {
    if At(ts, BRACE_R) then Parsed([], ts[1..])
    else
      var f := ParseField(ts, isConst);
      if f.Fails? then Fails
      else
        var r := ParseFields(f.rest, isConst);
        if r.Fails? then Fails else Parsed([f.node] + r.node, r.rest)
  }

  /** A value that is all there is. */
  function ParseOnly(ts: seq<Item>, isConst: bool): Parsed<Value> {
    var r := ParseValue(ts, isConst);
    if r.Fails? || r.rest != [] then Fails else r
  }

  // ---------------------------------------------------------------------------
  // The tokens of a value
  // ---------------------------------------------------------------------------

  function Punctuator(kind: Kind): Item {
    Item(kind, [])
  }

  function Items(v: Value): seq<Item> {
    match v
    case Variable(name) => [Punctuator(DOLLAR), Item(NAME, name)]
    case IntValue(value) => [Item(INT, value)]
    case FloatValue(value) => [Item(FLOAT, value)]
    case StringValue(value, block) => [Item(if block then BLOCK_STRING else STRING, value)]
    case BooleanValue(truth) => [Item(NAME, if truth then TRUE else FALSE)]
    case NullValue => [Item(NAME, NULL)]
    case EnumValue(value) => [Item(NAME, value)]
    case ListValue(values) => [Punctuator(BRACKET_L)] + AllItems(values) + [Punctuator(BRACKET_R)]
    case ObjectValue(fields) => [Punctuator(BRACE_L)] + AllFieldItems(fields) + [Punctuator(BRACE_R)]
  }

  function AllItems(values: seq<Value>): seq<Item> {
    if values == [] then [] else Items(values[0]) + AllItems(values[1..])
  }

  function FieldItems(field: ObjectField): seq<Item> {
    [Item(NAME, field.name), Punctuator(COLON)] + Items(field.value)
  }

  function AllFieldItems(fields: seq<ObjectField>): seq<Item> {
    if fields == [] then [] else FieldItems(fields[0]) + AllFieldItems(fields[1..])
  }

  /** No enum value is called true, false or null, and a constant has no variables. */
  predicate Grammatical(v: Value, isConst: bool) {
    match v
    case Variable(_) => !isConst
    case EnumValue(value) => value != TRUE && value != FALSE && value != NULL
    case ListValue(values) => forall i | 0 <= i < |values| :: Grammatical(values[i], isConst)
    case ObjectValue(fields) => forall i | 0 <= i < |fields| :: Grammatical(fields[i].value, isConst)
    case _ => true
  }

  /** Punctuators carry no value; true of every token that the lexer gives. */
  predicate Lexical(ts: seq<Item>) {
    forall i | 0 <= i < |ts| :: IsPunctuator(ts[i].kind) ==> ts[i].value == []
  }

  // ---------------------------------------------------------------------------
  // Parsing a value's tokens gives the value
  // ---------------------------------------------------------------------------

  lemma {:induction false} KeywordsDiffer()
    ensures TRUE != FALSE && TRUE != NULL && FALSE != NULL
  {
    assert TRUE[0] == 't' as int && FALSE[0] == 'f' as int && NULL[0] == 'n' as int;
  }

  /** The first token of a value. */
  lemma {:induction false} ItemsStart(v: Value)
    ensures Items(v) != [] && !At(Items(v), BRACKET_R) && !At(Items(v), BRACE_R)
  {
  }

  lemma {:induction false} ParsesLeaf(v: Value, isConst: bool, rest: seq<Item>)
    requires Grammatical(v, isConst) && !v.ListValue? && !v.ObjectValue? && !v.Variable?
    ensures ParseValue(Items(v) + rest, isConst) == Parsed(v, rest)
  {
    hide ParseItems, ParseFields;
    KeywordsDiffer();
    hide Ascii;
    var ts := Items(v) + rest;
    assert |Items(v)| == 1 && ts[0] == Items(v)[0] && ts[1..] == rest;
  }

  lemma {:induction false} ParsesVariable(name: Text, rest: seq<Item>)
    ensures ParseValue(Items(Variable(name)) + rest, false) == Parsed(Variable(name), rest)
  {
    hide ParseItems, ParseFields;
    var ts := Items(Variable(name)) + rest;
    assert ts[0] == Punctuator(DOLLAR) && ts[1] == Item(NAME, name);
    assert ts[1..][0] == ts[1] && ts[2..] == rest;
  }

  lemma {:induction false} ParsesList(values: seq<Value>, isConst: bool, rest: seq<Item>)
    requires ParseItems(AllItems(values) + [Punctuator(BRACKET_R)] + rest, isConst) == Parsed(values, rest)
    ensures ParseValue(Items(ListValue(values)) + rest, isConst) == Parsed(ListValue(values), rest)
  {
    hide ParseItems, ParseFields, AllItems;
    var ts := Items(ListValue(values)) + rest;
    assert ts[0] == Punctuator(BRACKET_L);
    assert ts[1..] == AllItems(values) + [Punctuator(BRACKET_R)] + rest;
  }

  lemma {:induction false} ParsesObject(fields: seq<ObjectField>, isConst: bool, rest: seq<Item>)
    requires ParseFields(AllFieldItems(fields) + [Punctuator(BRACE_R)] + rest, isConst) == Parsed(fields, rest)
    ensures ParseValue(Items(ObjectValue(fields)) + rest, isConst) == Parsed(ObjectValue(fields), rest)
  {
    hide ParseItems, ParseFields, AllFieldItems;
    var ts := Items(ObjectValue(fields)) + rest;
    assert ts[0] == Punctuator(BRACE_L);
    assert ts[1..] == AllFieldItems(fields) + [Punctuator(BRACE_R)] + rest;
  }

  lemma {:induction false} ParsesValue(v: Value, isConst: bool, rest: seq<Item>)
    requires Grammatical(v, isConst)
    ensures ParseValue(Items(v) + rest, isConst) == Parsed(v, rest)
    decreases v, 1
  {
    hide ParseValue, ParseItems, ParseFields, Items, AllItems, AllFieldItems;
    match v
    case ListValue(values) =>
      ParsesItems(values, isConst, rest);
      ParsesList(values, isConst, rest);
    case ObjectValue(fields) =>
      ParsesFields(fields, isConst, rest);
      ParsesObject(fields, isConst, rest);
    case Variable(name) =>
      ParsesVariable(name, rest);
    case _ =>
      ParsesLeaf(v, isConst, rest);
  }

  lemma {:induction false} ParsesItems(values: seq<Value>, isConst: bool, rest: seq<Item>)
    requires forall i | 0 <= i < |values| :: Grammatical(values[i], isConst)
    ensures ParseItems(AllItems(values) + [Punctuator(BRACKET_R)] + rest, isConst) == Parsed(values, rest)
    decreases values, 0
  {
    hide Grammatical, Items, ParseValue;
    if values == [] {
      var ts := AllItems(values) + [Punctuator(BRACKET_R)] + rest;
      assert ts == [Punctuator(BRACKET_R)] + rest && ts[1..] == rest;
    } else {
      var more := AllItems(values[1..]) + [Punctuator(BRACKET_R)] + rest;
      ParsesValue(values[0], isConst, more);
      ParsesItems(values[1..], isConst, rest);
      ParsesItemsStep(values, isConst, more, rest);
    }
  }

  lemma {:induction false} AllItemsStep(values: seq<Value>, more: seq<Item>, rest: seq<Item>)
    requires values != [] && more == AllItems(values[1..]) + [Punctuator(BRACKET_R)] + rest
    ensures AllItems(values) + [Punctuator(BRACKET_R)] + rest == Items(values[0]) + more
  {
    hide Items;
  }

  lemma {:induction false} ParsesItemsStep(values: seq<Value>, isConst: bool, more: seq<Item>, rest: seq<Item>)
    requires values != [] && more == AllItems(values[1..]) + [Punctuator(BRACKET_R)] + rest
    requires ParseValue(Items(values[0]) + more, isConst) == Parsed(values[0], more)
    requires ParseItems(more, isConst) == Parsed(values[1..], rest)
    ensures ParseItems(AllItems(values) + [Punctuator(BRACKET_R)] + rest, isConst) == Parsed(values, rest)
  {
    ItemsStart(values[0]);
    AllItemsStep(values, more, rest);
    hide Items, ParseValue, AllItems;
    var ts := Items(values[0]) + more;
    assert ts[0] == Items(values[0])[0];
    assert [values[0]] + values[1..] == values;
  }

  lemma {:induction false} ParsesField(field: ObjectField, isConst: bool, rest: seq<Item>)
    requires Grammatical(field.value, isConst)
    ensures ParseField(FieldItems(field) + rest, isConst) == Parsed(field, rest)
    decreases field, 2
  {
    hide Items, ParseValue;
    var ts := FieldItems(field) + rest;
    ParsesValue(field.value, isConst, rest);
    assert ts[0] == Item(NAME, field.name) && ts[1] == Punctuator(COLON);
    assert ts[1..][0] == ts[1] && ts[2..] == Items(field.value) + rest;
  }

  lemma {:induction false} ParsesFields(fields: seq<ObjectField>, isConst: bool, rest: seq<Item>)
    requires forall i | 0 <= i < |fields| :: Grammatical(fields[i].value, isConst)
    ensures ParseFields(AllFieldItems(fields) + [Punctuator(BRACE_R)] + rest, isConst) == Parsed(fields, rest)
    decreases fields, 0
  {
    hide Grammatical, Items, ParseField;
    if fields == [] {
      var ts := AllFieldItems(fields) + [Punctuator(BRACE_R)] + rest;
      assert ts == [Punctuator(BRACE_R)] + rest && ts[1..] == rest;
    } else {
      var more := AllFieldItems(fields[1..]) + [Punctuator(BRACE_R)] + rest;
      ParsesField(fields[0], isConst, more);
      ParsesFields(fields[1..], isConst, rest);
      ParsesFieldsStep(fields, isConst, more, rest);
    }
  }

  lemma {:induction false} ParsesFieldsStep(fields: seq<ObjectField>, isConst: bool, more: seq<Item>, rest: seq<Item>)
    requires fields != [] && more == AllFieldItems(fields[1..]) + [Punctuator(BRACE_R)] + rest
    requires ParseField(FieldItems(fields[0]) + more, isConst) == Parsed(fields[0], more)
    requires ParseFields(more, isConst) == Parsed(fields[1..], rest)
    ensures ParseFields(AllFieldItems(fields) + [Punctuator(BRACE_R)] + rest, isConst) == Parsed(fields, rest)
  {
    hide Items, ParseField;
    var ts := FieldItems(fields[0]) + more;
    assert AllFieldItems(fields) + [Punctuator(BRACE_R)] + rest == ts;
    assert ts[0] == FieldItems(fields[0])[0];
    hide AllFieldItems, FieldItems;
    assert [fields[0]] + fields[1..] == fields;
  }

  // ---------------------------------------------------------------------------
  // Only a value's tokens are parsed as that value
  // ---------------------------------------------------------------------------

  lemma {:induction false} LexicalRest(ts: seq<Item>, n: nat)
    requires Lexical(ts) && n <= |ts|
    ensures Lexical(ts[n..])
    ensures n < |ts| && IsPunctuator(ts[n].kind) ==> ts[n] == Punctuator(ts[n].kind)
  {
  }

  lemma {:induction false} LexicalAfter(xs: seq<Item>, ys: seq<Item>)
    requires Lexical(xs + ys)
    ensures Lexical(ys)
  {
    assert (xs + ys)[|xs|..] == ys;
    LexicalRest(xs + ys, |xs|);
  }

  lemma {:induction false} ParsedLeaf(ts: seq<Item>, isConst: bool)
    requires Lexical(ts) && ParseValue(ts, isConst).Parsed? && ts[0].kind != BRACKET_L && ts[0].kind != BRACE_L
    ensures var r := ParseValue(ts, isConst); Grammatical(r.node, isConst) && ts == Items(r.node) + r.rest
  {
    hide ParseItems, ParseFields, Ascii;
    LexicalRest(ts, 0);
    assert ts == [ts[0]] + ts[1..];
    if ts[0].kind == DOLLAR {
      assert ts[1..] == [ts[1]] + ts[2..];
    }
  }

  lemma {:induction false} ParsedList(ts: seq<Item>, isConst: bool)
    requires At(ts, BRACKET_L) && ts[0].value == []
    ensures var r := ParseItems(ts[1..], isConst);
            ParseValue(ts, isConst) == if r.Fails? then Fails else Parsed(ListValue(r.node), r.rest)
    ensures forall values, rest :: ts[1..] == AllItems(values) + [Punctuator(BRACKET_R)] + rest ==>
              ts == Items(ListValue(values)) + rest
  {
    hide ParseItems, ParseFields, AllItems;
    assert ts == [Punctuator(BRACKET_L)] + ts[1..];
  }

  lemma {:induction false} ParsedObject(ts: seq<Item>, isConst: bool)
    requires At(ts, BRACE_L) && ts[0].value == []
    ensures var r := ParseFields(ts[1..], isConst);
            ParseValue(ts, isConst) == if r.Fails? then Fails else Parsed(ObjectValue(r.node), r.rest)
    ensures forall fields, rest :: ts[1..] == AllFieldItems(fields) + [Punctuator(BRACE_R)] + rest ==>
              ts == Items(ObjectValue(fields)) + rest
  {
    hide ParseItems, ParseFields, AllFieldItems;
    assert ts == [Punctuator(BRACE_L)] + ts[1..];
  }

  lemma {:induction false} ParsedValue(ts: seq<Item>, isConst: bool)
    requires Lexical(ts) && ParseValue(ts, isConst).Parsed?
    ensures var r := ParseValue(ts, isConst); Grammatical(r.node, isConst) && ts == Items(r.node) + r.rest
    decreases |ts|, 1
  {
    ParseNothing(isConst);
    hide ParseValue, ParseItems, ParseFields, Items, AllItems, AllFieldItems;
    LexicalRest(ts, 0);
    LexicalRest(ts, 1);
    if ts[0].kind == BRACKET_L {
      ParsedList(ts, isConst);
      ParsedItems(ts[1..], isConst);
    } else if ts[0].kind == BRACE_L {
      ParsedObject(ts, isConst);
      ParsedFields(ts[1..], isConst);
    } else {
      ParsedLeaf(ts, isConst);
    }
  }

  lemma {:induction false} ParseNothing(isConst: bool)
    ensures ParseValue([], isConst) == Fails
  {
  }

  lemma {:induction false} ParsedItems(ts: seq<Item>, isConst: bool)
    requires Lexical(ts) && ParseItems(ts, isConst).Parsed?
    ensures var r := ParseItems(ts, isConst);
            && (forall i | 0 <= i < |r.node| :: Grammatical(r.node[i], isConst))
            && ts == AllItems(r.node) + [Punctuator(BRACKET_R)] + r.rest
    decreases |ts|, 2
  {
    hide ParseValue, Items;
    if At(ts, BRACKET_R) {
      LexicalRest(ts, 0);
      assert ts == [ts[0]] + ts[1..];
    } else {
      var v := ParseValue(ts, isConst);
      ParsedValue(ts, isConst);
      LexicalAfter(Items(v.node), v.rest);
      ParsedItems(v.rest, isConst);
      var r := ParseItems(v.rest, isConst);
      assert ([v.node] + r.node)[1..] == r.node;
    }
  }

  lemma {:induction false} ParsedField(ts: seq<Item>, isConst: bool)
    requires Lexical(ts) && ParseField(ts, isConst).Parsed?
    ensures var r := ParseField(ts, isConst); Grammatical(r.node.value, isConst) && ts == FieldItems(r.node) + r.rest
    decreases |ts|, 1
  {
    hide ParseValue, Items;
    LexicalRest(ts, 1);
    LexicalRest(ts, 2);
    ParsedValue(ts[2..], isConst);
    assert ts == [ts[0], ts[1]] + ts[2..];
  }

  lemma {:induction false} ParsedFields(ts: seq<Item>, isConst: bool)
    requires Lexical(ts) && ParseFields(ts, isConst).Parsed?
    ensures var r := ParseFields(ts, isConst);
            && (forall i | 0 <= i < |r.node| :: Grammatical(r.node[i].value, isConst))
            && ts == AllFieldItems(r.node) + [Punctuator(BRACE_R)] + r.rest
    decreases |ts|, 2
  {
    hide ParseField, FieldItems;
    if At(ts, BRACE_R) {
      LexicalRest(ts, 0);
      assert ts == [ts[0]] + ts[1..];
    } else {
      var f := ParseField(ts, isConst);
      ParsedField(ts, isConst);
      LexicalAfter(FieldItems(f.node), f.rest);
      ParsedFields(f.rest, isConst);
      var r := ParseFields(f.rest, isConst);
      assert ([f.node] + r.node)[1..] == r.node;
    }
  }

  /** A sequence of tokens parses to a value exactly when it is that value's tokens. */
  lemma {:induction false} ParsesExactly(ts: seq<Item>, v: Value, isConst: bool)
    requires Lexical(ts)
    ensures ParseOnly(ts, isConst) == Parsed(v, []) <==> Grammatical(v, isConst) && ts == Items(v)
  {
    hide ParseValue, Items, Grammatical;
    assert Items(v) + [] == Items(v);
    if Grammatical(v, isConst) && ts == Items(v) {
      ParsesValue(v, isConst, []);
    }
    if ParseValue(ts, isConst).Parsed? {
      ParsedValue(ts, isConst);
    }
  }
}
