/**
 The parser of value literals as an object that advances a lexer and counts tokens,
 proved against the grammar of value literals.
 */
module Parser {
  import opened Options
  import opened Lexing
  import opened BlockStrings
  import opened Tokens
  import opened Values
  import opened ValuePrinting
  import opened ValueRoundTrip
  import Lexer
  import Stripping

  /** The tokens after a token, as the parser will see them. */
  function Beyond(body: Text, t: Lexer.SourceToken): Result<seq<Item>>
    requires t.end <= |body|
  {
    Scan(body[t.end..])
  }

  /** The tokens from a token on; the start of the file is none, the end of the file ends them. */
  function RestFrom(body: Text, t: Lexer.SourceToken): Result<seq<Item>>
    requires t.end <= |body|
  {
    if t.kind == EOF then Ok([])
    else if t.kind == SOF then Beyond(body, t)
    else Before([Item(t.kind, t.value)], Beyond(body, t))
  }

  /** The next token of the lexer is the next item. */
  lemma {:induction false} BeyondIsNext(body: Text, t: Lexer.SourceToken)
    requires t.end <= |body| && t.kind != EOF
    ensures var next := Lexer.NextToken(body, t.end);
            && (next.Err? ==> Beyond(body, t) == Err(next.error))
            && (next.Ok? ==> Beyond(body, t) == RestFrom(body, next.value))
            && (next.Ok? && next.value.kind == EOF ==> Beyond(body, next.value) == Ok([]))
            && (next.Ok? ==> next.value.kind != SOF)
  {
    hide Tokenize;
    Stripping.TokenizeNext(body, t.end);
    var next := Lexer.NextToken(body, t.end);
    if next.Ok? {
      NextKind(body, t.end);
      var ts := Tokenize(body[next.value.end..]);
      if ts.Ok? {
        var token := Token(next.value.kind, body[next.value.start..next.value.end], next.value.value);
        assert ([token] + ts.value)[1..] == ts.value;
      }
    }
  }

  lemma {:induction false} NextKind(body: Text, p: nat)
    requires p <= |body| && Lexer.NextToken(body, p).Ok?
    ensures var t := Lexer.NextToken(body, p).value;
            t.kind != SOF && (t.kind == EOF ==> t.end == |body| && Scan(body[t.end..]) == Ok([]))
    decreases |body| - p
  {
    hide ReadToken, Scan;
    var r := Lexer.TokenFrom(body, p);
    if r.value.kind == COMMENT {
      NextKind(body, r.value.end);
    } else if r.value.kind == EOF {
      EndScans(body, p);
    } else {
      KindIsNoSof(body[p + SkipIgnored(body[p..])..]);
    }
  }

  lemma {:induction false} EndScans(body: Text, p: nat)
    requires p <= |body| && Lexer.TokenFrom(body, p).Ok? && Lexer.TokenFrom(body, p).value.kind == EOF
    ensures Lexer.TokenFrom(body, p).value.end == |body| && Scan(body[|body|..]) == Ok([])
  {
    hide ReadToken;
    var q := p + SkipIgnored(body[p..]);
    if q < |body| {
      KindIsNoSof(body[q..]);
    }
    assert body[|body|..] == [];
  }

  lemma {:induction false} KindIsNoSof(s: Text)
    requires s != [] && ReadToken(s).Ok?
    ensures ReadToken(s).value.kind != SOF && ReadToken(s).value.kind != EOF
  {
    hide ReadString, ReadNumber, ReadName, ReadBlockString, ReadComment;
    TokenKinds(s);
  }

  /** The current token is the first of the rest. */
  lemma {:induction false} RestStep(body: Text, t: Lexer.SourceToken)
    requires t.end <= |body| && t.kind != SOF
    ensures t.kind != EOF ==> (RestFrom(body, t).Ok? <==> Beyond(body, t).Ok?)
    ensures RestFrom(body, t).Ok? ==>
              var ts := RestFrom(body, t).value;
              && (ts == [] <==> t.kind == EOF)
              && (ts != [] ==> ts[0] == Item(t.kind, t.value) && Beyond(body, t) == Ok(ts[1..]))
  {
    hide Scan;
    if Beyond(body, t).Ok? {
      assert ([Item(t.kind, t.value)] + Beyond(body, t).value)[1..] == Beyond(body, t).value;
    }
  }

  lemma {:induction false} TailOfTail(ts: seq<Item>)
    ensures |ts| >= 2 ==> ts[1..][1..] == ts[2..] && ts[1..][0] == ts[1]
  {
  }

  /** Nodes parsed before others. */
  function Onto<T>(nodes: seq<T>, r: Parsed<seq<T>>): Parsed<seq<T>> {
    if r.Fails? then Fails else Parsed(nodes + r.node, r.rest)
  }

  lemma {:induction false} OntoOnto<T>(xs: seq<T>, ys: seq<T>, r: Parsed<seq<T>>)
    ensures Onto(xs, Onto(ys, r)) == Onto(xs + ys, r)
  {
    if r.Parsed? {
      assert xs + (ys + r.node) == xs + ys + r.node;
    }
  }

  lemma {:induction false} OntoNothing<T>(r: Parsed<seq<T>>)
    ensures Onto([], r) == r
  {
    if r.Parsed? {
      assert [] + r.node == r.node;
    }
  }

  lemma {:induction false} ListOf(ts: seq<Item>, isConst: bool)
    requires At(ts, BRACKET_L)
    ensures var r := ParseItems(ts[1..], isConst);
            ParseValue(ts, isConst) == if r.Fails? then Fails else Parsed(ListValue(r.node), r.rest)
  {
    hide ParseItems, ParseFields;
  }

  lemma {:induction false} ObjectOf(ts: seq<Item>, isConst: bool)
    requires At(ts, BRACE_L)
    ensures var r := ParseFields(ts[1..], isConst);
            ParseValue(ts, isConst) == if r.Fails? then Fails else Parsed(ObjectValue(r.node), r.rest)
  {
    hide ParseItems, ParseFields;
  }

  lemma {:induction false} ItemsStep(ts: seq<Item>, isConst: bool)
    ensures ParseItems(ts, isConst) ==
            if At(ts, BRACKET_R) then Parsed([], ts[1..])
            else
              var v := ParseValue(ts, isConst);
              if v.Fails? then Fails else Onto([v.node], ParseItems(v.rest, isConst))
  {
    hide ParseValue;
  }

  lemma {:induction false} FieldsStep(ts: seq<Item>, isConst: bool)
    ensures ParseFields(ts, isConst) ==
            if At(ts, BRACE_R) then Parsed([], ts[1..])
            else
              var f := ParseField(ts, isConst);
              if f.Fails? then Fails else Onto([f.node], ParseFields(f.rest, isConst))
  {
    hide ParseField;
  }

  class Parser {
    const lexer: Lexer.Lexer
    const maxTokens: Option<nat>
    var tokenCounter: nat

    ghost predicate Valid()
      reads this, lexer
    {
      && lexer.Valid()
      && (maxTokens.Some? ==> tokenCounter <= maxTokens.value)
      && var beyond := Beyond(lexer.body, lexer.Current());
         var all := Scan(lexer.body);
         && (if all.Err? then beyond.Err? else beyond.Ok? && tokenCounter + |beyond.value| == |all.value|)
         && (lexer.Current().kind == EOF ==> beyond == Ok([]))
    }

    /** The tokens from the current one on. */
    ghost function Rest(): Result<seq<Item>>
      requires Valid()
      reads this, lexer
    {
      RestFrom(lexer.body, lexer.Current())
    }

    /** The token limit lets the parser get to where these tokens are left. */
    ghost predicate Within(rest: seq<Item>) {
      maxTokens.Some? && Scan(lexer.body).Ok? ==>
        |Scan(lexer.body).value| - |rest| + (if rest == [] then 0 else 1) <= maxTokens.value
    }

    /** What is left to be read, for termination. */
    ghost function Left(): nat
      requires Valid()
      reads this, lexer
    {
      |lexer.body| - lexer.Current().end + if lexer.Current().kind == EOF then 0 else 1
    }

    constructor (body: Text, maxTokens: Option<nat>)
      ensures Valid() && fresh(lexer) && lexer.body == body && this.maxTokens == maxTokens
      ensures lexer.Current() == Lexer.START_OF_FILE
    {
      var l := new Lexer.Lexer(body);
      lexer := l;
      this.maxTokens := maxTokens;
      tokenCounter := 0;
      new;
      assert body[0..] == body;
    }

    /** Advances the lexer, counting every token but the end of the file. */
    method AdvanceLexer() returns (error: Option<LexError>)
      requires Valid() && lexer.Current().kind != EOF
      modifies this, lexer
      ensures error.None? ==> Valid() && Rest() == old(Beyond(lexer.body, lexer.Current())) && Left() < old(Left())
      ensures error.None? ==> lexer.Current().kind != SOF
      ensures old(Beyond(lexer.body, lexer.Current())).Ok? ==>
                (error.None? <==> Within(old(Beyond(lexer.body, lexer.Current())).value))
    {
      hide Scan, Lexer.NextToken, Lexer.IsChain, Lexer.Located;
      BeyondIsNext(lexer.body, lexer.Current());
      var next := lexer.Advance();
      if next.Err? {
        return Some(next.error);
      }
      if next.value.kind != EOF {
        tokenCounter := tokenCounter + 1;
        if maxTokens.Some? && tokenCounter > maxTokens.value {
          return Some(SyntaxError);
        }
      }
      error := None;
    }

    function Token(): Lexer.SourceToken
      requires lexer.token < |lexer.chain|
      reads lexer
    {
      lexer.chain[lexer.token]
    }

    /** Past a token of the kind; an error, and no step, if another one is there. */
    method ExpectToken(kind: Kind) returns (r: Result<Lexer.SourceToken>)
      requires Valid() && kind != EOF && kind != SOF && lexer.Current().kind != SOF
      modifies this, lexer
      ensures r.Ok? ==> Valid() && Left() < old(Left()) && lexer.Current().kind != SOF
      ensures r.Ok? ==> r.value == old(lexer.Current()) && r.value.kind == kind
      ensures old(Rest()).Ok? ==>
                var ts := old(Rest()).value;
                && (r.Ok? <==> At(ts, kind) && Within(ts[1..]))
                && (r.Ok? ==> Rest() == Ok(ts[1..]) && ts[0].value == r.value.value)
    {
      hide Scan, Lexer.NextToken, Lexer.IsChain, Lexer.Located;
      var token := Token();
      if token.kind != kind {
        return Err(SyntaxError);
      }
      RestStep(lexer.body, token);
      var error := AdvanceLexer();
      r := if error.Some? then Err(error.value) else Ok(token);
    }

    /** True, and past the token, if it is of the kind; else false, and no step. */
    method ExpectOptionalToken(kind: Kind) returns (r: Result<bool>)
      requires Valid() && kind != EOF && kind != SOF && lexer.Current().kind != SOF
      modifies this, lexer
      ensures r.Ok? ==> Valid() && lexer.Current().kind != SOF
      ensures r.Ok? ==> r.value == (old(lexer.Current()).kind == kind)
      ensures r.Ok? && r.value ==> Left() < old(Left())
      ensures r.Ok? && !r.value ==> unchanged(this) && unchanged(lexer)
      ensures old(Rest()).Ok? ==>
                var ts := old(Rest()).value;
                && (At(ts, kind) <==> old(lexer.Current()).kind == kind)
                && (At(ts, kind) ==> (r.Ok? <==> Within(ts[1..])))
                && (At(ts, kind) && r.Ok? ==> Rest() == Ok(ts[1..]))
                && (!At(ts, kind) ==> r == Ok(false))
    {
      hide Scan, Lexer.NextToken, Lexer.IsChain, Lexer.Located;
      var token := Token();
      RestStep(lexer.body, token);
      if token.kind != kind {
        return Ok(false);
      }
      var error := AdvanceLexer();
      r := if error.Some? then Err(error.value) else Ok(true);
    }

    method ParseName() returns (r: Result<Text>)
      requires Valid() && lexer.Current().kind != SOF
      modifies this, lexer
      ensures r.Ok? ==> Valid() && lexer.Current().kind != SOF && Left() < old(Left())
      ensures old(Rest()).Ok? ==>
                var ts := old(Rest()).value;
                && (r.Ok? <==> At(ts, NAME) && Within(ts[1..]))
                && (r.Ok? ==> r.value == ts[0].value && Rest() == Ok(ts[1..]))
    {
      hide Scan, Lexer.IsChain, Lexer.Located;
      var token := ExpectToken(NAME);
      r := if token.Err? then Err(token.error) else Ok(token.value.value);
    }

    method ParseVariable() returns (r: Result<Value>)
      requires Valid() && lexer.Current().kind != SOF
      modifies this, lexer
      ensures r.Ok? ==> Valid() && lexer.Current().kind != SOF && Left() < old(Left())
      ensures old(Rest()).Ok? ==>
                var ts := old(Rest()).value;
                && (r.Ok? <==> At(ts, DOLLAR) && At(ts[1..], NAME) && Within(ts[2..]))
                && (r.Ok? ==> r.value == Variable(ts[1].value) && Rest() == Ok(ts[2..]))
    {
      hide Scan, Lexer.IsChain, Lexer.Located;
      var dollar := ExpectToken(DOLLAR);
      if dollar.Err? {
        return Err(dollar.error);
      }
      var name := ParseName();
      r := if name.Err? then Err(name.error) else Ok(Variable(name.value));
      if old(Rest()).Ok? {
        TailOfTail(old(Rest()).value);
      }
    }

    method ParseVariableValue(isConst: bool) returns (r: Result<Value>)
      requires Valid() && lexer.Current().kind == DOLLAR
      modifies this, lexer
      ensures r.Ok? ==> Valid() && lexer.Current().kind != SOF && Left() < old(Left())
      ensures old(Rest()).Ok? ==> Agrees(ParseValue(old(Rest()).value, isConst), r)
      ensures old(Rest()).Ok? && r.Ok? ==> Rest() == Ok(ParseValue(old(Rest()).value, isConst).rest)
    {
      hide Scan, Lexer.IsChain, Lexer.Located;
      RestStep(lexer.body, Token());
      if isConst {
        var dollar := ExpectToken(DOLLAR);
        return Err(if dollar.Err? then dollar.error else SyntaxError);
      }
      r := ParseVariable();
    }

    /** A single token that is a value of its own. */
    method ParseTokenValue(v: Value) returns (r: Result<Value>)
      requires Valid() && lexer.Current().kind != SOF && lexer.Current().kind != EOF
      modifies this, lexer
      ensures r.Ok? ==> Valid() && lexer.Current().kind != SOF && Left() < old(Left())
      ensures old(Rest()).Ok? ==> var ts := old(Rest()).value; ts != [] && Agrees(Parsed(v, ts[1..]), r)
      ensures old(Rest()).Ok? && r.Ok? ==> Rest() == Ok(old(Rest()).value[1..])
    {
      hide Scan, Lexer.NextToken, Lexer.IsChain, Lexer.Located;
      RestStep(lexer.body, Token());
      var error := AdvanceLexer();
      r := if error.Some? then Err(error.value) else Ok(v);
    }

    /** The outcome is the one that the grammar gives, if the token limit lets the parser get there. */
    ghost predicate Agrees<T>(p: Parsed<T>, r: Result<T>) {
      && (r.Ok? <==> p.Parsed? && Within(p.rest))
      && (r.Ok? ==> r.value == p.node)
    }

    method ParseValueLiteral(isConst: bool) returns (r: Result<Value>)
      requires Valid() && lexer.Current().kind != SOF
      modifies this, lexer
      ensures r.Ok? ==> Valid() && lexer.Current().kind != SOF && Left() < old(Left())
      ensures old(Rest()).Ok? ==> Agrees(ParseValue(old(Rest()).value, isConst), r)
      ensures old(Rest()).Ok? && r.Ok? ==> Rest() == Ok(ParseValue(old(Rest()).value, isConst).rest)
      decreases Left(), 1
    {
      hide Scan, Lexer.IsChain, Lexer.Located, ParseItems, ParseFields, NamedValue;
      var token := Token();
      RestStep(lexer.body, token);
      match token.kind
      case BRACKET_L => r := ParseList(isConst);
      case BRACE_L => r := ParseObject(isConst);
      case INT => r := ParseTokenValue(IntValue(token.value));
      case FLOAT => r := ParseTokenValue(FloatValue(token.value));
      case STRING => r := ParseTokenValue(StringValue(token.value, false));
      case BLOCK_STRING => r := ParseTokenValue(StringValue(token.value, true));
      case NAME => r := ParseTokenValue(NamedValue(token.value));
      case DOLLAR => r := ParseVariableValue(isConst);
      case _ => r := Err(SyntaxError);
    }

    /** Where the limit lets the parser get, it lets it get to anywhere before. */
    lemma {:induction false} WithinBefore(later: seq<Item>, earlier: seq<Item>)
      requires |later| <= |earlier| && Within(later)
      ensures Within(earlier)
    {
    }

    /** An item that fails makes the list fail, a limit that stops it stops the list. */
    lemma {:induction false} ItemsStop(ts: seq<Item>, isConst: bool, nodes: seq<Value>, v: Result<Value>)
      requires !At(ts, BRACKET_R) && v.Err? && Agrees(ParseValue(ts, isConst), v)
      ensures var r := Onto(nodes, ParseItems(ts, isConst)); r.Fails? || !Within(r.rest)
    {
      hide ParseValue, Within;
      ItemsStep(ts, isConst);
      var first := ParseValue(ts, isConst);
      if first.Parsed? {
        var more := ParseItems(first.rest, isConst);
        if more.Parsed? && Within(more.rest) {
          WithinBefore(more.rest, first.rest);
        }
      }
    }

    lemma {:induction false} FieldsStop(ts: seq<Item>, isConst: bool, nodes: seq<ObjectField>, f: Result<ObjectField>)
      requires !At(ts, BRACE_R) && f.Err? && Agrees(ParseField(ts, isConst), f)
      ensures var r := Onto(nodes, ParseFields(ts, isConst)); r.Fails? || !Within(r.rest)
    {
      hide ParseField, Within;
      FieldsStep(ts, isConst);
      var first := ParseField(ts, isConst);
      if first.Parsed? {
        var more := ParseFields(first.rest, isConst);
        if more.Parsed? && Within(more.rest) {
          WithinBefore(more.rest, first.rest);
        }
      }
    }

    /** `any(BRACKET_L, item, BRACKET_R)` */
    method ParseListItems(isConst: bool) returns (r: Result<seq<Value>>)
      requires Valid() && lexer.Current().kind == BRACKET_L
      modifies this, lexer
      ensures r.Ok? ==> Valid() && lexer.Current().kind != SOF && Left() < old(Left())
      ensures old(Rest()).Ok? ==> Agrees(ParseItems(old(Rest()).value[1..], isConst), r)
      ensures old(Rest()).Ok? && r.Ok? ==> Rest() == Ok(ParseItems(old(Rest()).value[1..], isConst).rest)
      decreases Left(), 0, 0
    {
      hide Scan, Lexer.IsChain, Lexer.Located, ParseValue, ParseItems, Within;
      ghost var all := Rest();
      RestStep(lexer.body, Token());
      var open := ExpectToken(BRACKET_L);
      if all.Ok? {
        ItemsWithin(all.value[1..], isConst);
      }
      if open.Err? {
        return Err(open.error);
      }
      ghost var spec := if all.Ok? then ParseItems(all.value[1..], isConst) else Fails;
      var nodes: seq<Value> := [];
      OntoNothing(spec);
      while true
        invariant Valid() && lexer.Current().kind != SOF && Left() < old(Left())
        invariant all.Ok? ==> Rest().Ok? && spec == Onto(nodes, ParseItems(Rest().value, isConst))
        decreases Left()
      {
        ghost var ts := Rest();
        if ts.Ok? {
          ItemsStep(ts.value, isConst);
        }
        var close := ExpectOptionalToken(BRACKET_R);
        if close.Err? {
          return Err(close.error);
        }
        if close.value {
          assert nodes + [] == nodes;
          break;
        }
        var v := ParseValueLiteral(isConst);
        if v.Err? {
          if ts.Ok? {
            ItemsStop(ts.value, isConst, nodes, v);
          }
          return Err(v.error);
        }
        if all.Ok? {
          OntoOnto(nodes, [v.value], ParseItems(Rest().value, isConst));
        }
        nodes := nodes + [v.value];
      }
      r := Ok(nodes);
    }

    /** A limit that stops the parser behind the opening bracket stops the list. */
    lemma {:induction false} ItemsWithin(ts: seq<Item>, isConst: bool)
      ensures var r := ParseItems(ts, isConst); r.Parsed? && Within(r.rest) ==> Within(ts)
    {
      hide ParseItems, Within;
      var r := ParseItems(ts, isConst);
      if r.Parsed? && Within(r.rest) {
        WithinBefore(r.rest, ts);
      }
    }

    method ParseList(isConst: bool) returns (r: Result<Value>)
      requires Valid() && lexer.Current().kind == BRACKET_L
      modifies this, lexer
      ensures r.Ok? ==> Valid() && lexer.Current().kind != SOF && Left() < old(Left())
      ensures old(Rest()).Ok? ==> Agrees(ParseValue(old(Rest()).value, isConst), r)
      ensures old(Rest()).Ok? && r.Ok? ==> Rest() == Ok(ParseValue(old(Rest()).value, isConst).rest)
      decreases Left(), 0, 1
    {
      hide Scan, Lexer.IsChain, Lexer.Located, ParseValue, ParseItems, Within;
      RestStep(lexer.body, Token());
      if Rest().Ok? {
        ListOf(Rest().value, isConst);
      }
      var values := ParseListItems(isConst);
      r := if values.Err? then Err(values.error) else Ok(ListValue(values.value));
    }

    method ParseObjectField(isConst: bool) returns (r: Result<ObjectField>)
      requires Valid() && lexer.Current().kind != SOF
      modifies this, lexer
      ensures r.Ok? ==> Valid() && lexer.Current().kind != SOF && Left() < old(Left())
      ensures old(Rest()).Ok? ==> Agrees(ParseField(old(Rest()).value, isConst), r)
      ensures old(Rest()).Ok? && r.Ok? ==> Rest() == Ok(ParseField(old(Rest()).value, isConst).rest)
      decreases Left(), 0
    {
      hide Scan, Lexer.IsChain, Lexer.Located, ParseValue;
      ghost var all := Rest();
      if all.Ok? {
        TailOfTail(all.value);
      }
      var name := ParseName();
      if name.Err? {
        return Err(name.error);
      }
      var colon := ExpectToken(COLON);
      if colon.Err? {
        return Err(colon.error);
      }
      var v := ParseValueLiteral(isConst);
      r := if v.Err? then Err(v.error) else Ok(ObjectField(name.value, v.value));
    }

    /** `any(BRACE_L, item, BRACE_R)` */
    method ParseObjectFields(isConst: bool) returns (r: Result<seq<ObjectField>>)
      requires Valid() && lexer.Current().kind == BRACE_L
      modifies this, lexer
      ensures r.Ok? ==> Valid() && lexer.Current().kind != SOF && Left() < old(Left())
      ensures old(Rest()).Ok? ==> Agrees(ParseFields(old(Rest()).value[1..], isConst), r)
      ensures old(Rest()).Ok? && r.Ok? ==> Rest() == Ok(ParseFields(old(Rest()).value[1..], isConst).rest)
      decreases Left(), 0, 0
    {
      hide Scan, Lexer.IsChain, Lexer.Located, ParseField, ParseFields, Within;
      ghost var all := Rest();
      RestStep(lexer.body, Token());
      var open := ExpectToken(BRACE_L);
      if all.Ok? {
        FieldsWithin(all.value[1..], isConst);
      }
      if open.Err? {
        return Err(open.error);
      }
      ghost var spec := if all.Ok? then ParseFields(all.value[1..], isConst) else Fails;
      var nodes: seq<ObjectField> := [];
      OntoNothing(spec);
      while true
        invariant Valid() && lexer.Current().kind != SOF && Left() < old(Left())
        invariant all.Ok? ==> Rest().Ok? && spec == Onto(nodes, ParseFields(Rest().value, isConst))
        decreases Left()
      {
        ghost var ts := Rest();
        if ts.Ok? {
          FieldsStep(ts.value, isConst);
        }
        var close := ExpectOptionalToken(BRACE_R);
        if close.Err? {
          return Err(close.error);
        }
        if close.value {
          assert nodes + [] == nodes;
          break;
        }
        var f := ParseObjectField(isConst);
        if f.Err? {
          if ts.Ok? {
            FieldsStop(ts.value, isConst, nodes, f);
          }
          return Err(f.error);
        }
        if all.Ok? {
          OntoOnto(nodes, [f.value], ParseFields(Rest().value, isConst));
        }
        nodes := nodes + [f.value];
      }
      r := Ok(nodes);
    }

    lemma {:induction false} FieldsWithin(ts: seq<Item>, isConst: bool)
      ensures var r := ParseFields(ts, isConst); r.Parsed? && Within(r.rest) ==> Within(ts)
    {
      hide ParseFields, Within;
      var r := ParseFields(ts, isConst);
      if r.Parsed? && Within(r.rest) {
        WithinBefore(r.rest, ts);
      }
    }

    method ParseObject(isConst: bool) returns (r: Result<Value>)
      requires Valid() && lexer.Current().kind == BRACE_L
      modifies this, lexer
      ensures r.Ok? ==> Valid() && lexer.Current().kind != SOF && Left() < old(Left())
      ensures old(Rest()).Ok? ==> Agrees(ParseValue(old(Rest()).value, isConst), r)
      ensures old(Rest()).Ok? && r.Ok? ==> Rest() == Ok(ParseValue(old(Rest()).value, isConst).rest)
      decreases Left(), 0, 1
    {
      hide Scan, Lexer.IsChain, Lexer.Located, ParseValue, ParseFields, Within;
      RestStep(lexer.body, Token());
      if Rest().Ok? {
        ObjectOf(Rest().value, isConst);
      }
      var fields := ParseObjectFields(isConst);
      r := if fields.Err? then Err(fields.error) else Ok(ObjectValue(fields.value));
    }
  }

  /**
   `parse_value` and `parse_const_value`: the value that the grammar reads from the whole
   source, unless the token limit is exceeded.
   */
  method ParseSource(body: Text, isConst: bool, maxTokens: Option<nat>) returns (r: Result<Value>)
    ensures r.Ok? <==>
            ParseText(body, isConst).Parsed? && (maxTokens.Some? ==> |Scan(body).value| <= maxTokens.value)
    ensures r.Ok? ==> r.value == ParseText(body, isConst).node
  {
    hide Scan, Lexer.IsChain, Lexer.Located, ParseValue;
    var parser := new Parser(body, maxTokens);
    assert body[0..] == body;
    var start := parser.AdvanceLexer();
    if start.Some? {
      return Err(start.value);
    }
    var v := parser.ParseValueLiteral(isConst);
    if v.Err? {
      return v;
    }
    if parser.Token().kind != EOF {
      return Err(SyntaxError);
    }
    r := v;
  }
}
