/**
 `sort_value_node`: a canonical form of values under reordering of object fields, which
 rests on the natural comparison key being a total order on names.
 */
module SortValueNode {
  import opened Lexing
  import opened Values

  // ---------------------------------------------------------------------------
  // natural_comparison_key
  // ---------------------------------------------------------------------------

  /** A part of a name: the text between numbers, or a number with its digits. */
  datatype Part = Plain(text: Text) | Number(value: nat, text: Text)

  function PlainRun(s: Text): (n: nat)
    ensures n <= |s| && (n < |s| ==> IsDigit(s[n]))
  {
    if s == [] || IsDigit(s[0]) then 0 else 1 + PlainRun(s[1..])
  }

  lemma {:induction false} DigitRunIsDigits(s: Text)
    ensures s != [] && IsDigit(s[0]) ==> DigitRun(s) > 0
    ensures forall i | 0 <= i < DigitRun(s) :: IsDigit(s[i])
  {
    if s != [] && IsDigit(s[0]) {
      DigitRunIsDigits(s[1..]);
    }
  }

  function NumberOf(digits: Text): nat
    requires forall i | 0 <= i < |digits| :: IsDigit(digits[i])
  {
    if digits == [] then 0
    else
      assert IsDigit(digits[|digits| - 1]);
      NumberOf(digits[..|digits| - 1]) * 10 + (digits[|digits| - 1] - ZERO)
  }

  /** The text up to the first number, the number, and so on; always ending with a text. */
  function ComparisonKey(s: Text): seq<Part>
    decreases |s|
  {
    var p := PlainRun(s);
    if p == |s| then [Plain(s)]
    else
      var d := DigitRun(s[p..]);
      DigitRunIsDigits(s[p..]);
      [Plain(s[..p]), Number(NumberOf(s[p..][..d]), s[p..][..d])] + ComparisonKey(s[p..][d..])
  }

  /** Comparison of strings by code points. */
  predicate TextLess(a: Text, b: Text) {
    if b == [] then false
    else if a == [] then true
    else if a[0] != b[0] then a[0] < b[0]
    else TextLess(a[1..], b[1..])
  }

  /** Comparison of strings, or of pairs of a number and a string. */
  predicate PartLess(a: Part, b: Part) {
    if a.Plain? || b.Plain? then a.Plain? && b.Plain? && TextLess(a.text, b.text)
    else a.value < b.value || (a.value == b.value && TextLess(a.text, b.text))
  }

  /** Comparison of tuples. */
  predicate KeyLess(a: seq<Part>, b: seq<Part>) {
    if b == [] then false
    else if a == [] then true
    else if a[0] != b[0] then PartLess(a[0], b[0])
    else KeyLess(a[1..], b[1..])
  }

  predicate NameLess(a: Text, b: Text) {
    KeyLess(ComparisonKey(a), ComparisonKey(b))
  }

  // ---------------------------------------------------------------------------
  // The order of names
  // ---------------------------------------------------------------------------

  function TextOf(key: seq<Part>): Text {
    if key == [] then [] else key[0].text + TextOf(key[1..])
  }

  /** The first text, the first number and what follows. */
  lemma {:induction false} KeyStep(s: Text) returns (a: Text, n: Part, rest: Text)
    requires PlainRun(s) < |s|
    ensures n.Number? && |rest| < |s| && s == a + (n.text + rest)
    ensures ComparisonKey(s) == [Plain(a), n] + ComparisonKey(rest)
  {
    var p := PlainRun(s);
    DigitRunIsDigits(s[p..]);
    hide NumberOf, DigitRun, PlainRun;
    var d := DigitRun(s[p..]);
    a, n, rest := s[..p], Number(NumberOf(s[p..][..d]), s[p..][..d]), s[p..][d..];
    ThreeParts(s, p, d);
  }

  lemma {:induction false} ThreeParts(s: Text, p: nat, d: nat)
    requires p <= |s| && d <= |s[p..]|
    ensures s == s[..p] + (s[p..][..d] + s[p..][d..])
  {
    assert s[p..] == s[p..][..d] + s[p..][d..];
  }

  /** The parts of a name put together give the name. */
  lemma {:induction false} KeyKeepsText(s: Text)
    ensures TextOf(ComparisonKey(s)) == s
    decreases |s|
  {
    if PlainRun(s) == |s| {
      assert ComparisonKey(s) == [Plain(s)] && [Plain(s)][1..] == [];
      assert TextOf([Plain(s)]) == s + TextOf([]);
    } else {
      var a, n, rest := KeyStep(s);
      KeyKeepsText(rest);
      hide ComparisonKey, TextOf, PlainRun;
      TextOfThree(Plain(a), n, ComparisonKey(rest));
    }
  }

  lemma {:induction false} TextOfThree(a: Part, b: Part, key: seq<Part>)
    ensures TextOf([a, b] + key) == a.text + (b.text + TextOf(key))
  {
    assert ([a, b] + key)[1..] == [b] + key && ([b] + key)[1..] == key;
  }

  lemma {:induction false} KeyIsInjective(a: Text, b: Text)
    requires ComparisonKey(a) == ComparisonKey(b)
    ensures a == b
  {
    KeyKeepsText(a);
    KeyKeepsText(b);
  }

  /** Texts and numbers alternate, so the parts that are compared are always of one kind. */
  predicate Alternates(key: seq<Part>, number: bool) {
    key != [] ==> key[0].Number? == number && Alternates(key[1..], !number)
  }

  lemma {:induction false} KeyAlternates(s: Text)
    ensures Alternates(ComparisonKey(s), false)
    decreases |s|
  {
    var p := PlainRun(s);
    if p < |s| {
      var d := DigitRun(s[p..]);
      DigitRunIsDigits(s[p..]);
      KeyAlternates(s[p..][d..]);
      assert ComparisonKey(s)[1..][1..] == ComparisonKey(s[p..][d..]);
    }
  }

  lemma {:induction false} TextOrder(a: Text, b: Text, c: Text)
    ensures !(TextLess(a, b) && TextLess(b, a)) && !TextLess(a, a)
    ensures a != b ==> TextLess(a, b) || TextLess(b, a)
    ensures TextLess(a, b) && TextLess(b, c) ==> TextLess(a, c)
  {
    if a != [] && b != [] {
      TextOrder(a[1..], b[1..], if c == [] then [] else c[1..]);
      assert a == [a[0]] + a[1..] && b == [b[0]] + b[1..];
    }
    if a != [] {
      TextIrreflexive(a);
    }
  }

  lemma {:induction false} TextIrreflexive(a: Text)
    ensures !TextLess(a, a)
  {
    if a != [] {
      TextIrreflexive(a[1..]);
    }
  }

  lemma {:induction false} PartOrder(a: Part, b: Part, c: Part)
    requires a.Number? == b.Number? == c.Number?
    ensures !(PartLess(a, b) && PartLess(b, a)) && !PartLess(a, a)
    ensures a != b ==> PartLess(a, b) || PartLess(b, a)
    ensures PartLess(a, b) && PartLess(b, c) ==> PartLess(a, c)
  {
    TextOrder(a.text, b.text, c.text);
    hide TextLess;
  }

  lemma {:induction false} KeyOrder(a: seq<Part>, b: seq<Part>, c: seq<Part>, number: bool)
    requires Alternates(a, number) && Alternates(b, number) && Alternates(c, number)
    ensures !(KeyLess(a, b) && KeyLess(b, a)) && !KeyLess(a, a)
    ensures a != b ==> KeyLess(a, b) || KeyLess(b, a)
    ensures KeyLess(a, b) && KeyLess(b, c) ==> KeyLess(a, c)
    decreases |a|
  {
    hide PartLess;
    if a != [] {
      KeyIrreflexive(a);
    }
    if a != [] && b != [] {
      var rest := if c == [] then [] else c[1..];
      KeyOrder(a[1..], b[1..], rest, !number);
      assert a == [a[0]] + a[1..] && b == [b[0]] + b[1..];
      PartOrder(a[0], b[0], if c == [] then a[0] else c[0]);
    }
  }

  lemma {:induction false} KeyIrreflexive(a: seq<Part>)
    ensures !KeyLess(a, a)
  {
    if a != [] {
      KeyIrreflexive(a[1..]);
    }
  }

  /** Names are totally ordered: any two different names compare one way and not the other. */
  lemma {:induction false} NameOrder(a: Text, b: Text, c: Text)
    ensures !(NameLess(a, b) && NameLess(b, a)) && !NameLess(a, a)
    ensures a != b ==> NameLess(a, b) || NameLess(b, a)
    ensures NameLess(a, b) && NameLess(b, c) ==> NameLess(a, c)
  {
    KeyAlternates(a);
    KeyAlternates(b);
    KeyAlternates(c);
    KeyOrder(ComparisonKey(a), ComparisonKey(b), ComparisonKey(c), false);
    if ComparisonKey(a) == ComparisonKey(b) {
      KeyIsInjective(a, b);
    }
    hide ComparisonKey, KeyLess;
  }

  // ---------------------------------------------------------------------------
  // sort_value_node
  // ---------------------------------------------------------------------------

  /** Puts a field before the first one that is not smaller. */
  function Insert(f: ObjectField, fields: seq<ObjectField>): (r: seq<ObjectField>)
    ensures |r| == |fields| + 1
  {
    if fields == [] || !NameLess(fields[0].name, f.name) then [f] + fields else [fields[0]] + Insert(f, fields[1..])
  }

  /** `sorted`, which keeps the order of fields with equal names. */
  function InOrder(fields: seq<ObjectField>): (r: seq<ObjectField>)
    ensures |r| == |fields|
  {
    if fields == [] then [] else Insert(fields[0], InOrder(fields[1..]))
  }

  /** `sort_value_node` */
  function Sort(v: Value): Value {
    match v
    case ObjectValue(fields) => ObjectValue(InOrder(SortEach(fields)))
    case ListValue(values) => ListValue(SortAll(values))
    case _ => v
  }

  function SortAll(values: seq<Value>): (r: seq<Value>)
    ensures |r| == |values|
  {
    if values == [] then [] else [Sort(values[0])] + SortAll(values[1..])
  }

  /** `sort_field` for each of the fields */
  function SortEach(fields: seq<ObjectField>): (r: seq<ObjectField>)
    ensures |r| == |fields|
  {
    if fields == [] then [] else [ObjectField(fields[0].name, Sort(fields[0].value))] + SortEach(fields[1..])
  }

  // ---------------------------------------------------------------------------
  // Sorting fields
  // ---------------------------------------------------------------------------

  /** No field is smaller than one before it. */
  predicate IsSorted(fields: seq<ObjectField>) {
    forall i, j | 0 <= i < j < |fields| :: !NameLess(fields[j].name, fields[i].name)
  }

  predicate DistinctNames(fields: seq<ObjectField>) {
    forall i, j | 0 <= i < j < |fields| :: fields[i].name != fields[j].name
  }

  lemma {:induction false} InsertSorts(f: ObjectField, fields: seq<ObjectField>)
    requires IsSorted(fields)
    ensures IsSorted(Insert(f, fields)) && multiset(Insert(f, fields)) == multiset([f] + fields)
  {
    hide NameLess;
    if fields != [] {
      NameOrder(fields[0].name, f.name, f.name);
      if NameLess(fields[0].name, f.name) {
        InsertSorts(f, fields[1..]);
        var rest := Insert(f, fields[1..]);
        assert fields == [fields[0]] + fields[1..];
        forall j | 0 <= j < |rest| ensures !NameLess(rest[j].name, fields[0].name) {
          assert rest[j] in multiset(rest);
          assert rest[j] in [f] + fields[1..];
        }
      } else {
        forall j | 0 <= j < |fields| ensures !NameLess(fields[j].name, f.name) {
          NameOrder(fields[j].name, f.name, fields[0].name);
          NameOrder(f.name, fields[0].name, fields[j].name);
          NameOrder(fields[j].name, fields[0].name, f.name);
        }
      }
    }
  }

  lemma {:induction false} InOrderSorts(fields: seq<ObjectField>)
    ensures IsSorted(InOrder(fields)) && multiset(InOrder(fields)) == multiset(fields)
  {
    hide NameLess, Insert;
    if fields != [] {
      InOrderSorts(fields[1..]);
      InsertSorts(fields[0], InOrder(fields[1..]));
      assert fields == [fields[0]] + fields[1..];
    }
  }

  lemma {:induction false} SortedStays(fields: seq<ObjectField>)
    requires IsSorted(fields)
    ensures InOrder(fields) == fields
  {
    hide NameLess;
    if fields != [] {
      SortedStays(fields[1..]);
      assert fields == [fields[0]] + fields[1..];
    }
  }

  /** Two sorted sequences with distinct names and the same fields are equal. */
  lemma {:induction false} SortedIsUnique(xs: seq<ObjectField>, ys: seq<ObjectField>)
    requires IsSorted(xs) && IsSorted(ys) && DistinctNames(xs) && DistinctNames(ys)
    requires forall f :: f in xs <==> f in ys
    ensures xs == ys
  {
    hide NameLess;
    if xs != [] {
      assert xs[0] in ys;
    }
    if ys != [] {
      assert ys[0] in xs;
      var i :| 0 <= i < |ys| && ys[i] == xs[0];
      var j :| 0 <= j < |xs| && xs[j] == ys[0];
      NameOrder(xs[0].name, ys[0].name, xs[0].name);
      assert xs[0] == ys[0];
      forall f ensures f in xs[1..] <==> f in ys[1..] {
        RestWithout(xs, f);
        RestWithout(ys, f);
      }
      SortedIsUnique(xs[1..], ys[1..]);
      assert xs == [xs[0]] + xs[1..] && ys == [ys[0]] + ys[1..];
    }
  }

  lemma {:induction false} RestWithout(xs: seq<ObjectField>, f: ObjectField)
    requires xs != [] && DistinctNames(xs)
    ensures f in xs[1..] <==> f in xs && f != xs[0]
  {
    if f in xs[1..] {
      var i :| 0 <= i < |xs[1..]| && xs[1..][i] == f;
      assert xs[i + 1] == f;
    }
  }

  // ---------------------------------------------------------------------------
  // The canonical form
  // ---------------------------------------------------------------------------

  /** At every depth the fields of objects have distinct names. */
  predicate UniqueNames(v: Value) {
    match v
    case ObjectValue(fields) => DistinctNames(fields) && forall i | 0 <= i < |fields| :: UniqueNames(fields[i].value)
    case ListValue(values) => forall i | 0 <= i < |values| :: UniqueNames(values[i])
    case _ => true
  }

  /** Equal up to the order of object fields, at every depth. */
  ghost predicate Same(v: Value, w: Value)
    decreases v, 2
  {
    match v
    case ObjectValue(fields) =>
      w.ObjectValue? && |fields| == |w.fields| && EachIsIn(fields, w.fields) && EachHas(fields, w.fields)
    case ListValue(values) => w.ListValue? && AllSame(values, w.values)
    case _ => v == w
  }

  ghost predicate AllSame(values: seq<Value>, values': seq<Value>)
    decreases values, 0
  {
    |values| == |values'| && (values != [] ==> Same(values[0], values'[0]) && AllSame(values[1..], values'[1..]))
  }

  ghost predicate SameField(f: ObjectField, g: ObjectField)
    decreases f, 0
  {
    f.name == g.name && Same(f.value, g.value)
  }

  /** The field is one of the others. */
  ghost predicate IsIn(f: ObjectField, gs: seq<ObjectField>)
    decreases f, 1, |gs|
  {
    gs != [] && (SameField(f, gs[0]) || IsIn(f, gs[1..]))
  }

  ghost predicate EachIsIn(fs: seq<ObjectField>, gs: seq<ObjectField>)
    decreases fs, 1
  {
    fs == [] || (IsIn(fs[0], gs) && EachIsIn(fs[1..], gs))
  }

  ghost predicate Has(fs: seq<ObjectField>, g: ObjectField)
    decreases fs, 0
  {
    fs != [] && (SameField(fs[0], g) || Has(fs[1..], g))
  }

  ghost predicate EachHas(fs: seq<ObjectField>, gs: seq<ObjectField>)
    decreases fs, 1, |gs|
  {
    gs == [] || (Has(fs, gs[0]) && EachHas(fs, gs[1..]))
  }

  // Witnesses for these predicates.

  lemma {:induction false} InAt(f: ObjectField, gs: seq<ObjectField>, j: nat)
    requires j < |gs| && SameField(f, gs[j])
    ensures IsIn(f, gs)
    decreases j
  {
    hide SameField;
    if j > 0 {
      InAt(f, gs[1..], j - 1);
    }
  }

  lemma {:induction false} InFind(f: ObjectField, gs: seq<ObjectField>) returns (j: nat)
    requires IsIn(f, gs)
    ensures j < |gs| && SameField(f, gs[j])
    decreases |gs|
  {
    hide Same;
    j := 0;
    if !SameField(f, gs[0]) {
      j := InFind(f, gs[1..]);
      j := j + 1;
    }
  }

  lemma {:induction false} HasAt(fs: seq<ObjectField>, g: ObjectField, i: nat)
    requires i < |fs| && SameField(fs[i], g)
    ensures Has(fs, g)
    decreases i
  {
    hide Same;
    if i > 0 {
      HasAt(fs[1..], g, i - 1);
    }
  }

  lemma {:induction false} HasFind(fs: seq<ObjectField>, g: ObjectField) returns (i: nat)
    requires Has(fs, g)
    ensures i < |fs| && SameField(fs[i], g)
    decreases |fs|
  {
    hide Same;
    i := 0;
    if !SameField(fs[0], g) {
      i := HasFind(fs[1..], g);
      i := i + 1;
    }
  }

  lemma {:induction false} EachIsInAt(fs: seq<ObjectField>, gs: seq<ObjectField>, i: nat)
    requires EachIsIn(fs, gs) && i < |fs|
    ensures IsIn(fs[i], gs)
    decreases i
  {
    hide Same, IsIn;
    if i > 0 {
      EachIsInAt(fs[1..], gs, i - 1);
    }
  }

  lemma {:induction false} EachIsInAll(fs: seq<ObjectField>, gs: seq<ObjectField>)
    requires forall i | 0 <= i < |fs| :: IsIn(fs[i], gs)
    ensures EachIsIn(fs, gs)
    decreases |fs|
  {
    hide Same, IsIn;
    if fs != [] {
      forall i | 0 <= i < |fs[1..]| ensures IsIn(fs[1..][i], gs) {
        assert fs[1..][i] == fs[i + 1];
      }
      EachIsInAll(fs[1..], gs);
      assert IsIn(fs[0], gs);
    }
  }

  lemma {:induction false} EachHasAt(fs: seq<ObjectField>, gs: seq<ObjectField>, j: nat)
    requires EachHas(fs, gs) && j < |gs|
    ensures Has(fs, gs[j])
    decreases j
  {
    hide Same, Has;
    if j > 0 {
      EachHasAt(fs, gs[1..], j - 1);
    }
  }

  lemma {:induction false} EachHasAll(fs: seq<ObjectField>, gs: seq<ObjectField>)
    requires forall j | 0 <= j < |gs| :: Has(fs, gs[j])
    ensures EachHas(fs, gs)
    decreases |gs|
  {
    hide Same, Has;
    if gs != [] {
      forall j | 0 <= j < |gs[1..]| ensures Has(fs, gs[1..][j]) {
        assert gs[1..][j] == gs[j + 1];
      }
      EachHasAll(fs, gs[1..]);
      assert Has(fs, gs[0]);
    }
  }

  lemma {:induction false} ObjectsSame(fs: seq<ObjectField>, gs: seq<ObjectField>)
    ensures Same(ObjectValue(fs), ObjectValue(gs)) <==> |fs| == |gs| && EachIsIn(fs, gs) && EachHas(fs, gs)
  {
  }

  lemma {:induction false} SortEachAt(fields: seq<ObjectField>)
    ensures forall i | 0 <= i < |fields| :: SortEach(fields)[i] == ObjectField(fields[i].name, Sort(fields[i].value))
  {
    hide Sort;
    if fields != [] {
      SortEachAt(fields[1..]);
      forall i | 1 <= i < |fields| ensures SortEach(fields)[i] == ObjectField(fields[i].name, Sort(fields[i].value)) {
        assert SortEach(fields)[i] == SortEach(fields[1..])[i - 1];
      }
    }
  }

  lemma {:induction false} SortAllAt(values: seq<Value>)
    ensures forall i | 0 <= i < |values| :: SortAll(values)[i] == Sort(values[i])
  {
    hide Sort;
    if values != [] {
      SortAllAt(values[1..]);
      forall i | 1 <= i < |values| ensures SortAll(values)[i] == Sort(values[i]) {
        assert SortAll(values)[i] == SortAll(values[1..])[i - 1];
      }
    }
  }

  /** The sorted fields of an object are those of its fields, sorted themselves. */
  lemma {:induction false} SortedFields(fields: seq<ObjectField>)
    ensures var sorted := InOrder(SortEach(fields));
            && IsSorted(sorted)
            && (DistinctNames(fields) ==> DistinctNames(sorted))
            && (forall f :: f in sorted <==> f in SortEach(fields))
  {
    hide Sort, NameLess, InOrder;
    var each := SortEach(fields);
    var sorted := InOrder(each);
    InOrderSorts(each);
    SortEachAt(fields);
    forall f ensures f in sorted <==> f in each {
      assert f in sorted <==> f in multiset(sorted);
      assert f in each <==> f in multiset(each);
    }
    if DistinctNames(fields) {
      DistinctPermutation(each, sorted);
    }
  }

  lemma {:induction false} DistinctPermutation(xs: seq<ObjectField>, ys: seq<ObjectField>)
    requires DistinctNames(xs) && multiset(xs) == multiset(ys)
    ensures DistinctNames(ys)
  {
    forall i, j | 0 <= i < j < |ys| ensures ys[i].name != ys[j].name {
      assert ys[i] in multiset(ys) && ys[j] in multiset(ys);
      var a :| 0 <= a < |xs| && xs[a] == ys[i];
      var b :| 0 <= b < |xs| && xs[b] == ys[j];
      if ys[i] == ys[j] {
        TwiceIn(ys, i, j);
        OnceIn(xs, a);
      }
    }
  }

  lemma {:induction false} TwiceIn(ys: seq<ObjectField>, i: nat, j: nat)
    requires i < j < |ys| && ys[i] == ys[j]
    ensures multiset(ys)[ys[i]] >= 2
  {
    assert ys == ys[..j] + [ys[j]] + ys[j + 1..];
    assert ys[..j][i] in multiset(ys[..j]);
  }

  lemma {:induction false} OnceIn(xs: seq<ObjectField>, a: nat)
    requires a < |xs| && DistinctNames(xs)
    ensures multiset(xs)[xs[a]] == 1
  {
    assert xs == xs[..a] + [xs[a]] + xs[a + 1..];
    assert xs[a] !in xs[..a] && xs[a] !in xs[a + 1..];
  }

  /** Values with unique names sort to the same node exactly when they differ in the order of fields only. */
  lemma {:induction false} SortIsCanonical(v: Value, w: Value)
    requires UniqueNames(v) && UniqueNames(w)
    ensures Sort(v) == Sort(w) <==> Same(v, w)
    decreases v, 1
  {
    if v.ObjectValue? && w.ObjectValue? {
      forall i, j | 0 <= i < |v.fields| && 0 <= j < |w.fields|
        ensures Sort(v.fields[i].value) == Sort(w.fields[j].value) <==> Same(v.fields[i].value, w.fields[j].value)
      {
        SortIsCanonical(v.fields[i].value, w.fields[j].value);
      }
      SameFields(v.fields, w.fields);
    } else if v.ListValue? && w.ListValue? {
      ListsAreCanonical(v.values, w.values);
    }
  }

  lemma {:induction false} ListsAreCanonical(vs: seq<Value>, ws: seq<Value>)
    requires forall i | 0 <= i < |vs| :: UniqueNames(vs[i])
    requires forall i | 0 <= i < |ws| :: UniqueNames(ws[i])
    ensures SortAll(vs) == SortAll(ws) <==> AllSame(vs, ws)
    decreases vs, 0
  {
    hide Sort, Same, UniqueNames;
    if vs != [] && ws != [] {
      SortIsCanonical(vs[0], ws[0]);
      ListsAreCanonical(vs[1..], ws[1..]);
      assert SortAll(vs)[1..] == SortAll(vs[1..]) && SortAll(ws)[1..] == SortAll(ws[1..]);
      assert SortAll(vs)[0] == Sort(vs[0]) && SortAll(ws)[0] == Sort(ws[0]);
    }
  }

  /** Fields sort to the same fields exactly when each has a partner among the others. */
  lemma {:induction false} SameFields(fs: seq<ObjectField>, gs: seq<ObjectField>)
    requires DistinctNames(fs) && DistinctNames(gs)
    requires forall i, j | 0 <= i < |fs| && 0 <= j < |gs| ::
               Sort(fs[i].value) == Sort(gs[j].value) <==> Same(fs[i].value, gs[j].value)
    ensures InOrder(SortEach(fs)) == InOrder(SortEach(gs)) <==> Same(ObjectValue(fs), ObjectValue(gs))
  {
    var xs, ys := SortEach(fs), SortEach(gs);
    SortedFields(fs);
    SortedFields(gs);
    SortEachAt(fs);
    SortEachAt(gs);
    ObjectsSame(fs, gs);
    hide Sort, SortEach, InOrder, IsSorted, DistinctNames, Same, EachIsIn, EachHas;
    assert forall i, j | 0 <= i < |fs| && 0 <= j < |gs| :: xs[i] == ys[j] <==> SameField(fs[i], gs[j]);
    hide SameField;
    if InOrder(xs) == InOrder(ys) {
      forall f ensures f in xs <==> f in ys {
      }
      PartnersFrom(fs, gs, xs, ys);
    }
    if |fs| == |gs| && EachIsIn(fs, gs) && EachHas(fs, gs) {
      forall f ensures f in InOrder(xs) <==> f in InOrder(ys) {
        PartnersMeet(fs, gs, xs, ys, f);
      }
      SortedIsUnique(InOrder(xs), InOrder(ys));
    }
  }

  lemma {:induction false} PartnersFrom(fs: seq<ObjectField>, gs: seq<ObjectField>, xs: seq<ObjectField>,
      ys: seq<ObjectField>)
    requires |xs| == |fs| && |ys| == |gs| && forall f :: f in xs <==> f in ys
    requires forall i, j | 0 <= i < |fs| && 0 <= j < |gs| :: xs[i] == ys[j] <==> SameField(fs[i], gs[j])
    ensures EachIsIn(fs, gs) && EachHas(fs, gs)
  {
    hide SameField, IsIn, Has, EachIsIn, EachHas;
    forall i | 0 <= i < |fs| ensures IsIn(fs[i], gs) {
      assert xs[i] in ys;
      var j :| 0 <= j < |ys| && ys[j] == xs[i];
      InAt(fs[i], gs, j);
    }
    EachIsInAll(fs, gs);
    forall j | 0 <= j < |gs| ensures Has(fs, gs[j]) {
      assert ys[j] in xs;
      var i :| 0 <= i < |xs| && xs[i] == ys[j];
      HasAt(fs, gs[j], i);
    }
    EachHasAll(fs, gs);
  }

  lemma {:induction false} PartnersMeet(fs: seq<ObjectField>, gs: seq<ObjectField>, xs: seq<ObjectField>,
      ys: seq<ObjectField>, f: ObjectField)
    requires |xs| == |fs| && |ys| == |gs| && EachIsIn(fs, gs) && EachHas(fs, gs)
    requires forall i, j | 0 <= i < |fs| && 0 <= j < |gs| :: xs[i] == ys[j] <==> SameField(fs[i], gs[j])
    ensures f in xs <==> f in ys
  {
    hide SameField, IsIn, Has, EachIsIn, EachHas;
    if f in xs {
      var i :| 0 <= i < |xs| && xs[i] == f;
      EachIsInAt(fs, gs, i);
      var j := InFind(fs[i], gs);
      assert ys[j] == f;
    }
    if f in ys {
      var j :| 0 <= j < |ys| && ys[j] == f;
      EachHasAt(fs, gs, j);
      var i := HasFind(fs, gs[j]);
      assert xs[i] == f;
    }
  }

  /** Sorting a sorted value changes nothing, whatever names occur twice. */
  lemma {:induction false} SortTwice(v: Value)
    ensures Sort(Sort(v)) == Sort(v)
    decreases v
  {
    match v
    case ObjectValue(fields) =>
      var each := SortEach(fields);
      forall i | 0 <= i < |fields| ensures Sort(Sort(fields[i].value)) == Sort(fields[i].value) {
        SortTwice(fields[i].value);
      }
      SortEachAt(fields);
      SortedFields(fields);
      EachStays(InOrder(each), each, fields);
      SortedStays(InOrder(each));
    case ListValue(values) =>
      SortAllAt(values);
      SortAllAt(SortAll(values));
      forall i | 0 <= i < |values| ensures SortAll(SortAll(values))[i] == SortAll(values)[i] {
        SortTwice(values[i]);
      }
    case _ =>
  }

  lemma {:induction false} EachStays(sorted: seq<ObjectField>, each: seq<ObjectField>, fields: seq<ObjectField>)
    requires |each| == |fields| && forall f :: f in sorted ==> f in each
    requires forall i | 0 <= i < |fields| :: each[i] == ObjectField(fields[i].name, Sort(fields[i].value))
    requires forall i | 0 <= i < |fields| :: Sort(Sort(fields[i].value)) == Sort(fields[i].value)
    ensures SortEach(sorted) == sorted
  {
    SortEachAt(sorted);
    hide Sort, SortEach;
    forall k | 0 <= k < |sorted| ensures SortEach(sorted)[k] == sorted[k] {
      assert sorted[k] in each;
      var i :| 0 <= i < |each| && each[i] == sorted[k];
    }
  }
}
