/**
 The edit distance behind "did you mean" suggestions: a rolling three-row dynamic
 programme with reused buffers, a length cut-off and an early exit.  It is proved
 to return the optimal string alignment distance, which is in turn proved to be the
 least cost of an alignment script.
 */
module LexicalDistance {

  /** A text is its sequence of code points. */
  type Text = seq<int>

  function Min(x: int, y: int): int {
    if x < y then x else y
  }

  // ---------------------------------------------------------------------------
  // The full recurrence
  // ---------------------------------------------------------------------------

  /** The distance between the first `i` characters of `a` and the first `j` of `b`. */
  function Osa(a: Text, b: Text, i: nat, j: nat): nat
    requires i <= |a| && j <= |b|
    decreases i, j
  {
    if i == 0 then j
    else if j == 0 then i
    else
      var best := Best(Osa(a, b, i - 1, j), Osa(a, b, i, j - 1), Osa(a, b, i - 1, j - 1), a[i - 1] == b[j - 1]);
      if IsSwap(a, b, i, j) then Min(best, Osa(a, b, i - 2, j - 2) + 1) else best
  }

  function Best(up: int, left: int, diagonal: int, same: bool): int {
    Min(Min(up + 1, left + 1), diagonal + if same then 0 else 1)
  }

  /** One unfolding of the recurrence, for proofs that hide it. */
  lemma {:induction false} OsaStep(a: Text, b: Text, i: nat, j: nat)
    requires i <= |a| && j <= |b|
    ensures i == 0 ==> Osa(a, b, i, j) == j
    ensures j == 0 ==> Osa(a, b, i, j) == i
    ensures i > 0 && j > 0 ==>
              var best := Best(Osa(a, b, i - 1, j), Osa(a, b, i, j - 1), Osa(a, b, i - 1, j - 1), a[i - 1] == b[j - 1]);
              Osa(a, b, i, j) == if IsSwap(a, b, i, j) then Min(best, Osa(a, b, i - 2, j - 2) + 1) else best
  {
  }

  predicate IsSwap(a: Text, b: Text, i: nat, j: nat)
    requires i <= |a| && j <= |b|
  {
    i > 1 && j > 1 && a[i - 1] == b[j - 2] && a[i - 2] == b[j - 1]
  }

  function Distance(a: Text, b: Text): nat {
    Osa(a, b, |a|, |b|)
  }

  lemma {:induction false} DistanceIs(a: Text, b: Text)
    ensures Distance(a, b) == Osa(a, b, |a|, |b|)
  {
  }

  lemma {:induction false} OsaSymmetric(a: Text, b: Text, i: nat, j: nat)
    requires i <= |a| && j <= |b|
    ensures Osa(a, b, i, j) == Osa(b, a, j, i)
    decreases i, j
  {
    hide Osa;
    OsaStep(a, b, i, j);
    OsaStep(b, a, j, i);
    if i > 0 && j > 0 {
      OsaSymmetric(a, b, i - 1, j);
      OsaSymmetric(a, b, i, j - 1);
      OsaSymmetric(a, b, i - 1, j - 1);
      if i > 1 && j > 1 {
        OsaSymmetric(a, b, i - 2, j - 2);
      }
    }
  }

  /** Swapping the arguments, which `measure` does to keep the rows short, is harmless. */
  lemma {:induction false} DistanceSymmetric(a: Text, b: Text)
    ensures Distance(a, b) == Distance(b, a)
  {
    OsaSymmetric(a, b, |a|, |b|);
  }

  /** The distance is at least the difference of the lengths: the cut-off loses nothing. */
  lemma {:induction false} LengthCutOff(a: Text, b: Text, i: nat, j: nat)
    requires i <= |a| && j <= |b|
    ensures Osa(a, b, i, j) >= i - j && Osa(a, b, i, j) >= j - i
    decreases i, j
  {
    hide Osa;
    OsaStep(a, b, i, j);
    if i > 0 && j > 0 {
      LengthCutOff(a, b, i - 1, j);
      LengthCutOff(a, b, i, j - 1);
      LengthCutOff(a, b, i - 1, j - 1);
      if i > 1 && j > 1 {
        LengthCutOff(a, b, i - 2, j - 2);
      }
    }
  }

  /**
   Once every cell of row `i` exceeds the threshold, so does every later cell, even
   though a transposition reaches back two rows and could jump over row `i`.
   */
  lemma {:induction false} EarlyExit(a: Text, b: Text, i: nat, threshold: int, k: nat, j: nat)
    requires i <= k <= |a| && j <= |b|
    requires forall m: nat | m <= |b| :: Osa(a, b, i, m) > threshold
    ensures Osa(a, b, k, j) > threshold
    decreases k, j
  {
    hide Osa;
    OsaStep(a, b, k, j);
    OsaStep(a, b, i, 0);
    if k > i {
      EarlyExit(a, b, i, threshold, k - 1, j);
      if j > 0 {
        EarlyExit(a, b, i, threshold, k, j - 1);
        EarlyExit(a, b, i, threshold, k - 1, j - 1);
        if k > 1 && j > 1 {
          if k - 2 >= i {
            EarlyExit(a, b, i, threshold, k - 2, j - 2);
          } else {
            // Deleting one more character of a: row i is at most one above row i - 1.
            OsaStep(a, b, i, j - 2);
            OsaStep(a, b, i - 1, j - 2);
          }
        }
      }
    }
  }

  // ---------------------------------------------------------------------------
  // What the recurrence means: the least cost of an alignment
  // ---------------------------------------------------------------------------

  /** One column of an alignment of two texts. */
  datatype Edit =
    | Keep(c: int)
    | Change(old_: int, new_: int)
    | Insert(added: int)
    | Delete(dropped: int)
    | Swap(first: int, second: int)
  {
    function Source(): Text {
      match this
      case Keep(c) => [c]
      case Change(c, _) => [c]
      case Insert(_) => []
      case Delete(c) => [c]
      case Swap(c, d) => [c, d]
    }

    function Target(): Text {
      match this
      case Keep(c) => [c]
      case Change(_, d) => [d]
      case Insert(d) => [d]
      case Delete(_) => []
      case Swap(c, d) => [d, c]
    }

    function Price(): nat {
      if Keep? then 0 else 1
    }

    /** How many characters of the source, and of the target, the column takes. */
    function Rows(): nat {
      if Insert? then 0 else if Swap? then 2 else 1
    }

    function Columns(): nat {
      if Delete? then 0 else if Swap? then 2 else 1
    }
  }

  type Script = seq<Edit>

  function SourceOf(script: Script): Text {
    if script == [] then [] else SourceOf(script[..|script| - 1]) + script[|script| - 1].Source()
  }

  function TargetOf(script: Script): Text {
    if script == [] then [] else TargetOf(script[..|script| - 1]) + script[|script| - 1].Target()
  }

  function PriceOf(script: Script): nat {
    if script == [] then 0 else PriceOf(script[..|script| - 1]) + script[|script| - 1].Price()
  }

  /** The column can be the last one of an alignment of `a[..i]` and `b[..j]`. */
  predicate Fits(a: Text, b: Text, i: nat, j: nat, e: Edit)
    requires i <= |a| && j <= |b|
  {
    match e
    case Keep(c) => i > 0 && j > 0 && a[i - 1] == c && b[j - 1] == c
    case Change(c, d) => i > 0 && j > 0 && a[i - 1] == c && b[j - 1] == d
    case Insert(d) => j > 0 && b[j - 1] == d
    case Delete(c) => i > 0 && a[i - 1] == c
    case Swap(c, d) => i > 1 && j > 1 && a[i - 2] == c && a[i - 1] == d && b[j - 2] == d && b[j - 1] == c
  }

  lemma {:induction false} FitsMeans(a: Text, b: Text, i: nat, j: nat, e: Edit)
    requires i <= |a| && j <= |b|
    ensures Fits(a, b, i, j, e) <==>
            && e.Rows() <= i && e.Columns() <= j
            && a[..i] == a[..i - e.Rows()] + e.Source()
            && b[..j] == b[..j - e.Columns()] + e.Target()
  {
    if e.Rows() <= i && e.Columns() <= j {
      SplitPrefix(a, i, e.Source());
      SplitPrefix(b, j, e.Target());
    }
  }

  lemma {:induction false} SplitPrefix(a: Text, i: nat, tail: Text)
    requires |tail| <= i <= |a|
    ensures a[..i] == a[..i - |tail|] + tail <==> forall k | 0 <= k < |tail| :: a[i - |tail| + k] == tail[k]
  {
    if a[..i] == a[..i - |tail|] + tail {
      forall k | 0 <= k < |tail| ensures a[i - |tail| + k] == tail[k] {
        assert a[..i][i - |tail| + k] == tail[k];
      }
    }
  }

  /** The recurrence never charges more than the price of any possible last column. */
  lemma {:induction false} LastColumn(a: Text, b: Text, i: nat, j: nat, e: Edit)
    requires i <= |a| && j <= |b| && Fits(a, b, i, j, e)
    ensures Osa(a, b, i, j) <= Osa(a, b, i - e.Rows(), j - e.Columns()) + e.Price()
  {
    hide Osa;
    OsaStep(a, b, i, j);
    OsaStep(a, b, i - e.Rows(), j - e.Columns());
  }

  /** No alignment of two texts is cheaper than the recurrence. */
  lemma {:induction false} NoCheaperScript(a: Text, b: Text, i: nat, j: nat, script: Script)
    requires i <= |a| && j <= |b|
    requires SourceOf(script) == a[..i] && TargetOf(script) == b[..j]
    ensures PriceOf(script) >= Osa(a, b, i, j)
    decreases |script|
  {
    hide Osa, Fits;
    if script == [] {
      OsaStep(a, b, 0, 0);
    } else {
      var front, last := script[..|script| - 1], script[|script| - 1];
      assert |last.Source()| == last.Rows() && |last.Target()| == last.Columns();
      var p, q := i - last.Rows(), j - last.Columns();
      Front(a, i, SourceOf(front), last.Source());
      Front(b, j, TargetOf(front), last.Target());
      NoCheaperScript(a, b, p, q, front);
      FitsMeans(a, b, i, j, last);
      LastColumn(a, b, i, j, last);
    }
  }

  lemma {:induction false} Front(a: Text, i: nat, front: Text, tail: Text)
    requires i <= |a| && a[..i] == front + tail
    ensures |tail| <= i && front == a[..i - |tail|]
  {
    assert front == a[..i][..|front|];
  }

  /** Some possible last column accounts exactly for the recurrence. */
  lemma {:induction false} BestColumn(a: Text, b: Text, i: nat, j: nat) returns (e: Edit)
    requires i <= |a| && j <= |b| && i + j > 0
    ensures Fits(a, b, i, j, e)
    ensures Osa(a, b, i, j) == Osa(a, b, i - e.Rows(), j - e.Columns()) + e.Price()
  {
    hide Osa;
    OsaStep(a, b, i, j);
    if j == 0 {
      OsaStep(a, b, i - 1, 0);
      e := Delete(a[i - 1]);
    } else if i == 0 {
      OsaStep(a, b, 0, j - 1);
      e := Insert(b[j - 1]);
    } else if Osa(a, b, i, j) == Osa(a, b, i - 1, j) + 1 {
      e := Delete(a[i - 1]);
    } else if Osa(a, b, i, j) == Osa(a, b, i, j - 1) + 1 {
      e := Insert(b[j - 1]);
    } else if IsSwap(a, b, i, j) && Osa(a, b, i, j) == Osa(a, b, i - 2, j - 2) + 1 {
      e := Swap(a[i - 2], a[i - 1]);
    } else if a[i - 1] == b[j - 1] {
      e := Keep(a[i - 1]);
    } else {
      e := Change(a[i - 1], b[j - 1]);
    }
  }

  lemma {:induction false} Append(script: Script, e: Edit)
    ensures SourceOf(script + [e]) == SourceOf(script) + e.Source()
    ensures TargetOf(script + [e]) == TargetOf(script) + e.Target()
    ensures PriceOf(script + [e]) == PriceOf(script) + e.Price()
  {
    assert (script + [e])[..|script|] == script;
  }

  /** Some alignment costs exactly what the recurrence says. */
  lemma {:induction false} CheapestScript(a: Text, b: Text, i: nat, j: nat) returns (script: Script)
    requires i <= |a| && j <= |b|
    ensures SourceOf(script) == a[..i] && TargetOf(script) == b[..j]
    ensures PriceOf(script) == Osa(a, b, i, j)
    decreases i, j
  {
    if i == 0 && j == 0 {
      return [];
    }
    hide *;
    var e, p, q := BestFront(a, b, i, j);
    var front := CheapestScript(a, b, p, q);
    Append(front, e);
    script := front + [e];
  }

  lemma {:induction false} BestFront(a: Text, b: Text, i: nat, j: nat) returns (e: Edit, p: nat, q: nat)
    requires i <= |a| && j <= |b| && i + j > 0
    ensures p <= i && q <= j && p + q < i + j
    ensures a[..i] == a[..p] + e.Source() && b[..j] == b[..q] + e.Target()
    ensures Osa(a, b, i, j) == Osa(a, b, p, q) + e.Price()
  {
    hide Osa, Fits;
    e := BestColumn(a, b, i, j);
    FitsMeans(a, b, i, j, e);
    p, q := i - e.Rows(), j - e.Columns();
  }

  /** `Distance` is the minimum over all alignments: a lower bound that is attained. */
  lemma {:induction false} DistanceIsLeastCost(a: Text, b: Text)
    ensures forall s | SourceOf(s) == a && TargetOf(s) == b :: PriceOf(s) >= Distance(a, b)
    ensures exists s :: SourceOf(s) == a && TargetOf(s) == b && PriceOf(s) == Distance(a, b)
  {
    assert a[..|a|] == a && b[..|b|] == b;
    forall s | SourceOf(s) == a && TargetOf(s) == b ensures PriceOf(s) >= Distance(a, b) {
      NoCheaperScript(a, b, |a|, |b|, s);
    }
    var s := CheapestScript(a, b, |a|, |b|);
  }

  // ---------------------------------------------------------------------------
  // The number of edits
  // ---------------------------------------------------------------------------

  /** One insertion, deletion, substitution or swap somewhere in the text. */
  ghost predicate IsOneEdit(a: Text, b: Text) {
    exists p: Text, e: Edit, q: Text :: EditedBy(a, b, p, e, q)
  }

  predicate EditedBy(a: Text, b: Text, p: Text, e: Edit, q: Text) {
    !e.Keep? && a == p + e.Source() + q && b == p + e.Target() + q
  }

  /** At most `n` edits, each anywhere in what the ones before it have made of `a`. */
  ghost predicate EditsWithin(a: Text, b: Text, n: nat)
    decreases n
  {
    a == b || (n > 0 && exists c :: IsOneEdit(a, c) && EditsWithin(c, b, n - 1))
  }

  /** The script that keeps a text, edits, and keeps another text. */
  lemma {:induction false} KeepAll(script: Script, p: Text) returns (r: Script)
    ensures SourceOf(r) == SourceOf(script) + p && TargetOf(r) == TargetOf(script) + p
    ensures PriceOf(r) == PriceOf(script)
  {
    hide SourceOf, TargetOf, PriceOf;
    r := script;
    if p == [] {
      assert SourceOf(script) + p == SourceOf(script) && TargetOf(script) + p == TargetOf(script);
    } else {
      var front, c := p[..|p| - 1], p[|p| - 1];
      r := KeepAll(script, front);
      Append(r, Keep(c));
      r := r + [Keep(c)];
      assert p == front + [c];
      assert SourceOf(script) + front + [c] == SourceOf(script) + (front + [c]);
      assert TargetOf(script) + front + [c] == TargetOf(script) + (front + [c]);
    }
  }

  lemma {:induction false} OneEditIsNear(a: Text, b: Text)
    requires IsOneEdit(a, b)
    ensures Distance(a, b) <= 1
  {
    var p, e, q :| EditedBy(a, b, p, e, q);
    var kept := KeepAll([], p);
    Append(kept, e);
    var script := KeepAll(kept + [e], q);
    hide SourceOf, TargetOf, PriceOf, Osa;
    assert a[..|a|] == a && b[..|b|] == b && [] + p == p;
    NoCheaperScript(a, b, |a|, |b|, script);
  }

  lemma {:induction false} NearIsOneEdit(script: Script)
    requires PriceOf(script) == 1
    ensures IsOneEdit(SourceOf(script), TargetOf(script))
  {
    var front, last := script[..|script| - 1], script[|script| - 1];
    if last.Keep? {
      NearIsOneEdit(front);
      var p, e, q :| EditedBy(SourceOf(front), TargetOf(front), p, e, q);
      AppendBoth(p, e, q, SourceOf(front), TargetOf(front), [last.c]);
    } else {
      FreeIsSame(front);
      var p := SourceOf(front);
      assert p + last.Source() + [] == p + last.Source() && p + last.Target() + [] == p + last.Target();
      assert EditedBy(SourceOf(script), TargetOf(script), p, last, []);
    }
  }

  lemma {:induction false} AppendBoth(p: Text, e: Edit, q: Text, a: Text, b: Text, tail: Text)
    requires EditedBy(a, b, p, e, q)
    ensures EditedBy(a + tail, b + tail, p, e, q + tail)
  {
    assert p + e.Source() + q + tail == p + e.Source() + (q + tail);
    assert p + e.Target() + q + tail == p + e.Target() + (q + tail);
  }

  lemma {:induction false} FreeIsSame(script: Script)
    requires PriceOf(script) == 0
    ensures SourceOf(script) == TargetOf(script)
  {
    if script != [] {
      FreeIsSame(script[..|script| - 1]);
    }
  }

  lemma {:induction false} OneEditAppended(a: Text, b: Text, tail: Text)
    requires IsOneEdit(a, b)
    ensures IsOneEdit(a + tail, b + tail)
  {
    var p, e, q :| EditedBy(a, b, p, e, q);
    AppendBoth(p, e, q, a, b, tail);
  }

  lemma {:induction false} EditsAppended(a: Text, b: Text, n: nat, tail: Text)
    requires EditsWithin(a, b, n)
    ensures EditsWithin(a + tail, b + tail, n)
    decreases n
  {
    hide IsOneEdit;
    if a != b {
      var c :| IsOneEdit(a, c) && EditsWithin(c, b, n - 1);
      OneEditAppended(a, c, tail);
      EditsAppended(c, b, n - 1, tail);
    }
  }

  lemma {:induction false} OneMoreEdit(a: Text, b: Text, c: Text, n: nat)
    requires EditsWithin(a, b, n) && IsOneEdit(b, c)
    ensures EditsWithin(a, c, n + 1)
    decreases n
  {
    hide IsOneEdit;
    if a == b {
      assert EditsWithin(c, c, n);
    } else {
      var d :| IsOneEdit(a, d) && EditsWithin(d, b, n - 1);
      OneMoreEdit(d, b, c, n - 1);
    }
  }

  lemma {:induction false} MoreEdits(a: Text, b: Text, m: nat, n: nat)
    requires EditsWithin(a, b, m) && m <= n
    ensures EditsWithin(a, b, n)
    decreases m
  {
    hide IsOneEdit;
    if a != b {
      var c :| IsOneEdit(a, c) && EditsWithin(c, b, m - 1);
      MoreEdits(c, b, m - 1, n - 1);
    }
  }

  /** An alignment can be carried out edit by edit, as many as it costs. */
  lemma {:induction false} ScriptIsEdits(script: Script)
    ensures EditsWithin(SourceOf(script), TargetOf(script), PriceOf(script))
  {
    if script != [] {
      var front, last := script[..|script| - 1], script[|script| - 1];
      ScriptIsEdits(front);
      var a, b, n := SourceOf(front), TargetOf(front), PriceOf(front);
      EditsAppended(a, b, n, last.Source());
      if !last.Keep? {
        assert b + last.Source() + [] == b + last.Source() && b + last.Target() + [] == b + last.Target();
        assert EditedBy(b + last.Source(), b + last.Target(), b, last, []);
        hide EditsWithin;
        OneMoreEdit(a + last.Source(), b + last.Source(), b + last.Target(), n);
      }
    }
  }

  /** The minimum number of edits never exceeds the distance. */
  lemma {:induction false} DistanceIsEdits(a: Text, b: Text, n: nat)
    requires Distance(a, b) <= n
    ensures EditsWithin(a, b, n)
  {
    hide Osa, EditsWithin;
    var script := CheapestScript(a, b, |a|, |b|);
    assert a[..|a|] == a && b[..|b|] == b;
    ScriptIsEdits(script);
    MoreEdits(a, b, Distance(a, b), n);
  }

  /** Up to one edit, the distance counts exactly. */
  lemma {:induction false} OneEditIsExact(a: Text, b: Text, n: nat)
    requires n <= 1
    ensures EditsWithin(a, b, n) <==> Distance(a, b) <= n
  {
    hide Osa, IsOneEdit;
    if Distance(a, b) <= n {
      DistanceIsEdits(a, b, n);
    } else if EditsWithin(a, b, n) {
      SameIsNear(a);
      if a != b {
        OneEditIsNear(a, b);
      }
    }
  }

  lemma {:induction false} SameIsNear(a: Text)
    ensures Distance(a, a) == 0
  {
    var script := KeepAll([], a);
    hide Osa;
    assert a[..|a|] == a && [] + a == a;
    assert SourceOf(script) == a && TargetOf(script) == a;
    NoCheaperScript(a, a, |a|, |a|, script);
  }

  /**
   Two edits can do with less: "ca" becomes "ac" by one swap and "ac" becomes "abc" by one
   insertion, yet the distance from "ca" to "abc" is three, because an alignment never
   edits inside a pair it has swapped.
   */
  lemma {:induction false} NotTheMinimumNumberOfEdits()
    ensures var c, a, b := 'c' as int, 'a' as int, 'b' as int;
            && Distance([c, a], [a, c]) == 1
            && Distance([a, c], [a, b, c]) == 1
            && Distance([c, a], [a, b, c]) == 3
            && EditsWithin([c, a], [a, b, c], 2)
  {
    var c, a, b := 'c' as int, 'a' as int, 'b' as int;
    var u, v, w := [c, a], [a, c], [a, b, c];
    assert EditedBy(u, v, [], Swap(c, a), []);
    assert EditedBy(v, w, [a], Insert(b), [c]);
    assert IsOneEdit(u, v) && IsOneEdit(v, w);
    assert EditsWithin(w, w, 0);
    assert EditsWithin(v, w, 1);
    assert Osa(u, v, 1, 1) == 1 && Osa(u, v, 1, 2) == 1 && Osa(u, v, 2, 1) == 1;
    assert Osa(v, w, 1, 1) == 0 && Osa(v, w, 1, 2) == 1 && Osa(v, w, 1, 3) == 2;
    assert Osa(v, w, 2, 1) == 1 && Osa(v, w, 2, 2) == 1;
    assert Osa(u, w, 1, 1) == 1 && Osa(u, w, 1, 2) == 2 && Osa(u, w, 1, 3) == 2;
    assert Osa(u, w, 2, 1) == 1 && Osa(u, w, 2, 2) == 2;
  }

  // ---------------------------------------------------------------------------
  // What `measure` answers
  // ---------------------------------------------------------------------------

  /** `TooFar` is the source's None; `IndexError` is the exception on a short row. */
  datatype Measured = Within(distance: int) | TooFar | IndexError

  /** The answer for two texts that differ, given that the rows are long enough. */
  function Answer(a: Text, b: Text, threshold: int): Measured {
    if Distance(a, b) <= threshold then Within(Distance(a, b)) else TooFar
  }

  /** The length cut-off changes no answer. */
  lemma {:induction false} CutOffIsTooFar(a: Text, b: Text, threshold: int)
    ensures |a| - |b| > threshold || |b| - |a| > threshold ==> Answer(a, b, threshold) == TooFar
  {
    hide Osa;
    LengthCutOff(a, b, |a|, |b|);
  }

  /** The answer is the minimum number of edits, or that this exceeds the threshold. */
  ghost predicate CountsEdits(a: Text, b: Text, threshold: int, r: Measured) {
    match r
    case Within(n) =>
      && 0 <= n <= threshold && EditsWithin(a, b, n)
      && forall m: nat | m < n :: !EditsWithin(a, b, m)
    case TooFar => forall m: nat | m <= threshold :: !EditsWithin(a, b, m)
    case IndexError => false
  }

  /** For thresholds up to one the answer is the minimum number of edits. */
  lemma {:induction false} SmallThresholdCounts(a: Text, b: Text, threshold: int)
    requires threshold <= 1
    ensures CountsEdits(a, b, threshold, Answer(a, b, threshold))
  {
    hide Osa, EditsWithin;
    forall n: nat | n <= 1 ensures EditsWithin(a, b, n) <==> Distance(a, b) <= n {
      OneEditIsExact(a, b, n);
    }
  }

  /**
   The class comment promises the minimum number of edits. For all texts that is what is
   answered exactly when the threshold is at most one: from two on, "ca" and "abc" are
   answered wrongly.
   */
  lemma {:induction false} CountsEditsIff(threshold: int)
    ensures (forall a, b :: CountsEdits(a, b, threshold, Answer(a, b, threshold))) <==> threshold <= 1
  {
    hide Distance, EditsWithin, Answer, CountsEdits;
    if threshold <= 1 {
      forall a, b ensures CountsEdits(a, b, threshold, Answer(a, b, threshold)) {
        SmallThresholdCounts(a, b, threshold);
      }
    } else {
      LargeThresholdMiscounts(threshold);
    }
  }

  lemma {:induction false} LargeThresholdMiscounts(threshold: int)
    requires threshold >= 2
    ensures var c, a, b := 'c' as int, 'a' as int, 'b' as int;
            !CountsEdits([c, a], [a, b, c], threshold, Answer([c, a], [a, b, c], threshold))
  {
    hide Distance, EditsWithin;
    NotTheMinimumNumberOfEdits();
  }

  // ---------------------------------------------------------------------------
  // The class
  // ---------------------------------------------------------------------------

  class LexicalDistance {
    const lower: Text -> Text
    const input: Text
    const inputLowerCase: Text
    const rows: seq<array<int>>

    ghost predicate Valid() {
      && inputLowerCase == lower(input)
      && |rows| == 3
      && rows[0] != rows[1] && rows[0] != rows[2] && rows[1] != rows[2]
      && forall k | 0 <= k < 3 :: rows[k].Length == |input| + 1
    }

    constructor (lower: Text -> Text, input: Text)
      ensures Valid() && this.lower == lower && this.input == input
      ensures fresh(rows[0]) && fresh(rows[1]) && fresh(rows[2])
    {
      this.lower := lower;
      this.input := input;
      this.inputLowerCase := lower(input);
      var r0 := new int[|input| + 1](_ => 0);
      var r1 := new int[|input| + 1](_ => 0);
      var r2 := new int[|input| + 1](_ => 0);
      this.rows := [r0, r1, r2];
    }

    /**
     Equal texts measure 0 and texts equal up to case measure 1, whatever the threshold.
     Otherwise the answer is the distance of the lowered texts when that is within the
     threshold.  The rows were sized for the raw input, so the shorter lowered text
     has to fit in them: lowering can lengthen a text.
     */
    method Measure(option: Text, threshold: int) returns (r: Measured)
      requires Valid()
      modifies rows
      ensures Valid()
      ensures input == option ==> r == Within(0)
      ensures input != option && lower(input) == lower(option) ==> r == Within(1)
      ensures input != option && lower(input) != lower(option) ==>
                var x, y := lower(option), lower(input);
                var areClose := |x| - |y| <= threshold && |y| - |x| <= threshold;
                r == if areClose && Min(|x|, |y|) > |input| then IndexError else Answer(x, y, threshold)
    {
      hide Osa, Distance;
      if input == option {
        return Within(0);
      }
      var optionLowerCase := lower(option);
      if inputLowerCase == optionLowerCase {
        return Within(1);
      }
      var a, b := optionLowerCase, inputLowerCase;
      CutOffIsTooFar(a, b, threshold);
      if |a| < |b| {
        DistanceSymmetric(a, b);
        a, b := b, a;
      }
      if |a| - |b| > threshold {
        return TooFar;
      }
      if |b| + 1 > rows[0].Length {
        return IndexError;
      }
      for j := 0 to |b| + 1
        invariant forall m | 0 <= m < j :: rows[0][m] == m
      {
        rows[0][j] := j;
      }
      forall m: nat | m <= |b| ensures Osa(a, b, 0, m) == m {
        OsaStep(a, b, 0, m);
      }
      for i := 1 to |a| + 1
        invariant HoldsRow(rows[(i - 1) % 3], a, b, i - 1)
        invariant i >= 2 ==> HoldsRow(rows[(i - 2) % 3], a, b, i - 2)
      {
        var smallestCell := FillRow(a, b, i);
        if smallestCell > threshold {
          EarlyExit(a, b, i, threshold, |a|, |b|);
          DistanceIs(a, b);
          return TooFar;
        }
      }
      DistanceIs(a, b);
      var distance := rows[|a| % 3][|b|];
      return if distance <= threshold then Within(distance) else TooFar;
    }

    lemma {:induction false} RowsApart(i: nat)
      requires Valid() && i >= 1
      ensures rows[(i - 1) % 3] != rows[i % 3]
      ensures i >= 2 ==> rows[(i - 2) % 3] != rows[i % 3]
    {
    }

    /** The inner loop of `measure`: one row from the two before it, and a bound on its cells. */
    method FillRow(a: Text, b: Text, i: nat) returns (smallestCell: int)
      requires Valid() && |b| <= |input| && 1 <= i <= |a|
      requires HoldsRow(rows[(i - 1) % 3], a, b, i - 1)
      requires i >= 2 ==> HoldsRow(rows[(i - 2) % 3], a, b, i - 2)
      modifies rows[i % 3]
      ensures Valid() && HoldsRow(rows[i % 3], a, b, i)
      ensures forall m: nat | m <= |b| :: smallestCell <= Osa(a, b, i, m)
    {
      hide Osa;
      var upRow, currentRow := rows[(i - 1) % 3], rows[i % 3];
      RowsApart(i);
      smallestCell := i;
      currentRow[0] := i;
      OsaStep(a, b, i, 0);
      for j := 1 to |b| + 1
        invariant HoldsRow(upRow, a, b, i - 1)
        invariant i >= 2 ==> HoldsRow(rows[(i - 2) % 3], a, b, i - 2)
        invariant forall m: nat | m < j :: currentRow[m] == Osa(a, b, i, m)
        invariant forall m: nat | m < j :: smallestCell <= Osa(a, b, i, m)
      {
        OsaStep(a, b, i, j);
        var cost := if a[i - 1] == b[j - 1] then 0 else 1;
        var currentCell := Min(Min(upRow[j] + 1, currentRow[j - 1] + 1), upRow[j - 1] + cost);
        if i > 1 && j > 1 && a[i - 1] == b[j - 2] && a[i - 2] == b[j - 1] {
          var doubleDiagonalCell := rows[(i - 2) % 3][j - 2];
          currentCell := Min(currentCell, doubleDiagonalCell + 1);
        }
        smallestCell := Min(currentCell, smallestCell);
        currentRow[j] := currentCell;
      }
    }

    ghost predicate HoldsRow(row: array<int>, a: Text, b: Text, i: nat)
      reads row
    {
      && i <= |a|
      && row.Length > |b|
      && forall m: nat | m <= |b| :: row[m] == Osa(a, b, i, m)
    }
  }
}
