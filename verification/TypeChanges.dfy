/**
 Which changes of a field's or argument's type are safe: the two checks of
 `find_schema_changes`, against what types mean.
 */
module TypeChanges {
  import opened TypeRefs

  /** A type never wraps a non-null type in a non-null one. */
  predicate IsType(t: TypeRef) {
    match t
    case Named(_) => true
    case ListOf(item) => IsType(item)
    case NonNull(inner) => !inner.NonNull? && IsType(inner)
  }

  /** `is_change_safe_for_object_or_interface_field` */
  predicate IsSafeForOutput(before: TypeRef, after: TypeRef)
    decreases before, after
  {
    match before
    case ListOf(item) =>
      || (after.ListOf? && IsSafeForOutput(item, after.item))
      || (after.NonNull? && IsSafeForOutput(before, after.inner))
    case NonNull(inner) => after.NonNull? && IsSafeForOutput(inner, after.inner)
    case Named(name) =>
      || (after.Named? && name == after.name)
      || (after.NonNull? && IsSafeForOutput(before, after.inner))
  }

  /** `is_change_safe_for_input_object_field_or_field_arg` */
  predicate IsSafeForInput(before: TypeRef, after: TypeRef)
    decreases before, after
  {
    match before
    case ListOf(item) => after.ListOf? && IsSafeForInput(item, after.item)
    case NonNull(inner) =>
      || (after.NonNull? && IsSafeForInput(inner, after.inner))
      || (!after.NonNull? && IsSafeForInput(inner, after))
    case Named(name) => after.Named? && name == after.name
  }

  // ---------------------------------------------------------------------------
  // What types mean
  // ---------------------------------------------------------------------------

  /** A value: null, a list, or something that named types tell apart. */
  datatype Value = Null | Other(id: int) | List(items: seq<Value>)

  /**
   A meaning of the named types: which values, other than null and lists, each of them
   has. Lists may be values of scalar types too.
   */
  type Meaning = (Name, Value) -> bool

  /** The value is one that a field of the type can have in a response. */
  predicate HasValue(m: Meaning, t: TypeRef, v: Value)
    decreases t
  {
    match t
    case NonNull(inner) => !v.Null? && HasValue(m, inner, v)
    case ListOf(item) => v.Null? || (v.List? && forall i | 0 <= i < |v.items| :: HasValue(m, item, v.items[i]))
    case Named(name) => v.Null? || m(name, v)
  }

  /** Whatever the named types mean, every value of the new type is one of the old type. */
  ghost predicate IsNarrower(before: TypeRef, after: TypeRef) {
    forall m: Meaning, v: Value :: HasValue(m, after, v) ==> HasValue(m, before, v)
  }

  lemma {:induction false} SafeIsNarrower(before: TypeRef, after: TypeRef, m: Meaning, v: Value)
    requires IsSafeForOutput(before, after) && HasValue(m, after, v)
    ensures HasValue(m, before, v)
    decreases before, after
  {
    if after.NonNull? && !before.NonNull? {
      SafeIsNarrower(before, after.inner, m, v);
    } else {
      match before
      case ListOf(item) =>
        if v.List? {
          forall i | 0 <= i < |v.items| ensures HasValue(m, item, v.items[i]) {
            SafeIsNarrower(item, after.item, m, v.items[i]);
          }
        }
      case NonNull(inner) => SafeIsNarrower(inner, after.inner, m, v);
      case Named(_) =>
    }
  }

  /** A change that is not safe has a meaning and a value of the new type that the old one lacks. */
  lemma {:induction false} UnsafeIsNotNarrower(before: TypeRef, after: TypeRef) returns (m: Meaning, v: Value)
    requires IsType(before) && IsType(after) && !IsSafeForOutput(before, after)
    ensures HasValue(m, after, v) && !HasValue(m, before, v)
    decreases before, after
  {
    m, v := (_, _) => true, Null;
    match before
    case NonNull(inner) =>
      if after.NonNull? {
        m, v := UnsafeIsNotNarrower(inner, after.inner);
      } else {
        assert HasValue(m, after, v);
      }
    case ListOf(item) =>
      match after {
        case NonNull(a) => m, v := UnsafeIsNotNarrower(before, a);
        case ListOf(a) =>
          var x;
          m, x := UnsafeIsNotNarrower(item, a);
          v := List([x]);
          assert v.items[0] == x;
        case Named(_) => v := Other(0);
      }
    case Named(name) =>
      match after {
        case NonNull(a) => m, v := UnsafeIsNotNarrower(before, a);
        case ListOf(a) => m, v := (_, _) => false, List([]);
        case Named(k) => m, v := (n, _) => n == k, Other(0);
      }
  }

  /** The check for output types holds exactly when the new type has no more values, whatever the named types mean. */
  lemma {:induction false} OutputCheckIsExact(before: TypeRef, after: TypeRef)
    requires IsType(before) && IsType(after)
    ensures IsSafeForOutput(before, after) <==> IsNarrower(before, after)
  {
    if IsSafeForOutput(before, after) {
      forall m: Meaning, v: Value | HasValue(m, after, v) ensures HasValue(m, before, v) {
        SafeIsNarrower(before, after, m, v);
      }
    } else {
      var m, v := UnsafeIsNotNarrower(before, after);
    }
  }

  // ---------------------------------------------------------------------------
  // Input types
  // ---------------------------------------------------------------------------

  /** Coercion accepts the value: a list type also takes a single value for a list of one. */
  predicate Accepts(m: Meaning, t: TypeRef, v: Value)
    decreases t
  {
    match t
    case NonNull(inner) => !v.Null? && Accepts(m, inner, v)
    case ListOf(item) =>
      || v.Null?
      || (if v.List? then forall i | 0 <= i < |v.items| :: Accepts(m, item, v.items[i]) else Accepts(m, item, v))
    case Named(name) => v.Null? || m(name, v)
  }

  ghost predicate IsWider(before: TypeRef, after: TypeRef) {
    forall m: Meaning, v: Value :: Accepts(m, before, v) ==> Accepts(m, after, v)
  }

  lemma {:induction false} SafeIsWider(before: TypeRef, after: TypeRef, m: Meaning, v: Value)
    requires IsSafeForInput(before, after) && Accepts(m, before, v)
    ensures Accepts(m, after, v)
    decreases before, after
  {
    match before
    case ListOf(item) =>
      if v.List? {
        forall i | 0 <= i < |v.items| ensures Accepts(m, after.item, v.items[i]) {
          SafeIsWider(item, after.item, m, v.items[i]);
        }
      } else if !v.Null? {
        SafeIsWider(item, after.item, m, v);
      }
    case NonNull(inner) =>
      if after.NonNull? {
        SafeIsWider(inner, after.inner, m, v);
      } else {
        SafeIsWider(inner, after, m, v);
      }
    case Named(_) =>
  }

  lemma {:induction false} UnsafeIsNotWider(before: TypeRef, after: TypeRef) returns (m: Meaning, v: Value)
    requires IsType(before) && IsType(after) && !IsSafeForInput(before, after)
    ensures Accepts(m, before, v) && !Accepts(m, after, v)
    decreases before, after
  {
    m, v := (_, _) => true, Null;
    match before
    case NonNull(inner) =>
      if after.NonNull? {
        m, v := UnsafeIsNotWider(inner, after.inner);
      } else {
        m, v := UnsafeIsNotWider(inner, after);
      }
    case ListOf(item) =>
      match after {
        case NonNull(_) =>
        case ListOf(a) =>
          var x;
          m, x := UnsafeIsNotWider(item, a);
          v := List([x]);
          assert v.items[0] == x;
        case Named(_) => m, v := (_, _) => false, List([]);
      }
    case Named(name) =>
      match after {
        case NonNull(_) =>
        case ListOf(a) =>
          m, v := (_, x: Value) => x.List?, List([Other(0)]);
          assert v.items[0] == Other(0);
          OnlyLists(m, a);
        case Named(k) => m, v := (n, _) => n == name, Other(0);
      }
  }

  /** Where all that named types have are lists, no type accepts anything else but null. */
  lemma {:induction false} OnlyLists(m: Meaning, t: TypeRef)
    requires forall n, x :: m(n, x) == x.List?
    ensures !Accepts(m, t, Other(0))
    decreases t
  {
    match t
    case NonNull(inner) => OnlyLists(m, inner);
    case ListOf(item) => OnlyLists(m, item);
    case Named(_) =>
  }

  /**
   The check for input types holds exactly when the new type accepts everything that the
   old one does, whatever the named types mean.
   */
  lemma {:induction false} InputCheckIsExact(before: TypeRef, after: TypeRef)
    requires IsType(before) && IsType(after)
    ensures IsSafeForInput(before, after) <==> IsWider(before, after)
  {
    if IsSafeForInput(before, after) {
      forall m: Meaning, v: Value | Accepts(m, before, v) ensures Accepts(m, after, v) {
        SafeIsWider(before, after, m, v);
      }
    } else {
      var m, v := UnsafeIsNotWider(before, after);
    }
  }

  // ---------------------------------------------------------------------------
  // Where named types take no lists
  // ---------------------------------------------------------------------------

  ghost predicate IsListFree(m: Meaning) {
    forall n, items :: !m(n, List(items))
  }

  ghost predicate IsWiderWithoutLists(before: TypeRef, after: TypeRef) {
    forall m: Meaning, v: Value | IsListFree(m) && Accepts(m, before, v) :: Accepts(m, after, v)
  }

  /** The check for input types, with the rule that a list of what a type takes takes it too. */
  predicate IsSafeWithoutLists(before: TypeRef, after: TypeRef)
    decreases after, before
  {
    match before
    case ListOf(item) => after.ListOf? && IsSafeWithoutLists(item, after.item)
    case NonNull(inner) => IsSafeWithoutLists(inner, if after.NonNull? then after.inner else after)
    case Named(name) =>
      || (after.Named? && name == after.name)
      || (after.ListOf? && IsSafeWithoutLists(NonNull(before), after.item))
  }

  lemma {:induction false} SafeIsWiderWithoutLists(before: TypeRef, after: TypeRef, m: Meaning, v: Value)
    requires IsSafeWithoutLists(before, after) && IsListFree(m) && Accepts(m, before, v)
    ensures Accepts(m, after, v)
    decreases after, before
  {
    match before
    case ListOf(item) =>
      if v.List? {
        forall i | 0 <= i < |v.items| ensures Accepts(m, after.item, v.items[i]) {
          SafeIsWiderWithoutLists(item, after.item, m, v.items[i]);
        }
      } else if !v.Null? {
        SafeIsWiderWithoutLists(item, after.item, m, v);
      }
    case NonNull(inner) => SafeIsWiderWithoutLists(inner, if after.NonNull? then after.inner else after, m, v);
    case Named(_) =>
      if after.ListOf? && !v.Null? {
        SafeIsWiderWithoutLists(NonNull(before), after.item, m, v);
      }
  }

  lemma {:induction false} UnsafeIsNotWiderWithoutLists(before: TypeRef, after: TypeRef) returns (m: Meaning, v: Value)
    requires IsType(before) && IsType(after) && !IsSafeWithoutLists(before, after)
    ensures IsListFree(m) && Accepts(m, before, v) && !Accepts(m, after, v)
    decreases after, before
  {
    m, v := (_, _) => false, Null;
    match before
    case NonNull(inner) =>
      m, v := UnsafeIsNotWiderWithoutLists(inner, if after.NonNull? then after.inner else after);
    case ListOf(item) =>
      match after {
        case NonNull(_) =>
        case ListOf(a) =>
          var x;
          m, x := UnsafeIsNotWiderWithoutLists(item, a);
          v := List([x]);
          assert v.items[0] == x;
        case Named(_) => v := List([]);
      }
    case Named(name) =>
      match after {
        case NonNull(_) =>
        case ListOf(a) => m, v := UnsafeIsNotWiderWithoutLists(NonNull(before), a);
        case Named(_) => m, v := (n, x: Value) => n == name && x.Other?, Other(0);
      }
  }

  /**
   The check is this strict because scalars may take lists. Where no named type does, a
   change of an input type loses nothing exactly when the check with one more rule holds.
   */
  lemma {:induction false} CheckWithoutListsIsExact(before: TypeRef, after: TypeRef)
    requires IsType(before) && IsType(after)
    ensures IsSafeWithoutLists(before, after) <==> IsWiderWithoutLists(before, after)
    ensures IsSafeForInput(before, after) ==> IsSafeWithoutLists(before, after)
  {
    if IsSafeWithoutLists(before, after) {
      forall m: Meaning, v: Value | IsListFree(m) && Accepts(m, before, v) ensures Accepts(m, after, v) {
        SafeIsWiderWithoutLists(before, after, m, v);
      }
    } else {
      var m, v := UnsafeIsNotWiderWithoutLists(before, after);
      if IsSafeForInput(before, after) {
        SafeIsWider(before, after, m, v);
      }
    }
  }

  function ListDepth(t: TypeRef): nat {
    match t
    case Named(_) => 0
    case ListOf(item) => ListDepth(item) + 1
    case NonNull(inner) => ListDepth(inner)
  }

  lemma {:induction false} SafeKeepsDepth(before: TypeRef, after: TypeRef)
    requires IsSafeForInput(before, after)
    ensures ListDepth(before) == ListDepth(after)
    decreases before, after
  {
    match before
    case ListOf(item) => SafeKeepsDepth(item, after.item);
    case NonNull(inner) => SafeKeepsDepth(inner, if after.NonNull? then after.inner else after);
    case Named(_) =>
  }

  /** No list that is non-null, in the type, has items that can be null. */
  predicate NullItemsInNullableLists(t: TypeRef) {
    match t
    case Named(_) => true
    case ListOf(item) => NullItemsInNullableLists(item)
    case NonNull(inner) => NullItemsInNullableLists(inner) && (inner.ListOf? ==> inner.item.NonNull?)
  }

  /**
   In particular the change from a type to lists of it is always called unsafe; where no
   named type takes lists it loses nothing, unless a null item would have to be wrapped
   into a list that is non-null.
   */
  lemma {:induction false} ListsOfATypeAcceptIt(t: TypeRef)
    requires IsType(t)
    ensures !IsSafeForInput(t, ListOf(t))
    ensures IsSafeWithoutLists(t, ListOf(t)) <==> NullItemsInNullableLists(t)
    decreases t
  {
    if IsSafeForInput(t, ListOf(t)) {
      SafeKeepsDepth(t, ListOf(t));
    }
    match t
    case Named(_) => assert IsSafeWithoutLists(NonNull(t), t);
    case ListOf(item) => ListsOfATypeAcceptIt(item);
    case NonNull(inner) =>
      assert IsSafeWithoutLists(t, ListOf(t)) == IsSafeWithoutLists(inner, ListOf(t));
      if inner.Named? {
        assert IsSafeWithoutLists(inner, inner) && IsSafeWithoutLists(t, t);
      } else {
        assert IsSafeWithoutLists(inner, ListOf(t)) == IsSafeWithoutLists(inner.item, t);
        if inner.item.NonNull? {
          ListsOfATypeAcceptIt(inner.item);
        }
      }
  }
}
