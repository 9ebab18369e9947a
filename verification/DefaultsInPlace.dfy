/** SetDefaults as it runs: over structs in memory, following pointers and writing the fields in place. */
module DefaultsInPlace {
  import opened Quantities
  import opened Defaults
  import opened Text

  datatype Outcome = Done | Failed | Panicked

  function OutcomeOf<T>(r: Result<T>): Outcome {
    match r
    case Ok(_) => Done
    case Error => Failed
    case Panic => Panicked
  }

  /**
   A struct in memory. SetDefaults writes what its fields hold, and no pointer to a struct; `tree` is its value and
   `repr` the structs that it reaches.
   */
  class Node {
    const tags: seq<Option<string>>
    const kids: seq<seq<Node?>>
    var kinds: seq<Kind>
    ghost const repr: set<Node>
    ghost var tree: Tree

    predicate IsKid(i: int, k: int) {
      0 <= i < |kids| && 0 <= k < |kids[i]| && kids[i][k] != null
    }

    function KidAt(i: int, k: int): Node
      requires IsKid(i, k)
    {
      kids[i][k]
    }

    /** The reached structs form a finite tree. */
    ghost predicate Shaped() {
      && this in repr
      && (forall i, k :: IsKid(i, k) ==> KidAt(i, k) in KidAt(i, k).repr && KidAt(i, k).repr <= repr - {this})
      && (forall i, k, j, l :: IsKid(i, k) && IsKid(j, l) && (i != j || k != l) ==>
            KidAt(i, k).repr !! KidAt(j, l).repr)
    }

    ghost predicate Valid()
      reads this, repr
      decreases repr
    {
      && Shaped()
      && (forall i, k :: IsKid(i, k) ==> KidAt(i, k).Valid())
      && tree.Struct? && |tags| == |kids| == |kinds| == |tree.fields|
      && forall i :: 0 <= i < |kids| ==>
           && tree.fields[i].tag == tags[i] && tree.fields[i].kind == kinds[i] && |tree.fields[i].kids| == |kids[i]|
           && forall k :: 0 <= k < |kids[i]| ==>
                tree.fields[i].kids[k] == if IsKid(i, k) then KidAt(i, k).tree else Nil
    }
  }

  ghost function ValueOf(n: Node?): Tree
    reads n
  {
    if n == null then Nil else n.tree
  }

  ghost function Reach(n: Node?): set<Node> {
    if n == null then {} else n.repr
  }

  ghost predicate ValidPointer(n: Node?)
    reads n, Reach(n)
  {
    n != null ==> n.Valid()
  }

  method SetDefaults(n: Node?) returns (r: Outcome)
    requires ValidPointer(n)
    modifies Reach(n)
    ensures ValidPointer(n)
    ensures r == OutcomeOf(Defaulted(old(ValueOf(n))))
    ensures r.Done? ==> ValueOf(n) == Defaulted(old(ValueOf(n))).value
    decreases Reach(n), 4
  {
    if n == null {
      return Panicked;
    }
    ghost var fs := n.tree.fields;
    for i := 0 to |n.kids|
      invariant n.Valid() && |fs| == |n.kids|
      invariant FieldsDefaulted(fs, i) == Ok(n.tree.fields[..i]) && n.tree.fields[i..] == fs[i..]
    {
      ghost var before := n.tree.fields;
      SameFrom(before, fs, i);
      r := SetDefaultToField(n, i);
      if r != Done {
        FailureStays(fs, i + 1);
        return;
      }
      UpdateMoves(before, i, FieldDefaulted(fs[i]).value);
    }
    assert n.tree.fields[..|fs|] == n.tree.fields;
    r := Done;
  }

  lemma SameFrom<T>(s: seq<T>, t: seq<T>, i: nat)
    requires i < |s| == |t| && s[i..] == t[i..]
    ensures s[i] == t[i] && s[i + 1..] == t[i + 1..]
  {
    assert s[i] == s[i..][0] && t[i] == t[i..][0];
    assert s[i + 1..] == s[i..][1..] && t[i + 1..] == t[i..][1..];
  }

  lemma UpdateMoves<T>(s: seq<T>, i: nat, x: T)
    requires i < |s|
    ensures s[i := x][..i + 1] == s[..i] + [x] && s[i := x][i + 1..] == s[i + 1..]
  {
  }

  lemma {:induction false} FailureStays(fs: seq<Field>, n: nat)
    requires n <= |fs| && !FieldsDefaulted(fs, n).Ok?
    ensures FieldsDefaulted(fs, |fs|) == FieldsDefaulted(fs, n)
    decreases |fs| - n
  {
    if n < |fs| {
      FailureStays(fs, n + 1);
    }
  }

  method SetDefaultToField(n: Node, i: nat) returns (r: Outcome)
    requires n.Valid() && i < |n.kids|
    modifies n.repr
    ensures n.Valid()
    ensures r == OutcomeOf(FieldDefaulted(old(n.tree.fields[i])))
    ensures r.Done? ==> n.tree.fields == old(n.tree.fields)[i := FieldDefaulted(old(n.tree.fields[i])).value]
    decreases n.repr, 3
  {
    if HasElements(n.kinds[i], |n.kids[i]|) {
      r := SetDefaultsToSlice(n, i);
    } else if n.kinds[i].BoolPtr? || n.kinds[i].OtherPtr? || n.kinds[i].StructPtr? {
      r := SetDefaultToPtr(n, i);
    } else {
      r := SetDefaultToBasicType(n, i);
    }
  }

  method SetDefaultToPtr(n: Node, i: nat) returns (r: Outcome)
    requires n.Valid() && i < |n.kids| && (n.kinds[i].BoolPtr? || n.kinds[i].OtherPtr? || n.kinds[i].StructPtr?)
    modifies n.repr
    ensures n.Valid()
    ensures r == OutcomeOf(FieldDefaulted(old(n.tree.fields[i])))
    ensures r.Done? ==> n.tree.fields == old(n.tree.fields)[i := FieldDefaulted(old(n.tree.fields[i])).value]
    decreases n.repr, 2
  {
    var kind, tag := n.kinds[i], n.tags[i];
    if kind.StructPtr? {
      r := SetDefaultsToSlice(n, i);
    } else {
      if kind.BoolPtr? && kind.p.None? {
        if tag.None? {
          SetKind(n, i, BoolPtr(Some(false)));
        } else if tag.value == "true" {
          SetKind(n, i, BoolPtr(Some(true)));
        } else {
          SetKind(n, i, BoolPtr(Some(false)));
        }
      }
      r := Done;
    }
  }

  method SetDefaultToBasicType(n: Node, i: nat) returns (r: Outcome)
    requires n.Valid() && i < |n.kids|
    requires !n.kinds[i].BoolPtr? && !n.kinds[i].OtherPtr? && !n.kinds[i].StructPtr?
    requires !HasElements(n.kinds[i], |n.kids[i]|)
    modifies n
    ensures n.Valid()
    ensures r == OutcomeOf(FieldDefaulted(old(n.tree.fields[i])))
    ensures r.Done? ==> n.tree.fields == old(n.tree.fields)[i := FieldDefaulted(old(n.tree.fields[i])).value]
  {
    var kind, tag := n.kinds[i], n.tags[i];
    if tag.None? {
      return Done;
    }
    if IsZero(kind) {
      match kind {
        case Str(_) => SetKind(n, i, Str(tag.value));
        case Strs(_) =>
          var defaultValues := Split(tag.value, ',');
          SetKind(n, i, Strs(Some(defaultValues)));
        case StructSlice(_, _) => return Panicked;
        case _ => return Failed;
      }
    }
    r := Done;
  }

  /** field.Set */
  method SetKind(n: Node, i: nat, kind: Kind)
    requires n.Valid() && i < |n.kids|
    modifies n
    ensures n.Valid() && n.tree.fields == old(n.tree.fields)[i := old(n.tree.fields[i]).(kind := kind)]
  {
    n.kinds := n.kinds[i := kind];
    n.tree := Struct(n.tree.fields[i := n.tree.fields[i].(kind := kind)]);
  }

  /** The elements of a slice, or the struct behind a pointer; an element beyond the length cannot be looked at. */
  method SetDefaultsToSlice(n: Node, i: nat) returns (r: Outcome)
    requires n.Valid() && i < |n.kids| && (HasElements(n.kinds[i], |n.kids[i]|) || n.kinds[i].StructPtr?)
    modifies n.repr
    ensures n.Valid()
    ensures r == OutcomeOf(FieldDefaulted(old(n.tree.fields[i])))
    ensures r.Done? ==> n.tree.fields == old(n.tree.fields)[i := FieldDefaulted(old(n.tree.fields[i])).value]
    decreases n.repr, 1
  {
    ghost var fs, ks := n.tree.fields, n.tree.fields[i].kids;
    var slack := if n.kinds[i].StructSlice? then n.kinds[i].slack else 0;
    for k := 0 to |n.kids[i]|
      invariant n.Valid() && |n.tree.fields[i].kids| == |ks|
      invariant KidsDefaulted(ks, k) == Ok(n.tree.fields[i].kids[..k]) && n.tree.fields[i].kids[k..] == ks[k..]
      invariant n.tree.fields == fs[i := fs[i].(kids := n.tree.fields[i].kids)]
    {
      ghost var before := n.tree.fields[i].kids;
      SameFrom(before, ks, k);
      r := SetDefaultsToElement(n, i, k);
      if r != Done {
        ElementFailureStays(ks, k + 1);
        return;
      }
      UpdateMoves(before, k, Defaulted(ks[k]).value);
    }
    assert n.tree.fields[i].kids[..|ks|] == n.tree.fields[i].kids;
    r := if slack > 0 then Panicked else Done;
  }

  lemma {:induction false} ElementFailureStays(ks: seq<Tree>, n: nat)
    requires n <= |ks| && !KidsDefaulted(ks, n).Ok?
    ensures KidsDefaulted(ks, |ks|) == KidsDefaulted(ks, n)
    decreases |ks| - n
  {
    if n < |ks| {
      ElementFailureStays(ks, n + 1);
    }
  }

  /** The structs reached from the other pointers are not touched. */
  method SetDefaultsToElement(n: Node, i: nat, k: nat) returns (r: Outcome)
    requires n.Valid() && i < |n.kids| && k < |n.kids[i]|
    modifies n.repr
    ensures n.Valid() && |n.tree.fields[i].kids| == |n.kids[i]|
    ensures var kid := old(n.tree.fields[i].kids[k]);
            && r == OutcomeOf(Defaulted(kid))
            && (r.Done? ==> n.tree.fields == old(WithKid(n.tree.fields, i, k, Defaulted(kid).value)))
    decreases n.repr, 0
  {
    var c := n.kids[i][k];
    ghost var was := n.tree;
    assert c != null ==> n.IsKid(i, k) && c == n.KidAt(i, k);
    assert ValueOf(c) == was.fields[i].kids[k];
    r := SetDefaults(c);
    forall j, l | n.IsKid(j, l) && (j != i || l != k)
      ensures n.KidAt(j, l).Valid() && n.KidAt(j, l).tree == was.fields[j].kids[l]
    {
      assert c != null ==> n.KidAt(j, l).repr !! c.repr;
    }
    n.tree := Struct(WithKid(was.fields, i, k, ValueOf(c)));
  }

  function WithKid(fs: seq<Field>, i: nat, k: nat, kid: Tree): seq<Field>
    requires i < |fs| && k < |fs[i].kids|
  {
    fs[i := fs[i].(kids := fs[i].kids[k := kid])]
  }
}
