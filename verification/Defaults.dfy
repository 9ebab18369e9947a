/** Default values from struct tags, set in place over a tree of structs: SetDefaults and its helpers. */
module Defaults {
  import opened Quantities
  import opened Text

  /**
   What a struct field holds besides structs: a string, a slice of strings (None is nil), a bool, any other value that
   is zero or not, a pointer to a bool (None is nil) or any other pointer; or that it points to a struct or is a slice
   of pointers to structs, with the slack of the slice's capacity over its length.
   */
  datatype Kind = Str(s: string) | Strs(ss: Option<seq<string>>) | BoolValue(b: bool) | Basic(zero: bool)
    | BoolPtr(p: Option<bool>) | OtherPtr | StructPtr | StructSlice(slack: nat, isNil: bool)

  /** A pointer to a struct, with the struct as a value. */
  datatype Tree = Nil | Struct(fields: seq<Field>)

  /** The structs of a field: none or one behind a pointer, the elements of a slice. */
  datatype Field = Field(tag: Option<string>, kind: Kind, kids: seq<Tree>)

  /** Failures are an error that is returned, or a panic of the reflect package. */
  datatype Result<T> = Ok(value: T) | Error | Panic

  predicate IsZero(k: Kind) {
    match k
    case Str(s) => s == ""
    case Strs(ss) => ss.None?
    case BoolValue(b) => !b
    case Basic(zero) => zero
    case BoolPtr(p) => p.None?
    case OtherPtr => false
    case StructPtr => false
    case StructSlice(_, isNil) => isNil
  }

  /** isSliceOfPtrToStructs looks at the capacity. */
  predicate HasElements(k: Kind, kids: nat) {
    k.StructSlice? && kids + k.slack > 0
  }

  // ----- what SetDefaults computes

  /** What becomes of the field itself: setDefaultToBasicType, and the pointer to a bool in setDefaultToPtr. */
  function KindDefaulted(tag: Option<string>, k: Kind): Result<Kind> {
    if k.BoolPtr? then Ok(if k.p.Some? then k else BoolPtr(Some(tag == Some("true"))))
    else if k.OtherPtr? || k.StructPtr? || tag.None? || !IsZero(k) then Ok(k)
    else if k.Str? then Ok(Str(tag.value))
    else if k.Strs? then Ok(Strs(Some(Split(tag.value, ','))))
    else if k.BoolValue? || k.Basic? then Error
    else Panic
  }

  /** A nil pointer cannot be looked into. */
  function Defaulted(t: Tree): Result<Tree>
    decreases t
  {
    if t.Nil? then Panic
    else
      match FieldsDefaulted(t.fields, |t.fields|)
      case Ok(fields) => Ok(Struct(fields))
      case Error => Error
      case Panic => Panic
  }

  /** The first n fields. */
  function FieldsDefaulted(fs: seq<Field>, n: nat): (r: Result<seq<Field>>)
    requires n <= |fs|
    ensures r.Ok? ==> |r.value| == n
    decreases fs, n
  {
    if n == 0 then Ok([])
    else
      var before := FieldsDefaulted(fs, n - 1);
      if !before.Ok? then before
      else
        match FieldDefaulted(fs[n - 1])
        case Ok(f) => Ok(before.value + [f])
        case Error => Error
        case Panic => Panic
  }

  function FieldDefaulted(f: Field): Result<Field>
    decreases f
  {
    if HasElements(f.kind, |f.kids|) || f.kind.StructPtr? then
      match KidsDefaulted(f.kids, |f.kids|)
      case Ok(kids) => if f.kind.StructSlice? && f.kind.slack > 0 then Panic else Ok(f.(kids := kids))
      case Error => Error
      case Panic => Panic
    else
      match KindDefaulted(f.tag, f.kind)
      case Ok(k) => Ok(f.(kind := k))
      case Error => Error
      case Panic => Panic
  }

  /** setDefaultsToSlice on the first n elements. */
  function KidsDefaulted(kids: seq<Tree>, n: nat): (r: Result<seq<Tree>>)
    requires n <= |kids|
    ensures r.Ok? ==> |r.value| == n
    decreases kids, n
  {
    if n == 0 then Ok([])
    else
      var before := KidsDefaulted(kids, n - 1);
      if !before.Ok? then before
      else
        match Defaulted(kids[n - 1])
        case Ok(t) => Ok(before.value + [t])
        case Error => Error
        case Panic => Panic
  }

  // ----- a second run changes nothing

  lemma {:induction false} DefaultedTwice(t: Tree)
    ensures Defaulted(t).Ok? ==> Defaulted(Defaulted(t).value) == Defaulted(t)
    decreases t
  {
    if t.Struct? {
      FieldsTwice(t.fields, |t.fields|);
    }
  }

  lemma {:induction false} FieldsTwice(fs: seq<Field>, n: nat)
    requires n <= |fs|
    ensures FieldsDefaulted(fs, n).Ok? ==>
              var gs := FieldsDefaulted(fs, n).value; FieldsDefaulted(gs, n) == Ok(gs)
    decreases fs, n
  {
    if n > 0 && FieldsDefaulted(fs, n).Ok? {
      var before, gs := FieldsDefaulted(fs, n - 1).value, FieldsDefaulted(fs, n).value;
      FieldsTwice(fs, n - 1);
      FieldTwice(fs[n - 1]);
      FieldsOfPrefix(before, gs, n - 1);
    }
  }

  lemma {:induction false} FieldsOfPrefix(fs: seq<Field>, gs: seq<Field>, n: nat)
    requires n <= |fs| && fs <= gs
    ensures FieldsDefaulted(fs, n) == FieldsDefaulted(gs, n)
  {
    if n > 0 {
      FieldsOfPrefix(fs, gs, n - 1);
    }
  }

  lemma {:induction false} FieldTwice(f: Field)
    ensures FieldDefaulted(f).Ok? ==> FieldDefaulted(FieldDefaulted(f).value) == FieldDefaulted(f)
    decreases f
  {
    KidsTwice(f.kids, |f.kids|);
    KindTwice(f.tag, f.kind);
  }

  lemma KindTwice(tag: Option<string>, k: Kind)
    ensures KindDefaulted(tag, k).Ok? ==> KindDefaulted(tag, KindDefaulted(tag, k).value) == KindDefaulted(tag, k)
  {
  }

  lemma {:induction false} KidsTwice(kids: seq<Tree>, n: nat)
    requires n <= |kids|
    ensures KidsDefaulted(kids, n).Ok? ==>
              var after := KidsDefaulted(kids, n).value; KidsDefaulted(after, n) == Ok(after)
    decreases kids, n
  {
    if n > 0 && KidsDefaulted(kids, n).Ok? {
      KidsTwice(kids, n - 1);
      DefaultedTwice(kids[n - 1]);
      KidsOfPrefix(KidsDefaulted(kids, n - 1).value, KidsDefaulted(kids, n).value, n - 1);
    }
  }

  lemma {:induction false} KidsOfPrefix(kids: seq<Tree>, more: seq<Tree>, n: nat)
    requires n <= |kids| && kids <= more
    ensures KidsDefaulted(kids, n) == KidsDefaulted(more, n)
  {
    if n > 0 {
      KidsOfPrefix(kids, more, n - 1);
    }
  }

  // ----- what a run may change

  /** Nothing but zero values has changed, anywhere in the tree, and no pointer to a bool is nil. */
  ghost predicate Completes(t: Tree, u: Tree)
    decreases t
  {
    && t.Struct? && u.Struct? && |u.fields| == |t.fields|
    && forall i :: 0 <= i < |t.fields| ==> FieldCompletes(t.fields[i], u.fields[i])
  }

  ghost predicate FieldCompletes(f: Field, g: Field)
    decreases f
  {
    && g.tag == f.tag
    && (if IsZero(f.kind) && f.tag.Some? && f.kind.Str? then g.kind == Str(f.tag.value)
        else if IsZero(f.kind) && f.tag.Some? && f.kind.Strs? then g.kind == Strs(Some(Split(f.tag.value, ',')))
        else if IsZero(f.kind) && f.kind.BoolPtr? then g.kind == BoolPtr(Some(f.tag == Some("true")))
        else g.kind == f.kind)
    && |g.kids| == |f.kids|
    && forall i :: 0 <= i < |f.kids| ==>
         if f.kind.StructPtr? || f.kind.StructSlice? then Completes(f.kids[i], g.kids[i]) else g.kids[i] == f.kids[i]
  }

  lemma {:induction false} DefaultedCompletes(t: Tree)
    ensures Defaulted(t).Ok? ==> Completes(t, Defaulted(t).value)
    decreases t
  {
    if t.Struct? {
      FieldsComplete(t.fields, |t.fields|);
    }
  }

  lemma {:induction false} FieldsComplete(fs: seq<Field>, n: nat)
    requires n <= |fs|
    ensures FieldsDefaulted(fs, n).Ok? ==>
              forall i :: 0 <= i < n ==> FieldCompletes(fs[i], FieldsDefaulted(fs, n).value[i])
    decreases fs, n
  {
    if n > 0 && FieldsDefaulted(fs, n).Ok? {
      FieldsComplete(fs, n - 1);
      FieldComplete(fs[n - 1]);
    }
  }

  lemma {:induction false} FieldComplete(f: Field)
    ensures FieldDefaulted(f).Ok? ==> FieldCompletes(f, FieldDefaulted(f).value)
    decreases f
  {
    KidsComplete(f.kids, |f.kids|);
  }

  lemma {:induction false} KidsComplete(kids: seq<Tree>, n: nat)
    requires n <= |kids|
    ensures KidsDefaulted(kids, n).Ok? ==>
              forall i :: 0 <= i < n ==>
                Completes(kids[i], KidsDefaulted(kids, n).value[i])
    decreases kids, n
  {
    if n > 0 && KidsDefaulted(kids, n).Ok? {
      KidsComplete(kids, n - 1);
      DefaultedCompletes(kids[n - 1]);
    }
  }

  /** No reached struct has a nil pointer to a bool. */
  ghost predicate NoNilBools(t: Tree)
    decreases t
  {
    t.Struct? && forall i :: 0 <= i < |t.fields| ==> t.fields[i].kind != BoolPtr(None) && KidsNoNilBools(t.fields[i])
  }

  ghost predicate KidsNoNilBools(f: Field)
    decreases f
  {
    (f.kind.StructPtr? || f.kind.StructSlice?) ==>
      forall i :: 0 <= i < |f.kids| ==> NoNilBools(f.kids[i])
  }

  lemma {:induction false} CompletedHasNoNilBools(t: Tree, u: Tree)
    requires Completes(t, u)
    ensures NoNilBools(u)
    decreases t
  {
    forall i | 0 <= i < |u.fields| ensures u.fields[i].kind != BoolPtr(None) && KidsNoNilBools(u.fields[i]) {
      var f, g := t.fields[i], u.fields[i];
      assert FieldCompletes(f, g);
      if g.kind.StructPtr? || g.kind.StructSlice? {
        forall k | 0 <= k < |g.kids| ensures NoNilBools(g.kids[k]) {
          CompletedHasNoNilBools(f.kids[k], g.kids[k]);
        }
      }
    }
  }

  // ----- when a run succeeds

  /** No reached field has a default that cannot be set, a nil element, or a slice with spare capacity. */
  ghost predicate Supported(t: Tree)
    decreases t
  {
    t.Struct? && forall i :: 0 <= i < |t.fields| ==> FieldSupported(t.fields[i])
  }

  ghost predicate FieldSupported(f: Field)
    decreases f
  {
    if HasElements(f.kind, |f.kids|) || f.kind.StructPtr? then
      && (f.kind.StructSlice? ==> f.kind.slack == 0)
      && forall i :: 0 <= i < |f.kids| ==> Supported(f.kids[i])
    else
      f.tag.Some? && IsZero(f.kind) ==> f.kind.Str? || f.kind.Strs? || f.kind.BoolPtr?
  }

  lemma {:induction false} DefaultedIff(t: Tree)
    ensures Defaulted(t).Ok? <==> Supported(t)
    decreases t
  {
    if t.Struct? {
      FieldsIff(t.fields, |t.fields|);
    }
  }

  lemma {:induction false} FieldsIff(fs: seq<Field>, n: nat)
    requires n <= |fs|
    ensures FieldsDefaulted(fs, n).Ok? <==> forall i :: 0 <= i < n ==> FieldSupported(fs[i])
    decreases fs, n
  {
    if n > 0 {
      FieldsIff(fs, n - 1);
      FieldIff(fs[n - 1]);
    }
  }

  lemma {:induction false} FieldIff(f: Field)
    ensures FieldDefaulted(f).Ok? <==> FieldSupported(f)
    decreases f
  {
    KidsIff(f.kids, |f.kids|);
  }

  lemma {:induction false} KidsIff(kids: seq<Tree>, n: nat)
    requires n <= |kids|
    ensures KidsDefaulted(kids, n).Ok? <==> forall i :: 0 <= i < n ==> Supported(kids[i])
    decreases kids, n
  {
    if n > 0 {
      KidsIff(kids, n - 1);
      DefaultedIff(kids[n - 1]);
    }
  }

  /** An entry of make-dirs: a path, and permissions whose tag gives a default. */
  function MakeDirsEntry(path: string, noPermissions: bool): Tree {
    Struct([Field(None, Str(path), []), Field(Some("0755"), Basic(noPermissions), [])])
  }

  /** The default of the permissions cannot be set: an entry without permissions makes SetDefaults fail. */
  lemma MakeDirsEntryNeedsPermissions(path: string, noPermissions: bool)
    ensures Defaulted(MakeDirsEntry(path, noPermissions)).Ok? <==> !noPermissions
  {
    var t := MakeDirsEntry(path, noPermissions);
    DefaultedIff(t);
    assert t.fields[1].kind == Basic(noPermissions);
  }
}
