/** Mount points and the difference of two mount lists, computed in place: diffMountPoints. */
module MountDiff {
  import opened Sequences

  datatype MountPoint = MountPoint(
    src: string,
    path: string,
    basePath: string,
    relpath: string,
    typ: string,
    opts: seq<string>,
    bind: bool)

  /** filepath.Join on normalised paths. */
  function JoinPath(base: string, rel: string): string {
    if base == "" then rel
    else if rel == "" then base
    else if rel[0] == '/' then base + rel
    else base + "/" + rel
  }

  function PathOf(m: MountPoint): string {
    if m.path == "" then JoinPath(m.basePath, m.relpath) else m.path
  }

  /** equalMountPoints: bind mounts are recognized by their path alone. */
  predicate Equal(a: MountPoint, b: MountPoint) {
    PathOf(a) == PathOf(b) && (a.bind || b.bind || (a.src == b.src && a.typ == b.typ))
  }

  /** The position of the first mount equal to `o`, or the number of mounts. */
  function FirstEqual(o: MountPoint, ls: seq<MountPoint>): (i: nat)
    ensures i <= |ls| && (i < |ls| ==> Equal(o, ls[i]))
    ensures forall k :: 0 <= k < i ==> !Equal(o, ls[k])
  {
    if ls == [] || Equal(o, ls[0]) then 0 else 1 + FirstEqual(o, ls[1..])
  }

  lemma FirstEqualIs(o: MountPoint, ls: seq<MountPoint>, i: nat)
    requires i <= |ls| && (i < |ls| ==> Equal(o, ls[i]))
    requires forall k :: 0 <= k < i ==> !Equal(o, ls[k])
    ensures FirstEqual(o, ls) == i
  {
  }

  function Without<T>(s: seq<T>, i: nat): (r: seq<T>)
    ensures i < |s| ==> |r| == |s| - 1
  {
    if i < |s| then s[..i] + s[i + 1..] else s
  }

  /** The mounts left after each old mount has removed the first one equal to it. */
  function Diff(olds: seq<MountPoint>, ls: seq<MountPoint>): seq<MountPoint> {
    if olds == [] then ls else Diff(olds[1..], Without(ls, FirstEqual(olds[0], ls)))
  }

  /** The result is the first n elements of the array; the rest of it is left over from the shifting. */
  method DiffMountPoints(olds: seq<MountPoint>, currents: array<MountPoint>) returns (n: nat)
    modifies currents
    ensures n <= currents.Length
    ensures currents[..n] == Diff(olds, old(currents[..]))
  {
    n := currents.Length;
    ghost var result := Diff(olds, currents[..]);
    assert currents[..n] == currents[..];
    for k := 0 to |olds|
      invariant n <= currents.Length
      invariant Diff(olds[k..], currents[..n]) == result
    {
      DiffStep(olds, k, currents[..n]);
      n := RemoveEqual(olds[k], currents, n);
    }
  }

  lemma DiffStep(olds: seq<MountPoint>, k: nat, ls: seq<MountPoint>)
    requires k < |olds|
    ensures Diff(olds[k..], ls) == Diff(olds[k + 1..], Without(ls, FirstEqual(olds[k], ls)))
  {
    assert olds[k..][0] == olds[k] && olds[k..][1..] == olds[k + 1..];
  }

  /** Deletes the first mount equal to `o` from the first n elements. */
  method RemoveEqual(o: MountPoint, a: array<MountPoint>, n: nat) returns (m: nat)
    requires n <= a.Length
    modifies a
    ensures m <= n && a[..m] == old(Without(a[..n], FirstEqual(o, a[..n])))
  {
    m := n;
    var i := 0;
    while i < n && !Equal(o, a[i])
      invariant i <= n
      invariant forall j :: 0 <= j < i ==> !Equal(o, a[j])
    {
      i := i + 1;
    }
    FirstEqualIs(o, a[..n], i);
    if i < n {
      ShiftLeft(a, i, n);
      m := n - 1;
    }
  }

  /** append(lefts[:i], lefts[i+1:]...) moves the later elements down in the same array. */
  method ShiftLeft(a: array<MountPoint>, i: nat, n: nat)
    requires i < n <= a.Length
    modifies a
    ensures a[..n - 1] == Without(old(a[..n]), i)
  {
    ghost var was := a[..n];
    for j := i to n - 1
      invariant forall p {:trigger a[p]} :: 0 <= p < i ==> a[p] == was[p]
      invariant forall p {:trigger a[p]} :: i <= p < j ==> a[p] == was[p + 1]
      invariant forall p {:trigger a[p]} :: j <= p < n ==> a[p] == was[p]
    {
      a[j] := a[j + 1];
    }
    forall p | 0 <= p < n - 1 ensures a[p] == Without(was, i)[p] {
      assert Without(was, i) == was[..i] + was[i + 1..];
    }
  }

  // ----- matching positions

  /** Kept positions, and for each old mount the position that it removed or -1. */
  datatype Matching = Matching(kept: seq<nat>, removed: seq<int>)

  /** The index in `kept` of the first position that is hit, or its length. */
  function FirstHit(hit: set<nat>, kept: seq<nat>): (i: nat)
    ensures i <= |kept| && (i < |kept| ==> kept[i] in hit)
    ensures forall k :: 0 <= k < i ==> kept[k] !in hit
  {
    if kept == [] || kept[0] in hit then 0 else 1 + FirstHit(hit, kept[1..])
  }

  /** Each set of hits removes the first of its positions that is still kept. */
  function Match(hits: seq<set<nat>>, kept: seq<nat>): (r: Matching)
    ensures |r.removed| == |hits|
  {
    if hits == [] then Matching(kept, [])
    else
      var i := FirstHit(hits[0], kept);
      var rest := Match(hits[1..], Without(kept, i));
      Matching(rest.kept, [if i < |kept| then kept[i] else -1] + rest.removed)
  }

  ghost predicate Increasing(kept: seq<nat>) {
    forall k, l :: 0 <= k < l < |kept| ==> kept[k] < kept[l]
  }

  /** What a matching that starts from the positions `kept` has to be. */
  ghost predicate Exact(hits: seq<set<nat>>, kept: seq<nat>, m: Matching) {
    && |m.removed| == |hits|
    && Increasing(m.kept)
    && (forall p :: p in m.kept ==> p in kept)
    && (forall i :: 0 <= i < |hits| && m.removed[i] != -1 ==>
          m.removed[i] in kept && m.removed[i] in hits[i] && m.removed[i] !in m.kept)
    && (forall i, j :: 0 <= i < j < |hits| && m.removed[i] != -1 ==> m.removed[i] != m.removed[j])
    && (forall i, p :: 0 <= i < |hits| && m.removed[i] == -1 && p in m.kept ==> p !in hits[i])
    && (forall p :: p in kept ==> p in m.kept || p in m.removed)
  }

  lemma WithoutKeepsOrder(kept: seq<nat>, i: nat)
    requires Increasing(kept)
    ensures var fewer := Without(kept, i);
            && Increasing(fewer)
            && (forall p :: p in fewer ==> p in kept)
            && (i < |kept| ==> kept[i] !in fewer && forall p :: p in kept ==> p in fewer || p == kept[i])
  {
    if i < |kept| {
      forall p | p in kept && p != kept[i] ensures p in Without(kept, i) {
        var k :| 0 <= k < |kept| && kept[k] == p;
        assert Without(kept, i)[if k < i then k else k - 1] == p;
      }
    }
  }

  lemma {:induction false} MatchIsExact(hits: seq<set<nat>>, kept: seq<nat>)
    requires Increasing(kept)
    ensures Exact(hits, kept, Match(hits, kept))
  {
    if hits != [] {
      var i := FirstHit(hits[0], kept);
      WithoutKeepsOrder(kept, i);
      MatchIsExact(hits[1..], Without(kept, i));
      ExactStep(hits, kept, i, Without(kept, i), Match(hits[1..], Without(kept, i)));
    }
  }

  lemma ExactStep(hits: seq<set<nat>>, kept: seq<nat>, i: nat, fewer: seq<nat>, rest: Matching)
    requires hits != [] && i <= |kept| && (i < |kept| ==> kept[i] in hits[0])
    requires i == |kept| ==> fewer == kept && forall p :: p in kept ==> p !in hits[0]
    requires forall p :: p in fewer ==> p in kept
    requires i < |kept| ==> kept[i] !in fewer && forall p :: p in kept ==> p in fewer || p == kept[i]
    requires Exact(hits[1..], fewer, rest)
    ensures Exact(hits, kept, Matching(rest.kept, [if i < |kept| then kept[i] else -1] + rest.removed))
  {
    var first: int := if i < |kept| then kept[i] else -1;
    var removed := [first] + rest.removed;
    assert removed[0] == first && removed[1..] == rest.removed;
    forall j | 0 < j < |hits| ensures removed[j] == rest.removed[j - 1] && hits[j] == hits[1..][j - 1] {
    }
    forall j | 0 < j < |hits| && first != -1 ensures removed[j] != first {
    }
    forall p | p in kept ensures p in rest.kept || p in removed {
      if p != first {
        assert p in fewer;
      }
    }
  }

  // ----- what the difference is

  /** For each old mount, the positions of the mounts equal to it. */
  function Hits(olds: seq<MountPoint>, ls: seq<MountPoint>): (r: seq<set<nat>>)
    ensures |r| == |olds|
    ensures forall i, p :: 0 <= i < |olds| ==> (p in r[i] <==> 0 <= p < |ls| && Equal(olds[i], ls[p]))
  {
    seq(|olds|, i requires 0 <= i < |olds| => set p: nat | 0 <= p < |ls| && Equal(olds[i], ls[p]))
  }

  lemma FirstHitIsFirstEqual(o: MountPoint, ls: seq<MountPoint>, kept: seq<nat>, hit: set<nat>)
    requires forall k :: 0 <= k < |kept| ==> kept[k] < |ls|
    requires forall p: nat :: p in hit <==> p < |ls| && Equal(o, ls[p])
    ensures FirstEqual(o, Select(ls, kept)) == FirstHit(hit, kept)
  {
    FirstEqualIs(o, Select(ls, kept), FirstHit(hit, kept));
  }

  lemma SelectWithout(ls: seq<MountPoint>, kept: seq<nat>, i: nat)
    requires i <= |kept| && forall k :: 0 <= k < |kept| ==> kept[k] < |ls|
    ensures forall k :: 0 <= k < |Without(kept, i)| ==> Without(kept, i)[k] < |ls|
    ensures Select(ls, Without(kept, i)) == Without(Select(ls, kept), i)
  {
  }

  lemma {:induction false} DiffIsMatch(olds: seq<MountPoint>, ls: seq<MountPoint>, kept: seq<nat>)
    requires forall k :: 0 <= k < |kept| ==> kept[k] < |ls|
    ensures var m := Match(Hits(olds, ls), kept);
            && (forall k :: 0 <= k < |m.kept| ==> m.kept[k] < |ls|)
            && Diff(olds, Select(ls, kept)) == Select(ls, m.kept)
  {
    if olds != [] {
      var i := FirstHit(Hits(olds, ls)[0], kept);
      FirstHitIsFirstEqual(olds[0], ls, kept, Hits(olds, ls)[0]);
      SelectWithout(ls, kept, i);
      HitsTail(olds, ls);
      DiffIsMatch(olds[1..], ls, Without(kept, i));
    }
  }

  lemma HitsTail(olds: seq<MountPoint>, ls: seq<MountPoint>)
    requires olds != []
    ensures Hits(olds, ls)[1..] == Hits(olds[1..], ls)
  {
  }

  function AllPositions(n: nat): (r: seq<nat>)
    ensures |r| == n && forall k :: 0 <= k < n ==> r[k] == k
  {
    seq(n, k => k)
  }

  /**
   The difference keeps the order of the current mounts. Each old mount removes at most one mount, equal to it, and no
   two remove the same; an old mount that removed none equals nothing that is left; every mount is kept or removed.
   */
  lemma DiffIsMatching(olds: seq<MountPoint>, currents: seq<MountPoint>)
    ensures var all, hits := AllPositions(|currents|), Hits(olds, currents);
            var m := Match(hits, all);
            && Exact(hits, all, m)
            && (forall k :: 0 <= k < |m.kept| ==> m.kept[k] < |currents|)
            && Diff(olds, currents) == Select(currents, m.kept)
  {
    var all := AllPositions(|currents|);
    assert Select(currents, all) == currents;
    DiffIsMatch(olds, currents, all);
    MatchIsExact(Hits(olds, currents), all);
  }

  // ----- multisets

  function Key(m: MountPoint): (string, string, string) {
    (m.src, PathOf(m), m.typ)
  }

  function Keys(ls: seq<MountPoint>): (r: seq<(string, string, string)>)
    ensures |r| == |ls| && forall i :: 0 <= i < |ls| ==> r[i] == Key(ls[i])
  {
    seq(|ls|, i requires 0 <= i < |ls| => Key(ls[i]))
  }

  ghost predicate NoBind(ls: seq<MountPoint>) {
    forall i :: 0 <= i < |ls| ==> !ls[i].bind
  }

  lemma MultisetWithout<T>(s: seq<T>, i: nat, x: T)
    requires i <= |s| && (if i < |s| then s[i] == x else x !in s)
    ensures multiset(Without(s, i)) == multiset(s) - multiset{x}
  {
    if i < |s| {
      assert s == s[..i] + ([s[i]] + s[i + 1..]);
    }
  }

  lemma KeysWithout(ls: seq<MountPoint>, i: nat)
    requires i <= |ls|
    ensures Keys(Without(ls, i)) == Without(Keys(ls), i)
  {
  }

  lemma EqualIsSameKey(a: MountPoint, b: MountPoint)
    requires !a.bind && !b.bind
    ensures Equal(a, b) <==> Key(a) == Key(b)
  {
  }

  lemma KeysOfWithout(o: MountPoint, ls: seq<MountPoint>)
    requires !o.bind && NoBind(ls)
    ensures multiset(Keys(Without(ls, FirstEqual(o, ls)))) == multiset(Keys(ls)) - multiset{Key(o)}
  {
    var i := FirstEqual(o, ls);
    forall j | 0 <= j < |ls| && (j == i || i == |ls|) ensures Keys(ls)[j] == Key(o) <==> j == i {
      EqualIsSameKey(o, ls[j]);
    }
    MultisetWithout(Keys(ls), i, Key(o));
    KeysWithout(ls, i);
  }

  lemma MinusEach<T>(all: multiset<T>, x: T, rest: seq<T>)
    ensures (all - multiset{x}) - multiset(rest) == all - multiset([x] + rest)
  {
  }

  /** Without bind mounts, the difference is the multiset difference by source, path and type. */
  lemma {:induction false} DiffIsMultisetDifference(olds: seq<MountPoint>, currents: seq<MountPoint>)
    requires NoBind(olds) && NoBind(currents)
    ensures multiset(Keys(Diff(olds, currents))) == multiset(Keys(currents)) - multiset(Keys(olds))
  {
    if olds != [] {
      var i := FirstEqual(olds[0], currents);
      KeysOfWithout(olds[0], currents);
      DiffIsMultisetDifference(olds[1..], Without(currents, i));
      MinusEach(multiset(Keys(currents)), Key(olds[0]), Keys(olds[1..]));
      assert Keys(olds) == [Key(olds[0])] + Keys(olds[1..]);
    }
  }
}
