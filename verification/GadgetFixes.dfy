/** What loading a gadget changes in its volumes: postProcessGadgetYaml and the missing root filesystem. */
module GadgetFixes {
  import opened Quantities
  import opened Structures
  import opened Text
  import Sizing

  /** checkStructureContent rejects a source path that contains "../". */
  predicate HasParentPath(source: string) {
    exists i :: 0 <= i <= |source| - 3 && source[i] == '.' && source[i + 1] == '.' && source[i + 2] == '/'
  }

  predicate ContentAllowed(s: VolumeStructure) {
    s.content.Some? ==> forall i :: 0 <= i < |s.content.value| ==> !HasParentPath(s.content.value[i].source)
  }

  /** handleSystemSeed: a seed without label takes its name as label. */
  function Labelled(s: VolumeStructure): VolumeStructure {
    if IsSystemSeed(s) && s.fsLabel == "" then s.(fsLabel := s.name) else s
  }

  /** The scheme that stands for the staged root filesystem in a content source. */
  const ROOTFS_SCHEME := "rootfs:"

  function ResolvedSource(source: string, rootfs: string): string {
    ReplaceAll(source, ROOTFS_SCHEME, rootfs)
  }

  /** The first n contents have their sources resolved. */
  function ResolvedUpTo(cs: seq<Content>, n: nat, rootfs: string): (r: seq<Content>)
    requires n <= |cs|
    ensures |r| == |cs|
    ensures forall i :: 0 <= i < |cs| ==>
              r[i] == if i < n then cs[i].(source := ResolvedSource(cs[i].source, rootfs)) else cs[i]
  {
    seq(|cs|, i requires 0 <= i < |cs| =>
      if i < n then cs[i].(source := ResolvedSource(cs[i].source, rootfs)) else cs[i])
  }

  /** handleRootfsScheme; `rel` is the path from the gadget to the staged root filesystem. */
  function Resolved(s: VolumeStructure, rel: Option<string>): VolumeStructure {
    if IsSystemBoot(s) && rel.Some? && s.content.Some?
    then s.(content := Some(ResolvedUpTo(s.content.value, |s.content.value|, rel.value)))
    else s
  }

  /** The contents are allowed, and the path to the root filesystem is known for a system-boot structure. */
  predicate Processable(s: VolumeStructure, rel: Option<string>) {
    ContentAllowed(s) && (IsSystemBoot(Labelled(s)) ==> rel.Some?)
  }

  /** A structure after its turn; a rootfs or seed without content gets an empty list. */
  function Fixed(s: VolumeStructure, rel: Option<string>): VolumeStructure {
    var resolved := Resolved(Labelled(s), rel);
    if (IsRootfs(s) || IsSystemSeed(s)) && s.content.None? then resolved.(content := Some([])) else resolved
  }

  /** The structures of a volume with the first n fixed. */
  function FixedUpTo(ss: seq<VolumeStructure>, n: nat, rel: Option<string>): (r: seq<VolumeStructure>)
    requires n <= |ss|
    ensures |r| == |ss| && forall i :: 0 <= i < |ss| ==> r[i] == if i < n then Fixed(ss[i], rel) else ss[i]
  {
    seq(|ss|, i requires 0 <= i < |ss| => if i < n then Fixed(ss[i], rel) else ss[i])
  }

  function FixedAll(ss: seq<VolumeStructure>, rel: Option<string>): seq<VolumeStructure> {
    FixedUpTo(ss, |ss|, rel)
  }

  /** What the walk over the structures has gathered. */
  datatype Walk = Walk(rootfsSeen: bool, farthest: nat, offsetUnknown: bool)

  function Step(w: Walk, s: VolumeStructure): Walk {
    Walk(w.rootfsSeen || IsRootfs(s),
         if s.offset.Some? then Max(s.offset.value + s.size, w.farthest) else w.farthest,
         w.offsetUnknown || s.offset.None?)
  }

  function Walked(w: Walk, ss: seq<VolumeStructure>, n: nat): Walk
    requires n <= |ss|
  {
    if n == 0 then w else Step(Walked(w, ss, n - 1), ss[n - 1])
  }

  /** Whether a system-seed was found, and the main volume, which the last one names. */
  datatype Seed = Seed(found: bool, mainVolume: string)

  function SeedOf(before: Seed, ss: seq<VolumeStructure>, n: nat): Seed
    requires n <= |ss|
  {
    if n == 0 then before
    else if IsSystemSeed(ss[n - 1]) then Seed(true, ss[n - 1].volumeName)
    else SeedOf(before, ss, n - 1)
  }

  /** fixMissingSystemData: the structure that is attached at the end of the volume. */
  function NewRootfs(offset: nat, yamlIndex: nat): VolumeStructure {
    VolumeStructure("", "writable", SystemData, Hybrid("83", "0FC63DAF-8483-4772-8E79-3D69D8477DE4"),
                    Some(offset), 0, 0, "ext4", Some([]), None, yamlIndex, "")
  }

  /** The structures of a volume after post-processing; `lone` says that it is the only volume of the gadget. */
  function PostProcessed(ss: seq<VolumeStructure>, w: Walk, lone: bool, rel: Option<string>): seq<VolumeStructure> {
    if w.offsetUnknown || w.rootfsSeen || !lone then FixedAll(ss, rel)
    else FixedAll(ss, rel) + [NewRootfs(w.farthest, |ss|)]
  }

  /** `rel` is None when there is no path from the gadget to the staged root filesystem. */
  class Gadget {
    const rel: Option<string>
    var volumes: map<string, Volume>
    var volumeOrder: seq<string>
    var isSeeded: bool
    var mainVolumeName: string

    /** The recorded order lists every volume once. */
    ghost predicate Valid()
      reads `volumes, `volumeOrder
    {
      && (forall n :: n in volumeOrder <==> n in volumes)
      && (forall i, j :: 0 <= i < j < |volumeOrder| ==> volumeOrder[i] != volumeOrder[j])
    }

    /** The inner loop: fixes the structures of one volume in place, until one cannot be processed. */
    method FixVolume(name: string, w: Walk) returns (ok: bool, walk: Walk)
      requires name in volumes
      modifies `volumes, `isSeeded, `mainVolumeName
      ensures var ss := old(volumes)[name].structures;
              && (ok <==> AllProcessable(ss, rel))
              && (ok ==> volumes == old(volumes)[name := old(volumes)[name].(structures := FixedAll(ss, rel))])
              && (ok ==> walk == Walked(w, ss, |ss|))
              && (ok ==> Seed(isSeeded, mainVolumeName) == SeedOf(Seed(old(isSeeded), old(mainVolumeName)), ss, |ss|))
    {
      walk := w;
      var v, ss := volumes[name], volumes[name].structures;
      for i := 0 to |v.structures|
        invariant volumes == old(volumes) && |ss| == |v.structures| && ss == FixedUpTo(v.structures, i, rel)
        invariant forall k :: 0 <= k < i ==> Processable(v.structures[k], rel)
        invariant walk == Walked(w, v.structures, i)
        invariant Seed(isSeeded, mainVolumeName) == SeedOf(Seed(old(isSeeded), old(mainVolumeName)), v.structures, i)
      {
        var s := ss[i];
        if IsSystemSeed(s) {
          isSeeded, mainVolumeName := true, s.volumeName;
        }
        walk := Step(walk, s);
        ok, s := ProcessStructure(s, rel);
        if !ok {
          return;
        }
        ss := ss[i := s];
      }
      volumes := volumes[name := v.(structures := ss)];
      ok := true;
    }

    /** The loop over the volumes. */
    method FixVolumes() returns (ok: bool, walk: Walk, lastVolumeName: string)
      requires Valid()
      modifies `volumes, `isSeeded, `mainVolumeName
      ensures ok <==> FirstBad(old(volumes), volumeOrder, 0, rel) == |volumeOrder|
      ensures ok ==> volumes == FixedFirst(old(volumes), volumeOrder, |volumeOrder|, rel)
      ensures ok ==> walk == WalkedVolumes(old(volumes), volumeOrder, |volumeOrder|)
      ensures ok ==> Seed(isSeeded, mainVolumeName) ==
                     SeedOfVolumes(Seed(old(isSeeded), old(mainVolumeName)), old(volumes), volumeOrder, |volumeOrder|)
      ensures ok && volumeOrder != [] ==> lastVolumeName == volumeOrder[|volumeOrder| - 1]
    {
      walk, lastVolumeName := Walk(false, 0, false), "";
      ghost var vs, seed := volumes, Seed(isSeeded, mainVolumeName);
      for k := 0 to |volumeOrder|
        invariant volumes == FixedFirst(vs, volumeOrder, k, rel)
        invariant FirstBad(vs, volumeOrder, k, rel) == FirstBad(vs, volumeOrder, 0, rel)
        invariant walk == WalkedVolumes(vs, volumeOrder, k)
        invariant Seed(isSeeded, mainVolumeName) == SeedOfVolumes(seed, vs, volumeOrder, k)
        invariant k > 0 ==> lastVolumeName == volumeOrder[k - 1]
      {
        lastVolumeName := volumeOrder[k];
        FixedFirstAt(vs, volumeOrder, k, k, rel);
        ok, walk := FixVolume(lastVolumeName, walk);
        if !ok {
          return;
        }
      }
      ok := true;
    }

    method PostProcess() returns (ok: bool)
      requires Valid()
      modifies `volumes, `isSeeded, `mainVolumeName
      ensures ok <==> FirstBad(old(volumes), volumeOrder, 0, rel) == |volumeOrder|
      ensures ok ==>
                var walk := WalkedVolumes(old(volumes), volumeOrder, |volumeOrder|);
                volumes == PostProcessedVolumes(old(volumes), walk, rel)
      ensures ok ==> Seed(isSeeded, mainVolumeName) ==
                     SeedOfVolumes(Seed(old(isSeeded), old(mainVolumeName)), old(volumes), volumeOrder, |volumeOrder|)
    {
      var walk, lastVolumeName;
      ok, walk, lastVolumeName := FixVolumes();
      if ok {
        LoneVolume(old(volumes), volumeOrder);
        AllFixed(old(volumes), volumeOrder, rel);
        FixMissingSystemData(lastVolumeName, walk);
        AddedRootfs(old(volumes), walk, lastVolumeName, rel);
      }
    }

    method FixMissingSystemData(lastVolumeName: string, w: Walk)
      requires |volumes| == 1 ==> lastVolumeName in volumes
      modifies `volumes
      ensures volumes == WithMissingRootfs(old(volumes), w, lastVolumeName)
    {
      if w.offsetUnknown || w.rootfsSeen || |volumes| != 1 {
        return;
      }
      var v := volumes[lastVolumeName];
      volumes := volumes[lastVolumeName := v.(structures := v.structures + [NewRootfs(w.farthest, |v.structures|)])];
    }
  }

  function WithMissingRootfs(volumes: map<string, Volume>, w: Walk, last: string): map<string, Volume>
    requires |volumes| == 1 ==> last in volumes
  {
    if w.offsetUnknown || w.rootfsSeen || |volumes| != 1 then volumes
    else volumes[last := volumes[last].(structures :=
                    volumes[last].structures + [NewRootfs(w.farthest, |volumes[last].structures|)])]
  }

  lemma AddedRootfs(volumes: map<string, Volume>, w: Walk, last: string, rel: Option<string>)
    requires |volumes| == 1 ==> volumes.Keys == {last}
    ensures |FixedVolumes(volumes, rel)| == |volumes|
    ensures WithMissingRootfs(FixedVolumes(volumes, rel), w, last) == PostProcessedVolumes(volumes, w, rel)
  {
    assert FixedVolumes(volumes, rel).Keys == volumes.Keys;
    assert |FixedVolumes(volumes, rel).Keys| == |FixedVolumes(volumes, rel)|;
  }

  // ----- the volumes in order

  /** The first volume from position k on that cannot be processed, or the number of volumes. */
  function FirstBad(volumes: map<string, Volume>, order: seq<string>, k: nat, rel: Option<string>): (r: nat)
    requires k <= |order| && forall n :: n in order ==> n in volumes
    ensures k <= r <= |order| && (r < |order| ==> !AllProcessable(volumes[order[r]].structures, rel))
    ensures forall j :: k <= j < r ==> AllProcessable(volumes[order[j]].structures, rel)
    decreases |order| - k
  {
    if k == |order| || !AllProcessable(volumes[order[k]].structures, rel) then k
    else FirstBad(volumes, order, k + 1, rel)
  }

  /** The outcome of the walk over the first k volumes in order. */
  function WalkedVolumes(volumes: map<string, Volume>, order: seq<string>, k: nat): Walk
    requires k <= |order| && forall n :: n in order ==> n in volumes
  {
    if k == 0 then Walk(false, 0, false)
    else
      var ss := volumes[order[k - 1]].structures;
      Walked(WalkedVolumes(volumes, order, k - 1), ss, |ss|)
  }

  function SeedOfVolumes(before: Seed, volumes: map<string, Volume>, order: seq<string>, k: nat): Seed
    requires k <= |order| && forall n :: n in order ==> n in volumes
  {
    if k == 0 then before
    else
      var ss := volumes[order[k - 1]].structures;
      SeedOf(SeedOfVolumes(before, volumes, order, k - 1), ss, |ss|)
  }

  /** A gadget is seeded exactly when some structure is a system-seed, and then one of those names the main volume. */
  lemma {:induction false} SeedMeans(before: Seed, volumes: map<string, Volume>, order: seq<string>, k: nat)
    requires k <= |order| && forall n :: n in order ==> n in volumes
    ensures var seed := SeedOfVolumes(before, volumes, order, k);
            && (seed.found <==> before.found || exists j, s :: 0 <= j < k && IsSeedIn(volumes, order, j, s))
            && (seed == before
                || exists j, s :: 0 <= j < k && IsSeedIn(volumes, order, j, s) && seed.mainVolume == s.volumeName)
  {
    if k > 0 {
      SeedMeans(before, volumes, order, k - 1);
      var ss := volumes[order[k - 1]].structures;
      SeedInVolume(SeedOfVolumes(before, volumes, order, k - 1), volumes, order, k - 1, |ss|);
    }
  }

  ghost predicate IsSeedIn(volumes: map<string, Volume>, order: seq<string>, j: nat, s: VolumeStructure)
    requires j < |order| && order[j] in volumes
  {
    s in volumes[order[j]].structures && IsSystemSeed(s)
  }

  lemma {:induction false} SeedInVolume(before: Seed, volumes: map<string, Volume>, order: seq<string>, j: nat, n: nat)
    requires j < |order| && order[j] in volumes && n <= |volumes[order[j]].structures|
    ensures var ss := volumes[order[j]].structures;
            var seed := SeedOf(before, ss, n);
            && (seed.found <==> before.found || exists i :: 0 <= i < n && IsSystemSeed(ss[i]))
            && (seed == before || exists s :: IsSeedIn(volumes, order, j, s) && seed.mainVolume == s.volumeName)
  {
    if n > 0 {
      SeedInVolume(before, volumes, order, j, n - 1);
      if IsSystemSeed(volumes[order[j]].structures[n - 1]) {
        assert IsSeedIn(volumes, order, j, volumes[order[j]].structures[n - 1]);
      }
    }
  }

  function FixedFirst(volumes: map<string, Volume>, order: seq<string>, k: nat, rel: Option<string>)
    : (r: map<string, Volume>)
    requires k <= |order| && forall n :: n in order ==> n in volumes
    ensures r.Keys == volumes.Keys
  {
    if k == 0 then volumes
    else FixedFirst(volumes, order, k - 1, rel)[order[k - 1] := FixedVolume(volumes[order[k - 1]], rel)]
  }

  lemma {:induction false} FixedFirstAt(volumes: map<string, Volume>, order: seq<string>, k: nat, j: nat,
                                        rel: Option<string>)
    requires k <= |order| && j < |order| && forall n :: n in order ==> n in volumes
    requires forall a, b :: 0 <= a < b < |order| ==> order[a] != order[b]
    ensures FixedFirst(volumes, order, k, rel)[order[j]] ==
            if j < k then FixedVolume(volumes[order[j]], rel) else volumes[order[j]]
  {
    if k > 0 {
      FixedFirstAt(volumes, order, k - 1, j, rel);
      if j != k - 1 {
        assert order[j] != order[k - 1];
      }
    }
  }

  lemma FixedFirstOf(volumes: map<string, Volume>, order: seq<string>, n: string, rel: Option<string>)
    requires (forall m :: m in order ==> m in volumes) && n in order
    requires forall a, b :: 0 <= a < b < |order| ==> order[a] != order[b]
    ensures FixedFirst(volumes, order, |order|, rel)[n] == FixedVolume(volumes[n], rel)
  {
    var j :| 0 <= j < |order| && order[j] == n;
    FixedFirstAt(volumes, order, |order|, j, rel);
  }

  lemma SameMap<K, V>(a: map<K, V>, b: map<K, V>)
    requires a.Keys == b.Keys && forall k :: k in a ==> a[k] == b[k]
    ensures a == b
  {
  }

  lemma AllFixed(volumes: map<string, Volume>, order: seq<string>, rel: Option<string>)
    requires forall n :: n in order <==> n in volumes
    requires forall a, b :: 0 <= a < b < |order| ==> order[a] != order[b]
    ensures FixedFirst(volumes, order, |order|, rel) == FixedVolumes(volumes, rel)
  {
    var first := FixedFirst(volumes, order, |order|, rel);
    forall n | n in first ensures first[n] == FixedVolumes(volumes, rel)[n] {
      FixedFirstOf(volumes, order, n, rel);
    }
    SameMap(first, FixedVolumes(volumes, rel));
  }

  /** One round of the inner loop, for the structure alone. */
  method ProcessStructure(s: VolumeStructure, rel: Option<string>) returns (ok: bool, r: VolumeStructure)
    ensures ok <==> Processable(s, rel)
    ensures ok ==> r == Fixed(s, rel)
  {
    r := s;
    if IsSystemSeed(s) && s.fsLabel == "" {
      r := s.(fsLabel := s.name);
    }
    ok := ContentAllowed(r);
    if ok {
      ok, r := HandleRootfsScheme(r, rel);
      if ok {
        r := FixMissingContent(r);
      }
    }
  }

  method HandleRootfsScheme(s: VolumeStructure, rel: Option<string>) returns (ok: bool, r: VolumeStructure)
    ensures ok <==> (IsSystemBoot(s) ==> rel.Some?)
    ensures ok ==> r == Resolved(s, rel)
  {
    ok, r := true, s;
    if IsSystemBoot(s) {
      if rel.None? {
        return false, s;
      }
      if s.content.Some? {
        var contents := s.content.value;
        for j := 0 to |contents|
          invariant |contents| == |s.content.value| && contents == ResolvedUpTo(s.content.value, j, rel.value)
        {
          contents := contents[j := contents[j].(source := ResolvedSource(contents[j].source, rel.value))];
        }
        r := s.(content := Some(contents));
      }
    }
  }

  method FixMissingContent(s: VolumeStructure) returns (r: VolumeStructure)
    ensures r == if (IsRootfs(s) || IsSystemSeed(s)) && s.content.None? then s.(content := Some([])) else s
  {
    r := s;
    if (IsRootfs(r) || IsSystemSeed(r)) && r.content.None? {
      r := r.(content := Some([]));
    }
  }

  /** A source in the root filesystem leads there; any other stays as it is. */
  lemma SourceIsResolved(path: string, rootfs: string)
    requires !Contains(path, ROOTFS_SCHEME)
    ensures ResolvedSource(ROOTFS_SCHEME + path, rootfs) == rootfs + path
    ensures ResolvedSource(path, rootfs) == path
  {
    ReplaceNone(path, ROOTFS_SCHEME, rootfs);
    assert (ROOTFS_SCHEME + path)[|ROOTFS_SCHEME|..] == path;
    assert (ROOTFS_SCHEME + path)[..|ROOTFS_SCHEME|] == ROOTFS_SCHEME;
  }

  lemma ParentPathIsLater(path: string)
    ensures HasParentPath(ROOTFS_SCHEME + path) ==> HasParentPath(path)
  {
    var source := ROOTFS_SCHEME + path;
    if i :| 0 <= i <= |source| - 3 && source[i] == '.' && source[i + 1] == '.' && source[i + 2] == '/' {
      assert i >= |ROOTFS_SCHEME|;
      var j := i - |ROOTFS_SCHEME|;
      assert path[j] == '.' && path[j + 1] == '.' && path[j + 2] == '/';
    }
  }

  /**
   The check for parent paths precedes the resolution: a source in the root filesystem passes even when the path to it
   climbs, and the result would not pass.
   */
  lemma ResolutionMayClimb(s: VolumeStructure, c: Content, path: string, rootfs: string)
    requires s.content == Some([c]) && c.source == ROOTFS_SCHEME + path && IsSystemBoot(Labelled(s))
    requires !Contains(path, ROOTFS_SCHEME) && !HasParentPath(path)
    ensures Processable(s, Some(rootfs))
    ensures Processable(Fixed(s, Some(rootfs)), Some(rootfs)) <==> !HasParentPath(rootfs + path)
  {
    SourceIsResolved(path, rootfs);
    ParentPathIsLater(path);
    assert Fixed(s, Some(rootfs)).content.value[0].source == rootfs + path;
  }

  predicate AllProcessable(ss: seq<VolumeStructure>, rel: Option<string>) {
    forall i :: 0 <= i < |ss| ==> Processable(ss[i], rel)
  }

  function FixedVolume(v: Volume, rel: Option<string>): Volume {
    v.(structures := FixedAll(v.structures, rel))
  }

  function FixedVolumes(volumes: map<string, Volume>, rel: Option<string>): map<string, Volume> {
    map n | n in volumes :: FixedVolume(volumes[n], rel)
  }

  function PostProcessedVolumes(volumes: map<string, Volume>, w: Walk, rel: Option<string>): map<string, Volume> {
    map n | n in volumes :: volumes[n].(structures := PostProcessed(volumes[n].structures, w, |volumes| == 1, rel))
  }

  /** When there is one volume, the last in order is that one. */
  lemma LoneVolume(volumes: map<string, Volume>, order: seq<string>)
    requires forall n :: n in order <==> n in volumes
    ensures |volumes| == 1 ==> order != [] && volumes.Keys == {order[|order| - 1]}
  {
    if |volumes| == 1 {
      var n :| n in volumes;
      assert |volumes.Keys - {n}| == 0;
      assert volumes.Keys == {n};
      assert n in order;
      assert order[|order| - 1] in order;
    }
  }

  // ----- the added root filesystem

  predicate AllOffsetsKnown(ss: seq<VolumeStructure>) {
    forall i :: 0 <= i < |ss| ==> ss[i].offset.Some?
  }

  lemma {:induction false} WalkedMeans(ss: seq<VolumeStructure>, n: nat)
    requires n <= |ss|
    ensures var w := Walked(Walk(false, 0, false), ss, n);
            && (w.rootfsSeen <==> exists i :: 0 <= i < n && IsRootfs(ss[i]))
            && (w.offsetUnknown <==> exists i :: 0 <= i < n && ss[i].offset.None?)
            && (forall i :: 0 <= i < n && ss[i].offset.Some? ==> ss[i].offset.value + ss[i].size <= w.farthest)
            && (w.farthest == 0 || exists i :: 0 <= i < n && ss[i].offset.Some?
                                               && w.farthest == ss[i].offset.value + ss[i].size)
  {
    if n > 0 {
      WalkedMeans(ss, n - 1);
    }
  }

  /** The structures of a gadget with one volume. */
  function LonePostProcessed(ss: seq<VolumeStructure>, rel: Option<string>): seq<VolumeStructure> {
    PostProcessed(ss, Walked(Walk(false, 0, false), ss, |ss|), true, rel)
  }

  lemma FixKeepsLayout(ss: seq<VolumeStructure>, added: seq<VolumeStructure>, i: nat, rel: Option<string>)
    requires i < |ss|
    ensures var r := FixedAll(ss, rel) + added;
            r[i] == Fixed(ss[i], rel) && Start(r, i) == Start(ss, i) && End(r, i) == End(ss, i)
  {
    StartOfPrefix(FixedAll(ss, rel) + added, ss, i);
  }

  /**
   One rootfs is added exactly when all offsets are known and no structure is a rootfs yet. It starts where the
   farthest structure ends, so at or beyond the end of every structure.
   */
  lemma RootfsIsAddedIff(ss: seq<VolumeStructure>, rel: Option<string>)
    ensures var r := LonePostProcessed(ss, rel);
            && (|r| == |ss| + 1 <==> AllOffsetsKnown(ss) && forall i :: 0 <= i < |ss| ==> !IsRootfs(ss[i]))
            && (|r| != |ss| + 1 ==> r == FixedAll(ss, rel))
            && (|r| == |ss| + 1 ==>
                  && r[..|ss|] == FixedAll(ss, rel) && IsRootfs(r[|ss|])
                  && (forall i :: 0 <= i < |ss| ==> End(r, i) <= Start(r, |ss|))
                  && (Start(r, |ss|) == 0 || exists i :: 0 <= i < |ss| && Start(r, |ss|) == End(r, i)))
  {
    var w := Walked(Walk(false, 0, false), ss, |ss|);
    var r := LonePostProcessed(ss, rel);
    WalkedMeans(ss, |ss|);
    if |r| == |ss| + 1 {
      assert r == FixedAll(ss, rel) + [NewRootfs(w.farthest, |ss|)];
      forall i | 0 <= i < |ss| ensures End(r, i) == ss[i].offset.value + ss[i].size <= Start(r, |ss|) {
        FixKeepsLayout(ss, [NewRootfs(w.farthest, |ss|)], i, rel);
      }
      if w.farthest != 0 {
        var i :| 0 <= i < |ss| && w.farthest == ss[i].offset.value + ss[i].size;
        assert Start(r, |ss|) == End(r, i);
      }
    }
  }

  ghost predicate DisjointExtents(ss: seq<VolumeStructure>) {
    forall i, j :: 0 <= i < j < |ss| ==> End(ss, i) <= Start(ss, j) || End(ss, j) <= Start(ss, i)
  }

  /** Disjoint extents stay disjoint when the rootfs is added and whatever size it is raised to. */
  lemma AddedRootfsStaysDisjoint(ss: seq<VolumeStructure>, size: nat, rel: Option<string>)
    requires AllOffsetsKnown(ss) && DisjointExtents(ss) && forall i :: 0 <= i < |ss| ==> !IsRootfs(ss[i])
    ensures var r := LonePostProcessed(ss, rel);
            |r| == |ss| + 1 && DisjointExtents(r[|ss| := Sizing.Raised(r[|ss|], size)])
  {
    var r := LonePostProcessed(ss, rel);
    RootfsIsAddedIff(ss, rel);
    var raised := r[|ss| := Sizing.Raised(r[|ss|], size)];
    forall i | 0 <= i < |r|
      ensures Start(raised, i) == Start(r, i)
      ensures i < |ss| ==> End(raised, i) == End(r, i) == End(ss, i) && Start(r, i) == Start(ss, i)
    {
      StartOfPrefix(raised, r, i);
      if i < |ss| {
        assert r == FixedAll(ss, rel) + [r[|ss|]];
        FixKeepsLayout(ss, [r[|ss|]], i, rel);
      }
    }
  }

  /** Labels that number the structures of the file are distinct and stay so with the fresh label of the rootfs. */
  lemma AddedLabelIsFresh(ss: seq<VolumeStructure>, rel: Option<string>)
    requires InjectiveLabels(ss) && forall i :: 0 <= i < |ss| ==> 0 <= ss[i].yamlIndex < |ss|
    ensures InjectiveLabels(LonePostProcessed(ss, rel))
  {
    var r := LonePostProcessed(ss, rel);
    assert forall i :: 0 <= i < |ss| ==> r[i].yamlIndex == ss[i].yamlIndex;
  }

  /**
   On an ordered volume of fixed-size structures the added rootfs is last and contiguous, which is what makes the
   program honour a requested image size (Sizing.ContiguousRequestIsHonouredIff).
   */
  lemma AddedRootfsIsLastAndContiguous(ss: seq<VolumeStructure>, rel: Option<string>)
    requires AllOffsetsKnown(ss) && Ordered(ss)
    requires forall i :: 0 <= i < |ss| ==> !IsRootfs(ss[i]) && ss[i].minSize == ss[i].size
    ensures Sizing.RootfsLast(LonePostProcessed(ss, rel)) && Sizing.Contiguous(LonePostProcessed(ss, rel))
  {
    var r := LonePostProcessed(ss, rel);
    RootfsIsAddedIff(ss, rel);
    AddedRootfsStart(ss, rel);
    assert r == FixedAll(ss, rel) + [r[|ss|]];
    AppendedIsLastAndContiguous(ss, r[|ss|], r, rel);
  }

  lemma AppendedIsLastAndContiguous(ss: seq<VolumeStructure>, x: VolumeStructure, r: seq<VolumeStructure>,
                                    rel: Option<string>)
    requires Ordered(ss) && forall i :: 0 <= i < |ss| ==> !IsRootfs(ss[i]) && ss[i].minSize == ss[i].size
    requires r == FixedAll(ss, rel) + [x] && IsRootfs(x) && Start(r, |ss|) == EndOf(ss, |ss|) == EndOf(r, |ss|)
    ensures Sizing.RootfsLast(r) && Sizing.Contiguous(r)
  {
    OrderedAppend(ss, x, r, rel);
    forall i | 0 <= i < |ss| ensures !IsRootfs(r[i]) && r[i].minSize == r[i].size {
      assert r[i] == Fixed(ss[i], rel);
    }
  }

  lemma OrderedAppend(ss: seq<VolumeStructure>, x: VolumeStructure, r: seq<VolumeStructure>, rel: Option<string>)
    requires Ordered(ss) && r == FixedAll(ss, rel) + [x] && Start(r, |ss|) == EndOf(ss, |ss|)
    ensures Ordered(r)
  {
    forall i | 0 < i < |r| ensures End(r, i - 1) <= Start(r, i) {
      FixKeepsLayout(ss, [x], i - 1, rel);
      if i < |ss| {
        FixKeepsLayout(ss, [x], i, rel);
        assert End(ss, i - 1) <= Start(ss, i);
      }
    }
  }

  lemma AddedRootfsStart(ss: seq<VolumeStructure>, rel: Option<string>)
    requires AllOffsetsKnown(ss) && Ordered(ss) && forall i :: 0 <= i < |ss| ==> !IsRootfs(ss[i])
    ensures var r := LonePostProcessed(ss, rel);
            |r| == |ss| + 1 && Start(r, |ss|) == EndOf(ss, |ss|) == EndOf(r, |ss|)
  {
    var r := LonePostProcessed(ss, rel);
    RootfsIsAddedIff(ss, rel);
    assert r == FixedAll(ss, rel) + [r[|ss|]];
    forall i | 0 <= i < |ss| ensures End(r, i) == End(ss, i) <= EndOf(ss, |ss|) {
      FixKeepsLayout(ss, [r[|ss|]], i, rel);
      OrderedEndsInVolume(ss, i);
    }
  }
}
