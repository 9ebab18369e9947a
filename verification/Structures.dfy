/**
 Gadget volumes and their structures, the role tests that every layout loop shares, and the layout that snapd derives
 from a volume: a structure starts at its explicit offset or else where the previous one ends.
 */
module Structures {
  import opened Quantities

  datatype Role =
    | NoRole
    | MbrRole
    | SystemBoot
    | SystemBootState
    | SystemData
    | SystemSave
    | SystemSeed
    | OtherRole(roleName: string)

  datatype Schema = Mbr | Gpt | Emmc | OtherSchema

  /** The type field: "bare", one type, or an MBR and a GPT type separated by a comma. */
  datatype StructureType = Bare | Single(id: string) | Hybrid(mbrType: string, gptType: string)

  datatype Content = Content(image: string, source: string, offset: Option<nat>, size: nat)

  datatype VolumeStructure = VolumeStructure(
    name: string,
    fsLabel: string,
    role: Role,
    typ: StructureType,
    offset: Option<nat>,
    size: nat,
    minSize: nat,
    filesystem: string,
    content: Option<seq<Content>>,
    offsetWrite: Option<nat>,
    yamlIndex: int,
    volumeName: string)

  datatype Volume = Volume(name: string, schema: Schema, bootloader: string, structures: seq<VolumeStructure>)

  const SYSTEM_BOOT_LABEL := "system-boot"

  predicate IsRootfs(s: VolumeStructure) {
    s.role == SystemData
  }

  predicate IsSystemBoot(s: VolumeStructure) {
    s.role == SystemBoot || s.fsLabel == SYSTEM_BOOT_LABEL
  }

  predicate IsSystemSeed(s: VolumeStructure) {
    s.role == SystemSeed
  }

  predicate IsBiosBoot(s: VolumeStructure) {
    s.role == SystemBoot && HasBiosPrefix(s.name)
  }

  /** strings.HasPrefix(name, "BIOS") */
  predicate HasBiosPrefix(name: string) {
    |name| >= 4 && name[0] == 'B' && name[1] == 'I' && name[2] == 'O' && name[3] == 'S'
  }

  predicate IsPartition(s: VolumeStructure) {
    s.typ != Bare && s.role != MbrRole
  }

  predicate ShouldSkip(s: VolumeStructure, seeded: bool) {
    seeded && (IsSystemBoot(s) || s.role == SystemData || s.role == SystemSave)
  }

  // ----- layout

  datatype OnDisk = OnDisk(name: string, start: nat, size: nat)

  function Start(ss: seq<VolumeStructure>, i: nat): nat
    requires i < |ss|
  {
    if ss[i].offset.Some? then ss[i].offset.value
    else if i == 0 then 0
    else Start(ss, i - 1) + ss[i - 1].size
  }

  function End(ss: seq<VolumeStructure>, i: nat): nat
    requires i < |ss|
  {
    Start(ss, i) + ss[i].size
  }

  /** Where the first n structures end. */
  function EndOf(ss: seq<VolumeStructure>, n: nat): nat
    requires n <= |ss|
  {
    if n == 0 then 0 else End(ss, n - 1)
  }

  /** The same walk over the minimal sizes. */
  function MinEndOf(ss: seq<VolumeStructure>, n: nat): nat
    requires n <= |ss|
  {
    if n == 0 then 0
    else (if ss[n - 1].offset.Some? then ss[n - 1].offset.value else MinEndOf(ss, n - 1)) + ss[n - 1].minSize
  }

  /** snapd's Volume.Size and Volume.MinSize. */
  function VolumeSize(ss: seq<VolumeStructure>): nat {
    EndOf(ss, |ss|)
  }

  function VolumeMinSize(ss: seq<VolumeStructure>): nat {
    MinEndOf(ss, |ss|)
  }

  /** Structures follow one another on disk without overlap, as gadget validation demands. */
  ghost predicate Ordered(ss: seq<VolumeStructure>) {
    forall i :: 0 < i < |ss| ==> End(ss, i - 1) <= Start(ss, i)
  }

  lemma {:induction false} OrderedExtents(ss: seq<VolumeStructure>, i: nat, j: nat)
    requires Ordered(ss) && i < j < |ss|
    ensures End(ss, i) <= Start(ss, j)
    decreases j
  {
    if i < j - 1 {
      OrderedExtents(ss, i, j - 1);
    }
  }

  lemma OrderedEndsInVolume(ss: seq<VolumeStructure>, i: nat)
    requires Ordered(ss) && i < |ss|
    ensures End(ss, i) <= VolumeSize(ss)
  {
    if i < |ss| - 1 {
      OrderedExtents(ss, i, |ss| - 1);
    }
  }

  lemma {:induction false} StartOfPrefix(ss: seq<VolumeStructure>, ts: seq<VolumeStructure>, i: nat)
    requires i < |ss| && i < |ts| && SameLayoutUpTo(ss, ts, i)
    ensures Start(ss, i) == Start(ts, i)
  {
    if i > 0 {
      StartOfPrefix(ss, ts, i - 1);
    }
  }

  /** The data that the start of structure `i` depends on is the same in both volumes. */
  ghost predicate SameLayoutUpTo(ss: seq<VolumeStructure>, ts: seq<VolumeStructure>, i: nat)
    requires i < |ss| && i < |ts|
  {
    && (forall k :: 0 <= k <= i ==> ss[k].offset == ts[k].offset)
    && (forall k :: 0 <= k < i ==> ss[k].size == ts[k].size)
  }

  // ----- lookups by YAML index

  function Extent(ss: seq<VolumeStructure>, i: nat): OnDisk
    requires i < |ss|
  {
    OnDisk(ss[i].name, Start(ss, i), ss[i].size)
  }

  /** The map snapd builds over the first n structures; a repeated YAML index overwrites the earlier entry. */
  function OnDiskMap(ss: seq<VolumeStructure>, n: nat): (m: map<int, OnDisk>)
    requires n <= |ss|
    ensures forall i :: 0 <= i < n ==> ss[i].yamlIndex in m
  {
    if n == 0 then map[] else OnDiskMap(ss, n - 1)[ss[n - 1].yamlIndex := Extent(ss, n - 1)]
  }

  /** What GeneratePartitionTable and copyDataToImage read for structure i. */
  function Lookup(ss: seq<VolumeStructure>, i: nat): OnDisk
    requires i < |ss|
  {
    OnDiskMap(ss, |ss|)[ss[i].yamlIndex]
  }

  ghost predicate InjectiveLabels(ss: seq<VolumeStructure>) {
    forall i, j :: 0 <= i < j < |ss| ==> ss[i].yamlIndex != ss[j].yamlIndex
  }

  lemma {:induction false} LookupFindsSomeNamesake(ss: seq<VolumeStructure>, n: nat, i: nat)
    requires i < n <= |ss|
    ensures exists j :: 0 <= j < n && ss[j].yamlIndex == ss[i].yamlIndex
                        && OnDiskMap(ss, n)[ss[i].yamlIndex] == Extent(ss, j)
  {
    if ss[n - 1].yamlIndex == ss[i].yamlIndex {
      assert OnDiskMap(ss, n)[ss[i].yamlIndex] == Extent(ss, n - 1);
    } else {
      LookupFindsSomeNamesake(ss, n - 1, i);
    }
  }

  /** Looking structures up by YAML index gives their own extents exactly when namesakes share an extent. */
  lemma LookupIsPositionalIff(ss: seq<VolumeStructure>)
    ensures (forall i :: 0 <= i < |ss| ==> Lookup(ss, i) == Extent(ss, i))
       <==> (forall i, j :: 0 <= i < |ss| && 0 <= j < |ss| && ss[i].yamlIndex == ss[j].yamlIndex
                            ==> Extent(ss, i) == Extent(ss, j))
  {
    if forall i, j :: 0 <= i < |ss| && 0 <= j < |ss| && ss[i].yamlIndex == ss[j].yamlIndex
                      ==> Extent(ss, i) == Extent(ss, j) {
      forall i | 0 <= i < |ss| ensures Lookup(ss, i) == Extent(ss, i) {
        LookupFindsSomeNamesake(ss, |ss|, i);
      }
    }
    if forall i :: 0 <= i < |ss| ==> Lookup(ss, i) == Extent(ss, i) {
      forall i, j | 0 <= i < |ss| && 0 <= j < |ss| && ss[i].yamlIndex == ss[j].yamlIndex
        ensures Extent(ss, i) == Extent(ss, j)
      {
        assert Extent(ss, i) == Lookup(ss, i) == Lookup(ss, j) == Extent(ss, j);
      }
    }
  }

  lemma InjectiveLookup(ss: seq<VolumeStructure>, i: nat)
    requires InjectiveLabels(ss) && i < |ss|
    ensures Lookup(ss, i) == Extent(ss, i)
  {
    LookupIsPositionalIff(ss);
  }

  /** The two volumes differ at most in their YAML indices. */
  ghost predicate SameButLabels(ss: seq<VolumeStructure>, ts: seq<VolumeStructure>) {
    |ss| == |ts| && forall i :: 0 <= i < |ss| ==> ss[i].(yamlIndex := 0) == ts[i].(yamlIndex := 0)
  }

  lemma RelabelKeepsStructure(ss: seq<VolumeStructure>, ts: seq<VolumeStructure>, i: nat)
    requires SameButLabels(ss, ts) && i < |ss|
    ensures ss[i] == ts[i].(yamlIndex := ss[i].yamlIndex)
    ensures Extent(ss, i) == Extent(ts, i)
  {
    assert forall k :: 0 <= k < |ss| ==> ss[k].(yamlIndex := 0) == ts[k].(yamlIndex := 0);
    assert forall k :: 0 <= k < |ss| ==>
      ss[k].(yamlIndex := 0).offset == ss[k].offset && ts[k].(yamlIndex := 0).offset == ts[k].offset;
    assert forall k :: 0 <= k < |ss| ==>
      ss[k].(yamlIndex := 0).size == ss[k].size && ts[k].(yamlIndex := 0).size == ts[k].size;
    assert ss[i] == ss[i].(yamlIndex := 0).(yamlIndex := ss[i].yamlIndex);
    StartOfPrefix(ss, ts, i);
  }

  /** Any two injective labellings of a volume make every lookup read the same extent. */
  lemma LookupIgnoresLabels(ss: seq<VolumeStructure>, ts: seq<VolumeStructure>, i: nat)
    requires SameButLabels(ss, ts) && InjectiveLabels(ss) && InjectiveLabels(ts) && i < |ss|
    ensures Lookup(ss, i) == Lookup(ts, i)
  {
    InjectiveLookup(ss, i);
    InjectiveLookup(ts, i);
    RelabelKeepsStructure(ss, ts, i);
  }

  /** rebuildYamlIndex: every structure gets its position as label. */
  function Reindexed(ss: seq<VolumeStructure>): (r: seq<VolumeStructure>)
    ensures SameButLabels(ss, r) && InjectiveLabels(r)
  {
    seq(|ss|, i requires 0 <= i < |ss| => ss[i].(yamlIndex := i))
  }
}
