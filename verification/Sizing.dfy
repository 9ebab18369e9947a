/** Sizes of the root filesystem and of the disk image: what the sizing states compute, and what follows from it. */
module Sizing {
  import opened Quantities
  import opened Structures
  import opened PartitionTable

  const EXT4_PADDING: nat := 8 * 1024 * 1024

  /** getRootfsMinSize: the content with a half on top, padded for filesystem metadata. */
  function PaddedContent(contentSize: nat, sectorSize: nat): nat
    requires sectorSize > 0
  {
    AlignUp((3 * contentSize + 1) / 2 + EXT4_PADDING, sectorSize)
  }

  /** calculateNoRootfsSize over the first n structures. */
  function NoRootfsSize(ss: seq<VolumeStructure>, n: nat): nat
    requires n <= |ss|
  {
    if n == 0 then 0
    else
      var size := NoRootfsSize(ss, n - 1);
      var s := ss[n - 1];
      if IsRootfs(s) then size
      else Max(size, if s.offset.Some? then s.offset.value else 0) + s.minSize
  }

  /** getRootfsDesiredSize: what a requested image size leaves for the rootfs. */
  function DesiredSize(v: Volume, request: Option<nat>, sectorSize: nat): Option<nat>
    requires sectorSize > 0
  {
    if request.None? then None
    else
      var reserved := NoRootfsSize(v.structures, |v.structures|) + TableSize(v.schema, sectorSize);
      Some(AlignUp(SafeSubtract(request.value, reserved), sectorSize))
  }

  /** The rootfs size is the largest of the padded content, the gadget minimum and the desired size. */
  function RootfsSize(padded: nat, gadgetMin: nat, desired: Option<nat>): nat {
    Max(Max(padded, gadgetMin), if desired.Some? then desired.value else 0)
  }

  function GadgetMin(s: VolumeStructure, sectorSize: nat): nat
    requires sectorSize > 0
  {
    AlignUp(s.minSize, sectorSize)
  }

  /** raiseStructureSizes */
  function Raised(s: VolumeStructure, size: nat): VolumeStructure {
    s.(minSize := Max(s.minSize, size), size := Max(s.size, size))
  }

  /** The rootfs size that calculateRootfsSize gives to structure r of the volume. */
  function SizeOfRootfs(v: Volume, r: nat, contentSize: nat, request: Option<nat>, sectorSize: nat): nat
    requires sectorSize > 0 && r < |v.structures|
  {
    RootfsSize(PaddedContent(contentSize, sectorSize), GadgetMin(v.structures[r], sectorSize),
               DesiredSize(v, request, sectorSize))
  }

  function WithRootfsRaised(v: Volume, r: nat, size: nat): Volume
    requires r < |v.structures|
  {
    v.(structures := v.structures[r := Raised(v.structures[r], size)])
  }

  /** createDiskImage: the larger of volume and request, rounded up, and room for the partition table. */
  function DiskSize(v: Volume, request: Option<nat>, sectorSize: nat): nat
    requires sectorSize > 0
  {
    var size := VolumeSize(v.structures);
    AlignUp(if request.Some? then Max(size, request.value) else size, sectorSize) + TableSize(v.schema, sectorSize)
  }

  // ----- calculateRootfsSize

  lemma RootfsSizeIsAligned(v: Volume, r: nat, contentSize: nat, request: Option<nat>, sectorSize: nat)
    requires sectorSize > 0 && r < |v.structures|
    ensures Aligned(SizeOfRootfs(v, r, contentSize, request, sectorSize), sectorSize)
  {
    var reserved := NoRootfsSize(v.structures, |v.structures|) + TableSize(v.schema, sectorSize);
    AlignUpIsLeast((3 * contentSize + 1) / 2 + EXT4_PADDING, 0, sectorSize);
    AlignUpIsLeast(v.structures[r].minSize, 0, sectorSize);
    CeilDivAdd(0, 0, sectorSize);
    if request.Some? {
      AlignUpIsLeast(SafeSubtract(request.value, reserved), 0, sectorSize);
    }
  }

  lemma {:induction false} NoRootfsIgnoresRootfs(ss: seq<VolumeStructure>, r: nat, s: VolumeStructure, n: nat)
    requires r < |ss| && n <= |ss| && IsRootfs(ss[r]) && IsRootfs(s)
    ensures NoRootfsSize(ss[r := s], n) == NoRootfsSize(ss, n)
  {
    if n > 0 {
      NoRootfsIgnoresRootfs(ss, r, s, n - 1);
    }
  }

  /** Running calculateRootfsSize again on the sizes it raised changes neither the rootfs size nor the structure. */
  lemma CalculateRootfsSizeIsIdempotent(v: Volume, r: nat, contentSize: nat, request: Option<nat>, sectorSize: nat)
    requires sectorSize > 0 && r < |v.structures| && IsRootfs(v.structures[r])
    ensures var size := SizeOfRootfs(v, r, contentSize, request, sectorSize);
            var raised := WithRootfsRaised(v, r, size);
            && SizeOfRootfs(raised, r, contentSize, request, sectorSize) == size
            && WithRootfsRaised(raised, r, size) == raised
  {
    var size := SizeOfRootfs(v, r, contentSize, request, sectorSize);
    var s := v.structures[r];
    var raised := WithRootfsRaised(v, r, size);
    NoRootfsIgnoresRootfs(v.structures, r, Raised(s, size), |v.structures|);
    RootfsSizeIsAligned(v, r, contentSize, request, sectorSize);
    assert Max(s.minSize, size) == size;
    assert raised.structures[r := Raised(raised.structures[r], size)] == raised.structures;
  }

  // ----- a requested image size

  lemma TableHoldsASector(schema: Schema, sectorSize: nat)
    ensures TableSize(schema, sectorSize) >= sectorSize
  {
    var n := PrimarySectors(sectorSize) + SecondarySectors(sectorSize);
    assert (n - 1) * sectorSize >= 0;
    assert n * sectorSize == (n - 1) * sectorSize + sectorSize;
  }

  /** Only the last structure is the rootfs, and the others have one fixed size. */
  ghost predicate RootfsLast(ss: seq<VolumeStructure>) {
    && ss != []
    && Ordered(ss)
    && IsRootfs(ss[|ss| - 1])
    && (forall i :: 0 <= i < |ss| - 1 ==> !IsRootfs(ss[i]) && ss[i].minSize == ss[i].size)
  }

  /** The last structure follows the one before it directly. */
  predicate Contiguous(ss: seq<VolumeStructure>)
    requires ss != []
  {
    Start(ss, |ss| - 1) == EndOf(ss, |ss| - 1)
  }

  lemma {:induction false} FixedSizes(ss: seq<VolumeStructure>, n: nat)
    requires n <= |ss| && Ordered(ss)
    requires forall i :: 0 <= i < n ==> !IsRootfs(ss[i]) && ss[i].minSize == ss[i].size
    ensures NoRootfsSize(ss, n) == MinEndOf(ss, n) == EndOf(ss, n)
  {
    if n > 0 {
      FixedSizes(ss, n - 1);
      assert n > 1 ==> End(ss, n - 2) <= Start(ss, n - 1);
    }
  }

  lemma {:induction false} MinEndOfPrefix(ss: seq<VolumeStructure>, ts: seq<VolumeStructure>, n: nat)
    requires n <= |ss| && n <= |ts| && forall i :: 0 <= i < n ==> ss[i] == ts[i]
    ensures MinEndOf(ss, n) == MinEndOf(ts, n)
  {
    if n > 0 {
      MinEndOfPrefix(ss, ts, n - 1);
    }
  }

  /** The volume after the sizing states: the rootfs raised, and the request grown to the minimal volume size. */
  function RaisedLast(v: Volume, contentSize: nat, request: nat, sectorSize: nat): Volume
    requires sectorSize > 0 && v.structures != []
  {
    var r := |v.structures| - 1;
    WithRootfsRaised(v, r, SizeOfRootfs(v, r, contentSize, Some(request), sectorSize))
  }

  lemma RaisedLastPrefix(v: Volume, contentSize: nat, request: nat, sectorSize: nat)
    requires sectorSize > 0 && RootfsLast(v.structures)
    ensures var ss, r := v.structures, |v.structures| - 1;
            var raised := RaisedLast(v, contentSize, request, sectorSize).structures;
            && |raised| == |ss| && (forall i :: 0 <= i < r ==> raised[i] == ss[i])
            && raised[r] == Raised(ss[r], SizeOfRootfs(v, r, contentSize, Some(request), sectorSize))
  {
  }

  lemma RaisedSizes(ss: seq<VolumeStructure>, raised: seq<VolumeStructure>, size: nat)
    requires RootfsLast(ss) && |raised| == |ss| && ss[|ss| - 1].minSize <= size
    requires raised[|ss| - 1] == Raised(ss[|ss| - 1], size) && forall i :: 0 <= i < |ss| - 1 ==> raised[i] == ss[i]
    ensures VolumeSize(raised) == Start(ss, |ss| - 1) + Max(ss[|ss| - 1].size, size)
    ensures VolumeMinSize(raised) == Start(ss, |ss| - 1) + size
  {
    var r := |ss| - 1;
    StartOfPrefix(ss, raised, r);
    MinEndOfPrefix(ss, raised, r);
    FixedSizes(ss, r);
  }

  lemma RaisedLastSizes(v: Volume, contentSize: nat, request: nat, sectorSize: nat)
    requires sectorSize > 0 && RootfsLast(v.structures)
    ensures var ss := v.structures;
            var r := |ss| - 1;
            var raised := RaisedLast(v, contentSize, request, sectorSize).structures;
            var size := SizeOfRootfs(v, r, contentSize, Some(request), sectorSize);
            && VolumeSize(raised) == Start(ss, r) + Max(ss[r].size, size)
            && VolumeMinSize(raised) == Start(ss, r) + size
  {
    var r := |v.structures| - 1;
    RaisedLastPrefix(v, contentSize, request, sectorSize);
    RaisedSizes(v.structures, RaisedLast(v, contentSize, request, sectorSize).structures,
                SizeOfRootfs(v, r, contentSize, Some(request), sectorSize));
  }

  /** The space the rootfs needs whatever the request: its content, its gadget minimum and its gadget size. */
  function NeededByRootfs(v: Volume, contentSize: nat, sectorSize: nat): nat
    requires sectorSize > 0 && v.structures != []
  {
    var s := v.structures[|v.structures| - 1];
    Max(s.size, Max(PaddedContent(contentSize, sectorSize), GadgetMin(s, sectorSize)))
  }

  /** Rounding the share of a contiguous rootfs up never pushes the end of the volume past the request. */
  lemma DesiredStaysInRequest(v: Volume, request: nat, sectorSize: nat)
    requires sectorSize > 0 && RootfsLast(v.structures) && Contiguous(v.structures)
    ensures var start := Start(v.structures, |v.structures| - 1);
            var desired := DesiredSize(v, Some(request), sectorSize).value;
            if request < start + TableSize(v.schema, sectorSize) then desired == 0 else start + desired <= request
  {
    var r := |v.structures| - 1;
    FixedSizes(v.structures, r);
    TableHoldsASector(v.schema, sectorSize);
    CeilDivAdd(0, 0, sectorSize);
    assert NoRootfsSize(v.structures, |v.structures|) == NoRootfsSize(v.structures, r);
  }

  /** The final disk is exactly the request rounded up plus the partition table. */
  predicate Honoured(v: Volume, contentSize: nat, request: nat, sectorSize: nat)
    requires sectorSize > 0 && v.structures != []
  {
    var raised := RaisedLast(v, contentSize, request, sectorSize);
    var grown := Max(request, VolumeMinSize(raised.structures));
    DiskSize(raised, Some(grown), sectorSize) == AlignUp(request, sectorSize) + TableSize(v.schema, sectorSize)
  }

  /** A request is honoured if and only if the raised rootfs, wherever it starts, ends within the request rounded up. */
  lemma RequestIsHonouredIff(v: Volume, contentSize: nat, request: nat, sectorSize: nat)
    requires sectorSize > 0 && RootfsLast(v.structures)
    ensures Honoured(v, contentSize, request, sectorSize)
       <==> Start(v.structures, |v.structures| - 1)
            + Max(NeededByRootfs(v, contentSize, sectorSize), DesiredSize(v, Some(request), sectorSize).value)
            <= AlignUp(request, sectorSize)
  {
    var end := Start(v.structures, |v.structures| - 1)
      + Max(NeededByRootfs(v, contentSize, sectorSize), DesiredSize(v, Some(request), sectorSize).value);
    RaisedLastSizes(v, contentSize, request, sectorSize);
    AlignUpIsLeast(request, 0, sectorSize);
    AlignUpMonotone(request, Max(end, request), sectorSize);
    if end <= AlignUp(request, sectorSize) {
      AlignUpMonotone(Max(end, request), AlignUp(request, sectorSize), sectorSize);
    }
  }

  /** For a contiguous rootfs the desired size is no obstacle: only what the rootfs needs anyway has to fit. */
  lemma ContiguousRequestIsHonouredIff(v: Volume, contentSize: nat, request: nat, sectorSize: nat)
    requires sectorSize > 0 && RootfsLast(v.structures) && Contiguous(v.structures)
    ensures Honoured(v, contentSize, request, sectorSize)
       <==> Start(v.structures, |v.structures| - 1) + NeededByRootfs(v, contentSize, sectorSize)
            <= AlignUp(request, sectorSize)
  {
    RequestIsHonouredIff(v, contentSize, request, sectorSize);
    DesiredStaysInRequest(v, request, sectorSize);
  }

  // ----- the disk always has room for its partitions

  lemma DiskSectors(v: Volume, request: Option<nat>, sectorSize: nat)
    requires sectorSize > 0 && v.schema != Mbr
    ensures CeilDiv(DiskSize(v, request, sectorSize), sectorSize)
         >= CeilDiv(VolumeSize(v.structures), sectorSize) + PrimarySectors(sectorSize) + SecondarySectors(sectorSize)
  {
    var size := VolumeSize(v.structures);
    var img := if request.Some? then Max(size, request.value) else size;
    CeilDivAdd(0, CeilDiv(img, sectorSize), sectorSize);
    CeilDivAdd(AlignUp(img, sectorSize), PrimarySectors(sectorSize) + SecondarySectors(sectorSize), sectorSize);
    CeilDivMonotone(size, img, sectorSize);
  }

  /**
   On the disk that createDiskImage makes, a structure that ends inside the volume is rejected exactly when it starts
   before the first usable block; an accepted one lies in the usable range. Starts need not be aligned.
   */
  lemma CreatedDiskFits(v: Volume, request: Option<nat>, sectorSize: nat, disk: OnDisk)
    requires sectorSize > 0 && CeilDiv(DiskSize(v, request, sectorSize), sectorSize) < TWO_TO_THE_64
    requires disk.start + disk.size <= VolumeSize(v.structures)
    ensures var diskSize, first := DiskSize(v, request, sectorSize), CeilDiv(disk.start, sectorSize);
            && (Accepted(v.schema, sectorSize, diskSize, disk)
                <==> v.schema == Mbr || first >= PrimarySectors(sectorSize))
            && (v.schema != Mbr && Accepted(v.schema, sectorSize, diskSize, disk) ==>
                  InUsableRange(first, disk.size, diskSize, sectorSize))
  {
    if v.schema != Mbr {
      DiskSectors(v, request, sectorSize);
      CeilDivSplit(disk.start, disk.size, sectorSize);
      CeilDivMonotone(disk.start + disk.size, VolumeSize(v.structures), sectorSize);
      OverlapsMeans(CeilDiv(disk.start, sectorSize), disk.size, DiskSize(v, request, sectorSize), sectorSize);
    }
  }

  /** GeneratePartitionTable succeeds on that disk if and only if no tabled structure starts in the GPT header. */
  lemma TableIsGeneratedIff(v: Volume, request: Option<nat>, sectorSize: nat, seeded: bool, scan: Scan)
    requires sectorSize > 0 && CeilDiv(DiskSize(v, request, sectorSize), sectorSize) < TWO_TO_THE_64
    requires Ordered(v.structures) && InjectiveLabels(v.structures)
    requires ScanMeans(v.structures, RowsOf(v, sectorSize),
                       VerdictsOf(v, sectorSize, DiskSize(v, request, sectorSize)), seeded, |v.structures|, scan)
    ensures scan.Scan? <==>
            v.schema == Mbr || forall i :: 0 <= i < |v.structures| && InTable(v.structures[i], seeded) ==>
                                 CeilDiv(Start(v.structures, i), sectorSize) >= PrimarySectors(sectorSize)
  {
    var ss := v.structures;
    var verdicts := VerdictsOf(v, sectorSize, DiskSize(v, request, sectorSize));
    var tabled := Tabled(ss, seeded, |ss|);
    TabledMeans(ss, seeded, |ss|);
    forall i | 0 <= i < |ss|
      ensures verdicts[i] <==> v.schema == Mbr || CeilDiv(Start(ss, i), sectorSize) >= PrimarySectors(sectorSize)
    {
      InjectiveLookup(ss, i);
      OrderedEndsInVolume(ss, i);
      CreatedDiskFits(v, request, sectorSize, Extent(ss, i));
    }
    VerdictOnTabled(ss, verdicts, seeded);
  }

  lemma VerdictOnTabled(ss: seq<VolumeStructure>, verdicts: seq<bool>, seeded: bool)
    requires |ss| == |verdicts|
    ensures var tabled := Tabled(ss, seeded, |ss|);
            (forall k :: 0 <= k < |tabled| ==> verdicts[tabled[k]])
            <==> (forall i :: 0 <= i < |ss| && InTable(ss[i], seeded) ==> verdicts[i])
  {
    var tabled := Tabled(ss, seeded, |ss|);
    TabledMeans(ss, seeded, |ss|);
    assert forall k :: 0 <= k < |tabled| ==> tabled[k] in tabled;
    if forall k :: 0 <= k < |tabled| ==> verdicts[tabled[k]] {
      forall i | 0 <= i < |ss| && InTable(ss[i], seeded) ensures verdicts[i] {
        assert i in tabled;
      }
    }
  }
}
