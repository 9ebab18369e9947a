/** Partition tables of disk images: GPT and MBR size, the GPT overlap test and GeneratePartitionTable. */
module PartitionTable {
  import opened Quantities
  import opened Sequences
  import opened Structures

  const PROTECTIVE_MBR_SECTORS: nat := 1
  const HEADER_SECTORS: nat := 1

  function EntriesSectors(sectorSize: nat): nat {
    if sectorSize == 4096 then 4 else 32
  }

  function PrimarySectors(sectorSize: nat): nat {
    PROTECTIVE_MBR_SECTORS + HEADER_SECTORS + EntriesSectors(sectorSize)
  }

  function SecondarySectors(sectorSize: nat): nat {
    HEADER_SECTORS + EntriesSectors(sectorSize)
  }

  /** PartitionTableSizeFromVolume: every schema but MBR gets a GPT. */
  function TableSize(schema: Schema, sectorSize: nat): nat {
    if schema == Mbr then sectorSize else (PrimarySectors(sectorSize) + SecondarySectors(sectorSize)) * sectorSize
  }

  /** Unsigned 64-bit arithmetic wraps around. */
  function Wrap64(x: int): nat {
    x % TWO_TO_THE_64
  }

  function Wrap32(x: int): nat {
    x % TWO_TO_THE_32
  }

  /** structureOverlapsTable, with the additions and subtractions of uint64. */
  predicate Overlaps(startSector: nat, size: nat, diskSize: nat, sectorSize: nat)
    requires sectorSize > 0
  {
    || startSector < PrimarySectors(sectorSize)
    || Wrap64(startSector + CeilDiv(size, sectorSize))
       > Wrap64(CeilDiv(diskSize, sectorSize) - SecondarySectors(sectorSize))
  }

  /** Away from wrap-around the test is the plain comparison. */
  lemma OverlapsMeans(startSector: nat, size: nat, diskSize: nat, sectorSize: nat)
    requires sectorSize > 0
    requires SecondarySectors(sectorSize) <= CeilDiv(diskSize, sectorSize) < TWO_TO_THE_64
    requires startSector + CeilDiv(size, sectorSize) < TWO_TO_THE_64
    ensures Overlaps(startSector, size, diskSize, sectorSize)
       <==> startSector < PrimarySectors(sectorSize)
            || startSector + CeilDiv(size, sectorSize) > CeilDiv(diskSize, sectorSize) - SecondarySectors(sectorSize)
  {
  }

  // ----- usable blocks: section 5.3.1 of the UEFI Specification

  /** Every block of the partition lies between the first and the last usable LBA. */
  predicate InUsableRange(startSector: nat, size: nat, diskSize: nat, sectorSize: nat)
    requires sectorSize > 0
  {
    var firstUsable := if sectorSize == 4096 then 6 else 34;
    var lastUsable := CeilDiv(diskSize, sectorSize) - 1 - (1 + EntriesSectors(sectorSize));
    firstUsable <= startSector && startSector + CeilDiv(size, sectorSize) - 1 <= lastUsable
  }

  /**
   On a disk, the overlap test accepts exactly the partitions in the usable range; this holds for all partitions
   if and only if the disk is at least as large as the backup table. On a smaller disk the subtraction wraps around
   and the test accepts partitions that lie outside.
   */
  lemma OverlapTestIsExactIff(diskSize: nat, sectorSize: nat)
    requires sectorSize > 0 && CeilDiv(diskSize, sectorSize) < TWO_TO_THE_64
    ensures (forall start: nat, size: nat :: start + CeilDiv(size, sectorSize) < TWO_TO_THE_64 ==>
              (!Overlaps(start, size, diskSize, sectorSize) <==> InUsableRange(start, size, diskSize, sectorSize)))
       <==> CeilDiv(diskSize, sectorSize) >= SecondarySectors(sectorSize)
  {
    if CeilDiv(diskSize, sectorSize) < SecondarySectors(sectorSize) {
      var start := PrimarySectors(sectorSize);
      CeilDivUnique(1, sectorSize, 1);
      assert !Overlaps(start, 1, diskSize, sectorSize);
      assert !InUsableRange(start, 1, diskSize, sectorSize);
    } else {
      forall start: nat, size: nat | start + CeilDiv(size, sectorSize) < TWO_TO_THE_64
        ensures !Overlaps(start, size, diskSize, sectorSize) <==> InUsableRange(start, size, diskSize, sectorSize)
      {
        OverlapsMeans(start, size, diskSize, sectorSize);
      }
    }
  }

  // ----- entries

  datatype Entry = Entry(start: nat, size: nat, typ: string, name: string, bootable: bool)

  /** getStructureType */
  function TypeFor(typ: StructureType, schema: Schema): string {
    match typ
    case Bare => "bare"
    case Single(id) => id
    case Hybrid(mbrType, gptType) => if schema == Gpt then gptType else mbrType
  }

  /** The entry that AddPartition appends. */
  function Row(schema: Schema, sectorSize: nat, disk: OnDisk, s: VolumeStructure): Entry
    requires sectorSize > 0
  {
    var typ := TypeFor(s.typ, schema);
    if schema == Mbr then
      Entry(Wrap32(CeilDiv(disk.start, sectorSize)), Wrap32(CeilDiv(disk.size, sectorSize)), typ, "", IsSystemBoot(s))
    else
      Entry(CeilDiv(disk.start, sectorSize), disk.size, typ,
            if IsRootfs(s) && disk.name == "" then "writable" else disk.name, false)
  }

  predicate Accepted(schema: Schema, sectorSize: nat, diskSize: nat, disk: OnDisk)
    requires sectorSize > 0
  {
    schema == Mbr || !Overlaps(CeilDiv(disk.start, sectorSize), disk.size, diskSize, sectorSize)
  }

  /** The 32-bit fields of an MBR entry hold the real sector numbers exactly below 2^32 sectors. */
  lemma MbrEntryIsExactIff(sectorSize: nat, disk: OnDisk, s: VolumeStructure)
    requires sectorSize > 0
    ensures var row := Row(Mbr, sectorSize, disk, s);
            (row.start == CeilDiv(disk.start, sectorSize) && row.size == CeilDiv(disk.size, sectorSize))
            <==> (CeilDiv(disk.start, sectorSize) < TWO_TO_THE_32 && CeilDiv(disk.size, sectorSize) < TWO_TO_THE_32)
  {
  }

  class Table {
    const schema: Schema
    const sectorSize: nat
    const diskSize: nat
    var partitions: seq<Entry>

    constructor (schema: Schema, sectorSize: nat, diskSize: nat)
      ensures this.schema == schema && this.sectorSize == sectorSize && this.diskSize == diskSize
      ensures partitions == []
    {
      this.schema, this.sectorSize, this.diskSize := schema, sectorSize, diskSize;
      partitions := [];
    }

    method AddPartition(disk: OnDisk, s: VolumeStructure) returns (ok: bool)
      requires sectorSize > 0
      modifies this
      ensures ok == Accepted(schema, sectorSize, diskSize, disk)
      ensures partitions == old(partitions) + if ok then [Row(schema, sectorSize, disk, s)] else []
    {
      var typ := TypeFor(s.typ, schema);
      if schema == Mbr {
        partitions := partitions + [Entry(Wrap32(CeilDiv(disk.start, sectorSize)),
                                          Wrap32(CeilDiv(disk.size, sectorSize)), typ, "", IsSystemBoot(s))];
        return true;
      }
      var startSector := CeilDiv(disk.start, sectorSize);
      var partitionName := disk.name;
      if Overlaps(startSector, disk.size, diskSize, sectorSize) {
        return false;
      }
      if IsRootfs(s) && partitionName == "" {
        partitionName := "writable";
      }
      partitions := partitions + [Entry(startSector, disk.size, typ, partitionName, false)];
      return true;
    }
  }

  // ----- the table of a volume

  predicate InTable(s: VolumeStructure, seeded: bool) {
    IsPartition(s) && !ShouldSkip(s, seeded)
  }

  /** The positions of the first n structures that get a table entry. */
  function Tabled(ss: seq<VolumeStructure>, seeded: bool, n: nat): (r: seq<nat>)
    requires n <= |ss|
    ensures forall k :: 0 <= k < |r| ==> r[k] < n
  {
    if n == 0 then []
    else Tabled(ss, seeded, n - 1) + if InTable(ss[n - 1], seeded) then [n - 1] else []
  }

  /** The entry each structure of the volume would get. */
  function RowsOf(v: Volume, sectorSize: nat): (r: seq<Entry>)
    requires sectorSize > 0
    ensures |r| == |v.structures|
  {
    seq(|v.structures|, i requires 0 <= i < |v.structures| =>
      Row(v.schema, sectorSize, Lookup(v.structures, i), v.structures[i]))
  }

  /** The verdict of the overlap test on each structure of the volume. */
  function VerdictsOf(v: Volume, sectorSize: nat, diskSize: nat): (r: seq<bool>)
    requires sectorSize > 0
    ensures |r| == |v.structures|
  {
    seq(|v.structures|, i requires 0 <= i < |v.structures| =>
      Accepted(v.schema, sectorSize, diskSize, Lookup(v.structures, i)))
  }

  datatype Mark = RootfsMark | BootMark

  predicate Marked(s: VolumeStructure, mark: Mark) {
    match mark
    case RootfsMark => IsRootfs(s)
    case BootMark => IsSystemBoot(s)
  }

  /** `num` is -1 when no tabled structure is marked, and else the 1-based number of the last that is. */
  ghost predicate NumbersLast(ss: seq<VolumeStructure>, tabled: seq<nat>, mark: Mark, num: int)
    requires forall k :: 0 <= k < |tabled| ==> tabled[k] < |ss|
  {
    if num == -1 then forall k :: 0 <= k < |tabled| ==> !Marked(ss[tabled[k]], mark)
    else
      && 1 <= num <= |tabled| && Marked(ss[tabled[num - 1]], mark)
      && forall k :: num <= k < |tabled| ==> !Marked(ss[tabled[k]], mark)
  }

  /** The last system-boot partition among the first n structures, or -1. */
  function LastBoot(ss: seq<VolumeStructure>, n: nat): (b: int)
    requires n <= |ss|
    ensures -1 <= b < n && (b >= 0 ==> IsPartition(ss[b]) && IsSystemBoot(ss[b]))
    ensures forall i :: b < i < n && IsPartition(ss[i]) ==> !IsSystemBoot(ss[i])
  {
    if n == 0 then -1
    else if IsPartition(ss[n - 1]) && IsSystemBoot(ss[n - 1]) then n - 1
    else LastBoot(ss, n - 1)
  }

  /**
   What the code records for the boot partition among the first n structures: the number that the last system-boot
   structure would get, counted before the code decides whether to skip it.
   */
  function RecordedBoot(ss: seq<VolumeStructure>, seeded: bool, n: nat): int
    requires n <= |ss|
  {
    if LastBoot(ss, n) == -1 then -1 else 1 + |Tabled(ss, seeded, LastBoot(ss, n))|
  }

  datatype Scan = Overlap | Scan(entries: seq<Entry>, rootfsNumber: int, bootNumber: int, hasBios: bool)

  /** One structure, with its row of the table and the verdict of the overlap test. */
  function ScanStep(before: Scan, s: VolumeStructure, row: Entry, verdict: bool, seeded: bool): Scan {
    if before.Overlap? || !IsPartition(s) then before
    else
      var number := 1 + |before.entries|;
      var boot := if IsSystemBoot(s) then number else before.bootNumber;
      var bios := before.hasBios || IsBiosBoot(s);
      if ShouldSkip(s, seeded) then before.(bootNumber := boot, hasBios := bios)
      else if !verdict then Overlap
      else Scan(before.entries + [row], if IsRootfs(s) then number else before.rootfsNumber, boot, bios)
  }

  /** The state of GeneratePartitionTable after n structures. */
  function Scanned(ss: seq<VolumeStructure>, rows: seq<Entry>, verdicts: seq<bool>, seeded: bool, n: nat): Scan
    requires n <= |ss| == |rows| == |verdicts|
  {
    if n == 0 then Scan([], -1, -1, false)
    else ScanStep(Scanned(ss, rows, verdicts, seeded, n - 1), ss[n - 1], rows[n - 1], verdicts[n - 1], seeded)
  }

  /** What a finished scan says about the volume: the table and the three recorded facts, or an overlap. */
  ghost predicate ScanMeans(ss: seq<VolumeStructure>, rows: seq<Entry>, verdicts: seq<bool>, seeded: bool, n: nat,
                            scan: Scan)
    requires n <= |ss| == |rows| == |verdicts|
  {
    var tabled := Tabled(ss, seeded, n);
    && (scan.Scan? <==> forall k :: 0 <= k < |tabled| ==> verdicts[tabled[k]])
    && (scan.Scan? ==>
          && scan.entries == Select(rows, tabled)
          && NumbersLast(ss, tabled, RootfsMark, scan.rootfsNumber)
          && scan.bootNumber == RecordedBoot(ss, seeded, n)
          && (scan.hasBios <==> exists i :: 0 <= i < n && IsPartition(ss[i]) && IsBiosBoot(ss[i])))
  }

  ghost predicate AllAccepted(verdicts: seq<bool>, positions: seq<nat>)
    requires forall k :: 0 <= k < |positions| ==> positions[k] < |verdicts|
  {
    forall k :: 0 <= k < |positions| ==> verdicts[positions[k]]
  }

  lemma OneMoreVerdict(verdicts: seq<bool>, positions: seq<nat>, i: nat)
    requires i < |verdicts| && forall k :: 0 <= k < |positions| ==> positions[k] < |verdicts|
    ensures AllAccepted(verdicts, positions + [i]) <==> AllAccepted(verdicts, positions) && verdicts[i]
  {
    var more := positions + [i];
    assert forall k :: 0 <= k < |positions| ==> more[k] == positions[k];
    assert more[|positions|] == i;
  }

  lemma {:induction false} ScannedVerdict(ss: seq<VolumeStructure>, rows: seq<Entry>, verdicts: seq<bool>,
                                          seeded: bool, n: nat)
    requires n <= |ss| == |rows| == |verdicts|
    ensures Scanned(ss, rows, verdicts, seeded, n).Scan? <==> AllAccepted(verdicts, Tabled(ss, seeded, n))
  {
    if n > 0 {
      ScannedVerdict(ss, rows, verdicts, seeded, n - 1);
      if InTable(ss[n - 1], seeded) {
        OneMoreVerdict(verdicts, Tabled(ss, seeded, n - 1), n - 1);
      } else {
        assert Tabled(ss, seeded, n) == Tabled(ss, seeded, n - 1);
      }
    }
  }

  lemma {:induction false} ScannedEntries(ss: seq<VolumeStructure>, rows: seq<Entry>, verdicts: seq<bool>,
                                          seeded: bool, n: nat)
    requires n <= |ss| == |rows| == |verdicts| && Scanned(ss, rows, verdicts, seeded, n).Scan?
    ensures Scanned(ss, rows, verdicts, seeded, n).entries == Select(rows, Tabled(ss, seeded, n))
  {
    if n > 0 {
      ScannedEntries(ss, rows, verdicts, seeded, n - 1);
      assert InTable(ss[n - 1], seeded) ==>
        Select(rows, Tabled(ss, seeded, n)) == Select(rows, Tabled(ss, seeded, n - 1)) + [rows[n - 1]];
    }
  }

  lemma {:induction false} ScannedBoot(ss: seq<VolumeStructure>, rows: seq<Entry>, verdicts: seq<bool>,
                                       seeded: bool, n: nat)
    requires n <= |ss| == |rows| == |verdicts| && Scanned(ss, rows, verdicts, seeded, n).Scan?
    ensures var scan := Scanned(ss, rows, verdicts, seeded, n);
            && |scan.entries| == |Tabled(ss, seeded, n)|
            && scan.bootNumber == RecordedBoot(ss, seeded, n)
            && (scan.hasBios <==> exists i :: 0 <= i < n && IsPartition(ss[i]) && IsBiosBoot(ss[i]))
  {
    if n > 0 {
      ScannedBoot(ss, rows, verdicts, seeded, n - 1);
    }
  }

  lemma NextNumber(ss: seq<VolumeStructure>, tabled: seq<nat>, i: nat, num: int)
    requires i < |ss| && forall k :: 0 <= k < |tabled| ==> tabled[k] < |ss|
    requires NumbersLast(ss, tabled, RootfsMark, num)
    ensures NumbersLast(ss, tabled + [i], RootfsMark, if IsRootfs(ss[i]) then 1 + |tabled| else num)
  {
  }

  lemma {:induction false} ScannedRootfs(ss: seq<VolumeStructure>, rows: seq<Entry>, verdicts: seq<bool>,
                                         seeded: bool, n: nat)
    requires n <= |ss| == |rows| == |verdicts| && Scanned(ss, rows, verdicts, seeded, n).Scan?
    ensures NumbersLast(ss, Tabled(ss, seeded, n), RootfsMark, Scanned(ss, rows, verdicts, seeded, n).rootfsNumber)
  {
    if n > 0 {
      ScannedRootfs(ss, rows, verdicts, seeded, n - 1);
      ScannedBoot(ss, rows, verdicts, seeded, n - 1);
      NextNumber(ss, Tabled(ss, seeded, n - 1), n - 1, Scanned(ss, rows, verdicts, seeded, n - 1).rootfsNumber);
    }
  }

  lemma ScannedMeans(ss: seq<VolumeStructure>, rows: seq<Entry>, verdicts: seq<bool>, seeded: bool, n: nat)
    requires n <= |ss| == |rows| == |verdicts|
    ensures ScanMeans(ss, rows, verdicts, seeded, n, Scanned(ss, rows, verdicts, seeded, n))
  {
    ScannedVerdict(ss, rows, verdicts, seeded, n);
    if Scanned(ss, rows, verdicts, seeded, n).Scan? {
      ScannedEntries(ss, rows, verdicts, seeded, n);
      ScannedBoot(ss, rows, verdicts, seeded, n);
      ScannedRootfs(ss, rows, verdicts, seeded, n);
    }
  }

  /** The scan of a whole volume, for a disk of the given size. */
  function ScanOf(v: Volume, sectorSize: nat, diskSize: nat, seeded: bool): Scan
    requires sectorSize > 0
  {
    Scanned(v.structures, RowsOf(v, sectorSize), VerdictsOf(v, sectorSize, diskSize), seeded, |v.structures|)
  }

  /** ok is false for the overlap error; the table is then not returned. */
  method GeneratePartitionTable(v: Volume, sectorSize: nat, diskSize: nat, seeded: bool)
    returns (ok: bool, table: seq<Entry>, rootfsNumber: int, bootNumber: int, hasBios: bool)
    requires sectorSize > 0
    ensures var scan := if ok then Scan(table, rootfsNumber, bootNumber, hasBios) else Overlap;
            && scan == ScanOf(v, sectorSize, diskSize, seeded)
            && ScanMeans(v.structures, RowsOf(v, sectorSize), VerdictsOf(v, sectorSize, diskSize), seeded,
                         |v.structures|, scan)
  {
    ok, table, rootfsNumber, bootNumber, hasBios := ScanVolume(v, sectorSize, diskSize, seeded);
    ScannedMeans(v.structures, RowsOf(v, sectorSize), VerdictsOf(v, sectorSize, diskSize), seeded, |v.structures|);
  }

  method AddStructure(t: Table, v: Volume, i: nat, disk: OnDisk) returns (ok: bool)
    requires t.sectorSize > 0 && t.schema == v.schema && i < |v.structures| && disk == Lookup(v.structures, i)
    modifies t
    ensures ok == VerdictsOf(v, t.sectorSize, t.diskSize)[i]
    ensures t.partitions == old(t.partitions) + if ok then [RowsOf(v, t.sectorSize)[i]] else []
  {
    ok := t.AddPartition(disk, v.structures[i]);
  }

  /** The loop of GeneratePartitionTable. */
  method ScanVolume(v: Volume, sectorSize: nat, diskSize: nat, seeded: bool)
    returns (ok: bool, table: seq<Entry>, rootfsNumber: int, bootNumber: int, hasBios: bool)
    requires sectorSize > 0
    ensures Scanned(v.structures, RowsOf(v, sectorSize), VerdictsOf(v, sectorSize, diskSize), seeded, |v.structures|)
         == if ok then Scan(table, rootfsNumber, bootNumber, hasBios) else Overlap
  {
    var partitionNumber;
    partitionNumber, rootfsNumber, bootNumber, hasBios := 1, -1, -1, false;
    var t := new Table(v.schema, sectorSize, diskSize);
    var onDisk := OnDiskMap(v.structures, |v.structures|);
    ghost var ss, rows, verdicts := v.structures, RowsOf(v, sectorSize), VerdictsOf(v, sectorSize, diskSize);
    for i := 0 to |v.structures|
      invariant fresh(t) && t.schema == v.schema && t.sectorSize == sectorSize && t.diskSize == diskSize
      invariant partitionNumber == 1 + |t.partitions|
      invariant Scanned(ss, rows, verdicts, seeded, i) == Scan(t.partitions, rootfsNumber, bootNumber, hasBios)
    {
      var s := v.structures[i];
      if IsPartition(s) {
        if IsSystemBoot(s) {
          bootNumber := partitionNumber;
        }
        hasBios := hasBios || IsBiosBoot(s);
        if !ShouldSkip(s, seeded) {
          if IsRootfs(s) {
            rootfsNumber := partitionNumber;
          }
          var added := AddStructure(t, v, i, onDisk[s.yamlIndex]);
          if !added {
            OverlapStays(ss, rows, verdicts, seeded, i + 1);
            return false, [], rootfsNumber, bootNumber, hasBios;
          }
          partitionNumber := partitionNumber + 1;
        }
      }
    }
    ok, table := true, t.partitions;
  }

  lemma {:induction false} OverlapStays(ss: seq<VolumeStructure>, rows: seq<Entry>, verdicts: seq<bool>,
                                        seeded: bool, n: nat)
    requires n <= |ss| == |rows| == |verdicts| && Scanned(ss, rows, verdicts, seeded, n).Overlap?
    ensures Scanned(ss, rows, verdicts, seeded, |ss|).Overlap?
    decreases |ss| - n
  {
    if n < |ss| {
      OverlapStays(ss, rows, verdicts, seeded, n + 1);
    }
  }

  /** Tabled lists the structures with a table entry, each once and in order. */
  lemma {:induction false} TabledMeans(ss: seq<VolumeStructure>, seeded: bool, n: nat)
    requires n <= |ss|
    ensures var r := Tabled(ss, seeded, n);
            && (forall k, l :: 0 <= k < l < |r| ==> r[k] < r[l])
            && (forall i :: i in r <==> 0 <= i < n && InTable(ss[i], seeded))
  {
    if n > 0 {
      TabledMeans(ss, seeded, n - 1);
    }
  }

  lemma {:induction false} LaterTabled(ss: seq<VolumeStructure>, seeded: bool, n: nat)
    requires n <= |ss|
    ensures Tabled(ss, seeded, n) <= Tabled(ss, seeded, |ss|)
    decreases |ss| - n
  {
    if n < |ss| {
      LaterTabled(ss, seeded, n + 1);
    }
  }

  // ----- what the recorded numbers mean

  /** A seeded image has no tabled rootfs, so its rootfs number is always -1. */
  lemma SeededRootfsNumber(ss: seq<VolumeStructure>, num: int)
    requires NumbersLast(ss, Tabled(ss, true, |ss|), RootfsMark, num)
    ensures num == -1
  {
    TabledMeans(ss, true, |ss|);
    var tabled := Tabled(ss, true, |ss|);
    assert forall k :: 0 <= k < |tabled| ==> tabled[k] in tabled;
  }

  /**
   The recorded boot number is the number of the last tabled system-boot structure if and only if the image is not
   seeded or has no system-boot partition. On a seeded image it counts a partition that is then skipped.
   */
  lemma BootNumberIsExactIff(ss: seq<VolumeStructure>, seeded: bool)
    ensures NumbersLast(ss, Tabled(ss, seeded, |ss|), BootMark, RecordedBoot(ss, seeded, |ss|))
       <==> (!seeded || forall s :: s in ss && IsPartition(s) ==> !IsSystemBoot(s))
  {
    var tabled, b := Tabled(ss, seeded, |ss|), LastBoot(ss, |ss|);
    TabledMeans(ss, seeded, |ss|);
    assert forall k :: 0 <= k < |tabled| ==> tabled[k] in tabled;
    if b != -1 {
      assert ss[b] in ss;
      if !seeded {
        LastBootEntry(ss, b);
      }
    }
  }

  lemma LastBootEntry(ss: seq<VolumeStructure>, b: nat)
    requires b < |ss| && InTable(ss[b], false)
    ensures var num := |Tabled(ss, false, b)|;
            num < |Tabled(ss, false, |ss|)| && Tabled(ss, false, |ss|)[num] == b
  {
    LaterTabled(ss, false, b + 1);
    assert Tabled(ss, false, b + 1)[|Tabled(ss, false, b)|] == b;
  }

  /** Any two injective labellings of a volume give the same rows for the same structures, and the same verdicts. */
  lemma TableIgnoresLabels(v: Volume, w: Volume, sectorSize: nat, diskSize: nat, seeded: bool)
    requires sectorSize > 0 && v.schema == w.schema && SameButLabels(v.structures, w.structures)
    requires InjectiveLabels(v.structures) && InjectiveLabels(w.structures)
    ensures RowsOf(v, sectorSize) == RowsOf(w, sectorSize)
    ensures VerdictsOf(v, sectorSize, diskSize) == VerdictsOf(w, sectorSize, diskSize)
    ensures forall n :: 0 <= n <= |v.structures| ==> Tabled(v.structures, seeded, n) == Tabled(w.structures, seeded, n)
  {
    forall i | 0 <= i < |v.structures|
      ensures Lookup(v.structures, i) == Lookup(w.structures, i)
      ensures v.structures[i] == w.structures[i].(yamlIndex := v.structures[i].yamlIndex)
    {
      LookupIgnoresLabels(v.structures, w.structures, i);
      RelabelKeepsStructure(v.structures, w.structures, i);
    }
    forall n | 0 <= n <= |v.structures|
      ensures Tabled(v.structures, seeded, n) == Tabled(w.structures, seeded, n)
    {
      TabledIgnoresLabels(v.structures, w.structures, seeded, n);
    }
    RowsIgnoreLabels(v, w, sectorSize);
  }

  lemma {:induction false} ScannedIgnoresLabels(ss: seq<VolumeStructure>, ts: seq<VolumeStructure>, rows: seq<Entry>,
                                                verdicts: seq<bool>, seeded: bool, n: nat)
    requires SameButLabels(ss, ts) && n <= |ss| == |rows| == |verdicts|
    ensures Scanned(ss, rows, verdicts, seeded, n) == Scanned(ts, rows, verdicts, seeded, n)
  {
    if n > 0 {
      ScannedIgnoresLabels(ss, ts, rows, verdicts, seeded, n - 1);
      RelabelKeepsStructure(ss, ts, n - 1);
    }
  }

  /** Hence the same table and the same recorded numbers. */
  lemma ScanIgnoresLabels(v: Volume, w: Volume, sectorSize: nat, diskSize: nat, seeded: bool)
    requires sectorSize > 0 && v.schema == w.schema && SameButLabels(v.structures, w.structures)
    requires InjectiveLabels(v.structures) && InjectiveLabels(w.structures)
    ensures ScanOf(v, sectorSize, diskSize, seeded) == ScanOf(w, sectorSize, diskSize, seeded)
  {
    TableIgnoresLabels(v, w, sectorSize, diskSize, seeded);
    ScannedIgnoresLabels(v.structures, w.structures, RowsOf(v, sectorSize), VerdictsOf(v, sectorSize, diskSize), seeded,
                         |v.structures|);
  }

  lemma RowsIgnoreLabels(v: Volume, w: Volume, sectorSize: nat)
    requires sectorSize > 0 && v.schema == w.schema && |v.structures| == |w.structures|
    requires forall i :: 0 <= i < |v.structures| ==>
               Lookup(v.structures, i) == Lookup(w.structures, i)
               && v.structures[i] == w.structures[i].(yamlIndex := v.structures[i].yamlIndex)
    ensures RowsOf(v, sectorSize) == RowsOf(w, sectorSize)
  {
    forall i | 0 <= i < |v.structures|
      ensures Row(v.schema, sectorSize, Lookup(v.structures, i), v.structures[i])
           == Row(w.schema, sectorSize, Lookup(w.structures, i), w.structures[i])
    {
      assert v.structures[i] == w.structures[i].(yamlIndex := v.structures[i].yamlIndex);
    }
  }

  lemma {:induction false} TabledIgnoresLabels(ss: seq<VolumeStructure>, ts: seq<VolumeStructure>, seeded: bool, n: nat)
    requires SameButLabels(ss, ts) && n <= |ss|
    ensures Tabled(ss, seeded, n) == Tabled(ts, seeded, n)
  {
    if n > 0 {
      TabledIgnoresLabels(ss, ts, seeded, n - 1);
      RelabelKeepsStructure(ss, ts, n - 1);
    }
  }
}
