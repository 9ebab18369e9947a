/** The states that size, populate and write the disk images, over the fields of the state machine they update. */
module ImageBuild {
  import opened Quantities
  import opened Structures
  import opened PartitionTable
  import opened Sizing
  import opened DiskImage
  import opened ImageCopy

  /** What the external commands provide: gadget blobs, the output of mkfs, and the u-boot state file. */
  datatype Inputs = Inputs(
    blobs: map<string, seq<byte>>,
    filesystems: map<(string, nat), seq<byte>>,
    bootState: Option<seq<byte>>)

  /** Bytes that writing the partition table puts into the image, at the given offsets. */
  type TableWrites = seq<(nat, seq<byte>)>

  function Find<K, V>(m: map<K, V>, k: K): Option<V> {
    if k in m then Some(m[k]) else None
  }

  predicate HasFilesystem(s: VolumeStructure) {
    s.filesystem != "" && s.filesystem != "none"
  }

  // ----- part files

  /** The part file of structure i; mkfs fills a file of the prepared size. None is a failed command. */
  function PartFile(v: Volume, name: string, i: nat, rootfsSize: nat, inputs: Inputs, before: map<nat, seq<byte>>)
    : Option<seq<byte>>
    requires i < |v.structures|
  {
    var s := v.structures[i];
    if s.role == SystemBootState then inputs.bootState
    else if !HasFilesystem(s) then
      var contents := if s.content.Some? then s.content.value else [];
      if s.size > 0 && BlobsPresent(contents, inputs.blobs)
      then Some(RawPart(if i in before then before[i] else [], s.size, contents, inputs.blobs))
      else None
    else if (name, i) in inputs.filesystems && (IsRootfs(s) || s.size > 0)
    then Some(Resized(inputs.filesystems[(name, i)], if IsRootfs(s) then rootfsSize else s.size))
    else None
  }

  /** What populating would make for each structure of the volume. */
  function PartFiles(v: Volume, name: string, rootfsSize: nat, inputs: Inputs, before: map<nat, seq<byte>>)
    : (r: seq<Option<seq<byte>>>)
    ensures |r| == |v.structures|
  {
    seq(|v.structures|, i requires 0 <= i < |v.structures| => PartFile(v, name, i, rootfsSize, inputs, before))
  }

  /** The part files once the first n structures were populated; None when one of them failed. */
  function Populated(ss: seq<VolumeStructure>, files: seq<Option<seq<byte>>>, seeded: bool,
                     before: map<nat, seq<byte>>, n: nat): Option<map<nat, seq<byte>>>
    requires n <= |ss| == |files|
  {
    if n == 0 then Some(before)
    else
      var parts := Populated(ss, files, seeded, before, n - 1);
      if parts.None? || ShouldSkip(ss[n - 1], seeded) then parts
      else if files[n - 1].None? then None
      else Some(parts.value[n - 1 := files[n - 1].value])
  }

  /** Populating creates the part file of every structure that is not skipped, and only those. */
  lemma {:induction false} PopulatedParts(ss: seq<VolumeStructure>, files: seq<Option<seq<byte>>>, seeded: bool,
                                          before: map<nat, seq<byte>>, n: nat)
    requires n <= |ss| == |files| && Populated(ss, files, seeded, before, n).Some?
    ensures var parts := Populated(ss, files, seeded, before, n).value;
            && (forall i: nat :: i in parts <==> i in before || (i < n && !ShouldSkip(ss[i], seeded)))
            && (forall i: nat :: i < n && !ShouldSkip(ss[i], seeded) ==> Some(parts[i]) == files[i])
  {
    if n > 0 {
      PopulatedParts(ss, files, seeded, before, n - 1);
    }
  }

  /** The copy reads only part files that populating has written. */
  lemma PopulatedPartsSuffice(ss: seq<VolumeStructure>, files: seq<Option<seq<byte>>>, seeded: bool,
                              before: map<nat, seq<byte>>)
    requires |ss| == |files| && Populated(ss, files, seeded, before, |ss|).Some?
    ensures FirstMissing(ss, Populated(ss, files, seeded, before, |ss|).value, seeded, 0) == |ss|
  {
    PopulatedParts(ss, files, seeded, before, |ss|);
  }

  /**
   A part file is no longer than its structure, as the copy into the image needs, if and only if the u-boot state
   file, the raw blobs or the rootfs size fit the structure; other filesystems always do.
   */
  lemma PartFitsIff(v: Volume, name: string, i: nat, rootfsSize: nat, inputs: Inputs, before: map<nat, seq<byte>>)
    requires i < |v.structures| && PartFile(v, name, i, rootfsSize, inputs, before).Some?
    ensures var s := v.structures[i];
            var contents := if s.content.Some? then s.content.value else [];
            |PartFile(v, name, i, rootfsSize, inputs, before).value| <= s.size <==>
              if s.role == SystemBootState then |inputs.bootState.value| <= s.size
              else if !HasFilesystem(s) then
                forall k :: 0 <= k < |contents| ==> BlobFits(contents, inputs.blobs, k, s.size)
              else IsRootfs(s) ==> rootfsSize <= s.size
  {
    var s := v.structures[i];
    if s.role != SystemBootState && !HasFilesystem(s) {
      var contents := if s.content.Some? then s.content.value else [];
      RawPartLengthIff(if i in before then before[i] else [], s.size, contents, inputs.blobs);
    }
  }

  function PopulatedVolume(v: Volume, name: string, rootfsSize: nat, seeded: bool, inputs: Inputs,
                           before: map<nat, seq<byte>>): Option<map<nat, seq<byte>>> {
    Populated(v.structures, PartFiles(v, name, rootfsSize, inputs, before), seeded, before, |v.structures|)
  }

  function PartsFor(parts: map<string, map<nat, seq<byte>>>, name: string): map<nat, seq<byte>> {
    if name in parts then parts[name] else map[]
  }

  /** One volume more; an eMMC volume is passed over. */
  function PopulatedStep(before: Option<map<string, map<nat, seq<byte>>>>, v: Volume, name: string, rootfsSize: nat,
                         seeded: bool, inputs: Inputs): Option<map<string, map<nat, seq<byte>>>>
  {
    if before.None? || v.schema == Emmc then before
    else
      var made := PopulatedVolume(v, name, rootfsSize, seeded, inputs, PartsFor(before.value, name));
      if made.None? then None else Some(before.value[name := made.value])
  }

  /** The part files after the first n volumes; None when one of them failed. */
  function PopulatedAll(volumes: map<string, Volume>, order: seq<string>, n: nat, rootfsSize: nat, seeded: bool,
                        inputs: Inputs, parts: map<string, map<nat, seq<byte>>>)
    : Option<map<string, map<nat, seq<byte>>>>
    requires n <= |order| && forall x :: x in order ==> x in volumes
  {
    if n == 0 then Some(parts)
    else
      var before := PopulatedAll(volumes, order, n - 1, rootfsSize, seeded, inputs, parts);
      PopulatedStep(before, volumes[order[n - 1]], order[n - 1], rootfsSize, seeded, inputs)
  }

  lemma {:induction false} PopulationFails(volumes: map<string, Volume>, order: seq<string>, n: nat, rootfsSize: nat,
                                           seeded: bool, inputs: Inputs, parts: map<string, map<nat, seq<byte>>>)
    requires n <= |order| && forall x :: x in order ==> x in volumes
    requires PopulatedAll(volumes, order, n, rootfsSize, seeded, inputs, parts).None?
    ensures PopulatedAll(volumes, order, |order|, rootfsSize, seeded, inputs, parts).None?
    decreases |order| - n
  {
    if n < |order| {
      PopulationFails(volumes, order, n + 1, rootfsSize, seeded, inputs, parts);
    }
  }

  /** Each listed volume but an eMMC one is populated from its own earlier part files; the others keep theirs. */
  lemma {:induction false} PopulatedAllMeans(volumes: map<string, Volume>, order: seq<string>, n: nat, rootfsSize: nat,
                                             seeded: bool, inputs: Inputs, parts: map<string, map<nat, seq<byte>>>)
    requires n <= |order| && (forall x :: x in order ==> x in volumes)
    requires forall i, j :: 0 <= i < j < |order| ==> order[i] != order[j]
    requires PopulatedAll(volumes, order, n, rootfsSize, seeded, inputs, parts).Some?
    ensures var after := PopulatedAll(volumes, order, n, rootfsSize, seeded, inputs, parts).value;
            && (forall x :: x !in order[..n] || volumes[x].schema == Emmc ==> PartsFor(after, x) == PartsFor(parts, x))
            && (forall x :: x in order[..n] && volumes[x].schema != Emmc ==>
                  Some(PartsFor(after, x)) ==
                  PopulatedVolume(volumes[x], x, rootfsSize, seeded, inputs, PartsFor(parts, x)))
  {
    if n > 0 {
      PopulatedAllMeans(volumes, order, n - 1, rootfsSize, seeded, inputs, parts);
      assert order[n - 1] !in order[..n - 1];
      assert order[..n] == order[..n - 1] + [order[n - 1]];
    }
  }

  /** growImageSize on a recorded size. */
  function Grown(size: Option<nat>, least: nat): nat {
    if size.None? then least else Max(size.value, least)
  }

  /** The image sizes after the first n volumes. */
  function GrownSizes(volumes: map<string, Volume>, order: seq<string>, n: nat, sizes: map<string, nat>): map<string,
                      nat>
    requires n <= |order| && forall x :: x in order ==> x in volumes
  {
    if n == 0 then sizes
    else
      var before, name := GrownSizes(volumes, order, n - 1, sizes), order[n - 1];
      if volumes[name].schema == Emmc then before
      else before[name := Grown(Find(before, name), VolumeMinSize(volumes[name].structures))]
  }

  /** No size is lost or lowered, and every populated volume has room for its minimal size. */
  lemma {:induction false} SizesOnlyGrow(volumes: map<string, Volume>, order: seq<string>, n: nat,
                                         sizes: map<string, nat>)
    requires n <= |order| && forall x :: x in order ==> x in volumes
    ensures var after := GrownSizes(volumes, order, n, sizes);
            && (forall x :: x in sizes ==> x in after && sizes[x] <= after[x])
            && (forall x :: x in after ==> x in sizes || x in order[..n])
            && (forall x :: x in order[..n] && volumes[x].schema != Emmc ==>
                  x in after && VolumeMinSize(volumes[x].structures) <= after[x])
            && (forall x :: x in after && (x !in order[..n] || volumes[x].schema == Emmc) ==>
                  x in sizes && after[x] == sizes[x])
  {
    if n > 0 {
      SizesOnlyGrow(volumes, order, n - 1, sizes);
      assert order[..n] == order[..n - 1] + [order[n - 1]];
    }
  }

  // ----- the finished image of a volume

  function TableImage(img: seq<byte>, writes: TableWrites): seq<byte> {
    if writes == [] then img
    else
      var last := writes[|writes| - 1];
      Written(TableImage(img, writes[..|writes| - 1]), last.0, last.1)
  }

  /** The image after makeDisk: table, part files, offset writes. */
  function VolumeImage(v: Volume, request: Option<nat>, sectorSize: nat, seeded: bool,
                       parts: map<nat, seq<byte>>, writes: TableWrites): File
    requires sectorSize > 0 && OffsetsKnown(v.structures)
  {
    var ss := v.structures;
    var size := DiskSize(v, request, sectorSize);
    var table := TableImage(seq(size, _ => 0), writes);
    var end := FirstMissing(ss, parts, seeded, 0);
    var copied := Placed(table, PiecesOf(ss, parts, seeded), sectorSize, end);
    if end < |ss| then File(false, copied) else Patched(copied, ss, sectorSize, size, |ss|)
  }

  /** No table write touches a byte of a structure that is copied. */
  ghost predicate WritesAvoidExtents(ss: seq<VolumeStructure>, seeded: bool, writes: TableWrites) {
    forall k, i: nat, p :: 0 <= k < |writes| && i < |ss| && !ShouldSkip(ss[i], seeded) && InExtent(ss, i, p) ==>
      !(writes[k].0 <= p < writes[k].0 + |writes[k].1|)
  }

  lemma {:induction false} TableLeavesZeros(img: seq<byte>, writes: TableWrites, p: nat)
    requires p < |img| && forall k :: 0 <= k < |writes| ==> !(writes[k].0 <= p < writes[k].0 + |writes[k].1|)
    ensures p < |TableImage(img, writes)| && TableImage(img, writes)[p] == img[p]
  {
    if writes != [] {
      TableLeavesZeros(img, writes[..|writes| - 1], p);
    }
  }

  lemma {:induction false} TableImageGrows(img: seq<byte>, writes: TableWrites)
    ensures |TableImage(img, writes)| >= |img|
  {
    if writes != [] {
      TableImageGrows(img, writes[..|writes| - 1]);
    }
  }

  /** The layout and part files meet what the copy asks for, on a disk of the size that createDiskImage chose. */
  ghost predicate LayoutReady(v: Volume, sectorSize: nat, seeded: bool, parts: map<nat, seq<byte>>, writes: TableWrites)
    requires sectorSize > 0
  {
    && InjectiveLabels(v.structures) && Ordered(v.structures) && OffsetsKnown(v.structures)
    && FirstMissing(v.structures, parts, seeded, 0) == |v.structures|
    && (forall i: nat :: i < |v.structures| && !ShouldSkip(v.structures[i], seeded) ==>
          |parts[i]| <= v.structures[i].size && Aligned(Start(v.structures, i), sectorSize))
    && WritesAvoidExtents(v.structures, seeded, writes)
  }

  lemma DiskHoldsVolume(v: Volume, request: Option<nat>, sectorSize: nat)
    requires sectorSize > 0
    ensures VolumeSize(v.structures) <= DiskSize(v, request, sectorSize)
  {
  }

  lemma LayoutIsCopyReady(v: Volume, request: Option<nat>, sectorSize: nat, seeded: bool,
                          parts: map<nat, seq<byte>>, writes: TableWrites)
    requires sectorSize > 0 && LayoutReady(v, sectorSize, seeded, parts, writes)
    ensures var zeros := seq(DiskSize(v, request, sectorSize), _ => 0);
            CopyReady(TableImage(zeros, writes), v.structures, parts, sectorSize, seeded)
  {
    var size := DiskSize(v, request, sectorSize);
    DiskHoldsVolume(v, request, sectorSize);
    TableImageGrows(seq(size, _ => 0), writes);
    forall i: nat | i < |v.structures| ensures End(v.structures, i) <= size {
      OrderedEndsInVolume(v.structures, i);
    }
    ExtentsStayZero(v.structures, seeded, writes, size);
  }

  lemma ExtentsStayZero(ss: seq<VolumeStructure>, seeded: bool, writes: TableWrites, size: nat)
    requires WritesAvoidExtents(ss, seeded, writes)
    requires forall i: nat :: i < |ss| ==> End(ss, i) <= size
    ensures var table := TableImage(seq(size, _ => 0), writes);
            && |table| >= size
            && forall i: nat, p :: i < |ss| && !ShouldSkip(ss[i], seeded) && InExtent(ss, i, p) && 0 <= p < |table| ==>
                 table[p] == 0
  {
    var zeros := seq(size, _ => 0 as byte);
    TableImageGrows(zeros, writes);
    forall i: nat, p | i < |ss| && !ShouldSkip(ss[i], seeded) && InExtent(ss, i, p)
                       && 0 <= p < |TableImage(zeros, writes)|
      ensures TableImage(zeros, writes)[p] == 0
    {
      TableLeavesZeros(zeros, writes, p);
    }
  }

  /**
   makeDisk as a whole: outside the offset writes, every structure that is not skipped has its part file at its place,
   and every other byte is what writing the partition table left.
   */
  lemma VolumeImageIsFaithful(v: Volume, request: Option<nat>, sectorSize: nat, seeded: bool,
                              parts: map<nat, seq<byte>>, writes: TableWrites)
    requires sectorSize > 0 && LayoutReady(v, sectorSize, seeded, parts, writes)
    ensures var table := TableImage(seq(DiskSize(v, request, sectorSize), _ => 0), writes);
            var final := VolumeImage(v, request, sectorSize, seeded, parts, writes).bytes;
            |final| >= |table|
            && forall p :: 0 <= p < |table| && (forall j :: 0 <= j < |v.structures| ==> !InWindow(v.structures[j], p))
                           ==> ByteCopied(table, v.structures, parts, seeded, p, final[p])
  {
    var size := DiskSize(v, request, sectorSize);
    LayoutIsCopyReady(v, request, sectorSize, seeded, parts, writes);
    FinishedImage(TableImage(seq(size, _ => 0), writes), v.structures, parts, sectorSize, seeded, size);
  }

  // ----- from the part files to the finished image

  /** The given files fit the structures that are not skipped. */
  ghost predicate GivenFilesFit(ss: seq<VolumeStructure>, inputs: Inputs, seeded: bool) {
    forall i :: 0 <= i < |ss| && !ShouldSkip(ss[i], seeded) ==>
      if ss[i].role == SystemBootState then inputs.bootState.Some? ==> |inputs.bootState.value| <= ss[i].size
      else !HasFilesystem(ss[i]) && ss[i].content.Some? ==>
        forall k :: 0 <= k < |ss[i].content.value| && ss[i].content.value[k].image in inputs.blobs ==>
          BlobFits(ss[i].content.value, inputs.blobs, k, ss[i].size)
  }

  /** A filesystem of the rootfs size fits every rootfs that is not skipped; there may be none. */
  ghost predicate RootfsFits(ss: seq<VolumeStructure>, rootfsSize: nat, seeded: bool) {
    forall i :: 0 <= i < |ss| && !ShouldSkip(ss[i], seeded) && IsRootfs(ss[i]) ==> rootfsSize <= ss[i].size
  }

  lemma PopulatedPartsFit(v: Volume, name: string, rootfsSize: nat, seeded: bool, inputs: Inputs,
                          before: map<nat, seq<byte>>, parts: map<nat, seq<byte>>)
    requires PopulatedVolume(v, name, rootfsSize, seeded, inputs, before) == Some(parts)
    requires GivenFilesFit(v.structures, inputs, seeded) && RootfsFits(v.structures, rootfsSize, seeded)
    ensures FirstMissing(v.structures, parts, seeded, 0) == |v.structures|
    ensures forall i: nat :: i < |v.structures| && !ShouldSkip(v.structures[i], seeded) ==>
              Some(parts[i]) == PartFile(v, name, i, rootfsSize, inputs, before) && |parts[i]| <= v.structures[i].size
  {
    var ss, files := v.structures, PartFiles(v, name, rootfsSize, inputs, before);
    PopulatedParts(ss, files, seeded, before, |ss|);
    PopulatedPartsSuffice(ss, files, seeded, before);
    forall i: nat | i < |ss| && !ShouldSkip(ss[i], seeded)
      ensures Some(parts[i]) == PartFile(v, name, i, rootfsSize, inputs, before) && |parts[i]| <= ss[i].size
    {
      assert Some(parts[i]) == files[i];
      PartFitsIff(v, name, i, rootfsSize, inputs, before);
    }
  }

  /** The layout that the copy asks for, apart from the part files. */
  ghost predicate LaidOut(ss: seq<VolumeStructure>, sectorSize: nat, seeded: bool, writes: TableWrites)
    requires sectorSize > 0
  {
    && Ordered(ss) && InjectiveLabels(ss) && OffsetsKnown(ss) && WritesAvoidExtents(ss, seeded, writes)
    && forall i: nat :: i < |ss| && !ShouldSkip(ss[i], seeded) ==> Aligned(Start(ss, i), sectorSize)
  }

  /**
   Every structure that is not skipped has its part file at its place, and every other byte outside the offset writes
   is that of the table.
   */
  ghost predicate HoldsVolume(image: seq<byte>, table: seq<byte>, v: Volume, seeded: bool,
                              files: seq<Option<seq<byte>>>)
    requires |files| == |v.structures|
  {
    && |image| >= |table|
    && forall p :: 0 <= p < |table| && (forall j :: 0 <= j < |v.structures| ==> !InWindow(v.structures[j], p)) ==>
         ByteOfVolume(table, v.structures, seeded, files, p, image[p])
  }

  ghost predicate ByteOfVolume(table: seq<byte>, ss: seq<VolumeStructure>, seeded: bool, files: seq<Option<seq<byte>>>,
                               p: nat, b: byte)
    requires |files| == |ss| && p < |table|
  {
    && (forall i: nat :: i < |ss| && !ShouldSkip(ss[i], seeded) && InExtent(ss, i, p) ==>
          files[i].Some? && b == if p - Start(ss, i) < |files[i].value| then files[i].value[p - Start(ss, i)] else 0)
    && ((forall i: nat :: i < |ss| && !ShouldSkip(ss[i], seeded) ==> !InExtent(ss, i, p)) ==> b == table[p])
  }

  lemma ByteIsOfVolume(table: seq<byte>, ss: seq<VolumeStructure>, parts: map<nat, seq<byte>>, seeded: bool,
                       files: seq<Option<seq<byte>>>, p: nat, b: byte)
    requires |files| == |ss| && p < |table| && FirstMissing(ss, parts, seeded, 0) == |ss|
    requires forall i: nat :: i < |ss| && !ShouldSkip(ss[i], seeded) ==> Find(parts, i) == files[i]
    requires ByteCopied(table, ss, parts, seeded, p, b)
    ensures ByteOfVolume(table, ss, seeded, files, p, b)
  {
  }

  /** Populating and then making the disk: the finished image holds what populating made of the volume. */
  lemma PopulatedImageIsFaithful(v: Volume, name: string, rootfsSize: nat, seeded: bool, inputs: Inputs,
                                 before: map<nat, seq<byte>>, parts: map<nat, seq<byte>>, imageSize: Option<nat>,
                                 sectorSize: nat, writes: TableWrites)
    requires sectorSize > 0 && LaidOut(v.structures, sectorSize, seeded, writes)
    requires PopulatedVolume(v, name, rootfsSize, seeded, inputs, before) == Some(parts)
    requires GivenFilesFit(v.structures, inputs, seeded) && RootfsFits(v.structures, rootfsSize, seeded)
    ensures HoldsVolume(VolumeImage(v, imageSize, sectorSize, seeded, parts, writes).bytes,
                        TableImage(seq(DiskSize(v, imageSize, sectorSize), _ => 0), writes), v, seeded,
                        PartFiles(v, name, rootfsSize, inputs, before))
  {
    PopulatedPartsFit(v, name, rootfsSize, seeded, inputs, before, parts);
    VolumeImageIsFaithful(v, imageSize, sectorSize, seeded, parts, writes);
    var ss, files := v.structures, PartFiles(v, name, rootfsSize, inputs, before);
    var table := TableImage(seq(DiskSize(v, imageSize, sectorSize), _ => 0), writes);
    var image := VolumeImage(v, imageSize, sectorSize, seeded, parts, writes).bytes;
    forall p | 0 <= p < |table| && (forall j :: 0 <= j < |ss| ==> !InWindow(ss[j], p))
      ensures ByteOfVolume(table, ss, seeded, files, p, image[p])
    {
      ByteIsOfVolume(table, ss, parts, seeded, files, p, image[p]);
    }
  }

  /** What calculateRootfsSize makes of the volumes: some rootfs raised, or nothing when there is none. */
  ghost predicate Sized(gadget: map<string, Volume>, volumes: map<string, Volume>, rootfsSize: nat) {
    || (volumes == gadget && forall n, s :: n in gadget && s in gadget[n].structures ==> !IsRootfs(s))
    || (exists n, i :: IsRootfsAt(gadget, n, i) && volumes == gadget[n := WithRootfsRaised(gadget[n], i, rootfsSize)])
  }

  predicate IsRootfsAt(gadget: map<string, Volume>, n: string, i: nat) {
    n in gadget && i < |gadget[n].structures| && IsRootfs(gadget[n].structures[i])
  }

  /** The rootfs fits everywhere, because the one rootfs of the gadget was raised to its size. */
  lemma SizedRootfsFits(gadget: map<string, Volume>, volumes: map<string, Volume>, rootfsSize: nat, seeded: bool)
    requires Sized(gadget, volumes, rootfsSize)
    requires forall n, i: nat, m, j: nat :: IsRootfsAt(gadget, n, i) && IsRootfsAt(gadget, m, j) ==> n == m && i == j
    ensures volumes.Keys == gadget.Keys
    ensures forall n :: n in volumes ==> RootfsFits(volumes[n].structures, rootfsSize, seeded)
  {
    if exists n, i :: IsRootfsAt(gadget, n, i) {
      var n, i :| IsRootfsAt(gadget, n, i) && volumes == gadget[n := WithRootfsRaised(gadget[n], i, rootfsSize)];
      assert volumes.Keys == gadget.Keys;
      forall m, j: nat | m in volumes && j < |volumes[m].structures| && IsRootfs(volumes[m].structures[j])
        ensures rootfsSize <= volumes[m].structures[j].size
      {
        assert IsRootfsAt(gadget, m, j);
      }
    } else {
      forall m, j: nat | m in volumes && j < |volumes[m].structures| ensures !IsRootfs(volumes[m].structures[j]) {
        assert !IsRootfsAt(gadget, m, j);
      }
    }
  }

  lemma {:induction false} PatchesIgnoreLabels(img: seq<byte>, ss: seq<VolumeStructure>, ts: seq<VolumeStructure>,
                                               sectorSize: nat, imgSize: nat, n: nat)
    requires sectorSize > 0 && SameButLabels(ss, ts) && n <= |ss| && OffsetsKnown(ss) && OffsetsKnown(ts)
    ensures Patched(img, ss, sectorSize, imgSize, n) == Patched(img, ts, sectorSize, imgSize, n)
  {
    if n > 0 {
      PatchesIgnoreLabels(img, ss, ts, sectorSize, imgSize, n - 1);
      RelabelKeepsStructure(ss, ts, n - 1);
    }
  }

  lemma {:induction false} MissingIgnoresLabels(ss: seq<VolumeStructure>, ts: seq<VolumeStructure>,
                                                parts: map<nat, seq<byte>>, seeded: bool, from: nat)
    requires SameButLabels(ss, ts) && from <= |ss|
    ensures FirstMissing(ss, parts, seeded, from) == FirstMissing(ts, parts, seeded, from)
    decreases |ss| - from
  {
    if from < |ss| {
      RelabelKeepsStructure(ss, ts, from);
      MissingIgnoresLabels(ss, ts, parts, seeded, from + 1);
    }
  }

  lemma SizeIgnoresLabels(v: Volume, w: Volume, request: Option<nat>, sectorSize: nat)
    requires sectorSize > 0 && v.schema == w.schema && SameButLabels(v.structures, w.structures)
    ensures DiskSize(v, request, sectorSize) == DiskSize(w, request, sectorSize)
  {
    if v.structures != [] {
      RelabelKeepsStructure(v.structures, w.structures, |v.structures| - 1);
    }
  }

  /** Relabelling a volume injectively, as a resumed run does, leaves every byte of its image the same. */
  lemma ImageIgnoresLabels(v: Volume, w: Volume, request: Option<nat>, sectorSize: nat, seeded: bool,
                           parts: map<nat, seq<byte>>, writes: TableWrites)
    requires sectorSize > 0 && v.schema == w.schema && SameButLabels(v.structures, w.structures)
    requires InjectiveLabels(v.structures) && InjectiveLabels(w.structures)
    requires OffsetsKnown(v.structures) && OffsetsKnown(w.structures)
    ensures VolumeImage(v, request, sectorSize, seeded, parts, writes)
         == VolumeImage(w, request, sectorSize, seeded, parts, writes)
  {
    var ss, ts := v.structures, w.structures;
    SizeIgnoresLabels(v, w, request, sectorSize);
    PiecesIgnoreLabels(ss, ts, parts, seeded);
    MissingIgnoresLabels(ss, ts, parts, seeded, 0);
    var size := DiskSize(v, request, sectorSize);
    PatchesIgnoreLabels(Placed(TableImage(seq(size, _ => 0), writes), PiecesOf(ss, parts, seeded), sectorSize,
                               FirstMissing(ss, parts, seeded, 0)), ss, ts, sectorSize, size, |ss|);
  }

  // ----- what makeDisk does

  /** What makeDisk reads. */
  datatype Setting = Setting(
    volumes: map<string, Volume>,
    volumeNames: map<string, string>,
    imageSizes: map<string, nat>,
    sectorSize: nat,
    seeded: bool,
    parts: map<string, map<nat, seq<byte>>>,
    writes: map<string, TableWrites>)

  /** What makeDisk changes: the image files and the recorded numbers. */
  datatype Disks = Disks(
    images: map<string, seq<byte>>,
    rootfsPartNum: int,
    bootPartNum: int,
    hasBios: bool,
    rootfsVolName: string)

  datatype Made = Made(ok: bool, disks: Disks)

  predicate ReadyToMake(c: Setting) {
    c.sectorSize > 0 && forall n :: n in c.volumes ==> n in c.writes && OffsetsKnown(c.volumes[n].structures)
  }

  /** partitionDisk on the recorded numbers. */
  function Recorded(d: Disks, scan: Scan, name: string): Disks {
    if scan.Overlap? then d
    else d.(rootfsPartNum := scan.rootfsNumber, bootPartNum := scan.bootNumber, hasBios := scan.hasBios,
            rootfsVolName := if scan.rootfsNumber != -1 then name else d.rootfsVolName)
  }

  /** What the disk of a volume will be: its file, the scan of its structures and its image. */
  datatype VolumeDisk = VolumeDisk(file: string, scan: Scan, image: File)

  function DiskOf(c: Setting, name: string): VolumeDisk
    requires ReadyToMake(c) && name in c.volumes && name in c.volumeNames
  {
    var v, request := c.volumes[name], Find(c.imageSizes, name);
    VolumeDisk(c.volumeNames[name], ScanOf(v, c.sectorSize, DiskSize(v, request, c.sectorSize), c.seeded),
               VolumeImage(v, request, c.sectorSize, c.seeded, PartsFor(c.parts, name), c.writes[name]))
  }

  /** One volume: a table that overlaps nothing, then the finished image. */
  function Put(d: Disks, name: string, disk: VolumeDisk): Made {
    var recorded := Recorded(d, disk.scan, name);
    if disk.scan.Scan? && disk.image.ok then Made(true, recorded.(images := d.images[disk.file := disk.image.bytes]))
    else Made(false, recorded)
  }

  function VolumeMade(c: Setting, name: string, d: Disks): Made
    requires ReadyToMake(c) && name in c.volumes && name in c.volumeNames
  {
    Put(d, name, DiskOf(c, name))
  }

  predicate HasDisk(c: Setting, name: string) {
    name in c.volumes && name in c.volumeNames && c.volumes[name].schema != Emmc
  }

  /** A volume without an image name, and an eMMC volume, is left out. */
  function Visited(c: Setting, name: string, d: Disks): Made
    requires ReadyToMake(c) && name in c.volumes
  {
    if name !in c.volumeNames || c.volumes[name].schema == Emmc then Made(true, d) else VolumeMade(c, name, d)
  }

  /** The first n volumes of an order of visits, up to the first failure. */
  function VisitedAll(c: Setting, order: seq<string>, n: nat, d: Disks): Made
    requires ReadyToMake(c) && n <= |order| && forall x :: x in order ==> x in c.volumes
  {
    if n == 0 then Made(true, d)
    else
      var before := VisitedAll(c, order, n - 1, d);
      if before.ok then Visited(c, order[n - 1], before.disks) else before
  }

  /** The image files that makeDisk creates. */
  function CreatedFiles(volumes: map<string, Volume>, volumeNames: map<string, string>,
                        names: set<string>): set<string> {
    set n | n in names && n in volumes && n in volumeNames && volumes[n].schema != Emmc :: volumeNames[n]
  }

  function FirstOf(order: seq<string>, n: nat): set<string>
    requires n <= |order|
  {
    set i | 0 <= i < n :: order[i]
  }

  /** A successful makeDisk creates exactly the files of the named volumes that are not eMMC. */
  lemma {:induction false} VisitsCreateFiles(c: Setting, order: seq<string>, n: nat, d: Disks)
    requires ReadyToMake(c) && n <= |order| && forall x :: x in order ==> x in c.volumes
    requires VisitedAll(c, order, n, d).ok
    ensures VisitedAll(c, order, n, d).disks.images.Keys
         == d.images.Keys + CreatedFiles(c.volumes, c.volumeNames, FirstOf(order, n))
  {
    if n > 0 {
      VisitsCreateFiles(c, order, n - 1, d);
      assert FirstOf(order, n) == FirstOf(order, n - 1) + {order[n - 1]};
      var name := order[n - 1];
      assert CreatedFiles(c.volumes, c.volumeNames, FirstOf(order, n))
          == CreatedFiles(c.volumes, c.volumeNames, FirstOf(order, n - 1))
             + CreatedFiles(c.volumes, c.volumeNames, {name});
    }
  }

  /** The image of a volume that makeDisk made last under its file name is the finished image of that volume. */
  lemma {:induction false} VisitsMakeImages(c: Setting, order: seq<string>, n: nat, d: Disks, k: nat)
    requires ReadyToMake(c) && k < n <= |order| && forall x :: x in order ==> x in c.volumes
    requires VisitedAll(c, order, n, d).ok
    requires order[k] in c.volumeNames && c.volumes[order[k]].schema != Emmc
    requires forall i :: k < i < n && HasDisk(c, order[i]) ==> c.volumeNames[order[i]] != c.volumeNames[order[k]]
    ensures var name := order[k];
            var images := VisitedAll(c, order, n, d).disks.images;
            && c.volumeNames[name] in images
            && images[c.volumeNames[name]] ==
               VolumeImage(c.volumes[name], Find(c.imageSizes, name), c.sectorSize, c.seeded, PartsFor(c.parts, name),
                           c.writes[name]).bytes
  {
    if k < n - 1 {
      VisitsMakeImages(c, order, n - 1, d, k);
    }
  }

  /**
   Populating all volumes and then makeDisk, with a volume of the gadget whose file name no later visit takes: the file
   holds every part file at its place, and every byte outside the extents and the offset writes is that of the table.
   Whether the volume has a rootfs does not matter.
   */
  lemma BuiltImagesAreFaithful(c: Setting, order: seq<string>, d: Disks, k: nat, volumeOrder: seq<string>,
                               rootfsSize: nat, inputs: Inputs, before: map<string, map<nat, seq<byte>>>)
    requires ReadyToMake(c) && k < |order| && forall x :: x in order + volumeOrder ==> x in c.volumes
    requires forall i, j :: 0 <= i < j < |volumeOrder| ==> volumeOrder[i] != volumeOrder[j]
    requires PopulatedAll(c.volumes, volumeOrder, |volumeOrder|, rootfsSize, c.seeded, inputs, before) == Some(c.parts)
    requires VisitedAll(c, order, |order|, d).ok
    requires order[k] in volumeOrder && HasDisk(c, order[k])
    requires forall i :: k < i < |order| && HasDisk(c, order[i]) ==>
               c.volumeNames[order[i]] != c.volumeNames[order[k]]
    requires var ss := c.volumes[order[k]].structures;
             && LaidOut(ss, c.sectorSize, c.seeded, c.writes[order[k]])
             && GivenFilesFit(ss, inputs, c.seeded) && RootfsFits(ss, rootfsSize, c.seeded)
    ensures var name, v := order[k], c.volumes[order[k]];
            var images := VisitedAll(c, order, |order|, d).disks.images;
            && c.volumeNames[name] in images
            && HoldsVolume(images[c.volumeNames[name]],
                           TableImage(seq(DiskSize(v, Find(c.imageSizes, name), c.sectorSize), _ => 0), c.writes[name]),
                           v, c.seeded, PartFiles(v, name, rootfsSize, inputs, PartsFor(before, name)))
  {
    var name := order[k];
    assert volumeOrder[..|volumeOrder|] == volumeOrder;
    PopulatedAllMeans(c.volumes, volumeOrder, |volumeOrder|, rootfsSize, c.seeded, inputs, before);
    PopulatedImageIsFaithful(c.volumes[name], name, rootfsSize, c.seeded, inputs, PartsFor(before, name),
                             PartsFor(c.parts, name), Find(c.imageSizes, name), c.sectorSize, c.writes[name]);
    VisitsMakeImages(c, order, |order|, d, k);
  }

  /** The same volumes with other injective labels. */
  ghost predicate Relabelled(c: Setting, e: Setting) {
    && e == c.(volumes := e.volumes) && c.volumes.Keys == e.volumes.Keys
    && forall n :: n in c.volumes ==>
         && c.volumes[n].schema == e.volumes[n].schema
         && SameButLabels(c.volumes[n].structures, e.volumes[n].structures)
         && InjectiveLabels(c.volumes[n].structures) && InjectiveLabels(e.volumes[n].structures)
  }

  lemma VisitIgnoresLabels(c: Setting, e: Setting, name: string, d: Disks)
    requires ReadyToMake(c) && ReadyToMake(e) && Relabelled(c, e) && name in c.volumes
    ensures Visited(c, name, d) == Visited(e, name, d)
  {
    var v, w, request := c.volumes[name], e.volumes[name], Find(c.imageSizes, name);
    SizeIgnoresLabels(v, w, request, c.sectorSize);
    ScanIgnoresLabels(v, w, c.sectorSize, DiskSize(v, request, c.sectorSize), c.seeded);
    if name in c.volumeNames && v.schema != Emmc {
      ImageIgnoresLabels(v, w, request, c.sectorSize, c.seeded, PartsFor(c.parts, name), c.writes[name]);
    }
  }

  /** A resumed run, with its other labels, makes the same images and records the same numbers. */
  lemma {:induction false} VisitsIgnoreLabels(c: Setting, e: Setting, order: seq<string>, n: nat, d: Disks)
    requires ReadyToMake(c) && ReadyToMake(e) && Relabelled(c, e)
    requires n <= |order| && forall x :: x in order ==> x in c.volumes
    ensures VisitedAll(c, order, n, d) == VisitedAll(e, order, n, d)
  {
    if n > 0 {
      VisitsIgnoreLabels(c, e, order, n - 1, d);
      VisitIgnoresLabels(c, e, order[n - 1], VisitedAll(c, order, n - 1, d).disks);
    }
  }

  /** The scan is the outcome of GeneratePartitionTable on the disk that createDiskImage makes for the volume. */
  ghost predicate DescribesTable(v: Volume, request: Option<nat>, sectorSize: nat, seeded: bool, scan: Scan)
    requires sectorSize > 0
  {
    ScanMeans(v.structures, RowsOf(v, sectorSize), VerdictsOf(v, sectorSize, DiskSize(v, request, sectorSize)), seeded,
              |v.structures|, scan)
  }

  // ----- the state machine fields and the states

  class ImageBuilder {
    var volumes: map<string, Volume>
    var volumeOrder: seq<string>
    var volumeNames: map<string, string>
    var imageSizes: map<string, nat>
    var sectorSize: nat
    var isSeeded: bool
    var rootfsSize: nat
    var rootfsVolName: string
    var rootfsPartNum: int
    var bootPartNum: int
    var hasBiosPartition: bool
    var parts: map<string, map<nat, seq<byte>>>
    var images: map<string, seq<byte>>

    predicate Valid()
      reads `sectorSize, `volumes, `volumeOrder
    {
      && sectorSize > 0
      && (forall n :: n in volumeOrder ==> n in volumes)
      && (forall i, j :: 0 <= i < j < |volumeOrder| ==> volumeOrder[i] != volumeOrder[j])
      && (forall n :: n in volumes ==> OffsetsKnown(volumes[n].structures))
    }

    /** Some volume with a rootfs, and its first rootfs structure; volumes are visited in no particular order. */
    method FindRootfs() returns (where: Option<(string, nat)>)
      ensures where.None? ==> forall n, s :: n in volumes && s in volumes[n].structures ==> !IsRootfs(s)
      ensures where.Some? ==> IsFirstRootfs(where.value.0, where.value.1)
    {
      var names := volumes.Keys;
      while names != {}
        invariant names <= volumes.Keys
        invariant forall n, s :: n in volumes.Keys - names && s in volumes[n].structures ==> !IsRootfs(s)
        decreases |names|
      {
        var n :| n in names;
        var ss := volumes[n].structures;
        for i := 0 to |ss|
          invariant forall k :: 0 <= k < i ==> !IsRootfs(ss[k])
        {
          if IsRootfs(ss[i]) {
            return Some((n, i));
          }
        }
        names := names - {n};
      }
      where := None;
    }

    predicate IsFirstRootfs(n: string, i: nat)
      reads `volumes
    {
      && n in volumes && i < |volumes[n].structures| && IsRootfs(volumes[n].structures[i])
      && forall k :: 0 <= k < i ==> !IsRootfs(volumes[n].structures[k])
    }

    /** contentSize is what du reports; None when it fails. */
    method CalculateRootfsSize(contentSize: Option<nat>) returns (ok: bool, where: Option<(string, nat)>)
      requires Valid()
      modifies `rootfsSize, `volumes
      ensures ok == contentSize.Some?
      ensures !ok ==> rootfsSize == old(rootfsSize) && volumes == old(volumes)
      ensures ok && where.None? ==>
                rootfsSize == PaddedContent(contentSize.value, sectorSize) && volumes == old(volumes)
                && forall n, s :: n in volumes && s in volumes[n].structures ==> !IsRootfs(s)
      ensures ok && where.Some? ==>
                var (n, i) := where.value;
                && old(IsFirstRootfs(n, i))
                && rootfsSize == SizeOfRootfs(old(volumes)[n], i, contentSize.value,
                                              Find(imageSizes, old(volumes)[n].name), sectorSize)
                && volumes == old(volumes)[n := WithRootfsRaised(old(volumes)[n], i, rootfsSize)]
      ensures ok ==> Sized(old(volumes), volumes, rootfsSize)
    {
      if contentSize.None? {
        return false, None;
      }
      rootfsSize := PaddedContent(contentSize.value, sectorSize);
      where := FindRootfs();
      ok := true;
      if where.Some? {
        var (n, i) := where.value;
        var v := volumes[n];
        var gadgetMin := GadgetMin(v.structures[i], sectorSize);
        if gadgetMin > rootfsSize {
          rootfsSize := gadgetMin;
        }
        var desired := DesiredSize(v, Find(imageSizes, v.name), sectorSize);
        if desired.Some? && rootfsSize <= desired.value {
          rootfsSize := desired.value;
        }
        assert IsRootfsAt(volumes, n, i);
        volumes := volumes[n := WithRootfsRaised(v, i, rootfsSize)];
      }
    }

    method GrowImageSize(currentSize: nat, volumeName: string)
      modifies `imageSizes
      ensures imageSizes == old(imageSizes)[volumeName := Grown(Find(old(imageSizes), volumeName), currentSize)]
    {
      if volumeName !in imageSizes {
        imageSizes := imageSizes[volumeName := currentSize];
      } else if imageSizes[volumeName] < currentSize {
        imageSizes := imageSizes[volumeName := currentSize];
      }
    }

    function PartsOf(name: string): map<nat, seq<byte>>
      reads `parts
    {
      PartsFor(parts, name)
    }

    method PopulateVolume(name: string, inputs: Inputs) returns (ok: bool)
      requires Valid() && name in volumes
      modifies `parts
      ensures var wanted := PopulatedVolume(volumes[name], name, rootfsSize, isSeeded, inputs, old(PartsOf(name)));
              ok == wanted.Some? && parts == if ok then old(parts)[name := wanted.value] else old(parts)
    {
      var v, before, made := volumes[name], PartsOf(name), PartsOf(name);
      ghost var files := PartFiles(v, name, rootfsSize, inputs, before);
      for i := 0 to |v.structures|
        invariant parts == old(parts)
        invariant Populated(v.structures, files, isSeeded, before, i) == Some(made)
      {
        if ShouldSkip(v.structures[i], isSeeded) {
          continue;
        }
        var part := MakePart(v, name, i, rootfsSize, inputs, before);
        if part.None? {
          FailureStays(v.structures, files, isSeeded, before, i + 1);
          return false;
        }
        made := made[i := part.value];
      }
      parts := parts[name := made];
      ok := true;
    }

    /** Sizes and part files of all volumes but the eMMC ones, in the order of the gadget. */
    method PopulatePreparePartitions(inputs: Inputs) returns (ok: bool)
      requires Valid()
      modifies `parts, `imageSizes
      ensures var all := PopulatedAll(volumes, volumeOrder, |volumeOrder|, rootfsSize, isSeeded, inputs, old(parts));
              && ok == all.Some?
              && (ok ==> parts == all.value)
              && (ok ==> imageSizes == GrownSizes(volumes, volumeOrder, |volumeOrder|, old(imageSizes)))
    {
      ghost var before, sizes := parts, imageSizes;
      for k := 0 to |volumeOrder|
        invariant PopulatedAll(volumes, volumeOrder, k, rootfsSize, isSeeded, inputs, before) == Some(parts)
        invariant imageSizes == GrownSizes(volumes, volumeOrder, k, sizes)
      {
        var name := volumeOrder[k];
        if volumes[name].schema == Emmc {
          continue;
        }
        var populated := PopulateVolume(name, inputs);
        if !populated {
          PopulationFails(volumes, volumeOrder, k + 1, rootfsSize, isSeeded, inputs, before);
          return false;
        }
        GrowImageSize(VolumeMinSize(volumes[name].structures), name);
      }
      ok := true;
    }

    function SettingOf(writes: map<string, TableWrites>): Setting
      reads `volumes, `volumeNames, `imageSizes, `sectorSize, `isSeeded, `parts
    {
      Setting(volumes, volumeNames, imageSizes, sectorSize, isSeeded, parts, writes)
    }

    function CurrentDisks(): Disks
      reads `images, `rootfsPartNum, `bootPartNum, `hasBiosPartition, `rootfsVolName
    {
      Disks(images, rootfsPartNum, bootPartNum, hasBiosPartition, rootfsVolName)
    }

    /** partitionDisk: the recorded numbers of the table, unless a structure overlaps it. */
    method PartitionDisk(name: string, diskSize: nat) returns (scan: Scan)
      requires Valid() && name in volumes && diskSize == DiskSize(volumes[name], Find(imageSizes, name), sectorSize)
      modifies `rootfsPartNum, `bootPartNum, `hasBiosPartition, `rootfsVolName
      ensures scan == ScanOf(volumes[name], sectorSize, diskSize, isSeeded)
      ensures DescribesTable(volumes[name], Find(imageSizes, name), sectorSize, isSeeded, scan)
      ensures CurrentDisks() == Recorded(old(CurrentDisks()), scan, name)
    {
      var ok, table, rootfsNumber, bootNumber, hasBios :=
        GeneratePartitionTable(volumes[name], sectorSize, diskSize, isSeeded);
      scan := if ok then Scan(table, rootfsNumber, bootNumber, hasBios) else Overlap;
      if !ok {
        return;
      }
      RecordNumbers(name, table, rootfsNumber, bootNumber, hasBios);
    }

    method RecordNumbers(name: string, ghost table: seq<Entry>, rootfsNumber: int, bootNumber: int, hasBios: bool)
      modifies `rootfsPartNum, `bootPartNum, `hasBiosPartition, `rootfsVolName
      ensures CurrentDisks() == Recorded(old(CurrentDisks()), Scan(table, rootfsNumber, bootNumber, hasBios), name)
    {
      rootfsPartNum, bootPartNum, hasBiosPartition := rootfsNumber, bootNumber, hasBios;
      if rootfsNumber != -1 {
        rootfsVolName := name;
      }
    }

    /** createDiskImage, partitionDisk, copyDataToImage and writeOffsetValues for one volume. */
    method MakeVolumeDisk(name: string, ghost writes: map<string, TableWrites>, table: TableWrites) returns (ok: bool)
      requires Valid() && name in volumes && name in volumeNames
      requires ReadyToMake(SettingOf(writes)) && writes[name] == table
      modifies `images, `rootfsPartNum, `bootPartNum, `hasBiosPartition, `rootfsVolName
      ensures Made(ok, CurrentDisks()) == VolumeMade(SettingOf(writes), name, old(CurrentDisks()))
    {
      var diskSize := DiskSize(volumes[name], Find(imageSizes, name), sectorSize);
      var scan := PartitionDisk(name, diskSize);
      if scan.Overlap? {
        return false;
      }
      var request := Find(imageSizes, name);
      var image := FillDisk(volumes[name], diskSize, request, sectorSize, isSeeded, PartsOf(name), table);
      ok := image.ok;
      if ok {
        images := images[volumeNames[name] := image.bytes];
      }
    }

    /** One turn of makeDisk: volumes without an image name and eMMC volumes get no disk. */
    method VisitVolume(name: string, writes: map<string, TableWrites>) returns (ok: bool)
      requires Valid() && name in volumes && ReadyToMake(SettingOf(writes))
      modifies `images, `rootfsPartNum, `bootPartNum, `hasBiosPartition, `rootfsVolName
      ensures Made(ok, CurrentDisks()) == Visited(SettingOf(writes), name, old(CurrentDisks()))
    {
      if name !in volumeNames || volumes[name].schema == Emmc {
        return true;
      }
      ok := MakeVolumeDisk(name, writes, writes[name]);
    }

    /** makeDisk: exactly the named volumes that are not eMMC get an image file. */
    method MakeDisk(writes: map<string, TableWrites>) returns (ok: bool, ghost order: seq<string>)
      requires Valid() && forall n :: n in volumes ==> n in writes
      modifies `images, `rootfsPartNum, `bootPartNum, `hasBiosPartition, `rootfsVolName
      ensures EachOnce(order, volumes.Keys) && (ok ==> forall n :: n in volumes ==> n in order)
      ensures ReadyToMake(SettingOf(writes))
      ensures Made(ok, CurrentDisks()) == VisitedAll(SettingOf(writes), order, |order|, old(CurrentDisks()))
      ensures ok ==> images.Keys == old(images).Keys + CreatedFiles(volumes, volumeNames, volumes.Keys)
    {
      ok, order := VisitVolumes(writes);
      if ok {
        VisitsCreateFiles(SettingOf(writes), order, |order|, old(CurrentDisks()));
        assert FirstOf(order, |order|) == volumes.Keys;
      }
    }

    /** The volumes are visited in some order, each once, up to the first failure. */
    method VisitVolumes(writes: map<string, TableWrites>) returns (ok: bool, ghost order: seq<string>)
      requires Valid() && ReadyToMake(SettingOf(writes))
      modifies `images, `rootfsPartNum, `bootPartNum, `hasBiosPartition, `rootfsVolName
      ensures EachOnce(order, volumes.Keys) && (ok ==> forall n :: n in volumes ==> n in order)
      ensures Made(ok, CurrentDisks()) == VisitedAll(SettingOf(writes), order, |order|, old(CurrentDisks()))
    {
      ok, order := true, [];
      ghost var c, d := SettingOf(writes), CurrentDisks();
      var all := volumes.Keys;
      var names := all;
      while names != {} && ok
        invariant c == SettingOf(writes) && Progress(c, all, order, names, d, Made(ok, CurrentDisks()))
        decreases |names|
      {
        var name :| name in names;
        ghost var before := CurrentDisks();
        ok := VisitVolume(name, writes);
        ProgressNext(c, all, order, names, name, d, before);
        order := order + [name];
        names := names - {name};
      }
    }
  }

  /** A round of visits that has come to the given outcome, with the names still to visit. */
  ghost predicate Progress(c: Setting, all: set<string>, order: seq<string>, names: set<string>, d: Disks, m: Made) {
    && ReadyToMake(c) && all == c.volumes.Keys && names <= all && EachOnce(order, all)
    && (forall n :: n in all ==> n in order || n in names) && (forall n :: n in order ==> n !in names)
    && m == VisitedAll(c, order, |order|, d)
  }

  lemma ProgressNext(c: Setting, all: set<string>, order: seq<string>, names: set<string>, name: string, d: Disks,
                     before: Disks)
    requires Progress(c, all, order, names, d, Made(true, before)) && name in names
    ensures Progress(c, all, order + [name], names - {name}, d, Visited(c, name, before))
  {
    NextVisit(c, order, name, d);
  }

  /** The order lists names of the set, none twice. */
  ghost predicate EachOnce(order: seq<string>, names: set<string>) {
    (forall x :: x in order ==> x in names) && forall i, j :: 0 <= i < j < |order| ==> order[i] != order[j]
  }

  lemma {:induction false} PrefixVisits(c: Setting, before: seq<string>, order: seq<string>, n: nat, d: Disks)
    requires ReadyToMake(c) && n <= |before| && before <= order && forall x :: x in order ==> x in c.volumes
    ensures VisitedAll(c, before, n, d) == VisitedAll(c, order, n, d)
  {
    if n > 0 {
      PrefixVisits(c, before, order, n - 1, d);
    }
  }

  lemma NextVisit(c: Setting, order: seq<string>, name: string, d: Disks)
    requires ReadyToMake(c) && name in c.volumes && forall x :: x in order ==> x in c.volumes
    requires VisitedAll(c, order, |order|, d).ok
    ensures VisitedAll(c, order + [name], |order| + 1, d)
         == Visited(c, name, VisitedAll(c, order, |order|, d).disks)
  {
    PrefixVisits(c, order, order + [name], |order|, d);
  }

  /** The disk of one volume, from blank to patched. */
  method FillDisk(v: Volume, diskSize: nat, request: Option<nat>, sectorSize: nat, seeded: bool,
                  parts: map<nat, seq<byte>>, writes: TableWrites)
    returns (image: File)
    requires sectorSize > 0 && OffsetsKnown(v.structures) && diskSize == DiskSize(v, request, sectorSize)
    ensures image == VolumeImage(v, request, sectorSize, seeded, parts, writes)
  {
    var disk := new Disk(diskSize);
    WriteTable(disk, writes);
    var ok := CopyDataToImage(disk, v.structures, parts, sectorSize, seeded);
    if ok {
      ok := WriteOffsetValues(disk, v.structures, sectorSize, diskSize);
    }
    image := File(ok, disk.data[..]);
  }

  method MakePart(v: Volume, name: string, i: nat, rootfsSize: nat, inputs: Inputs, before: map<nat, seq<byte>>)
    returns (part: Option<seq<byte>>)
    requires i < |v.structures|
    ensures part == PartFile(v, name, i, rootfsSize, inputs, before)
  {
    var s := v.structures[i];
    if s.role == SystemBootState {
      return inputs.bootState;
    }
    if !HasFilesystem(s) {
      part := CopyStructureNoFs(if i in before then before[i] else [], s.size,
                                if s.content.Some? then s.content.value else [], inputs.blobs);
      return;
    }
    if (name, i) !in inputs.filesystems || (!IsRootfs(s) && s.size == 0) {
      return None;
    }
    part := Some(Resized(inputs.filesystems[(name, i)], if IsRootfs(s) then rootfsSize else s.size));
  }

  lemma {:induction false} FailureStays(ss: seq<VolumeStructure>, files: seq<Option<seq<byte>>>, seeded: bool,
                                        before: map<nat, seq<byte>>, n: nat)
    requires n <= |ss| == |files| && Populated(ss, files, seeded, before, n).None?
    ensures Populated(ss, files, seeded, before, |ss|).None?
    decreases |ss| - n
  {
    if n < |ss| {
      FailureStays(ss, files, seeded, before, n + 1);
    }
  }

  method WriteTable(disk: Disk, writes: TableWrites)
    modifies disk, disk.data
    ensures disk.data == old(disk.data) || fresh(disk.data)
    ensures disk.data[..] == TableImage(old(disk.data[..]), writes)
  {
    ghost var img := disk.data[..];
    for k := 0 to |writes|
      invariant disk.data == old(disk.data) || fresh(disk.data)
      invariant disk.data[..] == TableImage(img, writes[..k])
    {
      disk.WriteAt(writes[k].0, writes[k].1);
      assert writes[..k + 1][..k] == writes[..k];
    }
    assert writes[..|writes|] == writes;
  }
}
