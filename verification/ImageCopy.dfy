/**
 Filling files with pieces: part files are copied into the disk image (copyDataToImage), content blobs into a part file
 (copyStructureNoFS), and structure offsets are written into the finished image (writeOffsetValues).
 */
module ImageCopy {
  import opened Quantities
  import opened Structures
  import opened DiskImage
  import opened PartitionTable

  /** A file in progress; ok is false once a command failed. */
  datatype File = File(ok: bool, bytes: seq<byte>)

  // ----- placing pieces with dd

  /** Data to be copied to offset `at`, inside an extent of `size` bytes. */
  datatype Piece = Nothing | Piece(at: nat, size: nat, data: seq<byte>)

  function Place(img: seq<byte>, piece: Piece, bs: nat): seq<byte>
    requires bs > 0
  {
    if piece.Nothing? then img else DdResult(img, piece.data, bs, piece.at / bs, CeilDiv(piece.size, bs))
  }

  function Placed(img: seq<byte>, pieces: seq<Piece>, bs: nat, n: nat): seq<byte>
    requires bs > 0 && n <= |pieces|
  {
    if n == 0 then img else Place(Placed(img, pieces, bs, n - 1), pieces[n - 1], bs)
  }

  /** One dd run, with the arguments of copyDataToImage. */
  method DdPiece(disk: Disk, at: nat, size: nat, data: seq<byte>, bs: nat)
    requires bs > 0
    modifies disk, disk.data
    ensures disk.data == old(disk.data) || fresh(disk.data)
    ensures disk.data[..] == Place(old(disk.data[..]), Piece(at, size, data), bs)
  {
    disk.Dd(data, bs, at / bs, CeilDiv(size, bs));
  }

  predicate Inside(piece: Piece, p: int) {
    piece.Piece? && piece.at <= p < piece.at + piece.size
  }

  /** The piece starts on a block boundary, lies inside the file, and its data is no longer than its extent. */
  predicate Fits(img: seq<byte>, piece: Piece, bs: nat)
    requires bs > 0
  {
    piece.Piece? ==> Aligned(piece.at, bs) && piece.at + piece.size <= |img| && |piece.data| <= piece.size
  }

  ghost predicate ZeroInside(img: seq<byte>, piece: Piece) {
    forall p :: 0 <= p < |img| && Inside(piece, p) ==> img[p] == 0
  }

  /** Over zeros, dd puts the data at the start of the extent and touches nothing else. */
  lemma PlaceOverZeros(img: seq<byte>, piece: Piece, bs: nat)
    requires bs > 0 && piece.Piece? && Fits(img, piece, bs) && ZeroInside(img, piece)
    ensures Place(img, piece, bs) == Written(img, piece.at, piece.data)
  {
    var seek, count := piece.at / bs, CeilDiv(piece.size, bs);
    FloorIsCeilIffAligned(piece.at, bs);
    assert piece.data[..|piece.data|] == piece.data;
    SparseCopyIsPlainIff(img, piece.data, bs, seek, count);
  }

  ghost predicate Disjoint(a: Piece, b: Piece) {
    forall p :: !(Inside(a, p) && Inside(b, p))
  }

  ghost predicate Ready(img: seq<byte>, pieces: seq<Piece>, bs: nat)
    requires bs > 0
  {
    && (forall i :: 0 <= i < |pieces| ==> Fits(img, pieces[i], bs) && ZeroInside(img, pieces[i]))
    && (forall i, j :: 0 <= i < j < |pieces| ==> Disjoint(pieces[i], pieces[j]))
  }

  /** The extent of the piece holds its data, followed by zeros. */
  ghost predicate Holds(img: seq<byte>, piece: Piece) {
    forall p :: 0 <= p < |img| && Inside(piece, p) ==>
      img[p] == if p - piece.at < |piece.data| then piece.data[p - piece.at] else 0
  }

  ghost predicate AllPlaced(before: seq<byte>, after: seq<byte>, pieces: seq<Piece>, n: nat)
    requires n <= |pieces|
  {
    && |after| == |before|
    && (forall i :: 0 <= i < n ==> Holds(after, pieces[i]))
    && (forall p :: 0 <= p < |after| && (forall i :: 0 <= i < n ==> !Inside(pieces[i], p)) ==> after[p] == before[p])
  }

  /** Placing disjoint pieces over zeros: every extent holds its piece, and no byte outside the extents changes. */
  lemma {:induction false} PiecesArePlaced(img: seq<byte>, pieces: seq<Piece>, bs: nat, n: nat)
    requires bs > 0 && n <= |pieces| && Ready(img, pieces, bs)
    ensures AllPlaced(img, Placed(img, pieces, bs, n), pieces, n)
  {
    if n > 0 {
      var before, piece := Placed(img, pieces, bs, n - 1), pieces[n - 1];
      PiecesArePlaced(img, pieces, bs, n - 1);
      if piece.Piece? {
        forall p | 0 <= p < |before| && Inside(piece, p) ensures before[p] == 0 {
          assert forall i :: 0 <= i < n - 1 ==> Disjoint(pieces[i], piece);
          assert Inside(piece, p);
        }
        PlaceOverZeros(before, piece, bs);
        PlacedNext(img, before, pieces, n);
      }
    }
  }

  lemma PlacedNext(img: seq<byte>, before: seq<byte>, pieces: seq<Piece>, n: nat)
    requires 0 < n <= |pieces| && AllPlaced(img, before, pieces, n - 1)
    requires var piece := pieces[n - 1];
             && piece.Piece? && |piece.data| <= piece.size && piece.at + piece.size <= |before|
             && ZeroInside(before, piece)
             && forall i :: 0 <= i < n - 1 ==> Disjoint(pieces[i], piece)
    ensures AllPlaced(img, Written(before, pieces[n - 1].at, pieces[n - 1].data), pieces, n)
  {
    var piece := pieces[n - 1];
    var after := Written(before, piece.at, piece.data);
    forall i | 0 <= i < n ensures Holds(after, pieces[i]) {
      forall p | 0 <= p < |after| && Inside(pieces[i], p)
        ensures after[p] == if p - pieces[i].at < |pieces[i].data| then pieces[i].data[p - pieces[i].at] else 0
      {
        if i < n - 1 {
          assert Disjoint(pieces[i], piece) && !Inside(piece, p);
          assert Holds(before, pieces[i]);
        }
      }
    }
    forall p | 0 <= p < |after| && (forall i :: 0 <= i < n ==> !Inside(pieces[i], p))
      ensures after[p] == img[p]
    {
      assert !Inside(piece, p);
    }
  }

  // ----- copyStructureNoFS

  /** `dd count=0 seek=1 bs=size`: the file cut or zero-extended to `size` bytes. Bytes it had before stay. */
  function Resized(before: seq<byte>, size: nat): (r: seq<byte>)
    ensures |r| == size
  {
    if |before| <= size then Extended(before, size) else before[..size]
  }

  /** The running offset after i contents. */
  function OffsetAfter(contents: seq<Content>, i: nat): nat
    requires i <= |contents|
    decreases i, 0
  {
    if i == 0 then 0 else RunningOffset(contents, i - 1) + contents[i - 1].size
  }

  /** Where content i of a structure is copied to: its own offset, or the end of the content before it. */
  function RunningOffset(contents: seq<Content>, i: nat): nat
    requires i < |contents|
    decreases i, 1
  {
    if contents[i].offset.Some? then contents[i].offset.value else OffsetAfter(contents, i)
  }

  /** The pieces of a raw part file; `blobs` are the content files of the gadget. */
  function ContentPieces(contents: seq<Content>, blobs: map<string, seq<byte>>): (r: seq<Piece>)
    ensures |r| == |contents|
  {
    seq(|contents|, i requires 0 <= i < |contents| => ContentPiece(contents, blobs, i))
  }

  function ContentPiece(contents: seq<Content>, blobs: map<string, seq<byte>>, i: nat): Piece
    requires i < |contents|
  {
    if contents[i].image !in blobs then Nothing
    else Piece(RunningOffset(contents, i), |blobs[contents[i].image]|, blobs[contents[i].image])
  }

  predicate BlobsPresent(contents: seq<Content>, blobs: map<string, seq<byte>>) {
    forall i :: 0 <= i < |contents| ==> contents[i].image in blobs
  }

  /** The part file of a structure without filesystem, made over a file that may already exist. */
  function RawPart(before: seq<byte>, size: nat, contents: seq<Content>, blobs: map<string, seq<byte>>): seq<byte> {
    Placed(Resized(before, size), ContentPieces(contents, blobs), 1, |contents|)
  }

  /** dd refuses a block size of zero, so a structure without a size cannot be made. */
  method CopyStructureNoFs(before: seq<byte>, size: nat, contents: seq<Content>, blobs: map<string, seq<byte>>)
    returns (part: Option<seq<byte>>)
    ensures part == if size > 0 && BlobsPresent(contents, blobs) then Some(RawPart(before, size, contents, blobs))
                    else None
  {
    if size == 0 {
      return None;
    }
    var file := new Disk(0);
    file.WriteAt(0, Resized(before, size));
    assert file.data[..] == Resized(before, size);
    var ok := CopyContents(file, contents, blobs);
    part := if ok then Some(file.data[..]) else None;
  }

  /** The loop of copyStructureNoFS; it stops at the first missing blob. */
  method CopyContents(file: Disk, contents: seq<Content>, blobs: map<string, seq<byte>>) returns (ok: bool)
    modifies file, file.data
    ensures file.data == old(file.data) || fresh(file.data)
    ensures ok == BlobsPresent(contents, blobs)
    ensures ok ==> file.data[..] == Placed(old(file.data[..]), ContentPieces(contents, blobs), 1, |contents|)
  {
    var runningOffset := 0;
    ghost var img, pieces := file.data[..], ContentPieces(contents, blobs);
    for i := 0 to |contents|
      invariant file.data == old(file.data) || fresh(file.data)
      invariant BlobsPresent(contents[..i], blobs)
      invariant runningOffset == OffsetAfter(contents, i)
      invariant file.data[..] == Placed(img, pieces, 1, i)
    {
      var content := contents[i];
      if content.offset.Some? {
        runningOffset := content.offset.value;
      }
      if content.image !in blobs {
        return false;
      }
      DdPiece(file, runningOffset, |blobs[content.image]|, blobs[content.image], 1);
      runningOffset := runningOffset + content.size;
    }
    ok := true;
  }

  lemma OneByteBlocks(a: nat)
    ensures a / 1 == a && CeilDiv(a, 1) == a && Aligned(a, 1)
  {
    CeilDivUnique(a, 1, a);
  }

  /** One more blob leaves the length as it is if it fits, and else makes it longer. */
  lemma RawLengthNext(img: seq<byte>, contents: seq<Content>, blobs: map<string, seq<byte>>, n: nat)
    requires n < |contents| && BlobsPresent(contents, blobs)
    ensures var before, after := |Placed(img, ContentPieces(contents, blobs), 1, n)|,
                                 |Placed(img, ContentPieces(contents, blobs), 1, n + 1)|;
            after >= before && (after == before <==> BlobFits(contents, blobs, n, before))
  {
    var before := Placed(img, ContentPieces(contents, blobs), 1, n);
    var at, blob := RunningOffset(contents, n), blobs[contents[n].image];
    PlaceLength(before, at, blob);
    assert Placed(img, ContentPieces(contents, blobs), 1, n + 1) == Place(before, Piece(at, |blob|, blob), 1);
  }

  predicate BlobsFit(contents: seq<Content>, blobs: map<string, seq<byte>>, n: nat, size: nat)
    requires n <= |contents| && BlobsPresent(contents, blobs)
  {
    forall i :: 0 <= i < n ==> BlobFits(contents, blobs, i, size)
  }

  lemma {:induction false} RawLength(img: seq<byte>, contents: seq<Content>, blobs: map<string, seq<byte>>, n: nat)
    requires n <= |contents| && BlobsPresent(contents, blobs)
    ensures var r := |Placed(img, ContentPieces(contents, blobs), 1, n)|;
            r >= |img| && (r == |img| <==> BlobsFit(contents, blobs, n, |img|))
  {
    if n > 0 {
      RawLength(img, contents, blobs, n - 1);
      RawLengthNext(img, contents, blobs, n - 1);
      var before, after := |Placed(img, ContentPieces(contents, blobs), 1, n - 1)|,
                           |Placed(img, ContentPieces(contents, blobs), 1, n)|;
      assert BlobsFit(contents, blobs, n, |img|) <==>
             BlobsFit(contents, blobs, n - 1, |img|) && BlobFits(contents, blobs, n - 1, |img|);
      assert after == |img| <==> before == |img| && after == before;
    }
  }

  lemma PlaceLength(img: seq<byte>, at: nat, data: seq<byte>)
    ensures |Place(img, Piece(at, |data|, data), 1)| == if data == [] then |img| else Max(|img|, at + |data|)
  {
    OneByteBlocks(at);
    OneByteBlocks(|data|);
    DdBytes(img, data, 1, at, |data|);
  }

  predicate BlobFits(contents: seq<Content>, blobs: map<string, seq<byte>>, i: nat, size: nat)
    requires i < |contents| && contents[i].image in blobs
  {
    var blob := blobs[contents[i].image];
    blob != [] ==> RunningOffset(contents, i) + |blob| <= size
  }

  /** A raw part file is as long as its structure if and only if every blob ends inside it; else it is longer. */
  lemma RawPartLengthIff(before: seq<byte>, size: nat, contents: seq<Content>, blobs: map<string, seq<byte>>)
    requires BlobsPresent(contents, blobs)
    ensures |RawPart(before, size, contents, blobs)| >= size
    ensures |RawPart(before, size, contents, blobs)| == size
       <==> forall i :: 0 <= i < |contents| ==> BlobFits(contents, blobs, i, size)
  {
    RawLength(Resized(before, size), contents, blobs, |contents|);
  }

  /** In a new part file, blobs that fit and do not overlap each lie at their running offset, between zeros. */
  lemma RawPartIsPlaced(size: nat, contents: seq<Content>, blobs: map<string, seq<byte>>)
    requires BlobsPresent(contents, blobs)
    requires forall i :: 0 <= i < |contents| ==> RunningOffset(contents, i) + |blobs[contents[i].image]| <= size
    requires forall i, j :: 0 <= i < j < |contents| ==>
               Disjoint(ContentPiece(contents, blobs, i), ContentPiece(contents, blobs, j))
    ensures AllPlaced(seq(size, _ => 0), RawPart([], size, contents, blobs), ContentPieces(contents, blobs), |contents|)
  {
    assert Resized([], size) == seq(size, _ => 0);
    forall i | 0 <= i < |contents| ensures Fits(Resized([], size), ContentPieces(contents, blobs)[i], 1) {
      OneByteBlocks(RunningOffset(contents, i));
    }
    PiecesArePlaced(Resized([], size), ContentPieces(contents, blobs), 1, |contents|);
  }

  // ----- copyDataToImage

  /** The piece each structure contributes: skipped structures none, the others their part file. */
  function PiecesOf(ss: seq<VolumeStructure>, parts: map<nat, seq<byte>>, seeded: bool): (r: seq<Piece>)
    ensures |r| == |ss|
  {
    seq(|ss|, i requires 0 <= i < |ss| => PieceOf(ss, parts, seeded, i))
  }

  function PieceOf(ss: seq<VolumeStructure>, parts: map<nat, seq<byte>>, seeded: bool, i: nat): Piece
    requires i < |ss|
  {
    if ShouldSkip(ss[i], seeded) || i !in parts then Nothing
    else Piece(Lookup(ss, i).start, Lookup(ss, i).size, parts[i])
  }

  /** The first structure from position `from` on whose part file is missing, or the number of structures. */
  function FirstMissing(ss: seq<VolumeStructure>, parts: map<nat, seq<byte>>, seeded: bool, from: nat): (r: nat)
    requires from <= |ss|
    ensures from <= r <= |ss| && (r < |ss| ==> !ShouldSkip(ss[r], seeded) && r !in parts)
    ensures forall i: nat :: from <= i < r && !ShouldSkip(ss[i], seeded) ==> i in parts
    decreases |ss| - from
  {
    if from == |ss| || (!ShouldSkip(ss[from], seeded) && from !in parts) then from
    else FirstMissing(ss, parts, seeded, from + 1)
  }

  /** Fails at the first missing part file; the structures before that one have then been copied. */
  method CopyDataToImage(disk: Disk, ss: seq<VolumeStructure>, parts: map<nat, seq<byte>>, sectorSize: nat,
                         seeded: bool)
    returns (ok: bool)
    requires sectorSize > 0
    modifies disk, disk.data
    ensures disk.data == old(disk.data) || fresh(disk.data)
    ensures var end := FirstMissing(ss, parts, seeded, 0);
            && ok == (end == |ss|)
            && disk.data[..] == Placed(old(disk.data[..]), PiecesOf(ss, parts, seeded), sectorSize, end)
  {
    var onDisk := OnDiskMap(ss, |ss|);
    ghost var img, pieces := disk.data[..], PiecesOf(ss, parts, seeded);
    for i := 0 to |ss|
      invariant disk.data == old(disk.data) || fresh(disk.data)
      invariant FirstMissing(ss, parts, seeded, i) == FirstMissing(ss, parts, seeded, 0)
      invariant disk.data[..] == Placed(img, pieces, sectorSize, i)
    {
      if ShouldSkip(ss[i], seeded) {
        continue;
      }
      if i !in parts {
        return false;
      }
      var onDiskStruct := onDisk[ss[i].yamlIndex];
      DdPiece(disk, onDiskStruct.start, onDiskStruct.size, parts[i], sectorSize);
    }
    ok := true;
  }

  /**
   The block that dd seeks to is the start sector in the table, for every structure of the volume, if and only if all
   starts lie on sector boundaries. An MBR has room for sectors below 2^32.
   */
  lemma SeeksAreTableStartsIff(v: Volume, sectorSize: nat)
    requires sectorSize > 0
    requires v.schema == Mbr ==>
               forall i: nat :: i < |v.structures| ==>
                 CeilDiv(Lookup(v.structures, i).start, sectorSize) < TWO_TO_THE_32
    ensures (forall i: nat :: i < |v.structures| ==> SeekMatches(v, sectorSize, i))
       <==> (forall i: nat :: i < |v.structures| ==> Aligned(Lookup(v.structures, i).start, sectorSize))
  {
    forall i: nat | i < |v.structures|
      ensures SeekMatches(v, sectorSize, i) <==> Aligned(Lookup(v.structures, i).start, sectorSize)
    {
      SeekMatchesIff(v, sectorSize, i);
    }
  }

  predicate SeekMatches(v: Volume, sectorSize: nat, i: nat)
    requires sectorSize > 0 && i < |v.structures|
  {
    Lookup(v.structures, i).start / sectorSize == RowsOf(v, sectorSize)[i].start
  }

  lemma SeekMatchesIff(v: Volume, sectorSize: nat, i: nat)
    requires sectorSize > 0 && i < |v.structures|
    requires v.schema == Mbr ==> CeilDiv(Lookup(v.structures, i).start, sectorSize) < TWO_TO_THE_32
    ensures SeekMatches(v, sectorSize, i) <==> Aligned(Lookup(v.structures, i).start, sectorSize)
  {
    FloorIsCeilIffAligned(Lookup(v.structures, i).start, sectorSize);
    assert RowsOf(v, sectorSize)[i] == Row(v.schema, sectorSize, Lookup(v.structures, i), v.structures[i]);
  }

  /** Any two injective labellings of a volume copy the same pieces. */
  lemma PiecesIgnoreLabels(ss: seq<VolumeStructure>, ts: seq<VolumeStructure>, parts: map<nat, seq<byte>>, seeded: bool)
    requires SameButLabels(ss, ts) && InjectiveLabels(ss) && InjectiveLabels(ts)
    ensures PiecesOf(ss, parts, seeded) == PiecesOf(ts, parts, seeded)
  {
    forall i | 0 <= i < |ss| ensures PiecesOf(ss, parts, seeded)[i] == PiecesOf(ts, parts, seeded)[i] {
      LookupIgnoresLabels(ss, ts, i);
      RelabelKeepsStructure(ss, ts, i);
    }
  }

  /** What makeDisk's copy phase needs from the image, the layout and the part files. */
  ghost predicate CopyReady(img: seq<byte>, ss: seq<VolumeStructure>, parts: map<nat, seq<byte>>, sectorSize: nat,
                            seeded: bool)
    requires sectorSize > 0
  {
    && InjectiveLabels(ss) && Ordered(ss) && FirstMissing(ss, parts, seeded, 0) == |ss|
    && (forall i: nat :: i < |ss| && !ShouldSkip(ss[i], seeded) ==>
          |parts[i]| <= ss[i].size && Aligned(Start(ss, i), sectorSize) && End(ss, i) <= |img|)
    && (forall i: nat, p :: i < |ss| && !ShouldSkip(ss[i], seeded) && InExtent(ss, i, p) && 0 <= p < |img| ==>
          img[p] == 0)
  }

  predicate InExtent(ss: seq<VolumeStructure>, i: nat, p: int)
    requires i < |ss|
  {
    Start(ss, i) <= p < End(ss, i)
  }

  /** Byte p of an image copied over `img`: the part file of the extent it lies in, zeros after it, or unchanged. */
  ghost predicate ByteCopied(img: seq<byte>, ss: seq<VolumeStructure>, parts: map<nat, seq<byte>>, seeded: bool,
                             p: nat, b: byte)
    requires p < |img| && FirstMissing(ss, parts, seeded, 0) == |ss|
  {
    && (forall i: nat :: i < |ss| && !ShouldSkip(ss[i], seeded) && InExtent(ss, i, p) ==>
          b == if p - Start(ss, i) < |parts[i]| then parts[i][p - Start(ss, i)] else 0)
    && ((forall i: nat :: i < |ss| && !ShouldSkip(ss[i], seeded) ==> !InExtent(ss, i, p)) ==> b == img[p])
  }

  lemma PieceOfStructure(ss: seq<VolumeStructure>, parts: map<nat, seq<byte>>, seeded: bool, i: nat)
    requires InjectiveLabels(ss) && FirstMissing(ss, parts, seeded, 0) == |ss| && i < |ss|
    ensures PiecesOf(ss, parts, seeded)[i] ==
            if ShouldSkip(ss[i], seeded) then Nothing else Piece(Start(ss, i), ss[i].size, parts[i])
  {
    InjectiveLookup(ss, i);
  }

  lemma ReadyPieces(img: seq<byte>, ss: seq<VolumeStructure>, parts: map<nat, seq<byte>>, sectorSize: nat, seeded: bool)
    requires sectorSize > 0 && CopyReady(img, ss, parts, sectorSize, seeded)
    ensures Ready(img, PiecesOf(ss, parts, seeded), sectorSize)
  {
    var pieces := PiecesOf(ss, parts, seeded);
    forall i | 0 <= i < |ss| ensures Fits(img, pieces[i], sectorSize) && ZeroInside(img, pieces[i]) {
      PieceOfStructure(ss, parts, seeded, i);
      forall p | 0 <= p < |img| && Inside(pieces[i], p) ensures img[p] == 0 {
        assert InExtent(ss, i, p);
      }
    }
    forall i, j | 0 <= i < j < |ss| ensures Disjoint(pieces[i], pieces[j]) {
      PieceOfStructure(ss, parts, seeded, i);
      PieceOfStructure(ss, parts, seeded, j);
      OrderedExtents(ss, i, j);
    }
  }

  /**
   After the copy, the extent of every structure that is not skipped holds its part file followed by zeros, and every
   byte outside these extents is as before.
   */
  lemma CopiedImage(img: seq<byte>, ss: seq<VolumeStructure>, parts: map<nat, seq<byte>>, sectorSize: nat, seeded: bool)
    requires sectorSize > 0 && CopyReady(img, ss, parts, sectorSize, seeded)
    ensures var after := Placed(img, PiecesOf(ss, parts, seeded), sectorSize, |ss|);
            |after| == |img| && forall p :: 0 <= p < |img| ==> ByteCopied(img, ss, parts, seeded, p, after[p])
  {
    var pieces := PiecesOf(ss, parts, seeded);
    var after := Placed(img, pieces, sectorSize, |ss|);
    ReadyPieces(img, ss, parts, sectorSize, seeded);
    PiecesArePlaced(img, pieces, sectorSize, |ss|);
    forall p | 0 <= p < |img| ensures ByteCopied(img, ss, parts, seeded, p, after[p]) {
      CopiedByte(img, after, ss, parts, seeded, p);
    }
  }

  lemma CopiedByte(img: seq<byte>, after: seq<byte>, ss: seq<VolumeStructure>, parts: map<nat, seq<byte>>,
                   seeded: bool, p: nat)
    requires InjectiveLabels(ss) && FirstMissing(ss, parts, seeded, 0) == |ss|
    requires p < |img| && AllPlaced(img, after, PiecesOf(ss, parts, seeded), |ss|)
    ensures ByteCopied(img, ss, parts, seeded, p, after[p])
  {
    var pieces := PiecesOf(ss, parts, seeded);
    forall i: nat | i < |ss|
      ensures Inside(pieces[i], p) <==> !ShouldSkip(ss[i], seeded) && InExtent(ss, i, p)
      ensures Inside(pieces[i], p) ==> pieces[i].at == Start(ss, i) && pieces[i].data == parts[i]
    {
      PieceOfStructure(ss, parts, seeded, i);
    }
    forall i: nat | i < |ss| && !ShouldSkip(ss[i], seeded) && InExtent(ss, i, p)
      ensures after[p] == if p - Start(ss, i) < |parts[i]| then parts[i][p - Start(ss, i)] else 0
    {
      assert Inside(pieces[i], p) && Holds(after, pieces[i]);
    }
  }

  // ----- writeOffsetValues

  /** The n low bytes of a number, least significant first. */
  function LowBytes(x: nat, n: nat): (r: seq<byte>)
    ensures |r| == n
  {
    if n == 0 then [] else [(x % 256) as byte] + LowBytes(x / 256, n - 1)
  }

  function BytesValue(b: seq<byte>): nat {
    if b == [] then 0 else b[0] as nat + 256 * BytesValue(b[1..])
  }

  /** binary.LittleEndian.PutUint32 of the truncated value. */
  function LittleEndian(x: nat): (r: seq<byte>)
    ensures |r| == 4
  {
    LowBytes(Wrap32(x), 4)
  }

  function Power256(n: nat): nat {
    if n == 0 then 1 else 256 * Power256(n - 1)
  }

  lemma {:induction false} LowBytesValue(x: nat, n: nat)
    requires x < Power256(n)
    ensures BytesValue(LowBytes(x, n)) == x
  {
    if n > 0 {
      LowBytesValue(x / 256, n - 1);
      assert LowBytes(x, n)[1..] == LowBytes(x / 256, n - 1);
    }
  }

  /** The four bytes read back as the sector number if and only if it is below 2^32. */
  lemma LittleEndianRoundTrip(x: nat)
    ensures BytesValue(LittleEndian(x)) == x <==> x < TWO_TO_THE_32
  {
    assert Power256(4) == 256 * Power256(3) && Power256(3) == 256 * Power256(2) && Power256(2) == 256 * Power256(1);
    LowBytesValue(Wrap32(x), 4);
  }

  /** Structures that ask for an offset write have an explicit offset; the program dereferences it. */
  predicate OffsetsKnown(ss: seq<VolumeStructure>) {
    forall i :: 0 <= i < |ss| && ss[i].offsetWrite.Some? ==> ss[i].offset.Some?
  }

  /** The image after the offset writes of the first n structures. */
  function Patched(img: seq<byte>, ss: seq<VolumeStructure>, sectorSize: nat, imgSize: nat, n: nat): File
    requires sectorSize > 0 && n <= |ss| && OffsetsKnown(ss)
  {
    if n == 0 then File(true, img)
    else
      var before, s := Patched(img, ss, sectorSize, imgSize, n - 1), ss[n - 1];
      if !before.ok || s.offsetWrite.None? then before
      else
        var offset := s.offset.value / sectorSize;
        if Wrap64(imgSize - 4) < offset then File(false, before.bytes)
        else File(true, Written(before.bytes, s.offsetWrite.value, LittleEndian(offset)))
  }

  method WriteOffsetValues(disk: Disk, ss: seq<VolumeStructure>, sectorSize: nat, imgSize: nat) returns (ok: bool)
    requires sectorSize > 0 && OffsetsKnown(ss)
    modifies disk, disk.data
    ensures disk.data == old(disk.data) || fresh(disk.data)
    ensures File(ok, disk.data[..]) == Patched(old(disk.data[..]), ss, sectorSize, imgSize, |ss|)
  {
    ghost var img := disk.data[..];
    for i := 0 to |ss|
      invariant disk.data == old(disk.data) || fresh(disk.data)
      invariant File(true, disk.data[..]) == Patched(img, ss, sectorSize, imgSize, i)
    {
      if ss[i].offsetWrite.Some? {
        var offset := ss[i].offset.value / sectorSize;
        if Wrap64(imgSize - 4) < offset {
          PatchedStops(img, ss, sectorSize, imgSize, i + 1);
          return false;
        }
        disk.WriteAt(ss[i].offsetWrite.value, LittleEndian(offset));
      }
    }
    ok := true;
  }

  lemma {:induction false} PatchedStops(img: seq<byte>, ss: seq<VolumeStructure>, sectorSize: nat, imgSize: nat, n: nat)
    requires sectorSize > 0 && n <= |ss| && OffsetsKnown(ss) && !Patched(img, ss, sectorSize, imgSize, n).ok
    ensures Patched(img, ss, sectorSize, imgSize, |ss|) == Patched(img, ss, sectorSize, imgSize, n)
    decreases |ss| - n
  {
    if n < |ss| {
      PatchedStops(img, ss, sectorSize, imgSize, n + 1);
    }
  }

  predicate InWindow(s: VolumeStructure, p: int) {
    s.offsetWrite.Some? && s.offsetWrite.value <= p < s.offsetWrite.value + 4
  }

  /** Offset writes change no byte of the image outside their four-byte windows. */
  lemma {:induction false} PatchesStayInWindows(img: seq<byte>, ss: seq<VolumeStructure>, sectorSize: nat,
                                                imgSize: nat, n: nat)
    requires sectorSize > 0 && n <= |ss| && OffsetsKnown(ss)
    ensures var after := Patched(img, ss, sectorSize, imgSize, n).bytes;
            |img| <= |after| && forall p :: 0 <= p < |img| && (forall i :: 0 <= i < n ==> !InWindow(ss[i], p)) ==>
                                  after[p] == img[p]
  {
    if n > 0 {
      PatchesStayInWindows(img, ss, sectorSize, imgSize, n - 1);
      var before := Patched(img, ss, sectorSize, imgSize, n - 1).bytes;
      var after := Patched(img, ss, sectorSize, imgSize, n).bytes;
      forall p | 0 <= p < |img| && (forall i :: 0 <= i < n ==> !InWindow(ss[i], p)) ensures after[p] == img[p] {
        assert !InWindow(ss[n - 1], p);
        assert after[p] == before[p];
      }
    }
  }

  /** A successful run leaves in the window of structure i its sector number, unless a later window overlaps. */
  lemma {:induction false} PatchHolds(img: seq<byte>, ss: seq<VolumeStructure>, sectorSize: nat, imgSize: nat, n: nat,
                                      i: nat)
    requires sectorSize > 0 && i < n <= |ss| && OffsetsKnown(ss) && Patched(img, ss, sectorSize, imgSize, n).ok
    requires ss[i].offsetWrite.Some?
    requires forall j, p :: i < j < n && InWindow(ss[i], p) ==> !InWindow(ss[j], p)
    ensures var after, at := Patched(img, ss, sectorSize, imgSize, n).bytes, ss[i].offsetWrite.value;
            at + 4 <= |after| && after[at..at + 4] == LittleEndian(ss[i].offset.value / sectorSize)
  {
    var after, at := Patched(img, ss, sectorSize, imgSize, n).bytes, ss[i].offsetWrite.value;
    if i < n - 1 {
      PatchHolds(img, ss, sectorSize, imgSize, n - 1, i);
      var before := Patched(img, ss, sectorSize, imgSize, n - 1).bytes;
      forall p | at <= p < at + 4 ensures p < |after| && after[p] == before[p] {
        assert InWindow(ss[i], p) && !InWindow(ss[n - 1], p);
      }
      assert after[at..at + 4] == before[at..at + 4];
    }
  }

  predicate WindowInside(s: VolumeStructure, size: nat) {
    s.offsetWrite.Some? ==> s.offsetWrite.value + 4 <= size
  }

  /**
   The bounds check compares the sector number, not the write position, with the image size. A run that passes it keeps
   the size of the image if and only if every window lies inside; else the image has grown.
   */
  lemma {:induction false} PatchKeepsSizeIff(img: seq<byte>, ss: seq<VolumeStructure>, sectorSize: nat, imgSize: nat,
                                             n: nat)
    requires sectorSize > 0 && n <= |ss| && OffsetsKnown(ss) && Patched(img, ss, sectorSize, imgSize, n).ok
    ensures |Patched(img, ss, sectorSize, imgSize, n).bytes| >= |img|
    ensures |Patched(img, ss, sectorSize, imgSize, n).bytes| == |img|
       <==> forall i :: 0 <= i < n ==> WindowInside(ss[i], |img|)
  {
    if n > 0 {
      PatchKeepsSizeIff(img, ss, sectorSize, imgSize, n - 1);
    }
  }

  /** When the check passes: on an image of four bytes at least, every sector number is at most its size less four. */
  lemma {:induction false} PatchSucceedsIff(img: seq<byte>, ss: seq<VolumeStructure>, sectorSize: nat, imgSize: nat,
                                            n: nat)
    requires sectorSize > 0 && n <= |ss| && OffsetsKnown(ss) && 4 <= imgSize < TWO_TO_THE_64
    ensures Patched(img, ss, sectorSize, imgSize, n).ok
       <==> forall i :: 0 <= i < n && ss[i].offsetWrite.Some? ==> ss[i].offset.value / sectorSize <= imgSize - 4
  {
    if n > 0 {
      PatchSucceedsIff(img, ss, sectorSize, imgSize, n - 1);
    }
  }

  /** A structure at the start of a disk whose sector number goes to offset 1024. */
  function WriteBeyondEnd(): VolumeStructure {
    VolumeStructure("", "", NoRole, Bare, Some(0), 512, 512, "", None, Some(1024), 0, "")
  }

  /** On a disk of two sectors its write passes the check, and the image grows by four bytes. */
  lemma WriteBeyondEndGrowsImage(img: seq<byte>)
    requires |img| == 1024
    ensures var after := Patched(img, [WriteBeyondEnd()], 512, 1024, 1); after.ok && |after.bytes| == 1028
  {
    assert Patched(img, [WriteBeyondEnd()], 512, 1024, 0) == File(true, img);
  }

  /**
   Only an offset write past the end of its volume can do that: the others lie in every disk that holds the volume.
   */
  lemma WritesInVolumeKeepSize(img: seq<byte>, ss: seq<VolumeStructure>, sectorSize: nat)
    requires sectorSize > 0 && OffsetsKnown(ss) && VolumeSize(ss) <= |img|
    requires forall i :: 0 <= i < |ss| ==> WindowInside(ss[i], VolumeSize(ss))
    requires Patched(img, ss, sectorSize, |img|, |ss|).ok
    ensures |Patched(img, ss, sectorSize, |img|, |ss|).bytes| == |img|
  {
    PatchKeepsSizeIff(img, ss, sectorSize, |img|, |ss|);
  }

  /** After copy and patch phases, every byte outside the patch windows is as the copy left it. */
  lemma FinishedImage(img: seq<byte>, ss: seq<VolumeStructure>, parts: map<nat, seq<byte>>, sectorSize: nat,
                      seeded: bool,
                      imgSize: nat)
    requires sectorSize > 0 && CopyReady(img, ss, parts, sectorSize, seeded) && OffsetsKnown(ss)
    ensures var copied := Placed(img, PiecesOf(ss, parts, seeded), sectorSize, |ss|);
            var final := Patched(copied, ss, sectorSize, imgSize, |ss|).bytes;
            |final| >= |img|
            && forall p :: 0 <= p < |img| && (forall j :: 0 <= j < |ss| ==> !InWindow(ss[j], p))
                           ==> ByteCopied(img, ss, parts, seeded, p, final[p])
  {
    CopiedImage(img, ss, parts, sectorSize, seeded);
    PatchesStayInWindows(Placed(img, PiecesOf(ss, parts, seeded), sectorSize, |ss|), ss, sectorSize, imgSize, |ss|);
  }
}
