/** Image files as arrays of bytes, and the dd runs that fill them: sparse block copies at a sector offset. */
module DiskImage {
  import opened Quantities

  newtype byte = x: int | 0 <= x < 256

  function Min(a: nat, b: nat): nat {
    if a < b then a else b
  }

  /** The file after writing `data` at `pos`; a write past the end fills the gap with zeros. */
  function Written(img: seq<byte>, pos: nat, data: seq<byte>): (r: seq<byte>)
    ensures |r| == if data == [] then |img| else Max(|img|, pos + |data|)
    ensures forall p :: 0 <= p < |r| ==>
      r[p] == if pos <= p < pos + |data| then data[p - pos] else if p < |img| then img[p] else 0
  {
    seq(if data == [] then |img| else Max(|img|, pos + |data|), p requires 0 <= p =>
      if pos <= p < pos + |data| then data[p - pos] else if p < |img| then img[p] else 0)
  }

  /** The file grown with zeros to at least `len` bytes. */
  function Extended(img: seq<byte>, len: nat): (r: seq<byte>)
    ensures |r| == Max(|img|, len) && forall p :: 0 <= p < |r| ==> r[p] == if p < |img| then img[p] else 0
  {
    if |img| < len then img + seq(len - |img|, _ => 0) else img
  }

  predicate AllZero(b: seq<byte>) {
    forall i :: 0 <= i < |b| ==> b[i] == 0
  }

  // ----- dd

  /** The number of blocks that dd reads: at most `count`, the last of them possibly short. */
  function Blocks(part: seq<byte>, bs: nat, count: nat): nat
    requires bs > 0
  {
    Min(count, CeilDiv(|part|, bs))
  }

  /** Where the first i blocks of the input end. */
  function BlocksEnd(part: seq<byte>, bs: nat, i: nat): nat {
    Min(i * bs, |part|)
  }

  function Block(part: seq<byte>, bs: nat, i: nat): seq<byte> {
    NextBlockIsLater(part, bs, i);
    part[BlocksEnd(part, bs, i)..BlocksEnd(part, bs, i + 1)]
  }

  lemma NextBlockIsLater(part: seq<byte>, bs: nat, i: nat)
    ensures BlocksEnd(part, bs, i) <= BlocksEnd(part, bs, i + 1)
  {
    assert (i + 1) * bs == i * bs + bs;
  }

  /** conv=sparse,notrunc: a block of zeros is not written but seeked over. */
  function DdBlocks(img: seq<byte>, part: seq<byte>, bs: nat, at: nat, n: nat): seq<byte> {
    if n == 0 then img
    else
      var before := DdBlocks(img, part, bs, at, n - 1);
      if AllZero(Block(part, bs, n - 1)) then before
      else Written(before, at + BlocksEnd(part, bs, n - 1), Block(part, bs, n - 1))
  }

  /** The output of `dd bs= seek= count= conv=notrunc,sparse`; a final seek still sets the length of the file. */
  function DdResult(img: seq<byte>, part: seq<byte>, bs: nat, seek: nat, count: nat): seq<byte>
    requires bs > 0
  {
    var n := Blocks(part, bs, count);
    var written := DdBlocks(img, part, bs, seek * bs, n);
    if n > 0 && AllZero(Block(part, bs, n - 1)) then Extended(written, seek * bs + BlocksEnd(part, bs, n)) else written
  }

  class Disk {
    var data: array<byte>

    constructor (size: nat)
      ensures fresh(data) && data[..] == seq(size, _ => 0)
    {
      data := new byte[size](_ => 0);
      new;
      assert data[..] == seq(size, _ => 0);
    }

    method WriteAt(pos: nat, bytes: seq<byte>)
      modifies this, data
      ensures data == old(data) || fresh(data)
      ensures data[..] == Written(old(data[..]), pos, bytes)
    {
      ghost var before := data[..];
      if |bytes| > 0 && data.Length < pos + |bytes| {
        Grow(pos + |bytes|);
      }
      ghost var grown := data[..];
      for i := 0 to |bytes|
        invariant data.Length == |grown| >= (if bytes == [] then 0 else pos + |bytes|)
        invariant data == old(data) || fresh(data)
        invariant forall p :: 0 <= p < data.Length ==>
                    data[p] == if pos <= p < pos + i then bytes[p - pos] else grown[p]
      {
        data[pos + i] := bytes[i];
      }
      assert data[..] == Written(before, pos, bytes);
    }

    method Grow(len: nat)
      modifies this
      ensures data == old(data) || fresh(data)
      ensures data[..] == Extended(old(data[..]), len)
    {
      if data.Length < len {
        var from := data;
        var to := new byte[len](p requires 0 <= p < len reads from => if p < from.Length then from[p] else 0);
        data := to;
      }
      assert data[..] == Extended(old(data[..]), len);
    }

    /** The block loop of dd. */
    method DdLoop(part: seq<byte>, bs: nat, at: nat, n: nat)
      modifies this, data
      ensures data == old(data) || fresh(data)
      ensures data[..] == DdBlocks(old(data[..]), part, bs, at, n)
    {
      ghost var img := data[..];
      for i := 0 to n
        invariant data == old(data) || fresh(data)
        invariant data[..] == DdBlocks(img, part, bs, at, i)
      {
        var block := Block(part, bs, i);
        if !AllZero(block) {
          WriteAt(at + BlocksEnd(part, bs, i), block);
        }
      }
    }

    method Dd(part: seq<byte>, bs: nat, seek: nat, count: nat)
      requires bs > 0
      modifies this, data
      ensures data == old(data) || fresh(data)
      ensures data[..] == DdResult(old(data[..]), part, bs, seek, count)
    {
      var n := Blocks(part, bs, count);
      DdLoop(part, bs, seek * bs, n);
      if n > 0 && AllZero(Block(part, bs, n - 1)) {
        Grow(seek * bs + BlocksEnd(part, bs, n));
      }
    }
  }

  // ----- sparse copy against plain copy

  /** Byte q of the input lies in a block of zeros. */
  predicate InZeroBlock(part: seq<byte>, bs: nat, q: nat)
    requires bs > 0 && q < |part|
  {
    AllZero(Block(part, bs, q / bs))
  }

  /** What one byte of the output is after the first `done` bytes of input were processed. */
  function SparseByte(img: seq<byte>, part: seq<byte>, bs: nat, at: nat, done: nat, p: nat): byte
    requires bs > 0 && done <= |part|
  {
    if at <= p < at + done && !InZeroBlock(part, bs, p - at) then part[p - at]
    else if p < |img| then img[p] else 0
  }

  lemma BlockOfByte(part: seq<byte>, bs: nat, i: nat, q: nat)
    requires bs > 0 && BlocksEnd(part, bs, i) <= q < BlocksEnd(part, bs, i + 1)
    ensures q / bs == i
  {
    DivBounds(q, bs);
    assert (i + 1) * bs == i * bs + bs;
    if q / bs < i {
      MulStep(q / bs, i, bs);
    } else if i < q / bs {
      MulStep(i, q / bs, bs);
    }
  }

  lemma {:induction false} SparseBytes(img: seq<byte>, part: seq<byte>, bs: nat, at: nat, n: nat)
    requires bs > 0
    ensures var r, done := DdBlocks(img, part, bs, at, n), BlocksEnd(part, bs, n);
            && |img| <= |r| <= Max(|img|, at + done)
            && (forall p :: 0 <= p < |r| ==> r[p] == SparseByte(img, part, bs, at, done, p))
            && (forall q :: 0 <= q < done && !InZeroBlock(part, bs, q) ==> at + q < |r|)
  {
    if n > 0 {
      var i := n - 1;
      var before, done := BlocksEnd(part, bs, i), BlocksEnd(part, bs, n);
      SparseBytes(img, part, bs, at, i);
      NextBlockIsLater(part, bs, i);
      forall q | before <= q < done ensures q / bs == i {
        BlockOfByte(part, bs, i, q);
      }
    }
  }

  /** The plain copy that the sparse copy stands for. */
  function PlainCopy(img: seq<byte>, part: seq<byte>, bs: nat, seek: nat, count: nat): seq<byte> {
    Written(img, seek * bs, part[..Min(count * bs, |part|)])
  }

  lemma DdBytes(img: seq<byte>, part: seq<byte>, bs: nat, seek: nat, count: nat)
    requires bs > 0
    ensures var r, done := DdResult(img, part, bs, seek, count), Min(count * bs, |part|);
            && |r| == |PlainCopy(img, part, bs, seek, count)|
            && forall p :: 0 <= p < |r| ==> r[p] == SparseByte(img, part, bs, seek * bs, done, p)
  {
    var n, at, done := Blocks(part, bs, count), seek * bs, Min(count * bs, |part|);
    SparseBytes(img, part, bs, at, n);
    if CeilDiv(|part|, bs) < count {
      MulStep(CeilDiv(|part|, bs), count, bs);
    }
    assert BlocksEnd(part, bs, n) == done;
    if n > 0 {
      LastBlockCounts(part, bs, n);
      BlockOfByte(part, bs, n - 1, done - 1);
    }
  }

  lemma LastBlockCounts(part: seq<byte>, bs: nat, n: nat)
    requires bs > 0 && 0 < n <= CeilDiv(|part|, bs)
    ensures BlocksEnd(part, bs, n - 1) < BlocksEnd(part, bs, n)
  {
    assert n * bs == (n - 1) * bs + bs;
    if n < CeilDiv(|part|, bs) {
      MulStep(n, CeilDiv(|part|, bs), bs);
    }
  }

  /**
   Skipping blocks of zeros gives the same file as a plain copy if and only if every skipped byte of the file was
   zero before.
   */
  lemma SparseCopyIsPlainIff(img: seq<byte>, part: seq<byte>, bs: nat, seek: nat, count: nat)
    requires bs > 0
    ensures DdResult(img, part, bs, seek, count) == PlainCopy(img, part, bs, seek, count)
       <==> forall q :: 0 <= q < Min(count * bs, |part|) && InZeroBlock(part, bs, q) && seek * bs + q < |img|
                        ==> img[seek * bs + q] == 0
  {
    DdBytes(img, part, bs, seek, count);
    SparseBytesArePlainIff(img, part, bs, seek * bs, Min(count * bs, |part|), DdResult(img, part, bs, seek, count));
  }

  lemma SparseBytesArePlainIff(img: seq<byte>, part: seq<byte>, bs: nat, at: nat, done: nat, r: seq<byte>)
    requires bs > 0 && done <= |part| && |r| == |Written(img, at, part[..done])|
    requires forall p :: 0 <= p < |r| ==> r[p] == SparseByte(img, part, bs, at, done, p)
    ensures r == Written(img, at, part[..done])
       <==> forall q :: 0 <= q < done && InZeroBlock(part, bs, q) && at + q < |img| ==> img[at + q] == 0
  {
    var plain := Written(img, at, part[..done]);
    forall q | 0 <= q < done && InZeroBlock(part, bs, q) ensures part[q] == 0 {
      ZeroBlockByte(part, bs, q);
    }
    if r == plain {
      forall q | 0 <= q < done && InZeroBlock(part, bs, q) && at + q < |img| ensures img[at + q] == 0 {
        assert r[at + q] == plain[at + q];
      }
    }
  }

  lemma ZeroBlockByte(part: seq<byte>, bs: nat, q: nat)
    requires bs > 0 && q < |part| && InZeroBlock(part, bs, q)
    ensures part[q] == 0
  {
    var i := q / bs;
    DivBounds(q, bs);
    assert (i + 1) * bs == i * bs + bs;
    assert Block(part, bs, i)[q - i * bs] == part[q];
  }
}
