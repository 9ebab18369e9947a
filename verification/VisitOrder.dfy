/**
 makeDisk ranges over a map, so every run may visit the volumes in another order: what of its outcome depends on that
 order, and what does not.
 */
module VisitOrder {
  import opened PartitionTable
  import opened ImageBuild

  /** The disks that makeDisk makes, by volume. */
  function DisksOf(c: Setting): map<string, VolumeDisk>
    requires ReadyToMake(c)
  {
    map n | n in c.volumes && HasDisk(c, n) :: DiskOf(c, n)
  }

  function Folded(ds: map<string, VolumeDisk>, order: seq<string>, n: nat, d: Disks): Made
    requires n <= |order|
  {
    if n == 0 then Made(true, d)
    else
      var before, name := Folded(ds, order, n - 1, d), order[n - 1];
      if before.ok && name in ds then Put(before.disks, name, ds[name]) else before
  }

  lemma {:induction false} VisitsAreFolded(c: Setting, order: seq<string>, n: nat, d: Disks)
    requires ReadyToMake(c) && n <= |order| && forall x :: x in order ==> x in c.volumes
    ensures VisitedAll(c, order, n, d) == Folded(DisksOf(c), order, n, d)
  {
    if n > 0 {
      VisitsAreFolded(c, order, n - 1, d);
      assert order[n - 1] in DisksOf(c) <==> HasDisk(c, order[n - 1]);
    }
  }

  // ----- success

  predicate Makeable(disk: VolumeDisk) {
    disk.scan.Scan? && disk.image.ok
  }

  predicate AllMakeable(ds: map<string, VolumeDisk>) {
    forall n :: n in ds ==> Makeable(ds[n])
  }

  lemma {:induction false} FoldSucceedsIff(ds: map<string, VolumeDisk>, order: seq<string>, n: nat, d: Disks)
    requires n <= |order|
    ensures Folded(ds, order, n, d).ok <==> forall i :: 0 <= i < n && order[i] in ds ==> Makeable(ds[order[i]])
  {
    if n > 0 {
      FoldSucceedsIff(ds, order, n - 1, d);
    }
  }

  /** The order lists the names, each once. */
  ghost predicate Enumerates(order: seq<string>, names: set<string>) {
    EachOnce(order, names) && forall n :: n in names ==> n in order
  }

  /** Whether makeDisk succeeds does not depend on the order. */
  lemma SuccessIgnoresOrder(ds: map<string, VolumeDisk>, names: set<string>, order: seq<string>, d: Disks)
    requires ds.Keys <= names && Enumerates(order, names)
    ensures Folded(ds, order, |order|, d).ok <==> AllMakeable(ds)
  {
    FoldSucceedsIff(ds, order, |order|, d);
    if Folded(ds, order, |order|, d).ok {
      forall n | n in ds ensures Makeable(ds[n]) {
        var i :| 0 <= i < |order| && order[i] == n;
      }
    }
  }

  // ----- the recorded numbers

  function Numbers(d: Disks): (int, int, bool) {
    (d.rootfsPartNum, d.bootPartNum, d.hasBios)
  }

  function NumbersOf(disk: VolumeDisk): (int, int, bool)
    requires disk.scan.Scan?
  {
    (disk.scan.rootfsNumber, disk.scan.bootNumber, disk.scan.hasBios)
  }

  predicate HasRootfsNumber(disk: VolumeDisk) {
    disk.scan.Scan? && disk.scan.rootfsNumber != -1
  }

  /** The recorded numbers are those of the last disk visited; the rootfs volume is the last with a rootfs number. */
  lemma {:induction false} LastIsRecorded(ds: map<string, VolumeDisk>, order: seq<string>, n: nat, d: Disks, k: nat)
    requires k < n <= |order| && order[k] in ds && Folded(ds, order, n, d).ok
    ensures Makeable(ds[order[k]])
    ensures (forall i :: k < i < n ==> order[i] !in ds) ==>
              Numbers(Folded(ds, order, n, d).disks) == NumbersOf(ds[order[k]])
    ensures (HasRootfsNumber(ds[order[k]])
             && forall i :: k < i < n && order[i] in ds ==> !HasRootfsNumber(ds[order[i]])) ==>
              Folded(ds, order, n, d).disks.rootfsVolName == order[k]
  {
    if k < n - 1 {
      LastIsRecorded(ds, order, n - 1, d, k);
    }
  }

  lemma {:induction false} NoRootfsKeepsName(ds: map<string, VolumeDisk>, order: seq<string>, n: nat, d: Disks)
    requires n <= |order| && Folded(ds, order, n, d).ok
    requires forall i :: 0 <= i < n && order[i] in ds ==> !HasRootfsNumber(ds[order[i]])
    ensures Folded(ds, order, n, d).disks.rootfsVolName == d.rootfsVolName
  {
    if n > 0 {
      NoRootfsKeepsName(ds, order, n - 1, d);
    }
  }

  /** The position of the last visit of a volume from a set, if there is one. */
  lemma {:induction false} LastVisit(order: seq<string>, n: nat, among: set<string>) returns (k: nat)
    requires n <= |order| && exists i :: 0 <= i < n && order[i] in among
    ensures k < n && order[k] in among && forall i :: k < i < n ==> order[i] !in among
  {
    if order[n - 1] in among {
      k := n - 1;
    } else {
      k := LastVisit(order, n - 1, among);
    }
  }

  /** Any name can be the last in an order. */
  lemma {:induction false} OrderEndingWith(names: set<string>, last: string) returns (order: seq<string>)
    requires last in names
    ensures Enumerates(order, names) && order[|order| - 1] == last
    decreases |names|
  {
    var rest := names - {last};
    if rest == {} {
      assert names == {last};
      order := [last];
    } else {
      var x :| x in rest;
      var before := OrderEndingWith(rest, x);
      order := before + [last];
    }
  }

  /**
   The recorded numbers are those of the table of the recorded rootfs volume, as setting up a bootloader takes them.
   */
  ghost predicate Consistent(ds: map<string, VolumeDisk>, d: Disks) {
    && d.rootfsVolName in ds && ds[d.rootfsVolName].scan.Scan?
    && Numbers(d) == NumbersOf(ds[d.rootfsVolName])
  }

  /**
   When some disk has a rootfs, the recorded numbers fit the recorded rootfs volume whatever the order of visits if
   and only if every disk has one. Otherwise a disk without rootfs, visited last, leaves its own numbers.
   */
  lemma NumbersFitRootfsVolumeIff(ds: map<string, VolumeDisk>, names: set<string>, d: Disks)
    requires ds.Keys <= names && AllMakeable(ds) && exists n :: n in ds && HasRootfsNumber(ds[n])
    ensures (forall order :: Enumerates(order, names) ==> Consistent(ds, Folded(ds, order, |order|, d).disks))
       <==> (forall n :: n in ds ==> HasRootfsNumber(ds[n]))
  {
    if forall n :: n in ds ==> HasRootfsNumber(ds[n]) {
      forall order | Enumerates(order, names) ensures Consistent(ds, Folded(ds, order, |order|, d).disks) {
        SuccessIgnoresOrder(ds, names, order, d);
        var n :| n in ds;
        assert n in order;
        var k := LastVisit(order, |order|, ds.Keys);
        LastIsRecorded(ds, order, |order|, d, k);
      }
    } else {
      var n :| n in ds && !HasRootfsNumber(ds[n]);
      var order := OrderEndingWith(names, n);
      SuccessIgnoresOrder(ds, names, order, d);
      LastIsRecorded(ds, order, |order|, d, |order| - 1);
      var rootfs := set m | m in ds && HasRootfsNumber(ds[m]);
      var m :| m in ds && HasRootfsNumber(ds[m]);
      assert m in rootfs && m in order;
      var k := LastVisit(order, |order|, rootfs);
      LastIsRecorded(ds, order, |order|, d, k);
    }
  }

  /** What makeDisk records. */
  function Record(d: Disks): ((int, int, bool), string) {
    (Numbers(d), d.rootfsVolName)
  }

  ghost predicate SameRecord(ds: map<string, VolumeDisk>, o1: seq<string>, o2: seq<string>, d: Disks) {
    Record(Folded(ds, o1, |o1|, d).disks) == Record(Folded(ds, o2, |o2|, d).disks)
  }

  /** No two disks compete for the record: they have the same numbers, and no rootfs. */
  ghost predicate NoCompetition(ds: map<string, VolumeDisk>) {
    forall m, n :: m in ds && n in ds && m != n && ds[m].scan.Scan? && ds[n].scan.Scan? ==>
      NumbersOf(ds[m]) == NumbersOf(ds[n]) && !HasRootfsNumber(ds[m])
  }

  lemma LastDiskIsRecorded(ds: map<string, VolumeDisk>, names: set<string>, last: string, d: Disks)
    returns (order: seq<string>)
    requires ds.Keys <= names && AllMakeable(ds) && last in ds
    ensures Enumerates(order, names) && Numbers(Folded(ds, order, |order|, d).disks) == NumbersOf(ds[last])
    ensures HasRootfsNumber(ds[last]) ==> Folded(ds, order, |order|, d).disks.rootfsVolName == last
  {
    order := OrderEndingWith(names, last);
    SuccessIgnoresOrder(ds, names, order, d);
    LastIsRecorded(ds, order, |order|, d, |order| - 1);
  }

  /** Without competition, the record is one that does not mention the order. */
  lemma RecordWithoutCompetition(ds: map<string, VolumeDisk>, names: set<string>, order: seq<string>, d: Disks,
                                 m: string)
    requires ds.Keys <= names && AllMakeable(ds) && NoCompetition(ds) && Enumerates(order, names) && m in ds
    ensures Record(Folded(ds, order, |order|, d).disks)
         == (NumbersOf(ds[m]), if HasRootfsNumber(ds[m]) then m else d.rootfsVolName)
  {
    SuccessIgnoresOrder(ds, names, order, d);
    assert m in order;
    var k := LastVisit(order, |order|, ds.Keys);
    LastIsRecorded(ds, order, |order|, d, k);
    assert order[k] != m ==> NumbersOf(ds[m]) == NumbersOf(ds[order[k]]);
    if !HasRootfsNumber(ds[m]) {
      NoRootfsKeepsName(ds, order, |order|, d);
    }
  }

  lemma {:induction false} NoDiskNoRecord(order: seq<string>, n: nat, d: Disks)
    requires n <= |order|
    ensures Folded(map[], order, n, d) == Made(true, d)
  {
    if n > 0 {
      NoDiskNoRecord(order, n - 1, d);
    }
  }

  /** The recorded numbers and rootfs volume are the same for all orders if and only if no two disks compete. */
  lemma RecordIgnoresOrderIff(ds: map<string, VolumeDisk>, names: set<string>, d: Disks)
    requires ds.Keys <= names && AllMakeable(ds)
    ensures (forall o1, o2 :: Enumerates(o1, names) && Enumerates(o2, names) ==> SameRecord(ds, o1, o2, d))
       <==> NoCompetition(ds)
  {
    if NoCompetition(ds) {
      forall o1, o2 | Enumerates(o1, names) && Enumerates(o2, names) ensures SameRecord(ds, o1, o2, d) {
        RecordsAgree(ds, names, o1, o2, d);
      }
    } else {
      var m, n :| m in ds && n in ds && m != n && ds[m].scan.Scan? && ds[n].scan.Scan?
                  && !(NumbersOf(ds[m]) == NumbersOf(ds[n]) && !HasRootfsNumber(ds[m]));
      var o1 := LastDiskIsRecorded(ds, names, m, d);
      var o2 := LastDiskIsRecorded(ds, names, n, d);
      assert !SameRecord(ds, o1, o2, d);
    }
  }

  lemma RecordsAgree(ds: map<string, VolumeDisk>, names: set<string>, o1: seq<string>, o2: seq<string>, d: Disks)
    requires ds.Keys <= names && AllMakeable(ds) && NoCompetition(ds)
    requires Enumerates(o1, names) && Enumerates(o2, names)
    ensures SameRecord(ds, o1, o2, d)
  {
    if m :| m in ds {
      RecordWithoutCompetition(ds, names, o1, d, m);
      RecordWithoutCompetition(ds, names, o2, d, m);
    } else {
      assert ds == map[];
      NoDiskNoRecord(o1, |o1|, d);
      NoDiskNoRecord(o2, |o2|, d);
    }
  }

  // ----- the images

  predicate DistinctFiles(ds: map<string, VolumeDisk>) {
    forall m, n :: m in ds && n in ds && m != n ==> ds[m].file != ds[n].file
  }

  /** With distinct file names: every disk has its image in its file, and the other files are as before. */
  lemma {:induction false} FoldMakesImages(ds: map<string, VolumeDisk>, order: seq<string>, n: nat, d: Disks)
    requires n <= |order| && DistinctFiles(ds) && Folded(ds, order, n, d).ok
    requires forall i, j :: 0 <= i < j < |order| ==> order[i] != order[j]
    ensures var images := Folded(ds, order, n, d).disks.images;
            && (forall i :: 0 <= i < n && order[i] in ds ==>
                  ds[order[i]].file in images && images[ds[order[i]].file] == ds[order[i]].image.bytes)
            && (forall f :: (forall i :: 0 <= i < n && order[i] in ds ==> ds[order[i]].file != f) ==>
                  (f in images <==> f in d.images) && (f in images ==> images[f] == d.images[f]))
  {
    if n > 0 {
      FoldMakesImages(ds, order, n - 1, d);
    }
  }

  /** With distinct file names the images do not depend on the order of visits. */
  lemma ImagesIgnoreOrder(ds: map<string, VolumeDisk>, names: set<string>, o1: seq<string>, o2: seq<string>, d: Disks)
    requires ds.Keys <= names && DistinctFiles(ds) && AllMakeable(ds)
    requires Enumerates(o1, names) && Enumerates(o2, names)
    ensures Folded(ds, o1, |o1|, d).disks.images == Folded(ds, o2, |o2|, d).disks.images
  {
    SuccessIgnoresOrder(ds, names, o1, d);
    SuccessIgnoresOrder(ds, names, o2, d);
    FoldMakesImages(ds, o1, |o1|, d);
    FoldMakesImages(ds, o2, |o2|, d);
    var a, b := Folded(ds, o1, |o1|, d).disks.images, Folded(ds, o2, |o2|, d).disks.images;
    forall f ensures (f in a <==> f in b) && (f in a && f in b ==> a[f] == b[f]) {
      if n :| n in ds && ds[n].file == f {
        assert n in o1 && n in o2;
      }
    }
  }

  /** Two orders of visits give the same outcome when no two disks share a file or compete for the record. */
  lemma OutcomeIgnoresOrder(c: Setting, o1: seq<string>, o2: seq<string>, d: Disks)
    requires ReadyToMake(c) && Enumerates(o1, c.volumes.Keys) && Enumerates(o2, c.volumes.Keys)
    requires DistinctFiles(DisksOf(c)) && NoCompetition(DisksOf(c))
    ensures VisitedAll(c, o1, |o1|, d).ok == VisitedAll(c, o2, |o2|, d).ok
    ensures VisitedAll(c, o1, |o1|, d).ok ==> VisitedAll(c, o1, |o1|, d) == VisitedAll(c, o2, |o2|, d)
  {
    var ds, names := DisksOf(c), c.volumes.Keys;
    VisitsAreFolded(c, o1, |o1|, d);
    VisitsAreFolded(c, o2, |o2|, d);
    SuccessIgnoresOrder(ds, names, o1, d);
    SuccessIgnoresOrder(ds, names, o2, d);
    if AllMakeable(ds) {
      RecordsAgree(ds, names, o1, o2, d);
      ImagesIgnoreOrder(ds, names, o1, o2, d);
    }
  }
}
