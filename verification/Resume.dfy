/**
 Which states may be separated by an interrupted run: those that size, populate and make the disks work alike on the
 reloaded gadget and in another order of volumes, verifyArtifactNames only when it has nothing to write into the image
 definition.
 */
module Resume {
  import opened Quantities
  import opened Structures
  import opened DiskImage
  import opened ImageCopy
  import opened PartitionTable
  import opened Sizing
  import opened ImageBuild
  import opened VisitOrder
  import opened ArtifactFiles
  import opened Runner
  import opened Chains

  /** The files on disk: what the rootfs and the gadget give, and what the states make of them. */
  datatype Files = Files(
    contentSize: Option<nat>,
    inputs: Inputs,
    parts: map<string, map<nat, seq<byte>>>,
    writes: map<string, TableWrites>,
    images: map<string, seq<byte>>)

  /** The artifacts of the image definition; every invocation reads them anew. */
  datatype Wanted = Wanted(img: Option<seq<ArtifactFiles.Entry>>, qcow2: Option<seq<ArtifactFiles.Entry>>)

  function VolumesIn(f: Fields): map<string, Volume> {
    if f.gadget.Some? then f.gadget.value else map[]
  }

  function SettingFrom(f: Fields, files: Files): Setting {
    Setting(VolumesIn(f), f.volumeNames, f.imageSizes, f.sectorSize, f.isSeeded, files.parts, files.writes)
  }

  function DisksFrom(f: Fields, files: Files): Disks {
    Disks(files.images, f.rootfsPartNum, f.bootPartNum, f.hasBiosPartition, f.rootfsVolName)
  }

  function Renumbered(f: Fields, d: Disks): Fields {
    f.(rootfsPartNum := d.rootfsPartNum, bootPartNum := d.bootPartNum, hasBiosPartition := d.hasBios,
       rootfsVolName := d.rootfsVolName)
  }

  // ----- orders of visits

  /** How a run draws the order in which it goes through the entries of a map. */
  ghost predicate Visits(visit: set<string> -> seq<string>) {
    forall names: set<string> :: Enumerates(visit(names), names)
  }

  predicate MakesDisk(f: Fields, n: string) {
    n in VolumesIn(f) && n in f.volumeNames && VolumesIn(f)[n].schema != Emmc
  }

  /** The numbers that a successful scan records; they depend on roles alone. */
  function RoleScan(ss: seq<VolumeStructure>, seeded: bool): Scan {
    Scanned(ss, seq(|ss|, _ => PartitionTable.Entry(0, 0, "", "", false)), seq(|ss|, _ => true), seeded, |ss|)
  }

  predicate HasRootfs(v: Volume) {
    exists i :: 0 <= i < |v.structures| && IsRootfs(v.structures[i])
  }

  /** Two volumes with disks have their own files and do not compete for the recorded numbers. */
  predicate Independent(f: Fields, m: string, n: string)
    requires MakesDisk(f, m) && MakesDisk(f, n)
  {
    var a, b := RoleScan(VolumesIn(f)[m].structures, f.isSeeded), RoleScan(VolumesIn(f)[n].structures, f.isSeeded);
    && f.volumeNames[m] != f.volumeNames[n]
    && a.Scan? && b.Scan? && a.rootfsNumber == b.rootfsNumber == -1
    && a.bootNumber == b.bootNumber && a.hasBios == b.hasBios
  }

  /** No outcome depends on the order of volumes: one volume at most has a rootfs, and the disks are independent. */
  predicate OrderSafe(f: Fields) {
    && (forall m, n :: m in VolumesIn(f) && n in VolumesIn(f) && m != n && MakesDisk(f, m) && MakesDisk(f, n) ==>
          Independent(f, m, n))
    && (forall m, n ::
          m in VolumesIn(f) && n in VolumesIn(f) && HasRootfs(VolumesIn(f)[m]) && HasRootfs(VolumesIn(f)[n]) ==> m == n)
  }

  function Steady<D(!new)>(): (inv: State<D, Files> -> bool)
    ensures forall s :: inv(s) == OrderSafe(s.fields)
  {
    (s: State<D, Files>) => OrderSafe(s.fields)
  }

  /** What the numbers of a scan, and the search for the rootfs, read of a structure. */
  ghost predicate SameRoles(ss: seq<VolumeStructure>, ts: seq<VolumeStructure>) {
    |ss| == |ts| && forall i :: 0 <= i < |ss| ==>
      ss[i].role == ts[i].role && ss[i].typ == ts[i].typ && ss[i].name == ts[i].name && ss[i].fsLabel == ts[i].fsLabel
  }

  predicate SameNumbers(a: Scan, b: Scan) {
    a.Scan? && b.Scan? && a.rootfsNumber == b.rootfsNumber && a.bootNumber == b.bootNumber && a.hasBios == b.hasBios
    && |a.entries| == |b.entries|
  }

  lemma {:induction false} RolesDecideNumbers(ss: seq<VolumeStructure>, ts: seq<VolumeStructure>,
                                              rows: seq<PartitionTable.Entry>, verdicts: seq<bool>,
                                              others: seq<PartitionTable.Entry>, accepts: seq<bool>,
                                              seeded: bool, n: nat)
    requires SameRoles(ss, ts) && n <= |ss| == |rows| == |verdicts| == |others| == |accepts|
    requires Scanned(ss, rows, verdicts, seeded, n).Scan? && forall i :: 0 <= i < |accepts| ==> accepts[i]
    ensures SameNumbers(Scanned(ss, rows, verdicts, seeded, n), Scanned(ts, others, accepts, seeded, n))
  {
    if n > 0 {
      RolesDecideNumbers(ss, ts, rows, verdicts, others, accepts, seeded, n - 1);
    }
  }

  lemma RoleScanDecides(v: Volume, sectorSize: nat, diskSize: nat, seeded: bool)
    requires sectorSize > 0 && ScanOf(v, sectorSize, diskSize, seeded).Scan?
    ensures SameNumbers(ScanOf(v, sectorSize, diskSize, seeded), RoleScan(v.structures, seeded))
  {
    var ss := v.structures;
    RolesDecideNumbers(ss, ss, RowsOf(v, sectorSize), VerdictsOf(v, sectorSize, diskSize),
                       seq(|ss|, _ => PartitionTable.Entry(0, 0, "", "", false)), seq(|ss|, _ => true), seeded, |ss|);
  }

  lemma {:induction false} AllAcceptedScans(ss: seq<VolumeStructure>, rows: seq<PartitionTable.Entry>,
                                            accepts: seq<bool>, seeded: bool, n: nat)
    requires n <= |ss| == |rows| == |accepts| && forall i :: 0 <= i < |accepts| ==> accepts[i]
    ensures Scanned(ss, rows, accepts, seeded, n).Scan?
  {
    if n > 0 {
      AllAcceptedScans(ss, rows, accepts, seeded, n - 1);
    }
  }

  lemma RoleScanOfSameRoles(ss: seq<VolumeStructure>, ts: seq<VolumeStructure>, seeded: bool)
    requires SameRoles(ss, ts)
    ensures SameNumbers(RoleScan(ss, seeded), RoleScan(ts, seeded))
  {
    var rows, accepts := seq(|ss|, _ => PartitionTable.Entry(0, 0, "", "", false)), seq(|ss|, _ => true);
    AllAcceptedScans(ss, rows, accepts, seeded, |ss|);
    RolesDecideNumbers(ss, ts, rows, accepts, seq(|ts|, _ => PartitionTable.Entry(0, 0, "", "", false)),
                       seq(|ts|, _ => true), seeded, |ss|);
  }

  /** Fields that differ in what neither numbers nor the search for the rootfs read. */
  ghost predicate SameForOrders(f: Fields, g: Fields) {
    && g.volumeNames == f.volumeNames && g.isSeeded == f.isSeeded && VolumesIn(g).Keys == VolumesIn(f).Keys
    && forall n :: n in VolumesIn(f) ==>
         VolumesIn(g)[n].schema == VolumesIn(f)[n].schema
         && SameRoles(VolumesIn(f)[n].structures, VolumesIn(g)[n].structures)
  }

  lemma OrderSafeStays(f: Fields, g: Fields)
    requires OrderSafe(f) && SameForOrders(f, g)
    ensures OrderSafe(g)
  {
    forall m, n | m in VolumesIn(g) && n in VolumesIn(g) && m != n && MakesDisk(g, m) && MakesDisk(g, n)
      ensures Independent(g, m, n)
    {
      assert MakesDisk(f, m) && MakesDisk(f, n) && Independent(f, m, n);
      RoleScanOfSameRoles(VolumesIn(f)[m].structures, VolumesIn(g)[m].structures, f.isSeeded);
      RoleScanOfSameRoles(VolumesIn(f)[n].structures, VolumesIn(g)[n].structures, f.isSeeded);
    }
    forall n | n in VolumesIn(g) && HasRootfs(VolumesIn(g)[n]) ensures HasRootfs(VolumesIn(f)[n]) {
      var i :| 0 <= i < |VolumesIn(g)[n].structures| && IsRootfs(VolumesIn(g)[n].structures[i]);
      assert IsRootfs(VolumesIn(f)[n].structures[i]);
    }
  }

  lemma ReloadKeepsRoles(f: Fields)
    ensures SameForOrders(f, Restored(Saved(f)))
  {
    ReloadRebuilds(f);
    SameVolumeNames(f);
  }

  lemma SteadySurvives<D(!new)>(definition: D, files: Files)
    ensures Survives(Steady(), definition, files)
  {
    forall s: State<D, Files> | OrderSafe(s.fields) ensures OrderSafe(Reloaded(s, definition).fields) {
      ReloadKeepsRoles(s.fields);
      OrderSafeStays(s.fields, Reloaded(s, definition).fields);
    }
  }

  /**
   Two versions of a state function: they do the same in one state, and the second commutes with reloading. The
   invariant is kept because roles, schemas and file names are.
   */
  lemma CommutingInterchange<D(!new)>(s: State<D, Files>, definition: D, a: Outcome<D, Files>, b: Outcome<D, Files>,
                                      c: Outcome<D, Files>)
    requires (a.Done? <==> b.Done?) && (b.Done? <==> c.Done?)
    requires a.Done? ==> a == b && Sound(a.state, definition) && c.state == Reloaded(b.state, definition)
    requires a.Done? ==> OrderSafe(a.state.fields)
    ensures SameOutcome(a, c, definition) && Keeps(a, Steady()) && Keeps(c, Steady())
  {
    if a.Done? {
      ReloadedAlike(a.state, definition);
      ReloadKeepsRoles(a.state.fields);
      OrderSafeStays(a.state.fields, c.state.fields);
    }
  }

  // ----- makeDisk

  /** makeDisk, visiting the volumes in the given order. */
  function MakeDiskRun<D>(order: seq<string>, s: State<D, Files>): Outcome<D, Files> {
    var c := SettingFrom(s.fields, s.world);
    if !ReadyToMake(c) || !(forall x :: x in order ==> x in c.volumes) then Failed(s)
    else
      var made := VisitedAll(c, order, |order|, DisksFrom(s.fields, s.world));
      var t := s.(fields := Renumbered(s.fields, made.disks), world := s.world.(images := made.disks.images));
      if made.ok then Done(t) else Failed(t)
  }

  function MakeDiskState<D>(visit: set<string> -> seq<string>): StateFunc<D, Files> {
    StateFunc("make_disk", (s: State<D, Files>) => MakeDiskRun(visit(VolumesIn(s.fields).Keys), s))
  }

  lemma ReloadRelabels<D>(s: State<D, Files>, definition: D)
    requires Sound(s, definition)
    ensures var t := Reloaded(s, definition);
            && Relabelled(SettingFrom(s.fields, s.world), SettingFrom(t.fields, t.world))
            && DisksFrom(s.fields, s.world) == DisksFrom(t.fields, t.world)
            && (ReadyToMake(SettingFrom(s.fields, s.world)) <==> ReadyToMake(SettingFrom(t.fields, t.world)))
  {
    var f, g := s.fields, Reloaded(s, definition).fields;
    RestoreOfSave(f);
    assert VolumesIn(f).Keys == VolumesIn(g).Keys;
    forall n | n in VolumesIn(f)
      ensures VolumesIn(f)[n].schema == VolumesIn(g)[n].schema
      ensures SameButLabels(VolumesIn(f)[n].structures, VolumesIn(g)[n].structures)
      ensures OffsetsKnown(VolumesIn(f)[n].structures) <==> OffsetsKnown(VolumesIn(g)[n].structures)
    {
      OffsetsIgnoreLabels(VolumesIn(f)[n].structures);
    }
  }

  lemma OffsetsIgnoreLabels(ss: seq<VolumeStructure>)
    ensures OffsetsKnown(ss) <==> OffsetsKnown(Reindexed(ss))
  {
    forall i | 0 <= i < |ss| ensures Reindexed(ss)[i] == ss[i].(yamlIndex := i) {
    }
  }

  lemma RenumberedReload(f: Fields, d: Disks)
    ensures Restored(Saved(Renumbered(f, d))) == Renumbered(Restored(Saved(f)), d)
  {
  }

  lemma MakeDiskCommutes<D(!new)>(order: seq<string>, s: State<D, Files>, definition: D)
    requires Sound(s, definition)
    ensures var a, b := MakeDiskRun(order, s), MakeDiskRun(order, Reloaded(s, definition));
            && (a.Done? <==> b.Done?)
            && (a.Done? ==> Sound(a.state, definition) && b.state == Reloaded(a.state, definition))
  {
    var t := Reloaded(s, definition);
    var c, e := SettingFrom(s.fields, s.world), SettingFrom(t.fields, t.world);
    ReloadRelabels(s, definition);
    if ReadyToMake(c) && forall x :: x in order ==> x in c.volumes {
      VisitsIgnoreLabels(c, e, order, |order|, DisksFrom(s.fields, s.world));
      RenumberedReload(s.fields, VisitedAll(c, order, |order|, DisksFrom(s.fields, s.world)).disks);
    }
  }

  /** In order-safe fields the disks have their own files and do not compete. */
  lemma OrderSafeDisks(f: Fields, files: Files)
    requires OrderSafe(f) && ReadyToMake(SettingFrom(f, files))
    ensures DistinctFiles(DisksOf(SettingFrom(f, files))) && NoCompetition(DisksOf(SettingFrom(f, files)))
  {
    var c := SettingFrom(f, files);
    forall m, n | m in DisksOf(c) && n in DisksOf(c) && m != n
      ensures DisksOf(c)[m].file != DisksOf(c)[n].file
      ensures DisksOf(c)[m].scan.Scan? && DisksOf(c)[n].scan.Scan? ==>
                NumbersOf(DisksOf(c)[m]) == NumbersOf(DisksOf(c)[n]) && !HasRootfsNumber(DisksOf(c)[m])
    {
      assert Independent(f, m, n);
      DiskNumbersAreRoles(c, m);
      DiskNumbersAreRoles(c, n);
    }
  }

  lemma DiskNumbersAreRoles(c: Setting, n: string)
    requires ReadyToMake(c) && HasDisk(c, n)
    ensures DiskOf(c, n).scan.Scan? ==> SameNumbers(DiskOf(c, n).scan, RoleScan(c.volumes[n].structures, c.seeded))
  {
    var v := c.volumes[n];
    if DiskOf(c, n).scan.Scan? {
      RoleScanDecides(v, c.sectorSize, DiskSize(v, Find(c.imageSizes, n), c.sectorSize), c.seeded);
    }
  }

  lemma MakeDiskIgnoresOrder<D>(o1: seq<string>, o2: seq<string>, s: State<D, Files>)
    requires OrderSafe(s.fields)
    requires Enumerates(o1, VolumesIn(s.fields).Keys) && Enumerates(o2, VolumesIn(s.fields).Keys)
    ensures MakeDiskRun(o1, s).Done? <==> MakeDiskRun(o2, s).Done?
    ensures MakeDiskRun(o1, s).Done? ==> MakeDiskRun(o1, s) == MakeDiskRun(o2, s)
    ensures MakeDiskRun(o1, s).Done? ==> OrderSafe(MakeDiskRun(o1, s).state.fields)
  {
    var c, d := SettingFrom(s.fields, s.world), DisksFrom(s.fields, s.world);
    if ReadyToMake(c) {
      OrderSafeDisks(s.fields, s.world);
      OutcomeIgnoresOrder(c, o1, o2, d);
      OrderSafeStays(s.fields, Renumbered(s.fields, VisitedAll(c, o1, |o1|, d).disks));
    }
  }

  /** A resumed makeDisk makes the same images and records the same numbers, in whatever order it takes the volumes. */
  lemma MakeDiskIsInterchangeable<D(!new)>(v1: set<string> -> seq<string>, v2: set<string> -> seq<string>,
                                           definition: D)
    requires Visits(v1) && Visits(v2)
    ensures Interchangeable(MakeDiskState(v1), MakeDiskState(v2), definition, Steady())
  {
    forall s: State<D, Files> | Sound(s, definition) && OrderSafe(s.fields)
      ensures var c := MakeDiskState(v2).run(Reloaded(s, definition));
              SameOutcome(MakeDiskState(v1).run(s), c, definition)
              && Keeps(MakeDiskState(v1).run(s), Steady()) && Keeps(c, Steady())
    {
      var o1, o2 := v1(VolumesIn(s.fields).Keys), v2(VolumesIn(s.fields).Keys);
      SameVolumeNames(s.fields);
      MakeDiskIgnoresOrder(o1, o2, s);
      MakeDiskCommutes(o2, s, definition);
      CommutingInterchange(s, definition, MakeDiskRun(o1, s), MakeDiskRun(o2, s),
                           MakeDiskRun(o2, Reloaded(s, definition)));
    }
  }

  // ----- the states before it

  /** Saving and restoring rebuilds the labels, and that alone. */
  lemma ReloadRebuilds(f: Fields)
    ensures Restored(Saved(f)) == if f.gadget.None? then f else f.(gadget := Some(Rebuilt(f.gadget.value)))
  {
    RestoreOfSave(f);
    if f.gadget.Some? {
      assert Restored(Saved(f)).gadget.value == Rebuilt(f.gadget.value);
    }
  }

  /** The position of the first rootfs, or the number of structures. */
  function FirstRootfs(ss: seq<VolumeStructure>): (r: nat)
    ensures r <= |ss| && (r < |ss| ==> IsRootfs(ss[r]))
    ensures forall i :: 0 <= i < r ==> !IsRootfs(ss[i])
  {
    if ss == [] || IsRootfs(ss[0]) then 0 else 1 + FirstRootfs(ss[1..])
  }

  lemma FirstRootfsIgnoresLabels(ss: seq<VolumeStructure>)
    ensures FirstRootfs(Reindexed(ss)) == FirstRootfs(ss)
  {
    var r, t := FirstRootfs(ss), FirstRootfs(Reindexed(ss));
    assert forall i :: 0 <= i < |ss| ==> IsRootfs(Reindexed(ss)[i]) == IsRootfs(ss[i]);
  }

  /** The first volume, in an order of visits, that has a rootfs. */
  function RootfsVolume(volumes: map<string, Volume>, order: seq<string>): Option<string>
    requires forall n :: n in order ==> n in volumes
  {
    if order == [] then None
    else if FirstRootfs(volumes[order[0]].structures) < |volumes[order[0]].structures| then Some(order[0])
    else RootfsVolume(volumes, order[1..])
  }

  lemma {:induction false} RootfsVolumeIgnoresLabels(volumes: map<string, Volume>, order: seq<string>)
    requires forall n :: n in order ==> n in volumes
    ensures RootfsVolume(Rebuilt(volumes), order) == RootfsVolume(volumes, order)
    ensures RootfsVolume(volumes, order).Some? ==>
              var n := RootfsVolume(volumes, order).value;
              n in volumes && FirstRootfs(volumes[n].structures) < |volumes[n].structures|
  {
    if order != [] {
      FirstRootfsIgnoresLabels(volumes[order[0]].structures);
      RootfsVolumeIgnoresLabels(volumes, order[1..]);
    }
  }

  /** The size of the rootfs of a volume and the volume with its structure raised. */
  function SizedVolume(v: Volume, f: Fields, contentSize: nat): (nat, Volume)
    requires f.sectorSize > 0 && FirstRootfs(v.structures) < |v.structures|
  {
    var r := FirstRootfs(v.structures);
    var size := SizeOfRootfs(v, r, contentSize, Find(f.imageSizes, v.name), f.sectorSize);
    (size, WithRootfsRaised(v, r, size))
  }

  lemma {:induction false} NoRootfsSizeIgnoresLabels(ss: seq<VolumeStructure>, n: nat)
    requires n <= |ss|
    ensures NoRootfsSize(Reindexed(ss), n) == NoRootfsSize(ss, n)
  {
    if n > 0 {
      NoRootfsSizeIgnoresLabels(ss, n - 1);
    }
  }

  lemma SizedVolumeIgnoresLabels(v: Volume, f: Fields, g: Fields, contentSize: nat)
    requires f.sectorSize == g.sectorSize > 0 && f.imageSizes == g.imageSizes
    requires FirstRootfs(v.structures) < |v.structures|
    ensures FirstRootfs(Reindexed(v.structures)) < |v.structures|
    ensures var w := SizedVolume(v, f, contentSize);
            SizedVolume(v.(structures := Reindexed(v.structures)), g, contentSize)
            == (w.0, w.1.(structures := Reindexed(w.1.structures)))
  {
    var ss, r := v.structures, FirstRootfs(v.structures);
    FirstRootfsIgnoresLabels(ss);
    NoRootfsSizeIgnoresLabels(ss, |ss|);
    var size := SizeOfRootfs(v, r, contentSize, Find(f.imageSizes, v.name), f.sectorSize);
    assert Reindexed(ss)[r := Raised(Reindexed(ss)[r], size)] == Reindexed(ss[r := Raised(ss[r], size)]);
  }

  /** The fields after calculateRootfsSize, looking for the rootfs in the given order of volumes. */
  function Calculated(order: seq<string>, f: Fields, contentSize: nat): Fields
    requires f.sectorSize > 0 && forall n :: n in order ==> n in VolumesIn(f)
  {
    var volumes := VolumesIn(f);
    match RootfsVolume(volumes, order)
    case None => f.(rootfsSize := PaddedContent(contentSize, f.sectorSize))
    case Some(n) =>
      RootfsVolumeIgnoresLabels(volumes, order);
      var (size, v) := SizedVolume(volumes[n], f, contentSize);
      f.(rootfsSize := size, gadget := Some(volumes[n := v]))
  }

  function CalculateRun<D>(order: seq<string>, s: State<D, Files>): Outcome<D, Files> {
    if s.world.contentSize.None? || s.fields.sectorSize == 0 || !(forall n :: n in order ==> n in VolumesIn(s.fields))
    then Failed(s)
    else Done(s.(fields := Calculated(order, s.fields, s.world.contentSize.value)))
  }

  function CalculateState<D>(visit: set<string> -> seq<string>): StateFunc<D, Files> {
    StateFunc("calculate_rootfs_size", (s: State<D, Files>) => CalculateRun(visit(VolumesIn(s.fields).Keys), s))
  }

  /** Raising the rootfs of one volume commutes with rebuilding the labels, and keeps them distinct. */
  lemma SizedGadget(f: Fields, n: string, contentSize: nat)
    requires f.sectorSize > 0 && f.gadget.Some? && n in f.gadget.value && DistinctLabels(f)
    requires FirstRootfs(f.gadget.value[n].structures) < |f.gadget.value[n].structures|
    ensures var volumes := f.gadget.value;
            var (size, v) := SizedVolume(volumes[n], f, contentSize);
            && FirstRootfs(Rebuilt(volumes)[n].structures) < |Rebuilt(volumes)[n].structures|
            && SizedVolume(Rebuilt(volumes)[n], f.(gadget := Some(Rebuilt(volumes))), contentSize)
               == (size, Rebuilt(volumes[n := v])[n])
            && Rebuilt(volumes)[n := Rebuilt(volumes[n := v])[n]] == Rebuilt(volumes[n := v])
            && DistinctLabels(f.(gadget := Some(volumes[n := v])))
  {
    var volumes := f.gadget.value;
    var v := SizedVolume(volumes[n], f, contentSize).1;
    SizedVolumeIgnoresLabels(volumes[n], f, f.(gadget := Some(Rebuilt(volumes))), contentSize);
    RebuiltUpdate(volumes, n, v);
    SizedVolumeKeepsLabels(volumes[n], f, contentSize);
  }

  lemma RebuiltUpdate(volumes: map<string, Volume>, n: string, v: Volume)
    requires n in volumes
    ensures Rebuilt(volumes[n := v])[n] == v.(structures := Reindexed(v.structures))
    ensures Rebuilt(volumes)[n := Rebuilt(volumes[n := v])[n]] == Rebuilt(volumes[n := v])
  {
  }

  lemma SizedVolumeKeepsLabels(v: Volume, f: Fields, contentSize: nat)
    requires f.sectorSize > 0 && FirstRootfs(v.structures) < |v.structures| && InjectiveLabels(v.structures)
    ensures InjectiveLabels(SizedVolume(v, f, contentSize).1.structures)
  {
    var w := SizedVolume(v, f, contentSize).1;
    forall i | 0 <= i < |w.structures| ensures w.structures[i].yamlIndex == v.structures[i].yamlIndex {
    }
  }

  lemma CalculatedCommutes(order: seq<string>, f: Fields, contentSize: nat)
    requires f.sectorSize > 0 && DistinctLabels(f) && forall n :: n in order ==> n in VolumesIn(f)
    ensures Restored(Saved(f)).sectorSize > 0 && VolumesIn(Restored(Saved(f))).Keys == VolumesIn(f).Keys
    ensures DistinctLabels(Calculated(order, f, contentSize))
    ensures Calculated(order, Restored(Saved(f)), contentSize) == Restored(Saved(Calculated(order, f, contentSize)))
  {
    ReloadRebuilds(f);
    if f.gadget.None? {
      RootfsVolumeIgnoresLabels(VolumesIn(f), order);
      ReloadRebuilds(Calculated(order, f, contentSize));
    } else {
      CalculatedGadgetCommutes(order, f, contentSize);
    }
  }

  lemma CalculatedGadgetCommutes(order: seq<string>, f: Fields, contentSize: nat)
    requires f.sectorSize > 0 && DistinctLabels(f) && f.gadget.Some? && forall n :: n in order ==> n in f.gadget.value
    ensures var g := f.(gadget := Some(Rebuilt(f.gadget.value)));
            && DistinctLabels(Calculated(order, f, contentSize))
            && Calculated(order, g, contentSize) == Restored(Saved(Calculated(order, f, contentSize)))
  {
    RootfsVolumeIgnoresLabels(f.gadget.value, order);
    ReloadRebuilds(Calculated(order, f, contentSize));
    if RootfsVolume(f.gadget.value, order).Some? {
      SizedGadget(f, RootfsVolume(f.gadget.value, order).value, contentSize);
    }
  }

  lemma CalculateCommutes<D(!new)>(order: seq<string>, s: State<D, Files>, definition: D)
    requires Sound(s, definition)
    ensures var a, b := CalculateRun(order, s), CalculateRun(order, Reloaded(s, definition));
            && (a.Done? <==> b.Done?)
            && (a.Done? ==> Sound(a.state, definition) && b.state == Reloaded(a.state, definition))
  {
    var f := s.fields;
    SameVolumeNames(f);
    ReloadRebuilds(f);
    if CalculateRun(order, s).Done? {
      CalculatedCommutes(order, f, s.world.contentSize.value);
    }
  }

  lemma {:induction false} RootfsVolumeMeans(volumes: map<string, Volume>, order: seq<string>)
    requires forall n :: n in order ==> n in volumes
    ensures match RootfsVolume(volumes, order)
            case None => forall n :: n in order ==> !HasRootfs(volumes[n])
            case Some(n) => n in order && HasRootfs(volumes[n])
  {
    if order != [] {
      RootfsVolumeMeans(volumes, order[1..]);
    }
  }

  /** When one volume at most has a rootfs, every order finds it. */
  lemma RootfsVolumeIgnoresOrder(o1: seq<string>, o2: seq<string>, volumes: map<string, Volume>)
    requires Enumerates(o1, volumes.Keys) && Enumerates(o2, volumes.Keys)
    requires forall m, n :: m in volumes && n in volumes && HasRootfs(volumes[m]) && HasRootfs(volumes[n]) ==> m == n
    ensures RootfsVolume(volumes, o1) == RootfsVolume(volumes, o2)
  {
    RootfsVolumeMeans(volumes, o1);
    RootfsVolumeMeans(volumes, o2);
  }

  lemma SizedVolumeKeepsRoles(v: Volume, f: Fields, contentSize: nat)
    requires f.sectorSize > 0 && FirstRootfs(v.structures) < |v.structures|
    ensures var w := SizedVolume(v, f, contentSize).1; w.schema == v.schema && SameRoles(v.structures, w.structures)
  {
  }

  lemma CalculatedKeepsRoles(order: seq<string>, f: Fields, contentSize: nat)
    requires f.sectorSize > 0 && forall n :: n in order ==> n in VolumesIn(f)
    ensures SameForOrders(f, Calculated(order, f, contentSize))
  {
    var volumes := VolumesIn(f);
    RootfsVolumeIgnoresLabels(volumes, order);
    if RootfsVolume(volumes, order).Some? {
      var n := RootfsVolume(volumes, order).value;
      SizedVolumeKeepsRoles(volumes[n], f, contentSize);
      UpdateKeepsRoles(f, Calculated(order, f, contentSize), n, SizedVolume(volumes[n], f, contentSize).1);
    }
  }

  lemma UpdateKeepsRoles(f: Fields, g: Fields, n: string, v: Volume)
    requires g.volumeNames == f.volumeNames && g.isSeeded == f.isSeeded && n in VolumesIn(f)
    requires VolumesIn(g) == VolumesIn(f)[n := v] && v.schema == VolumesIn(f)[n].schema
    requires SameRoles(VolumesIn(f)[n].structures, v.structures)
    ensures SameForOrders(f, g)
  {
    assert VolumesIn(g).Keys == VolumesIn(f).Keys;
  }

  lemma CalculatedIgnoresOrder(o1: seq<string>, o2: seq<string>, f: Fields, contentSize: nat)
    requires f.sectorSize > 0 && OrderSafe(f)
    requires Enumerates(o1, VolumesIn(f).Keys) && Enumerates(o2, VolumesIn(f).Keys)
    ensures Calculated(o1, f, contentSize) == Calculated(o2, f, contentSize)
    ensures OrderSafe(Calculated(o1, f, contentSize))
  {
    RootfsVolumeIgnoresOrder(o1, o2, VolumesIn(f));
    CalculatedKeepsRoles(o1, f, contentSize);
    OrderSafeStays(f, Calculated(o1, f, contentSize));
  }

  /** calculateRootfsSize finds the same rootfs in a resumed run, in whatever order, and raises it to the same size. */
  lemma CalculateIsInterchangeable<D(!new)>(v1: set<string> -> seq<string>, v2: set<string> -> seq<string>,
                                            definition: D)
    requires Visits(v1) && Visits(v2)
    ensures Interchangeable(CalculateState(v1), CalculateState(v2), definition, Steady())
  {
    forall s: State<D, Files> | Sound(s, definition) && OrderSafe(s.fields)
      ensures var c := CalculateState(v2).run(Reloaded(s, definition));
              SameOutcome(CalculateState(v1).run(s), c, definition)
              && Keeps(CalculateState(v1).run(s), Steady()) && Keeps(c, Steady())
    {
      var o1, o2 := v1(VolumesIn(s.fields).Keys), v2(VolumesIn(s.fields).Keys);
      SameVolumeNames(s.fields);
      CalculateCommutes(o2, s, definition);
      if CalculateRun(o2, s).Done? {
        CalculatedIgnoresOrder(o1, o2, s.fields, s.world.contentSize.value);
      }
      CommutingInterchange(s, definition, CalculateRun(o1, s), CalculateRun(o2, s),
                           CalculateRun(o2, Reloaded(s, definition)));
    }
  }

  lemma PartFilesIgnoreLabels(v: Volume, name: string, rootfsSize: nat, inputs: Inputs, before: map<nat, seq<byte>>)
    ensures PartFiles(v.(structures := Reindexed(v.structures)), name, rootfsSize, inputs, before)
         == PartFiles(v, name, rootfsSize, inputs, before)
  {
    var w := v.(structures := Reindexed(v.structures));
    forall i | 0 <= i < |v.structures|
      ensures PartFile(w, name, i, rootfsSize, inputs, before) == PartFile(v, name, i, rootfsSize, inputs, before)
    {
      assert w.structures[i] == v.structures[i].(yamlIndex := i);
    }
  }

  lemma {:induction false} PopulatedIgnoresLabels(ss: seq<VolumeStructure>, files: seq<Option<seq<byte>>>, seeded: bool,
                                                  before: map<nat, seq<byte>>, n: nat)
    requires n <= |ss| == |files|
    ensures Populated(Reindexed(ss), files, seeded, before, n) == Populated(ss, files, seeded, before, n)
  {
    if n > 0 {
      PopulatedIgnoresLabels(ss, files, seeded, before, n - 1);
    }
  }

  lemma {:induction false} PopulatedAllIgnoresLabels(volumes: map<string, Volume>, order: seq<string>, n: nat,
                                                     rootfsSize: nat, seeded: bool, inputs: Inputs,
                                                     parts: map<string, map<nat, seq<byte>>>)
    requires n <= |order| && forall x :: x in order ==> x in volumes
    ensures PopulatedAll(Rebuilt(volumes), order, n, rootfsSize, seeded, inputs, parts)
         == PopulatedAll(volumes, order, n, rootfsSize, seeded, inputs, parts)
  {
    if n > 0 {
      PopulatedAllIgnoresLabels(volumes, order, n - 1, rootfsSize, seeded, inputs, parts);
      var before, name := PopulatedAll(volumes, order, n - 1, rootfsSize, seeded, inputs, parts), order[n - 1];
      PopulatedStepIgnoresLabels(before, volumes[name], name, rootfsSize, seeded, inputs);
    }
  }

  lemma PopulatedStepIgnoresLabels(before: Option<map<string, map<nat, seq<byte>>>>, v: Volume, name: string,
                                   rootfsSize: nat, seeded: bool, inputs: Inputs)
    ensures PopulatedStep(before, v.(structures := Reindexed(v.structures)), name, rootfsSize, seeded, inputs)
         == PopulatedStep(before, v, name, rootfsSize, seeded, inputs)
  {
    if before.Some? {
      PopulatedVolumeIgnoresLabels(v, name, rootfsSize, seeded, inputs, PartsFor(before.value, name));
    }
  }

  lemma PopulatedVolumeIgnoresLabels(v: Volume, name: string, rootfsSize: nat, seeded: bool, inputs: Inputs,
                                     before: map<nat, seq<byte>>)
    ensures PopulatedVolume(v.(structures := Reindexed(v.structures)), name, rootfsSize, seeded, inputs, before)
         == PopulatedVolume(v, name, rootfsSize, seeded, inputs, before)
  {
    PartFilesIgnoreLabels(v, name, rootfsSize, inputs, before);
    var ss := v.structures;
    PopulatedIgnoresLabels(ss, PartFiles(v, name, rootfsSize, inputs, before), seeded, before, |ss|);
  }

  lemma {:induction false} MinEndIgnoresLabels(ss: seq<VolumeStructure>, n: nat)
    requires n <= |ss|
    ensures MinEndOf(Reindexed(ss), n) == MinEndOf(ss, n)
  {
    if n > 0 {
      MinEndIgnoresLabels(ss, n - 1);
    }
  }

  lemma {:induction false} GrownSizesIgnoreLabels(volumes: map<string, Volume>, order: seq<string>, n: nat,
                                                  sizes: map<string, nat>)
    requires n <= |order| && forall x :: x in order ==> x in volumes
    ensures GrownSizes(Rebuilt(volumes), order, n, sizes) == GrownSizes(volumes, order, n, sizes)
  {
    if n > 0 {
      GrownSizesIgnoreLabels(volumes, order, n - 1, sizes);
      MinEndIgnoresLabels(volumes[order[n - 1]].structures, |volumes[order[n - 1]].structures|);
    }
  }

  /** populatePreparePartitions, in the recorded order of volumes. */
  function PopulateRun<D>(s: State<D, Files>): Outcome<D, Files> {
    var f, volumes := s.fields, VolumesIn(s.fields);
    if !(forall n :: n in f.volumeOrder ==> n in volumes) then Failed(s)
    else
      var n := |f.volumeOrder|;
      var made := PopulatedAll(volumes, f.volumeOrder, n, f.rootfsSize, f.isSeeded, s.world.inputs, s.world.parts);
      if made.None? then Failed(s)
      else Done(s.(fields := f.(imageSizes := GrownSizes(volumes, f.volumeOrder, n, f.imageSizes)),
                   world := s.world.(parts := made.value)))
  }

  function PopulateState<D>(): StateFunc<D, Files> {
    StateFunc("populate_prepare_partitions", s => PopulateRun(s))
  }

  lemma PopulateCommutes<D(!new)>(s: State<D, Files>, definition: D)
    requires Sound(s, definition)
    ensures var a, b := PopulateRun(s), PopulateRun(Reloaded(s, definition));
            && (a.Done? <==> b.Done?)
            && (a.Done? ==> Sound(a.state, definition) && b.state == Reloaded(a.state, definition))
  {
    var f, g := s.fields, Restored(Saved(s.fields));
    ReloadRebuilds(f);
    SameVolumeNames(f);
    assert f.gadget.None? ==> Rebuilt(VolumesIn(f)) == VolumesIn(f);
    PopulateOfRebuilt(s, State(g, definition, s.world));
    if forall n :: n in f.volumeOrder ==> n in VolumesIn(f) {
      ReloadKeepsSizes(f, GrownSizes(VolumesIn(f), f.volumeOrder, |f.volumeOrder|, f.imageSizes));
    }
  }

  lemma ReloadKeepsSizes(f: Fields, sizes: map<string, nat>)
    ensures Restored(Saved(f.(imageSizes := sizes))) == Restored(Saved(f)).(imageSizes := sizes)
  {
    ReloadRebuilds(f);
    ReloadRebuilds(f.(imageSizes := sizes));
  }

  /** The state works alike on rebuilt volumes: it makes the same files and sizes. */
  lemma PopulateOfRebuilt<D(!new)>(s: State<D, Files>, t: State<D, Files>)
    requires VolumesIn(t.fields) == Rebuilt(VolumesIn(s.fields)) && t.world == s.world
    requires t.fields.volumeOrder == s.fields.volumeOrder && t.fields.imageSizes == s.fields.imageSizes
    requires t.fields.rootfsSize == s.fields.rootfsSize && t.fields.isSeeded == s.fields.isSeeded
    ensures var a, b := PopulateRun(s), PopulateRun(t);
            && (a.Done? <==> b.Done?)
            && (a.Done? ==>
                  b.state == t.(fields := t.fields.(imageSizes := a.state.fields.imageSizes), world := a.state.world))
  {
    if forall n :: n in s.fields.volumeOrder ==> n in VolumesIn(s.fields) {
      PopulatedIgnoresReload(s.fields, VolumesIn(s.fields), s.world);
    }
  }

  lemma PopulatedIgnoresReload(f: Fields, volumes: map<string, Volume>, files: Files)
    requires forall n :: n in f.volumeOrder ==> n in volumes
    ensures var n, rebuilt := |f.volumeOrder|, Rebuilt(volumes);
            && PopulatedAll(rebuilt, f.volumeOrder, n, f.rootfsSize, f.isSeeded, files.inputs, files.parts)
               == PopulatedAll(volumes, f.volumeOrder, n, f.rootfsSize, f.isSeeded, files.inputs, files.parts)
            && GrownSizes(rebuilt, f.volumeOrder, n, f.imageSizes)
               == GrownSizes(volumes, f.volumeOrder, n, f.imageSizes)
  {
    var n := |f.volumeOrder|;
    PopulatedAllIgnoresLabels(volumes, f.volumeOrder, n, f.rootfsSize, f.isSeeded, files.inputs, files.parts);
    GrownSizesIgnoreLabels(volumes, f.volumeOrder, n, f.imageSizes);
  }

  /** populatePreparePartitions follows the recorded order of volumes. */
  lemma PopulateIsInterchangeable<D(!new)>(definition: D)
    ensures Interchangeable(PopulateState(), PopulateState(), definition, Steady())
  {
    forall s: State<D, Files> | Sound(s, definition) && OrderSafe(s.fields)
      ensures var c := PopulateState().run(Reloaded(s, definition));
              SameOutcome(PopulateState().run(s), c, definition)
              && Keeps(PopulateState().run(s), Steady()) && Keeps(c, Steady())
    {
      PopulateCommutes(s, definition);
      if PopulateRun(s).Done? {
        OrderSafeStays(s.fields, PopulateRun(s).state.fields);
      }
      CommutingInterchange(s, definition, PopulateRun(s), PopulateRun(s), PopulateRun(Reloaded(s, definition)));
    }
  }

  /** load_gadget_yaml, which gives the fields that the later states work on. */
  function LoadState<D>(loaded: Fields): StateFunc<D, Files> {
    StateFunc("load_gadget_yaml", (s: State<D, Files>) => Done(s.(fields := loaded)))
  }

  lemma LoadIsInterchangeable<D(!new)>(loaded: Fields, definition: D)
    requires DistinctLabels(loaded) && OrderSafe(loaded)
    ensures Interchangeable(LoadState(loaded), LoadState(loaded), definition, Steady())
  {
    var load: StateFunc<D, Files> := LoadState(loaded);
    forall s: State<D, Files> | Sound(s, definition)
      ensures SameOutcome(load.run(s), load.run(Reloaded(s, definition)), definition)
    {
      assert Reloaded(load.run(s).state, definition) == Reloaded(load.run(Reloaded(s, definition)).state, definition);
    }
  }

  /** The states from a loaded gadget to its disks, with the orders of visits that one invocation draws. */
  function DiskPlan<D>(loaded: Fields, toSize: set<string> -> seq<string>, toMake: set<string> -> seq<string>)
    : seq<StateFunc<D, Files>>
  {
    [LoadState(loaded), CalculateState(toSize), PopulateState(), MakeDiskState(toMake)]
  }

  lemma DiskPlansAreTheSame<D(!new)>(loaded: Fields, toSize: set<string> -> seq<string>,
                                     toMake: set<string> -> seq<string>, size: set<string> -> seq<string>,
                                     make: set<string> -> seq<string>, definition: D)
    requires DistinctLabels(loaded) && OrderSafe(loaded)
    requires Visits(toSize) && Visits(toMake) && Visits(size) && Visits(make)
    ensures SamePlans(DiskPlan(loaded, toSize, toMake), DiskPlan(loaded, size, make), definition, Steady())
  {
    LoadIsInterchangeable(loaded, definition);
    CalculateIsInterchangeable(toSize, size, definition);
    CalculateIsInterchangeable(size, size, definition);
    PopulateIsInterchangeable(definition);
    MakeDiskIsInterchangeable(toMake, make, definition);
    MakeDiskIsInterchangeable(make, make, definition);
  }

  /** The invocation makes the disks of the loaded gadget, with orders of visits of its own. */
  ghost predicate DrawsOrders<D>(call: Call<D, Files>, loaded: Fields) {
    exists toSize, toMake :: Visits(toSize) && Visits(toMake) && call.plan == DiskPlan(loaded, toSize, toMake)
  }

  /**
   The states that make the disks of a loaded gadget, interrupted anywhere and any number of times, every invocation
   with orders of visits of its own: a chain of successful invocations leaves the fields, part files and images of one
   uninterrupted run in any order.
   */
  lemma InterruptedDisksAreTheSame<D(!new)>(loaded: Fields, toSize: set<string> -> seq<string>,
                                            toMake: set<string> -> seq<string>, definition: D, files: Files,
                                            calls: seq<Call<D, Files>>)
    requires DistinctLabels(loaded) && OrderSafe(loaded) && Visits(toSize) && Visits(toMake)
    requires calls != [] && IsChain(calls) && forall i :: 0 <= i < |calls| ==> DrawsOrders(calls[i], loaded)
    requires forall r :: r in Invocations(definition, files, calls) ==> r.ok
    ensures ChainReached(DiskPlan(loaded, toSize, toMake), definition, files, Invocations(definition, files, calls))
  {
    var plan := DiskPlan(loaded, toSize, toMake);
    forall i | 0 <= i < |calls| ensures SamePlans(plan, calls[i].plan, definition, Steady()) {
      assert DrawsOrders(calls[i], loaded);
      var size, make :| Visits(size) && Visits(make) && calls[i].plan == DiskPlan(loaded, size, make);
      DiskPlansAreTheSame(loaded, toSize, toMake, size, make, definition);
    }
    SteadySurvives(definition, files);
    ChainIsOneRun(plan, definition, files, calls, Steady());
  }

  // ----- every gadget

  function Anything<D(!new)>(): (inv: State<D, Files> -> bool)
    ensures forall s :: inv(s)
  {
    (s: State<D, Files>) => true
  }

  lemma CommutingIsSafe<D(!new)>(f: StateFunc<D, Files>, definition: D)
    requires forall s: State<D, Files> :: Sound(s, definition) ==> Commutes(f, s, definition)
    ensures ResumeSafe(f, definition)
  {
    forall s: State<D, Files> | Sound(s, definition)
      ensures SameOutcome(f.run(s), f.run(Reloaded(s, definition)), definition)
    {
      assert Commutes(f, s, definition);
      if f.run(s).Done? {
        ReloadedAlike(f.run(s).state, definition);
      }
    }
  }

  ghost predicate Commutes<D>(f: StateFunc<D, Files>, s: State<D, Files>, definition: D) {
    var a, b := f.run(s), f.run(Reloaded(s, definition));
    && (a.Done? <==> b.Done?)
    && (a.Done? ==> Sound(a.state, definition) && b.state == Reloaded(a.state, definition))
  }

  /** Each state that makes the disks, with an order of visits of its own, works alike in a resumed run. */
  lemma CalculateIsResumeSafe<D(!new)>(visit: set<string> -> seq<string>, definition: D)
    ensures ResumeSafe(CalculateState(visit), definition)
  {
    forall s: State<D, Files> | Sound(s, definition) ensures Commutes(CalculateState(visit), s, definition) {
      SameVolumeNames(s.fields);
      CalculateCommutes(visit(VolumesIn(s.fields).Keys), s, definition);
    }
    CommutingIsSafe(CalculateState(visit), definition);
  }

  lemma PopulateIsResumeSafe<D(!new)>(definition: D)
    ensures ResumeSafe(PopulateState(), definition)
  {
    forall s: State<D, Files> | Sound(s, definition) ensures Commutes(PopulateState(), s, definition) {
      PopulateCommutes(s, definition);
    }
    CommutingIsSafe(PopulateState(), definition);
  }

  lemma MakeDiskIsResumeSafe<D(!new)>(visit: set<string> -> seq<string>, definition: D)
    ensures ResumeSafe(MakeDiskState(visit), definition)
  {
    forall s: State<D, Files> | Sound(s, definition) ensures Commutes(MakeDiskState(visit), s, definition) {
      SameVolumeNames(s.fields);
      MakeDiskCommutes(visit(VolumesIn(s.fields).Keys), s, definition);
    }
    CommutingIsSafe(MakeDiskState(visit), definition);
  }

  lemma LoadIsResumeSafe<D(!new)>(loaded: Fields, definition: D)
    requires DistinctLabels(loaded)
    ensures ResumeSafe(LoadState(loaded), definition)
  {
    var load: StateFunc<D, Files> := LoadState(loaded);
    forall s: State<D, Files> | Sound(s, definition)
      ensures SameOutcome(load.run(s), load.run(Reloaded(s, definition)), definition)
    {
      assert Reloaded(load.run(s).state, definition) == Reloaded(load.run(Reloaded(s, definition)).state, definition);
    }
  }

  lemma DiskStateIsResumeSafe<D(!new)>(loaded: Fields, toSize: set<string> -> seq<string>,
                                       toMake: set<string> -> seq<string>, definition: D, k: nat)
    requires DistinctLabels(loaded) && k < 4
    ensures ResumeSafe(DiskPlan(loaded, toSize, toMake)[k], definition)
  {
    if k == 0 {
      LoadIsResumeSafe(loaded, definition);
    } else if k == 1 {
      CalculateIsResumeSafe(toSize, definition);
    } else if k == 2 {
      PopulateIsResumeSafe(definition);
    } else {
      MakeDiskIsResumeSafe(toMake, definition);
    }
  }

  lemma DiskPlanIsResumeSafe<D(!new)>(loaded: Fields, toSize: set<string> -> seq<string>,
                                      toMake: set<string> -> seq<string>, definition: D)
    requires DistinctLabels(loaded)
    ensures var plan := DiskPlan(loaded, toSize, toMake);
            forall k :: 0 <= k < 4 ==> Interchangeable(plan[k], plan[k], definition, Anything())
  {
    var plan: seq<StateFunc<D, Files>> := DiskPlan(loaded, toSize, toMake);
    forall k | 0 <= k < 4 ensures Interchangeable(plan[k], plan[k], definition, Anything()) {
      DiskStateIsResumeSafe(loaded, toSize, toMake, definition, k);
      ResumeSafeIsInterchangeable(plan[k], definition, Anything());
    }
  }

  lemma DrawnPlansAreVersions<D(!new)>(loaded: Fields, definition: D, calls: seq<Call<D, Files>>)
    requires DistinctLabels(loaded) && forall i :: 0 <= i < |calls| ==> DrawsOrders(calls[i], loaded)
    ensures AllVersions(calls, definition, Anything())
  {
    forall i | 0 <= i < |calls|
      ensures Runner.Names(calls[i].plan) == Runner.Names(calls[0].plan)
      ensures forall k :: 0 <= k < |calls[i].plan| ==>
                Interchangeable(calls[i].plan[k], calls[i].plan[k], definition, Anything())
    {
      assert DrawsOrders(calls[i], loaded) && DrawsOrders(calls[0], loaded);
      var toSize, toMake :| Visits(toSize) && Visits(toMake) && calls[i].plan == DiskPlan(loaded, toSize, toMake);
      DiskPlanIsResumeSafe(loaded, toSize, toMake, definition);
    }
  }

  lemma DrawnState<D(!new)>(loaded: Fields, calls: seq<Call<D, Files>>, plan: seq<StateFunc<D, Files>>, k: nat)
    returns (toSize: set<string> -> seq<string>, toMake: set<string> -> seq<string>)
    requires MixOf(plan, calls) && k < 4 && forall i :: 0 <= i < |calls| ==> DrawsOrders(calls[i], loaded)
    ensures Visits(toSize) && Visits(toMake) && |plan| == 4 && plan[k] == DiskPlan(loaded, toSize, toMake)[k]
  {
    assert DrawsOrders(calls[0], loaded);
    var i :| 0 <= i < |calls| && k < |calls[i].plan| && plan[k] == calls[i].plan[k];
    assert DrawsOrders(calls[i], loaded);
    toSize, toMake :| Visits(toSize) && Visits(toMake) && calls[i].plan == DiskPlan(loaded, toSize, toMake);
  }

  lemma MixOfDrawnPlans<D(!new)>(loaded: Fields, calls: seq<Call<D, Files>>, plan: seq<StateFunc<D, Files>>)
    returns (toSize: set<string> -> seq<string>, toMake: set<string> -> seq<string>)
    requires MixOf(plan, calls) && forall i :: 0 <= i < |calls| ==> DrawsOrders(calls[i], loaded)
    ensures Visits(toSize) && Visits(toMake) && plan == DiskPlan(loaded, toSize, toMake)
  {
    var size0, make0 := DrawnState(loaded, calls, plan, 0);
    var size1, make1 := DrawnState(loaded, calls, plan, 1);
    var size2, make2 := DrawnState(loaded, calls, plan, 2);
    var size3, make3 := DrawnState(loaded, calls, plan, 3);
    toSize, toMake := size1, make3;
  }

  /**
   For every gadget: the states that make its disks, interrupted anywhere and any number of times, every invocation with
   orders of visits of its own, leave the fields, part files and images of one uninterrupted run with some orders.
   */
  lemma InterruptedDisksAreSomeRun<D(!new)>(loaded: Fields, definition: D, files: Files, calls: seq<Call<D, Files>>)
    returns (toSize: set<string> -> seq<string>, toMake: set<string> -> seq<string>)
    requires DistinctLabels(loaded)
    requires calls != [] && IsChain(calls) && forall i :: 0 <= i < |calls| ==> DrawsOrders(calls[i], loaded)
    requires forall r :: r in Invocations(definition, files, calls) ==> r.ok
    ensures Visits(toSize) && Visits(toMake)
    ensures ChainReached(DiskPlan(loaded, toSize, toMake), definition, files, Invocations(definition, files, calls))
  {
    DrawnPlansAreVersions(loaded, definition, calls);
    var plan := ChainIsSomeRun(definition, files, calls, Anything());
    toSize, toMake := MixOfDrawnPlans(loaded, calls, plan);
  }

  // ----- what the run makes

  /** The fields before the disks are made, and the part files, in a run that succeeded. */
  lemma StepsOfDiskRun<D(!new)>(loaded: Fields, toSize: set<string> -> seq<string>, toMake: set<string> -> seq<string>,
                                definition: D, files: Files)
    returns (f: Fields, parts: map<string, map<nat, seq<byte>>>)
    requires Visits(toSize) && Visits(toMake)
    requires Executed(DiskPlan(loaded, toSize, toMake), 4, State(BLANK, definition, files)).ok
    ensures files.contentSize.Some? && loaded.sectorSize > 0
    ensures Enumerates(toSize(VolumesIn(loaded).Keys), VolumesIn(loaded).Keys)
    ensures var sized := Calculated(toSize(VolumesIn(loaded).Keys), loaded, files.contentSize.value);
            && (forall n :: n in sized.volumeOrder ==> n in VolumesIn(sized))
            && f == sized.(imageSizes := f.imageSizes)
            && PopulatedAll(VolumesIn(sized), sized.volumeOrder, |sized.volumeOrder|, sized.rootfsSize, sized.isSeeded,
                            files.inputs, files.parts) == Some(parts)
    ensures var order, c := toMake(VolumesIn(f).Keys), SettingFrom(f, files.(parts := parts));
            && ReadyToMake(c) && Enumerates(order, c.volumes.Keys)
            && var made := VisitedAll(c, order, |order|, DisksFrom(f, files.(parts := parts)));
               made.ok && Executed(DiskPlan(loaded, toSize, toMake), 4, State(BLANK, definition, files)).state
               == State(Renumbered(f, made.disks), definition, files.(parts := parts, images := made.disks.images))
  {
    var plan, start := DiskPlan(loaded, toSize, toMake), State(BLANK, definition, files);
    assert Executed(plan, 0, start) == Run(true, 0, start);
    assert Executed(plan, 1, start) == Run(true, 1, State(loaded, definition, files));
    assert Executed(plan, 3, start).ok;
    assert Executed(plan, 2, start).ok;
    var first := State(loaded, definition, files);
    assert plan[1].run(first) == CalculateRun(toSize(VolumesIn(loaded).Keys), first);
    assert plan[1].run(first).Done?;
    var sized := Executed(plan, 2, start).state.fields;
    assert Executed(plan, 2, start) == Run(true, 2, State(sized, definition, files));
    var populated := Executed(plan, 3, start).state;
    f, parts := populated.fields, populated.world.parts;
  }

  lemma NoRootfsIsSized(volumes: map<string, Volume>, order: seq<string>, rootfsSize: nat)
    requires Enumerates(order, volumes.Keys) && RootfsVolume(volumes, order).None?
    ensures Sized(volumes, volumes, rootfsSize)
  {
    RootfsVolumeMeans(volumes, order);
    forall n, s | n in volumes && s in volumes[n].structures ensures !IsRootfs(s) {
      assert n in order && !HasRootfs(volumes[n]);
    }
  }

  lemma CalculatedIsSized(order: seq<string>, f: Fields, contentSize: nat)
    requires f.sectorSize > 0 && Enumerates(order, VolumesIn(f).Keys)
    ensures var g := Calculated(order, f, contentSize); Sized(VolumesIn(f), VolumesIn(g), g.rootfsSize)
  {
    var volumes := VolumesIn(f);
    match RootfsVolume(volumes, order)
    case Some(n) =>
      RootfsVolumeIgnoresLabels(volumes, order);
      assert IsRootfsAt(volumes, n, FirstRootfs(volumes[n].structures));
    case None =>
      NoRootfsIsSized(volumes, order, Calculated(order, f, contentSize).rootfsSize);
  }

  /** The image file of a volume holds every part file at its place, and otherwise what writing the table left. */
  ghost predicate ImageIsFaithful(f: Fields, files: Files, before: Files, n: string)
    requires f.sectorSize > 0 && MakesDisk(f, n) && n in before.writes
  {
    var v := VolumesIn(f)[n];
    && f.volumeNames[n] in files.images
    && HoldsVolume(files.images[f.volumeNames[n]],
                   TableImage(seq(DiskSize(v, Find(f.imageSizes, n), f.sectorSize), _ => 0), before.writes[n]), v,
                   f.isSeeded, PartFiles(v, n, f.rootfsSize, before.inputs, PartsFor(before.parts, n)))
  }

  /** Every volume with a disk is listed once in the recorded order, and no two have the same file name. */
  predicate DisksListed(f: Fields) {
    && (forall i, j :: 0 <= i < j < |f.volumeOrder| ==> f.volumeOrder[i] != f.volumeOrder[j])
    && (forall n :: n in VolumesIn(f) && MakesDisk(f, n) ==> n in f.volumeOrder)
    && (forall m, n :: m in VolumesIn(f) && n in VolumesIn(f) && m != n && MakesDisk(f, m) && MakesDisk(f, n) ==>
          f.volumeNames[m] != f.volumeNames[n])
  }

  /** At most one structure of the gadget is a rootfs. */
  ghost predicate OneRootfs(f: Fields) {
    forall m, i: nat, n, j: nat :: IsRootfsAt(VolumesIn(f), m, i) && IsRootfsAt(VolumesIn(f), n, j) ==> m == n && i == j
  }

  /** The volume is laid out in order on sector boundaries, and the given files fit its structures. */
  ghost predicate WellLaid(f: Fields, files: Files, n: string) {
    && f.sectorSize > 0 && n in VolumesIn(f) && n in files.writes
    && LaidOut(VolumesIn(f)[n].structures, f.sectorSize, f.isSeeded, files.writes[n])
    && GivenFilesFit(VolumesIn(f)[n].structures, files.inputs, f.isSeeded)
  }

  /**
   A run that sizes, populates and makes the disks of a gadget with at most one rootfs: on every volume whose layout is
   ordered and aligned and whose given files fit, with or without a rootfs, the image file is faithful.
   */
  lemma BuiltDisksAreFaithful<D(!new)>(loaded: Fields, toSize: set<string> -> seq<string>,
                                       toMake: set<string> -> seq<string>, definition: D, files: Files, n: string)
    requires Visits(toSize) && Visits(toMake) && DisksListed(loaded) && MakesDisk(loaded, n) && n in files.writes
    requires Executed(DiskPlan(loaded, toSize, toMake), 4, State(BLANK, definition, files)).ok
    requires OneRootfs(loaded)
    requires var f := Executed(DiskPlan(loaded, toSize, toMake), 4, State(BLANK, definition, files)).state.fields;
             WellLaid(f, files, n)
    ensures var end := Executed(DiskPlan(loaded, toSize, toMake), 4, State(BLANK, definition, files)).state;
            MakesDisk(end.fields, n) && ImageIsFaithful(end.fields, end.world, files, n)
  {
    var f, parts := StepsOfDiskRun(loaded, toSize, toMake, definition, files);
    var sizing := toSize(VolumesIn(loaded).Keys);
    CalculatedIsSized(sizing, loaded, files.contentSize.value);
    CalculatedKeepsRoles(sizing, loaded, files.contentSize.value);
    SizedRootfsFits(VolumesIn(loaded), VolumesIn(f), f.rootfsSize, f.isSeeded);
    var order, c, d := toMake(VolumesIn(f).Keys), SettingFrom(f, files.(parts := parts)),
                       DisksFrom(f, files.(parts := parts));
    assert n in order;
    var k :| 0 <= k < |order| && order[k] == n;
    FilesStayDistinct(loaded, f, order, k);
    BuiltImagesAreFaithful(c, order, d, k, f.volumeOrder, f.rootfsSize, files.inputs, files.parts);
  }

  /**
   So are the image files that a finished build leaves, however often it was interrupted and in whatever orders its
   invocations took the volumes.
   */
  lemma InterruptedDisksAreFaithful<D(!new)>(loaded: Fields, definition: D, files: Files, calls: seq<Call<D, Files>>,
                                             n: string)
    returns (toSize: set<string> -> seq<string>, toMake: set<string> -> seq<string>)
    requires DistinctLabels(loaded) && DisksListed(loaded) && OneRootfs(loaded) && MakesDisk(loaded, n)
    requires calls != [] && IsChain(calls) && forall i :: 0 <= i < |calls| ==> DrawsOrders(calls[i], loaded)
    requires forall r :: r in Invocations(definition, files, calls) ==> r.ok
    requires var last := Invocations(definition, files, calls)[|calls| - 1];
             last.metadata.Some? ==> last.metadata.value.stepsTaken == 4
    ensures Visits(toSize) && Visits(toMake)
    ensures var end := Executed(DiskPlan(loaded, toSize, toMake), 4, State(BLANK, definition, files)).state;
            var last := Invocations(definition, files, calls)[|calls| - 1];
            && last.world == end.world && last.metadata.Some?
            && Restored(last.metadata.value.fields) == Restored(Saved(end.fields))
            && (WellLaid(end.fields, files, n) ==>
                  MakesDisk(end.fields, n) && ImageIsFaithful(end.fields, last.world, files, n))
  {
    toSize, toMake := InterruptedDisksAreSomeRun(loaded, definition, files, calls);
    var end := Executed(DiskPlan(loaded, toSize, toMake), 4, State(BLANK, definition, files)).state;
    if WellLaid(end.fields, files, n) {
      BuiltDisksAreFaithful(loaded, toSize, toMake, definition, files, n);
    }
  }

  lemma FilesStayDistinct(loaded: Fields, f: Fields, order: seq<string>, k: nat)
    requires DisksListed(loaded) && SameForOrders(loaded, f) && f.volumeOrder == loaded.volumeOrder
    requires EachOnce(order, VolumesIn(f).Keys) && k < |order| && MakesDisk(f, order[k])
    ensures order[k] in f.volumeOrder
    ensures forall i :: k < i < |order| && MakesDisk(f, order[i]) ==> f.volumeNames[order[i]] != f.volumeNames[order[k]]
  {
    forall i | k < i < |order| && MakesDisk(f, order[i]) ensures f.volumeNames[order[i]] != f.volumeNames[order[k]] {
      assert MakesDisk(loaded, order[i]) && MakesDisk(loaded, order[k]);
    }
  }

  // ----- verifyArtifactNames

  function VolumesOf(es: Option<seq<ArtifactFiles.Entry>>): set<string> {
    set i | 0 <= i < |ListOf(es)| :: ListOf(es)[i].volume
  }

  /** The map for a gadget of several volumes. */
  function NamesForMany(w: Wanted): map<string, string> {
    map v | v in VolumesOf(w.img) + VolumesOf(w.qcow2) ::
      if v in VolumesOf(w.img) then LastName(ListOf(w.img), |ListOf(w.img)|, v)
      else ImgFile(LastName(ListOf(w.qcow2), |ListOf(w.qcow2)|, v))
  }

  lemma NamesForManyIsMapped(w: Wanted)
    ensures Mapped(ListOf(w.img), |ListOf(w.img)|, ListOf(w.qcow2), |ListOf(w.qcow2)|, NamesForMany(w))
  {
    forall v
      ensures v in VolumesOf(w.img) <==> ArtifactFiles.Names(ListOf(w.img), |ListOf(w.img)|, v)
      ensures v in VolumesOf(w.qcow2) <==> ArtifactFiles.Names(ListOf(w.qcow2), |ListOf(w.qcow2)|, v)
    {
    }
  }

  /** The map for a gadget with one volume. */
  function NamesForOne(w: Wanted, only: string): map<string, string>
    requires (w.img.Some? ==> w.img.value != []) && (w.qcow2.Some? ==> w.qcow2.value != [])
  {
    if w.img.Some? then map[VolumeOf(w.img.value[0], only) := w.img.value[0].name]
    else if w.qcow2.Some? then map[VolumeOf(w.qcow2.value[0], only) := ImgFile(w.qcow2.value[0].name)]
    else map[]
  }

  ghost function TheOnly(volumes: map<string, Volume>): (only: string)
    requires |volumes| == 1
    ensures only in volumes && forall v :: v in volumes ==> v == only
  {
    var only :| only in volumes;
    OnlyKey(volumes, only);
    only
  }

  /** verifyArtifactNames; it fails on a volume missing from an entry, an empty list or a gadget without volumes. */
  ghost function VerifyRun(s: State<Wanted, Files>): Outcome<Wanted, Files> {
    var volumes, w := VolumesIn(s.fields), s.definition;
    if |volumes| > 1 then
      if AllNamed(ListOf(w.img)) && AllNamed(ListOf(w.qcow2))
      then Done(s.(fields := s.fields.(volumeNames := NamesForMany(w)))) else Failed(s)
    else if |volumes| == 0 || w.img == Some([]) || w.qcow2 == Some([]) then Failed(s)
    else
      var only := TheOnly(volumes);
      Done(s.(fields := s.fields.(volumeNames := NamesForOne(w, only)),
              definition := w.(qcow2 := Completed(w.qcow2, only))))
  }

  /** The run does what the method is proved to do. */
  lemma VerifyRunIsVerified(s: State<Wanted, Files>)
    requires VerifyRun(s).Done?
    ensures Verified(VolumesIn(s.fields), s.definition.img, s.definition.qcow2,
                     VerifyRun(s).state.definition.qcow2, VerifyRun(s).state.fields.volumeNames)
  {
    NamesForManyIsMapped(s.definition);
  }

  ghost function VerifyState(): StateFunc<Wanted, Files> {
    StateFunc("verify_artifact_names", s => VerifyRun(s))
  }

  /** The first qcow2 entry names its volume, so that there is nothing to write into the definition. */
  predicate Qcow2Named(w: Wanted) {
    w.qcow2.None? || w.qcow2.value == [] || w.qcow2.value[0].volume != ""
  }

  lemma SameVolumeNames(f: Fields)
    ensures VolumesIn(Restored(Saved(f))).Keys == VolumesIn(f).Keys
    ensures |VolumesIn(Restored(Saved(f)))| == |VolumesIn(f)|
  {
    RestoreOfSave(f);
    var volumes, after := VolumesIn(f), VolumesIn(Restored(Saved(f)));
    assert volumes.Keys == after.Keys;
    assert |volumes| == |volumes.Keys| == |after.Keys| == |after|;
  }

  /** The map and the outcome depend on the volume names alone. */
  lemma VerifyIgnoresLabels(s: State<Wanted, Files>, w: Wanted)
    requires Sound(s, w) && Qcow2Named(w)
    ensures VerifyRun(s).Failed? ==> VerifyRun(Reloaded(s, w)).Failed?
    ensures VerifyRun(s).Done? ==>
              var t, names := Reloaded(s, w), VerifyRun(s).state.fields.volumeNames;
              && VerifyRun(s).state == s.(fields := s.fields.(volumeNames := names))
              && VerifyRun(t) == Done(t.(fields := t.fields.(volumeNames := names)))
  {
    SameVolumeNames(s.fields);
    if |VolumesIn(s.fields)| == 1 {
      SameOnly(s.fields);
    }
  }

  lemma VerifyAlike(s: State<Wanted, Files>, w: Wanted)
    requires Sound(s, w) && Qcow2Named(w)
    ensures SameOutcome(VerifyRun(s), VerifyRun(Reloaded(s, w)), w)
  {
    VerifyIgnoresLabels(s, w);
    if VerifyRun(s).Done? {
      ReloadedAlike(s, w);
      RenamedAlike(s.fields, Reloaded(s, w).fields, VerifyRun(s).state.fields.volumeNames);
    }
  }

  lemma SameOnly(f: Fields)
    requires |VolumesIn(f)| == |VolumesIn(Restored(Saved(f)))| == 1
    ensures TheOnly(VolumesIn(f)) == TheOnly(VolumesIn(Restored(Saved(f))))
  {
    SameVolumeNames(f);
  }

  lemma RenamedAlike(f: Fields, g: Fields, names: map<string, string>)
    requires DistinctLabels(f) && DistinctLabels(g) && Restored(Saved(f)) == Restored(Saved(g))
    ensures DistinctLabels(f.(volumeNames := names)) && DistinctLabels(g.(volumeNames := names))
    ensures Restored(Saved(f.(volumeNames := names))) == Restored(Saved(g.(volumeNames := names)))
  {
    RenamedReload(f, names);
    RenamedReload(g, names);
  }

  lemma RenamedReload(f: Fields, names: map<string, string>)
    ensures Restored(Saved(f.(volumeNames := names))) == Restored(Saved(f)).(volumeNames := names)
  {
  }

  /**
   A run may be interrupted after verifyArtifactNames, for every gadget, exactly when the first qcow2 entry names its
   volume or there is an empty list, on which the state fails anyway.
   */
  lemma VerifyIsResumeSafeIff(w: Wanted)
    ensures ResumeSafe(VerifyState(), w) <==> Qcow2Named(w) || w.img == Some([])
  {
    if Qcow2Named(w) {
      forall s: State<Wanted, Files> | Sound(s, w)
        ensures SameOutcome(VerifyState().run(s), VerifyState().run(Reloaded(s, w)), w)
      {
        VerifyAlike(s, w);
      }
    } else if w.img == Some([]) {
      forall s: State<Wanted, Files> | Sound(s, w) ensures VerifyRun(s).Failed? && VerifyRun(Reloaded(s, w)).Failed? {
        assert !AllNamed(ListOf(w.qcow2));
      }
    } else {
      var gadget := map["pc" := Volume("pc", Gpt, "", [])];
      var s := State(BLANK.(gadget := Some(gadget)), w, Files(None, Inputs(map[], map[], None), map[], map[], map[]));
      assert "pc" in gadget && |gadget| == 1;
      assert Sound(s, w);
      assert VerifyRun(s).Done? && VerifyRun(s).state.definition.qcow2 != w.qcow2;
      assert !SameOutcome(VerifyState().run(s), VerifyState().run(Reloaded(s, w)), w);
    }
  }
}
