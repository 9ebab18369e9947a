/**
 Running commands in a chroot between mounting its virtual filesystems and tearing everything down again:
 runCmdsWithChrootSetup, generateMountPointCmds and teardownMount.
 */
module ChrootMounts {
  import opened LateMounts
  import opened MountDiff
  import opened MountTable
  import opened Quantities
  import opened Teardown

  // ----- set-up

  /** The virtual filesystems of a chroot; /run is bound to a scratch directory. */
  function ChrootMountPoints(chroot: string): seq<MountPoint> {
    [MountPoint("devtmpfs-build", "", chroot, "/dev", "devtmpfs", [], false),
     MountPoint("devpts-build", "", chroot, "/dev/pts", "devpts", ["nodev", "nosuid"], false),
     MountPoint("proc-build", "", chroot, "/proc", "proc", [], false),
     MountPoint("sysfs-build", "", chroot, "/sys", "sysfs", [], false),
     MountPoint("", "", chroot, "/run", "", [], true)]
  }

  /** getMountCmd refuses a bind mount with a type. */
  predicate MountCmdAllowed(m: MountPoint) {
    !(m.bind && m.typ != "")
  }

  function MountCmdOf(m: MountPoint, scratch: string): Cmd {
    MountCmd(if m.bind then scratch else m.src, TargetOf(m), m.typ, m.opts, m.bind)
  }

  /** Whether a mount point can be prepared: its directory made, a temporary directory for a bind mount. */
  predicate Preparable(m: MountPoint, made: bool, scratch: Option<string>) {
    MountCmdAllowed(m) && made && (m.bind ==> scratch.Some?)
  }

  ghost predicate Prepared(ms: seq<MountPoint>, made: seq<bool>, scratch: Option<string>)
    requires |made| == |ms|
  {
    forall i :: 0 <= i < |ms| ==> Preparable(ms[i], made[i], scratch)
  }

  /**
   The mount commands in order and the unmount commands in reverse. `made` says which target directories exist or can
   be created; `scratch` is the temporary directory for bind mounts, None when it cannot be made.
   */
  method GenerateMountPointCmds(mountPoints: seq<MountPoint>, made: seq<bool>, scratch: Option<string>)
    returns (ok: bool, mountCmds: seq<Cmd>, umountCmds: seq<Cmd>)
    requires |made| == |mountPoints|
    ensures ok <==> Prepared(mountPoints, made, scratch)
    ensures !ok ==> mountCmds == [] && umountCmds == []
    ensures ok ==> umountCmds == UmountCmdsOf(mountPoints, |mountPoints|) && |mountCmds| == |mountPoints|
    ensures ok ==> forall i :: 0 <= i < |mountCmds| ==>
                     mountCmds[i] == MountCmdOf(mountPoints[i], if scratch.Some? then scratch.value else "")
  {
    mountCmds, umountCmds := [], [];
    for i := 0 to |mountPoints|
      invariant |mountCmds| == i && umountCmds == UmountCmdsOf(mountPoints, i)
      invariant forall k :: 0 <= k < i ==> Preparable(mountPoints[k], made[k], scratch)
      invariant forall k :: 0 <= k < i ==>
                  mountCmds[k] == MountCmdOf(mountPoints[k], if scratch.Some? then scratch.value else "")
    {
      var m := mountPoints[i];
      if (m.bind && scratch.None?) || !MountCmdAllowed(m) || !made[i] {
        return false, [], [];
      }
      mountCmds := mountCmds + [MountCmdOf(m, if m.bind then scratch.value else "")];
      umountCmds := UmountCmd(TargetOf(m)) + umountCmds;
    }
    ok := true;
  }

  ghost predicate AllMount(attempts: seq<Attempt>) {
    forall i :: 0 <= i < |attempts| ==> attempts[i].Mounts?
  }

  /** How many mounts succeed before the first that fails. */
  function Leading(attempts: seq<Attempt>): (n: nat)
    ensures n <= |attempts| && (n < |attempts| ==> attempts[n].Fails?)
    ensures forall i :: 0 <= i < n ==> attempts[i].Mounts?
  {
    if attempts == [] || attempts[0].Fails? then 0 else 1 + Leading(attempts[1..])
  }

  lemma LeadingIs(attempts: seq<Attempt>, n: nat)
    requires n <= |attempts| && (n < |attempts| ==> attempts[n].Fails?)
    requires forall i :: 0 <= i < n ==> attempts[i].Mounts?
    ensures Leading(attempts) == n
  {
  }

  /** The rows of the mount table for the first n mount points. */
  function RowsOf(ms: seq<MountPoint>, attempts: seq<Attempt>, n: nat): (r: seq<Mount>)
    requires n <= |ms| && n <= |attempts| && forall i :: 0 <= i < n ==> attempts[i].Mounts?
    ensures |r| == n && forall i :: 0 <= i < n ==> r[i] == RowOf(ms[i], attempts[i])
  {
    seq(n, i requires 0 <= i < n => RowOf(ms[i], attempts[i]))
  }

  function RowOf(m: MountPoint, attempt: Attempt): Mount
    requires attempt.Mounts?
  {
    Mount(attempt.src, TargetOf(m), attempt.typ, attempt.opts)
  }

  /** RunCmds on the mount commands: it stops at the first that fails. */
  method RunMounts(k: Kernel, cmds: seq<Cmd>, ghost ms: seq<MountPoint>, attempts: seq<Attempt>) returns (ok: bool)
    requires |attempts| == |cmds| == |ms|
    requires forall i :: 0 <= i < |cmds| ==> cmds[i].MountCmd? && cmds[i].target == TargetOf(ms[i])
    modifies k
    ensures ok <==> AllMount(attempts)
    ensures k.table == old(k.table) + RowsOf(ms, attempts, Leading(attempts))
  {
    for i := 0 to |cmds|
      invariant forall j :: 0 <= j < i ==> attempts[j].Mounts?
      invariant k.table == old(k.table) + RowsOf(ms, attempts, i)
    {
      ok := k.Attach(cmds[i].target, attempts[i]);
      if !ok {
        LeadingIs(attempts, i);
        return;
      }
      assert RowsOf(ms, attempts, i + 1) == RowsOf(ms, attempts, i) + Rows(cmds[i].target, attempts[i]);
    }
    LeadingIs(attempts, |attempts|);
    ok := true;
  }

  lemma ChrootMountPointsDeclared(chroot: string)
    ensures Declared(ChrootMountPoints(chroot), chroot)
  {
  }

  /** What a chrooted command list does to the mount table, and whether it succeeds. */
  datatype Chrooted = Chrooted(effect: seq<Mount> -> seq<Mount>, ok: bool)

  /** Whether the steps around the chrooted commands succeed: resolv.conf, the diversions and undoing them. */
  datatype Around = Around(resolvConf: bool, diverted: seq<bool>, undiverted: seq<bool>)

  predicate All(oks: seq<bool>) {
    forall i :: 0 <= i < |oks| ==> oks[i]
  }

  /** The diversions run up to the first that fails; those that were made are undone, the last first. */
  method Divert(around: Around) returns (ok: bool, made: nat)
    requires |around.undiverted| == |around.diverted|
    ensures ok == All(around.diverted) && made <= |around.diverted|
    ensures forall i :: 0 <= i < made ==> around.diverted[i]
    ensures !ok ==> made < |around.diverted| && !around.diverted[made]
    ensures ok ==> made == |around.diverted|
  {
    made := 0;
    while made < |around.diverted|
      invariant made <= |around.diverted| && forall i :: 0 <= i < made ==> around.diverted[i]
    {
      if !around.diverted[made] {
        return false, made;
      }
      made := made + 1;
    }
    ok := true;
  }

  method Undivert(around: Around, made: nat) returns (ok: bool)
    requires made <= |around.undiverted|
    ensures ok == All(around.undiverted[..made])
  {
    ok := true;
    var i := made;
    while i > 0
      invariant 0 <= i <= made && (ok <==> forall j :: i <= j < made ==> around.undiverted[j])
    {
      i := i - 1;
      ok := ok && around.undiverted[i];
    }
  }

  /** The chroot setup comes as far as running the chrooted commands. */
  ghost predicate RunsChrooted(chroot: string, made: seq<bool>, scratch: Option<string>, attempts: seq<Attempt>,
                               around: Around)
    requires |made| == |ChrootMountPoints(chroot)|
  {
    Prepared(ChrootMountPoints(chroot), made, scratch) && AllMount(attempts) && All(around.diverted)
  }

  /** From mounting to undoing the diversions. */
  method RunMounted(k: Kernel, mountCmds: seq<Cmd>, ghost ms: seq<MountPoint>, attempts: seq<Attempt>,
                    chrooted: Chrooted, around: Around)
    returns (ok: bool)
    requires |attempts| == |mountCmds| == |ms| && |around.undiverted| == |around.diverted|
    requires forall i :: 0 <= i < |ms| ==> mountCmds[i].MountCmd? && mountCmds[i].target == TargetOf(ms[i])
    modifies k
    ensures ok <==> AllMount(attempts) && All(around.diverted) && chrooted.ok && All(around.undiverted)
    ensures var start := old(k.table) + RowsOf(ms, attempts, Leading(attempts));
            k.table == if AllMount(attempts) && All(around.diverted) then chrooted.effect(start) else start
  {
    ok := RunMounts(k, mountCmds, ms, attempts);
    if ok {
      var diverted, n := Divert(around);
      ok := diverted;
      if ok {
        k.table := chrooted.effect(k.table);
        ok := chrooted.ok;
      }
      var undone := Undivert(around, n);
      assert diverted ==> undone == All(around.undiverted);
      ok := ok && undone;
    }
  }

  /** The mount table when the chrooted commands start, or when the set-up fails. */
  function AfterSetup(t: seq<Mount>, chroot: string, prepared: bool, attempts: seq<Attempt>): seq<Mount>
    requires |attempts| == |ChrootMountPoints(chroot)|
  {
    if prepared then t + RowsOf(ChrootMountPoints(chroot), attempts, Leading(attempts)) else t
  }

  /**
   runCmdsWithChrootSetup. The mount attempts may fail at any point; `chrooted` is whatever the chrooted commands do,
   including mounts of their own, and `atTeardown` the table when they end. `show` is the text of the mount table, None
   when it cannot be read. Once the commands were prepared, and the table can be read, it ends without any mount whose
   path starts with the chroot path; the others are those that the chrooted commands left. Nothing happens when
   resolv.conf cannot be set up.
   */
  method RunCmdsWithChrootSetup(k: Kernel, chroot: string, made: seq<bool>, scratch: Option<string>,
                                attempts: seq<Attempt>, chrooted: Chrooted, around: Around,
                                show: seq<Mount> -> Option<string>)
    returns (ok: bool, failures: nat, ghost atTeardown: seq<Mount>, ghost cmds: seq<Cmd>)
    requires |attempts| == |made| == |ChrootMountPoints(chroot)| && |around.undiverted| == |around.diverted|
    requires forall t :: show(t).Some? ==> Shows(show(t).value, t, chroot)
    modifies k
    ensures ok <==> (around.resolvConf && RunsChrooted(chroot, made, scratch, attempts, around) && chrooted.ok
                     && All(around.undiverted) && failures == 0 && show(atTeardown).Some?)
    ensures !around.resolvConf ==> cmds == [] && atTeardown == old(k.table)
    ensures around.resolvConf ==>
              cmds == TeardownCmds(chroot, ChrootMountPoints(chroot), show(atTeardown).Some?,
                                   Prepared(ChrootMountPoints(chroot), made, scratch), atTeardown)
    ensures around.resolvConf ==>
              var prepared := Prepared(ChrootMountPoints(chroot), made, scratch);
              var start := AfterSetup(old(k.table), chroot, prepared, attempts);
              atTeardown == if RunsChrooted(chroot, made, scratch, attempts, around) then chrooted.effect(start)
                            else start
    ensures k.table == Swept(atTeardown, cmds) && failures == Failures(atTeardown, cmds)
    ensures Outside(k.table, chroot) == Outside(atTeardown, chroot)
    ensures around.resolvConf && show(atTeardown).Some? ==>
              (k.table == Outside(atTeardown, chroot) <==>
               Prepared(ChrootMountPoints(chroot), made, scratch)
               || Covered(ChrootMountPoints(chroot), Listed(atTeardown, chroot)))
  {
    cmds, atTeardown := [], k.table;
    if !around.resolvConf {
      return false, 0, atTeardown, cmds;
    }
    var mountPoints := ChrootMountPoints(chroot);
    ChrootMountPointsDeclared(chroot);
    var prepared, mountCmds, umountCmds := GenerateMountPointCmds(mountPoints, made, scratch);
    var own := if prepared then [Settle] + umountCmds else [];
    ok := prepared;
    if ok {
      ok := RunMounted(k, mountCmds, mountPoints, attempts, chrooted, around);
    }
    atTeardown := k.table;
    var procMount := show(k.table);
    failures, cmds := TeardownMount(k, procMount, chroot, mountPoints, own);
    ok := ok && failures == 0 && procMount.Some?;
  }

  /**
   teardownMount with the program's own list: complete when the commands were prepared, empty otherwise. Whatever is
   readable, every path has lost as many mounts as were declared there.
   */
  method TeardownMount(k: Kernel, procMount: Option<string>, chroot: string, mountPoints: seq<MountPoint>,
                       own: seq<Cmd>)
    returns (failures: nat, ghost cmds: seq<Cmd>)
    requires Declared(mountPoints, chroot) && (procMount.Some? ==> Shows(procMount.value, k.table, chroot))
    requires own == [] || own == [Settle] + UmountCmdsOf(mountPoints, |mountPoints|)
    modifies k
    ensures cmds == TeardownCmds(chroot, mountPoints, procMount.Some?, own != [], old(k.table))
    ensures k.table == Swept(old(k.table), cmds) && failures == Failures(old(k.table), cmds)
    ensures procMount.Some? ==>
              (k.table == Outside(old(k.table), chroot) <==>
               own != [] || Covered(mountPoints, Listed(old(k.table), chroot)))
    ensures Outside(k.table, chroot) == Outside(old(k.table), chroot)
    ensures own != [] ==>
              forall q :: Count(k.table, q) <= SafeSubtract(Count(old(k.table), q), PathCount(mountPoints, q))
  {
    var added := UmountAddedMountPointsCmds(procMount, k.table, chroot, mountPoints);
    cmds := added + own;
    failures := ExecTeardownCmds(k, added + own);
    if own != [] {
      OwnListClears(chroot, mountPoints, procMount.Some?, old(k.table));
    } else {
      assert added + own == added;
      LateListClearsIff(chroot, mountPoints, procMount.Some?, old(k.table));
    }
  }

  lemma OwnListClears(chroot: string, mountPoints: seq<MountPoint>, readable: bool, t: seq<Mount>)
    requires Declared(mountPoints, chroot)
    ensures var after := Swept(t, TeardownCmds(chroot, mountPoints, readable, true, t));
            && (readable ==> after == Outside(t, chroot))
            && Outside(after, chroot) == Outside(t, chroot)
            && forall q :: Count(after, q) <= SafeSubtract(Count(t, q), PathCount(mountPoints, q))
  {
    var late := if readable then AddedUmounts(Diff(mountPoints, Listed(t, chroot))) else [];
    var own := [Settle] + UmountCmdsOf(mountPoints, |mountPoints|);
    var tables := SweptTrace(t, late + own);
    TeardownStaysIn(chroot, mountPoints, readable, own, tables);
    OwnUmountsSuffice(chroot, mountPoints);
    forall q ensures Count(tables[|late + own|], q) <= SafeSubtract(Count(t, q), PathCount(mountPoints, q)) {
      OwnListCounts(late, own, tables, q, PathCount(mountPoints, q));
    }
    if readable {
      TeardownClears(chroot, mountPoints, own, tables);
    }
  }

  lemma OwnListCounts(late: seq<Cmd>, own: seq<Cmd>, tables: seq<seq<Mount>>, q: string, declared: nat)
    requires Trace(late + own, tables) && declared <= Umounts(own, q)
    ensures Count(tables[|late + own|], q) <= SafeSubtract(Count(tables[0], q), declared)
  {
    TraceCounts(late + own, tables, |late + own|, q);
    assert (late + own)[..|late + own|] == late + own;
    UmountsConcat(late, own, q);
  }

  lemma LateListClearsIff(chroot: string, mountPoints: seq<MountPoint>, readable: bool, t: seq<Mount>)
    requires Declared(mountPoints, chroot)
    ensures var after := Swept(t, if readable then AddedUmounts(Diff(mountPoints, Listed(t, chroot))) else []);
            && (readable ==> (after == Outside(t, chroot) <==> Covered(mountPoints, Listed(t, chroot))))
            && Outside(after, chroot) == Outside(t, chroot)
  {
    var late := if readable then AddedUmounts(Diff(mountPoints, Listed(t, chroot))) else [];
    assert late + [] == late;
    var tables := SweptTrace(t, late);
    TeardownStaysIn(chroot, mountPoints, readable, [], tables);
    FailedPreparationClearsIff(chroot, mountPoints, t);
  }

  // ----- a run that nothing disturbs

  /** The table describes what was mounted with the source and the type that were asked for. */
  ghost predicate AsAsked(ms: seq<MountPoint>, attempts: seq<Attempt>)
    requires |attempts| == |ms|
  {
    forall i :: 0 <= i < |ms| ==>
      attempts[i].Mounts? && (ms[i].bind || (ms[i].src == attempts[i].src && ms[i].typ == attempts[i].typ))
  }

  ghost predicate DistinctPaths(ms: seq<MountPoint>) {
    forall i, j :: 0 <= i < j < |ms| ==> PathOf(ms[i]) != PathOf(ms[j])
  }

  /** The rows from position k on as they are listed, the latest first. */
  function ListedRows(rows: seq<Mount>, k: nat): (r: seq<MountPoint>)
    requires k <= |rows|
    ensures |r| == |rows| - k && forall j :: 0 <= j < |r| ==> r[j] == Described(rows[|rows| - 1 - j])
  {
    seq(|rows| - k, j requires 0 <= j < |rows| - k => Described(rows[|rows| - 1 - j]))
  }

  lemma {:induction false} OwnRowsAreOld(ms: seq<MountPoint>, rows: seq<Mount>, k: nat)
    requires k <= |ms| == |rows| && DistinctPaths(ms)
    requires forall i :: 0 <= i < |ms| ==> Equal(ms[i], Described(rows[i]))
    ensures Diff(ms[k..], ListedRows(rows, k)) == []
    decreases |ms| - k
  {
    if k < |ms| {
      var listed := ListedRows(rows, k);
      forall j | 0 <= j < |listed| - 1 ensures !Equal(ms[k], listed[j]) {
        assert Equal(ms[|rows| - 1 - j], listed[j]);
      }
      FirstEqualIs(ms[k], listed, |listed| - 1);
      DiffStep(ms, k, listed);
      assert Without(listed, |listed| - 1) == ListedRows(rows, k + 1);
      OwnRowsAreOld(ms, rows, k + 1);
    }
  }

  /** Unmounting in reverse order removes row after row. */
  lemma {:induction false} LastInFirstOut(base: seq<Mount>, ms: seq<MountPoint>, rows: seq<Mount>, n: nat)
    requires n <= |ms| == |rows| && forall i :: 0 <= i < |ms| ==> rows[i].path == TargetOf(ms[i])
    ensures Swept(base + rows[..n], UmountCmdsOf(ms, n)) == base
    ensures Failures(base + rows[..n], UmountCmdsOf(ms, n)) == 0
  {
    if n == 0 {
      assert base + rows[..0] == base;
    } else {
      LastInFirstOut(base, ms, rows, n - 1);
      UmountOfLast(base + rows[..n - 1], rows[n - 1], UmountCmdsOf(ms, n - 1));
      assert base + rows[..n] == (base + rows[..n - 1]) + [rows[n - 1]];
    }
  }

  lemma UmountOfLast(t: seq<Mount>, m: Mount, cmds: seq<Cmd>)
    ensures Swept(t + [m], UmountCmd(m.path) + cmds) == Swept(t, cmds)
    ensures Failures(t + [m], UmountCmd(m.path) + cmds) == Failures(t, cmds)
  {
    assert (t + [m])[|t|] == m && (t + [m])[..|t|] == t;
    UmountOfMounted(t + [m], m.path);
    SweptConcat(t + [m], UmountCmd(m.path), cmds);
  }

  lemma UmountOfMounted(t: seq<Mount>, path: string)
    requires Mounted(t, path)
    ensures Swept(t, UmountCmd(path)) == Unmount(t, path) && Failures(t, UmountCmd(path)) == 0
  {
    var cmds := UmountCmd(path);
    assert cmds[..1][..0] == [] && cmds[..1] == [MakePrivate(path)];
    assert Swept(t, cmds[..1]) == t && Failures(t, cmds[..1]) == 0;
  }

  /**
   When nothing was mounted in the chroot before, all mounts succeed as asked and the chrooted commands leave none, the
   teardown restores the mount table and none of its commands fails.
   */
  lemma UndisturbedTeardown(chroot: string, base: seq<Mount>, attempts: seq<Attempt>)
    requires |attempts| == |ChrootMountPoints(chroot)| && AsAsked(ChrootMountPoints(chroot), attempts)
    requires Inside(base, chroot) == []
    ensures var ms := ChrootMountPoints(chroot);
            var t := AfterSetup(base, chroot, true, attempts);
            var cmds := TeardownCmds(chroot, ms, true, true, t);
            Swept(t, cmds) == base && Failures(t, cmds) == 0
  {
    var ms := ChrootMountPoints(chroot);
    LeadingIs(attempts, |attempts|);
    ChrootMountPointsDeclared(chroot);
    ChrootPathsAreDistinct(chroot);
    LifoTeardown(chroot, ms, base, attempts);
  }

  lemma OwnRowsAreInside(chroot: string, base: seq<Mount>, rows: seq<Mount>)
    requires Inside(base, chroot) == [] && forall i :: 0 <= i < |rows| ==> chroot <= rows[i].path
    ensures Inside(base + rows, chroot) == rows
  {
    InsideConcat(base, rows, chroot);
    AllInside(rows, chroot);
    assert [] + rows == rows;
  }

  lemma OwnRowsAreListed(chroot: string, base: seq<Mount>, rows: seq<Mount>)
    requires Inside(base + rows, chroot) == rows
    ensures Listed(base + rows, chroot) == ListedRows(rows, 0)
  {
    ListedIsInside(base + rows, chroot);
  }

  lemma NoneIsLate(chroot: string, ms: seq<MountPoint>, base: seq<Mount>, attempts: seq<Attempt>)
    requires |attempts| == |ms| && AsAsked(ms, attempts) && Declared(ms, chroot) && DistinctPaths(ms)
    requires Inside(base, chroot) == []
    ensures Diff(ms, Listed(base + RowsOf(ms, attempts, |ms|), chroot)) == []
  {
    var rows := RowsOf(ms, attempts, |ms|);
    OwnRowsAreInside(chroot, base, rows);
    OwnRowsAreListed(chroot, base, rows);
    forall i | 0 <= i < |ms| ensures Equal(ms[i], Described(rows[i])) {
      TargetIsPath(ms, chroot, i);
    }
    OwnRowsAreOld(ms, rows, 0);
    assert ms[0..] == ms;
  }

  lemma LifoTeardown(chroot: string, ms: seq<MountPoint>, base: seq<Mount>, attempts: seq<Attempt>)
    requires |attempts| == |ms| && AsAsked(ms, attempts) && Declared(ms, chroot) && DistinctPaths(ms)
    requires Inside(base, chroot) == []
    ensures var t := base + RowsOf(ms, attempts, |ms|);
            var cmds := TeardownCmds(chroot, ms, true, true, t);
            Swept(t, cmds) == base && Failures(t, cmds) == 0
  {
    var rows := RowsOf(ms, attempts, |ms|);
    var t, own := base + rows, UmountCmdsOf(ms, |ms|);
    NoneIsLate(chroot, ms, base, attempts);
    assert TeardownCmds(chroot, ms, true, true, t) == [Settle] + own;
    LastInFirstOut(base, ms, rows, |ms|);
    assert rows[..|ms|] == rows;
    SettleChangesNothing(t, own);
  }

  lemma SettleChangesNothing(t: seq<Mount>, cmds: seq<Cmd>)
    ensures Swept(t, [Settle] + cmds) == Swept(t, cmds) && Failures(t, [Settle] + cmds) == Failures(t, cmds)
  {
    SweptConcat(t, [Settle], cmds);
    assert [Settle][..0] == [];
    assert Swept(t, [Settle]) == t && Failures(t, [Settle]) == 0;
  }

  lemma ChrootPathsAreDistinct(chroot: string)
    ensures DistinctPaths(ChrootMountPoints(chroot))
  {
    var ms := ChrootMountPoints(chroot);
    forall i | 0 <= i < |ms| ensures PathOf(ms[i])[|chroot|..] == ms[i].relpath {
    }
    assert ms[0].relpath[1] == 'd' && |ms[0].relpath| == 4;
    assert ms[1].relpath[1] == 'd' && |ms[1].relpath| == 8;
    assert ms[2].relpath[1] == 'p' && ms[3].relpath[1] == 's' && ms[4].relpath[1] == 'r';
    assert forall i, j :: 0 <= i < j < |ms| ==> ms[i].relpath != ms[j].relpath;
  }

  // ----- a preparation that failed

  lemma DevIsTaken(chroot: string, dev: Mount)
    requires dev.path == chroot + "/dev" && dev.src == "devtmpfs-build" && dev.typ == "devtmpfs"
    ensures Equal(ChrootMountPoints(chroot)[0], Described(dev))
  {
  }

  lemma ChrootIsNotTaken(chroot: string, m: Mount)
    requires chroot != "" && m.path == chroot
    ensures forall i :: 0 <= i < |ChrootMountPoints(chroot)| ==> !Equal(ChrootMountPoints(chroot)[i], Described(m))
  {
    forall i | 0 <= i < |ChrootMountPoints(chroot)| ensures |PathOf(ChrootMountPoints(chroot)[i])| > |chroot| {
    }
  }

  lemma ListedOfTwo(m: Mount, n: Mount, chroot: string)
    requires chroot <= m.path && chroot <= n.path
    ensures Listed([n], chroot) == [Described(n)] && Listed([m, n], chroot) == [Described(n), Described(m)]
  {
    assert [n][..0] == [] && [m][..0] == [] && [m, n][..1] == [m];
    assert Listed([m], chroot) == [Described(m)];
  }

  /**
   A devtmpfs that an earlier build left in the chroot stays when the preparation fails; it goes when the chroot itself
   was a mount of that build.
   */
  lemma LeftoverMountStays(chroot: string, dev: Mount, root: Mount)
    requires chroot != "" && root.path == chroot
    requires dev.path == chroot + "/dev" && dev.src == "devtmpfs-build" && dev.typ == "devtmpfs"
    ensures !Covered(ChrootMountPoints(chroot), Listed([dev], chroot))
    ensures Covered(ChrootMountPoints(chroot), Listed([root, dev], chroot))
  {
    var olds := ChrootMountPoints(chroot);
    ListedOfTwo(root, dev, chroot);
    DevIsTaken(chroot, dev);
    ChrootIsNotTaken(chroot, root);
    assert |olds| > 0;
    CoverOfTwo(olds, Described(dev), Described(root));
  }
}
