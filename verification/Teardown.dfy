/**
 Tearing down the mounts of a chroot, whatever failed before: parseMounts, umountAddedMountPointsCmds and
 execTeardownCmds.
 */
module Teardown {
  import opened MountDiff
  import opened MountTable
  import opened Quantities
  import opened Text

  // ----- teardown commands

  function UmountCmd(path: string): seq<Cmd> {
    [MakePrivate(path), Umount(path)]
  }

  function TargetOf(m: MountPoint): string {
    JoinPath(m.basePath, m.relpath)
  }

  /** The LIFO list of unmount commands for the first n mount points. */
  function UmountCmdsOf(ms: seq<MountPoint>, n: nat): seq<Cmd>
    requires n <= |ms|
  {
    if n == 0 then [] else UmountCmd(TargetOf(ms[n - 1])) + UmountCmdsOf(ms, n - 1)
  }

  /** The unmount commands for mounts that were found late, in the order found. */
  function AddedUmounts(ms: seq<MountPoint>): seq<Cmd> {
    if ms == [] then [] else AddedUmounts(ms[..|ms| - 1]) + UmountCmd(ms[|ms| - 1].path)
  }

  function Described(m: Mount): MountPoint {
    MountPoint(m.src, m.path, "", "", m.typ, Split(m.opts, ','), false)
  }

  /** The mounts whose path starts with the given one, the latest first. */
  function Listed(t: seq<Mount>, path: string): seq<MountPoint> {
    if t == [] then []
    else if path <= t[|t| - 1].path then [Described(t[|t| - 1])] + Listed(t[..|t| - 1], path)
    else Listed(t[..|t| - 1], path)
  }

  /** parseMounts indexes the first four fields of every line that is not empty. */
  predicate Parseable(lines: seq<string>) {
    forall i :: 0 <= i < |lines| && lines[i] != "" ==> |Fields(lines[i])| >= 4
  }

  /** The mount points on the lines whose path starts with the given one, the latest first. */
  function Parsed(lines: seq<string>, path: string): seq<MountPoint>
    requires Parseable(lines)
  {
    if lines == [] then []
    else
      var before, line := Parsed(lines[..|lines| - 1], path), lines[|lines| - 1];
      if line == "" || !(path <= Fields(line)[1]) then before
      else
        var fields := Fields(line);
        [MountPoint(fields[0], fields[1], "", "", fields[2], Split(fields[3], ','), false)] + before
  }

  method ParseMounts(procMount: string, path: string) returns (mountPoints: seq<MountPoint>)
    requires Parseable(Split(procMount, '\n'))
    ensures mountPoints == Parsed(Split(procMount, '\n'), path)
  {
    mountPoints := [];
    var mountLines := Split(procMount, '\n');
    for i := 0 to |mountLines|
      invariant mountPoints == Parsed(mountLines[..i], path)
    {
      var line := mountLines[i];
      assert mountLines[..i + 1][..i] == mountLines[..i];
      if line == "" {
        continue;
      }
      var fields := Fields(line);
      var mountPath := fields[1];
      if |path| != 0 && !(path <= mountPath) {
        continue;
      }
      var m := MountPoint(fields[0], mountPath, "", "", fields[2], Split(fields[3], ','), false);
      mountPoints := [m] + mountPoints;
    }
    assert mountLines[..|mountLines|] == mountLines;
  }

  /** The text that a kernel shows of its table reads as that table. */
  ghost predicate Shows(text: string, t: seq<Mount>, path: string) {
    Parseable(Split(text, '\n')) && Parsed(Split(text, '\n'), path) == Listed(t, path)
  }

  /** A line of /proc/self/mounts. */
  function MountLine(m: Mount): string {
    Join([m.src, m.path, m.typ, m.opts, "0", "0"], " ")
  }

  function MountLines(t: seq<Mount>): (r: seq<string>)
    ensures |r| == |t| && forall i :: 0 <= i < |t| ==> r[i] == MountLine(t[i])
  {
    seq(|t|, i requires 0 <= i < |t| => MountLine(t[i]))
  }

  function MountText(t: seq<Mount>): string {
    if t == [] then "" else Join(MountLines(t), "\n") + "\n"
  }

  /** Every field is a word, as the kernel escapes white space. */
  predicate InWords(t: seq<Mount>) {
    forall i :: 0 <= i < |t| ==> IsWord(t[i].src) && IsWord(t[i].path) && IsWord(t[i].typ) && IsWord(t[i].opts)
  }

  lemma MountLineFields(m: Mount)
    requires IsWord(m.src) && IsWord(m.path) && IsWord(m.typ) && IsWord(m.opts)
    ensures Fields(MountLine(m)) == [m.src, m.path, m.typ, m.opts, "0", "0"]
    ensures '\n' !in MountLine(m) && MountLine(m) != ""
  {
    var words := [m.src, m.path, m.typ, m.opts, "0", "0"];
    FieldsJoin(words, ' ');
    JoinOfWordsHas(words, ' ', '\n');
  }

  lemma {:induction false} LinesAreListed(t: seq<Mount>, path: string)
    requires InWords(t)
    ensures Parseable(MountLines(t)) && Parsed(MountLines(t), path) == Listed(t, path)
  {
    if t != [] {
      var n := |t| - 1;
      LinesAreListed(t[..n], path);
      MountLineFields(t[n]);
      assert MountLines(t)[..n] == MountLines(t[..n]);
      forall i | 0 <= i < |t| ensures |Fields(MountLines(t)[i])| >= 4 {
        MountLineFields(t[i]);
      }
    }
  }

  /** Reading the text of a table gives its mounts back. */
  lemma MountTextShows(t: seq<Mount>, path: string)
    requires InWords(t)
    ensures Shows(MountText(t), t, path)
  {
    LinesAreListed(t, path);
    if t == [] {
      SplitOfPiece("", '\n');
      assert [""][..0] == [];
    } else {
      forall i | 0 <= i < |t| ensures '\n' !in MountLines(t)[i] {
        MountLineFields(t[i]);
      }
      SplitOfFile(MountLines(t));
      var lines := MountLines(t) + [""];
      assert lines[..|lines| - 1] == MountLines(t);
    }
  }

  /** None when the mount table cannot be read; then no late mounts are known. */
  method UmountAddedMountPointsCmds(procMount: Option<string>, ghost t: seq<Mount>, path: string,
                                    mountPoints: seq<MountPoint>)
    returns (cmds: seq<Cmd>)
    requires procMount.Some? ==> Shows(procMount.value, t, path)
    ensures cmds == if procMount.Some? then AddedUmounts(Diff(mountPoints, Listed(t, path))) else []
  {
    cmds := [];
    if procMount.None? {
      return;
    }
    var listed := ParseMounts(procMount.value, path);
    var currents := new MountPoint[|listed|](i requires 0 <= i < |listed| => listed[i]);
    assert currents[..] == listed;
    var n := DiffMountPoints(mountPoints, currents);
    var added := currents[..n];
    for i := 0 to |added|
      invariant cmds == AddedUmounts(added[..i])
    {
      assert added[..i + 1][..i] == added[..i];
      cmds := cmds + UmountCmd(added[i].path);
    }
    assert added[..|added|] == added;
  }
  /** Every command is executed, whatever failed before. */
  method ExecTeardownCmds(k: Kernel, cmds: seq<Cmd>) returns (failures: nat)
    modifies k
    ensures k.table == Swept(old(k.table), cmds) && failures == Failures(old(k.table), cmds)
  {
    failures := 0;
    for i := 0 to |cmds|
      invariant k.table == Swept(old(k.table), cmds[..i]) && failures == Failures(old(k.table), cmds[..i])
    {
      assert cmds[..i + 1][..i] == cmds[..i];
      var ok := k.Exec(cmds[i]);
      if !ok {
        failures := failures + 1;
      }
    }
    assert cmds[..|cmds|] == cmds;
  }

  // ----- counting

  /** How often the commands unmount a path. */
  function Umounts(cmds: seq<Cmd>, q: string): nat {
    if cmds == [] then 0
    else (if cmds[|cmds| - 1] == Umount(q) then 1 else 0) + Umounts(cmds[..|cmds| - 1], q)
  }

  lemma {:induction false} UmountsConcat(a: seq<Cmd>, b: seq<Cmd>, q: string)
    ensures Umounts(a + b, q) == Umounts(a, q) + Umounts(b, q)
  {
    if b == [] {
      assert a + b == a;
    } else {
      UmountsConcat(a, b[..|b| - 1], q);
      assert (a + b)[..|a + b| - 1] == a + b[..|b| - 1];
    }
  }

  lemma UmountsOfOne(path: string, q: string)
    ensures Umounts(UmountCmd(path), q) == if path == q then 1 else 0
  {
    var cmds := UmountCmd(path);
    assert cmds[..1][..0] == [];
    assert Umounts(cmds[..1], q) == 0;
  }

  function PathCount(ms: seq<MountPoint>, q: string): nat {
    if ms == [] then 0 else (if PathOf(ms[|ms| - 1]) == q then 1 else 0) + PathCount(ms[..|ms| - 1], q)
  }

  lemma {:induction false} PathCountConcat(a: seq<MountPoint>, b: seq<MountPoint>, q: string)
    ensures PathCount(a + b, q) == PathCount(a, q) + PathCount(b, q)
  {
    if b == [] {
      assert a + b == a;
    } else {
      PathCountConcat(a, b[..|b| - 1], q);
      assert (a + b)[..|a + b| - 1] == a + b[..|b| - 1];
    }
  }

  lemma PathCountOfOne(m: MountPoint, q: string)
    ensures PathCount([m], q) == if PathOf(m) == q then 1 else 0
  {
    assert [m][..0] == [];
  }

  lemma {:induction false} UmountsOfAdded(ms: seq<MountPoint>, q: string)
    requires forall i :: 0 <= i < |ms| ==> PathOf(ms[i]) == ms[i].path
    ensures Umounts(AddedUmounts(ms), q) == PathCount(ms, q)
  {
    if ms != [] {
      UmountsOfAdded(ms[..|ms| - 1], q);
      UmountsConcat(AddedUmounts(ms[..|ms| - 1]), UmountCmd(ms[|ms| - 1].path), q);
      UmountsOfOne(ms[|ms| - 1].path, q);
    }
  }

  /** Mount points declared by the program name a directory of the chroot. */
  predicate Declared(ms: seq<MountPoint>, chroot: string) {
    forall i :: 0 <= i < |ms| ==> ms[i].path == "" && chroot <= TargetOf(ms[i])
  }

  lemma TargetIsPath(ms: seq<MountPoint>, chroot: string, i: nat)
    requires i < |ms| && Declared(ms, chroot)
    ensures PathOf(ms[i]) == TargetOf(ms[i])
  {
  }

  lemma {:induction false} UmountsOfDeclared(ms: seq<MountPoint>, chroot: string, n: nat, q: string)
    requires n <= |ms| && Declared(ms, chroot)
    ensures Umounts(UmountCmdsOf(ms, n), q) == PathCount(ms[..n], q)
  {
    if n > 0 {
      UmountsOfDeclared(ms, chroot, n - 1, q);
      UmountsConcat(UmountCmd(TargetOf(ms[n - 1])), UmountCmdsOf(ms, n - 1), q);
      UmountsOfOne(TargetOf(ms[n - 1]), q);
      TargetIsPath(ms, chroot, n - 1);
      assert ms[..n][..n - 1] == ms[..n - 1] && ms[..n][n - 1] == ms[n - 1];
    }
  }

  lemma {:induction false} CountOfListed(t: seq<Mount>, chroot: string, q: string)
    requires chroot <= q
    ensures PathCount(Listed(t, chroot), q) == Count(t, q)
  {
    if t != [] {
      CountOfListed(t[..|t| - 1], chroot, q);
      if chroot <= t[|t| - 1].path {
        PathCountConcat([Described(t[|t| - 1])], Listed(t[..|t| - 1], chroot), q);
        PathCountOfOne(Described(t[|t| - 1]), q);
      }
    }
  }

  lemma PathCountWithout(o: MountPoint, ls: seq<MountPoint>, q: string)
    ensures var rest := Without(ls, FirstEqual(o, ls));
            PathCount(ls, q) <= PathCount(rest, q) + if PathOf(o) == q then 1 else 0
  {
    var i := FirstEqual(o, ls);
    if i < |ls| {
      assert ls == ls[..i] + ([ls[i]] + ls[i + 1..]);
      PathCountConcat(ls[..i], [ls[i]] + ls[i + 1..], q);
      PathCountConcat([ls[i]], ls[i + 1..], q);
      PathCountConcat(ls[..i], ls[i + 1..], q);
      PathCountOfOne(ls[i], q);
    }
  }

  /** The difference leaves at least as many mounts at a path as there are beyond those declared there. */
  lemma {:induction false} PathCountOfDiff(olds: seq<MountPoint>, ls: seq<MountPoint>, q: string)
    ensures PathCount(ls, q) <= PathCount(Diff(olds, ls), q) + PathCount(olds, q)
  {
    if olds != [] {
      var rest := Without(ls, FirstEqual(olds[0], ls));
      PathCountWithout(olds[0], ls, q);
      PathCountOfDiff(olds[1..], rest, q);
      assert olds == [olds[0]] + olds[1..];
      PathCountConcat([olds[0]], olds[1..], q);
      PathCountOfOne(olds[0], q);
    }
  }

  lemma {:induction false} DiffKeepsMembers(olds: seq<MountPoint>, ls: seq<MountPoint>)
    ensures forall m :: m in Diff(olds, ls) ==> m in ls
  {
    if olds != [] {
      DiffKeepsMembers(olds[1..], Without(ls, FirstEqual(olds[0], ls)));
    }
  }

  lemma {:induction false} ListedMembers(t: seq<Mount>, chroot: string)
    ensures forall m :: m in Listed(t, chroot) ==> PathOf(m) == m.path && chroot <= m.path
  {
    if t != [] {
      ListedMembers(t[..|t| - 1], chroot);
    }
  }

  // ----- the teardown as a whole

  lemma {:induction false} TraceCounts(cmds: seq<Cmd>, tables: seq<seq<Mount>>, n: nat, q: string)
    requires Trace(cmds, tables) && n <= |cmds|
    ensures Count(tables[n], q) <= SafeSubtract(Count(tables[0], q), Umounts(cmds[..n], q))
  {
    if n > 0 {
      TraceCounts(cmds, tables, n - 1, q);
      assert cmds[..n][..n - 1] == cmds[..n - 1];
      assert Effect(cmds[n - 1], tables[n - 1], tables[n]);
    }
  }

  lemma {:induction false} TraceStaysIn(cmds: seq<Cmd>, tables: seq<seq<Mount>>, n: nat, chroot: string)
    requires Trace(cmds, tables) && StaysIn(cmds, chroot) && n <= |cmds|
    ensures Outside(tables[n], chroot) == Outside(tables[0], chroot)
  {
    if n > 0 {
      TraceStaysIn(cmds, tables, n - 1, chroot);
      assert Effect(cmds[n - 1], tables[n - 1], tables[n]);
      if cmds[n - 1].Umount? {
        OutsideOfElsewhere(tables[n - 1], chroot, cmds[n - 1].path);
        OutsideOfElsewhere(tables[n], chroot, cmds[n - 1].path);
      }
    }
  }

  /**
   The whole teardown list, executed on any mount table, leaves exactly the mounts outside the chroot: none whose path
   starts with the chroot path, and all the others as they were. `own` holds at least one unmount for every declared
   mount point.
   */
  lemma TeardownClears(chroot: string, olds: seq<MountPoint>, own: seq<Cmd>, tables: seq<seq<Mount>>)
    requires StaysIn(own, chroot) && forall q :: PathCount(olds, q) <= Umounts(own, q)
    requires tables != [] && Trace(AddedUmounts(Diff(olds, Listed(tables[0], chroot))) + own, tables)
    ensures tables[|tables| - 1] == Outside(tables[0], chroot)
  {
    var before, after := tables[0], tables[|tables| - 1];
    var added := Diff(olds, Listed(before, chroot));
    var cmds := AddedUmounts(added) + own;
    ListedMembers(before, chroot);
    DiffKeepsMembers(olds, Listed(before, chroot));
    AddedStaysIn(added, chroot);
    TraceStaysIn(cmds, tables, |cmds|, chroot);
    forall i | 0 <= i < |after| ensures !(chroot <= after[i].path) {
      var q := after[i].path;
      PresentIsCounted(after, i);
      if chroot <= q {
        TraceCounts(cmds, tables, |cmds|, q);
        assert cmds[..|cmds|] == cmds;
        UmountsConcat(AddedUmounts(added), own, q);
        UmountsOfAdded(added, q);
        CountOfListed(before, chroot, q);
        PathCountOfDiff(olds, Listed(before, chroot), q);
      }
    }
    AllOutside(after, chroot);
  }

  lemma {:induction false} AddedStaysIn(ms: seq<MountPoint>, chroot: string)
    requires forall m :: m in ms ==> chroot <= m.path
    ensures StaysIn(AddedUmounts(ms), chroot)
  {
    if ms != [] {
      assert ms[|ms| - 1] in ms && forall m :: m in ms[..|ms| - 1] ==> m in ms;
      AddedStaysIn(ms[..|ms| - 1], chroot);
    }
  }

  lemma {:induction false} DeclaredStaysIn(ms: seq<MountPoint>, chroot: string, n: nat)
    requires n <= |ms| && Declared(ms, chroot)
    ensures StaysIn(UmountCmdsOf(ms, n), chroot)
  {
    if n > 0 {
      DeclaredStaysIn(ms, chroot, n - 1);
    }
  }

  lemma {:induction false} OwnUmountsSuffice(chroot: string, mountPoints: seq<MountPoint>)
    requires Declared(mountPoints, chroot)
    ensures var own := [Settle] + UmountCmdsOf(mountPoints, |mountPoints|);
            StaysIn(own, chroot) && forall q :: PathCount(mountPoints, q) <= Umounts(own, q)
  {
    var own := UmountCmdsOf(mountPoints, |mountPoints|);
    DeclaredStaysIn(mountPoints, chroot, |mountPoints|);
    forall q ensures PathCount(mountPoints, q) <= Umounts([Settle] + own, q) {
      UmountsConcat([Settle], own, q);
      UmountsOfDeclared(mountPoints, chroot, |mountPoints|, q);
      assert mountPoints[..|mountPoints|] == mountPoints;
    }
  }

  /** The teardown list: the late mounts first, then the program's own, when those were prepared. */
  function TeardownCmds(chroot: string, mountPoints: seq<MountPoint>, readable: bool, prepared: bool, t: seq<Mount>)
    : seq<Cmd>
  {
    (if readable then AddedUmounts(Diff(mountPoints, Listed(t, chroot))) else [])
    + (if prepared then [Settle] + UmountCmdsOf(mountPoints, |mountPoints|) else [])
  }

  lemma TeardownStaysIn(chroot: string, mountPoints: seq<MountPoint>, readable: bool, own: seq<Cmd>,
                        tables: seq<seq<Mount>>)
    requires Declared(mountPoints, chroot)
    requires own == [] || own == [Settle] + UmountCmdsOf(mountPoints, |mountPoints|)
    requires tables != []
    requires Trace((if readable then AddedUmounts(Diff(mountPoints, Listed(tables[0], chroot))) else []) + own, tables)
    ensures Outside(tables[|tables| - 1], chroot) == Outside(tables[0], chroot)
  {
    var late := Diff(mountPoints, Listed(tables[0], chroot));
    var cmds := (if readable then AddedUmounts(late) else []) + own;
    ListedMembers(tables[0], chroot);
    DiffKeepsMembers(mountPoints, Listed(tables[0], chroot));
    AddedStaysIn(late, chroot);
    OwnUmountsSuffice(chroot, mountPoints);
    TraceStaysIn(cmds, tables, |cmds|, chroot);
  }
}
