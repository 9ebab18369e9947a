/** The kernel's mount table, and what `umount --recursive` does to it. */
module MountTable {

  /** One line of the kernel's mount table. */
  datatype Mount = Mount(src: string, path: string, typ: string, opts: string)

  datatype Cmd = MountCmd(src: string, target: string, typ: string, opts: seq<string>, bind: bool)
    | MakePrivate(path: string)
    | Umount(path: string)
    | Settle

  // ----- the mount table

  /** q is the directory `path` or lies below it. */
  predicate Below(path: string, q: string) {
    path <= q && (|q| == |path| || q[|path|] == '/')
  }

  function Count(t: seq<Mount>, q: string): nat {
    if t == [] then 0 else (if t[|t| - 1].path == q then 1 else 0) + Count(t[..|t| - 1], q)
  }

  /** The mounts whose path does not start with the chroot path. */
  function Outside(t: seq<Mount>, chroot: string): seq<Mount> {
    if t == [] then []
    else if chroot <= t[|t| - 1].path then Outside(t[..|t| - 1], chroot)
    else Outside(t[..|t| - 1], chroot) + [t[|t| - 1]]
  }

  /** The mounts that are not at or below a directory. */
  function Elsewhere(t: seq<Mount>, path: string): seq<Mount> {
    if t == [] then []
    else if Below(path, t[|t| - 1].path) then Elsewhere(t[..|t| - 1], path)
    else Elsewhere(t[..|t| - 1], path) + [t[|t| - 1]]
  }

  predicate Mounted(t: seq<Mount>, path: string) {
    exists i :: 0 <= i < |t| && t[i].path == path
  }

  /**
   `umount --recursive` on a path, when nothing but a missing mount makes it fail: the topmost mount at the path goes,
   with all mounts at or below the path that were made since.
   */
  function Unmount(t: seq<Mount>, path: string): seq<Mount> {
    if !Mounted(t, path) then t
    else if t[|t| - 1].path == path then t[..|t| - 1]
    else if Below(path, t[|t| - 1].path) then Unmount(t[..|t| - 1], path)
    else Unmount(t[..|t| - 1], path) + [t[|t| - 1]]
  }

  /**
   What clearing a chroot needs of it, and all that the theorems on clearing assume: it removes only mounts at or below
   the path, and at least one mount at the path when there is one.
   */
  ghost predicate Unmounted(before: seq<Mount>, after: seq<Mount>, path: string) {
    && Elsewhere(after, path) == Elsewhere(before, path)
    && (forall q :: Count(after, q) <= Count(before, q))
    && (Count(before, path) > 0 ==> Count(after, path) < Count(before, path))
  }

  /** The effect of a teardown command on the mount table; `mount --make-rprivate` only changes propagation. */
  ghost predicate Effect(cmd: Cmd, before: seq<Mount>, after: seq<Mount>) {
    if cmd.Umount? then Unmounted(before, after, cmd.path) else after == before
  }

  /** The commands were executed one after the other, each with its effect on the table before it. */
  ghost predicate Trace(cmds: seq<Cmd>, tables: seq<seq<Mount>>) {
    |tables| == |cmds| + 1 && forall i :: 0 <= i < |cmds| ==> Effect(cmds[i], tables[i], tables[i + 1])
  }

  /** The exact effect of a teardown command. */
  function After(cmd: Cmd, t: seq<Mount>): seq<Mount> {
    if cmd.Umount? then Unmount(t, cmd.path) else t
  }

  function Swept(t: seq<Mount>, cmds: seq<Cmd>): seq<Mount> {
    if cmds == [] then t else After(cmds[|cmds| - 1], Swept(t, cmds[..|cmds| - 1]))
  }

  /** Both commands on a path fail exactly when nothing is mounted there. */
  predicate Succeeds(cmd: Cmd, t: seq<Mount>) {
    match cmd
    case MakePrivate(path) => Mounted(t, path)
    case Umount(path) => Mounted(t, path)
    case _ => true
  }

  /** How many of the commands fail when they are all executed. */
  function Failures(t: seq<Mount>, cmds: seq<Cmd>): nat {
    if cmds == [] then 0
    else
      var n := |cmds| - 1;
      Failures(t, cmds[..n]) + if Succeeds(cmds[n], Swept(t, cmds[..n])) then 0 else 1
  }

  class Kernel {
    var table: seq<Mount>

    /** The kernel looks for the topmost mount at the path and removes it with what was mounted below it since. */
    method Exec(cmd: Cmd) returns (ok: bool)
      modifies this
      ensures table == After(cmd, old(table)) && Effect(cmd, old(table), table)
      ensures ok == Succeeds(cmd, old(table))
    {
      ok := true;
      if cmd.Umount? || cmd.MakePrivate? {
        var i := |table|;
        while i > 0 && table[i - 1].path != cmd.path
          invariant 0 <= i <= |table| && table == old(table)
          invariant forall k :: i <= k < |table| ==> table[k].path != cmd.path
        {
          i := i - 1;
        }
        ok := i > 0;
        if cmd.Umount? {
          UnmountIsUnmounted(table, cmd.path);
          if i > 0 {
            UnmountAt(table, i - 1);
            table := table[..i - 1] + Elsewhere(table[i..], cmd.path);
          }
        }
      }
    }

    method Attach(target: string, attempt: Attempt) returns (ok: bool)
      modifies this
      ensures ok == attempt.Mounts?
      ensures table == old(table) + Rows(target, attempt)
    {
      ok := attempt.Mounts?;
      if ok {
        table := table + [Mount(attempt.src, target, attempt.typ, attempt.opts)];
      }
    }
  }

  /** Whether a mount command succeeds, and how the table then describes the mount. */
  datatype Attempt = Fails | Mounts(src: string, typ: string, opts: string)

  function Rows(target: string, attempt: Attempt): seq<Mount> {
    if attempt.Fails? then [] else [Mount(attempt.src, target, attempt.typ, attempt.opts)]
  }

  lemma CountOfOne(m: Mount, q: string)
    ensures Count([m], q) == if m.path == q then 1 else 0
  {
    assert [m][..0] == [];
  }

  lemma ElsewhereOfOne(m: Mount, path: string)
    ensures Elsewhere([m], path) == if Below(path, m.path) then [] else [m]
  {
    assert [m][..0] == [];
  }

  lemma {:induction false} NoneAt(t: seq<Mount>, q: string)
    requires forall k :: 0 <= k < |t| ==> t[k].path != q
    ensures Count(t, q) == 0
  {
    if t != [] {
      NoneAt(t[..|t| - 1], q);
    }
  }

  lemma {:induction false} CountConcat(a: seq<Mount>, b: seq<Mount>, q: string)
    ensures Count(a + b, q) == Count(a, q) + Count(b, q)
  {
    if b == [] {
      assert a + b == a;
    } else {
      CountConcat(a, b[..|b| - 1], q);
      assert (a + b)[..|a + b| - 1] == a + b[..|b| - 1];
    }
  }

  lemma {:induction false} ElsewhereConcat(a: seq<Mount>, b: seq<Mount>, path: string)
    ensures Elsewhere(a + b, path) == Elsewhere(a, path) + Elsewhere(b, path)
  {
    if b == [] {
      assert a + b == a;
    } else {
      ElsewhereConcat(a, b[..|b| - 1], path);
      assert (a + b)[..|a + b| - 1] == a + b[..|b| - 1];
    }
  }

  lemma {:induction false} ElsewhereTwice(t: seq<Mount>, path: string)
    ensures Elsewhere(Elsewhere(t, path), path) == Elsewhere(t, path)
  {
    if t != [] {
      ElsewhereTwice(t[..|t| - 1], path);
      if !Below(path, t[|t| - 1].path) {
        ElsewhereConcat(Elsewhere(t[..|t| - 1], path), [t[|t| - 1]], path);
        ElsewhereOfOne(t[|t| - 1], path);
      }
    }
  }

  lemma {:induction false} ElsewhereCounts(t: seq<Mount>, path: string, q: string)
    ensures Count(Elsewhere(t, path), q) <= Count(t, q)
  {
    if t != [] {
      ElsewhereCounts(t[..|t| - 1], path, q);
      if !Below(path, t[|t| - 1].path) {
        CountConcat(Elsewhere(t[..|t| - 1], path), [t[|t| - 1]], q);
        CountOfOne(t[|t| - 1], q);
      }
    }
  }

  lemma TopmostUnmounted(t: seq<Mount>, i: nat)
    requires i < |t|
    ensures Unmounted(t, t[..i] + Elsewhere(t[i + 1..], t[i].path), t[i].path)
  {
    var path, rest := t[i].path, t[i + 1..];
    var after := t[..i] + Elsewhere(rest, path);
    assert t == t[..i] + ([t[i]] + rest);
    OneIsElsewhere(t[..i], t[i], rest);
    forall q ensures Count(after, q) + (if q == path then 1 else 0) <= Count(t, q) {
      OneIsCounted(t[..i], t[i], rest, q);
    }
  }

  lemma OneIsElsewhere(a: seq<Mount>, m: Mount, rest: seq<Mount>)
    ensures Elsewhere(a + ([m] + rest), m.path) == Elsewhere(a + Elsewhere(rest, m.path), m.path)
  {
    ElsewhereConcat(a, [m] + rest, m.path);
    ElsewhereConcat([m], rest, m.path);
    ElsewhereConcat(a, Elsewhere(rest, m.path), m.path);
    ElsewhereTwice(rest, m.path);
    ElsewhereOfOne(m, m.path);
    assert [] + Elsewhere(rest, m.path) == Elsewhere(rest, m.path);
  }

  lemma OneIsCounted(a: seq<Mount>, m: Mount, rest: seq<Mount>, q: string)
    ensures Count(a + Elsewhere(rest, m.path), q) + (if q == m.path then 1 else 0) <= Count(a + ([m] + rest), q)
  {
    CountConcat(a, [m] + rest, q);
    CountConcat([m], rest, q);
    CountOfOne(m, q);
    CountConcat(a, Elsewhere(rest, m.path), q);
    ElsewhereCounts(rest, m.path, q);
  }

  /** The topmost mount at its path is at position i. */
  lemma {:induction false} UnmountAt(t: seq<Mount>, i: nat)
    requires i < |t| && forall k :: i < k < |t| ==> t[k].path != t[i].path
    ensures Unmount(t, t[i].path) == t[..i] + Elsewhere(t[i + 1..], t[i].path)
  {
    var n := |t| - 1;
    if i < n {
      UnmountAt(t[..n], i);
      assert t[i + 1..][..n - i - 1] == t[..n][i + 1..] && t[i + 1..][n - i - 1] == t[n];
      assert t[..n][..i] == t[..i];
    } else {
      assert t[i + 1..] == [];
    }
  }

  lemma UnmountIsUnmounted(t: seq<Mount>, path: string)
    ensures Unmounted(t, Unmount(t, path), path)
  {
    if Mounted(t, path) {
      var i := Topmost(t, path);
      UnmountAt(t, i);
      TopmostUnmounted(t, i);
    } else {
      NoneAt(t, path);
    }
  }

  lemma {:induction false} Topmost(t: seq<Mount>, path: string) returns (i: nat)
    requires Mounted(t, path)
    ensures i < |t| && t[i].path == path && forall k :: i < k < |t| ==> t[k].path != path
  {
    if t[|t| - 1].path == path {
      i := |t| - 1;
    } else {
      i := Topmost(t[..|t| - 1], path);
    }
  }

  lemma {:induction false} SweptConcat(t: seq<Mount>, a: seq<Cmd>, b: seq<Cmd>)
    ensures Swept(t, a + b) == Swept(Swept(t, a), b)
    ensures Failures(t, a + b) == Failures(t, a) + Failures(Swept(t, a), b)
  {
    if b == [] {
      assert a + b == a;
    } else {
      SweptConcat(t, a, b[..|b| - 1]);
      assert (a + b)[..|a + b| - 1] == a + b[..|b| - 1];
    }
  }

  /** The tables between the commands. */
  lemma {:induction false} SweptTrace(t: seq<Mount>, cmds: seq<Cmd>) returns (tables: seq<seq<Mount>>)
    ensures Trace(cmds, tables) && tables[0] == t && tables[|cmds|] == Swept(t, cmds)
  {
    if cmds == [] {
      tables := [t];
    } else {
      var n := |cmds| - 1;
      var before := SweptTrace(t, cmds[..n]);
      tables := before + [Swept(t, cmds)];
      if cmds[n].Umount? {
        UnmountIsUnmounted(before[n], cmds[n].path);
      }
      forall i | 0 <= i < |cmds| ensures Effect(cmds[i], tables[i], tables[i + 1]) {
        if i < n {
          assert Effect(cmds[..n][i], before[i], before[i + 1]);
        }
      }
    }
  }

  // ----- inside and outside

  /** All unmounted paths start with the chroot path. */
  ghost predicate StaysIn(cmds: seq<Cmd>, chroot: string) {
    forall i :: 0 <= i < |cmds| && cmds[i].Umount? ==> chroot <= cmds[i].path
  }

  lemma {:induction false} OutsideOfElsewhere(t: seq<Mount>, chroot: string, path: string)
    requires chroot <= path
    ensures Outside(Elsewhere(t, path), chroot) == Outside(t, chroot)
  {
    if t != [] {
      var m, e := t[|t| - 1], Elsewhere(t[..|t| - 1], path);
      OutsideOfElsewhere(t[..|t| - 1], chroot, path);
      if Below(path, m.path) {
        assert chroot == path[..|chroot|] == m.path[..|chroot|];
      } else {
        assert (e + [m])[..|e|] == e;
      }
    }
  }

  lemma {:induction false} PresentIsCounted(t: seq<Mount>, i: nat)
    requires i < |t|
    ensures Count(t, t[i].path) > 0
  {
    if i < |t| - 1 {
      PresentIsCounted(t[..|t| - 1], i);
    }
  }

  lemma {:induction false} AllOutside(t: seq<Mount>, chroot: string)
    requires forall i :: 0 <= i < |t| ==> !(chroot <= t[i].path)
    ensures Outside(t, chroot) == t
  {
    if t != [] {
      AllOutside(t[..|t| - 1], chroot);
      assert t == t[..|t| - 1] + [t[|t| - 1]];
    }
  }

  /** The mounts whose path starts with the chroot path. */
  function Inside(t: seq<Mount>, chroot: string): seq<Mount> {
    if t == [] then []
    else if chroot <= t[|t| - 1].path then Inside(t[..|t| - 1], chroot) + [t[|t| - 1]]
    else Inside(t[..|t| - 1], chroot)
  }

  lemma {:induction false} InsideMembers(t: seq<Mount>, chroot: string)
    ensures forall m :: m in Inside(t, chroot) <==> m in t && chroot <= m.path
  {
    if t != [] {
      InsideMembers(t[..|t| - 1], chroot);
      assert t == t[..|t| - 1] + [t[|t| - 1]];
    }
  }

  lemma MountedInside(t: seq<Mount>, chroot: string, path: string)
    requires chroot <= path
    ensures Mounted(Inside(t, chroot), path) == Mounted(t, path)
  {
    InsideMembers(t, chroot);
    if Mounted(t, path) {
      var i := Topmost(t, path);
      assert t[i] in Inside(t, chroot);
    }
    if Mounted(Inside(t, chroot), path) {
      var i := Topmost(Inside(t, chroot), path);
      assert Inside(t, chroot)[i] in t;
    }
  }

  lemma {:induction false} InsideOfUnmount(t: seq<Mount>, chroot: string, path: string)
    requires chroot <= path
    ensures Inside(Unmount(t, path), chroot) == Unmount(Inside(t, chroot), path)
  {
    MountedInside(t, chroot, path);
    if Mounted(t, path) && t[|t| - 1].path != path {
      var m, init := t[|t| - 1], t[..|t| - 1];
      InsideOfUnmount(init, chroot, path);
      assert (Inside(init, chroot) + [m])[..|Inside(init, chroot)|] == Inside(init, chroot);
      assert (Unmount(init, path) + [m])[..|Unmount(init, path)|] == Unmount(init, path);
    }
  }

  /** Commands that stay in the chroot do to its mounts what they do to the table, and keep the other mounts. */
  lemma {:induction false} SweptInside(t: seq<Mount>, cmds: seq<Cmd>, chroot: string)
    requires StaysIn(cmds, chroot)
    ensures Inside(Swept(t, cmds), chroot) == Swept(Inside(t, chroot), cmds)
    ensures Outside(Swept(t, cmds), chroot) == Outside(t, chroot)
  {
    if cmds != [] {
      var n := |cmds| - 1;
      var before, cmd := Swept(t, cmds[..n]), cmds[n];
      SweptInside(t, cmds[..n], chroot);
      if cmd.Umount? {
        InsideOfUnmount(before, chroot, cmd.path);
        UnmountIsUnmounted(before, cmd.path);
        OutsideOfElsewhere(before, chroot, cmd.path);
        OutsideOfElsewhere(Unmount(before, cmd.path), chroot, cmd.path);
      }
    }
  }

  lemma {:induction false} OutsideMembers(t: seq<Mount>, chroot: string)
    ensures forall m :: m in Outside(t, chroot) <==> m in t && !(chroot <= m.path)
  {
    if t != [] {
      OutsideMembers(t[..|t| - 1], chroot);
      assert t == t[..|t| - 1] + [t[|t| - 1]];
    }
  }

  lemma ClearIsEmptyInside(after: seq<Mount>, t: seq<Mount>, chroot: string)
    requires Outside(after, chroot) == Outside(t, chroot)
    ensures after == Outside(t, chroot) <==> Inside(after, chroot) == []
  {
    InsideMembers(after, chroot);
    OutsideMembers(after, chroot);
    if Inside(after, chroot) == [] {
      forall i | 0 <= i < |after| ensures !(chroot <= after[i].path) {
        assert after[i] in after;
      }
      AllOutside(after, chroot);
    } else {
      assert Inside(after, chroot)[0] in after;
    }
  }

  lemma {:induction false} ElsewhereMembers(t: seq<Mount>, path: string)
    ensures forall m :: m in Elsewhere(t, path) <==> m in t && !Below(path, m.path)
  {
    if t != [] {
      ElsewhereMembers(t[..|t| - 1], path);
      assert t == t[..|t| - 1] + [t[|t| - 1]];
    }
  }

  lemma {:induction false} UnmountMembers(t: seq<Mount>, path: string)
    ensures forall m :: m in Unmount(t, path) ==> m in t
    ensures forall m :: m in t && !Below(path, m.path) ==> m in Unmount(t, path)
  {
    if Mounted(t, path) {
      UnmountMembers(t[..|t| - 1], path);
      assert t == t[..|t| - 1] + [t[|t| - 1]];
    }
  }

  lemma MountedConcat(a: seq<Mount>, b: seq<Mount>, path: string)
    ensures Mounted(a + b, path) == (Mounted(a, path) || Mounted(b, path))
  {
    if Mounted(a, path) {
      var i := Topmost(a, path);
      assert (a + b)[i].path == path;
    }
    if Mounted(b, path) {
      var i := Topmost(b, path);
      assert (a + b)[|a| + i].path == path;
    }
  }

  /** The unmount reaches the earlier mounts only when the later ones have none at the path. */
  lemma {:induction false} UnmountConcat(a: seq<Mount>, b: seq<Mount>, path: string)
    requires Mounted(a, path)
    ensures Unmount(a + b, path) ==
            if Mounted(b, path) then a + Unmount(b, path) else Unmount(a, path) + Elsewhere(b, path)
  {
    MountedConcat(a, b, path);
    if b == [] {
      assert a + b == a;
    } else {
      var init, m := b[..|b| - 1], b[|b| - 1];
      UnmountConcat(a, init, path);
      assert (a + b)[..|a + b| - 1] == a + init && (a + b)[|a + b| - 1] == m;
      MountedConcat(init, [m], path);
      assert b == init + [m];
    }
  }

  lemma {:induction false} InsideConcat(a: seq<Mount>, b: seq<Mount>, chroot: string)
    ensures Inside(a + b, chroot) == Inside(a, chroot) + Inside(b, chroot)
  {
    if b == [] {
      assert a + b == a;
    } else {
      InsideConcat(a, b[..|b| - 1], chroot);
      assert (a + b)[..|a + b| - 1] == a + b[..|b| - 1];
    }
  }

  lemma {:induction false} AllInside(t: seq<Mount>, chroot: string)
    requires forall i :: 0 <= i < |t| ==> chroot <= t[i].path
    ensures Inside(t, chroot) == t
  {
    if t != [] {
      AllInside(t[..|t| - 1], chroot);
      assert t == t[..|t| - 1] + [t[|t| - 1]];
    }
  }
}
