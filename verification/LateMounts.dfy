/** What a teardown without unmounts of the program's own leaves behind. */
module LateMounts {
  import opened MountDiff
  import opened MountTable
  import opened Sequences
  import opened Teardown
  import opened Text

  lemma {:induction false} ListedIsInside(t: seq<Mount>, chroot: string)
    ensures |Listed(t, chroot)| == |Inside(t, chroot)|
    ensures forall i :: 0 <= i < |Listed(t, chroot)| ==>
              Listed(t, chroot)[i] == Described(Inside(t, chroot)[|Inside(t, chroot)| - 1 - i])
  {
    if t != [] {
      ListedIsInside(t[..|t| - 1], chroot);
    }
  }

  /** What became of the last i mounts of `ins` when those at the kept positions, the latest first, were unmounted. */
  function Left(ins: seq<Mount>, kept: seq<nat>, i: nat): seq<Mount>
    requires i <= |ins|
  {
    if i == 0 then []
    else
      var m := ins[|ins| - i];
      if i - 1 !in kept then [m] + Left(ins, kept, i - 1)
      else
        var rest := Left(ins, kept, i - 1);
        if Mounted(rest, m.path) then [m] + Unmount(rest, m.path) else Elsewhere(rest, m.path)
  }

  /** The kept positions below i. */
  function Under(kept: seq<nat>, i: nat): seq<nat> {
    if kept == [] then []
    else if kept[|kept| - 1] < i then kept
    else Under(kept[..|kept| - 1], i)
  }

  lemma {:induction false} UnderStep(kept: seq<nat>, i: nat)
    requires Increasing(kept)
    ensures Under(kept, i + 1) == if i in kept then Under(kept, i) + [i] else Under(kept, i)
  {
    if kept != [] {
      var n := |kept| - 1;
      assert kept == kept[..n] + [kept[n]];
      if kept[n] > i {
        UnderStep(kept[..n], i);
      } else if kept[n] == i {
        AllUnder(kept[..n], i);
      }
    }
  }

  lemma {:induction false} UnderBound(kept: seq<nat>, i: nat)
    requires Increasing(kept)
    ensures forall k :: 0 <= k < |Under(kept, i)| ==> Under(kept, i)[k] < i
  {
    if kept != [] {
      UnderBound(kept[..|kept| - 1], i);
    }
  }

  /** The table after unmounting the mounts at the given positions of the list. */
  function AfterUmounts(ins: seq<Mount>, kept: seq<nat>): seq<Mount>
    requires forall k :: 0 <= k < |kept| ==> kept[k] < |ins|
  {
    if kept == [] then ins
    else
      var n := |kept| - 1;
      Unmount(AfterUmounts(ins, kept[..n]), ins[|ins| - 1 - kept[n]].path)
  }

  lemma SweptOfUmount(t: seq<Mount>, cmds: seq<Cmd>, path: string)
    ensures Swept(t, cmds + UmountCmd(path)) == Unmount(Swept(t, cmds), path)
  {
    var more := cmds + UmountCmd(path);
    assert more[..|cmds| + 1] == cmds + [MakePrivate(path)] && more[..|cmds| + 1][..|cmds|] == cmds;
  }

  lemma {:induction false} SweptIsAfterUmounts(ins: seq<Mount>, listed: seq<MountPoint>, kept: seq<nat>)
    requires |ins| == |listed| && forall k :: 0 <= k < |kept| ==> kept[k] < |ins|
    requires forall j :: 0 <= j < |ins| ==> listed[j].path == ins[|ins| - 1 - j].path
    ensures Swept(ins, AddedUmounts(Select(listed, kept))) == AfterUmounts(ins, kept)
  {
    if kept != [] {
      var n := |kept| - 1;
      SweptIsAfterUmounts(ins, listed, kept[..n]);
      var before, more := Select(listed, kept[..n]), Select(listed, kept);
      assert more[..n] == before && more[n] == listed[kept[n]];
      SweptOfUmount(ins, AddedUmounts(before), listed[kept[n]].path);
    }
  }

  lemma AfterLast(ins: seq<Mount>, kept: seq<nat>, before: seq<nat>, p: nat)
    requires kept == before + [p] && forall k :: 0 <= k < |kept| ==> kept[k] < |ins|
    ensures forall k :: 0 <= k < |before| ==> before[k] < |ins|
    ensures p < |ins| && AfterUmounts(ins, kept) == Unmount(AfterUmounts(ins, before), ins[|ins| - 1 - p].path)
  {
    assert kept[|before|] == p && kept[..|before|] == before;
    forall k | 0 <= k < |before| ensures before[k] < |ins| {
      assert before[k] == kept[k];
    }
  }

  lemma LeftStep(ins: seq<Mount>, kept: seq<nat>, i: nat, before: seq<Mount>)
    requires i < |ins| && before == ins[..|ins| - i] + Left(ins, kept, i)
    ensures (if i in kept then Unmount(before, ins[|ins| - 1 - i].path) else before) ==
            ins[..|ins| - 1 - i] + Left(ins, kept, i + 1)
  {
    var n := |ins| - 1 - i;
    assert ins[..n + 1] == ins[..n] + [ins[n]];
    UnmountSplit(ins[..n], ins[n], Left(ins, kept, i));
  }

  lemma {:induction false} AfterUmountsIsLeft(ins: seq<Mount>, kept: seq<nat>, i: nat)
    requires Increasing(kept) && i <= |ins|
    requires forall k :: 0 <= k < |Under(kept, i)| ==> Under(kept, i)[k] < |ins|
    ensures AfterUmounts(ins, Under(kept, i)) == ins[..|ins| - i] + Left(ins, kept, i)
  {
    if i == 0 {
      NoneUnder(kept);
      assert ins[..|ins|] == ins;
    } else {
      UnderBound(kept, i - 1);
      AfterUmountsIsLeft(ins, kept, i - 1);
      UnderStep(kept, i - 1);
      LeftStep(ins, kept, i - 1, AfterUmounts(ins, Under(kept, i - 1)));
      if i - 1 in kept {
        AfterLast(ins, Under(kept, i), Under(kept, i - 1), i - 1);
      }
    }
  }

  lemma UnmountSplit(a: seq<Mount>, m: Mount, rest: seq<Mount>)
    ensures Unmount((a + [m]) + rest, m.path) ==
            a + if Mounted(rest, m.path) then [m] + Unmount(rest, m.path) else Elsewhere(rest, m.path)
    ensures (a + [m]) + rest == a + ([m] + rest)
  {
    assert (a + [m])[|a|] == m && (a + [m])[..|a|] == a;
    UnmountConcat(a + [m], rest, m.path);
    AppendAssociates(a, m, Unmount(rest, m.path));
    AppendAssociates(a, m, rest);
  }

  lemma {:induction false} NoneUnder(kept: seq<nat>)
    ensures Under(kept, 0) == []
  {
    if kept != [] {
      NoneUnder(kept[..|kept| - 1]);
    }
  }

  /** The mount at position i of the list lies strictly below an earlier mount, that is unmounted. */
  ghost predicate CoveredAt(listed: seq<MountPoint>, kept: seq<nat>, i: nat)
    requires i < |listed|
  {
    exists k :: k in kept && i < k < |listed| && Below(listed[k].path, listed[i].path)
                && listed[k].path != listed[i].path
  }

  /** The path lies strictly below that of a mount at a kept position from i on. */
  ghost predicate AboveIsKept(ins: seq<Mount>, kept: seq<nat>, i: nat, path: string) {
    exists k :: k in kept && i <= k < |ins| && Below(ins[|ins| - 1 - k].path, path) && ins[|ins| - 1 - k].path != path
  }

  lemma BelowIsTransitive(p: string, q: string, r: string)
    requires Below(p, q) && Below(q, r) && p != q
    ensures Below(p, r) && p != r
  {
    assert p == q[..|p|] == r[..|p|] && q == r[..|q|];
  }

  lemma AboveTransfers(ins: seq<Mount>, kept: seq<nat>, i: nat, q: string, path: string)
    requires AboveIsKept(ins, kept, i, q) && Below(q, path)
    ensures AboveIsKept(ins, kept, i, path)
  {
    var k :| k in kept && i <= k < |ins| && Below(ins[|ins| - 1 - k].path, q) && ins[|ins| - 1 - k].path != q;
    BelowIsTransitive(ins[|ins| - 1 - k].path, q, path);
  }

  lemma {:induction false} LeftHasAbove(ins: seq<Mount>, kept: seq<nat>, i: nat)
    requires i <= |ins|
    requires forall j :: 0 <= j < i && j !in kept ==> AboveIsKept(ins, kept, j + 1, ins[|ins| - 1 - j].path)
    ensures forall m :: m in Left(ins, kept, i) ==> AboveIsKept(ins, kept, i, m.path)
  {
    if i > 0 {
      var at, rest := ins[|ins| - i], Left(ins, kept, i - 1);
      LeftHasAbove(ins, kept, i - 1);
      ElsewhereMembers(rest, at.path);
      UnmountMembers(rest, at.path);
      forall m | m in Left(ins, kept, i) ensures AboveIsKept(ins, kept, i, m.path) {
        if i - 1 in kept && Mounted(rest, at.path) {
          var y := Topmost(rest, at.path);
          assert rest[y] in rest;
          NextAbove(ins, kept, i, at.path, false);
          if m in rest {
            NextAbove(ins, kept, i, m.path, true);
          }
        } else if m in rest {
          NextAbove(ins, kept, i, m.path, false);
        }
      }
    }
  }

  /** The mount above is a later one of the list, or the one at i - 1, which has another above it. */
  lemma NextAbove(ins: seq<Mount>, kept: seq<nat>, i: nat, path: string, higher: bool)
    requires 0 < i <= |ins| && AboveIsKept(ins, kept, i - 1, path)
    requires higher ==> AboveIsKept(ins, kept, i, ins[|ins| - i].path)
    requires !higher ==> i - 1 !in kept || !Below(ins[|ins| - i].path, path) || ins[|ins| - i].path == path
    ensures AboveIsKept(ins, kept, i, path)
  {
    var k :| k in kept && i - 1 <= k < |ins| && Below(ins[|ins| - 1 - k].path, path) && ins[|ins| - 1 - k].path != path;
    if k == i - 1 && higher {
      AboveTransfers(ins, kept, i, ins[|ins| - i].path, path);
    }
  }

  lemma {:induction false} UncoveredStays(ins: seq<Mount>, kept: seq<nat>, j: nat, i: nat)
    requires j < i <= |ins| && j !in kept && !AboveIsKept(ins, kept, j + 1, ins[|ins| - 1 - j].path)
    ensures Mounted(Left(ins, kept, i), ins[|ins| - 1 - j].path)
  {
    var q := ins[|ins| - 1 - j].path;
    var at, rest := ins[|ins| - i], Left(ins, kept, i - 1);
    if i - 1 == j {
      assert Left(ins, kept, i)[0].path == q;
    } else {
      UncoveredStays(ins, kept, j, i - 1);
      var y := Topmost(rest, q);
      ElsewhereMembers(rest, at.path);
      UnmountMembers(rest, at.path);
      assert rest[y] in rest;
      assert i - 1 in kept && Below(at.path, q) ==> at.path == q;
      if at.path == q {
        assert Left(ins, kept, i)[0].path == q;
      } else {
        assert rest[y] in Left(ins, kept, i);
      }
    }
  }

  /** The positions of the list whose mounts the difference keeps. */
  function Kept(olds: seq<MountPoint>, listed: seq<MountPoint>): seq<nat> {
    Match(Hits(olds, listed), AllPositions(|listed|)).kept
  }

  /** Every mount that is taken for a declared one lies strictly below an earlier mount that is not. */
  ghost predicate Covered(olds: seq<MountPoint>, listed: seq<MountPoint>) {
    forall i :: 0 <= i < |listed| && i !in Kept(olds, listed) ==> CoveredAt(listed, Kept(olds, listed), i)
  }

  lemma HasMember<T>(s: seq<T>)
    ensures s != [] ==> exists x :: x in s
  {
    if s != [] {
      assert s[0] in s;
    }
  }

  lemma LeftIsEmptyIff(ins: seq<Mount>, listed: seq<MountPoint>, kept: seq<nat>)
    requires |ins| == |listed| && forall j :: 0 <= j < |ins| ==> listed[j].path == ins[|ins| - 1 - j].path
    ensures Left(ins, kept, |ins|) == [] <==> forall i :: 0 <= i < |listed| && i !in kept ==> CoveredAt(listed, kept, i)
  {
    forall i | 0 <= i < |ins|
      ensures CoveredAt(listed, kept, i) <==> AboveIsKept(ins, kept, i + 1, ins[|ins| - 1 - i].path)
    {
    }
    if i :| 0 <= i < |listed| && i !in kept && !CoveredAt(listed, kept, i) {
      UncoveredStays(ins, kept, i, |ins|);
    } else {
      LeftHasAbove(ins, kept, |ins|);
      HasMember(Left(ins, kept, |ins|));
    }
  }

  /**
   When preparing the commands fails, the teardown has no unmounts of its own, and unmounts what it does not take for
   a declared mount. That clears the chroot exactly when every mount taken for a declared one lies strictly below an
   earlier mount that is not.
   */
  lemma FailedPreparationClearsIff(chroot: string, olds: seq<MountPoint>, t: seq<Mount>)
    ensures Swept(t, AddedUmounts(Diff(olds, Listed(t, chroot)))) == Outside(t, chroot)
            <==> Covered(olds, Listed(t, chroot))
  {
    var ins, listed := Inside(t, chroot), Listed(t, chroot);
    var kept := Kept(olds, listed);
    ListedIsInside(t, chroot);
    DiffIsMatching(olds, listed);
    SweptIsAfterUmounts(ins, listed, kept);
    AllUnder(kept, |ins|);
    AfterUmountsIsLeft(ins, kept, |ins|);
    LeftIsEmptyIff(ins, listed, kept);
    var cmds := AddedUmounts(Diff(olds, listed));
    ListedMembers(t, chroot);
    DiffKeepsMembers(olds, listed);
    AddedStaysIn(Diff(olds, listed), chroot);
    SweptInside(t, cmds, chroot);
    ClearIsEmptyInside(Swept(t, cmds), t, chroot);
    assert ins[..0] + Left(ins, kept, |ins|) == Left(ins, kept, |ins|);
  }

  lemma AllUnder(kept: seq<nat>, n: nat)
    requires forall k :: 0 <= k < |kept| ==> kept[k] < n
    ensures Under(kept, n) == kept
  {
  }

  lemma UnrelatedIsKept(olds: seq<MountPoint>, listed: seq<MountPoint>, p: nat)
    requires p < |listed| && forall i :: 0 <= i < |olds| ==> !Equal(olds[i], listed[p])
    ensures p in Kept(olds, listed)
  {
    DiffIsMatching(olds, listed);
    assert AllPositions(|listed|)[p] == p;
  }

  lemma OnlyEqualIsTaken(olds: seq<MountPoint>, listed: seq<MountPoint>, p: nat)
    requires p < |listed| && olds != []
    requires forall q :: 0 <= q < |listed| ==> (Equal(olds[0], listed[q]) <==> q == p)
    ensures p !in Kept(olds, listed)
  {
    DiffIsMatching(olds, listed);
    var hits := Hits(olds, listed);
    assert p in hits[0] && forall q :: q in hits[0] ==> q == p;
  }

  lemma CoverOfTwo(olds: seq<MountPoint>, below: MountPoint, above: MountPoint)
    requires olds != [] && Equal(olds[0], below) && forall i :: 0 <= i < |olds| ==> !Equal(olds[i], above)
    requires Below(above.path, below.path) && above.path != below.path
    ensures !Covered(olds, [below]) && Covered(olds, [below, above])
  {
    OnlyEqualIsTaken(olds, [below], 0);
    OnlyEqualIsTaken(olds, [below, above], 0);
    UnrelatedIsKept(olds, [below, above], 1);
    assert CoveredAt([below, above], Kept(olds, [below, above]), 0);
  }
}
