/** Repairing /etc/fstab of a classic image: fixFstab and generateFstabLines. */
module Fstab {
  import opened Text

  const UNCONFIGURED := "# UNCONFIGURED FSTAB"
  const ROOT_SOURCE := "LABEL=writable"
  const ROOT_OPTIONS := "discard,errors=remount-ro"
  const FSCK_ORDER := "1"
  const ROOT_FIELDS := [ROOT_SOURCE, "/", "ext4", ROOT_OPTIONS, "0", FSCK_ORDER]
  const ROOT_LINE := Join(ROOT_FIELDS, "\t")

  datatype Line = Dropped | Comment | Entry(fields: seq<string>)

  /** How the generator reads one line of the file. */
  function Classify(l: string): (r: Line)
    ensures r.Entry? ==> |r.fields| >= 6 && forall i :: 0 <= i < |r.fields| ==> IsWord(r.fields[i])
  {
    if l == UNCONFIGURED then Dropped
    else if "#" <= l then Comment
    else if |Fields(l)| < 6 then Dropped
    else Entry(Fields(l))
  }

  predicate IsRootEntry(l: string) {
    Classify(l).Entry? && Classify(l).fields[1] == "/"
  }

  function FixedRoot(fields: seq<string>): seq<string>
    requires |fields| >= 6
  {
    fields[0 := ROOT_SOURCE][3 := ROOT_OPTIONS][5 := FSCK_ORDER]
  }

  /** What the generator emits for the remaining lines, knowing whether a root entry was already met. */
  function Repaired(lines: seq<string>, found: bool): seq<string> {
    if lines == [] then
      if found then [] else [ROOT_LINE]
    else
      var rest := lines[1..];
      match Classify(lines[0])
      case Dropped => Repaired(rest, found)
      case Comment => [lines[0]] + Repaired(rest, found)
      case Entry(fields) =>
        if fields[1] == "/" && !found
        then [Join(FixedRoot(fields), "\t")] + Repaired(rest, true)
        else [Join(fields, "\t")] + Repaired(rest, found)
  }

  lemma RepairedStep(lines: seq<string>, i: nat, found: bool)
    requires i < |lines|
    ensures var rest := lines[i + 1..];
            Repaired(lines[i..], found) ==
            match Classify(lines[i])
            case Dropped => Repaired(rest, found)
            case Comment => [lines[i]] + Repaired(rest, found)
            case Entry(fields) =>
              if fields[1] == "/" && !found
              then [Join(FixedRoot(fields), "\t")] + Repaired(rest, true)
              else [Join(fields, "\t")] + Repaired(rest, found)
  {
    assert lines[i..][1..] == lines[i + 1..];
  }

  method GenerateFstabLines(lines: seq<string>) returns (newLines: seq<string>)
    ensures newLines == Repaired(lines, false)
  {
    var rootMountFound := false;
    newLines := [];
    for i := 0 to |lines|
      invariant newLines + Repaired(lines[i..], rootMountFound) == Repaired(lines, false)
    {
      var l := lines[i];
      RepairedStep(lines, i, rootMountFound);
      if l == UNCONFIGURED {
        continue;
      }
      if "#" <= l {
        AppendAssociates(newLines, l, Repaired(lines[i + 1..], rootMountFound));
        newLines := newLines + [l];
        continue;
      }
      var entry := Fields(l);
      if |entry| < 6 {
        continue;
      }
      if entry[1] == "/" && !rootMountFound {
        entry := entry[0 := ROOT_SOURCE][3 := ROOT_OPTIONS][5 := FSCK_ORDER];
        rootMountFound := true;
      }
      ghost var o := Join(entry, "\t");
      AppendAssociates(newLines, o, Repaired(lines[i + 1..], rootMountFound));
      newLines := newLines + [Join(entry, "\t")];
    }
    if !rootMountFound {
      newLines := newLines + [ROOT_LINE];
    }
  }

  /** The new content of the file; customized fstab sections are left alone. */
  method FixFstab(content: string, customized: bool) returns (r: string)
    ensures r == if customized then content else FixedFile(content)
  {
    if customized {
      return content;
    }
    var newLines := GenerateFstabLines(Split(content, '\n'));
    r := Join(newLines, "\n") + "\n";
  }

  function FixedFile(content: string): string {
    Join(Repaired(Split(content, '\n'), false), "\n") + "\n"
  }

  // ----- how an emitted line is read back

  lemma RootWords()
    ensures IsWord(ROOT_SOURCE) && IsWord(ROOT_OPTIONS) && IsWord(FSCK_ORDER)
    ensures forall i :: 0 <= i < |ROOT_FIELDS| ==> IsWord(ROOT_FIELDS[i])
  {
  }

  lemma NotUnconfigured(l: string)
    requires ' ' !in l
    ensures l != UNCONFIGURED
  {
    assert UNCONFIGURED[1] == ' ';
  }

  lemma JoinStart(fields: seq<string>)
    requires |fields| > 1 && fields[0] != ""
    ensures Join(fields, "\t") != "" && Join(fields, "\t")[0] == fields[0][0]
  {
  }

  /** A tab-joined entry is read back as that entry, or as a comment when its first field starts with '#'. */
  lemma ReadBack(fields: seq<string>)
    requires |fields| >= 6 && forall i :: 0 <= i < |fields| ==> IsWord(fields[i])
    ensures Fields(Join(fields, "\t")) == fields
    ensures Classify(Join(fields, "\t")) == if fields[0][0] == '#' then Comment else Entry(fields)
  {
    FieldsJoin(fields, '\t');
    JoinStart(fields);
    JoinOfWordsHas(fields, '\t', ' ');
    NotUnconfigured(Join(fields, "\t"));
  }

  lemma FixedRootIsEntry(fields: seq<string>)
    requires |fields| >= 6 && forall i :: 0 <= i < |fields| ==> IsWord(fields[i])
    ensures Classify(Join(FixedRoot(fields), "\t")) == Entry(FixedRoot(fields))
    ensures FixedRoot(FixedRoot(fields)) == FixedRoot(fields)
  {
    RootWords();
    ReadBack(FixedRoot(fields));
    assert ROOT_SOURCE[0] == 'L';
  }

  lemma RootLineIsEntry()
    ensures Classify(ROOT_LINE) == Entry(ROOT_FIELDS) && FixedRoot(ROOT_FIELDS) == ROOT_FIELDS
  {
    RootWords();
    ReadBack(ROOT_FIELDS);
    assert ROOT_SOURCE[0] == 'L';
  }

  // ----- idempotence

  lemma {:induction false} RepairIsIdempotentFrom(lines: seq<string>, found: bool)
    ensures Repaired(Repaired(lines, found), found) == Repaired(lines, found)
  {
    if lines == [] {
      RootLineIsEntry();
    } else {
      match Classify(lines[0])
      case Dropped =>
        RepairIsIdempotentFrom(lines[1..], found);
      case Comment =>
        RepairIsIdempotentFrom(lines[1..], found);
      case Entry(fields) =>
        ReadBack(fields);
        FixedRootIsEntry(fields);
        RepairIsIdempotentFrom(lines[1..], found);
        RepairIsIdempotentFrom(lines[1..], true);
    }
  }

  /** Lists of lines: repairing twice is repairing once. */
  lemma RepairIsIdempotent(lines: seq<string>)
    ensures Repaired(Repaired(lines, false), false) == Repaired(lines, false)
  {
    RepairIsIdempotentFrom(lines, false);
  }

  lemma {:induction false} TrailingBlankLine(lines: seq<string>, found: bool)
    ensures Repaired(lines + [""], found) == Repaired(lines, found)
  {
    if lines == [] {
      assert Classify("") == Dropped;
      assert (lines + [""])[1..] == [];
    } else {
      assert (lines + [""])[1..] == lines[1..] + [""];
      TrailingBlankLine(lines[1..], found);
      TrailingBlankLine(lines[1..], true);
    }
  }

  lemma {:induction false} RepairKeepsSingleLines(lines: seq<string>, found: bool)
    requires forall i :: 0 <= i < |lines| ==> '\n' !in lines[i]
    ensures forall i :: 0 <= i < |Repaired(lines, found)| ==> '\n' !in Repaired(lines, found)[i]
    ensures !found ==> Repaired(lines, found) != []
  {
    RootWords();
    if lines == [] {
      JoinOfWordsHas(ROOT_FIELDS, '\t', '\n');
    } else {
      RepairKeepsSingleLines(lines[1..], found);
      RepairKeepsSingleLines(lines[1..], true);
      if Classify(lines[0]).Entry? {
        JoinOfWordsHas(Classify(lines[0]).fields, '\t', '\n');
        JoinOfWordsHas(FixedRoot(Classify(lines[0]).fields), '\t', '\n');
      }
    }
  }

  /** The file: fixing a fixed file changes no byte of it, whatever the original content. */
  lemma FixFstabIsIdempotent(content: string)
    ensures FixedFile(FixedFile(content)) == FixedFile(content)
  {
    var lines := Split(content, '\n');
    var out := Repaired(lines, false);
    RepairKeepsSingleLines(lines, false);
    SplitOfFile(out);
    TrailingBlankLine(out, false);
    RepairIsIdempotent(lines);
  }

  // ----- what the repaired file contains

  /** The comments and well-formed entries of the file, in order. */
  function Kept(lines: seq<string>): (r: seq<string>)
    ensures forall i :: 0 <= i < |r| ==> !Classify(r[i]).Dropped?
  {
    if lines == [] then []
    else if Classify(lines[0]).Dropped? then Kept(lines[1..])
    else [lines[0]] + Kept(lines[1..])
  }

  /** The position of the first root entry, or the number of lines when there is none. */
  function FirstRoot(lines: seq<string>): (r: nat)
    ensures r <= |lines| && (r < |lines| ==> IsRootEntry(lines[r]))
    ensures forall i :: 0 <= i < r ==> !IsRootEntry(lines[i])
  {
    if lines == [] then 0 else if IsRootEntry(lines[0]) then 0 else 1 + FirstRoot(lines[1..])
  }

  /** The emitted line `o` carries the kept line `l`; `fix` says whether it is the root entry to correct. */
  ghost predicate Carries(o: string, l: string, fix: bool) {
    match Classify(l)
    case Dropped => false
    case Comment => o == l
    case Entry(fields) =>
      var wanted := if fix then FixedRoot(fields) else fields;
      o == Join(wanted, "\t") && Fields(o) == wanted
  }

  predicate IsCorrectedRoot(l: string) {
    match Classify(l)
    case Entry(fields) =>
      fields[0] == ROOT_SOURCE && fields[1] == "/" && fields[3] == ROOT_OPTIONS && fields[5] == FSCK_ORDER
    case _ => false
  }

  ghost predicate RepairedContents(kept: seq<string>, out: seq<string>, found: bool) {
    var r := if found then |kept| else FirstRoot(kept);
    && |out| == |kept| + (if !found && r == |kept| then 1 else 0)
    && (forall k :: 0 <= k < |kept| ==> Carries(out[k], kept[k], k == r))
    && (!found && r == |kept| ==> out[r] == ROOT_LINE)
  }

  lemma {:induction false} RepairContentsFrom(lines: seq<string>, found: bool)
    ensures RepairedContents(Kept(lines), Repaired(lines, found), found)
  {
    if lines != [] {
      var l := lines[0];
      match Classify(l)
      case Dropped =>
        RepairContentsFrom(lines[1..], found);
      case Comment =>
        RepairContentsFrom(lines[1..], found);
        ShiftContents(l, Kept(lines[1..]), l, Repaired(lines[1..], found), found, found);
      case Entry(fields) =>
        ReadBack(fields);
        FixedRootIsEntry(fields);
        RepairContentsFrom(lines[1..], found || fields[1] == "/");
        ShiftContents(l, Kept(lines[1..]), Repaired(lines, found)[0], Repaired(lines[1..], found || fields[1] == "/"),
                      found, found || fields[1] == "/");
    }
  }

  lemma ShiftContents(l: string, kept: seq<string>, o: string, out: seq<string>, found: bool, foundAfter: bool)
    requires RepairedContents(kept, out, foundAfter)
    requires !Classify(l).Dropped? && foundAfter == (found || IsRootEntry(l))
    requires Carries(o, l, !found && IsRootEntry(l))
    ensures RepairedContents([l] + kept, [o] + out, found)
  {
    var ls, os := [l] + kept, [o] + out;
    FirstRootShift(l, kept);
    forall k | 0 <= k < |ls| ensures Carries(os[k], ls[k], k == if found then |ls| else FirstRoot(ls)) {
      if k > 0 {
        assert ls[k] == kept[k - 1] && os[k] == out[k - 1];
      }
    }
  }

  lemma FirstRootShift(l: string, kept: seq<string>)
    ensures FirstRoot([l] + kept) == if IsRootEntry(l) then 0 else 1 + FirstRoot(kept)
  {
    assert ([l] + kept)[1..] == kept;
  }

  /**
   Every comment and well-formed entry survives in order with its fields, save that the first root entry gets the
   label, options and fsck order; a root entry is appended when there is none. In every case the first root entry
   of the result is the corrected one.
   */
  lemma RepairContents(lines: seq<string>)
    ensures RepairedContents(Kept(lines), Repaired(lines, false), false)
    ensures var out := Repaired(lines, false);
            FirstRoot(out) == FirstRoot(Kept(lines)) < |out| && IsCorrectedRoot(out[FirstRoot(out)])
  {
    var kept, out := Kept(lines), Repaired(lines, false);
    RepairContentsFrom(lines, false);
    RootLineIsEntry();
    var r := FirstRoot(kept);
    forall k | 0 <= k < r ensures !IsRootEntry(out[k]) {
      assert Carries(out[k], kept[k], false);
      if Classify(kept[k]).Entry? {
        ReadBack(Classify(kept[k]).fields);
      }
    }
    if r < |kept| {
      assert Carries(out[r], kept[r], true);
      FixedRootIsEntry(Classify(kept[r]).fields);
    }
    assert IsRootEntry(out[r]);
  }
}
