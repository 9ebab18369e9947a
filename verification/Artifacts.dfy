/**
 The image files that the artifacts of an image definition ask for: verifyArtifactNames fills the map from volumes to
 file names, makeDisk makes those files, and makeQcow2Img converts them.
 */
module ArtifactFiles {
  import opened Quantities
  import opened Structures
  import opened ImageBuild

  /** An entry of the img or qcow2 list: a file name and a volume, "" when not given. */
  datatype Entry = Entry(name: string, volume: string)

  /** `v` is the volume of one of the first n entries. */
  predicate Names(es: seq<Entry>, n: nat, v: string)
    requires n <= |es|
  {
    exists i :: 0 <= i < n && es[i].volume == v
  }

  /** The file name that the last of the first n entries for the volume gives. */
  function LastName(es: seq<Entry>, n: nat, v: string): string
    requires n <= |es|
  {
    if n == 0 then "" else if es[n - 1].volume == v then es[n - 1].name else LastName(es, n - 1, v)
  }

  function ImgFile(name: string): string {
    name + ".img"
  }

  function ListOf(es: Option<seq<Entry>>): seq<Entry> {
    if es.Some? then es.value else []
  }

  predicate AllNamed(es: seq<Entry>) {
    forall i :: 0 <= i < |es| ==> es[i].volume != ""
  }

  /** The map for several volumes: an .img entry decides over a .qcow2 entry, a later entry over an earlier one. */
  ghost predicate Mapped(imgs: seq<Entry>, m: nat, qcow2s: seq<Entry>, n: nat, names: map<string, string>)
    requires m <= |imgs| && n <= |qcow2s|
  {
    && (forall v :: v in names <==> Names(imgs, m, v) || Names(qcow2s, n, v))
    && (forall v :: v in names ==>
          names[v] == if Names(imgs, m, v) then LastName(imgs, m, v) else ImgFile(LastName(qcow2s, n, v)))
  }

  lemma MappedNext(imgs: seq<Entry>, qs: seq<Entry>, i: nat, names: map<string, string>)
    requires i < |qs| && Mapped(imgs, |imgs|, qs, i, names)
    ensures var v := qs[i].volume;
            Mapped(imgs, |imgs|, qs, i + 1, if Names(imgs, |imgs|, v) then names else names[v := ImgFile(qs[i].name)])
  {
    forall v ensures Names(qs, i + 1, v) <==> Names(qs, i, v) || qs[i].volume == v {
      if Names(qs, i, v) {
        var k :| 0 <= k < i && qs[k].volume == v;
        assert qs[k].volume == v;
      }
    }
  }

  /** The volume that an entry of a single-volume gadget stands for. */
  function VolumeOf(e: Entry, only: string): string {
    if e.volume == "" then only else e.volume
  }

  /** The artifacts of an image definition, which may have none, with the map from volumes to file names. */
  class Artifacts {
    const present: bool
    const img: Option<seq<Entry>>
    var qcow2: Option<seq<Entry>>
    var volumeNames: map<string, string>

    constructor (wanted: bool, imgs: Option<seq<Entry>>, qcow2s: Option<seq<Entry>>, names: map<string, string>)
      ensures present == wanted && img == imgs && qcow2 == qcow2s && volumeNames == names
    {
      present, img, qcow2, volumeNames := wanted, imgs, qcow2s, names;
    }

    method PrepareImgArtifactsMultipleVolumes() returns (ok: bool)
      requires volumeNames == map[]
      modifies `volumeNames
      ensures ok <==> AllNamed(ListOf(img))
      ensures ok ==> Mapped(ListOf(img), |ListOf(img)|, [], 0, volumeNames)
    {
      if img.None? {
        return true;
      }
      for i := 0 to |img.value|
        invariant forall k :: 0 <= k < i ==> img.value[k].volume != ""
        invariant Mapped(img.value, i, [], 0, volumeNames)
      {
        if img.value[i].volume == "" {
          return false;
        }
        volumeNames := volumeNames[img.value[i].volume := img.value[i].name];
      }
      ok := true;
    }

    method HasImg(v: string) returns (found: bool)
      ensures found <==> Names(ListOf(img), |ListOf(img)|, v)
    {
      found := false;
      if img.Some? {
        for k := 0 to |img.value|
          invariant found <==> Names(img.value, k, v)
        {
          if img.value[k].volume == v {
            found := true;
          }
        }
      }
    }

    method PrepareQcow2ArtifactsMultipleVolumes() returns (ok: bool)
      requires Mapped(ListOf(img), |ListOf(img)|, [], 0, volumeNames)
      modifies `volumeNames
      ensures ok <==> AllNamed(ListOf(qcow2))
      ensures ok ==> Mapped(ListOf(img), |ListOf(img)|, ListOf(qcow2), |ListOf(qcow2)|, volumeNames)
    {
      if qcow2.None? {
        return true;
      }
      var qs := qcow2.value;
      for i := 0 to |qs|
        invariant forall k :: 0 <= k < i ==> qs[k].volume != ""
        invariant Mapped(ListOf(img), |ListOf(img)|, qs, i, volumeNames)
      {
        if qs[i].volume == "" {
          return false;
        }
        var found := HasImg(qs[i].volume);
        MappedNext(ListOf(img), qs, i, volumeNames);
        if !found {
          volumeNames := volumeNames[qs[i].volume := ImgFile(qs[i].name)];
        }
      }
      ok := true;
    }

    method PrepareImgArtifactOneVolume(only: string)
      requires img.Some? ==> img.value != []
      modifies `volumeNames
      ensures volumeNames == if img.None? then old(volumeNames)
                             else old(volumeNames)[VolumeOf(img.value[0], only) := img.value[0].name]
    {
      if img.None? {
        return;
      }
      if img.value[0].volume == "" {
        volumeNames := volumeNames[only := img.value[0].name];
      } else {
        volumeNames := volumeNames[img.value[0].volume := img.value[0].name];
      }
    }

    /** The first entry is given the volume, in the list itself. */
    method PrepareQcow2ArtifactOneVolume(only: string)
      requires qcow2.Some? ==> qcow2.value != []
      modifies `qcow2, `volumeNames
      ensures qcow2 == Completed(old(qcow2), only)
      ensures volumeNames == if qcow2.None? || img.Some? then old(volumeNames)
                             else old(volumeNames)[qcow2.value[0].volume := ImgFile(qcow2.value[0].name)]
    {
      if qcow2.None? {
        return;
      }
      var first := qcow2.value[0];
      if first.volume == "" {
        if img.Some? {
          first := first.(volume := only);
          qcow2 := Some(qcow2.value[0 := first]);
          return;
        }
        volumeNames := volumeNames[only := ImgFile(first.name)];
        first := first.(volume := only);
        qcow2 := Some(qcow2.value[0 := first]);
      } else {
        if img.Some? {
          return;
        }
        volumeNames := volumeNames[first.volume := ImgFile(first.name)];
      }
    }

    /**
     Without artifacts the map stays as it is. An empty list or a gadget without volumes is out of bounds for a
     single-volume gadget.
     */
    method VerifyArtifactNames(volumes: map<string, Volume>) returns (ok: bool)
      requires present && |volumes| <= 1 ==>
                 |volumes| == 1 && (img.Some? ==> img.value != []) && (qcow2.Some? ==> qcow2.value != [])
      modifies `qcow2, `volumeNames
      ensures ok <==> !present || |volumes| <= 1 || (AllNamed(ListOf(img)) && AllNamed(ListOf(qcow2)))
      ensures if present then ok ==> Verified(volumes, img, old(qcow2), qcow2, volumeNames)
              else volumeNames == old(volumeNames) && qcow2 == old(qcow2)
    {
      if !present {
        return true;
      }
      volumeNames := map[];
      if |volumes| > 1 {
        ok := PrepareImgArtifactsMultipleVolumes();
        if ok {
          ok := PrepareQcow2ArtifactsMultipleVolumes();
        }
      } else {
        var only :| only in volumes;
        OnlyKey(volumes, only);
        PrepareImgArtifactOneVolume(only);
        PrepareQcow2ArtifactOneVolume(only);
        ok := true;
      }
    }
  }

  /** The qcow2 list after verifyArtifactNames, for a single volume. */
  function Completed(qcow2: Option<seq<Entry>>, only: string): (r: Option<seq<Entry>>)
    requires qcow2.Some? ==> qcow2.value != []
  {
    if qcow2.None? || qcow2.value[0].volume != "" then qcow2
    else Some(qcow2.value[0 := qcow2.value[0].(volume := only)])
  }

  lemma OnlyKey(volumes: map<string, Volume>, only: string)
    requires |volumes| == 1 && only in volumes
    ensures forall v :: v in volumes ==> v == only
  {
    forall v | v in volumes ensures v == only {
      assert |volumes.Keys - {only}| == 0;
    }
  }

  /** What verifyArtifactNames leaves behind when it succeeds. */
  ghost predicate Verified(volumes: map<string, Volume>, img: Option<seq<Entry>>, before: Option<seq<Entry>>,
                           after: Option<seq<Entry>>, names: map<string, string>)
  {
    if |volumes| > 1 then
      && after == before && AllNamed(ListOf(img)) && AllNamed(ListOf(before))
      && Mapped(ListOf(img), |ListOf(img)|, ListOf(before), |ListOf(before)|, names)
    else
      && (img.Some? ==> img.value != []) && (before.Some? ==> before.value != [])
      && exists only ::
           && only in volumes && (forall v :: v in volumes ==> v == only)
           && after == Completed(before, only)
           && names == if img.Some? then map[VolumeOf(img.value[0], only) := img.value[0].name]
                       else if after.Some? then map[after.value[0].volume := ImgFile(after.value[0].name)]
                       else map[]
  }

  // ----- the files behind the qcow2 images

  /** makeQcow2Img reads this file; an entry without a mapped volume gets the output directory itself. */
  function BackingFile(names: map<string, string>, e: Entry): string {
    if e.volume in names then names[e.volume] else ""
  }

  /** makeQcow2Img: the conversions that were run, source and result; `convertible` says which of them succeed. */
  method MakeQcow2Img(names: map<string, string>, qcow2s: seq<Entry>, convertible: seq<bool>)
    returns (ok: bool, converted: seq<(string, string)>)
    requires |convertible| == |qcow2s|
    ensures ok <==> forall i :: 0 <= i < |qcow2s| ==> convertible[i]
    ensures |converted| <= |qcow2s| && (ok ==> |converted| == |qcow2s|)
    ensures forall i :: 0 <= i < |converted| ==> converted[i] == (BackingFile(names, qcow2s[i]), qcow2s[i].name)
    ensures !ok ==> converted != [] && !convertible[|converted| - 1]
  {
    converted := [];
    for i := 0 to |qcow2s|
      invariant |converted| == i && forall k :: 0 <= k < i ==> convertible[k]
      invariant forall k :: 0 <= k < i ==> converted[k] == (BackingFile(names, qcow2s[k]), qcow2s[k].name)
    {
      converted := converted + [(BackingFile(names, qcow2s[i]), qcow2s[i].name)];
      if !convertible[i] {
        return false, converted;
      }
    }
    ok := true;
  }

  /** A volume of the gadget that can have a disk image. */
  predicate IsReal(volumes: map<string, Volume>, v: string) {
    v in volumes && volumes[v].schema != Emmc
  }

  /** makeDisk makes an image for the volume. */
  predicate GetsDisk(volumes: map<string, Volume>, names: map<string, string>, v: string) {
    IsReal(volumes, v) && v in names
  }

  /** The entry of a single-volume gadget that decides which volume gets a disk. */
  function Deciding(img: Option<seq<Entry>>, before: seq<Entry>): Entry
    requires before != [] && (img.Some? ==> img.value != [])
  {
    if img.Some? then img.value[0] else before[0]
  }

  /** Whether entry k stands for a volume that gets a disk, told from the entries and the gadget. */
  ghost predicate Backed(volumes: map<string, Volume>, img: Option<seq<Entry>>, before: seq<Entry>, k: nat)
    requires k < |before| && (img.Some? && |volumes| <= 1 ==> img.value != [])
  {
    if |volumes| > 1 then IsReal(volumes, before[k].volume)
    else
      exists only :: IsReal(volumes, only) && VolumeOf(Deciding(img, before), only) == only
                     && (before[k].volume == only || (k == 0 && before[k].volume == ""))
  }

  lemma {:induction false} NamesHasLast(es: seq<Entry>, n: nat, v: string)
    requires n <= |es| && Names(es, n, v)
    ensures exists i :: 0 <= i < n && es[i].volume == v && es[i].name == LastName(es, n, v)
  {
    if es[n - 1].volume != v {
      NamesHasLast(es, n - 1, v);
    }
  }

  /** Entry k of the list that verifyArtifactNames leaves names a volume with a disk exactly when it is Backed. */
  lemma BackingIsMadeIff(volumes: map<string, Volume>, img: Option<seq<Entry>>, before: seq<Entry>, after: seq<Entry>,
                         names: map<string, string>, k: nat)
    requires Verified(volumes, img, Some(before), Some(after), names) && k < |before|
    ensures |after| == |before|
    ensures GetsDisk(volumes, names, after[k].volume) <==> Backed(volumes, img, before, k)
    ensures Backed(volumes, img, before, k) ==>
              BackingFile(names, after[k]) in CreatedFiles(volumes, names, volumes.Keys)
  {
    if |volumes| > 1 {
      assert Names(before, |before|, before[k].volume);
    } else {
      var only :| only in volumes && (forall v :: v in volumes ==> v == only)
                  && Some(after) == Completed(Some(before), only)
                  && names == if img.Some? then map[VolumeOf(img.value[0], only) := img.value[0].name]
                              else map[after[0].volume := ImgFile(after[0].name)];
      assert after[0].volume == VolumeOf(before[0], only);
      assert k > 0 ==> after[k] == before[k];
    }
  }

  /**
   With real volumes wherever one is named, and at most one entry of each kind for a single volume, every file that
   makeQcow2Img converts is one that makeDisk made.
   */
  lemma BackingFilesAreMade(volumes: map<string, Volume>, img: Option<seq<Entry>>, before: seq<Entry>,
                            after: seq<Entry>, names: map<string, string>)
    requires Verified(volumes, img, Some(before), Some(after), names)
    requires forall e :: e in ListOf(img) + before ==> e.volume == "" || IsReal(volumes, e.volume)
    requires |volumes| <= 1 ==> |ListOf(img)| <= 1 && |before| == 1 && forall v :: v in volumes ==> IsReal(volumes, v)
    ensures forall e :: e in after ==> BackingFile(names, e) in CreatedFiles(volumes, names, volumes.Keys)
  {
    forall k | 0 <= k < |after| ensures BackingFile(names, after[k]) in CreatedFiles(volumes, names, volumes.Keys) {
      if |volumes| <= 1 {
        var only :| only in volumes && forall v :: v in volumes ==> v == only;
        var d := Deciding(img, before);
        assert d in ListOf(img) + before && before[k] in ListOf(img) + before;
        assert IsReal(volumes, only) && VolumeOf(d, only) == only;
      } else {
        assert before[k] in ListOf(img) + before;
      }
      BackingIsMadeIff(volumes, img, before, after, names, k);
    }
  }

  /** The volume of entry i keeps the name that the entry gives, unless another .img entry names the same volume. */
  lemma ImgIsNotRenamed(volumes: map<string, Volume>, img: seq<Entry>, before: Option<seq<Entry>>,
                        after: Option<seq<Entry>>, names: map<string, string>, i: nat)
    requires Verified(volumes, Some(img), before, after, names) && i < |img|
    requires if |volumes| > 1 then forall j :: 0 <= j < |img| && j != i ==> img[j].volume != img[i].volume else i == 0
    ensures exists v :: (v == img[i].volume || (img[i].volume == "" && v in volumes))
                        && v in names && names[v] == img[i].name
  {
    if |volumes| > 1 {
      assert Names(img, |img|, img[i].volume);
      NamesHasLast(img, |img|, img[i].volume);
    } else {
      var only :| only in volumes && names == map[VolumeOf(img[0], only) := img[0].name];
      assert VolumeOf(img[0], only) in names;
    }
  }

  /**
   The volume that verifyArtifactNames writes into an entry is not saved: a resumed run reads the entry as it was. It
   finds the same file if and only if the entry named its volume itself.
   */
  lemma ResumeFindsFileIff(volumes: map<string, Volume>, img: Option<seq<Entry>>, before: seq<Entry>, after: seq<Entry>,
                           names: map<string, string>, k: nat)
    requires Verified(volumes, img, Some(before), Some(after), names) && k < |before|
    requires "" !in volumes && Backed(volumes, img, before, k) && BackingFile(names, after[k]) != ""
    ensures |after| == |before|
    ensures BackingFile(names, before[k]) == BackingFile(names, after[k]) <==> before[k].volume != ""
  {
    BackingIsMadeIff(volumes, img, before, after, names, k);
    if |volumes| <= 1 {
      var only :| only in volumes && (forall v :: v in volumes ==> v == only)
                  && Some(after) == Completed(Some(before), only)
                  && names == if img.Some? then map[VolumeOf(img.value[0], only) := img.value[0].name]
                              else map[after[0].volume := ImgFile(after[0].name)];
      assert "" !in names;
      assert before[k].volume != "" ==> after[k] == before[k];
    }
  }
}
