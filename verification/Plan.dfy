/** The states of a classic image build, computed from the image definition: calculateStates and the add*States. */
module Plan {
  import opened Quantities
  import Runner

  datatype GadgetKind = Git | Directory | Prebuilt | UnknownKind

  datatype GadgetSource = GadgetSource(kind: GadgetKind, url: string)

  datatype Artifacts = Artifacts(
    img: bool,
    qcow2: bool,
    manifest: bool,
    manifestV2: bool,
    filelist: bool,
    changelog: bool,
    rootfsTar: bool)

  datatype Customization = Customization(
    extraPPAs: nat,
    extraPackages: nat,
    extraSnaps: nat,
    cloudInit: bool,
    fstab: nat,
    manual: bool)

  /** Which sections of an image definition are present. */
  datatype Definition = Definition(
    gadget: Option<GadgetSource>,
    tarball: bool,
    seed: bool,
    releasePocket: bool,
    customization: Option<Customization>,
    artifacts: Option<Artifacts>,
    diskInfo: bool)

  datatype StateName = BuildGadgetTree | PrepareGadgetTree | LoadGadgetYaml | VerifyArtifactNames
    | ExtractRootfsTar | Germinate | CreateChroot | BuildRootfsFromTasks
    | UpgradePackages | AddExtraPPAs | InstallPackages | CleanExtraPPAs
    | PrepareImage | PreseedImage | CleanRootfs | CustomizeSourcesList
    | CustomizeCloudInit | CustomizeFstab | ManualCustomization
    | SetDefaultLocale | PopulateRootfsContents | GenerateDiskInfo
    | CalculateRootfsSize | PopulateBootfsContents | PopulatePreparePartitions
    | MakeDisk | SetupBootloader | MakeQcow2Image
    | GeneratePackageManifest | GenerateFilelist | GenerateRootfsTarball

  /** The one order that every build follows. */
  function At(rank: nat): StateName
    requires rank < END
  {
    match rank
    case 0 => BuildGadgetTree
    case 1 => PrepareGadgetTree
    case 2 => LoadGadgetYaml
    case 3 => VerifyArtifactNames
    case 4 => ExtractRootfsTar
    case 5 => Germinate
    case 6 => CreateChroot
    case 7 => BuildRootfsFromTasks
    case 8 => UpgradePackages
    case 9 => AddExtraPPAs
    case 10 => InstallPackages
    case 11 => CleanExtraPPAs
    case 12 => PrepareImage
    case 13 => PreseedImage
    case 14 => CleanRootfs
    case 15 => CustomizeSourcesList
    case 16 => CustomizeCloudInit
    case 17 => CustomizeFstab
    case 18 => ManualCustomization
    case 19 => SetDefaultLocale
    case 20 => PopulateRootfsContents
    case 21 => GenerateDiskInfo
    case 22 => CalculateRootfsSize
    case 23 => PopulateBootfsContents
    case 24 => PopulatePreparePartitions
    case 25 => MakeDisk
    case 26 => SetupBootloader
    case 27 => MakeQcow2Image
    case 28 => GeneratePackageManifest
    case 29 => GenerateFilelist
    case _ => GenerateRootfsTarball
  }

  const END := 31

  /** The position of a state in that order. */
  function Rank(s: StateName): (r: nat)
    ensures r < END && At(r) == s
  {
    match s
    case BuildGadgetTree => 0
    case PrepareGadgetTree => 1
    case LoadGadgetYaml => 2
    case VerifyArtifactNames => 3
    case ExtractRootfsTar => 4
    case Germinate => 5
    case CreateChroot => 6
    case BuildRootfsFromTasks => 7
    case UpgradePackages => 8
    case AddExtraPPAs => 9
    case InstallPackages => 10
    case CleanExtraPPAs => 11
    case PrepareImage => 12
    case PreseedImage => 13
    case CleanRootfs => 14
    case CustomizeSourcesList => 15
    case CustomizeCloudInit => 16
    case CustomizeFstab => 17
    case ManualCustomization => 18
    case SetDefaultLocale => 19
    case PopulateRootfsContents => 20
    case GenerateDiskInfo => 21
    case CalculateRootfsSize => 22
    case PopulateBootfsContents => 23
    case PopulatePreparePartitions => 24
    case MakeDisk => 25
    case SetupBootloader => 26
    case MakeQcow2Image => 27
    case GeneratePackageManifest => 28
    case GenerateFilelist => 29
    case GenerateRootfsTarball => 30
  }

  /** helperCheckTags on "is_disk": some artifact needs a disk. */
  predicate DiskUsed(def: Definition) {
    def.artifacts.Some? && (def.artifacts.value.img || def.artifacts.value.qcow2)
  }

  predicate Custom(def: Definition) {
    def.customization.Some?
  }

  predicate FromSeed(def: Definition) {
    !def.tarball && def.seed
  }

  predicate HasPPAs(def: Definition) {
    Custom(def) && def.customization.value.extraPPAs > 0
  }

  /** When a build needs a state, whatever the others: what the image definition asks for. */
  predicate Needed(def: Definition, s: StateName) {
    match s
    case BuildGadgetTree => def.gadget.Some? && def.gadget.value.kind in {Git, Directory}
    case PrepareGadgetTree => def.gadget.Some? && def.gadget.value.kind != UnknownKind
    case LoadGadgetYaml => def.gadget.Some?
    case VerifyArtifactNames => DiskUsed(def)
    case ExtractRootfsTar => def.tarball
    case Germinate => FromSeed(def)
    case CreateChroot => FromSeed(def)
    case BuildRootfsFromTasks => !def.tarball && !def.seed
    case UpgradePackages => (def.tarball || def.seed) && !def.releasePocket
    case AddExtraPPAs => (def.tarball || def.seed) && HasPPAs(def)
    case InstallPackages =>
      FromSeed(def) || (def.tarball && Custom(def)
                        && (HasPPAs(def) || def.customization.value.extraPackages > 0))
    case CleanExtraPPAs => (def.tarball || def.seed) && HasPPAs(def)
    case PrepareImage => FromSeed(def) || (def.tarball && Custom(def) && def.customization.value.extraSnaps > 0)
    case PreseedImage => FromSeed(def) || (def.tarball && Custom(def) && def.customization.value.extraSnaps > 0)
    case CleanRootfs => true
    case CustomizeSourcesList => true
    case CustomizeCloudInit => Custom(def) && def.customization.value.cloudInit
    case CustomizeFstab => Custom(def) && def.customization.value.fstab > 0
    case ManualCustomization => Custom(def) && def.customization.value.manual
    case SetDefaultLocale => true
    case PopulateRootfsContents => true
    case GenerateDiskInfo => def.diskInfo
    case CalculateRootfsSize => def.artifacts.Some? && def.gadget.Some?
    case PopulateBootfsContents => def.artifacts.Some? && def.gadget.Some?
    case PopulatePreparePartitions => def.artifacts.Some? && def.gadget.Some?
    case MakeDisk => DiskForArtifacts(def)
    case SetupBootloader => DiskForArtifacts(def)
    case MakeQcow2Image => def.artifacts.Some? && def.artifacts.value.qcow2
    case GeneratePackageManifest =>
      def.artifacts.Some? && (def.artifacts.value.manifest || def.artifacts.value.manifestV2)
    case GenerateFilelist => def.artifacts.Some? && def.artifacts.value.filelist
    case GenerateRootfsTarball => def.artifacts.Some? && def.artifacts.value.rootfsTar
  }

  /** A disk is made for an .img when there is a gadget, and for a .qcow2 always. */
  predicate DiskForArtifacts(def: Definition) {
    def.artifacts.Some? && ((def.artifacts.value.img && def.gadget.Some?) || def.artifacts.value.qcow2)
  }

  // ----- the plan

  /** The needed states of a lower rank. */
  function Upto(def: Definition, rank: nat): seq<StateName>
    requires rank <= END
  {
    if rank == 0 then []
    else if Needed(def, At(rank - 1)) then Upto(def, rank - 1) + [At(rank - 1)]
    else Upto(def, rank - 1)
  }

  /** The plan of a build: all needed states, in the one order. */
  function PlanOf(def: Definition): seq<StateName> {
    Upto(def, END)
  }

  lemma Next(def: Definition, s: StateName)
    ensures Upto(def, Rank(s) + 1) == if Needed(def, s) then Upto(def, Rank(s)) + [s] else Upto(def, Rank(s))
  {
  }

  lemma PackageStates(def: Definition)
    ensures var before := Upto(def, Rank(AddExtraPPAs));
            Upto(def, Rank(PrepareImage)) ==
              if Needed(def, AddExtraPPAs) then before + [AddExtraPPAs, InstallPackages, CleanExtraPPAs]
              else if Needed(def, InstallPackages) then before + [InstallPackages]
              else before
  {
    Next(def, AddExtraPPAs);
    Next(def, InstallPackages);
    Next(def, CleanExtraPPAs);
  }

  lemma SnapStates(def: Definition)
    ensures var before := Upto(def, Rank(PrepareImage));
            Upto(def, Rank(CleanRootfs)) ==
              if Needed(def, PrepareImage) then before + [PrepareImage, PreseedImage] else before
  {
    Next(def, PrepareImage);
    Next(def, PreseedImage);
  }

  lemma SizeStates(def: Definition)
    ensures var before := Upto(def, Rank(CalculateRootfsSize));
            Upto(def, Rank(MakeDisk)) ==
              if Needed(def, CalculateRootfsSize)
              then before + [CalculateRootfsSize, PopulateBootfsContents, PopulatePreparePartitions]
              else before
  {
    Next(def, CalculateRootfsSize);
    Next(def, PopulateBootfsContents);
    Next(def, PopulatePreparePartitions);
  }

  lemma DiskStates(def: Definition)
    ensures var before := Upto(def, Rank(MakeDisk));
            Upto(def, Rank(MakeQcow2Image)) ==
              if Needed(def, MakeDisk) then before + [MakeDisk, SetupBootloader] else before
  {
    Next(def, MakeDisk);
    Next(def, SetupBootloader);
  }

  lemma ListStates(def: Definition)
    ensures var disk := Upto(def, Rank(GeneratePackageManifest));
            var manifest := if Needed(def, GeneratePackageManifest) then disk + [GeneratePackageManifest] else disk;
            var files := if Needed(def, GenerateFilelist) then manifest + [GenerateFilelist] else manifest;
            PlanOf(def) == if Needed(def, GenerateRootfsTarball) then files + [GenerateRootfsTarball] else files
  {
    Next(def, GeneratePackageManifest);
    Next(def, GenerateFilelist);
    Next(def, GenerateRootfsTarball);
  }

  lemma NoArtifactStates(def: Definition)
    ensures def.artifacts.None? ==> PlanOf(def) == Upto(def, Rank(CalculateRootfsSize))
  {
    SizeStates(def);
    DiskStates(def);
    Next(def, MakeQcow2Image);
    ListStates(def);
  }

  lemma CleaningStates(def: Definition)
    ensures Upto(def, Rank(CustomizeCloudInit)) == Upto(def, Rank(CleanRootfs)) + [CleanRootfs, CustomizeSourcesList]
  {
    Next(def, CleanRootfs);
    Next(def, CustomizeSourcesList);
  }

  lemma ContentsStates(def: Definition)
    ensures var contents := Upto(def, Rank(SetDefaultLocale)) + [SetDefaultLocale, PopulateRootfsContents];
            Upto(def, Rank(CalculateRootfsSize)) == if def.diskInfo then contents + [GenerateDiskInfo] else contents
  {
    Next(def, SetDefaultLocale);
    Next(def, PopulateRootfsContents);
    Next(def, GenerateDiskInfo);
  }

  // ----- the computation

  /** The slice that the add*States functions append to, in the order of calculateStates. */
  class StateList {
    const def: Definition
    var states: seq<StateName>

    constructor (definition: Definition)
      ensures def == definition && states == []
    {
      def, states := definition, [];
    }

    method AddGadgetStates()
      requires def.gadget.Some? && states == []
      modifies `states
      ensures states == Upto(def, Rank(VerifyArtifactNames))
    {
      Next(def, BuildGadgetTree);
      Next(def, PrepareGadgetTree);
      Next(def, LoadGadgetYaml);
      var kind := def.gadget.value.kind;
      if kind == Git || kind == Directory {
        states := states + [BuildGadgetTree];
      }
      if kind == Git || kind == Directory || kind == Prebuilt {
        states := states + [PrepareGadgetTree];
      }
      states := states + [LoadGadgetYaml];
    }

    method AddRootfsFromTarballStates()
      requires def.tarball && states == Upto(def, Rank(ExtractRootfsTar))
      modifies `states
      ensures states == Upto(def, Rank(CleanRootfs))
    {
      FirstRootfsStates(def);
      states := states + [ExtractRootfsTar];
      if !def.releasePocket {
        states := states + [UpgradePackages];
      }
      PackageStates(def);
      SnapStates(def);
      if def.customization.None? {
        return;
      }
      if def.customization.value.extraPPAs > 0 {
        states := states + [AddExtraPPAs, InstallPackages, CleanExtraPPAs];
      } else if def.customization.value.extraPackages > 0 {
        states := states + [InstallPackages];
      }
      if def.customization.value.extraSnaps > 0 {
        states := states + [PrepareImage, PreseedImage];
      }
    }

    method AddRootfsFromSeedStates()
      requires FromSeed(def) && states == Upto(def, Rank(ExtractRootfsTar))
      modifies `states
      ensures states == Upto(def, Rank(CleanRootfs))
    {
      FirstRootfsStates(def);
      states := states + [Germinate, CreateChroot];
      if !def.releasePocket {
        states := states + [UpgradePackages];
      }
      PackageStates(def);
      SnapStates(def);
      if def.customization.None? {
        states := states + [InstallPackages];
      } else if def.customization.value.extraPPAs > 0 {
        states := states + [AddExtraPPAs, InstallPackages, CleanExtraPPAs];
      } else {
        states := states + [InstallPackages];
      }
      states := states + [PrepareImage, PreseedImage];
    }

    method AddCustomizationStates()
      requires def.customization.Some? && states == Upto(def, Rank(CustomizeCloudInit))
      modifies `states
      ensures states == Upto(def, Rank(SetDefaultLocale))
    {
      Next(def, CustomizeCloudInit);
      Next(def, CustomizeFstab);
      Next(def, ManualCustomization);
      if def.customization.value.cloudInit {
        states := states + [CustomizeCloudInit];
      }
      if def.customization.value.fstab > 0 {
        states := states + [CustomizeFstab];
      }
      if def.customization.value.manual {
        states := states + [ManualCustomization];
      }
    }

    /** A disk is made here for .img artifacts only. */
    method AddImgStates()
      requires def.artifacts.Some?
      modifies `states
      ensures states == old(states) + [CalculateRootfsSize, PopulateBootfsContents, PopulatePreparePartitions]
                        + if def.artifacts.value.img then [MakeDisk, SetupBootloader] else []
    {
      states := states + [CalculateRootfsSize, PopulateBootfsContents, PopulatePreparePartitions];
      if !def.artifacts.value.img {
        return;
      }
      states := states + [MakeDisk, SetupBootloader];
    }

    /** A disk is made here unless the list already has a state for that. */
    method AddQcow2States()
      modifies `states
      ensures states == (if MakeDisk in old(states) then old(states) else old(states) + [MakeDisk, SetupBootloader])
                        + [MakeQcow2Image]
    {
      var found := false;
      for i := 0 to |states|
        invariant found <==> MakeDisk in states[..i]
      {
        if states[i] == MakeDisk {
          found := true;
        }
      }
      assert states[..|states|] == states;
      if !found {
        states := states + [MakeDisk, SetupBootloader];
      }
      states := states + [MakeQcow2Image];
    }

    method AddArtifactsStates()
      requires states == Upto(def, Rank(CalculateRootfsSize))
      modifies `states
      ensures states == PlanOf(def)
    {
      NoArtifactStates(def);
      if def.artifacts.None? {
        return;
      }
      AddDiskStates();
      AddListStates();
    }

    /** Whichever of its two callees makes the disk, it is made once. */
    method AddDiskStates()
      requires def.artifacts.Some? && states == Upto(def, Rank(CalculateRootfsSize))
      modifies `states
      ensures states == Upto(def, Rank(GeneratePackageManifest))
    {
      SizeStates(def);
      DiskStates(def);
      Next(def, MakeQcow2Image);
      Members(def, Rank(MakeDisk), MakeDisk);
      if def.gadget.Some? {
        AddImgStates();
      }
      if def.artifacts.value.qcow2 {
        AddQcow2States();
      }
    }

    method AddListStates()
      requires def.artifacts.Some? && states == Upto(def, Rank(GeneratePackageManifest))
      modifies `states
      ensures states == PlanOf(def)
    {
      ListStates(def);
      if def.artifacts.value.manifest || def.artifacts.value.manifestV2 {
        states := states + [GeneratePackageManifest];
      }
      if def.artifacts.value.filelist {
        states := states + [GenerateFilelist];
      }
      if def.artifacts.value.rootfsTar {
        states := states + [GenerateRootfsTarball];
      }
    }

    /** The part of calculateStates after the rootfs was made. */
    method AddFinishingStates()
      requires states == Upto(def, Rank(CleanRootfs))
      modifies `states
      ensures states == PlanOf(def)
    {
      CleaningStates(def);
      NoCustomizationStates(def);
      ContentsStates(def);
      states := states + [CleanRootfs, CustomizeSourcesList];
      if def.customization.Some? {
        AddCustomizationStates();
      }
      states := states + [SetDefaultLocale, PopulateRootfsContents];
      if def.diskInfo {
        states := states + [GenerateDiskInfo];
      }
      AddArtifactsStates();
    }
  }

  lemma FirstRootfsStates(def: Definition)
    ensures var before := Upto(def, Rank(ExtractRootfsTar));
            var source := before + if def.tarball then [ExtractRootfsTar]
                                   else if def.seed then [Germinate, CreateChroot]
                                   else [BuildRootfsFromTasks];
            Upto(def, Rank(AddExtraPPAs)) == if Needed(def, UpgradePackages) then source + [UpgradePackages] else source
  {
    Next(def, ExtractRootfsTar);
    Next(def, Germinate);
    Next(def, CreateChroot);
    Next(def, BuildRootfsFromTasks);
    Next(def, UpgradePackages);
  }

  lemma NoCustomizationStates(def: Definition)
    ensures def.customization.None? ==> Upto(def, Rank(SetDefaultLocale)) == Upto(def, Rank(CustomizeCloudInit))
  {
    Next(def, CustomizeCloudInit);
    Next(def, CustomizeFstab);
    Next(def, ManualCustomization);
  }

  /** calculateStates: the plan is appended to the states of the machine. */
  method CalculateStates(def: Definition, states: seq<StateName>) returns (r: seq<StateName>)
    ensures r == states + PlanOf(def)
  {
    var list := new StateList(def);
    NoGadgetStates(def);
    if def.gadget.Some? {
      list.AddGadgetStates();
    }
    Next(def, VerifyArtifactNames);
    if DiskUsed(def) {
      list.states := list.states + [VerifyArtifactNames];
    }
    if def.tarball {
      list.AddRootfsFromTarballStates();
    } else if def.seed {
      list.AddRootfsFromSeedStates();
    } else {
      FirstRootfsStates(def);
      PackageStates(def);
      SnapStates(def);
      list.states := list.states + [BuildRootfsFromTasks];
    }
    list.AddFinishingStates();
    r := states + list.states;
  }

  lemma NoGadgetStates(def: Definition)
    ensures def.gadget.None? ==> Upto(def, Rank(VerifyArtifactNames)) == []
  {
    Next(def, BuildGadgetTree);
    Next(def, PrepareGadgetTree);
    Next(def, LoadGadgetYaml);
  }

  lemma {:induction false} Members(def: Definition, rank: nat, s: StateName)
    requires rank <= END
    ensures s in Upto(def, rank) <==> Needed(def, s) && Rank(s) < rank
  {
    if rank > 0 {
      Members(def, rank - 1, s);
      RankOfAt(rank - 1);
      assert Rank(s) == rank - 1 ==> s == At(rank - 1);
    }
  }

  // ----- what a plan is

  /** In strictly increasing order of rank. */
  ghost predicate Ordered(states: seq<StateName>) {
    forall i, j :: 0 <= i < j < |states| ==> Rank(states[i]) < Rank(states[j])
  }

  /** A plan has the needed states, each once, in the one order. */
  ghost predicate IsPlan(def: Definition, states: seq<StateName>) {
    Ordered(states) && forall s :: s in states <==> Needed(def, s)
  }

  lemma RankOfAt(rank: nat)
    requires rank < END
    ensures Rank(At(rank)) == rank
  {
  }

  lemma OrderedPush(states: seq<StateName>, s: StateName)
    requires Ordered(states) && forall i :: 0 <= i < |states| ==> Rank(states[i]) < Rank(s)
    ensures Ordered(states + [s])
  {
  }

  lemma {:induction false} UptoIsOrdered(def: Definition, rank: nat)
    requires rank <= END
    ensures Ordered(Upto(def, rank))
  {
    if rank > 0 {
      var before, s := Upto(def, rank - 1), At(rank - 1);
      UptoIsOrdered(def, rank - 1);
      RankOfAt(rank - 1);
      forall i | 0 <= i < |before| ensures Rank(before[i]) < Rank(s) {
        Members(def, rank - 1, before[i]);
      }
      OrderedPush(before, s);
    }
  }

  lemma PlanOfIsPlan(def: Definition)
    ensures IsPlan(def, PlanOf(def))
  {
    UptoIsOrdered(def, END);
    forall s ensures s in PlanOf(def) <==> Needed(def, s) {
      Members(def, END, s);
    }
  }

  // ----- names

  /** The names that --until and --thru refer to. */
  function Name(s: StateName): string {
    match s
    case BuildGadgetTree => "build_gadget_tree"
    case PrepareGadgetTree => "prepare_gadget_tree"
    case LoadGadgetYaml => "load_gadget_yaml"
    case VerifyArtifactNames => "verify_artifact_names"
    case ExtractRootfsTar => "extract_rootfs_tar"
    case Germinate => "germinate"
    case CreateChroot => "create_chroot"
    case BuildRootfsFromTasks => "build_rootfs_from_tasks"
    case UpgradePackages => "upgrade_packages"
    case AddExtraPPAs => "add_extra_ppas"
    case InstallPackages => "install_packages"
    case CleanExtraPPAs => "clean_extra_ppas"
    case PrepareImage => "prepare_image"
    case PreseedImage => "preseed_image"
    case CleanRootfs => "clean_rootfs"
    case CustomizeSourcesList => "customize_sources_list"
    case CustomizeCloudInit => "customize_cloud_init"
    case CustomizeFstab => "customize_fstab"
    case ManualCustomization => "perform_manual_customization"
    case SetDefaultLocale => "set_default_locale"
    case PopulateRootfsContents => "populate_rootfs_contents"
    case GenerateDiskInfo => "generate_disk_info"
    case CalculateRootfsSize => "calculate_rootfs_size"
    case PopulateBootfsContents => "populate_bootfs_contents"
    case PopulatePreparePartitions => "populate_prepare_partitions"
    case MakeDisk => "make_disk"
    case SetupBootloader => "setup_bootloader"
    case MakeQcow2Image => "make_qcow2_image"
    case GeneratePackageManifest => "generate_package_manifest"
    case GenerateFilelist => "generate_filelist"
    case GenerateRootfsTarball => "generate_rootfs_tarball"
  }

  /** The length of a name and one of its characters tell the state. */
  function Named(name: string): StateName {
    match |name|
    case 9 => if name[0] == 'g' then Germinate else MakeDisk
    case 12 => CleanRootfs
    case 13 => if name[3] == 'a' then CreateChroot else if name[3] == 'p' then PrepareImage else PreseedImage
    case 14 => AddExtraPPAs
    case 15 => CustomizeFstab
    case 16 =>
      if name[0] == 'l' then LoadGadgetYaml else if name[0] == 'u' then UpgradePackages
      else if name[0] == 'i' then InstallPackages else if name[0] == 'c' then CleanExtraPPAs
      else if name[0] == 's' then SetupBootloader else MakeQcow2Image
    case 17 => if name[0] == 'b' then BuildGadgetTree else GenerateFilelist
    case 18 =>
      if name[0] == 'e' then ExtractRootfsTar else if name[0] == 's' then SetDefaultLocale else GenerateDiskInfo
    case 19 => PrepareGadgetTree
    case 20 => CustomizeCloudInit
    case 21 => if name[0] == 'v' then VerifyArtifactNames else CalculateRootfsSize
    case 22 => CustomizeSourcesList
    case 23 => if name[0] == 'b' then BuildRootfsFromTasks else GenerateRootfsTarball
    case 24 => if name[9] == 'r' then PopulateRootfsContents else PopulateBootfsContents
    case 25 => GeneratePackageManifest
    case 27 => PopulatePreparePartitions
    case _ => ManualCustomization
  }

  lemma EarlyNameTellsState(s: StateName)
    requires Rank(s) < Rank(AddExtraPPAs)
    ensures Named(Name(s)) == s
  {
  }

  lemma MiddleNameTellsState(s: StateName)
    requires Rank(AddExtraPPAs) <= Rank(s) < Rank(PopulateRootfsContents)
    ensures Named(Name(s)) == s
  {
  }

  lemma LateNameTellsState(s: StateName)
    requires Rank(PopulateRootfsContents) <= Rank(s) < Rank(SetupBootloader)
    ensures Named(Name(s)) == s
  {
  }

  lemma LastNameTellsState(s: StateName)
    requires Rank(SetupBootloader) <= Rank(s)
    ensures Named(Name(s)) == s
  {
  }

  lemma NameTellsState(s: StateName)
    ensures Named(Name(s)) == s
  {
    if Rank(s) < Rank(AddExtraPPAs) {
      EarlyNameTellsState(s);
    } else if Rank(s) < Rank(PopulateRootfsContents) {
      MiddleNameTellsState(s);
    } else if Rank(s) < Rank(SetupBootloader) {
      LateNameTellsState(s);
    } else {
      LastNameTellsState(s);
    }
  }

  /** No two states have the same name. */
  lemma NamesDiffer(s: StateName, t: StateName)
    requires Name(s) == Name(t)
    ensures s == t
  {
    NameTellsState(s);
    NameTellsState(t);
  }

  function NamesOf(states: seq<StateName>): (r: seq<string>)
    ensures |r| == |states| && forall i :: 0 <= i < |states| ==> r[i] == Name(states[i])
  {
    seq(|states|, i requires 0 <= i < |states| => Name(states[i]))
  }

  lemma NamesAreDistinct(def: Definition)
    ensures var names := NamesOf(PlanOf(def));
            forall i, j :: 0 <= i < j < |names| ==> names[i] != names[j]
  {
    var states := PlanOf(def);
    PlanOfIsPlan(def);
    forall i, j | 0 <= i < j < |states| ensures Name(states[i]) != Name(states[j]) {
      if Name(states[i]) == Name(states[j]) {
        NamesDiffer(states[i], states[j]);
      }
    }
  }

  /**
   --until or --thru with the name of a state of the plan cut it in one place: right before or right after the one
   state of that name.
   */
  lemma StopNamesOneState(def: Definition, k: nat)
    requires k < |PlanOf(def)|
    ensures var names := NamesOf(PlanOf(def));
            Runner.Cut(names, names[k], "") == k && Runner.Cut(names, "", names[k]) == k + 1
  {
    var names := NamesOf(PlanOf(def));
    NamesAreDistinct(def);
    forall i | 0 <= i < |names| ensures names[i] != "" {
      NameIsNotEmpty(PlanOf(def)[i]);
    }
    CutAt(names, k);
  }

  lemma NameIsNotEmpty(s: StateName)
    ensures Name(s) != ""
  {
    assert Name(ManualCustomization) != "";
    NameTellsState(s);
  }

  lemma CutAt(names: seq<string>, k: nat)
    requires k < |names| && forall i :: 0 <= i < |names| ==> names[i] != ""
    requires forall i, j :: 0 <= i < j < |names| ==> names[i] != names[j]
    ensures Runner.Cut(names, names[k], "") == k && Runner.Cut(names, "", names[k]) == k + 1
  {
    Runner.CutMeans(names, names[k], "");
    Runner.CutMeans(names, "", names[k]);
  }

  // ----- what the states work on

  datatype Product = GadgetSources | GadgetTree | GadgetInfo | VolumeNames | SeedPackages | SeedSnaps | Chroot
    | ExtraPPAs | StagedSnaps | RootfsContents | RootfsSize | BootfsContents | PartFiles | DiskImage

  /** What a state reads that another one has to make first. */
  function Inputs(def: Definition, s: StateName): set<Product> {
    match s
    case BuildGadgetTree => {}
    case PrepareGadgetTree => if Needed(def, BuildGadgetTree) then {GadgetSources} else {}
    case LoadGadgetYaml => {GadgetTree}
    case VerifyArtifactNames => {GadgetInfo}
    case ExtractRootfsTar => {}
    case Germinate => {}
    case CreateChroot => {}
    case BuildRootfsFromTasks => {}
    case UpgradePackages => {Chroot}
    case AddExtraPPAs => {Chroot}
    case InstallPackages =>
      {Chroot} + (if FromSeed(def) then {SeedPackages} else {}) + (if HasPPAs(def) then {ExtraPPAs} else {})
    case CleanExtraPPAs => {Chroot, ExtraPPAs}
    case PrepareImage => {Chroot} + if FromSeed(def) then {SeedSnaps} else {}
    case PreseedImage => {Chroot, StagedSnaps}
    case CleanRootfs => {Chroot}
    case CustomizeSourcesList => {Chroot}
    case CustomizeCloudInit => {Chroot}
    case CustomizeFstab => {Chroot}
    case ManualCustomization => {Chroot}
    case SetDefaultLocale => {Chroot}
    case PopulateRootfsContents => {Chroot}
    case GenerateDiskInfo => {RootfsContents}
    case CalculateRootfsSize => {GadgetInfo, RootfsContents}
    case PopulateBootfsContents => {GadgetInfo}
    case PopulatePreparePartitions => {GadgetInfo, RootfsContents, RootfsSize, BootfsContents}
    case MakeDisk => {GadgetInfo, VolumeNames, PartFiles}
    case SetupBootloader => {GadgetInfo, VolumeNames, DiskImage}
    case MakeQcow2Image => {VolumeNames, DiskImage}
    case GeneratePackageManifest => {Chroot}
    case GenerateFilelist => {Chroot}
    case GenerateRootfsTarball => {Chroot}
  }

  /** What a state makes for the others. */
  function Outputs(s: StateName): set<Product> {
    match s
    case BuildGadgetTree => {GadgetSources}
    case PrepareGadgetTree => {GadgetTree}
    case LoadGadgetYaml => {GadgetInfo}
    case VerifyArtifactNames => {VolumeNames}
    case ExtractRootfsTar => {Chroot}
    case Germinate => {SeedPackages, SeedSnaps}
    case CreateChroot => {Chroot}
    case BuildRootfsFromTasks => {Chroot}
    case AddExtraPPAs => {ExtraPPAs}
    case PrepareImage => {StagedSnaps}
    case PopulateRootfsContents => {RootfsContents}
    case CalculateRootfsSize => {RootfsSize}
    case PopulateBootfsContents => {BootfsContents}
    case PopulatePreparePartitions => {PartFiles}
    case MakeDisk => {DiskImage}
    case _ => {}
  }

  /** Some state before position i makes the product. */
  ghost predicate MadeBefore(states: seq<StateName>, i: nat, p: Product)
    requires i <= |states|
  {
    exists j :: 0 <= j < i && p in Outputs(states[j])
  }

  /** Whatever a state reads was made by a state before it. */
  ghost predicate InputsMade(def: Definition, states: seq<StateName>) {
    forall i, p :: 0 <= i < |states| && p in Inputs(def, states[i]) ==> MadeBefore(states, i, p)
  }

  /** The check of validateGadget without a gadget: no artifact may need a disk. */
  predicate GadgetAccepted(def: Definition) {
    if def.gadget.Some? then def.gadget.value.kind == Prebuilt || def.gadget.value.url != ""
    else !DiskUsed(def)
  }

  /** The schema's enumeration of gadget types. */
  predicate GadgetKindKnown(def: Definition) {
    def.gadget.Some? ==> def.gadget.value.kind != UnknownKind
  }

  /** The state that makes a product, in a build that needs it. */
  function Maker(def: Definition, p: Product): StateName {
    match p
    case GadgetSources => BuildGadgetTree
    case GadgetTree => PrepareGadgetTree
    case GadgetInfo => LoadGadgetYaml
    case VolumeNames => VerifyArtifactNames
    case SeedPackages => Germinate
    case SeedSnaps => Germinate
    case Chroot => if def.tarball then ExtractRootfsTar else if def.seed then CreateChroot else BuildRootfsFromTasks
    case ExtraPPAs => AddExtraPPAs
    case StagedSnaps => PrepareImage
    case RootfsContents => PopulateRootfsContents
    case RootfsSize => CalculateRootfsSize
    case BootfsContents => PopulateBootfsContents
    case PartFiles => PopulatePreparePartitions
    case DiskImage => MakeDisk
  }

  lemma MakerIsEarlier(def: Definition, s: StateName, p: Product)
    requires GadgetKindKnown(def) && (def.gadget.None? ==> !DiskUsed(def))
    requires Needed(def, s) && p in Inputs(def, s)
    ensures Needed(def, Maker(def, p)) && p in Outputs(Maker(def, p)) && Rank(Maker(def, p)) < Rank(s)
  {
  }

  lemma EarlierIsBefore(def: Definition, states: seq<StateName>, i: nat, s: StateName)
    requires IsPlan(def, states) && i < |states| && Needed(def, s) && Rank(s) < Rank(states[i])
    ensures exists j :: 0 <= j < i && states[j] == s
  {
    assert s in states;
    var j :| 0 <= j < |states| && states[j] == s;
  }

  /**
   Every state of the plan follows those that make its inputs exactly when the gadget type is one of the schema's and,
   as validateGadget checks, no artifact needs a disk without a gadget.
   */
  lemma InputsAreMadeIff(def: Definition)
    ensures InputsMade(def, PlanOf(def)) <==> GadgetKindKnown(def) && (def.gadget.None? ==> GadgetAccepted(def))
  {
    var states := PlanOf(def);
    PlanOfIsPlan(def);
    if GadgetKindKnown(def) && (def.gadget.None? ==> GadgetAccepted(def)) {
      forall i, p | 0 <= i < |states| && p in Inputs(def, states[i]) ensures MadeBefore(states, i, p) {
        assert states[i] in states;
        MakerIsEarlier(def, states[i], p);
        EarlierIsBefore(def, states, i, Maker(def, p));
      }
    } else {
      var s, p := if def.gadget.Some? then LoadGadgetYaml else VerifyArtifactNames,
                  if def.gadget.Some? then GadgetTree else GadgetInfo;
      assert s in states;
      var i :| 0 <= i < |states| && states[i] == s;
      if MadeBefore(states, i, p) {
        var j :| 0 <= j < i && p in Outputs(states[j]);
        assert states[j] in states;
        OnlyMaker(states[j], p);
      }
    }
  }

  lemma OnlyMaker(s: StateName, p: Product)
    requires p in Outputs(s)
    ensures p == GadgetTree ==> s == PrepareGadgetTree
    ensures p == GadgetInfo ==> s == LoadGadgetYaml
  {
  }

  /** There is one plan with the needed states in order: recomputing it for --resume gives the same list. */
  lemma {:induction false} OrderedIsUnique(a: seq<StateName>, b: seq<StateName>)
    requires Ordered(a) && Ordered(b) && forall s :: s in a <==> s in b
    ensures a == b
  {
    assert forall i :: 0 <= i < |b| ==> b[i] in a;
    assert forall i :: 0 <= i < |a| ==> a[i] in b;
    if a != [] {
      assert a[0] in b;
      var n, m := |a| - 1, |b| - 1;
      LastIsSame(a, b);
      LastIsSame(b, a);
      forall s ensures s in a[..n] <==> s in b[..m] {
        InFront(a, s);
        InFront(b, s);
      }
      OrderedIsUnique(a[..n], b[..m]);
      SameFrontAndLast(a, b);
    }
  }

  lemma SameFrontAndLast<T>(a: seq<T>, b: seq<T>)
    requires a != [] && b != [] && a[..|a| - 1] == b[..|b| - 1] && a[|a| - 1] == b[|b| - 1]
    ensures a == b
  {
    assert a == a[..|a| - 1] + [a[|a| - 1]] && b == b[..|b| - 1] + [b[|b| - 1]];
  }

  lemma LastIsSame(a: seq<StateName>, b: seq<StateName>)
    requires a != [] && b != [] && Ordered(a) && Ordered(b) && forall s :: s in a <==> s in b
    ensures a[|a| - 1] == b[|b| - 1]
  {
    var x, y := a[|a| - 1], b[|b| - 1];
    assert x in b && y in a;
    var i :| 0 <= i < |b| && b[i] == x;
    var j :| 0 <= j < |a| && a[j] == y;
    assert i < |b| - 1 ==> Rank(x) < Rank(y);
    assert j < |a| - 1 ==> Rank(y) < Rank(x);
  }

  lemma InFront(a: seq<StateName>, s: StateName)
    requires a != [] && Ordered(a)
    ensures s in a[..|a| - 1] <==> s in a && s != a[|a| - 1]
  {
    if s in a && s != a[|a| - 1] {
      var i :| 0 <= i < |a| && a[i] == s;
      assert a[..|a| - 1][i] == s;
    }
  }

  lemma PlanIsUnique(def: Definition, states: seq<StateName>)
    requires IsPlan(def, states)
    ensures states == PlanOf(def)
  {
    PlanOfIsPlan(def);
    OrderedIsUnique(states, PlanOf(def));
  }
}
