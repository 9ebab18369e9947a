# A verified model of ubuntu-image

ubuntu-image builds a bootable disk image in two parts. A resumable state machine plans and runs the build steps and
saves its fields between invocations. A layout and sizing pipeline turns the volumes of a gadget into part files,
partition tables and image bytes. This project models both parts in Dafny, with the mount handling of the chroot and
four text and tree transforms, and proves what they promise.

`dafny verify dfyconfig.toml` checks the whole project.

## Structure

| file | module | models |
|---|---|---|
| Quantities.dfy, Sequences.dfy | Quantities, Sequences | ceiling division, sector alignment, saturating subtraction, selection by position |
| Structures.dfy | Structures | gadget volumes, role tests, snapd's running-offset layout, lookups by YAML index |
| PartitionTable.dfy | PartitionTable | GPT and MBR tables, the overlap test, GeneratePartitionTable |
| Sizing.dfy | Sizing | rootfs size, requested image size, disk size |
| DiskImage.dfy | DiskImage | image files as byte arrays and sparse `dd` |
| ImageCopy.dfy | ImageCopy | part files, the copy into the image, offset writes |
| ImageBuild.dfy | ImageBuild | the sizing, populating and disk-making states over the fields they update |
| VisitOrder.dfy | VisitOrder | what makeDisk leaves, as it depends on the order in which a map of volumes is visited |
| GadgetFixes.dfy | GadgetFixes | post-processing of the gadget and the missing root filesystem |
| Runner.dfy, Chains.dfy | Runner, Chains | one invocation of the state machine, and chains of invocations |
| Plan.dfy | Plan | the states of a classic build |
| Artifacts.dfy | ArtifactFiles | image file names and the files behind qcow2 images |
| Resume.dfy | Resume | which states may be separated by an interrupted run, and what an interrupted build of the disks leaves |
| MountTable.dfy, MountDiff.dfy | MountTable, MountDiff | the kernel's mount table with `umount --recursive`, and the difference of two mount lists |
| Teardown.dfy, LateMounts.dfy, ChrootMounts.dfy | Teardown, LateMounts, ChrootMounts | mounting a chroot and tearing it down under failure |
| Text.dfy, Fstab.dfy, SigningKey.dfy | Text, Fstab, SigningKey | Go's string functions, the fstab repair, the Signed-By field |
| Defaults.dfy, DefaultsInPlace.dfy | Defaults, DefaultsInPlace | default values from struct tags, as a function and in memory |

Code that updates fields is a class with those fields, in-place algorithms work on arrays, and every such method is
proved against a function on values; the laws are lemmas about those functions.

## Results

Properties that hold for all inputs:

- From sizing over populating to makeDisk, in any order of visits, with or without a rootfs: the image file of every
  volume that is laid out in order on sector boundaries and whose given files fit holds every part file at its place,
  and no byte outside the extents and the offset writes differs from the partition table
  (`Resume.BuiltDisksAreFaithful`, `ImageBuild.BuiltImagesAreFaithful`).
- Any chain of successful invocations runs a prefix of the plan, each state once, and ends with the fields and files of
  one uninterrupted run (`Chains.ChainIsOneRun`), even when every invocation visits its maps in an order of its own
  (`Chains.ChainIsSomeRun`). The states that size, populate and make the disks meet what that asks of a state, although
  a resumed run has other YAML indices: interrupted builds of every gadget leave what some uninterrupted build leaves
  (`Resume.InterruptedDisksAreSomeRun`, `Resume.InterruptedDisksAreFaithful`), and what every one leaves where no two
  disks compete for the recorded numbers (`Resume.InterruptedDisksAreTheSame`).
- Whatever mount failed and whatever the chrooted commands mounted, the teardown leaves exactly the mounts outside the
  chroot (`Teardown.TeardownClears`, `ChrootMounts.RunCmdsWithChrootSetup`); a run that nothing disturbs restores the
  mount table without a failing command (`ChrootMounts.UndisturbedTeardown`).
- The computed plan is the one list of the needed states in one fixed order (`Plan.PlanIsUnique`, `Plan.CalculateStates`).
- Repairing the fstab and setting defaults are idempotent (`Fstab.FixFstabIsIdempotent`, `Defaults.DefaultedTwice`).

Properties that fail on some inputs, with the exact condition under which they hold:

- the GPT overlap test is exact if and only if the disk holds the backup table; below that the unsigned subtraction
  wraps around (`PartitionTable.OverlapTestIsExactIff`);
- the boot partition number counts a skipped partition on a seeded image (`PartitionTable.BootNumberIsExactIff`);
- the `dd` seek is a floor and the table start a ceiling: they agree on a volume if and only if every start is
  aligned (`ImageCopy.SeeksAreTableStartsIff`);
- the bounds check of an offset write looks at the sector number, not at the place of the write: the writes of a volume
  keep the size of the image if and only if every window lies inside it (`ImageCopy.PatchKeepsSizeIff`, and
  `ImageCopy.WriteBeyondEndGrowsImage` for one that does not). Only a gadget with an offset write past the end of its
  volume can fail (`ImageCopy.WritesInVolumeKeepSize`); whether snapd lets such a gadget through is not part of this
  model;
- makeDisk visits a map: with a rootfs on some disk, the recorded partition numbers are those of the recorded rootfs
  volume for every order of visits if and only if every disk has a rootfs (`VisitOrder.NumbersFitRootfsVolumeIff`), and
  what is recorded is the same for all orders if and only if no two disks compete (`VisitOrder.RecordIgnoresOrderIff`);
- a build can be resumed after a failed invocation if and only if there was metadata and the failure precedes opening
  the file for writing (`Runner.FailureKeepsMetadataIff`, `Runner.ResumableAfterFailureIff`);
- a requested image size is honoured if and only if the raised rootfs ends inside it (`Sizing.RequestIsHonouredIff`);
- a key with a line `.` does not survive the Signed-By format (`SigningKey.KeyRoundTrip`);
- a build interrupted after verify_artifact_names loses the volume of an unnamed qcow2 entry
  (`Resume.VerifyIsResumeSafeIff`, `ArtifactFiles.ResumeFindsFileIff`);
- after a failed mount preparation the chroot is cleared if and only if every mount that is taken for one of the
  program's own lies strictly below an earlier mount that is not (`LateMounts.FailedPreparationClearsIff`); a leftover
  devtmpfs stays (`ChrootMounts.LeftoverMountStays`);
- a make-dirs entry without permissions makes SetDefaults fail, although its tag has a default
  (`Defaults.MakeDirsEntryNeedsPermissions`).

Where code and documentation disagree the code is followed: the struct tag `default:"0755"` of the make-dirs
permissions announces a default that the code refuses to set, and the comment on `populatePreparePartitions` speaks of
tracking offsets, which that function does not do.

## Model

| member | source | states |
|---|---|---|
| Quantities.AlignUpIsLeast | internal/statemachine/common_states.go:269-272 | aligning gives the smallest multiple of the sector size that is not below the size |
| Quantities.CeilDivUnique | internal/partition/partition.go:218-220 | the sector count is the only one whose sectors hold the bytes without a sector to spare |
| Quantities.FloorIsCeilIffAligned | internal/statemachine/helper.go:437-438 | a truncated and a rounded-up sector number agree exactly on aligned offsets |
| Structures.LookupIsPositionalIff | internal/partition/partition.go:67-96 | reading extents by YAML index gives every structure its own exactly when namesakes share an extent |
| Structures.LookupIgnoresLabels | internal/statemachine/state_machine.go:494-505 | any two injective labellings of a volume make every lookup read the same extent |
| Structures.Reindexed | internal/statemachine/state_machine.go:498-505 | rebuilding the index changes nothing but labels and makes them distinct |
| Structures.OrderedEndsInVolume | internal/statemachine/common_states.go:480 | on an ordered volume every structure ends within the size of the volume |
| PartitionTable.OverlapsMeans | internal/partition/partition.go:230-235 | without wrap-around the 64-bit overlap test is the comparison with both tables |
| PartitionTable.OverlapTestIsExactIff | internal/partition/partition.go:222-235 | the test accepts exactly the partitions in the usable LBA range of section 5.3.1 of the UEFI Specification, for all partitions, if and only if the disk is no smaller than the backup table |
| PartitionTable.MbrEntryIsExactIff | internal/partition/partition.go:143-156 | the 32-bit start and size of an MBR entry are the real sector numbers exactly below 2^32 |
| PartitionTable.Table.AddPartition | internal/partition/partition.go:143-196 | an MBR takes every partition, a GPT those that pass the overlap test; a rejected one leaves the table as it was |
| PartitionTable.AddStructure | internal/partition/partition.go:91-99 | the verdict and the row are those of the structure at that position of the volume |
| PartitionTable.ScanVolume | internal/partition/partition.go:63-111 | the loop ends in the state that the scan of all structures defines, or in the overlap error |
| PartitionTable.GeneratePartitionTable | internal/partition/partition.go:63-111 | it fails exactly when a tabled structure overlaps; else the table lists the tabled structures in order, the rootfs number is -1 or that of the last tabled system-data structure, and the BIOS flag is set exactly when some partition is a BIOS one |
| PartitionTable.ScannedMeans | internal/partition/partition.go:63-111 | the same statement about the scan of the first n structures |
| PartitionTable.TabledMeans | internal/partition/partition.go:70-91 | the tabled positions are, increasing and once each, the partitions that are not skipped |
| PartitionTable.SeededRootfsNumber | internal/partition/partition.go:85-91 | on a seeded image the rootfs number is always -1 |
| PartitionTable.BootNumberIsExactIff | internal/partition/partition.go:74-87 | the boot number numbers the last tabled system-boot structure if and only if the image is not seeded or has no system-boot partition |
| PartitionTable.TableIgnoresLabels | internal/partition/partition.go:67-96 | injective relabelling changes no row, no verdict and no tabled position |
| PartitionTable.ScanIgnoresLabels | internal/statemachine/state_machine.go:494-505 | hence the table and the recorded numbers of a resumed run are the same |
| Sizing.RootfsSizeIsAligned | internal/statemachine/common_states.go:154-236 | the chosen rootfs size, the largest of padded content, aligned gadget minimum and desired size, is a multiple of the sector size |
| Sizing.CalculateRootfsSizeIsIdempotent | internal/statemachine/common_states.go:154-188 | computing the size again on the structure it raised gives the same size and the same structure |
| Sizing.DesiredStaysInRequest | internal/statemachine/common_states.go:217-236 | rounding the share of a last and contiguous rootfs up does not push the end of the volume past the request |
| Sizing.RequestIsHonouredIff | internal/statemachine/common_states.go:412-502 | the final disk is exactly the request rounded up plus the table if and only if the raised last rootfs ends within the rounded request |
| Sizing.ContiguousRequestIsHonouredIff | internal/statemachine/common_states.go:217-253 | for a contiguous rootfs only its content, gadget minimum and gadget size have to fit |
| Sizing.CreatedDiskFits | internal/statemachine/common_states.go:478-502 | on the created disk a structure that ends in the volume is rejected exactly when it starts before the first usable LBA, and an accepted one lies in the usable range, for every sector size and without aligned starts |
| Sizing.TableIsGeneratedIff | internal/statemachine/common_states.go:505-510 | partitioning that disk succeeds if and only if no tabled structure starts in the GPT header |
| DiskImage.Disk.WriteAt | internal/statemachine/helper.go:471 | the array, regrown where needed, holds the written file |
| DiskImage.Disk.Dd | internal/statemachine/helper.go:439-451 | the block loop on the array yields the result of dd with bs, seek, count and conv=notrunc,sparse |
| DiskImage.Disk.DdLoop | internal/statemachine/helper.go:439-451 | after n blocks the array holds the first n blocks that are not zero, and nothing else has changed |
| DiskImage.DdBytes | internal/statemachine/helper.go:439-451 | each output byte is the input byte, or the old byte where the input block is all zeros; the length is that of a plain copy |
| DiskImage.SparseCopyIsPlainIff | internal/statemachine/helper.go:445-446 | skipping blocks of zeros gives the file of a plain copy if and only if the skipped bytes were zero before |
| ImageCopy.PlaceOverZeros | internal/statemachine/helper.go:437-451 | over zeros, from an aligned start and with data no longer than the extent, dd writes the data and nothing else |
| ImageCopy.PiecesArePlaced | internal/statemachine/helper.go:427-452 | placing disjoint pieces over zeros leaves each extent with its piece and changes no byte outside |
| ImageCopy.Resized | internal/statemachine/helper.go:139-146 | the file has the asked size |
| ImageCopy.CopyContents | internal/statemachine/helper.go:147-161 | it fails exactly when a blob is missing; else every blob was copied to its running offset in order |
| ImageCopy.CopyStructureNoFs | internal/statemachine/helper.go:138-164 | the part file of a raw structure, made over whatever file was there; none without a size or with a blob missing |
| ImageCopy.RawPartLengthIff | internal/statemachine/helper.go:138-164 | a raw part file is as long as its structure if and only if every blob ends inside it |
| ImageCopy.RawPartIsPlaced | internal/statemachine/helper.go:147-161 | in a new part file, blobs that fit and do not overlap each lie at their running offset, between zeros |
| ImageCopy.CopyDataToImage | internal/statemachine/helper.go:424-454 | it fails at the first missing part file; up to there the image is what copying the structures in order gives |
| ImageCopy.SeeksAreTableStartsIff | internal/statemachine/helper.go:426-437 | the sector that dd seeks to is the start in the row of the table, for every structure of a volume, if and only if all starts lie on sector boundaries |
| ImageCopy.PiecesIgnoreLabels | internal/statemachine/helper.go:426-438 | the dd arguments are the same under any injective relabelling |
| ImageCopy.CopiedImage | internal/statemachine/helper.go:424-454 | with all part files present and fitting, each byte in a copied extent is that of the part file or zero, and each other byte is unchanged |
| ImageCopy.LittleEndianRoundTrip | internal/statemachine/helper.go:469-470 | the four bytes read back as the sector number if and only if it is below 2^32 |
| ImageCopy.WriteOffsetValues | internal/statemachine/helper.go:457-479 | the image after all writes, or after those before the first that fails the bounds check, which wraps around on a tiny image |
| ImageCopy.PatchesStayInWindows | internal/statemachine/helper.go:464-477 | offset writes change no byte outside their four-byte windows |
| ImageCopy.PatchHolds | internal/statemachine/helper.go:464-477 | each window that no later one overlaps ends up with the sector number of its structure |
| ImageCopy.PatchSucceedsIff | internal/statemachine/helper.go:464-477 | on an image of at least four bytes the writes of a volume all pass exactly when every sector number is at most the size less four |
| ImageCopy.PatchKeepsSizeIff | internal/statemachine/helper.go:457-479 | when all writes of a volume pass, the image keeps its size if and only if every window lies inside it |
| ImageCopy.WriteBeyondEndGrowsImage | internal/statemachine/helper.go:465-471 | a write that passes the check and lengthens the image |
| ImageCopy.WritesInVolumeKeepSize | internal/statemachine/helper.go:457-479 | writes within the size of the volume keep the size of any disk that holds the volume |
| ImageCopy.FinishedImage | internal/statemachine/common_states.go:463-471 | after the copy and the offset writes every byte outside the windows is as the copy left it |
| ImageBuild.PopulatedParts | internal/statemachine/common_states.go:374-403 | populating makes the part file of every structure that is not skipped, and only those |
| ImageBuild.PopulatedPartsSuffice | internal/statemachine/helper.go:427-436 | the copy finds every part file it reads |
| ImageBuild.PartFitsIff | internal/statemachine/helper.go:118-197 | a part file is no longer than its structure if and only if the u-boot state file, the raw blobs or the rootfs size fit it |
| ImageBuild.PopulatedAllMeans | internal/statemachine/common_states.go:363-408 | every volume that is not eMMC is populated from its own earlier part files, and the others keep theirs |
| ImageBuild.SizesOnlyGrow | internal/statemachine/common_states.go:405-424 | no recorded size is lost or lowered, and each populated volume has room for its minimal size |
| ImageBuild.VolumeImageIsFaithful | internal/statemachine/common_states.go:429-474 | outside the offset writes, every structure that is not skipped has its part file at its place, and every other byte is what writing the partition table left |
| ImageBuild.PopulatedPartsFit | internal/statemachine/common_states.go:363-408 | when the given files fit, on a volume with or without a rootfs, every part file is there, is the populated one and is no longer than its structure |
| ImageBuild.PopulatedImageIsFaithful | internal/statemachine/common_states.go:363-474 | populating followed by makeDisk gives an image with each populated file at its place, whatever roles the volume has |
| ImageBuild.SizedRootfsFits | internal/statemachine/common_states.go:154-188 | after sizing, the rootfs filesystem fits the rootfs of every volume, as the one rootfs of the gadget was raised to its size |
| ImageBuild.BuiltImagesAreFaithful | internal/statemachine/common_states.go:363-474 | after populating all volumes and makeDisk, the file of every volume with a disk whose file name no later visit takes holds each populated file at its place and the table elsewhere |
| ImageBuild.ImageIgnoresLabels | internal/statemachine/state_machine.go:494-505 | relabelling a volume injectively leaves every byte of its image the same |
| ImageBuild.VisitsCreateFiles | internal/statemachine/common_states.go:429-444 | whatever the order of visits, the files created are those of the named volumes that are not eMMC |
| ImageBuild.VisitsMakeImages | internal/statemachine/common_states.go:429-474 | the file of a volume, unless a later volume has the same file name, is the finished image of that volume |
| ImageBuild.VisitsIgnoreLabels | internal/statemachine/state_machine.go:494-505 | makeDisk on relabelled volumes, visited in the same order, makes the same images and records the same numbers |
| VisitOrder.VisitsAreFolded | internal/statemachine/common_states.go:429-474 | makeDisk folds the disks of the volumes, each of which is told from the volume alone, into images and record |
| VisitOrder.SuccessIgnoresOrder | internal/statemachine/common_states.go:429-474 | makeDisk succeeds in one order of visits exactly when it does in every other: when every disk can be made |
| VisitOrder.LastIsRecorded | internal/statemachine/common_states.go:505-524 | the recorded numbers are those of the last disk visited, the rootfs volume is the last with a rootfs number |
| VisitOrder.NumbersFitRootfsVolumeIff | internal/statemachine/classic_states.go:1355-1387 | with a rootfs on some disk, the numbers that setting up the bootloader uses are those of the recorded rootfs volume in every order of visits if and only if every disk has a rootfs |
| VisitOrder.RecordIgnoresOrderIff | internal/statemachine/common_states.go:505-524 | the recorded numbers and rootfs volume are the same in all orders of visits if and only if no two disks differ in their numbers or have a rootfs beside the other |
| VisitOrder.ImagesIgnoreOrder | internal/statemachine/common_states.go:429-474 | with distinct file names every order of visits leaves the same images |
| VisitOrder.OutcomeIgnoresOrder | internal/statemachine/common_states.go:429-474 | with distinct file names and no competition, any two orders give the same outcome of makeDisk |
| ImageBuild.ImageBuilder.FindRootfs | internal/statemachine/common_states.go:256-266 | some volume with a rootfs and its first rootfs structure, or none exactly when there is no rootfs |
| ImageBuild.ImageBuilder.CalculateRootfsSize | internal/statemachine/common_states.go:154-188 | the recorded size and the raised structure; without a rootfs the padded content size and no change of the volumes; in both cases the volumes are sized |
| ImageBuild.ImageBuilder.GrowImageSize | internal/statemachine/common_states.go:412-424 | the recorded size becomes the larger one, or the given one when there was none |
| ImageBuild.ImageBuilder.PopulateVolume | internal/statemachine/common_states.go:374-403 | the part files of the volume change to the populated ones, or nothing changes and it fails |
| ImageBuild.ImageBuilder.PopulatePreparePartitions | internal/statemachine/common_states.go:363-408 | part files and image sizes after all volumes in gadget order; it fails exactly when populating one of them does |
| ImageBuild.ImageBuilder.PartitionDisk | internal/statemachine/common_states.go:505-524 | the three numbers of the scan are recorded, the rootfs volume only with a rootfs number, and nothing on an overlap |
| ImageBuild.ImageBuilder.MakeVolumeDisk | internal/statemachine/common_states.go:444-472 | the image file of the volume is its finished image, unless the table overlaps or a copy or offset write fails |
| ImageBuild.ImageBuilder.MakeDisk | internal/statemachine/common_states.go:429-474 | the volumes are visited once each in some order up to the first failure; on success exactly the files of named volumes that are not eMMC were created |
| ImageBuild.FillDisk | internal/statemachine/common_states.go:463-471 | table, part files and offset writes on one array give the finished image |
| ImageBuild.MakePart | internal/statemachine/helper.go:118-197 | the part file of one structure: u-boot state, raw blobs, or a filesystem of the prepared size |
| GadgetFixes.Gadget.FixVolume | internal/statemachine/state_machine.go:284-314 | every structure is fixed and its `rootfs:` sources resolved, the walk has gathered offsets and rootfs, the last seed names the main volume; it fails exactly on a content source with `../` or on a boot structure without a path to the root filesystem |
| GadgetFixes.Gadget.FixVolumes | internal/statemachine/state_machine.go:270-315 | the same over all volumes in order, up to the first that cannot be processed |
| GadgetFixes.Gadget.PostProcess | internal/statemachine/state_machine.go:270-320 | all structures fixed, and one rootfs added where FixMissingSystemData adds it |
| GadgetFixes.HandleRootfsScheme | internal/statemachine/state_machine.go:360-378 | the sources of a boot structure have the scheme replaced by the path to the root filesystem, other structures stay; it fails exactly for a boot structure without such a path |
| GadgetFixes.SourceIsResolved | internal/statemachine/state_machine.go:368-373 | a source `rootfs:` followed by a path leads to that path in the root filesystem, and a source without the scheme stays as it is |
| GadgetFixes.ResolutionMayClimb | internal/statemachine/state_machine.go:292-302 | the check for `../` precedes the resolution: a `rootfs:` source passes it whatever the path to the root filesystem, and the resolved one would pass exactly when that path does not climb |
| GadgetFixes.Gadget.FixMissingSystemData | internal/statemachine/state_machine.go:396-424 | nothing changes unless all offsets are known, no rootfs was seen and there is one volume |
| GadgetFixes.SeedMeans | internal/statemachine/state_machine.go:331-343 | a gadget is seeded exactly when it has a system-seed, and one of those names the main volume |
| GadgetFixes.WalkedMeans | internal/statemachine/state_machine.go:270-315 | the walk knows exactly whether a rootfs or an unknown offset occurs, and the farthest end of a structure |
| GadgetFixes.RootfsIsAddedIff | internal/statemachine/state_machine.go:396-424 | a lone volume gets one rootfs exactly when all offsets are known and none is there; it starts at the farthest end, beyond every structure |
| GadgetFixes.AddedRootfsStaysDisjoint | internal/statemachine/common_states.go:183-185 | extents stay disjoint whatever size the added rootfs is raised to |
| GadgetFixes.AddedLabelIsFresh | internal/statemachine/state_machine.go:418-420 | labels that number the structures stay distinct with that of the added rootfs |
| GadgetFixes.AddedRootfsIsLastAndContiguous | internal/statemachine/state_machine.go:406-423 | on an ordered volume of fixed-size structures the added rootfs is last and contiguous, as honouring a requested size needs |
| Runner.RestoreOfSave | internal/statemachine/state_machine.go:447-505 | saving and restoring keeps every field and structure but the labels, which become distinct |
| Runner.RestoreIsIdempotent | internal/statemachine/state_machine.go:447-505 | a second save and restore changes nothing |
| Runner.RebuildYamlIndex | internal/statemachine/state_machine.go:498-505 | every structure of every volume gets its position as label |
| Runner.CutMeans | internal/statemachine/state_machine.go:614-648 | a run stops before the first --until name, right after the first --thru name, or at the end |
| Runner.PassedStopIsIgnored | internal/statemachine/helper.go:80-104 | a stop name that only completed states carry passes the validation of a resumed run, which then runs to the end of the plan |
| Runner.Machine.ValidateUntilThru | internal/statemachine/helper.go:80-104 | accepted exactly without a stop name or with one in the whole plan |
| Runner.Machine.LoadState | internal/statemachine/state_machine.go:447-492 | the completed states are dropped and the saved fields restored, unless more steps were saved than the plan has |
| Runner.Machine.DisplayStates | internal/statemachine/state_machine.go:508-534 | the names up to the cut, on a debug or dry run |
| Runner.Machine.RunStates | internal/statemachine/state_machine.go:614-648 | steps counted, step recorded and state reached by executing the states up to the cut; nothing on a dry run |
| Runner.Machine.RunLoop | internal/statemachine/state_machine.go:614-648 | the same for the loop: on an error the prefix before the failing state is executed and counted |
| Runner.Machine.Teardown | internal/statemachine/state_machine.go:651-659 | nothing on a dry run; a temporary work directory is removed and the metadata left alone; else the metadata is written |
| Runner.WriteMetadata | internal/statemachine/state_machine.go:538-556 | a write that succeeds replaces the metadata, one that cannot open the file leaves it, and one that fails after that has truncated it |
| Runner.Setup | internal/statemachine/snap.go:38-82 | validation of flags and stop names over the whole plan comes before the saved state is loaded |
| Runner.RunAndTeardown | internal/statemachine/state_machine.go:614-659 | the teardown follows a successful run alone; its failure is that of the invocation, and the metadata is what the write left |
| Runner.Execute | cmd/ubuntu-image/main.go:62-75 | one invocation: set-up, listing, run and teardown, with the outcome of the metadata write, and with the listed names those of the remaining plan up to the cut |
| Runner.Invoke | cmd/ubuntu-image/main.go:62-75 | an invocation completes no more states than the plan has left |
| Runner.FailureKeepsMetadataIff | internal/statemachine/state_machine.go:538-556 | a failed invocation leaves the saved metadata as it was if and only if there was none or it fails before the file is opened |
| Runner.ResumableAfterFailureIff | cmd/ubuntu-image/main.go:62-75 | after a failed invocation a valid resume is set up if and only if there was fitting metadata and the failed one did not open the file; it then starts where the failed one would have resumed |
| Runner.DisplayedIsExecuted | internal/statemachine/state_machine.go:508-648 | the listed states are, in order, those that a successful run completes; a failed run has completed a proper prefix of them and the next one listed failed |
| Chains.RunsCompose | internal/statemachine/state_machine.go:614-648 | running k states and then n of the rest is running k + n |
| Chains.RunsStayAlike | internal/statemachine/state_machine.go:447-505 | two runs of interchangeable versions of the same states, from states that reload alike, end alike in states that reload alike |
| Chains.ResumeSafeIsInterchangeable | internal/statemachine/state_machine.go:447-505 | a state function that cannot tell a resumed run is one that is interchangeable with itself |
| Chains.ChainIsOneRun | internal/statemachine/state_machine.go:447-659 | any chain of successful invocations, each with its own stop and its own versions of the states, completes a prefix of the plan with each state once; the saved step count is its length, and fields and files are those of one uninterrupted run of it |
| Chains.ChainIsSomeRun | internal/statemachine/state_machine.go:447-659 | when every invocation has versions of the states of its own, none of which can tell a resumed run, the chain is one uninterrupted run of a plan in which each state is as one of the invocations has it |
| Plan.StateList.AddGadgetStates | internal/statemachine/classic.go:424-438 | exactly the gadget states that the definition needs |
| Plan.StateList.AddRootfsFromTarballStates | internal/statemachine/classic.go:440-471 | exactly the needed rootfs states, for a tarball |
| Plan.StateList.AddRootfsFromSeedStates | internal/statemachine/classic.go:473-501 | exactly the needed rootfs states, for a seed |
| Plan.StateList.AddCustomizationStates | internal/statemachine/classic.go:506-518 | exactly the needed customization states |
| Plan.StateList.AddImgStates | internal/statemachine/classic.go:546-558 | the sizing states, and a disk for .img artifacts |
| Plan.StateList.AddQcow2States | internal/statemachine/classic.go:560-575 | a disk is made unless one already is, before the conversion |
| Plan.StateList.AddDiskStates | internal/statemachine/classic.go:525-531 | whichever callee makes the disk, it is made once |
| Plan.StateList.AddArtifactsStates | internal/statemachine/classic.go:521-544 | the list becomes the whole plan |
| Plan.CalculateStates | internal/statemachine/classic.go:363-422 | the plan of the definition is appended to the states of the machine |
| Plan.PlanOfIsPlan | internal/statemachine/classic.go:363-575 | a plan has exactly the needed states, in strictly increasing order of one fixed ranking |
| Plan.PlanIsUnique | internal/statemachine/classic.go:363-575 | there is one such list, so a resumed run computes the plan it was interrupted in |
| Plan.NamesAreDistinct | internal/statemachine/classic.go:363-575 | no two states of a plan have the same name |
| Plan.StopNamesOneState | internal/statemachine/helper.go:80-104 | --until and --thru with the name of a state of the plan cut it in one place, right before or right after that state |
| Plan.InputsAreMadeIff | internal/statemachine/classic.go:226-267 | every state follows those that make what it reads, package and snap lists of a seed included, exactly when the gadget type is known and, as validateGadget checks, no artifact needs a disk without a gadget |
| ArtifactFiles.Artifacts.PrepareImgArtifactsMultipleVolumes | internal/statemachine/classic_states.go:456-467 | it fails exactly on an entry without a volume; else each volume has the name of its last entry |
| ArtifactFiles.Artifacts.PrepareQcow2ArtifactsMultipleVolumes | internal/statemachine/classic_states.go:475-504 | it fails exactly on an entry without a volume; else volumes without an .img entry get the name of their last qcow2 entry |
| ArtifactFiles.Artifacts.PrepareImgArtifactOneVolume | internal/statemachine/classic_states.go:506-518 | the first entry names the image of its volume, the only one by default |
| ArtifactFiles.Artifacts.PrepareQcow2ArtifactOneVolume | internal/statemachine/classic_states.go:526-548 | the first entry is given the only volume in the list itself, and names an image only without .img entries |
| ArtifactFiles.Artifacts.VerifyArtifactNames | internal/statemachine/classic_states.go:431-454 | without artifacts nothing changes; with several volumes it fails exactly on an unnamed entry; what it leaves is the verified map and list |
| ArtifactFiles.MakeQcow2Img | internal/statemachine/classic_states.go:1329-1349 | every entry is converted from its backing file, up to the first failure |
| ArtifactFiles.BackingIsMadeIff | internal/statemachine/classic_states.go:431-548 | the volume of a qcow2 entry gets a disk exactly when the entry, told from the definition, stands for a real volume with a disk; its backing file is then created |
| ArtifactFiles.BackingFilesAreMade | internal/statemachine/classic_states.go:1329-1349 | with real volumes and at most one entry of each kind for a single volume, every file that is converted is one that makeDisk creates |
| ArtifactFiles.ImgIsNotRenamed | internal/statemachine/classic_states.go:485-502 | no qcow2 entry changes the file name that an .img entry gives its volume |
| ArtifactFiles.ResumeFindsFileIff | internal/statemachine/classic_states.go:531-541 | after a resume an entry finds the file made for it if and only if it named its volume itself |
| Resume.ReloadRebuilds | internal/statemachine/state_machine.go:447-505 | saving and restoring rebuilds the labels of the gadget, and changes that alone |
| Resume.CalculateIsInterchangeable | internal/statemachine/common_states.go:154-188 | calculateRootfsSize from the reloaded fields, searching the volumes in another order, finds the same rootfs and raises it to the same size |
| Resume.PopulateIsInterchangeable | internal/statemachine/common_states.go:363-408 | populatePreparePartitions from the reloaded fields makes the same part files and image sizes |
| Resume.MakeDiskIsResumeSafe | internal/statemachine/common_states.go:429-474 | for every gadget, makeDisk from the reloaded fields in the same order of visits has the same outcome |
| Resume.InterruptedDisksAreSomeRun | internal/statemachine/classic.go:23-27 | for every gadget, the states from a loaded gadget to its disks, interrupted anywhere and any number of times, every invocation with orders of visits of its own, end with the fields, part files and images of one run with some orders |
| Resume.InterruptedDisksAreTheSame | internal/statemachine/classic.go:23-27 | where no two disks compete for the recorded numbers, they end with those of one run with any orders |
| Resume.BuiltDisksAreFaithful | internal/statemachine/common_states.go:154-474 | after sizing, populating and making the disks in any orders, on a gadget with at most one rootfs, every image file of a volume that is laid out in order and whose given files fit is faithful, with or without a rootfs |
| Resume.InterruptedDisksAreFaithful | internal/statemachine/common_states.go:154-474 | so are the image files of a finished build, however often it was interrupted and in whatever orders its invocations visited the volumes |
| Resume.MakeDiskIsInterchangeable | internal/statemachine/common_states.go:429-474 | makeDisk from the reloaded fields, in another order of visits, makes the same images, records the same numbers and fails alike |
| Resume.VerifyRunIsVerified | internal/statemachine/classic_states.go:431-454 | the run of verify_artifact_names as a state function leaves what the method is proved to leave |
| Resume.VerifyIsResumeSafeIff | internal/statemachine/classic_states.go:431-548 | a run may be interrupted after verify_artifact_names, for every gadget, exactly when the first qcow2 entry names its volume or an empty list makes the state fail |
| MountDiff.DiffMountPoints | internal/statemachine/mount_helper.go:94-110 | despite deleting in place, the result is the difference of the two lists |
| MountDiff.RemoveEqual | internal/statemachine/mount_helper.go:97-102 | the first equal mount is deleted from the array and the others keep their order |
| MountDiff.ShiftLeft | internal/statemachine/mount_helper.go:100 | deleting from a slice in place gives the slice without that element |
| MountDiff.DiffIsMatching | internal/statemachine/mount_helper.go:94-130 | the difference is a subsequence of the current mounts; the removed ones match distinct old mounts, and an old mount that removed nothing equals nothing that is left |
| MountDiff.DiffIsMultisetDifference | internal/statemachine/mount_helper.go:94-130 | without bind mounts it is the multiset difference by source, path and type |
| MountTable.Kernel.Exec | internal/statemachine/mount_helper.go:58-63 | an unmount takes away the topmost mount at its path with what was mounted at or below the path since; it fails exactly when nothing is mounted there |
| MountTable.UnmountIsUnmounted | internal/statemachine/mount_helper.go:63 | it removes only mounts at or below its path, and one at the path when there is one |
| MountTable.UnmountConcat | internal/statemachine/mount_helper.go:63 | it reaches the earlier part of a table only when the later part has no mount at its path |
| Teardown.ParseMounts | internal/statemachine/mount_helper.go:146-172 | the mounts on the lines of the text whose path has the prefix, the latest first |
| Teardown.MountTextShows | internal/statemachine/mount_helper.go:133-172 | reading the text of a mount table gives the mounts of that table |
| Teardown.UmountAddedMountPointsCmds | internal/statemachine/mount_helper.go:78-91 | unmounts for exactly the mounts of the difference, none when the table cannot be read |
| Teardown.ExecTeardownCmds | internal/statemachine/helper.go:662-683 | every command is executed, whatever failed before it, and the reported failures are the commands that found nothing mounted at their path |
| Teardown.TeardownClears | internal/statemachine/mount_helper.go:67-110 | the whole teardown list, on any mount table, leaves exactly the mounts outside the chroot |
| LateMounts.AfterUmountsIsLeft | internal/statemachine/mount_helper.go:78-91 | what is left of the later mounts when those that the difference keeps were unmounted, the latest first |
| LateMounts.FailedPreparationClearsIff | internal/statemachine/classic_states.go:349-352 | after a failed preparation the teardown clears the chroot if and only if every mount that is taken for a declared one lies strictly below an earlier mount that is not |
| ChrootMounts.GenerateMountPointCmds | internal/statemachine/classic_states.go:399-425 | mount commands in order and unmount commands in reverse, or none when a mount point cannot be prepared |
| ChrootMounts.RunMounts | internal/statemachine/classic_states.go:357-360 | it succeeds exactly when every mount does, and the table has grown by the mounts before the first that fails |
| ChrootMounts.RunMounted | internal/statemachine/classic_states.go:357-396 | mounts, diversions, the chrooted commands and undoing the diversions: success exactly when all succeed, and the commands run exactly when all before them did |
| ChrootMounts.TeardownMount | internal/statemachine/mount_helper.go:67-75 | on a readable table cleared exactly when the commands were prepared or the leftovers are covered; in any case no mount outside is touched, and every declared path loses as many mounts as were prepared there |
| ChrootMounts.RunCmdsWithChrootSetup | internal/statemachine/classic_states.go:286-396 | from any failure point, and with any mounts added by the chrooted commands, the table ends with exactly the mounts outside the chroot that those commands left; it succeeds exactly when every step and every unmount does |
| ChrootMounts.UndisturbedTeardown | internal/statemachine/classic_states.go:286-396 | when all mounts succeed as asked and the commands leave none, the teardown restores the mount table and none of its commands fails |
| ChrootMounts.LeftoverMountStays | internal/statemachine/classic_states.go:305-345 | a devtmpfs that an earlier build left at /dev of the chroot stays after a failed preparation, unless the chroot itself was mounted before it |
| Fstab.GenerateFstabLines | internal/statemachine/classic_states.go:1184-1223 | the loop with its found flag gives the repaired lines |
| Fstab.FixFstab | internal/statemachine/classic_states.go:1160-1181 | the repaired file, or the file as it was when the fstab is customized |
| Fstab.RepairIsIdempotent | internal/statemachine/classic_states.go:1184-1223 | repairing repaired lines changes nothing |
| Fstab.FixFstabIsIdempotent | internal/statemachine/classic_states.go:1160-1181 | fixing a fixed file changes no byte, whatever it held |
| Fstab.RepairContents | internal/statemachine/classic_states.go:1184-1223 | comments and valid entries survive in order with their fields; the first root entry of the result carries the label, options and fsck order |
| Fstab.ReadBack | internal/statemachine/classic_states.go:1204-1216 | an emitted entry is read back with its fields, or as a comment when its first field starts with `#` |
| SigningKey.FormatKey | internal/ppa/ppa.go:372-388 | the formatted key, or the error on an empty one |
| SigningKey.FormattedLines | internal/ppa/ppa.go:372-388 | every line starts with a space and is longer; it is a continuation line (section 5.1 of Debian Policy) exactly when its key line is empty or has visible text |
| SigningKey.KeyRoundTrip | internal/ppa/ppa.go:372-388 | decoding gives the trimmed key back exactly when no line of it is a lone dot |
| Defaults.DefaultedTwice | internal/helper/helper.go:110-138 | a second run after a successful one succeeds and changes nothing |
| Defaults.DefaultedCompletes | internal/helper/helper.go:110-211 | a successful run changes nothing but zero values, anywhere in the tree, and those as their tags say |
| Defaults.CompletedHasNoNilBools | internal/helper/helper.go:156-184 | no struct it reaches is left with a nil pointer to a bool |
| Defaults.DefaultedIff | internal/helper/helper.go:110-211 | it succeeds exactly when no reached zero value has a default of an unsupported type and every reached slice has neither nil elements nor spare capacity |
| Defaults.MakeDirsEntryNeedsPermissions | internal/imagedefinition/image_definition.go:139-143 | a make-dirs entry can be given its defaults exactly when its permissions are set |
| DefaultsInPlace.SetDefaults | internal/helper/helper.go:110-138 | writing through the pointers, the struct ends with the value that the specification computes, or with the same failure |
| DefaultsInPlace.SetDefaultToField | internal/helper/helper.go:116-136 | one field and the structs it points to change, and no other field |
| DefaultsInPlace.SetDefaultToPtr | internal/helper/helper.go:156-184 | the struct behind a pointer gets its defaults, a nil pointer to a bool a value, and any other pointer stays |
| DefaultsInPlace.SetDefaultToBasicType | internal/helper/helper.go:188-211 | a zero string or string slice gets its default; a bool, another type or another slice fails as in the program |
| DefaultsInPlace.SetDefaultsToSlice | internal/helper/helper.go:143-151 | every element gets its defaults in order; an element beyond the length fails |
| DefaultsInPlace.SetDefaultsToElement | internal/helper/helper.go:143-163 | one struct changes, and those reached from the other pointers do not |

## Left out

- External commands (dd, mount, umount, mkfs, apt, losetup, qemu-img and others): dd has its documented conv=sparse,notrunc effect, `umount --recursive` takes the topmost mount at its path with the mounts at or below the path made since, it and `mount --make-rprivate` fail only where nothing is mounted, and filesystems made by mkfs are given bytes.
- snapd and go-diskfs: gadget parsing and validation, LayoutVolume, seeds and the encoding of tables; the layout is the running-offset walk, and the bytes of a table, with the disk ID that an MBR gets, are given writes.
- Floating point: ceilings are exact, which holds for sizes below 2^53; sizes are unbounded except where a 64-bit or 32-bit wrap-around is written out.
- Volumes are values in a map, so the aliasing of volume pointers and of the slice that post-processing appends to is not modelled.
- The lk bootloader preparation of a volume.
- ImageCopy.WriteOffsetValues: requires an explicit offset on every structure with an offset write, as the program dereferences it.
- ImageBuild.ImageBuilder.MakeDisk: says nothing about the file of a volume whose making failed.
- ImageBuild.VolumeImageIsFaithful: for aligned starts and part files that fit, as dd seeks to the sector below; the exact conditions are SeeksAreTableStartsIff and PartFitsIff.
- Resume.InterruptedDisksAreTheSame: for gadgets in which no two disks compete for the recorded numbers and one volume at most has a rootfs; for others the numbers depend on the order (VisitOrder.RecordIgnoresOrderIff), and Resume.InterruptedDisksAreSomeRun states what holds.
- Resume.BuiltDisksAreFaithful: for one rootfs at most, as sizing raises the first rootfs that it finds and no other.
- The work directory and the confinement checks on it, and the JSON encoding of the metadata: a write either succeeds, cannot open the file, or fails after truncating it, and a truncated or partial file cannot be read.
- A negative saved step count, which no invocation writes.
- The snap image's fixed list of states, and the meaning of states other than those in the table.
- ArtifactFiles.Artifacts.VerifyArtifactNames: for a single-volume gadget an empty entry list and a gadget without volumes are required away, as the program indexes into them.
- ChrootMounts.RunCmdsWithChrootSetup: the backup of resolv.conf and the diversions of chroot programs succeed or fail as given, and their files are not modelled.
- Teardown.ParseMounts: every line that is not empty has four fields, as the program indexes into them.
- ChrootMounts.GenerateMountPointCmds: the scratch directory of a bind mount is one given name, and paths are already normalised, without octal escapes.
- Defaults.DefaultedIff: a string slice has no spare capacity, and a slice pointer is any other pointer, as the program does not look behind it.
- DefaultsInPlace.SetDefaults: the pointers of the structs form a tree, without sharing or cycles.
- Plan.StateList.AddGadgetStates: like the other methods of the list, it is stated for the list that calculateStates has built up to it.
- Warnings, error texts and other output, of which only the listing of states is modelled.
- Sources lists, cloud-init, locale, manifests, users and groups, PPA files and key fetching: string assembly or I/O with only easy claims.
