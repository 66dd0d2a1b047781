# Visor, modelled and proved in Dafny

Visor is a microVM runtime. This project models the algorithms in it whose
correctness is a property of a whole loop, a whole run or a whole protocol, and
proves those properties for all inputs. `dafny verify dfyconfig.toml` checks
everything; the project needs nothing besides Dafny.

## What is modelled

**Build layers** (`Paths`, `Changeset`, `Overlay`, `DiffApply`, `BuildRun`, `BuildLayers`,
`Layer`, `LayerMerge`, `LayerPipeline`, `Merger`, `MergerLaws`, `MergerDiff`, `MergerCases`,
`MergeRun`). The guest captures
a manifest of its file system, diffs it against a baseline and archives the
difference; the host rewrites overlayfs archives into layers; a layer is applied
to the tree below it. `Changeset` is the reference: what the sections "Changeset over
existing files", "Whiteouts" and "Opaque Whiteout" of the OCI Image Layer
Filesystem Changeset specification say a layer means. Paths are sequences of names,
trees are maps from paths to entries, archives are sequences of items.

**Live migration** (`DirtyTracking`, `PreCopy`, `Migration`, `MigrationEnds`). The packed
dirty bitmap refines a set of pages, the pre-copy rounds always stop, and in every
interleaving of guest writes, rounds, page reads and deliveries the destination
ends with the memory of the source; every migration can be brought to that end.

**The build engine** (`Dockerfile`, `Stages`, `Tokenizer`, `Substitute`, `SubstituteLaws`,
`Executor`, `Engine`, `EngineLaws`). Stage selection is a least fixed point, variable
substitution refines an unambiguous token grammar whose forms have the documented values,
variables hold what takes precedence until they are set again, and the calls of every build are the plan that its
Dockerfile, arguments and selected stages give, as far as the executor lets it go.
`BuildLayers` joins the engine's calls with the guest that answers them.

**Addresses and time** (`Numbers`, `Bytes`, `Fnv`, `Network`, `Cidr`, `Calendar`).
Deterministic guest addresses, subnets and bridges, the FNV-1a hash behind them,
CIDR text, and civil dates from epoch days.

**Texts and protocols** (`Strings`, `Text`, `Decimal`, `Hexadecimal`, `Json`,
`CpuSnapshot`, `CpuSnapshotArm`, `ImageRef`, `Serial`, `SerialStdout`, `Framing`,
`FrameWriters`). Saved CPU state, image references, the serial marker protocol and
the stream socket that two threads share.

**The VM registry** (`Registry`). Names and CIDs over every interleaving of the
backend's lock sections.

Code that updates fields or loops is a class or a method here, proved against a
specification function; what is promised is then proved about that function.
Concurrency is a state machine over lock sections and single writes, and a theorem
about it quantifies over all executions.

## Where the code does not do what one would expect

The lemmas named give inputs on which it happens and the exact condition under which it does not.

- A diff does not survive names that start with `.wh.`: an added file of that kind is
  lost, and deleting a file called `.wh..opq` takes its unchanged siblings along
  (`DiffApply.MisreadNames`, `DiffApply.DiffThenApply`).
- `transform_tar` documents that the overlay attribute must be `y`, but takes any
  value for opaque (`LayerMerge.OtherValueMarked`, `LayerMerge.TransformTarMeansMerge`).
- The host's `LayerMerger` does not give the current tree from a layer in which a path
  changes between directory and non-directory. It fails at the first such path, except
  where a directory takes the place of a symlink: then it goes on where the symlink leads
  and can report success with another tree. A file in the new directory then ends up in the
  one the symlink leads to, or even in the place of another symlink
  (`MergerCases.DirectoryBecomesFile`, `MergerCases.SymlinkBecomesDirectory`,
  `MergerCases.ChildGoesElsewhere`, `MergerCases.LinkReplaced`, `MergerDiff.UnpackDiff`).
- Neither such a layer nor a misread name need show in the end: a later layer can put it
  right (`MergerCases.ThereAndBack`, `BuildRun.MisreadThenGone`).
- A boot log that ends without a line feed, in a line that is not blank, hides the marker
  in front of the user's output (`SerialStdout.OrdinaryBoot`, `SerialStdout.BootDecides`).
- The engine returns the layers of the last selected stage; with a forward
  reference that is not the target (`Stages.ForwardReferenceEndsElsewhere`,
  `Stages.LastIsTarget`).
- `StopAndCopy` carries no page list. The last pages have to be those of the stop
  round together with those logged up to the pause (`Migration.LogAloneIsNotEnough`,
  `Migration.FinalPagesSuffice`).
- `dirty_count` counts padding bits as well
  (`DirtyTracking.DirtyCountIsPagesAndPadding`).
- The host's frame encoder clamps the size of a payload of 2^32 bytes or more, where
  the guest's reports an error (`FrameWriters.Clamped`, `FrameWriters.HostFrames`).

## Model

| member | source | states |
|---|---|---|
| Paths.AncestorFirst | crates/visor-init/src/overlay.rs:250-256 | in the order of a map keyed by paths an ancestor comes strictly before what is below it |
| Paths.SortedPaths | crates/visor-init/src/overlay.rs:142-147 | the keys in iteration order: ascending, and exactly the set |
| Paths.SortedUnique | crates/visor-init/src/overlay.rs:142-147 | that list is the only ascending one |
| Overlay.VisitPath | crates/visor-init/src/overlay.rs:149-210 | the in-place walk adds exactly the captured tree of the listing to the manifest, whatever was in it |
| Overlay.VisitChild | crates/visor-init/src/overlay.rs:157-207 | one directory entry: ignored and unsupported ones add nothing, directories recurse |
| Overlay.CapturedExactly | crates/visor-init/src/overlay.rs:149-224 | a manifest holds a path if and only if it is there, is not ignored and is a directory, file or symlink, and then its entry has that kind, its metadata, and the digest or target |
| Overlay.IgnoredPaths | crates/visor-init/src/overlay.rs:212-224 | the ignored paths are exactly those that begin with `proc`, `sys`, or `tmp` and `build-overlay` |
| Overlay.ChangedOnDisk | crates/visor-init/src/overlay.rs:250-263 | between two disks a path is archived if and only if it is recorded on the second one and is new or differs in kind, metadata, digest or target; it counts as deleted if and only if it was recorded only on the first |
| Overlay.CaptureWellFormed | crates/visor-init/src/overlay.rs:142-224 | every captured manifest is parent-closed, in whatever order directories are listed |
| Overlay.TopmostDeleted | crates/visor-init/src/overlay.rs:250-256 | every deleted path lies at or below a topmost deleted one |
| Overlay.AncestorSeen | crates/visor-init/src/overlay.rs:269-273 | because ancestors sort first, the roots found so far decide whether a path lies below a deleted one |
| Overlay.BuildDiffArchive | crates/visor-init/src/overlay.rs:242-267 | the two loops produce exactly the whiteouts of the topmost deleted paths in order, then the added and changed entries in order |
| Overlay.AppendChanged | crates/visor-init/src/overlay.rs:258-263 | the second loop appends each added or changed path once, in order, with the entry of the current tree |
| Changeset.WhiteoutMeaning | crates/visor-init/src/overlay.rs:275-296 | the member written to delete a path is an empty file of mode 0644, its name behind `.wh.`, and is read as deleting the path, except for the one name that makes it an opaque whiteout |
| Changeset.PutReplaces | crates/visor-runtime/src/oci/layers.rs:140-195 | on a tree, a directory over a directory replaces its attributes, and in all other cases the existing path is removed with all below it and recreated |
| Changeset.ApplyOverlays | crates/visor-runtime/src/oci/layers.rs:140-195 | placing the entries of a layer one by one, in whatever order, is one simultaneous overlay |
| Changeset.InOrderAgrees | crates/visor-runtime/src/oci/layers.rs:106-129 | a reader that acts on each member as it comes ends with what the layer means if and only if no whiteout comes after an entry of the layer that it hides |
| DiffApply.WhiteoutsExact | crates/visor-init/src/overlay.rs:250-256 | the whiteouts form an antichain, cover exactly the deleted paths and touch no path that is still there |
| DiffApply.MisreadLoses | crates/visor-init/src/overlay.rs:242-296 | whenever a name is misread the applied result differs from the current tree |
| DiffApply.DiffThenApply | crates/visor-init/src/overlay.rs:242-273 | for all parent-closed trees, applying the diff of b and c to b gives exactly c, across every change of kind, if and only if no name can be misread |
| DiffApply.MisreadNames | crates/visor-init/src/overlay.rs:275-296 | concrete trees for both kinds of misreading |
| DiffApply.DiffInOrder | crates/visor-init/src/overlay.rs:242-267 | the diff lists whiteouts first, so a reader that acts member by member gets the same tree |
| DiffApply.PlainUnambiguous | crates/visor-init/src/overlay.rs:242-273 | trees without reserved names are never misread |
| DiffApply.ApplyElsewhere | crates/visor-init/src/overlay.rs:242-273 | for all names: on another tree than its baseline a diff gives the current tree if and only if that tree agrees with everything the diff leaves unsaid |
| BuildRun.BuildOverlay.constructor | crates/visor-init/src/overlay.rs:48-60 | the first baseline is the captured disk |
| BuildRun.BuildOverlay.SnapshotLayer | crates/visor-init/src/overlay.rs:65-103 | the layer is the archived difference between baseline and disk; the baseline stays |
| BuildRun.BuildOverlay.Flatten | crates/visor-init/src/overlay.rs:110-115 | the baseline becomes the captured disk |
| BuildRun.RunBuild | crates/visor-build/src/engine.rs:745-768 | the loop of snapshot and flatten over all instructions yields the layers of the run's specification |
| BuildRun.LayersRebuildDisk | crates/visor-init/src/overlay.rs:48-115 | for every run, if the disk is the same at each snapshot and its flatten, folding the layers over the first manifest gives the manifest at the snapshot, after every instruction, if and only if no instruction's names can be misread |
| BuildRun.RebuiltExactly | crates/visor-init/src/overlay.rs:48-115 | for all names and all disturbances, the layers fold to the manifest at the last snapshot if and only if those before the last one agree with it on everything the last one leaves unsaid |
| BuildRun.MisreadThenGone | crates/visor-init/src/overlay.rs:242-296 | a concrete run in which a misread name does not show in the end |
| BuildRun.DisturbedRefresh | crates/visor-init/src/overlay.rs:110-115 | if the disk changed between a snapshot and its flatten, the next layer rebuilds the disk if and only if the earlier snapshot agrees with all that the refreshed baseline makes the layer leave out |
| BuildLayers.RunGuest | crates/visor-init/src/listener.rs:616-640 | the agent, answering any calls with its build overlay, takes the layers of its specification, under the names it replies with |
| BuildLayers.StepAgrees | crates/visor-build/src/engine.rs:745-768 | every successful call keeps engine and guest in agreement on names, layers and baseline, between a snapshot and its flatten as well |
| BuildLayers.SidesAgree | crates/visor-build/src/engine.rs:308-381 | so they agree after every trace of successful calls that begins with an overlay and flattens after each snapshot |
| BuildLayers.BuildProper | crates/visor-build/src/engine.rs:308-381 | every successful build leaves such a trace |
| BuildLayers.BuildImage | crates/visor-build/src/engine.rs:308-381 | the layers a successful build returns are those its guest took since the last overlay, in order; they fold from the manifest at that overlay to the one at the last snapshot exactly when the layers before the last agree with all it leaves unsaid; on a disk that is still between snapshot and flatten they do so after every instruction if and only if no name can be misread |
| Layer.NormalizePreservesPath | crates/visor-build/src/layer.rs:282-292 | the normalised path starts with `./` or is `.`; normalising is idempotent and never changes which path is meant |
| Layer.TransformTar | crates/visor-build/src/layer.rs:221-277 | the loop produces the transformed members in order and counts the members it wrote |
| Layer.TransformEntry | crates/visor-build/src/layer.rs:226-273 | one member with its early exits: excluded, whiteout, hard link, opaque directory, plain |
| Layer.ExclusionDrops | crates/visor-build/src/layer.rs:231-237 | transforming with exclusions is transforming, without any, the members whose normalised path starts with none of them |
| LayerMerge.ReadingAll | crates/visor-build/src/layer.rs:221-277 | decoding the transformed archive is reading the upper tree node by node |
| LayerMerge.UnmistakableMerges | crates/visor-build/src/layer.rs:221-277 | for archives in any order, on any lower tree, the transformed layer applies to the overlayfs merge: a node that is gone hides, opaque directories hide what is below, non-directories replace subtrees |
| LayerMerge.MemberIsUpper | crates/visor-build/src/layer.rs:304-322 | a member is taken for a whiteout if and only if it is a character device with major and minor number zero, and any other member is the entry that its type, metadata and content say |
| LayerMerge.ReservedEntryLost | crates/visor-build/src/layer.rs:327-336 | an upper entry with a reserved name is lost even on an empty lower tree |
| LayerMerge.WrongMarkLoses | crates/visor-build/src/layer.rs:316-322 | a directory marked opaque that overlayfs does not treat so loses a lower file on some tree |
| LayerMerge.TransformMeansMerge | crates/visor-build/src/layer.rs:304-336 | the layer means the overlayfs merge on all lower trees if and only if nothing in the upper tree can be mistaken |
| LayerMerge.TransformTarMeansMerge | crates/visor-build/src/layer.rs:221-336 | the same for the archive itself, under any list of exclusions: parse, normalise, exclude, transform, decode, apply is the merge of the members that are not excluded, read from their headers |
| LayerMerge.OtherValueMarked | crates/visor-build/src/layer.rs:313-322 | a concrete archive with another attribute value that does not mean the merge |
| LayerMerge.MarkersInTime | crates/visor-build/src/layer.rs:263-272 | no whiteout of the transformed layer comes too late if and only if no marker follows what the archive lists below it |
| LayerMerge.InOrderMeansMerge | crates/visor-build/src/layer.rs:221-277 | a reader that acts member by member ends with the overlayfs merge if and only if no marker follows what the archive lists below it |
| LayerMerge.DirectoriesFirst | crates/visor-build/src/layer.rs:263-272 | archives that list directories before what they hold are in time, because a marker comes right after its directory |
| LayerPipeline.ComponentsJoin | crates/visor-build/src/layer.rs:282-292 | the names of a path written with slashes are read back |
| LayerPipeline.StoredUnchanged | crates/visor-build/src/layer.rs:221-277 | a member of a guest diff passes the transformation as the same item |
| LayerPipeline.GuestLayerRestores | crates/visor-build/src/layer.rs:155-277 | guest diff, archive, host transformation, decoding and applying restore the tree if and only if no name can be misread |
| Merger.UnpackLayer | crates/visor-runtime/src/oci/layers.rs:85-200 | the unpacking loop ends as its specification, which follows the symlinks of the tree as the kernel does: unpacked, failed, or not decided by the tree |
| Merger.HideStep | crates/visor-runtime/src/oci/layers.rs:120-129 | a whiteout under plain directories removes exactly the path and everything below it |
| Merger.UpsertStep | crates/visor-runtime/src/oci/layers.rs:131-196 | an entry under plain directories is placed, if it is a directory exactly where there is one, or nothing is there; a directory that meets a symlink gives its mode to the directory at the end of it, and fails if there is none; all else fails |
| Merger.UpsertKeeps | crates/visor-runtime/src/oci/layers.rs:131-196 | a placed entry has its kind again, with the mode of a directory, mode and content of a file, or target of a symlink; every other path is as it was |
| Merger.FollowSettles | crates/visor-runtime/src/oci/layers.rs:131-147 | where a path leads is there, under plain directories and no symlink itself, and leads to itself |
| Merger.MakeDirsThere | crates/visor-runtime/src/oci/layers.rs:141-143 | creating a directory is content with any path that leads to a directory, and changes nothing |
| Merger.PlacedWhereItLeads | crates/visor-runtime/src/oci/layers.rs:149-195 | an entry below symlinks goes to the directory they lead to and takes the place of anything but a directory there; it fails at a directory, or if the way leads through what it takes the place of |
| Merger.UpsertKeepsSorts | crates/visor-runtime/src/oci/layers.rs:131-196 | whatever symlinks are on the way, placing an entry never turns a directory into something else, nor anything else into a directory, and removes no path |
| Merger.UpsertStays | crates/visor-runtime/src/oci/layers.rs:131-196 | in a tree whose symlinks lead downwards, placing an entry never leaves the tree |
| Merger.MergeLayers | crates/visor-runtime/src/oci/layers.rs:210-216 | the loop over the layers ends as its specification: all unpacked one over the other, or the first outcome that is none |
| MergerLaws.ParentsMade | crates/visor-runtime/src/oci/layers.rs:141-189 | exactly the missing directories on the way to a path are made, with mode 0755, and nothing else changes |
| MergerLaws.HardLinkStep | crates/visor-runtime/src/oci/layers.rs:166-182 | a hard link under plain directories is its source a second time; it fails exactly when the source is missing, a directory, or the path that is replaced |
| MergerLaws.EmptyStep | crates/visor-runtime/src/oci/layers.rs:106-118 | an opaque marker takes away everything below its directory and nothing else |
| MergerLaws.EmptyNothing | crates/visor-runtime/src/oci/layers.rs:106-118 | where there is no directory it takes nothing away |
| MergerLaws.HideStepRemoves | crates/visor-runtime/src/oci/layers.rs:120-129 | a whiteout takes away its path and everything below it and nothing else, or nothing if it is not there |
| MergerLaws.HideHolder | crates/visor-runtime/src/oci/layers.rs:120-129 | a whiteout of the empty name takes away the directory it is in, and one of the name `.` fails |
| MergerDiff.UnpackDiff | crates/visor-runtime/src/oci/layers.rs:85-200 | unpacking a guest diff over anything that matches its baseline gives the paths of the current tree, each with its kind and its mode, content or target, if and only if no path changes between directory and non-directory; it fails at the first such path in archive order unless a directory takes the place of a symlink there; and if it reports success, every path that stays is a directory or not as it was |
| MergerDiff.UnpackDiffStays | crates/visor-runtime/src/oci/layers.rs:85-200 | in trees whose symlinks lead downwards, unpacking a guest diff always fails or reports success |
| MergerCases.DirectoryBecomesFile | crates/visor-runtime/src/oci/layers.rs:183-195 | a concrete diff whose unpacking fails |
| MergerCases.SymlinkBecomesDirectory | crates/visor-runtime/src/oci/layers.rs:141-147 | a concrete diff whose unpacking reports success and leaves the baseline unchanged, symlink included |
| MergerCases.ChildGoesElsewhere | crates/visor-runtime/src/oci/layers.rs:141-195 | a concrete diff whose unpacking reports success and puts a file of the new directory into the one the symlink leads to |
| MergerCases.LinkReplaced | crates/visor-runtime/src/oci/layers.rs:141-195 | a concrete diff whose unpacking reports success and replaces the symlink by a file that belongs elsewhere |
| MergerCases.ThereAndBack | crates/visor-runtime/src/oci/layers.rs:210-216 | two concrete layers of which the first unpacks to another tree, and both together to the right one |
| MergeRun.MergeRebuildsDisk | crates/visor-runtime/src/oci/layers.rs:210-216 | for every run whose disk is still between snapshots and flattens, unpacking its layers over what matches the first disk gives the paths of the disk at the snapshot, with kinds, modes, contents and targets, after every instruction, if and only if none changes a path between directory and non-directory |
| DirtyTracking.DirtyCountIsPagesAndPadding | crates/visor-vmm/src/dirty_tracking.rs:124-126 | the count is the number of dirty pages plus the set padding bits, at most seven |
| DirtyTracking.DirtyBitmap.New | crates/visor-vmm/src/dirty_tracking.rs:66-73 | no page and no padding bit is set; the pages of 4096 bytes are as many as the memory needs |
| DirtyTracking.DirtyBitmap.FromRaw | crates/visor-vmm/src/dirty_tracking.rs:81-94 | bytes of the right length become the bitmap, any other length is the size error |
| DirtyTracking.DirtyBitmap.SetDirty | crates/visor-vmm/src/dirty_tracking.rs:108-115 | inserts the page into the set, ignores pages out of range, keeps padding clear |
| DirtyTracking.DirtyBitmap.Clear | crates/visor-vmm/src/dirty_tracking.rs:118-120 | empties the set |
| DirtyTracking.DirtyBitmap.Merge | crates/visor-vmm/src/dirty_tracking.rs:164-168 | for equal sizes the set becomes the union; the other bitmap is unchanged |
| DirtyTracking.DirtyBitmap.DirtyPages | crates/visor-vmm/src/dirty_tracking.rs:141-157 | the nested loops list exactly the set, strictly ascending |
| DirtyTracking.DirtyTracker.CollectFromBitmap | crates/visor-vmm/src/dirty_tracking.rs:269-290 | the snapshot holds the set's pages, the count and the rate since the previous sample |
| PreCopy.PreCopyState.ProcessSnapshot | crates/visor-vmm/src/migration.rs:301-323 | one snapshot advances round and page total as the specification says, and gives its action |
| PreCopy.RunRounds | crates/visor-vmm/src/migration.rs:301-323 | every round but the last sends its own non-empty list, numbered 1, 2, 3 without gaps |
| PreCopy.RunEnds | crates/visor-vmm/src/migration.rs:201-209 | a run ends by the round limit, ends early only with StopAndCopy, and the counter equals the lengths sent |
| PreCopy.PreCopyStops | crates/visor-vmm/src/migration.rs:201-209 | whatever snapshots arrive, StopAndCopy comes in the first round or by round max_rounds, and every round before it sends its own list |
| PreCopy.FirstSnapshot | crates/visor-vmm/src/dirty_tracking.rs:192-206 | a fresh tracker's first snapshot stops the migration exactly when it is empty or only one round is allowed |
| PreCopy.LaterSnapshot | crates/visor-vmm/src/dirty_tracking.rs:192-206 | a later snapshot stops the migration if and only if its list is empty, the rounds are used up, or fewer pages a second than the threshold were dirtied since the last sample, where a clock that stands still counts as none |
| Migration.WriteKeepsInv | crates/visor-vmm/src/migration.rs:12-25 | a guest write at any moment keeps every differing page in the log or under way |
| Migration.CollectKeepsInv | crates/visor-vmm/src/migration.rs:301-323 | collecting a round moves exactly the logged pages into the batch |
| Migration.DeliverKeepsInv | crates/visor-vmm/src/migration.rs:126-143 | a delivered batch settles its pages unless they were written again |
| Migration.FinalPagesSuffice | crates/visor-vmm/src/migration.rs:145-157 | last pages make the memories equal if and only if they hold every page that would still differ |
| Migration.NextKeepsInv | crates/visor-vmm/src/migration.rs:12-25 | every step of the protocol keeps the invariant |
| Migration.MigrationCopiesMemory | crates/visor-vmm/src/migration.rs:12-25 | in every execution that has sent and delivered the final state, destination memory equals source memory |
| MigrationEnds.MigrationCanFinish | crates/visor-vmm/src/migration.rs:301-323 | however far an execution has come, it can be brought to its end without another guest write, and then the destination has the memory of the source |
| MigrationEnds.MoveOn | crates/visor-vmm/src/migration.rs:301-323 | in every reachable state that is not the end some step of the protocol is possible and leaves less to do |
| MigrationEnds.LateWrites | crates/visor-vmm/src/migration.rs:301-323 | concrete executions in which writes before and after the only round are both copied |
| Migration.LogAloneIsNotEnough | crates/visor-vmm/src/migration.rs:145-157 | a concrete execution in which the pages logged after the stop round alone leave memories different |
| Stages.ResolveStageRef | crates/visor-build/src/engine.rs:733-742 | the index a reference spells out, if there is such a stage; otherwise the first stage with that alias, and none exactly when no stage has it |
| Stages.PushDependencies | crates/visor-build/src/engine.rs:405-421 | pushes exactly the stages that one stage refers to |
| Stages.ResolveNeededStages | crates/visor-build/src/engine.rs:386-427 | for every graph, cyclic ones too, the strictly ascending list of the least set that holds the target and is closed under references; an unknown target is an error |
| Stages.NeedsUnique | crates/visor-build/src/engine.rs:386-427 | that least set is unique |
| Stages.LastIsTarget | crates/visor-build/src/engine.rs:373-380 | the stage built last is the target if and only if nothing needed stands after it |
| Stages.SelectionEnds | crates/visor-build/src/engine.rs:373-380 | every selection ends with the highest needed stage |
| Stages.BackwardReferencesOrder | crates/visor-build/src/engine.rs:386-427 | when references point backwards, dependencies precede dependents and the target is last |
| Stages.ForwardReferenceEndsElsewhere | crates/visor-build/src/engine.rs:373-380 | a concrete file for which every selection ends with another stage than the target |
| Substitute.FindClosingBrace | crates/visor-build/src/substitute.rs:85-103 | finds the first brace that closes the one before it, and fails exactly when there is none |
| Substitute.ClosingIs | crates/visor-build/src/substitute.rs:85-103 | a brace is closed at nesting depth one and by nothing before; it is never closed exactly when the depth never reaches zero |
| Substitute.VarNameEnd | crates/visor-build/src/substitute.rs:150-157 | the end of the longest run of name characters |
| Substitute.NextToken | crates/visor-build/src/substitute.rs:35-79 | the token at an index, or none exactly at an unclosed brace |
| Substitute.TokensAreInput | crates/visor-build/src/substitute.rs:26-82 | the texts of the tokens concatenate to the input |
| Substitute.OneTokenization | crates/visor-build/src/substitute.rs:26-82 | an input has at most one tokenization |
| Tokenizer.OneWay | crates/visor-build/src/substitute.rs:26-82 | when at most one token starts a text, it is cut up in at most one way |
| Tokenizer.NoWay | crates/visor-build/src/substitute.rs:26-82 | a text of which some tokens leave what no token starts cannot be cut up at all |
| Substitute.UnclosedFails | crates/visor-build/src/substitute.rs:85-103 | a reached brace that never closes admits no tokenization at all |
| Substitute.SubstituteVars | crates/visor-build/src/substitute.rs:26-82 | the result is the substitution that the input's only tokenization gives; it fails exactly when there is no tokenization, at a brace that is never closed |
| SubstituteLaws.FirstToken | crates/visor-build/src/substitute.rs:26-82 | a text that starts with a token gives the token's value and then what the rest gives |
| SubstituteLaws.DefaultForm | crates/visor-build/src/substitute.rs:105-118 | `${name:-word}` is the variable if it is set and not empty, else the word, whatever follows |
| SubstituteLaws.AlternativeForm | crates/visor-build/src/substitute.rs:120-131 | `${name:+word}` is the word if the variable is set and not empty, else nothing |
| SubstituteLaws.BothOperators | crates/visor-build/src/substitute.rs:108-131 | with both operators the `:-` counts, and all before it is the name |
| SubstituteLaws.BracedForm | crates/visor-build/src/substitute.rs:133-136 | `${name}` is the variable, or nothing if there is none |
| SubstituteLaws.NamedForm | crates/visor-build/src/substitute.rs:63-74 | `$name` takes the longest name and is that variable, or nothing if there is none |
| SubstituteLaws.NameCharacters | crates/visor-build/src/substitute.rs:139-147 | a name starts with a letter or underscore and goes on with letters, digits and underscores |
| SubstituteLaws.EscapedForm | crates/visor-build/src/substitute.rs:45-51 | `$$` is one dollar sign |
| SubstituteLaws.LoneForm | crates/visor-build/src/substitute.rs:76-78 | so is a dollar sign that starts none of the forms |
| SubstituteLaws.PlainForm | crates/visor-build/src/substitute.rs:36-43 | every other character is itself |
| Substitute.ScanAll | crates/visor-build/src/substitute.rs:30-81 | the loop tokenizes the whole input and concatenates the values, so inserted values are never rescanned, or stops at a reached brace that is never closed |
| Substitute.Scan | crates/visor-build/src/substitute.rs:35-79 | one round: the value of the token at an index and where that token ends, or no progress exactly at an unclosed brace |
| Substitute.SubstitutedIs | crates/visor-build/src/substitute.rs:26-137 | any tokenization of the input gives the substitution |
| Substitute.NotSubstituted | crates/visor-build/src/substitute.rs:26-103 | an unclosed brace after any tokens means there is no tokenization, so failing is right exactly then |
| Substitute.DoubledIsLiteral | crates/visor-build/src/substitute.rs:35-51 | a string with every dollar sign doubled substitutes to itself under all variables |
| Engine.ResolveMounts | crates/visor-build/src/engine.rs:771-795 | all mounts with substituted sources and targets, or failure exactly when one does not substitute |
| Engine.BuildRunCommand | crates/visor-build/src/engine.rs:798-816 | the shell or exec form with substituted words |
| Executor.AfterRecords | crates/visor-build/src/engine.rs:33-90 | replaying a trace yields its calls in order, and is fine exactly when every call succeeded |
| Executor.AfterStrays | crates/visor-build/src/engine.rs:505-564 | and it is astray exactly when a call other than a teardown follows a failed one |
| Executor.FollowedBy | crates/visor-build/src/engine.rs:357-371 | carrying out a plan and then what became of the next one is what became of both joined |
| Executor.StoppedEarly | crates/visor-build/src/engine.rs:357-371 | stopping within a plan is stopping within it joined with any other |
| Engine.BuildEngine.Perform | crates/visor-build/src/engine.rs:33-90 | records the call and its reply at the end of the trace |
| Engine.BuildEngine.SnapshotAndFlatten | crates/visor-build/src/engine.rs:745-768 | a layer is pushed only from a snapshot that succeeded, and its flatten follows |
| Engine.BuildEngine.SetupMounts | crates/visor-build/src/engine.rs:521-527 | setups in order up to the first failure |
| Engine.BuildEngine.TeardownMounts | crates/visor-build/src/engine.rs:536-542 | teardowns in exact reverse order up to the first failure |
| Engine.BuildEngine.RunMounted | crates/visor-build/src/engine.rs:505-564 | if all mount calls succeed the trace is setups, the command, reversed teardowns, even when the command fails |
| Engine.BuildEngine.ProcessRun | crates/visor-build/src/engine.rs:505-564 | the calls of a RUN are a prefix of its plan (setups, the substituted command, reversed teardowns, snapshot, flatten) and all of it on success; once mounted, the command and the teardowns come in any case; it adds one layer or fails |
| Engine.BuildEngine.ProcessCopy | crates/visor-build/src/engine.rs:566-617 | the calls of a COPY or ADD are a prefix of its plan (the substituted copy, joined with the context directory, snapshot, flatten) and all of it on success; it adds one layer or fails |
| Engine.BuildEngine.ProcessInstruction | crates/visor-build/src/engine.rs:451-501 | every instruction makes the calls of its plan under the scope so far, as far as they succeed, and the whole plan on success; layers grow by one for RUN, COPY and ADD, the others make no call; variables, environment, directory and shell change as specified |
| Engine.BuildEngine.BuildStage | crates/visor-build/src/engine.rs:357-368 | the calls are a prefix of the plan of the instructions, each under the scope that all before it leave, and the whole plan on success; one step per instruction, numbered on from the steps so far |
| Engine.BuildEngine.BuildSelected | crates/visor-build/src/engine.rs:319-371 | the calls are a prefix of the stage's plan, its overlay and then its instructions, and the whole plan on success; the base image is the substituted FROM unless that is a stage |
| Engine.BuildEngine.BuildStages | crates/visor-build/src/engine.rs:319-371 | the calls are a prefix of the plan of all selected stages in order, and the whole plan on success; steps add up to the counted total, and layers and base image are those of the last stage |
| Engine.BuildEngine.SelectStages | crates/visor-build/src/engine.rs:308-318 | the needed stages in order, or nothing exactly when the target is unknown or there are no stages |
| Engine.BuildEngine.Build | crates/visor-build/src/engine.rs:308-381 | whatever the executor answers, the calls made are a prefix of the plan of the needed stages, left where a call failed or a text does not substitute, and the whole plan on success; mounts come down in reverse order, each snapshot is followed by its flatten, and after a failed call only teardowns are made; steps are numbered 1 to the counted total, and layers and base image are those of the last selected stage, one layer per RUN, COPY and ADD |
| Engine.BuildEngine.ScopeSound | crates/visor-build/src/engine.rs:621-665 | after any instructions the working directory is absolute and every environment variable is visible to substitution |
| Engine.ApplyEnv | crates/visor-build/src/engine.rs:621-630 | the scope after all pairs, each substituted under the variables set so far, or failure exactly when one does not substitute |
| EngineLaws.ArgGives | crates/visor-build/src/engine.rs:632-650 | an ARG gives its variable the build argument, else its own default, else that of the first global ARG of that name, else nothing |
| EngineLaws.VariableHolds | crates/visor-build/src/engine.rs:621-650 | a variable holds what its ARG gave it until an ARG or ENV sets it again |
| EngineLaws.BuildArgumentWins | crates/visor-build/src/engine.rs:632-650 | with a build argument, the plan of the instructions and the scope they leave are the same for every default of its ARGs |
| EngineLaws.GlobalsGiven | crates/visor-build/src/engine.rs:430-440 | the global variables are those of the ARGs with a build argument or a default; the build argument comes first, else the last default counts |
| EngineLaws.WorkdirChanges | crates/visor-build/src/engine.rs:652-665 | a WORKDIR leads to the substituted path seen from the directory so far: an absolute path is itself, any other follows behind exactly one slash |
| EngineLaws.ContextSources | crates/visor-build/src/engine.rs:575-587 | sources from the host are seen from the context directory in the same way |
| EngineLaws.StageBegins | crates/visor-build/src/engine.rs:322-345 | a stage starts with its overlay, over another stage if and only if the substituted FROM is the number or alias of one; otherwise that is its base image |
| EngineLaws.FirstRun | crates/visor-build/src/engine.rs:347-355 | a stage starts in the root with the default shell and no environment: its first RUN makes exactly that call, then its layer |
| Calendar.YearFormula | crates/visor-runtime/src/audit.rs:98-111 | the quotients of the year formula count centuries, four-year cycles and years correctly for every day of an era |
| Calendar.DateSteps | crates/visor-runtime/src/audit.rs:98-111 | within a March-based year the computed date steps as the calendar does |
| Calendar.YearSteps | crates/visor-runtime/src/audit.rs:98-111 | after the last of February comes 1 March, across years and eras |
| Calendar.DaysToYmdIsCalendar | crates/visor-runtime/src/audit.rs:98-111 | for every day count the date is the Gregorian one reached from 1970-01-01 by that many single days, and is valid |
| Calendar.NoUnderflow | crates/visor-runtime/src/audit.rs:98-111 | none of the unsigned subtractions goes below zero: for the day of the era, both in the year formula, for the days before a year, the day of the year, the day of the month and the month |
| Calendar.TimeOrdered | crates/visor-runtime/src/audit.rs:78-95 | one date and time is before another if and only if its epoch seconds are |
| Fnv.Fnv1a64 | crates/visor-types/src/lib.rs:452-462 | the loop computes the hash with 64-bit wrap-around |
| Fnv.KnownHashes | crates/visor-types/src/lib.rs:452-462 | the hashes of no byte and of a zero byte are the published ones |
| Fnv.XorSameLow | crates/visor-types/src/lib.rs:457-459 | exclusive or passes agreement of low bits on exactly |
| Fnv.OddSameLow | crates/visor-types/src/lib.rs:459-459 | multiplying by an odd number neither joins nor separates low bits |
| Fnv.OneByteApart | crates/visor-types/src/lib.rs:452-462 | hashes of names that differ in one byte agree in the low k bits if and only if that byte does |
| Network.NamedLinkInSupernet | crates/visor-types/src/lib.rs:339-356 | for every valid supernet, name and CID nothing overflows, guest and gateway lie in one /24 of the supernet, the gateway at .1 and the guest never at .0, .1 or .255, with the netmask of a /24 |
| Network.NamedAddressesShared | crates/visor-types/src/lib.rs:339-356 | guests share an address if and only if their subnets agree and their offsets agree modulo 253 |
| Network.NamedCids | crates/visor-types/src/lib.rs:349-349 | guest CIDs on one network share an address if and only if they agree modulo 253 |
| Network.NamedGuestsInOrder | crates/visor-types/src/lib.rs:349-352 | the first guest CID, and any below it, has .2, every next one the next address, and .2 follows .254; the gateway stays |
| Network.PointToPointIsPair | crates/visor-types/src/lib.rs:430-439 | gateway and guest are the two hosts of one /30 of 172.20.0.0/16, and no octet overflows |
| Network.PointToPointCids | crates/visor-types/src/lib.rs:430-439 | guest CIDs share a /30 if and only if they agree modulo 16384 |
| Network.PointToPointInOrder | crates/visor-types/src/lib.rs:430-439 | the first guest CID, and any below it, has 172.20.0.2, every next one the next /30, and the first follows the last; the gateway is one below |
| Network.SubnetIndexIs | crates/visor-types/src/lib.rs:341-347 | the masked low half-word is the low bits of the hash that the prefix leaves |
| Network.SubnetsApart | crates/visor-types/src/lib.rs:339-348 | names one byte apart share a subnet if and only if those bytes agree in the subnet bits |
| Network.BridgesSame | crates/visor-runtime/src/vm.rs:612-615 | bridge names are equal if and only if the low 32 bits of the hashes are |
| Network.BridgeImpliesSubnet | crates/visor-runtime/src/vm.rs:612-627 | equal bridge names imply equal subnets, in every supernet |
| Network.BridgesApart | crates/visor-runtime/src/vm.rs:612-627 | names one byte apart never share a bridge |
| Cidr.AddressText | crates/visor-types/src/lib.rs:314-317 | a text is read as an address if and only if it is how that address prints |
| Cidr.ParseAccepts | crates/visor-types/src/lib.rs:310-331 | `parse` accepts exactly the texts that write a valid, aligned supernet with prefix 8 to 24, and returns that one |
| Cidr.PrintThenParse | crates/visor-types/src/lib.rs:333-337 | printing and parsing give a supernet back if and only if it is valid |
| Cidr.DefaultSupernetText | crates/visor-types/src/lib.rs:359-366 | the default text and the default value are the same supernet |
| Json.QuotedIsSegment | crates/visor-vmm/src/snapshot.rs:527-538 | a quoted name in a text is one of the segments between two quotes |
| Json.FieldFound | crates/visor-vmm/src/snapshot.rs:527-538 | the first match of a field's pattern is the field itself when no earlier segment is its name |
| CpuSnapshot.HexEncode | crates/visor-vmm/src/snapshot.rs:542-549 | the fold writes two digits a byte, in order |
| CpuSnapshot.HexTextDecodes | crates/visor-vmm/src/snapshot.rs:542-566 | decoding an encoded block gives the block, for all bytes |
| CpuSnapshot.PairsRead | crates/visor-vmm/src/snapshot.rs:553-566 | a plus sign may stand in the place of a first digit; any other character that is no digit is an error |
| CpuSnapshot.FieldExtracted | crates/visor-vmm/src/snapshot.rs:527-538 | a field with a quote-free value is extracted whole |
| CpuSnapshot.SnapshotRoundTrip | crates/visor-vmm/src/snapshot.rs:446-566 | deserializing the serialized state gives it back for all register bytes, and a size error exactly when the sizes differ |
| CpuSnapshotArm.Serialize | crates/visor-vmm/src/snapshot.rs:572-617 | the pushes build the text of the fields in order |
| CpuSnapshotArm.CsvParses | crates/visor-vmm/src/snapshot.rs:643-670 | the array text splits into its numbers and they parse back |
| CpuSnapshotArm.FieldAt | crates/visor-vmm/src/snapshot.rs:628-641 | under distinct names the first match of any field is that field |
| CpuSnapshotArm.NamesApart | crates/visor-vmm/src/snapshot.rs:575-615 | the 34 field names are pairwise different |
| CpuSnapshotArm.SnapshotRoundTrip | crates/visor-vmm/src/snapshot.rs:572-714 | deserializing the serialized state gives it back for all 64-bit register values |
| ImageRef.TagSplit | crates/visor-build/src/push.rs:425-443 | behind a name with a slash a tag is split off if and only if it is valid |
| ImageRef.NameSplit | crates/visor-build/src/push.rs:128-160 | registry and repository are split apart again if and only if they form a valid name |
| ImageRef.PrintThenParse | crates/visor-build/src/push.rs:120-185 | printing and parsing give a reference back if and only if it is canonical |
| ImageRef.ParseIsCanonical | crates/visor-build/src/push.rs:120-185 | every non-empty string parses, and one parse is enough: printing and parsing again changes nothing |
| ImageRef.ParseReads | crates/visor-build/src/push.rs:120-169 | the text writes the parsed reference, up to the defaults it may leave out |
| ImageRef.OfficialForm | crates/visor-build/src/push.rs:125-136 | a name alone is `library/` and the name on docker.io with tag latest; behind it a tag is the tag, unless it is digits and the name is localhost or has a dot |
| ImageRef.QualifiedForm | crates/visor-build/src/push.rs:137-159 | what is before the first slash is the registry if and only if it has a dot or a colon, is localhost, or another slash follows; otherwise the whole is the repository on docker.io |
| Serial.Console.WriteStdoutMarker | crates/visor-init/src/main.rs:162-172 | appends the marker line |
| Serial.Console.WriteExitMarker | crates/visor-init/src/main.rs:175-192 | however the writes split it, exactly the exit marker is appended |
| Serial.Console.Run | crates/visor-init/src/main.rs:111-126 | the markers, the user's output and the exit code, in this order |
| Serial.ExitCodeRead | crates/visor-runtime/src/vm.rs:409-421 | whatever comes before the exit marker, forged markers included, the host reads its code unless a later line carries one |
| Serial.RunCodeRead | crates/visor-runtime/src/vm.rs:409-421 | for every run, user output and boot log the host reads the code the guest printed |
| Serial.RunTextIs | crates/visor-init/src/main.rs:111-192 | what a run prints, character by character |
| Serial.PanicFallback | crates/visor-runtime/src/vm.rs:409-421 | a text in which no line has an exit code is read as the code of its last panic line, and as 1 if it has none |
| Serial.PanicRead | crates/visor-runtime/src/vm.rs:409-442 | after a kernel panic without an exit code the host reads the status that the kernel printed last |
| Serial.PanicDigitsRead | crates/visor-runtime/src/vm.rs:423-442 | digits behind the first panic marker are read as a 32-bit status; no digits, or a larger number, are no code |
| Serial.PanicCodeRead | crates/visor-runtime/src/vm.rs:423-442 | a wait status printed behind the kernel's marker is read back as the code it stands for |
| Serial.StatusMeaning | crates/visor-runtime/src/vm.rs:436-441 | whatever the other bits are, an exit code is itself and a signal is 128 and the signal |
| SerialStdout.ExtractMarkedStdout | crates/visor-runtime/src/vm.rs:465-508 | the loop extracts what the specification captures between the markers |
| SerialStdout.LineShows | crates/visor-runtime/src/vm.rs:472-504 | a clean line is kept trimmed; any other shows strictly less |
| SerialStdout.RunRead | crates/visor-runtime/src/vm.rs:465-508 | what is read of any run after any boot log, from where the boot log leads |
| SerialStdout.StdoutRead | crates/visor-runtime/src/vm.rs:465-508 | after every boot log that leads to capturing, for every run, the result is the output's trimmed lines, dropping only a blank unterminated last one, if and only if the output carries no marker and no init diagnostic |
| SerialStdout.BootDecides | crates/visor-runtime/src/vm.rs:465-508 | clean output is always read if and only if the boot log, with the begin marker behind it, leads to capturing with nothing captured |
| SerialStdout.OrdinaryBoot | crates/visor-runtime/src/vm.rs:465-508 | after a boot log whose lines are not the marker, clean output is always read if and only if what follows its last line feed is blank |
| Framing.DecodeAppend | crates/visor-init/src/listener.rs:516-535 | decoding in pieces equals decoding everything |
| Framing.FrameLayout | crates/visor-init/src/listener.rs:517-535 | a frame is its type, three zero bytes, the size in network byte order and the payload; guest and host write the same bytes for every payload that fits |
| FrameWriters.WriteDecodes | crates/visor-init/src/listener.rs:516-535 | a partial write leaves the frame unfinished, the last one adds exactly that frame |
| FrameWriters.StepKeeps | crates/visor-init/src/listener.rs:482-514 | every step of either thread keeps the invariant that nothing is lost, repeated or out of order |
| FrameWriters.SocketCarriesBoth | crates/visor-init/src/listener.rs:482-535 | for every chunking and every order of taking the lock, the decoded socket carries a prefix of each stream at any moment and both streams exactly at the end |
| FrameWriters.NoDeadlock | crates/visor-init/src/listener.rs:482-514 | some thread can always go on until both are done |
| FrameWriters.RunLength | crates/visor-init/src/listener.rs:482-514 | every run ends, within twelve steps a byte and two more |
| FrameWriters.Clamped | crates/visor-docker/src/handlers.rs:203-210 | a frame of the host with a clamped size does not decode to its payload |
| FrameWriters.HostFrames | crates/visor-docker/src/handlers.rs:203-210 | the host's frame is the guest's and decodes to its payload if and only if the payload is shorter than 2^32 bytes |
| Registry.CidsRepeat | crates/visor-runtime/src/backend.rs:332-334 | two allocations give one CID exactly when a multiple of 2^32 lies between them |
| Registry.ChooseUniqueVmName | crates/visor-runtime/src/backend.rs:257-281 | a chosen name is unused and is the requested one, or else the first unused generated one; refusal means it was empty or taken, or all attempts were taken |
| Registry.InsertVmKeeps | crates/visor-runtime/src/backend.rs:484-507 | the lock section that adds a VM keeps the invariant |
| Registry.TaskStepKeeps | crates/visor-runtime/src/backend.rs:914-996 | the remaining sections of create and start keep it |
| Registry.OtherStepKeeps | crates/visor-runtime/src/backend.rs:785-1083 | the sections of stop, kill, destroy and the monitor keep it |
| Registry.StepKeepsInv | crates/visor-runtime/src/backend.rs:484-1083 | every lock section of every operation keeps it |
| Registry.AtMostOneNamed | crates/visor-runtime/src/backend.rs:442-463 | with distinct names a lookup never finds two |
| Registry.PrefixResolves | crates/visor-runtime/src/backend.rs:442-462 | an id resolves to itself; what is neither an id nor a name resolves to an id if and only if that is the only one it starts, is not found if and only if it starts none, and is ambiguous if and only if it starts several |
| Registry.NamesLookedUp | crates/visor-runtime/src/backend.rs:447-455 | what is a name but no id resolves to a VM if and only if that alone bears it, and is ambiguous if and only if several do |
| Registry.CidsDiffer | crates/visor-runtime/src/backend.rs:332-334 | no two VMs have one CID, wherever the CIDs are kept, and every CID lies between the first one and the counter |
| Registry.RegistryConsistent | crates/visor-runtime/src/backend.rs:442-1083 | in every interleaving names stay pairwise distinct, and so do the CIDs recorded, live and in the hands of operations (while at most 2^32 were allocated), all below the counter until it wraps; configs agree with their VMs, and lookup by name is never ambiguous |
| Registry.CreateAlone | crates/visor-runtime/src/backend.rs:484-527 | a create by itself adds one VM under the chosen name with the next CID, its config and its live run, and changes nothing else |
| Registry.StartAlone | crates/visor-runtime/src/backend.rs:914-979 | a start by itself runs a stopped or failed VM again under the name of its config, or its own, with the next CID |
| Registry.StopAlone | crates/visor-runtime/src/backend.rs:785-910 | a stop by itself leaves the VM and its config and takes away its live run |
| Registry.DestroyAlone | crates/visor-runtime/src/backend.rs:1074-1083 | a destroy by itself leaves nothing of the VM and everything of the others |

## Left out

- KVM and HVF calls, memory mapping, vsock, TAP devices, iptables, shelling out and seccomp: foreign calls without visible semantics.
- HTTP handlers, the daemon, the command line, metrics and the web page.
- tar, gzip, SHA-256, base64 and serde: tars are sequences of items and file content is its digest.
- Modification times, extended attributes other than the opaque one, and hard links as shared inodes: a hard link is an entry that names its target.
- Excluded paths: a plain string-prefix test (crates/visor-build/src/layer.rs:295-299), modelled as such; which archives are in time for a reader that acts member by member is stated without exclusions.
- Names and paths are Unicode strings; paths that are not valid UTF-8 are not modelled.
- Errors of the file system during capture, snapshot and unpacking.
- Merger.UnpackLayer: what happens outside the tree is not modelled. Where a symlink is absolute or climbs above the root, and where a directory is removed by a path that goes through what is removed, the outcome is only marked as diverted, and the code may fail or succeed. The target directory is taken to be reached without symlinks, so that all 40 count for the tree.
- MergerDiff.UnpackDiff: nothing is claimed about unpacking that leaves the tree (MergerDiff.UnpackDiffStays says when it does not). The trees hold directories, files and symlinks under names a file system has, and no added, changed or deleted name that reads as a whiteout; those layers mean something else (DiffApply.DiffThenApply).
- DirtyTracking.DirtyTracker.CollectFromBitmap: the rate is a real number, without the rounding of 64-bit floats.
- The migration driver is not part of this model: the state machine takes the last pages from the stop round merged with those logged up to the pause.
- Engine.BuildEngine.Build: stage selection looks at references as written; a FROM that contains variables is substituted only later and is not claimed to be closed. Image metadata and step texts are left out.
- Engine.BuildEngine.RunMounted: nothing is claimed about clean-up after a mount or unmount call that fails, since both return early.
- Registry.RegistryConsistent: it is not claimed that a VM has one live run under concurrent starts, nor that a monitor touches only its own run.
- Registry.ChooseUniqueVmName: the name generator is a list of the names it would give.
- Network.NamedLink is stated on the 32-bit values of addresses; the process-wide supernet that is set once is not modelled.
- Serial.ExitCodeRead and SerialStdout.StdoutRead start from the decoded text; replacement of invalid UTF-8 and the extraction without markers are left out.
- CpuSnapshot.SnapshotRoundTrip: the sizes of the register blocks are parameters; text that is not ASCII is treated character by character.
- FrameWriters.SocketCarriesBoth: write errors, which end the connection, and the raw mode of terminals are left out.
- CPU templates, ACPI tables, the build-cache index and the volume manager: easy members only.
