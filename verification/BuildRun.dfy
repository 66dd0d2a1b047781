/** A whole build: the tracker is initialised once, and after every layer-producing
    instruction a layer is taken and the baseline refreshed. */
module BuildRun {
  import opened Paths
  import opened Changeset
  import opened Overlay
  import opened DiffApply

  type Disk = seq<Child>

  /** The tracker's state; the disk it walks is passed to each call. */
  class BuildOverlay {
    var baseline: Tree

    constructor (disk: Disk)
      ensures baseline == Capture(disk)
    {
      new;
      baseline := VisitPath([], disk, map[]);
      assert map[] + Captured([], disk) == Captured([], disk);
    }

    method SnapshotLayer(disk: Disk) returns (tar: seq<Item>)
      requires [] !in baseline
      ensures tar == Archive(baseline, Capture(disk))
    {
      var current := VisitPath([], disk, map[]);
      assert map[] + Captured([], disk) == Captured([], disk);
      tar := BuildDiffArchive(baseline, current);
    }

    method Flatten(disk: Disk)
      modifies this
      ensures baseline == Capture(disk)
    {
      baseline := VisitPath([], disk, map[]);
      assert map[] + Captured([], disk) == Captured([], disk);
    }
  }

  /** Layers applied bottom to top. */
  ghost function ApplyAll(lower: Tree, layers: seq<seq<Item>>): Tree {
    if layers == [] then lower
    else Apply(ApplyAll(lower, layers[..|layers| - 1]), Decode(layers[|layers| - 1]))
  }

  lemma ApplyAllNext(lower: Tree, layers: seq<seq<Item>>, tar: seq<Item>)
    ensures ApplyAll(lower, layers + [tar]) == Apply(ApplyAll(lower, layers), Decode(tar))
  {
    assert (layers + [tar])[..|layers|] == layers;
  }

  /** One instruction: the disk when its layer is taken and when the baseline is refreshed. */
  datatype Instruction = Instruction(atSnapshot: Disk, atFlatten: Disk)

  /** What the file system guarantees: the names in a directory are distinct. */
  ghost predicate ValidRun(initial: Disk, steps: seq<Instruction>) {
    DistinctNames(initial) && forall s | s in steps :: DistinctNames(s.atSnapshot) && DistinctNames(s.atFlatten)
  }

  function BaselineAfter(initial: Disk, steps: seq<Instruction>): Disk {
    if steps == [] then initial else steps[|steps| - 1].atFlatten
  }

  /** The manifests the layer of instruction i is the difference of. */
  ghost function TreeBefore(initial: Disk, steps: seq<Instruction>, i: nat): Tree
    requires i < |steps|
  {
    Capture(BaselineAfter(initial, steps[..i]))
  }

  ghost function TreeAt(steps: seq<Instruction>, i: nat): Tree
    requires i < |steps|
  {
    Capture(steps[i].atSnapshot)
  }

  ghost function LayersOf(initial: Disk, steps: seq<Instruction>): seq<seq<Item>>
    requires ValidRun(initial, steps)
  {
    if steps == [] then []
    else
      var n := |steps| - 1;
      TreesAre(initial, steps, n);
      LayersOf(initial, steps[..n]) + [Archive(TreeBefore(initial, steps, n), TreeAt(steps, n))]
  }

  lemma TreesAre(initial: Disk, steps: seq<Instruction>, i: nat)
    requires ValidRun(initial, steps) && i < |steps|
    ensures ValidRun(initial, steps[..i])
    ensures WellFormed(TreeBefore(initial, steps, i)) && WellFormed(TreeAt(steps, i))
  {
    assert steps[i] in steps;
    if i > 0 { assert steps[..i][i - 1] == steps[i - 1] && steps[i - 1] in steps; }
    CaptureWellFormed(BaselineAfter(initial, steps[..i]));
    CaptureWellFormed(steps[i].atSnapshot);
  }

  lemma LayersNext(initial: Disk, steps: seq<Instruction>, i: nat)
    requires ValidRun(initial, steps) && i < |steps|
    ensures ValidRun(initial, steps[..i]) && ValidRun(initial, steps[..i + 1])
    ensures [] !in TreeBefore(initial, steps, i)
    ensures LayersOf(initial, steps[..i + 1])
         == LayersOf(initial, steps[..i]) + [Archive(TreeBefore(initial, steps, i), TreeAt(steps, i))]
    ensures BaselineAfter(initial, steps[..i + 1]) == steps[i].atFlatten
  {
    TreesAre(initial, steps, i);
    assert steps[i] in steps;
    assert steps[..i + 1][..i] == steps[..i];
  }

  lemma LayersAppend(initial: Disk, steps: seq<Instruction>, step: Instruction)
    requires ValidRun(initial, steps + [step])
    ensures ValidRun(initial, steps) && [] !in Capture(BaselineAfter(initial, steps))
    ensures LayersOf(initial, steps + [step])
         == LayersOf(initial, steps) + [Archive(Capture(BaselineAfter(initial, steps)), Capture(step.atSnapshot))]
  {
    var n := |steps|;
    assert (steps + [step])[..n] == steps && (steps + [step])[n] == step;
    TreesAre(initial, steps + [step], n);
  }

  /** The guest's side of a build: one snapshot and one refresh per instruction. */
  method RunBuild(initial: Disk, steps: seq<Instruction>) returns (layers: seq<seq<Item>>)
    requires ValidRun(initial, steps)
    ensures layers == LayersOf(initial, steps)
  {
    layers := [];
    var overlay := new BuildOverlay(initial);
    for i := 0 to |steps|
      invariant ValidRun(initial, steps[..i])
      invariant overlay.baseline == Capture(BaselineAfter(initial, steps[..i]))
      invariant layers == LayersOf(initial, steps[..i])
    {
      LayersNext(initial, steps, i);
      var tar := overlay.SnapshotLayer(steps[i].atSnapshot);
      overlay.Flatten(steps[i].atFlatten);
      layers := layers + [tar];
    }
    assert steps[..|steps|] == steps;
  }

  // ── What the layers are good for ────────────────────────────────────

  /** The layers, applied in order to the initial tree, give the tree at the last snapshot. */
  ghost predicate Rebuilt(initial: Disk, steps: seq<Instruction>)
    requires ValidRun(initial, steps)
  {
    ApplyAll(Capture(initial), LayersOf(initial, steps)) ==
    if steps == [] then Capture(initial) else TreeAt(steps, |steps| - 1)
  }

  /** The next layer is applied to what the layers before it gave. */
  lemma NextLayer(initial: Disk, steps: seq<Instruction>)
    requires ValidRun(initial, steps) && steps != []
    ensures var n := |steps| - 1;
            && ValidRun(initial, steps[..n])
            && WellFormed(TreeBefore(initial, steps, n)) && WellFormed(TreeAt(steps, n))
            && ApplyAll(Capture(initial), LayersOf(initial, steps)) ==
               Apply(ApplyAll(Capture(initial), LayersOf(initial, steps[..n])),
                     Layer(TreeBefore(initial, steps, n), TreeAt(steps, n)))
  {
    var n := |steps| - 1;
    TreesAre(initial, steps, n);
    LayersNext(initial, steps, n);
    assert steps[..n + 1] == steps;
    var tar := Archive(TreeBefore(initial, steps, n), TreeAt(steps, n));
    ApplyAllNext(Capture(initial), LayersOf(initial, steps[..n]), tar);
  }

  ghost predicate Undisturbed(steps: seq<Instruction>) {
    forall i | 0 <= i < |steps| :: steps[i].atFlatten == steps[i].atSnapshot
  }

  /** No instruction's layer holds a name that can be misread. */
  ghost predicate ClearNames(initial: Disk, steps: seq<Instruction>)
    requires ValidRun(initial, steps)
  {
    steps == [] || (
      var n := |steps| - 1;
      TreesAre(initial, steps, n);
      ClearNames(initial, steps[..n]) && Unambiguous(TreeBefore(initial, steps, n), TreeAt(steps, n)))
  }

  /** After every instruction the layers so far rebuild the disk at its snapshot. */
  ghost predicate AllRebuilt(initial: Disk, steps: seq<Instruction>)
    requires ValidRun(initial, steps)
  {
    steps == [] || (
      TreesAre(initial, steps, |steps| - 1);
      AllRebuilt(initial, steps[..|steps| - 1]) && Rebuilt(initial, steps))
  }

  /** One more undisturbed instruction. */
  lemma RebuiltNext(initial: Disk, steps: seq<Instruction>)
    requires ValidRun(initial, steps) && Undisturbed(steps) && steps != []
    ensures var n := |steps| - 1;
            && ValidRun(initial, steps[..n])
            && WellFormed(TreeBefore(initial, steps, n)) && WellFormed(TreeAt(steps, n))
            && (Rebuilt(initial, steps[..n]) ==>
                  (Rebuilt(initial, steps) <==> Unambiguous(TreeBefore(initial, steps, n), TreeAt(steps, n))))
  {
    var n := |steps| - 1;
    NextLayer(initial, steps);
    if Rebuilt(initial, steps[..n]) {
      assert n > 0 ==> steps[..n][n - 1] == steps[n - 1];
      assert ApplyAll(Capture(initial), LayersOf(initial, steps[..n])) == TreeBefore(initial, steps, n);
      DiffThenApply(TreeBefore(initial, steps, n), TreeAt(steps, n));
    }
  }

  /** If nothing changes between a snapshot and its refresh, the layers after every instruction
      rebuild the disk at its snapshot, if and only if no instruction's names can be misread. */
  lemma {:induction false} LayersRebuildDisk(initial: Disk, steps: seq<Instruction>)
    requires ValidRun(initial, steps) && Undisturbed(steps)
    ensures AllRebuilt(initial, steps) <==> ClearNames(initial, steps)
    ensures AllRebuilt(initial, steps) ==> Rebuilt(initial, steps)
  {
    if steps != [] {
      RebuiltNext(initial, steps);
      LayersRebuildDisk(initial, steps[..|steps| - 1]);
    }
  }

  /** What the last layer needs, whatever the names and the disturbances before it: that the layers
      before it agree with the last snapshot on everything it leaves unsaid. */
  lemma RebuiltExactly(initial: Disk, steps: seq<Instruction>)
    requires ValidRun(initial, steps) && steps != []
    ensures var n := |steps| - 1;
            && ValidRun(initial, steps[..n]) && [] !in TreeBefore(initial, steps, n) && [] !in TreeAt(steps, n)
            && (Rebuilt(initial, steps) <==>
                FillsIn(ApplyAll(Capture(initial), LayersOf(initial, steps[..n])),
                        TreeBefore(initial, steps, n), TreeAt(steps, n)))
  {
    var n := |steps| - 1;
    NextLayer(initial, steps);
    var under := ApplyAll(Capture(initial), LayersOf(initial, steps[..n]));
    ApplyElsewhere(under, TreeBefore(initial, steps, n), TreeAt(steps, n));
  }

  /** What a disturbance costs: after instructions whose layers rebuilt the disk at their last
      snapshot, the next layer rebuilds it again exactly when that snapshot agrees with all
      the refreshed baseline makes the layer leave out. */
  lemma DisturbedRefresh(initial: Disk, steps: seq<Instruction>, prev: Instruction, last: Instruction)
    requires ValidRun(initial, steps) && |steps| >= 2
    requires prev == steps[|steps| - 2] && last == steps[|steps| - 1]
    requires ValidRun(initial, steps[..|steps| - 1]) && Rebuilt(initial, steps[..|steps| - 1])
    ensures [] !in Capture(prev.atFlatten) && [] !in Capture(last.atSnapshot)
    ensures Rebuilt(initial, steps) <==>
            FillsIn(Capture(prev.atSnapshot), Capture(prev.atFlatten), Capture(last.atSnapshot))
  {
    var n := |steps| - 1;
    NextLayer(initial, steps);
    assert steps[..n][n - 1] == prev;
    assert TreeBefore(initial, steps, n) == Capture(prev.atFlatten);
    ApplyElsewhere(Capture(prev.atSnapshot), Capture(prev.atFlatten), Capture(last.atSnapshot));
  }

  /** A name that was misread need not show in the end: a file `.wh.x` that one instruction adds and
      the next removes leaves nothing behind. */
  lemma MisreadThenGone(f: Entry)
    ensures var none: Tree, added: Tree := map[], map[[".wh.x"] := f];
            && !Unambiguous(none, added)
            && ApplyAll(none, [Archive(none, added), Archive(added, none)]) == none
  {
    var none: Tree, added: Tree := map[], map[[".wh.x"] := f];
    Single(".wh.x", f);
    assert Last([".wh.x"]) == ".wh.x" && Reserved(".wh.x");
    assert [".wh.x"] in Changed(none, added);
    var r := Apply(none, Layer(none, added));
    forall p: Path ensures p !in r { ApplyElsewhereAt(none, none, added, p); }
    assert r == none;
    ApplyElsewhere(none, added, none);
    ApplyAllNext(none, [], Archive(none, added));
    ApplyAllNext(none, [Archive(none, added)], Archive(added, none));
    assert [] + [Archive(none, added)] == [Archive(none, added)];
    assert [Archive(none, added)] + [Archive(added, none)] == [Archive(none, added), Archive(added, none)];
  }
}
