/** Unpacking all layers of a build on the host. */
module MergeRun {
  import opened Changeset
  import opened Overlay
  import opened DiffApply
  import opened BuildRun
  import opened Merger
  import opened MergerDiff

  /** Every instruction's layer can be read as what it is. */
  ghost predicate DiffableRun(initial: Disk, steps: seq<Instruction>) {
    steps == [] || (
      var n := |steps| - 1;
      DiffableRun(initial, steps[..n]) && Diffable(TreeBefore(initial, steps, n), TreeAt(steps, n)))
  }

  ghost predicate SortsAt(initial: Disk, steps: seq<Instruction>, i: nat)
    requires i < |steps|
  {
    SameSorts(TreeBefore(initial, steps, i), TreeAt(steps, i))
  }

  /** No instruction turns a directory into something else, or back. */
  ghost predicate SortsSteady(initial: Disk, steps: seq<Instruction>) {
    steps == [] || (SortsSteady(initial, steps[..|steps| - 1]) && SortsAt(initial, steps, |steps| - 1))
  }

  ghost function LastTree(initial: Disk, steps: seq<Instruction>): Tree {
    if steps == [] then Capture(initial) else TreeAt(steps, |steps| - 1)
  }

  /** Unpacked to the tree c, as far as unpacking keeps it. */
  ghost predicate Gives(o: Outcome, c: Tree) {
    o.Unpacked? && Matches(c, o.tree)
  }

  /** Over a target that holds the first disk, the layers unpack to the disk at the last snapshot. */
  ghost predicate UnpackedTo(target: Tree, initial: Disk, steps: seq<Instruction>)
    requires ValidRun(initial, steps)
  {
    Gives(UnpackAll(target, LayersOf(initial, steps)), LastTree(initial, steps))
  }

  ghost predicate AllUnpacked(target: Tree, initial: Disk, steps: seq<Instruction>)
    requires ValidRun(initial, steps)
  {
    steps == [] || (
      TreesAre(initial, steps, |steps| - 1);
      AllUnpacked(target, initial, steps[..|steps| - 1]) && UnpackedTo(target, initial, steps))
  }

  /** What a further layer makes of an outcome. */
  function Further(o: Outcome, acts: seq<Action>): Outcome {
    match o
    case Unpacked(u) => Unpack(u, acts)
    case other => other
  }

  lemma FurtherUnpacks(o: Outcome, b: Tree, c: Tree)
    requires Diffable(b, c) && Gives(o, b)
    ensures Gives(Further(o, Layer(b, c)), c) <==> SameSorts(b, c)
  {
    UnpackDiff(o.tree, b, c);
  }

  lemma NextUnpacks(target: Tree, initial: Disk, steps: seq<Instruction>)
    requires ValidRun(initial, steps) && steps != []
    ensures var n := |steps| - 1;
            && ValidRun(initial, steps[..n]) && [] !in TreeBefore(initial, steps, n)
            && UnpackAll(target, LayersOf(initial, steps)) ==
               Further(UnpackAll(target, LayersOf(initial, steps[..n])),
                       Layer(TreeBefore(initial, steps, n), TreeAt(steps, n)))
  {
    var n := |steps| - 1;
    LayersNext(initial, steps, n);
    assert steps[..n + 1] == steps;
    var tar := Archive(TreeBefore(initial, steps, n), TreeAt(steps, n));
    UnpackAllNext(target, LayersOf(initial, steps[..n]), tar);
  }

  lemma LastIsBefore(initial: Disk, steps: seq<Instruction>)
    requires Undisturbed(steps) && steps != []
    ensures LastTree(initial, steps[..|steps| - 1]) == TreeBefore(initial, steps, |steps| - 1)
  {
    var n := |steps| - 1;
    assert n > 0 ==> steps[..n][n - 1] == steps[n - 1];
  }

  /** One more undisturbed instruction. */
  lemma UnpackedNext(target: Tree, initial: Disk, steps: seq<Instruction>)
    requires ValidRun(initial, steps) && Undisturbed(steps) && steps != []
    requires Diffable(TreeBefore(initial, steps, |steps| - 1), TreeAt(steps, |steps| - 1))
    ensures var n := |steps| - 1;
            && ValidRun(initial, steps[..n])
            && (UnpackedTo(target, initial, steps[..n]) ==>
                  (UnpackedTo(target, initial, steps) <==> SortsAt(initial, steps, n)))
  {
    var n := |steps| - 1;
    NextUnpacks(target, initial, steps);
    if UnpackedTo(target, initial, steps[..n]) {
      LastIsBefore(initial, steps);
      var before := UnpackAll(target, LayersOf(initial, steps[..n]));
      FurtherUnpacks(before, TreeBefore(initial, steps, n), TreeAt(steps, n));
    }
  }

  /** If nothing changes between a snapshot and its refresh, the layers unpack, over any target that
      holds the first disk, to the disk at the snapshot, after every instruction, if and only if
      none changes a sort. */
  lemma {:induction false} MergeRebuildsDisk(target: Tree, initial: Disk, steps: seq<Instruction>)
    requires ValidRun(initial, steps) && Undisturbed(steps) && DiffableRun(initial, steps)
    requires Matches(Capture(initial), target)
    ensures AllUnpacked(target, initial, steps) <==> SortsSteady(initial, steps)
    ensures AllUnpacked(target, initial, steps) ==> UnpackedTo(target, initial, steps)
  {
    if steps != [] {
      UnpackedNext(target, initial, steps);
      MergeRebuildsDisk(target, initial, steps[..|steps| - 1]);
    }
  }
}
