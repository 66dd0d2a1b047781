/** A build seen from both sides: the engine's calls, and the guest that answers them with the
    overlay of a build. */
module BuildLayers {
  import opened Wrappers
  import opened Changeset
  import opened Overlay
  import opened DiffApply
  import opened BuildRun
  import opened Executor
  import Engine

  // ── The guest ───────────────────────────────────────────────────────

  /** A layer as the guest took it, under the name it replied with. */
  datatype Snap = Snap(layer: string, tar: seq<Item>)

  function Names(snaps: seq<Snap>): seq<string> {
    seq(|snaps|, i requires 0 <= i < |snaps| => snaps[i].layer)
  }

  function Tars(snaps: seq<Snap>): seq<seq<Item>> {
    seq(|snaps|, i requires 0 <= i < |snaps| => snaps[i].tar)
  }

  lemma SnapsNext(snaps: seq<Snap>, snap: Snap)
    ensures Names(snaps + [snap]) == Names(snaps) + [snap.layer] && Tars(snaps + [snap]) == Tars(snaps) + [snap.tar]
  {
  }

  /** The disk when the overlay was initialised, and the instructions since. */
  datatype Record = Record(initial: Disk, steps: seq<Instruction>)

  function Extended(rec: Record, step: Instruction): Record {
    Record(rec.initial, rec.steps + [step])
  }

  /** The overlay's manifest, if there is an overlay; what it went through; the layers taken since
      it was initialised; and the disk at the last call. */
  datatype Guest = Guest(baseline: Option<Tree>, record: Record, snaps: seq<Snap>, disk: Disk)

  /** Capturing a manifest, and taking a layer against one. */
  datatype Tracker = Tracker(capture: Disk -> Tree, take: (Tree, Disk) -> seq<Item>)

  /** The agent's overlay methods. */
  function NextGuest(t: Tracker, s: Guest, e: Event, disk: Disk): Guest {
    match e.call
    case OverlayInit(_) =>
      if e.reply.Failed? then s.(snaps := [], disk := disk)
      else Guest(Some(t.capture(disk)), Record(disk, []), [], disk)
    case SnapshotLayer =>
      if s.baseline.None? || !e.reply.Snapped? then s.(disk := disk)
      else s.(snaps := s.snaps + [Snap(e.reply.layer, t.take(s.baseline.value, disk))], disk := disk)
    case FlattenOverlay =>
      if s.baseline.None? || e.reply.Failed? then s.(disk := disk)
      else Guest(Some(t.capture(disk)), Extended(s.record, Instruction(s.disk, disk)), s.snaps, disk)
    case _ => s.(disk := disk)
  }

  /** The guest's disk when call number n is carried out. */
  type World = nat -> Disk

  function GuestAfter(t: Tracker, trace: seq<Event>, world: World): Guest {
    if trace == [] then Guest(None, Record([], []), [], [])
    else
      var n := |trace| - 1;
      NextGuest(t, GuestAfter(t, trace[..n], world), trace[n], world(n))
  }

  // ── Both sides ──────────────────────────────────────────────────────

  function TreeIn(t: Tracker, rec: Record): Tree {
    t.capture(BaselineAfter(rec.initial, rec.steps))
  }

  function LayersIn(t: Tracker, rec: Record): seq<seq<Item>>
    decreases |rec.steps|
  {
    if rec.steps == [] then []
    else
      var n := |rec.steps| - 1;
      var before := Record(rec.initial, rec.steps[..n]);
      LayersIn(t, before) + [t.take(TreeIn(t, before), rec.steps[n].atSnapshot)]
  }

  lemma LayersInNext(t: Tracker, rec: Record, step: Instruction)
    ensures LayersIn(t, Extended(rec, step)) == LayersIn(t, rec) + [t.take(TreeIn(t, rec), step.atSnapshot)]
    ensures TreeIn(t, Extended(rec, step)) == t.capture(step.atFlatten)
  {
    assert (rec.steps + [step])[..|rec.steps|] == rec.steps;
  }

  /** The names the engine collects are those of the layers taken, and these are the layers of the
      guest's record, with one more between a snapshot and its flatten. */
  ghost predicate Agree(t: Tracker, g: Progress, s: Guest) {
    && s.baseline == Some(TreeIn(t, s.record))
    && Names(s.snaps) == g.layers
    && (g.tracking.Refreshed? ==> Tars(s.snaps) == LayersIn(t, s.record))
    && (g.tracking.Taken? ==> Tars(s.snaps) == LayersIn(t, s.record) + [t.take(TreeIn(t, s.record), s.disk)])
  }

  /** Every successful call keeps it, as long as each snapshot is followed by its flatten. */
  lemma StepAgrees(t: Tracker, g: Progress, s: Guest, e: Event, disk: Disk)
    requires e.call.OverlayInit? || Agree(t, g, s)
    requires Succeeded(e) && !Next(g, e).tracking.OutOfOrder?
    ensures Agree(t, Next(g, e), NextGuest(t, s, e, disk))
  {
    match e.call
    case SnapshotLayer => SnapsNext(s.snaps, Snap(e.reply.layer, t.take(s.baseline.value, disk)));
    case FlattenOverlay => LayersInNext(t, s.record, Instruction(s.disk, disk));
    case _ =>
  }

  /** A trace of successful calls that begins with an overlay and flattens after each snapshot. */
  ghost predicate Proper(trace: seq<Event>) {
    trace != [] && trace[0].call.OverlayInit? && After(trace).fine && !After(trace).tracking.OutOfOrder?
  }

  lemma {:induction false} SidesAgree(t: Tracker, trace: seq<Event>, world: World)
    requires Proper(trace)
    ensures Agree(t, After(trace), GuestAfter(t, trace, world))
  {
    var n := |trace| - 1;
    if n > 0 { SidesAgree(t, trace[..n], world); }
    StepAgrees(t, After(trace[..n]), GuestAfter(t, trace[..n], world), trace[n], world(n));
  }

  /** Nothing changes on the disk between a snapshot and the next call. */
  ghost predicate Still(trace: seq<Event>, world: World) {
    forall n: nat | n + 1 < |trace| && trace[n].call.SnapshotLayer? :: world(n + 1) == world(n)
  }

  lemma {:induction false} StillUndisturbed(t: Tracker, trace: seq<Event>, world: World)
    requires Proper(trace) && Still(trace, world)
    ensures Undisturbed(GuestAfter(t, trace, world).record.steps)
  {
    var n := |trace| - 1;
    if n > 0 {
      StillUndisturbed(t, trace[..n], world);
      LastDisk(t, trace[..n], world);
      if trace[n].call.FlattenOverlay? { assert trace[n - 1].call.SnapshotLayer? && world(n - 1 + 1) == world(n - 1); }
    }
  }

  lemma LastDisk(t: Tracker, trace: seq<Event>, world: World)
    requires trace != []
    ensures GuestAfter(t, trace, world).disk == world(|trace| - 1)
  {
  }

  // ── The guest's overlay ─────────────────────────────────────────────

  function Take(b: Tree, disk: Disk): seq<Item> {
    if [] in b then [] else Archive(b, Capture(disk))
  }

  function OverlayTracker(): Tracker {
    Tracker(Capture, Take)
  }

  ghost predicate ValidWorld(world: World) {
    forall n: nat :: DistinctNames(world(n))
  }

  lemma GuestNext(t: Tracker, trace: seq<Event>, world: World, n: nat)
    requires n < |trace|
    ensures GuestAfter(t, trace[..n + 1], world) ==
            NextGuest(t, GuestAfter(t, trace[..n], world), trace[n], world(n))
  {
    assert trace[..n + 1][..n] == trace[..n];
  }

  /** The agent, answering the calls of a trace with a build overlay. */
  method RunGuest(trace: seq<Event>, world: World) returns (snaps: seq<Snap>)
    requires ValidWorld(world)
    ensures snaps == GuestAfter(OverlayTracker(), trace, world).snaps
  {
    var overlay: BuildOverlay? := null;
    snaps := [];
    for n := 0 to |trace|
      invariant overlay != null ==> fresh(overlay) && [] !in overlay.baseline
      invariant var s := GuestAfter(OverlayTracker(), trace[..n], world);
                s.snaps == snaps && s.baseline == if overlay == null then None else Some(overlay.baseline)
    {
      GuestNext(OverlayTracker(), trace, world, n);
      var e, disk := trace[n], world(n);
      CaptureWellFormed(disk);
      match e.call {
        case OverlayInit(_) =>
          snaps := [];
          if !e.reply.Failed? { overlay := new BuildOverlay(disk); }
        case SnapshotLayer =>
          if overlay != null && e.reply.Snapped? {
            var tar := overlay.SnapshotLayer(disk);
            snaps := snaps + [Snap(e.reply.layer, tar)];
          }
        case FlattenOverlay =>
          if overlay != null && !e.reply.Failed? { overlay.Flatten(disk); }
        case _ =>
      }
    }
    assert trace[..|trace|] == trace;
  }

  lemma {:induction false} RecordValid(t: Tracker, trace: seq<Event>, world: World)
    requires ValidWorld(world)
    ensures var s := GuestAfter(t, trace, world); ValidRun(s.record.initial, s.record.steps) && DistinctNames(s.disk)
  {
    if trace != [] { RecordValid(t, trace[..|trace| - 1], world); }
  }

  lemma {:induction false} LayersAre(rec: Record)
    requires ValidRun(rec.initial, rec.steps)
    ensures LayersIn(OverlayTracker(), rec) == LayersOf(rec.initial, rec.steps)
    decreases |rec.steps|
  {
    if rec.steps != [] {
      var n := |rec.steps| - 1;
      assert rec.steps == rec.steps[..n] + [rec.steps[n]];
      LayersAppend(rec.initial, rec.steps[..n], rec.steps[n]);
      LayersAre(Record(rec.initial, rec.steps[..n]));
    }
  }

  // ── The joined result ───────────────────────────────────────────────

  lemma {:induction false} PlanBegins(engine: Engine.BuildEngine, order: seq<nat>)
    requires Engine.Selects(engine.stages, order) && order != [] && engine.BuildPlan(order).complete
    ensures engine.BuildPlan(order).calls != [] && engine.BuildPlan(order).calls[0].OverlayInit?
  {
    if |order| > 1 { PlanBegins(engine, order[..|order| - 1]); }
  }

  /** A successful build leaves a proper trace. */
  lemma BuildProper(engine: Engine.BuildEngine, needed: seq<nat>)
    requires Engine.Selects(engine.stages, needed) && needed != []
    requires Finished([], After(engine.trace), engine.BuildPlan(needed)) && EndsOrderly(After(engine.trace))
    ensures Proper(engine.trace)
  {
    PlanBegins(engine, needed);
    AfterRecords(engine.trace);
  }

  /** The layers rebuild the disk of the record after every instruction if and only if no name in
      them can be misread. */
  ghost predicate Rebuilds(rec: Record)
    requires ValidRun(rec.initial, rec.steps)
  {
    AllRebuilt(rec.initial, rec.steps) <==> ClearNames(rec.initial, rec.steps)
  }

  /** They fold to the disk at the last snapshot if and only if the layers before the last one
      agree with it on all that the last one leaves unsaid. */
  ghost predicate EndsAt(rec: Record, tars: seq<seq<Item>>)
    requires ValidRun(rec.initial, rec.steps)
  {
    if rec.steps == [] then ApplyAll(Capture(rec.initial), tars) == LastTree(rec)
    else
      var n := |rec.steps| - 1;
      RebuiltExactly(rec.initial, rec.steps);
      ApplyAll(Capture(rec.initial), tars) == LastTree(rec) <==>
      FillsIn(ApplyAll(Capture(rec.initial), LayersOf(rec.initial, rec.steps[..n])),
              TreeBefore(rec.initial, rec.steps, n), LastTree(rec))
  }

  /** The manifest at the last snapshot. */
  ghost function LastTree(rec: Record): Tree {
    if rec.steps == [] then Capture(rec.initial) else Capture(rec.steps[|rec.steps| - 1].atSnapshot)
  }

  lemma RecordRebuilds(rec: Record)
    requires ValidRun(rec.initial, rec.steps)
    ensures EndsAt(rec, LayersOf(rec.initial, rec.steps))
    ensures Undisturbed(rec.steps) ==> Rebuilds(rec)
  {
    if rec.steps != [] { RebuiltExactly(rec.initial, rec.steps); }
    if Undisturbed(rec.steps) { LayersRebuildDisk(rec.initial, rec.steps); }
  }

  /** What both sides of a proper trace come to. */
  lemma LayersJoined(trace: seq<Event>, world: World, s: Guest)
    requires Proper(trace) && After(trace).tracking.Refreshed? && ValidWorld(world)
    requires s == GuestAfter(OverlayTracker(), trace, world)
    ensures ValidRun(s.record.initial, s.record.steps)
    ensures Names(s.snaps) == After(trace).layers && Tars(s.snaps) == LayersOf(s.record.initial, s.record.steps)
    ensures EndsAt(s.record, Tars(s.snaps)) && (Still(trace, world) ==> Rebuilds(s.record))
  {
    SidesAgree(OverlayTracker(), trace, world);
    RecordValid(OverlayTracker(), trace, world);
    LayersAre(s.record);
    RecordRebuilds(s.record);
    if Still(trace, world) { StillUndisturbed(OverlayTracker(), trace, world); }
  }

  /** The layers a successful build returns are the ones its guest took, in order, since the last
      overlay was initialised. When they fold, from the manifest at that initialisation, to the one
      at the last snapshot is given exactly; on a disk that is still between a snapshot and its
      flatten they do so after every instruction if and only if no name can be misread. */
  method BuildImage(engine: Engine.BuildEngine, target: Option<string>, world: World)
    returns (r: Option<Engine.BuildResult>, snaps: seq<Snap>, ghost record: Record)
    requires engine.Valid() && engine.trace == [] && ValidWorld(world)
    modifies engine
    ensures record == GuestAfter(OverlayTracker(), engine.trace, world).record
    ensures r.Some? ==> ValidRun(record.initial, record.steps)
    ensures r.Some? ==> r.value.layers == Names(snaps) && Tars(snaps) == LayersOf(record.initial, record.steps)
    ensures r.Some? ==> EndsAt(record, Tars(snaps))
    ensures r.Some? && Still(engine.trace, world) ==> Rebuilds(record)
  {
    ghost var needed;
    r, needed := engine.Build(target);
    snaps := RunGuest(engine.trace, world);
    ghost var s := GuestAfter(OverlayTracker(), engine.trace, world);
    record := s.record;
    if r.Some? {
      BuildProper(engine, needed);
      LayersJoined(engine.trace, world, s);
    }
  }
}
