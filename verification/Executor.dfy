/** The calls a build engine makes on its executor, and what a trace of them says. */
module Executor {
  import opened Dockerfile
  import opened Strings
  import opened Wrappers

  // ── Calls and replies ───────────────────────────────────────────────

  datatype Mount =
    Mount(mountType: MountType, target: string, source: Option<string>, readOnly: bool, id: Option<string>)

  datatype Call =
    | OverlayInit(lower: Option<string>)
    | SetupMount(mount: Mount)
    | Exec(cmd: seq<string>, env: map<string, string>, workdir: string)
    | TeardownMount(mount: Mount)
    | CopyToGuest(sources: seq<string>, dest: string)
    | SnapshotLayer
    | FlattenOverlay

  datatype Reply = Failed | Done | Exited(code: int) | Snapped(layer: string)

  datatype Event = Event(call: Call, reply: Reply)

  /** A reply the call cannot have counts as a failure. */
  function Answer(call: Call, reply: Reply): Reply {
    match call
    case Exec(_, _, _) => if reply.Exited? then reply else Failed
    case SnapshotLayer => if reply.Snapped? then reply else Failed
    case _ => if reply.Done? then reply else Failed
  }

  predicate Succeeded(e: Event) {
    e.reply == Answer(e.call, e.reply) && !e.reply.Failed? && (e.reply.Exited? ==> e.reply.code == 0)
  }

  // ── What a trace says ───────────────────────────────────────────────

  datatype Mounts = Up(stack: seq<Mount>) | MountFailed | Unbalanced

  datatype Tracking = Refreshed | Taken | OutOfOrder

  /** Replaying the calls: the stack of mounts, whether the baseline is fresh, the layers snapped
      since the overlay was last initialised, the calls made, whether all of them succeeded, and
      whether after a failed one another than a teardown was made. */
  datatype Progress = Progress(
    mounts: Mounts,
    tracking: Tracking,
    layers: seq<string>,
    calls: seq<Call>,
    fine: bool,
    stray: bool)

  function NextMounts(m: Mounts, e: Event): Mounts {
    if !m.Up? then m
    else match e.call
      case SetupMount(mount) => if e.reply.Failed? then MountFailed else Up(m.stack + [mount])
      case TeardownMount(mount) =>
        if m.stack == [] || m.stack[|m.stack| - 1] != mount then Unbalanced
        else if e.reply.Failed? then MountFailed
        else Up(m.stack[..|m.stack| - 1])
      case _ => m
  }

  /** A flatten comes right after each successful snapshot, and nowhere else. */
  function NextTracking(t: Tracking, e: Event): Tracking {
    match t
    case OutOfOrder => OutOfOrder
    case Taken => if e.call.FlattenOverlay? then Refreshed else OutOfOrder
    case Refreshed =>
      if e.call.FlattenOverlay? then OutOfOrder
      else if e.call.SnapshotLayer? && !e.reply.Failed? then Taken
      else Refreshed
  }

  function NextLayers(layers: seq<string>, e: Event): seq<string> {
    if e.call.OverlayInit? then []
    else if e.call.SnapshotLayer? && e.reply.Snapped? then layers + [e.reply.layer]
    else layers
  }

  function Next(g: Progress, e: Event): Progress {
    Progress(NextMounts(g.mounts, e), NextTracking(g.tracking, e), NextLayers(g.layers, e),
             g.calls + [e.call], g.fine && Succeeded(e), g.stray || (!g.fine && !e.call.TeardownMount?))
  }

  function Start(): Progress {
    Progress(Up([]), Refreshed, [], [], true, false)
  }

  function After(events: seq<Event>): Progress {
    if events == [] then Start() else Next(After(events[..|events| - 1]), events[|events| - 1])
  }

  lemma AfterNext(events: seq<Event>, e: Event)
    ensures After(events + [e]) == Next(After(events), e)
  {
    assert (events + [e])[..|events|] == events;
  }

  /** A call other than a teardown after a failed one. */
  ghost predicate GoesOn(events: seq<Event>) {
    exists i, j | 0 <= i < j < |events| :: !Succeeded(events[i]) && !events[j].call.TeardownMount?
  }

  /** The calls recorded are those of the trace, and it is fine if every call in it succeeded. */
  lemma {:induction false} AfterRecords(events: seq<Event>)
    ensures |After(events).calls| == |events|
    ensures forall i | 0 <= i < |events| :: After(events).calls[i] == events[i].call
    ensures After(events).fine <==> forall i | 0 <= i < |events| :: Succeeded(events[i])
  {
    if events != [] { AfterRecords(events[..|events| - 1]); }
  }

  lemma GoesOnNext(init: seq<Event>, e: Event)
    ensures GoesOn(init + [e]) <==>
            GoesOn(init) || (!e.call.TeardownMount? && exists i | 0 <= i < |init| :: !Succeeded(init[i]))
  {
    var events := init + [e];
    assert events[|init|] == e;
    forall i, j | 0 <= i < j < |events|
      ensures !Succeeded(events[i]) && !events[j].call.TeardownMount? <==>
              !Succeeded(init[i]) && !(if j < |init| then init[j] else e).call.TeardownMount?
    {
    }
  }

  /** And astray if a call other than a teardown follows a failed one. */
  lemma {:induction false} AfterStrays(events: seq<Event>)
    ensures After(events).stray <==> GoesOn(events)
  {
    if events != [] {
      var n := |events| - 1;
      AfterStrays(events[..n]);
      AfterRecords(events[..n]);
      GoesOnNext(events[..n], events[n]);
      assert events == events[..n] + [events[n]];
    }
  }

  /** Between instructions no mount is up, the baseline is fresh, and the layers collected are those
      snapped in this stage. */
  predicate AtRest(g: Progress, layers: seq<string>) {
    g == g.(mounts := Up([]), tracking := Refreshed, layers := layers, stray := false)
  }

  /** However a build ends: mounts were taken down in reverse order, all of them unless a mount
      call itself failed, every snapshot was followed by its flatten, and after a failed call
      nothing but teardowns was done. */
  predicate EndsOrderly(g: Progress) {
    (g.mounts == Up([]) || g.mounts == MountFailed) && g.tracking == Refreshed && !g.stray
  }

  // ── Plans ───────────────────────────────────────────────────────────

  /** The calls an engine means to make; not complete if a text on the way does not substitute. */
  datatype Plan = Plan(calls: seq<Call>, complete: bool)

  /** One plan after the other, as far as the first goes. */
  function Join(p: Plan, q: Plan): Plan {
    if p.complete then Plan(p.calls + q.calls, q.complete) else p
  }

  /** After the calls made before, exactly the plan was carried out, and nothing failed. */
  predicate Finished(before: seq<Call>, g: Progress, p: Plan) {
    g.fine && p.complete && g.calls == before + p.calls
  }

  /** The calls made are the first ones of the plan; it was left because a call failed, or where it
      ends early. */
  predicate Stopped(before: seq<Call>, g: Progress, p: Plan) {
    g.calls <= before + p.calls && (g.fine ==> !p.complete && g.calls == before + p.calls)
  }

  /** What became of a plan. */
  predicate Followed(before: seq<Call>, g: Progress, p: Plan, ok: bool) {
    if ok then Finished(before, g, p) else Stopped(before, g, p)
  }

  /** A plan carried out, then another one as far as it went. */
  lemma FollowedBy(before: seq<Call>, mid: Progress, g: Progress, p: Plan, q: Plan, ok: bool)
    requires Finished(before, mid, p) && Followed(mid.calls, g, q, ok)
    ensures Followed(before, g, Join(p, q), ok)
  {
    Associates(before, p.calls, q.calls);
  }

  /** A plan that was left is left, whatever would have come after it. */
  lemma StoppedEarly(before: seq<Call>, g: Progress, p: Plan, q: Plan)
    requires Stopped(before, g, p)
    ensures Stopped(before, g, Join(p, q))
  {
    if p.complete {
      Associates(before, p.calls, q.calls);
      assert before + p.calls <= before + p.calls + q.calls;
    }
  }

  // ── Plans of single instructions ────────────────────────────────────

  function SetupCalls(ms: seq<Mount>): seq<Call> {
    seq(|ms|, i requires 0 <= i < |ms| => SetupMount(ms[i]))
  }

  /** The last one first. */
  function TeardownCalls(ms: seq<Mount>): seq<Call> {
    seq(|ms|, i requires 0 <= i < |ms| => TeardownMount(ms[|ms| - 1 - i]))
  }

  /** A call between its mounts. */
  function MountedPlan(call: Call, ms: seq<Mount>): Plan {
    Join(Plan(SetupCalls(ms), true), Plan([call] + TeardownCalls(ms), true))
  }

  /** A layer is taken and the baseline refreshed. */
  function SnapshotPlan(): Plan {
    Plan([SnapshotLayer, FlattenOverlay], true)
  }

  lemma SetupCallsNext(ms: seq<Mount>, i: nat)
    requires i < |ms|
    ensures ms[..i + 1] == ms[..i] + [ms[i]]
    ensures SetupCalls(ms[..i + 1]) == SetupCalls(ms[..i]) + [SetupMount(ms[i])] <= SetupCalls(ms)
  {
  }

  lemma TeardownCallsNext(ms: seq<Mount>, k: nat)
    requires k < |ms|
    ensures ms[..k + 1][..k] == ms[..k] && ms[..k + 1][k] == ms[k]
    ensures TeardownCalls(ms)[..|ms| - k] == TeardownCalls(ms)[..|ms| - k - 1] + [TeardownMount(ms[k])]
    ensures TeardownCalls(ms)[..|ms| - k] <= TeardownCalls(ms)
  {
  }
}
