/** The pre-copy state machine: what to do after each dirty snapshot. */
module PreCopy {
  import opened Numbers
  import opened Wrappers
  import opened DirtyTracking

  datatype Config = Config(threshold: real, maxRounds: nat)

  datatype State = State(round: nat, totalPagesSent: nat)

  datatype Action = SendPages(round: nat, pages: seq<nat>) | StopAndCopy(round: nat)

  predicate ShouldStopAndCopy(cfg: Config, rate: Option<real>, round: nat) {
    round >= cfg.maxRounds || (rate.Some? && rate.value < cfg.threshold)
  }

  /** What one snapshot does to the state, and the action it asks for. */
  function Process(cfg: Config, st: State, pages: seq<nat>, rate: Option<real>): (State, Action) {
    var round := st.round + 1;
    if pages == [] || ShouldStopAndCopy(cfg, rate, round) then (st.(round := round), StopAndCopy(round))
    else (State(round, st.totalPagesSent + |pages|), SendPages(round, pages))
  }

  class PreCopyState {
    var round: nat
    var totalPagesSent: nat
    const convergence: Config

    constructor (cfg: Config)
      ensures round == 0 && totalPagesSent == 0 && convergence == cfg
    {
      round, totalPagesSent, convergence := 0, 0, cfg;
    }

    /** `process_snapshot` */
    method ProcessSnapshot(snapshot: DirtySnapshot) returns (action: Action)
      requires snapshot.bitmap.Valid()
      modifies this
      ensures exists pages :: Ascending(pages) && (forall p :: p in pages <==> p in snapshot.bitmap.Dirty()) &&
                Process(convergence, old(State(round, totalPagesSent)), pages, snapshot.rate) ==
                (State(round, totalPagesSent), action)
    {
      ghost var before := State(round, totalPagesSent);
      var pages := snapshot.bitmap.DirtyPages();
      round := round + 1;
      if pages == [] {
        action := StopAndCopy(round);
      } else if ShouldStopAndCopy(convergence, snapshot.rate, round) {
        action := StopAndCopy(round);
      } else {
        totalPagesSent := totalPagesSent + |pages|;
        action := SendPages(round, pages);
      }
      assert Process(convergence, before, pages, snapshot.rate) == (State(round, totalPagesSent), action);
    }
  }

  // ── Whole runs ──────────────────────────────────────────────────────

  datatype Snapshot = Snapshot(pages: seq<nat>, rate: Option<real>)

  /** The actions of a run: one per snapshot, up to the first that stops. */
  function Run(cfg: Config, st: State, snaps: seq<Snapshot>): seq<Action>
    decreases |snaps|
  {
    if snaps == [] then []
    else
      var (next, action) := Process(cfg, st, snaps[0].pages, snaps[0].rate);
      if action.StopAndCopy? then [action] else [action] + Run(cfg, next, snaps[1..])
  }

  function FinalState(cfg: Config, st: State, snaps: seq<Snapshot>): State
    decreases |snaps|
  {
    if snaps == [] then st
    else
      var (next, action) := Process(cfg, st, snaps[0].pages, snaps[0].rate);
      if action.StopAndCopy? then next else FinalState(cfg, next, snaps[1..])
  }

  function PagesSent(acts: seq<Action>): nat {
    if acts == [] then 0
    else (if acts[0].SendPages? then |acts[0].pages| else 0) + PagesSent(acts[1..])
  }

  function RoundLimit(cfg: Config): nat {
    if cfg.maxRounds == 0 then 1 else cfg.maxRounds
  }

  /** The k-th action of a run is that of the k-th snapshot in the k-th round: every round but
      the last sends its own, non-empty, page list. */
  lemma {:induction false} RunRounds(cfg: Config, st: State, snaps: seq<Snapshot>, k: nat)
    requires k < |Run(cfg, st, snaps)|
    ensures var acts := Run(cfg, st, snaps);
            && k < |snaps|
            && acts[k].round == st.round + 1 + k
            && (acts[k].SendPages? ==> acts[k].pages == snaps[k].pages != [])
            && (k < |acts| - 1 ==> acts[k].SendPages?)
    decreases |snaps|
  {
    var (next, action) := Process(cfg, st, snaps[0].pages, snaps[0].rate);
    if k > 0 { RunRounds(cfg, next, snaps[1..], k - 1); }
  }

  /** A run ends by the round limit; it stops short of the snapshots only with StopAndCopy; and
      the counter equals what was sent. */
  lemma {:induction false} RunEnds(cfg: Config, st: State, snaps: seq<Snapshot>)
    requires st.round < RoundLimit(cfg)
    ensures var acts := Run(cfg, st, snaps);
            && st.round + |acts| <= RoundLimit(cfg)
            && (|acts| < |snaps| || |snaps| >= RoundLimit(cfg) - st.round ==>
                  acts != [] && acts[|acts| - 1].StopAndCopy?)
            && FinalState(cfg, st, snaps) == State(st.round + |acts|, st.totalPagesSent + PagesSent(acts))
    decreases |snaps|
  {
    if snaps != [] {
      var (next, action) := Process(cfg, st, snaps[0].pages, snaps[0].rate);
      var acts := Run(cfg, st, snaps);
      if action.SendPages? {
        RunEnds(cfg, next, snaps[1..]);
        assert acts[1..] == Run(cfg, next, snaps[1..]);
      } else {
        assert acts[1..] == [];
      }
    }
  }

  /** Pre-copy always stops: from a fresh state StopAndCopy comes by round max(1, max_rounds),
      so the 32-bit round counter cannot overflow. */
  lemma PreCopyStops(cfg: Config, snaps: seq<Snapshot>)
    requires |snaps| >= 1 && |snaps| >= cfg.maxRounds
    ensures |Run(cfg, State(0, 0), snaps)| <= |snaps|
    ensures var acts := Run(cfg, State(0, 0), snaps);
            && (|acts| == 1 || 1 < |acts| <= cfg.maxRounds) && acts[|acts| - 1] == StopAndCopy(|acts|)
            && (forall i | 0 <= i < |acts| - 1 :: acts[i] == SendPages(i + 1, snaps[i].pages) && snaps[i].pages != [])
            && (cfg.maxRounds <= U32_MAX ==> |acts| <= U32_MAX)
            && FinalState(cfg, State(0, 0), snaps).totalPagesSent == PagesSent(acts)
  {
    RunEnds(cfg, State(0, 0), snaps);
    var acts := Run(cfg, State(0, 0), snaps);
    forall k | 0 <= k < |acts|
      ensures k < |snaps| && acts[k].round == k + 1
      ensures acts[k].SendPages? ==> acts[k].pages == snaps[k].pages != []
      ensures k < |acts| - 1 ==> acts[k].SendPages?
    {
      RunRounds(cfg, State(0, 0), snaps, k);
    }
  }

  /** A fresh tracker's first snapshot has no rate, so it stops a migration exactly when it is
      empty or one round is all there is. */
  lemma FirstSnapshot(cfg: Config, timestampMs: nat, dirtyCount: nat, pages: seq<nat>)
    ensures Process(cfg, State(0, 0), pages, RateSince(None, timestampMs, dirtyCount)).1.StopAndCopy? <==>
            pages == [] || cfg.maxRounds <= 1
  {
  }

  /** No more than a 32-bit counter holds. */
  function Capped(n: nat): nat {
    if n > U32_MAX then U32_MAX else n
  }

  /** A later snapshot stops the migration exactly when it is empty, the rounds are used up, or fewer
      pages a second than the threshold were dirtied since the last one: a thousand times the pages
      against the threshold times the milliseconds. */
  lemma LaterSnapshot(cfg: Config, st: State, last: nat, now: nat, dirtyCount: nat, pages: seq<nat>)
    ensures Process(cfg, st, pages, RateSince(Some(last), now, dirtyCount)).1.StopAndCopy? <==>
            || pages == [] || st.round + 1 >= cfg.maxRounds
            || (if now <= last then 0.0 < cfg.threshold
                else 1000.0 * Capped(dirtyCount) as real < cfg.threshold * Capped(now - last) as real)
  {
    if last < now {
      var d, t := Capped(dirtyCount) as real, Capped(now - last) as real;
      RateAgainst(d, t, cfg.threshold);
    }
  }

  lemma RateAgainst(d: real, t: real, threshold: real)
    requires t > 0.0
    ensures d / (t / 1000.0) < threshold <==> 1000.0 * d < threshold * t
  {
    var rate := d / (t / 1000.0);
    assert rate * (t / 1000.0) == d;
    assert rate * t == 1000.0 * d;
    if rate < threshold { assert (threshold - rate) * t > 0.0; }
    if 1000.0 * d < threshold * t { assert (threshold - rate) * t > 0.0; }
  }
}
