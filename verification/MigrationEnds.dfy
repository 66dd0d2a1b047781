/** A migration can always be brought to its end: from every reachable state, with a guest that
    writes no more, some steps lead to equal memories. */
module MigrationEnds {
  import opened Numbers
  import opened Wrappers
  import opened DirtyTracking
  import opened PreCopy
  import opened Migration

  // ── What a collection finds ─────────────────────────────────────────

  lemma {:induction false} Listed(ps: set<nat>, n: nat) returns (pages: seq<nat>)
    requires forall p | p in ps :: p < n
    ensures Ascending(pages) && forall p :: p in pages <==> p in ps
    decreases n
  {
    pages := [];
    if n > 0 {
      pages := Listed(ps - {n - 1}, n - 1);
      if n - 1 in ps {
        forall i | 0 <= i < |pages| ensures pages[i] < n - 1 { assert pages[i] in ps - {n - 1}; }
        pages := pages + [n - 1];
      }
    }
  }

  /** The bitmap of a set of pages. */
  lemma {:induction false} BitmapOf(ps: set<nat>, n: nat) returns (bytes: seq<bv8>)
    requires forall p | p in ps :: p < n
    ensures |bytes| == DivCeil(n, 8) && Pages(bytes, n) == ps
    decreases |ps|
  {
    if ps == {} {
      bytes := seq(DivCeil(n, 8), i => 0);
      ZeroBits(bytes);
    } else {
      var p :| p in ps;
      bytes := BitmapOf(ps - {p}, n);
      SetBitAt(bytes, p);
      bytes := bytes[p / 8 := SetBit(bytes[p / 8], p % 8)];
      assert ps - {p} + {p} == ps;
    }
  }

  // ── One more step ───────────────────────────────────────────────────

  function Rank(phase: Phase): nat {
    match phase
    case Copying => 3
    case Stopping(_) => 2
    case Paused(_) => 1
    case Finished => 0
  }

  /** Everything is sent and has arrived. */
  ghost predicate Done(s: System) {
    s.phase.Finished? && s.channel == []
  }

  /** What is still to do, the most important first. */
  ghost predicate Less(t: System, s: System) {
    || Rank(t.phase) < Rank(s.phase)
    || (Rank(t.phase) == Rank(s.phase) &&
        (|| t.pre.round > s.pre.round
         || (t.pre.round == s.pre.round &&
             (|| |t.toRead| < |s.toRead|
              || (|t.toRead| == |s.toRead| &&
                  (|| |t.batch| < |s.batch| || (|t.batch| == |s.batch| && |t.channel| < |s.channel|)))))))
  }

  lemma MoveOn(cfg: Config, s: System) returns (t: System)
    requires Inv(cfg, s) && !Done(s)
    ensures Next(cfg, s, t) && Inv(cfg, t) && t.src == s.src && Less(t, s)
  {
    if s.toRead != {} {
      var p :| p in s.toRead;
      assert p in Awaited(s);
      t := s.(toRead := s.toRead - {p}, batch := s.batch + [PageData(p, s.src[p])]);
      assert ReadPage(s, t, p);
    } else if s.batch != [] {
      t := s.(batch := [], channel := s.channel + [PageBatch(s.pre.round, s.batch)]);
      assert SendBatch(s, t);
    } else if s.channel != [] {
      t := s.(dst := Store(s.dst, s.channel[0].pages), channel := s.channel[1..]);
      assert Deliver(s, t);
    } else {
      t := NextPhase(cfg, s);
    }
    NextKeepsInv(cfg, s, t);
  }

  lemma NextPhase(cfg: Config, s: System) returns (t: System)
    requires Inv(cfg, s) && !Done(s) && s.toRead == {} && s.batch == [] && s.channel == []
    ensures Next(cfg, s, t) && t.src == s.src && Less(t, s)
  {
    match s.phase
    case Copying => t := NextRound(cfg, s);
    case Stopping(stop) =>
      t := s.(phase := Paused(stop + s.log), log := {});
      assert Pause(s, t);
    case Paused(last) =>
      forall p | p in last ensures p < |s.src| { assert p in Awaited(s); }
      var list := Listed(last, |s.src|);
      var pages := seq(|list|, i requires 0 <= i < |list| => Read(s.src, list[i]));
      ReadsList(s.src, last, list, pages);
      t := s.(phase := Finished, channel := s.channel + [LastPages(pages)]);
      assert SendFinal(s, t, pages);
  }

  function Read(src: seq<Content>, p: nat): PageData {
    PageData(p, if p < |src| then src[p] else 0)
  }

  lemma ReadsList(src: seq<Content>, ps: set<nat>, list: seq<nat>, pages: seq<PageData>)
    requires (forall p | p in ps :: p < |src|) && forall p :: p in list <==> p in ps
    requires |pages| == |list| && forall i | 0 <= i < |list| :: pages[i] == Read(src, list[i])
    ensures ReadsExactly(src, ps, pages)
  {
    forall i | 0 <= i < |pages| ensures pages[i].page in ps { assert list[i] in list; }
    forall p | p in ps ensures PageData(p, src[p]) in pages {
      var i :| 0 <= i < |list| && list[i] == p;
      assert pages[i] == PageData(p, src[p]);
    }
  }

  lemma NextRound(cfg: Config, s: System) returns (t: System)
    requires Inv(cfg, s) && s.phase.Copying? && s.toRead == {} && s.batch == []
    ensures Next(cfg, s, t) && t.src == s.src && Less(t, s)
  {
    forall p | p in s.log ensures p < |s.src| { assert p in Awaited(s); }
    var bytes := BitmapOf(s.log, |s.src|);
    var pages := Listed(s.log, |s.src|);
    var (pre, action) := Process(cfg, s.pre, pages, RateSince(s.lastSample, 0, DirtyCount(bytes)));
    t := s.(log := {}, pre := pre, lastSample := Some(0));
    t := if action.StopAndCopy? then t.(phase := Stopping(s.log)) else t.(toRead := s.log);
    assert Collect(cfg, s, t, bytes, pages, 0);
  }

  // ── To the end ──────────────────────────────────────────────────────

  ghost predicate Steps(cfg: Config, states: seq<System>) {
    states != [] && forall i | 0 <= i < |states| - 1 :: Next(cfg, states[i], states[i + 1])
  }

  /** The rounds that are left. */
  ghost function RoundsLeft(cfg: Config, s: System): nat {
    if s.pre.round <= RoundLimit(cfg) then RoundLimit(cfg) - s.pre.round else 0
  }

  lemma {:induction false} GoOn(cfg: Config, s: System) returns (states: seq<System>)
    requires Inv(cfg, s)
    ensures Steps(cfg, states) && states[0] == s
    ensures Done(states[|states| - 1]) && states[|states| - 1].src == s.src
    decreases Rank(s.phase), RoundsLeft(cfg, s), |s.toRead|, |s.batch|, |s.channel|
  {
    states := [s];
    if !Done(s) {
      var t := MoveOn(cfg, s);
      var rest := GoOn(cfg, t);
      states := [s] + rest;
      forall i | 0 <= i < |states| - 1 ensures Next(cfg, states[i], states[i + 1]) {
        if i > 0 { assert Next(cfg, rest[i - 1], rest[i]); }
      }
    }
  }

  /** However far a migration has come, it can be brought to its end without the guest writing any more,
      and then the destination has the memory of the source. */
  lemma MigrationCanFinish(cfg: Config, states: seq<System>) returns (more: seq<System>)
    requires Execution(cfg, states)
    ensures Execution(cfg, states + more)
    ensures var s, end := states[|states| - 1], (states + more)[|states + more| - 1];
            Done(end) && end.dst == end.src == s.src
  {
    ExecutionInv(cfg, states);
    var n := |states| - 1;
    var rest := GoOn(cfg, states[n]);
    more := rest[1..];
    var all := states + more;
    forall i | 0 <= i < |all| - 1 ensures Next(cfg, all[i], all[i + 1]) {
      if i >= n { assert all[i] == rest[i - n] && all[i + 1] == rest[i + 1 - n]; }
    }
    assert all[|all| - 1] == rest[|rest| - 1];
    MigrationCopiesMemory(cfg, all);
  }

  /** Writes in any phase but the last are copied: here one before the only round and one after it. */
  lemma LateWrites(v: Content, w: Content) returns (states: seq<System>)
    ensures Execution(Config(50.0, 1), states) && |states| > 3
    ensures states[0].src == [0] && states[0].dst == [0] && states[1].src == [v] && states[1].phase.Copying?
    ensures states[3].src == [w] && states[3].phase.Stopping?
    ensures Done(states[|states| - 1]) && states[|states| - 1].dst == [w]
  {
    var cfg := Config(50.0, 1);
    var s0 := System([0], [0], {}, {}, [], [], State(0, 0), None, Copying);
    var s1 := s0.(src := [v], log := {0});
    assert GuestWrite(s0, s1, 0, v);
    var s2 := s1.(log := {}, pre := State(1, 0), lastSample := Some(0), phase := Stopping({0}));
    var bytes: seq<bv8> := [1];
    assert BitAt(bytes, 0);
    assert Pages(bytes, 1) == {0};
    assert Collect(cfg, s1, s2, bytes, [0], 0);
    var s3 := s2.(src := [w], log := {0});
    assert GuestWrite(s2, s3, 0, w);
    states := [s0, s1, s2, s3];
    var more := MigrationCanFinish(cfg, states);
    states := states + more;
  }
}
