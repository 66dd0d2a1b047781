/** Live migration as a protocol between a running source and a destination:
    every interleaving of guest writes, collections of the dirty log, page reads
    and deliveries. */
module Migration {
  import opened Numbers
  import opened Wrappers
  import opened DirtyTracking
  import opened PreCopy

  /** The content of a page, as one value. */
  type Content = int

  datatype PageData = PageData(page: nat, content: Content)

  /** What travels: the batch of a round, or the last pages with the CPU state. */
  datatype Message = PageBatch(round: nat, pages: seq<PageData>) | LastPages(pages: seq<PageData>)

  datatype Phase =
    | Copying                 // pre-copy rounds, guest running
    | Stopping(stop: set<nat>) // told to stop; the stop round's pages are kept
    | Paused(last: set<nat>)   // guest paused; the pages still to send
    | Finished                 // final state sent

  datatype System = System(
    src: seq<Content>,         // source memory
    dst: seq<Content>,         // destination memory
    log: set<nat>,             // dirty log not yet collected
    toRead: set<nat>,          // pages of the current batch not yet read
    batch: seq<PageData>,      // pages of the current batch already read
    channel: seq<Message>,     // sent, not yet applied
    pre: State,
    lastSample: Option<nat>,
    phase: Phase)

  // ── Memory on the destination ───────────────────────────────────────

  function Store(mem: seq<Content>, pages: seq<PageData>): seq<Content> {
    if pages == [] then mem
    else
      var before, d := Store(mem, pages[..|pages| - 1]), pages[|pages| - 1];
      if d.page < |before| then before[d.page := d.content] else before
  }

  function StoreAll(mem: seq<Content>, msgs: seq<Message>): seq<Content>
    decreases |msgs|
  {
    if msgs == [] then mem else StoreAll(Store(mem, msgs[0].pages), msgs[1..])
  }

  /** Destination memory once everything read so far has arrived. */
  function Settled(s: System): seq<Content> {
    Store(StoreAll(s.dst, s.channel), s.batch)
  }

  // ── Steps ───────────────────────────────────────────────────────────

  /** The dirty log covers every page on which the two memories differ: at the start, all pages
      that must be transferred are logged. */
  ghost predicate Initial(s: System) {
    && |s.src| == |s.dst| && s.channel == [] && s.batch == [] && s.toRead == {}
    && s.pre == State(0, 0) && s.lastSample == None && s.phase == Copying
    && (forall p | p in s.log :: p < |s.src|)
    && (forall p | 0 <= p < |s.src| && s.src[p] != s.dst[p] :: p in s.log)
  }

  ghost predicate GuestWrite(s: System, t: System, p: nat, v: Content) {
    && (s.phase.Copying? || s.phase.Stopping?) && p < |s.src|
    && t == s.(src := s.src[p := v], log := s.log + {p})
  }

  /** The log is taken as a bitmap (padding bits may be set) and cleared, and the snapshot is
      processed. */
  ghost predicate Collect(cfg: Config, s: System, t: System, bytes: seq<bv8>, pages: seq<nat>, now: nat) {
    && s.phase.Copying? && s.toRead == {} && s.batch == []
    && |bytes| == DivCeil(|s.src|, 8) && Pages(bytes, |s.src|) == s.log
    && Ascending(pages) && (forall p :: p in pages <==> p in s.log)
    && var (pre, action) := Process(cfg, s.pre, pages, RateSince(s.lastSample, now, DirtyCount(bytes)));
       var u := s.(log := {}, pre := pre, lastSample := Some(now));
       t == if action.StopAndCopy? then u.(phase := Stopping(s.log)) else u.(toRead := s.log)
  }

  ghost predicate ReadPage(s: System, t: System, p: nat) {
    && p in s.toRead && p < |s.src|
    && t == s.(toRead := s.toRead - {p}, batch := s.batch + [PageData(p, s.src[p])])
  }

  ghost predicate SendBatch(s: System, t: System) {
    && s.toRead == {} && s.batch != []
    && t == s.(batch := [], channel := s.channel + [PageBatch(s.pre.round, s.batch)])
  }

  ghost predicate Deliver(s: System, t: System) {
    && s.channel != []
    && t == s.(dst := Store(s.dst, s.channel[0].pages), channel := s.channel[1..])
  }

  /** The stop round's pages merged with those logged up to the pause. */
  ghost predicate Pause(s: System, t: System) {
    && s.phase.Stopping?
    && t == s.(phase := Paused(s.phase.stop + s.log), log := {})
  }

  ghost predicate SendFinal(s: System, t: System, pages: seq<PageData>) {
    && s.phase.Paused? && s.batch == [] && s.toRead == {}
    && ReadsExactly(s.src, s.phase.last, pages)
    && t == s.(phase := Finished, channel := s.channel + [LastPages(pages)])
  }

  ghost predicate ReadsExactly(src: seq<Content>, ps: set<nat>, pages: seq<PageData>) {
    && (forall i | 0 <= i < |pages| ::
          pages[i].page in ps && pages[i].page < |src| && pages[i].content == src[pages[i].page])
    && (forall p | p in ps && p < |src| :: PageData(p, src[p]) in pages)
  }

  ghost predicate Next(cfg: Config, s: System, t: System) {
    || (exists p, v :: GuestWrite(s, t, p, v))
    || (exists bytes, pages, now :: Collect(cfg, s, t, bytes, pages, now))
    || (exists p :: ReadPage(s, t, p))
    || SendBatch(s, t)
    || Deliver(s, t)
    || Pause(s, t)
    || (exists pages :: SendFinal(s, t, pages))
  }

  // ── The invariant ───────────────────────────────────────────────────

  function Awaited(s: System): set<nat> {
    s.log + s.toRead + (match s.phase
                        case Stopping(stop) => stop
                        case Paused(last) => last
                        case _ => {})
  }

  ghost predicate Stale(s: System, p: nat) {
    p < |s.src| && p < |Settled(s)| && Settled(s)[p] != s.src[p]
  }

  /** Any page on which the settled destination and the source differ is logged, in the batch
      being read, or kept for the final state. */
  ghost predicate Inv(cfg: Config, s: System) {
    && |s.src| == |s.dst|
    && (forall p | p in Awaited(s) :: p < |s.src|)
    && (forall p | Stale(s, p) :: p in Awaited(s))
    && (s.phase.Paused? || s.phase.Finished? ==> s.log == {})
    && (s.phase.Finished? ==> s.toRead == {} && s.batch == [])
    && (s.phase.Copying? ==> s.pre.round < RoundLimit(cfg))
    && s.pre.round <= RoundLimit(cfg)
  }

  lemma {:induction false} StoreLength(mem: seq<Content>, pages: seq<PageData>)
    ensures |Store(mem, pages)| == |mem|
  {
    if pages != [] { StoreLength(mem, pages[..|pages| - 1]); }
  }

  lemma {:induction false} StoreAllLength(mem: seq<Content>, msgs: seq<Message>)
    ensures |StoreAll(mem, msgs)| == |mem|
    decreases |msgs|
  {
    if msgs != [] {
      StoreLength(mem, msgs[0].pages);
      StoreAllLength(Store(mem, msgs[0].pages), msgs[1..]);
    }
  }

  lemma {:induction false} StoreAllAppend(mem: seq<Content>, msgs: seq<Message>, m: Message)
    ensures StoreAll(mem, msgs + [m]) == Store(StoreAll(mem, msgs), m.pages)
    decreases |msgs|
  {
    var all := msgs + [m];
    if msgs == [] {
      assert all[1..] == [];
    } else {
      assert all[1..] == msgs[1..] + [m];
      StoreAllAppend(Store(mem, msgs[0].pages), msgs[1..], m);
    }
  }

  lemma StoreNext(mem: seq<Content>, pages: seq<PageData>, d: PageData)
    requires d.page < |mem|
    ensures |Store(mem, pages)| == |mem|
    ensures Store(mem, pages + [d]) == Store(mem, pages)[d.page := d.content]
  {
    StoreLength(mem, pages);
    assert (pages + [d])[..|pages|] == pages;
  }

  /** Pages read from one unchanging memory end up equal to it; the others stay. */
  lemma {:induction false} StoreReads(mem: seq<Content>, src: seq<Content>, ps: set<nat>, pages: seq<PageData>, p: nat)
    requires |mem| == |src| && p < |mem|
    requires forall i | 0 <= i < |pages| ::
               pages[i].page in ps && pages[i].page < |src| && pages[i].content == src[pages[i].page]
    ensures |Store(mem, pages)| == |mem|
    ensures PageData(p, src[p]) in pages ==> Store(mem, pages)[p] == src[p]
    ensures p !in ps ==> Store(mem, pages)[p] == mem[p]
  {
    StoreLength(mem, pages);
    if pages != [] {
      var n := |pages| - 1;
      StoreReads(mem, src, ps, pages[..n], p);
      StoreLength(mem, pages[..n]);
      assert pages == pages[..n] + [pages[n]];
    }
  }

  lemma InitialInv(cfg: Config, s: System)
    requires Initial(s)
    ensures Inv(cfg, s)
  {
    assert Settled(s) == s.dst;
  }

  lemma SettledLength(s: System)
    ensures |Settled(s)| == |s.dst|
  {
    StoreAllLength(s.dst, s.channel);
    StoreLength(StoreAll(s.dst, s.channel), s.batch);
  }

  lemma WriteKeepsInv(cfg: Config, s: System, t: System, p: nat, v: Content)
    requires Inv(cfg, s) && GuestWrite(s, t, p, v)
    ensures Inv(cfg, t)
  {
    assert Awaited(t) == Awaited(s) + {p};
    forall q | Stale(t, q) ensures q in Awaited(t) {
      assert q != p ==> Stale(s, q);
    }
  }

  lemma CollectKeepsInv(cfg: Config, s: System, t: System, bytes: seq<bv8>, pages: seq<nat>, now: nat)
    requires Inv(cfg, s) && Collect(cfg, s, t, bytes, pages, now)
    ensures Inv(cfg, t) && t.pre.round == s.pre.round + 1
  {
    assert Awaited(t) == Awaited(s);
    forall q | Stale(t, q) ensures q in Awaited(t) {
      assert Stale(s, q);
    }
  }

  lemma ReadKeepsInv(cfg: Config, s: System, t: System, p: nat)
    requires Inv(cfg, s) && ReadPage(s, t, p)
    ensures Inv(cfg, t)
  {
    StoreAllLength(s.dst, s.channel);
    StoreNext(StoreAll(s.dst, s.channel), s.batch, PageData(p, s.src[p]));
    assert Awaited(t) <= Awaited(s) <= Awaited(t) + {p};
    forall q | Stale(t, q) ensures q in Awaited(t) {
      assert q != p && Stale(s, q);
    }
  }

  lemma SendKeepsInv(cfg: Config, s: System, t: System)
    requires Inv(cfg, s) && SendBatch(s, t)
    ensures Inv(cfg, t)
  {
    StoreAllAppend(s.dst, s.channel, PageBatch(s.pre.round, s.batch));
    assert Awaited(t) == Awaited(s);
    forall q | Stale(t, q) ensures q in Awaited(t) {
      assert Stale(s, q);
    }
  }

  lemma DeliverKeepsInv(cfg: Config, s: System, t: System)
    requires Inv(cfg, s) && Deliver(s, t)
    ensures Inv(cfg, t)
  {
    StoreLength(s.dst, s.channel[0].pages);
    assert Awaited(t) == Awaited(s);
    forall q | Stale(t, q) ensures q in Awaited(t) {
      assert Stale(s, q);
    }
  }

  lemma PauseKeepsInv(cfg: Config, s: System, t: System)
    requires Inv(cfg, s) && Pause(s, t)
    ensures Inv(cfg, t) && t.log == {}
  {
    assert Awaited(t) == Awaited(s);
    forall q | Stale(t, q) ensures q in Awaited(t) {
      assert Stale(s, q);
    }
  }

  /** Sending last pages ps from the paused source makes the memories equal exactly when ps
      holds every page on which they would still differ. */
  lemma FinalPagesSuffice(s: System, ps: set<nat>, pages: seq<PageData>)
    requires |s.src| == |s.dst| && s.batch == [] && ReadsExactly(s.src, ps, pages)
    ensures |Settled(s)| == |s.src|
    ensures StoreAll(s.dst, s.channel + [LastPages(pages)]) == s.src <==>
            forall p | Stale(s, p) :: p in ps
  {
    SettledLength(s);
    StoreAllAppend(s.dst, s.channel, LastPages(pages));
    var after := Store(Settled(s), pages);
    StoreLength(Settled(s), pages);
    forall p: nat | p < |s.src|
      ensures after[p] == s.src[p] <==> (Stale(s, p) ==> p in ps)
    {
      StoreReads(Settled(s), s.src, ps, pages, p);
    }
  }

  lemma FinalKeepsInv(cfg: Config, s: System, t: System, pages: seq<PageData>)
    requires Inv(cfg, s) && SendFinal(s, t, pages)
    ensures Inv(cfg, t)
  {
    FinalPagesSuffice(s, s.phase.last, pages);
    assert Awaited(s) == s.phase.last;
    assert Settled(t) == t.src;
  }

  lemma NextKeepsInv(cfg: Config, s: System, t: System)
    requires Inv(cfg, s) && Next(cfg, s, t)
    ensures Inv(cfg, t)
  {
    if p, v :| GuestWrite(s, t, p, v) {
      WriteKeepsInv(cfg, s, t, p, v);
    } else if bytes, pages, now :| Collect(cfg, s, t, bytes, pages, now) {
      CollectKeepsInv(cfg, s, t, bytes, pages, now);
    } else if p :| ReadPage(s, t, p) {
      ReadKeepsInv(cfg, s, t, p);
    } else if SendBatch(s, t) {
      SendKeepsInv(cfg, s, t);
    } else if Deliver(s, t) {
      DeliverKeepsInv(cfg, s, t);
    } else if Pause(s, t) {
      PauseKeepsInv(cfg, s, t);
    } else {
      var pages :| SendFinal(s, t, pages);
      FinalKeepsInv(cfg, s, t, pages);
    }
  }

  // ── Every execution ─────────────────────────────────────────────────

  ghost predicate Execution(cfg: Config, states: seq<System>) {
    && states != [] && Initial(states[0])
    && forall i | 0 <= i < |states| - 1 :: Next(cfg, states[i], states[i + 1])
  }

  lemma {:induction false} ExecutionInv(cfg: Config, states: seq<System>)
    requires Execution(cfg, states)
    ensures Inv(cfg, states[|states| - 1])
  {
    var n := |states| - 1;
    if n == 0 {
      InitialInv(cfg, states[0]);
    } else {
      ExecutionInv(cfg, states[..n]);
      NextKeepsInv(cfg, states[n - 1], states[n]);
    }
  }

  /** However guest writes, rounds, page reads and deliveries interleave: when the final state
      has been sent and everything has arrived, destination memory equals source memory; and
      the dirty log is collected at most max(1, max_rounds) times. */
  lemma MigrationCopiesMemory(cfg: Config, states: seq<System>)
    requires Execution(cfg, states)
    ensures var s := states[|states| - 1];
            && (s.pre.round <= 1 || s.pre.round <= cfg.maxRounds)
            && (s.phase.Finished? && s.channel == [] ==> s.dst == s.src)
  {
    ExecutionInv(cfg, states);
    var s := states[|states| - 1];
    if s.phase.Finished? && s.channel == [] {
      assert Settled(s) == s.dst;
      forall p: nat | p < |s.src| ensures s.dst[p] == s.src[p] {
        assert !Stale(s, p);
      }
    }
  }

  /** The stop round's own pages are needed: in this execution of one round, sending only what
      was logged after it leaves the memories different. */
  lemma LogAloneIsNotEnough() returns (states: seq<System>)
    ensures Execution(Config(50.0, 1), states)
    ensures var s := states[|states| - 1];
            s.phase.Stopping? && s.batch == [] && forall pages | ReadsExactly(s.src, s.log, pages) ::
              StoreAll(s.dst, s.channel + [LastPages(pages)]) != s.src
  {
    var cfg := Config(50.0, 1);
    var s := System([1], [0], {0}, {}, [], [], State(0, 0), None, Copying);
    var t := s.(log := {}, pre := State(1, 0), lastSample := Some(0), phase := Stopping({0}));
    var bytes: seq<bv8> := [1];
    assert BitAt(bytes, 0);
    assert Pages(bytes, 1) == {0};
    assert Collect(cfg, s, t, bytes, [0], 0);
    states := [s, t];
    forall pages | ReadsExactly(t.src, t.log, pages)
      ensures StoreAll(t.dst, t.channel + [LastPages(pages)]) != t.src
    {
      FinalPagesSuffice(t, t.log, pages);
      assert Stale(t, 0);
    }
  }
}
