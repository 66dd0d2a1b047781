/** The VM registry: maps behind locks, changed by concurrent operations that
    hold a lock only for single sections. */
module Registry {
  import opened Numbers
  import opened Wrappers

  type Id = string

  const U32_SIZE: nat := 0x1_0000_0000
  const AUTO_NAME_MAX_ATTEMPTS: nat := 32

  datatype VmState = Creating | Running | Stopped | Failed

  /** A VM's CID is named by the allocation it came from. */
  datatype Vm = Vm(name: Option<string>, cid: Option<nat>, state: VmState)

  datatype Config = Config(name: Option<string>)

  /** What an operation still has to do, with the values it carries between lock sections. */
  datatype Task =
    | Create(id: Id, cid: nat, cfg: Config)      // create: CID allocated, VM not yet inserted
    | Store(id: Id, cid: nat, cfg: Config)       // create or start: VM written, config to be stored
    | Restart(id: Id, name: Option<string>)      // start: VM read
    | Reallocate(id: Id, cfg: Config)            // start: config read, its name filled in
    | Update(id: Id, cid: nat, cfg: Config)      // start: CID allocated, VM to be updated
    | Boot(id: Id, cid: nat)                     // booting, then recording the outcome
    | Forget(id: Id)                             // destroy: VM removed, live state and config to follow
    | Over(id: Id)

  /** The shared maps, the history of CID allocations, and the operations under way. */
  datatype System = System(
    vms: map<Id, Vm>,
    configs: map<Id, Config>,
    live: map<Id, nat>,
    owners: seq<Id>,
    tasks: seq<Task>)

  // ── CIDs ────────────────────────────────────────────────────────────

  /** The value `fetch_add` returns at the k-th allocation. */
  function CidValue(k: nat): nat {
    (FIRST_GUEST_CID + k) % U32_SIZE
  }

  /** Two allocations give the same CID exactly when a multiple of 2^32 lies between them. */
  lemma CidsRepeat(i: nat, j: nat)
    ensures CidValue(i) == CidValue(j) <==> i % 0x1_0000_0000 == j % 0x1_0000_0000
  {
  }

  // ── Names ───────────────────────────────────────────────────────────

  predicate NameExists(vms: map<Id, Vm>, name: string) {
    exists id | id in vms :: vms[id].name == Some(name)
  }

  /** The first n generated names are in use. */
  ghost predicate AllTaken(vms: map<Id, Vm>, generated: seq<string>, n: nat)
    requires n <= |generated|
  {
    forall j | 0 <= j < n :: NameExists(vms, generated[j])
  }

  /** `choose_unique_vm_name_with_generator`; the generator's names are given as a list. */
  method ChooseUniqueVmName(vms: map<Id, Vm>, requested: Option<string>, generated: seq<string>)
    returns (r: Option<string>)
    requires |generated| >= 32
    ensures r.Some? ==> MayChoose(vms, requested, r.value)
    ensures r.Some? ==> !NameExists(vms, r.value) && (requested.Some? ==> r == requested && r.value != "")
    ensures r.Some? && requested.None? ==>
              exists i | 0 <= i < 32 :: generated[i] == r.value && AllTaken(vms, generated, i)
    ensures r.None? && requested.Some? ==> requested.value == "" || NameExists(vms, requested.value)
    ensures r.None? && requested.None? ==> AllTaken(vms, generated, 32)
  {
    if requested.Some? {
      if requested.value == "" || NameExists(vms, requested.value) {
        return None;
      }
      return requested;
    }
    for i := 0 to AUTO_NAME_MAX_ATTEMPTS
      invariant AllTaken(vms, generated, i)
    {
      if !NameExists(vms, generated[i]) {
        return Some(generated[i]);
      }
    }
    r := None;
  }

  ghost predicate MayChoose(vms: map<Id, Vm>, requested: Option<string>, name: string) {
    !NameExists(vms, name) && (requested.Some? ==> requested.value == name)
  }

  // ── Lock sections ───────────────────────────────────────────────────

  ghost predicate FreshId(s: System, id: Id) {
    id !in s.vms && id !in s.configs && id !in s.live && forall i | 0 <= i < |s.tasks| :: s.tasks[i].id != id
  }

  /** One step of an operation, on task i (or, to begin one, i == |tasks|). */
  datatype Step =
    | BeginCreate(id: Id, cfg: Config)
    | InsertVm(name: Option<string>)
    | StoreConfig
    | BeginStart(id: Id)
    | ReadConfig
    | AllocateCid
    | UpdateVm
    | RecordLive
    | RecordOutcome(state: VmState, withCid: bool) // start records its CID again, create only the state
    | DropLive(id: Id)
    | SetState(id: Id, state: VmState)
    | BeginDestroy(id: Id)
    | ForgetLive
    | ForgetConfig

  ghost predicate Enabled(s: System, i: nat, step: Step) {
    match step
    case BeginCreate(id, _) => i == |s.tasks| && FreshId(s, id)
    case InsertVm(name) =>
      i < |s.tasks| && s.tasks[i].Create? && (name.Some? ==> MayChoose(s.vms, s.tasks[i].cfg.name, name.value))
    case StoreConfig => i < |s.tasks| && s.tasks[i].Store?
    case BeginStart(id) => i == |s.tasks| && id in s.vms && (s.vms[id].state.Stopped? || s.vms[id].state.Failed?)
    case ReadConfig => i < |s.tasks| && s.tasks[i].Restart?
    case AllocateCid => i < |s.tasks| && s.tasks[i].Reallocate?
    case UpdateVm => i < |s.tasks| && s.tasks[i].Update?
    case RecordLive => i < |s.tasks| && s.tasks[i].Boot?
    case RecordOutcome(_, _) => i < |s.tasks| && s.tasks[i].Boot?
    case DropLive(_) => true
    case SetState(id, _) => id in s.vms
    case BeginDestroy(id) => i == |s.tasks| && id in s.vms
    case ForgetLive => i < |s.tasks| && s.tasks[i].Forget?
    case ForgetConfig => i < |s.tasks| && s.tasks[i].Forget?
  }

  ghost function Apply(s: System, i: nat, step: Step): System
    requires Enabled(s, i, step)
  {
    match step
    case BeginCreate(id, cfg) =>
      s.(owners := s.owners + [id], tasks := s.tasks + [Create(id, |s.owners|, cfg)])
    case InsertVm(name) =>
      var t := s.tasks[i];
      if name.None? then s.(tasks := s.tasks[i := Over(t.id)])
      else
        s.(vms := s.vms[t.id := Vm(name, Some(t.cid), Creating)], tasks := s.tasks[i := Store(t.id, t.cid, t.cfg)])
    case StoreConfig =>
      var t := s.tasks[i];
      s.(configs := s.configs[t.id := t.cfg], tasks := s.tasks[i := Boot(t.id, t.cid)])
    case BeginStart(id) =>
      s.(tasks := s.tasks + [Restart(id, s.vms[id].name)])
    case ReadConfig =>
      var t := s.tasks[i];
      if t.id !in s.configs then s.(tasks := s.tasks[i := Over(t.id)])
      else
        var cfg := s.configs[t.id];
        s.(tasks := s.tasks[i := Reallocate(t.id, if cfg.name.None? then Config(t.name) else cfg)])
    case AllocateCid =>
      var t := s.tasks[i];
      s.(owners := s.owners + [t.id], tasks := s.tasks[i := Update(t.id, |s.owners|, t.cfg)])
    case UpdateVm =>
      var t := s.tasks[i];
      if t.id !in s.vms then s.(tasks := s.tasks[i := Over(t.id)])
      else
        var vm := Vm(t.cfg.name, Some(t.cid), Creating);
        s.(vms := s.vms[t.id := vm], tasks := s.tasks[i := Store(t.id, t.cid, t.cfg)])
    case RecordLive =>
      s.(live := s.live[s.tasks[i].id := s.tasks[i].cid])
    case RecordOutcome(state, withCid) =>
      var t := s.tasks[i];
      if t.id !in s.vms then s.(tasks := s.tasks[i := Over(t.id)])
      else
        var vm := s.vms[t.id].(state := state);
        s.(vms := s.vms[t.id := if withCid then vm.(cid := Some(t.cid)) else vm], tasks := s.tasks[i := Over(t.id)])
    case DropLive(id) => s.(live := s.live - {id})
    case SetState(id, state) => s.(vms := s.vms[id := s.vms[id].(state := state)])
    case BeginDestroy(id) => s.(vms := s.vms - {id}, tasks := s.tasks + [Forget(id)])
    case ForgetLive => s.(live := s.live - {s.tasks[i].id})
    case ForgetConfig => s.(configs := s.configs - {s.tasks[i].id}, tasks := s.tasks[i := Over(s.tasks[i].id)])
  }

  // ── The invariant ───────────────────────────────────────────────────

  ghost predicate NamesDistinct(vms: map<Id, Vm>) {
    forall id, id' | id in vms && id' in vms && id != id' && vms[id].name.Some? :: vms[id].name != vms[id'].name
  }

  ghost predicate Agrees(name: Option<string>, vms: map<Id, Vm>, id: Id) {
    id in vms ==> name.None? || name == vms[id].name
  }

  ghost predicate Owned(owners: seq<Id>, cid: nat, id: Id) {
    cid < |owners| && owners[cid] == id
  }

  ghost predicate TaskOk(s: System, i: nat)
    requires i < |s.tasks|
  {
    match s.tasks[i]
    case Create(id, cid, _) =>
      && id !in s.vms && id !in s.configs && Owned(s.owners, cid, id)
      && forall j | 0 <= j < |s.tasks| && j != i :: s.tasks[j].id != id
    case Store(id, cid, cfg) => Agrees(cfg.name, s.vms, id) && Owned(s.owners, cid, id)
    case Restart(id, name) => id in s.vms ==> name == s.vms[id].name
    case Reallocate(id, cfg) => id in s.vms ==> cfg.name == s.vms[id].name
    case Update(id, cid, cfg) => (id in s.vms ==> cfg.name == s.vms[id].name) && Owned(s.owners, cid, id)
    case Boot(id, cid) => Owned(s.owners, cid, id)
    case _ => true
  }

  ghost predicate Inv(s: System) {
    && NamesDistinct(s.vms)
    && (forall id | id in s.configs :: Agrees(s.configs[id].name, s.vms, id))
    && (forall id | id in s.vms && s.vms[id].cid.Some? :: Owned(s.owners, s.vms[id].cid.value, id))
    && (forall id | id in s.live :: Owned(s.owners, s.live[id], id))
    && (forall i | 0 <= i < |s.tasks| :: TaskOk(s, i))
  }

  /** At start-up: restored VMs with distinct names and agreeing configs, stopped, without CIDs. */
  ghost predicate Initial(s: System) {
    && NamesDistinct(s.vms) && s.live == map[] && s.owners == [] && s.tasks == []
    && (forall id | id in s.configs :: Agrees(s.configs[id].name, s.vms, id))
    && (forall id | id in s.vms :: s.vms[id].cid == None)
  }

  /** VMs may disappear, but none appears and none changes its name. */
  ghost predicate SameNames(before: map<Id, Vm>, after: map<Id, Vm>) {
    forall id | id in after :: id in before && after[id].name == before[id].name
  }

  /** The tasks other than i are untouched, and task i keeps its VM. */
  ghost predicate OneTask(s: System, t: System, i: nat) {
    && |t.tasks| == (if i == |s.tasks| then i + 1 else |s.tasks|)
    && (forall k | 0 <= k < |s.tasks| && k != i :: t.tasks[k] == s.tasks[k])
    && (i < |s.tasks| ==> t.tasks[i].id == s.tasks[i].id)
    && (i == |s.tasks| ==> t.tasks[i].id in s.vms)
  }

  ghost predicate ConfigsFrom(s: System, t: System, i: nat) {
    forall id | id in t.configs :: id in s.configs || (i < |s.tasks| && id == s.tasks[i].id)
  }

  lemma OtherTaskOk(s: System, t: System, i: nat, k: nat)
    requires Inv(s) && SameNames(s.vms, t.vms) && s.owners <= t.owners && ConfigsFrom(s, t, i)
    requires OneTask(s, t, i) && k < |s.tasks| && k != i
    ensures TaskOk(t, k)
  {
    assert TaskOk(s, k);
  }

  /** All a step has to show when it inserts no VM. */
  lemma StepFrame(s: System, t: System, i: nat)
    requires Inv(s) && SameNames(s.vms, t.vms) && s.owners <= t.owners && ConfigsFrom(s, t, i)
    requires forall id | id in t.configs :: Agrees(t.configs[id].name, t.vms, id)
    requires forall id | id in t.vms && t.vms[id].cid.Some? :: Owned(t.owners, t.vms[id].cid.value, id)
    requires forall id | id in t.live :: Owned(t.owners, t.live[id], id)
    requires OneTask(s, t, i) && (i < |t.tasks| ==> TaskOk(t, i))
    ensures Inv(t)
  {
    forall k | 0 <= k < |t.tasks| ensures TaskOk(t, k) {
      if k != i { OtherTaskOk(s, t, i, k); }
    }
  }

  lemma BeginCreateKeeps(s: System, i: nat, id: Id, cfg: Config)
    requires Inv(s) && Enabled(s, i, BeginCreate(id, cfg))
    ensures Inv(Apply(s, i, BeginCreate(id, cfg)))
  {
    var t := Apply(s, i, BeginCreate(id, cfg));
    forall k | 0 <= k < |t.tasks| ensures TaskOk(t, k) {
      if k < i {
        assert TaskOk(s, k) && t.tasks[k] == s.tasks[k];
      } else {
        assert forall j | 0 <= j < i :: t.tasks[j] == s.tasks[j];
      }
    }
  }

  /** The one step that adds a VM: its name is new, and nobody else knows its id yet. */
  lemma InsertVmKeeps(s: System, i: nat, name: Option<string>)
    requires Inv(s) && Enabled(s, i, InsertVm(name))
    ensures Inv(Apply(s, i, InsertVm(name)))
  {
    var t := Apply(s, i, InsertVm(name));
    assert TaskOk(s, i);
    if name.None? {
      StepFrame(s, t, i);
    } else {
      InsertedNames(s.vms, s.tasks[i].id, t.vms[s.tasks[i].id]);
      forall k | 0 <= k < |t.tasks| ensures TaskOk(t, k) {
        assert TaskOk(s, k);
        assert k != i ==> t.tasks[k] == s.tasks[k] && s.tasks[k].id != s.tasks[i].id;
      }
    }
  }

  lemma InsertedNames(vms: map<Id, Vm>, id: Id, vm: Vm)
    requires NamesDistinct(vms) && id !in vms && vm.name.Some? && !NameExists(vms, vm.name.value)
    ensures NamesDistinct(vms[id := vm])
  {
    forall other | other in vms ensures vms[other].name != vm.name {}
  }

  lemma TaskStepKeeps(s: System, i: nat, step: Step)
    requires Inv(s) && Enabled(s, i, step)
    requires step.StoreConfig? || step.ReadConfig? || step.AllocateCid? || step.UpdateVm? || step.RecordOutcome?
    ensures Inv(Apply(s, i, step))
  {
    if step.UpdateVm? || step.RecordOutcome? { VmChangeKeeps(s, i, step); } else { PrepareKeeps(s, i, step); }
  }

  lemma PrepareKeeps(s: System, i: nat, step: Step)
    requires Inv(s) && Enabled(s, i, step) && (step.StoreConfig? || step.ReadConfig? || step.AllocateCid?)
    ensures Inv(Apply(s, i, step))
  {
    assert TaskOk(s, i);
    StepFrame(s, Apply(s, i, step), i);
  }

  lemma VmChangeKeeps(s: System, i: nat, step: Step)
    requires Inv(s) && Enabled(s, i, step) && (step.UpdateVm? || step.RecordOutcome?)
    ensures Inv(Apply(s, i, step))
  {
    assert TaskOk(s, i);
    StepFrame(s, Apply(s, i, step), i);
  }

  lemma OtherStepKeeps(s: System, i: nat, step: Step)
    requires Inv(s) && Enabled(s, i, step)
    requires step.BeginStart? || step.RecordLive? || step.DropLive? || step.SetState? || step.BeginDestroy?
               || step.ForgetLive? || step.ForgetConfig?
    ensures Inv(Apply(s, i, step))
  {
    var t := Apply(s, i, step);
    var k := if step.DropLive? || step.SetState? then |s.tasks| + 1 else i;
    assert i < |s.tasks| ==> TaskOk(s, i);
    StepFrame(s, t, k);
  }

  lemma StepKeepsInv(s: System, i: nat, step: Step)
    requires Inv(s) && Enabled(s, i, step)
    ensures Inv(Apply(s, i, step))
  {
    match step
    case BeginCreate(id, cfg) => BeginCreateKeeps(s, i, id, cfg);
    case InsertVm(name) => InsertVmKeeps(s, i, name);
    case StoreConfig => TaskStepKeeps(s, i, step);
    case ReadConfig => TaskStepKeeps(s, i, step);
    case AllocateCid => TaskStepKeeps(s, i, step);
    case UpdateVm => TaskStepKeeps(s, i, step);
    case RecordOutcome(_, _) => TaskStepKeeps(s, i, step);
    case _ => OtherStepKeeps(s, i, step);
  }

  // ── Every interleaving ──────────────────────────────────────────────

  ghost predicate Next(s: System, t: System) {
    exists i, step :: Enabled(s, i, step) && t == Apply(s, i, step)
  }

  ghost predicate Execution(states: seq<System>) {
    && states != [] && Initial(states[0])
    && forall k | 0 <= k < |states| - 1 :: Next(states[k], states[k + 1])
  }

  lemma NextKeepsInv(s: System, t: System)
    requires Inv(s) && Next(s, t)
    ensures Inv(t)
  {
    var i, step :| Enabled(s, i, step) && t == Apply(s, i, step);
    StepKeepsInv(s, i, step);
  }

  lemma InitialInv(s: System)
    requires Initial(s)
    ensures Inv(s) && CidValue(|s.owners|) == 3
  {
  }

  lemma {:induction false} ExecutionInv(states: seq<System>)
    requires Execution(states)
    ensures Inv(states[|states| - 1])
  {
    var n := |states| - 1;
    if n == 0 {
      InitialInv(states[0]);
    } else {
      ExecutionInv(states[..n]);
      NextKeepsInv(states[n - 1], states[n]);
    }
  }

  // ── What it is good for ─────────────────────────────────────────────

  datatype Resolution = Resolved(id: Id) | NotFound | AmbiguousName | AmbiguousPrefix

  function NameMatches(vms: map<Id, Vm>, input: string): set<Id> {
    set id | id in vms && vms[id].name == Some(input)
  }

  function PrefixMatches(vms: map<Id, Vm>, input: string): set<Id> {
    set id | id in vms && input <= id
  }

  /** `resolve_id` */
  ghost function ResolveId(vms: map<Id, Vm>, input: string): Resolution {
    if input in vms then Resolved(input)
    else
      var named := NameMatches(vms, input);
      if |named| == 1 then var id :| id in named; Resolved(id)
      else if |named| > 1 then AmbiguousName
      else
        var ids := PrefixMatches(vms, input);
        if |ids| == 0 then NotFound
        else if |ids| == 1 then var id :| id in ids; Resolved(id)
        else AmbiguousPrefix
  }

  lemma AtMostOneNamed(vms: map<Id, Vm>, input: string)
    requires NamesDistinct(vms)
    ensures |NameMatches(vms, input)| <= 1
  {
    var named := NameMatches(vms, input);
    if named != {} {
      var id :| id in named;
      assert named == {id};
    }
  }

  /** What is a name but no id resolves to the VM that alone bears it, and is ambiguous if several do. */
  lemma NamesLookedUp(vms: map<Id, Vm>, input: string, id: Id)
    requires input !in vms && NameExists(vms, input)
    ensures var r := ResolveId(vms, input);
            && (r == Resolved(id) <==> id in vms && vms[id].name == Some(input) &&
                                       forall other | other in vms && vms[other].name == Some(input) :: other == id)
            && (r == AmbiguousName <==> exists a, b | a in vms && b in vms ::
                                          vms[a].name == Some(input) && vms[b].name == Some(input) && a != b)
  {
    var named := NameMatches(vms, input);
    OneOrMore(named);
    var a :| a in vms && vms[a].name == Some(input);
    assert a in named;
    forall other | other in vms && vms[other].name == Some(input) ensures other in named {}
    if b :| b in named && b != a {
    } else {
      assert named == {a};
      forall other | other in vms && vms[other].name == Some(input) ensures other == a { assert other in named; }
    }
  }

  /** The id is the only one that the input starts. */
  ghost predicate OnlyStarts(vms: map<Id, Vm>, input: string, id: Id) {
    id in vms && input <= id && forall other | other in vms && input <= other :: other == id
  }

  /** An id resolves to itself. What is neither an id nor a name resolves to the one id it starts: it is
      not found if it starts none, and ambiguous if it starts several. */
  lemma PrefixResolves(vms: map<Id, Vm>, input: string, id: Id)
    ensures input in vms ==> ResolveId(vms, input) == Resolved(input)
    ensures input !in vms && !NameExists(vms, input) ==>
              var r := ResolveId(vms, input);
              && (r == Resolved(id) <==> OnlyStarts(vms, input, id))
              && (r == NotFound <==> forall other | other in vms :: !(input <= other))
              && (r == AmbiguousPrefix <==> exists a, b | a in vms && b in vms :: input <= a && input <= b && a != b)
  {
    if input !in vms && !NameExists(vms, input) {
      assert NameMatches(vms, input) == {};
      var ids := PrefixMatches(vms, input);
      OneOrMore(ids);
      if a :| a in ids {
        if OnlyStarts(vms, input, a) {
          assert ids == {a};
        } else {
          var b :| b in vms && input <= b && b != a;
          assert b in ids;
        }
      } else {
        forall other | other in vms ensures !(input <= other) { assert other !in ids; }
      }
    }
  }

  /** How many a set has, said by its elements. */
  lemma OneOrMore(ids: set<Id>)
    ensures |ids| == 0 <==> forall a :: a !in ids
    ensures |ids| == 1 <==> exists a :: ids == {a}
    ensures |ids| > 1 <==> exists a, b :: a in ids && b in ids && a != b
  {
    if a :| a in ids {
      if b :| b in ids - {a} {
        assert |ids - {a} - {b}| >= 0;
      } else {
        assert ids == {a};
      }
    }
  }

  /** The allocation a task carries. */
  function Carried(t: Task): Option<nat> {
    match t
    case Create(_, cid, _) => Some(cid)
    case Store(_, cid, _) => Some(cid)
    case Update(_, cid, _) => Some(cid)
    case Boot(_, cid) => Some(cid)
    case _ => None
  }

  /** VM id has the CID of allocation k: recorded, live, or in the hands of an operation. */
  ghost predicate Holds(s: System, id: Id, k: nat) {
    || (id in s.vms && s.vms[id].cid == Some(k))
    || (id in s.live && s.live[id] == k)
    || (exists i | 0 <= i < |s.tasks| :: s.tasks[i].id == id && Carried(s.tasks[i]) == Some(k))
  }

  /** Different VMs never have the same CID, wherever the CIDs are kept. */
  ghost predicate CidsApart(s: System) {
    forall id, id', j, k | Holds(s, id, j) && Holds(s, id', k) && id != id' :: CidValue(j) != CidValue(k)
  }

  /** Every CID lies between the first one and the counter. */
  ghost predicate CidsBelowCounter(s: System) {
    forall id, k | Holds(s, id, k) :: FIRST_GUEST_CID <= CidValue(k) < CidValue(|s.owners|)
  }

  lemma HeldIsOwned(s: System, id: Id, k: nat)
    requires Inv(s) && Holds(s, id, k)
    ensures Owned(s.owners, k, id)
  {
    if i :| 0 <= i < |s.tasks| && s.tasks[i].id == id && Carried(s.tasks[i]) == Some(k) {
      assert TaskOk(s, i);
    }
  }

  lemma CidsDiffer(s: System)
    requires Inv(s)
    ensures |s.owners| <= U32_SIZE ==> CidsApart(s)
    ensures FIRST_GUEST_CID + |s.owners| < U32_SIZE ==> CidsBelowCounter(s)
  {
    forall id, k | Holds(s, id, k) ensures Owned(s.owners, k, id) { HeldIsOwned(s, id, k); }
    forall id, id', j, k | Holds(s, id, j) && Holds(s, id', k) && id != id' && |s.owners| <= U32_SIZE
      ensures CidValue(j) != CidValue(k)
    {
      CidsRepeat(j, k);
    }
  }

  lemma NamesResolve(vms: map<Id, Vm>, input: string, id: Id)
    requires NamesDistinct(vms) && input !in vms && id in vms && vms[id].name == Some(input)
    ensures ResolveId(vms, input) == Resolved(id)
  {
    assert id in NameMatches(vms, input);
    assert NameMatches(vms, input) == {id};
  }

  /** In every interleaving: VM names stay pairwise distinct, and so do the CIDs recorded, live
      and under way (while at most 2^32 were allocated, and below the counter until it wraps);
      stored configs agree with their VMs, names resolve to the VM that bears them, and the
      ambiguous-name error is never reached. */
  lemma RegistryConsistent(states: seq<System>, input: string)
    requires Execution(states)
    ensures var s := states[|states| - 1];
            && NamesDistinct(s.vms)
            && (forall id | id in s.configs && id in s.vms ::
                  s.configs[id].name.None? || s.configs[id].name == s.vms[id].name)
            && (|s.owners| <= U32_SIZE ==> CidsApart(s))
            && (FIRST_GUEST_CID + |s.owners| < U32_SIZE ==> CidsBelowCounter(s))
            && !ResolveId(s.vms, input).AmbiguousName?
            && (input !in s.vms ==>
                  forall id | id in s.vms && s.vms[id].name == Some(input) :: ResolveId(s.vms, input) == Resolved(id))
  {
    ExecutionInv(states);
    var s := states[|states| - 1];
    AtMostOneNamed(s.vms, input);
    CidsDiffer(s);
    forall id | id in s.vms && s.vms[id].name == Some(input) && input !in s.vms
      ensures ResolveId(s.vms, input) == Resolved(id)
    {
      NamesResolve(s.vms, input, id);
    }
  }

  // ── One operation by itself ─────────────────────────────────────────

  /** The system after the steps of task i, if they can be taken in this order. */
  ghost function Ran(s: System, i: nat, steps: seq<Step>): Option<System> {
    if steps == [] then Some(s)
    else match Ran(s, i, steps[..|steps| - 1])
      case Some(t) =>
        var step := steps[|steps| - 1];
        if Enabled(t, i, step) then Some(Apply(t, i, step)) else None
      case None => None
  }

  lemma RanNext(s: System, i: nat, steps: seq<Step>, k: nat, t: System, u: System)
    requires k < |steps| && Ran(s, i, steps[..k]) == Some(t) && Enabled(t, i, steps[k]) && Apply(t, i, steps[k]) == u
    ensures Ran(s, i, steps[..k + 1]) == Some(u)
    ensures k + 1 == |steps| ==> Ran(s, i, steps) == Some(u)
  {
    assert steps[..k + 1][..k] == steps[..k];
    if k + 1 == |steps| { assert steps[..k + 1] == steps; }
  }

  lemma {:induction false} RanJoin(s: System, i: nat, a: seq<Step>, t: System, b: seq<Step>)
    requires Ran(s, i, a) == Some(t)
    ensures Ran(s, i, a + b) == Ran(t, i, b)
    decreases |b|
  {
    if b == [] {
      assert a + b == a;
    } else {
      assert (a + b)[..|a + b| - 1] == a + b[..|b| - 1];
      RanJoin(s, i, a, t, b[..|b| - 1]);
    }
  }

  /** Storing the config and booting, the end of create and start. */
  ghost function Booted(s: System, i: nat): System
    requires i < |s.tasks| && s.tasks[i].Store? && s.tasks[i].id in s.vms
  {
    var t := s.tasks[i];
    s.(vms := s.vms[t.id := s.vms[t.id].(state := Running)], configs := s.configs[t.id := t.cfg],
       live := s.live[t.id := t.cid], tasks := s.tasks[i := Over(t.id)])
  }

  lemma BootAlone(s: System, i: nat, again: bool)
    requires i < |s.tasks| && s.tasks[i].Store? && s.tasks[i].id in s.vms
    requires s.vms[s.tasks[i].id].cid == Some(s.tasks[i].cid)
    ensures Ran(s, i, [StoreConfig, RecordLive, RecordOutcome(Running, again)]) == Some(Booted(s, i))
  {
    var steps := [StoreConfig, RecordLive, RecordOutcome(Running, again)];
    var t := s.tasks[i];
    var s1 := s.(configs := s.configs[t.id := t.cfg], tasks := s.tasks[i := Boot(t.id, t.cid)]);
    var s2 := s1.(live := s.live[t.id := t.cid]);
    RanNext(s, i, steps, 0, s, s1);
    RanNext(s, i, steps, 1, s1, s2);
    assert s2.tasks[i := Over(t.id)] == s.tasks[i := Over(t.id)];
    RanNext(s, i, steps, 2, s2, Booted(s, i));
  }

  /** A create by itself adds one VM under the chosen name, with the next CID, and its config. */
  lemma CreateAlone(s: System, id: Id, cfg: Config, name: string)
    requires FreshId(s, id) && MayChoose(s.vms, cfg.name, name)
    ensures var steps := [BeginCreate(id, cfg), InsertVm(Some(name))]
                         + [StoreConfig, RecordLive, RecordOutcome(Running, false)];
            var vm := Vm(Some(name), Some(|s.owners|), Running);
            Ran(s, |s.tasks|, steps) == Some(System(s.vms[id := vm], s.configs[id := cfg], s.live[id := |s.owners|],
                                                    s.owners + [id], s.tasks + [Over(id)]))
  {
    var i, cid, steps := |s.tasks|, |s.owners|, [BeginCreate(id, cfg), InsertVm(Some(name))];
    var vm := Vm(Some(name), Some(cid), Creating);
    var s1 := s.(owners := s.owners + [id], tasks := s.tasks + [Create(id, cid, cfg)]);
    var s2 := s1.(vms := s.vms[id := vm], tasks := s.tasks + [Store(id, cid, cfg)]);
    RanNext(s, i, steps, 0, s, s1);
    assert s1.tasks[i := Store(id, cid, cfg)] == s2.tasks;
    RanNext(s, i, steps, 1, s1, s2);
    BootAlone(s2, i, false);
    RanJoin(s, i, steps, s2, [StoreConfig, RecordLive, RecordOutcome(Running, false)]);
    Overwritten(s.vms, s.tasks, id, vm, vm.(state := Running), Store(id, cid, cfg), Over(id));
  }

  lemma Overwritten(vms: map<Id, Vm>, tasks: seq<Task>, id: Id, vm: Vm, vm': Vm, task: Task, task': Task)
    ensures vms[id := vm][id := vm'] == vms[id := vm'] && (tasks + [task])[|tasks| := task'] == tasks + [task']
  {
  }

  /** The config that a start uses: the stored one, with the VM's name if it has none. */
  ghost function StartConfig(s: System, id: Id): Config
    requires id in s.vms && id in s.configs
  {
    if s.configs[id].name.Some? then s.configs[id] else Config(s.vms[id].name)
  }

  lemma StartPrepared(s: System, id: Id)
    requires id in s.vms && (s.vms[id].state == Stopped || s.vms[id].state == Failed) && id in s.configs
    ensures Ran(s, |s.tasks|, [BeginStart(id), ReadConfig, AllocateCid])
         == Some(s.(owners := s.owners + [id], tasks := s.tasks + [Update(id, |s.owners|, StartConfig(s, id))]))
  {
    var steps := [BeginStart(id), ReadConfig, AllocateCid];
    var i, cid, cfg := |s.tasks|, |s.owners|, StartConfig(s, id);
    var s1 := s.(tasks := s.tasks + [Restart(id, s.vms[id].name)]);
    var s2 := s.(tasks := s.tasks + [Reallocate(id, cfg)]);
    RanNext(s, i, steps, 0, s, s1);
    assert s1.tasks[i := Reallocate(id, cfg)] == s2.tasks;
    RanNext(s, i, steps, 1, s1, s2);
    assert s2.tasks[i := Update(id, cid, cfg)] == s.tasks + [Update(id, cid, cfg)];
    RanNext(s, i, steps, 2, s2, s.(owners := s.owners + [id], tasks := s.tasks + [Update(id, cid, cfg)]));
  }

  lemma StartUpdated(s: System, i: nat)
    requires i < |s.tasks| && s.tasks[i].Update? && s.tasks[i].id in s.vms
    ensures var t := s.tasks[i];
            var u := s.(vms := s.vms[t.id := Vm(t.cfg.name, Some(t.cid), Creating)], live := s.live - {t.id},
                        tasks := s.tasks[i := Store(t.id, t.cid, t.cfg)]);
            Ran(s, i, [DropLive(t.id), UpdateVm]) == Some(u)
  {
    var t := s.tasks[i];
    var steps := [DropLive(t.id), UpdateVm];
    var s1 := s.(live := s.live - {t.id});
    RanNext(s, i, steps, 0, s, s1);
    RanNext(s, i, steps, 1, s1, Apply(s1, i, UpdateVm));
  }

  /** A start by itself runs a stopped VM again, under its name and with the next CID. */
  lemma StartAlone(s: System, id: Id)
    requires id in s.vms && (s.vms[id].state == Stopped || s.vms[id].state == Failed) && id in s.configs
    ensures var steps := [BeginStart(id), ReadConfig, AllocateCid] + [DropLive(id), UpdateVm]
                         + [StoreConfig, RecordLive, RecordOutcome(Running, true)];
            var cfg, cid := StartConfig(s, id), |s.owners|;
            Ran(s, |s.tasks|, steps) == Some(System(s.vms[id := Vm(cfg.name, Some(cid), Running)], s.configs[id := cfg],
                                                    s.live[id := cid], s.owners + [id], s.tasks + [Over(id)]))
  {
    var i, cid, cfg := |s.tasks|, |s.owners|, StartConfig(s, id);
    var s1 := s.(owners := s.owners + [id], tasks := s.tasks + [Update(id, cid, cfg)]);
    StartPrepared(s, id);
    StartUpdated(s1, i);
    var vm := Vm(cfg.name, Some(cid), Creating);
    var s2 := s1.(vms := s.vms[id := vm], live := s.live - {id}, tasks := s1.tasks[i := Store(id, cid, cfg)]);
    RanJoin(s, i, [BeginStart(id), ReadConfig, AllocateCid], s1, [DropLive(id), UpdateVm]);
    BootAlone(s2, i, true);
    RanJoin(s, i, [BeginStart(id), ReadConfig, AllocateCid] + [DropLive(id), UpdateVm], s2,
            [StoreConfig, RecordLive, RecordOutcome(Running, true)]);
    Overwritten(s.vms, s.tasks, id, vm, vm.(state := Running), Update(id, cid, cfg), Store(id, cid, cfg));
    Overwritten(s.vms, s.tasks, id, vm, vm.(state := Running), Store(id, cid, cfg), Over(id));
    assert (s.live - {id})[id := cid] == s.live[id := cid];
  }

  /** A stop or kill by itself leaves the VM, its name and its config, but no live run. */
  lemma StopAlone(s: System, id: Id)
    requires id in s.vms
    ensures Ran(s, |s.tasks|, [DropLive(id), SetState(id, Stopped)])
         == Some(s.(vms := s.vms[id := s.vms[id].(state := Stopped)], live := s.live - {id}))
  {
    var steps := [DropLive(id), SetState(id, Stopped)];
    var s1 := s.(live := s.live - {id});
    RanNext(s, |s.tasks|, steps, 0, s, s1);
    RanNext(s, |s.tasks|, steps, 1, s1, s1.(vms := s.vms[id := s.vms[id].(state := Stopped)]));
  }

  /** A destroy by itself leaves nothing of the VM, and everything of the others. */
  lemma DestroyAlone(s: System, id: Id)
    requires id in s.vms
    ensures Ran(s, |s.tasks|, [BeginDestroy(id), ForgetLive, ForgetConfig])
         == Some(System(s.vms - {id}, s.configs - {id}, s.live - {id}, s.owners, s.tasks + [Over(id)]))
  {
    var steps := [BeginDestroy(id), ForgetLive, ForgetConfig];
    var i := |s.tasks|;
    var s1 := s.(vms := s.vms - {id}, tasks := s.tasks + [Forget(id)]);
    var s2 := s1.(live := s.live - {id});
    var s3 := s2.(configs := s.configs - {id}, tasks := s.tasks + [Over(id)]);
    RanNext(s, i, steps, 0, s, s1);
    RanNext(s, i, steps, 1, s1, s2);
    assert s2.tasks[i := Over(id)] == s3.tasks;
    RanNext(s, i, steps, 2, s2, s3);
  }
}
