/** The build engine, seen through the calls it makes on its executor. */
module Engine {
  import opened Wrappers
  import opened Dockerfile
  import opened Executor
  import opened Substitute
  import opened Stages
  import opened Strings

  // ── Instructions ────────────────────────────────────────────────────

  predicate MakesLayer(instr: Instruction) {
    instr.Run? || instr.Copy? || instr.Add?
  }

  /** What instructions see: variables for substitution, environment, directory and shell. */
  datatype Scope = Scope(vars: Vars, env: Vars, workingDir: string, shell: seq<string>)

  datatype StageState = StageState(layers: seq<string>, scope: Scope)

  function FreshStage(): StageState {
    StageState([], Scope(map[], map[], "/", ["/bin/sh", "-c"]))
  }

  // ── Substitution in lists ───────────────────────────────────────────

  method Expand(text: string, vars: Vars) returns (r: Option<string>)
    ensures r == Substituted(text, vars)
  {
    var v := SubstituteVars(text, vars);
    r := if v.Ok? then Some(v.value) else None;
  }

  ghost function SubstitutedAll(list: seq<string>, vars: Vars): Option<seq<string>> {
    if list == [] then Some([])
    else
      var init, last := SubstitutedAll(list[..|list| - 1], vars), Substituted(list[|list| - 1], vars);
      if init.Some? && last.Some? then Some(init.value + [last.value]) else None
  }

  lemma {:induction false} SubstitutedPrefix(list: seq<string>, vars: Vars, i: nat)
    requires i <= |list| && SubstitutedAll(list[..i], vars) == None
    ensures SubstitutedAll(list, vars) == None
    decreases |list|
  {
    if i < |list| {
      var init := list[..|list| - 1];
      assert init[..i] == list[..i];
      SubstitutedPrefix(init, vars, i);
    } else {
      assert list[..i] == list;
    }
  }

  method SubstituteAll(list: seq<string>, vars: Vars) returns (r: Option<seq<string>>)
    ensures r == SubstitutedAll(list, vars)
  {
    var done: seq<string> := [];
    for i := 0 to |list|
      invariant SubstitutedAll(list[..i], vars) == Some(done)
    {
      assert list[..i + 1][..i] == list[..i];
      var v := Expand(list[i], vars);
      if v.None? {
        SubstitutedPrefix(list, vars, i + 1);
        return None;
      }
      done := done + [v.value];
    }
    assert list[..|list|] == list;
    r := Some(done);
  }

  ghost function ResolvedMount(f: MountFlag, vars: Vars): Option<Mount> {
    var target := Substituted(f.target, vars);
    var source := if f.source.Some? then Substituted(f.source.value, vars) else None;
    if target.None? || (f.source.Some? && source.None?) then None
    else Some(Mount(f.mountType, target.value, source, f.readOnly, f.id))
  }

  ghost function ResolvedMounts(flags: seq<MountFlag>, vars: Vars): Option<seq<Mount>> {
    if flags == [] then Some([])
    else
      var init, last := ResolvedMounts(flags[..|flags| - 1], vars), ResolvedMount(flags[|flags| - 1], vars);
      if init.Some? && last.Some? then Some(init.value + [last.value]) else None
  }

  lemma {:induction false} ResolvedPrefix(flags: seq<MountFlag>, vars: Vars, i: nat)
    requires i <= |flags| && ResolvedMounts(flags[..i], vars) == None
    ensures ResolvedMounts(flags, vars) == None
    decreases |flags|
  {
    if i < |flags| {
      var init := flags[..|flags| - 1];
      assert init[..i] == flags[..i];
      ResolvedPrefix(init, vars, i);
    } else {
      assert flags[..i] == flags;
    }
  }

  /** One mount of `resolve_mounts`. */
  method ResolveMount(f: MountFlag, vars: Vars) returns (r: Option<Mount>)
    ensures r == ResolvedMount(f, vars)
  {
    var target := Expand(f.target, vars);
    if target.None? {
      return None;
    }
    var source: Option<string> := None;
    if f.source.Some? {
      source := Expand(f.source.value, vars);
      if source.None? {
        return None;
      }
    }
    r := Some(Mount(f.mountType, target.value, source, f.readOnly, f.id));
  }

  /** `resolve_mounts` */
  method ResolveMounts(flags: seq<MountFlag>, vars: Vars) returns (r: Option<seq<Mount>>)
    ensures r == ResolvedMounts(flags, vars)
  {
    var ms: seq<Mount> := [];
    for i := 0 to |flags|
      invariant ResolvedMounts(flags[..i], vars) == Some(ms)
    {
      assert flags[..i + 1][..i] == flags[..i];
      var m := ResolveMount(flags[i], vars);
      if m.None? {
        ResolvedPrefix(flags, vars, i + 1);
        return None;
      }
      ms := ms + [m.value];
    }
    assert flags[..|flags|] == flags;
    r := Some(ms);
  }

  /** The command of a RUN: the shell with the substituted text, or the substituted words. */
  ghost function RunCommand(command: CommandForm, vars: Vars, shell: seq<string>): Option<seq<string>> {
    match command
    case ShellForm(text) =>
      var t := Substituted(text, vars);
      if t.Some? then Some(shell + [t.value]) else None
    case ExecForm(args) => SubstitutedAll(args, vars)
  }

  /** `build_run_command` */
  method BuildRunCommand(command: CommandForm, vars: Vars, shell: seq<string>) returns (r: Option<seq<string>>)
    ensures r == RunCommand(command, vars, shell)
  {
    match command
    case ShellForm(text) =>
      var t := Expand(text, vars);
      r := if t.Some? then Some(shell + [t.value]) else None;
    case ExecForm(args) =>
      r := SubstituteAll(args, vars);
  }

  // ── Plans of instructions ───────────────────────────────────────────

  /** A RUN: the substituted command in its environment and directory, between its mounts, then a layer. */
  ghost function RunPlan(command: CommandForm, flags: seq<MountFlag>, scope: Scope): Plan {
    var cmd, ms := RunCommand(command, scope.vars, scope.shell), ResolvedMounts(flags, scope.vars);
    if cmd.None? || ms.None? then Plan([], false)
    else Join(MountedPlan(Exec(cmd.value, scope.env, scope.workingDir), ms.value), SnapshotPlan())
  }

  /** `Path::join` */
  function JoinPath(dir: string, path: string): string {
    if "/" <= path then path
    else if dir == "" || dir[|dir| - 1] == '/' then dir + path
    else dir + "/" + path
  }

  // ── The engine ──────────────────────────────────────────────────────

  datatype BuildStep = BuildStep(number: nat, total: nat)

  datatype BuildResult = BuildResult(baseImage: Option<string>, layers: seq<string>, steps: seq<BuildStep>)

  function CountLayers(instrs: seq<Instruction>): nat {
    if instrs == [] then 0
    else CountLayers(instrs[..|instrs| - 1]) + if MakesLayer(instrs[|instrs| - 1]) then 1 else 0
  }

  ghost predicate Selects(stages: seq<Stage>, needed: seq<nat>) {
    forall k | 0 <= k < |needed| :: needed[k] < |stages|
  }

  /** `count_steps`: one for each FROM and one for each instruction. */
  function CountSteps(stages: seq<Stage>, needed: seq<nat>): nat
    requires Selects(stages, needed)
  {
    if needed == [] then 0
    else
      var n := |needed| - 1;
      CountSteps(stages, needed[..n]) + 1 + |stages[needed[n]].instructions|
  }

  /** Steps are numbered from 1, and all carry the same total. */
  ghost predicate Numbered(steps: seq<BuildStep>, total: nat) {
    forall i | 0 <= i < |steps| :: steps[i] == BuildStep(i + 1, total)
  }

  function FirstDefault(globals: seq<(string, Option<string>)>, name: string): Option<string> {
    if globals == [] then None
    else if globals[0].0 == name then globals[0].1
    else FirstDefault(globals[1..], name)
  }

  class BuildEngine {
    var trace: seq<Event>
    ghost var progress: Progress
    const replies: nat -> Reply
    const stages: seq<Stage>
    const buildArgs: Vars
    const globalArgs: seq<(string, Option<string>)>
    const contextDir: string

    ghost predicate Valid()
      reads this
    {
      progress == After(trace)
    }

    /** `replies` stands for everything the executor may do: its k-th answer is replies(k). */
    constructor (replies: nat -> Reply, stages: seq<Stage>, buildArgs: Vars,
                 globalArgs: seq<(string, Option<string>)>, contextDir: string)
      ensures Valid() && trace == [] && this.replies == replies && this.stages == stages
      ensures this.buildArgs == buildArgs && this.globalArgs == globalArgs && this.contextDir == contextDir
    {
      trace, progress := [], Start();
      this.replies, this.stages, this.buildArgs := replies, stages, buildArgs;
      this.globalArgs, this.contextDir := globalArgs, contextDir;
    }

    method Perform(call: Call) returns (reply: Reply)
      requires Valid()
      modifies this
      ensures Valid() && trace == old(trace) + [Event(call, reply)]
      ensures reply == Answer(call, replies(|old(trace)|)) && progress == Next(old(progress), Event(call, reply))
    {
      reply := Answer(call, replies(|trace|));
      AfterNext(trace, Event(call, reply));
      trace, progress := trace + [Event(call, reply)], Next(progress, Event(call, reply));
    }

    /** `snapshot_and_flatten` */
    method SnapshotAndFlatten(layers: seq<string>) returns (layers': seq<string>, ok: bool)
      requires Valid() && AtRest(progress, layers) && progress.fine
      modifies this
      ensures Valid() && EndsOrderly(progress) && progress.mounts == Up([])
      ensures Followed(old(progress.calls), progress, SnapshotPlan(), ok)
      ensures old(progress.calls) <= progress.calls
      ensures ok ==> AtRest(progress, layers') && |layers'| == |layers| + 1
    {
      var snap := Perform(SnapshotLayer);
      if snap.Failed? {
        return layers, false;
      }
      layers' := layers + [snap.layer];
      var flat := Perform(FlattenOverlay);
      ok := flat.Done?;
    }

    /** Mounts are set up in order; the first failure ends the instruction. */
    method SetupMounts(ms: seq<Mount>) returns (ok: bool)
      requires Valid() && AtRest(progress, progress.layers) && progress.fine
      modifies this
      ensures Valid()
      ensures ok ==> progress == old(progress).(mounts := Up(ms), calls := old(progress.calls) + SetupCalls(ms))
      ensures !ok ==> progress.mounts == MountFailed && EndsOrderly(progress)
      ensures !ok ==> !progress.fine && progress.calls <= old(progress.calls) + SetupCalls(ms)
    {
      ghost var g := progress;
      for i := 0 to |ms|
        invariant Valid() && progress == g.(mounts := Up(ms[..i]), calls := g.calls + SetupCalls(ms[..i]))
      {
        SetupCallsNext(ms, i);
        Associates(g.calls, SetupCalls(ms[..i]), [SetupMount(ms[i])]);
        var reply := Perform(SetupMount(ms[i]));
        if reply.Failed? {
          return false;
        }
      }
      assert ms[..|ms|] == ms;
      ok := true;
    }

    /** And taken down in reverse, whether or not the command failed. */
    method TeardownMounts(ms: seq<Mount>) returns (ok: bool)
      requires Valid() && progress.mounts == Up(ms) && progress.tracking == Refreshed && !progress.stray
      modifies this
      ensures Valid()
      ensures ok ==> progress == old(progress).(mounts := Up([]), calls := old(progress.calls) + TeardownCalls(ms))
      ensures !ok ==> progress.mounts == MountFailed && EndsOrderly(progress)
      ensures !ok ==> !progress.fine && progress.calls <= old(progress.calls) + TeardownCalls(ms)
    {
      ghost var g := progress;
      var k := |ms|;
      assert ms[..|ms|] == ms;
      while k > 0
        invariant 0 <= k <= |ms|
        invariant Valid()
        invariant progress == g.(mounts := Up(ms[..k]), calls := g.calls + TeardownCalls(ms)[..|ms| - k])
      {
        k := k - 1;
        TeardownCallsNext(ms, k);
        Associates(g.calls, TeardownCalls(ms)[..|ms| - k - 1], [TeardownMount(ms[k])]);
        var reply := Perform(TeardownMount(ms[k]));
        if reply.Failed? {
          return false;
        }
      }
      assert TeardownCalls(ms)[..|ms|] == TeardownCalls(ms);
      ok := true;
    }

    /** Set up, execute, and take down whatever the command did. */
    method ExecMounted(call: Call, ms: seq<Mount>) returns (result: Reply, ok: bool)
      requires Valid() && AtRest(progress, progress.layers) && progress.fine && call.Exec?
      modifies this
      ensures Valid() && (result.Failed? || result.Exited?)
      ensures ok ==> progress == old(progress).(calls := old(progress.calls) + MountedPlan(call, ms).calls,
                                                fine := Succeeded(Event(call, result)))
      ensures !ok ==> progress.mounts == MountFailed && EndsOrderly(progress)
      ensures !ok ==> !progress.fine && progress.calls <= old(progress.calls) + MountedPlan(call, ms).calls
    {
      ghost var before := progress.calls;
      result := Failed;
      Associates(before, SetupCalls(ms), [call] + TeardownCalls(ms));
      Associates(before + SetupCalls(ms), [call], TeardownCalls(ms));
      ok := SetupMounts(ms);
      if !ok {
        StoppedEarly(before, progress, Plan(SetupCalls(ms), true), Plan([call] + TeardownCalls(ms), true));
        return;
      }
      result := Perform(call);
      ok := TeardownMounts(ms);
    }

    /** `process_run`, once command and mounts are substituted. Unless a mount call fails it makes the setups, the
        execution and the reversed teardowns, even if the command fails. */
    method RunMounted(cmd: seq<string>, ms: seq<Mount>, st: StageState) returns (st': StageState, ok: bool)
      requires Valid() && AtRest(progress, st.layers) && progress.fine
      modifies this
      ensures Valid() && EndsOrderly(progress)
      ensures ok ==> AtRest(progress, st'.layers) && |st'.layers| == |st.layers| + 1
      ensures st'.scope == st.scope
      ensures var mounted := MountedPlan(Exec(cmd, st.scope.env, st.scope.workingDir), ms);
              && Followed(old(progress.calls), progress, Join(mounted, SnapshotPlan()), ok)
              && (progress.mounts == MountFailed || old(progress.calls) + mounted.calls <= progress.calls)
    {
      st', ok := st, false;
      ghost var before := progress.calls;
      var call := Exec(cmd, st.scope.env, st.scope.workingDir);
      ghost var p := MountedPlan(call, ms);
      var result, completed := ExecMounted(call, ms);
      if !completed || result.Failed? || result.code != 0 {
        StoppedEarly(before, progress, p, SnapshotPlan());
        return;
      }
      ghost var mid := progress;
      var layers;
      layers, ok := SnapshotAndFlatten(st.layers);
      FollowedBy(before, mid, progress, p, SnapshotPlan(), ok);
      st' := st.(layers := layers);
    }

    /** The common part of COPY and ADD after substitution. */
    method CopyAndSnapshot(sources: seq<string>, dest: string, st: StageState) returns (st': StageState, ok: bool)
      requires Valid() && AtRest(progress, st.layers) && progress.fine
      modifies this
      ensures Valid() && EndsOrderly(progress)
      ensures ok ==> AtRest(progress, st'.layers) && |st'.layers| == |st.layers| + 1
      ensures st'.scope == st.scope
      ensures Followed(old(progress.calls), progress,
                       Join(Plan([CopyToGuest(sources, dest)], true), SnapshotPlan()), ok)
    {
      st', ok := st, false;
      ghost var before, p := progress.calls, Plan([CopyToGuest(sources, dest)], true);
      var reply := Perform(CopyToGuest(sources, dest));
      if reply.Failed? {
        StoppedEarly(before, progress, p, SnapshotPlan());
        return;
      }
      ghost var mid := progress;
      var layers;
      layers, ok := SnapshotAndFlatten(st.layers);
      FollowedBy(before, mid, progress, p, SnapshotPlan(), ok);
      st' := st.(layers := layers);
    }

    /** `process_run` */
    method ProcessRun(command: CommandForm, flags: seq<MountFlag>, st: StageState) returns (st': StageState, ok: bool)
      requires Valid() && AtRest(progress, st.layers) && progress.fine
      modifies this
      ensures Valid() && EndsOrderly(progress)
      ensures ok ==> AtRest(progress, st'.layers) && |st'.layers| == |st.layers| + 1
      ensures st'.scope == st.scope
      ensures Followed(old(progress.calls), progress, RunPlan(command, flags, st.scope), ok)
      ensures var cmd, ms := RunCommand(command, st.scope.vars, st.scope.shell), ResolvedMounts(flags, st.scope.vars);
              cmd.Some? && ms.Some? && progress.mounts == Up([]) ==>
                old(progress.calls) + MountedPlan(Exec(cmd.value, st.scope.env, st.scope.workingDir), ms.value).calls
                <= progress.calls
    {
      st', ok := st, false;
      var cmd := BuildRunCommand(command, st.scope.vars, st.scope.shell);
      if cmd.None? {
        return;
      }
      var ms := ResolveMounts(flags, st.scope.vars);
      if ms.None? {
        return;
      }
      st', ok := RunMounted(cmd.value, ms.value, st);
    }

    /** `process_copy` and `process_add`; only a COPY from another stage does not look in the context. */
    method ProcessCopy(sources: seq<string>, dest: string, inContext: bool, st: StageState)
      returns (st': StageState, ok: bool)
      requires Valid() && AtRest(progress, st.layers) && progress.fine
      modifies this
      ensures Valid() && EndsOrderly(progress)
      ensures ok ==> AtRest(progress, st'.layers) && |st'.layers| == |st.layers| + 1
      ensures st'.scope == st.scope
      ensures Followed(old(progress.calls), progress, CopyPlan(sources, dest, inContext, st.scope), ok)
    {
      st', ok := st, false;
      var d := Expand(dest, st.scope.vars);
      if d.None? {
        return;
      }
      var ss := SubstituteAll(sources, st.scope.vars);
      if ss.None? {
        return;
      }
      st', ok := CopyAndSnapshot(if inContext then InContext(ss.value) else ss.value, d.value, st);
    }

    /** `process_instruction` */
    method ProcessInstruction(instr: Instruction, st: StageState) returns (st': StageState, ok: bool)
      requires Valid() && AtRest(progress, st.layers) && progress.fine
      modifies this
      ensures Valid() && EndsOrderly(progress)
      ensures ok ==> AtRest(progress, st'.layers) && |st'.layers| == |st.layers| + if MakesLayer(instr) then 1 else 0
      ensures ok ==> ScopeAfter(instr, st.scope) == Some(st'.scope)
      ensures Followed(old(progress.calls), progress, PlanOf(instr, st.scope), ok)
    {
      st', ok := st, false;
      match instr
      case Run(command, flags) =>
        st', ok := ProcessRun(command, flags, st);
      case Copy(sources, dest, from) =>
        st', ok := ProcessCopy(sources, dest, from.None?, st);
      case Add(sources, dest) =>
        st', ok := ProcessCopy(sources, dest, true, st);
      case Env(pairs) =>
        var scope;
        scope, ok := ApplyEnv(pairs, st.scope);
        st' := st.(scope := scope);
      case Arg(name, default) =>
        var val := ArgValue(name, default);
        st', ok := st.(scope := st.scope.(vars := st.scope.vars[name := val])), true;
      case Workdir(path) =>
        var p := Expand(path, st.scope.vars);
        if p.Some? {
          st', ok := st.(scope := st.scope.(workingDir := JoinDir(st.scope.workingDir, p.value))), true;
        }
      case Shell(shell) =>
        st', ok := st.(scope := st.scope.(shell := shell)), true;
      case Metadata =>
        ok := true;
    }

    // ── What a build means to do ──────────────────────────────────────

    function InContext(sources: seq<string>): seq<string> {
      seq(|sources|, i requires 0 <= i < |sources| => JoinPath(contextDir, sources[i]))
    }

    ghost function CopyPlan(sources: seq<string>, dest: string, inContext: bool, scope: Scope): Plan {
      var d, ss := Substituted(dest, scope.vars), SubstitutedAll(sources, scope.vars);
      if d.None? || ss.None? then Plan([], false)
      else Join(Plan([CopyToGuest(if inContext then InContext(ss.value) else ss.value, d.value)], true), SnapshotPlan())
    }

    /** The calls of one instruction under the scope that those before it left. */
    ghost function PlanOf(instr: Instruction, scope: Scope): Plan {
      match instr
      case Run(command, flags) => RunPlan(command, flags, scope)
      case Copy(sources, dest, from) => CopyPlan(sources, dest, from.None?, scope)
      case Add(sources, dest) => CopyPlan(sources, dest, true, scope)
      case _ => Plan([], ScopeAfter(instr, scope).Some?)
    }

    /** All instructions of a stage, each under the scope that those before it left. */
    ghost function InstructionsPlan(instrs: seq<Instruction>): Plan {
      if instrs == [] then Plan([], true)
      else
        var n := |instrs| - 1;
        Join(InstructionsPlan(instrs[..n]), LastPlan(instrs))
    }

    ghost function LastPlan(instrs: seq<Instruction>): Plan
      requires instrs != []
    {
      var n := |instrs| - 1;
      match ScopeAfterAll(instrs[..n]) case None => Plan([], false) case Some(scope) => PlanOf(instrs[n], scope)
    }

    /** A stage: its overlay on another stage or on nothing, then its instructions. */
    ghost function StagePlan(stage: Stage): Plan {
      match Substituted(stage.image, GlobalVars(|globalArgs|))
      case None => Plan([], false)
      case Some(image) => Join(Plan([OverlayInit(Lower(image))], true), InstructionsPlan(stage.instructions))
    }

    function Lower(image: string): Option<string> {
      if ResolveStageRef(image, stages).Some? then Some(image) else None
    }

    /** All selected stages, in order. */
    ghost function BuildPlan(order: seq<nat>): Plan
      requires Selects(stages, order)
    {
      if order == [] then Plan([], true)
      else
        var n := |order| - 1;
        Join(BuildPlan(order[..n]), StagePlan(stages[order[n]]))
    }

    /** Leaving the plan of the first instructions is leaving the plan of all. */
    lemma {:induction false} StoppedInStage(before: seq<Call>, g: Progress, instrs: seq<Instruction>, k: nat)
      requires k <= |instrs| && Stopped(before, g, InstructionsPlan(instrs[..k]))
      ensures Stopped(before, g, InstructionsPlan(instrs))
      decreases |instrs|
    {
      if k == |instrs| {
        assert instrs[..k] == instrs;
      } else {
        var n := |instrs| - 1;
        assert instrs[..n][..k] == instrs[..k];
        StoppedInStage(before, g, instrs[..n], k);
        StoppedEarly(before, g, InstructionsPlan(instrs[..n]), LastPlan(instrs));
      }
    }

    lemma {:induction false} StoppedInBuild(before: seq<Call>, g: Progress, order: seq<nat>, k: nat)
      requires Selects(stages, order) && k <= |order| && Stopped(before, g, BuildPlan(order[..k]))
      ensures Stopped(before, g, BuildPlan(order))
      decreases |order|
    {
      if k == |order| {
        assert order[..k] == order;
      } else {
        var n := |order| - 1;
        assert order[..n][..k] == order[..k];
        StoppedInBuild(before, g, order[..n], k);
        var p, q := BuildPlan(order[..n]), StagePlan(stages[order[n]]);
        assert BuildPlan(order) == Join(p, q);
        StoppedEarly(before, g, p, q);
      }
    }

    // ── Arguments and scopes ──────────────────────────────────────────

    /** `apply_arg`: the build argument, the default here, or the default of the global ARG. */
    function ArgValue(name: string, default: Option<string>): string {
      if name in buildArgs then buildArgs[name]
      else if default.Some? then default.value
      else
        var g := FirstDefault(globalArgs, name);
        if g.Some? then g.value else ""
    }

    /** What an instruction changes for those after it; none if a text does not substitute. */
    ghost function ScopeAfter(instr: Instruction, scope: Scope): Option<Scope> {
      match instr
      case Env(pairs) => EnvAfter(pairs, scope)
      case Arg(name, default) => Some(scope.(vars := scope.vars[name := ArgValue(name, default)]))
      case Workdir(path) =>
        var p := Substituted(path, scope.vars);
        if p.None? then None else Some(scope.(workingDir := JoinDir(scope.workingDir, p.value)))
      case Shell(shell) => Some(scope.(shell := shell))
      case _ => Some(scope)
    }

    ghost function ScopeAfterAll(instrs: seq<Instruction>): Option<Scope> {
      if instrs == [] then Some(FreshStage().scope)
      else
        var before := ScopeAfterAll(instrs[..|instrs| - 1]);
        if before.None? then None else ScopeAfter(instrs[|instrs| - 1], before.value)
    }

    /** Whatever the instructions of a stage, the directory is absolute and every environment variable is visible
        to substitution. */
    lemma {:induction false} ScopeSound(instrs: seq<Instruction>)
      requires ScopeAfterAll(instrs).Some?
      ensures Sound(ScopeAfterAll(instrs).value)
    {
      if instrs != [] {
        var before := ScopeAfterAll(instrs[..|instrs| - 1]).value;
        ScopeSound(instrs[..|instrs| - 1]);
        var last := instrs[|instrs| - 1];
        if last.Env? { EnvSound(last.vars, before); }
      }
    }

    /** The image below a stage's layers, unless that is another stage. */
    ghost function BaseImage(stage: Stage): Option<string> {
      var image := Substituted(stage.image, GlobalVars(|globalArgs|));
      if image.Some? && ResolveStageRef(image.value, stages).None? then image else None
    }

    /** `resolve_global_args` */
    function GlobalVars(n: nat): Vars
      requires n <= |globalArgs|
    {
      if n == 0 then map[]
      else
        var (name, default) := globalArgs[n - 1];
        if name in buildArgs then GlobalVars(n - 1)[name := buildArgs[name]]
        else if default.Some? then GlobalVars(n - 1)[name := default.value]
        else GlobalVars(n - 1)
    }

    // ── Stages ────────────────────────────────────────────────────────

    /** Instruction i, after those before it were carried out. */
    method BuildNext(instrs: seq<Instruction>, i: nat, st: StageState, ghost before: seq<Call>)
      returns (st': StageState, ok: bool)
      requires i < |instrs| && Valid() && AtRest(progress, st.layers) && |st.layers| == CountLayers(instrs[..i])
      requires Finished(before, progress, InstructionsPlan(instrs[..i])) && ScopeAfterAll(instrs[..i]) == Some(st.scope)
      modifies this
      ensures Valid() && EndsOrderly(progress)
      ensures ok ==> AtRest(progress, st'.layers) && |st'.layers| == CountLayers(instrs[..i + 1])
      ensures ok ==> ScopeAfterAll(instrs[..i + 1]) == Some(st'.scope)
      ensures ok ==> Finished(before, progress, InstructionsPlan(instrs[..i + 1]))
      ensures !ok ==> Stopped(before, progress, InstructionsPlan(instrs))
    {
      assert instrs[..i + 1][..i] == instrs[..i];
      ghost var mid, p := progress, PlanOf(instrs[i], st.scope);
      st', ok := ProcessInstruction(instrs[i], st);
      FollowedBy(before, mid, progress, InstructionsPlan(instrs[..i]), p, ok);
      if !ok { StoppedInStage(before, progress, instrs, i + 1); }
    }

    /** The instructions of one stage, one step each. */
    method BuildStage(stage: Stage, steps: seq<BuildStep>, total: nat)
      returns (st: StageState, steps': seq<BuildStep>, ok: bool)
      requires Valid() && AtRest(progress, []) && progress.fine && Numbered(steps, total)
      modifies this
      ensures Valid() && EndsOrderly(progress)
      ensures Followed(old(progress.calls), progress, InstructionsPlan(stage.instructions), ok)
      ensures ok ==> AtRest(progress, st.layers) && |st.layers| == CountLayers(stage.instructions)
      ensures ok ==> ScopeAfterAll(stage.instructions) == Some(st.scope)
      ensures ok ==> Numbered(steps', total) && |steps'| == |steps| + |stage.instructions|
    {
      st, steps', ok := FreshStage(), steps, true;
      var instrs := stage.instructions;
      ghost var before := progress.calls;
      for i := 0 to |instrs|
        invariant Valid() && AtRest(progress, st.layers) && |st.layers| == CountLayers(instrs[..i])
        invariant Finished(before, progress, InstructionsPlan(instrs[..i]))
        invariant ScopeAfterAll(instrs[..i]) == Some(st.scope)
        invariant Numbered(steps', total) && |steps'| == |steps| + i
      {
        steps' := steps' + [BuildStep(|steps'| + 1, total)];
        st, ok := BuildNext(instrs, i, st, before);
        if !ok {
          return;
        }
      }
      assert instrs[..|instrs|] == instrs;
    }

    /** One selected stage: its FROM step, the overlay, and its instructions. */
    method BuildSelected(stage: Stage, globals: Vars, steps: seq<BuildStep>, total: nat)
      returns (base: Option<string>, st: StageState, steps': seq<BuildStep>, ok: bool)
      requires Valid() && AtRest(progress, progress.layers) && progress.fine && Numbered(steps, total)
      requires globals == GlobalVars(|globalArgs|)
      modifies this
      ensures Valid() && EndsOrderly(progress)
      ensures Followed(old(progress.calls), progress, StagePlan(stage), ok)
      ensures ok ==> AtRest(progress, st.layers) && |st.layers| == CountLayers(stage.instructions)
      ensures ok ==> base == BaseImage(stage)
      ensures ok ==> Numbered(steps', total) && |steps'| == |steps| + 1 + |stage.instructions|
    {
      base, st, steps', ok := None, FreshStage(), steps, false;
      var from := Expand(stage.image, globals);
      if from.None? {
        return;
      }
      steps' := steps' + [BuildStep(|steps'| + 1, total)];
      var lower := Lower(from.value);
      base := if lower.Some? then None else from;
      ghost var before, p := progress.calls, Plan([OverlayInit(lower)], true);
      var reply := Perform(OverlayInit(lower));
      if reply.Failed? {
        StoppedEarly(before, progress, p, InstructionsPlan(stage.instructions));
        return;
      }
      ghost var mid := progress;
      st, steps', ok := BuildStage(stage, steps', total);
      FollowedBy(before, mid, progress, p, InstructionsPlan(stage.instructions), ok);
    }

    /** The selected stages in order. */
    method BuildStages(order: seq<nat>, total: nat)
      returns (base: Option<string>, st: StageState, steps: seq<BuildStep>, ok: bool)
      requires Valid() && trace == [] && Selects(stages, order)
      modifies this
      ensures Valid() && EndsOrderly(progress)
      ensures Followed([], progress, BuildPlan(order), ok)
      ensures ok ==> AtRest(progress, st.layers) && Numbered(steps, total) && |steps| == CountSteps(stages, order)
      ensures ok && order != [] ==> |st.layers| == CountLayers(stages[order[|order| - 1]].instructions)
      ensures ok && order != [] ==> base == BaseImage(stages[order[|order| - 1]])
    {
      base, st, steps, ok := None, FreshStage(), [], true;
      var globals := GlobalVars(|globalArgs|);
      for k := 0 to |order|
        invariant Valid() && AtRest(progress, st.layers)
        invariant Finished([], progress, BuildPlan(order[..k]))
        invariant Numbered(steps, total) && |steps| == CountSteps(stages, order[..k])
        invariant k > 0 ==> |st.layers| == CountLayers(stages[order[k - 1]].instructions)
        invariant k > 0 ==> base == BaseImage(stages[order[k - 1]])
      {
        assert order[..k + 1][..k] == order[..k];
        ghost var mid := progress;
        base, st, steps, ok := BuildSelected(stages[order[k]], globals, steps, total);
        FollowedBy([], mid, progress, BuildPlan(order[..k]), StagePlan(stages[order[k]]), ok);
        if !ok {
          StoppedInBuild([], progress, order, k + 1);
          return;
        }
      }
      assert order[..|order|] == order;
    }

    /** The stages to build; none if the target is unknown or there are no stages. */
    method SelectStages(target: Option<string>) returns (order: seq<nat>)
      ensures if order == [] then NothingSelected(stages, target)
              else Selects(stages, order) && Selection(stages, target, order)
    {
      var selected, _ := ResolveNeededStages(stages, target);
      if selected.Err? {
        return [];
      }
      order := selected.value;
      SelectionInRange(stages, target, order);
    }

    /** `build`. The calls made are always the first ones of the plan for the needed stages, and all of it exactly
        when the build succeeds; then the steps are numbered 1 to the total that `count_steps` gave, and the layers
        are those snapped in the last selected stage, one per RUN, COPY and ADD. */
    method Build(target: Option<string>) returns (r: Option<BuildResult>, ghost needed: seq<nat>)
      requires Valid() && trace == []
      modifies this
      ensures progress == After(trace) && EndsOrderly(progress)
      ensures needed == [] ==> r.None? && trace == [] && NothingSelected(stages, target)
      ensures needed != [] ==>
                && Selects(stages, needed) && Selection(stages, target, needed)
                && Followed([], progress, BuildPlan(needed), r.Some?)
      ensures r.Some? ==>
                && Numbered(r.value.steps, CountSteps(stages, needed)) && |r.value.steps| == CountSteps(stages, needed)
                && r.value.layers == progress.layers
                && |r.value.layers| == CountLayers(stages[needed[|needed| - 1]].instructions)
                && r.value.baseImage == BaseImage(stages[needed[|needed| - 1]])
    {
      r := None;
      var order := SelectStages(target);
      needed := order;
      if order == [] {
        return;
      }
      var base, st, steps, ok := BuildStages(order, CountSteps(stages, order));
      if ok {
        r := Some(BuildResult(base, st.layers, steps));
      }
    }
  }

  /** The pairs of an ENV one after the other: each value is substituted under the variables so far. */
  ghost function EnvAfter(pairs: seq<(string, string)>, scope: Scope): Option<Scope> {
    if pairs == [] then Some(scope)
    else
      var before, (name, text) := EnvAfter(pairs[..|pairs| - 1], scope), pairs[|pairs| - 1];
      if before.None? then None
      else
        var v := Substituted(text, before.value.vars);
        if v.None? then None
        else Some(before.value.(vars := before.value.vars[name := v.value], env := before.value.env[name := v.value]))
  }

  lemma {:induction false} EnvPrefix(pairs: seq<(string, string)>, scope: Scope, i: nat)
    requires i <= |pairs| && EnvAfter(pairs[..i], scope) == None
    ensures EnvAfter(pairs, scope) == None
    decreases |pairs|
  {
    if i < |pairs| {
      var init := pairs[..|pairs| - 1];
      assert init[..i] == pairs[..i];
      EnvPrefix(init, scope, i);
    } else {
      assert pairs[..i] == pairs;
    }
  }

  ghost predicate Sound(scope: Scope) {
    "/" <= scope.workingDir && scope.env.Keys <= scope.vars.Keys
  }

  lemma {:induction false} EnvSound(pairs: seq<(string, string)>, scope: Scope)
    requires Sound(scope) && EnvAfter(pairs, scope).Some?
    ensures Sound(EnvAfter(pairs, scope).value)
  {
    if pairs != [] { EnvSound(pairs[..|pairs| - 1], scope); }
  }

  /** `apply_env`: later pairs see earlier ones. */
  method ApplyEnv(pairs: seq<(string, string)>, scope: Scope) returns (scope': Scope, ok: bool)
    ensures if ok then EnvAfter(pairs, scope) == Some(scope') else EnvAfter(pairs, scope) == None
  {
    scope', ok := scope, true;
    for i := 0 to |pairs|
      invariant EnvAfter(pairs[..i], scope) == Some(scope')
    {
      assert pairs[..i + 1][..i] == pairs[..i];
      var v := Expand(pairs[i].1, scope'.vars);
      if v.None? {
        EnvPrefix(pairs, scope, i + 1);
        return scope', false;
      }
      scope' := scope'.(vars := scope'.vars[pairs[i].0 := v.value], env := scope'.env[pairs[i].0 := v.value]);
    }
    assert pairs[..|pairs|] == pairs;
  }

  /** `apply_workdir` */
  function JoinDir(dir: string, path: string): string {
    if "/" <= path then path
    else if dir != "" && dir[|dir| - 1] == '/' then dir + path
    else dir + "/" + path
  }

  ghost predicate NothingSelected(stages: seq<Stage>, target: Option<string>) {
    forall order :: Selection(stages, target, order) ==> order == []
  }

  lemma SelectionInRange(stages: seq<Stage>, target: Option<string>, order: seq<nat>)
    requires Selection(stages, target, order)
    ensures Selects(stages, order)
  {
    forall k | 0 <= k < |order| ensures order[k] < |stages| { assert order[k] in order; }
  }
}
