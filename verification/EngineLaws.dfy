/** What a build engine makes of arguments, directories and stages. */
module EngineLaws {
  import opened Wrappers
  import opened Dockerfile
  import opened Executor
  import opened Engine
  import opened Stages
  import opened Substitute
  import opened SubstituteLaws
  import Tar = Layer

  // ── Arguments ───────────────────────────────────────────────────────

  /** The first global ARG of that name. */
  ghost predicate FirstGlobal(globals: seq<(string, Option<string>)>, name: string, i: nat) {
    i < |globals| && globals[i].0 == name && forall j | 0 <= j < i :: globals[j].0 != name
  }

  lemma {:induction false} FirstDefaultIs(globals: seq<(string, Option<string>)>, name: string, i: nat)
    requires FirstGlobal(globals, name, i)
    ensures FirstDefault(globals, name) == globals[i].1
    decreases i
  {
    if i > 0 {
      assert globals[0].0 != name;
      FirstDefaultIs(globals[1..], name, i - 1);
    }
  }

  lemma {:induction false} NoDefaultIs(globals: seq<(string, Option<string>)>, name: string)
    requires forall j | 0 <= j < |globals| :: globals[j].0 != name
    ensures FirstDefault(globals, name) == None
  {
    if globals != [] { NoDefaultIs(globals[1..], name); }
  }

  /** v is what an ARG instruction gives its variable: the build argument; else its own default;
      else that of the first global ARG of that name; else nothing. */
  ghost predicate Given(e: BuildEngine, name: string, default: Option<string>, v: string) {
    if name in e.buildArgs then v == e.buildArgs[name]
    else if default.Some? then v == default.value
    else
      && (forall i: nat | FirstGlobal(e.globalArgs, name, i) ::
            v == match e.globalArgs[i].1 case Some(d) => d case None => "")
      && ((forall j | 0 <= j < |e.globalArgs| :: e.globalArgs[j].0 != name) ==> v == "")
  }

  lemma ArgGives(e: BuildEngine, name: string, default: Option<string>)
    ensures Given(e, name, default, e.ArgValue(name, default))
  {
    forall i: nat | FirstGlobal(e.globalArgs, name, i) ensures FirstDefault(e.globalArgs, name) == e.globalArgs[i].1 {
      FirstDefaultIs(e.globalArgs, name, i);
    }
    if forall j | 0 <= j < |e.globalArgs| :: e.globalArgs[j].0 != name { NoDefaultIs(e.globalArgs, name); }
  }

  /** Only ARG and ENV set a variable. */
  ghost predicate Sets(instr: Instruction, name: string) {
    || (instr.Arg? && instr.name == name)
    || (instr.Env? && exists i | 0 <= i < |instr.vars| :: instr.vars[i].0 == name)
  }

  lemma {:induction false} EnvSpares(pairs: seq<(string, string)>, scope: Scope, name: string)
    requires EnvAfter(pairs, scope).Some? && forall i | 0 <= i < |pairs| :: pairs[i].0 != name
    ensures var after := EnvAfter(pairs, scope).value.vars;
            (name in after <==> name in scope.vars) && (name in after ==> after[name] == scope.vars[name])
  {
    if pairs != [] {
      var n := |pairs| - 1;
      EnvSpares(pairs[..n], scope, name);
      assert pairs[n].0 != name;
    }
  }

  lemma OthersSpare(e: BuildEngine, instr: Instruction, scope: Scope, name: string)
    requires e.ScopeAfter(instr, scope).Some? && !Sets(instr, name) && name in scope.vars
    ensures var after := e.ScopeAfter(instr, scope).value.vars; name in after && after[name] == scope.vars[name]
  {
    if instr.Env? { EnvSpares(instr.vars, scope, name); }
  }

  /** After an ARG its variable is what it was given, until an ARG or ENV sets it again. */
  lemma {:induction false} VariableHolds(e: BuildEngine, instrs: seq<Instruction>, k: nat)
    requires k < |instrs| && instrs[k].Arg? && e.ScopeAfterAll(instrs).Some?
    requires forall j | k < j < |instrs| :: !Sets(instrs[j], instrs[k].name)
    ensures var name, vars := instrs[k].name, e.ScopeAfterAll(instrs).value.vars;
            name in vars && Given(e, name, instrs[k].defaultValue, vars[name])
    decreases |instrs|
  {
    var n := |instrs| - 1;
    if k == n {
      ArgGives(e, instrs[k].name, instrs[k].defaultValue);
    } else {
      assert instrs[..n][k] == instrs[k];
      VariableHolds(e, instrs[..n], k);
      OthersSpare(e, instrs[n], e.ScopeAfterAll(instrs[..n]).value, instrs[k].name);
    }
  }

  /** With a build argument, the defaults of the ARG instructions for it do not matter: neither for
      the calls planned nor for what is set in the end. */
  lemma {:induction false} BuildArgumentWins(e: BuildEngine, instrs: seq<Instruction>, k: nat, d: Option<string>)
    requires k < |instrs| && instrs[k].Arg? && instrs[k].name in e.buildArgs
    ensures var others := instrs[k := Arg(instrs[k].name, d)];
            && e.ScopeAfterAll(others) == e.ScopeAfterAll(instrs)
            && e.InstructionsPlan(others) == e.InstructionsPlan(instrs)
    decreases |instrs|
  {
    var n := |instrs| - 1;
    var others := instrs[k := Arg(instrs[k].name, d)];
    if k == n {
      assert others[..n] == instrs[..n];
      ArgGives(e, instrs[k].name, instrs[k].defaultValue);
      ArgGives(e, instrs[k].name, d);
    } else {
      assert others[..n] == instrs[..n][k := Arg(instrs[k].name, d)] && others[n] == instrs[n];
      BuildArgumentWins(e, instrs[..n], k, d);
    }
  }

  /** The global ARG at index i sets its variable. */
  ghost predicate SetsGlobal(e: BuildEngine, i: nat)
    requires i < |e.globalArgs|
  {
    e.globalArgs[i].0 in e.buildArgs || e.globalArgs[i].1.Some?
  }

  /** Global variables are those of the ARGs with a build argument or a default. A build argument
      comes first; without one the last default counts. */
  lemma {:induction false} GlobalsGiven(e: BuildEngine, n: nat, name: string)
    requires n <= |e.globalArgs|
    ensures name in e.GlobalVars(n) <==> exists i | 0 <= i < n :: e.globalArgs[i].0 == name && SetsGlobal(e, i)
    ensures name in e.GlobalVars(n) && name in e.buildArgs ==> e.GlobalVars(n)[name] == e.buildArgs[name]
    ensures forall i | 0 <= i < n && name !in e.buildArgs && e.globalArgs[i].0 == name && e.globalArgs[i].1.Some? &&
              (forall j | i < j < n :: e.globalArgs[j].0 != name || e.globalArgs[j].1.None?) ::
              name in e.GlobalVars(n) && e.GlobalVars(n)[name] == e.globalArgs[i].1.value
    decreases n
  {
    if n > 0 {
      GlobalsGiven(e, n - 1, name);
      if e.globalArgs[n - 1].0 == name && SetsGlobal(e, n - 1) { assert name in e.GlobalVars(n); }
    }
  }

  // ── Directories ─────────────────────────────────────────────────────

  lemma {:induction false} SplitAtSlash(a: string, b: string, name: string)
    ensures Tar.Split(a + "/" + b, name) == Tar.Split(a, name) + Tar.Split(b, "")
    decreases |a|
  {
    if a == "" {
      assert a + "/" + b == "/" + b && ("/" + b)[1..] == b;
    } else {
      assert (a + "/" + b)[1..] == a[1..] + "/" + b;
      SplitAtSlash(a[1..], b, if a[0] == '/' then "" else name + [a[0]]);
    }
  }

  lemma ComponentsAtSlash(a: string, b: string)
    ensures Tar.Components(a + "/" + b) == Tar.Components(a) + Tar.Components(b)
  {
    SplitAtSlash(a, b, "");
  }

  /** joined is path seen from dir: an absolute path is itself; any other one follows the directory,
      behind exactly one slash. */
  ghost predicate SeenFrom(dir: string, path: string, joined: string) {
    if "/" <= path then joined == path
    else
      && Tar.Components(joined) == Tar.Components(dir) + Tar.Components(path)
      && (exists slashless :: (dir == slashless + "/" || dir == slashless) && joined == slashless + "/" + path)
  }

  lemma TrailingSlash(dir: string, path: string)
    requires dir != "" && dir[|dir| - 1] == '/' && !("/" <= path)
    ensures SeenFrom(dir, path, dir + path)
  {
    var d := dir[..|dir| - 1];
    assert dir == d + "/" && d + "/" + "" == d + "/";
    ComponentsAtSlash(d, "");
    ComponentsAtSlash(d, path);
  }

  lemma NoTrailingSlash(dir: string, path: string)
    requires !("/" <= path)
    ensures SeenFrom(dir, path, dir + "/" + path)
  {
    ComponentsAtSlash(dir, path);
  }

  lemma Joined(dir: string, path: string)
    ensures SeenFrom(dir, path, JoinDir(dir, path))
  {
    if !("/" <= path) {
      if dir != "" && dir[|dir| - 1] == '/' { TrailingSlash(dir, path); } else { NoTrailingSlash(dir, path); }
    }
  }

  /** A WORKDIR changes to the substituted path, seen from the directory so far. */
  lemma WorkdirChanges(e: BuildEngine, path: string, scope: Scope)
    ensures match Substituted(path, scope.vars)
            case None => e.ScopeAfter(Workdir(path), scope) == None
            case Some(p) =>
              && e.ScopeAfter(Workdir(path), scope).Some?
              && SeenFrom(scope.workingDir, p, e.ScopeAfter(Workdir(path), scope).value.workingDir)
  {
    match Substituted(path, scope.vars)
    case None =>
    case Some(p) =>
      Joined(scope.workingDir, p);
  }

  /** Sources of a COPY or ADD from the host are seen from the context directory. */
  lemma ContextSources(e: BuildEngine, sources: seq<string>, i: nat)
    requires i < |sources|
    ensures |e.InContext(sources)| == |sources|
    ensures if e.contextDir == "" then e.InContext(sources)[i] == sources[i]
            else SeenFrom(e.contextDir, sources[i], e.InContext(sources)[i])
  {
    var dir, p := e.contextDir, sources[i];
    if dir == "" {
      assert dir + p == p;
    } else if !("/" <= p) {
      if dir[|dir| - 1] == '/' { TrailingSlash(dir, p); } else { NoTrailingSlash(dir, p); }
    }
  }

  // ── Stages ──────────────────────────────────────────────────────────

  /** A stage starts from another one exactly when its substituted FROM is the number or the alias of
      a stage, and then names it to the guest. */
  lemma StageBegins(e: BuildEngine, stage: Stage, image: string)
    requires Substituted(stage.image, e.GlobalVars(|e.globalArgs|)) == Some(image)
    ensures var calls := e.StagePlan(stage).calls;
            && calls != [] && calls[0].OverlayInit?
            && (calls[0].lower == Some(image) || calls[0].lower == None)
            && (calls[0].lower.Some? <==>
                NumberOf(image, |e.stages|).Some? || exists k | 0 <= k < |e.stages| :: e.stages[k].alias == Some(image))
            && e.BaseImage(stage) == (if calls[0].lower.Some? then None else Some(image))
  {
    var p := Plan([OverlayInit(e.Lower(image))], true);
    assert Join(p, e.InstructionsPlan(stage.instructions)).calls[0] == p.calls[0];
  }

  /** The scope every stage starts with: a first RUN goes to the default shell, in the root, with no
      environment, and is followed by its layer. */
  lemma FirstRun(e: BuildEngine, command: string)
    requires '$' !in command
    ensures e.InstructionsPlan([Run(ShellForm(command), [])]) ==
            Plan([Exec(["/bin/sh", "-c", command], map[], "/"), SnapshotLayer, FlattenOverlay], true)
  {
    var run := Run(ShellForm(command), []);
    assert [run][..0] == [];
    Literal(command, map[]);
    var call := Exec(["/bin/sh", "-c", command], map[], "/");
    assert ["/bin/sh", "-c"] + [command] == ["/bin/sh", "-c", command];
    assert SetupCalls([]) == [] && TeardownCalls([]) == [];
    assert [] + ([call] + []) + [SnapshotLayer, FlattenOverlay] == [call, SnapshotLayer, FlattenOverlay];
    assert e.InstructionsPlan([]) == Plan([], true);
  }

  /** Text without a dollar sign is itself. */
  lemma {:induction false} Literal(s: string, vars: Vars)
    requires '$' !in s
    ensures Substituted(s, vars) == Some(s)
    decreases |s|
  {
    if s == "" {
      EmptyForm(vars);
    } else {
      Literal(s[1..], vars);
      PlainForm(s[0], s[1..], vars);
      assert s == [s[0]] + s[1..];
    }
  }
}
