/** Which build stages a target needs. */
module Stages {
  import opened Numbers
  import opened Wrappers
  import opened Decimal
  import opened Dockerfile

  function Position(stages: seq<Stage>, name: string, i: nat): (r: Option<nat>)
    requires i <= |stages|
    ensures r.Some? ==> i <= r.value < |stages| && stages[r.value].alias == Some(name)
    ensures r.Some? ==> forall k | i <= k < r.value :: stages[k].alias != Some(name)
    ensures r.None? ==> forall k | i <= k < |stages| :: stages[k].alias != Some(name)
    decreases |stages| - i
  {
    if i == |stages| then None
    else if stages[i].alias == Some(name) then Some(i)
    else Position(stages, name, i + 1)
  }

  /** The stage index a reference spells out, if there is a stage of that index. */
  ghost function NumberOf(reference: string, count: nat): Option<nat> {
    var n := ParseUnsigned(reference, U64_MAX);
    if n.Some? && n.value < count then n else None
  }

  /** `resolve_stage_ref`: an index in range, or else the first stage with that alias. */
  function ResolveStageRef(reference: string, stages: seq<Stage>): (r: Option<nat>)
    ensures match NumberOf(reference, |stages|)
            case Some(n) => r == Some(n)
            case None =>
              && (r.Some? ==> r.value < |stages| && stages[r.value].alias == Some(reference))
              && (r.Some? ==> forall k | 0 <= k < r.value :: stages[k].alias != Some(reference))
              && (r.None? ==> forall k | 0 <= k < |stages| :: stages[k].alias != Some(reference))
    ensures r.Some? ==> r.value < |stages|
  {
    var idx := ParseUnsigned(reference, U64_MAX);
    if idx.Some? && idx.value < |stages| then idx else Position(stages, reference, 0)
  }

  /** The raw text of a stage's references: its FROM image and every COPY --from. */
  predicate Mentions(stage: Stage, reference: string) {
    || stage.image == reference
    || exists k | 0 <= k < |stage.instructions| ::
         stage.instructions[k].Copy? && stage.instructions[k].from == Some(reference)
  }

  ghost predicate DependsOn(stages: seq<Stage>, i: nat, j: nat) {
    i < |stages| && exists reference :: Mentions(stages[i], reference) && ResolveStageRef(reference, stages) == Some(j)
  }

  /** s is closed under unsubstituted references. */
  ghost predicate Closed(stages: seq<Stage>, s: set<nat>) {
    && (forall i | i in s :: i < |stages|)
    && (forall i, j | i in s && DependsOn(stages, i, j) :: j in s)
  }

  /** The least closed set that holds the target. */
  ghost predicate Needs(stages: seq<Stage>, target: nat, s: set<nat>) {
    && target in s && Closed(stages, s)
    && (forall c | Closed(stages, c) && target in c :: s <= c)
  }

  ghost function Below(n: nat): (s: set<nat>)
    ensures forall i: nat :: i in s <==> i < n
  {
    if n == 0 then {} else Below(n - 1) + {n - 1}
  }

  /** The set s in ascending order. */
  ghost predicate Lists(order: seq<nat>, s: set<nat>) {
    Ascending(order) && forall i :: i in order <==> i in s
  }

  /** All stages in order, or in ascending order those the target needs. */
  ghost predicate Selection(stages: seq<Stage>, target: Option<string>, order: seq<nat>) {
    match target
    case None => |order| == |stages| && forall i | 0 <= i < |stages| :: order[i] == i
    case Some(name) =>
      var t := Position(stages, name, 0);
      t.Some? && exists s :: Needs(stages, t.value, s) && Lists(order, s)
  }

  /** Pushing the dependencies of one stage. */
  method PushDependencies(stages: seq<Stage>, idx: nat, queue: seq<nat>) returns (q: seq<nat>)
    requires idx < |stages|
    ensures forall j :: j in q <==> j in queue || DependsOn(stages, idx, j)
  {
    var stage := stages[idx];
    q := queue;
    var dep := ResolveStageRef(stage.image, stages);
    if dep.Some? {
      q := q + [dep.value];
    }
    assert Mentions(stage, stage.image);
    for k := 0 to |stage.instructions|
      invariant forall j :: j in q <==> j in queue || (dep == Some(j)) || CopyRefBefore(stages, stage, k, j)
    {
      var instr := stage.instructions[k];
      if instr.Copy? && instr.from.Some? {
        var d := ResolveStageRef(instr.from.value, stages);
        if d.Some? {
          q := q + [d.value];
        }
      }
    }
    forall j: nat
      ensures DependsOn(stages, idx, j) <==> dep == Some(j) || CopyRefBefore(stages, stage, |stage.instructions|, j)
    {
      if CopyRefBefore(stages, stage, |stage.instructions|, j) {
        var k :| 0 <= k < |stage.instructions| && CopyRefTo(stages, stage.instructions[k], j);
        assert Mentions(stage, stage.instructions[k].from.value);
      }
    }
  }

  ghost predicate CopyRefTo(stages: seq<Stage>, instr: Instruction, j: nat) {
    instr.Copy? && instr.from.Some? && ResolveStageRef(instr.from.value, stages) == Some(j)
  }

  ghost predicate CopyRefBefore(stages: seq<Stage>, stage: Stage, n: nat, j: nat)
    requires n <= |stage.instructions|
  {
    exists k | 0 <= k < n :: CopyRefTo(stages, stage.instructions[k], j)
  }

  /** `resolve_needed_stages`: a worklist over any reference graph, cyclic ones included. */
  method ResolveNeededStages(stages: seq<Stage>, target: Option<string>)
    returns (r: Result<seq<nat>, string>, ghost needs: set<nat>)
    ensures target == None ==> r.Ok? && |r.value| == |stages| && forall i | 0 <= i < |stages| :: r.value[i] == i
    ensures target.Some? ==>
              match Position(stages, target.value, 0)
              case None => r.Err?
              case Some(t) => r.Ok? && Needs(stages, t, needs) && Lists(r.value, needs)
    ensures r.Ok? ==> Selection(stages, target, r.value)
  {
    if target.None? {
      return Ok(seq(|stages|, i => i)), {};
    }
    var t := Position(stages, target.value, 0);
    if t.None? {
      return Err(target.value), {};
    }
    var needed: set<nat> := {};
    var queue: seq<nat> := [t.value];
    while queue != []
      invariant Worklist(stages, t.value, needed, queue)
      decreases Below(|stages|) - needed, |queue|
    {
      var idx := queue[|queue| - 1];
      ghost var before := queue;
      queue := queue[..|queue| - 1];
      if idx in needed {
        PopSeen(stages, t.value, needed, before);
        continue;
      }
      queue := PushDependencies(stages, idx, queue);
      PopNew(stages, t.value, needed, before, queue);
      needed := needed + {idx};
    }
    var result := SortedIndices(needed, |stages|);
    r, needs := Ok(result), needed;
  }

  /** What the worklist keeps: every dependency of a visited stage is visited or queued, and
      nothing is in it that some closed set with the target could do without. */
  ghost predicate Worklist(stages: seq<Stage>, t: nat, needed: set<nat>, queue: seq<nat>) {
    && (forall i | i in needed :: i < |stages|)
    && (forall i | i in queue :: i < |stages|)
    && (t in needed || t in queue)
    && (forall i, j | i in needed && DependsOn(stages, i, j) :: j in needed || j in queue)
    && (forall c, i | Closed(stages, c) && t in c && (i in needed || i in queue) :: i in c)
  }

  lemma PopSeen(stages: seq<Stage>, t: nat, needed: set<nat>, queue: seq<nat>)
    requires Worklist(stages, t, needed, queue) && queue != [] && queue[|queue| - 1] in needed
    ensures Worklist(stages, t, needed, queue[..|queue| - 1])
  {
    var rest := queue[..|queue| - 1];
    forall i ensures i in queue <==> i in rest || i == queue[|queue| - 1] {
      assert queue == rest + [queue[|queue| - 1]];
    }
  }

  lemma PopNew(stages: seq<Stage>, t: nat, needed: set<nat>, queue: seq<nat>, next: seq<nat>)
    requires Worklist(stages, t, needed, queue) && queue != []
    requires forall j :: j in next <==> j in queue[..|queue| - 1] || DependsOn(stages, queue[|queue| - 1], j)
    ensures queue[|queue| - 1] < |stages|
    ensures Worklist(stages, t, needed + {queue[|queue| - 1]}, next)
  {
    var rest, idx := queue[..|queue| - 1], queue[|queue| - 1];
    forall i ensures i in queue <==> i in rest || i == idx {
      assert queue == rest + [idx];
    }
    assert idx in queue;
    forall c, i | Closed(stages, c) && t in c && (i in needed + {idx} || i in next) ensures i in c {
      assert idx in c;
    }
  }

  /** The set as an ascending list. */
  method SortedIndices(s: set<nat>, n: nat) returns (r: seq<nat>)
    requires forall i | i in s :: i < n
    ensures Lists(r, s)
  {
    r := [];
    for i := 0 to n
      invariant Ascending(r) && forall j :: j in r <==> j in s && j < i
    {
      if i in s {
        forall k | 0 <= k < |r| ensures r[k] < i { assert r[k] in r; }
        r := r + [i];
      }
    }
  }

  // ── What the selection is good for ──────────────────────────────────

  lemma NeedsUnique(stages: seq<Stage>, target: nat, s: set<nat>, s': set<nat>)
    requires Needs(stages, target, s) && Needs(stages, target, s')
    ensures s == s'
  {
  }

  ghost predicate RefersBackwards(stages: seq<Stage>) {
    forall i, j | DependsOn(stages, i, j) :: j < i
  }

  /** The stage built last is the target exactly when nothing it needs stands after it. */
  lemma LastIsTarget(stages: seq<Stage>, target: nat, s: set<nat>, r: seq<nat>)
    requires Needs(stages, target, s) && Lists(r, s)
    ensures r != [] && (r[|r| - 1] == target <==> forall i | i in s :: i <= target)
  {
    assert target in r;
    var k :| 0 <= k < |r| && r[k] == target;
    assert r[|r| - 1] in r;
    forall i | i in s ensures i <= r[|r| - 1] {
      assert i in r;
    }
  }

  /** With backward references only, dependencies precede dependents and the target is last. */
  lemma BackwardReferencesOrder(stages: seq<Stage>, target: nat, s: set<nat>, r: seq<nat>)
    requires RefersBackwards(stages) && Needs(stages, target, s) && Lists(r, s)
    ensures r != [] && r[|r| - 1] == target
    ensures forall a, j | 0 <= a < |r| && DependsOn(stages, r[a], j) ::
              exists b :: 0 <= b < a && r[b] == j
  {
    var c := Below(target + 1);
    assert Closed(stages, c);
    LastIsTarget(stages, target, s, r);
    forall a, j | 0 <= a < |r| && DependsOn(stages, r[a], j)
      ensures exists b :: 0 <= b < a && r[b] == j
    {
      assert r[a] in r && j in s && j in r;
      var b :| 0 <= b < |r| && r[b] == j;
      assert b < a;
    }
  }

  /** The last selected stage is the highest needed one. */
  lemma SelectionEnds(stages: seq<Stage>, name: string, s: set<nat>, last: nat, order: seq<nat>)
    requires Position(stages, name, 0).Some? && Needs(stages, Position(stages, name, 0).value, s)
    requires last in s && forall i | i in s :: i <= last
    requires Selection(stages, Some(name), order)
    ensures order != [] && order[|order| - 1] == last
  {
    var t := Position(stages, name, 0).value;
    var s' :| Needs(stages, t, s') && Lists(order, s');
    NeedsUnique(stages, t, s, s');
    assert last in order;
    assert order[|order| - 1] in order;
  }

  lemma BothNeeded(stages: seq<Stage>)
    requires |stages| == 2 && DependsOn(stages, 0, 1)
    ensures Needs(stages, 0, {0, 1})
  {
    AllClosed(stages);
    assert Below(2) == {0, 1};
    forall c | Closed(stages, c) && 0 in c ensures {0, 1} <= c { assert 1 in c; }
  }

  /** References stay within the file. */
  lemma AllClosed(stages: seq<Stage>)
    ensures Closed(stages, Below(|stages|))
  {
    forall i, j | i in Below(|stages|) && DependsOn(stages, i, j) ensures j in Below(|stages|) {
      var reference :| Mentions(stages[i], reference) && ResolveStageRef(reference, stages) == Some(j);
    }
  }

  /** A forward reference makes the last selected stage another one than the target: here `app`
      copies from the later stage `tools`, both are needed, and `tools` comes last. */
  lemma ForwardReferenceEndsElsewhere() returns (stages: seq<Stage>)
    ensures Position(stages, "app", 0) == Some(0)
    ensures Needs(stages, 0, {0, 1})
    ensures forall order | Selection(stages, Some("app"), order) :: order != [] && order[|order| - 1] == 1
  {
    stages := ForwardStages();
    ForwardDepends();
    BothNeeded(stages);
    forall order | Selection(stages, Some("app"), order) ensures order != [] && order[|order| - 1] == 1 {
      SelectionEnds(stages, "app", {0, 1}, 1, order);
    }
  }

  ghost function ForwardStages(): seq<Stage> {
    [Stage("alpine", Some("app"), [Copy(["/bin/tool"], "/bin/", Some("tools"))]), Stage("alpine", Some("tools"), [])]
  }

  lemma ForwardDepends()
    ensures Position(ForwardStages(), "app", 0) == Some(0) && DependsOn(ForwardStages(), 0, 1)
  {
    var stages := ForwardStages();
    assert !AllDigits("tools") by { assert !IsDigit("tools"[0]); }
    assert ResolveStageRef("tools", stages) == Position(stages, "tools", 0) == Position(stages, "tools", 1) == Some(1);
    assert stages[0].instructions[0].from == Some("tools");
    assert Mentions(stages[0], "tools");
  }
}
