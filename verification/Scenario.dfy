/** A scenario from its authored form to the end of its run. */
module Scenario {
  import opened Json
  import opened Template
  import opened Steps
  import opened Resolver
  import opened StepIds
  import opened Interpreter
  import opened Moves
  import opened MeaningPreserved
  import opened Lifecycle
  import Depth

  /** The phases before the assert phase, the assert phase, and the declarative
      assertions evaluated at its end. */
  datatype Config = Config(before: seq<seq<Step>>, asserts: seq<Step>, assertions: seq<Value>, scope: Scope)

  function ExpandEach(phases: seq<seq<Step>>, scope: Scope): (r: Result<seq<seq<Step>>>)
    ensures r.Ok? ==> |r.value| == |phases|
    ensures r.Ok? ==> forall i | 0 <= i < |phases| :: Expand(phases[i], scope, [], "") == Ok(r.value[i])
  {
    if phases == [] then Ok([])
    else
      var head :- Expand(phases[0], scope, [], "");
      var tail :- ExpandEach(phases[1..], scope);
      Ok([head] + tail)
  }

  /** `resolveScenario` once validation has passed: the resolved phases in order. */
  function Resolve(c: Config): Result<seq<seq<Step>>> {
    var assertions :- Subst(Arr(c.assertions), c.scope.vars);
    var asserts :- Expand(c.asserts, c.scope, [], "");
    var before :- ExpandEach(c.before, c.scope);
    Ok(before + [asserts + if c.assertions == [] then [] else [SystemTask(assertions)]])
  }

  /** The assert phase as if the assertions had been authored as a last task. */
  function AuthoredAsserts(c: Config): seq<Step> {
    c.asserts + if c.assertions == [] then [] else [SystemTask(Arr(c.assertions))]
  }

  function AuthoredPhases(c: Config): seq<seq<Step>> { c.before + [AuthoredAsserts(c)] }

  /** Repeated substitution is harmless in every phase. */
  predicate SettledConfig(c: Config) {
    forall steps | steps in AuthoredPhases(c) :: Depth.Settled(steps, c.scope, [], 0)
  }

  /** Brace-free variable values, and no brace in the text outside placeholders. */
  predicate BraceFree(c: Config) {
    && PlainRecord(c.scope.vars)
    && (forall name | name in c.scope.frags :: TemplatedSteps(c.scope.frags[name]))
    && forall steps | steps in AuthoredPhases(c) :: TemplatedSteps(steps)
  }

  lemma BraceFreeConfigSettled(c: Config)
    requires BraceFree(c)
    ensures SettledConfig(c)
  {
    BraceFreeScopeStable(c.scope);
    forall steps | steps in AuthoredPhases(c) ensures Depth.Settled(steps, c.scope, [], 0) {
      BraceFreeStepsStable(steps, c.scope.vars);
      Depth.StableSettled(steps, c.scope, [], 0);
    }
  }

  /** The resolved phases are those that substitute each text once exactly when it has
      settled. */
  lemma SettledConfigIff(c: Config)
    requires Resolve(c).Ok?
    requires forall steps | steps in AuthoredPhases(c) :: Inline(steps, c.scope, [], "").Ok?
    ensures SettledConfig(c) <==>
              forall i | 0 <= i < |AuthoredPhases(c)| ::
                Inline(AuthoredPhases(c)[i], c.scope, [], "") == Ok(Resolve(c).value[i])
  {
    PhasesExpand(c);
    forall i | 0 <= i < |AuthoredPhases(c)|
      ensures Inline(AuthoredPhases(c)[i], c.scope, [], "") == Ok(Resolve(c).value[i]) <==>
              Depth.Settled(AuthoredPhases(c)[i], c.scope, [], 0)
    {
      assert AuthoredPhases(c)[i] in AuthoredPhases(c);
      Depth.DepthShowsIff(AuthoredPhases(c)[i], c.scope, [], "");
    }
  }

  function Blocks(phases: seq<seq<Step>>, ctx: Ctx): (r: seq<Block>)
    ensures |r| == |phases| && forall i | 0 <= i < |phases| :: r[i] == Block(phases[i], ctx)
  {
    seq(|phases|, i requires 0 <= i < |phases| => Block(phases[i], ctx))
  }

  lemma SystemTaskExpands(assertions: seq<Value>, resolved: Value, scope: Scope)
    requires Subst(Arr(assertions), scope.vars) == Ok(resolved)
    ensures Expand([SystemTask(Arr(assertions))], scope, [], "") == Ok([SystemTask(resolved)])
  {
    var task := SystemTask(Arr(assertions));
    ExpandOne(task, scope, [], "");
    assert SubstStep(task, scope.vars) == Ok(SystemTask(resolved));
  }

  lemma ResolvedAsserts(c: Config)
    requires Resolve(c).Ok?
    ensures Subst(Arr(c.assertions), c.scope.vars).Ok? && Expand(c.asserts, c.scope, [], "").Ok?
    ensures Resolve(c).value[|c.before|] ==
            Expand(c.asserts, c.scope, [], "").value +
            if c.assertions == [] then [] else [SystemTask(Subst(Arr(c.assertions), c.scope.vars).value)]
  {
  }

  /** Resolution treats the appended assertions as one more authored step. */
  lemma AssertsExpand(c: Config)
    requires Resolve(c).Ok?
    ensures Expand(AuthoredAsserts(c), c.scope, [], "") == Ok(Resolve(c).value[|c.before|])
  {
    var assertions := Subst(Arr(c.assertions), c.scope.vars).value;
    var asserts := Expand(c.asserts, c.scope, [], "").value;
    if c.assertions == [] {
      assert c.asserts + [] == c.asserts && asserts + [] == asserts;
    } else {
      SystemTaskExpands(c.assertions, assertions, c.scope);
      ExpandConcat(c.asserts, [SystemTask(Arr(c.assertions))], c.scope, [], "");
    }
  }

  lemma PhasesExpand(c: Config)
    requires Resolve(c).Ok?
    ensures |Resolve(c).value| == |AuthoredPhases(c)|
    ensures forall i | 0 <= i < |AuthoredPhases(c)| ::
              Expand(AuthoredPhases(c)[i], c.scope, [], "") == Ok(Resolve(c).value[i])
  {
    AssertsExpand(c);
  }

  /** The same end of the phases, but for how the activities still going are written. */
  predicate SameEnd(a: PhasesEnd, b: PhasesEnd) { a == b.(proc := a.proc) }

  /** Two machines in the same state but for how the activities are written. */
  predicate SameState(a: State, b: State, scope: Scope) {
    a.store == b.store && a.abort == b.abort && OutcomeOf(a.proc, scope) == OutcomeOf(b.proc, scope)
  }

  /** What a phase does in both forms, also after it has settled. */
  lemma PhaseAgrees(
      authored: seq<Step>, resolved: seq<Step>, abort: Option<Fault>, store: Store, env: Env, moves: seq<Move>,
      late: seq<Move>)
    requires Depth.Settled(authored, env.scope, [], 0) && Expand(authored, env.scope, [], "") == Ok(resolved)
    ensures var a := Play(State(Run(Block(authored, Authored("", []))), abort, store), moves, env);
            var r := Play(State(Run(Block(resolved, Absolute)), abort, store), moves, env);
            SameState(a, r, env.scope) && SameState(Play(a, late, env), Play(r, late, env), env.scope)
  {
    ResolutionPreservesMeaning(authored, env, moves, abort, store);
    ResolutionPreservesMeaning(authored, env, moves + late, abort, store);
    PlayConcat(State(Run(Block(authored, Authored("", []))), abort, store), moves, late, env);
    PlayConcat(State(Run(Block(resolved, Absolute)), abort, store), moves, late, env);
  }

  lemma {:induction false} PhasesAgree(
      authored: seq<seq<Step>>, resolved: seq<seq<Step>>, i: nat, abort: Option<Fault>, store: Store, env: Env,
      w: World)
    requires |authored| == |resolved| == |PHASES| && i <= |PHASES|
    requires forall k | 0 <= k < |PHASES| ::
               Depth.Settled(authored[k], env.scope, [], 0) && Expand(authored[k], env.scope, [], "") == Ok(resolved[k])
    ensures SameEnd(RunPhases(Blocks(authored, Authored("", [])), i, abort, store, env, w),
                    RunPhases(Blocks(resolved, Absolute), i, abort, store, env, w))
    decreases |PHASES| - i
  {
    if i < |PHASES| && abort.None? {
      PhaseAgrees(authored[i], resolved[i], abort, store, env, w.moves(i), w.late);
      var s := Play(State(Run(Block(resolved[i], Absolute)), abort, store), w.moves(i), env);
      PhasesAgree(authored, resolved, i + 1, s.abort, s.store, env, w);
    }
  }

  /** A whole run, in any world: executing the resolved scenario enters the same phases,
      leaves the same outputs, step records, compensations and cleanups behind, and ends
      with the same error as running the authored phases with every fragment in place.
      So both give the same account of compensations, cleanups, leases and verdict. */
  lemma RunPreservesMeaning(c: Config, store: Store, timeoutMs: nat, w: World)
    requires |c.before| + 1 == |PHASES| && SettledConfig(c) && Resolve(c).Ok?
    ensures var env := Env(c.scope, timeoutMs);
            var authored := RunPhases(Blocks(AuthoredPhases(c), Authored("", [])), 0, w.abort, store, env, w);
            var resolved := RunPhases(Blocks(Resolve(c).value, Absolute), 0, w.abort, store, env, w);
            && SameEnd(authored, resolved)
            && forall r :: Accounted(r, authored, w) <==> Accounted(r, resolved, w)
  {
    var env := Env(c.scope, timeoutMs);
    PhasesExpand(c);
    forall k | 0 <= k < |PHASES| ensures Depth.Settled(AuthoredPhases(c)[k], c.scope, [], 0) {
      assert AuthoredPhases(c)[k] in AuthoredPhases(c);
    }
    PhasesAgree(AuthoredPhases(c), Resolve(c).value, 0, w.abort, store, env, w);
    forall r: RunReport
      ensures Accounted(r, RunPhases(Blocks(AuthoredPhases(c), Authored("", [])), 0, w.abort, store, env, w), w) <==>
              Accounted(r, RunPhases(Blocks(Resolve(c).value, Absolute), 0, w.abort, store, env, w), w)
    {
      SameAccount(r, RunPhases(Blocks(AuthoredPhases(c), Authored("", [])), 0, w.abort, store, env, w),
                  RunPhases(Blocks(Resolve(c).value, Absolute), 0, w.abort, store, env, w), w);
    }
  }

  lemma SameAccount(r: RunReport, a: PhasesEnd, b: PhasesEnd, w: World)
    requires SameEnd(a, b)
    ensures Accounted(r, a, w) <==> Accounted(r, b, w)
  {
    assert Due(a, w) == Due(b, w);
  }

  /** What `validateUniqueStepIds` visits: labelled phases and fragments. */
  predicate Covers(roots: seq<Root>, c: Config) {
    && SeparateLabels(roots)
    && (forall root | root in roots :: PlainIds(root.steps))
    && (forall steps | steps in c.before + [c.asserts] :: exists root :: root in roots && root.steps == steps)
    && forall f | f in c.scope.frags :: exists root :: root in roots && root.steps == c.scope.frags[f]
  }

  lemma ValidatedUnique(c: Config, roots: seq<Root>)
    requires Covers(roots, c) && Validate(roots, Report({}, [])).issues == []
    ensures UniqueFragments(c.scope.frags) && forall steps | steps in c.before + [c.asserts] :: UniqueSiblings(steps)
  {
    ValidateSound(roots, Report({}, []));
  }

  lemma AssertIdsDistinct(c: Config)
    requires UniqueFragments(c.scope.frags) && UniqueSiblings(c.asserts) && Resolve(c).Ok?
    requires c.assertions != [] ==> forall s | s in c.asserts :: s.id != SYSTEM_ASSERTIONS
    ensures Distinct(Ids(Resolve(c).value[|c.before|]))
  {
    var asserts := Expand(c.asserts, c.scope, [], "").value;
    ResolvedAsserts(c);
    if c.assertions == [] {
      ExpandedIdsDistinct(c.asserts, c.scope, [], "");
      assert asserts + [] == asserts;
    } else {
      AssertPhaseIdsDistinct(c.asserts, c.scope, Subst(Arr(c.assertions), c.scope.vars).value);
    }
  }

  /** A scenario that validation passes has distinct step ids in each resolved phase, the
      assert phase with its appended task included. */
  lemma ResolvedIdsAreDistinct(c: Config, roots: seq<Root>, i: nat)
    requires Covers(roots, c) && Validate(roots, Report({}, [])).issues == []
    requires c.assertions != [] ==> forall s | s in c.asserts :: s.id != SYSTEM_ASSERTIONS
    requires Resolve(c).Ok? && i < |Resolve(c).value|
    ensures Distinct(Ids(Resolve(c).value[i]))
  {
    ValidatedUnique(c, roots);
    if i < |c.before| {
      assert c.before[i] in c.before + [c.asserts];
      ExpandedIdsDistinct(c.before[i], c.scope, [], "");
    } else {
      assert c.asserts in c.before + [c.asserts];
      AssertIdsDistinct(c);
    }
  }
}
