/** Expansion of named fragments into a resolved step tree. */
module Resolver {
  import opened Json
  import opened Template
  import opened Steps

  /** What a scenario's steps may refer to. */
  datatype Scope = Scope(frags: Fragments, vars: Record)

  function Elems(stack: seq<string>): set<string> { set f | f in stack }

  /** Fragments that can still be entered below `stack`. */
  function Remaining(frags: Fragments, stack: seq<string>): nat { |frags.Keys - Elems(stack)| }

  lemma EnteringShrinks(frags: Fragments, stack: seq<string>, name: string)
    requires name in frags && name !in stack
    ensures Remaining(frags, stack + [name]) < Remaining(frags, stack)
  {
    var before, after := frags.Keys - Elems(stack), frags.Keys - Elems(stack + [name]);
    assert after == before - {name};
    assert name in before;
  }

  /** The source's `expand`: nested steps are substituted again at every level. */
  function Expand(steps: seq<Step>, scope: Scope, stack: seq<string>, prefix: string): Result<seq<Step>>
    decreases Remaining(scope.frags, stack), SizeAll(steps), 1
  {
    if steps == [] then Ok([])
    else
      var step := steps[0];
      var id := Join(prefix, step.id);
      var head :- (
        if step.Fragment? then
          if step.useFragment in stack then Err(FragmentCycle(stack + [step.useFragment]))
          else if step.useFragment !in scope.frags then Err(UnknownFragment(step.useFragment))
          else
            EnteringShrinks(scope.frags, stack, step.useFragment);
            Expand(scope.frags[step.useFragment], scope, stack + [step.useFragment], id)
        else
          var r :- ResolveStep(step, id, scope, stack);
          Ok([r]));
      var tail :- Expand(steps[1..], scope, stack, prefix);
      Ok(head + tail)
  }

  function ResolveStep(step: Step, id: string, scope: Scope, stack: seq<string>): Result<Step>
    requires !step.Fragment?
    decreases Remaining(scope.frags, stack), Size(step), 0
  {
    var mapped :- SubstStep(step, scope.vars);
    match mapped
    case Parallel(_, timeout, steps) =>
      var steps' :- Expand(steps, scope, stack, id);
      Ok(Parallel(id, timeout, steps'))
    case Repeat(_, timeout, times, steps) =>
      var steps' :- Expand(steps, scope, stack, id);
      Ok(Repeat(id, timeout, times, steps'))
    case Branch(_, timeout, when, thens, elses) =>
      var thens' :- Expand(thens, scope, stack, id + ".then");
      var elses' :- Expand(elses, scope, stack, id + ".else");
      Ok(Branch(id, timeout, when, thens', elses'))
    case Task(_, call, retry, timeout, compensate) => Ok(Task(id, call, retry, timeout, compensate))
    case Poll(_, call, until, intervalMs, retry, timeout) => Ok(Poll(id, call, until, intervalMs, retry, timeout))
  }

  /** Two expansions in a row; the first error is the outcome. */
  function Then(a: Result<seq<Step>>, b: Result<seq<Step>>): Result<seq<Step>> {
    var x :- a;
    var y :- b;
    Ok(x + y)
  }

  lemma ThenAssociative(a: Result<seq<Step>>, b: Result<seq<Step>>, c: Result<seq<Step>>)
    ensures Then(Then(a, b), c) == Then(a, Then(b, c))
  {
    if a.Ok? && b.Ok? && c.Ok? { assert (a.value + b.value) + c.value == a.value + (b.value + c.value); }
  }

  /** What one step contributes. */
  function ExpandStep(step: Step, scope: Scope, stack: seq<string>, prefix: string): Result<seq<Step>> {
    var id := Join(prefix, step.id);
    if step.Fragment? then
      if step.useFragment in stack then Err(FragmentCycle(stack + [step.useFragment]))
      else if step.useFragment !in scope.frags then Err(UnknownFragment(step.useFragment))
      else Expand(scope.frags[step.useFragment], scope, stack + [step.useFragment], id)
    else
      var r :- ResolveStep(step, id, scope, stack);
      Ok([r])
  }

  lemma ExpandCons(steps: seq<Step>, scope: Scope, stack: seq<string>, prefix: string)
    requires steps != []
    ensures Expand(steps, scope, stack, prefix) ==
            Then(ExpandStep(steps[0], scope, stack, prefix), Expand(steps[1..], scope, stack, prefix))
  {
  }

  lemma {:induction false} ExpandConcat(a: seq<Step>, b: seq<Step>, scope: Scope, stack: seq<string>, prefix: string)
    ensures Expand(a + b, scope, stack, prefix) ==
            Then(Expand(a, scope, stack, prefix), Expand(b, scope, stack, prefix))
  {
    var rest := Expand(b, scope, stack, prefix);
    if a == [] {
      assert a + b == b;
      if rest.Ok? { assert [] + rest.value == rest.value; }
    } else {
      assert (a + b)[1..] == a[1..] + b;
      ExpandConcat(a[1..], b, scope, stack, prefix);
      ExpandCons(a, scope, stack, prefix);
      ExpandCons(a + b, scope, stack, prefix);
      ThenAssociative(ExpandStep(a[0], scope, stack, prefix), Expand(a[1..], scope, stack, prefix), rest);
    }
  }

  lemma ExpandOne(step: Step, scope: Scope, stack: seq<string>, prefix: string)
    ensures Expand([step], scope, stack, prefix) == ExpandStep(step, scope, stack, prefix)
  {
    assert [step][1..] == [];
    ExpandCons([step], scope, stack, prefix);
    var r := ExpandStep(step, scope, stack, prefix);
    if r.Ok? { assert r.value + [] == r.value; }
  }

  lemma {:induction false} FirstErrorWins(steps: seq<Step>, i: nat, scope: Scope, stack: seq<string>, prefix: string)
    requires i <= |steps| && Expand(steps[..i], scope, stack, prefix).Err?
    ensures Expand(steps, scope, stack, prefix) == Expand(steps[..i], scope, stack, prefix)
    decreases |steps| - i
  {
    if i < |steps| {
      assert steps[..i + 1] == steps[..i] + [steps[i]];
      ExpandConcat(steps[..i], [steps[i]], scope, stack, prefix);
      FirstErrorWins(steps, i + 1, scope, stack, prefix);
    } else {
      assert steps[..i] == steps;
    }
  }

  /** The loop of `expand`: push the expansion of each step, stop at the first error. */
  method ExpandSteps(steps: seq<Step>, scope: Scope, stack: seq<string>, prefix: string)
      returns (r: Result<seq<Step>>)
    ensures r == Expand(steps, scope, stack, prefix)
    decreases Remaining(scope.frags, stack), SizeAll(steps), 2
  {
    var result: seq<Step> := [];
    var i := 0;
    while i < |steps|
      invariant 0 <= i <= |steps|
      invariant Expand(steps[..i], scope, stack, prefix) == Ok(result)
    {
      SizeAt(steps, i);
      var part := ExpandPart(steps[i], scope, stack, prefix);
      OneMore(steps, i, scope, stack, prefix);
      if part.Err? {
        FirstErrorWins(steps, i + 1, scope, stack, prefix);
        return Err(part.error);
      }
      result := result + part.value;
      i := i + 1;
    }
    assert steps[..|steps|] == steps;
    r := Ok(result);
  }

  /** What the loop pushes for one step. */
  method ExpandPart(step: Step, scope: Scope, stack: seq<string>, prefix: string) returns (r: Result<seq<Step>>)
    ensures r == ExpandStep(step, scope, stack, prefix)
    decreases Remaining(scope.frags, stack), Size(step), 1
  {
    var id := Join(prefix, step.id);
    if step.Fragment? {
      if step.useFragment in stack { return Err(FragmentCycle(stack + [step.useFragment])); }
      if step.useFragment !in scope.frags { return Err(UnknownFragment(step.useFragment)); }
      EnteringShrinks(scope.frags, stack, step.useFragment);
      r := ExpandSteps(scope.frags[step.useFragment], scope, stack + [step.useFragment], id);
    } else {
      var one := ResolveOne(step, id, scope, stack);
      r := match one case Ok(s) => Ok([s]) case Err(e) => Err(e);
    }
  }

  lemma OneMore(steps: seq<Step>, i: nat, scope: Scope, stack: seq<string>, prefix: string)
    requires i < |steps|
    ensures Expand(steps[..i + 1], scope, stack, prefix) ==
            Then(Expand(steps[..i], scope, stack, prefix), ExpandStep(steps[i], scope, stack, prefix))
  {
    assert steps[..i + 1] == steps[..i] + [steps[i]];
    ExpandOne(steps[i], scope, stack, prefix);
    ExpandConcat(steps[..i], [steps[i]], scope, stack, prefix);
  }

  lemma {:induction false} SizeAt(steps: seq<Step>, i: nat)
    requires i < |steps|
    ensures Size(steps[i]) <= SizeAll(steps)
  {
    if i == 0 {
    } else {
      SizeAt(steps[1..], i - 1);
    }
  }

  method ResolveOne(step: Step, id: string, scope: Scope, stack: seq<string>) returns (r: Result<Step>)
    requires !step.Fragment?
    ensures r == ResolveStep(step, id, scope, stack)
    decreases Remaining(scope.frags, stack), Size(step), 0
  {
    var mapped := SubstStep(step, scope.vars);
    if mapped.Err? { return mapped; }
    match mapped.value {
      case Parallel(_, timeout, steps) =>
        var steps' := ExpandSteps(steps, scope, stack, id);
        r := match steps' case Ok(s) => Ok(Parallel(id, timeout, s)) case Err(e) => Err(e);
      case Repeat(_, timeout, times, steps) =>
        var steps' := ExpandSteps(steps, scope, stack, id);
        r := match steps' case Ok(s) => Ok(Repeat(id, timeout, times, s)) case Err(e) => Err(e);
      case Branch(_, timeout, when, thens, elses) =>
        var thens' := ExpandSteps(thens, scope, stack, id + ".then");
        if thens'.Err? { return Err(thens'.error); }
        var elses' := ExpandSteps(elses, scope, stack, id + ".else");
        r := match elses' case Ok(s) => Ok(Branch(id, timeout, when, thens'.value, s)) case Err(e) => Err(e);
      case Task(_, call, retry, timeout, compensate) => r := Ok(Task(id, call, retry, timeout, compensate));
      case Poll(_, call, until, intervalMs, retry, timeout) =>
        r := Ok(Poll(id, call, until, intervalMs, retry, timeout));
    }
  }

  // ----- the same expansion with each step substituted exactly once -----

  function Inline(steps: seq<Step>, scope: Scope, stack: seq<string>, prefix: string): Result<seq<Step>>
    decreases Remaining(scope.frags, stack), SizeAll(steps), 1
  {
    if steps == [] then Ok([])
    else
      var step := steps[0];
      var id := Join(prefix, step.id);
      var head :- (
        if step.Fragment? then
          if step.useFragment in stack then Err(FragmentCycle(stack + [step.useFragment]))
          else if step.useFragment !in scope.frags then Err(UnknownFragment(step.useFragment))
          else
            EnteringShrinks(scope.frags, stack, step.useFragment);
            Inline(scope.frags[step.useFragment], scope, stack + [step.useFragment], id)
        else
          var own :- SubstOwn(step, scope.vars);
          var r :- InlineChildren(step, own, id, scope, stack);
          Ok([r]));
      var tail :- Inline(steps[1..], scope, stack, prefix);
      Ok(head + tail)
  }

  /** `own` with the id `id` and the nested steps of `step` expanded below it. */
  function InlineChildren(step: Step, own: Step, id: string, scope: Scope, stack: seq<string>): Result<Step>
    decreases Remaining(scope.frags, stack), Size(step), 0
  {
    match step
    case Parallel(_, timeout, steps) =>
      var steps' :- Inline(steps, scope, stack, id);
      Ok(Parallel(id, timeout, steps'))
    case Repeat(_, timeout, times, steps) =>
      var steps' :- Inline(steps, scope, stack, id);
      Ok(Repeat(id, timeout, times, steps'))
    case Branch(_, timeout, when, thens, elses) =>
      var thens' :- Inline(thens, scope, stack, id + ".then");
      var elses' :- Inline(elses, scope, stack, id + ".else");
      Ok(Branch(id, timeout, if own.Branch? then own.when else when, thens', elses'))
    case _ =>
      match own
      case Task(_, call, retry, timeout, compensate) => Ok(Task(id, call, retry, timeout, compensate))
      case Poll(_, call, until, intervalMs, retry, timeout) => Ok(Poll(id, call, until, intervalMs, retry, timeout))
      case _ => Ok(own)
  }

  /** The assumption under which repeated substitution is harmless. */
  predicate StableScope(scope: Scope) {
    forall name | name in scope.frags :: StableSteps(scope.frags[name], scope.vars)
  }

  function InlineStep(step: Step, id: string, scope: Scope, stack: seq<string>): Result<Step> {
    var own :- SubstOwn(step, scope.vars);
    InlineChildren(step, own, id, scope, stack)
  }

  /** Brace-free variable values and fragments without stray braces make the scope stable. */
  lemma BraceFreeScopeStable(scope: Scope)
    requires PlainRecord(scope.vars) && forall name | name in scope.frags :: TemplatedSteps(scope.frags[name])
    ensures StableScope(scope)
  {
    forall name | name in scope.frags ensures StableSteps(scope.frags[name], scope.vars) {
      BraceFreeStepsStable(scope.frags[name], scope.vars);
    }
  }

  /** Outside stable input the depth of a step shows in its text: with `x` bound to
      `{{y}}` and `y` to `b`, a task with input `{{x}}` gets `{{y}}` at the top of a
      phase and `b` inside a parallel step. */
  lemma DepthCanShow()
    ensures var scope := Scope(map[], [Field("x", Str("{{y}}")), Field("y", Str("b"))]);
            && Expand([TaskOn("t", "{{x}}")], scope, [], "") == Ok([TaskOn("t", "{{y}}")])
            && Expand([Parallel("p", None, [TaskOn("t", "{{x}}")])], scope, [], "") ==
               Ok([Parallel("p", None, [TaskOn("p.t", "b")])])
  {
    var vars := [Field("x", Str("{{y}}")), Field("y", Str("b"))];
    var scope := Scope(map[], vars);
    var t, once, twice := TaskOn("t", "{{x}}"), TaskOn("t", "{{y}}"), TaskOn("p.t", "b");
    SubstTwiceCanDifferByValue();
    TaskExpands("t", "{{x}}", "{{y}}", scope, "");
    TaskExpands("t", "{{y}}", "b", scope, "p");
    assert Join("p", "t") == "p.t";
    TaskSubstituted("t", "{{x}}", "{{y}}", vars);
    assert [t][1..] == [] && [once] + [] == [once];
    assert SubstSteps([t], vars) == Ok([once]);
    ExpandOne(Parallel("p", None, [t]), scope, [], "");
  }

  lemma TaskExpands(id: string, input: string, output: string, scope: Scope, prefix: string)
    requires Subst(Str(input), scope.vars) == Ok(Str(output))
    ensures Expand([TaskOn(id, input)], scope, [], prefix) == Ok([TaskOn(Join(prefix, id), output)])
  {
    TaskSubstituted(id, input, output, scope.vars);
    ExpandOne(TaskOn(id, input), scope, [], prefix);
  }

  function TaskOn(id: string, input: string): Step { Task(id, Call("act", Some(Str(input))), None, None, None) }

  lemma TaskSubstituted(id: string, input: string, output: string, vars: Record)
    requires Subst(Str(input), vars) == Ok(Str(output))
    ensures SubstStep(TaskOn(id, input), vars) == Ok(TaskOn(id, output))
  {
  }
}
