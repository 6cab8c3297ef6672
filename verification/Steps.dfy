/** The step language of a scenario and variable substitution over it. */
module Steps {
  import opened Json
  import opened Template

  datatype Retry = Retry(attempts: nat, delayMs: nat)

  /** An action with its input. */
  datatype Call = Call(action: string, input: Option<Value>)

  /** `path` is a string in every authored scenario; an exact placeholder can turn
      it into any value. */
  datatype Condition = Condition(path: Value, equals: Value)

  /** Authored and resolved steps; a resolved step contains no `Fragment`. */
  datatype Step =
    | Task(id: string, call: Call, retry: Option<Retry>, timeout: Option<nat>, compensate: Option<Call>)
    | Poll(id: string, call: Call, until: Condition, intervalMs: nat, retry: Option<Retry>, timeout: Option<nat>)
    | Parallel(id: string, timeout: Option<nat>, steps: seq<Step>)
    | Repeat(id: string, timeout: Option<nat>, times: nat, steps: seq<Step>)
    | Branch(id: string, timeout: Option<nat>, when: Condition, thens: seq<Step>, elses: seq<Step>)
    | Fragment(id: string, useFragment: string)

  type Fragments = map<string, seq<Step>>

  function Size(s: Step): (n: nat)
    ensures n > 0
    decreases s, 1
  {
    match s
    case Parallel(_, _, steps) => 1 + SizeAll(steps)
    case Repeat(_, _, _, steps) => 1 + SizeAll(steps)
    case Branch(_, _, _, thens, elses) => 1 + SizeAll(thens) + SizeAll(elses)
    case _ => 1
  }

  function SizeAll(steps: seq<Step>): nat
    decreases steps, 0
  {
    if steps == [] then 0 else Size(steps[0]) + SizeAll(steps[1..])
  }

  /** `${prefix}.${id}`, or the bare id at the top of a phase. */
  function Join(prefix: string, id: string): string {
    if prefix == "" then id else prefix + "." + id
  }

  // ----- substitution -----

  function SubstInput(input: Option<Value>, vars: Record): Result<Option<Value>> {
    match input
    case None => Ok(None)
    case Some(v) => var w :- Subst(v, vars); Ok(Some(w))
  }

  function SubstCall(c: Call, vars: Record): Result<Call> {
    var input :- SubstInput(c.input, vars);
    Ok(c.(input := input))
  }

  function SubstCondition(c: Condition, vars: Record): Result<Condition> {
    var path :- Subst(c.path, vars);
    var equals :- Subst(c.equals, vars);
    Ok(Condition(path, equals))
  }

  /** Substitute in the step's own fields and leave nested steps as authored. */
  function SubstOwn(s: Step, vars: Record): (r: Result<Step>)
    ensures r.Ok? ==> r.value.id == s.id && Size(r.value) == Size(s)
    ensures r.Ok? ==> (r.value.Fragment? <==> s.Fragment?)
  {
    match s
    case Task(id, call, retry, timeout, compensate) =>
      var call' :- SubstCall(call, vars);
      (match compensate
       case None => Ok(Task(id, call', retry, timeout, None))
       case Some(c) => var c' :- SubstCall(c, vars); Ok(Task(id, call', retry, timeout, Some(c'))))
    case Poll(id, call, until, intervalMs, retry, timeout) =>
      var call' :- SubstCall(call, vars);
      var until' :- SubstCondition(until, vars);
      Ok(Poll(id, call', until', intervalMs, retry, timeout))
    case Branch(id, timeout, when, thens, elses) =>
      var when' :- SubstCondition(when, vars);
      Ok(Branch(id, timeout, when', thens, elses))
    case _ => Ok(s)
  }

  /** Substitute in the step and in everything nested in it. */
  function SubstStep(s: Step, vars: Record): (r: Result<Step>)
    ensures r.Ok? ==> r.value.id == s.id && Size(r.value) == Size(s)
    ensures r.Ok? && s.Fragment? ==> r.value == s
    ensures r.Ok? && !s.Fragment? ==> !r.value.Fragment?
    decreases s, 1
  {
    var own :- SubstOwn(s, vars);
    match s
    case Parallel(id, timeout, steps) =>
      var steps' :- SubstSteps(steps, vars);
      Ok(Parallel(id, timeout, steps'))
    case Repeat(id, timeout, times, steps) =>
      var steps' :- SubstSteps(steps, vars);
      Ok(Repeat(id, timeout, times, steps'))
    case Branch(id, timeout, _, thens, elses) =>
      var thens' :- SubstSteps(thens, vars);
      var elses' :- SubstSteps(elses, vars);
      Ok(Branch(id, timeout, own.when, thens', elses'))
    case _ => Ok(own)
  }

  function SubstSteps(steps: seq<Step>, vars: Record): (r: Result<seq<Step>>)
    ensures r.Ok? ==> SizeAll(r.value) == SizeAll(steps) && |r.value| == |steps|
    decreases steps, 0
  {
    if steps == [] then Ok([])
    else
      var head :- SubstStep(steps[0], vars);
      var tail :- SubstSteps(steps[1..], vars);
      assert ([head] + tail)[1..] == tail;
      Ok([head] + tail)
  }

  // ----- when nested substitution is harmless -----

  predicate StableInput(input: Option<Value>, vars: Record) { input.Some? ==> Stable(input.value, vars) }

  predicate StableCondition(c: Condition, vars: Record) { Stable(c.path, vars) && Stable(c.equals, vars) }

  /** A second substitution changes nothing in the step and in the steps nested in it. */
  predicate StableStep(s: Step, vars: Record)
    decreases s, 1
  {
    match s
    case Task(_, call, _, _, compensate) =>
      StableInput(call.input, vars) && (compensate.Some? ==> StableInput(compensate.value.input, vars))
    case Poll(_, call, until, _, _, _) => StableInput(call.input, vars) && StableCondition(until, vars)
    case Parallel(_, _, steps) => StableSteps(steps, vars)
    case Repeat(_, _, _, steps) => StableSteps(steps, vars)
    case Branch(_, _, when, thens, elses) =>
      StableCondition(when, vars) && StableSteps(thens, vars) && StableSteps(elses, vars)
    case Fragment(_, _) => true
  }

  predicate StableSteps(steps: seq<Step>, vars: Record)
    decreases steps, 0
  {
    forall s | s in steps :: StableStep(s, vars)
  }

  lemma OwnTwice(s: Step, vars: Record)
    requires StableStep(s, vars) && SubstOwn(s, vars).Ok?
    ensures SubstOwn(SubstOwn(s, vars).value, vars) == SubstOwn(s, vars)
  {
  }

  // ----- a condition on the authored text -----

  predicate TemplatedInput(input: Option<Value>) { input.Some? ==> Templated(input.value) }

  /** Every opening brace in the step, or in a step nested in it, belongs to a placeholder. */
  predicate TemplatedStep(s: Step)
    decreases s, 1
  {
    match s
    case Task(_, call, _, _, compensate) =>
      TemplatedInput(call.input) && (compensate.Some? ==> TemplatedInput(compensate.value.input))
    case Poll(_, call, until, _, _, _) =>
      TemplatedInput(call.input) && Templated(until.path) && Templated(until.equals)
    case Parallel(_, _, steps) => TemplatedSteps(steps)
    case Repeat(_, _, _, steps) => TemplatedSteps(steps)
    case Branch(_, _, when, thens, elses) =>
      Templated(when.path) && Templated(when.equals) && TemplatedSteps(thens) && TemplatedSteps(elses)
    case Fragment(_, _) => true
  }

  predicate TemplatedSteps(steps: seq<Step>)
    decreases steps, 0
  {
    forall s | s in steps :: TemplatedStep(s)
  }

  /** Brace-free variable values and text without stray braces make steps stable. */
  lemma {:induction false} BraceFreeStepsStable(steps: seq<Step>, vars: Record)
    requires TemplatedSteps(steps) && PlainRecord(vars)
    ensures StableSteps(steps, vars)
    decreases steps, 0
  {
    forall s | s in steps ensures StableStep(s, vars) { BraceFreeStepStable(s, vars); }
  }

  lemma {:induction false} BraceFreeStepStable(s: Step, vars: Record)
    requires TemplatedStep(s) && PlainRecord(vars)
    ensures StableStep(s, vars)
    decreases s, 1
  {
    forall v | Templated(v) ensures Stable(v, vars) { BraceFreeIsStable(v, vars); }
    match s
    case Parallel(_, _, steps) => BraceFreeStepsStable(steps, vars);
    case Repeat(_, _, _, steps) => BraceFreeStepsStable(steps, vars);
    case Branch(_, _, _, thens, elses) =>
      BraceFreeStepsStable(thens, vars);
      BraceFreeStepsStable(elses, vars);
    case _ =>
  }
}
