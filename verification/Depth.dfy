/** How often nesting has a text substituted, and exactly when that shows. */
module Depth {
  import opened Json
  import opened Template
  import opened Steps
  import opened Resolver

  function SubstTimes(v: Value, vars: Record, n: nat): Result<Value> {
    if n == 0 then Ok(v)
    else
      var w :- SubstTimes(v, vars, n - 1);
      Subst(w, vars)
  }

  function OwnTimes(s: Step, vars: Record, n: nat): Result<Step> {
    if n == 0 then Ok(s)
    else
      var t :- OwnTimes(s, vars, n - 1);
      SubstOwn(t, vars)
  }

  function StepTimes(s: Step, vars: Record, n: nat): Result<Step> {
    if n == 0 then Ok(s)
    else
      var t :- StepTimes(s, vars, n - 1);
      SubstStep(t, vars)
  }

  function StepsTimes(steps: seq<Step>, vars: Record, n: nat): Result<seq<Step>> {
    if n == 0 then Ok(steps)
    else
      var t :- StepsTimes(steps, vars, n - 1);
      SubstSteps(t, vars)
  }

  // ----- the parts of a step -----

  /** The steps nested in a step: those of a branch that is taken, or all others. */
  function Kids(s: Step): (r: seq<Step>)
    ensures SizeAll(r) < Size(s)
  {
    match s
    case Parallel(_, _, steps) => steps
    case Repeat(_, _, _, steps) => steps
    case Branch(_, _, _, thens, _) => thens
    case _ => []
  }

  function Elses(s: Step): (r: seq<Step>)
    ensures SizeAll(Kids(s)) + SizeAll(r) < Size(s)
  {
    if s.Branch? then s.elses else []
  }

  function KidsId(s: Step, id: string): string { if s.Branch? then id + ".then" else id }

  /** `own` with another id and other nested steps. */
  function Rebuilt(own: Step, id: string, kids: seq<Step>, elses: seq<Step>): Step {
    match own
    case Task(_, call, retry, timeout, compensate) => Task(id, call, retry, timeout, compensate)
    case Poll(_, call, until, intervalMs, retry, timeout) => Poll(id, call, until, intervalMs, retry, timeout)
    case Parallel(_, timeout, _) => Parallel(id, timeout, kids)
    case Repeat(_, timeout, times, _) => Repeat(id, timeout, times, kids)
    case Branch(_, timeout, when, _, _) => Branch(id, timeout, when, kids, elses)
    case Fragment(_, name) => Fragment(id, name)
  }

  /** Steps that differ at most in their own text. */
  predicate SameFrame(s: Step, t: Step) {
    match s
    case Task(id, _, _, _, _) => t.Task? && t.id == id
    case Poll(id, _, _, _, _, _) => t.Poll? && t.id == id
    case Branch(id, timeout, _, thens, elses) => t.Branch? && t == Branch(id, timeout, t.when, thens, elses)
    case _ => t == s
  }

  lemma {:induction false} OwnFrame(s: Step, vars: Record, n: nat)
    requires OwnTimes(s, vars, n).Ok?
    ensures SameFrame(s, OwnTimes(s, vars, n).value)
  {
    if n == 0 {
    } else {
      OwnFrame(s, vars, n - 1);
    }
  }

  lemma SubstParts(s: Step, vars: Record)
    ensures SubstStep(s, vars).Ok? <==>
              SubstOwn(s, vars).Ok? && SubstSteps(Kids(s), vars).Ok? && SubstSteps(Elses(s), vars).Ok?
    ensures SubstStep(s, vars).Ok? ==>
              SubstStep(s, vars).value ==
              Rebuilt(SubstOwn(s, vars).value, s.id, SubstSteps(Kids(s), vars).value, SubstSteps(Elses(s), vars).value)
  {
  }

  /** Own text and nested steps are substituted independently. */
  lemma OwnRebuilt(own: Step, id: string, kids: seq<Step>, elses: seq<Step>, vars: Record)
    ensures SubstOwn(Rebuilt(own, id, kids, elses), vars).Ok? <==> SubstOwn(own, vars).Ok?
    ensures SubstOwn(own, vars).Ok? ==>
              SubstOwn(Rebuilt(own, id, kids, elses), vars) == Ok(Rebuilt(SubstOwn(own, vars).value, id, kids, elses))
  {
  }

  lemma RebuiltTwice(own: Step, id: string, kids: seq<Step>, elses: seq<Step>, kids': seq<Step>, elses': seq<Step>)
    ensures Rebuilt(Rebuilt(own, id, kids, elses), id, kids', elses') == Rebuilt(own, id, kids', elses')
    ensures Kids(Rebuilt(own, id, kids, elses)) == if own.Parallel? || own.Repeat? || own.Branch? then kids else []
    ensures Elses(Rebuilt(own, id, kids, elses)) == if own.Branch? then elses else []
  {
  }

  lemma {:induction false} NoneTimes(vars: Record, n: nat)
    ensures StepsTimes([], vars, n) == Ok([])
  {
    if n == 0 {
    } else {
      NoneTimes(vars, n - 1);
    }
  }

  predicate PartsOk(s: Step, vars: Record, n: nat) {
    OwnTimes(s, vars, n).Ok? && StepsTimes(Kids(s), vars, n).Ok? && StepsTimes(Elses(s), vars, n).Ok?
  }

  function Parts(s: Step, vars: Record, n: nat): Step
    requires PartsOk(s, vars, n)
  {
    Rebuilt(OwnTimes(s, vars, n).value, s.id, StepsTimes(Kids(s), vars, n).value, StepsTimes(Elses(s), vars, n).value)
  }

  lemma NextParts(s: Step, vars: Record, n: nat)
    requires PartsOk(s, vars, n)
    ensures SubstStep(Parts(s, vars, n), vars).Ok? <==> PartsOk(s, vars, n + 1)
    ensures PartsOk(s, vars, n + 1) ==> SubstStep(Parts(s, vars, n), vars) == Ok(Parts(s, vars, n + 1))
  {
    var own, kids := OwnTimes(s, vars, n).value, StepsTimes(Kids(s), vars, n).value;
    var elses := StepsTimes(Elses(s), vars, n).value;
    OwnFrame(s, vars, n);
    NoneTimes(vars, n);
    SubstParts(Parts(s, vars, n), vars);
    OwnRebuilt(own, s.id, kids, elses, vars);
    RebuiltTwice(own, s.id, kids, elses, kids, elses);
    if PartsOk(s, vars, n + 1) {
      RebuiltTwice(OwnTimes(s, vars, n + 1).value, s.id, kids, elses,
                   StepsTimes(Kids(s), vars, n + 1).value, StepsTimes(Elses(s), vars, n + 1).value);
    }
  }

  /** Repeated substitution goes part by part. */
  lemma {:induction false} TimesParts(s: Step, vars: Record, n: nat)
    ensures StepTimes(s, vars, n).Ok? <==> PartsOk(s, vars, n)
    ensures PartsOk(s, vars, n) ==> StepTimes(s, vars, n).value == Parts(s, vars, n)
  {
    if n == 0 {
    } else {
      TimesParts(s, vars, n - 1);
      if PartsOk(s, vars, n - 1) { NextParts(s, vars, n - 1); }
    }
  }

  lemma {:induction false} FewerTimes(steps: seq<Step>, vars: Record, m: nat, n: nat)
    requires m <= n && StepsTimes(steps, vars, n).Ok?
    ensures StepsTimes(steps, vars, m).Ok?
    decreases n
  {
    if m < n { FewerTimes(steps, vars, m, n - 1); }
  }

  lemma SubstCons(steps: seq<Step>, vars: Record)
    requires steps != []
    ensures SubstSteps(steps, vars).Ok? <==> SubstStep(steps[0], vars).Ok? && SubstSteps(steps[1..], vars).Ok?
    ensures SubstSteps(steps, vars).Ok? ==>
              SubstSteps(steps, vars).value == [SubstStep(steps[0], vars).value] + SubstSteps(steps[1..], vars).value
  {
  }

  lemma {:induction false} ListTimes(steps: seq<Step>, vars: Record, n: nat)
    requires steps != []
    ensures StepsTimes(steps, vars, n).Ok? <==> StepTimes(steps[0], vars, n).Ok? && StepsTimes(steps[1..], vars, n).Ok?
    ensures StepsTimes(steps, vars, n).Ok? ==>
              StepsTimes(steps, vars, n).value ==
              [StepTimes(steps[0], vars, n).value] + StepsTimes(steps[1..], vars, n).value
  {
    if n == 0 {
      assert steps == [steps[0]] + steps[1..];
    } else {
      ListTimes(steps, vars, n - 1);
      if StepsTimes(steps, vars, n - 1).Ok? {
        var before := StepsTimes(steps, vars, n - 1).value;
        assert before[1..] == StepsTimes(steps[1..], vars, n - 1).value;
        SubstCons(before, vars);
      }
    }
  }

  // ----- texts that have settled where they stand -----

  /** The own text of every step of the list, which is nested `d` levels deep, and of the
      steps nested in it, is the same after the substitutions it gets there as after one.
      The body of a fragment starts again at the top. */
  predicate Settled(steps: seq<Step>, scope: Scope, stack: seq<string>, d: nat)
    decreases Remaining(scope.frags, stack), SizeAll(steps), 1
  {
    steps == [] || (SettledStep(steps[0], scope, stack, d) && Settled(steps[1..], scope, stack, d))
  }

  predicate SettledStep(s: Step, scope: Scope, stack: seq<string>, d: nat)
    decreases Remaining(scope.frags, stack), Size(s), 0
  {
    if s.Fragment? then
      (s.useFragment !in stack && s.useFragment in scope.frags ==>
         (EnteringShrinks(scope.frags, stack, s.useFragment);
          Settled(scope.frags[s.useFragment], scope, stack + [s.useFragment], 0)))
    else
      && OwnTimes(s, scope.vars, d + 1) == SubstOwn(s, scope.vars)
      && Settled(Kids(s), scope, stack, d + 1)
      && Settled(Elses(s), scope, stack, d + 1)
  }

  lemma {:induction false} StableOwn(s: Step, vars: Record, n: nat)
    requires StableStep(s, vars)
    ensures OwnTimes(s, vars, n + 1) == SubstOwn(s, vars)
  {
    if n == 0 {
      assert OwnTimes(s, vars, 0) == Ok(s);
    } else {
      StableOwn(s, vars, n - 1);
      if SubstOwn(s, vars).Ok? { OwnTwice(s, vars); }
    }
  }

  /** Stable text has settled at every depth. */
  lemma {:induction false} StableSettled(steps: seq<Step>, scope: Scope, stack: seq<string>, d: nat)
    requires StableScope(scope) && StableSteps(steps, scope.vars)
    ensures Settled(steps, scope, stack, d)
    decreases Remaining(scope.frags, stack), SizeAll(steps), 1
  {
    if steps == [] {
    } else {
      StableStepSettled(steps[0], scope, stack, d);
      StableSettled(steps[1..], scope, stack, d);
    }
  }

  lemma {:induction false} StableStepSettled(s: Step, scope: Scope, stack: seq<string>, d: nat)
    requires StableScope(scope) && StableStep(s, scope.vars)
    ensures SettledStep(s, scope, stack, d)
    decreases Remaining(scope.frags, stack), Size(s), 0
  {
    if s.Fragment? {
      if s.useFragment !in stack && s.useFragment in scope.frags {
        EnteringShrinks(scope.frags, stack, s.useFragment);
        StableSettled(scope.frags[s.useFragment], scope, stack + [s.useFragment], 0);
      }
    } else {
      StableOwn(s, scope.vars, d);
      StableSettled(Kids(s), scope, stack, d + 1);
      StableSettled(Elses(s), scope, stack, d + 1);
    }
  }

  // ----- both expansions, part by part -----

  /** What the source makes of steps nested `d` levels deep. */
  function ExpandAt(steps: seq<Step>, scope: Scope, stack: seq<string>, prefix: string, d: nat): Result<seq<Step>> {
    var t :- StepsTimes(steps, scope.vars, d);
    Expand(t, scope, stack, prefix)
  }

  predicate InlineOk(s: Step, id: string, scope: Scope, stack: seq<string>) {
    && SubstOwn(s, scope.vars).Ok?
    && Inline(Kids(s), scope, stack, KidsId(s, id)).Ok? && Inline(Elses(s), scope, stack, id + ".else").Ok?
  }

  lemma InlineStepParts(s: Step, id: string, scope: Scope, stack: seq<string>)
    requires !s.Fragment?
    ensures InlineStep(s, id, scope, stack).Ok? <==> InlineOk(s, id, scope, stack)
    ensures InlineOk(s, id, scope, stack) ==>
              InlineStep(s, id, scope, stack).value ==
              Rebuilt(SubstOwn(s, scope.vars).value, id, Inline(Kids(s), scope, stack, KidsId(s, id)).value,
                      Inline(Elses(s), scope, stack, id + ".else").value)
  {
  }

  lemma ResolveStepParts(t: Step, id: string, scope: Scope, stack: seq<string>)
    requires !t.Fragment?
    ensures ResolveStep(t, id, scope, stack).Ok? <==>
              && SubstStep(t, scope.vars).Ok?
              && Expand(Kids(SubstStep(t, scope.vars).value), scope, stack, KidsId(t, id)).Ok?
              && Expand(Elses(SubstStep(t, scope.vars).value), scope, stack, id + ".else").Ok?
    ensures ResolveStep(t, id, scope, stack).Ok? ==>
              var m := SubstStep(t, scope.vars).value;
              ResolveStep(t, id, scope, stack).value ==
              Rebuilt(m, id, Expand(Kids(m), scope, stack, KidsId(t, id)).value,
                      Expand(Elses(m), scope, stack, id + ".else").value)
  {
  }

  predicate ResolveOk(s: Step, id: string, scope: Scope, stack: seq<string>, d: nat) {
    && OwnTimes(s, scope.vars, d + 1).Ok?
    && ExpandAt(Kids(s), scope, stack, KidsId(s, id), d + 1).Ok?
    && ExpandAt(Elses(s), scope, stack, id + ".else", d + 1).Ok?
  }

  /** The parts can be told from what they make up. */
  lemma PartsShape(s: Step, vars: Record, n: nat)
    requires PartsOk(s, vars, n)
    ensures var t := Parts(s, vars, n);
            && Kids(t) == StepsTimes(Kids(s), vars, n).value && Elses(t) == StepsTimes(Elses(s), vars, n).value
            && forall id, k, e :: Rebuilt(t, id, k, e) == Rebuilt(OwnTimes(s, vars, n).value, id, k, e)
  {
    OwnFrame(s, vars, n);
    NoneTimes(vars, n);
  }

  /** The resolved step, as the source makes it, from its parts. */
  predicate Resolves(r: Result<Step>, s: Step, id: string, scope: Scope, stack: seq<string>, d: nat) {
    && (r.Ok? <==> ResolveOk(s, id, scope, stack, d))
    && (r.Ok? ==>
          r.value == Rebuilt(OwnTimes(s, scope.vars, d + 1).value, id,
                             ExpandAt(Kids(s), scope, stack, KidsId(s, id), d + 1).value,
                             ExpandAt(Elses(s), scope, stack, id + ".else", d + 1).value))
  }

  lemma ResolveTimesParts(s: Step, t: Step, id: string, scope: Scope, stack: seq<string>, d: nat)
    requires !t.Fragment? && StepTimes(s, scope.vars, d) == Ok(t)
    ensures Resolves(ResolveStep(t, id, scope, stack), s, id, scope, stack, d)
  {
    KidsIdKept(s, scope.vars, d, id);
    TimesParts(s, scope.vars, d + 1);
    NextTimes(s, t, scope.vars, d);
    if PartsOk(s, scope.vars, d + 1) {
      ResolveParts(s, t, id, scope, stack, d);
    } else {
      UnsubstitutedFails(s, t, id, scope, stack, d);
    }
  }

  lemma NextTimes(s: Step, t: Step, vars: Record, d: nat)
    requires StepTimes(s, vars, d) == Ok(t)
    ensures StepTimes(s, vars, d + 1) == SubstStep(t, vars)
  {
  }

  lemma UnsubstitutedFails(s: Step, t: Step, id: string, scope: Scope, stack: seq<string>, d: nat)
    requires !t.Fragment? && SubstStep(t, scope.vars).Err? && !PartsOk(s, scope.vars, d + 1)
    ensures ResolveStep(t, id, scope, stack).Err? && !ResolveOk(s, id, scope, stack, d)
  {
  }

  lemma ResolveParts(s: Step, t: Step, id: string, scope: Scope, stack: seq<string>, d: nat)
    requires !t.Fragment? && PartsOk(s, scope.vars, d + 1)
    requires SubstStep(t, scope.vars) == Ok(Parts(s, scope.vars, d + 1)) && KidsId(t, id) == KidsId(s, id)
    ensures Resolves(ResolveStep(t, id, scope, stack), s, id, scope, stack, d)
  {
    PartsShape(s, scope.vars, d + 1);
    PartsAt(s, id, scope, stack, d + 1);
    ResolveFrom(t, Parts(s, scope.vars, d + 1), OwnTimes(s, scope.vars, d + 1).value, id, scope, stack);
  }

  lemma PartsAt(s: Step, id: string, scope: Scope, stack: seq<string>, n: nat)
    requires PartsOk(s, scope.vars, n)
    ensures var t := Parts(s, scope.vars, n);
            && ExpandAt(Kids(s), scope, stack, KidsId(s, id), n) == Expand(Kids(t), scope, stack, KidsId(s, id))
            && ExpandAt(Elses(s), scope, stack, id + ".else", n) == Expand(Elses(t), scope, stack, id + ".else")
  {
    PartsShape(s, scope.vars, n);
  }

  lemma KidsIdKept(s: Step, vars: Record, n: nat, id: string)
    requires StepTimes(s, vars, n).Ok?
    ensures KidsId(StepTimes(s, vars, n).value, id) == KidsId(s, id)
  {
    TimesParts(s, vars, n);
    OwnFrame(s, vars, n);
  }

  lemma ResolveFrom(t: Step, m: Step, own: Step, id: string, scope: Scope, stack: seq<string>)
    requires !t.Fragment? && SubstStep(t, scope.vars) == Ok(m)
    requires forall k, e :: Rebuilt(m, id, k, e) == Rebuilt(own, id, k, e)
    ensures var kids := Expand(Kids(m), scope, stack, KidsId(t, id));
            var elses := Expand(Elses(m), scope, stack, id + ".else");
            && (ResolveStep(t, id, scope, stack).Ok? <==> kids.Ok? && elses.Ok?)
            && (kids.Ok? && elses.Ok? ==>
                  ResolveStep(t, id, scope, stack).value == Rebuilt(own, id, kids.value, elses.value))
  {
    ResolveStepParts(t, id, scope, stack);
  }

  lemma {:induction false} TimesId(s: Step, vars: Record, n: nat)
    requires StepTimes(s, vars, n).Ok?
    ensures StepTimes(s, vars, n).value.id == s.id
    ensures s.Fragment? ==> StepTimes(s, vars, n).value == s
    ensures !s.Fragment? ==> !StepTimes(s, vars, n).value.Fragment?
  {
    if n == 0 {
    } else {
      TimesId(s, vars, n - 1);
    }
  }

  lemma {:induction false} FragmentTimes(s: Step, vars: Record, n: nat)
    requires s.Fragment?
    ensures StepTimes(s, vars, n) == Ok(s)
  {
    if n == 0 {
    } else {
      FragmentTimes(s, vars, n - 1);
    }
  }

  /** What the source makes of one step nested `d` levels deep. */
  function ExpandStepAt(s: Step, scope: Scope, stack: seq<string>, prefix: string, d: nat): Result<seq<Step>> {
    var t :- StepTimes(s, scope.vars, d);
    ExpandStep(t, scope, stack, prefix)
  }

  lemma ExpandAtCons(steps: seq<Step>, scope: Scope, stack: seq<string>, prefix: string, d: nat)
    requires steps != []
    ensures ExpandAt(steps, scope, stack, prefix, d).Ok? ==>
              ExpandStepAt(steps[0], scope, stack, prefix, d).Ok? && ExpandAt(steps[1..], scope, stack, prefix, d).Ok?
    ensures StepsTimes(steps, scope.vars, d).Ok? ==>
              ExpandAt(steps, scope, stack, prefix, d) ==
              Then(ExpandStepAt(steps[0], scope, stack, prefix, d), ExpandAt(steps[1..], scope, stack, prefix, d))
  {
    ListTimes(steps, scope.vars, d);
    if StepsTimes(steps, scope.vars, d).Ok? {
      var list := StepsTimes(steps, scope.vars, d).value;
      assert list[0] == StepTimes(steps[0], scope.vars, d).value;
      assert list[1..] == StepsTimes(steps[1..], scope.vars, d).value;
      ExpandCons(list, scope, stack, prefix);
    }
  }

  lemma ExpandFragmentAt(s: Step, scope: Scope, stack: seq<string>, prefix: string, d: nat)
    requires s.Fragment? && s.useFragment !in stack && s.useFragment in scope.frags
    ensures ExpandStepAt(s, scope, stack, prefix, d) ==
            ExpandAt(scope.frags[s.useFragment], scope, stack + [s.useFragment], Join(prefix, s.id), 0)
  {
    FragmentTimes(s, scope.vars, d);
    assert StepsTimes(scope.frags[s.useFragment], scope.vars, 0) == Ok(scope.frags[s.useFragment]);
  }

  lemma ExpandPlainAt(s: Step, scope: Scope, stack: seq<string>, prefix: string, d: nat)
    requires !s.Fragment? && StepTimes(s, scope.vars, d).Ok?
    ensures var id := Join(prefix, s.id);
            && (ExpandStepAt(s, scope, stack, prefix, d).Ok? <==> ResolveOk(s, id, scope, stack, d))
            && (ResolveOk(s, id, scope, stack, d) ==>
                  ExpandStepAt(s, scope, stack, prefix, d).value ==
                  [Rebuilt(OwnTimes(s, scope.vars, d + 1).value, id,
                           ExpandAt(Kids(s), scope, stack, KidsId(s, id), d + 1).value,
                           ExpandAt(Elses(s), scope, stack, id + ".else", d + 1).value)])
  {
    TimesId(s, scope.vars, d);
    ResolveTimesParts(s, StepTimes(s, scope.vars, d).value, Join(prefix, s.id), scope, stack, d);
  }

  /** The same for the expansion that substitutes once. */
  function InlineOne(s: Step, scope: Scope, stack: seq<string>, prefix: string): Result<seq<Step>> {
    var id := Join(prefix, s.id);
    if s.Fragment? then
      if s.useFragment in stack then Err(FragmentCycle(stack + [s.useFragment]))
      else if s.useFragment !in scope.frags then Err(UnknownFragment(s.useFragment))
      else Inline(scope.frags[s.useFragment], scope, stack + [s.useFragment], id)
    else
      var r :- InlineStep(s, id, scope, stack);
      Ok([r])
  }

  lemma InlineCons(steps: seq<Step>, scope: Scope, stack: seq<string>, prefix: string)
    requires steps != []
    ensures Inline(steps, scope, stack, prefix) ==
            Then(InlineOne(steps[0], scope, stack, prefix), Inline(steps[1..], scope, stack, prefix))
  {
  }

  // ----- settled text expands as if substituted once -----

  lemma {:induction false} SettledSubsts(steps: seq<Step>, scope: Scope, stack: seq<string>, prefix: string, d: nat)
    requires Settled(steps, scope, stack, d) && Inline(steps, scope, stack, prefix).Ok?
    ensures StepsTimes(steps, scope.vars, d + 1).Ok?
    decreases SizeAll(steps), 1
  {
    if steps == [] {
      NoneTimes(scope.vars, d + 1);
    } else {
      InlineCons(steps, scope, stack, prefix);
      ListTimes(steps, scope.vars, d + 1);
      if steps[0].Fragment? {
        FragmentTimes(steps[0], scope.vars, d + 1);
      } else {
        SettledStepSubsts(steps[0], Join(prefix, steps[0].id), scope, stack, d);
      }
      SettledSubsts(steps[1..], scope, stack, prefix, d);
    }
  }

  lemma {:induction false} SettledStepSubsts(s: Step, id: string, scope: Scope, stack: seq<string>, d: nat)
    requires !s.Fragment? && SettledStep(s, scope, stack, d) && InlineStep(s, id, scope, stack).Ok?
    ensures StepTimes(s, scope.vars, d + 1).Ok?
    decreases Size(s), 0
  {
    InlineStepParts(s, id, scope, stack);
    TimesParts(s, scope.vars, d + 1);
    SettledSubsts(Kids(s), scope, stack, KidsId(s, id), d + 1);
    SettledSubsts(Elses(s), scope, stack, id + ".else", d + 1);
    FewerTimes(Kids(s), scope.vars, d + 1, d + 2);
    FewerTimes(Elses(s), scope.vars, d + 1, d + 2);
  }

  lemma {:induction false} SettledExpands(steps: seq<Step>, scope: Scope, stack: seq<string>, prefix: string, d: nat)
    requires Settled(steps, scope, stack, d) && Inline(steps, scope, stack, prefix).Ok?
    ensures ExpandAt(steps, scope, stack, prefix, d) == Inline(steps, scope, stack, prefix)
    decreases Remaining(scope.frags, stack), SizeAll(steps), 1
  {
    SettledSubsts(steps, scope, stack, prefix, d);
    FewerTimes(steps, scope.vars, d, d + 1);
    if steps == [] {
      NoneTimes(scope.vars, d);
    } else {
      InlineCons(steps, scope, stack, prefix);
      ExpandAtCons(steps, scope, stack, prefix, d);
      SettledExpands(steps[1..], scope, stack, prefix, d);
      SettledOneExpands(steps[0], scope, stack, prefix, d);
    }
  }

  lemma {:induction false} SettledOneExpands(s: Step, scope: Scope, stack: seq<string>, prefix: string, d: nat)
    requires SettledStep(s, scope, stack, d) && InlineOne(s, scope, stack, prefix).Ok?
    ensures ExpandStepAt(s, scope, stack, prefix, d) == InlineOne(s, scope, stack, prefix)
    decreases Remaining(scope.frags, stack), Size(s), 0
  {
    var id := Join(prefix, s.id);
    if s.Fragment? {
      EnteringShrinks(scope.frags, stack, s.useFragment);
      ExpandFragmentAt(s, scope, stack, prefix, d);
      SettledExpands(scope.frags[s.useFragment], scope, stack + [s.useFragment], id, 0);
    } else {
      SettledStepSubsts(s, id, scope, stack, d);
      ExpandPlainAt(s, scope, stack, prefix, d);
      InlineStepParts(s, id, scope, stack);
      SettledExpands(Kids(s), scope, stack, KidsId(s, id), d + 1);
      SettledExpands(Elses(s), scope, stack, id + ".else", d + 1);
    }
  }

  // ----- and text that has not settled shows -----

  lemma SplitSame<T>(a: seq<T>, b: seq<T>, c: seq<T>, d: seq<T>)
    requires a + b == c + d && |a| == |c|
    ensures a == c && b == d
  {
    assert a == (a + b)[..|a|] && c == (c + d)[..|c|];
    assert b == (a + b)[|a|..] && d == (c + d)[|c|..];
  }

  lemma {:induction false} SameLength(steps: seq<Step>, scope: Scope, stack: seq<string>, prefix: string, d: nat)
    requires Inline(steps, scope, stack, prefix).Ok? && ExpandAt(steps, scope, stack, prefix, d).Ok?
    ensures |ExpandAt(steps, scope, stack, prefix, d).value| == |Inline(steps, scope, stack, prefix).value|
    decreases Remaining(scope.frags, stack), SizeAll(steps), 1
  {
    if steps == [] {
      NoneTimes(scope.vars, d);
    } else {
      InlineCons(steps, scope, stack, prefix);
      ExpandAtCons(steps, scope, stack, prefix, d);
      SameLength(steps[1..], scope, stack, prefix, d);
      SameLengthOne(steps[0], scope, stack, prefix, d);
    }
  }

  lemma {:induction false} SameLengthOne(s: Step, scope: Scope, stack: seq<string>, prefix: string, d: nat)
    requires InlineOne(s, scope, stack, prefix).Ok? && ExpandStepAt(s, scope, stack, prefix, d).Ok?
    ensures |ExpandStepAt(s, scope, stack, prefix, d).value| == |InlineOne(s, scope, stack, prefix).value|
    decreases Remaining(scope.frags, stack), Size(s), 0
  {
    if s.Fragment? {
      EnteringShrinks(scope.frags, stack, s.useFragment);
      ExpandFragmentAt(s, scope, stack, prefix, d);
      SameLength(scope.frags[s.useFragment], scope, stack + [s.useFragment], Join(prefix, s.id), 0);
    } else {
      TimesId(s, scope.vars, d);
    }
  }

  lemma {:induction false} AgreeSettled(steps: seq<Step>, scope: Scope, stack: seq<string>, prefix: string, d: nat)
    requires Inline(steps, scope, stack, prefix).Ok?
    requires ExpandAt(steps, scope, stack, prefix, d) == Inline(steps, scope, stack, prefix)
    ensures Settled(steps, scope, stack, d)
    decreases Remaining(scope.frags, stack), SizeAll(steps), 1
  {
    if steps == [] {
    } else {
      InlineCons(steps, scope, stack, prefix);
      ExpandAtCons(steps, scope, stack, prefix, d);
      var head, tail := ExpandStepAt(steps[0], scope, stack, prefix, d), ExpandAt(steps[1..], scope, stack, prefix, d);
      var head', tail' := InlineOne(steps[0], scope, stack, prefix), Inline(steps[1..], scope, stack, prefix);
      SameLengthOne(steps[0], scope, stack, prefix, d);
      SplitSame(head.value, tail.value, head'.value, tail'.value);
      AgreeOneSettled(steps[0], scope, stack, prefix, d);
      AgreeSettled(steps[1..], scope, stack, prefix, d);
    }
  }

  lemma RebuiltSame(s: Step, a: Step, b: Step, id: string, k: seq<Step>, e: seq<Step>, k': seq<Step>, e': seq<Step>)
    requires SameFrame(s, a) && SameFrame(s, b) && Rebuilt(a, id, k, e) == Rebuilt(b, id, k', e')
    ensures a == b
    ensures s.Parallel? || s.Repeat? || s.Branch? ==> k == k'
    ensures s.Branch? ==> e == e'
  {
  }

  lemma {:induction false} AgreeOneSettled(s: Step, scope: Scope, stack: seq<string>, prefix: string, d: nat)
    requires InlineOne(s, scope, stack, prefix).Ok?
    requires ExpandStepAt(s, scope, stack, prefix, d) == InlineOne(s, scope, stack, prefix)
    ensures SettledStep(s, scope, stack, d)
    decreases Remaining(scope.frags, stack), Size(s), 0
  {
    var id := Join(prefix, s.id);
    if s.Fragment? {
      EnteringShrinks(scope.frags, stack, s.useFragment);
      ExpandFragmentAt(s, scope, stack, prefix, d);
      AgreeSettled(scope.frags[s.useFragment], scope, stack + [s.useFragment], id, 0);
    } else {
      ExpandPlainAt(s, scope, stack, prefix, d);
      InlineStepParts(s, id, scope, stack);
      var own, own' := OwnTimes(s, scope.vars, d + 1).value, SubstOwn(s, scope.vars).value;
      OwnFrame(s, scope.vars, d + 1);
      assert OwnTimes(s, scope.vars, 0) == Ok(s) && OwnTimes(s, scope.vars, 1) == Ok(own');
      OwnFrame(s, scope.vars, 1);
      KidsAgree(s, own, own', id, scope, stack, d);
      AgreeSettled(Kids(s), scope, stack, KidsId(s, id), d + 1);
      AgreeSettled(Elses(s), scope, stack, id + ".else", d + 1);
    }
  }

  lemma KidsAgree(s: Step, own: Step, own': Step, id: string, scope: Scope, stack: seq<string>, d: nat)
    requires !s.Fragment? && SameFrame(s, own) && SameFrame(s, own')
    requires InlineOk(s, id, scope, stack) && ResolveOk(s, id, scope, stack, d)
    requires Rebuilt(own, id, ExpandAt(Kids(s), scope, stack, KidsId(s, id), d + 1).value,
                     ExpandAt(Elses(s), scope, stack, id + ".else", d + 1).value) ==
             Rebuilt(own', id, Inline(Kids(s), scope, stack, KidsId(s, id)).value,
                     Inline(Elses(s), scope, stack, id + ".else").value)
    ensures own == own'
    ensures ExpandAt(Kids(s), scope, stack, KidsId(s, id), d + 1) == Inline(Kids(s), scope, stack, KidsId(s, id))
    ensures ExpandAt(Elses(s), scope, stack, id + ".else", d + 1) == Inline(Elses(s), scope, stack, id + ".else")
  {
    NoneTimes(scope.vars, d + 1);
    RebuiltSame(s, own, own', id, ExpandAt(Kids(s), scope, stack, KidsId(s, id), d + 1).value,
                ExpandAt(Elses(s), scope, stack, id + ".else", d + 1).value,
                Inline(Kids(s), scope, stack, KidsId(s, id)).value, Inline(Elses(s), scope, stack, id + ".else").value);
  }

  // ----- settled text that expands can be inlined -----

  lemma {:induction false} SettledInlines(steps: seq<Step>, scope: Scope, stack: seq<string>, prefix: string, d: nat)
    requires Settled(steps, scope, stack, d) && ExpandAt(steps, scope, stack, prefix, d).Ok?
    ensures Inline(steps, scope, stack, prefix).Ok?
    decreases Remaining(scope.frags, stack), SizeAll(steps), 1
  {
    if steps == [] {
    } else {
      InlineCons(steps, scope, stack, prefix);
      ExpandAtCons(steps, scope, stack, prefix, d);
      SettledOneInlines(steps[0], scope, stack, prefix, d);
      SettledInlines(steps[1..], scope, stack, prefix, d);
    }
  }

  lemma {:induction false} SettledOneInlines(s: Step, scope: Scope, stack: seq<string>, prefix: string, d: nat)
    requires SettledStep(s, scope, stack, d) && ExpandStepAt(s, scope, stack, prefix, d).Ok?
    ensures InlineOne(s, scope, stack, prefix).Ok?
    decreases Remaining(scope.frags, stack), Size(s), 0
  {
    var id := Join(prefix, s.id);
    if s.Fragment? {
      FragmentTimes(s, scope.vars, d);
      EnteringShrinks(scope.frags, stack, s.useFragment);
      ExpandFragmentAt(s, scope, stack, prefix, d);
      SettledInlines(scope.frags[s.useFragment], scope, stack + [s.useFragment], id, 0);
    } else {
      ExpandPlainAt(s, scope, stack, prefix, d);
      InlineStepParts(s, id, scope, stack);
      SettledInlines(Kids(s), scope, stack, KidsId(s, id), d + 1);
      SettledInlines(Elses(s), scope, stack, id + ".else", d + 1);
    }
  }

  /** The exact condition under which repeated substitution is harmless. On settled text
      the source's expansion succeeds exactly when the one that substitutes each step once
      does; and where both succeed, the trees are the same exactly when the text is
      settled. */
  lemma DepthShowsIff(steps: seq<Step>, scope: Scope, stack: seq<string>, prefix: string)
    ensures Settled(steps, scope, stack, 0) ==>
              (Expand(steps, scope, stack, prefix).Ok? <==> Inline(steps, scope, stack, prefix).Ok?)
    ensures Expand(steps, scope, stack, prefix).Ok? && Inline(steps, scope, stack, prefix).Ok? ==>
              (Expand(steps, scope, stack, prefix) == Inline(steps, scope, stack, prefix) <==>
                 Settled(steps, scope, stack, 0))
  {
    var e, i := Expand(steps, scope, stack, prefix), Inline(steps, scope, stack, prefix);
    assert ExpandAt(steps, scope, stack, prefix, 0) == e by { assert StepsTimes(steps, scope.vars, 0) == Ok(steps); }
    if Settled(steps, scope, stack, 0) && e.Ok? { SettledInlines(steps, scope, stack, prefix, 0); }
    if Settled(steps, scope, stack, 0) && i.Ok? { SettledExpands(steps, scope, stack, prefix, 0); }
    if i.Ok? && e == i { AgreeSettled(steps, scope, stack, prefix, 0); }
  }

  /** On stable text the two expansions are the same. */
  lemma ExpandIsInline(steps: seq<Step>, scope: Scope, stack: seq<string>, prefix: string)
    requires StableScope(scope) && StableSteps(steps, scope.vars)
    ensures Expand(steps, scope, stack, prefix).Ok? <==> Inline(steps, scope, stack, prefix).Ok?
    ensures Expand(steps, scope, stack, prefix).Ok? ==>
              Expand(steps, scope, stack, prefix) == Inline(steps, scope, stack, prefix)
  {
    StableSettled(steps, scope, stack, 0);
    DepthShowsIff(steps, scope, stack, prefix);
  }

  // ----- the substitutions that the source makes -----

  /** Every substitution that steps nested `d` levels deep get, and the steps nested in
      them, succeeds. */
  predicate Substitutes(steps: seq<Step>, vars: Record, d: nat)
    decreases SizeAll(steps)
  {
    steps == [] ||
    (&& (!steps[0].Fragment? ==>
           && OwnTimes(steps[0], vars, d + 1).Ok?
           && Substitutes(Kids(steps[0]), vars, d + 1) && Substitutes(Elses(steps[0]), vars, d + 1))
     && Substitutes(steps[1..], vars, d))
  }

  lemma {:induction false} SubstitutesTimes(steps: seq<Step>, vars: Record, d: nat)
    requires Substitutes(steps, vars, d)
    ensures StepsTimes(steps, vars, d).Ok?
    ensures steps != [] && !steps[0].Fragment? ==> PartsOk(steps[0], vars, d + 1)
    decreases SizeAll(steps)
  {
    if steps == [] {
      NoneTimes(vars, d);
    } else {
      ListTimes(steps, vars, d);
      SubstitutesTimes(steps[1..], vars, d);
      if steps[0].Fragment? {
        FragmentTimes(steps[0], vars, d);
      } else {
        SubstitutesTimes(Kids(steps[0]), vars, d + 1);
        SubstitutesTimes(Elses(steps[0]), vars, d + 1);
        FewerParts(steps[0], vars, d);
      }
    }
  }

  lemma FewerParts(s: Step, vars: Record, d: nat)
    requires PartsOk(s, vars, d + 1)
    ensures StepTimes(s, vars, d).Ok?
  {
    FewerTimes(Kids(s), vars, d, d + 1);
    FewerTimes(Elses(s), vars, d, d + 1);
    TimesParts(s, vars, d);
  }

  lemma {:induction false} ExpandsSubstitutes(
      steps: seq<Step>, scope: Scope, stack: seq<string>, prefix: string, d: nat)
    requires ExpandAt(steps, scope, stack, prefix, d).Ok?
    ensures Substitutes(steps, scope.vars, d)
    decreases SizeAll(steps)
  {
    if steps == [] {
    } else {
      ExpandAtCons(steps, scope, stack, prefix, d);
      ExpandsSubstitutes(steps[1..], scope, stack, prefix, d);
      if !steps[0].Fragment? {
        var id := Join(prefix, steps[0].id);
        ExpandPlainAt(steps[0], scope, stack, prefix, d);
        ExpandsSubstitutes(Kids(steps[0]), scope, stack, KidsId(steps[0], id), d + 1);
        ExpandsSubstitutes(Elses(steps[0]), scope, stack, id + ".else", d + 1);
      }
    }
  }

  /** A step whose substitutions succeed, after the first `d` of them. */
  predicate Nearly(s: Step, t: Step, vars: Record, d: nat)
    requires PartsOk(s, vars, d + 1)
  {
    && StepTimes(s, vars, d) == Ok(t) && SubstStep(t, vars) == Ok(Parts(s, vars, d + 1))
    && t.id == s.id && !t.Fragment? && t.Branch? == s.Branch?
  }

  lemma NearlySubstituted(s: Step, vars: Record, d: nat) returns (t: Step)
    requires !s.Fragment? && PartsOk(s, vars, d + 1)
    ensures Nearly(s, t, vars, d)
  {
    FewerParts(s, vars, d);
    t := StepTimes(s, vars, d).value;
    TimesId(s, vars, d);
    KidsIdKept(s, vars, d, "");
    TimesParts(s, vars, d + 1);
    NextTimes(s, t, vars, d);
  }

  lemma PlainFrom(s: Step, t: Step, scope: Scope, stack: seq<string>, prefix: string, d: nat)
    requires PartsOk(s, scope.vars, d + 1) && Nearly(s, t, scope.vars, d)
    ensures ExpandStepAt(s, scope, stack, prefix, d) ==
            match ResolveStep(t, Join(prefix, s.id), scope, stack) case Ok(r) => Ok([r]) case Err(e) => Err(e)
  {
  }

  /** Where they succeed, a step fails with the error of the steps nested in it. */
  lemma PlainError(s: Step, scope: Scope, stack: seq<string>, prefix: string, d: nat)
    requires !s.Fragment? && PartsOk(s, scope.vars, d + 1) && ExpandStepAt(s, scope, stack, prefix, d).Err?
    ensures var id := Join(prefix, s.id);
            var kids := ExpandAt(Kids(s), scope, stack, KidsId(s, id), d + 1);
            var elses := ExpandAt(Elses(s), scope, stack, id + ".else", d + 1);
            (kids.Err? || elses.Err?) &&
            ExpandStepAt(s, scope, stack, prefix, d).error == if kids.Err? then kids.error else elses.error
  {
    var t := NearlySubstituted(s, scope.vars, d);
    PlainFrom(s, t, scope, stack, prefix, d);
    PartsShape(s, scope.vars, d + 1);
    ResolveError(t, Join(prefix, s.id), scope, stack);
  }

  lemma ResolveError(t: Step, id: string, scope: Scope, stack: seq<string>)
    requires !t.Fragment? && SubstStep(t, scope.vars).Ok? && ResolveStep(t, id, scope, stack).Err?
    ensures var m := SubstStep(t, scope.vars).value;
            var kids := Expand(Kids(m), scope, stack, KidsId(t, id));
            var elses := Expand(Elses(m), scope, stack, id + ".else");
            (kids.Err? || elses.Err?) &&
            ResolveStep(t, id, scope, stack).error == if kids.Err? then kids.error else elses.error
  {
  }

  // ----- one text, nested ever deeper -----

  function TaskWith(id: string, input: Value): Step { Task(id, Call("act", Some(input)), None, None, None) }

  function Nest(n: nat, t: Step): Step { if n == 0 then t else Parallel("p", None, [Nest(n - 1, t)]) }

  /** The input of the innermost task of a resolved nest. */
  function DeepInput(steps: seq<Step>): Option<Value> {
    if steps == [] then None
    else match steps[0]
      case Parallel(_, _, nested) => DeepInput(nested)
      case Task(_, call, _, _, _) => call.input
      case _ => None
  }

  lemma {:induction false} OneTimeFirst(v: Value, vars: Record, n: nat)
    ensures SubstTimes(v, vars, n + 1) ==
            match Subst(v, vars) case Ok(w) => SubstTimes(w, vars, n) case Err(e) => Err(e)
  {
    if n > 0 {
      OneTimeFirst(v, vars, n - 1);
    } else {
      assert SubstTimes(v, vars, 0) == Ok(v);
    }
  }

  lemma {:induction false} NestSubst(n: nat, id: string, v: Value, vars: Record)
    ensures SubstStep(Nest(n, TaskWith(id, v)), vars) ==
            match Subst(v, vars) case Ok(w) => Ok(Nest(n, TaskWith(id, w))) case Err(e) => Err(e)
  {
    if n == 0 {
    } else {
      var inner := Nest(n - 1, TaskWith(id, v));
      NestSubst(n - 1, id, v, vars);
      assert [inner][1..] == [] && SubstSteps([], vars) == Ok([]);
      if Subst(v, vars).Ok? {
        var mapped := Nest(n - 1, TaskWith(id, Subst(v, vars).value));
        assert [mapped] + [] == [mapped];
        assert SubstSteps([inner], vars) == Ok([mapped]);
      }
    }
  }

  /** Inside `n` parallel steps a text is substituted `n + 1` times. */
  lemma {:induction false} NestedText(n: nat, id: string, v: Value, scope: Scope, prefix: string)
    ensures var e := Expand([Nest(n, TaskWith(id, v))], scope, [], prefix);
            match SubstTimes(v, scope.vars, n + 1)
            case Ok(w) => e.Ok? && DeepInput(e.value) == Some(w)
            case Err(_) => e.Err?
    decreases n
  {
    var nest := Nest(n, TaskWith(id, v));
    ExpandOne(nest, scope, [], prefix);
    NestSubst(n, id, v, scope.vars);
    OneTimeFirst(v, scope.vars, n);
    if Subst(v, scope.vars).Ok? && n > 0 {
      NestedText(n - 1, id, Subst(v, scope.vars).value, scope, Join(prefix, nest.id));
    }
  }

  /** What the text of a task becomes inside `n` parallel steps. */
  function TextAt(n: nat, v: Value, scope: Scope): Option<Value> {
    match Expand([Nest(n, TaskWith("t", v))], scope, [], "")
    case Ok(tree) => DeepInput(tree)
    case Err(_) => None
  }

  lemma TextTimes(n: nat, v: Value, scope: Scope)
    ensures TextAt(n, v, scope) == match SubstTimes(v, scope.vars, n + 1) case Ok(w) => Some(w) case Err(_) => None
  {
    NestedText(n, "t", v, scope, "");
  }

  lemma {:induction false} StableTimes(v: Value, vars: Record, n: nat)
    requires Stable(v, vars)
    ensures SubstTimes(v, vars, n + 1) == Subst(v, vars)
  {
    if n > 0 {
      StableTimes(v, vars, n - 1);
    } else {
      assert SubstTimes(v, vars, 0) == Ok(v);
    }
  }

  /** Inside `n` parallel steps a text is what it is at the top exactly when `n + 1`
      substitutions do what one does. */
  lemma TextAtIff(n: nat, v: Value, scope: Scope)
    requires Subst(v, scope.vars).Ok?
    ensures TextAt(n, v, scope) == TextAt(0, v, scope) <==> SubstTimes(v, scope.vars, n + 1) == Subst(v, scope.vars)
  {
    TextTimes(n, v, scope);
    TextTimes(0, v, scope);
    StableTimesOnce(v, scope.vars);
  }

  lemma StableTimesOnce(v: Value, vars: Record)
    ensures SubstTimes(v, vars, 1) == Subst(v, vars)
    ensures Subst(v, vars).Ok? ==> SubstTimes(v, vars, 2) == Subst(Subst(v, vars).value, vars)
  {
    assert SubstTimes(v, vars, 0) == Ok(v);
    assert SubstTimes(v, vars, 1) == Subst(v, vars);
  }

  /** It is the same at every depth exactly when it is stable. */
  lemma DepthIrrelevantIff(v: Value, scope: Scope)
    requires Subst(v, scope.vars).Ok?
    ensures (forall n: nat :: TextAt(n, v, scope) == TextAt(0, v, scope)) <==> Stable(v, scope.vars)
  {
    if Stable(v, scope.vars) {
      forall n: nat ensures TextAt(n, v, scope) == TextAt(0, v, scope) {
        StableTimes(v, scope.vars, n);
        TextAtIff(n, v, scope);
      }
    } else {
      TextAtIff(1, v, scope);
      StableTimesOnce(v, scope.vars);
      assert TextAt(1, v, scope) != TextAt(0, v, scope);
    }
  }
}
