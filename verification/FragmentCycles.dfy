/** Expansion succeeds exactly when all it reaches is complete and no fragment cycle is
    reached. */
module FragmentCycles {
  import opened Json
  import opened Template
  import opened Steps
  import opened Resolver
  import opened Depth

  /** The fragments a step uses, at any depth of parallel, repeat and both branches. */
  function UsesOf(s: Step): set<string>
    decreases s, 1
  {
    match s
    case Fragment(_, name) => {name}
    case Parallel(_, _, steps) => Uses(steps)
    case Repeat(_, _, _, steps) => Uses(steps)
    case Branch(_, _, _, thens, elses) => Uses(thens) + Uses(elses)
    case _ => {}
  }

  function Uses(steps: seq<Step>): set<string>
    decreases steps, 0
  {
    if steps == [] then {} else UsesOf(steps[0]) + Uses(steps[1..])
  }

  /** `validateFragmentReferences` reports nothing exactly when every fragment used, at
      any depth, is defined. */
  method ReferenceIssues(steps: seq<Step>, frags: Fragments) returns (issues: seq<string>)
    ensures issues == [] <==> Uses(steps) <= frags.Keys
    decreases steps
  {
    issues := [];
    var i := 0;
    while i < |steps|
      invariant 0 <= i <= |steps|
      invariant Uses(steps) <= frags.Keys <==> issues == [] && Uses(steps[i..]) <= frags.Keys
    {
      var step := steps[i];
      var found: seq<string> := [];
      match step {
        case Fragment(_, name) => if name !in frags { found := [name]; }
        case Parallel(_, _, nested) => found := ReferenceIssues(nested, frags);
        case Repeat(_, _, _, nested) => found := ReferenceIssues(nested, frags);
        case Branch(_, _, _, thens, elses) =>
          var a := ReferenceIssues(thens, frags);
          var b := ReferenceIssues(elses, frags);
          found := a + b;
        case _ =>
      }
      assert steps[i..][0] == step && steps[i..][1..] == steps[i + 1..];
      assert found == [] <==> UsesOf(step) <= frags.Keys;
      issues := issues + found;
      i := i + 1;
    }
  }

  /** `w` follows uses: it starts in `start`, and each next fragment is used by the one before. */
  predicate Walk(frags: Fragments, start: set<string>, w: seq<string>) {
    (forall i | 0 <= i < |w| :: w[i] in frags) &&
    (w != [] ==> w[0] in start) &&
    forall i | 0 < i < |w| :: w[i] in Uses(frags[w[i - 1]])
  }

  predicate Repeats(w: seq<string>) {
    exists i, j :: 0 <= i < j < |w| && w[i] == w[j]
  }

  /** Some walk from the starting steps comes back to a fragment it has visited. */
  ghost predicate CycleReachable(steps: seq<Step>, frags: Fragments) {
    exists w :: Walk(frags, Uses(steps), w) && Repeats(w)
  }

  /** What can follow the stack `stack` on a walk that began in `start`. */
  function NextUses(frags: Fragments, start: set<string>, stack: seq<string>): set<string> {
    if stack == [] then start
    else if stack[|stack| - 1] in frags then Uses(frags[stack[|stack| - 1]])
    else {}
  }

  /** Every reference names a fragment, and every substitution succeeds. */
  predicate Complete(steps: seq<Step>, scope: Scope) {
    Uses(steps) <= scope.frags.Keys && Substitutes(steps, scope.vars, 0)
  }

  /** So does every fragment that a walk from `start` reaches. */
  ghost predicate CompleteBelow(start: set<string>, scope: Scope) {
    forall w: seq<string> | w != [] && Walk(scope.frags, start, w) :: Complete(scope.frags[w[|w| - 1]], scope)
  }

  // ----- a failure exhibits a cycle -----

  lemma WalkExtends(frags: Fragments, start: set<string>, w: seq<string>, f: string)
    requires Walk(frags, start, w) && f in frags && f in NextUses(frags, start, w)
    ensures Walk(frags, start, w + [f])
    ensures f in w ==> Repeats(w + [f])
  {
    var longer := w + [f];
    forall i | 0 < i < |longer| ensures longer[i] in Uses(frags[longer[i - 1]]) {
      if i < |w| { assert longer[i] == w[i] && longer[i - 1] == w[i - 1]; }
    }
    if f in w {
      var k :| 0 <= k < |w| && w[k] == f;
      assert longer[k] == longer[|w|];
    }
  }

  lemma {:induction false} FailureIsCycle(
      steps: seq<Step>, scope: Scope, stack: seq<string>, prefix: string, start: set<string>, d: nat)
    requires CompleteBelow(start, scope) && Walk(scope.frags, start, stack)
    requires Substitutes(steps, scope.vars, d)
    requires Uses(steps) <= scope.frags.Keys && Uses(steps) <= NextUses(scope.frags, start, stack)
    requires ExpandAt(steps, scope, stack, prefix, d).Err?
    ensures var e := ExpandAt(steps, scope, stack, prefix, d).error;
            e.FragmentCycle? && Walk(scope.frags, start, e.path) && Repeats(e.path)
    decreases Remaining(scope.frags, stack), SizeAll(steps), 1
  {
    SubstitutesTimes(steps, scope.vars, d);
    if steps == [] {
      NoneTimes(scope.vars, d);
    } else {
      ExpandAtCons(steps, scope, stack, prefix, d);
      if ExpandStepAt(steps[0], scope, stack, prefix, d).Ok? {
        FailureIsCycle(steps[1..], scope, stack, prefix, start, d);
      } else if steps[0].Fragment? {
        FragmentFails(steps[0], scope, stack, prefix, start, d);
      } else {
        PlainFails(steps[0], scope, stack, prefix, start, d);
      }
    }
  }

  lemma {:induction false} FragmentFails(
      s: Step, scope: Scope, stack: seq<string>, prefix: string, start: set<string>, d: nat)
    requires CompleteBelow(start, scope) && Walk(scope.frags, start, stack)
    requires s.Fragment? && s.useFragment in scope.frags && s.useFragment in NextUses(scope.frags, start, stack)
    requires ExpandStepAt(s, scope, stack, prefix, d).Err?
    ensures var e := ExpandStepAt(s, scope, stack, prefix, d).error;
            e.FragmentCycle? && Walk(scope.frags, start, e.path) && Repeats(e.path)
    decreases Remaining(scope.frags, stack), Size(s), 0
  {
    var f := s.useFragment;
    Deeper(scope, stack, start, f);
    if f in stack {
      CycleFound(s, scope, stack, prefix, d);
    } else {
      EnteringShrinks(scope.frags, stack, f);
      ExpandFragmentAt(s, scope, stack, prefix, d);
      FailureIsCycle(scope.frags[f], scope, stack + [f], Join(prefix, s.id), start, 0);
    }
  }

  lemma Deeper(scope: Scope, stack: seq<string>, start: set<string>, f: string)
    requires CompleteBelow(start, scope) && Walk(scope.frags, start, stack)
    requires f in scope.frags && f in NextUses(scope.frags, start, stack)
    ensures Walk(scope.frags, start, stack + [f]) && (f in stack ==> Repeats(stack + [f]))
    ensures Complete(scope.frags[f], scope) && NextUses(scope.frags, start, stack + [f]) == Uses(scope.frags[f])
  {
    WalkExtends(scope.frags, start, stack, f);
    var longer := stack + [f];
    assert longer[|longer| - 1] == f;
  }

  lemma CycleFound(s: Step, scope: Scope, stack: seq<string>, prefix: string, d: nat)
    requires s.Fragment? && s.useFragment in stack
    ensures ExpandStepAt(s, scope, stack, prefix, d) == Err(FragmentCycle(stack + [s.useFragment]))
  {
    FragmentTimes(s, scope.vars, d);
  }

  lemma {:induction false} PlainFails(
      s: Step, scope: Scope, stack: seq<string>, prefix: string, start: set<string>, d: nat)
    requires CompleteBelow(start, scope) && Walk(scope.frags, start, stack)
    requires !s.Fragment? && PartsOk(s, scope.vars, d + 1)
    requires Substitutes(Kids(s), scope.vars, d + 1) && Substitutes(Elses(s), scope.vars, d + 1)
    requires UsesOf(s) <= scope.frags.Keys && UsesOf(s) <= NextUses(scope.frags, start, stack)
    requires ExpandStepAt(s, scope, stack, prefix, d).Err?
    ensures var e := ExpandStepAt(s, scope, stack, prefix, d).error;
            e.FragmentCycle? && Walk(scope.frags, start, e.path) && Repeats(e.path)
    decreases Remaining(scope.frags, stack), Size(s), 0
  {
    var id := Join(prefix, s.id);
    PlainError(s, scope, stack, prefix, d);
    UsesOfParts(s);
    if ExpandAt(Kids(s), scope, stack, KidsId(s, id), d + 1).Err? {
      FailureIsCycle(Kids(s), scope, stack, KidsId(s, id), start, d + 1);
    } else {
      FailureIsCycle(Elses(s), scope, stack, id + ".else", start, d + 1);
    }
  }

  // ----- success rules every cycle out -----

  lemma UsesOfParts(s: Step)
    requires !s.Fragment?
    ensures UsesOf(s) == Uses(Kids(s)) + Uses(Elses(s))
  {
  }

  /** A step that expands nested `d` levels deep has expanded the steps nested in it. */
  lemma PartsExpand(s: Step, scope: Scope, stack: seq<string>, prefix: string, d: nat)
    requires !s.Fragment? && ExpandStepAt(s, scope, stack, prefix, d).Ok?
    ensures var id := Join(prefix, s.id);
            && ExpandAt(Kids(s), scope, stack, KidsId(s, id), d + 1).Ok?
            && ExpandAt(Elses(s), scope, stack, id + ".else", d + 1).Ok?
  {
    ExpandPlainAt(s, scope, stack, prefix, d);
  }

  lemma FragmentExpands(s: Step, scope: Scope, stack: seq<string>, prefix: string, d: nat)
    requires s.Fragment? && ExpandStepAt(s, scope, stack, prefix, d).Ok?
    ensures var f := s.useFragment;
            && f !in stack && f in scope.frags
            && Expand(scope.frags[f], scope, stack + [f], Join(prefix, s.id)).Ok?
  {
    FragmentTimes(s, scope.vars, d);
  }

  /** Expansion that succeeds has also expanded every fragment it uses, on a longer stack. */
  lemma {:induction false} SuccessEnters(
      steps: seq<Step>, scope: Scope, stack: seq<string>, prefix: string, f: string, d: nat) returns (inner: string)
    requires f in Uses(steps)
    requires ExpandAt(steps, scope, stack, prefix, d).Ok?
    ensures f !in stack && f in scope.frags
    ensures Expand(scope.frags[f], scope, stack + [f], inner).Ok?
    decreases SizeAll(steps), 1
  {
    ExpandAtCons(steps, scope, stack, prefix, d);
    if f in UsesOf(steps[0]) {
      inner := SuccessEntersStep(steps[0], scope, stack, prefix, f, d);
    } else {
      inner := SuccessEnters(steps[1..], scope, stack, prefix, f, d);
    }
  }

  lemma {:induction false} SuccessEntersStep(
      s: Step, scope: Scope, stack: seq<string>, prefix: string, f: string, d: nat) returns (inner: string)
    requires f in UsesOf(s)
    requires ExpandStepAt(s, scope, stack, prefix, d).Ok?
    ensures f !in stack && f in scope.frags
    ensures Expand(scope.frags[f], scope, stack + [f], inner).Ok?
    decreases Size(s), 0
  {
    var id := Join(prefix, s.id);
    if s.Fragment? {
      FragmentExpands(s, scope, stack, prefix, d);
      inner := id;
    } else {
      UsesOfParts(s);
      PartsExpand(s, scope, stack, prefix, d);
      if f in Uses(Kids(s)) {
        inner := SuccessEnters(Kids(s), scope, stack, KidsId(s, id), f, d + 1);
      } else {
        inner := SuccessEnters(Elses(s), scope, stack, id + ".else", f, d + 1);
      }
    }
  }

  lemma {:induction false} SuccessHasNoCycle(
      steps: seq<Step>, scope: Scope, stack: seq<string>, prefix: string, w: seq<string>)
    requires Expand(steps, scope, stack, prefix).Ok?
    requires Walk(scope.frags, Uses(steps), w)
    ensures forall i | 0 <= i < |w| :: w[i] !in stack
    ensures !Repeats(w)
    ensures w != [] ==> Complete(scope.frags[w[|w| - 1]], scope)
    decreases |w|
  {
    if w == [] {
    } else {
      AtTop(steps, scope, stack, prefix);
      var inner := SuccessEnters(steps, scope, stack, prefix, w[0], 0);
      var rest := w[1..];
      assert Walk(scope.frags, Uses(scope.frags[w[0]]), rest) by {
        forall i | 0 < i < |rest| ensures rest[i] in Uses(scope.frags[rest[i - 1]]) {
          assert rest[i] == w[i + 1] && rest[i - 1] == w[i];
        }
      }
      SuccessHasNoCycle(scope.frags[w[0]], scope, stack + [w[0]], inner, rest);
      SuccessComplete(scope.frags[w[0]], scope, stack + [w[0]], inner);
      forall i | 0 < i < |w| ensures w[i] !in stack && w[i] != w[0] {
        assert w[i] == rest[i - 1] && rest[i - 1] !in stack + [w[0]];
      }
      forall i, j | 0 <= i < j < |w| ensures w[i] != w[j] {
        if i > 0 { assert w[i] == rest[i - 1] && w[j] == rest[j - 1]; }
      }
    }
  }

  lemma AtTop(steps: seq<Step>, scope: Scope, stack: seq<string>, prefix: string)
    ensures ExpandAt(steps, scope, stack, prefix, 0) == Expand(steps, scope, stack, prefix)
  {
    assert StepsTimes(steps, scope.vars, 0) == Ok(steps);
  }

  lemma SuccessComplete(steps: seq<Step>, scope: Scope, stack: seq<string>, prefix: string)
    requires Expand(steps, scope, stack, prefix).Ok?
    ensures Complete(steps, scope)
  {
    AtTop(steps, scope, stack, prefix);
    ExpandsSubstitutes(steps, scope, stack, prefix, 0);
    forall f | f in Uses(steps) ensures f in scope.frags {
      var inner := SuccessEnters(steps, scope, stack, prefix, f, 0);
    }
  }

  /** Expansion succeeds exactly when the steps, and every fragment that can be reached
      from them, are complete and no fragment cycle can be reached. Where all is complete
      and it fails, the error is a cycle error, and its path is such a cycle. */
  lemma ExpandsIff(steps: seq<Step>, scope: Scope)
    ensures Expand(steps, scope, [], "").Ok? <==>
              && Complete(steps, scope) && CompleteBelow(Uses(steps), scope)
              && !CycleReachable(steps, scope.frags)
    ensures Complete(steps, scope) && CompleteBelow(Uses(steps), scope) && Expand(steps, scope, [], "").Err? ==>
              var e := Expand(steps, scope, [], "").error;
              e.FragmentCycle? && Walk(scope.frags, Uses(steps), e.path) && Repeats(e.path)
  {
    AtTop(steps, scope, [], "");
    if Expand(steps, scope, [], "").Ok? {
      SuccessComplete(steps, scope, [], "");
      forall w: seq<string> | Walk(scope.frags, Uses(steps), w)
        ensures !Repeats(w) && (w != [] ==> Complete(scope.frags[w[|w| - 1]], scope))
      {
        SuccessHasNoCycle(steps, scope, [], "", w);
      }
    } else if Complete(steps, scope) && CompleteBelow(Uses(steps), scope) {
      FailureIsCycle(steps, scope, [], "", Uses(steps), 0);
    }
  }

  /** With every reference and variable defined it fails exactly when a cycle is reachable. */
  lemma CycleErrorIffCycleReachable(steps: seq<Step>, scope: Scope)
    requires Complete(steps, scope) && forall f | f in scope.frags :: Complete(scope.frags[f], scope)
    ensures Expand(steps, scope, [], "").Ok? <==> !CycleReachable(steps, scope.frags)
    ensures Expand(steps, scope, [], "").Err? ==>
              var e := Expand(steps, scope, [], "").error;
              e.FragmentCycle? && Walk(scope.frags, Uses(steps), e.path) && Repeats(e.path)
  {
    ExpandsIff(steps, scope);
  }

  // ----- the browser journey expander -----

  /** A journey step is an action or a use of a fragment; journeys do not nest. */
  datatype JourneyStep = Action(action: string) | Use(fragment: string)

  function ExpandJourney(
      steps: seq<JourneyStep>, frags: map<string, seq<JourneyStep>>, stack: seq<string>): Result<seq<string>>
    decreases |frags.Keys - Elems(stack)|, |steps|
  {
    if steps == [] then Ok([])
    else
      var head :- (
        match steps[0]
        case Action(a) => Ok([a])
        case Use(f) =>
          if f in stack then Err(FragmentCycle(stack + [f]))
          else if f !in frags then Err(UnknownFragment(f))
          else
            assert frags.Keys - Elems(stack + [f]) == frags.Keys - Elems(stack) - {f};
            ExpandJourney(frags[f], frags, stack + [f]));
      var tail :- ExpandJourney(steps[1..], frags, stack);
      Ok(head + tail)
  }

  /** A journey as scenario steps: actions become tasks without input. */
  function Lift(steps: seq<JourneyStep>): (r: seq<Step>)
    ensures |r| == |steps|
  {
    if steps == [] then []
    else
      [match steps[0]
       case Action(a) => Task("step", Call(a, None), None, None, None)
       case Use(f) => Fragment("step", f)] + Lift(steps[1..])
  }

  function LiftScope(frags: map<string, seq<JourneyStep>>): Scope {
    Scope(map f | f in frags :: Lift(frags[f]), [])
  }

  function ActionsOf(steps: seq<Step>): seq<string> {
    if steps == [] then []
    else (if steps[0].Task? then [steps[0].call.action] else []) + ActionsOf(steps[1..])
  }

  lemma {:induction false} ActionsOfConcat(a: seq<Step>, b: seq<Step>)
    ensures ActionsOf(a + b) == ActionsOf(a) + ActionsOf(b)
  {
    if a == [] {
      assert a + b == b;
    } else {
      assert (a + b)[0] == a[0] && (a + b)[1..] == a[1..] + b;
      ActionsOfConcat(a[1..], b);
    }
  }

  /** Same error with the same path, or the same actions in the same order. */
  predicate SameExpansion(j: Result<seq<string>>, e: Result<seq<Step>>) {
    match j
    case Ok(actions) => e.Ok? && ActionsOf(e.value) == actions
    case Err(error) => e == Err(error)
  }

  lemma ThenSame(j1: Result<seq<string>>, j2: Result<seq<string>>, e1: Result<seq<Step>>, e2: Result<seq<Step>>)
    requires SameExpansion(j1, e1) && SameExpansion(j2, e2)
    ensures SameExpansion(if j1.Err? then j1 else if j2.Err? then j2 else Ok(j1.value + j2.value), Then(e1, e2))
  {
    if j1.Ok? && j2.Ok? { ActionsOfConcat(e1.value, e2.value); }
  }

  lemma LiftActionExpands(a: string, scope: Scope, stack: seq<string>, prefix: string)
    ensures var r := ExpandStep(Task("step", Call(a, None), None, None, None), scope, stack, prefix);
            SameExpansion(Ok([a]), r)
  {
    var step := Task("step", Call(a, None), None, None, None);
    var r := Task(Join(prefix, "step"), Call(a, None), None, None, None);
    assert ResolveStep(step, Join(prefix, "step"), scope, stack) == Ok(r);
    assert [r][1..] == [] && [a] + ActionsOf([]) == [a];
  }

  /** The journey expander is the scenario expander on flat steps. */
  lemma {:induction false} JourneyExpansion(
      steps: seq<JourneyStep>, frags: map<string, seq<JourneyStep>>, stack: seq<string>, prefix: string)
    ensures SameExpansion(ExpandJourney(steps, frags, stack), Expand(Lift(steps), LiftScope(frags), stack, prefix))
    decreases |frags.Keys - Elems(stack)|, |steps|
  {
    var scope := LiftScope(frags);
    if steps == [] {
    } else {
      assert Lift(steps)[1..] == Lift(steps[1..]);
      ExpandCons(Lift(steps), scope, stack, prefix);
      JourneyExpansion(steps[1..], frags, stack, prefix);
      var tail, tail' := ExpandJourney(steps[1..], frags, stack), Expand(Lift(steps[1..]), scope, stack, prefix);
      match steps[0]
      case Action(a) =>
        LiftActionExpands(a, scope, stack, prefix);
        ThenSame(Ok([a]), tail, ExpandStep(Lift(steps)[0], scope, stack, prefix), tail');
      case Use(f) =>
        if f in frags && f !in stack {
          assert frags.Keys - Elems(stack + [f]) == frags.Keys - Elems(stack) - {f};
          JourneyExpansion(frags[f], frags, stack + [f], Join(prefix, "step"));
          ThenSame(ExpandJourney(frags[f], frags, stack + [f]), tail,
                   ExpandStep(Lift(steps)[0], scope, stack, prefix), tail');
        }
    }
  }

  /** So a journey fails with a cycle error exactly when a fragment cycle is reachable. */
  lemma JourneyCycleIff(steps: seq<JourneyStep>, frags: map<string, seq<JourneyStep>>)
    requires Uses(Lift(steps)) <= frags.Keys
    requires forall f | f in frags :: Uses(Lift(frags[f])) <= frags.Keys
    ensures ExpandJourney(steps, frags, []).Ok? <==> !CycleReachable(Lift(steps), LiftScope(frags).frags)
    ensures ExpandJourney(steps, frags, []).Err? ==> ExpandJourney(steps, frags, []).error.FragmentCycle?
  {
    var scope := LiftScope(frags);
    assert scope.frags.Keys == frags.Keys;
    LiftComplete(steps);
    forall f | f in frags ensures Complete(scope.frags[f], scope) { LiftComplete(frags[f]); }
    CycleErrorIffCycleReachable(Lift(steps), scope);
    JourneyExpansion(steps, frags, [], "");
  }

  lemma {:induction false} LiftComplete(steps: seq<JourneyStep>)
    ensures Substitutes(Lift(steps), [], 0)
  {
    if steps == [] {
    } else {
      LiftComplete(steps[1..]);
      assert Lift(steps)[1..] == Lift(steps[1..]);
      var s := Lift(steps)[0];
      assert OwnTimes(s, [], 0) == Ok(s);
      if s.Task? {
        assert SubstOwn(s, []) == Ok(s);
        assert OwnTimes(s, [], 1) == Ok(s);
        assert Kids(s) == [] && Elses(s) == [] && Substitutes([], [], 1);
      }
    }
  }
}
