/** The condition on a scenario under which its passed tasks are always compensated is
    exact: where it fails, some schedule leaves a compensation behind. */
module Exposure {
  import opened Json
  import opened Steps
  import opened Template
  import opened Resolver
  import opened Interpreter
  import opened Moves
  import opened Attempts
  import opened Lifecycle
  import opened Runs
  import opened FailFast
  import opened Compensations
  import opened Coverage
  import opened Steering

  predicate Owes(p: Proc) { Gather(p, Unpaid) != multiset{} }

  lemma MemberOwes(members: seq<Proc>, i: nat)
    requires i < |members| && Owes(members[i])
    ensures GatherAll(members, Unpaid) != multiset{}
  {
    var rest := GatherUpdate(members, i, members[i], Unpaid);
    var c :| c in Gather(members[i], Unpaid);
    assert c in rest + Gather(members[i], Unpaid);
  }

  // ----- a task passes and has not registered its compensation -----

  lemma {:induction false} Uncovered(steps: seq<Step>, alone: bool) returns (i: nat)
    requires !Covered(steps, alone)
    ensures i < |steps| && !CoveredStep(steps[i], alone)
  {
    if !CoveredStep(steps[0], alone) {
      i := 0;
    } else {
      i := Uncovered(steps[1..], alone);
      i := i + 1;
    }
  }

  /** The group with one member moved and the others waiting is open. */
  lemma WaitingGroup(steps: seq<Step>, i: nat, q: Proc, signal: Option<Fault>, env: Env) returns (after: seq<Proc>)
    requires i < |steps| && OutcomeOf(q, env.scope) == None
    ensures var members := Members(Block(steps, Absolute), env.scope);
            && after == members[i := q] && |after| == |steps| && after[i] == q
            && (forall j | 0 <= j < |steps| && j != i :: after[j] == Pending(steps[j], Absolute))
            && GroupAfter(members, i, q, None, None, signal, env.scope) == Group(after, None, None)
  {
    after := Members(Block(steps, Absolute), env.scope)[i := q];
  }

  /** A path of member `i` of a parallel step that has just started. */
  lemma MemberStarts(
      steps: seq<Step>, i: nat, signal: Option<Fault>, own: seq<Turn>, st: Store, env: Env, q: Proc, st': Store)
      returns (turns: seq<Turn>)
    requires i < |steps| && Path(Start(steps[i], Absolute, st, env), signal, own, st, env, q, st')
    ensures var members := Members(Block(steps, Absolute), env.scope);
            Path(Group(members, None, None), signal, turns, st, env,
                 GroupAfter(members, i, q, None, None, signal, env.scope), st')
  {
    var members := Members(Block(steps, Absolute), env.scope);
    PendingPath(steps[i], signal, own, st, env, q, st');
    MemberPath(members, i, signal, [Turn([], Go)] + own, st, env, q, st');
    turns := Under(i, [Turn([], Go)] + own);
  }

  /** A step that is not covered beside others has a task that can pass and owe its
      compensation. */
  lemma {:induction false} StartOwes(step: Step, st: Store, env: Env) returns (turns: seq<Turn>, q: Proc, st': Store)
    requires SimpleStep(step) && !CoveredStep(step, false)
    ensures Path(Start(step, Absolute, st, env), None, turns, st, env, q, st')
    ensures OutcomeOf(q, env.scope) == None && Owes(q)
    decreases Size(step), 1
  {
    var core;
    turns, core, st' := CoreOwes(step, st, env);
    ClockedPath(step, None, turns, st, env, core, st');
    turns, q := ClockedTurns(step, turns), Clocked(step, core);
  }

  lemma {:induction false} CoreOwes(step: Step, st: Store, env: Env) returns (turns: seq<Turn>, q: Proc, st': Store)
    requires SimpleStep(step) && !CoveredStep(step, false)
    ensures Path(StartCore(step, Absolute, st, env), None, turns, st, env, q, st')
    ensures OutcomeOf(q, env.scope) == None && Owes(q)
    decreases Size(step), 0
  {
    match step
    case Task(_, _, _, _, compensate) =>
      var number;
      turns, number, st' := HandlerWins(step, 0, None, st, env);
      q := Action(step, 0, Reporting(number, None));
      assert Compensation(step.id, compensate.value) in Gather(q, Unpaid);
    case Parallel(_, _, steps) =>
      var i := Uncovered(steps, false);
      assert steps[i] in steps;
      SizeOfMember(steps, i);
      var own, m, st1 := StartOwes(steps[i], st, env);
      turns := MemberStarts(steps, i, None, own, st, env, m, st1);
      var after := WaitingGroup(steps, i, m, None, env);
      MemberOwes(after, i);
      q, st' := Group(after, None, None), st1;
    case Repeat(_, _, times, steps) =>
      var own, round, st1 := ListOwes(Settled(Fulfilled), steps, st, env);
      RoundPath(Settled(Fulfilled), times, steps, own, st, env, round, st1);
      turns, q, st' := [Turn([], Go)] + own, Loop(round, times - 1, Block(steps, Absolute)), st1;
  }

  lemma {:induction false} ListOwes(head: Proc, steps: seq<Step>, st: Store, env: Env)
      returns (turns: seq<Turn>, q: Proc, st': Store)
    requires Simple(steps) && !Covered(steps, false) && Completed(head, env.scope)
    ensures Path(Sequence(head, [Block(steps, Absolute)]), None, turns, st, env, q, st')
    ensures OutcomeOf(q, env.scope) == None && Owes(q)
    decreases SizeAll(steps), 2
  {
    assert steps[0] in steps;
    var own, next, st1;
    if CoveredStep(steps[0], false) {
      SimpleIsPassable(steps[0]);
      own, next, st1 := StartPasses(steps[0], st, env);
      ListPath(head, steps, own, st, env, next, st1);
      var rest;
      rest, q, st' := ListOwes(next, steps[1..], st1, env);
      PathThen(Sequence(head, [Block(steps, Absolute)]), None, [Turn([], Go)] + own, st, env,
               Sequence(next, [Block(steps[1..], Absolute)]), st1, rest, q, st');
      turns := ([Turn([], Go)] + own) + rest;
    } else {
      own, next, st1 := StartOwes(steps[0], st, env);
      ListPath(head, steps, own, st, env, next, st1);
      turns, q, st' := [Turn([], Go)] + own, Sequence(next, [Block(steps[1..], Absolute)]), st1;
    }
  }

  // ----- where it can be left behind -----

  /** A compensation is owed below a timer, or in a member of a group beside one that
      waits and can fail. */
  predicate Doomed(p: Proc) {
    match p
    case Sequence(head, _) => Doomed(head)
    case Loop(body, _, _) => Doomed(body)
    case Timed(body, own, out) => own == None && out == None && Owes(body)
    case Group(members, own, out) =>
      own == None && out == None &&
      (|| (exists i :: 0 <= i < |members| && Doomed(members[i]))
       || exists i, j | 0 <= i < |members| && 0 <= j < |members| :: Beside(members, i, j))
    case _ => false
  }

  predicate Beside(members: seq<Proc>, i: nat, j: nat)
    requires i < |members| && j < |members|
  {
    && i != j && Owes(members[i])
    && members[j].Pending? && members[j].ctx.Absolute? && SimpleStep(members[j].step) && !Inert(members[j].step)
  }

  lemma {:induction false} DoomedOpen(p: Proc, scope: Scope)
    requires Doomed(p)
    ensures OutcomeOf(p, scope) == None
  {
    match p
    case Sequence(head, _) => DoomedOpen(head, scope);
    case Loop(body, _, _) => DoomedOpen(body, scope);
    case _ =>
  }

  /** Any step that is not covered alone can be brought there. */
  lemma {:induction false} StartDoomed(step: Step, st: Store, env: Env) returns (turns: seq<Turn>, q: Proc, st': Store)
    requires SimpleStep(step) && !CoveredStep(step, true)
    ensures Path(Start(step, Absolute, st, env), None, turns, st, env, q, st') && Doomed(q)
    decreases Size(step), 0
  {
    if HasTimer(step) {
      UncoveredBelowTimer(step);
      turns, q, st' := TimerOwes(step, st, env);
    } else {
      match step
      case Parallel(_, _, steps) => turns, q, st' := ParallelDoomed(step, st, env);
      case Repeat(_, _, times, steps) =>
        var own, round, st1 := ListDoomed(Settled(Fulfilled), steps, st, env);
        RoundPath(Settled(Fulfilled), times, steps, own, st, env, round, st1);
        turns, q, st' := [Turn([], Go)] + own, Loop(round, times - 1, Block(steps, Absolute)), st1;
    }
  }

  lemma UncoveredBelowTimer(step: Step)
    requires SimpleStep(step) && !CoveredStep(step, true) && HasTimer(step)
    ensures !CoveredStep(step, false)
  {
  }

  lemma TimerOwes(step: Step, st: Store, env: Env) returns (turns: seq<Turn>, q: Proc, st': Store)
    requires SimpleStep(step) && !CoveredStep(step, false) && HasTimer(step)
    ensures Path(Start(step, Absolute, st, env), None, turns, st, env, q, st') && Doomed(q)
  {
    var own, core, st1 := CoreOwes(step, st, env);
    ClockedPath(step, None, own, st, env, core, st1);
    turns, q, st' := ClockedTurns(step, own), Clocked(step, core), st1;
  }

  lemma {:induction false} ParallelDoomed(step: Step, st: Store, env: Env)
      returns (turns: seq<Turn>, q: Proc, st': Store)
    requires step.Parallel? && SimpleStep(step) && !CoveredStep(step, true) && !HasTimer(step)
    ensures Path(Start(step, Absolute, st, env), None, turns, st, env, q, st') && Doomed(q)
    decreases SizeAll(step.steps), 1
  {
    var steps := step.steps;
    var i := Uncovered(steps, false);
    assert steps[i] in steps;
    SizeOfMember(steps, i);
    if CoveredStep(steps[i], true) {
      assert !OthersInert(steps, i);
      var j :| 0 <= j < |steps| && j != i && !Inert(steps[j]);
      assert steps[j] in steps;
      var own, m, st1 := StartOwes(steps[i], st, env);
      turns := MemberStarts(steps, i, None, own, st, env, m, st1);
      var after := WaitingGroup(steps, i, m, None, env);
      assert Beside(after, i, j);
      q, st' := Group(after, None, None), st1;
    } else {
      var own, m, st1 := StartDoomed(steps[i], st, env);
      DoomedOpen(m, env.scope);
      turns := MemberStarts(steps, i, None, own, st, env, m, st1);
      var after := WaitingGroup(steps, i, m, None, env);
      assert Doomed(after[i]);
      q, st' := Group(after, None, None), st1;
    }
  }

  lemma {:induction false} ListDoomed(head: Proc, steps: seq<Step>, st: Store, env: Env)
      returns (turns: seq<Turn>, q: Proc, st': Store)
    requires Simple(steps) && !Covered(steps, true) && Completed(head, env.scope)
    ensures Path(Sequence(head, [Block(steps, Absolute)]), None, turns, st, env, q, st') && Doomed(q)
    decreases SizeAll(steps), 2
  {
    assert steps[0] in steps;
    var own, next, st1;
    if CoveredStep(steps[0], true) {
      SimpleIsPassable(steps[0]);
      own, next, st1 := StartPasses(steps[0], st, env);
      ListPath(head, steps, own, st, env, next, st1);
      var rest;
      rest, q, st' := ListDoomed(next, steps[1..], st1, env);
      PathThen(Sequence(head, [Block(steps, Absolute)]), None, [Turn([], Go)] + own, st, env,
               Sequence(next, [Block(steps[1..], Absolute)]), st1, rest, q, st');
      turns := ([Turn([], Go)] + own) + rest;
    } else {
      own, next, st1 := StartDoomed(steps[0], st, env);
      ListPath(head, steps, own, st, env, next, st1);
      turns, q, st' := [Turn([], Go)] + own, Sequence(next, [Block(steps[1..], Absolute)]), st1;
    }
  }

  // ----- an abort leaves it behind -----

  /** A step that is not inert fails once its signal is aborted. */
  lemma {:induction false} StartFails(step: Step, reason: Fault, st: Store, env: Env)
      returns (turns: seq<Turn>, q: Proc, st': Store)
    requires SimpleStep(step) && !Inert(step)
    ensures Path(Start(step, Absolute, st, env), Some(reason), turns, st, env, q, st') && Rejects(q, env.scope)
    decreases step
  {
    var start, signal, go := Start(step, Absolute, st, env), Some(reason), Turn([], Go);
    if HasTimer(step) || step.Task? {
      PathOne(start, signal, go, st, env);
      turns, q, st' := [go], Next(start, signal, [], Go, st, env).0, Next(start, signal, [], Go, st, env).1;
    } else {
      match step
      case Parallel(_, _, steps) =>
        var s :| s in steps && !Inert(s);
        var i :| 0 <= i < |steps| && steps[i] == s;
        var own, m, st1 := StartFails(s, reason, st, env);
        turns := MemberStarts(steps, i, signal, own, st, env, m, st1);
        q, st' := GroupAfter(Members(Block(steps, Absolute), env.scope), i, m, None, None, signal, env.scope), st1;
      case Repeat(_, _, times, steps) => turns, q, st' := RepeatFails(times, steps, reason, st, env);
    }
  }

  /** A repeat looks at its signal before its first step. */
  lemma RepeatFails(times: nat, steps: seq<Step>, reason: Fault, st: Store, env: Env)
      returns (turns: seq<Turn>, q: Proc, st': Store)
    requires times > 0 && steps != []
    ensures Path(Loop(Settled(Fulfilled), times, Block(steps, Absolute)), Some(reason), turns, st, env, q, st')
    ensures Rejects(q, env.scope)
  {
    var again, signal, go := Block(steps, Absolute), Some(reason), Turn([], Go);
    var round := Loop(Run(again), times - 1, again);
    var stopped := Sequence(Settled(Rejected(Thrown(reason))), [Block(steps[1..], Absolute)]);
    FetchFirst(steps, env.scope);
    assert Run(again) == Sequence(Settled(Fulfilled), [Block(steps, Absolute)]);
    assert OutcomeOf(Run(again), env.scope) == None;
    assert Next(Run(again), signal, [], Go, st, env) == (stopped, st);
    assert OutcomeOf(stopped, env.scope) == Some(Rejected(Thrown(reason)));
    PathOne(round, signal, go, st, env);
    q, st' := Next(round, signal, [], Go, st, env).0, Next(round, signal, [], Go, st, env).1;
    TurnThen(Loop(Settled(Fulfilled), times, again), signal, go, st, env, round, st, [go], q, st');
    turns := [go] + [go];
  }

  /** Once a member has failed the group has, and still owes what another member owes. */
  lemma GroupFails(members: seq<Proc>, i: nat, j: nat, q: Proc, signal: Option<Fault>, env: Env)
    requires i < |members| && j < |members| && Rejects(q, env.scope) && OutcomeOf(members[j], env.scope) == None
    requires if i == j then Owes(q) else Owes(members[i])
    ensures var g := GroupAfter(members, j, q, None, None, signal, env.scope); Rejects(g, env.scope) && Owes(g)
  {
    MemberOwes(members[j := q], i);
  }

  /** Once its signal is aborted, what is doomed fails with a compensation owed. */
  lemma {:induction false} Fails(p: Proc, reason: Fault, st: Store, env: Env)
      returns (turns: seq<Turn>, q: Proc, st': Store)
    requires Doomed(p)
    ensures Path(p, Some(reason), turns, st, env, q, st') && Rejects(q, env.scope) && Owes(q)
    decreases p
  {
    var signal, go := Some(reason), Turn([], Go);
    match p
    case Sequence(head, code) =>
      var h;
      turns, h, st' := Fails(head, reason, st, env);
      HeadPath(head, code, signal, turns, st, env, h, st');
      q := Sequence(h, code);
    case Loop(body, left, again) =>
      var b;
      turns, b, st' := Fails(body, reason, st, env);
      BodyPath(body, left, again, signal, turns, st, env, b, st');
      q := Loop(b, left, again);
    case Timed(body, _, _) =>
      PathOne(p, signal, go, st, env);
      turns, q, st' := [go], Timed(body, None, Some(Rejected(reason))), st;
    case Group(members, _, _) =>
      if i :| 0 <= i < |members| && Doomed(members[i]) {
        var own, m, st1 := Fails(members[i], reason, st, env);
        DoomedOpen(members[i], env.scope);
        MemberPath(members, i, signal, own, st, env, m, st1);
        GroupFails(members, i, i, m, signal, env);
        turns, q, st' := Under(i, own), GroupAfter(members, i, m, None, None, signal, env.scope), st1;
      } else {
        var i, j :| 0 <= i < |members| && 0 <= j < |members| && Beside(members, i, j);
        var own, m, st1 := StartFails(members[j].step, reason, st, env);
        PendingPath(members[j].step, signal, own, st, env, m, st1);
        MemberPath(members, j, signal, [go] + own, st, env, m, st1);
        GroupFails(members, i, j, m, signal, env);
        turns, q, st' := Under(j, [go] + own), GroupAfter(members, j, m, None, None, signal, env.scope), st1;
      }
  }

  // ----- phases and runs -----

  /** A phase that is not covered fails in some schedule with a compensation owed. */
  lemma PhaseFails(steps: seq<Step>, st: Store, env: Env) returns (moves: seq<Move>)
    requires Simple(steps) && !Covered(steps, true)
    ensures var s := Play(State(Run(Block(steps, Absolute)), None, st), moves, env);
            Rejects(s.proc, env.scope) && Owes(s.proc)
  {
    var start := State(Run(Block(steps, Absolute)), None, st);
    var turns, p, st1 := ListDoomed(Settled(Fulfilled), steps, st, env);
    PlayPath(start.proc, None, turns, st, env, p, st1);
    var more, q, st2 := Fails(p, Cancelled, st1, env);
    PlayPath(p, Some(Cancelled), more, st1, env, q, st2);
    PlayConcat(start, AsMoves(turns), [Abort(Cancelled)] + AsMoves(more), env);
    PlayFirst(State(p, None, st1), Abort(Cancelled), AsMoves(more), env);
    moves := AsMoves(turns) + ([Abort(Cancelled)] + AsMoves(more));
  }

  function Quiet(moves: nat -> seq<Move>): World {
    World(None, moves, [], _ => Attempted([], None), _ => Cleaned(None, None, []))
  }

  /** Only the schedules of the phases to come matter. */
  lemma {:induction false} SameFrom(
      phases: seq<Block>, i: nat, abort: Option<Fault>, store: Store, env: Env, a: nat -> seq<Move>,
      b: nat -> seq<Move>)
    requires |phases| == |PHASES| && i <= |PHASES| && forall k: nat | i <= k :: a(k) == b(k)
    ensures RunPhases(phases, i, abort, store, env, Quiet(a)) == RunPhases(phases, i, abort, store, env, Quiet(b))
    decreases |PHASES| - i
  {
    if i == |PHASES| || abort.Some? {
    } else {
      var s := Play(State(Run(phases[i]), abort, store), a(i), env);
      SameFrom(phases, i + 1, s.abort, s.store, env, a, b);
    }
  }

  predicate SimpleBlock(b: Block) { b.ctx.Absolute? && Simple(b.steps) }

  lemma {:induction false} RunFails(phases: seq<Block>, i: nat, store: Store, env: Env)
      returns (moves: nat -> seq<Move>)
    requires |phases| == |PHASES| && i <= |PHASES| && forall b | b in phases :: SimpleBlock(b)
    requires exists k :: i <= k < |PHASES| && !Covered(phases[k].steps, true)
    ensures var end := RunPhases(phases, i, None, store, env, Quiet(moves));
            end.over && end.error.Some? && Owes(end.proc)
    decreases |PHASES| - i
  {
    assert SimpleBlock(phases[i]) && phases[i] == Block(phases[i].steps, Absolute);
    var start := State(Run(phases[i]), None, store);
    var own;
    if Covered(phases[i].steps, true) {
      SimplePassable(phases[i].steps);
      own := PhasePasses(phases[i].steps, store, env);
      var s := Play(start, own, env);
      var rest := RunFails(phases, i + 1, s.store, env);
      moves := (k: nat) => if k == i then own else rest(k);
      SameFrom(phases, i + 1, s.abort, s.store, env, moves, rest);
    } else {
      own := PhaseFails(phases[i].steps, store, env);
      moves := (k: nat) => own;
      assert Play(Play(start, own, env), [], env) == Play(start, own, env);
    }
  }

  /** The report of a run. */
  function ReportOf(end: PhasesEnd, w: World): RunReport
    requires end.entered <= |PHASES|
  {
    var entries := Lifecycle.Reverse(Lifecycle.Due(end, w));
    var errors := CompensationErrors(w, |Lifecycle.Compensations(end)|) + CleanupErrors(entries, w, |entries|);
    var status := if errors != [] && OutcomeStatus(end) == RUN_PASSED then RUN_FAILED else OutcomeStatus(end);
    RunReport(status, Emitted(end.entered, OutcomeStatus(end), status), end.error, Lifecycle.Compensations(end),
              entries, Released(entries, w, |entries|), errors)
  }

  lemma {:induction false} EnteredBounded(
      phases: seq<Block>, i: nat, abort: Option<Fault>, store: Store, env: Env, w: World)
    requires |phases| == |PHASES| && i <= |PHASES|
    ensures RunPhases(phases, i, abort, store, env, w).entered <= |PHASES|
    decreases |PHASES| - i
  {
    if i == |PHASES| || abort.Some? {
    } else {
      var s := Play(State(Run(phases[i]), abort, store), w.moves(i), env);
      EnteredBounded(phases, i + 1, s.abort, s.store, env, w);
    }
  }

  /** In this world the report compensates exactly the tasks recorded PASSED, if the run
      fails or is cancelled. */
  ghost predicate Compensates(phases: seq<Block>, env: Env, now: nat, w: World)
    requires |phases| == |PHASES|
  {
    var end := RunPhases(phases, 0, w.abort, Fresh(now), env, w);
    end.over && end.error.Some? ==>
      forall r: RunReport | Accounted(r, end, w) ::
        multiset(r.compensated) == multiset(Owed(RunHistory(phases, 0, w.abort, Fresh(now), env, w)))
  }

  /** For scenarios of tasks, parallel steps and repeats: every failed or cancelled run
      compensates exactly its tasks recorded PASSED, in every world, if and only if no
      phase has a task with a compensation below a timeout of a step, or below a parallel
      step in a member beside which another can fail. */
  lemma CompensatesIff(phases: seq<Block>, env: Env, now: nat)
    requires |phases| == |PHASES| && forall b | b in phases :: SimpleBlock(b)
    ensures (forall w: World :: Compensates(phases, env, now, w)) <==> CoveredCode(phases, true)
  {
    if CoveredCode(phases, true) {
      forall w: World ensures Compensates(phases, env, now, w) {
        var end := RunPhases(phases, 0, w.abort, Fresh(now), env, w);
        if end.over && end.error.Some? {
          forall r: RunReport | Accounted(r, end, w)
            ensures multiset(r.compensated) == multiset(Owed(RunHistory(phases, 0, w.abort, Fresh(now), env, w)))
          {
            CoveredCompensated(phases, env, w, now, r);
          }
        }
      }
    } else {
      var w := SomeWorldFails(phases, env, now);
    }
  }

  lemma SomeWorldFails(phases: seq<Block>, env: Env, now: nat) returns (w: World)
    requires |phases| == |PHASES| && (forall b | b in phases :: SimpleBlock(b)) && !CoveredCode(phases, true)
    ensures !Compensates(phases, env, now, w)
  {
    var b :| b in phases && !CoveredBlock(b, true);
    var k :| 0 <= k < |phases| && phases[k] == b;
    assert SimpleBlock(b);
    var moves := RunFails(phases, 0, Fresh(now), env);
    w := Quiet(moves);
    var end := RunPhases(phases, 0, None, Fresh(now), env, w);
    EnteredBounded(phases, 0, None, Fresh(now), env, w);
    var r := ReportOf(end, w);
    assert Accounted(r, end, w);
    CompensatedIff(phases, env, w, now, r);
  }
}
