/** Scenarios whose passed tasks are all compensated when a run fails, in any schedule. */
module Coverage {
  import opened Json
  import opened Steps
  import opened Template
  import opened Resolver
  import opened Interpreter
  import opened Moves
  import opened Attempts
  import opened Lifecycle
  import opened Runs
  import opened FailFast
  import opened Compensations

  // ----- what the steps say -----

  /** A step that cannot fail, not even when it is aborted: there is nothing to run in it. */
  predicate Inert(step: Step) {
    match step
    case Parallel(_, timeout, steps) => timeout.None? && forall s | s in steps :: Inert(s)
    case Repeat(_, timeout, _, steps) => timeout.None? && steps == []
    case Fragment(_, _) => true
    case _ => false
  }

  predicate OthersInert(steps: seq<Step>, i: nat) { forall j | 0 <= j < |steps| && j != i :: Inert(steps[j]) }

  /** No task with a compensation; or, while `alone`, none that can be left behind: none
      below a timeout of a step, and below a parallel step only in a member that has no
      other beside it that could fail. */
  predicate Covered(steps: seq<Step>, alone: bool) {
    steps == [] || (CoveredStep(steps[0], alone) && Covered(steps[1..], alone))
  }

  predicate CoveredStep(step: Step, alone: bool) {
    match step
    case Task(_, _, _, _, compensate) => alone || compensate.None?
    case Parallel(_, timeout, steps) =>
      || Covered(steps, false)
      || (alone && timeout.None? &&
          exists i :: 0 <= i < |steps| && CoveredStep(steps[i], true) && OthersInert(steps, i))
    case Repeat(_, timeout, _, steps) => Covered(steps, alone && timeout.None?)
    case Branch(_, timeout, _, thens, elses) =>
      Covered(thens, alone && timeout.None?) && Covered(elses, alone && timeout.None?)
    case _ => true
  }

  predicate CoveredBlock(b: Block, alone: bool) { b.ctx.Absolute? && Covered(b.steps, alone) }

  predicate CoveredCode(code: seq<Block>, alone: bool) { forall b | b in code :: CoveredBlock(b, alone) }

  lemma {:induction false} CoveredMember(steps: seq<Step>, alone: bool, i: nat)
    requires Covered(steps, alone) && i < |steps|
    ensures CoveredStep(steps[i], alone)
  {
    if i == 0 {
    } else {
      CoveredMember(steps[1..], alone, i - 1);
    }
  }

  // ----- activities with nothing to run -----

  predicate EmptyBlock(b: Block) { b.ctx.Absolute? && b.steps == [] }

  predicate InertProc(p: Proc) {
    match p
    case Settled(o) => o.Fulfilled?
    case Pending(step, ctx) => ctx.Absolute? && Inert(step)
    case Sequence(head, code) => InertProc(head) && forall b | b in code :: EmptyBlock(b)
    case Loop(body, _, again) => InertProc(body) && EmptyBlock(again)
    case Group(members, _, out) =>
      (forall m | m in members :: InertProc(m)) && (out.Some? ==> out.value.Fulfilled?)
    case _ => false
  }

  lemma {:induction false} NothingFetched(code: seq<Block>, scope: Scope)
    requires forall b | b in code :: EmptyBlock(b)
    ensures Fetch(code, scope) == None
  {
    if code == [] {
    } else {
      assert EmptyBlock(code[0]);
      NothingFetched(code[1..], scope);
    }
  }

  lemma {:induction false} InertHolds(p: Proc, scope: Scope)
    requires InertProc(p)
    ensures !Rejects(p, scope) && Gather(p, Unpaid) == multiset{}
  {
    match p
    case Sequence(head, _) => InertHolds(head, scope);
    case Loop(body, _, _) => InertHolds(body, scope);
    case Group(members, _, _) =>
      forall m | m in members ensures Gather(m, Unpaid) == multiset{} { InertHolds(m, scope); }
      NoneGathered(members, Unpaid);
    case _ =>
  }

  lemma InertStarts(step: Step, st: Store, env: Env)
    requires Inert(step)
    ensures InertProc(Start(step, Absolute, st, env))
  {
    if step.Parallel? {
      forall m | m in Members(Block(step.steps, Absolute), env.scope) ensures InertProc(m) {
        var i :| 0 <= i < |step.steps| && m == Pending(step.steps[i], Absolute);
        assert step.steps[i] in step.steps;
      }
    }
  }

  lemma {:induction false} InertNext(p: Proc, signal: Option<Fault>, addr: seq<nat>, ev: Event, st: Store, env: Env)
    requires InertProc(p)
    ensures InertProc(Next(p, signal, addr, ev, st, env).0)
    decreases p
  {
    match p
    case Pending(step, _) => InertStarts(step, st, env);
    case Sequence(head, code) =>
      NothingFetched(code, env.scope);
      if !Completed(head, env.scope) { InertNext(head, signal, addr, ev, st, env); }
    case Loop(body, _, again) =>
      if !Completed(body, env.scope) { InertNext(body, signal, addr, ev, st, env); }
      assert InertProc(Run(again));
    case Group(members, own, out) =>
      if addr != [] && addr[0] < |members| {
        assert members[addr[0]] in members;
        InertNext(members[addr[0]], Below(own, signal), addr[1..], ev, st, env);
        var m := Next(members[addr[0]], Below(own, signal), addr[1..], ev, st, env).0;
        InertGroup(members, addr[0], m, own, out, signal, env.scope);
      }
    case _ =>
  }

  lemma InertGroup(
      members: seq<Proc>, i: nat, m: Proc, own: Option<Fault>, out: Option<Outcome>, signal: Option<Fault>,
      scope: Scope)
    requires InertProc(Group(members, own, out)) && i < |members| && InertProc(m)
    ensures InertProc(GroupAfter(members, i, m, own, out, signal, scope))
  {
    InertHolds(m, scope);
    forall q | q in members[i := m] ensures InertProc(q) { if q != m { assert q in members; } }
  }

  // ----- covered activities -----

  /** One member may have compensations, and none of the others can fail: the group has
      settled only when that member has. */
  predicate OneCovers(members: seq<Proc>, i: nat, out: Option<Outcome>, scope: Scope) {
    && i < |members| && CoveredProc(members[i], true, scope)
    && (forall j | 0 <= j < |members| && j != i :: InertProc(members[j]))
    && (out.Some? ==> OutcomeOf(members[i], scope).Some?)
  }

  predicate CoveredProc(p: Proc, alone: bool, scope: Scope) {
    match p
    case Settled(_) => true
    case Pending(step, ctx) => ctx.Absolute? && CoveredStep(step, alone)
    case Action(step, _, _) => alone || Undo(step) == []
    case Sequence(head, code) => CoveredProc(head, alone, scope) && CoveredCode(code, alone)
    case Loop(body, _, again) => CoveredProc(body, alone, scope) && CoveredBlock(again, alone)
    case Group(members, _, out) =>
      || (forall m | m in members :: CoveredProc(m, false, scope))
      || (alone && exists i :: 0 <= i < |members| && OneCovers(members, i, out, scope))
    case Timed(body, _, _) => CoveredProc(body, false, scope)
  }

  lemma CoveredParallel(step: Step, st: Store, env: Env, alone: bool)
    requires step.Parallel? && CoveredStep(step, alone)
    ensures CoveredProc(StartCore(step, Absolute, st, env), alone && step.timeout.None?, env.scope)
  {
    var members := Members(Block(step.steps, Absolute), env.scope);
    if Covered(step.steps, false) {
      forall m | m in members ensures CoveredProc(m, false, env.scope) {
        var i :| 0 <= i < |step.steps| && m == Pending(step.steps[i], Absolute);
        CoveredMember(step.steps, false, i);
      }
    } else {
      var i :| 0 <= i < |step.steps| && CoveredStep(step.steps[i], true) && OthersInert(step.steps, i);
      assert members[i] == Pending(step.steps[i], Absolute) && CoveredProc(members[i], true, env.scope);
      forall j | 0 <= j < |members| && j != i ensures InertProc(members[j]) {
        assert members[j] == Pending(step.steps[j], Absolute);
      }
      assert OneCovers(members, i, None, env.scope);
    }
  }

  lemma CoveredStarts(step: Step, st: Store, env: Env, alone: bool)
    requires CoveredStep(step, alone)
    ensures CoveredProc(Start(step, Absolute, st, env), alone, env.scope)
  {
    match step
    case Parallel(_, _, _) => CoveredParallel(step, st, env, alone);
    case Repeat(_, timeout, _, steps) =>
      assert CoveredProc(StartCore(step, Absolute, st, env), alone && timeout.None?, env.scope);
    case Branch(_, timeout, _, _, _) =>
      assert CoveredProc(StartCore(step, Absolute, st, env), alone && timeout.None?, env.scope);
    case _ =>
  }

  lemma {:induction false} CoveredFetch(code: seq<Block>, scope: Scope, alone: bool)
    requires CoveredCode(code, alone)
    ensures var f := Fetch(code, scope);
            f.Some? ==> f.value.ctx.Absolute? && CoveredStep(f.value.step, alone) && CoveredCode(f.value.rest, alone)
  {
    if code == [] {
    } else {
      assert CoveredBlock(code[0], alone);
      forall b | b in code[1..] ensures CoveredBlock(b, alone) { assert b in code; }
      if code[0].steps == [] { CoveredFetch(code[1..], scope, alone); }
    }
  }

  /** What has settled stays settled. */
  lemma NextSettled(p: Proc, signal: Option<Fault>, addr: seq<nat>, ev: Event, st: Store, env: Env)
    requires Tidy(p, env.scope) && OutcomeOf(p, env.scope).Some?
    ensures OutcomeOf(Next(p, signal, addr, ev, st, env).0, env.scope).Some?
  {
    if Completed(p, env.scope) {
      CompletedStays(p, signal, addr, ev, st, env);
    } else {
      RejectedStays(p, signal, addr, ev, st, env);
    }
  }

  /** A member moves in a group in which member `i` has all the compensations. */
  lemma OneCoversStill(
      members: seq<Proc>, i: nat, k: nat, m: Proc, own: Option<Fault>, out: Option<Outcome>, signal: Option<Fault>,
      scope: Scope)
    requires OneCovers(members, i, out, scope) && k < |members|
    requires if k == i then CoveredProc(m, true, scope) else InertProc(m)
    requires k == i && OutcomeOf(members[i], scope).Some? ==> OutcomeOf(m, scope).Some?
    ensures var g := GroupAfter(members, k, m, own, out, signal, scope); OneCovers(g.members, i, g.out, scope)
  {
    var after := members[k := m];
    if k != i { InertHolds(m, scope); }
    assert after[i] in after;
  }

  lemma AllCoverStill(
      members: seq<Proc>, k: nat, m: Proc, own: Option<Fault>, out: Option<Outcome>, signal: Option<Fault>,
      scope: Scope, alone: bool)
    requires k < |members| && CoveredProc(m, false, scope) && forall q | q in members :: CoveredProc(q, false, scope)
    ensures CoveredProc(GroupAfter(members, k, m, own, out, signal, scope), alone, scope)
  {
    forall q | q in members[k := m] ensures CoveredProc(q, false, scope) { if q != m { assert q in members; } }
  }

  lemma MemberMoves(p: Proc, signal: Option<Fault>, addr: seq<nat>, ev: Event, st: Store, env: Env)
    requires Tidy(p, env.scope)
    ensures var m := Next(p, signal, addr, ev, st, env).0;
            && (InertProc(p) ==> InertProc(m))
            && (OutcomeOf(p, env.scope).Some? ==> OutcomeOf(m, env.scope).Some?)
  {
    if InertProc(p) { InertNext(p, signal, addr, ev, st, env); }
    if OutcomeOf(p, env.scope).Some? { NextSettled(p, signal, addr, ev, st, env); }
  }

  /** A member of a covered group moves. */
  lemma GroupCovered(
      members: seq<Proc>, k: nat, m: Proc, own: Option<Fault>, out: Option<Outcome>, signal: Option<Fault>,
      scope: Scope, alone: bool)
    requires CoveredProc(Group(members, own, out), alone, scope) && k < |members|
    requires CoveredProc(members[k], false, scope) ==> CoveredProc(m, false, scope)
    requires CoveredProc(members[k], true, scope) ==> CoveredProc(m, true, scope)
    requires InertProc(members[k]) ==> InertProc(m)
    requires OutcomeOf(members[k], scope).Some? ==> OutcomeOf(m, scope).Some?
    ensures CoveredProc(GroupAfter(members, k, m, own, out, signal, scope), alone, scope)
  {
    if forall q | q in members :: CoveredProc(q, false, scope) {
      AllCoverStill(members, k, m, own, out, signal, scope, alone);
    } else {
      var i :| 0 <= i < |members| && OneCovers(members, i, out, scope);
      OneCoversStill(members, i, k, m, own, out, signal, scope);
    }
  }

  lemma SequenceCovered(
      head: Proc, code: seq<Block>, signal: Option<Fault>, addr: seq<nat>, ev: Event, st: Store, env: Env, alone: bool)
    requires CoveredProc(Sequence(head, code), alone, env.scope) && Completed(head, env.scope)
    ensures CoveredProc(Next(Sequence(head, code), signal, addr, ev, st, env).0, alone, env.scope)
  {
    CoveredFetch(code, env.scope, alone);
    var f := Fetch(code, env.scope);
    if f.Some? { CoveredStarts(f.value.step, st, env, alone); }
  }

  lemma MemberCovered(
      members: seq<Proc>, own: Option<Fault>, out: Option<Outcome>, signal: Option<Fault>, addr: seq<nat>, ev: Event,
      st: Store, env: Env, alone: bool)
    requires Tidy(Group(members, own, out), env.scope) && addr != [] && addr[0] < |members|
    requires CoveredProc(Group(members, own, out), alone, env.scope)
    requires var m := Next(members[addr[0]], Below(own, signal), addr[1..], ev, st, env).0;
             && (CoveredProc(members[addr[0]], false, env.scope) ==> CoveredProc(m, false, env.scope))
             && (CoveredProc(members[addr[0]], true, env.scope) ==> CoveredProc(m, true, env.scope))
    ensures CoveredProc(Next(Group(members, own, out), signal, addr, ev, st, env).0, alone, env.scope)
  {
    var k := addr[0];
    assert members[k] in members;
    var m := Next(members[k], Below(own, signal), addr[1..], ev, st, env).0;
    MemberMoves(members[k], Below(own, signal), addr[1..], ev, st, env);
    GroupCovered(members, k, m, own, out, signal, env.scope, alone);
  }

  lemma {:induction false} CoveredNext(
      p: Proc, signal: Option<Fault>, addr: seq<nat>, ev: Event, st: Store, env: Env, alone: bool)
    requires Tidy(p, env.scope) && CoveredProc(p, alone, env.scope)
    ensures CoveredProc(Next(p, signal, addr, ev, st, env).0, alone, env.scope)
    decreases p
  {
    match p {
      case Pending(step, _) => CoveredStarts(step, st, env, alone);
      case Sequence(head, code) =>
        if Completed(head, env.scope) {
          SequenceCovered(head, code, signal, addr, ev, st, env, alone);
        } else {
          CoveredNext(head, signal, addr, ev, st, env, alone);
        }
      case Loop(body, _, again) =>
        if !Completed(body, env.scope) { CoveredNext(body, signal, addr, ev, st, env, alone); }
      case Group(members, own, out) =>
        if addr != [] && addr[0] < |members| {
          var k := addr[0];
          assert members[k] in members;
          if CoveredProc(members[k], false, env.scope) {
            CoveredNext(members[k], Below(own, signal), addr[1..], ev, st, env, false);
          }
          if CoveredProc(members[k], true, env.scope) {
            CoveredNext(members[k], Below(own, signal), addr[1..], ev, st, env, true);
          }
          MemberCovered(members, own, out, signal, addr, ev, st, env, alone);
        }
      case Timed(body, own, _) =>
        if addr != [] { CoveredNext(body, Below(own, signal), addr[1..], ev, st, env, false); }
      case _ =>
    }
  }

  lemma {:induction false} CoveredPlay(s: State, moves: seq<Move>, env: Env)
    requires Tidy(s.proc, env.scope) && CoveredProc(s.proc, true, env.scope)
    ensures CoveredProc(Play(s, moves, env).proc, true, env.scope)
    decreases |moves|
  {
    if moves == [] {
    } else {
      if moves[0].At? { CoveredNext(s.proc, s.abort, moves[0].addr, moves[0].ev, s.store, env, true); }
      MoveTidy(s, moves[0], env);
      CoveredPlay(Advance(s, moves[0], env), moves[1..], env);
    }
  }

  lemma {:induction false} NothingToPay(p: Proc, scope: Scope)
    requires CoveredProc(p, false, scope)
    ensures Gather(p, Unpaid) == multiset{}
  {
    match p
    case Sequence(head, _) => NothingToPay(head, scope);
    case Loop(body, _, _) => NothingToPay(body, scope);
    case Group(members, _, _) =>
      forall m | m in members ensures Gather(m, Unpaid) == multiset{} { NothingToPay(m, scope); }
      NoneGathered(members, Unpaid);
    case Timed(body, _, _) => NothingToPay(body, scope);
    case _ =>
  }

  /** What has settled has nothing left to pay. */
  lemma {:induction false} SettledPaid(p: Proc, scope: Scope)
    requires CoveredProc(p, true, scope) && OutcomeOf(p, scope).Some?
    ensures Gather(p, Unpaid) == multiset{}
  {
    match p
    case Sequence(head, _) => SettledPaid(head, scope);
    case Loop(body, _, _) => SettledPaid(body, scope);
    case Group(members, _, out) =>
      forall m | m in members ensures Gather(m, Unpaid) == multiset{} {
        if forall q | q in members :: CoveredProc(q, false, scope) {
          NothingToPay(m, scope);
        } else {
          var i :| 0 <= i < |members| && OneCovers(members, i, out, scope);
          var j :| 0 <= j < |members| && members[j] == m;
          if j == i { SettledPaid(members[i], scope); } else { InertHolds(m, scope); }
        }
      }
      NoneGathered(members, Unpaid);
    case Timed(body, _, _) => NothingToPay(body, scope);
    case _ =>
  }

  lemma SettledLater(s: State, moves: seq<Move>, env: Env)
    requires Tidy(s.proc, env.scope) && OutcomeOf(s.proc, env.scope).Some?
    ensures OutcomeOf(Play(s, moves, env).proc, env.scope).Some?
    decreases |moves|
  {
    if moves == [] {
    } else {
      MoveTidy(s, moves[0], env);
      SettledNext(s, moves[0], env);
      SettledLater(Advance(s, moves[0], env), moves[1..], env);
    }
  }

  lemma SettledNext(s: State, m: Move, env: Env)
    requires Tidy(s.proc, env.scope) && OutcomeOf(s.proc, env.scope).Some?
    ensures OutcomeOf(Advance(s, m, env).proc, env.scope).Some?
  {
    match m
    case At(addr, ev) => NextSettled(s.proc, s.abort, addr, ev, s.store, env);
    case _ =>
  }

  lemma {:induction false} CoveredRun(
      phases: seq<Block>, i: nat, abort: Option<Fault>, store: Store, env: Env, w: World)
    requires |phases| == |PHASES| && i <= |PHASES| && CoveredCode(phases, true)
    ensures var end := RunPhases(phases, i, abort, store, env, w);
            end.over ==> Gather(end.proc, Unpaid) == multiset{}
    decreases |PHASES| - i
  {
    if i == |PHASES| || abort.Some? {
      PaidAtEnd(Idle(abort, store), env, w);
    } else {
      var start := Beginning(phases[i], abort, store);
      var s := Play(start, w.moves(i), env);
      assert CoveredBlock(phases[i], true);
      CoveredPlay(start, w.moves(i), env);
      PhaseStarts(phases[i], store, w.moves(i), env);
      match OutcomeOf(s.proc, env.scope)
      case None =>
      case Some(Rejected(_)) => PaidAtEnd(s, env, w);
      case Some(Fulfilled) => CoveredRun(phases, i + 1, s.abort, s.store, env, w);
    }
  }

  lemma PaidAtEnd(s: State, env: Env, w: World)
    requires CoveredProc(s.proc, true, env.scope) && Tidy(s.proc, env.scope) && OutcomeOf(s.proc, env.scope).Some?
    ensures Gather(Play(s, w.late, env).proc, Unpaid) == multiset{}
  {
    CoveredPlay(s, w.late, env);
    SettledLater(s, w.late, env);
    SettledPaid(Play(s, w.late, env).proc, env.scope);
  }

  /** Where no task with a compensation can be left behind, the compensations that run are
      those of the tasks recorded PASSED, in any schedule. */
  lemma CoveredCompensated(phases: seq<Block>, env: Env, w: World, now: nat, r: RunReport)
    requires |phases| == |PHASES| && CoveredCode(phases, true)
    requires var end := RunPhases(phases, 0, w.abort, Fresh(now), env, w);
             end.over && end.error.Some? && Accounted(r, end, w)
    ensures multiset(r.compensated) == multiset(Owed(RunHistory(phases, 0, w.abort, Fresh(now), env, w)))
  {
    CompensatedIff(phases, env, w, now, r);
    CoveredRun(phases, 0, w.abort, Fresh(now), env, w);
  }
}
