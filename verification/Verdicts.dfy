/** When a run is reported failed, and when cancelled. */
module Verdicts {
  import opened Json
  import opened Steps
  import opened Template
  import opened Resolver
  import opened Interpreter
  import opened Moves
  import opened Lifecycle

  // ----- what a run throws without a cancellation -----

  predicate Mild(o: Outcome) { o.Rejected? ==> o.fault != Cancelled }

  /** A signal that only timers abort. */
  predicate OnTime(signal: Option<Fault>) { signal.Some? ==> signal.value.Timeout? }

  predicate MildLeaf(leaf: Leaf) {
    match leaf
    case Raced(_, _, race) => race.Lost? ==> race.fault != Cancelled
    case Failing(_, f, _) => f != Cancelled
    case Ended(o) => Mild(o)
    case _ => true
  }

  /** As long as only timers abort its signal, nothing has settled as cancelled. A group
      that one of its members has aborted has settled. */
  predicate Calm(p: Proc, signal: Option<Fault>)
    decreases p
  {
    OnTime(signal) ==>
      match p
      case Settled(o) => Mild(o)
      case Pending(_, _) => true
      case Action(_, _, leaf) => MildLeaf(leaf)
      case Sequence(head, _) => Calm(head, signal)
      case Loop(body, _, _) => Calm(body, signal)
      case Group(members, own, out) =>
        && (forall m | m in members :: Calm(m, Below(own, signal)))
        && (out.Some? ==> Mild(out.value)) && (own.Some? ==> out.Some?)
      case Timed(body, own, out) => OnTime(own) && Calm(body, Below(own, signal)) && (out.Some? ==> Mild(out.value))
  }

  lemma {:induction false} CalmOutcome(p: Proc, signal: Option<Fault>, scope: Scope)
    requires Calm(p, signal) && OnTime(signal)
    ensures OutcomeOf(p, scope).Some? ==> Mild(OutcomeOf(p, scope).value)
  {
    match p
    case Sequence(head, _) => CalmOutcome(head, signal, scope);
    case Loop(body, _, _) => CalmOutcome(body, signal, scope);
    case _ =>
  }

  lemma {:induction false} CalmAborted(p: Proc, signal: Option<Fault>, aborted: Option<Fault>)
    requires Calm(p, signal) && (OnTime(aborted) ==> OnTime(signal))
    ensures Calm(p, aborted)
    decreases p
  {
    if OnTime(aborted) {
      match p
      case Sequence(head, _) => CalmAborted(head, signal, aborted);
      case Loop(body, _, _) => CalmAborted(body, signal, aborted);
      case Group(members, own, _) =>
        forall m | m in members ensures Calm(m, Below(own, aborted)) {
          CalmAborted(m, Below(own, signal), Below(own, aborted));
        }
      case Timed(body, own, _) => CalmAborted(body, Below(own, signal), Below(own, aborted));
      case _ =>
    }
  }

  lemma DeliverMild(step: Step, output: Option<Value>, signal: Option<Fault>, st: Store, env: Env)
    requires (step.Task? || step.Poll?) && OnTime(signal)
    ensures MildLeaf(Deliver(step, output, signal, st, env).0)
  {
  }

  lemma LeafMild(step: Step, deadline: nat, leaf: Leaf, signal: Option<Fault>, ev: Event, st: Store, env: Env)
    requires (step.Task? || step.Poll?) && OnTime(signal) && MildLeaf(leaf) && ev != Reject(Cancelled)
    ensures MildLeaf(LeafNext(step, deadline, leaf, signal, ev, st, env).0)
  {
    if leaf.Reporting? { DeliverMild(step, leaf.output, signal, st, env); }
  }

  lemma StartCalm(step: Step, ctx: Ctx, st: Store, env: Env, signal: Option<Fault>)
    ensures Calm(Start(step, ctx, st, env), signal)
  {
    if step.Parallel? && ctx.Authored? { MembersPending(step.steps, ctx.prefix, ctx.stack, env.scope); }
    assert Calm(StartCore(step, ctx, st, env), signal);
  }

  lemma GroupCalm(
      members: seq<Proc>, i: nat, m: Proc, own: Option<Fault>, out: Option<Outcome>, signal: Option<Fault>,
      scope: Scope)
    requires Calm(Group(members, own, out), signal) && i < |members| && Calm(m, Below(own, signal))
    ensures Calm(GroupAfter(members, i, m, own, out, signal, scope), signal)
  {
    if OnTime(signal) {
      var after := GroupAfter(members, i, m, own, out, signal, scope);
      if own.None? { CalmOutcome(m, signal, scope); }
      forall q | q in after.members ensures Calm(q, Below(after.own, signal)) {
        if q != m { assert q in members; }
        CalmAborted(q, Below(own, signal), Below(after.own, signal));
      }
    }
  }

  lemma TimerCalm(
      body: Proc, own: Option<Fault>, out: Option<Outcome>, signal: Option<Fault>, ev: Event, st: Store, env: Env)
    requires Calm(Timed(body, own, out), signal)
    ensures Calm(Next(Timed(body, own, out), signal, [], ev, st, env).0, signal)
  {
    if OnTime(signal) {
      CalmOutcome(body, Below(own, signal), env.scope);
      CalmAborted(body, Below(own, signal), Some(Timeout));
    }
  }

  lemma {:induction false} NextCalm(
      p: Proc, signal: Option<Fault>, addr: seq<nat>, ev: Event, st: Store, env: Env)
    requires Calm(p, signal) && ev != Reject(Cancelled)
    ensures Calm(Next(p, signal, addr, ev, st, env).0, signal)
    decreases p
  {
    if OnTime(signal) {
      match p {
        case Pending(step, ctx) => StartCalm(step, ctx, st, env, signal);
        case Action(step, deadline, leaf) =>
          if step.Task? || step.Poll? { LeafMild(step, deadline, leaf, signal, ev, st, env); }
        case Sequence(head, code) =>
          if Completed(head, env.scope) {
            var f := Fetch(code, env.scope);
            if f.Some? { StartCalm(f.value.step, f.value.ctx, st, env, signal); }
          } else {
            NextCalm(head, signal, addr, ev, st, env);
          }
        case Loop(body, _, again) => if !Completed(body, env.scope) { NextCalm(body, signal, addr, ev, st, env); }
        case Group(members, own, out) =>
          if addr != [] && addr[0] < |members| {
            assert members[addr[0]] in members;
            NextCalm(members[addr[0]], Below(own, signal), addr[1..], ev, st, env);
            var m := Next(members[addr[0]], Below(own, signal), addr[1..], ev, st, env).0;
            GroupCalm(members, addr[0], m, own, out, signal, env.scope);
          }
        case Timed(body, own, out) =>
          if addr != [] {
            NextCalm(body, Below(own, signal), addr[1..], ev, st, env);
          } else {
            TimerCalm(body, own, out, signal, ev, st, env);
          }
        case _ =>
      }
    }
  }

  // ----- schedules without a cancellation -----

  /** The caller does not abort and no handler rejects as cancelled; timers may abort. */
  predicate Uncancelled(moves: seq<Move>) { forall m | m in moves :: UncancelledMove(m) }

  predicate UncancelledMove(m: Move) {
    match m
    case At(_, ev) => ev != Reject(Cancelled)
    case Abort(reason) => reason.Timeout?
    case _ => true
  }

  predicate StateCalm(s: State) { OnTime(s.abort) && Calm(s.proc, s.abort) }

  lemma {:induction false} PlayCalm(s: State, moves: seq<Move>, env: Env)
    requires StateCalm(s) && Uncancelled(moves)
    ensures StateCalm(Play(s, moves, env))
    decreases |moves|
  {
    if moves == [] {
    } else {
      assert UncancelledMove(moves[0]);
      match moves[0] {
        case At(addr, ev) => NextCalm(s.proc, s.abort, addr, ev, s.store, env);
        case Abort(reason) => CalmAborted(s.proc, s.abort, Some(reason));
        case _ =>
      }
      PlayCalm(Advance(s, moves[0], env), moves[1..], env);
    }
  }

  ghost predicate UncancelledWorld(w: World) { OnTime(w.abort) && forall i: nat :: Uncancelled(w.moves(i)) }

  lemma {:induction false} PhasesCalm(
      phases: seq<Block>, i: nat, abort: Option<Fault>, store: Store, env: Env, w: World)
    requires |phases| == |PHASES| && i <= |PHASES| && UncancelledWorld(w) && OnTime(abort)
    ensures var end := RunPhases(phases, i, abort, store, env, w); OnTime(end.abort) && end.error != Some(Cancelled)
    decreases |PHASES| - i
  {
    if i == |PHASES| || abort.Some? {
    } else {
      var start := State(Run(phases[i]), abort, store);
      var s := Play(start, w.moves(i), env);
      assert StateCalm(start);
      PlayCalm(start, w.moves(i), env);
      CalmOutcome(s.proc, s.abort, env.scope);
      if Completed(s.proc, env.scope) { PhasesCalm(phases, i + 1, s.abort, s.store, env, w); }
    }
  }

  /** A run whose caller does not abort it and whose handlers do not reject as cancelled is
      never reported cancelled, even if its own timer aborts it: it is reported failed
      exactly when its phases throw or one of its cleanups fails. */
  lemma NeverCancelled(phases: seq<Block>, store: Store, env: Env, w: World, r: RunReport)
    requires |phases| == |PHASES| && UncancelledWorld(w)
    requires Accounted(r, RunPhases(phases, 0, w.abort, store, env, w), w)
    ensures r.status != RUN_CANCELLED
    ensures r.status == RUN_FAILED <==> r.error.Some? || r.cleanupErrors != []
  {
    PhasesCalm(phases, 0, w.abort, store, env, w);
  }

  /** What goes on after the phases have thrown, an abort included, leaves what they threw,
      and with it the verdict, as it is. */
  lemma {:induction false} LateMovesKeepVerdict(
      phases: seq<Block>, i: nat, abort: Option<Fault>, store: Store, env: Env, w: World, late: seq<Move>)
    requires |phases| == |PHASES| && i <= |PHASES|
    ensures var a, b := RunPhases(phases, i, abort, store, env, w),
                        RunPhases(phases, i, abort, store, env, w.(late := late));
            && a.over == b.over && a.entered == b.entered && a.error == b.error && a.abort == b.abort
            && ThrewCancelled(a.error, a.abort) == ThrewCancelled(b.error, b.abort)
    decreases |PHASES| - i
  {
    if i < |PHASES| && abort.None? {
      var s := Play(State(Run(phases[i]), abort, store), w.moves(i), env);
      if Completed(s.proc, env.scope) { LateMovesKeepVerdict(phases, i + 1, s.abort, s.store, env, w, late); }
    }
  }
}
