/** What a phase that fails has thrown: the fault of a step that stopped, of a timer, of a
    condition that is no text, or of an abort. */
module Blame {
  import opened Json
  import opened Steps
  import opened Template
  import opened Resolver
  import opened Interpreter
  import opened Moves
  import opened Words

  // ----- faults that come from somewhere -----

  /** A step other than a task whose condition cannot be read. */
  predicate Unreadable(step: Step) { step.Branch? && !step.when.path.Str? && step.when.path != Str("$") }

  /** A fault that a move brings up. */
  predicate Raised(f: Fault, m: Move, signs: seq<Sign>) {
    || (m.At? && m.ev == Expire && f == Timeout)
    || (m.Abort? && f == m.reason)
    || exists s :: s in signs &&
         ((s.Stops? && f == s.fault) || (s.Starts? && Unreadable(s.step) && f == Failure("TypeError")))
  }

  /** A fault that comes up in a schedule; `throwIfAborted` makes another of some. */
  predicate Explained(f: Fault, s: State, moves: seq<Move>, env: Env)
    decreases |moves|
  {
    moves != [] &&
    (Raised(f, moves[0], SignsOfMove(s, moves[0], env)) || Explained(f, Advance(s, moves[0], env), moves[1..], env))
  }

  /** A set of faults that has, with each, the one that `throwIfAborted` makes of it. */
  ghost predicate Closed(all: iset<Fault>) { forall f | f in all :: Thrown(f) in all }

  predicate Of(f: Option<Fault>, all: iset<Fault>) { f.Some? ==> f.value in all }

  predicate Settles(o: Option<Outcome>, all: iset<Fault>) {
    o.Some? && o.value.Rejected? ==> o.value.fault in all
  }

  /** Whatever has settled below `p` has done so with one of the faults. */
  predicate Blamed(p: Proc, all: iset<Fault>) {
    match p
    case Settled(o) => Settles(Some(o), all)
    case Pending(_, _) => true
    case Action(_, _, leaf) => leaf.Ended? ==> Settles(Some(leaf.result), all)
    case Sequence(head, _) => Blamed(head, all)
    case Loop(body, _, _) => Blamed(body, all)
    case Group(members, own, out) => (forall m | m in members :: Blamed(m, all)) && Of(own, all) && Settles(out, all)
    case Timed(body, own, out) => Blamed(body, all) && Of(own, all) && Settles(out, all)
  }

  lemma {:induction false} OutcomeBlamed(p: Proc, all: iset<Fault>, scope: Scope)
    requires Blamed(p, all)
    ensures Settles(OutcomeOf(p, scope), all)
  {
    match p
    case Sequence(head, _) => OutcomeBlamed(head, all, scope);
    case Loop(body, _, _) => OutcomeBlamed(body, all, scope);
    case _ =>
  }

  // ----- one move -----

  /** The faults that the signs bring up are among them. */
  predicate Covers(all: iset<Fault>, signs: seq<Sign>) {
    forall s | s in signs ::
      && (s.Stops? ==> s.fault in all)
      && (s.Starts? && Unreadable(s.step) ==> Failure("TypeError") in all)
  }

  lemma LeafBlamed(
      step: Step, deadline: nat, leaf: Leaf, signal: Option<Fault>, ev: Event, st: Store, env: Env, all: iset<Fault>)
    requires (step.Task? || step.Poll?) && Blamed(Action(step, deadline, leaf), all)
    requires Covers(all, Signs(Action(step, deadline, leaf), signal, [], ev, st, env))
    ensures Blamed(Action(step, deadline, LeafNext(step, deadline, leaf, signal, ev, st, env).0), all)
  {
    var (after, st') := LeafNext(step, deadline, leaf, signal, ev, st, env);
    var signs := LeafSigns(step, leaf, after, ev, signal, st.now, st'.outputs);
    if after.Ended? && after.result.Rejected? && after != leaf {
      assert signs[|signs| - 1] == Stops(step, after.result.fault, st.now, signal);
    }
  }

  lemma StartBlamed(step: Step, ctx: Ctx, st: Store, env: Env, all: iset<Fault>)
    requires Unreadable(step) ==> Failure("TypeError") in all
    ensures Blamed(Start(step, ctx, st, env), all)
  {
    if step.Parallel? && ctx.Authored? { MembersPending(step.steps, ctx.prefix, ctx.stack, env.scope); }
    assert Blamed(StartCore(step, ctx, st, env), all);
  }

  lemma GroupBlamed(
      members: seq<Proc>, i: nat, m: Proc, own: Option<Fault>, out: Option<Outcome>, signal: Option<Fault>,
      scope: Scope, all: iset<Fault>)
    requires Blamed(Group(members, own, out), all) && i < |members| && Blamed(m, all)
    ensures Blamed(GroupAfter(members, i, m, own, out, signal, scope), all)
  {
    OutcomeBlamed(m, all, scope);
    forall q | q in members[i := m] ensures Blamed(q, all) { if q != m { assert q in members; } }
  }

  lemma TimerBlamed(
      body: Proc, own: Option<Fault>, out: Option<Outcome>, signal: Option<Fault>, ev: Event, st: Store, env: Env,
      all: iset<Fault>)
    requires Blamed(Timed(body, own, out), all) && Of(signal, all) && (ev == Expire ==> Timeout in all)
    ensures Blamed(Next(Timed(body, own, out), signal, [], ev, st, env).0, all)
  {
    OutcomeBlamed(body, all, env.scope);
  }

  lemma {:induction false} NextBlamed(
      p: Proc, signal: Option<Fault>, addr: seq<nat>, ev: Event, st: Store, env: Env, all: iset<Fault>)
    requires Closed(all) && Blamed(p, all) && Of(signal, all) && (ev == Expire ==> Timeout in all)
    requires Covers(all, Signs(p, signal, addr, ev, st, env))
    ensures Blamed(Next(p, signal, addr, ev, st, env).0, all)
    decreases p
  {
    match p
    case Pending(step, ctx) => if ev == Go { StartsCovered(step, st, all); StartBlamed(step, ctx, st, env, all); }
    case Action(step, deadline, leaf) =>
      if step.Task? || step.Poll? { LeafBlamed(step, deadline, leaf, signal, ev, st, env, all); }
    case Sequence(head, code) =>
      if !Completed(head, env.scope) {
        NextBlamed(head, signal, addr, ev, st, env, all);
      } else if Fetch(code, env.scope).Some? && ev == Go && signal.None? {
        var f := Fetch(code, env.scope).value;
        StartsCovered(f.step, st, all);
        StartBlamed(f.step, f.ctx, st, env, all);
      }
    case Loop(body, _, _) => if !Completed(body, env.scope) { NextBlamed(body, signal, addr, ev, st, env, all); }
    case Group(members, own, out) =>
      if addr != [] && addr[0] < |members| {
        var i := addr[0];
        assert members[i] in members;
        NextBlamed(members[i], Below(own, signal), addr[1..], ev, st, env, all);
        var m := Next(members[i], Below(own, signal), addr[1..], ev, st, env).0;
        GroupBlamed(members, i, m, own, out, signal, env.scope, all);
      }
    case Timed(body, own, out) =>
      if addr == [] {
        TimerBlamed(body, own, out, signal, ev, st, env, all);
      } else {
        NextBlamed(body, Below(own, signal), addr[1..], ev, st, env, all);
      }
    case _ =>
  }

  lemma StartsCovered(step: Step, st: Store, all: iset<Fault>)
    ensures Covers(all, [Starts(step, st.outputs, st.now)]) ==> (Unreadable(step) ==> Failure("TypeError") in all)
  {
    assert Starts(step, st.outputs, st.now) in [Starts(step, st.outputs, st.now)];
  }

  // ----- every schedule -----

  ghost predicate CoversRun(all: iset<Fault>, s: State, moves: seq<Move>, env: Env)
    decreases |moves|
  {
    moves == [] ||
    (&& Covers(all, SignsOfMove(s, moves[0], env))
     && (moves[0].At? && moves[0].ev == Expire ==> Timeout in all)
     && (moves[0].Abort? ==> moves[0].reason in all)
     && CoversRun(all, Advance(s, moves[0], env), moves[1..], env))
  }

  lemma {:induction false} PlayBlamed(s: State, moves: seq<Move>, env: Env, all: iset<Fault>)
    requires Closed(all) && Blamed(s.proc, all) && Of(s.abort, all) && CoversRun(all, s, moves, env)
    ensures Blamed(Play(s, moves, env).proc, all)
    decreases |moves|
  {
    if moves != [] {
      if moves[0].At? { NextBlamed(s.proc, s.abort, moves[0].addr, moves[0].ev, s.store, env, all); }
      PlayBlamed(Advance(s, moves[0], env), moves[1..], env, all);
    }
  }

  /** A fault that the schedule explains, or for which the run's signal was aborted before. */
  predicate Given(f: Fault, abort: Option<Fault>, s: State, moves: seq<Move>, env: Env) {
    abort == Some(f) || Explained(f, s, moves, env)
  }

  /** Such a fault, or what `throwIfAborted` makes of one. */
  ghost predicate Comes(f: Fault, abort: Option<Fault>, s: State, moves: seq<Move>, env: Env) {
    exists g :: Given(g, abort, s, moves, env) && (f == g || f == Thrown(g))
  }

  lemma {:induction false} ExplainedCovers(s: State, moves: seq<Move>, env: Env, all: iset<Fault>)
    requires forall f | Explained(f, s, moves, env) :: f in all
    ensures CoversRun(all, s, moves, env)
    decreases |moves|
  {
    if moves != [] {
      var m, signs := moves[0], SignsOfMove(s, moves[0], env);
      forall f | Raised(f, m, signs) ensures f in all { assert Explained(f, s, moves, env); }
      if m.At? && m.ev == Expire { assert Raised(Timeout, m, signs); }
      if m.Abort? { assert Raised(m.reason, m, signs); }
      forall x | x in signs
        ensures x.Stops? ==> x.fault in all
        ensures x.Starts? && Unreadable(x.step) ==> Failure("TypeError") in all
      {
        if x.Stops? { assert Raised(x.fault, m, signs); }
        if x.Starts? && Unreadable(x.step) { assert Raised(Failure("TypeError"), m, signs); }
      }
      ExplainedCovers(Advance(s, m, env), moves[1..], env, all);
    }
  }

  /** What a phase throws has come up in it: a step that stopped with it, a timer, a
      condition whose path is no text, or the run's signal; or it is what a signal
      aborted for something of the kind throws. */
  lemma PhaseBlames(code: Block, abort: Option<Fault>, store: Store, moves: seq<Move>, env: Env, fault: Fault)
    requires OutcomeOf(Play(State(Run(code), abort, store), moves, env).proc, env.scope) == Some(Rejected(fault))
    ensures Comes(fault, abort, State(Run(code), abort, store), moves, env)
  {
    var s := State(Run(code), abort, store);
    var all := iset f | Comes(f, abort, s, moves, env);
    forall f | f in all ensures Thrown(f) in all {
      var g :| Given(g, abort, s, moves, env) && (f == g || f == Thrown(g));
      assert Thrown(f) == Thrown(g);
    }
    forall f | Explained(f, s, moves, env) ensures f in all { assert Given(f, abort, s, moves, env); }
    if abort.Some? { assert Given(abort.value, abort, s, moves, env); }
    ExplainedCovers(s, moves, env, all);
    PlayBlamed(s, moves, env, all);
    OutcomeBlamed(Play(s, moves, env).proc, all, env.scope);
  }
}
