/** The history of a whole run: what its phases begin, record and leave behind, up to the
    point where its compensations are due. */
module Runs {
  import opened Texts
  import opened Json
  import opened Steps
  import opened Template
  import opened Resolver
  import opened Interpreter
  import opened Moves
  import opened Attempts
  import opened Lifecycle

  // ----- compensations owed and gained -----

  /** The compensations of the attempts recorded PASSED, in that order. */
  function Owed(h: seq<Effect>): seq<Compensation> {
    if h == [] then [] else OwedBy(h[0]) + Owed(h[1..])
  }

  function OwedBy(e: Effect): seq<Compensation> {
    if e.Recorded? && e.status == PASSED then Undo(e.step) else []
  }

  /** The compensations registered, in that order. */
  function Gains(h: seq<Effect>): seq<Compensation> {
    if h == [] then [] else GainedBy(h[0]) + Gains(h[1..])
  }

  function GainedBy(e: Effect): seq<Compensation> {
    if e.Delivered? then Undo(e.step) else []
  }

  /** The compensation of an attempt that is recorded PASSED and has not registered it. */
  function Unpaid(step: Step, leaf: Leaf): multiset<Compensation> { multiset(UnpaidBy(step, leaf)) }

  function UnpaidBy(step: Step, leaf: Leaf): seq<Compensation> { if leaf.Reporting? then Undo(step) else [] }

  /** What was owed is registered or still unpaid. */
  predicate Balanced(before: Proc, h: seq<Effect>, after: Proc) {
    Gather(before, Unpaid) + multiset(Owed(h)) == multiset(Gains(h)) + Gather(after, Unpaid)
  }

  predicate BalancedOnce(before: Proc, e: Effect, after: Proc) {
    Gather(before, Unpaid) + multiset(OwedBy(e)) == multiset(GainedBy(e)) + Gather(after, Unpaid)
  }

  /** What is owed becomes unpaid, what is unpaid is paid, or nothing happens. */
  predicate Pays<T(==)>(before: seq<T>, owed: seq<T>, gained: seq<T>, after: seq<T>) {
    || (before == [] && gained == [] && after == owed)
    || (owed == [] && after == [] && gained == before)
    || (owed == [] && gained == [] && after == before)
  }

  lemma LeafPays(step: Step, leaf: Leaf, st: Store, leaf': Leaf, st': Store)
    requires LeafShows(step, leaf, st, leaf', st')
    ensures var e := EffectOf(step, leaf, leaf');
            Pays(UnpaidBy(step, leaf), OwedBy(e), GainedBy(e), UnpaidBy(step, leaf'))
  {
  }

  lemma PaysWithin<T>(before: seq<T>, owed: seq<T>, gained: seq<T>, after: seq<T>, rest: multiset<T>)
    requires Pays(before, owed, gained, after)
    ensures (rest + multiset(before)) + multiset(owed) == multiset(gained) + (rest + multiset(after))
  {
  }

  lemma TouchBalanced(s: State, addr: seq<nat>, ev: Event, env: Env, t: Touch, after: Proc)
    requires Tidy(s.proc, env.scope) && Touched(s.proc, s.abort, addr, env.scope) == Some(t)
    requires (t.step.Task? || t.step.Poll?) && after == Next(s.proc, s.abort, addr, ev, s.store, env).0
    ensures BalancedOnce(s.proc, EffectOf(t.step, t.leaf, Moved(t, ev, s.store, env).0), after)
  {
    var (leaf', st') := Moved(t, ev, s.store, env);
    var e := EffectOf(t.step, t.leaf, leaf');
    var rest := TouchSwaps(s.proc, s.abort, addr, ev, s.store, env, t, Unpaid);
    LeafEffect(t.step, t.deadline, t.leaf, t.signal, ev, s.store, env);
    LeafPays(t.step, t.leaf, s.store, leaf', st');
    PaysWithin(UnpaidBy(t.step, t.leaf), OwedBy(e), GainedBy(e), UnpaidBy(t.step, leaf'), rest);
  }

  lemma NothingBalanced(before: Proc, after: Proc)
    requires Gather(after, Unpaid) == Gather(before, Unpaid)
    ensures BalancedOnce(before, Nothing, after)
  {
  }

  lemma StepBalanced(s: State, addr: seq<nat>, ev: Event, env: Env, after: Proc)
    requires Tidy(s.proc, env.scope) && after == Next(s.proc, s.abort, addr, ev, s.store, env).0
    ensures BalancedOnce(s.proc, EffectOfTouch(Touched(s.proc, s.abort, addr, env.scope), ev, s.store, env), after)
  {
    match Touched(s.proc, s.abort, addr, env.scope)
    case None =>
      NoSwap(s.proc, s.abort, addr, ev, s.store, env, Unpaid);
      NothingBalanced(s.proc, after);
    case Some(t) => TouchBalanced(s, addr, ev, env, t, after);
  }

  lemma MoveBalanced(s: State, m: Move, env: Env)
    requires Tidy(s.proc, env.scope)
    ensures BalancedOnce(s.proc, EffectOfMove(s, m, env), Advance(s, m, env).proc)
  {
    match m
    case At(addr, ev) => StepBalanced(s, addr, ev, env, Advance(s, m, env).proc);
    case _ => NothingBalanced(s.proc, s.proc);
  }

  lemma Sums<T>(
      a: multiset<T>, x: multiset<T>, g: multiset<T>, b: multiset<T>, y: multiset<T>, h: multiset<T>, c: multiset<T>)
    requires a + x == g + b && b + y == h + c
    ensures a + (x + y) == (g + h) + c
  {
    forall t: T ensures (a + (x + y))[t] == ((g + h) + c)[t] {
      assert (a + x)[t] == (g + b)[t] && (b + y)[t] == (h + c)[t];
    }
  }

  lemma BalancedCons(a: Proc, e: Effect, b: Proc, h: seq<Effect>, c: Proc)
    requires BalancedOnce(a, e, b) && Balanced(b, h, c)
    ensures Balanced(a, [e] + h, c)
  {
    assert ([e] + h)[1..] == h && ([e] + h)[0] == e;
    Sums(Gather(a, Unpaid), multiset(OwedBy(e)), multiset(GainedBy(e)), Gather(b, Unpaid),
         multiset(Owed(h)), multiset(Gains(h)), Gather(c, Unpaid));
    assert multiset(OwedBy(e) + Owed(h)) == multiset(OwedBy(e)) + multiset(Owed(h));
    assert multiset(GainedBy(e) + Gains(h)) == multiset(GainedBy(e)) + multiset(Gains(h));
  }

  lemma {:induction false} PlayBalanced(s: State, moves: seq<Move>, env: Env)
    requires Tidy(s.proc, env.scope)
    ensures Balanced(s.proc, History(s, moves, env), Play(s, moves, env).proc)
    decreases |moves|
  {
    if moves == [] {
    } else {
      var t := Advance(s, moves[0], env);
      MoveEffect(s, moves[0], env);
      MoveBalanced(s, moves[0], env);
      PlayBalanced(t, moves[1..], env);
      BalancedCons(s.proc, EffectOfMove(s, moves[0], env), t.proc, History(t, moves[1..], env),
                   Play(s, moves, env).proc);
    }
  }

  lemma {:induction false} OwedConcat(a: seq<Effect>, b: seq<Effect>)
    ensures Owed(a + b) == Owed(a) + Owed(b)
  {
    if a == [] {
      assert a + b == b;
    } else {
      assert (a + b)[1..] == a[1..] + b;
      OwedConcat(a[1..], b);
    }
  }

  lemma {:induction false} GainsConcat(a: seq<Effect>, b: seq<Effect>)
    ensures Gains(a + b) == Gains(a) + Gains(b)
  {
    if a == [] {
      assert a + b == b;
    } else {
      assert (a + b)[1..] == a[1..] + b;
      GainsConcat(a[1..], b);
    }
  }

  lemma BalancedThen(p: Proc, a: seq<Effect>, q: Proc, b: seq<Effect>, r: Proc)
    requires Balanced(p, a, q) && Balanced(q, b, r)
    ensures Balanced(p, a + b, r)
  {
    OwedConcat(a, b);
    GainsConcat(a, b);
    Sums(Gather(p, Unpaid), multiset(Owed(a)), multiset(Gains(a)), Gather(q, Unpaid),
         multiset(Owed(b)), multiset(Gains(b)), Gather(r, Unpaid));
    assert multiset(Owed(a) + Owed(b)) == multiset(Owed(a)) + multiset(Owed(b));
    assert multiset(Gains(a) + Gains(b)) == multiset(Gains(a)) + multiset(Gains(b));
  }

  lemma ApplyGains(st: Store, e: Effect)
    requires WellFormed(e)
    ensures Apply(st, e).compensations == st.compensations + GainedBy(e)
  {
    assert st.compensations + [] == st.compensations;
  }

  /** The compensations registered are those the history says. */
  lemma {:induction false} ReplayGains(st: Store, h: seq<Effect>)
    requires Formed(h)
    ensures Replay(st, h).compensations == st.compensations + Gains(h)
    decreases |h|
  {
    if h == [] {
      assert st.compensations + [] == st.compensations;
    } else {
      ReplayGains(Apply(st, h[0]), h[1..]);
      ApplyGains(st, h[0]);
      Associative(st.compensations, GainedBy(h[0]), Gains(h[1..]));
    }
  }

  // ----- one stretch after another -----

  ghost predicate Exactly(s: State) { Consistent(s.store, InFlight(s.proc), Uncalled(s.proc)) }

  /** `h` accounts for what happened from one point of a run to another. */
  ghost predicate Stretch(a: State, h: seq<Effect>, b: State) {
    && Explains(h, a.store, Flights(a.proc), b.store, Flights(b.proc))
    && Balanced(a.proc, h, b.proc)
    && (Exactly(a) ==> Exactly(b) && KeepsFinal(a.store.records, b.store.records))
  }

  lemma PlayStretch(s: State, moves: seq<Move>, env: Env)
    requires Tidy(s.proc, env.scope)
    ensures Tidy(Play(s, moves, env).proc, env.scope) && Stretch(s, History(s, moves, env), Play(s, moves, env))
  {
    HistoryExplains(s, moves, env);
    PlayBalanced(s, moves, env);
    if Exactly(s) { RecordsRefineHistory(s, moves, env); }
  }

  lemma StretchThen(a: State, g: seq<Effect>, b: State, h: seq<Effect>, c: State)
    requires Stretch(a, g, b) && Stretch(b, h, c)
    ensures Stretch(a, g + h, c)
  {
    ExplainsThen(g, h, a.store, Flights(a.proc), b.store, Flights(b.proc), c.store, Flights(c.proc));
    BalancedThen(a.proc, g, b.proc, h, c.proc);
  }

  /** Nothing is in flight. */
  predicate Rests(p: Proc) {
    && InFlight(p) == multiset{} && Uncalled(p) == multiset{}
    && Flights(p) == multiset{} && Gather(p, Unpaid) == multiset{}
  }

  lemma StretchRestarts(a: State, h: seq<Effect>, b: State, c: State)
    requires Stretch(a, h, b) && Rests(b.proc) && Rests(c.proc) && c.store == b.store
    ensures Stretch(a, h, c)
  {
  }

  lemma CompletedKeys(p: Proc, scope: Scope)
    requires Tidy(p, scope) && Completed(p, scope)
    ensures InFlight(p) == multiset{} && Uncalled(p) == multiset{}
  {
    CompletedQuiet(p, scope, OpenKey);
    CompletedQuiet(p, scope, UncalledKey);
  }

  lemma CompletedRests(p: Proc, scope: Scope)
    requires Tidy(p, scope) && Completed(p, scope)
    ensures Rests(p)
  {
    CompletedKeys(p, scope);
    CompletedQuiet(p, scope, FlightOf);
    CompletedQuiet(p, scope, Unpaid);
  }

  lemma RunRests(code: Block)
    ensures Rests(Run(code)) && Rests(Settled(Fulfilled))
  {
    assert Gather(Settled(Fulfilled), OpenKey) == multiset{};
    assert Gather(Settled(Fulfilled), UncalledKey) == multiset{};
    assert Gather(Settled(Fulfilled), FlightOf) == multiset{};
    assert Gather(Settled(Fulfilled), Unpaid) == multiset{};
  }

  // ----- the whole run -----

  function Idle(abort: Option<Fault>, store: Store): State { State(Settled(Fulfilled), abort, store) }

  function Beginning(phase: Block, abort: Option<Fault>, store: Store): State { State(Run(phase), abort, store) }

  /** Everything that happens from phase `i` until the compensations are due. */
  function RunHistory(
      phases: seq<Block>, i: nat, abort: Option<Fault>, store: Store, env: Env, w: World): seq<Effect>
    requires |phases| == |PHASES| && i <= |PHASES|
    decreases |PHASES| - i
  {
    if i == |PHASES| || abort.Some? then History(Idle(abort, store), w.late, env)
    else
      var start := Beginning(phases[i], abort, store);
      var s := Play(start, w.moves(i), env);
      History(start, w.moves(i), env) +
      match OutcomeOf(s.proc, env.scope)
      case None => []
      case Some(Rejected(_)) => History(s, w.late, env)
      case Some(Fulfilled) => RunHistory(phases, i + 1, s.abort, s.store, env, w)
  }

  function EndState(end: PhasesEnd): State { State(end.proc, end.abort, end.store) }

  lemma LateStretch(s: State, entered: nat, error: Option<Fault>, env: Env, w: World)
    requires Tidy(s.proc, env.scope)
    ensures var end := Ending(entered, error, s, env, w);
            Tidy(end.proc, env.scope) && Stretch(s, History(s, w.late, env), EndState(end))
  {
    PlayStretch(s, w.late, env);
    var t := Play(s, w.late, env);
    assert Stretch(s, History(s, w.late, env), State(t.proc, s.abort, t.store));
  }

  /** A run is accounted for by its history, up to the moment its compensations are due:
      outputs, counters, records, invocations and compensations are those of its attempts,
      and what is in flight then is what the history left unfinished. */
  lemma {:induction false} RunStretch(
      phases: seq<Block>, i: nat, abort: Option<Fault>, store: Store, env: Env, w: World)
    requires |phases| == |PHASES| && i <= |PHASES|
    ensures var end := RunPhases(phases, i, abort, store, env, w);
            && Tidy(end.proc, env.scope)
            && Stretch(Idle(abort, store), RunHistory(phases, i, abort, store, env, w), EndState(end))
    decreases |PHASES| - i
  {
    if i == |PHASES| {
      LateStretch(Idle(abort, store), i, None, env, w);
    } else if abort.Some? {
      LateStretch(Idle(abort, store), i, Some(Thrown(abort.value)), env, w);
    } else {
      PhaseStretch(phases, i, store, env, w);
      var s := Play(Beginning(phases[i], None, store), w.moves(i), env);
      if Completed(s.proc, env.scope) {
        RunStretch(phases, i + 1, s.abort, s.store, env, w);
        PhaseThenRest(phases, i, store, env, w, s);
      }
    }
  }

  lemma PhaseStarts(phase: Block, store: Store, moves: seq<Move>, env: Env)
    ensures var start := Beginning(phase, None, store);
            var s := Play(start, moves, env);
            && Tidy(s.proc, env.scope) && Stretch(Idle(None, store), History(start, moves, env), s)
            && (Completed(s.proc, env.scope) ==> Rests(s.proc))
  {
    var start := Beginning(phase, None, store);
    var s := Play(start, moves, env);
    RunRests(phase);
    assert Tidy(start.proc, env.scope);
    PlayStretch(start, moves, env);
    if Completed(s.proc, env.scope) { CompletedRests(s.proc, env.scope); }
  }

  lemma PhaseStretch(phases: seq<Block>, i: nat, store: Store, env: Env, w: World)
    requires |phases| == |PHASES| && i < |PHASES|
    ensures var s := Play(Beginning(phases[i], None, store), w.moves(i), env);
            !Completed(s.proc, env.scope) ==>
              var end := RunPhases(phases, i, None, store, env, w);
              && Tidy(end.proc, env.scope)
              && Stretch(Idle(None, store), RunHistory(phases, i, None, store, env, w), EndState(end))
  {
    var start := Beginning(phases[i], None, store);
    var s := Play(start, w.moves(i), env);
    var h := History(start, w.moves(i), env);
    PhaseStarts(phases[i], store, w.moves(i), env);
    match OutcomeOf(s.proc, env.scope)
    case None => assert h + [] == h && EndState(RunPhases(phases, i, None, store, env, w)) == s;
    case Some(Rejected(f)) =>
      LateStretch(s, i + 1, Some(f), env, w);
      StretchThen(Idle(None, store), h, s, History(s, w.late, env), EndState(Ending(i + 1, Some(f), s, env, w)));
    case Some(Fulfilled) =>
  }

  lemma PhaseThenRest(phases: seq<Block>, i: nat, store: Store, env: Env, w: World, s: State)
    requires |phases| == |PHASES| && i < |PHASES|
    requires s == Play(Beginning(phases[i], None, store), w.moves(i), env) && Completed(s.proc, env.scope)
    requires Stretch(Idle(s.abort, s.store), RunHistory(phases, i + 1, s.abort, s.store, env, w),
                     EndState(RunPhases(phases, i + 1, s.abort, s.store, env, w)))
    ensures RunPhases(phases, i, None, store, env, w) == RunPhases(phases, i + 1, s.abort, s.store, env, w)
    ensures Stretch(Idle(None, store), RunHistory(phases, i, None, store, env, w),
                    EndState(RunPhases(phases, i, None, store, env, w)))
  {
    var h := History(Beginning(phases[i], None, store), w.moves(i), env);
    PhaseStarts(phases[i], store, w.moves(i), env);
    RunRests(phases[i]);
    StretchRestarts(Idle(None, store), h, s, Idle(s.abort, s.store));
    StretchThen(Idle(None, store), h, Idle(s.abort, s.store), RunHistory(phases, i + 1, s.abort, s.store, env, w),
                EndState(RunPhases(phases, i + 1, s.abort, s.store, env, w)));
  }

  function Fresh(now: nat): Store { Store([], map[], [], [], [], [], now) }

  /** A run from an empty store, at the point where its compensations are due: its records
      are exact, its history explains it, and what it owed is registered or in flight. */
  lemma RunExplained(phases: seq<Block>, env: Env, w: World, now: nat)
    requires |phases| == |PHASES|
    ensures var end := RunPhases(phases, 0, w.abort, Fresh(now), env, w);
            var h := RunHistory(phases, 0, w.abort, Fresh(now), env, w);
            && Tidy(end.proc, env.scope)
            && Explains(h, Fresh(now), multiset{}, end.store, Flights(end.proc))
            && Consistent(end.store, InFlight(end.proc), Uncalled(end.proc))
            && multiset(Owed(h)) == multiset(Gains(h)) + Gather(end.proc, Unpaid)
            && end.store.compensations == Gains(h)
  {
    var end := RunPhases(phases, 0, w.abort, Fresh(now), env, w);
    var h := RunHistory(phases, 0, w.abort, Fresh(now), env, w);
    RunRests(Block([], Absolute));
    EmptyConsistent(now);
    RunStretch(phases, 0, w.abort, Fresh(now), env, w);
    ReplayGains(Fresh(now), h);
  }

  /** So after a run `step-passed` holds exactly for the steps whose last attempt, in
      whichever phase, passed. */
  lemma StepPassedAfterRun(phases: seq<Block>, env: Env, w: World, now: nat, id: string)
    requires |phases| == |PHASES|
    ensures var st := RunPhases(phases, 0, w.abort, Fresh(now), env, w).store;
            StepPassed(st.records, id) <==>
              CounterOf(st, id) > 0 && Find(st.records, id, CounterOf(st, id)) == Some(PASSED)
  {
    var end := RunPhases(phases, 0, w.abort, Fresh(now), env, w);
    RunExplained(phases, env, w, now);
    StepPassedIffLastAttemptPassed(end.store, InFlight(end.proc), Uncalled(end.proc), id);
  }
}
