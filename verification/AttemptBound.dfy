/** However a run goes, each step begins a bounded number of attempts, which can be read
    off the resolved steps. */
module AttemptBound {
  import opened Json
  import opened Arithmetic
  import opened Steps
  import opened Template
  import opened Resolver
  import opened Interpreter
  import opened Moves
  import opened Attempts
  import opened Lifecycle
  import opened Polling

  // ----- what the steps allow -----

  /** How long a poll step goes on, when a scenario may take `limit`. */
  function PollTime(step: Step, limit: nat): nat
    requires step.Poll?
  {
    if step.timeout.Some? then step.timeout.value else limit
  }

  /** Every poll step with the id `k` waits between its rounds. */
  predicate PacedSteps(steps: seq<Step>, k: string)
    decreases steps, 0
  {
    steps == [] || (PacedStep(steps[0], k) && PacedSteps(steps[1..], k))
  }

  predicate PacedStep(step: Step, k: string)
    decreases step, 1
  {
    match step
    case Poll(id, _, _, intervalMs, _, _) => id == k ==> intervalMs > 0
    case Parallel(_, _, steps) => PacedSteps(steps, k)
    case Repeat(_, _, _, steps) => PacedSteps(steps, k)
    case Branch(_, _, _, thens, elses) => PacedSteps(thens, k) && PacedSteps(elses, k)
    case _ => true
  }

  /** The attempts that one run through the steps allows the step `k`: a task has its
      retries, a poll step has them in each round that fits into its time, a repeat allows
      what its steps allow as often as it runs, and a branch what either side allows. */
  function Allowed(steps: seq<Step>, k: string, limit: nat): nat
    requires PacedSteps(steps, k)
    decreases steps, 0
  {
    if steps == [] then 0 else AllowedOf(steps[0], k, limit) + Allowed(steps[1..], k, limit)
  }

  function AllowedOf(step: Step, k: string, limit: nat): nat
    requires PacedStep(step, k)
    decreases step, 1
  {
    match step
    case Task(id, _, _, _, _) => if id == k then AttemptLimit(step) else 0
    case Poll(id, _, _, intervalMs, _, _) =>
      if id == k then AttemptLimit(step) * (PollTime(step, limit) / intervalMs + 1) else 0
    case Parallel(_, _, steps) => Allowed(steps, k, limit)
    case Repeat(_, _, times, steps) => times * Allowed(steps, k, limit)
    case Branch(_, _, _, thens, elses) => Most(Allowed(thens, k, limit), Allowed(elses, k, limit))
    case Fragment(_, _) => 0
  }

  function Most(a: nat, b: nat): nat { if a < b then b else a }

  // ----- what an activity still allows -----

  predicate PacedBlock(b: Block, k: string) { b.ctx.Absolute? && PacedSteps(b.steps, k) }

  predicate PacedCode(code: seq<Block>, k: string) { forall b | b in code :: PacedBlock(b, k) }

  predicate PacedProc(p: Proc, k: string) {
    match p
    case Settled(_) => true
    case Pending(step, ctx) => ctx.Absolute? && PacedStep(step, k)
    case Action(step, _, leaf) => (step.Task? || step.Poll?) && Counted(step, leaf) && (step.id == k ==> Paced(step))
    case Sequence(head, code) => PacedProc(head, k) && PacedCode(code, k)
    case Loop(body, _, again) => PacedProc(body, k) && PacedBlock(again, k)
    case Group(members, _, _) => forall m | m in members :: PacedProc(m, k)
    case Timed(body, _, _) => PacedProc(body, k)
  }

  function AllowedCode(code: seq<Block>, k: string, limit: nat): nat
    requires PacedCode(code, k)
  {
    if code == [] then 0
    else
      assert PacedBlock(code[0], k);
      Allowed(code[0].steps, k, limit) + AllowedCode(code[1..], k, limit)
  }

  /** The attempts of `k` that the activity can still begin. */
  function Open(p: Proc, k: string, limit: nat, now: nat): nat
    requires PacedProc(p, k)
  {
    match p
    case Settled(_) => 0
    case Pending(step, _) => AllowedOf(step, k, limit)
    case Action(step, deadline, leaf) => if step.id == k then Left(step, deadline, leaf, now) else 0
    case Sequence(head, code) => Open(head, k, limit, now) + AllowedCode(code, k, limit)
    case Loop(body, left, again) => Open(body, k, limit, now) + left * Allowed(again.steps, k, limit)
    case Group(members, _, _) => OpenAll(members, k, limit, now)
    case Timed(body, _, _) => Open(body, k, limit, now)
  }

  function OpenAll(members: seq<Proc>, k: string, limit: nat, now: nat): nat
    requires forall m | m in members :: PacedProc(m, k)
  {
    if members == [] then 0 else Open(members[0], k, limit, now) + OpenAll(members[1..], k, limit, now)
  }

  lemma {:induction false} OpenUpdate(members: seq<Proc>, i: nat, m: Proc, k: string, limit: nat, now: nat)
    requires i < |members| && PacedProc(m, k) && forall q | q in members :: PacedProc(q, k)
    ensures forall q | q in members[i := m] :: PacedProc(q, k)
    ensures OpenAll(members[i := m], k, limit, now) + Open(members[i], k, limit, now) ==
            OpenAll(members, k, limit, now) + Open(m, k, limit, now)
  {
    var after := members[i := m];
    forall q | q in after ensures PacedProc(q, k) { if q != m { assert q in members; } }
    if i == 0 {
      assert after[1..] == members[1..];
    } else {
      assert after[1..] == members[1..][i - 1 := m];
      OpenUpdate(members[1..], i - 1, m, k, limit, now);
    }
  }

  /** Time takes attempts away and never adds any. */
  lemma {:induction false} OpenLater(p: Proc, k: string, limit: nat, now: nat, later: nat)
    requires PacedProc(p, k) && now <= later
    ensures Open(p, k, limit, later) <= Open(p, k, limit, now)
    decreases p
  {
    match p
    case Action(step, deadline, leaf) => if step.id == k { LeftLater(step, deadline, leaf, now, later); }
    case Sequence(head, _) => OpenLater(head, k, limit, now, later);
    case Loop(body, _, _) => OpenLater(body, k, limit, now, later);
    case Group(members, _, _) => OpenAllLater(members, k, limit, now, later);
    case Timed(body, _, _) => OpenLater(body, k, limit, now, later);
    case _ =>
  }

  lemma {:induction false} OpenAllLater(members: seq<Proc>, k: string, limit: nat, now: nat, later: nat)
    requires now <= later && forall m | m in members :: PacedProc(m, k)
    ensures OpenAll(members, k, limit, later) <= OpenAll(members, k, limit, now)
    decreases members
  {
    if members == [] {
    } else {
      OpenLater(members[0], k, limit, now, later);
      OpenAllLater(members[1..], k, limit, now, later);
    }
  }

  // ----- starting a step -----

  lemma {:induction false} PacedMember(steps: seq<Step>, k: string, i: nat)
    requires PacedSteps(steps, k) && i < |steps|
    ensures PacedStep(steps[i], k)
  {
    if i == 0 {
    } else {
      PacedMember(steps[1..], k, i - 1);
    }
  }

  lemma {:induction false} MembersOpen(steps: seq<Step>, members: seq<Proc>, k: string, limit: nat, now: nat)
    requires PacedSteps(steps, k) && |members| == |steps|
    requires forall i | 0 <= i < |steps| :: members[i] == Pending(steps[i], Absolute)
    ensures forall m | m in members :: PacedProc(m, k)
    ensures OpenAll(members, k, limit, now) == Allowed(steps, k, limit)
  {
    forall m | m in members ensures PacedProc(m, k) {
      var i :| 0 <= i < |members| && members[i] == m;
      PacedMember(steps, k, i);
    }
    if steps == [] {
    } else {
      MembersOpen(steps[1..], members[1..], k, limit, now);
    }
  }

  /** An activity that allows no more than `bound`. */
  predicate Within(p: Proc, k: string, limit: nat, now: nat, bound: nat) {
    PacedProc(p, k) && Open(p, k, limit, now) <= bound
  }

  lemma PollOpens(step: Step, k: string, st: Store, env: Env)
    requires step.Poll? && PacedStep(step, k)
    ensures Within(StartCore(step, Absolute, st, env), k, env.timeoutMs, st.now, AllowedOf(step, k, env.timeoutMs))
  {
    if step.id == k { RoundsFit(st.now, PollTime(step, env.timeoutMs), step.intervalMs); }
  }

  lemma RunOpens(b: Block, k: string, limit: nat, now: nat)
    requires PacedBlock(b, k)
    ensures PacedProc(Run(b), k) && Open(Run(b), k, limit, now) == Allowed(b.steps, k, limit)
  {
    assert [b][1..] == [];
    assert AllowedCode([b], k, limit) == Allowed(b.steps, k, limit) + AllowedCode([], k, limit);
  }

  lemma BranchOpens(step: Step, k: string, st: Store, env: Env)
    requires step.Branch? && PacedStep(step, k)
    ensures Within(StartCore(step, Absolute, st, env), k, env.timeoutMs, st.now, AllowedOf(step, k, env.timeoutMs))
  {
    RunOpens(Block(step.thens, Absolute), k, env.timeoutMs, st.now);
    RunOpens(Block(step.elses, Absolute), k, env.timeoutMs, st.now);
  }

  lemma CoreOpens(step: Step, k: string, st: Store, env: Env)
    requires PacedStep(step, k)
    ensures Within(StartCore(step, Absolute, st, env), k, env.timeoutMs, st.now, AllowedOf(step, k, env.timeoutMs))
  {
    match step
    case Poll(_, _, _, _, _, _) => PollOpens(step, k, st, env);
    case Parallel(_, _, steps) =>
      MembersOpen(steps, Members(Block(steps, Absolute), env.scope), k, env.timeoutMs, st.now);
    case Repeat(_, _, times, steps) =>
      assert StartCore(step, Absolute, st, env) == Loop(Settled(Fulfilled), times, Block(steps, Absolute));
    case Branch(_, _, _, _, _) => BranchOpens(step, k, st, env);
    case _ =>
  }

  lemma StartOpens(step: Step, k: string, st: Store, env: Env)
    requires PacedStep(step, k)
    ensures Within(Start(step, Absolute, st, env), k, env.timeoutMs, st.now, AllowedOf(step, k, env.timeoutMs))
  {
    CoreOpens(step, k, st, env);
  }

  lemma {:induction false} FetchAllowed(code: seq<Block>, scope: Scope, k: string, limit: nat)
    requires PacedCode(code, k) && Fetch(code, scope).Some?
    ensures var f := Fetch(code, scope).value;
            && f.ctx.Absolute? && PacedStep(f.step, k) && PacedCode(f.rest, k)
            && AllowedOf(f.step, k, limit) + AllowedCode(f.rest, k, limit) == AllowedCode(code, k, limit)
  {
    assert PacedBlock(code[0], k);
    forall b | b in code[1..] ensures PacedBlock(b, k) { assert b in code; }
    if code[0].steps == [] {
      FetchAllowed(code[1..], scope, k, limit);
    } else {
      var rest := [Block(code[0].steps[1..], Absolute)] + code[1..];
      assert rest[1..] == code[1..];
      assert Fetch(code, scope).value.rest == rest;
    }
  }

  // ----- every move -----

  /** A move begins no more attempts of `k` than it takes from what is allowed. */
  predicate Pays(k: string, limit: nat, p: Proc, st: Store, p': Proc, st': Store)
    requires PacedProc(p, k)
  {
    && PacedProc(p', k) && st'.now == st.now
    && CounterOf(st', k) + Open(p', k, limit, st'.now) <= CounterOf(st, k) + Open(p, k, limit, st.now)
  }

  lemma ActionPays(
      k: string, step: Step, deadline: nat, leaf: Leaf, signal: Option<Fault>, addr: seq<nat>, ev: Event, st: Store,
      env: Env)
    requires PacedProc(Action(step, deadline, leaf), k)
    ensures var (p', st') := Next(Action(step, deadline, leaf), signal, addr, ev, st, env);
            Pays(k, env.timeoutMs, Action(step, deadline, leaf), st, p', st')
  {
    if step.id == k {
      LeafSpends(step, deadline, leaf, signal, ev, st, env);
    } else {
      LeafElsewhere(k, step, deadline, leaf, signal, ev, st, env);
    }
  }

  lemma LeafElsewhere(
      k: string, step: Step, deadline: nat, leaf: Leaf, signal: Option<Fault>, ev: Event, st: Store, env: Env)
    requires (step.Task? || step.Poll?) && step.id != k && Counted(step, leaf)
    ensures var (leaf', st') := LeafNext(step, deadline, leaf, signal, ev, st, env);
            Counted(step, leaf') && st'.now == st.now && CounterOf(st', k) == CounterOf(st, k)
  {
    if leaf.Reporting? { DeliverKeeps(step, leaf.output, signal, st, env); }
  }

  lemma DeliverKeeps(step: Step, output: Option<Value>, signal: Option<Fault>, st: Store, env: Env)
    requires step.Task? || step.Poll?
    ensures var (leaf', st') := Deliver(step, output, signal, st, env);
            Counted(step, leaf') && st'.now == st.now && st'.counters == st.counters
  {
    if step.Poll? { assert Deliver(step, output, signal, st, env).1 == PutOutput(st, step.id, output); }
  }

  lemma SequencePays(
      k: string, head: Proc, code: seq<Block>, signal: Option<Fault>, addr: seq<nat>, ev: Event, st: Store, env: Env)
    requires PacedProc(Sequence(head, code), k) && Completed(head, env.scope)
    ensures var (p', st') := Next(Sequence(head, code), signal, addr, ev, st, env);
            Pays(k, env.timeoutMs, Sequence(head, code), st, p', st')
  {
    var f := Fetch(code, env.scope);
    if f.Some? {
      FetchAllowed(code, env.scope, k, env.timeoutMs);
      StartOpens(f.value.step, k, st, env);
    }
  }

  lemma LoopPays(
      k: string, body: Proc, left: nat, again: Block, signal: Option<Fault>, addr: seq<nat>, ev: Event, st: Store,
      env: Env)
    requires PacedProc(Loop(body, left, again), k) && Completed(body, env.scope)
    ensures var (p', st') := Next(Loop(body, left, again), signal, addr, ev, st, env);
            Pays(k, env.timeoutMs, Loop(body, left, again), st, p', st')
  {
    if left > 0 {
      RunOpens(again, k, env.timeoutMs, st.now);
      var each := Allowed(again.steps, k, env.timeoutMs);
      assert left * each == (left - 1) * each + each;
    }
  }

  lemma GroupPays(
      k: string, members: seq<Proc>, i: nat, m: Proc, own: Option<Fault>, out: Option<Outcome>,
      signal: Option<Fault>, st: Store, st': Store, env: Env)
    requires PacedProc(Group(members, own, out), k) && i < |members| && members[i] in members
    requires Pays(k, env.timeoutMs, members[i], st, m, st')
    ensures Pays(k, env.timeoutMs, Group(members, own, out), st,
                 GroupAfter(members, i, m, own, out, signal, env.scope), st')
  {
    OpenUpdate(members, i, m, k, env.timeoutMs, st.now);
  }

  lemma {:induction false} NextPays(
      k: string, p: Proc, signal: Option<Fault>, addr: seq<nat>, ev: Event, st: Store, env: Env)
    requires PacedProc(p, k)
    ensures var (p', st') := Next(p, signal, addr, ev, st, env); Pays(k, env.timeoutMs, p, st, p', st')
    decreases p
  {
    match p {
      case Pending(step, _) => StartOpens(step, k, st, env);
      case Action(step, deadline, leaf) => ActionPays(k, step, deadline, leaf, signal, addr, ev, st, env);
      case Sequence(head, code) =>
        if Completed(head, env.scope) {
          SequencePays(k, head, code, signal, addr, ev, st, env);
        } else {
          NextPays(k, head, signal, addr, ev, st, env);
        }
      case Loop(body, left, again) =>
        if Completed(body, env.scope) {
          LoopPays(k, body, left, again, signal, addr, ev, st, env);
        } else {
          NextPays(k, body, signal, addr, ev, st, env);
        }
      case Group(members, own, out) =>
        if addr != [] && addr[0] < |members| {
          var i := addr[0];
          assert members[i] in members;
          NextPays(k, members[i], Below(own, signal), addr[1..], ev, st, env);
          var (m, st') := Next(members[i], Below(own, signal), addr[1..], ev, st, env);
          GroupPays(k, members, i, m, own, out, signal, st, st', env);
        }
      case Timed(body, own, _) => if addr != [] { NextPays(k, body, Below(own, signal), addr[1..], ev, st, env); }
      case _ =>
    }
  }

  // ----- every schedule, every run -----

  /** No more attempts of `k` begin from `s` to `t` than are no longer allowed. */
  predicate PaysFor(k: string, limit: nat, s: State, t: State) {
    && PacedProc(s.proc, k) && PacedProc(t.proc, k)
    && CounterOf(t.store, k) + Open(t.proc, k, limit, t.store.now) <=
       CounterOf(s.store, k) + Open(s.proc, k, limit, s.store.now)
  }

  lemma MovePays(k: string, s: State, m: Move, env: Env)
    requires PacedProc(s.proc, k)
    ensures PaysFor(k, env.timeoutMs, s, Advance(s, m, env))
  {
    match m
    case At(addr, ev) => NextPays(k, s.proc, s.abort, addr, ev, s.store, env);
    case Tick(ms) => OpenLater(s.proc, k, env.timeoutMs, s.store.now, s.store.now + ms);
    case _ =>
  }

  lemma {:induction false} PlayPays(k: string, s: State, moves: seq<Move>, env: Env)
    requires PacedProc(s.proc, k)
    ensures PaysFor(k, env.timeoutMs, s, Play(s, moves, env))
    decreases |moves|
  {
    if moves == [] {
    } else {
      MovePays(k, s, moves[0], env);
      PlayPays(k, Advance(s, moves[0], env), moves[1..], env);
    }
  }

  /** A phase of resolved steps, under any schedule: each step begins at most the attempts
      that the steps allow it, however long the phase goes on, whatever handlers answer and
      when, and whether the phase has settled or not. Only its own polls need to wait
      between their rounds. */
  lemma PhaseBounded(k: string, steps: seq<Step>, abort: Option<Fault>, st: Store, moves: seq<Move>, env: Env)
    requires PacedSteps(steps, k)
    ensures var t := Play(State(Run(Block(steps, Absolute)), abort, st), moves, env);
            CounterOf(t.store, k) <= CounterOf(st, k) + Allowed(steps, k, env.timeoutMs)
  {
    RunOpens(Block(steps, Absolute), k, env.timeoutMs, st.now);
    PlayPays(k, State(Run(Block(steps, Absolute)), abort, st), moves, env);
  }

  lemma EndingPays(k: string, entered: nat, error: Option<Fault>, s: State, env: Env, w: World)
    requires PacedProc(s.proc, k)
    ensures CounterOf(Ending(entered, error, s, env, w).store, k) <=
            CounterOf(s.store, k) + Open(s.proc, k, env.timeoutMs, s.store.now)
  {
    PlayPays(k, s, w.late, env);
  }

  /** All phases together, from phase `i` until the compensations are due. */
  lemma {:induction false} PhasesBounded(
      k: string, phases: seq<Block>, i: nat, abort: Option<Fault>, store: Store, env: Env, w: World)
    requires |phases| == |PHASES| && i <= |PHASES| && PacedCode(phases, k)
    ensures CounterOf(RunPhases(phases, i, abort, store, env, w).store, k) <=
            CounterOf(store, k) + AllowedCode(phases[i..], k, env.timeoutMs)
    decreases |PHASES| - i
  {
    if i == |PHASES| || abort.Some? {
      var error := if i == |PHASES| then None else Some(Thrown(abort.value));
      EndingPays(k, i, error, State(Settled(Fulfilled), abort, store), env, w);
    } else {
      var start := State(Run(phases[i]), abort, store);
      var s := Play(start, w.moves(i), env);
      assert PacedBlock(phases[i], k) && phases[i..][0] == phases[i] && phases[i..][1..] == phases[i + 1..];
      RunOpens(phases[i], k, env.timeoutMs, store.now);
      PlayPays(k, start, w.moves(i), env);
      match OutcomeOf(s.proc, env.scope)
      case None =>
      case Some(Rejected(f)) => EndingPays(k, i + 1, Some(f), s, env, w);
      case Some(Fulfilled) => PhasesBounded(k, phases, i + 1, s.abort, s.store, env, w);
    }
  }

  /** A whole run from an empty store: the step `k` begins at most the attempts that its
      phases allow it. */
  lemma RunBounded(k: string, phases: seq<Block>, env: Env, w: World, now: nat)
    requires |phases| == |PHASES| && PacedCode(phases, k)
    ensures var empty := Store([], map[], [], [], [], [], now);
            CounterOf(RunPhases(phases, 0, w.abort, empty, env, w).store, k) <= AllowedCode(phases, k, env.timeoutMs)
  {
    assert phases[0..] == phases;
    PhasesBounded(k, phases, 0, w.abort, Store([], map[], [], [], [], [], now), env, w);
  }
}
