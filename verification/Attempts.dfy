/** Step records refine the attempt history of a run, under every schedule. */
module Attempts {
  import opened Json
  import opened Steps
  import opened Template
  import opened Resolver
  import opened Interpreter
  import opened Moves
  import opened Sorting

  // ----- what is in flight -----

  type Key = (string, nat)

  /** What an attempt in flight still has to do: call its handler, record its result, or
      leave its output and compensation. */
  datatype Stage = Calling | Recording | Delivering(output: Option<Value>)

  /** The attempt that is in flight in a step, and its stage. */
  function StageOf(leaf: Leaf): Option<(nat, Stage)> {
    match leaf
    case Announced(_, number) => Some((number, Calling))
    case Called(_, number) => Some((number, Recording))
    case Raced(_, number, _) => Some((number, Recording))
    case Reporting(number, output) => Some((number, Delivering(output)))
    case _ => None
  }

  /** An attempt whose number is taken and whose result is not recorded. */
  function OpenKey(step: Step, leaf: Leaf): multiset<Key> {
    match StageOf(leaf)
    case Some((n, stage)) => if stage.Delivering? then multiset{} else multiset{(step.id, n)}
    case None => multiset{}
  }

  /** An attempt whose handler is still to be called. */
  function UncalledKey(step: Step, leaf: Leaf): multiset<Key> {
    match StageOf(leaf)
    case Some((n, stage)) => if stage.Calling? then multiset{(step.id, n)} else multiset{}
    case None => multiset{}
  }

  datatype Flight = Flight(step: Step, number: nat, stage: Stage)

  function FlightOf(step: Step, leaf: Leaf): multiset<Flight> {
    match StageOf(leaf) case Some((n, stage)) => multiset{Flight(step, n, stage)} case None => multiset{}
  }

  function InFlight(p: Proc): multiset<Key> { Gather(p, OpenKey) }

  function Uncalled(p: Proc): multiset<Key> { Gather(p, UncalledKey) }

  function Flights(p: Proc): multiset<Flight> { Gather(p, FlightOf) }

  // ----- what one move does to the attempt history -----

  /** An attempt took its number, its handler was called, its result was recorded, or its
      output and compensation were left behind. */
  datatype Effect =
    | Nothing
    | Began(step: Step)
    | Invoked(step: Step, number: nat)
    | Recorded(step: Step, number: nat, status: Status, output: Option<Value>)
    | Delivered(step: Step, number: nat, output: Option<Value>)

  /** Only task and poll steps have attempts, and a recorded result is not RUNNING. */
  predicate WellFormed(e: Effect) {
    (e.Nothing? || e.step.Task? || e.step.Poll?) && (e.Recorded? ==> e.status != RUNNING)
  }

  /** What an effect does to a run, whatever retries, polling and timeouts led to it. */
  function Apply(st: Store, e: Effect): Store
    requires WellFormed(e)
  {
    match e
    case Nothing => st
    case Began(step) =>
      var n := CounterOf(st, step.id) + 1;
      st.(counters := st.counters[step.id := n], records := Upsert(st.records, StepRecord(step.id, n, RUNNING)))
    case Invoked(step, n) => st.(invoked := st.invoked + [Invocation(step.id, n, step.call)])
    case Recorded(step, n, status, _) => st.(records := Upsert(st.records, StepRecord(step.id, n, status)))
    case Delivered(step, _, output) =>
      st.(outputs := if output.Some? then Put(st.outputs, step.id, output.value) else st.outputs,
          compensations := st.compensations + Undo(step))
  }

  /** The compensation of a step, if it is a task that has one. */
  function Undo(step: Step): seq<Compensation> {
    if step.Task? && step.compensate.Some? then [Compensation(step.id, step.compensate.value)] else []
  }

  /** Equal but for the cleanups and the clock, which other moves change. */
  predicate SameBook(a: Store, b: Store) {
    && a.counters == b.counters && a.records == b.records && a.invoked == b.invoked
    && a.outputs == b.outputs && a.compensations == b.compensations
  }

  /** How an effect shows in the store. */
  predicate Shows(e: Effect, st: Store, st': Store) { WellFormed(e) && SameBook(st', Apply(st, e)) }

  /** How it shows in the attempts that are open, and in those still to be called. */
  predicate Opens(e: Effect, st: Store, before: multiset<Key>, after: multiset<Key>) {
    match e
    case Began(step) => after == before + multiset{(step.id, CounterOf(st, step.id) + 1)}
    case Recorded(step, n, _, _) => (step.id, n) in before && after == before - multiset{(step.id, n)}
    case _ => after == before
  }

  predicate Calls(e: Effect, st: Store, before: multiset<Key>, after: multiset<Key>) {
    match e
    case Began(step) => after == before + multiset{(step.id, CounterOf(st, step.id) + 1)}
    case Invoked(step, n) => (step.id, n) in before && after == before - multiset{(step.id, n)}
    case _ => after == before
  }

  /** How it shows in the attempts in flight. */
  predicate Flies(e: Effect, st: Store, before: multiset<Flight>, after: multiset<Flight>) {
    Taken(e) <= before && after == FlightsAfter(e, st, before)
  }

  /** The flight an effect takes further. */
  function Taken(e: Effect): multiset<Flight> {
    match e
    case Invoked(step, n) => multiset{Flight(step, n, Calling)}
    case Recorded(step, n, _, _) => multiset{Flight(step, n, Recording)}
    case Delivered(step, n, output) => multiset{Flight(step, n, Delivering(output))}
    case _ => multiset{}
  }

  /** The flight it leaves. */
  function Ahead(e: Effect, st: Store): multiset<Flight> {
    match e
    case Began(step) => multiset{Flight(step, CounterOf(st, step.id) + 1, Calling)}
    case Invoked(step, n) => multiset{Flight(step, n, Recording)}
    case Recorded(step, n, status, output) =>
      if status == PASSED then multiset{Flight(step, n, Delivering(output))} else multiset{}
    case _ => multiset{}
  }

  function FlightsAfter(e: Effect, st: Store, flights: multiset<Flight>): multiset<Flight> {
    flights - Taken(e) + Ahead(e, st)
  }

  /** The effect of a move that turns `leaf` into `leaf'`. */
  function EffectOf(step: Step, leaf: Leaf, leaf': Leaf): Effect {
    match leaf
    case Ready(_) => if leaf'.Announced? then Began(step) else Nothing
    case Announced(_, number) => if leaf'.Announced? then Nothing else Invoked(step, number)
    case Raced(_, number, race) =>
      if leaf'.Reporting? then Recorded(step, number, PASSED, leaf'.output)
      else if leaf'.Failing? then Recorded(step, number, if leaf'.cancelled then CANCELLED else FAILED, None)
      else Nothing
    case Reporting(number, output) => if leaf'.Reporting? then Nothing else Delivered(step, number, output)
    case _ => Nothing
  }

  /** How an effect takes the attempt of one step further. */
  predicate Advances(e: Effect, st: Store, step: Step, before: Option<(nat, Stage)>, after: Option<(nat, Stage)>) {
    match e
    case Nothing => after == before
    case Began(own) => own == step && before == None && after == Some((CounterOf(st, step.id) + 1, Calling))
    case Invoked(own, n) => own == step && before == Some((n, Calling)) && after == Some((n, Recording))
    case Recorded(own, n, status, output) =>
      && own == step && before == Some((n, Recording))
      && after == if status == PASSED then Some((n, Delivering(output))) else None
    case Delivered(own, n, output) => own == step && before == Some((n, Delivering(output))) && after == None
  }

  /** What a leaf's own move shows. */
  predicate LeafShows(step: Step, leaf: Leaf, st: Store, leaf': Leaf, st': Store) {
    var e := EffectOf(step, leaf, leaf');
    Shows(e, st, st') && Advances(e, st, step, StageOf(leaf), StageOf(leaf'))
  }

  lemma AnnounceShows(step: Step, attempt: nat, st: Store)
    requires step.Task? || step.Poll?
    ensures var (leaf', st') := Announce(step, attempt, st); LeafShows(step, Ready(attempt), st, leaf', st')
  {
  }

  lemma CallShows(step: Step, attempt: nat, number: nat, signal: Option<Fault>, st: Store)
    requires step.Task? || step.Poll?
    ensures var (leaf', st') := CallHandler(step, attempt, number, signal, st);
            LeafShows(step, Announced(attempt, number), st, leaf', st')
  {
  }

  lemma RaceShows(step: Step, attempt: nat, number: nat, race: Race, signal: Option<Fault>, st: Store)
    requires step.Task? || step.Poll?
    ensures var (leaf', st') := RecordRace(step, attempt, number, race, signal, st);
            LeafShows(step, Raced(attempt, number, race), st, leaf', st')
  {
  }

  lemma TaskDelivers(step: Step, number: nat, output: Option<Value>, signal: Option<Fault>, st: Store, env: Env)
    requires step.Task? && st.compensations + [] == st.compensations
    ensures var (leaf', st') := Deliver(step, output, signal, st, env);
            StageOf(leaf') == None && leaf'.Ended? && SameBook(st', Apply(st, Delivered(step, number, output)))
  {
  }

  lemma PollDelivers(step: Step, number: nat, output: Option<Value>, signal: Option<Fault>, st: Store, env: Env)
    requires step.Poll? && st.compensations + [] == st.compensations
    ensures var (leaf', st') := Deliver(step, output, signal, st, env);
            StageOf(leaf') == None && !leaf'.Reporting? && SameBook(st', Apply(st, Delivered(step, number, output)))
  {
    assert Deliver(step, output, signal, st, env).1 == PutOutput(st, step.id, output);
  }

  lemma DeliverShows(step: Step, number: nat, output: Option<Value>, signal: Option<Fault>, st: Store, env: Env)
    requires step.Task? || step.Poll?
    ensures var (leaf', st') := Deliver(step, output, signal, st, env);
            LeafShows(step, Reporting(number, output), st, leaf', st')
  {
    assert st.compensations + [] == st.compensations;
    if step.Task? {
      TaskDelivers(step, number, output, signal, st, env);
    } else {
      PollDelivers(step, number, output, signal, st, env);
    }
  }

  /** Whatever the branch, a move of a task or poll step has one such effect. */
  lemma LeafEffect(
      step: Step, deadline: nat, leaf: Leaf, signal: Option<Fault>, ev: Event, st: Store, env: Env)
    requires step.Task? || step.Poll?
    ensures var (leaf', st') := LeafNext(step, deadline, leaf, signal, ev, st, env);
            LeafShows(step, leaf, st, leaf', st')
  {
    if leaf.Called? {
      assert StageOf(SettleRace(step, leaf.attempt, leaf.number, signal, ev)) == StageOf(leaf);
    } else if ev == Go {
      match leaf
      case Ready(attempt) => AnnounceShows(step, attempt, st);
      case Announced(attempt, number) => CallShows(step, attempt, number, signal, st);
      case Raced(attempt, number, race) => RaceShows(step, attempt, number, race, signal, st);
      case Reporting(number, output) => DeliverShows(step, number, output, signal, st, env);
      case _ =>
    }
  }

  function EffectOfTouch(t: Option<Touch>, ev: Event, st: Store, env: Env): Effect
    requires t.Some? ==> t.value.step.Task? || t.value.step.Poll?
  {
    match t case None => Nothing case Some(t) => EffectOf(t.step, t.leaf, Moved(t, ev, st, env).0)
  }

  /** The effect of a move of a run. */
  function EffectOfMove(s: State, m: Move, env: Env): Effect {
    match m
    case At(addr, ev) => EffectOfTouch(Touched(s.proc, s.abort, addr, env.scope), ev, s.store, env)
    case _ => Nothing
  }

  lemma OpensWithin(e: Effect, st: Store, step: Step, leaf: Leaf, leaf': Leaf, rest: multiset<Key>)
    requires Advances(e, st, step, StageOf(leaf), StageOf(leaf'))
    ensures Opens(e, st, rest + OpenKey(step, leaf), rest + OpenKey(step, leaf'))
  {
  }

  lemma CallsWithin(e: Effect, st: Store, step: Step, leaf: Leaf, leaf': Leaf, rest: multiset<Key>)
    requires Advances(e, st, step, StageOf(leaf), StageOf(leaf'))
    ensures Calls(e, st, rest + UncalledKey(step, leaf), rest + UncalledKey(step, leaf'))
  {
  }

  lemma FliesWithin(e: Effect, st: Store, step: Step, leaf: Leaf, leaf': Leaf, rest: multiset<Flight>)
    requires Advances(e, st, step, StageOf(leaf), StageOf(leaf'))
    ensures Flies(e, st, rest + FlightOf(step, leaf), rest + FlightOf(step, leaf'))
  {
    if e.Nothing? {
      assert FlightOf(step, leaf') == FlightOf(step, leaf);
      GiveAndTake(rest + FlightOf(step, leaf), multiset{}, multiset{});
    } else {
      TakesFlight(e, st, step, leaf, leaf');
      GiveAndTake(rest, Taken(e), Ahead(e, st));
    }
  }

  lemma TakesFlight(e: Effect, st: Store, step: Step, leaf: Leaf, leaf': Leaf)
    requires Advances(e, st, step, StageOf(leaf), StageOf(leaf')) && !e.Nothing?
    ensures FlightOf(step, leaf) == Taken(e) && FlightOf(step, leaf') == Ahead(e, st)
  {
  }

  lemma GiveAndTake<T>(rest: multiset<T>, taken: multiset<T>, given: multiset<T>)
    ensures taken <= rest + taken && (rest + taken) - taken + given == rest + given
    ensures rest + multiset{} == rest
  {
  }

  /** A move of a run has the effect of the step it touches. */
  predicate MoveShows(s: State, e: Effect, t: State) {
    && Shows(e, s.store, t.store)
    && Opens(e, s.store, InFlight(s.proc), InFlight(t.proc))
    && Calls(e, s.store, Uncalled(s.proc), Uncalled(t.proc))
    && Flies(e, s.store, Flights(s.proc), Flights(t.proc))
  }

  lemma MoveEffect(s: State, m: Move, env: Env)
    requires Tidy(s.proc, env.scope)
    ensures Tidy(Advance(s, m, env).proc, env.scope) && MoveShows(s, EffectOfMove(s, m, env), Advance(s, m, env))
  {
    match m {
      case At(addr, ev) => StepEffect(s, addr, ev, env);
      case _ => OtherMove(s, m, env);
    }
  }

  /** The leaf that a move touches, before and after. */
  predicate LeafMoves(s: State, addr: seq<nat>, ev: Event, env: Env, t: Touch, leaf': Leaf) {
    && Touched(s.proc, s.abort, addr, env.scope) == Some(t) && (t.step.Task? || t.step.Poll?)
    && leaf' == Moved(t, ev, s.store, env).0
    && Advances(EffectOf(t.step, t.leaf, leaf'), s.store, t.step, StageOf(t.leaf), StageOf(leaf'))
  }

  lemma StepOpens(s: State, addr: seq<nat>, ev: Event, env: Env, t: Touch, leaf': Leaf)
    requires Tidy(s.proc, env.scope) && LeafMoves(s, addr, ev, env, t, leaf')
    ensures Opens(EffectOf(t.step, t.leaf, leaf'), s.store, InFlight(s.proc),
                  InFlight(Next(s.proc, s.abort, addr, ev, s.store, env).0))
  {
    var rest := TouchSwaps(s.proc, s.abort, addr, ev, s.store, env, t, OpenKey);
    OpensWithin(EffectOf(t.step, t.leaf, leaf'), s.store, t.step, t.leaf, leaf', rest);
  }

  lemma StepCalls(s: State, addr: seq<nat>, ev: Event, env: Env, t: Touch, leaf': Leaf)
    requires Tidy(s.proc, env.scope) && LeafMoves(s, addr, ev, env, t, leaf')
    ensures Calls(EffectOf(t.step, t.leaf, leaf'), s.store, Uncalled(s.proc),
                  Uncalled(Next(s.proc, s.abort, addr, ev, s.store, env).0))
  {
    var rest := TouchSwaps(s.proc, s.abort, addr, ev, s.store, env, t, UncalledKey);
    CallsWithin(EffectOf(t.step, t.leaf, leaf'), s.store, t.step, t.leaf, leaf', rest);
  }

  lemma StepFlies(s: State, addr: seq<nat>, ev: Event, env: Env, t: Touch, leaf': Leaf)
    requires Tidy(s.proc, env.scope) && LeafMoves(s, addr, ev, env, t, leaf')
    ensures Flies(EffectOf(t.step, t.leaf, leaf'), s.store, Flights(s.proc),
                  Flights(Next(s.proc, s.abort, addr, ev, s.store, env).0))
  {
    var rest := TouchSwaps(s.proc, s.abort, addr, ev, s.store, env, t, FlightOf);
    FliesWithin(EffectOf(t.step, t.leaf, leaf'), s.store, t.step, t.leaf, leaf', rest);
  }

  lemma UntouchedShows(s: State, addr: seq<nat>, ev: Event, env: Env, t: State)
    requires Tidy(s.proc, env.scope) && Touched(s.proc, s.abort, addr, env.scope) == None
    requires Next(s.proc, s.abort, addr, ev, s.store, env) == (t.proc, t.store)
    ensures MoveShows(s, Nothing, t)
  {
    SameKeys(s, addr, ev, env, t);
    SameFlights(s, addr, ev, env, t);
    NothingShows(s, t);
  }

  lemma SameKeys(s: State, addr: seq<nat>, ev: Event, env: Env, t: State)
    requires Tidy(s.proc, env.scope) && Touched(s.proc, s.abort, addr, env.scope) == None
    requires Next(s.proc, s.abort, addr, ev, s.store, env) == (t.proc, t.store)
    ensures InFlight(t.proc) == InFlight(s.proc) && Uncalled(t.proc) == Uncalled(s.proc)
  {
    SameGathered(s, addr, ev, env, t, OpenKey);
    SameGathered(s, addr, ev, env, t, UncalledKey);
  }

  lemma SameFlights(s: State, addr: seq<nat>, ev: Event, env: Env, t: State)
    requires Tidy(s.proc, env.scope) && Touched(s.proc, s.abort, addr, env.scope) == None
    requires Next(s.proc, s.abort, addr, ev, s.store, env) == (t.proc, t.store)
    ensures Flights(t.proc) == Flights(s.proc) && t.store == s.store
  {
    SameGathered(s, addr, ev, env, t, FlightOf);
    MoveStore(s.proc, s.abort, addr, ev, s.store, env);
  }

  lemma SameGathered<X>(s: State, addr: seq<nat>, ev: Event, env: Env, t: State, f: (Step, Leaf) -> multiset<X>)
    requires Tidy(s.proc, env.scope) && AtRest(f) && Touched(s.proc, s.abort, addr, env.scope) == None
    requires Next(s.proc, s.abort, addr, ev, s.store, env).0 == t.proc
    ensures Gather(t.proc, f) == Gather(s.proc, f)
  {
    NoSwap(s.proc, s.abort, addr, ev, s.store, env, f);
  }

  lemma NothingShows(s: State, t: State)
    requires SameBook(t.store, s.store)
    requires InFlight(t.proc) == InFlight(s.proc) && Uncalled(t.proc) == Uncalled(s.proc)
    requires Flights(t.proc) == Flights(s.proc)
    ensures MoveShows(s, Nothing, t)
  {
  }

  lemma StepEffect(s: State, addr: seq<nat>, ev: Event, env: Env)
    requires Tidy(s.proc, env.scope)
    ensures Tidy(Advance(s, At(addr, ev), env).proc, env.scope)
    ensures MoveShows(s, EffectOfMove(s, At(addr, ev), env), Advance(s, At(addr, ev), env))
  {
    var rest := MoveSwaps(s.proc, s.abort, addr, ev, s.store, env, OpenKey);
    match Touched(s.proc, s.abort, addr, env.scope) {
      case None => UntouchedShows(s, addr, ev, env, Advance(s, At(addr, ev), env));
      case Some(t) =>
        var leaf' := Moved(t, ev, s.store, env).0;
        MoveStore(s.proc, s.abort, addr, ev, s.store, env);
        LeafEffect(t.step, t.deadline, t.leaf, t.signal, ev, s.store, env);
        StepOpens(s, addr, ev, env, t, leaf');
        StepCalls(s, addr, ev, env, t, leaf');
        StepFlies(s, addr, ev, env, t, leaf');
    }
  }

  lemma OtherMove(s: State, m: Move, env: Env)
    requires !m.At?
    ensures Advance(s, m, env).proc == s.proc && MoveShows(s, Nothing, Advance(s, m, env))
  {
    NothingShows(s, Advance(s, m, env));
  }

  // ----- the invariant -----

  /** The status recorded for an attempt. */
  function Find(records: seq<StepRecord>, id: string, n: nat): Option<Status> {
    if records == [] then None
    else if records[0].stepId == id && records[0].attempt == n then Some(records[0].status)
    else Find(records[1..], id, n)
  }

  /** No two records share step and attempt. */
  predicate DistinctKeys(records: seq<StepRecord>) {
    records == [] ||
    (Find(records[1..], records[0].stepId, records[0].attempt) == None && DistinctKeys(records[1..]))
  }

  /** How often attempt `n` of a step was invoked. */
  function Times(invoked: seq<Invocation>, id: string, n: nat): nat {
    if invoked == [] then 0
    else
      var last := invoked[|invoked| - 1];
      Times(invoked[..|invoked| - 1], id, n) + if last.stepId == id && last.attempt == n then 1 else 0
  }

  /** A step has a record for each of the attempts 1..k it has begun and no other; the
      records still RUNNING are those of the open attempts. */
  ghost predicate Exact(st: Store, keys: multiset<Key>) {
    && (forall id: string, n: nat :: Find(st.records, id, n).Some? <==> 1 <= n <= CounterOf(st, id))
    && (forall id: string, n: nat :: Find(st.records, id, n) == Some(RUNNING) <==> (id, n) in keys)
    && (forall k | k in keys :: keys[k] == 1)
  }

  /** Each of those attempts was invoked once, or still is to be. */
  ghost predicate Handed(st: Store, uncalled: multiset<Key>) {
    forall id: string, n: nat ::
      Times(st.invoked, id, n) + uncalled[(id, n)] == if 1 <= n <= CounterOf(st, id) then 1 else 0
  }

  /** The records are the attempt history. */
  ghost predicate Consistent(st: Store, keys: multiset<Key>, uncalled: multiset<Key>) {
    DistinctKeys(st.records) && Exact(st, keys) && Handed(st, uncalled)
  }

  lemma {:induction false} FindUpsert(records: seq<StepRecord>, r: StepRecord, id: string, n: nat)
    ensures Find(Upsert(records, r), id, n) ==
            if id == r.stepId && n == r.attempt then Some(r.status) else Find(records, id, n)
  {
    if records != [] && !(records[0].stepId == r.stepId && records[0].attempt == r.attempt) {
      FindUpsert(records[1..], r, id, n);
      assert Upsert(records, r)[1..] == Upsert(records[1..], r);
    } else {
      assert Upsert(records, r)[1..] == if records == [] then [] else records[1..];
    }
  }

  lemma {:induction false} UpsertDistinct(records: seq<StepRecord>, r: StepRecord)
    requires DistinctKeys(records)
    ensures DistinctKeys(Upsert(records, r))
  {
    if records != [] && !(records[0].stepId == r.stepId && records[0].attempt == r.attempt) {
      UpsertDistinct(records[1..], r);
      FindUpsert(records[1..], r, records[0].stepId, records[0].attempt);
      assert Upsert(records, r)[1..] == Upsert(records[1..], r);
    } else {
      assert Upsert(records, r)[1..] == if records == [] then [] else records[1..];
    }
  }

  lemma TimesSnoc(invoked: seq<Invocation>, x: Invocation, id: string, n: nat)
    ensures Times(invoked + [x], id, n) ==
            Times(invoked, id, n) + if x.stepId == id && x.attempt == n then 1 else 0
  {
    assert (invoked + [x])[..|invoked|] == invoked;
  }

  /** The record an effect writes. */
  function RecordOf(e: Effect, st: Store): StepRecord
    requires e.Began? || e.Recorded?
  {
    if e.Began? then StepRecord(e.step.id, CounterOf(st, e.step.id) + 1, RUNNING)
    else StepRecord(e.step.id, e.number, e.status)
  }

  lemma RecordWritten(e: Effect, st: Store, st': Store)
    requires Shows(e, st, st')
    ensures e.Began? || e.Recorded? ==> st'.records == Upsert(st.records, RecordOf(e, st))
    ensures !e.Began? && !e.Recorded? ==> st'.records == st.records
  {
  }

  /** The record of one attempt after an effect. */
  lemma FindAfter(e: Effect, st: Store, st': Store, id: string, n: nat)
    requires Shows(e, st, st')
    ensures Find(st'.records, id, n) ==
            if (e.Began? || e.Recorded?) && id == RecordOf(e, st).stepId && n == RecordOf(e, st).attempt
            then Some(RecordOf(e, st).status)
            else Find(st.records, id, n)
  {
    RecordWritten(e, st, st');
    if e.Began? || e.Recorded? { FindUpsert(st.records, RecordOf(e, st), id, n); }
  }

  lemma CounterAfter(e: Effect, st: Store, st': Store, id: string)
    requires Shows(e, st, st')
    ensures CounterOf(st', id) == CounterOf(st, id) + if e.Began? && id == e.step.id then 1 else 0
  {
  }

  lemma EffectExact(e: Effect, st: Store, st': Store, keys: multiset<Key>, keys': multiset<Key>)
    requires Exact(st, keys) && Shows(e, st, st') && Opens(e, st, keys, keys')
    ensures Exact(st', keys')
  {
    if e.Began? {
      assert Find(st.records, e.step.id, CounterOf(st, e.step.id) + 1) == None;
      assert (e.step.id, CounterOf(st, e.step.id) + 1) !in keys;
    } else if e.Recorded? {
      assert Find(st.records, e.step.id, e.number) == Some(RUNNING) && keys[(e.step.id, e.number)] == 1;
    }
    forall id: string, n: nat
      ensures Find(st'.records, id, n).Some? <==> 1 <= n <= CounterOf(st', id)
      ensures Find(st'.records, id, n) == Some(RUNNING) <==> (id, n) in keys'
    {
      FindAfter(e, st, st', id, n);
      CounterAfter(e, st, st', id);
    }
  }

  /** How often an attempt was invoked, after an effect. */
  lemma TimesAfter(e: Effect, st: Store, st': Store, id: string, n: nat)
    requires Shows(e, st, st')
    ensures Times(st'.invoked, id, n) ==
            Times(st.invoked, id, n) + if e.Invoked? && e.step.id == id && e.number == n then 1 else 0
  {
    if e.Invoked? { TimesSnoc(st.invoked, Invocation(e.step.id, e.number, e.step.call), id, n); }
  }

  /** How often it is still to be invoked. */
  lemma CallsAfter(e: Effect, st: Store, uncalled: multiset<Key>, uncalled': multiset<Key>, id: string, n: nat)
    requires Calls(e, st, uncalled, uncalled')
    ensures uncalled'[(id, n)] + (if e.Invoked? && e.step.id == id && e.number == n then 1 else 0) ==
            uncalled[(id, n)] + if e.Began? && e.step.id == id && n == CounterOf(st, id) + 1 then 1 else 0
  {
  }

  lemma EffectHanded(e: Effect, st: Store, st': Store, uncalled: multiset<Key>, uncalled': multiset<Key>)
    requires Handed(st, uncalled) && Shows(e, st, st') && Calls(e, st, uncalled, uncalled')
    ensures Handed(st', uncalled')
  {
    forall id: string, n: nat
      ensures Times(st'.invoked, id, n) + uncalled'[(id, n)] == if 1 <= n <= CounterOf(st', id) then 1 else 0
    {
      assert Times(st.invoked, id, n) + uncalled[(id, n)] == if 1 <= n <= CounterOf(st, id) then 1 else 0;
      TimesAfter(e, st, st', id, n);
      CallsAfter(e, st, uncalled, uncalled', id, n);
      CounterAfter(e, st, st', id);
    }
  }

  /** A record that has left RUNNING is never changed again. */
  ghost predicate KeepsFinal(before: seq<StepRecord>, after: seq<StepRecord>) {
    forall id: string, n: nat | Find(before, id, n).Some? && Find(before, id, n) != Some(RUNNING) ::
      Find(after, id, n) == Find(before, id, n)
  }

  lemma EffectKeepsFinal(e: Effect, st: Store, st': Store, keys: multiset<Key>, keys': multiset<Key>)
    requires Exact(st, keys) && Shows(e, st, st') && Opens(e, st, keys, keys')
    ensures KeepsFinal(st.records, st'.records)
  {
    RecordWritten(e, st, st');
    if e.Began? || e.Recorded? {
      var r := RecordOf(e, st);
      assert Find(st.records, r.stepId, r.attempt).None? || Find(st.records, r.stepId, r.attempt) == Some(RUNNING);
      forall i: string, k: nat | Find(st.records, i, k).Some? && Find(st.records, i, k) != Some(RUNNING)
        ensures Find(st'.records, i, k) == Find(st.records, i, k)
      {
        FindUpsert(st.records, r, i, k);
      }
    }
  }

  lemma EffectConsistent(e: Effect, s: State, t: State)
    requires Consistent(s.store, InFlight(s.proc), Uncalled(s.proc)) && MoveShows(s, e, t)
    ensures Consistent(t.store, InFlight(t.proc), Uncalled(t.proc)) && KeepsFinal(s.store.records, t.store.records)
  {
    EffectExact(e, s.store, t.store, InFlight(s.proc), InFlight(t.proc));
    EffectHanded(e, s.store, t.store, Uncalled(s.proc), Uncalled(t.proc));
    EffectKeepsFinal(e, s.store, t.store, InFlight(s.proc), InFlight(t.proc));
    RecordWritten(e, s.store, t.store);
    if e.Began? || e.Recorded? { UpsertDistinct(s.store.records, RecordOf(e, s.store)); }
  }

  /** Every move of every schedule keeps the records an exact account of the attempts. */
  lemma {:induction false} RecordsRefineHistory(s: State, moves: seq<Move>, env: Env)
    requires Tidy(s.proc, env.scope) && Consistent(s.store, InFlight(s.proc), Uncalled(s.proc))
    ensures var t := Play(s, moves, env);
            && Tidy(t.proc, env.scope) && Consistent(t.store, InFlight(t.proc), Uncalled(t.proc))
            && KeepsFinal(s.store.records, t.store.records)
    decreases |moves|
  {
    if moves == [] {
    } else {
      MoveEffect(s, moves[0], env);
      EffectConsistent(EffectOfMove(s, moves[0], env), s, Advance(s, moves[0], env));
      RecordsRefineHistory(Advance(s, moves[0], env), moves[1..], env);
    }
  }

  /** A run starts with no attempts, so the account is exact from its first move on. */
  lemma RunRecordsRefineHistory(code: Block, moves: seq<Move>, env: Env, now: nat)
    ensures var t := Play(State(Run(code), None, Store([], map[], [], [], [], [], now)), moves, env);
            Consistent(t.store, InFlight(t.proc), Uncalled(t.proc))
  {
    EmptyConsistent(now);
    FreshRun(code, env.scope);
    RecordsRefineHistory(State(Run(code), None, Store([], map[], [], [], [], [], now)), moves, env);
  }

  /** A run that has not moved has nothing in flight. */
  lemma FreshRun(code: Block, scope: Scope)
    ensures Tidy(Run(code), scope)
    ensures InFlight(Run(code)) == multiset{} && Uncalled(Run(code)) == multiset{} && Flights(Run(code)) == multiset{}
  {
    assert Gather(Settled(Fulfilled), OpenKey) == multiset{};
    assert Gather(Settled(Fulfilled), UncalledKey) == multiset{};
    assert Gather(Settled(Fulfilled), FlightOf) == multiset{};
  }

  lemma EmptyConsistent(now: nat)
    ensures Consistent(Store([], map[], [], [], [], [], now), multiset{}, multiset{})
  {
  }

  // ----- a run is a history of attempts -----

  predicate Formed(h: seq<Effect>) { forall e | e in h :: WellFormed(e) }

  function Replay(st: Store, h: seq<Effect>): Store
    requires Formed(h)
    decreases |h|
  {
    if h == [] then st else Replay(Apply(st, h[0]), h[1..])
  }

  /** Attempts go on only while they are in flight; in the end `left` still are. */
  predicate Legal(h: seq<Effect>, st: Store, flights: multiset<Flight>, left: multiset<Flight>) {
    if h == [] then left == flights
    else
      && WellFormed(h[0]) && Taken(h[0]) <= flights
      && Legal(h[1..], Apply(st, h[0]), FlightsAfter(h[0], st, flights), left)
  }

  lemma ApplySame(a: Store, b: Store, e: Effect)
    requires SameBook(a, b) && WellFormed(e)
    ensures SameBook(Apply(a, e), Apply(b, e))
  {
  }

  lemma FlightsSame(e: Effect, a: Store, b: Store, flights: multiset<Flight>)
    requires SameBook(a, b)
    ensures FlightsAfter(e, a, flights) == FlightsAfter(e, b, flights)
  {
    assert Ahead(e, a) == Ahead(e, b);
  }

  lemma {:induction false} LegalSame(
      h: seq<Effect>, a: Store, b: Store, flights: multiset<Flight>, left: multiset<Flight>)
    requires Legal(h, a, flights, left) && SameBook(a, b)
    ensures Legal(h, b, flights, left)
  {
    if h == [] {
    } else {
      ApplySame(a, b, h[0]);
      FlightsSame(h[0], a, b, flights);
      LegalSame(h[1..], Apply(a, h[0]), Apply(b, h[0]), FlightsAfter(h[0], a, flights), left);
    }
  }

  lemma {:induction false} ReplaySame(h: seq<Effect>, a: Store, b: Store)
    requires SameBook(a, b) && Formed(h)
    ensures SameBook(Replay(a, h), Replay(b, h))
  {
    if h == [] {
    } else {
      ApplySame(a, b, h[0]);
      ReplaySame(h[1..], Apply(a, h[0]), Apply(b, h[0]));
    }
  }

  /** What the moves of a schedule do, one after another. */
  function History(s: State, moves: seq<Move>, env: Env): seq<Effect>
    decreases |moves|
  {
    if moves == [] then []
    else [EffectOfMove(s, moves[0], env)] + History(Advance(s, moves[0], env), moves[1..], env)
  }

  /** `h` is a history of attempts that leads from one store and what is in flight there
      to another. */
  predicate Explains(h: seq<Effect>, before: Store, flights: multiset<Flight>, after: Store, left: multiset<Flight>) {
    Formed(h) && Legal(h, before, flights, left) && SameBook(after, Replay(before, h))
  }

  lemma HistoryCons(
      h: seq<Effect>, st: Store, flights: multiset<Flight>, st': Store, flights': multiset<Flight>,
      after: Store, left: multiset<Flight>)
    requires h != [] && Shows(h[0], st, st') && Flies(h[0], st, flights, flights')
    requires Explains(h[1..], st', flights', after, left)
    ensures Explains(h, st, flights, after, left)
  {
    FormedCons(h);
    LegalCons(h, st, flights, st', flights', left);
    ReplaySame(h[1..], st', Apply(st, h[0]));
  }

  lemma LegalCons(
      h: seq<Effect>, st: Store, flights: multiset<Flight>, st': Store, flights': multiset<Flight>,
      left: multiset<Flight>)
    requires h != [] && Shows(h[0], st, st') && Flies(h[0], st, flights, flights')
    requires Legal(h[1..], st', flights', left)
    ensures Legal(h, st, flights, left)
  {
    LegalSame(h[1..], st', Apply(st, h[0]), flights', left);
  }

  lemma FormedCons(h: seq<Effect>)
    requires h != [] && WellFormed(h[0]) && Formed(h[1..])
    ensures Formed(h)
  {
    forall e | e in h ensures WellFormed(e) { if e != h[0] { assert e in h[1..]; } }
  }

  /** Every run is explained by its history: its counters, records, invocations, outputs
      and compensations are those of beginning, invoking, recording and delivering
      attempts in that order. */
  lemma {:induction false} HistoryExplains(s: State, moves: seq<Move>, env: Env)
    requires Tidy(s.proc, env.scope)
    ensures var t := Play(s, moves, env);
            && Tidy(t.proc, env.scope)
            && Explains(History(s, moves, env), s.store, Flights(s.proc), t.store, Flights(t.proc))
    decreases |moves|
  {
    if moves == [] {
    } else {
      var t := Advance(s, moves[0], env);
      var end := Play(s, moves, env);
      MoveEffect(s, moves[0], env);
      HistoryExplains(t, moves[1..], env);
      var h := History(s, moves, env);
      assert h[0] == EffectOfMove(s, moves[0], env) && h[1..] == History(t, moves[1..], env);
      HistoryCons(h, s.store, Flights(s.proc), t.store, Flights(t.proc), end.store, Flights(end.proc));
    }
  }

  lemma FormedConcat(a: seq<Effect>, b: seq<Effect>)
    requires Formed(a) && Formed(b)
    ensures Formed(a + b) && (a != [] ==> Formed(a[1..]) && (a + b)[0] == a[0] && (a + b)[1..] == a[1..] + b)
  {
  }

  lemma {:induction false} ReplayConcat(a: seq<Effect>, b: seq<Effect>, st: Store)
    requires Formed(a) && Formed(b)
    ensures Formed(a + b) && Replay(st, a + b) == Replay(Replay(st, a), b)
    decreases |a|
  {
    FormedConcat(a, b);
    if a == [] {
      assert a + b == b;
    } else {
      ReplayConcat(a[1..], b, Apply(st, a[0]));
    }
  }

  lemma {:induction false} LegalThen(
      a: seq<Effect>, b: seq<Effect>, st: Store, flights: multiset<Flight>, middle: multiset<Flight>,
      left: multiset<Flight>)
    requires Formed(a) && Formed(b)
    requires Legal(a, st, flights, middle) && Legal(b, Replay(st, a), middle, left)
    ensures Legal(a + b, st, flights, left)
    decreases |a|
  {
    FormedConcat(a, b);
    if a == [] {
      assert a + b == b;
    } else {
      LegalThen(a[1..], b, Apply(st, a[0]), FlightsAfter(a[0], st, flights), middle, left);
    }
  }

  /** Histories of consecutive stretches of a run make one history. */
  lemma ExplainsThen(
      a: seq<Effect>, b: seq<Effect>, x: Store, flights: multiset<Flight>, y: Store, middle: multiset<Flight>,
      z: Store, left: multiset<Flight>)
    requires Explains(a, x, flights, y, middle) && Explains(b, y, middle, z, left)
    ensures Explains(a + b, x, flights, z, left)
  {
    LegalSame(b, y, Replay(x, a), middle, left);
    ReplaySame(b, y, Replay(x, a));
    ReplayConcat(a, b, x);
    LegalThen(a, b, x, flights, middle, left);
  }

  /** The last output a step delivered. */
  function LastOutput(h: seq<Effect>, id: string): Option<Value> {
    if h == [] then None
    else
      var later := LastOutput(h[1..], id);
      if later.Some? then later
      else if h[0].Delivered? && h[0].step.id == id then h[0].output
      else None
  }

  /** The output of a step is the last one it delivered. */
  lemma {:induction false} ReplayOutputs(st: Store, h: seq<Effect>, id: string)
    requires Formed(h)
    ensures Lookup(Replay(st, h).outputs, id) ==
            if LastOutput(h, id).Some? then LastOutput(h, id) else Lookup(st.outputs, id)
    decreases |h|
  {
    if h == [] {
    } else {
      ReplayOutputs(Apply(st, h[0]), h[1..], id);
      OutputAfter(st, h[0], id);
    }
  }

  lemma OutputAfter(st: Store, e: Effect, id: string)
    requires WellFormed(e)
    ensures Lookup(Apply(st, e).outputs, id) ==
            if e.Delivered? && e.output.Some? && e.step.id == id then e.output else Lookup(st.outputs, id)
  {
    if e.Delivered? && e.output.Some? && e.step.id != id {
      PutElsewhere(st.outputs, e.step.id, e.output.value, id);
    }
  }

  // ----- the last rejection of a parallel member -----

  lemma RejectedGroup(
      members: seq<Proc>, i: nat, gone: Proc, f: Fault, own: Option<Fault>, signal: Option<Fault>, scope: Scope)
    requires i < |members| && OutcomeOf(members[i], scope) == None && OutcomeOf(gone, scope) == Some(Rejected(f))
    ensures GroupAfter(members, i, gone, own, None, signal, scope) ==
            Group(members[i := gone], if Below(own, signal).Some? then own else Some(f), Some(Rejected(f)))
  {
  }

  lemma FailingGivesUp(
      step: Step, deadline: nat, attempt: nat, f: Fault, cancelled: bool, signal: Option<Fault>, st: Store, env: Env)
    requires (step.Task? || step.Poll?) && (cancelled || attempt >= AttemptLimit(step))
    ensures Next(Action(step, deadline, Failing(attempt, f, cancelled)), signal, [], Go, st, env) ==
            (Action(step, deadline, Ended(Rejected(f))), st)
  {
  }

  /** When the last failed attempt of a member of a parallel step is recorded, the step
      rejects with its fault and its group is aborted, unless it was already, while every
      other member stays where it is, in flight or not. */
  lemma RejectionLeavesSiblings(
      members: seq<Proc>, i: nat, step: Step, deadline: nat, attempt: nat, f: Fault, cancelled: bool,
      own: Option<Fault>, signal: Option<Fault>, st: Store, env: Env)
    requires i < |members| && (step.Task? || step.Poll?) && (cancelled || attempt >= AttemptLimit(step))
    requires members[i] == Action(step, deadline, Failing(attempt, f, cancelled))
    ensures var (p, st') := Next(Group(members, own, None), signal, [i], Go, st, env);
            && OutcomeOf(p, env.scope) == Some(Rejected(f))
            && p.own == (if Below(own, signal).Some? then own else Some(f)) && Below(p.own, signal).Some?
            && (forall j | 0 <= j < |members| && j != i :: p.members[j] == members[j])
            && st' == st && Flights(p) == Flights(Group(members, own, None))
  {
    var gone := Action(step, deadline, Ended(Rejected(f)));
    FailingGivesUp(step, deadline, attempt, f, cancelled, Below(own, signal), st, env);
    MemberRejects(members, i, gone, f, own, signal, st, env);
    NothingLeft(members, i, gone);
  }

  lemma MemberRejects(
      members: seq<Proc>, i: nat, gone: Proc, f: Fault, own: Option<Fault>, signal: Option<Fault>, st: Store, env: Env)
    requires i < |members| && OutcomeOf(members[i], env.scope) == None
    requires OutcomeOf(gone, env.scope) == Some(Rejected(f))
    requires Next(members[i], Below(own, signal), [], Go, st, env) == (gone, st)
    ensures Next(Group(members, own, None), signal, [i], Go, st, env) ==
            (Group(members[i := gone], if Below(own, signal).Some? then own else Some(f), Some(Rejected(f))), st)
  {
    assert [i][1..] == [];
    RejectedGroup(members, i, gone, f, own, signal, env.scope);
  }

  lemma NothingLeft(members: seq<Proc>, i: nat, gone: Proc)
    requires i < |members| && Flights(members[i]) == Flights(gone)
    ensures GatherAll(members[i := gone], FlightOf) == GatherAll(members, FlightOf)
  {
    var rest := GatherUpdate(members, i, gone, FlightOf);
  }

  // ----- the step-passed assertion -----

  predicate EarlierAttempt(a: StepRecord, b: StepRecord) { a.attempt <= b.attempt }

  function OfStep(records: seq<StepRecord>, id: string): seq<StepRecord> {
    if records == [] then []
    else (if records[0].stepId == id then [records[0]] else []) + OfStep(records[1..], id)
  }

  /** `evaluateStep`: the last record of the step once sorted by attempt has passed. */
  predicate StepPassed(records: seq<StepRecord>, id: string) {
    var sorted := Sort(OfStep(records, id), EarlierAttempt);
    sorted != [] && sorted[|sorted| - 1].status == PASSED
  }

  lemma {:induction false} OfStepFinds(records: seq<StepRecord>, id: string, x: StepRecord)
    requires DistinctKeys(records)
    ensures x in OfStep(records, id) <==> x.stepId == id && Find(records, id, x.attempt) == Some(x.status)
  {
    if records == [] {
    } else {
      OfStepFinds(records[1..], id, x);
      assert x in OfStep(records, id) <==>
               (records[0].stepId == id && x == records[0]) || x in OfStep(records[1..], id);
    }
  }

  lemma SortedRecord(records: seq<StepRecord>, id: string, x: StepRecord)
    requires DistinctKeys(records)
    ensures x in Sort(OfStep(records, id), EarlierAttempt) <==>
            x.stepId == id && Find(records, id, x.attempt) == Some(x.status)
  {
    SortElements(OfStep(records, id), EarlierAttempt, x);
    OfStepFinds(records, id, x);
  }

  lemma LastIsGreatest(sorted: seq<StepRecord>, x: StepRecord)
    requires Sorted(sorted, EarlierAttempt) && x in sorted
    ensures x.attempt <= sorted[|sorted| - 1].attempt
  {
    var j :| 0 <= j < |sorted| && sorted[j] == x;
    assert j < |sorted| - 1 ==> EarlierAttempt(sorted[j], sorted[|sorted| - 1]);
  }

  /** Of two records of a step in sorted order, the last is the newer. */
  lemma LastIsNewest(records: seq<StepRecord>, id: string, newest: StepRecord, last: StepRecord)
    requires DistinctKeys(records)
    requires newest.stepId == id && Find(records, id, newest.attempt) == Some(newest.status)
    requires var sorted := Sort(OfStep(records, id), EarlierAttempt); sorted != [] ==> last == sorted[|sorted| - 1]
    ensures Sort(OfStep(records, id), EarlierAttempt) != []
    ensures newest.attempt <= last.attempt
    ensures Find(records, id, last.attempt) == Some(last.status)
  {
    SortedRecord(records, id, newest);
    SortSorted(OfStep(records, id), EarlierAttempt);
    LastIsGreatest(Sort(OfStep(records, id), EarlierAttempt), newest);
    SortedRecord(records, id, last);
  }

  lemma VerdictFromLast(records: seq<StepRecord>, id: string, k: nat, last: StepRecord)
    requires DistinctKeys(records)
    requires k > 0 ==> Find(records, id, k).Some?
    requires var sorted := Sort(OfStep(records, id), EarlierAttempt);
             sorted != [] ==> last == sorted[|sorted| - 1] && 1 <= last.attempt <= k
    ensures StepPassed(records, id) <==> k > 0 && Find(records, id, k) == Some(PASSED)
  {
    if k > 0 { LastIsNewest(records, id, StepRecord(id, k, Find(records, id, k).value), last); }
  }

  /** On the records of a run the assertion holds exactly when the step was attempted
      and its last attempt passed. */
  lemma StepPassedIffLastAttemptPassed(st: Store, keys: multiset<Key>, uncalled: multiset<Key>, id: string)
    requires Consistent(st, keys, uncalled)
    ensures StepPassed(st.records, id) <==>
              CounterOf(st, id) > 0 && Find(st.records, id, CounterOf(st, id)) == Some(PASSED)
  {
    var sorted := Sort(OfStep(st.records, id), EarlierAttempt);
    var last := if sorted != [] then sorted[|sorted| - 1] else StepRecord(id, 0, RUNNING);
    SortedRecord(st.records, id, last);
    assert sorted != [] ==> last in sorted;
    VerdictFromLast(st.records, id, CounterOf(st, id), last);
  }
}
