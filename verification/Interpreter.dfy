/** The scenario interpreter as a machine whose moves are the stretches of code between
    two awaits, those on the observer included: a record is written when its stretch
    begins to await it. A schedule chooses which activity moves and what the environment
    answers; nothing is assumed about its choices.

    The same machine runs resolved steps (`Absolute` blocks: ids are used as they
    stand) and authored steps (`Authored` blocks: a fragment is run in place, below
    the id of the step that uses it, and each step's own text is substituted when
    the step is reached). */
module Interpreter {
  import opened Json
  import opened Template
  import opened Steps
  import opened Resolver

  // ----- errors and cancellation -----

  /** What an awaited operation can throw. */
  datatype Fault = Timeout | Cancelled | Failure(message: string)

  datatype Outcome = Fulfilled | Rejected(fault: Fault)

  /** `throwIfAborted` on a signal aborted for `reason`. */
  function Thrown(reason: Fault): Fault { if reason.Timeout? then Timeout else Cancelled }

  predicate IsCancellation(f: Fault, signal: Option<Fault>) {
    f.Cancelled? || (signal.Some? && !signal.value.Timeout?)
  }

  // ----- the state shared by all steps of a run -----

  datatype Status = RUNNING | PASSED | FAILED | CANCELLED

  datatype StepRecord = StepRecord(stepId: string, attempt: nat, status: Status)
  datatype Invocation = Invocation(stepId: string, attempt: nat, call: Call)
  datatype Compensation = Compensation(stepId: string, call: Call)
  datatype Cleanup = Cleanup(name: string, lease: Option<string>)

  datatype Store = Store(
    outputs: Record,
    counters: map<string, nat>,
    records: seq<StepRecord>,
    invoked: seq<Invocation>,
    compensations: seq<Compensation>,
    cleanups: seq<Cleanup>,
    now: nat)

  /** The record list with `r` stored under its step and attempt: the first record
      with that key is overwritten, or `r` is appended. */
  function Upsert(records: seq<StepRecord>, r: StepRecord): seq<StepRecord> {
    if records == [] then [r]
    else if records[0].stepId == r.stepId && records[0].attempt == r.attempt then [r] + records[1..]
    else [records[0]] + Upsert(records[1..], r)
  }

  function CounterOf(st: Store, id: string): nat { if id in st.counters then st.counters[id] else 0 }

  function Report(st: Store, id: string, attempt: nat, status: Status): Store {
    st.(records := Upsert(st.records, StepRecord(id, attempt, status)))
  }

  // ----- conditions -----

  datatype Verdict = Holds | Fails | NotAString

  function Split(s: string): (r: seq<string>)
    ensures r != []
  {
    if s == "" then [""]
    else
      var rest := Split(s[1..]);
      if s[0] == '.' then [""] + rest else [[s[0]] + rest[0]] + rest[1..]
  }

  function Walk(value: Value, segments: seq<string>): Option<Value>
    decreases |segments|
  {
    if segments == [] then Some(value)
    else if !value.Obj? then None
    else match Lookup(value.fields, segments[0])
      case None => None
      case Some(v) => Walk(v, segments[1..])
  }

  /** The value at a dotted path; a leading `$` and dot are dropped. */
  function ReadPath(root: Value, path: string): Option<Value> {
    var bare := if path != "" && path[0] == '$' then path[1..] else path;
    var trimmed := if |bare| < |path| && bare != "" && bare[0] == '.' then bare[1..] else bare;
    if trimmed == "" then Some(root) else Walk(root, Split(trimmed))
  }

  /** Both sides are compared as text; an undefined value equals nothing. */
  function Evaluate(c: Condition, vars: Record, outputs: Record, current: Option<Value>): Verdict {
    if c.path == Str("$") then (if current == Some(c.equals) then Holds else Fails)
    else if !c.path.Str? then NotAString
    else
      var root := Obj([Field("variables", Obj(vars)), Field("outputs", Obj(outputs))]);
      if ReadPath(root, c.path.s) == Some(c.equals) then Holds else Fails
  }

  // ----- one action: attempts, retries, polling -----

  /** How the race of a handler against its timeout and its signal came out. */
  datatype Race = Won(output: Option<Value>) | Lost(fault: Fault)

  /** How far a task or poll step has got: about to try; its attempt number taken and the
      running record being written; the handler called; the race over; the passed record
      being written; the failed record being written; waiting to retry; waiting to poll
      again; settled. */
  datatype Leaf =
    | Ready(attempt: nat)
    | Announced(attempt: nat, number: nat)
    | Called(attempt: nat, number: nat)
    | Raced(attempt: nat, number: nat, race: Race)
    | Reporting(number: nat, output: Option<Value>)
    | Failing(attempt: nat, fault: Fault, cancelled: bool)
    | Backoff(attempt: nat)
    | Waiting(wake: nat)
    | Ended(result: Outcome)

  datatype Event =
    | Go
    | Resolve(output: Option<Value>)
    | Reject(fault: Fault)
    | Expire
    | Settle

  datatype Env = Env(scope: Scope, timeoutMs: nat)

  function AttemptLimit(step: Step): nat
    requires step.Task? || step.Poll?
  {
    match step.retry case None => 1 case Some(r) => r.attempts
  }

  /** Take the next attempt number of the step and begin to record the attempt. */
  function Announce(step: Step, attempt: nat, st: Store): (Leaf, Store)
    requires step.Task? || step.Poll?
  {
    var number := CounterOf(st, step.id) + 1;
    (Announced(attempt, number), Report(st.(counters := st.counters[step.id := number]), step.id, number, RUNNING))
  }

  /** Call the handler. A signal aborted by now loses the race at once. */
  function CallHandler(step: Step, attempt: nat, number: nat, signal: Option<Fault>, st: Store): (Leaf, Store)
    requires step.Task? || step.Poll?
  {
    (match signal
     case None => Called(attempt, number)
     case Some(reason) => Raced(attempt, number, Lost(Thrown(reason))),
     st.(invoked := st.invoked + [Invocation(step.id, number, step.call)]))
  }

  /** The handler, the timeout of the task or the signal settles the race. */
  function SettleRace(step: Step, attempt: nat, number: nat, signal: Option<Fault>, ev: Event): Leaf
    requires step.Task? || step.Poll?
  {
    match signal
    case Some(reason) => if ev == Go then Raced(attempt, number, Lost(reason)) else Called(attempt, number)
    case None =>
      match ev
      case Resolve(output) => Raced(attempt, number, Won(output))
      case Reject(f) => Raced(attempt, number, Lost(f))
      case Expire =>
        if step.Task? && step.timeout.Some? then Raced(attempt, number, Lost(Timeout)) else Called(attempt, number)
      case _ => Called(attempt, number)
  }

  /** Begin to record how the race came out. */
  function RecordRace(
      step: Step, attempt: nat, number: nat, race: Race, signal: Option<Fault>, st: Store): (Leaf, Store)
    requires step.Task? || step.Poll?
  {
    match race
    case Won(output) => (Reporting(number, output), Report(st, step.id, number, PASSED))
    case Lost(f) =>
      var cancelled := IsCancellation(f, signal);
      (Failing(attempt, f, cancelled), Report(st, step.id, number, if cancelled then CANCELLED else FAILED))
  }

  function PutOutput(st: Store, id: string, output: Option<Value>): Store {
    if output.Some? then st.(outputs := Put(st.outputs, id, output.value)) else st
  }

  /** The passed attempt is recorded: store its output, and finish or poll again. */
  function Deliver(step: Step, output: Option<Value>, signal: Option<Fault>, st: Store, env: Env): (Leaf, Store)
    requires step.Task? || step.Poll?
  {
    var st' := PutOutput(st, step.id, output);
    if step.Task? then
      (Ended(Fulfilled),
       if step.compensate.Some?
       then st'.(compensations := st'.compensations + [Compensation(step.id, step.compensate.value)])
       else st')
    else
      match Evaluate(step.until, env.scope.vars, st'.outputs, output)
      case Holds => (Ended(Fulfilled), st')
      case NotAString => (Ended(Rejected(Failure("TypeError"))), st')
      case Fails =>
        (if signal.Some? then Ended(Rejected(Thrown(signal.value)))
         else if step.intervalMs == 0 then Ready(1)
         else Waiting(st.now + step.intervalMs),
         st')
  }

  /** The failed attempt is recorded: give up or back off. */
  function GiveUp(step: Step, attempt: nat, f: Fault, cancelled: bool, signal: Option<Fault>): Leaf
    requires step.Task? || step.Poll?
  {
    if cancelled || attempt >= AttemptLimit(step) then Ended(Rejected(f))
    else if signal.Some? then Ended(Rejected(Thrown(signal.value)))
    else if step.retry.None? || step.retry.value.delayMs == 0 then Ready(attempt + 1)
    else Backoff(attempt)
  }

  function LeafNext(
      step: Step, deadline: nat, leaf: Leaf, signal: Option<Fault>, ev: Event, st: Store, env: Env): (Leaf, Store)
    requires step.Task? || step.Poll?
  {
    if leaf.Called? then (SettleRace(step, leaf.attempt, leaf.number, signal, ev), st)
    else if ev != Go then (leaf, st)
    else
      match leaf
      case Ready(attempt) =>
        if step.Poll? && attempt == 1 && st.now > deadline then (Ended(Rejected(Timeout)), st)
        else if attempt > AttemptLimit(step) then (Ended(Rejected(Failure("no attempt"))), st)
        else if signal.Some? then (Ended(Rejected(Thrown(signal.value))), st)
        else Announce(step, attempt, st)
      case Announced(attempt, number) => CallHandler(step, attempt, number, signal, st)
      case Raced(attempt, number, race) => RecordRace(step, attempt, number, race, signal, st)
      case Reporting(number, output) => Deliver(step, output, signal, st, env)
      case Failing(attempt, f, cancelled) => (GiveUp(step, attempt, f, cancelled, signal), st)
      case Backoff(attempt) => (if signal.Some? then Ended(Rejected(signal.value)) else Ready(attempt + 1), st)
      case Waiting(wake) =>
        (if signal.Some? then Ended(Rejected(signal.value)) else if st.now < wake then leaf else Ready(1), st)
      case _ => (leaf, st)
  }

  // ----- code -----

  datatype Ctx = Absolute | Authored(prefix: string, stack: seq<string>)

  /** Steps still to run, and how their ids are to be read. */
  datatype Block = Block(steps: seq<Step>, ctx: Ctx)

  /** The next step to run with its final id and text, the context of the steps
      nested in it, and what is left after it. */
  datatype Fetched = Fetched(step: Step, ctx: Ctx, rest: seq<Block>)

  function WithId(s: Step, id: string): Step {
    match s
    case Task(_, call, retry, timeout, compensate) => Task(id, call, retry, timeout, compensate)
    case Poll(_, call, until, intervalMs, retry, timeout) => Poll(id, call, until, intervalMs, retry, timeout)
    case Parallel(_, timeout, steps) => Parallel(id, timeout, steps)
    case Repeat(_, timeout, times, steps) => Repeat(id, timeout, times, steps)
    case Branch(_, timeout, when, thens, elses) => Branch(id, timeout, when, thens, elses)
    case Fragment(_, name) => Fragment(id, name)
  }

  /** Enter fragments until a step is reached. A reference that cannot be entered and
      a text that cannot be substituted are passed over; neither occurs in steps that
      resolve. */
  function FetchAuthored(steps: seq<Step>, prefix: string, stack: seq<string>, scope: Scope): Option<Fetched>
    decreases Remaining(scope.frags, stack), |steps|
  {
    if steps == [] then None
    else
      var step, id := steps[0], Join(prefix, steps[0].id);
      var rest := [Block(steps[1..], Authored(prefix, stack))];
      if step.Fragment? then
        if step.useFragment !in stack && step.useFragment in scope.frags then
          EnteringShrinks(scope.frags, stack, step.useFragment);
          match FetchAuthored(scope.frags[step.useFragment], id, stack + [step.useFragment], scope)
          case Some(f) => Some(Fetched(f.step, f.ctx, f.rest + rest))
          case None => FetchAuthored(steps[1..], prefix, stack, scope)
        else FetchAuthored(steps[1..], prefix, stack, scope)
      else
        match SubstOwn(step, scope.vars)
        case Ok(own) => Some(Fetched(WithId(own, id), Authored(id, stack), rest))
        case Err(_) => FetchAuthored(steps[1..], prefix, stack, scope)
  }

  function FetchBlock(b: Block, scope: Scope): Option<Fetched> {
    match b.ctx
    case Absolute =>
      if b.steps == [] then None else Some(Fetched(b.steps[0], Absolute, [Block(b.steps[1..], Absolute)]))
    case Authored(prefix, stack) => FetchAuthored(b.steps, prefix, stack, scope)
  }

  function Fetch(code: seq<Block>, scope: Scope): Option<Fetched> {
    if code == [] then None
    else
      match FetchBlock(code[0], scope)
      case Some(f) => Some(Fetched(f.step, f.ctx, f.rest + code[1..]))
      case None => Fetch(code[1..], scope)
  }

  /** The members of a parallel list. A fragment used there contributes each of its
      steps as a member of its own. */
  function MembersAuthored(steps: seq<Step>, prefix: string, stack: seq<string>, scope: Scope): seq<Proc>
    decreases Remaining(scope.frags, stack), |steps|
  {
    if steps == [] then []
    else
      var step, id := steps[0], Join(prefix, steps[0].id);
      var head :=
        if step.Fragment? then
          if step.useFragment !in stack && step.useFragment in scope.frags then
            EnteringShrinks(scope.frags, stack, step.useFragment);
            MembersAuthored(scope.frags[step.useFragment], id, stack + [step.useFragment], scope)
          else []
        else
          match SubstOwn(step, scope.vars)
          case Ok(own) => [Pending(WithId(own, id), Authored(id, stack))]
          case Err(_) => [];
      head + MembersAuthored(steps[1..], prefix, stack, scope)
  }

  function Members(b: Block, scope: Scope): seq<Proc> {
    match b.ctx
    case Absolute => seq(|b.steps|, i requires 0 <= i < |b.steps| => Pending(b.steps[i], Absolute))
    case Authored(prefix, stack) => MembersAuthored(b.steps, prefix, stack, scope)
  }

  function Nested(ctx: Ctx, suffix: string): Ctx {
    match ctx case Absolute => Absolute case Authored(prefix, stack) => Authored(prefix + suffix, stack)
  }

  // ----- activities -----

  /** A tree of activities. One that has lost a race or a sibling keeps its place in
      the tree and can still move: `own` is the abort reason of the controller the
      source creates there, `out` the way its promise settled. */
  datatype Proc =
    | Settled(result: Outcome)
    | Pending(step: Step, ctx: Ctx)
    | Action(step: Step, deadline: nat, leaf: Leaf)
    | Sequence(head: Proc, code: seq<Block>)
    | Loop(body: Proc, left: nat, again: Block)
    | Group(members: seq<Proc>, own: Option<Fault>, out: Option<Outcome>)
    | Timed(body: Proc, own: Option<Fault>, out: Option<Outcome>)

  function OutcomeOf(p: Proc, scope: Scope): Option<Outcome> {
    match p
    case Settled(o) => Some(o)
    case Pending(_, _) => None
    case Action(_, _, leaf) => if leaf.Ended? then Some(leaf.result) else None
    case Sequence(head, code) =>
      var o := OutcomeOf(head, scope);
      if o == Some(Fulfilled) && Fetch(code, scope).Some? then None else o
    case Loop(body, left, _) =>
      var o := OutcomeOf(body, scope);
      if o == Some(Fulfilled) && left > 0 then None else o
    case Group(_, _, out) => out
    case Timed(_, _, out) => out
  }

  predicate Completed(p: Proc, scope: Scope) { OutcomeOf(p, scope) == Some(Fulfilled) }

  /** The signal below a controller that follows `signal`. */
  function Below(own: Option<Fault>, signal: Option<Fault>): Option<Fault> {
    if own.Some? then own else signal
  }

  function Run(code: Block): Proc { Sequence(Settled(Fulfilled), [code]) }

  function StartCore(step: Step, ctx: Ctx, st: Store, env: Env): Proc {
    match step
    case Task(_, _, _, _, _) => Action(step, 0, Ready(1))
    case Poll(_, _, _, _, _, timeout) =>
      Action(step, st.now + (if timeout.Some? then timeout.value else env.timeoutMs), Ready(1))
    case Parallel(_, _, steps) =>
      var members := Members(Block(steps, ctx), env.scope);
      Group(members, None, if members == [] then Some(Fulfilled) else None)
    case Repeat(_, _, times, steps) => Loop(Settled(Fulfilled), times, Block(steps, ctx))
    case Branch(_, _, when, thens, elses) =>
      (match Evaluate(when, env.scope.vars, st.outputs, None)
       case Holds => Run(Block(thens, Nested(ctx, ".then")))
       case Fails => Run(Block(elses, Nested(ctx, ".else")))
       case NotAString => Settled(Rejected(Failure("TypeError"))))
    case Fragment(_, _) => Settled(Fulfilled)
  }

  function HasTimer(step: Step): bool {
    match step
    case Task(_, _, _, _, _) => false
    case Fragment(_, _) => false
    case _ => step.timeout.Some?
  }

  function Start(step: Step, ctx: Ctx, st: Store, env: Env): Proc {
    var core := StartCore(step, ctx, st, env);
    if HasTimer(step) then Timed(core, None, None) else core
  }

  predicate AllCompleted(members: seq<Proc>, scope: Scope) { forall m | m in members :: Completed(m, scope) }

  /** The controller and the promise of a group after one member moved: its first
      rejection aborts the group and settles it; the last completion settles it too. */
  function Joined(
      before: Option<Outcome>, after: Option<Outcome>, allDone: bool,
      own: Option<Fault>, out: Option<Outcome>, signal: Option<Fault>): (Option<Fault>, Option<Outcome>)
  {
    match after
    case Some(Rejected(f)) =>
      if before == after then (own, out)
      else (if Below(own, signal).Some? then own else Some(f), if out.Some? then out else after)
    case Some(Fulfilled) => (own, if out == None && allDone then after else out)
    case None => (own, out)
  }

  function GroupAfter(
      members: seq<Proc>, i: nat, moved: Proc, own: Option<Fault>, out: Option<Outcome>,
      signal: Option<Fault>, scope: Scope): Proc
    requires i < |members|
  {
    var (own', out') := Joined(OutcomeOf(members[i], scope), OutcomeOf(moved, scope),
                               AllCompleted(members[i := moved], scope), own, out, signal);
    Group(members[i := moved], own', out')
  }

  /** One move of the activity at `addr`; the address names members of groups and
      the inside of timers. */
  function Next(p: Proc, signal: Option<Fault>, addr: seq<nat>, ev: Event, st: Store, env: Env): (Proc, Store)
    decreases p
  {
    match p
    case Settled(_) => (p, st)
    case Pending(step, ctx) => if ev == Go then (Start(step, ctx, st, env), st) else (p, st)
    case Action(step, deadline, leaf) =>
      if step.Task? || step.Poll? then
        var (leaf', st') := LeafNext(step, deadline, leaf, signal, ev, st, env);
        (Action(step, deadline, leaf'), st')
      else (p, st)
    case Sequence(head, code) =>
      if Completed(head, env.scope) then
        match Fetch(code, env.scope)
        case Some(f) =>
          if ev != Go then (p, st)
          else if signal.Some? then (Sequence(Settled(Rejected(Thrown(signal.value))), f.rest), st)
          else (Sequence(Start(f.step, f.ctx, st, env), f.rest), st)
        case None => (p, st)
      else
        var (head', st') := Next(head, signal, addr, ev, st, env);
        (Sequence(head', code), st')
    case Loop(body, left, again) =>
      if Completed(body, env.scope) then
        if ev == Go && left > 0 then (Loop(Run(again), left - 1, again), st) else (p, st)
      else
        var (body', st') := Next(body, signal, addr, ev, st, env);
        (Loop(body', left, again), st')
    case Group(members, own, out) =>
      if addr == [] || addr[0] >= |members| then (p, st)
      else
        var (m, st') := Next(members[addr[0]], Below(own, signal), addr[1..], ev, st, env);
        (GroupAfter(members, addr[0], m, own, out, signal, env.scope), st')
    case Timed(body, own, out) =>
      if addr != [] then
        var (body', st') := Next(body, Below(own, signal), addr[1..], ev, st, env);
        (Timed(body', own, out), st')
      else if out.Some? then (p, st)
      else
        match ev
        case Expire =>
          (match Below(own, signal)
           case Some(reason) => (Timed(body, own, Some(Rejected(reason))), st)
           case None => (Timed(body, Some(Timeout), Some(Rejected(Timeout))), st))
        case Go =>
          (Timed(body, own, match Below(own, signal) case Some(reason) => Some(Rejected(reason)) case None => None), st)
        case Settle => (Timed(body, own, OutcomeOf(body, env.scope)), st)
        case _ => (p, st)
  }

  // ----- a phase of a run -----

  datatype State = State(proc: Proc, abort: Option<Fault>, store: Store)

  /** A handler may register a cleanup as long as it likes, also after its step has
      ended; time passes; the run may be aborted. */
  datatype Move =
    | At(addr: seq<nat>, ev: Event)
    | Register(cleanup: Cleanup)
    | Tick(ms: nat)
    | Abort(reason: Fault)

  function Advance(s: State, m: Move, env: Env): State {
    match m
    case At(addr, ev) =>
      var (p, st) := Next(s.proc, s.abort, addr, ev, s.store, env);
      State(p, s.abort, st)
    case Register(c) => s.(store := s.store.(cleanups := s.store.cleanups + [c]))
    case Tick(ms) => s.(store := s.store.(now := s.store.now + ms))
    case Abort(reason) => if s.abort.Some? then s else s.(abort := Some(reason))
  }

  function Play(s: State, moves: seq<Move>, env: Env): State
    decreases |moves|
  {
    if moves == [] then s else Play(Advance(s, moves[0], env), moves[1..], env)
  }
}
