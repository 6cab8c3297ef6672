/** What shows of a run from outside, and the words that resolved steps allow: a grammar
    of step starts, attempts, records and outputs that knows nothing of activities and
    moves. */
module Words {
  import opened Json
  import opened Texts
  import opened Steps
  import opened Template
  import opened Resolver
  import opened Interpreter
  import opened Moves

  // ----- what shows of a run -----

  /** A step starts; an attempt of it takes its number, its handler is called, the race is
      answered, and the attempt is recorded as passed, or as failed or `cancelled`; its
      output is left among the others; the step goes on after a wait; or it stops for good
      with a fault. With each goes what the step sees: outputs, the clock, its signal. */
  datatype Sign =
    | Starts(step: Step, outputs: Record, now: nat)
    | Begins(step: Step, number: nat, now: nat)
    | Invokes(step: Step, number: nat, signal: Option<Fault>)
    | Answers(step: Step, number: nat, answer: Event, signal: Option<Fault>)
    | Passes(step: Step, number: nat, output: Option<Value>)
    | Breaks(step: Step, number: nat, fault: Fault, cancelled: bool, signal: Option<Fault>)
    | Delivers(step: Step, output: Option<Value>, outputs: Record, now: nat, signal: Option<Fault>)
    | Wakes(step: Step, now: nat)
    | Stops(step: Step, fault: Fault, now: nat, signal: Option<Fault>)

  function StopSign(step: Step, leaf: Leaf, now: nat, signal: Option<Fault>): seq<Sign> {
    if leaf.Ended? && leaf.result.Rejected? then [Stops(step, leaf.result.fault, now, signal)] else []
  }

  /** What shows of the move of a task or poll step from `leaf` to `after`. */
  function LeafSigns(
      step: Step, leaf: Leaf, after: Leaf, ev: Event, signal: Option<Fault>, now: nat, outputs: Record): seq<Sign>
  {
    if after == leaf then []
    else
      match leaf
      case Ready(_) =>
        if after.Announced? then [Begins(step, after.number, now)] else StopSign(step, after, now, signal)
      case Announced(_, number) => [Invokes(step, number, signal)]
      case Called(_, number) => [Answers(step, number, ev, signal)]
      case Raced(_, number, _) =>
        if after.Reporting? then [Passes(step, number, after.output)]
        else if after.Failing? then [Breaks(step, number, after.fault, after.cancelled, signal)]
        else []
      case Reporting(_, output) =>
        [Delivers(step, output, outputs, now, signal)] + StopSign(step, after, now, signal)
      case Failing(_, _, _) => StopSign(step, after, now, signal)
      case Backoff(_) => if after.Ready? then [Wakes(step, now)] else StopSign(step, after, now, signal)
      case Waiting(_) => if after.Ready? then [Wakes(step, now)] else StopSign(step, after, now, signal)
      case Ended(_) => []
  }

  /** What shows of one move. */
  function Signs(p: Proc, signal: Option<Fault>, addr: seq<nat>, ev: Event, st: Store, env: Env): seq<Sign>
    decreases p
  {
    match p
    case Settled(_) => []
    case Pending(step, _) => if ev == Go then [Starts(step, st.outputs, st.now)] else []
    case Action(step, deadline, leaf) =>
      if step.Task? || step.Poll? then
        var (after, st') := LeafNext(step, deadline, leaf, signal, ev, st, env);
        LeafSigns(step, leaf, after, ev, signal, st.now, st'.outputs)
      else []
    case Sequence(head, code) =>
      if !Completed(head, env.scope) then Signs(head, signal, addr, ev, st, env)
      else if ev != Go || signal.Some? then []
      else (match Fetch(code, env.scope) case Some(f) => [Starts(f.step, st.outputs, st.now)] case None => [])
    case Loop(body, _, _) =>
      if Completed(body, env.scope) then [] else Signs(body, signal, addr, ev, st, env)
    case Group(members, own, _) =>
      if addr == [] || addr[0] >= |members| then []
      else Signs(members[addr[0]], Below(own, signal), addr[1..], ev, st, env)
    case Timed(body, own, _) =>
      if addr == [] then [] else Signs(body, Below(own, signal), addr[1..], ev, st, env)
  }

  function SignsOfMove(s: State, m: Move, env: Env): seq<Sign> {
    match m case At(addr, ev) => Signs(s.proc, s.abort, addr, ev, s.store, env) case _ => []
  }

  /** What shows of a schedule. */
  function Trace(s: State, moves: seq<Move>, env: Env): seq<Sign>
    decreases |moves|
  {
    if moves == [] then [] else SignsOfMove(s, moves[0], env) + Trace(Advance(s, moves[0], env), moves[1..], env)
  }

  // ----- one task or poll step -----

  /** A task or poll step that has started, and when its polling ends. */
  datatype Job = Job(step: Step, deadline: nat, vars: Record)

  /** How often a round of the step is tried. */
  function Tries(step: Step): nat
    requires step.Task? || step.Poll?
  {
    if step.retry.Some? then step.retry.value.attempts else 1
  }

  predicate Timely(j: Job, attempt: nat, now: nat) { j.step.Poll? && attempt == 1 ==> now <= j.deadline }

  /** The fault with which an aborted signal stops what is about to go on. */
  function Stopped(signal: Fault): Fault { if signal.Timeout? then Timeout else Cancelled }

  /** The step is about to try. In what follows, a word that is not `whole` may end
      anywhere; a whole one ends when the step has passed. */
  predicate TryWord(j: Job, attempt: nat, w: seq<Sign>, whole: bool)
    requires j.step.Task? || j.step.Poll?
    decreases |w|, 0
  {
    if w == [] then !whole
    else
      match w[0]
      case Begins(step, number, now) =>
        && step == j.step && Timely(j, attempt, now) && attempt <= Tries(j.step)
        && BegunWord(j, attempt, number, w[1..], whole)
      case Stops(step, fault, now, signal) =>
        && step == j.step && !whole && |w| == 1
        && (if !Timely(j, attempt, now) then fault == Timeout
            else if attempt > Tries(j.step) then fault == Failure("no attempt")
            else signal.Some? && fault == Stopped(signal.value))
      case _ => false
  }

  /** Its number is taken. */
  predicate BegunWord(j: Job, attempt: nat, number: nat, w: seq<Sign>, whole: bool)
    requires j.step.Task? || j.step.Poll?
    decreases |w|, 0
  {
    if w == [] then !whole
    else
      && w[0].Invokes? && w[0].step == j.step && w[0].number == number
      && match w[0].signal
         case None => CalledWord(j, attempt, number, w[1..], whole)
         case Some(reason) => RacedWord(j, attempt, number, Lost(Stopped(reason)), w[1..], whole)
  }

  /** How an answer settles the race: an aborted signal wins it; else the handler or the
      timeout of a task does. */
  function RaceOf(step: Step, answer: Event, signal: Option<Fault>): Option<Race>
    requires step.Task? || step.Poll?
  {
    if signal.Some? then (if answer.Go? then Some(Lost(signal.value)) else None)
    else if answer.Resolve? then Some(Won(answer.output))
    else if answer.Reject? then Some(Lost(answer.fault))
    else if answer.Expire? && step.Task? && step.timeout.Some? then Some(Lost(Timeout))
    else None
  }

  /** Its handler is called. */
  predicate CalledWord(j: Job, attempt: nat, number: nat, w: seq<Sign>, whole: bool)
    requires j.step.Task? || j.step.Poll?
    decreases |w|, 0
  {
    if w == [] then !whole
    else
      && w[0].Answers? && w[0].step == j.step && w[0].number == number
      && match RaceOf(j.step, w[0].answer, w[0].signal)
         case Some(race) => RacedWord(j, attempt, number, race, w[1..], whole)
         case None => false
  }

  /** The race is over: what won it is recorded. */
  predicate RacedWord(j: Job, attempt: nat, number: nat, race: Race, w: seq<Sign>, whole: bool)
    requires j.step.Task? || j.step.Poll?
    decreases |w|, 1
  {
    if w == [] then !whole
    else
      match race
      case Won(output) => w[0] == Passes(j.step, number, output) && PassedWord(j, output, w[1..], whole)
      case Lost(fault) =>
        && w[0].Breaks? && w[0].step == j.step && w[0].number == number && w[0].fault == fault
        && (w[0].cancelled <==> fault.Cancelled? || (w[0].signal.Some? && !w[0].signal.value.Timeout?))
        && BrokenWord(j, attempt, fault, w[0].cancelled, w[1..], whole)
  }

  /** The attempt passed: its output is left, and a poll step looks at its condition. */
  predicate PassedWord(j: Job, output: Option<Value>, w: seq<Sign>, whole: bool)
    requires j.step.Task? || j.step.Poll?
    decreases |w|, 0
  {
    if w == [] then !whole
    else
      && w[0].Delivers? && w[0].step == j.step && w[0].output == output
      && (output.Some? ==> Lookup(w[0].outputs, j.step.id) == output)
      && if j.step.Task? then w[1..] == [] else PolledWord(j, w[0], w[1..], whole)
  }

  predicate PolledWord(j: Job, left: Sign, w: seq<Sign>, whole: bool)
    requires j.step.Poll? && left.Delivers?
    decreases |w|, 1
  {
    match Evaluate(j.step.until, j.vars, left.outputs, left.output)
    case Holds => w == []
    case NotAString => !whole && w == [Stops(j.step, Failure("TypeError"), left.now, left.signal)]
    case Fails =>
      if left.signal.Some? then !whole && w == [Stops(j.step, Stopped(left.signal.value), left.now, left.signal)]
      else if j.step.intervalMs == 0 then TryWord(j, 1, w, whole)
      else WaitWord(j, left.now + j.step.intervalMs, w, whole)
  }

  /** The poll step waits for its next round. */
  predicate WaitWord(j: Job, wake: nat, w: seq<Sign>, whole: bool)
    requires j.step.Task? || j.step.Poll?
    decreases |w|, 0
  {
    if w == [] then !whole
    else
      match w[0]
      case Wakes(step, now) => step == j.step && wake <= now && TryWord(j, 1, w[1..], whole)
      case Stops(step, fault, _, signal) => step == j.step && signal == Some(fault) && !whole && |w| == 1
      case _ => false
  }

  /** The attempt failed. The step goes on while it has attempts left, unless it was
      cancelled or its signal is aborted. */
  predicate BrokenWord(j: Job, attempt: nat, fault: Fault, cancelled: bool, w: seq<Sign>, whole: bool)
    requires j.step.Task? || j.step.Poll?
    decreases |w|, 1
  {
    if w == [] then !whole
    else if cancelled || attempt >= Tries(j.step) then
      !whole && |w| == 1 && w[0].Stops? && w[0].step == j.step && w[0].fault == fault
    else
      || StoppedWord(j.step, w, whole)
      || if j.step.retry.None? || j.step.retry.value.delayMs == 0 then TryWord(j, attempt + 1, w, whole)
         else RestWord(j, attempt, w, whole)
  }

  /** The step stops since its signal is aborted. */
  predicate StoppedWord(step: Step, w: seq<Sign>, whole: bool) {
    && !whole && |w| == 1 && w[0].Stops? && w[0].step == step
    && w[0].signal.Some? && w[0].fault == Stopped(w[0].signal.value)
  }

  /** The step waits to try again. */
  predicate RestWord(j: Job, attempt: nat, w: seq<Sign>, whole: bool)
    requires j.step.Task? || j.step.Poll?
    decreases |w|, 0
  {
    if w == [] then !whole
    else
      match w[0]
      case Wakes(step, _) => step == j.step && TryWord(j, attempt + 1, w[1..], whole)
      case Stops(step, fault, _, signal) => step == j.step && signal == Some(fault) && !whole && |w| == 1
      case _ => false
  }

  // ----- steps and lists of steps -----

  /** `w` merges the words `ws`, each kept in its own order. */
  predicate Shuffle(ws: seq<seq<Sign>>, w: seq<Sign>)
    decreases |w|
  {
    if w == [] then forall i | 0 <= i < |ws| :: ws[i] == []
    else exists i :: 0 <= i < |ws| && ws[i] != [] && ws[i][0] == w[0] && Shuffle(ws[i := ws[i][1..]], w[1..])
  }

  /** A step starts, and does what it does. */
  ghost predicate StepWord(step: Step, w: seq<Sign>, whole: bool, env: Env)
    decreases step, 1
  {
    if w == [] then !whole
    else w[0].Starts? && w[0].step == step && CoreWord(step, w[0].outputs, w[0].now, w[1..], whole, env)
  }

  /** What a step does once it has started: a task is tried, a poll step until its time is
      over; a parallel step does what its members do, in any order; a repeat does what its
      steps do as often as it says; and a condition does what one of its sides does. */
  ghost predicate CoreWord(step: Step, outputs: Record, now: nat, w: seq<Sign>, whole: bool, env: Env)
    decreases step, 0
  {
    match step
    case Task(_, _, _, _, _) => TryWord(Job(step, 0, env.scope.vars), 1, w, whole)
    case Poll(_, _, _, _, _, timeout) =>
      TryWord(Job(step, now + (if timeout.Some? then timeout.value else env.timeoutMs), env.scope.vars), 1, w, whole)
    case Parallel(_, _, steps) =>
      exists ws: seq<seq<Sign>> ::
        |ws| == |steps| && Shuffle(ws, w) && forall i | 0 <= i < |steps| :: StepWord(steps[i], ws[i], whole, env)
    case Repeat(_, _, times, steps) => RoundsWord(steps, times, w, whole, env)
    case Branch(_, _, when, thens, elses) =>
      (match Evaluate(when, env.scope.vars, outputs, None)
       case Holds => ListWord(thens, w, whole, env)
       case Fails => ListWord(elses, w, whole, env)
       case NotAString => w == [] && !whole)
    case Fragment(_, _) => w == []
  }

  /** Steps one after another, each begun when the one before has passed. */
  ghost predicate ListWord(steps: seq<Step>, w: seq<Sign>, whole: bool, env: Env)
    decreases steps, 0
  {
    if steps == [] then w == []
    else
      || (!whole && StepWord(steps[0], w, false, env))
      || exists k :: 0 <= k <= |w| && StepWord(steps[0], w[..k], true, env) && ListWord(steps[1..], w[k..], whole, env)
  }

  ghost predicate RoundsWord(steps: seq<Step>, times: nat, w: seq<Sign>, whole: bool, env: Env)
    decreases steps, 1, times
  {
    if times == 0 then w == []
    else
      || (!whole && ListWord(steps, w, false, env))
      || exists k ::
           0 <= k <= |w| && ListWord(steps, w[..k], true, env) && RoundsWord(steps, times - 1, w[k..], whole, env)
  }

  // ----- what an activity still says -----

  predicate LeafWord(j: Job, leaf: Leaf, w: seq<Sign>, whole: bool)
    requires j.step.Task? || j.step.Poll?
  {
    match leaf
    case Ready(attempt) => TryWord(j, attempt, w, whole)
    case Announced(attempt, number) => BegunWord(j, attempt, number, w, whole)
    case Called(attempt, number) => CalledWord(j, attempt, number, w, whole)
    case Raced(attempt, number, race) => RacedWord(j, attempt, number, race, w, whole)
    case Reporting(_, output) => PassedWord(j, output, w, whole)
    case Failing(attempt, fault, cancelled) => BrokenWord(j, attempt, fault, cancelled, w, whole)
    case Backoff(attempt) => RestWord(j, attempt, w, whole)
    case Waiting(wake) => WaitWord(j, wake, w, whole)
    case Ended(result) => w == [] && (whole ==> result.Fulfilled?)
  }

  /** The steps of blocks, one after the other. */
  function Listed(code: seq<Block>): seq<Step> { if code == [] then [] else code[0].steps + Listed(code[1..]) }

  predicate Unrejected(out: Option<Outcome>) { out.Some? ==> out.value.Fulfilled? }

  ghost predicate Words(p: Proc, w: seq<Sign>, whole: bool, env: Env)
    decreases p
  {
    match p
    case Settled(o) => w == [] && (whole ==> o.Fulfilled?)
    case Pending(step, _) => StepWord(step, w, whole, env)
    case Action(step, deadline, leaf) =>
      (step.Task? || step.Poll?) && LeafWord(Job(step, deadline, env.scope.vars), leaf, w, whole)
    case Sequence(head, code) =>
      || (!whole && Words(head, w, false, env))
      || exists k :: 0 <= k <= |w| && Words(head, w[..k], true, env) && ListWord(Listed(code), w[k..], whole, env)
    case Loop(body, left, again) =>
      || (!whole && Words(body, w, false, env))
      || exists k ::
           0 <= k <= |w| && Words(body, w[..k], true, env) && RoundsWord(again.steps, left, w[k..], whole, env)
    case Group(members, _, out) =>
      && (whole ==> Unrejected(out))
      && exists ws: seq<seq<Sign>> ::
           |ws| == |members| && Shuffle(ws, w) && forall i | 0 <= i < |members| :: Words(members[i], ws[i], whole, env)
    case Timed(body, _, out) => (whole ==> Unrejected(out)) && Words(body, w, whole, env)
  }

  /** All code is resolved. */
  predicate Expanded(p: Proc) {
    match p
    case Settled(_) => true
    case Pending(_, ctx) => ctx.Absolute?
    case Action(step, _, _) => step.Task? || step.Poll?
    case Sequence(head, code) => Expanded(head) && AbsoluteCode(code)
    case Loop(body, _, again) => Expanded(body) && again.ctx.Absolute?
    case Group(members, _, _) => forall m | m in members :: Expanded(m)
    case Timed(body, _, _) => Expanded(body)
  }

  predicate AbsoluteCode(code: seq<Block>) { forall b | b in code :: b.ctx.Absolute? }

  // ----- words that end at once -----

  lemma NothingSaid(n: nat) returns (ws: seq<seq<Sign>>)
    ensures |ws| == n && Shuffle(ws, []) && forall i | 0 <= i < n :: ws[i] == []
  {
    ws := seq(n, _ => []);
  }

  lemma {:induction false} StepSilent(step: Step, env: Env)
    ensures StepWord(step, [], false, env)
  {
  }

  lemma {:induction false} ListSilent(steps: seq<Step>, env: Env)
    ensures ListWord(steps, [], false, env)
  {
    if steps != [] { StepSilent(steps[0], env); }
  }

  lemma RoundsSilent(steps: seq<Step>, times: nat, env: Env)
    ensures RoundsWord(steps, times, [], false, env)
  {
    ListSilent(steps, env);
  }

  /** Any activity may say nothing more. */
  lemma {:induction false} Silent(p: Proc, env: Env)
    requires Expanded(p)
    ensures Words(p, [], false, env)
  {
    match p
    case Sequence(head, _) => Silent(head, env);
    case Loop(body, _, _) => Silent(body, env);
    case Group(members, _, _) =>
      var ws := NothingSaid(|members|);
      forall i | 0 <= i < |members| ensures Words(members[i], ws[i], false, env) { Silent(members[i], env); }
    case Timed(body, _, _) => Silent(body, env);
    case _ =>
  }

  lemma ListedCons(b: Block, code: seq<Block>)
    ensures Listed([b] + code) == b.steps + Listed(code)
  {
    assert ([b] + code)[1..] == code;
  }

  lemma ListedNext(code: seq<Block>)
    requires code != [] && code[0].steps != []
    ensures var steps := code[0].steps;
            Listed(code) == [steps[0]] + Listed([Block(steps[1..], Absolute)] + code[1..])
  {
    var steps, later := code[0].steps, Listed(code[1..]);
    ListedCons(Block(steps[1..], Absolute), code[1..]);
    assert steps == [steps[0]] + steps[1..];
    Associative([steps[0]], steps[1..], later);
  }

  lemma {:induction false} FetchListed(code: seq<Block>, scope: Scope)
    requires AbsoluteCode(code)
    ensures match Fetch(code, scope)
            case None => Listed(code) == []
            case Some(f) =>
              f.ctx.Absolute? && AbsoluteCode(f.rest) && Listed(code) == [f.step] + Listed(f.rest)
  {
    if code == [] {
    } else {
      var steps := code[0].steps;
      assert code[0].ctx.Absolute?;
      if steps == [] {
        FetchListed(code[1..], scope);
      } else {
        ListedNext(code);
      }
    }
  }

  /** What is fulfilled has said all. */
  lemma {:induction false} CompletedSays(p: Proc, env: Env)
    requires Expanded(p) && Tidy(p, env.scope) && Completed(p, env.scope)
    ensures Words(p, [], true, env)
  {
    var none: seq<Sign> := [];
    assert none[..0] == [] && none[0..] == [];
    match p
    case Sequence(head, code) =>
      CompletedSays(head, env);
      FetchListed(code, env.scope);
    case Loop(body, _, _) => CompletedSays(body, env);
    case Group(members, _, _) =>
      var ws := NothingSaid(|members|);
      forall i | 0 <= i < |members| ensures Words(members[i], ws[i], true, env) {
        assert members[i] in members;
        CompletedSays(members[i], env);
      }
    case Timed(body, _, _) => CompletedSays(body, env);
    case _ =>
  }

  // ----- a move of a task or poll step says what its word begins with -----

  predicate SaysThen(j: Job, leaf: Leaf, after: Leaf, e: seq<Sign>, w: seq<Sign>, whole: bool)
    requires j.step.Task? || j.step.Poll?
  {
    LeafWord(j, after, w, whole) ==> LeafWord(j, leaf, e + w, whole)
  }

  /** What a move says, and then what the activity says after it, is what it says before. */
  predicate LeafSays(
      j: Job, leaf: Leaf, signal: Option<Fault>, ev: Event, st: Store, env: Env, w: seq<Sign>, whole: bool)
    requires j.step.Task? || j.step.Poll?
  {
    var (after, st') := LeafNext(j.step, j.deadline, leaf, signal, ev, st, env);
    SaysThen(j, leaf, after, LeafSigns(j.step, leaf, after, ev, signal, st.now, st'.outputs), w, whole)
  }

  lemma SignThen(s: Sign, w: seq<Sign>)
    ensures ([s] + w)[1..] == w && ([s] + w)[0] == s && [] + w == w && [s] + w != []
  {
  }

  lemma ReadySays(
      j: Job, leaf: Leaf, signal: Option<Fault>, ev: Event, st: Store, env: Env, w: seq<Sign>, whole: bool)
    requires (j.step.Task? || j.step.Poll?) && leaf.Ready?
    ensures LeafSays(j, leaf, signal, ev, st, env, w, whole)
  {
    var (after, st') := LeafNext(j.step, j.deadline, leaf, signal, ev, st, env);
    var e := LeafSigns(j.step, leaf, after, ev, signal, st.now, st'.outputs);
    if e == [] { assert e + w == w; } else { SignThen(e[0], w); assert e == [e[0]]; }
  }

  lemma FlightSays(
      j: Job, leaf: Leaf, signal: Option<Fault>, ev: Event, st: Store, env: Env, w: seq<Sign>, whole: bool)
    requires (j.step.Task? || j.step.Poll?) && (leaf.Announced? || leaf.Called? || leaf.Raced?)
    ensures LeafSays(j, leaf, signal, ev, st, env, w, whole)
  {
    var (after, st') := LeafNext(j.step, j.deadline, leaf, signal, ev, st, env);
    var e := LeafSigns(j.step, leaf, after, ev, signal, st.now, st'.outputs);
    if e == [] { assert e + w == w; } else { SignThen(e[0], w); assert e == [e[0]]; }
  }

  lemma GiveUpSays(j: Job, leaf: Leaf, signal: Option<Fault>, now: nat, w: seq<Sign>, whole: bool)
    requires (j.step.Task? || j.step.Poll?) && leaf.Failing?
    ensures var after := GiveUp(j.step, leaf.attempt, leaf.fault, leaf.cancelled, signal);
            SaysThen(j, leaf, after, StopSign(j.step, after, now, signal), w, whole)
  {
    var after := GiveUp(j.step, leaf.attempt, leaf.fault, leaf.cancelled, signal);
    if after.Ended? {
      var stop := [Stops(j.step, after.result.fault, now, signal)];
      assert stop + [] == stop;
    }
    assert [] + w == w;
  }

  lemma FailingSays(
      j: Job, leaf: Leaf, signal: Option<Fault>, ev: Event, st: Store, env: Env, w: seq<Sign>, whole: bool)
    requires (j.step.Task? || j.step.Poll?) && leaf.Failing?
    ensures LeafSays(j, leaf, signal, ev, st, env, w, whole)
  {
    assert [] + w == w;
    if ev == Go { GiveUpSays(j, leaf, signal, st.now, w, whole); }
  }

  /** A stop ends the word. */
  lemma StopEnds(step: Step, fault: Fault, now: nat, signal: Option<Fault>, w: seq<Sign>)
    ensures StopSign(step, Ended(Rejected(fault)), now, signal) == [Stops(step, fault, now, signal)]
    ensures w == [] ==> [Stops(step, fault, now, signal)] + w == [Stops(step, fault, now, signal)]
  {
  }

  lemma WaitingSays(
      j: Job, leaf: Leaf, signal: Option<Fault>, ev: Event, st: Store, env: Env, w: seq<Sign>, whole: bool)
    requires (j.step.Task? || j.step.Poll?) && leaf.Waiting?
    ensures LeafSays(j, leaf, signal, ev, st, env, w, whole)
  {
    assert [] + w == w;
    if ev == Go {
      if signal.Some? {
        StopEnds(j.step, signal.value, st.now, signal, w);
      } else {
        SignThen(Wakes(j.step, st.now), w);
      }
    }
  }

  lemma BackoffSays(
      j: Job, leaf: Leaf, signal: Option<Fault>, ev: Event, st: Store, env: Env, w: seq<Sign>, whole: bool)
    requires (j.step.Task? || j.step.Poll?) && leaf.Backoff?
    ensures LeafSays(j, leaf, signal, ev, st, env, w, whole)
  {
    assert [] + w == w;
    if ev == Go {
      if signal.Some? {
        StopEnds(j.step, signal.value, st.now, signal, w);
      } else {
        SignThen(Wakes(j.step, st.now), w);
      }
    }
  }

  lemma PolledSays(
      j: Job, output: Option<Value>, signal: Option<Fault>, st: Store, env: Env, w: seq<Sign>, whole: bool)
    requires j.step.Poll? && j.vars == env.scope.vars
    ensures var (after, st') := Deliver(j.step, output, signal, st, env);
            LeafWord(j, after, w, whole) ==>
              PolledWord(j, Delivers(j.step, output, st'.outputs, st.now, signal),
                         StopSign(j.step, after, st.now, signal) + w, whole)
  {
    assert [] + w == w;
    match Evaluate(j.step.until, env.scope.vars, PutOutput(st, j.step.id, output).outputs, output)
    case Holds =>
    case NotAString => StopEnds(j.step, Failure("TypeError"), st.now, signal, w);
    case Fails => if signal.Some? { StopEnds(j.step, Thrown(signal.value), st.now, signal, w); }
  }

  lemma DeliverSigns(j: Job, leaf: Leaf, signal: Option<Fault>, st: Store, env: Env)
    requires (j.step.Task? || j.step.Poll?) && leaf.Reporting?
    ensures var (after, st') := Deliver(j.step, leaf.output, signal, st, env);
            && LeafNext(j.step, j.deadline, leaf, signal, Go, st, env) == (after, st')
            && LeafSigns(j.step, leaf, after, Go, signal, st.now, st'.outputs) ==
               [Delivers(j.step, leaf.output, st'.outputs, st.now, signal)] + StopSign(j.step, after, st.now, signal)
            && (leaf.output.Some? ==> Lookup(st'.outputs, j.step.id) == leaf.output)
            && (j.step.Task? ==> after == Ended(Fulfilled))
  {
    OutputPut(st, j.step.id, leaf.output);
    assert Deliver(j.step, leaf.output, signal, st, env).1.outputs == PutOutput(st, j.step.id, leaf.output).outputs;
  }

  lemma TaskSays(j: Job, d: Sign, w: seq<Sign>, whole: bool)
    requires j.step.Task? && d.Delivers? && d.step == j.step && w == []
    requires d.output.Some? ==> Lookup(d.outputs, j.step.id) == d.output
    ensures PassedWord(j, d.output, [d] + w, whole)
  {
    SignThen(d, w);
  }

  lemma PollSays(j: Job, d: Sign, w: seq<Sign>, whole: bool)
    requires j.step.Poll? && d.Delivers? && d.step == j.step && PolledWord(j, d, w, whole)
    requires d.output.Some? ==> Lookup(d.outputs, j.step.id) == d.output
    ensures PassedWord(j, d.output, [d] + w, whole)
  {
    SignThen(d, w);
  }

  lemma DeliverySays(j: Job, leaf: Leaf, after: Leaf, d: Sign, e: seq<Sign>, w: seq<Sign>, whole: bool)
    requires (j.step.Task? || j.step.Poll?) && leaf.Reporting?
    requires d.Delivers? && d.step == j.step && d.output == leaf.output
    requires d.output.Some? ==> Lookup(d.outputs, j.step.id) == d.output
    requires LeafWord(j, after, w, whole) ==> if j.step.Task? then e + w == [] else PolledWord(j, d, e + w, whole)
    ensures SaysThen(j, leaf, after, [d] + e, w, whole)
  {
    assert ([d] + e) + w == [d] + (e + w);
    if LeafWord(j, after, w, whole) {
      if j.step.Poll? { PollSays(j, d, e + w, whole); } else { TaskSays(j, d, e + w, whole); }
    }
  }

  lemma ReportingSays(
      j: Job, leaf: Leaf, signal: Option<Fault>, ev: Event, st: Store, env: Env, w: seq<Sign>, whole: bool)
    requires (j.step.Task? || j.step.Poll?) && leaf.Reporting? && j.vars == env.scope.vars
    ensures LeafSays(j, leaf, signal, ev, st, env, w, whole)
  {
    if ev == Go {
      var (after, st') := Deliver(j.step, leaf.output, signal, st, env);
      var d := Delivers(j.step, leaf.output, st'.outputs, st.now, signal);
      DeliverSigns(j, leaf, signal, st, env);
      if j.step.Poll? { PolledSays(j, leaf.output, signal, st, env, w, whole); }
      DeliverySays(j, leaf, after, d, StopSign(j.step, after, st.now, signal), w, whole);
    } else {
      assert [] + w == w;
    }
  }

  lemma OutputPut(st: Store, id: string, output: Option<Value>)
    ensures output.Some? ==> Lookup(PutOutput(st, id, output).outputs, id) == output
  {
    if output.Some? { assert Lookup(Put(st.outputs, id, output.value), id) == output; }
  }

  lemma LeafSaysAll(
      j: Job, leaf: Leaf, signal: Option<Fault>, ev: Event, st: Store, env: Env, w: seq<Sign>, whole: bool)
    requires (j.step.Task? || j.step.Poll?) && j.vars == env.scope.vars
    ensures LeafSays(j, leaf, signal, ev, st, env, w, whole)
  {
    match leaf
    case Ready(_) => ReadySays(j, leaf, signal, ev, st, env, w, whole);
    case Reporting(_, _) => ReportingSays(j, leaf, signal, ev, st, env, w, whole);
    case Failing(_, _, _) => FailingSays(j, leaf, signal, ev, st, env, w, whole);
    case Backoff(_) => BackoffSays(j, leaf, signal, ev, st, env, w, whole);
    case Waiting(_) => WaitingSays(j, leaf, signal, ev, st, env, w, whole);
    case Ended(_) => assert [] + w == w;
    case _ => FlightSays(j, leaf, signal, ev, st, env, w, whole);
  }

  // ----- a step that starts -----

  lemma ListedOne(b: Block)
    ensures Listed([b]) == b.steps
  {
    assert [b][1..] == [] && Listed([]) == [] && b.steps + [] == b.steps;
  }

  lemma RunSays(b: Block, w: seq<Sign>, whole: bool, env: Env)
    requires Words(Run(b), w, whole, env)
    ensures ListWord(b.steps, w, whole, env)
  {
    ListedOne(b);
    ListSilent(b.steps, env);
    if k :| 0 <= k <= |w| && Words(Settled(Fulfilled), w[..k], true, env) && ListWord(b.steps, w[k..], whole, env) {
      assert w[..k] == [] && w[k..] == w;
    }
  }

  lemma LoopSays(times: nat, again: Block, w: seq<Sign>, whole: bool, env: Env)
    requires Words(Loop(Settled(Fulfilled), times, again), w, whole, env)
    ensures RoundsWord(again.steps, times, w, whole, env)
  {
    RoundsSilent(again.steps, times, env);
    if k :| 0 <= k <= |w| && Words(Settled(Fulfilled), w[..k], true, env)
            && RoundsWord(again.steps, times, w[k..], whole, env) {
      assert w[..k] == [] && w[k..] == w;
    }
  }

  lemma ParallelSays(steps: seq<Step>, own: Option<Fault>, out: Option<Outcome>, w: seq<Sign>, whole: bool, env: Env)
    requires Words(Group(Members(Block(steps, Absolute), env.scope), own, out), w, whole, env)
    ensures exists ws: seq<seq<Sign>> ::
              |ws| == |steps| && Shuffle(ws, w) && forall i | 0 <= i < |steps| :: StepWord(steps[i], ws[i], whole, env)
  {
    var members := Members(Block(steps, Absolute), env.scope);
    var ws: seq<seq<Sign>> :| |ws| == |members| && Shuffle(ws, w)
                              && forall i | 0 <= i < |members| :: Words(members[i], ws[i], whole, env);
    forall i | 0 <= i < |steps| ensures StepWord(steps[i], ws[i], whole, env) {
      assert members[i] == Pending(steps[i], Absolute);
      assert Words(members[i], ws[i], whole, env);
    }
  }

  lemma CoreSays(step: Step, st: Store, w: seq<Sign>, whole: bool, env: Env)
    requires Words(StartCore(step, Absolute, st, env), w, whole, env)
    ensures CoreWord(step, st.outputs, st.now, w, whole, env)
  {
    match step
    case Parallel(_, _, steps) =>
      var core := StartCore(step, Absolute, st, env);
      ParallelSays(steps, core.own, core.out, w, whole, env);
    case Repeat(_, _, times, steps) => LoopSays(times, Block(steps, Absolute), w, whole, env);
    case Branch(_, _, when, thens, elses) =>
      match Evaluate(when, env.scope.vars, st.outputs, None) {
        case Holds => RunSays(Block(thens, Absolute), w, whole, env);
        case Fails => RunSays(Block(elses, Absolute), w, whole, env);
        case NotAString =>
      }
    case _ =>
  }

  lemma StepSays(step: Step, st: Store, w: seq<Sign>, whole: bool, env: Env)
    requires Words(Start(step, Absolute, st, env), w, whole, env)
    ensures StepWord(step, [Starts(step, st.outputs, st.now)] + w, whole, env)
  {
    SignThen(Starts(step, st.outputs, st.now), w);
    CoreSays(step, st, w, whole, env);
  }

  lemma StartExpanded(step: Step, st: Store, env: Env)
    ensures Expanded(Start(step, Absolute, st, env))
  {
    assert Expanded(StartCore(step, Absolute, st, env));
  }

  // ----- one move -----

  lemma {:induction false} ShuffleMore(ws: seq<seq<Sign>>, i: nat, e: seq<Sign>, w: seq<Sign>)
    requires i < |ws| && Shuffle(ws, w)
    ensures Shuffle(ws[i := e + ws[i]], e + w)
    decreases |e|
  {
    if e == [] {
      assert e + ws[i] == ws[i] && ws[i := ws[i]] == ws && e + w == w;
    } else {
      var more, rest := ws[i := e + ws[i]], e[1..] + ws[i];
      ShuffleMore(ws, i, e[1..], w);
      assert more[i][1..] == rest && (e + w)[1..] == e[1..] + w;
      assert more[i := rest] == ws[i := rest];
    }
  }

  lemma SplitMore(e: seq<Sign>, w: seq<Sign>, k: nat)
    requires k <= |w|
    ensures (e + w)[..|e| + k] == e + w[..k] && (e + w)[|e| + k..] == w[k..]
  {
  }

  lemma {:induction false} NextExpanded(
      p: Proc, signal: Option<Fault>, addr: seq<nat>, ev: Event, st: Store, env: Env)
    requires Expanded(p)
    ensures Expanded(Next(p, signal, addr, ev, st, env).0)
    decreases p
  {
    match p
    case Pending(step, _) => StartExpanded(step, st, env);
    case Sequence(head, code) =>
      FetchListed(code, env.scope);
      if !Completed(head, env.scope) {
        NextExpanded(head, signal, addr, ev, st, env);
      } else if Fetch(code, env.scope).Some? {
        StartExpanded(Fetch(code, env.scope).value.step, st, env);
      }
    case Loop(body, _, _) => if !Completed(body, env.scope) { NextExpanded(body, signal, addr, ev, st, env); }
    case Group(members, own, _) =>
      if addr != [] && addr[0] < |members| {
        assert members[addr[0]] in members;
        NextExpanded(members[addr[0]], Below(own, signal), addr[1..], ev, st, env);
      }
    case Timed(body, own, _) => if addr != [] { NextExpanded(body, Below(own, signal), addr[1..], ev, st, env); }
    case _ =>
  }

  /** Whatever an activity may say after a move, it may say that and, before it, what the
      move says. */
  ghost predicate NextSaid(
      p: Proc, signal: Option<Fault>, addr: seq<nat>, ev: Event, st: Store, env: Env, w: seq<Sign>, whole: bool)
  {
    Words(Next(p, signal, addr, ev, st, env).0, w, whole, env) ==>
      Words(p, Signs(p, signal, addr, ev, st, env) + w, whole, env)
  }

  lemma HeadSaid(
      head: Proc, code: seq<Block>, head': Proc, e: seq<Sign>, w: seq<Sign>, whole: bool, env: Env)
    requires Words(Sequence(head', code), w, whole, env)
    requires forall v: seq<Sign>, all: bool | Words(head', v, all, env) :: Words(head, e + v, all, env)
    ensures Words(Sequence(head, code), e + w, whole, env)
  {
    if whole || !Words(head', w, false, env) {
      var k :| 0 <= k <= |w| && Words(head', w[..k], true, env) && ListWord(Listed(code), w[k..], whole, env);
      SplitMore(e, w, k);
      assert Words(head, (e + w)[..|e| + k], true, env);
    }
  }

  lemma BodySaid(
      body: Proc, left: nat, again: Block, body': Proc, e: seq<Sign>, w: seq<Sign>, whole: bool, env: Env)
    requires Words(Loop(body', left, again), w, whole, env)
    requires forall v: seq<Sign>, all: bool | Words(body', v, all, env) :: Words(body, e + v, all, env)
    ensures Words(Loop(body, left, again), e + w, whole, env)
  {
    if whole || !Words(body', w, false, env) {
      var k :| 0 <= k <= |w| && Words(body', w[..k], true, env) && RoundsWord(again.steps, left, w[k..], whole, env);
      SplitMore(e, w, k);
      assert Words(body, (e + w)[..|e| + k], true, env);
    }
  }

  lemma MemberSaid(
      members: seq<Proc>, i: nat, own: Option<Fault>, out: Option<Outcome>, m: Proc, own': Option<Fault>,
      out': Option<Outcome>, e: seq<Sign>, w: seq<Sign>, whole: bool, env: Env)
    requires i < |members| && Words(Group(members[i := m], own', out'), w, whole, env)
    requires Unrejected(out') ==> Unrejected(out)
    requires forall v: seq<Sign> | Words(m, v, whole, env) :: Words(members[i], e + v, whole, env)
    ensures Words(Group(members, own, out), e + w, whole, env)
  {
    var after := members[i := m];
    var ws: seq<seq<Sign>> :| |ws| == |after| && Shuffle(ws, w)
                              && forall j | 0 <= j < |after| :: Words(after[j], ws[j], whole, env);
    ShuffleMore(ws, i, e, w);
    var more := ws[i := e + ws[i]];
    forall j | 0 <= j < |members| ensures Words(members[j], more[j], whole, env) {
      assert Words(after[j], ws[j], whole, env);
    }
  }

  lemma {:induction false} NextSays(
      p: Proc, signal: Option<Fault>, addr: seq<nat>, ev: Event, st: Store, env: Env, w: seq<Sign>, whole: bool)
    requires Expanded(p) && Tidy(p, env.scope)
    ensures NextSaid(p, signal, addr, ev, st, env, w, whole)
    decreases p
  {
    match p
    case Settled(_) => assert [] + w == w;
    case Pending(step, ctx) => PendingSays(step, ctx, signal, addr, ev, st, env, w, whole);
    case Action(step, deadline, leaf) =>
      LeafSaysAll(Job(step, deadline, env.scope.vars), leaf, signal, ev, st, env, w, whole);
    case Sequence(head, code) =>
      if Completed(head, env.scope) {
        SequenceSays(head, code, signal, addr, ev, st, env, w, whole);
      } else {
        forall v: seq<Sign>, all: bool ensures NextSaid(head, signal, addr, ev, st, env, v, all) {
          NextSays(head, signal, addr, ev, st, env, v, all);
        }
        HeadSays(head, code, signal, addr, ev, st, env, w, whole);
      }
    case Loop(body, left, again) =>
      if Completed(body, env.scope) {
        RoundSays(body, left, again, signal, addr, ev, st, env, w, whole);
      } else {
        forall v: seq<Sign>, all: bool ensures NextSaid(body, signal, addr, ev, st, env, v, all) {
          NextSays(body, signal, addr, ev, st, env, v, all);
        }
        BodySays(body, left, again, signal, addr, ev, st, env, w, whole);
      }
    case Group(members, own, out) =>
      if addr == [] || addr[0] >= |members| {
        assert [] + w == w;
      } else {
        var i := addr[0];
        assert members[i] in members;
        forall v: seq<Sign> ensures NextSaid(members[i], Below(own, signal), addr[1..], ev, st, env, v, whole) {
          NextSays(members[i], Below(own, signal), addr[1..], ev, st, env, v, whole);
        }
        GroupSays(members, own, out, signal, addr, ev, st, env, w, whole);
      }
    case Timed(body, own, out) =>
      if addr != [] { NextSays(body, Below(own, signal), addr[1..], ev, st, env, w, whole); }
      TimerSays(body, own, out, signal, addr, ev, st, env, w, whole);
  }

  lemma HeadSays(
      head: Proc, code: seq<Block>, signal: Option<Fault>, addr: seq<nat>, ev: Event, st: Store, env: Env,
      w: seq<Sign>, whole: bool)
    requires !Completed(head, env.scope)
    requires forall v: seq<Sign>, all: bool :: NextSaid(head, signal, addr, ev, st, env, v, all)
    ensures NextSaid(Sequence(head, code), signal, addr, ev, st, env, w, whole)
  {
    var head', e := Next(head, signal, addr, ev, st, env).0, Signs(head, signal, addr, ev, st, env);
    forall v: seq<Sign>, all: bool | Words(head', v, all, env) ensures Words(head, e + v, all, env) {
      assert NextSaid(head, signal, addr, ev, st, env, v, all);
    }
    if Words(Sequence(head', code), w, whole, env) { HeadSaid(head, code, head', e, w, whole, env); }
  }

  lemma BodySays(
      body: Proc, left: nat, again: Block, signal: Option<Fault>, addr: seq<nat>, ev: Event, st: Store, env: Env,
      w: seq<Sign>, whole: bool)
    requires !Completed(body, env.scope)
    requires forall v: seq<Sign>, all: bool :: NextSaid(body, signal, addr, ev, st, env, v, all)
    ensures NextSaid(Loop(body, left, again), signal, addr, ev, st, env, w, whole)
  {
    var body', e := Next(body, signal, addr, ev, st, env).0, Signs(body, signal, addr, ev, st, env);
    forall v: seq<Sign>, all: bool | Words(body', v, all, env) ensures Words(body, e + v, all, env) {
      assert NextSaid(body, signal, addr, ev, st, env, v, all);
    }
    if Words(Loop(body', left, again), w, whole, env) { BodySaid(body, left, again, body', e, w, whole, env); }
  }

  lemma TimerSays(
      body: Proc, own: Option<Fault>, out: Option<Outcome>, signal: Option<Fault>, addr: seq<nat>, ev: Event,
      st: Store, env: Env, w: seq<Sign>, whole: bool)
    requires Tidy(Timed(body, own, out), env.scope)
    requires addr != [] ==> NextSaid(body, Below(own, signal), addr[1..], ev, st, env, w, whole)
    ensures NextSaid(Timed(body, own, out), signal, addr, ev, st, env, w, whole)
  {
    assert [] + w == w;
  }

  lemma PendingSays(
      step: Step, ctx: Ctx, signal: Option<Fault>, addr: seq<nat>, ev: Event, st: Store, env: Env, w: seq<Sign>,
      whole: bool)
    requires ctx.Absolute?
    ensures NextSaid(Pending(step, ctx), signal, addr, ev, st, env, w, whole)
  {
    assert [] + w == w;
    if ev == Go && Words(Start(step, Absolute, st, env), w, whole, env) { StepSays(step, st, w, whole, env); }
  }

  lemma FailedSays(fault: Fault, rest: seq<Block>, w: seq<Sign>, whole: bool, env: Env)
    requires Words(Sequence(Settled(Rejected(fault)), rest), w, whole, env)
    ensures w == [] && !whole
  {
    assert forall v: seq<Sign> :: !Words(Settled(Rejected(fault)), v, true, env);
  }

  /** The next step of a sequence begins its word. */
  lemma SequenceSays(
      head: Proc, code: seq<Block>, signal: Option<Fault>, addr: seq<nat>, ev: Event, st: Store, env: Env,
      w: seq<Sign>, whole: bool)
    requires Expanded(Sequence(head, code)) && Tidy(head, env.scope) && Completed(head, env.scope)
    ensures NextSaid(Sequence(head, code), signal, addr, ev, st, env, w, whole)
  {
    var p := Sequence(head, code);
    var next := Next(p, signal, addr, ev, st, env).0;
    assert [] + w == w;
    FetchListed(code, env.scope);
    if next != p && Words(next, w, whole, env) {
      var f := Fetch(code, env.scope).value;
      if signal.Some? {
        FailedSays(Thrown(signal.value), f.rest, w, whole, env);
        Silent(p, env);
      } else {
        NextStepSays(f.step, f.rest, st, w, whole, env);
        var e := [Starts(f.step, st.outputs, st.now)] + w;
        CompletedSays(head, env);
        assert e[..0] == [] && e[0..] == e;
      }
    }
  }

  lemma NextStepSays(step: Step, rest: seq<Block>, st: Store, w: seq<Sign>, whole: bool, env: Env)
    requires Words(Sequence(Start(step, Absolute, st, env), rest), w, whole, env)
    ensures ListWord([step] + Listed(rest), [Starts(step, st.outputs, st.now)] + w, whole, env)
  {
    var start, e := Start(step, Absolute, st, env), [Starts(step, st.outputs, st.now)];
    assert ([step] + Listed(rest))[1..] == Listed(rest);
    if !whole && Words(start, w, false, env) {
      StepSays(step, st, w, false, env);
    } else {
      var k :| 0 <= k <= |w| && Words(start, w[..k], true, env) && ListWord(Listed(rest), w[k..], whole, env);
      StepSays(step, st, w[..k], true, env);
      SplitMore(e, w, k);
      assert StepWord(step, (e + w)[..1 + k], true, env);
    }
  }

  /** The next round of a repeat begins its word. */
  lemma RoundSays(
      body: Proc, left: nat, again: Block, signal: Option<Fault>, addr: seq<nat>, ev: Event, st: Store, env: Env,
      w: seq<Sign>, whole: bool)
    requires Expanded(body) && Tidy(body, env.scope) && Completed(body, env.scope)
    ensures NextSaid(Loop(body, left, again), signal, addr, ev, st, env, w, whole)
  {
    var p := Loop(body, left, again);
    var next := Next(p, signal, addr, ev, st, env).0;
    assert [] + w == w;
    if next != p && Words(next, w, whole, env) {
      assert next == Loop(Run(again), left - 1, again) && w[..0] == [] && w[0..] == w;
      CompletedSays(body, env);
      if !whole && Words(Run(again), w, false, env) {
        RunSays(again, w, false, env);
      } else {
        var k :| 0 <= k <= |w| && Words(Run(again), w[..k], true, env)
                 && RoundsWord(again.steps, left - 1, w[k..], whole, env);
        RunSays(again, w[..k], true, env);
      }
    }
  }

  lemma GroupSays(
      members: seq<Proc>, own: Option<Fault>, out: Option<Outcome>, signal: Option<Fault>, addr: seq<nat>, ev: Event,
      st: Store, env: Env, w: seq<Sign>, whole: bool)
    requires addr != [] && addr[0] < |members|
    requires forall v: seq<Sign> :: NextSaid(members[addr[0]], Below(own, signal), addr[1..], ev, st, env, v, whole)
    ensures NextSaid(Group(members, own, out), signal, addr, ev, st, env, w, whole)
  {
    var i := addr[0];
    var m := Next(members[i], Below(own, signal), addr[1..], ev, st, env).0;
    var e := Signs(members[i], Below(own, signal), addr[1..], ev, st, env);
    var after := GroupAfter(members, i, m, own, out, signal, env.scope);
    if Words(after, w, whole, env) {
      forall v: seq<Sign> | Words(m, v, whole, env) ensures Words(members[i], e + v, whole, env) {
        assert NextSaid(members[i], Below(own, signal), addr[1..], ev, st, env, v, whole);
      }
      MemberSaid(members, i, own, out, m, after.own, after.out, e, w, whole, env);
    }
  }

  // ----- every run -----

  lemma AdvanceSays(s: State, m: Move, env: Env, w: seq<Sign>, whole: bool)
    requires Expanded(s.proc) && Tidy(s.proc, env.scope) && Words(Advance(s, m, env).proc, w, whole, env)
    ensures Words(s.proc, SignsOfMove(s, m, env) + w, whole, env)
  {
    match m
    case At(addr, ev) => NextSays(s.proc, s.abort, addr, ev, s.store, env, w, whole);
    case _ => assert [] + w == w;
  }

  /** What shows of any schedule is a word of the activity it begins with, a whole one if
      the activity has been fulfilled. */
  lemma {:induction false} TraceSays(s: State, moves: seq<Move>, env: Env)
    requires Expanded(s.proc) && Tidy(s.proc, env.scope)
    ensures var end := Play(s, moves, env).proc;
            Words(s.proc, Trace(s, moves, env), Completed(end, env.scope), env)
    decreases |moves|
  {
    if moves == [] {
      if Completed(s.proc, env.scope) { CompletedSays(s.proc, env); } else { Silent(s.proc, env); }
    } else {
      var t := Advance(s, moves[0], env);
      var whole := Completed(Play(s, moves, env).proc, env.scope);
      AdvanceTidy(s, moves[0], env);
      AdvanceExpanded(s, moves[0], env);
      TraceSays(t, moves[1..], env);
      AdvanceSays(s, moves[0], env, Trace(t, moves[1..], env), whole);
    }
  }

  lemma AdvanceExpanded(s: State, m: Move, env: Env)
    requires Expanded(s.proc)
    ensures Expanded(Advance(s, m, env).proc)
  {
    if m.At? { NextExpanded(s.proc, s.abort, m.addr, m.ev, s.store, env); }
  }

  lemma AdvanceTidy(s: State, m: Move, env: Env)
    requires Tidy(s.proc, env.scope)
    ensures Tidy(Advance(s, m, env).proc, env.scope)
  {
    if m.At? {
      var rest := MoveSwaps<Sign>(s.proc, s.abort, m.addr, m.ev, s.store, env, (step, leaf) => multiset{});
    }
  }

  /** Every phase, under every schedule: what shows of it is what its steps allow, and all
      that they ask for once the phase is fulfilled. */
  lemma PhaseSays(steps: seq<Step>, abort: Option<Fault>, store: Store, moves: seq<Move>, env: Env)
    ensures var s := State(Run(Block(steps, Absolute)), abort, store);
            ListWord(steps, Trace(s, moves, env), Completed(Play(s, moves, env).proc, env.scope), env)
  {
    var s := State(Run(Block(steps, Absolute)), abort, store);
    TraceSays(s, moves, env);
    RunSays(Block(steps, Absolute), Trace(s, moves, env), Completed(Play(s, moves, env).proc, env.scope), env);
  }

  lemma {:induction false} TraceConcat(s: State, a: seq<Move>, b: seq<Move>, env: Env)
    ensures Trace(s, a + b, env) == Trace(s, a, env) + Trace(Play(s, a, env), b, env)
    decreases |a|
  {
    if a == [] {
      assert a + b == b;
    } else {
      assert (a + b)[1..] == a[1..] + b;
      TraceConcat(Advance(s, a[0], env), a[1..], b, env);
    }
  }
}
