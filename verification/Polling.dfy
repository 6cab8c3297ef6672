/** How many attempts a task or poll step that is under way can still begin: rounds of a
    poll are an interval apart, and none starts after its deadline. */
module Polling {
  import opened Json
  import opened Arithmetic
  import opened Steps
  import opened Template
  import opened Resolver
  import opened Interpreter
  import opened Attempts

  /** Rounds that can start from `now` on. */
  function Rounds(now: nat, deadline: nat, interval: nat): nat
    requires interval > 0
    decreases if now > deadline then 0 else deadline - now + 1
  {
    if now > deadline then 0 else 1 + Rounds(now + interval, deadline, interval)
  }

  lemma {:induction false} RoundsLater(now: nat, later: nat, deadline: nat, interval: nat)
    requires interval > 0 && now <= later
    ensures Rounds(later, deadline, interval) <= Rounds(now, deadline, interval)
    decreases if now > deadline then 0 else deadline - now + 1
  {
    if later > deadline {
    } else {
      RoundsLater(now + interval, later + interval, deadline, interval);
    }
  }

  lemma {:induction false} RoundsFit(now: nat, time: nat, interval: nat)
    requires interval > 0
    ensures Rounds(now, now + time, interval) == time / interval + 1
    decreases time
  {
    if time < interval {
      DivisionUnique(time, interval, 0, time);
    } else {
      var rest := time - interval;
      RoundsFit(now + interval, rest, interval);
      QuotientRemainder(rest, interval);
      assert (rest / interval + 1) * interval == (rest / interval) * interval + interval;
      DivisionUnique(time, interval, rest / interval + 1, rest % interval);
    }
  }

  /** Attempts that `rounds` rounds can take. */
  function Budget(step: Step, rounds: nat): nat
    requires step.Poll?
  {
    AttemptLimit(step) * rounds
  }

  lemma BudgetLater(step: Step, a: nat, b: nat)
    requires step.Poll? && a <= b
    ensures Budget(step, a) <= Budget(step, b)
  {
  }

  lemma BudgetStep(step: Step, rounds: nat)
    requires step.Poll?
    ensures Budget(step, rounds + 1) == AttemptLimit(step) + Budget(step, rounds)
  {
  }

  function Minus(a: nat, b: nat): nat { if a < b then 0 else a - b }

  /** A task, or a poll step that waits between its rounds. */
  predicate Paced(step: Step) { step.Task? || (step.Poll? && step.intervalMs > 0) }

  /** Attempts the round under way can still begin; a task has one round. */
  function InRound(step: Step, leaf: Leaf): nat
    requires step.Task? || step.Poll?
  {
    match leaf
    case Ready(attempt) => if attempt == 0 then 0 else Minus(AttemptLimit(step) + 1, attempt)
    case Announced(attempt, _) => Minus(AttemptLimit(step), attempt)
    case Called(attempt, _) => Minus(AttemptLimit(step), attempt)
    case Raced(attempt, _, _) => Minus(AttemptLimit(step), attempt)
    case Failing(attempt, _, _) => Minus(AttemptLimit(step), attempt)
    case Backoff(attempt) => Minus(AttemptLimit(step), attempt)
    case _ => 0
  }

  /** The earliest the next round can start, if there can be one. */
  function NextRound(step: Step, leaf: Leaf, now: nat): nat
    requires step.Poll?
  {
    if leaf.Waiting? then (if leaf.wake < now then now else leaf.wake) else now + step.intervalMs
  }

  /** Attempts the step can still begin. */
  function Left(step: Step, deadline: nat, leaf: Leaf, now: nat): nat
    requires Paced(step)
  {
    if leaf.Ended? then 0
    else if step.Task? then InRound(step, leaf)
    else if leaf == Ready(1) then Budget(step, Rounds(now, deadline, step.intervalMs))
    else InRound(step, leaf) + Budget(step, Rounds(NextRound(step, leaf, now), deadline, step.intervalMs))
  }

  /** Time takes attempts away and never adds any. */
  lemma LeftLater(step: Step, deadline: nat, leaf: Leaf, now: nat, later: nat)
    requires Paced(step) && now <= later
    ensures Left(step, deadline, leaf, later) <= Left(step, deadline, leaf, now)
  {
    if step.Poll? {
      RoundsLater(now, later, deadline, step.intervalMs);
      BudgetLater(step, Rounds(later, deadline, step.intervalMs), Rounds(now, deadline, step.intervalMs));
      var a, b := NextRound(step, leaf, now), NextRound(step, leaf, later);
      RoundsLater(a, b, deadline, step.intervalMs);
      BudgetLater(step, Rounds(b, deadline, step.intervalMs), Rounds(a, deadline, step.intervalMs));
    }
  }

  /** Attempts are counted from 1, and only a poll waits between rounds. */
  predicate Counted(step: Step, leaf: Leaf) {
    match leaf
    case Ready(attempt) => attempt >= 1
    case Announced(attempt, _) => attempt >= 1
    case Called(attempt, _) => attempt >= 1
    case Raced(attempt, _, _) => attempt >= 1
    case Failing(attempt, _, _) => attempt >= 1
    case Backoff(attempt) => attempt >= 1
    case Waiting(_) => step.Poll?
    case _ => true
  }

  /** The attempts begun and those left, before and after. */
  predicate Spends(step: Step, deadline: nat, leaf: Leaf, st: Store, leaf': Leaf, st': Store)
    requires Paced(step)
  {
    && Counted(step, leaf') && st'.now == st.now
    && CounterOf(st', step.id) + Left(step, deadline, leaf', st'.now) <=
       CounterOf(st, step.id) + Left(step, deadline, leaf, st.now)
  }

  lemma ReadySpends(step: Step, deadline: nat, attempt: nat, st: Store)
    requires Paced(step) && 1 <= attempt <= AttemptLimit(step)
    requires step.Poll? && attempt == 1 ==> st.now <= deadline
    ensures var (leaf', st') := Announce(step, attempt, st); Spends(step, deadline, Ready(attempt), st, leaf', st')
  {
    if step.Poll? && attempt == 1 { BudgetStep(step, Rounds(st.now + step.intervalMs, deadline, step.intervalMs)); }
  }

  lemma DeliverSpends(
      step: Step, deadline: nat, number: nat, output: Option<Value>, signal: Option<Fault>, st: Store, env: Env)
    requires Paced(step)
    ensures var (leaf', st') := Deliver(step, output, signal, st, env);
            Spends(step, deadline, Reporting(number, output), st, leaf', st')
  {
    if step.Poll? { assert Deliver(step, output, signal, st, env).1 == PutOutput(st, step.id, output); }
  }

  lemma RaceSpends(
      step: Step, deadline: nat, attempt: nat, number: nat, race: Race, signal: Option<Fault>, st: Store)
    requires Paced(step) && attempt >= 1
    ensures var (leaf', st') := RecordRace(step, attempt, number, race, signal, st);
            Spends(step, deadline, Raced(attempt, number, race), st, leaf', st')
  {
  }

  lemma WaitSpends(step: Step, deadline: nat, wake: nat, st: Store)
    requires Paced(step) && step.Poll? && wake <= st.now
    ensures Spends(step, deadline, Waiting(wake), st, Ready(1), st)
  {
  }

  lemma GoSpends(step: Step, deadline: nat, leaf: Leaf, signal: Option<Fault>, st: Store, env: Env)
    requires Paced(step) && Counted(step, leaf) && !leaf.Called?
    ensures var (leaf', st') := LeafNext(step, deadline, leaf, signal, Go, st, env);
            Spends(step, deadline, leaf, st, leaf', st')
  {
    match leaf
    case Ready(attempt) =>
      if attempt <= AttemptLimit(step) && (step.Poll? && attempt == 1 ==> st.now <= deadline) {
        ReadySpends(step, deadline, attempt, st);
      }
    case Raced(attempt, number, race) => RaceSpends(step, deadline, attempt, number, race, signal, st);
    case Reporting(number, output) => DeliverSpends(step, deadline, number, output, signal, st, env);
    case Waiting(wake) => if wake <= st.now { WaitSpends(step, deadline, wake, st); }
    case _ =>
  }

  /** Every move of a task or poll step pays for the attempt it begins. */
  lemma LeafSpends(step: Step, deadline: nat, leaf: Leaf, signal: Option<Fault>, ev: Event, st: Store, env: Env)
    requires Paced(step) && Counted(step, leaf)
    ensures var (leaf', st') := LeafNext(step, deadline, leaf, signal, ev, st, env);
            Spends(step, deadline, leaf, st, leaf', st')
  {
    if !leaf.Called? && ev == Go { GoSpends(step, deadline, leaf, signal, st, env); }
  }
}
