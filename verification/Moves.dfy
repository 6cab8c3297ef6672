/** What one move does to the tree of activities: it touches at most one task or poll
    step, and everything in flight elsewhere stays as it is. */
module Moves {
  import opened Json
  import opened Texts
  import opened Steps
  import opened Template
  import opened Resolver
  import opened Interpreter

  // ----- schedules -----

  lemma PlayFirst(s: State, m: Move, rest: seq<Move>, env: Env)
    ensures Play(s, [m] + rest, env) == Play(Advance(s, m, env), rest, env)
  {
    assert ([m] + rest)[1..] == rest;
  }

  lemma PlayOne(s: State, m: Move, env: Env)
    ensures Play(s, [m], env) == Advance(s, m, env)
  {
    assert Play(s, [m], env) == Play(Advance(s, m, env), [], env);
  }

  lemma {:induction false} PlayConcat(s: State, a: seq<Move>, b: seq<Move>, env: Env)
    ensures Play(s, a + b, env) == Play(Play(s, a, env), b, env)
    decreases |a|
  {
    if a == [] {
      assert a + b == b;
    } else {
      assert (a + b)[1..] == a[1..] + b;
      PlayConcat(Advance(s, a[0], env), a[1..], b, env);
    }
  }

  // ----- what is in flight -----

  /** Everything that `f` says is in flight in the task and poll steps below `p`. */
  function Gather<X>(p: Proc, f: (Step, Leaf) -> multiset<X>): multiset<X> {
    match p
    case Action(step, _, leaf) => f(step, leaf)
    case Sequence(head, _) => Gather(head, f)
    case Loop(body, _, _) => Gather(body, f)
    case Group(members, _, _) => GatherAll(members, f)
    case Timed(body, _, _) => Gather(body, f)
    case _ => multiset{}
  }

  function GatherAll<X>(members: seq<Proc>, f: (Step, Leaf) -> multiset<X>): multiset<X> {
    if members == [] then multiset{} else Gather(members[0], f) + GatherAll(members[1..], f)
  }

  /** Nothing is in flight in a step that is about to try or has ended. */
  ghost predicate AtRest<X>(f: (Step, Leaf) -> multiset<X>) {
    forall step: Step, leaf: Leaf | leaf.Ready? || leaf.Ended? :: f(step, leaf) == multiset{}
  }

  /** Replacing one member replaces what that member has in flight. */
  lemma {:induction false} GatherUpdate<X>(members: seq<Proc>, i: nat, p: Proc, f: (Step, Leaf) -> multiset<X>)
      returns (rest: multiset<X>)
    requires i < |members|
    ensures GatherAll(members, f) == rest + Gather(members[i], f)
    ensures GatherAll(members[i := p], f) == rest + Gather(p, f)
  {
    if i == 0 {
      assert members[i := p][1..] == members[1..];
      rest := GatherAll(members[1..], f);
    } else {
      assert members[i := p][1..] == members[1..][i - 1 := p];
      var tail := GatherUpdate(members[1..], i - 1, p, f);
      rest := Gather(members[0], f) + tail;
    }
  }

  lemma GatherPair<X>(p: Proc, q: Proc, f: (Step, Leaf) -> multiset<X>)
    ensures GatherAll([p, q], f) == Gather(p, f) + Gather(q, f)
  {
    assert [p, q][1..] == [q] && [q][1..] == [];
    assert GatherAll([q], f) == Gather(q, f) + multiset{};
  }

  lemma {:induction false} NoneGathered<X>(members: seq<Proc>, f: (Step, Leaf) -> multiset<X>)
    requires forall m | m in members :: Gather(m, f) == multiset{}
    ensures GatherAll(members, f) == multiset{}
  {
    if members == [] {
    } else {
      NoneGathered(members[1..], f);
    }
  }

  lemma {:induction false} SomeGathered<X>(members: seq<Proc>, f: (Step, Leaf) -> multiset<X>) returns (i: nat)
    requires GatherAll(members, f) != multiset{}
    ensures i < |members| && Gather(members[i], f) != multiset{}
  {
    if Gather(members[0], f) != multiset{} {
      i := 0;
    } else {
      i := SomeGathered(members[1..], f);
      i := i + 1;
    }
  }

  // ----- fulfilled promises -----

  /** A promise that is fulfilled has nothing left running below it. */
  predicate Tidy(p: Proc, scope: Scope) {
    match p
    case Sequence(head, _) => Tidy(head, scope)
    case Loop(body, _, _) => Tidy(body, scope)
    case Group(members, _, out) =>
      (forall m | m in members :: Tidy(m, scope)) && (out == Some(Fulfilled) ==> AllCompleted(members, scope))
    case Timed(body, _, out) => Tidy(body, scope) && (out == Some(Fulfilled) ==> Completed(body, scope))
    case Action(step, _, _) => step.Task? || step.Poll?
    case _ => true
  }

  /** What is fulfilled has nothing in flight. */
  lemma {:induction false} CompletedQuiet<X>(p: Proc, scope: Scope, f: (Step, Leaf) -> multiset<X>)
    requires Tidy(p, scope) && Completed(p, scope) && AtRest(f)
    ensures Gather(p, f) == multiset{}
  {
    match p
    case Sequence(head, _) => CompletedQuiet(head, scope, f);
    case Loop(body, _, _) => CompletedQuiet(body, scope, f);
    case Group(members, _, _) =>
      forall m | m in members ensures Gather(m, f) == multiset{} { CompletedQuiet(m, scope, f); }
      NoneGathered(members, f);
    case Timed(body, _, _) => CompletedQuiet(body, scope, f);
    case _ =>
  }

  /** A fulfilled activity no longer moves. */
  lemma {:induction false} CompletedStays(
      p: Proc, signal: Option<Fault>, addr: seq<nat>, ev: Event, st: Store, env: Env)
    requires Tidy(p, env.scope) && Completed(p, env.scope)
    ensures Next(p, signal, addr, ev, st, env) == (p, st)
    decreases p
  {
    match p
    case Group(members, own, out) =>
      if addr != [] && addr[0] < |members| {
        var i := addr[0];
        assert members[i] in members;
        CompletedStays(members[i], Below(own, signal), addr[1..], ev, st, env);
        assert members[i := members[i]] == members;
      }
    case Timed(body, own, out) =>
      if addr != [] { CompletedStays(body, Below(own, signal), addr[1..], ev, st, env); }
    case _ =>
  }

  lemma {:induction false} MembersPending(steps: seq<Step>, prefix: string, stack: seq<string>, scope: Scope)
    ensures forall m | m in MembersAuthored(steps, prefix, stack, scope) :: m.Pending?
    decreases Remaining(scope.frags, stack), |steps|
  {
    if steps == [] {
    } else {
      MembersPending(steps[1..], prefix, stack, scope);
      if steps[0].Fragment? && steps[0].useFragment !in stack && steps[0].useFragment in scope.frags {
        EnteringShrinks(scope.frags, stack, steps[0].useFragment);
        var body, deeper := scope.frags[steps[0].useFragment], stack + [steps[0].useFragment];
        MembersPending(body, Join(prefix, steps[0].id), deeper, scope);
      }
    }
  }

  lemma PendingQuiet<X>(members: seq<Proc>, scope: Scope, f: (Step, Leaf) -> multiset<X>)
    requires forall m | m in members :: m.Pending?
    ensures GatherAll(members, f) == multiset{}
    ensures forall m | m in members :: Tidy(m, scope)
  {
    NoneGathered(members, f);
  }

  /** A step starts with nothing in flight. */
  lemma StartQuiet<X>(step: Step, ctx: Ctx, st: Store, env: Env, f: (Step, Leaf) -> multiset<X>)
    requires AtRest(f)
    ensures Gather(Start(step, ctx, st, env), f) == multiset{}
    ensures Tidy(Start(step, ctx, st, env), env.scope)
  {
    if step.Parallel? {
      var members := Members(Block(step.steps, ctx), env.scope);
      if ctx.Authored? { MembersPending(step.steps, ctx.prefix, ctx.stack, env.scope); }
      assert forall m | m in members :: m.Pending?;
      PendingQuiet(members, env.scope, f);
      assert Gather(StartCore(step, ctx, st, env), f) == GatherAll(members, f);
    } else {
      assert Gather(StartCore(step, ctx, st, env), f) == multiset{};
    }
  }

  // ----- the step a move touches -----

  /** A task or poll step that moves, and the signal it sees. */
  datatype Touch = Touch(step: Step, deadline: nat, leaf: Leaf, signal: Option<Fault>)

  /** The step that a move at `addr` touches. */
  function Touched(p: Proc, signal: Option<Fault>, addr: seq<nat>, scope: Scope): (t: Option<Touch>)
    ensures t.Some? ==> t.value.step.Task? || t.value.step.Poll?
    decreases p
  {
    match p
    case Action(step, deadline, leaf) =>
      if step.Task? || step.Poll? then Some(Touch(step, deadline, leaf, signal)) else None
    case Sequence(head, _) => if Completed(head, scope) then None else Touched(head, signal, addr, scope)
    case Loop(body, _, _) => if Completed(body, scope) then None else Touched(body, signal, addr, scope)
    case Group(members, own, _) =>
      if addr == [] || addr[0] >= |members| then None
      else Touched(members[addr[0]], Below(own, signal), addr[1..], scope)
    case Timed(body, own, _) => if addr == [] then None else Touched(body, Below(own, signal), addr[1..], scope)
    case _ => None
  }

  function Moved(t: Touch, ev: Event, st: Store, env: Env): (Leaf, Store)
    requires t.step.Task? || t.step.Poll?
  {
    LeafNext(t.step, t.deadline, t.leaf, t.signal, ev, st, env)
  }

  /** The store changes by the move of the step touched, if any. */
  lemma {:induction false} MoveStore(p: Proc, signal: Option<Fault>, addr: seq<nat>, ev: Event, st: Store, env: Env)
    ensures Next(p, signal, addr, ev, st, env).1 ==
            match Touched(p, signal, addr, env.scope) case None => st case Some(t) => Moved(t, ev, st, env).1
    decreases p
  {
    match p
    case Sequence(head, _) => if !Completed(head, env.scope) { MoveStore(head, signal, addr, ev, st, env); }
    case Loop(body, _, _) => if !Completed(body, env.scope) { MoveStore(body, signal, addr, ev, st, env); }
    case Group(members, own, _) =>
      if addr != [] && addr[0] < |members| {
        MoveStore(members[addr[0]], Below(own, signal), addr[1..], ev, st, env);
      }
    case Timed(body, own, _) => if addr != [] { MoveStore(body, Below(own, signal), addr[1..], ev, st, env); }
    case _ =>
  }

  /** A step below an aborted signal sees an aborted signal. */
  lemma {:induction false} TouchedAborted(p: Proc, signal: Option<Fault>, addr: seq<nat>, scope: Scope)
    requires signal.Some?
    ensures Touched(p, signal, addr, scope).Some? ==> Touched(p, signal, addr, scope).value.signal.Some?
    decreases p
  {
    match p
    case Sequence(head, _) => TouchedAborted(head, signal, addr, scope);
    case Loop(body, _, _) => TouchedAborted(body, signal, addr, scope);
    case Group(members, own, _) =>
      if addr != [] && addr[0] < |members| { TouchedAborted(members[addr[0]], Below(own, signal), addr[1..], scope); }
    case Timed(body, own, _) => if addr != [] { TouchedAborted(body, Below(own, signal), addr[1..], scope); }
    case _ =>
  }

  // ----- what a move changes -----

  /** `after` follows from `p` by a move that touched `t` and turned its leaf into `leaf`:
      what is in flight changes in that leaf alone. */
  predicate Swaps<X>(
      p: Proc, after: Proc, t: Option<Touch>, leaf: Leaf, rest: multiset<X>, f: (Step, Leaf) -> multiset<X>)
  {
    match t
    case None => Gather(p, f) == rest && Gather(after, f) == rest
    case Some(t) => Gather(p, f) == rest + f(t.step, t.leaf) && Gather(after, f) == rest + f(t.step, leaf)
  }

  /** What a move does, as seen through `f`. */
  predicate OneSwap<X>(
      p: Proc, signal: Option<Fault>, addr: seq<nat>, ev: Event, st: Store, env: Env,
      rest: multiset<X>, f: (Step, Leaf) -> multiset<X>)
  {
    var after, t := Next(p, signal, addr, ev, st, env).0, Touched(p, signal, addr, env.scope);
    Tidy(after, env.scope) && Swaps(p, after, t, LeafAfter(t, ev, st, env), rest, f)
  }

  function LeafAfter(t: Option<Touch>, ev: Event, st: Store, env: Env): Leaf
    requires t.Some? ==> t.value.step.Task? || t.value.step.Poll?
  {
    if t.Some? then Moved(t.value, ev, st, env).0 else Ready(0)
  }

  lemma SequenceStarts<X>(
      head: Proc, code: seq<Block>, signal: Option<Fault>, addr: seq<nat>, ev: Event, st: Store, env: Env,
      f: (Step, Leaf) -> multiset<X>)
    requires Tidy(head, env.scope) && Completed(head, env.scope) && AtRest(f)
    ensures var p' := Next(Sequence(head, code), signal, addr, ev, st, env).0;
            Tidy(p', env.scope) && Gather(p', f) == multiset{} && Gather(head, f) == multiset{}
  {
    CompletedQuiet(head, env.scope, f);
    var fetched := Fetch(code, env.scope);
    if fetched.Some? { StartQuiet(fetched.value.step, fetched.value.ctx, st, env, f); }
  }

  lemma LoopStarts<X>(
      body: Proc, left: nat, again: Block, signal: Option<Fault>, addr: seq<nat>, ev: Event, st: Store, env: Env,
      f: (Step, Leaf) -> multiset<X>)
    requires Tidy(body, env.scope) && Completed(body, env.scope) && AtRest(f)
    ensures var p' := Next(Loop(body, left, again), signal, addr, ev, st, env).0;
            Tidy(p', env.scope) && Gather(p', f) == multiset{} && Gather(body, f) == multiset{}
  {
    CompletedQuiet(body, env.scope, f);
    assert Gather(Run(again), f) == multiset{} && Tidy(Run(again), env.scope);
  }

  lemma GroupTidy(
      members: seq<Proc>, i: nat, m: Proc, own: Option<Fault>, out: Option<Outcome>,
      signal: Option<Fault>, scope: Scope)
    requires Tidy(Group(members, own, out), scope) && Tidy(m, scope) && i < |members|
    requires out == Some(Fulfilled) ==> m == members[i]
    ensures Tidy(GroupAfter(members, i, m, own, out, signal, scope), scope)
  {
    var members' := members[i := m];
    forall q | q in members' ensures Tidy(q, scope) { if q != m { assert q in members; } }
    if out == Some(Fulfilled) { assert members' == members; }
  }

  lemma Regroup<X>(a: multiset<X>, b: multiset<X>, c: multiset<X>)
    ensures a + (b + c) == (a + b) + c
  {
  }

  lemma GroupSwaps<X>(
      members: seq<Proc>, i: nat, m: Proc, own: Option<Fault>, out: Option<Outcome>, own': Option<Fault>,
      out': Option<Outcome>, t: Option<Touch>, leaf: Leaf, inner: multiset<X>, f: (Step, Leaf) -> multiset<X>)
      returns (rest: multiset<X>)
    requires i < |members| && Swaps(members[i], m, t, leaf, inner, f)
    ensures Swaps(Group(members, own, out), Group(members[i := m], own', out'), t, leaf, rest, f)
  {
    var others := GatherUpdate(members, i, m, f);
    rest := others + inner;
    assert Gather(Group(members, own, out), f) == others + Gather(members[i], f);
    assert Gather(Group(members[i := m], own', out'), f) == others + Gather(m, f);
    match t {
      case None =>
      case Some(t) =>
        Regroup(others, inner, f(t.step, t.leaf));
        Regroup(others, inner, f(t.step, leaf));
    }
  }

  lemma HeadSwaps<X>(
      head: Proc, code: seq<Block>, signal: Option<Fault>, addr: seq<nat>, ev: Event, st: Store, env: Env,
      rest: multiset<X>, f: (Step, Leaf) -> multiset<X>)
    requires !Completed(head, env.scope)
    requires OneSwap(head, signal, addr, ev, st, env, rest, f)
    ensures OneSwap(Sequence(head, code), signal, addr, ev, st, env, rest, f)
  {
  }

  lemma BodySwaps<X>(
      body: Proc, left: nat, again: Block, signal: Option<Fault>, addr: seq<nat>, ev: Event, st: Store, env: Env,
      rest: multiset<X>, f: (Step, Leaf) -> multiset<X>)
    requires !Completed(body, env.scope)
    requires OneSwap(body, signal, addr, ev, st, env, rest, f)
    ensures OneSwap(Loop(body, left, again), signal, addr, ev, st, env, rest, f)
  {
  }

  lemma TimedSwaps<X>(
      body: Proc, own: Option<Fault>, out: Option<Outcome>, signal: Option<Fault>, addr: seq<nat>, ev: Event,
      st: Store, env: Env, rest: multiset<X>, f: (Step, Leaf) -> multiset<X>)
    requires Tidy(Timed(body, own, out), env.scope) && addr != []
    requires OneSwap(body, Below(own, signal), addr[1..], ev, st, env, rest, f)
    ensures OneSwap(Timed(body, own, out), signal, addr, ev, st, env, rest, f)
  {
    if out == Some(Fulfilled) { CompletedStays(body, Below(own, signal), addr[1..], ev, st, env); }
  }

  lemma TimerSwaps<X>(
      body: Proc, own: Option<Fault>, out: Option<Outcome>, signal: Option<Fault>, ev: Event, st: Store, env: Env,
      f: (Step, Leaf) -> multiset<X>)
    requires Tidy(Timed(body, own, out), env.scope)
    ensures OneSwap(Timed(body, own, out), signal, [], ev, st, env, Gather(body, f), f)
  {
  }

  /** A move swaps the leaf it touches and nothing else, and leaves the tree tidy. */
  lemma {:induction false} MoveSwaps<X>(
      p: Proc, signal: Option<Fault>, addr: seq<nat>, ev: Event, st: Store, env: Env, f: (Step, Leaf) -> multiset<X>)
      returns (rest: multiset<X>)
    requires Tidy(p, env.scope) && AtRest(f)
    ensures OneSwap(p, signal, addr, ev, st, env, rest, f)
    decreases p
  {
    rest := multiset{};
    match p {
      case Pending(step, ctx) => StartQuiet(step, ctx, st, env, f);
      case Sequence(head, code) =>
        if Completed(head, env.scope) {
          SequenceStarts(head, code, signal, addr, ev, st, env, f);
        } else {
          rest := MoveSwaps(head, signal, addr, ev, st, env, f);
          HeadSwaps(head, code, signal, addr, ev, st, env, rest, f);
        }
      case Loop(body, left, again) =>
        if Completed(body, env.scope) {
          LoopStarts(body, left, again, signal, addr, ev, st, env, f);
        } else {
          rest := MoveSwaps(body, signal, addr, ev, st, env, f);
          BodySwaps(body, left, again, signal, addr, ev, st, env, rest, f);
        }
      case Group(members, own, out) =>
        if addr == [] || addr[0] >= |members| {
          rest := GatherAll(members, f);
        } else {
          var i := addr[0];
          assert members[i] in members;
          var inner := MoveSwaps(members[i], Below(own, signal), addr[1..], ev, st, env, f);
          if out == Some(Fulfilled) { CompletedStays(members[i], Below(own, signal), addr[1..], ev, st, env); }
          rest := MemberSwaps(members, own, out, signal, addr, ev, st, env, inner, f);
        }
      case Timed(body, own, out) =>
        if addr == [] {
          rest := Gather(body, f);
          TimerSwaps(body, own, out, signal, ev, st, env, f);
        } else {
          rest := MoveSwaps(body, Below(own, signal), addr[1..], ev, st, env, f);
          TimedSwaps(body, own, out, signal, addr, ev, st, env, rest, f);
        }
      case _ =>
    }
  }

  lemma MemberSwaps<X>(
      members: seq<Proc>, own: Option<Fault>, out: Option<Outcome>, signal: Option<Fault>, addr: seq<nat>, ev: Event,
      st: Store, env: Env, inner: multiset<X>, f: (Step, Leaf) -> multiset<X>)
      returns (rest: multiset<X>)
    requires Tidy(Group(members, own, out), env.scope) && addr != [] && addr[0] < |members|
    requires OneSwap(members[addr[0]], Below(own, signal), addr[1..], ev, st, env, inner, f)
    requires out == Some(Fulfilled) ==>
               Next(members[addr[0]], Below(own, signal), addr[1..], ev, st, env).0 == members[addr[0]]
    ensures OneSwap(Group(members, own, out), signal, addr, ev, st, env, rest, f)
  {
    var i := addr[0];
    var m := Next(members[i], Below(own, signal), addr[1..], ev, st, env).0;
    var t := Touched(members[i], Below(own, signal), addr[1..], env.scope);
    var after := GroupAfter(members, i, m, own, out, signal, env.scope);
    GroupTidy(members, i, m, own, out, signal, env.scope);
    rest := GroupSwaps(members, i, m, own, out, after.own, after.out, t, LeafAfter(t, ev, st, env), inner, f);
  }

  /** A move that touches a step swaps its leaf. */
  lemma TouchSwaps<X>(
      p: Proc, signal: Option<Fault>, addr: seq<nat>, ev: Event, st: Store, env: Env, t: Touch,
      f: (Step, Leaf) -> multiset<X>)
      returns (rest: multiset<X>)
    requires Tidy(p, env.scope) && AtRest(f) && Touched(p, signal, addr, env.scope) == Some(t)
    ensures Gather(p, f) == rest + f(t.step, t.leaf)
    ensures t.step.Task? || t.step.Poll?
    ensures Gather(Next(p, signal, addr, ev, st, env).0, f) == rest + f(t.step, Moved(t, ev, st, env).0)
  {
    rest := MoveSwaps(p, signal, addr, ev, st, env, f);
  }

  /** A move that touches none leaves everything in flight as it is. */
  lemma NoSwap<X>(
      p: Proc, signal: Option<Fault>, addr: seq<nat>, ev: Event, st: Store, env: Env, f: (Step, Leaf) -> multiset<X>)
    requires Tidy(p, env.scope) && AtRest(f) && Touched(p, signal, addr, env.scope) == None
    ensures Gather(Next(p, signal, addr, ev, st, env).0, f) == Gather(p, f)
  {
    var rest := MoveSwaps(p, signal, addr, ev, st, env, f);
  }

  // ----- every step in flight can be touched -----

  /** What is in flight somewhere can be moved by a move at some address. */
  lemma {:induction false} FindTouch<X>(p: Proc, signal: Option<Fault>, scope: Scope, f: (Step, Leaf) -> multiset<X>)
      returns (addr: seq<nat>)
    requires Tidy(p, scope) && AtRest(f) && Gather(p, f) != multiset{}
    ensures var t := Touched(p, signal, addr, scope); t.Some? && f(t.value.step, t.value.leaf) != multiset{}
    decreases p
  {
    match p {
      case Action(_, _, _) => addr := [];
      case Sequence(head, _) =>
        if Completed(head, scope) { CompletedQuiet(head, scope, f); }
        addr := FindTouch(head, signal, scope, f);
      case Loop(body, _, _) =>
        if Completed(body, scope) { CompletedQuiet(body, scope, f); }
        addr := FindTouch(body, signal, scope, f);
      case Group(members, own, _) =>
        var i := SomeGathered(members, f);
        assert members[i] in members;
        var inner := FindTouch(members[i], Below(own, signal), scope, f);
        addr := [i] + inner;
        assert addr[1..] == inner;
      case Timed(body, own, _) =>
        var inner := FindTouch(body, Below(own, signal), scope, f);
        addr := [0] + inner;
        assert addr[1..] == inner;
    }
  }

  // ----- what the other moves leave -----

  function Elapsed(moves: seq<Move>): nat {
    if moves == [] then 0 else (if moves[0].Tick? then moves[0].ms else 0) + Elapsed(moves[1..])
  }

  function Registered(moves: seq<Move>): seq<Cleanup> {
    if moves == [] then [] else (if moves[0].Register? then [moves[0].cleanup] else []) + Registered(moves[1..])
  }

  function FirstAbort(moves: seq<Move>): Option<Fault> {
    if moves == [] then None else if moves[0].Abort? then Some(moves[0].reason) else FirstAbort(moves[1..])
  }

  lemma LeafKeeps(t: Touch, ev: Event, st: Store, env: Env)
    requires t.step.Task? || t.step.Poll?
    ensures Moved(t, ev, st, env).1.now == st.now && Moved(t, ev, st, env).1.cleanups == st.cleanups
  {
    if t.leaf.Reporting? { assert PutOutput(st, t.step.id, t.leaf.output).now == st.now; }
  }

  lemma StepKeeps(s: State, addr: seq<nat>, ev: Event, env: Env)
    ensures var st := Next(s.proc, s.abort, addr, ev, s.store, env).1;
            st.now == s.store.now && st.cleanups == s.store.cleanups
  {
    MoveStore(s.proc, s.abort, addr, ev, s.store, env);
    var t := Touched(s.proc, s.abort, addr, env.scope);
    if t.Some? { LeafKeeps(t.value, ev, s.store, env); }
  }

  lemma AdvanceAddsUp(s: State, m: Move, env: Env)
    ensures var t := Advance(s, m, env);
            && t.store.now == s.store.now + (if m.Tick? then m.ms else 0)
            && t.store.cleanups == s.store.cleanups + (if m.Register? then [m.cleanup] else [])
            && t.abort == if s.abort.None? && m.Abort? then Some(m.reason) else s.abort
  {
    if m.At? { StepKeeps(s, m.addr, m.ev, env); }
  }

  /** The clock goes on by the time that passes, the cleanups are those registered, in
      order, and the signal of the run keeps the reason it was first aborted for: no step
      changes any of them. */
  lemma {:induction false} OtherMovesAddUp(s: State, moves: seq<Move>, env: Env)
    ensures var t := Play(s, moves, env);
            && t.store.now == s.store.now + Elapsed(moves)
            && t.store.cleanups == s.store.cleanups + Registered(moves)
            && t.abort == if s.abort.Some? then s.abort else FirstAbort(moves)
    decreases |moves|
  {
    if moves != [] {
      var first := if moves[0].Register? then [moves[0].cleanup] else [];
      AdvanceAddsUp(s, moves[0], env);
      OtherMovesAddUp(Advance(s, moves[0], env), moves[1..], env);
      Associative(s.store.cleanups, first, Registered(moves[1..]));
    }
  }
}
