/** What a step that has failed or timed out can still do while the steps around it go on. */
module NestedFailFast {
  import opened Json
  import opened Steps
  import opened Template
  import opened Resolver
  import opened Interpreter
  import opened Moves
  import opened Attempts
  import opened FailFast
  import opened Runs

  // ----- an activity within the tree -----

  /** An activity and the signal it follows. */
  datatype Node = Node(proc: Proc, signal: Option<Fault>)

  /** The activity at an address, which names members of parallel steps and the inside of
      timers. */
  function NodeAt(p: Proc, signal: Option<Fault>, at: seq<nat>, scope: Scope): Option<Node>
    decreases p
  {
    match p
    case Sequence(head, _) => if Completed(head, scope) then None else NodeAt(head, signal, at, scope)
    case Loop(body, _, _) => if Completed(body, scope) then None else NodeAt(body, signal, at, scope)
    case Group(members, own, _) =>
      if at == [] then Some(Node(p, signal))
      else if at[0] < |members| then NodeAt(members[at[0]], Below(own, signal), at[1..], scope)
      else None
    case Timed(body, own, _) =>
      if at == [] then Some(Node(p, signal)) else NodeAt(body, Below(own, signal), at[1..], scope)
    case _ => if at == [] then Some(Node(p, signal)) else None
  }

  /** The address below the activity at `at` of a move at `addr`, if the move goes there. */
  function Rest(p: Proc, at: seq<nat>, addr: seq<nat>): Option<seq<nat>>
    decreases p
  {
    match p
    case Sequence(head, _) => Rest(head, at, addr)
    case Loop(body, _, _) => Rest(body, at, addr)
    case Group(members, _, _) =>
      if at == [] then Some(addr)
      else if addr != [] && addr[0] == at[0] && addr[0] < |members| then Rest(members[addr[0]], at[1..], addr[1..])
      else None
    case Timed(body, _, _) =>
      if at == [] then Some(addr) else if addr != [] then Rest(body, at[1..], addr[1..]) else None
    case _ => if at == [] then Some(addr) else None
  }

  predicate Failed(n: Option<Node>, scope: Scope) { n.Some? && Rejects(n.value.proc, scope) }

  lemma {:induction false} NodeSound(p: Proc, signal: Option<Fault>, at: seq<nat>, scope: Scope)
    requires Tidy(p, scope) && Guarded(p, signal, scope) && NodeAt(p, signal, at, scope).Some?
    ensures var n := NodeAt(p, signal, at, scope).value; Tidy(n.proc, scope) && Guarded(n.proc, n.signal, scope)
    decreases p
  {
    match p
    case Sequence(head, _) => NodeSound(head, signal, at, scope);
    case Loop(body, _, _) => NodeSound(body, signal, at, scope);
    case Group(members, own, _) =>
      if at != [] {
        assert members[at[0]] in members;
        NodeSound(members[at[0]], Below(own, signal), at[1..], scope);
      }
    case Timed(body, own, _) => if at != [] { NodeSound(body, Below(own, signal), at[1..], scope); }
    case _ =>
  }

  /** Nothing above what has failed is fulfilled. */
  lemma {:induction false} FailedBlocks(p: Proc, signal: Option<Fault>, at: seq<nat>, scope: Scope)
    requires Tidy(p, scope) && Failed(NodeAt(p, signal, at, scope), scope)
    ensures !Completed(p, scope)
    decreases p
  {
    match p
    case Group(members, own, _) =>
      if at != [] {
        assert members[at[0]] in members;
        FailedBlocks(members[at[0]], Below(own, signal), at[1..], scope);
      }
    case Timed(body, own, _) => if at != [] { FailedBlocks(body, Below(own, signal), at[1..], scope); }
    case _ =>
  }

  /** An abort higher up reaches the signal below and leaves the activity as it is. */
  lemma {:induction false} NodeAborted(
      p: Proc, signal: Option<Fault>, aborted: Option<Fault>, at: seq<nat>, scope: Scope)
    requires NodeAt(p, signal, at, scope).Some? && (signal.Some? ==> aborted.Some?)
    ensures var n, m := NodeAt(p, signal, at, scope), NodeAt(p, aborted, at, scope);
            m.Some? && m.value.proc == n.value.proc
    decreases p
  {
    match p
    case Sequence(head, _) => NodeAborted(head, signal, aborted, at, scope);
    case Loop(body, _, _) => NodeAborted(body, signal, aborted, at, scope);
    case Group(members, own, _) =>
      if at != [] { NodeAborted(members[at[0]], Below(own, signal), Below(own, aborted), at[1..], scope); }
    case Timed(body, own, _) =>
      if at != [] { NodeAborted(body, Below(own, signal), Below(own, aborted), at[1..], scope); }
    case _ =>
  }

  // ----- moves, seen from the activity -----

  /** What a move of the whole does to the activity that was `n`: a move of its own, or
      nothing. */
  predicate MovesNode(
      n: Node, rest: Option<seq<nat>>, ev: Event, st: Store, env: Env, after: Option<Node>, st': Store)
  {
    && Failed(after, env.scope)
    && match rest
       case None => after.value.proc == n.proc
       case Some(addr) => (after.value.proc, st') == Next(n.proc, n.signal, addr, ev, st, env)
  }

  /** Only the signal the activity follows is another. */
  predicate SameNode(a: Option<Node>, b: Option<Node>) { a.Some? && b.Some? && a.value.proc == b.value.proc }

  lemma OwnMoves(n: Node, addr: seq<nat>, ev: Event, st: Store, env: Env)
    requires Rejects(n.proc, env.scope)
    ensures var (p, st') := Next(n.proc, n.signal, addr, ev, st, env);
            MovesNode(n, Some(addr), ev, st, env, Some(Node(p, n.signal)), st')
  {
    RejectedStays(n.proc, n.signal, addr, ev, st, env);
  }

  lemma NextTidy(p: Proc, signal: Option<Fault>, addr: seq<nat>, ev: Event, st: Store, env: Env)
    requires Tidy(p, env.scope)
    ensures Tidy(Next(p, signal, addr, ev, st, env).0, env.scope)
  {
    var rest := MoveSwaps(p, signal, addr, ev, st, env, OpenKey);
  }

  lemma HeadMovesNode(
      head: Proc, code: seq<Block>, signal: Option<Fault>, at: seq<nat>, addr: seq<nat>, ev: Event, st: Store, env: Env)
    requires Tidy(head, env.scope) && Failed(NodeAt(head, signal, at, env.scope), env.scope)
    requires Failed(NodeAt(Next(head, signal, addr, ev, st, env).0, signal, at, env.scope), env.scope)
    ensures var h := Next(head, signal, addr, ev, st, env);
            && Next(Sequence(head, code), signal, addr, ev, st, env) == (Sequence(h.0, code), h.1)
            && NodeAt(Sequence(h.0, code), signal, at, env.scope) == NodeAt(h.0, signal, at, env.scope)
  {
    FailedBlocks(head, signal, at, env.scope);
    NextTidy(head, signal, addr, ev, st, env);
    FailedBlocks(Next(head, signal, addr, ev, st, env).0, signal, at, env.scope);
  }

  lemma BodyMovesNode(
      body: Proc, left: nat, again: Block, signal: Option<Fault>, at: seq<nat>, addr: seq<nat>, ev: Event, st: Store,
      env: Env)
    requires Tidy(body, env.scope) && Failed(NodeAt(body, signal, at, env.scope), env.scope)
    requires Failed(NodeAt(Next(body, signal, addr, ev, st, env).0, signal, at, env.scope), env.scope)
    ensures var b := Next(body, signal, addr, ev, st, env);
            && Next(Loop(body, left, again), signal, addr, ev, st, env) == (Loop(b.0, left, again), b.1)
            && NodeAt(Loop(b.0, left, again), signal, at, env.scope) == NodeAt(b.0, signal, at, env.scope)
  {
    FailedBlocks(body, signal, at, env.scope);
    NextTidy(body, signal, addr, ev, st, env);
    FailedBlocks(Next(body, signal, addr, ev, st, env).0, signal, at, env.scope);
  }

  /** A member moves: the activity below it is that of the member. */
  lemma MemberNode(
      members: seq<Proc>, i: nat, m: Proc, own: Option<Fault>, out: Option<Outcome>, signal: Option<Fault>,
      at: seq<nat>, scope: Scope)
    requires i < |members| && at != [] && at[0] < |members|
    requires NodeAt(members[i := m][at[0]], Below(own, signal), at[1..], scope).Some?
    ensures SameNode(NodeAt(GroupAfter(members, i, m, own, out, signal, scope), signal, at, scope),
                     NodeAt(members[i := m][at[0]], Below(own, signal), at[1..], scope))
  {
    var after := GroupAfter(members, i, m, own, out, signal, scope);
    NodeAborted(members[i := m][at[0]], Below(own, signal), Below(after.own, signal), at[1..], scope);
  }

  lemma TimerNode(
      body: Proc, own: Option<Fault>, out: Option<Outcome>, signal: Option<Fault>, at: seq<nat>, ev: Event, st: Store,
      env: Env)
    requires at != [] && NodeAt(body, Below(own, signal), at[1..], env.scope).Some?
    ensures SameNode(NodeAt(Next(Timed(body, own, out), signal, [], ev, st, env).0, signal, at, env.scope),
                     NodeAt(body, Below(own, signal), at[1..], env.scope))
  {
    NodeAborted(body, Below(own, signal), Some(Timeout), at[1..], env.scope);
  }

  predicate NodeMoves(
      p: Proc, signal: Option<Fault>, at: seq<nat>, addr: seq<nat>, ev: Event, st: Store, env: Env)
    requires NodeAt(p, signal, at, env.scope).Some?
  {
    var n := NodeAt(p, signal, at, env.scope).value;
    var (p', st') := Next(p, signal, addr, ev, st, env);
    && MovesNode(n, Rest(p, at, addr), ev, st, env, NodeAt(p', signal, at, env.scope), st')
    && match Rest(p, at, addr)
       case None => true
       case Some(rest) => Touched(p, signal, addr, env.scope) == Touched(n.proc, n.signal, rest, env.scope)
  }

  lemma GroupMovesNode(
      members: seq<Proc>, own: Option<Fault>, out: Option<Outcome>, signal: Option<Fault>, at: seq<nat>,
      addr: seq<nat>, ev: Event, st: Store, env: Env)
    requires at != [] && at[0] < |members|
    requires Failed(NodeAt(members[at[0]], Below(own, signal), at[1..], env.scope), env.scope)
    requires addr != [] && addr[0] == at[0] ==>
               NodeMoves(members[at[0]], Below(own, signal), at[1..], addr[1..], ev, st, env)
    ensures NodeMoves(Group(members, own, out), signal, at, addr, ev, st, env)
  {
    if addr != [] && addr[0] < |members| {
      var m := Next(members[addr[0]], Below(own, signal), addr[1..], ev, st, env).0;
      MemberNode(members, addr[0], m, own, out, signal, at, env.scope);
    }
  }

  lemma TimedMovesNode(
      body: Proc, own: Option<Fault>, out: Option<Outcome>, signal: Option<Fault>, at: seq<nat>, addr: seq<nat>,
      ev: Event, st: Store, env: Env)
    requires at != [] && Failed(NodeAt(body, Below(own, signal), at[1..], env.scope), env.scope)
    requires addr != [] ==> NodeMoves(body, Below(own, signal), at[1..], addr[1..], ev, st, env)
    ensures NodeMoves(Timed(body, own, out), signal, at, addr, ev, st, env)
  {
    if addr == [] { TimerNode(body, own, out, signal, at, ev, st, env); }
  }

  /** A move of the tree is a move of the activity that failed, or leaves it as it is. */
  lemma {:induction false} NextMovesNode(
      p: Proc, signal: Option<Fault>, at: seq<nat>, addr: seq<nat>, ev: Event, st: Store, env: Env)
    requires Tidy(p, env.scope) && Failed(NodeAt(p, signal, at, env.scope), env.scope)
    ensures NodeMoves(p, signal, at, addr, ev, st, env)
    decreases p
  {
    match p {
      case Sequence(head, code) =>
        NextMovesNode(head, signal, at, addr, ev, st, env);
        HeadMovesNode(head, code, signal, at, addr, ev, st, env);
      case Loop(body, left, again) =>
        NextMovesNode(body, signal, at, addr, ev, st, env);
        BodyMovesNode(body, left, again, signal, at, addr, ev, st, env);
      case Group(members, own, out) =>
        if at == [] {
          OwnMoves(Node(p, signal), addr, ev, st, env);
        } else {
          assert members[at[0]] in members;
          if addr != [] && addr[0] == at[0] {
            NextMovesNode(members[at[0]], Below(own, signal), at[1..], addr[1..], ev, st, env);
          }
          GroupMovesNode(members, own, out, signal, at, addr, ev, st, env);
        }
      case Timed(body, own, out) =>
        if at == [] {
          OwnMoves(Node(p, signal), addr, ev, st, env);
        } else {
          if addr != [] { NextMovesNode(body, Below(own, signal), at[1..], addr[1..], ev, st, env); }
          TimedMovesNode(body, own, out, signal, at, addr, ev, st, env);
        }
      case _ => OwnMoves(Node(p, signal), addr, ev, st, env);
    }
  }

  // ----- what it still does -----

  /** The effect of a move on the activity at `at`. */
  function EffectBelow(s: State, m: Move, at: seq<nat>, env: Env): Effect {
    if m.At? && Rest(s.proc, at, m.addr).Some? then EffectOfMove(s, m, env) else Nothing
  }

  /** What a schedule does there, out of the history of the whole. */
  function HistoryBelow(s: State, moves: seq<Move>, at: seq<nat>, env: Env): seq<Effect>
    decreases |moves|
  {
    if moves == [] then []
    else [EffectBelow(s, moves[0], at, env)] + HistoryBelow(Advance(s, moves[0], env), moves[1..], at, env)
  }

  /** The handlers called and the outputs left in a history. */
  function CallsOf(h: seq<Effect>): seq<Invocation> {
    if h == [] then [] else InvokedBy(h[0]) + CallsOf(h[1..])
  }

  function InvokedBy(e: Effect): seq<Invocation> {
    if e.Invoked? && WellFormed(e) then [Invocation(e.step.id, e.number, e.step.call)] else []
  }

  function Outputs(h: seq<Effect>): seq<(string, Value)> { if h == [] then [] else OutputsBy(h[0]) + Outputs(h[1..]) }

  function OutputsBy(e: Effect): seq<(string, Value)> {
    if e.Delivered? && e.output.Some? then [(e.step.id, e.output.value)] else []
  }

  predicate NoneBegins(h: seq<Effect>) { forall e | e in h :: !e.Began? }

  lemma CallGives(step: Step, leaf: Leaf, leaf': Leaf)
    requires (step.Task? || step.Poll?) && (leaf'.Announced? ==> leaf' == leaf)
    ensures var e := EffectOf(step, leaf, leaf');
            WellFormed(e) && !e.Began? && CallDue(step, leaf) == multiset(InvokedBy(e)) + CallDue(step, leaf')
  {
    var e := EffectOf(step, leaf, leaf');
    if leaf.Announced? && !leaf'.Announced? {
      assert e == Invoked(step, leaf.number) && CallDue(step, leaf') == multiset{};
      assert CallDue(step, leaf) == multiset(InvokedBy(e));
    } else {
      assert InvokedBy(e) == [] && CallDue(step, leaf') == CallDue(step, leaf);
    }
  }

  /** A passing attempt stays one until it delivers. */
  predicate StillPassing(leaf: Leaf, leaf': Leaf) {
    if leaf.Reporting? && !leaf'.Reporting? then !Passing(leaf')
    else (Passing(leaf') <==> Passing(leaf)) && (Passing(leaf) ==> OutputOf(leaf') == OutputOf(leaf))
  }

  lemma UndoGives(step: Step, leaf: Leaf, leaf': Leaf)
    requires StillPassing(leaf, leaf')
    ensures UndoDue(step, leaf) == multiset(GainedBy(EffectOf(step, leaf, leaf'))) + UndoDue(step, leaf')
  {
  }

  lemma OutputGives(step: Step, leaf: Leaf, leaf': Leaf)
    requires StillPassing(leaf, leaf')
    ensures OutputDue(step, leaf) == multiset(OutputsBy(EffectOf(step, leaf, leaf'))) + OutputDue(step, leaf')
  {
  }

  predicate LeafGave(step: Step, leaf: Leaf, leaf': Leaf, e: Effect) {
    && WellFormed(e) && !e.Began?
    && CallDue(step, leaf) == multiset(InvokedBy(e)) + CallDue(step, leaf')
    && UndoDue(step, leaf) == multiset(GainedBy(e)) + UndoDue(step, leaf')
    && OutputDue(step, leaf) == multiset(OutputsBy(e)) + OutputDue(step, leaf')
  }

  /** What a step that sees an aborted signal gives: its calls, compensations and outputs
      come out of those due. */
  lemma LeafGives(t: Touch, ev: Event, st: Store, env: Env)
    requires (t.step.Task? || t.step.Poll?) && (t.signal.Some? || t.leaf.Ended?)
    ensures var leaf' := Moved(t, ev, st, env).0; LeafGave(t.step, t.leaf, leaf', EffectOf(t.step, t.leaf, leaf'))
  {
    var leaf' := Moved(t, ev, st, env).0;
    LeafSpent(t, ev, st, env);
    CallGives(t.step, t.leaf, leaf');
    UndoGives(t.step, t.leaf, leaf');
    OutputGives(t.step, t.leaf, leaf');
  }

  lemma GivesWithin<T>(rest: multiset<T>, due: multiset<T>, given: multiset<T>, left: multiset<T>)
    requires due == given + left
    ensures rest + due == given + (rest + left)
  {
  }

  /** An effect takes what it gives from what is due below an activity, and begins nothing. */
  predicate Gives(e: Effect, before: Proc, after: Proc)
    requires WellFormed(e)
  {
    && !e.Began?
    && Gather(before, CallDue) == multiset(InvokedBy(e)) + Gather(after, CallDue)
    && Gather(before, UndoDue) == multiset(GainedBy(e)) + Gather(after, UndoDue)
    && Gather(before, OutputDue) == multiset(OutputsBy(e)) + Gather(after, OutputDue)
  }

  lemma TouchGives(s: State, addr: seq<nat>, ev: Event, env: Env, t: Touch, after: Proc, e: Effect)
    requires Tidy(s.proc, env.scope) && Touched(s.proc, s.abort, addr, env.scope) == Some(t)
    requires (t.step.Task? || t.step.Poll?) && after == Next(s.proc, s.abort, addr, ev, s.store, env).0
    requires LeafGave(t.step, t.leaf, Moved(t, ev, s.store, env).0, e)
    ensures Gives(e, s.proc, after)
  {
    var leaf' := Moved(t, ev, s.store, env).0;
    DuesRest();
    SwapGives(s, addr, ev, env, t, leaf', after, CallDue, multiset(InvokedBy(e)));
    SwapGives(s, addr, ev, env, t, leaf', after, UndoDue, multiset(GainedBy(e)));
    SwapGives(s, addr, ev, env, t, leaf', after, OutputDue, multiset(OutputsBy(e)));
  }

  lemma DuesRest()
    ensures AtRest(CallDue) && AtRest(UndoDue) && AtRest(OutputDue)
  {
  }

  lemma SwapGives<T>(
      s: State, addr: seq<nat>, ev: Event, env: Env, t: Touch, leaf': Leaf, after: Proc,
      f: (Step, Leaf) -> multiset<T>, given: multiset<T>)
    requires Tidy(s.proc, env.scope) && Touched(s.proc, s.abort, addr, env.scope) == Some(t) && AtRest(f)
    requires (t.step.Task? || t.step.Poll?) && after == Next(s.proc, s.abort, addr, ev, s.store, env).0
    requires leaf' == Moved(t, ev, s.store, env).0 && f(t.step, t.leaf) == given + f(t.step, leaf')
    ensures Gather(s.proc, f) == given + Gather(after, f)
  {
    var rest := TouchSwaps(s.proc, s.abort, addr, ev, s.store, env, t, f);
    GivesWithin(rest, f(t.step, t.leaf), given, f(t.step, leaf'));
  }

  lemma NothingGives(before: Proc, after: Proc)
    requires Gather(after, CallDue) == Gather(before, CallDue)
    requires Gather(after, UndoDue) == Gather(before, UndoDue)
    requires Gather(after, OutputDue) == Gather(before, OutputDue)
    ensures Gives(Nothing, before, after)
  {
  }

  /** A move of its own. */
  lemma OwnGives(n: Node, addr: seq<nat>, ev: Event, st: Store, env: Env, after: Proc)
    requires Tidy(n.proc, env.scope) && Guarded(n.proc, n.signal, env.scope) && Rejects(n.proc, env.scope)
    requires after == Next(n.proc, n.signal, addr, ev, st, env).0
    ensures var e := EffectOfTouch(Touched(n.proc, n.signal, addr, env.scope), ev, st, env);
            WellFormed(e) && Gives(e, n.proc, after)
  {
    var s := State(n.proc, n.signal, st);
    RejectedTouch(n.proc, n.signal, addr, env.scope);
    match Touched(n.proc, n.signal, addr, env.scope)
    case None =>
      NoSwap(n.proc, n.signal, addr, ev, st, env, CallDue);
      NoSwap(n.proc, n.signal, addr, ev, st, env, UndoDue);
      NoSwap(n.proc, n.signal, addr, ev, st, env, OutputDue);
      NothingGives(n.proc, after);
    case Some(t) =>
      LeafGives(t, ev, st, env);
      TouchGives(s, addr, ev, env, t, after, EffectOf(t.step, t.leaf, Moved(t, ev, st, env).0));
  }

  /** The activity at `at` in a state. */
  function Place(s: State, at: seq<nat>, scope: Scope): Option<Node> { NodeAt(s.proc, s.abort, at, scope) }

  /** A state whose activity at `at` has failed. */
  predicate HasFailed(s: State, at: seq<nat>, scope: Scope) {
    Tidy(s.proc, scope) && Guarded(s.proc, s.abort, scope) && Failed(Place(s, at, scope), scope)
  }

  /** A move at some address, as the activity sees it. */
  lemma StepGives(s: State, addr: seq<nat>, ev: Event, at: seq<nat>, env: Env, n: Node, after: Node, t: State)
    requires HasFailed(s, at, env.scope) && Place(s, at, env.scope) == Some(n)
    requires Next(s.proc, s.abort, addr, ev, s.store, env) == (t.proc, t.store) && t.abort == s.abort
    requires MovesNode(n, Rest(s.proc, at, addr), ev, s.store, env, Some(after), t.store)
    requires Rest(s.proc, at, addr).Some? ==>
               Touched(s.proc, s.abort, addr, env.scope) ==
               Touched(n.proc, n.signal, Rest(s.proc, at, addr).value, env.scope)
    ensures var e := EffectBelow(s, At(addr, ev), at, env); WellFormed(e) && Gives(e, n.proc, after.proc)
  {
    match Rest(s.proc, at, addr)
    case None => NothingGives(n.proc, after.proc);
    case Some(rest) =>
      NodeSound(s.proc, s.abort, at, env.scope);
      OwnGives(n, rest, ev, s.store, env, after.proc);
  }

  lemma OtherGives(s: State, m: Move, at: seq<nat>, env: Env)
    requires HasFailed(s, at, env.scope) && !m.At?
    ensures SameNode(Place(Advance(s, m, env), at, env.scope), Place(s, at, env.scope))
    ensures Gives(Nothing, Place(s, at, env.scope).value.proc, Place(Advance(s, m, env), at, env.scope).value.proc)
  {
    NodeAborted(s.proc, s.abort, Advance(s, m, env).abort, at, env.scope);
    NothingGives(Place(s, at, env.scope).value.proc, Place(s, at, env.scope).value.proc);
  }

  lemma MoveGives(s: State, m: Move, at: seq<nat>, env: Env)
    requires HasFailed(s, at, env.scope)
    ensures var e, t := EffectBelow(s, m, at, env), Advance(s, m, env);
            && HasFailed(t, at, env.scope) && WellFormed(e)
            && OutcomeOf(Place(t, at, env.scope).value.proc, env.scope) ==
               OutcomeOf(Place(s, at, env.scope).value.proc, env.scope)
            && Gives(e, Place(s, at, env.scope).value.proc, Place(t, at, env.scope).value.proc)
  {
    var t := Advance(s, m, env);
    var n := Place(s, at, env.scope).value;
    MoveTidy(s, m, env);
    AdvanceGuarded(s, m, env);
    if m.At? {
      NextMovesNode(s.proc, s.abort, at, m.addr, m.ev, s.store, env);
      var rest := Rest(s.proc, at, m.addr);
      if rest.Some? { RejectedStays(n.proc, n.signal, rest.value, m.ev, s.store, env); }
      StepGives(s, m.addr, m.ev, at, env, n, Place(t, at, env.scope).value, t);
    } else {
      OtherGives(s, m, at, env);
    }
  }

  lemma Together<T>(a: multiset<T>, x: multiset<T>, b: multiset<T>, y: multiset<T>, c: multiset<T>)
    requires a == x + b && b == y + c
    ensures a == (x + y) + c
  {
  }

  /** What a history takes from what is due below an activity. */
  predicate GivesAll(h: seq<Effect>, before: Proc, after: Proc) {
    && NoneBegins(h)
    && Gather(before, CallDue) == multiset(CallsOf(h)) + Gather(after, CallDue)
    && Gather(before, UndoDue) == multiset(Gains(h)) + Gather(after, UndoDue)
    && Gather(before, OutputDue) == multiset(Outputs(h)) + Gather(after, OutputDue)
  }

  lemma GivesCons(h: seq<Effect>, a: Proc, b: Proc, c: Proc)
    requires h != [] && WellFormed(h[0]) && Formed(h[1..]) && Gives(h[0], a, b) && GivesAll(h[1..], b, c)
    ensures Formed(h) && GivesAll(h, a, c)
  {
    FormedCons(h);
    forall e | e in h ensures !e.Began? { if e != h[0] { assert e in h[1..]; } }
    Together(Gather(a, CallDue), multiset(InvokedBy(h[0])), Gather(b, CallDue),
             multiset(CallsOf(h[1..])), Gather(c, CallDue));
    Together(Gather(a, UndoDue), multiset(GainedBy(h[0])), Gather(b, UndoDue),
             multiset(Gains(h[1..])), Gather(c, UndoDue));
    Together(Gather(a, OutputDue), multiset(OutputsBy(h[0])), Gather(b, OutputDue),
             multiset(Outputs(h[1..])), Gather(c, OutputDue));
  }

  /** Once a step below has failed or timed out, wherever it stands and whatever goes on
      around it: it keeps its fault, and out of it no attempt begins any more; the handlers
      that are still called there, and the compensations and outputs that are still left,
      are those that were due there, each at most once. */
  lemma {:induction false} FailedConserves(s: State, moves: seq<Move>, at: seq<nat>, env: Env)
    requires HasFailed(s, at, env.scope)
    ensures var t, h := Play(s, moves, env), HistoryBelow(s, moves, at, env);
            && HasFailed(t, at, env.scope) && Formed(h)
            && OutcomeOf(Place(t, at, env.scope).value.proc, env.scope) ==
               OutcomeOf(Place(s, at, env.scope).value.proc, env.scope)
            && GivesAll(h, Place(s, at, env.scope).value.proc, Place(t, at, env.scope).value.proc)
    decreases |moves|
  {
    if moves == [] {
      NothingGivesAll(Place(s, at, env.scope).value.proc);
    } else {
      var t := Advance(s, moves[0], env);
      var end := Play(t, moves[1..], env);
      var h := HistoryBelow(s, moves, at, env);
      MoveGives(s, moves[0], at, env);
      FailedConserves(t, moves[1..], at, env);
      assert h[0] == EffectBelow(s, moves[0], at, env) && h[1..] == HistoryBelow(t, moves[1..], at, env);
      GivesCons(h, Place(s, at, env.scope).value.proc, Place(t, at, env.scope).value.proc,
                Place(end, at, env.scope).value.proc);
    }
  }

  /** So it is in every phase, from the moment on in which a parallel step in it has failed
      or a step in it has timed out. */
  lemma StepFailsFast(
      code: Block, before: seq<Move>, after: seq<Move>, at: seq<nat>, abort: Option<Fault>, st: Store, env: Env)
    requires Failed(Place(Play(State(Run(code), abort, st), before, env), at, env.scope), env.scope)
    ensures var s := Play(State(Run(code), abort, st), before, env);
            var t, h := Play(s, after, env), HistoryBelow(s, after, at, env);
            && Failed(Place(t, at, env.scope), env.scope)
            && OutcomeOf(Place(t, at, env.scope).value.proc, env.scope) ==
               OutcomeOf(Place(s, at, env.scope).value.proc, env.scope)
            && GivesAll(h, Place(s, at, env.scope).value.proc, Place(t, at, env.scope).value.proc)
  {
    var start := State(Run(code), abort, st);
    FreshRun(code, env.scope);
    HistoryExplains(start, before, env);
    PlayGuarded(start, before, env);
    FailedConserves(Play(start, before, env), after, at, env);
  }

  lemma NothingGivesAll(p: Proc)
    ensures GivesAll([], p, p)
  {
  }
}
