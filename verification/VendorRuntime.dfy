/** The request handler generated for a stateful simulated vendor: response-sequence
    cursors, per-state request counters and state changes, over any request stream. */
module VendorRuntime {
  import opened Json
  import opened Texts
  import opened Arithmetic

  datatype Response = Response(status: nat, content: Option<string>, delayMs: Option<nat>, closes: bool)

  datatype StateDef = StateDef(defaultDelayMs: Option<nat>, override: Option<Response>)

  datatype Exhausted = RepeatLast | Cycle | Terminal

  datatype SequenceStep = SequenceStep(behavior: Response, setState: Option<string>)

  /** `terminal` is the response of an exhausted `Terminal` sequence. */
  datatype Sequence = Sequence(onExhausted: Exhausted, steps: seq<SequenceStep>, terminal: Response)

  /** A case of an operation; `behavior` answers when there is no sequence. */
  datatype Case = Case(
    operationId: string, caseId: string, behavior: Response, sequence: Option<Sequence>, setState: Option<string>)
  {
    function Key(): string { operationId + "." + caseId }
  }

  datatype Transition = Transition(from: string, to: string, atLeast: nat)

  datatype Vendor = Vendor(initial: string, states: map<string, StateDef>, transitions: seq<Transition>)

  datatype Stores = Stores(state: string, counters: map<string, nat>, cursors: map<string, nat>)

  /** What the handler logs and answers: the state that served the request and its
      request count, the sequence index if any, and the response. */
  datatype Reply = Reply(state: string, count: nat, index: Option<nat>, response: Response)

  /** The stores as they are preloaded. */
  function Preload(v: Vendor): Stores { Stores(v.initial, map s | s in v.states :: 0, map[]) }

  // ----- one request -----

  datatype Selection = Selection(behavior: Response, setState: Option<string>, index: nat, cursor: nat)

  function Select(s: Sequence, index: nat): Selection
    requires s.steps != []
  {
    var n := |s.steps|;
    var terminal := index >= n && s.onExhausted.Terminal?;
    var selected :=
      if index < n || terminal then index
      else if s.onExhausted.Cycle? then index % n
      else n - 1;
    var cursor :=
      if s.onExhausted.Cycle? then (index + 1) % n
      else if !terminal && selected < n - 1 then selected + 1
      else n;
    if terminal then Selection(s.terminal, None, index, cursor)
    else Selection(s.steps[selected].behavior, s.steps[selected].setState, selected, cursor)
  }

  function CursorOf(st: Stores, key: string): nat { if key in st.cursors then st.cursors[key] else 0 }

  function CountOf(st: Stores, state: string): nat { if state in st.counters then st.counters[state] else 0 }

  /** The state override replaces the response; otherwise the state's delay fills in. */
  function ApplyState(behavior: Response, def: Option<StateDef>): Response {
    match def
    case None => behavior
    case Some(d) =>
      if d.override.Some? then d.override.value
      else if behavior.delayMs.None? then behavior.(delayMs := d.defaultDelayMs)
      else behavior
  }

  function StateDefOf(v: Vendor, state: string): Option<StateDef> {
    if state in v.states then Some(v.states[state])
    else if v.initial in v.states then Some(v.states[v.initial])
    else None
  }

  /** The first transition out of `state` whose threshold is reached. */
  function FirstTransition(ts: seq<Transition>, state: string, count: nat): Option<string> {
    if ts == [] then None
    else if ts[0].from == state && count >= ts[0].atLeast then Some(ts[0].to)
    else FirstTransition(ts[1..], state, count)
  }

  /** A sequence step's state wins over the case's; either wins over the transitions. */
  function NextState(v: Vendor, c: Case, step: Option<string>, state: string, count: nat): Option<string> {
    if step.Some? then step
    else if c.setState.Some? then c.setState
    else FirstTransition(v.transitions, state, count)
  }

  function Enter(st: Stores, next: Option<string>): Stores {
    if next.None? || next.value == st.state then st
    else
      Stores(next.value, if next.value in st.counters then st.counters else st.counters[next.value := 0], st.cursors)
  }

  predicate Playable(c: Case) { c.sequence.Some? ==> c.sequence.value.steps != [] }

  function Serve(v: Vendor, c: Case, st: Stores): (Reply, Stores)
    requires Playable(c)
  {
    var count := CountOf(st, st.state) + 1;
    var counted := st.(counters := st.counters[st.state := count]);
    match c.sequence
    case None =>
      (Reply(st.state, count, None, ApplyState(c.behavior, StateDefOf(v, st.state))),
       Enter(counted, NextState(v, c, None, st.state, count)))
    case Some(s) =>
      var sel := Select(s, CursorOf(st, c.Key()));
      (Reply(st.state, count, Some(sel.index), ApplyState(sel.behavior, StateDefOf(v, st.state))),
       Enter(counted.(cursors := st.cursors[c.Key() := sel.cursor]), NextState(v, c, sel.setState, st.state, count)))
  }

  /** The generated script over its three stores. */
  class Handler {
    const vendor: Vendor
    var state: string
    var counters: map<string, nat>
    var cursors: map<string, nat>

    constructor (vendor: Vendor)
      ensures this.vendor == vendor && Contents() == Preload(vendor)
    {
      this.vendor := vendor;
      state, counters, cursors := vendor.initial, map s | s in vendor.states :: 0, map[];
    }

    function Contents(): Stores
      reads this
    {
      Stores(state, counters, cursors)
    }

    method Handle(c: Case) returns (reply: Reply)
      requires Playable(c)
      modifies this
      ensures (reply, Contents()) == Serve(vendor, c, old(Contents()))
    {
      var current := state;
      var count := (if current in counters then counters[current] else 0) + 1;
      counters := counters[current := count];
      var behavior, explicit, index := c.behavior, c.setState, None;
      if c.sequence.Some? {
        var key := c.Key();
        var sel := Select(c.sequence.value, if key in cursors then cursors[key] else 0);
        cursors := cursors[key := sel.cursor];
        behavior, index := sel.behavior, Some(sel.index);
        if sel.setState.Some? { explicit := sel.setState; }
      }
      reply := Reply(current, count, index, ApplyState(behavior, StateDefOf(vendor, current)));
      var next := explicit;
      if next.None? {
        var i := 0;
        while i < |vendor.transitions| && next.None?
          invariant 0 <= i <= |vendor.transitions|
          invariant next.None? ==>
                      FirstTransition(vendor.transitions, current, count) ==
                      FirstTransition(vendor.transitions[i..], current, count)
          invariant next.Some? ==> FirstTransition(vendor.transitions, current, count) == next
          decreases |vendor.transitions| - i, next.None?
        {
          var t := vendor.transitions[i];
          if t.from == current && count >= t.atLeast { next := Some(t.to); } else { i := i + 1; }
        }
      }
      if next.Some? && next.value != current {
        state := next.value;
        if next.value !in counters { counters := counters[next.value := 0]; }
      }
    }
  }

  // ----- streams of requests -----

  predicate AllPlayable(stream: seq<Case>) { forall c | c in stream :: Playable(c) }

  /** The replies to a stream of requests, and the stores after it. */
  function Replies(v: Vendor, stream: seq<Case>, st: Stores): (r: seq<Reply>)
    requires AllPlayable(stream)
    ensures |r| == |stream|
  {
    if stream == [] then []
    else [Serve(v, stream[0], st).0] + Replies(v, stream[1..], Serve(v, stream[0], st).1)
  }

  function After(v: Vendor, stream: seq<Case>, st: Stores): Stores
    requires AllPlayable(stream)
  {
    if stream == [] then st else After(v, stream[1..], Serve(v, stream[0], st).1)
  }

  lemma {:induction false} AfterSnoc(v: Vendor, stream: seq<Case>, c: Case, st: Stores)
    requires AllPlayable(stream) && Playable(c)
    ensures AllPlayable(stream + [c])
    ensures After(v, stream + [c], st) == Serve(v, c, After(v, stream, st)).1
    ensures Replies(v, stream + [c], st) == Replies(v, stream, st) + [Serve(v, c, After(v, stream, st)).0]
  {
    if stream == [] {
      assert [c][1..] == [] && stream + [c] == [c];
    } else {
      assert (stream + [c])[1..] == stream[1..] + [c];
      AfterSnoc(v, stream[1..], c, Serve(v, stream[0], st).1);
    }
  }

  // ----- response sequences -----

  /** Which step answers the k-th request to a sequence; `None` is the terminal response. */
  function StepAt(s: Sequence, k: nat): Option<nat>
    requires s.steps != []
  {
    var n := |s.steps|;
    match s.onExhausted
    case Cycle => Some(k % n)
    case RepeatLast => Some(if k < n then k else n - 1)
    case Terminal => if k < n then Some(k) else None
  }

  function CursorAt(s: Sequence, k: nat): nat
    requires s.steps != []
  {
    var n := |s.steps|;
    if s.onExhausted.Cycle? then k % n else if k < n then k else n
  }

  lemma NextRemainder(k: nat, n: nat)
    requires n > 0
    ensures (k + 1) % n == if k % n + 1 == n then 0 else k % n + 1
    ensures (k % n + 1) % n == (k + 1) % n
  {
    var q := k / n;
    QuotientRemainder(k, n);
    if k % n + 1 == n {
      assert (q + 1) * n == q * n + n;
      DivisionUnique(k + 1, n, q + 1, 0);
      DivisionUnique(n, n, 1, 0);
    } else {
      DivisionUnique(k + 1, n, q, k % n + 1);
      DivisionUnique(k % n + 1, n, 0, k % n + 1);
    }
  }

  lemma SelectClosedForm(s: Sequence, k: nat)
    requires s.steps != []
    ensures var sel := Select(s, CursorAt(s, k));
            sel.cursor == CursorAt(s, k + 1) &&
            match StepAt(s, k)
            case Some(i) =>
              && i < |s.steps| && sel.behavior == s.steps[i].behavior
              && sel.setState == s.steps[i].setState && sel.index == i
            case None => sel.behavior == s.terminal && sel.setState == None && sel.index == |s.steps|
  {
    NextRemainder(k, |s.steps|);
    QuotientRemainder(k, |s.steps|);
  }

  /** How many requests of the stream go to the cursor `key`. */
  function Hits(stream: seq<Case>, key: string): nat {
    if stream == [] then 0
    else Hits(stream[..|stream| - 1], key) + if stream[|stream| - 1].Key() == key then 1 else 0
  }

  /** Cases with the same cursor key are the same case. */
  predicate KeysIdentify(cases: set<Case>) {
    forall c, d | c in cases && d in cases && c.Key() == d.Key() :: c == d
  }

  predicate From(stream: seq<Case>, cases: set<Case>) { forall c | c in stream :: c in cases }

  lemma CursorServed(v: Vendor, served: Case, c: Case, st: Stores, k: nat)
    requires Playable(served) && Playable(c) && c.sequence.Some? && (served.Key() == c.Key() ==> served == c)
    requires CursorOf(st, c.Key()) == CursorAt(c.sequence.value, k)
    ensures CursorOf(Serve(v, served, st).1, c.Key()) ==
            CursorAt(c.sequence.value, if served.Key() == c.Key() then k + 1 else k)
  {
    SelectClosedForm(c.sequence.value, k);
  }

  lemma CursorStarts(s: Sequence)
    requires s.steps != []
    ensures CursorAt(s, 0) == 0
  {
    DivisionUnique(0, |s.steps|, 0, 0);
  }

  lemma HitsSnoc(stream: seq<Case>, last: Case, key: string)
    ensures Hits(stream + [last], key) == if last.Key() == key then Hits(stream, key) + 1 else Hits(stream, key)
  {
    assert (stream + [last])[..|stream|] == stream;
  }

  /** One more request moves the cursor of `c` only if it is a request to `c`. */
  lemma CursorAdvances(v: Vendor, before: seq<Case>, last: Case, c: Case)
    requires AllPlayable(before) && Playable(last) && Playable(c) && c.sequence.Some?
    requires last.Key() == c.Key() ==> last == c
    requires CursorOf(After(v, before, Preload(v)), c.Key()) == CursorAt(c.sequence.value, Hits(before, c.Key()))
    ensures AllPlayable(before + [last])
    ensures CursorOf(After(v, before + [last], Preload(v)), c.Key()) ==
            CursorAt(c.sequence.value, Hits(before + [last], c.Key()))
  {
    AfterSnoc(v, before, last, Preload(v));
    CursorServed(v, last, c, After(v, before, Preload(v)), Hits(before, c.Key()));
    HitsSnoc(before, last, c.Key());
  }

  lemma PrefixOf(stream: seq<Case>, cases: set<Case>)
    requires stream != [] && From(stream, cases) && AllPlayable(stream)
    ensures var before, last := stream[..|stream| - 1], stream[|stream| - 1];
            && stream == before + [last]
            && From(before, cases) && AllPlayable(before)
            && last in cases && Playable(last)
  {
    assert stream[|stream| - 1] in stream;
  }

  /** The cursor of a case depends only on how often that case was requested. */
  lemma {:induction false} CursorClosedForm(v: Vendor, cases: set<Case>, stream: seq<Case>, c: Case)
    requires KeysIdentify(cases) && From(stream, cases) && c in cases && AllPlayable(stream)
    requires Playable(c) && c.sequence.Some?
    ensures CursorOf(After(v, stream, Preload(v)), c.Key()) == CursorAt(c.sequence.value, Hits(stream, c.Key()))
    decreases |stream|
  {
    if stream != [] {
      var before, last := stream[..|stream| - 1], stream[|stream| - 1];
      PrefixOf(stream, cases);
      CursorClosedForm(v, cases, before, c);
      assert last.Key() == c.Key() ==> last == c;
      CursorAdvances(v, before, last, c);
    } else {
      CursorStarts(c.sequence.value);
    }
  }

  /** In any stream over cases with distinct cursor keys, the k-th request to a case
      is answered by the step its policy names, whatever the other cases do, and the
      cursor never leaves [0, n]. */
  lemma SequenceClosedForm(v: Vendor, cases: set<Case>, stream: seq<Case>, c: Case)
    requires KeysIdentify(cases) && From(stream, cases) && c in cases && AllPlayable(stream)
    requires Playable(c) && c.sequence.Some?
    ensures var s, k, st := c.sequence.value, Hits(stream, c.Key()), After(v, stream, Preload(v));
            var reply := Serve(v, c, st).0;
            && CursorOf(st, c.Key()) <= |s.steps|
            && match StepAt(s, k)
               case Some(i) =>
                 && i < |s.steps| && reply.index == Some(i)
                 && reply.response == ApplyState(s.steps[i].behavior, StateDefOf(v, st.state))
               case None => reply.response == ApplyState(s.terminal, StateDefOf(v, st.state))
  {
    CursorClosedForm(v, cases, stream, c);
    SelectClosedForm(c.sequence.value, Hits(stream, c.Key()));
  }

  /** Ids without dots give distinct cursor keys. */
  lemma KeysDistinct(c: Case, d: Case)
    requires '.' !in c.operationId && '.' !in d.operationId
    requires c.Key() == d.Key()
    ensures c.operationId == d.operationId && c.caseId == d.caseId
  {
    assert c.operationId + (['.'] + c.caseId) == c.Key();
    assert d.operationId + (['.'] + d.caseId) == d.Key();
    FirstSeparator('.', c.operationId, d.operationId, c.caseId, d.caseId);
  }

  // ----- counters -----

  /** What package and compiler validation establish: every state named is declared. */
  predicate Closed(v: Vendor, cases: set<Case>) {
    && v.initial in v.states
    && (forall t | t in v.transitions :: t.from in v.states && t.to in v.states)
    && forall c | c in cases :: EffectsDeclared(v, c)
  }

  predicate EffectsDeclared(v: Vendor, c: Case) {
    && (c.setState.Some? ==> c.setState.value in v.states)
    && (c.sequence.Some? ==>
          forall s | s in c.sequence.value.steps :: s.setState.Some? ==> s.setState.value in v.states)
  }

  /** The state checks of package loading and compilation report nothing exactly when
      every state a vendor names is declared. */
  method StateIssues(v: Vendor, cases: seq<Case>) returns (issues: seq<string>)
    ensures issues == [] <==> Closed(v, set c | c in cases)
  {
    issues := if v.initial in v.states then [] else [v.initial];
    for i := 0 to |v.transitions|
      invariant issues == [] <==>
                  v.initial in v.states && forall t | t in v.transitions[..i] :: t.from in v.states && t.to in v.states
    {
      var t := v.transitions[i];
      if t.from !in v.states || t.to !in v.states { issues := issues + [t.from + " -> " + t.to]; }
      assert v.transitions[..i + 1] == v.transitions[..i] + [t];
    }
    assert v.transitions[..|v.transitions|] == v.transitions;
    for i := 0 to |cases|
      invariant issues == [] <==>
                  && v.initial in v.states
                  && (forall t | t in v.transitions :: t.from in v.states && t.to in v.states)
                  && forall c | c in cases[..i] :: EffectsDeclared(v, c)
    {
      var found := EffectIssues(v, cases[i]);
      issues := issues + found;
      assert cases[..i + 1] == cases[..i] + [cases[i]];
    }
    assert cases[..|cases|] == cases;
  }

  method EffectIssues(v: Vendor, c: Case) returns (issues: seq<string>)
    ensures issues == [] <==> EffectsDeclared(v, c)
  {
    issues := if c.setState.Some? && c.setState.value !in v.states then [c.setState.value] else [];
    if c.sequence.Some? {
      var steps := c.sequence.value.steps;
      for i := 0 to |steps|
        invariant issues == [] <==>
                    && (c.setState.Some? ==> c.setState.value in v.states)
                    && forall s | s in steps[..i] :: s.setState.Some? ==> s.setState.value in v.states
      {
        var target := steps[i].setState;
        if target.Some? && target.value !in v.states { issues := issues + [target.value]; }
        assert steps[..i + 1] == steps[..i] + [steps[i]];
      }
      assert steps[..|steps|] == steps;
    }
  }

  function ServedIn(replies: seq<Reply>, state: string): nat {
    if replies == [] then 0
    else ServedIn(replies[..|replies| - 1], state) + if replies[|replies| - 1].state == state then 1 else 0
  }

  function Sum(counters: map<string, nat>, ids: seq<string>): nat {
    if ids == [] then 0 else (if ids[0] in counters then counters[ids[0]] else 0) + Sum(counters, ids[1..])
  }

  lemma {:induction false} SumUpdate(counters: map<string, nat>, ids: seq<string>, s: string)
    requires forall i, j | 0 <= i < j < |ids| :: ids[i] != ids[j]
    ensures var n := if s in counters then counters[s] else 0;
            Sum(counters[s := n + 1], ids) == Sum(counters, ids) + if s in ids then 1 else 0
  {
    if ids == [] {
    } else {
      SumUpdate(counters, ids[1..], s);
      if s in ids[1..] {
        var j :| 0 <= j < |ids[1..]| && ids[1..][j] == s;
        assert ids[j + 1] == s;
      }
    }
  }

  predicate Reached(t: Transition, state: string, count: nat) { t.from == state && count >= t.atLeast }

  /** A transition is found exactly when the threshold of one is reached, and it is one of
      those. */
  lemma {:induction false} FirstFound(ts: seq<Transition>, state: string, count: nat)
    ensures FirstTransition(ts, state, count).Some? <==> exists t :: t in ts && Reached(t, state, count)
    ensures FirstTransition(ts, state, count).Some? ==>
              exists t :: t in ts && Reached(t, state, count) && t.to == FirstTransition(ts, state, count).value
  {
    if ts == [] {
    } else {
      FirstFound(ts[1..], state, count);
      if Reached(ts[0], state, count) {
        assert ts[0] in ts;
      } else if FirstTransition(ts[1..], state, count).Some? {
        var t :| t in ts[1..] && Reached(t, state, count) && t.to == FirstTransition(ts[1..], state, count).value;
        assert t in ts;
      } else {
        forall t | t in ts ensures !Reached(t, state, count) { if t != ts[0] { assert t in ts[1..]; } }
      }
    }
  }

  /** The same transitions in another order. */
  predicate Reordered(a: seq<Transition>, b: seq<Transition>) { multiset(a) == multiset(b) }

  lemma ToFront(ts: seq<Transition>, t: Transition, state: string, count: nat) returns (other: seq<Transition>)
    requires t in ts && Reached(t, state, count)
    ensures Reordered(ts, other) && FirstTransition(other, state, count) == Some(t.to)
  {
    var i :| 0 <= i < |ts| && ts[i] == t;
    other := [t] + (ts[..i] + ts[i + 1..]);
    assert ts == ts[..i] + ([t] + ts[i + 1..]);
    assert multiset(ts) == multiset(ts[..i]) + (multiset([t]) + multiset(ts[i + 1..]));
    assert multiset(other) == multiset([t]) + (multiset(ts[..i]) + multiset(ts[i + 1..]));
  }

  /** The order in which transitions are listed does not matter exactly when all those
      whose threshold is reached lead to the same state. */
  lemma OrderIrrelevantIff(ts: seq<Transition>, state: string, count: nat)
    ensures (forall other | Reordered(ts, other) ::
               FirstTransition(other, state, count) == FirstTransition(ts, state, count)) <==>
            (forall t, u | t in ts && u in ts && Reached(t, state, count) && Reached(u, state, count) :: t.to == u.to)
  {
    FirstFound(ts, state, count);
    if forall t, u | t in ts && u in ts && Reached(t, state, count) && Reached(u, state, count) :: t.to == u.to {
      forall other | Reordered(ts, other)
        ensures FirstTransition(other, state, count) == FirstTransition(ts, state, count)
      {
        FirstFound(other, state, count);
        forall t ensures t in other <==> t in ts { assert t in multiset(other) <==> t in multiset(ts); }
      }
    } else {
      var t, u :| t in ts && u in ts && Reached(t, state, count) && Reached(u, state, count) && t.to != u.to;
      var a := ToFront(ts, t, state, count);
      var b := ToFront(ts, u, state, count);
      assert Reordered(ts, a) && Reordered(ts, b);
    }
  }

  lemma NextDeclared(v: Vendor, cases: set<Case>, c: Case, st: Stores)
    requires Closed(v, cases) && c in cases && Playable(c) && st.state in v.states && st.counters.Keys == v.states.Keys
    ensures Serve(v, c, st).1.state in v.states
    ensures Serve(v, c, st).1.counters == st.counters[st.state := CountOf(st, st.state) + 1]
    ensures Serve(v, c, st).0.state == st.state
  {
    var count := CountOf(st, st.state) + 1;
    FirstFound(v.transitions, st.state, count);
    if c.sequence.Some? {
      var s := c.sequence.value;
      var sel := Select(s, CursorOf(st, c.Key()));
      if sel.setState.Some? {
        assert exists i :: 0 <= i < |s.steps| && s.steps[i].setState == sel.setState;
      }
    }
  }

  /** The counters agree with the replies given so far. */
  ghost predicate Exact(v: Vendor, st: Stores, replies: seq<Reply>, ids: seq<string>) {
    && st.state in v.states && st.counters.Keys == v.states.Keys
    && (forall s | s in v.states :: st.counters[s] == ServedIn(replies, s))
    && Sum(st.counters, ids) == |replies|
  }

  lemma ServeExact(v: Vendor, cases: set<Case>, c: Case, st: Stores, replies: seq<Reply>, ids: seq<string>)
    requires Closed(v, cases) && c in cases && Playable(c) && Exact(v, st, replies, ids)
    requires (forall i, j | 0 <= i < j < |ids| :: ids[i] != ids[j]) && forall s :: s in ids <==> s in v.states
    ensures Exact(v, Serve(v, c, st).1, replies + [Serve(v, c, st).0], ids)
  {
    NextDeclared(v, cases, c, st);
    ServedOnce(replies, Serve(v, c, st).0);
    SumUpdate(st.counters, ids, st.state);
  }

  lemma ServedOnce(replies: seq<Reply>, reply: Reply)
    ensures forall s: string ::
              ServedIn(replies + [reply], s) == ServedIn(replies, s) + if s == reply.state then 1 else 0
  {
    assert (replies + [reply])[..|replies|] == replies;
  }

  /** After any stream from the preloaded stores the current state is declared, so the
      fallback to the initial state is never taken; each state's counter is the number
      of requests served in it; and the counters add up to the number of requests. */
  lemma {:induction false} CountersExact(v: Vendor, cases: set<Case>, stream: seq<Case>, ids: seq<string>)
    requires Closed(v, cases) && From(stream, cases) && AllPlayable(stream)
    requires (forall i, j | 0 <= i < j < |ids| :: ids[i] != ids[j]) && forall s :: s in ids <==> s in v.states
    ensures Exact(v, After(v, stream, Preload(v)), Replies(v, stream, Preload(v)), ids)
    decreases |stream|
  {
    if stream == [] {
      NothingServed(v, ids);
    } else {
      var before, last := stream[..|stream| - 1], stream[|stream| - 1];
      PrefixOf(stream, cases);
      CountersExact(v, cases, before, ids);
      AfterSnoc(v, before, last, Preload(v));
      ServeExact(v, cases, last, After(v, before, Preload(v)), Replies(v, before, Preload(v)), ids);
    }
  }

  lemma {:induction false} NothingServed(v: Vendor, ids: seq<string>)
    ensures Sum(Preload(v).counters, ids) == 0
  {
    if ids == [] {
    } else {
      NothingServed(v, ids[1..]);
    }
  }

  /** No request lowers a counter; entering a state again keeps its count. */
  lemma CountersNeverReset(v: Vendor, c: Case, st: Stores, s: string)
    requires Playable(c) && s in st.counters
    ensures var st' := Serve(v, c, st).1;
            s in st'.counters && st'.counters[s] == st.counters[s] + if s == st.state then 1 else 0
  {
  }

  // ----- what a request is answered, and where it leads -----

  /** The response written for request number `k` to a case: its own, or that of the step
      its sequence policy names, or the terminal one. */
  function Written(c: Case, k: nat): Response
    requires Playable(c)
  {
    match c.sequence
    case None => c.behavior
    case Some(s) => match StepAt(s, k) case Some(i) => s.steps[i].behavior case None => s.terminal
  }

  /** The state that step wants entered. */
  function StepState(c: Case, k: nat): Option<string>
    requires Playable(c)
  {
    match c.sequence
    case None => None
    case Some(s) => match StepAt(s, k) case Some(i) => s.steps[i].setState case None => None
  }

  /** A response shaped by a state: an override replaces it; otherwise only a delay that it
      lacks comes from the state. */
  predicate Shaped(r: Response, written: Response, d: StateDef) {
    if d.override.Some? then r == d.override.value
    else
      && r.status == written.status && r.content == written.content && r.closes == written.closes
      && r.delayMs == if written.delayMs.Some? then written.delayMs else d.defaultDelayMs
  }

  /** The state a request leads to: the step's, else the case's, else that of the first
      transition whose threshold is reached, else the same. */
  predicate Leads(v: Vendor, c: Case, k: nat, state: string, count: nat, next: string)
    requires Playable(c)
  {
    if StepState(c, k).Some? then next == StepState(c, k).value
    else if c.setState.Some? then next == c.setState.value
    else if exists t :: t in v.transitions && Reached(t, state, count) then
      exists i ::
        0 <= i < |v.transitions| && FirstReached(v.transitions, i, state, count) && next == v.transitions[i].to
    else next == state
  }

  predicate FirstReached(ts: seq<Transition>, i: nat, state: string, count: nat)
    requires i < |ts|
  {
    Reached(ts[i], state, count) && forall j | 0 <= j < i :: !Reached(ts[j], state, count)
  }

  lemma {:induction false} FirstIs(ts: seq<Transition>, state: string, count: nat)
    ensures match FirstTransition(ts, state, count)
            case Some(to) => exists i :: 0 <= i < |ts| && FirstReached(ts, i, state, count) && to == ts[i].to
            case None => forall t | t in ts :: !Reached(t, state, count)
  {
    if ts == [] {
    } else if Reached(ts[0], state, count) {
      assert FirstReached(ts, 0, state, count);
    } else {
      FirstIs(ts[1..], state, count);
      if FirstTransition(ts[1..], state, count).Some? {
        var i :| 0 <= i < |ts[1..]| && FirstReached(ts[1..], i, state, count) &&
                 FirstTransition(ts[1..], state, count).value == ts[1..][i].to;
        forall j | 0 <= j < i + 1 ensures !Reached(ts[j], state, count) {
          if j > 0 { assert ts[j] == ts[1..][j - 1]; }
        }
        assert ts[i + 1] == ts[1..][i] && FirstReached(ts, i + 1, state, count);
      } else {
        forall t | t in ts ensures !Reached(t, state, count) { if t != ts[0] { assert t in ts[1..]; } }
      }
    }
  }

  /** What one request is answered and leads to, given what is written for it. */
  lemma ServeAnswers(v: Vendor, c: Case, st: Stores, k: nat)
    requires Playable(c) && st.state in v.states
    requires c.sequence.Some? ==> CursorOf(st, c.Key()) == CursorAt(c.sequence.value, k)
    ensures var (reply, st') := Serve(v, c, st);
            && reply.state == st.state && reply.count == CountOf(st, st.state) + 1
            && Shaped(reply.response, Written(c, k), v.states[st.state])
            && Leads(v, c, k, st.state, reply.count, st'.state)
  {
    var count := CountOf(st, st.state) + 1;
    if c.sequence.Some? { SelectClosedForm(c.sequence.value, k); }
    FirstIs(v.transitions, st.state, count);
    assert v.states[st.state] == StateDefOf(v, st.state).value;
    FirstFound(v.transitions, st.state, count);
  }

  /** Request `i` of a stream was answered by the state that served it and as written in
      its case, and led to where the next was served, or to `state` at the end. */
  predicate AnsweredAt(v: Vendor, stream: seq<Case>, replies: seq<Reply>, state: string, i: nat)
    requires AllPlayable(stream) && i < |stream| == |replies|
  {
    var c, k := stream[i], Hits(stream[..i], stream[i].Key());
    && replies[i].state in v.states
    && replies[i].count == ServedIn(replies[..i], replies[i].state) + 1
    && Shaped(replies[i].response, Written(c, k), v.states[replies[i].state])
    && Leads(v, c, k, replies[i].state, replies[i].count, if i + 1 < |stream| then replies[i + 1].state else state)
  }

  predicate Answered(v: Vendor, stream: seq<Case>, replies: seq<Reply>, state: string)
    requires AllPlayable(stream)
  {
    && |replies| == |stream| && (if stream == [] then state else replies[0].state) == v.initial
    && forall i | 0 <= i < |stream| :: AnsweredAt(v, stream, replies, state, i)
  }

  lemma {:induction false} ListOf(s: set<string>) returns (ids: seq<string>)
    ensures (forall i, j | 0 <= i < j < |ids| :: ids[i] != ids[j]) && forall x :: x in ids <==> x in s
  {
    if s == {} {
      ids := [];
    } else {
      var x :| x in s;
      var rest := ListOf(s - {x});
      ids := [x] + rest;
    }
  }

  lemma AnsweredEarlier(
      v: Vendor, before: seq<Case>, c: Case, replies: seq<Reply>, reply: Reply, next: string, i: nat)
    requires AllPlayable(before) && AllPlayable(before + [c]) && i < |before| == |replies|
    requires AnsweredAt(v, before, replies, reply.state, i)
    ensures AnsweredAt(v, before + [c], replies + [reply], next, i)
  {
    assert (before + [c])[..i] == before[..i] && (replies + [reply])[..i] == replies[..i];
  }

  lemma AnsweredLast(
      v: Vendor, cases: set<Case>, before: seq<Case>, c: Case, replies: seq<Reply>, reply: Reply, next: Stores)
    requires KeysIdentify(cases) && Closed(v, cases) && From(before, cases) && c in cases
    requires AllPlayable(before) && AllPlayable(before + [c]) && Playable(c)
    requires replies == Replies(v, before, Preload(v)) && (reply, next) == Serve(v, c, After(v, before, Preload(v)))
    ensures reply.state == After(v, before, Preload(v)).state
    ensures AnsweredAt(v, before + [c], replies + [reply], next.state, |before|)
  {
    var ids := ListOf(v.states.Keys);
    CountersExact(v, cases, before, ids);
    if c.sequence.Some? { CursorClosedForm(v, cases, before, c); }
    ServeAnswers(v, c, After(v, before, Preload(v)), Hits(before, c.Key()));
    assert (before + [c])[..|before|] == before && (replies + [reply])[..|before|] == replies;
  }

  /** One more request. */
  lemma AnsweredNext(v: Vendor, cases: set<Case>, before: seq<Case>, c: Case)
    requires KeysIdentify(cases) && Closed(v, cases) && From(before + [c], cases)
    requires AllPlayable(before) && AllPlayable(before + [c])
    requires Answered(v, before, Replies(v, before, Preload(v)), After(v, before, Preload(v)).state)
    ensures Playable(c)
    ensures var (reply, st') := Serve(v, c, After(v, before, Preload(v)));
            Answered(v, before + [c], Replies(v, before, Preload(v)) + [reply], st'.state)
  {
    var stream, replies := before + [c], Replies(v, before, Preload(v));
    assert stream[|before|] == c && c in stream && forall d | d in before :: d in stream;
    var (reply, next) := Serve(v, c, After(v, before, Preload(v)));
    AnsweredLast(v, cases, before, c, replies, reply, next);
    forall i | 0 <= i < |stream| ensures AnsweredAt(v, stream, replies + [reply], next.state, i) {
      if i < |before| { AnsweredEarlier(v, before, c, replies, reply, next.state, i); }
    }
  }

  /** The handler over a stream of requests, in place. Each reply is shaped by the state that
      serves it: that state's override if it has one; else the response written for the
      request in its case, with the state's delay where it has none. And the next request
      is served in the state that this one leads to. */
  method ServeStream(v: Vendor, cases: set<Case>, stream: seq<Case>) returns (replies: seq<Reply>, state: string)
    requires KeysIdentify(cases) && Closed(v, cases) && From(stream, cases) && AllPlayable(stream)
    ensures Answered(v, stream, replies, state)
  {
    var handler := new Handler(v);
    replies := [];
    for i := 0 to |stream|
      invariant fresh(handler) && handler.vendor == v
      invariant handler.Contents() == After(v, stream[..i], Preload(v))
      invariant replies == Replies(v, stream[..i], Preload(v))
      invariant Answered(v, stream[..i], replies, handler.state)
    {
      assert stream[..i] + [stream[i]] == stream[..i + 1];
      assert From(stream[..i + 1], cases) && AllPlayable(stream[..i + 1]) && AllPlayable(stream[..i]);
      AnsweredNext(v, cases, stream[..i], stream[i]);
      AfterSnoc(v, stream[..i], stream[i], Preload(v));
      var reply := handler.Handle(stream[i]);
      replies := replies + [reply];
    }
    assert stream[..|stream|] == stream;
    state := handler.state;
  }

  // ----- chains of thresholds -----

  function Need(t: nat): nat { if t > 1 then t else 1 }

  /** Requests absorbed by the first `j` links of a chain. */
  function Absorbed(ts: seq<nat>, j: nat): nat
    requires j <= |ts|
  {
    if j == 0 then 0 else Absorbed(ts, j - 1) + Need(ts[j - 1])
  }

  predicate DistinctStates(states: seq<string>) { forall i, j | 0 <= i < j < |states| :: states[i] != states[j] }

  function Link(states: seq<string>, ts: seq<nat>, i: nat): Transition
    requires |states| == |ts| + 1 && i < |ts|
  {
    Transition(states[i], states[i + 1], ts[i])
  }

  /** The transitions are those from each state of a chain to the next, listed in any order. */
  predicate Chained(transitions: seq<Transition>, states: seq<string>, ts: seq<nat>)
    requires |states| == |ts| + 1
  {
    && (forall i | 0 <= i < |ts| :: Link(states, ts, i) in transitions)
    && (forall t | t in transitions :: exists i :: 0 <= i < |ts| && t == Link(states, ts, i))
  }

  lemma ChainStep(transitions: seq<Transition>, states: seq<string>, ts: seq<nat>, j: nat, count: nat)
    requires |states| == |ts| + 1 && DistinctStates(states) && j < |states| && Chained(transitions, states, ts)
    ensures FirstTransition(transitions, states[j], count) ==
            if j < |ts| && count >= ts[j] then Some(states[j + 1]) else None
  {
    FirstFound(transitions, states[j], count);
    if j < |ts| { assert Link(states, ts, j) in transitions; }
    forall t | t in transitions && t.from == states[j] ensures j < |ts| && t == Link(states, ts, j) {
      var i :| 0 <= i < |ts| && t == Link(states, ts, i);
    }
  }

  predicate NoEffects(c: Case) {
    c.setState.None? && (c.sequence.Some? ==> forall s | s in c.sequence.value.steps :: s.setState.None?)
  }

  lemma NoExplicitState(c: Case, st: Stores)
    requires Playable(c) && NoEffects(c)
    ensures c.sequence.Some? ==> Select(c.sequence.value, CursorOf(st, c.Key())).setState == None
  {
  }

  /** Where a chain stands after `k` requests. */
  ghost predicate ChainAt(states: seq<string>, ts: seq<nat>, k: nat, j: nat, st: Stores)
    requires |states| == |ts| + 1
  {
    && j < |states|
    && st.state == states[j]
    && Absorbed(ts, j) <= k && (j < |ts| ==> k < Absorbed(ts, j + 1))
    && CountOf(st, states[j]) == k - Absorbed(ts, j)
    && forall i | j < i < |states| :: CountOf(st, states[i]) == 0
  }

  /** A request that names no state moves on by the transitions alone, and counts in the
      state that served it. */
  lemma PlainServe(v: Vendor, c: Case, st: Stores)
    requires Playable(c) && NoEffects(c)
    ensures var next := FirstTransition(v.transitions, st.state, CountOf(st, st.state) + 1);
            Serve(v, c, st).1.state == if next.Some? then next.value else st.state
    ensures Serve(v, c, st).0.state == st.state
    ensures forall s :: CountOf(Serve(v, c, st).1, s) == CountOf(st, s) + if s == st.state then 1 else 0
  {
    NoExplicitState(c, st);
  }

  lemma ChainServe(states: seq<string>, ts: seq<nat>, v: Vendor, c: Case, k: nat, j: nat, st: Stores) returns (j': nat)
    requires |states| == |ts| + 1 && DistinctStates(states) && Chained(v.transitions, states, ts)
    requires Playable(c) && NoEffects(c) && ChainAt(states, ts, k, j, st)
    ensures ChainAt(states, ts, k + 1, j', Serve(v, c, st).1) && Serve(v, c, st).0.state == states[j]
  {
    var count := k - Absorbed(ts, j) + 1;
    ChainStep(v.transitions, states, ts, j, count);
    PlainServe(v, c, st);
    j' := if j < |ts| && count >= ts[j] then j + 1 else j;
    assert Serve(v, c, st).1.state == states[j'];
  }

  lemma {:induction false} ChainAfter(
      states: seq<string>, ts: seq<nat>, v: Vendor, stream: seq<Case>) returns (j: nat)
    requires |states| == |ts| + 1 && DistinctStates(states) && Chained(v.transitions, states, ts)
    requires v.initial == states[0] && AllPlayable(stream) && forall c | c in stream :: NoEffects(c)
    ensures ChainAt(states, ts, |stream|, j, After(v, stream, Preload(v)))
    decreases |stream|
  {
    if stream == [] {
      j := 0;
    } else {
      var before, last := stream[..|stream| - 1], stream[|stream| - 1];
      assert stream == before + [last];
      assert last in stream;
      j := ChainAfter(states, ts, v, before);
      AfterSnoc(v, before, last, Preload(v));
      j := ChainServe(states, ts, v, last, |before|, j, After(v, before, Preload(v)));
    }
  }

  lemma {:induction false} AbsorbedGrows(ts: seq<nat>, i: nat, j: nat)
    requires i <= j <= |ts|
    ensures Absorbed(ts, i) + (j - i) <= Absorbed(ts, j)
    decreases j - i
  {
    if i < j { AbsorbedGrows(ts, i, j - 1); }
  }

  /** With no explicit state effects and transitions that form a chain, listed in any
      order, the request after a stream of `k` requests is served in state `j` exactly when
      `k` falls between the requests absorbed before `j` and those absorbed up to `j`; the
      last state serves all later ones. */
  lemma ChainClosedForm(states: seq<string>, ts: seq<nat>, v: Vendor, stream: seq<Case>, c: Case, j: nat)
    requires |states| == |ts| + 1 && DistinctStates(states) && Chained(v.transitions, states, ts)
    requires v.initial == states[0] && AllPlayable(stream) && forall d | d in stream :: NoEffects(d)
    requires Playable(c) && j < |states|
    ensures Serve(v, c, After(v, stream, Preload(v))).0.state == states[j] <==>
              Absorbed(ts, j) <= |stream| && (j < |ts| ==> |stream| < Absorbed(ts, j + 1))
  {
    var at := ChainAfter(states, ts, v, stream);
    if at < j {
      AbsorbedGrows(ts, at + 1, j);
    } else if j < at {
      AbsorbedGrows(ts, j + 1, at);
    }
  }
}
