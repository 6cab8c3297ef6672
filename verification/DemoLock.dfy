/** The per-session lock of the interactive demo: a chain of promises. */
module DemoLock {
  import opened Json

  datatype Progress = Waiting | Running | Finished(ok: bool)

  /** A queued operation: its session, the operation whose tail it awaits, and how far
      it has got. */
  datatype Ticket = Ticket(id: string, previous: Option<nat>, progress: Progress)

  /** All operations in arrival order, and the last one queued for each session. */
  datatype Locks = Locks(tickets: seq<Ticket>, transitions: map<string, nat>)

  /** Steps between awaits: an operation is queued, enters once the tail it awaits has
      resolved, and leaves, having returned or thrown. */
  datatype Event = Arrive(id: string) | Enter(ticket: nat) | Leave(ticket: nat, ok: bool)

  /** The tail of a ticket resolves when the tail before it has and the ticket was
      released. */
  predicate TailResolved(l: Locks, t: nat)
    decreases t
  {
    && t < |l.tickets| && l.tickets[t].progress.Finished?
    && match l.tickets[t].previous
       case None => true
       case Some(p) => p < t && TailResolved(l, p)
  }

  predicate MayEnter(l: Locks, t: nat) {
    && t < |l.tickets| && l.tickets[t].progress.Waiting?
    && match l.tickets[t].previous
       case None => true
       case Some(p) => TailResolved(l, p)
  }

  function Advance(l: Locks, e: Event): Locks {
    match e
    case Arrive(id) =>
      var previous := if id in l.transitions then Some(l.transitions[id]) else None;
      Locks(l.tickets + [Ticket(id, previous, Waiting)], l.transitions[id := |l.tickets|])
    case Enter(t) =>
      if MayEnter(l, t) then l.(tickets := l.tickets[t := l.tickets[t].(progress := Running)]) else l
    case Leave(t, ok) =>
      if t < |l.tickets| && l.tickets[t].progress.Running? then
        var id := l.tickets[t].id;
        Locks(l.tickets[t := l.tickets[t].(progress := Finished(ok))],
              if id in l.transitions && l.transitions[id] == t then l.transitions - {id} else l.transitions)
      else l
  }

  function Play(l: Locks, events: seq<Event>): Locks
    decreases |events|
  {
    if events == [] then l else Play(Advance(l, events[0]), events[1..])
  }

  // ----- the invariant -----

  /** Every earlier operation of session `id` has finished. */
  predicate ClearBefore(l: Locks, id: string, t: nat)
    requires t <= |l.tickets|
  {
    forall i | 0 <= i < t && l.tickets[i].id == id :: l.tickets[i].progress.Finished?
  }

  /** `p` is the operation of its session that arrived just before position `t`. */
  predicate JustBefore(l: Locks, p: nat, t: nat, id: string)
    requires t <= |l.tickets|
  {
    p < t && l.tickets[p].id == id && forall i | p < i < t :: l.tickets[i].id != id
  }

  ghost predicate Valid(l: Locks) {
    && (forall t | 0 <= t < |l.tickets| ::
          match l.tickets[t].previous
          case Some(p) => JustBefore(l, p, t, l.tickets[t].id)
          case None => ClearBefore(l, l.tickets[t].id, t))
    && (forall t | 0 <= t < |l.tickets| && !l.tickets[t].progress.Waiting? :: ClearBefore(l, l.tickets[t].id, t))
    && (forall id | id in l.transitions :: JustBefore(l, l.transitions[id], |l.tickets|, id))
    && (forall id | id !in l.transitions :: ClearBefore(l, id, |l.tickets|))
  }

  /** In a valid state a tail has resolved exactly when its operation and all earlier
      ones of the session have finished. */
  lemma {:induction false} ResolvedIffClear(l: Locks, t: nat)
    requires Valid(l) && t < |l.tickets|
    ensures TailResolved(l, t) <==> l.tickets[t].progress.Finished? && ClearBefore(l, l.tickets[t].id, t)
    decreases t
  {
    match l.tickets[t].previous
    case None =>
    case Some(p) =>
      assert JustBefore(l, p, t, l.tickets[t].id);
      ResolvedIffClear(l, p);
  }

  lemma ClearExtended(l: Locks, m: Locks, id: string, t: nat)
    requires l.tickets <= m.tickets && t <= |l.tickets| && ClearBefore(l, id, t)
    ensures ClearBefore(m, id, t)
  {
  }

  lemma JustBeforeExtended(l: Locks, m: Locks, p: nat, t: nat, id: string)
    requires l.tickets <= m.tickets && t <= |l.tickets| && JustBefore(l, p, t, id)
    ensures JustBefore(m, p, t, id)
  {
  }

  /** The tickets that were there keep their place in the chain when others arrive. */
  lemma ChainExtended(l: Locks, m: Locks, t: nat)
    requires Valid(l) && l.tickets <= m.tickets && t < |l.tickets|
    ensures match m.tickets[t].previous
            case Some(p) => JustBefore(m, p, t, m.tickets[t].id)
            case None => ClearBefore(m, m.tickets[t].id, t)
    ensures !m.tickets[t].progress.Waiting? ==> ClearBefore(m, m.tickets[t].id, t)
  {
    assert m.tickets[t] == l.tickets[t];
    match l.tickets[t].previous {
      case Some(p) => JustBeforeExtended(l, m, p, t, l.tickets[t].id);
      case None => ClearExtended(l, m, l.tickets[t].id, t);
    }
    if !l.tickets[t].progress.Waiting? { ClearExtended(l, m, l.tickets[t].id, t); }
  }

  lemma ArriveValid(l: Locks, id: string)
    requires Valid(l)
    ensures Valid(Advance(l, Arrive(id)))
  {
    var m, n := Advance(l, Arrive(id)), |l.tickets|;
    forall t | 0 <= t < n
      ensures match m.tickets[t].previous
              case Some(p) => JustBefore(m, p, t, m.tickets[t].id)
              case None => ClearBefore(m, m.tickets[t].id, t)
      ensures !m.tickets[t].progress.Waiting? ==> ClearBefore(m, m.tickets[t].id, t)
    {
      ChainExtended(l, m, t);
    }
    if id in l.transitions { JustBeforeExtended(l, m, l.transitions[id], n, id); } else { ClearExtended(l, m, id, n); }
    forall other | other in m.transitions ensures JustBefore(m, m.transitions[other], |m.tickets|, other) {
      if other != id { JustBeforeExtended(l, m, l.transitions[other], n, other); }
    }
    forall other | other !in m.transitions ensures ClearBefore(m, other, |m.tickets|) {
      ClearExtended(l, m, other, n);
    }
  }

  /** Only the progress of unfinished tickets differs from `a` to `b`. */
  predicate Progressed(a: seq<Ticket>, b: seq<Ticket>) {
    && |a| == |b|
    && forall i | 0 <= i < |a| ::
         && b[i].id == a[i].id && b[i].previous == a[i].previous
         && (a[i].progress.Finished? ==> b[i].progress == a[i].progress)
  }

  lemma ClearKept(l: Locks, m: Locks, id: string, t: nat)
    requires Progressed(l.tickets, m.tickets) && t <= |l.tickets| && ClearBefore(l, id, t)
    ensures ClearBefore(m, id, t)
  {
  }

  lemma JustBeforeKept(l: Locks, m: Locks, p: nat, t: nat, id: string)
    requires Progressed(l.tickets, m.tickets) && t <= |l.tickets| && JustBefore(l, p, t, id)
    ensures JustBefore(m, p, t, id)
  {
  }

  /** The part of the invariant that is about the chain of previous operations. */
  lemma ChainKept(l: Locks, m: Locks)
    requires Valid(l) && Progressed(l.tickets, m.tickets)
    ensures forall t | 0 <= t < |m.tickets| ::
              match m.tickets[t].previous
              case Some(p) => JustBefore(m, p, t, m.tickets[t].id)
              case None => ClearBefore(m, m.tickets[t].id, t)
  {
    forall t | 0 <= t < |m.tickets|
      ensures match m.tickets[t].previous
              case Some(p) => JustBefore(m, p, t, m.tickets[t].id)
              case None => ClearBefore(m, m.tickets[t].id, t)
    {
      match l.tickets[t].previous
      case Some(p) => JustBeforeKept(l, m, p, t, l.tickets[t].id);
      case None => ClearKept(l, m, l.tickets[t].id, t);
    }
  }

  /** A ticket whose predecessors are done may begin or end. */
  lemma ProgressValid(l: Locks, m: Locks, t: nat)
    requires Valid(l) && t < |l.tickets| && ClearBefore(l, l.tickets[t].id, t)
    requires Progressed(l.tickets, m.tickets) && m.transitions == l.transitions
    requires forall i | 0 <= i < |l.tickets| && i != t :: m.tickets[i] == l.tickets[i]
    ensures Valid(m)
  {
    ChainKept(l, m);
    forall u | 0 <= u < |m.tickets| && !m.tickets[u].progress.Waiting? ensures ClearBefore(m, m.tickets[u].id, u) {
      ClearKept(l, m, l.tickets[u].id, u);
    }
    forall id | id in m.transitions ensures JustBefore(m, m.transitions[id], |m.tickets|, id) {
      JustBeforeKept(l, m, l.transitions[id], |l.tickets|, id);
    }
    forall id | id !in m.transitions ensures ClearBefore(m, id, |m.tickets|) {
      ClearKept(l, m, id, |l.tickets|);
    }
  }

  lemma EnterValid(l: Locks, t: nat)
    requires Valid(l) && MayEnter(l, t)
    ensures Valid(Advance(l, Enter(t)))
    ensures ClearBefore(l, l.tickets[t].id, t)
  {
    match l.tickets[t].previous {
      case None =>
      case Some(p) =>
        ResolvedIffClear(l, p);
        assert JustBefore(l, p, t, l.tickets[t].id);
    }
    ProgressValid(l, Advance(l, Enter(t)), t);
  }

  /** The last operation of a session leaves it with nothing to wait for. */
  lemma LastLeaves(l: Locks, m: Locks, t: nat)
    requires Valid(l) && Valid(m) && t < |l.tickets| && m.transitions == l.transitions
    requires Progressed(l.tickets, m.tickets) && m.tickets[t].progress.Finished?
    requires l.tickets[t].id in l.transitions && l.transitions[l.tickets[t].id] == t
    ensures ClearBefore(m, l.tickets[t].id, |m.tickets|)
  {
    var id := l.tickets[t].id;
    assert JustBefore(m, t, |m.tickets|, id);
    assert ClearBefore(m, id, t);
  }

  lemma LeaveValid(l: Locks, t: nat, ok: bool)
    requires Valid(l) && t < |l.tickets| && l.tickets[t].progress.Running?
    ensures Valid(Advance(l, Leave(t, ok)))
  {
    var ended := Locks(l.tickets[t := l.tickets[t].(progress := Finished(ok))], l.transitions);
    var id := l.tickets[t].id;
    ProgressValid(l, ended, t);
    if id in l.transitions && l.transitions[id] == t {
      LastLeaves(l, ended, t);
      EntryDropped(ended, id);
    }
  }

  lemma EntryDropped(l: Locks, id: string)
    requires Valid(l) && ClearBefore(l, id, |l.tickets|)
    ensures Valid(Locks(l.tickets, l.transitions - {id}))
  {
    var m := Locks(l.tickets, l.transitions - {id});
    ChainKept(l, m);
    forall u | 0 <= u < |m.tickets| && !m.tickets[u].progress.Waiting? ensures ClearBefore(m, m.tickets[u].id, u) {
      ClearKept(l, m, l.tickets[u].id, u);
    }
    forall other | other in m.transitions ensures JustBefore(m, m.transitions[other], |m.tickets|, other) {
      JustBeforeKept(l, m, l.transitions[other], |l.tickets|, other);
    }
    forall other | other !in m.transitions ensures ClearBefore(m, other, |m.tickets|) {
      ClearKept(l, m, other, |l.tickets|);
    }
  }

  lemma {:induction false} PlayValid(l: Locks, events: seq<Event>)
    requires Valid(l)
    ensures Valid(Play(l, events))
    decreases |events|
  {
    if events == [] {
    } else {
      match events[0] {
        case Arrive(id) => ArriveValid(l, id);
        case Enter(t) => if MayEnter(l, t) { EnterValid(l, t); }
        case Leave(t, ok) => if t < |l.tickets| && l.tickets[t].progress.Running? { LeaveValid(l, t, ok); }
      }
      PlayValid(Advance(l, events[0]), events[1..]);
    }
  }

  /** Whatever arrives when, and however operations end: operations of one session run
      one at a time and in arrival order. */
  lemma MutualExclusionInOrder(events: seq<Event>, i: nat, j: nat)
    requires var l := Play(Locks([], map[]), events);
             i < j < |l.tickets| && l.tickets[i].id == l.tickets[j].id && !l.tickets[j].progress.Waiting?
    ensures Play(Locks([], map[]), events).tickets[i].progress.Finished?
  {
    PlayValid(Locks([], map[]), events);
    var l := Play(Locks([], map[]), events);
    assert ClearBefore(l, l.tickets[j].id, j);
  }

  /** A waiting operation may enter exactly when all earlier operations of its session
      have ended, failed ones included: no failure blocks a successor. */
  lemma MayEnterIff(events: seq<Event>, t: nat)
    requires var l := Play(Locks([], map[]), events); t < |l.tickets| && l.tickets[t].progress.Waiting?
    ensures var l := Play(Locks([], map[]), events);
            MayEnter(l, t) <==>
              forall i | 0 <= i < t && l.tickets[i].id == l.tickets[t].id :: l.tickets[i].progress.Finished?
  {
    PlayValid(Locks([], map[]), events);
    var l := Play(Locks([], map[]), events);
    match l.tickets[t].previous
    case None => assert ClearBefore(l, l.tickets[t].id, t);
    case Some(p) =>
      assert JustBefore(l, p, t, l.tickets[t].id);
      ResolvedIffClear(l, p);
  }

  // ----- the map of tails -----

  /** The operation that an entry names has not ended. */
  predicate LiveEntries(l: Locks) {
    forall id | id in l.transitions ::
      l.transitions[id] < |l.tickets| && l.tickets[l.transitions[id]].id == id
      && !l.tickets[l.transitions[id]].progress.Finished?
  }

  lemma {:induction false} PlayLive(l: Locks, events: seq<Event>)
    requires LiveEntries(l)
    ensures LiveEntries(Play(l, events))
    decreases |events|
  {
    if events == [] {
    } else {
      assert LiveEntries(Advance(l, events[0]));
      PlayLive(Advance(l, events[0]), events[1..]);
    }
  }

  /** The map holds an entry for a session exactly while an operation of that session
      waits or runs. */
  lemma EntryIffBusy(events: seq<Event>, id: string)
    ensures var l := Play(Locks([], map[]), events);
            id in l.transitions <==>
              exists t :: 0 <= t < |l.tickets| && l.tickets[t].id == id && !l.tickets[t].progress.Finished?
  {
    PlayValid(Locks([], map[]), events);
    PlayLive(Locks([], map[]), events);
    var l := Play(Locks([], map[]), events);
    if id !in l.transitions { assert ClearBefore(l, id, |l.tickets|); }
  }

  /** `withTransition` over the map it mutates. */
  class TransitionLocks {
    var tickets: seq<Ticket>
    var transitions: map<string, nat>

    constructor ()
      ensures Contents() == Locks([], map[])
    {
      tickets, transitions := [], map[];
    }

    function Contents(): Locks
      reads this
    {
      Locks(tickets, transitions)
    }

    /** Queue an operation behind the current tail of its session. */
    method Queue(id: string) returns (ticket: nat)
      modifies this
      ensures ticket == |old(tickets)|
      ensures Contents() == Advance(old(Contents()), Arrive(id))
    {
      var previous := None;
      if id in transitions { previous := Some(transitions[id]); }
      ticket := |tickets|;
      tickets := tickets + [Ticket(id, previous, Waiting)];
      transitions := transitions[id := ticket];
    }

    /** The awaited tail has resolved: run the operation. */
    method Begin(ticket: nat)
      requires MayEnter(Contents(), ticket)
      modifies this`tickets
      ensures Contents() == Advance(old(Contents()), Enter(ticket))
    {
      tickets := tickets[ticket := tickets[ticket].(progress := Running)];
    }

    /** Release the operation, and drop the map entry if nothing queued behind it. */
    method Release(ticket: nat, ok: bool)
      requires ticket < |tickets| && tickets[ticket].progress.Running?
      modifies this
      ensures Contents() == Advance(old(Contents()), Leave(ticket, ok))
    {
      var id := tickets[ticket].id;
      tickets := tickets[ticket := tickets[ticket].(progress := Finished(ok))];
      if id in transitions && transitions[id] == ticket { transitions := transitions - {id}; }
    }

    /** What one event does; an event that cannot happen now does nothing. */
    method Step(e: Event)
      modifies this
      ensures Contents() == Advance(old(Contents()), e)
    {
      match e
      case Arrive(id) => var ticket := Queue(id);
      case Enter(t) => if MayEnter(Contents(), t) { Begin(t); }
      case Leave(t, ok) => if t < |tickets| && tickets[t].progress.Running? { Release(t, ok); }
    }
  }

  /** No operation ended before an earlier one of its session. */
  predicate InOrder(l: Locks, ended: seq<nat>) {
    && (forall i | 0 <= i < |ended| :: ended[i] < |l.tickets| && l.tickets[ended[i]].progress.Finished?)
    && forall i, j | 0 <= i < j < |ended| && l.tickets[ended[i]].id == l.tickets[ended[j]].id :: ended[i] < ended[j]
  }

  /** What has ended of a session arrived before what runs. */
  lemma EndedEarlier(l: Locks, u: nat, t: nat)
    requires Valid(l) && u < |l.tickets| && t < |l.tickets| && l.tickets[u].id == l.tickets[t].id
    requires l.tickets[u].progress.Finished? && l.tickets[t].progress.Running?
    ensures u < t
  {
    assert ClearBefore(l, l.tickets[u].id, u);
  }

  lemma EndsInOrder(l: Locks, ended: seq<nat>, t: nat, ok: bool)
    requires Valid(l) && InOrder(l, ended) && t < |l.tickets| && l.tickets[t].progress.Running?
    ensures InOrder(Advance(l, Leave(t, ok)), ended + [t])
  {
    forall i | 0 <= i < |ended| && l.tickets[ended[i]].id == l.tickets[t].id ensures ended[i] < t {
      EndedEarlier(l, ended[i], t);
    }
    OrderKept(l, Advance(l, Leave(t, ok)), ended, t);
  }

  lemma OrderKept(l: Locks, m: Locks, ended: seq<nat>, t: nat)
    requires InOrder(l, ended) && Progressed(l.tickets, m.tickets) && t < |l.tickets| && m.tickets[t].progress.Finished?
    requires forall i | 0 <= i < |ended| && l.tickets[ended[i]].id == l.tickets[t].id :: ended[i] < t
    ensures InOrder(m, ended + [t])
  {
  }

  /** `ended` lists the operations that have ended. */
  predicate Lists(l: Locks, ended: seq<nat>) {
    forall t | 0 <= t < |l.tickets| :: l.tickets[t].progress.Finished? <==> t in ended
  }

  predicate Ends(l: Locks, e: Event) { e.Leave? && e.ticket < |l.tickets| && l.tickets[e.ticket].progress.Running? }

  /** The same operations have ended, and their sessions are the same. */
  predicate SameEnded(a: seq<Ticket>, b: seq<Ticket>) {
    && |a| <= |b|
    && (forall t | 0 <= t < |a| :: b[t].id == a[t].id && (b[t].progress.Finished? <==> a[t].progress.Finished?))
    && forall t | |a| <= t < |b| :: !b[t].progress.Finished?
  }

  lemma ListKept(l: Locks, m: Locks, ended: seq<nat>)
    requires InOrder(l, ended) && Lists(l, ended) && SameEnded(l.tickets, m.tickets)
    ensures InOrder(m, ended) && Lists(m, ended)
  {
  }

  lemma ListLeft(l: Locks, ended: seq<nat>, t: nat, ok: bool)
    requires Lists(l, ended) && t < |l.tickets| && l.tickets[t].progress.Running?
    ensures Lists(Advance(l, Leave(t, ok)), ended + [t])
  {
    var m := Advance(l, Leave(t, ok));
    forall u | 0 <= u < |m.tickets| ensures m.tickets[u].progress.Finished? <==> u in ended + [t] {
      if u != t { assert m.tickets[u] == l.tickets[u]; }
    }
  }

  lemma ListAfter(l: Locks, ended: seq<nat>, e: Event)
    requires Valid(l) && InOrder(l, ended) && Lists(l, ended)
    ensures var after := if Ends(l, e) then ended + [e.ticket] else ended;
            InOrder(Advance(l, e), after) && Lists(Advance(l, e), after)
  {
    if Ends(l, e) {
      EndsInOrder(l, ended, e.ticket, e.ok);
      ListLeft(l, ended, e.ticket, e.ok);
    } else {
      assert SameEnded(l.tickets, Advance(l, e).tickets);
      ListKept(l, Advance(l, e), ended);
    }
  }

  lemma AdvanceValid(l: Locks, e: Event)
    requires Valid(l)
    ensures Valid(Advance(l, e))
  {
    assert Play(l, [e]) == Play(Advance(l, e), []);
    PlayValid(l, [e]);
  }

  /** The operations of all sessions under one map, as they arrive, enter and leave:
      `ended` lists those that have ended, each session's in the order they arrived. */
  method Serve(events: seq<Event>) returns (locks: TransitionLocks, ended: seq<nat>)
    ensures locks.Contents() == Play(Locks([], map[]), events)
    ensures InOrder(locks.Contents(), ended) && Lists(locks.Contents(), ended)
  {
    locks := new TransitionLocks();
    ended := [];
    for i := 0 to |events|
      invariant fresh(locks) && Valid(locks.Contents())
      invariant InOrder(locks.Contents(), ended) && Lists(locks.Contents(), ended)
      invariant Play(Locks([], map[]), events) == Play(locks.Contents(), events[i..])
    {
      var e := events[i];
      assert events[i..][0] == e && events[i..][1..] == events[i + 1..];
      AdvanceValid(locks.Contents(), e);
      ListAfter(locks.Contents(), ended, e);
      if Ends(locks.Contents(), e) { ended := ended + [e.ticket]; }
      locks.Step(e);
    }
  }
}
