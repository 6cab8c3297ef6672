/** The provider-call-order assertion: greedy matching of selectors to calls. */
module CallOrder {
  import opened Json
  import opened Sorting

  datatype Call = Call(
    vendorId: string, operationId: Option<string>, caseId: Option<string>, statusCode: Option<int>, occurredAt: string)

  datatype Selector = Selector(
    vendorId: string, operationId: Option<string>, caseId: Option<string>, statusCode: Option<int>)

  /** A selector constrains only the fields it gives. */
  predicate Matches(c: Call, s: Selector) {
    && c.vendorId == s.vendorId
    && (s.operationId.Some? ==> c.operationId == s.operationId)
    && (s.caseId.Some? ==> c.caseId == s.caseId)
    && (s.statusCode.Some? ==> c.statusCode == s.statusCode)
  }

  /** `picks` assigns the selectors, in order, to strictly later and later calls from
      `cursor` on. */
  predicate Assigns(picks: seq<nat>, calls: seq<Call>, sequence: seq<Selector>, cursor: nat) {
    && |picks| == |sequence|
    && (forall i | 0 <= i < |picks| :: cursor <= picks[i] < |calls| && Matches(calls[picks[i]], sequence[i]))
    && forall i, j | 0 <= i < j < |picks| :: picks[i] < picks[j]
  }

  ghost predicate Assignable(calls: seq<Call>, sequence: seq<Selector>, cursor: nat) {
    exists picks :: Assigns(picks, calls, sequence, cursor)
  }

  lemma AssignTail(picks: seq<nat>, calls: seq<Call>, sequence: seq<Selector>, cursor: nat)
    requires Assigns(picks, calls, sequence, cursor) && sequence != []
    ensures Assigns(picks[1..], calls, sequence[1..], picks[0] + 1)
  {
    forall i | 0 <= i < |picks[1..]| ensures picks[0] + 1 <= picks[1..][i] {
      assert picks[0] < picks[i + 1];
    }
  }

  /** Taking the first call that matches loses nothing. */
  lemma FirstMatchIsBest(calls: seq<Call>, sequence: seq<Selector>, cursor: nat, index: nat)
    requires sequence != [] && cursor <= index < |calls| && Matches(calls[index], sequence[0])
    requires forall i | cursor <= i < index :: !Matches(calls[i], sequence[0])
    ensures Assignable(calls, sequence, cursor) <==> Assignable(calls, sequence[1..], index + 1)
  {
    if Assignable(calls, sequence, cursor) {
      var picks :| Assigns(picks, calls, sequence, cursor);
      AssignTail(picks, calls, sequence, cursor);
      assert index <= picks[0];
      assert Assigns(picks[1..], calls, sequence[1..], index + 1);
    }
    if Assignable(calls, sequence[1..], index + 1) {
      var rest :| Assigns(rest, calls, sequence[1..], index + 1);
      var picks := [index] + rest;
      assert Assigns(picks, calls, sequence, cursor) by {
        forall i | 0 <= i < |picks| ensures cursor <= picks[i] < |calls| && Matches(calls[picks[i]], sequence[i]) {
          if i > 0 { assert picks[i] == rest[i - 1] && sequence[i] == sequence[1..][i - 1]; }
        }
      }
    }
  }

  lemma NoMatchNoAssignment(calls: seq<Call>, sequence: seq<Selector>, cursor: nat)
    requires sequence != [] && forall i | cursor <= i < |calls| :: !Matches(calls[i], sequence[0])
    ensures !Assignable(calls, sequence, cursor)
  {
    forall picks ensures !Assigns(picks, calls, sequence, cursor) {
      assert |picks| > 0 ==> !(cursor <= picks[0] < |calls|) || !Matches(calls[picks[0]], sequence[0]);
    }
  }

  /** The verdict on calls sorted by time. */
  method EvaluateSorted(calls: seq<Call>, sequence: seq<Selector>, exact: bool) returns (passed: bool)
    ensures passed <==> Assignable(calls, sequence, 0) && (exact ==> |calls| == |sequence|)
  {
    var cursor := 0;
    for k := 0 to |sequence|
      invariant cursor <= |calls|
      invariant Assignable(calls, sequence, 0) <==> Assignable(calls, sequence[k..], cursor)
    {
      var index := cursor;
      while index < |calls| && !Matches(calls[index], sequence[k])
        invariant cursor <= index <= |calls|
        invariant forall i | cursor <= i < index :: !Matches(calls[i], sequence[k])
      {
        index := index + 1;
      }
      assert sequence[k..][0] == sequence[k] && sequence[k..][1..] == sequence[k + 1..];
      if index == |calls| {
        NoMatchNoAssignment(calls, sequence[k..], cursor);
        return false;
      }
      FirstMatchIsBest(calls, sequence[k..], cursor, index);
      cursor := index + 1;
    }
    assert Assigns([], calls, sequence[|sequence|..], cursor);
    passed := !exact || |calls| == |sequence|;
  }

  /** Strictly increasing picks are at least as far along as their position. */
  lemma {:induction false} PickAtLeast(picks: seq<nat>, calls: seq<Call>, sequence: seq<Selector>, i: nat)
    requires Assigns(picks, calls, sequence, 0) && i < |picks|
    ensures picks[i] >= i
  {
    if i == 0 {
    } else {
      PickAtLeast(picks, calls, sequence, i - 1);
      assert picks[i - 1] < picks[i];
    }
  }

  lemma {:induction false} PickAtMost(picks: seq<nat>, calls: seq<Call>, sequence: seq<Selector>, i: nat)
    requires Assigns(picks, calls, sequence, 0) && i < |picks|
    ensures picks[i] + (|picks| - i) <= |calls|
    decreases |picks| - i
  {
    if i + 1 < |picks| {
      PickAtMost(picks, calls, sequence, i + 1);
      assert picks[i] < picks[i + 1];
    }
  }

  lemma FullAssignment(picks: seq<nat>, calls: seq<Call>, sequence: seq<Selector>, i: nat)
    requires Assigns(picks, calls, sequence, 0) && |calls| == |sequence| && i < |calls|
    ensures Matches(calls[i], sequence[i])
  {
    PickAtLeast(picks, calls, sequence, i);
    PickAtMost(picks, calls, sequence, i);
    assert picks[i] == i;
  }

  function Identity(n: nat): (r: seq<nat>)
    ensures |r| == n && forall i | 0 <= i < n :: r[i] == i
  {
    seq(n, i => i)
  }

  /** `exact` asks that the calls are the selectors' calls, position by position. */
  lemma ExactMeansPositionwise(calls: seq<Call>, sequence: seq<Selector>)
    requires |calls| == |sequence|
    ensures Assignable(calls, sequence, 0) <==> forall i | 0 <= i < |calls| :: Matches(calls[i], sequence[i])
  {
    if Assignable(calls, sequence, 0) {
      var picks :| Assigns(picks, calls, sequence, 0);
      forall i | 0 <= i < |calls| ensures Matches(calls[i], sequence[i]) {
        FullAssignment(picks, calls, sequence, i);
      }
    } else if forall i | 0 <= i < |calls| :: Matches(calls[i], sequence[i]) {
      assert Assigns(Identity(|calls|), calls, sequence, 0);
      assert false;
    }
  }

  /** `evaluateProviderCallOrder`; `le` compares calls by timestamp. */
  method Evaluate(calls: seq<Call>, sequence: seq<Selector>, exact: bool, le: (Call, Call) -> bool)
      returns (passed: bool)
    ensures passed <==> Verdict(calls, sequence, exact, le)
    ensures exact ==>
              (passed <==>
                 && |calls| == |sequence|
                 && forall i | 0 <= i < |Sort(calls, le)| && i < |sequence| :: Matches(Sort(calls, le)[i], sequence[i]))
  {
    var sorted := Sort(calls, le);
    SortPermutes(calls, le);
    passed := EvaluateSorted(sorted, sequence, exact);
    if |sorted| == |sequence| { ExactMeansPositionwise(sorted, sequence); }
  }

  // ----- the order in which calls were recorded -----

  /** What `Evaluate` decides. */
  ghost predicate Verdict(calls: seq<Call>, sequence: seq<Selector>, exact: bool, le: (Call, Call) -> bool) {
    Assignable(Sort(calls, le), sequence, 0) && (exact ==> |calls| == |sequence|)
  }

  /** Calls that differ at most in their timestamp. */
  predicate Alike(x: Call, y: Call) { x.(occurredAt := y.occurredAt) == y }

  /** The selector that gives all that a call has. */
  function Full(c: Call): Selector { Selector(c.vendorId, c.operationId, c.caseId, c.statusCode) }

  /** A selector that gives the vendor only. */
  function Any(c: Call): Selector { Selector(c.vendorId, None, None, None) }

  /** Calls are alike exactly when no selector tells them apart. */
  lemma AlikeIff(x: Call, y: Call)
    ensures Alike(x, y) <==> forall s :: Matches(x, s) <==> Matches(y, s)
    ensures Alike(x, y) <==> Matches(x, Full(y)) && Matches(y, Full(x))
  {
    if !Alike(x, y) { assert Matches(x, Full(x)) && Matches(y, Full(y)); }
  }

  // ----- fields that a selector does not give -----

  function CallsTo(calls: seq<Call>, vendorId: string): nat {
    if calls == [] then 0 else (if calls[0].vendorId == vendorId then 1 else 0) + CallsTo(calls[1..], vendorId)
  }

  function OfVendor(vendorId: string, n: nat): (r: seq<Selector>)
    ensures |r| == n && forall i | 0 <= i < n :: r[i] == Selector(vendorId, None, None, None)
  {
    seq(n, _ => Selector(vendorId, None, None, None))
  }

  lemma SkipUnmatched(calls: seq<Call>, sequence: seq<Selector>, cursor: nat)
    requires sequence != [] && cursor < |calls| && !Matches(calls[cursor], sequence[0])
    ensures Assignable(calls, sequence, cursor) <==> Assignable(calls, sequence, cursor + 1)
  {
    if Assignable(calls, sequence, cursor) {
      var picks :| Assigns(picks, calls, sequence, cursor);
      assert forall i | 0 < i < |picks| :: picks[0] < picks[i];
      assert Assigns(picks, calls, sequence, cursor + 1);
    }
    if Assignable(calls, sequence, cursor + 1) {
      var picks :| Assigns(picks, calls, sequence, cursor + 1);
      assert Assigns(picks, calls, sequence, cursor);
    }
  }

  /** A field that is not given asks for nothing: selectors that give the vendor only can be
      assigned exactly as long as there are as many calls to it, whatever else they have. */
  lemma {:induction false} VendorOnly(calls: seq<Call>, vendorId: string, n: nat, cursor: nat)
    requires cursor <= |calls|
    ensures Assignable(calls, OfVendor(vendorId, n), cursor) <==> n <= CallsTo(calls[cursor..], vendorId)
    decreases |calls| - cursor
  {
    var sequence := OfVendor(vendorId, n);
    if n == 0 {
      assert Assigns([], calls, sequence, cursor);
    } else if cursor == |calls| {
      NoMatchNoAssignment(calls, sequence, cursor);
    } else {
      assert calls[cursor..][1..] == calls[cursor + 1..];
      if calls[cursor].vendorId == vendorId {
        FirstMatchIsBest(calls, sequence, cursor, cursor);
        assert sequence[1..] == OfVendor(vendorId, n - 1);
        VendorOnly(calls, vendorId, n - 1, cursor + 1);
      } else {
        SkipUnmatched(calls, sequence, cursor);
        VendorOnly(calls, vendorId, n, cursor + 1);
      }
    }
  }

  /** Each field that a selector gives is one more condition: it takes the calls that the
      selectors giving one of them each take. */
  lemma SelectorsConjoin(c: Call, s: Selector)
    ensures Matches(c, s) <==>
            && Matches(c, s.(caseId := None, statusCode := None))
            && Matches(c, s.(operationId := None, statusCode := None))
            && Matches(c, s.(operationId := None, caseId := None))
    ensures forall id | s == Selector(c.vendorId, Some(id), None, None) :: Matches(c, s) <==> c.operationId == Some(id)
    ensures forall id | s == Selector(c.vendorId, None, Some(id), None) :: Matches(c, s) <==> c.caseId == Some(id)
    ensures forall n | s == Selector(c.vendorId, None, None, Some(n)) :: Matches(c, s) <==> c.statusCode == Some(n)
  {
  }

  // ----- calls that cannot be told apart -----

  predicate TiedAlike(calls: seq<Call>, le: (Call, Call) -> bool) {
    forall x, y | x in calls && y in calls && le(x, y) && le(y, x) :: Alike(x, y)
  }

  lemma AlikeSorts(a: seq<Call>, b: seq<Call>, le: (Call, Call) -> bool, i: nat)
    requires TotalPreorder(le) && multiset(a) == multiset(b) && TiedAlike(a, le) && i < |a|
    ensures |Sort(a, le)| == |Sort(b, le)| == |a| && Alike(Sort(a, le)[i], Sort(b, le)[i])
  {
    SortSorted(a, le);
    SortSorted(b, le);
    SortPermutes(a, le);
    SortPermutes(b, le);
    assert |a| == |multiset(a)| == |multiset(b)| == |b|;
    SortedTied(Sort(a, le), Sort(b, le), le, i);
    SortedTied(Sort(b, le), Sort(a, le), le, i);
    SortElements(a, le, Sort(a, le)[i]);
    SortElements(b, le, Sort(b, le)[i]);
    SameElements(a, b, Sort(b, le)[i]);
  }

  lemma AlikeAssigns(a: seq<Call>, b: seq<Call>, sequence: seq<Selector>)
    requires |a| == |b| && forall i | 0 <= i < |a| :: Alike(a[i], b[i])
    ensures Assignable(a, sequence, 0) ==> Assignable(b, sequence, 0)
  {
    if Assignable(a, sequence, 0) {
      var picks :| Assigns(picks, a, sequence, 0);
      forall i | 0 <= i < |picks| ensures Matches(b[picks[i]], sequence[i]) {
        AlikeIff(a[picks[i]], b[picks[i]]);
      }
      assert Assigns(picks, b, sequence, 0);
    }
  }

  lemma SameVerdict(
      a: seq<Call>, b: seq<Call>, sequence: seq<Selector>, exact: bool, le: (Call, Call) -> bool)
    requires TotalPreorder(le) && multiset(a) == multiset(b) && TiedAlike(a, le)
    ensures Verdict(a, sequence, exact, le) <==> Verdict(b, sequence, exact, le)
  {
    assert |a| == |multiset(a)| == |multiset(b)| == |b|;
    SortPermutes(a, le);
    SortPermutes(b, le);
    forall i | 0 <= i < |a| ensures Alike(Sort(a, le)[i], Sort(b, le)[i]) { AlikeSorts(a, b, le, i); }
    AlikeAssigns(Sort(a, le), Sort(b, le), sequence);
    AlikeAssigns(Sort(b, le), Sort(a, le), sequence);
  }

  /** Timestamps tell different calls apart. */
  predicate DistinctTimes(calls: seq<Call>) {
    forall x, y | x in calls && y in calls && x.occurredAt == y.occurredAt :: x == y
  }

  /** So it is when the timestamps are distinct. */
  lemma VerdictIgnoresOrder(
      a: seq<Call>, b: seq<Call>, sequence: seq<Selector>, exact: bool, le: (Call, Call) -> bool)
    requires TotalPreorder(le) && multiset(a) == multiset(b) && DistinctTimes(a)
    requires forall x, y :: le(x, y) && le(y, x) ==> x.occurredAt == y.occurredAt
    ensures Verdict(a, sequence, exact, le) <==> Verdict(b, sequence, exact, le)
  {
    SameVerdict(a, b, sequence, exact, le);
  }

  function AnyOf(calls: seq<Call>): (r: seq<Selector>)
    ensures |r| == |calls| && forall i | 0 <= i < |calls| :: r[i] == Any(calls[i])
  {
    seq(|calls|, i requires 0 <= i < |calls| => Any(calls[i]))
  }

  /** Two tied calls of which the first has something the second has not: recorded first
      it passes, recorded second it fails. */
  lemma TellsApart(x: Call, y: Call, rest: seq<Call>, le: (Call, Call) -> bool) returns (sequence: seq<Selector>)
    requires TotalPreorder(le) && le(x, y) && le(y, x) && !Matches(y, Full(x))
    ensures Verdict([x] + ([y] + rest), sequence, true, le) && !Verdict([y] + ([x] + rest), sequence, true, le)
  {
    var a, b := [x] + ([y] + rest), [y] + ([x] + rest);
    var s := Sort(rest, le);
    assert a[1..] == [y] + rest && b[1..] == [x] + rest && ([y] + rest)[1..] == rest && ([x] + rest)[1..] == rest;
    assert Sort([y] + rest, le) == Insert(y, s, le) && Sort([x] + rest, le) == Insert(x, s, le);
    var p := InsertTwice(x, y, s, le);
    assert Sort(a, le) == s[..p] + [x, y] + s[p..] && Sort(b, le) == s[..p] + [y, x] + s[p..];
    SortPermutes(a, le);
    SortPermutes(b, le);
    sequence := AnyOf(Sort(a, le))[p := Full(x)];
    assert Sort(a, le)[p] == x && Sort(b, le)[p] == y;
    ExactMeansPositionwise(Sort(a, le), sequence);
    ExactMeansPositionwise(Sort(b, le), sequence);
  }

  lemma OrderShows(calls: seq<Call>, le: (Call, Call) -> bool)
      returns (a: seq<Call>, b: seq<Call>, sequence: seq<Selector>)
    requires TotalPreorder(le) && !TiedAlike(calls, le)
    ensures multiset(a) == multiset(calls) && multiset(b) == multiset(calls)
    ensures Verdict(a, sequence, true, le) && !Verdict(b, sequence, true, le)
  {
    var x, y :| x in calls && y in calls && le(x, y) && le(y, x) && !Alike(x, y);
    AlikeIff(x, y);
    if Matches(y, Full(x)) { x, y := y, x; }
    var rest := RemoveTwo(calls, x, y);
    a, b := [x] + ([y] + rest), [y] + ([x] + rest);
    sequence := TellsApart(x, y, rest, le);
  }

  /** The verdict is the same in whatever order the calls were recorded, for every list of
      selectors and with `exact` or without, exactly when no two calls that tie can be
      told apart by a selector. */
  lemma RecordingOrderIrrelevantIff(calls: seq<Call>, le: (Call, Call) -> bool)
    requires TotalPreorder(le)
    ensures (forall other, sequence, exact | multiset(other) == multiset(calls) ::
               Verdict(other, sequence, exact, le) <==> Verdict(calls, sequence, exact, le)) <==>
            TiedAlike(calls, le)
  {
    if TiedAlike(calls, le) {
      forall other, sequence, exact | multiset(other) == multiset(calls)
        ensures Verdict(other, sequence, exact, le) <==> Verdict(calls, sequence, exact, le)
      {
        SameVerdict(calls, other, sequence, exact, le);
      }
    } else {
      var a, b, sequence := OrderShows(calls, le);
    }
  }

  /** Two calls to different vendors at the same time, and the selectors of both in turn:
      the order in which they were recorded decides, with `exact` and without. */
  lemma OrderCanDecide(le: (Call, Call) -> bool)
    requires TotalPreorder(le)
    requires forall x: Call, y: Call | x.occurredAt == y.occurredAt :: le(x, y)
    ensures var x, y := Call("a", None, None, None, "t"), Call("b", None, None, None, "t");
            forall exact ::
              Verdict([x, y], [Any(x), Any(y)], exact, le) && !Verdict([y, x], [Any(x), Any(y)], exact, le)
  {
    var x, y := Call("a", None, None, None, "t"), Call("b", None, None, None, "t");
    SortPair(x, y, le);
    SortPair(y, x, le);
    ExactMeansPositionwise([x, y], [Any(x), Any(y)]);
    ExactMeansPositionwise([y, x], [Any(x), Any(y)]);
    assert Matches([x, y][0], Any(x)) && Matches([x, y][1], Any(y)) && !Matches([y, x][0], Any(x));
  }
}
