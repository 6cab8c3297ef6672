/** `Array.prototype.sort`: a stable sort by a comparison that is a total preorder. */
module Sorting {

  ghost predicate TotalPreorder<T(!new)>(le: (T, T) -> bool) {
    (forall a, b :: le(a, b) || le(b, a)) && forall a, b, c :: le(a, b) && le(b, c) ==> le(a, c)
  }

  ghost predicate Sorted<T>(s: seq<T>, le: (T, T) -> bool) {
    forall i, j | 0 <= i < j < |s| :: le(s[i], s[j])
  }

  /** Insert `x` before the first element it does not exceed. */
  function Insert<T>(x: T, s: seq<T>, le: (T, T) -> bool): seq<T> {
    if s == [] || le(x, s[0]) then [x] + s else [s[0]] + Insert(x, s[1..], le)
  }

  function Sort<T>(s: seq<T>, le: (T, T) -> bool): seq<T> {
    if s == [] then [] else Insert(s[0], Sort(s[1..], le), le)
  }

  lemma SortPair<T>(x: T, y: T, le: (T, T) -> bool)
    requires le(x, y)
    ensures Sort([x, y], le) == [x, y]
  {
    assert [x, y][1..] == [y] && [y][1..] == [];
    assert Sort([y], le) == Insert(y, [], le) == [y];
  }

  lemma {:induction false} InsertPermutes<T>(x: T, s: seq<T>, le: (T, T) -> bool)
    ensures multiset(Insert(x, s, le)) == multiset(s) + multiset{x}
  {
    if s != [] && !le(x, s[0]) {
      InsertPermutes(x, s[1..], le);
      assert s == [s[0]] + s[1..];
    }
  }

  /** Sorting rearranges its input. */
  lemma {:induction false} SortPermutes<T>(s: seq<T>, le: (T, T) -> bool)
    ensures multiset(Sort(s, le)) == multiset(s)
    ensures |Sort(s, le)| == |s|
  {
    if s == [] {
    } else {
      SortPermutes(s[1..], le);
      InsertPermutes(s[0], Sort(s[1..], le), le);
      assert s == [s[0]] + s[1..];
    }
    assert |Sort(s, le)| == |multiset(Sort(s, le))| && |s| == |multiset(s)|;
  }

  lemma {:induction false} InsertSorted<T(!new)>(x: T, s: seq<T>, le: (T, T) -> bool)
    requires TotalPreorder(le) && Sorted(s, le)
    ensures Sorted(Insert(x, s, le), le)
  {
    if s != [] && !le(x, s[0]) {
      InsertSorted(x, s[1..], le);
      var r := Insert(x, s[1..], le);
      InsertPermutes(x, s[1..], le);
      forall i | 0 <= i < |r| ensures le(s[0], r[i]) {
        assert r[i] in multiset(r);
        if r[i] != x { assert r[i] in s[1..]; }
      }
    }
  }

  lemma {:induction false} SortSorted<T(!new)>(s: seq<T>, le: (T, T) -> bool)
    requires TotalPreorder(le)
    ensures Sorted(Sort(s, le), le)
  {
    if s == [] {
    } else {
      SortSorted(s[1..], le);
      InsertSorted(s[0], Sort(s[1..], le), le);
    }
  }

  lemma SameElements<T>(a: seq<T>, b: seq<T>, x: T)
    requires multiset(a) == multiset(b)
    ensures x in a <==> x in b
  {
    assert x in multiset(a) <==> x in multiset(b);
  }

  lemma SortElements<T>(s: seq<T>, le: (T, T) -> bool, x: T)
    ensures x in Sort(s, le) <==> x in s
  {
    SortPermutes(s, le);
    SameElements(s, Sort(s, le), x);
  }

  /** No two different elements of `s` tie. */
  ghost predicate NoTies<T>(s: seq<T>, le: (T, T) -> bool) {
    forall x, y | x in s && y in s && le(x, y) && le(y, x) :: x == y
  }

  lemma FirstIsLeast<T(!new)>(s: seq<T>, le: (T, T) -> bool, x: T)
    requires TotalPreorder(le) && Sorted(s, le) && x in s
    ensures le(s[0], x)
  {
    var i :| 0 <= i < |s| && s[i] == x;
    assert le(s[0], s[0]);
  }

  lemma TailSorted<T>(s: seq<T>, le: (T, T) -> bool)
    requires Sorted(s, le) && s != []
    ensures Sorted(s[1..], le)
    ensures multiset(s[1..]) == multiset(s) - multiset{s[0]}
  {
    assert s == [s[0]] + s[1..];
  }

  /** A sorted arrangement of elements without ties is unique. */
  lemma {:induction false} SortedUnique<T(!new)>(a: seq<T>, b: seq<T>, le: (T, T) -> bool)
    requires TotalPreorder(le)
    requires multiset(a) == multiset(b) && Sorted(a, le) && Sorted(b, le) && NoTies(a, le)
    ensures a == b
    decreases |a|
  {
    assert |a| == |multiset(a)| && |multiset(b)| == |b|;
    if a == [] {
    } else {
      SameElements(a, b, a[0]);
      SameElements(a, b, b[0]);
      FirstIsLeast(a, le, b[0]);
      FirstIsLeast(b, le, a[0]);
      TailSorted(a, le);
      TailSorted(b, le);
      forall x, y | x in a[1..] && y in a[1..] && le(x, y) && le(y, x) ensures x == y {
        assert x in a && y in a;
      }
      SortedUnique(a[1..], b[1..], le);
    }
  }

  /** Sorting does not depend on the input order when no two different elements tie. */
  lemma SortIgnoresOrder<T(!new)>(a: seq<T>, b: seq<T>, le: (T, T) -> bool)
    requires TotalPreorder(le) && multiset(a) == multiset(b) && NoTies(a, le)
    ensures Sort(a, le) == Sort(b, le)
  {
    SortSorted(a, le);
    SortSorted(b, le);
    SortPermutes(a, le);
    SortPermutes(b, le);
    forall x, y | x in Sort(a, le) && y in Sort(a, le) && le(x, y) && le(y, x) ensures x == y {
      SortElements(a, le, x);
      SortElements(a, le, y);
    }
    SortedUnique(Sort(a, le), Sort(b, le), le);
  }

  lemma {:induction false} InsertTied<T(!new)>(x: T, y: T, s: seq<T>, le: (T, T) -> bool)
    requires TotalPreorder(le) && x != y && le(x, y) && le(y, x)
    ensures Insert(x, Insert(y, s, le), le) != Insert(y, Insert(x, s, le), le)
  {
    var a, b := Insert(x, Insert(y, s, le), le), Insert(y, Insert(x, s, le), le);
    if s == [] || le(y, s[0]) {
      assert s != [] ==> le(x, s[0]);
      assert a[0] == x && b[0] == y;
    } else {
      assert !le(x, s[0]);
      InsertTied(x, y, s[1..], le);
      assert Insert(y, s, le)[1..] == Insert(y, s[1..], le) && Insert(x, s, le)[1..] == Insert(x, s[1..], le);
      assert a[1..] == Insert(x, Insert(y, s[1..], le), le) && b[1..] == Insert(y, Insert(x, s[1..], le), le);
    }
  }

  lemma RemoveOne<T>(s: seq<T>, x: T) returns (rest: seq<T>)
    requires x in s
    ensures multiset(s) == multiset(rest) + multiset{x}
  {
    var i :| 0 <= i < |s| && s[i] == x;
    rest := s[..i] + s[i + 1..];
    assert s == s[..i] + ([s[i]] + s[i + 1..]);
  }

  lemma RemoveTwo<T>(s: seq<T>, x: T, y: T) returns (rest: seq<T>)
    requires x in s && y in s && x != y
    ensures multiset([x] + ([y] + rest)) == multiset(s) && multiset([y] + ([x] + rest)) == multiset(s)
  {
    var without := RemoveOne(s, x);
    assert y in multiset(s) && y in multiset(without);
    rest := RemoveOne(without, y);
  }

  lemma SwappedSort<T(!new)>(x: T, y: T, rest: seq<T>, le: (T, T) -> bool)
    requires TotalPreorder(le) && x != y && le(x, y) && le(y, x)
    ensures Sort([x] + ([y] + rest), le) != Sort([y] + ([x] + rest), le)
  {
    assert ([x] + ([y] + rest))[1..] == [y] + rest && ([y] + ([x] + rest))[1..] == [x] + rest;
    assert ([y] + rest)[1..] == rest && ([x] + rest)[1..] == rest;
    InsertTied(x, y, Sort(rest, le), le);
  }

  /** When two different elements tie, some rearrangement of the input sorts differently. */
  lemma OrderMattersForTies<T(!new)>(s: seq<T>, le: (T, T) -> bool) returns (a: seq<T>, b: seq<T>)
    requires TotalPreorder(le) && !NoTies(s, le)
    ensures multiset(a) == multiset(s) && multiset(b) == multiset(s)
    ensures Sort(a, le) != Sort(b, le)
  {
    var x, y :| x in s && y in s && le(x, y) && le(y, x) && x != y;
    var rest := RemoveTwo(s, x, y);
    a, b := [x] + ([y] + rest), [y] + ([x] + rest);
    SwappedSort(x, y, rest, le);
  }

  // ----- ties, position by position -----

  function Count<T>(s: seq<T>, p: T -> bool): nat {
    if s == [] then 0 else (if p(s[0]) then 1 else 0) + Count(s[1..], p)
  }

  lemma {:induction false} CountConcat<T>(a: seq<T>, b: seq<T>, p: T -> bool)
    ensures Count(a + b, p) == Count(a, p) + Count(b, p)
  {
    if a == [] {
      assert a + b == b;
    } else {
      assert (a + b)[1..] == a[1..] + b;
      CountConcat(a[1..], b, p);
    }
  }

  lemma CountWithout<T>(s: seq<T>, x: T, p: T -> bool) returns (rest: seq<T>)
    requires x in s
    ensures multiset(s) == multiset(rest) + multiset{x}
    ensures Count(s, p) == Count(rest, p) + if p(x) then 1 else 0
  {
    var i :| 0 <= i < |s| && s[i] == x;
    var after := s[i + 1..];
    rest := s[..i] + after;
    assert s == s[..i] + ([x] + after) && ([x] + after)[1..] == after;
    CountConcat(s[..i], after, p);
    CountConcat(s[..i], [x] + after, p);
  }

  lemma SameWithout<T>(a: seq<T>, b: multiset<T>)
    requires a != [] && multiset(a) == b + multiset{a[0]}
    ensures multiset(a[1..]) == b
  {
    assert a == [a[0]] + a[1..];
    assert multiset(a) == multiset{a[0]} + multiset(a[1..]);
    assert multiset(a) - multiset{a[0]} == multiset(a[1..]);
    assert (b + multiset{a[0]}) - multiset{a[0]} == b;
  }

  lemma {:induction false} CountSame<T>(a: seq<T>, b: seq<T>, p: T -> bool)
    requires multiset(a) == multiset(b)
    ensures Count(a, p) == Count(b, p)
    decreases |a|
  {
    if a == [] {
      assert |b| == |multiset(b)| == 0;
    } else {
      SameElements(a, b, a[0]);
      var rest := CountWithout(b, a[0], p);
      SameWithout(a, multiset(rest));
      CountSame(a[1..], rest, p);
    }
  }

  lemma {:induction false} CountAll<T>(s: seq<T>, p: T -> bool)
    ensures Count(s, p) <= |s|
    ensures (forall x | x in s :: p(x)) ==> Count(s, p) == |s|
    ensures (forall x | x in s :: !p(x)) ==> Count(s, p) == 0
  {
    if s == [] {
    } else {
      CountAll(s[1..], p);
    }
  }

  /** Of two sorted arrangements of the same elements neither is ahead at any position. */
  lemma SortedTied<T(!new)>(a: seq<T>, b: seq<T>, le: (T, T) -> bool, i: nat)
    requires TotalPreorder(le) && multiset(a) == multiset(b) && Sorted(a, le) && Sorted(b, le)
    requires i < |a| && i < |b|
    ensures le(a[i], b[i])
  {
    if !le(a[i], b[i]) {
      var less := x => !le(a[i], x);
      assert a == a[..i] + a[i..] && b == b[..i + 1] + b[i + 1..];
      forall x | x in a[i..] ensures !less(x) {
        var j :| i <= j < |a| && a[j] == x;
        assert le(a[i], a[i]);
      }
      forall x | x in b[..i + 1] ensures less(x) {
        var j :| 0 <= j <= i && b[j] == x;
        assert le(b[i], b[i]);
        assert le(x, b[i]);
      }
      CountConcat(a[..i], a[i..], less);
      CountConcat(b[..i + 1], b[i + 1..], less);
      CountAll(a[..i], less);
      CountAll(a[i..], less);
      CountAll(b[..i + 1], less);
      CountSame(a, b, less);
      assert false;
    }
  }

  /** Two elements that tie end up next to each other, the first to come first. */
  lemma {:induction false} InsertTwice<T(!new)>(x: T, y: T, s: seq<T>, le: (T, T) -> bool) returns (p: nat)
    requires TotalPreorder(le) && le(x, y) && le(y, x)
    ensures p <= |s|
    ensures Insert(x, Insert(y, s, le), le) == s[..p] + [x, y] + s[p..]
    ensures Insert(y, Insert(x, s, le), le) == s[..p] + [y, x] + s[p..]
  {
    if s == [] || le(y, s[0]) {
      assert s != [] ==> le(x, s[0]);
      p := 0;
      assert s[..0] + [x, y] + s[0..] == [x, y] + s && s[..0] + [y, x] + s[0..] == [y, x] + s;
      assert Insert(y, s, le) == [y] + s && Insert(x, s, le) == [x] + s;
    } else {
      assert !le(x, s[0]);
      var q := InsertTwice(x, y, s[1..], le);
      p := q + 1;
      assert Insert(y, s, le)[1..] == Insert(y, s[1..], le) && Insert(x, s, le)[1..] == Insert(x, s[1..], le);
      assert s[..p] == [s[0]] + s[1..][..q] && s[p..] == s[1..][q..];
    }
  }
}
