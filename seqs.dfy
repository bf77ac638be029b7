/** Generic operations on sequences: `filter`, `reverse` and taking a prefix or a suffix. */
module Seqs {

  function Filter<T>(s: seq<T>, p: T -> bool): (r: seq<T>)
    ensures |r| <= |s|
    ensures forall i :: 0 <= i < |r| ==> r[i] in s && p(r[i])
    ensures forall i :: 0 <= i < |s| && p(s[i]) ==> s[i] in r
  {
    if s == [] then [] else (if p(s[0]) then [s[0]] else []) + Filter(s[1..], p)
  }

  /** An element is kept exactly when it occurs and the predicate holds for it. */
  lemma FilterMember<T>(s: seq<T>, p: T -> bool, x: T)
    ensures x in Filter(s, p) <==> x in s && p(x)
  {
    var r := Filter(s, p);
    if x in r {
      var i :| 0 <= i < |r| && r[i] == x;
    }
    if x in s {
      var i :| 0 <= i < |s| && s[i] == x;
    }
  }

  lemma {:induction false} FilterAppend<T>(a: seq<T>, b: seq<T>, p: T -> bool)
    ensures Filter(a + b, p) == Filter(a, p) + Filter(b, p)
  {
    if a != [] {
      assert (a + b)[1..] == a[1..] + b;
      FilterAppend(a[1..], b, p);
    } else {
      assert a + b == b;
    }
  }

  lemma {:induction false} FilterAll<T>(s: seq<T>, p: T -> bool)
    requires forall i :: 0 <= i < |s| ==> p(s[i])
    ensures Filter(s, p) == s
  {
    if s != [] {
      FilterAll(s[1..], p);
    }
  }

  /** Filtering out the one element the predicate rejects. */
  lemma FilterDropsOnly<T>(a: seq<T>, x: T, b: seq<T>, p: T -> bool)
    requires forall i :: 0 <= i < |a| ==> p(a[i])
    requires forall i :: 0 <= i < |b| ==> p(b[i])
    requires !p(x)
    ensures Filter(a + [x] + b, p) == a + b
  {
    var ax := a + [x];
    FilterAll(a, p);
    FilterAll(b, p);
    FilterRejectsOne(x, p);
    FilterAppend(a, [x], p);
    assert Filter(ax, p) == a;
    FilterAppend(ax, b, p);
  }

  lemma FilterRejectsOne<T>(x: T, p: T -> bool)
    requires !p(x)
    ensures Filter([x], p) == []
  {
    assert [x][1..] == [];
  }

  /** Two predicates that agree on the elements filter alike. */
  lemma {:induction false} FilterCongruent<T>(s: seq<T>, p: T -> bool, q: T -> bool)
    requires forall i :: 0 <= i < |s| ==> (p(s[i]) <==> q(s[i]))
    ensures Filter(s, p) == Filter(s, q)
  {
    if s != [] {
      FilterCongruent(s[1..], p, q);
    }
  }

  /** No element occurs twice. */
  predicate NoDup<T(==)>(s: seq<T>) {
    forall i, j :: 0 <= i < j < |s| ==> s[i] != s[j]
  }

  lemma {:induction false} FilterNoDup<T>(s: seq<T>, p: T -> bool)
    requires NoDup(s)
    ensures NoDup(Filter(s, p))
  {
    if s != [] {
      var tail := s[1..];
      assert NoDup(tail) by {
        forall i, j | 0 <= i < j < |tail| ensures tail[i] != tail[j] {
          assert tail[i] == s[i + 1] && tail[j] == s[j + 1];
        }
      }
      FilterNoDup(tail, p);
      var rest := Filter(tail, p);
      if p(s[0]) {
        var r := [s[0]] + rest;
        forall i, j | 0 <= i < j < |r| ensures r[i] != r[j] {
          var k :| 0 <= k < |tail| && tail[k] == rest[j - 1];
          assert s[k + 1] == r[j];
          if i > 0 { assert r[i] == rest[i - 1]; }
        }
      }
    }
  }

  function Reverse<T>(s: seq<T>): (r: seq<T>)
    ensures |r| == |s|
    ensures forall i :: 0 <= i < |s| ==> r[i] == s[|s| - 1 - i]
  {
    if s == [] then [] else Reverse(s[1..]) + [s[0]]
  }

  /** The first n elements, none when n is not positive (`slice(0, n)` for n >= 0). */
  function Take<T>(s: seq<T>, n: int): (r: seq<T>)
    ensures |r| == if n < 0 then 0 else if n < |s| then n else |s|
    ensures r == s[..|r|]
  {
    if n <= 0 then [] else if n < |s| then s[..n] else s
  }

  lemma ReverseMultiset<T>(s: seq<T>)
    ensures multiset(Reverse(s)) == multiset(s)
  {
    if s != [] {
      ReverseMultiset(s[1..]);
      assert s == [s[0]] + s[1..];
    }
  }

  /** The last n elements. */
  function LastN<T>(s: seq<T>, n: nat): (r: seq<T>)
    ensures |r| == if |s| > n then n else |s|
    ensures r == s[|s| - |r|..]
  {
    if |s| > n then s[|s| - n..] else s
  }

  /** A `slice` bound as JavaScript resolves it against length n: a negative
      bound counts from the end, and the result is clamped to [0, n]. */
  function SliceBound(x: int, n: nat): (r: nat)
    ensures r <= n
    ensures 0 <= x <= n ==> r == x
    ensures x > n ==> r == n
    ensures x < 0 ==> r == if n + x < 0 then 0 else n + x
  {
    if x < 0 then (if n + x < 0 then 0 else n + x) else if x > n then n else x
  }

  /** `s.slice(start, end)` */
  function Slice<T>(s: seq<T>, start: int, end: int): (r: seq<T>)
    ensures |r| <= |s|
    ensures 0 <= start <= |s| && start <= end ==> r == s[start..SliceBound(end, |s|)]
    ensures start >= |s| ==> r == []
  {
    var a := SliceBound(start, |s|);
    var b := SliceBound(end, |s|);
    if a < b then s[a..b] else []
  }
  /** `s.map(f)` */
  function Map<T, U>(s: seq<T>, f: T -> U): (r: seq<U>)
    ensures |r| == |s|
    ensures forall i :: 0 <= i < |s| ==> r[i] == f(s[i])
  {
    if s == [] then [] else [f(s[0])] + Map(s[1..], f)
  }

  /** `[...new Set(s)]`: the first occurrence of each element, in order. */
  function Distinct<T(==)>(s: seq<T>): (r: seq<T>)
    ensures NoDup(r)
    ensures forall i :: 0 <= i < |r| ==> r[i] in s
    ensures forall i :: 0 <= i < |s| ==> s[i] in r
    decreases |s|
  {
    if s == [] then []
    else
      var front := Distinct(s[..|s| - 1]);
      var last := s[|s| - 1];
      assert forall i :: 0 <= i < |s| - 1 ==> s[i] == s[..|s| - 1][i];
      if last in front then front else front + [last]
  }
}
