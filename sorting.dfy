/** Ordering and sorting shared by the table queries and the pages' sort
    comparators: a sort key is a number or a text, numbers order before texts
    (as IndexedDB orders keys), texts by character codes. */
module Sorting {
  import opened Seqs

  datatype Key = IntKey(i: int) | TextKey(t: string)

  /** Character-code order on texts: a proper prefix comes first. */
  predicate TextLe(a: string, b: string)
    decreases |a|
  {
    a == [] || (b != [] && (a[0] < b[0] || (a[0] == b[0] && TextLe(a[1..], b[1..]))))
  }

  predicate KeyLe(a: Key, b: Key) {
    match (a, b)
    case (IntKey(x), IntKey(y)) => x <= y
    case (IntKey(_), TextKey(_)) => true
    case (TextKey(_), IntKey(_)) => false
    case (TextKey(x), TextKey(y)) => TextLe(x, y)
  }

  /** a may stand before b in ascending order, or in descending order when desc is set. */
  predicate Before(a: Key, b: Key, desc: bool) {
    if desc then KeyLe(b, a) else KeyLe(a, b)
  }

  lemma {:induction false} TextLeTotal(a: string, b: string)
    ensures TextLe(a, b) || TextLe(b, a)
    decreases |a|
  {
    if a != [] && b != [] && a[0] == b[0] {
      TextLeTotal(a[1..], b[1..]);
    }
  }

  lemma {:induction false} TextLeTransitive(a: string, b: string, c: string)
    requires TextLe(a, b) && TextLe(b, c)
    ensures TextLe(a, c)
    decreases |a|
  {
    if a != [] && b != [] && c != [] && a[0] == b[0] && b[0] == c[0] {
      TextLeTransitive(a[1..], b[1..], c[1..]);
    }
  }

  lemma {:induction false} TextLeAntisymmetric(a: string, b: string)
    requires TextLe(a, b) && TextLe(b, a)
    ensures a == b
    decreases |a|
  {
    if a != [] {
      TextLeAntisymmetric(a[1..], b[1..]);
      assert a == [a[0]] + a[1..] && b == [b[0]] + b[1..];
    }
  }

  lemma BeforeTotal(a: Key, b: Key, desc: bool)
    ensures Before(a, b, desc) || Before(b, a, desc)
  {
    if a.TextKey? && b.TextKey? { TextLeTotal(a.t, b.t); }
  }

  lemma BeforeTransitive(a: Key, b: Key, c: Key, desc: bool)
    requires Before(a, b, desc) && Before(b, c, desc)
    ensures Before(a, c, desc)
  {
    if a.TextKey? && b.TextKey? && c.TextKey? {
      if desc { TextLeTransitive(c.t, b.t, a.t); } else { TextLeTransitive(a.t, b.t, c.t); }
    }
  }

  /** Every earlier element may stand before every later one. */
  predicate Sorted<T>(s: seq<T>, key: T -> Key, desc: bool) {
    forall i, j :: 0 <= i < j < |s| ==> Before(key(s[i]), key(s[j]), desc)
  }

  /** x placed before the first element it may precede. */
  function Insert<T>(x: T, s: seq<T>, key: T -> Key, desc: bool): (r: seq<T>)
    requires Sorted(s, key, desc)
    ensures multiset(r) == multiset(s) + multiset{x}
    ensures |r| == |s| + 1
    ensures Sorted(r, key, desc)
  {
    if s == [] || Before(key(x), key(s[0]), desc) then
      assert forall j :: 0 < j < |s| ==> Before(key(s[0]), key(s[j]), desc);
      forall j | 0 <= j < |s|
        ensures Before(key(x), key(s[j]), desc)
      {
        if j > 0 { BeforeTransitive(key(x), key(s[0]), key(s[j]), desc); }
      }
      [x] + s
    else
      BeforeTotal(key(x), key(s[0]), desc);
      var rest := Insert(x, s[1..], key, desc);
      assert s == [s[0]] + s[1..];
      forall e | e in multiset(rest)
        ensures Before(key(s[0]), key(e), desc)
      {
        if e != x {
          assert e in multiset(s[1..]);
          var j :| 0 <= j < |s[1..]| && s[1..][j] == e;
          assert s[j + 1] == e;
        }
      }
      forall i | 0 <= i < |rest|
        ensures Before(key(s[0]), key(rest[i]), desc)
      {
        assert rest[i] in multiset(rest);
      }
      [s[0]] + rest
  }

  /** A stable insertion sort: the elements of s, ordered by key. */
  function SortBy<T>(s: seq<T>, key: T -> Key, desc: bool): (r: seq<T>)
    ensures multiset(r) == multiset(s)
    ensures |r| == |s|
    ensures Sorted(r, key, desc)
  {
    if s == [] then []
    else
      assert s == [s[0]] + s[1..];
      Insert(s[0], SortBy(s[1..], key, desc), key, desc)
  }

  /** Reversing a list sorted one way gives it sorted the other way. */
  lemma ReverseSorted<T>(s: seq<T>, key: T -> Key, desc: bool)
    requires Sorted(s, key, desc)
    ensures Sorted(Reverse(s), key, !desc)
  {
    var r := Reverse(s);
    forall i, j | 0 <= i < j < |r|
      ensures Before(key(r[i]), key(r[j]), !desc)
    {
      assert r[i] == s[|s| - 1 - i] && r[j] == s[|s| - 1 - j];
    }
  }
}
