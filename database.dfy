/** The local IndexedDB tables (src/db/database.js), each as an in-memory table.
    Timestamps are instants on a clock that never runs backwards (the ISO strings
    the application stores order the same way); `now` is the clock's reading
    passed to each call that stamps a record. Each asynchronous call is one step. */
module Database {
  import opened Js
  import opened Sorting
  import opened Seqs
  import opened Text

  /** A record of a table with an auto-incremented id: the indexed key field
      (bookId or query) and the time stamp (viewedAt or timestamp). */
  datatype Row<K> = Row(id: nat, key: K, stamp: nat)

  predicate IdsIncreasing<K>(rows: seq<Row<K>>) {
    forall i, j :: 0 <= i < j < |rows| ==> rows[i].id < rows[j].id
  }

  predicate StampsInOrder<K>(rows: seq<Row<K>>) {
    forall i, j :: 0 <= i < j < |rows| ==> rows[i].stamp <= rows[j].stamp
  }

  /** A row that precedes, by id and stamp, every row of an ordered table may be put in front of it. */
  lemma ConsKeepsOrder<K>(x: Row<K>, rest: seq<Row<K>>)
    requires IdsIncreasing(rest) && StampsInOrder(rest)
    requires forall i :: 0 <= i < |rest| ==> x.id < rest[i].id && x.stamp <= rest[i].stamp
    ensures IdsIncreasing([x] + rest) && StampsInOrder([x] + rest)
  {
    var s := [x] + rest;
    forall i, j | 0 <= i < j < |s|
      ensures s[i].id < s[j].id && s[i].stamp <= s[j].stamp
    {
      assert s[j] == rest[j - 1];
      if i > 0 { assert s[i] == rest[i - 1]; }
    }
  }

  /** A filtered table keeps its rows in order, so ids stay increasing and stamps in order. */
  lemma {:induction false} FilterKeepsOrder<K>(rows: seq<Row<K>>, p: Row<K> -> bool)
    requires IdsIncreasing(rows) && StampsInOrder(rows)
    ensures IdsIncreasing(Filter(rows, p)) && StampsInOrder(Filter(rows, p))
  {
    if rows != [] {
      var tail := rows[1..];
      assert IdsIncreasing(tail) && StampsInOrder(tail) by {
        forall i, j | 0 <= i < j < |tail|
          ensures tail[i].id < tail[j].id && tail[i].stamp <= tail[j].stamp
        {
          assert tail[i] == rows[i + 1] && tail[j] == rows[j + 1];
        }
      }
      FilterKeepsOrder(tail, p);
      var rest := Filter(tail, p);
      forall i | 0 <= i < |rest|
        ensures rows[0].id < rest[i].id && rows[0].stamp <= rest[i].stamp
      {
        var j :| 0 <= j < |tail| && tail[j] == rest[i];
        assert rows[j + 1] == rest[i];
      }
      if p(rows[0]) {
        ConsKeepsOrder(rows[0], rest);
      }
    }
  }

  /** The key field of each row, in order (`rows.map(r => r.bookId)`). */
  function Keys<K>(rows: seq<Row<K>>): (ks: seq<K>)
    ensures |ks| == |rows| && forall i :: 0 <= i < |rows| ==> ks[i] == rows[i].key
  {
    seq(|rows|, i requires 0 <= i < |rows| => rows[i].key)
  }

  function KeyIsNot<K(==)>(k: K): Row<K> -> bool {
    (r: Row<K>) => r.key != k
  }

  function IdIsNot<K>(id: nat): Row<K> -> bool {
    (r: Row<K>) => r.id != id
  }

  /** `.where(key).equals(k).delete()` */
  function WithoutKey<K(==)>(rows: seq<Row<K>>, k: K): seq<Row<K>> {
    Filter(rows, KeyIsNot(k))
  }

  /** `.delete(id)` */
  function WithoutId<K>(rows: seq<Row<K>>, id: nat): seq<Row<K>> {
    Filter(rows, IdIsNot(id))
  }

  /** `.orderBy(stamp).reverse().limit(n).toArray()`, for rows in stamp order
      (ties are broken by primary key, which is insertion order). */
  function NewestFirst<K>(rows: seq<Row<K>>, n: int): seq<Row<K>> {
    Take(Reverse(rows), n)
  }

  /** The newest-first listing is ordered by descending stamp and holds at most n rows. */
  lemma NewestFirstOrdered<K>(rows: seq<Row<K>>, n: int)
    requires StampsInOrder(rows)
    ensures |NewestFirst(rows, n)| <= (if n < 0 then 0 else n)
    ensures forall i, j :: 0 <= i < j < |NewestFirst(rows, n)| ==> NewestFirst(rows, n)[i].stamp >= NewestFirst(rows, n)[j].stamp
    ensures forall i :: 0 <= i < |NewestFirst(rows, n)| ==> NewestFirst(rows, n)[i] == rows[|rows| - 1 - i]
  {
  }

  /** Deleting the row with the given id from a table with distinct ids removes exactly that row. */
  lemma WithoutIdRemovesOne<K>(a: seq<Row<K>>, x: Row<K>, b: seq<Row<K>>)
    requires forall i :: 0 <= i < |a| ==> a[i].id != x.id
    requires forall i :: 0 <= i < |b| ==> b[i].id != x.id
    ensures WithoutId(a + [x] + b, x.id) == a + b
  {
    FilterDropsOnly(a, x, b, IdIsNot(x.id));
  }

  /** In a table with increasing ids, no other row shares the id of a given row. */
  lemma SplitIdsDistinct<K>(rows: seq<Row<K>>, a: seq<Row<K>>, x: Row<K>, b: seq<Row<K>>)
    requires IdsIncreasing(rows) && rows == a + [x] + b
    ensures forall i :: 0 <= i < |a| ==> a[i].id != x.id
    ensures forall i :: 0 <= i < |b| ==> b[i].id != x.id
  {
    assert rows[|a|] == x;
    forall i | 0 <= i < |a| ensures a[i].id != x.id {
      assert rows[i] == a[i];
    }
    forall i | 0 <= i < |b| ensures b[i].id != x.id {
      assert rows[|a| + 1 + i] == b[i];
    }
  }

  /** A Dexie table with an auto-incremented primary key, an indexed key field and
      an indexed time stamp. Rows are kept in primary-key order. */
  class StampedTable<K(==)> {
    var rows: seq<Row<K>>
    var nextId: nat

    ghost predicate Valid()
      reads this
    {
      IdsIncreasing(rows) && StampsInOrder(rows) && forall i :: 0 <= i < |rows| ==> rows[i].id < nextId
    }

    /** The clock's reading is not earlier than any stamp in the table. */
    predicate ClockOk(now: nat)
      reads this
    {
      forall i :: 0 <= i < |rows| ==> rows[i].stamp <= now
    }

    constructor ()
      ensures Valid() && rows == [] && nextId == 1
    {
      rows := [];
      nextId := 1;
    }

    method DeleteKey(k: K)
      requires Valid()
      modifies this`rows
      ensures Valid() && rows == WithoutKey(old(rows), k)
    {
      FilterKeepsOrder(rows, KeyIsNot(k));
      rows := WithoutKey(rows, k);
    }

    method DeleteId(id: nat)
      requires Valid()
      modifies this`rows
      ensures Valid() && rows == WithoutId(old(rows), id)
    {
      FilterKeepsOrder(rows, IdIsNot(id));
      rows := WithoutId(rows, id);
    }

    /** `.add({ key, stamp })`: the record gets the next id. */
    method Add(k: K, now: nat) returns (id: nat)
      requires Valid() && ClockOk(now)
      modifies this
      ensures Valid() && id == old(nextId) && nextId == old(nextId) + 1
      ensures rows == old(rows) + [Row(id, k, now)]
    {
      id := nextId;
      rows := rows + [Row(id, k, now)];
      nextId := nextId + 1;
    }

    method Clear()
      requires Valid()
      modifies this`rows
      ensures Valid() && rows == []
    {
      rows := [];
    }

    /** Deletes, one by one, every row after the first cap of the newest-first
        listing, so that the cap newest rows remain. */
    method KeepNewest(cap: nat)
      requires Valid()
      modifies this`rows
      ensures Valid() && rows == LastN(old(rows), cap)
    {
      var all := Reverse(rows);
      if |all| > cap {
        ghost var was := rows;
        var n := |all|;
        var toDelete := all[cap..];
        var i := 0;
        while i < |toDelete|
          invariant 0 <= i <= |toDelete| == n - cap
          invariant Valid()
          invariant rows == was[..n - cap - i] + was[n - cap..]
        {
          var x := was[n - cap - 1 - i];
          assert toDelete[i] == x;
          assert was[..n - cap - i] == was[..n - cap - 1 - i] + [x];
          SplitIdsDistinct(rows, was[..n - cap - 1 - i], x, was[n - cap..]);
          WithoutIdRemovesOne(was[..n - cap - 1 - i], x, was[n - cap..]);
          DeleteId(toDelete[i].id);
          i := i + 1;
        }
        assert rows == was[n - cap..];
      }
    }
  }

  /** The rows after an add of key k at time now with id `id`: earlier rows with
      that key removed, the new row appended, the cap newest kept. */
  function AfterAdd<K(==)>(rows: seq<Row<K>>, k: K, id: nat, now: nat, cap: nat): (r: seq<Row<K>>)
    ensures |r| <= cap
    ensures forall i :: 0 <= i < |r| ==> r[i] == Row(id, k, now) || (r[i] in rows && r[i].key != k)
  {
    var w := WithoutKey(rows, k);
    var r := LastN(w + [Row(id, k, now)], cap);
    forall i | 0 <= i < |r| ensures r[i] == Row(id, k, now) || (r[i] in rows && r[i].key != k) {
      var x := r[i];
      assert x in w + [Row(id, k, now)];
      if x != Row(id, k, now) {
        assert x in w;
        FilterMember(rows, KeyIsNot(k), x);
      }
    }
    r
  }

  /** After an add, the new row is the newest, it is the only row with its key,
      at most cap rows remain, and the others are the newest rows of the other
      keys, in their original order. */
  lemma AfterAddProperties<K>(rows: seq<Row<K>>, k: K, id: nat, now: nat, cap: nat)
    requires cap >= 1
    ensures var r := AfterAdd(rows, k, id, now, cap);
            && 1 <= |r| <= cap
            && r[|r| - 1] == Row(id, k, now)
            && (forall i :: 0 <= i < |r| - 1 ==> r[i].key != k)
            && r[..|r| - 1] == LastN(WithoutKey(rows, k), |r| - 1)
  {
    var w := WithoutKey(rows, k);
    var r := AfterAdd(rows, k, id, now, cap);
    LastNOfAppended(w, Row(id, k, now), cap);
    forall i | 0 <= i < |r| - 1 ensures r[i].key != k {
      FilterMember(rows, KeyIsNot(k), r[i]);
    }
  }

  /** The last cap elements of w + [x]: x last, after the newest elements of w. */
  lemma LastNOfAppended<T>(w: seq<T>, x: T, cap: nat)
    requires cap >= 1
    ensures var r := LastN(w + [x], cap);
            && 1 <= |r| <= cap
            && r[|r| - 1] == x
            && (forall i :: 0 <= i < |r| - 1 ==> r[i] in w)
            && r[..|r| - 1] == LastN(w, |r| - 1)
  {
    var s := w + [x];
    var r := LastN(s, cap);
    assert r == s[|s| - |r|..];
    forall i | 0 <= i < |r| - 1 ensures r[i] in w {
      assert r[i] == w[|s| - |r| + i];
    }
    assert r[..|r| - 1] == w[|w| - (|r| - 1)..];
  }

  /** Exactly one row carries the added key. */
  lemma {:induction false} AfterAddExactlyOnce<K>(rows: seq<Row<K>>, k: K, id: nat, now: nat, cap: nat)
    requires cap >= 1
    ensures multiset(Keys(AfterAdd(rows, k, id, now, cap)))[k] == 1
  {
    AfterAddProperties(rows, k, id, now, cap);
    var r := AfterAdd(rows, k, id, now, cap);
    var ks := Keys(r);
    assert ks == Keys(r[..|r| - 1]) + [k];
    assert k !in Keys(r[..|r| - 1]);
  }

  /** Removing k from rows that end with the only k row gives the rows before it. */
  lemma WithoutKeyOfAdded<K>(front: seq<Row<K>>, x: Row<K>)
    requires forall i :: 0 <= i < |front| ==> front[i].key != x.key
    ensures WithoutKey(front + [x], x.key) == front
  {
    var p := KeyIsNot(x.key);
    FilterAppend(front, [x], p);
    FilterAll(front, p);
    assert Filter([x], p) == [];
  }

  /** Adding the same key twice leaves the same keys, in the same order, as adding it once. */
  lemma {:induction false} AfterAddTwice<K>(rows: seq<Row<K>>, k: K, id1: nat, now1: nat, id2: nat, now2: nat, cap: nat)
    requires cap >= 1
    ensures Keys(AfterAdd(AfterAdd(rows, k, id1, now1, cap), k, id2, now2, cap)) == Keys(AfterAdd(rows, k, id1, now1, cap))
  {
    var r1 := AfterAdd(rows, k, id1, now1, cap);
    AfterAddProperties(rows, k, id1, now1, cap);
    var front := r1[..|r1| - 1];
    assert r1 == front + [Row(id1, k, now1)];
    WithoutKeyOfAdded(front, Row(id1, k, now1));
    var r2 := AfterAdd(r1, k, id2, now2, cap);
    assert r2 == front + [Row(id2, k, now2)];
    assert Keys(r1) == Keys(r2);
  }

  /** With room left, adding a key not yet present keeps every row and appends the new one. */
  lemma AddNewKeyKeepsAll<K>(rows: seq<Row<K>>, k: K, id: nat, now: nat, cap: nat)
    requires |rows| < cap && forall i :: 0 <= i < |rows| ==> rows[i].key != k
    ensures AfterAdd(rows, k, id, now, cap) == rows + [Row(id, k, now)]
  {
    FilterAll(rows, KeyIsNot(k));
  }

  // viewedBooksAPI

  const ViewedBooksCap := 10

  /** `viewedBooksAPI.getAll`: the 10 newest views, newest first. */
  function ViewedBooksGetAll(t: StampedTable<Value>): (r: seq<Row<Value>>)
    reads t
    ensures Reverse(r) == LastN(t.rows, ViewedBooksCap)
    ensures StampsInOrder(t.rows) ==> forall i, j :: 0 <= i < j < |r| ==> r[i].stamp >= r[j].stamp
  {
    ReverseTakeReverse(t.rows, ViewedBooksCap);
    if StampsInOrder(t.rows) then
      NewestFirstOrdered(t.rows, ViewedBooksCap);
      NewestFirst(t.rows, ViewedBooksCap)
    else NewestFirst(t.rows, ViewedBooksCap)
  }

  /** `viewedBooksAPI.add(bookId)`: delete the book's earlier views, add a view
      stamped now, then delete all but the 10 newest. */
  method ViewedBooksAdd(t: StampedTable<Value>, bookId: Value, now: nat)
    requires t.Valid() && t.ClockOk(now)
    modifies t
    ensures t.Valid()
    ensures t.rows == AfterAdd(old(t.rows), bookId, old(t.nextId), now, ViewedBooksCap)
    ensures t.nextId == old(t.nextId) + 1
    ensures t.ClockOk(now)
  {
    t.DeleteKey(bookId);
    assert t.ClockOk(now);
    var _ := t.Add(bookId, now);
    ghost var added := t.rows;
    t.KeepNewest(ViewedBooksCap);
    assert forall i :: 0 <= i < |t.rows| ==> t.rows[i] == added[|added| - |t.rows| + i];
  }

  method ViewedBooksClear(t: StampedTable<Value>)
    requires t.Valid()
    modifies t
    ensures t.Valid() && t.rows == [] && t.nextId == old(t.nextId)
  {
    t.Clear();
  }

  // searchHistoryAPI

  const SearchHistoryCap := 20
  const DefaultRecentSearches := 10

  /** `searchHistoryAPI.getRecent(limit)` (the default limit is DefaultRecentSearches). */
  function SearchHistoryGetRecent(t: StampedTable<string>, limit: int): (r: seq<Row<string>>)
    reads t
    ensures Reverse(r) == LastN(t.rows, if limit < 0 then 0 else limit)
    ensures StampsInOrder(t.rows) ==> forall i, j :: 0 <= i < j < |r| ==> r[i].stamp >= r[j].stamp
  {
    ReverseTakeReverse(t.rows, if limit < 0 then 0 else limit);
    if StampsInOrder(t.rows) then
      NewestFirstOrdered(t.rows, limit);
      NewestFirst(t.rows, limit)
    else NewestFirst(t.rows, limit)
  }

  /** The guard of `searchHistoryAPI.add`: an empty or blank query is not
      recorded, so exactly the queries made only of white space are ignored. */
  predicate IgnoredQuery(query: string)
    ensures IgnoredQuery(query) <==> forall i :: 0 <= i < |query| ==> IsSpace(query[i])
  {
    TrimEmptyIffBlank(query);
    query == "" || Trim(query) == ""
  }

  /** `searchHistoryAPI.add(query)`: unless the query is blank, delete its exact
      (untrimmed) earlier entries, add it stamped now, keep the 20 newest. */
  method SearchHistoryAdd(t: StampedTable<string>, query: string, now: nat)
    requires t.Valid() && t.ClockOk(now)
    modifies t
    ensures t.Valid()
    ensures IgnoredQuery(query) ==> t.rows == old(t.rows) && t.nextId == old(t.nextId)
    ensures !IgnoredQuery(query) ==>
              t.rows == AfterAdd(old(t.rows), query, old(t.nextId), now, SearchHistoryCap) && t.nextId == old(t.nextId) + 1
  {
    if query == "" || Trim(query) == "" {
      return;
    }
    t.DeleteKey(query);
    assert t.ClockOk(now);
    var _ := t.Add(query, now);
    t.KeepNewest(SearchHistoryCap);
  }

  method SearchHistoryClear(t: StampedTable<string>)
    requires t.Valid()
    modifies t
    ensures t.Valid() && t.rows == [] && t.nextId == old(t.nextId)
  {
    t.Clear();
  }

  /** A query differing only in surrounding blanks is a different entry: both are kept. */
  lemma UntrimmedQueriesAreDistinct(rows: seq<Row<string>>, id: nat, now: nat)
    requires |rows| < SearchHistoryCap - 1 && forall i :: 0 <= i < |rows| ==> rows[i].key != " rust"
    ensures AfterAdd(rows + [Row(0, "rust", 0)], " rust", id, now, SearchHistoryCap) ==
            rows + [Row(0, "rust", 0), Row(id, " rust", now)]
  {
    var s := rows + [Row(0, "rust", 0)];
    assert " rust" != "rust" by { assert |" rust"| != |"rust"|; }
    assert forall i :: 0 <= i < |s| ==> s[i].key != " rust" by {
      forall i | 0 <= i < |s| ensures s[i].key != " rust" {
        if i < |rows| { assert s[i] == rows[i]; }
      }
    }
    AddNewKeyKeepsAll(s, " rust", id, now, SearchHistoryCap);
  }

  // userDataAPI

  /** The `userData` table: one value per key. */
  class UserData {
    var items: map<string, Value>

    constructor ()
      ensures items == map[]
    {
      items := map[];
    }

    /** `userDataAPI.get(key)`: the stored value, or null for a missing key. */
    function Get(key: string): (v: Value)
      reads this
      ensures key in items ==> v == items[key]
      ensures key !in items ==> v == Null
    {
      if key in items then items[key] else Null
    }

    method Set(key: string, value: Value)
      modifies this
      ensures items == old(items)[key := value]
      ensures Get(key) == value && forall k :: k != key ==> Get(k) == old(Get(k))
    {
      items := items[key := value];
    }

    method Remove(key: string)
      modifies this
      ensures items == old(items) - {key}
      ensures Get(key) == Null && forall k :: k != key ==> Get(k) == old(Get(k))
    {
      items := items - {key};
    }

    method Clear()
      modifies this
      ensures items == map[]
    {
      items := map[];
    }
  }

  // authDataAPI

  datatype AuthRecord = AuthRecord(value: Value, updatedAt: nat)

  const CredentialsKey := "credentials"

  /** The `authData` table, of which the application uses the 'credentials' record. */
  class AuthData {
    var items: map<string, AuthRecord>

    constructor ()
      ensures items == map[]
    {
      items := map[];
    }

    /** `authDataAPI.getCredentials`: the saved `{ username, password }`, or null. */
    function GetCredentials(): (c: Value)
      reads this
      ensures CredentialsKey in items ==> c == items[CredentialsKey].value
      ensures CredentialsKey !in items ==> c == Null
    {
      if CredentialsKey in items then items[CredentialsKey].value else Null
    }

    /** `authDataAPI.hasCredentials`: a 'credentials' record holding a non-null value. */
    predicate HasCredentials()
      reads this
      ensures HasCredentials() <==> CredentialsKey in items && items[CredentialsKey].value != Null
    {
      GetCredentials() != Null
    }

    method SaveCredentials(username: Value, password: Value, now: nat)
      modifies this
      ensures items == old(items)[CredentialsKey := AuthRecord(Obj(map["username" := username, "password" := password]), now)]
      ensures GetCredentials() == Obj(map["username" := username, "password" := password]) && HasCredentials()
    {
      items := items[CredentialsKey := AuthRecord(Obj(map["username" := username, "password" := password]), now)];
    }

    method ClearCredentials()
      modifies this
      ensures items == old(items) - {CredentialsKey}
      ensures GetCredentials() == Null && !HasCredentials()
    {
      items := items - {CredentialsKey};
    }
  }

  // bookCacheAPI

  /** A primary key of the book cache: only numbers and strings are valid keys here. */
  predicate IsCacheKey(v: Value) {
    v.Num? || v.Str?
  }

  function KeyOf(v: Value): Key
    requires IsCacheKey(v)
  {
    if v.Num? then IntKey(v.n) else TextKey(v.s)
  }

  /** Strict IndexedDB key order: numbers before strings. */
  predicate KeyLess(a: Key, b: Key) {
    KeyLe(a, b) && a != b
  }

  lemma KeyLessTransitive(a: Key, b: Key, c: Key)
    requires KeyLess(a, b) && KeyLess(b, c)
    ensures KeyLess(a, c)
  {
    BeforeTransitive(a, b, c, false);
    if a == c && a.TextKey? {
      TextLeAntisymmetric(a.t, b.t);
    }
  }

  /** A cached record with its key and the instant it was cached. */
  datatype CacheRow = CacheRow(key: Key, record: Value, createdAt: nat)

  predicate CacheOrdered(s: seq<CacheRow>) {
    forall i, j :: 0 <= i < j < |s| ==> KeyLess(s[i].key, s[j].key)
  }

  /** `put`: the row replaces the one with the same key, or is inserted in key order. */
  function Upsert(s: seq<CacheRow>, e: CacheRow): (r: seq<CacheRow>)
    requires CacheOrdered(s)
    ensures CacheOrdered(r)
    ensures e in r
    ensures forall x :: x in r ==> x == e || (x in s && x.key != e.key)
    ensures forall x :: x in s && x.key != e.key ==> x in r
  {
    if s == [] then [e]
    else if s[0].key == e.key then
      forall x | x in s[1..] ensures x.key != e.key {
        var j :| 0 <= j < |s[1..]| && s[1..][j] == x;
        assert s[j + 1] == x;
      }
      assert s == [s[0]] + s[1..];
      [e] + s[1..]
    else if KeyLess(e.key, s[0].key) then
      forall j | 0 <= j < |s| ensures KeyLess(e.key, s[j].key) {
        if j > 0 { KeyLessTransitive(e.key, s[0].key, s[j].key); }
      }
      [e] + s
    else
      BeforeTotal(e.key, s[0].key, false);
      var rest := Upsert(s[1..], e);
      assert s == [s[0]] + s[1..];
      forall i | 0 <= i < |rest| ensures KeyLess(s[0].key, rest[i].key) {
        assert rest[i] in rest;
        if rest[i] != e {
          var j :| 0 <= j < |s[1..]| && s[1..][j] == rest[i];
          assert s[j + 1] == rest[i];
        }
      }
      [s[0]] + rest
  }

  const DayMs := 86400000
  const DefaultDaysOld := 7

  /** `bookCacheAPI.removeOld(daysOld)` keeps what was cached at or after this instant. */
  function Cutoff(now: nat, daysOld: int): (r: int)
    ensures daysOld >= 0 ==> r <= now
    ensures daysOld <= 0 ==> r >= now
    ensures daysOld == 1 ==> r == now - DayMs
  {
    now - daysOld * DayMs
  }

  function FindKey(s: seq<CacheRow>, k: Key): (r: Option<CacheRow>)
    ensures r.Some? ==> r.value in s && r.value.key == k
    ensures r.None? ==> forall i :: 0 <= i < |s| ==> s[i].key != k
  {
    if s == [] then None
    else if s[0].key == k then Some(s[0])
    else FindKey(s[1..], k)
  }

  /** In a cache ordered by key, at most one row has a given key. */
  lemma {:induction false} FindKeyUnique(s: seq<CacheRow>, e: CacheRow)
    requires CacheOrdered(s) && e in s
    ensures FindKey(s, e.key) == Some(e)
  {
    if s[0] != e {
      var j :| 0 <= j < |s| && s[j] == e;
      assert KeyLess(s[0].key, s[j].key);
      assert s[1..][j - 1] == e;
      FindKeyUnique(s[1..], e);
    }
  }

  /** The `bookCache` table, keyed by the book's `id`, listed in key order. */
  class BookCache {
    var entries: seq<CacheRow>

    ghost predicate Valid()
      reads this
    {
      CacheOrdered(entries)
    }

    constructor ()
      ensures Valid() && entries == []
    {
      entries := [];
    }

    /** `bookCacheAPI.get(id)`: the cached record, or undefined. */
    function GetEntry(id: Value): (r: Value)
      reads this
      ensures r != Undefined ==> IsCacheKey(id) && exists i :: 0 <= i < |entries| && entries[i].key == KeyOf(id) && entries[i].record == r
      ensures !IsCacheKey(id) || (forall i :: 0 <= i < |entries| ==> entries[i].key != KeyOf(id)) ==> r == Undefined
    {
      if !IsCacheKey(id) then Undefined
      else match FindKey(entries, KeyOf(id))
        case None => Undefined
        case Some(row) => row.record
    }

    /** `bookCacheAPI.getAll` */
    function GetAll(): (r: seq<Value>)
      reads this
      ensures |r| == |entries| && forall i :: 0 <= i < |r| ==> r[i] == entries[i].record
    {
      seq(|entries|, i requires 0 <= i < |entries| reads this => entries[i].record)
    }

    /** `bookCacheAPI.set(book)`: stores the book with `createdAt` set to
        `dateText`, the ISO text of the instant `now`; the row keeps `now` for
        `removeOld`. A book whose id is not a valid key makes the call fail and
        changes nothing. */
    method Set(book: Value, now: nat, dateText: string) returns (ok: bool)
      requires Valid()
      modifies this
      ensures Valid()
      ensures ok <==> IsCacheKey(Get(book, "id"))
      ensures !ok ==> entries == old(entries)
      ensures ok ==> entries == Upsert(old(entries), CacheRow(KeyOf(Get(book, "id")), Put(book, "createdAt", Str(dateText)), now))
      ensures ok ==> GetEntry(Get(book, "id")) == Put(book, "createdAt", Str(dateText))
    {
      var id := Get(book, "id");
      ok := IsCacheKey(id);
      if ok {
        var row := CacheRow(KeyOf(id), Put(book, "createdAt", Str(dateText)), now);
        entries := Upsert(entries, row);
        FindKeyUnique(entries, row);
      }
    }

    method Clear()
      modifies this
      ensures Valid() && entries == []
    {
      entries := [];
    }

    /** `bookCacheAPI.removeOld(daysOld)`: deletes exactly the records cached strictly
        before `daysOld` days ago, keeping the others in key order. */
    method RemoveOld(daysOld: int, now: nat)
      requires Valid()
      modifies this
      ensures Valid()
      ensures entries == Filter(old(entries), (e: CacheRow) => e.createdAt >= Cutoff(now, daysOld))
      ensures forall e :: e in entries <==> e in old(entries) && e.createdAt >= Cutoff(now, daysOld)
    {
      var cutoff := Cutoff(now, daysOld);
      var p := (e: CacheRow) => e.createdAt >= cutoff;
      FilterKeepsCacheOrder(entries, p);
      entries := Filter(entries, p);
    }
  }

  lemma {:induction false} FilterKeepsCacheOrder(s: seq<CacheRow>, p: CacheRow -> bool)
    requires CacheOrdered(s)
    ensures CacheOrdered(Filter(s, p))
  {
    if s != [] {
      var tail := s[1..];
      assert CacheOrdered(tail) by {
        forall i, j | 0 <= i < j < |tail| ensures KeyLess(tail[i].key, tail[j].key) {
          assert tail[i] == s[i + 1] && tail[j] == s[j + 1];
        }
      }
      FilterKeepsCacheOrder(tail, p);
      var rest := Filter(tail, p);
      if p(s[0]) {
        var r := [s[0]] + rest;
        forall i, j | 0 <= i < j < |r| ensures KeyLess(r[i].key, r[j].key) {
          var k :| 0 <= k < |tail| && tail[k] == rest[j - 1];
          assert s[k + 1] == r[j];
          if i > 0 { assert r[i] == rest[i - 1]; }
        }
      }
    }
  }

  // chatMessagesAPI

  /** A stored chat message: the table's id and the record `{ ...message, timestamp }`. */
  datatype ChatRow = ChatRow(id: nat, record: Value)

  /** The field the table's index is on. */
  function Stamp(row: ChatRow): Value {
    Get(row.record, "timestamp")
  }

  /** A record is in the `timestamp` index only when its stamp is a valid key. */
  predicate Indexed(row: ChatRow) {
    IsCacheKey(Stamp(row))
  }

  function ByTimestamp(): ChatRow -> Key {
    (r: ChatRow) => if Indexed(r) then KeyOf(Stamp(r)) else IntKey(0)
  }

  /** The record `add` stores: the message's fields, with its own timestamp when
      that is truthy and the current instant's text otherwise. */
  function ChatRecord(message: Value, nowText: string): (r: Value)
    ensures Truthy(Get(message, "timestamp")) ==> Get(r, "timestamp") == Get(message, "timestamp")
    ensures !Truthy(Get(message, "timestamp")) ==> Get(r, "timestamp") == Str(nowText)
    ensures forall k :: k != "timestamp" ==> Get(r, k) == Get(message, k)
    ensures IsCacheKey(Get(r, "timestamp")) <==> !Truthy(Get(message, "timestamp")) || IsCacheKey(Get(message, "timestamp"))
  {
    Put(message, "timestamp", Or(Get(message, "timestamp"), Str(nowText)))
  }

  /** Reading the newest n of a list from its reversal gives its last n, newest first. */
  lemma ReverseTakeReverse<T>(s: seq<T>, n: nat)
    ensures Reverse(Take(Reverse(s), n)) == LastN(s, n)
  {
    var t := Take(Reverse(s), n);
    forall k | 0 <= k < |t| ensures Reverse(t)[k] == LastN(s, n)[k] {
      assert Reverse(t)[k] == Reverse(s)[|t| - 1 - k];
    }
  }

  /** The newest limit entries of an ascending list come out descending and are its last limit. */
  lemma RecentOrder(all: seq<ChatRow>, limit: int)
    requires forall i, j :: 0 <= i < j < |all| ==> KeyLe(ByTimestamp()(all[i]), ByTimestamp()(all[j]))
    ensures var r := Take(Reverse(all), limit);
            && Reverse(r) == LastN(all, if limit < 0 then 0 else limit)
            && (forall i, j :: 0 <= i < j < |r| ==> KeyLe(ByTimestamp()(r[j]), ByTimestamp()(r[i])))
            && (forall x :: x in r ==> x in multiset(all))
  {
    var rev := Reverse(all);
    var r := Take(rev, limit);
    ReverseTakeReverse(all, if limit < 0 then 0 else limit);
    forall i, j | 0 <= i < j < |r| ensures KeyLe(ByTimestamp()(r[j]), ByTimestamp()(r[i])) {
      assert r[i] == all[|all| - 1 - i] && r[j] == all[|all| - 1 - j];
    }
    forall x | x in r ensures x in multiset(all) {
      var k :| 0 <= k < |r| && r[k] == x;
      assert x == all[|all| - 1 - k];
    }
  }

  const DefaultRecentMessages := 100

  /** The `chatMessages` table. */
  class ChatMessages {
    var rows: seq<ChatRow>
    var nextId: nat

    constructor ()
      ensures rows == [] && nextId == 1
    {
      rows := [];
      nextId := 1;
    }

    /** `chatMessagesAPI.getAll`: every message the timestamp index holds, by
        ascending timestamp. */
    function GetAll(): (r: seq<ChatRow>)
      reads this
      ensures multiset(r) == multiset(Filter(rows, Indexed))
      ensures forall i :: 0 <= i < |r| ==> Indexed(r[i])
      ensures forall i, j :: 0 <= i < j < |r| ==> KeyLe(ByTimestamp()(r[i]), ByTimestamp()(r[j]))
    {
      var indexed := Filter(rows, Indexed);
      var r := SortBy(indexed, ByTimestamp(), false);
      assert forall i, j :: 0 <= i < j < |r| ==> Before(ByTimestamp()(r[i]), ByTimestamp()(r[j]), false);
      forall i | 0 <= i < |r| ensures Indexed(r[i]) {
        assert r[i] in multiset(indexed);
      }
      r
    }

    /** `chatMessagesAPI.getRecent(limit)`: the last limit messages of `getAll`,
        newest first (the default limit is DefaultRecentMessages). */
    function GetRecent(limit: int): (r: seq<ChatRow>)
      reads this
      ensures r == Take(Reverse(GetAll()), limit)
      ensures Reverse(r) == LastN(GetAll(), if limit < 0 then 0 else limit)
      ensures |r| <= (if limit < 0 then 0 else limit) && |r| <= |rows|
      ensures forall i, j :: 0 <= i < j < |r| ==> KeyLe(ByTimestamp()(r[j]), ByTimestamp()(r[i]))
      ensures forall x :: x in r ==> x in rows && Indexed(x)
    {
      var all := GetAll();
      RecentOrder(all, limit);
      Take(Reverse(all), limit)
    }

    /** `chatMessagesAPI.add(message)`: reading `message.timestamp` throws on a
        null or undefined message; otherwise the record is appended under the next id. */
    method Add(message: Value, nowText: string) returns (ok: bool)
      modifies this
      ensures ok <==> !Nullish(message)
      ensures ok ==> rows == old(rows) + [ChatRow(old(nextId), ChatRecord(message, nowText))] && nextId == old(nextId) + 1
      ensures !ok ==> rows == old(rows) && nextId == old(nextId)
    {
      if Nullish(message) {
        return false;
      }
      rows := rows + [ChatRow(nextId, ChatRecord(message, nowText))];
      nextId := nextId + 1;
      return true;
    }

    method Clear()
      modifies this
      ensures rows == [] && nextId == old(nextId)
    {
      rows := [];
    }
  }
}
