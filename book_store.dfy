/** The persisted catalog store (src/stores/useBookStore.js): the recently
    viewed book ids, most recent first, and the catalog's filter settings. */
module BookStore {
  import opened Js
  import opened Text
  import opened Seqs
  import opened LocalStorage
  import Database
  import Migration

  const HistoryCap := 10

  function IsNot(b: Value): Value -> bool {
    id => id != b
  }

  /** The viewed-history update: b in front, its other copies removed, at most 10 kept. */
  function AddViewed(list: seq<Value>, b: Value): seq<Value> {
    Take([b] + Filter(list, IsNot(b)), HistoryCap)
  }

  /** The new list starts with b, holds b once, keeps at most 10 ids, and the others
      follow in their earlier order with only the tail beyond 10 dropped. */
  lemma AddViewedProperties(list: seq<Value>, b: Value)
    ensures var r := AddViewed(list, b);
            && 1 <= |r| <= HistoryCap && r[0] == b
            && b !in r[1..]
            && r[1..] == Take(Filter(list, IsNot(b)), HistoryCap - 1)
  {
    var rest := Filter(list, IsNot(b));
    var r := AddViewed(list, b);
    assert r[1..] == Take(rest, HistoryCap - 1);
  }

  /** Viewing the same book twice in a row is the same as viewing it once. */
  lemma AddViewedIdempotent(list: seq<Value>, b: Value)
    ensures AddViewed(AddViewed(list, b), b) == AddViewed(list, b)
  {
    var r := AddViewed(list, b);
    var t := r[1..];
    AddViewedProperties(list, b);
    assert r == [b] + t;
    FilterAppend([b], t, IsNot(b));
    FilterRejectsOne(b, IsNot(b));
    FilterAll(t, IsNot(b));
    assert Filter(r, IsNot(b)) == t;
  }

  /** A history without repetitions stays without repetitions. */
  lemma AddViewedNoDup(list: seq<Value>, b: Value)
    requires NoDup(list)
    ensures NoDup(AddViewed(list, b))
  {
    var rest := Filter(list, IsNot(b));
    FilterNoDup(list, IsNot(b));
    var r := AddViewed(list, b);
    AddViewedProperties(list, b);
    forall i, j | 0 <= i < j < |r| ensures r[i] != r[j] {
      if i == 0 {
        assert r[j] == r[1..][j - 1];
      } else {
        assert r[i] == rest[i - 1] && r[j] == rest[j - 1];
      }
    }
  }

  datatype BookState = BookState(
    viewedBooks: seq<Value>,
    searchQuery: Value,
    selectedGenre: Value,
    selectedAuthor: Value,
    selectedYear: Value,
    sortBy: Value)

  function Initial(): BookState {
    BookState([], Str(""), Null, Null, Null, Str("title"))
  }

  /** `addViewedBook(bookId)` changes the history only. */
  function AddViewedBook(s: BookState, bookId: Value): (r: BookState)
    ensures r.viewedBooks == AddViewed(s.viewedBooks, bookId)
    ensures r.(viewedBooks := s.viewedBooks) == s
  {
    s.(viewedBooks := AddViewed(s.viewedBooks, bookId))
  }

  /** `resetFilters()`: the filters return to their initial values, the history stays. */
  function ResetFilters(s: BookState): (r: BookState)
    ensures r.searchQuery == Str("") && r.selectedGenre == Null && r.selectedAuthor == Null
    ensures r.selectedYear == Null && r.sortBy == Str("title")
    ensures r.viewedBooks == s.viewedBooks
  {
    BookState(s.viewedBooks, Str(""), Null, Null, Null, Str("title"))
  }

  /** Resetting the filters of any state gives the initial state with that state's history. */
  lemma ResetIsInitialFilters(s: BookState)
    ensures ResetFilters(s) == Initial().(viewedBooks := s.viewedBooks)
    ensures ResetFilters(ResetFilters(s)) == ResetFilters(s)
  {
  }

  /** `partialize`: the part of the state that is persisted. */
  function Partialize(s: BookState): Value {
    Obj(map["viewedBooks" := Arr(s.viewedBooks)])
  }

  /** Only the history is persisted: two states persist alike iff their histories agree. */
  lemma PartializeKeepsOnlyHistory(s: BookState, t: BookState)
    ensures Partialize(s) == Partialize(t) <==> s.viewedBooks == t.viewedBooks
  {
    if Partialize(s) == Partialize(t) {
      assert Get(Partialize(s), "viewedBooks") == Get(Partialize(t), "viewedBooks");
    }
  }

  /** The 'book-storage' entry the persistence layer writes: `{ state, version: 0 }`. */
  function Persisted(s: BookState): Stored {
    Stringify(Obj(map["state" := Partialize(s), "version" := Num(0)]))
  }

  /** Every reachable history has at most ten ids and no repetitions. */
  predicate HistoryOk(s: BookState) {
    |s.viewedBooks| <= HistoryCap && NoDup(s.viewedBooks)
  }

  lemma AddViewedBookKeepsHistoryOk(s: BookState, bookId: Value)
    requires HistoryOk(s)
    ensures HistoryOk(AddViewedBook(s, bookId))
  {
    AddViewedNoDup(s.viewedBooks, bookId);
  }

  /** The migration finds the persisted history in the blob the store writes. */
  lemma PersistedHistoryFound(s: BookState)
    ensures Migration.LegacyViewed(Some(Persisted(s))) == Some((Partialize(s), s.viewedBooks))
  {
    var blob := Obj(map["state" := Partialize(s), "version" := Num(0)]);
    assert Get(blob, "state") == Partialize(s);
    assert GetOpt(Partialize(s), "viewedBooks") == Arr(s.viewedBooks);
  }

  /** Replaying a reachable history into an empty table leaves a newest-first listing
      that is that history reversed. */
  lemma PersistedHistoryMigratesReversed(s: BookState, firstId: nat, now: nat)
    requires HistoryOk(s)
    ensures Database.Keys(Database.NewestFirst(Migration.AddAll([], s.viewedBooks, firstId, now), Database.ViewedBooksCap))
            == Reverse(s.viewedBooks)
  {
    Migration.MigrationReversesHistory(s.viewedBooks, firstId, now);
  }
}
