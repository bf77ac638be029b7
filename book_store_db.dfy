/** The catalog store backed by the `viewedBooks` table
    (src/stores/useBookStoreIndexDB.js). A failing table call is modelled by
    `fails`: it raises before the table changes. */
module BookStoreDb {
  import opened Js
  import opened Seqs
  import opened Database
  import BookStore

  /** After an add, the listing starts with the added book, holds it once and has at most 10 ids. */
  lemma ListingAfterAdd(rows: seq<Row<Value>>, b: Value, id: nat, now: nat)
    ensures var ids := Keys(NewestFirst(AfterAdd(rows, b, id, now, ViewedBooksCap), ViewedBooksCap));
            && 1 <= |ids| <= ViewedBooksCap && ids[0] == b
            && forall i :: 0 < i < |ids| ==> ids[i] != b
  {
    var r := AfterAdd(rows, b, id, now, ViewedBooksCap);
    AfterAddProperties(rows, b, id, now, ViewedBooksCap);
    var l := NewestFirst(r, ViewedBooksCap);
    assert |l| == |r|;
    forall i | 0 < i < |l| ensures l[i].key != b {
      assert l[i] == r[|r| - 1 - i];
    }
  }

  class BookStoreDb {
    var viewedBooks: seq<Value>
    var searchQuery: Value
    var selectedGenre: Value
    var selectedAuthor: Value
    var selectedYear: Value
    var sortBy: Value

    /** The store's initial state: no history, no filters, sorted by title. */
    constructor ()
      ensures viewedBooks == [] && searchQuery == Str("") && selectedGenre == Null
      ensures selectedAuthor == Null && selectedYear == Null && sortBy == Str("title")
    {
      viewedBooks := [];
      searchQuery := Str("");
      selectedGenre := Null;
      selectedAuthor := Null;
      selectedYear := Null;
      sortBy := Str("title");
    }

    /** `loadViewedBooks()`: the ids of the table's newest-first listing; unchanged on error. */
    method LoadViewedBooks(t: StampedTable<Value>, fails: bool)
      modifies this`viewedBooks
      ensures !fails ==> viewedBooks == Keys(ViewedBooksGetAll(t))
      ensures fails ==> viewedBooks == old(viewedBooks)
    {
      if !fails {
        viewedBooks := Keys(ViewedBooksGetAll(t));
      }
    }

    /** `addViewedBook(bookId)`: through the table, or, when the table fails, the
        in-memory update of the persisted store. */
    method AddViewedBook(t: StampedTable<Value>, bookId: Value, now: nat, fails: bool)
      requires t.Valid() && t.ClockOk(now)
      modifies this`viewedBooks, t
      ensures t.Valid()
      ensures !fails ==> t.rows == AfterAdd(old(t.rows), bookId, old(t.nextId), now, ViewedBooksCap)
      ensures !fails ==> viewedBooks == Keys(ViewedBooksGetAll(t))
      ensures !fails ==> |viewedBooks| <= ViewedBooksCap && viewedBooks[0] == bookId
                         && forall i :: 0 < i < |viewedBooks| ==> viewedBooks[i] != bookId
      ensures fails ==> t.rows == old(t.rows) && viewedBooks == BookStore.AddViewed(old(viewedBooks), bookId)
    {
      if fails {
        viewedBooks := BookStore.AddViewed(viewedBooks, bookId);
        return;
      }
      ghost var rows0 := t.rows;
      ghost var id0 := t.nextId;
      ViewedBooksAdd(t, bookId, now);
      viewedBooks := Keys(ViewedBooksGetAll(t));
      ListingAfterAdd(rows0, bookId, id0, now);
    }

    /** `clearViewedBooks()`: the list is emptied only when the table was cleared. */
    method ClearViewedBooks(t: StampedTable<Value>, fails: bool)
      requires t.Valid()
      modifies this`viewedBooks, t
      ensures t.Valid()
      ensures !fails ==> t.rows == [] && viewedBooks == []
      ensures fails ==> t.rows == old(t.rows) && viewedBooks == old(viewedBooks)
    {
      if !fails {
        ViewedBooksClear(t);
        viewedBooks := [];
      }
    }

    /** `resetFilters()` */
    method ResetFilters()
      modifies this
      ensures viewedBooks == old(viewedBooks)
      ensures searchQuery == Str("") && selectedGenre == Null && selectedAuthor == Null
      ensures selectedYear == Null && sortBy == Str("title")
    {
      searchQuery := Str("");
      selectedGenre := Null;
      selectedAuthor := Null;
      selectedYear := Null;
      sortBy := Str("title");
    }
  }
}
