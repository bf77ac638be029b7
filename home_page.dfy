/** The catalog's home page (src/pages/HomePage.jsx): the filtered and sorted
    book list, the "load more" window over it, and the recently viewed books. */
module HomePage {
  import opened Js
  import opened Text
  import opened Seqs
  import opened Sorting
  import opened BookStore

  const ItemsPerPage := 12

  // Search

  /** `v?.toLowerCase().includes(q)`: false for null or undefined, a throw for
      anything but a string. */
  function IncludesOpt(v: Value, q: string): (r: Result<bool>)
    ensures r == Ok(true) <==> v.Str? && Contains(Lower(v.s), q)
    ensures r.TypeError? <==> !Nullish(v) && !v.Str?
  {
    if Nullish(v) then Ok(false)
    else if v.Str? then Ok(Contains(Lower(v.s), q))
    else TypeError
  }

  /** `v?.some(p)`: false for null or undefined; only arrays have the method. */
  function SomeOpt(v: Value, p: Value -> Result<bool>): (r: Result<bool>)
    ensures Nullish(v) ==> r == Ok(false)
    ensures !Nullish(v) && !v.Arr? ==> r.TypeError?
    ensures v.Arr? ==> r == SomeResult(v.items, p)
  {
    if Nullish(v) then Ok(false)
    else if v.Arr? then SomeResult(v.items, p)
    else TypeError
  }

  /** The name an author is searched by: a string author is its own name. */
  function AuthorName(a: Value): Value {
    if a.Str? then a else Get(a, "name")
  }

  /** `(typeof a === 'string' ? a : a.name)?.toLowerCase().includes(q)` */
  function AuthorMatches(q: string, a: Value): (r: Result<bool>)
    ensures r == Ok(true) <==> AuthorName(a).Str? && Contains(Lower(AuthorName(a).s), q)
  {
    var name :- if a.Str? then Ok(a) else Member(a, "name");
    IncludesOpt(name, q)
  }

  function AuthorMatcher(q: string): Value -> Result<bool> {
    a => AuthorMatches(q, a)
  }

  /** The title holds the (lower-case) query. */
  predicate TitleHas(book: Value, q: string) {
    Get(book, "title").Str? && Contains(Lower(Get(book, "title").s), q)
  }

  /** Some author's name holds the (lower-case) query. */
  predicate AuthorsHave(book: Value, q: string) {
    var authors := Get(book, "authors");
    authors.Arr? &&
    exists i :: 0 <= i < |authors.items| &&
      AuthorName(authors.items[i]).Str? && Contains(Lower(AuthorName(authors.items[i]).s), q)
  }

  /** The search callback; the author list is not read once the title matches. */
  function SearchMatches(q: string, book: Value): (r: Result<bool>)
    ensures r.Ok? ==> (r.value <==> TitleHas(book, q) || AuthorsHave(book, q))
    ensures Nullish(book) ==> r.TypeError?
  {
    var title :- Member(book, "title");
    var inTitle :- IncludesOpt(title, q);
    if inTitle then Ok(true)
    else
      SomeOpt(Get(book, "authors"), AuthorMatcher(q))
  }

  function SearchMatcher(q: string): Value -> Result<bool> {
    b => SearchMatches(q, b)
  }

  // Genre, author and year filters

  /** `typeof x === 'object' ? x.id : x`: null is an object and has no `id`. */
  function IdOf(x: Value): (r: Result<Value>)
    ensures r.TypeError? <==> x.Null?
    ensures r.Ok? && (x.Arr? || x.Obj?) ==> r.value == Get(x, "id")
    ensures !IsObjectType(x) ==> r == Ok(x)
  {
    if IsObjectType(x) then Member(x, "id") else Ok(x)
  }

  function IdIs(selection: Value, x: Value): (r: Result<bool>)
    ensures r.TypeError? <==> x.Null?
  {
    var id :- IdOf(x);
    Ok(StrictEq(id, selection))
  }

  function IdMatcher(selection: Value): Value -> Result<bool> {
    x => IdIs(selection, x)
  }

  /** `book.<list>?.some(x => id(x) === selection)` */
  function ListHasId(list: string, selection: Value, book: Value): (r: Result<bool>)
    ensures Nullish(book) ==> r.TypeError?
  {
    var items :- Member(book, list);
    SomeOpt(items, IdMatcher(selection))
  }

  /** Some entry of the list has the selected id, compared strictly. */
  predicate HasId(list: string, selection: Value, book: Value) {
    var items := Get(book, list);
    items.Arr? &&
    exists i :: 0 <= i < |items.items| &&
      !items.items[i].Null? && StrictEq(IdOf(items.items[i]).value, selection)
  }

  function ListMatcher(list: string, selection: Value): Value -> Result<bool> {
    b => ListHasId(list, selection, b)
  }

  /** `book.publicationYear === Number(selectedYear)`; NaN equals nothing. */
  function YearMatches(selection: Value, book: Value): (r: Result<bool>)
    ensures r.TypeError? <==> Nullish(book)
    ensures r.Ok? ==> (r.value <==> ToNumber(selection).Some? && Get(book, "publicationYear") == Num(ToNumber(selection).value))
  {
    var year :- Member(book, "publicationYear");
    Ok(ToNumber(selection).Some? && year == Num(ToNumber(selection).value))
  }

  function YearMatcher(selection: Value): Value -> Result<bool> {
    b => YearMatches(selection, b)
  }

  /** A filter applied only when its selection is set. */
  function FilterIf(active: bool, books: seq<Value>, p: Value -> Result<bool>): (r: Result<seq<Value>>)
    ensures !active ==> r == Ok(books)
    ensures active ==> r == FilterResult(books, p)
  {
    if active then FilterResult(books, p) else Ok(books)
  }

  /** `if (searchQuery)` the search filter on `searchQuery.toLowerCase()`. */
  function SearchStage(books: seq<Value>, query: Value): (r: Result<seq<Value>>)
    ensures !Truthy(query) ==> r == Ok(books)
    ensures Truthy(query) && !query.Str? ==> r.TypeError?
    ensures query.Str? && Truthy(query) ==> r == FilterResult(books, SearchMatcher(Lower(query.s)))
  {
    if !Truthy(query) then Ok(books)
    else if query.Str? then FilterResult(books, SearchMatcher(Lower(query.s)))
    else TypeError
  }

  /** The book passes every active filter of the store's state. */
  predicate Passes(f: BookState, book: Value) {
    && (Truthy(f.searchQuery) ==>
          (f.searchQuery.Str? &&
           (TitleHas(book, Lower(f.searchQuery.s)) || AuthorsHave(book, Lower(f.searchQuery.s)))))
    && (Truthy(f.selectedGenre) ==> HasId("genres", f.selectedGenre, book))
    && (Truthy(f.selectedAuthor) ==> HasId("authors", f.selectedAuthor, book))
    && (Truthy(f.selectedYear) ==> ToNumber(f.selectedYear).Some? &&
                                   Get(book, "publicationYear") == Num(ToNumber(f.selectedYear).value))
  }

  /** The four filters in their order. */
  function FilterStages(books: seq<Value>, f: BookState): Result<seq<Value>> {
    var bySearch :- SearchStage(books, f.searchQuery);
    var byGenre :- FilterIf(Truthy(f.selectedGenre), bySearch, ListMatcher("genres", f.selectedGenre));
    var byAuthor :- FilterIf(Truthy(f.selectedAuthor), byGenre, ListMatcher("authors", f.selectedAuthor));
    FilterIf(Truthy(f.selectedYear), byAuthor, YearMatcher(f.selectedYear))
  }

  // Sorting

  /** The fields the comparator knows; any other `sortBy` answers 0. */
  const SortKinds: set<Value> := {Str("title"), Str("date"), Str("rating")}

  /** `(book.title || '').localeCompare` exists: the comparator's receiver is a string. */
  predicate Comparable(sortBy: Value, book: Value) {
    !Nullish(book) && (sortBy == Str("title") ==> Or(Get(book, "title"), Str("")).Str?)
  }

  /** `Number(book.rating || 0)`, with NaN taken as 0. */
  function RatingOf(book: Value): int {
    var n := ToNumber(Or(Get(book, "rating"), Num(0)));
    if n.Some? then n.value else 0
  }

  /** What the comparator compares: the title text, the creation time given by
      `dateOf` (the reading of `new Date(v)`), or the rating. */
  function SortKey(sortBy: Value, dateOf: Value -> int, book: Value): Key {
    if sortBy == Str("title") then
      var t := Or(Get(book, "title"), Str(""));
      TextKey(if t.Str? then t.s else "")
    else if sortBy == Str("date") then IntKey(dateOf(Or(Get(book, "createdAt"), Num(0))))
    else IntKey(RatingOf(book))
  }

  function KeyOf(sortBy: Value, dateOf: Value -> int): Value -> Key {
    b => SortKey(sortBy, dateOf, b)
  }

  /** `filtered.sort(comparator)`: titles ascending, dates and ratings
      descending; any other `sortBy` keeps the order.
      With two books or more every book is compared, so a null book or a
      title without `localeCompare` throws. */
  function SortBooks(books: seq<Value>, sortBy: Value, dateOf: Value -> int): (r: Result<seq<Value>>)
    ensures sortBy !in SortKinds ==> r == Ok(books)
    ensures r.Ok? ==> multiset(r.value) == multiset(books)
    ensures r.Ok? && sortBy in SortKinds ==> Sorted(r.value, KeyOf(sortBy, dateOf), sortBy != Str("title"))
    ensures r.TypeError? <==>
              sortBy in SortKinds && |books| >= 2 && exists i :: 0 <= i < |books| && !Comparable(sortBy, books[i])
  {
    if sortBy !in SortKinds then Ok(books)
    else if |books| >= 2 && exists i :: 0 <= i < |books| && !Comparable(sortBy, books[i]) then TypeError
    else Ok(SortBy(books, KeyOf(sortBy, dateOf), sortBy != Str("title")))
  }

  /** `filteredBooks`: [] without books, otherwise the four filters and the sort. */
  function FilteredBooks(allBooks: seq<Value>, f: BookState, dateOf: Value -> int): (r: Result<seq<Value>>)
    ensures allBooks == [] ==> r == Ok([])
    ensures allBooks != [] ==>
              (r.Ok? <==> FilterStages(allBooks, f).Ok? && SortBooks(FilterStages(allBooks, f).value, f.sortBy, dateOf).Ok?)
    ensures allBooks != [] && r.Ok? ==>
              && multiset(r.value) == multiset(FilterStages(allBooks, f).value)
              && (f.sortBy in SortKinds ==> Sorted(r.value, KeyOf(f.sortBy, dateOf), f.sortBy != Str("title")))
              && (f.sortBy !in SortKinds ==> r.value == FilterStages(allBooks, f).value)
  {
    if allBooks == [] then Ok([])
    else
      var filtered :- FilterStages(allBooks, f);
      SortBooks(filtered, f.sortBy, dateOf)
  }

  // Properties of the pipeline

  /** A filter stage that did not throw keeps exactly the books the callback accepts. */
  lemma FilterIfMember(active: bool, books: seq<Value>, p: Value -> Result<bool>, x: Value)
    requires FilterIf(active, books, p).Ok?
    ensures x in FilterIf(active, books, p).value <==> x in books && (active ==> p(x) == Ok(true))
    ensures active && x in books ==> p(x).Ok?
  {
    if active {
      FilterResultMember(books, p, x);
    }
  }

  /** The filters, when none throws, keep exactly the books that pass every
      active filter. */
  lemma FilterStagesKeepIff(books: seq<Value>, f: BookState, x: Value)
    requires FilterStages(books, f).Ok?
    ensures x in FilterStages(books, f).value <==> x in books && Passes(f, x)
  {
    var s1 := SearchStage(books, f.searchQuery);
    var s2 := FilterIf(Truthy(f.selectedGenre), s1.value, ListMatcher("genres", f.selectedGenre));
    var s3 := FilterIf(Truthy(f.selectedAuthor), s2.value, ListMatcher("authors", f.selectedAuthor));
    if Truthy(f.searchQuery) {
      FilterResultMember(books, SearchMatcher(Lower(f.searchQuery.s)), x);
    }
    FilterIfMember(Truthy(f.selectedGenre), s1.value, ListMatcher("genres", f.selectedGenre), x);
    FilterIfMember(Truthy(f.selectedAuthor), s2.value, ListMatcher("authors", f.selectedAuthor), x);
    FilterIfMember(Truthy(f.selectedYear), s3.value, YearMatcher(f.selectedYear), x);
    if x in s1.value && Truthy(f.selectedGenre) {
      ListHasIdIff("genres", f.selectedGenre, x);
    }
    if x in s2.value && Truthy(f.selectedAuthor) {
      ListHasIdIff("authors", f.selectedAuthor, x);
    }
  }

  /** `filteredBooks`, when it does not throw, holds exactly the books that
      pass every active filter. */
  lemma FilteredBooksKeepIff(allBooks: seq<Value>, f: BookState, dateOf: Value -> int, x: Value)
    requires FilteredBooks(allBooks, f, dateOf).Ok?
    ensures x in FilteredBooks(allBooks, f, dateOf).value <==> x in allBooks && Passes(f, x)
  {
    if allBooks != [] {
      var filtered := FilterStages(allBooks, f).value;
      var r := FilteredBooks(allBooks, f, dateOf).value;
      assert multiset(r) == multiset(filtered);
      assert x in r <==> x in multiset(r);
      assert x in filtered <==> x in multiset(filtered);
      FilterStagesKeepIff(allBooks, f, x);
    }
  }

  lemma ListHasIdIff(list: string, selection: Value, book: Value)
    requires ListHasId(list, selection, book).Ok?
    ensures ListHasId(list, selection, book).value <==> HasId(list, selection, book)
  {
    var items := Get(book, list);
    if items.Arr? {
      var p := IdMatcher(selection);
      if HasId(list, selection, book) {
        var i :| 0 <= i < |items.items| && !items.items[i].Null? && StrictEq(IdOf(items.items[i]).value, selection);
        assert p(items.items[i]) == Ok(true);
      }
      if ListHasId(list, selection, book).value {
        var i :| 0 <= i < |items.items| && p(items.items[i]) == Ok(true);
        assert !items.items[i].Null?;
      }
    }
  }
  /** A string selection never strictly equals a numeric id, so a filter on
      one keeps none of the books whose entries all carry numeric ids. */
  lemma StringSelectionMissesNumericIds(books: seq<Value>, list: string, selection: string)
    requires forall j :: 0 <= j < |books| ==>
               (Get(books[j], list).Arr? &&
                forall k :: 0 <= k < |Get(books[j], list).items| ==>
                  Get(books[j], list).items[k].Obj? && Get(Get(books[j], list).items[k], "id").Num?)
    ensures FilterResult(books, ListMatcher(list, Str(selection))) == Ok([])
  {
    var p := ListMatcher(list, Str(selection));
    forall j | 0 <= j < |books|
      ensures p(books[j]) == Ok(false)
    {
      var items := Get(books[j], list).items;
      forall k | 0 <= k < |items|
        ensures IdMatcher(Str(selection))(items[k]) == Ok(false)
      {
        assert IdOf(items[k]) == Ok(Get(items[k], "id"));
      }
    }
  }

  // The "load more" window

  /** `filteredBooks.slice(0, page * itemsPerPage)` */
  function DisplayedBooks(filtered: seq<Value>, page: int): (r: seq<Value>)
    ensures page >= 0 ==> r == filtered[..if page * ItemsPerPage < |filtered| then page * ItemsPerPage else |filtered|]
  {
    Slice(filtered, 0, page * ItemsPerPage)
  }

  /** `hasMore`: books remain past the window. */
  function HasMore(filtered: seq<Value>, page: int): (b: bool)
    ensures page >= 0 ==> (b <==> |filtered| > page * ItemsPerPage)
  {
    |filtered| > |DisplayedBooks(filtered, page)|
  }

  /** Advancing while books remain shows the same books followed by at least one more. */
  lemma AdvanceShowsMore(filtered: seq<Value>, page: int)
    requires page >= 1 && HasMore(filtered, page)
    ensures |DisplayedBooks(filtered, page + 1)| > |DisplayedBooks(filtered, page)|
    ensures DisplayedBooks(filtered, page) <= DisplayedBooks(filtered, page + 1)
  {
    assert (page + 1) * ItemsPerPage == page * ItemsPerPage + ItemsPerPage;
  }

  /** The page counter of the infinite scroll. */
  class Feed {
    var page: int

    constructor ()
      ensures page == 1
    {
      page := 1;
    }

    /** The effect on new data: `setAllBooks(data)` and back to the first page. */
    method OnData()
      modifies this
      ensures page == 1
    {
      page := 1;
    }

    /** The effect on `inView`: one page more when the trigger is visible and
        books remain past the window, otherwise nothing. */
    method OnInView(inView: bool, filtered: seq<Value>)
      modifies this
      ensures page == if inView && |filtered| > old(page) * ItemsPerPage then old(page) + 1 else old(page)
    {
      if inView && |filtered| > page * ItemsPerPage {
        page := page + 1;
      }
    }
  }

  /** Scrolling never moves the window past its first page that is needed:
      from a page that shows some book, or the first page, every advance
      lands on a page that shows some book. */
  method ScrollStaysOnBooks(feed: Feed, inView: bool, filtered: seq<Value>)
    requires feed.page == 1 || (feed.page >= 1 && (feed.page - 1) * ItemsPerPage < |filtered|)
    modifies feed
    ensures feed.page >= 1
    ensures feed.page == 1 || (feed.page - 1) * ItemsPerPage < |filtered|
  {
    feed.OnInView(inView, filtered);
  }

  // Recently viewed books

  /** `b.id === id`, which throws on a null or undefined book. */
  function IdEquals(id: Value, b: Value): (r: Result<bool>)
    ensures r.TypeError? <==> Nullish(b)
    ensures r.Ok? ==> (r.value <==> StrictEq(Get(b, "id"), id))
  {
    var bid :- Member(b, "id");
    Ok(StrictEq(bid, id))
  }

  function IdEqualsMatcher(id: Value): Value -> Result<bool> {
    b => IdEquals(id, b)
  }

  /** `allBooks.find(b => b.id === id)`: undefined when no book has the id. */
  function FindById(allBooks: seq<Value>, id: Value): Result<Value> {
    var found :- FindResult(allBooks, IdEqualsMatcher(id));
    Ok(if found.Some? then found.value else Undefined)
  }

  function FindByIdIn(allBooks: seq<Value>): Value -> Result<Value> {
    id => FindById(allBooks, id)
  }

  /** `recentBooks`: the viewed ids mapped to their books, the missing ones
      dropped by `filter(Boolean)`, at most 6. */
  function RecentBooks(viewed: seq<Value>, allBooks: seq<Value>): (r: Result<seq<Value>>)
    ensures viewed == [] ==> r == Ok([])
    ensures r.Ok? ==> |r.value| <= 6
    ensures r.Ok? ==> forall k :: 0 <= k < |r.value| ==>
              r.value[k] in allBooks && Truthy(r.value[k]) &&
              exists i :: 0 <= i < |viewed| && StrictEq(Get(r.value[k], "id"), viewed[i])
  {
    if viewed == [] then Ok([])
    else
      var found :- MapResult(viewed, FindByIdIn(allBooks));
      var r := Slice(Filter(found, Truthy), 0, 6);
      assert forall k :: 0 <= k < |r| ==> r[k] in found && Truthy(r[k]);
      Ok(r)
  }

  /** The first book with the id, without the callback's throw. */
  function FirstWithId(books: seq<Value>, id: Value): Value {
    if books == [] then Undefined
    else if StrictEq(Get(books[0], "id"), id) then books[0]
    else FirstWithId(books[1..], id)
  }

  /** The viewed books in viewed order, each id standing for its first book,
      unknown ids skipped. */
  function Resolved(viewed: seq<Value>, books: seq<Value>): seq<Value> {
    if viewed == [] then []
    else
      var b := FirstWithId(books, viewed[0]);
      (if Truthy(b) then [b] else []) + Resolved(viewed[1..], books)
  }

  /** With no null or undefined book, `find` does not throw and finds the first book with the id. */
  lemma {:induction false} FindByIdIsFirst(books: seq<Value>, id: Value)
    requires forall j :: 0 <= j < |books| ==> !Nullish(books[j])
    ensures FindById(books, id) == Ok(FirstWithId(books, id))
  {
    if books != [] {
      FindByIdIsFirst(books[1..], id);
    }
  }

  /** With no null or undefined book, `recentBooks` is the first six of the
      viewed books resolved in viewed order. */
  lemma {:induction false} RecentBooksAreResolved(viewed: seq<Value>, books: seq<Value>)
    requires forall j :: 0 <= j < |books| ==> !Nullish(books[j])
    ensures RecentBooks(viewed, books) == Ok(Take(Resolved(viewed, books), 6))
  {
    if viewed != [] {
      ResolvedIsFilteredMap(viewed, books);
    }
  }

  lemma {:induction false} ResolvedIsFilteredMap(viewed: seq<Value>, books: seq<Value>)
    requires forall j :: 0 <= j < |books| ==> !Nullish(books[j])
    ensures MapResult(viewed, FindByIdIn(books)).Ok?
    ensures Filter(MapResult(viewed, FindByIdIn(books)).value, Truthy) == Resolved(viewed, books)
  {
    if viewed != [] {
      FindByIdIsFirst(books, viewed[0]);
      ResolvedIsFilteredMap(viewed[1..], books);
      var rest := MapResult(viewed[1..], FindByIdIn(books)).value;
      var found := MapResult(viewed, FindByIdIn(books)).value;
      assert found == [FirstWithId(books, viewed[0])] + rest;
      FilterAppend([FirstWithId(books, viewed[0])], rest, Truthy);
    }
  }
}
