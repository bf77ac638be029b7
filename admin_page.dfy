/** The admin page (src/pages/AdminPage.jsx): the books, authors and genres
    tables with their search, sorting and pagination; the page state that the
    search box, the tabs and the pager change; the delete confirmation; and the
    edit form's initial data, validation and submitted payload. */
module AdminPage {
  import opened Js
  import opened Text
  import opened Seqs
  import opened Sorting
  import ApiService

  const ItemsPerPage := 10

  // Search

  /** `v.toLowerCase()`: only strings have the method. */
  function LowerValue(v: Value): (r: Result<string>)
    ensures r.Ok? <==> v.Str?
    ensures v.Str? ==> r.value == Lower(v.s)
  {
    if v.Str? then Ok(Lower(v.s)) else TypeError
  }

  /** `(v || [])` used as an array: `.map` throws on anything else. */
  function ListOf(v: Value): (r: Result<seq<Value>>)
    ensures !Truthy(v) ==> r == Ok([])
    ensures v.Arr? ==> r == Ok(v.items)
    ensures Truthy(v) && !v.Arr? ==> r.TypeError?
  {
    var l := Or(v, Arr([]));
    if l.Arr? then Ok(l.items) else TypeError
  }

  /** An author in the search text: an object gives `name || full_name || ''`, anything else itself. */
  function AuthorText(a: Value): (r: Result<string>)
    ensures a.Null? ==> r.TypeError?
    ensures a.Str? ==> r == Ok(Lower(a.s))
    ensures a.Obj? && Truthy(Get(a, "name")) ==> r == LowerValue(Get(a, "name"))
    ensures a.Obj? && !Truthy(Get(a, "name")) && Truthy(Get(a, "full_name")) ==> r == LowerValue(Get(a, "full_name"))
    ensures (a.Obj? || a.Arr?) && !Truthy(Get(a, "name")) && !Truthy(Get(a, "full_name")) ==> r == Ok("")
    ensures a.Undefined? || a.Bool? || a.Num? ==> r.TypeError?
  {
    if IsObjectType(a) then
      if a.Null? then TypeError else LowerValue(Or(Or(Get(a, "name"), Get(a, "full_name")), Str("")))
    else LowerValue(a)
  }

  /** A genre in the search text: an object gives its name, anything else itself. */
  function GenreText(g: Value): (r: Result<string>)
    ensures r.Ok? <==> g.Str? || ((g.Obj? || g.Arr?) && Get(g, "name").Str?)
    ensures g.Str? ==> r == Ok(Lower(g.s))
    ensures g.Obj? && Get(g, "name").Str? ==> r == Ok(Lower(Get(g, "name").s))
  {
    if IsObjectType(g) then
      if g.Null? then TypeError else LowerValue(Get(g, "name"))
    else LowerValue(g)
  }

  datatype SearchTexts = SearchTexts(title: string, authors: string, genres: string)

  /** The three lower-case texts a book is searched in: the title (or ''), and
      the author and genre names joined by ' '. Reading a null book, a title
      that is not a string, a list that is not an array or an entry without a
      text throws. */
  function BookTexts(book: Value): (r: Result<SearchTexts>)
    ensures r.Ok? <==>
              && !Nullish(book)
              && Or(Get(book, "title"), Str("")).Str?
              && ListOf(Get(book, "authors")).Ok? && MapResult(ListOf(Get(book, "authors")).value, AuthorText).Ok?
              && ListOf(Get(book, "genres")).Ok? && MapResult(ListOf(Get(book, "genres")).value, GenreText).Ok?
    ensures r.Ok? ==> r.value.title == Lower(Or(Get(book, "title"), Str("")).s)
    ensures r.Ok? ==> r.value.authors == Join(MapResult(ListOf(Get(book, "authors")).value, AuthorText).value, " ")
    ensures r.Ok? ==> r.value.genres == Join(MapResult(ListOf(Get(book, "genres")).value, GenreText).value, " ")
  {
    var title :- Member(book, "title");
    var t :- LowerValue(Or(title, Str("")));
    var authors :- ListOf(Get(book, "authors"));
    var a :- MapResult(authors, AuthorText);
    var genres :- ListOf(Get(book, "genres"));
    var g :- MapResult(genres, GenreText);
    Ok(SearchTexts(t, Join(a, " "), Join(g, " ")))
  }

  /** Whether one of a book's search texts contains the lower-cased query. */
  predicate TextsMatch(texts: SearchTexts, query: string) {
    var q := Lower(query);
    Contains(texts.title, q) || Contains(texts.authors, q) || Contains(texts.genres, q)
  }

  /** The books table's search predicate: an empty query keeps every book;
      otherwise a book matches exactly when its title, its joined author names
      or its joined genre names contain the query, all lower-cased. */
  function BookMatches(query: string, book: Value): (r: Result<bool>)
    ensures query == "" ==> r == Ok(true)
    ensures query != "" ==> (r.Ok? <==> BookTexts(book).Ok?)
    ensures query != "" && r.Ok? ==>
              (r.value <==> Contains(Lower(Or(Get(book, "title"), Str("")).s), Lower(query))
                            || Contains(BookTexts(book).value.authors, Lower(query))
                            || Contains(BookTexts(book).value.genres, Lower(query)))
  {
    if query == "" then Ok(true)
    else
      var texts :- BookTexts(book);
      Ok(TextsMatch(texts, query))
  }

  function BookMatcher(query: string): Value -> Result<bool> {
    b => BookMatches(query, b)
  }

  /** The books table's rows: the books the query matches, in order; a book
      whose texts cannot be built makes the filter throw. */
  function FilterBooks(books: seq<Value>, query: string): (r: Result<seq<Value>>)
    ensures query == "" ==> r == Ok(books)
    ensures r.Ok? ==> r.value == Filter(books, Kept(BookMatcher(query)))
    ensures r.Ok? <==> query == "" || forall i :: 0 <= i < |books| ==> BookTexts(books[i]).Ok?
  {
    var r := FilterResult(books, BookMatcher(query));
    if query == "" then
      FilterAll(books, Kept(BookMatcher(query)));
      r
    else r
  }

  /** A book is listed exactly when it is one of the books and, for a
      non-empty query, its title, joined author names or joined genre names
      contain the query. */
  lemma FilterBooksKeepIff(books: seq<Value>, query: string, b: Value)
    requires FilterBooks(books, query).Ok?
    ensures b in FilterBooks(books, query).value <==>
              b in books && (query == "" || (BookTexts(b).Ok? && TextsMatch(BookTexts(b).value, query)))
  {
    FilterResultMember(books, BookMatcher(query), b);
  }

  /** A book whose title contains the query is kept. */
  lemma TitleMatchKept(books: seq<Value>, query: string, i: nat, title: string)
    requires i < |books| && FilterBooks(books, query).Ok?
    requires Get(books[i], "title") == Str(title) && Contains(Lower(title), Lower(query))
    ensures books[i] in FilterBooks(books, query).value
  {
    var book := books[i];
    if query != "" {
      assert BookTexts(book).Ok?;
      TitleTextIsLower(book, title);
      assert BookMatches(query, book) == Ok(true);
    }
    assert Kept(BookMatcher(query))(book);
  }

  lemma TitleTextIsLower(book: Value, title: string)
    requires BookTexts(book).Ok? && Get(book, "title") == Str(title)
    ensures BookTexts(book).value.title == Lower(title)
  {
    assert Or(Str(title), Str("")) == Str(title);
  }

  /** A book one of whose authors has a name containing the query is kept,
      whatever its title: the names are searched as one joined text. */
  lemma {:induction false} AuthorNameMatchKept(book: Value, query: string, j: nat, name: string)
    requires query != "" && BookTexts(book).Ok?
    requires Get(book, "authors").Arr? && j < |Get(book, "authors").items|
    requires Get(book, "authors").items[j].Obj? && Get(Get(book, "authors").items[j], "name") == Str(name)
    requires Contains(Lower(name), Lower(query))
    ensures BookMatches(query, book) == Ok(true)
  {
    var authors := Get(book, "authors").items;
    var a := MapResult(authors, AuthorText).value;
    if name == "" {
      NotContainsLonger(Lower(name), Lower(query));
    }
    assert AuthorText(authors[j]) == Ok(Lower(name));
    JoinContainsPart(a, " ", j, Lower(query));
  }

  /** A book one of whose genres has a name containing the query is kept,
      whatever its title and authors. */
  lemma {:induction false} GenreNameMatchKept(book: Value, query: string, j: nat, name: string)
    requires query != "" && BookTexts(book).Ok?
    requires Get(book, "genres").Arr? && j < |Get(book, "genres").items|
    requires Get(book, "genres").items[j].Obj? && Get(Get(book, "genres").items[j], "name") == Str(name)
    requires Contains(Lower(name), Lower(query))
    ensures BookMatches(query, book) == Ok(true)
  {
    var genres := Get(book, "genres").items;
    var g := MapResult(genres, GenreText).value;
    assert GenreText(genres[j]) == Ok(Lower(name));
    JoinContainsPart(g, " ", j, Lower(query));
  }

  /** The authors and genres tables' search predicate on `name`. */
  function NameMatches(query: string, item: Value): (r: Result<bool>)
    ensures query == "" ==> r == Ok(true)
    ensures query != "" ==> (r.Ok? <==> !Nullish(item) && (Get(item, "name").Str? || !Truthy(Get(item, "name"))))
    ensures query != "" && Get(item, "name").Str? ==> r == Ok(Contains(Lower(Get(item, "name").s), Lower(query)))
  {
    if query == "" then Ok(true)
    else
      var name :- Member(item, "name");
      var n :- LowerValue(Or(name, Str("")));
      Ok(Contains(n, Lower(query)))
  }

  function NameMatcher(query: string): Value -> Result<bool> {
    x => NameMatches(query, x)
  }

  function FilterByName(items: seq<Value>, query: string): (r: Result<seq<Value>>)
    ensures query == "" ==> r == Ok(items)
    ensures r.Ok? ==> r.value == Filter(items, Kept(NameMatcher(query)))
  {
    var r := FilterResult(items, NameMatcher(query));
    if query == "" then
      FilterAll(items, Kept(NameMatcher(query)));
      r
    else r
  }

  // Sorting

  datatype Direction = Asc | Desc

  /** The fields the books table sorts by. */
  const SortFields: set<string> := {"id", "title", "year"}

  /** A cell compared with `<` and `>`: numbers before strings. */
  function ValueKey(v: Value): Key {
    match v
    case Num(n) => IntKey(n)
    case Str(s) => TextKey(s)
    case _ => IntKey(0)
  }

  /** The comparator's reads of the row succeed: the row is not null or
      undefined, and for the title `(row.title || '').toLowerCase()` exists. */
  predicate Comparable(field: string, row: Value) {
    !Nullish(row) && (field != "title" || Or(Get(row, "title"), Str("")).Str?)
  }

  /** What the comparator compares for a field: the id, the lower-case title, or
      `publicationYear || 0`. */
  function FieldKey(field: string, row: Value): Key {
    if field == "id" then ValueKey(Get(row, "id"))
    else if field == "title" then
      var t := Or(Get(row, "title"), Str(""));
      TextKey(if t.Str? then Lower(t.s) else "")
    else ValueKey(Or(Get(row, "publicationYear"), Num(0)))
  }

  /** `[...rows].sort(comparator)`: without a known sort field the comparator
      always answers 0 and the stable sort keeps the order; otherwise the rows
      are ordered by the field (ties keep their order). With two rows or more
      every row is compared, so a null row, or a title without `toLowerCase`, throws. */
  function SortRows(rows: seq<Value>, field: Option<string>, dir: Direction): (r: Result<seq<Value>>)
    ensures field.None? || field.value !in SortFields ==> r == Ok(rows)
    ensures r.Ok? ==> multiset(r.value) == multiset(rows)
    ensures r.Ok? && field.Some? && field.value in SortFields ==>
              Sorted(r.value, row => FieldKey(field.value, row), dir == Desc)
    ensures r.TypeError? <==>
              field.Some? && field.value in SortFields && |rows| >= 2 && exists i :: 0 <= i < |rows| && !Comparable(field.value, rows[i])
  {
    if field.None? || field.value !in SortFields then Ok(rows)
    else if |rows| >= 2 && exists i :: 0 <= i < |rows| && !Comparable(field.value, rows[i]) then TypeError
    else Ok(SortBy(rows, row => FieldKey(field.value, row), dir == Desc))
  }

  /** The books table's sort state and its column-header handler. */
  class BooksTable {
    var sortField: Option<string>
    var sortDirection: Direction

    constructor ()
      ensures sortField == None && sortDirection == Asc
    {
      sortField := None;
      sortDirection := Asc;
    }

    /** `handleSort(field)`: the same field flips the direction; another field
        becomes the sort field, ascending. */
    method HandleSort(field: string)
      modifies this
      ensures old(sortField) == Some(field) ==>
                sortField == Some(field) && sortDirection == (if old(sortDirection) == Asc then Desc else Asc)
      ensures old(sortField) != Some(field) ==> sortField == Some(field) && sortDirection == Asc
    {
      if sortField == Some(field) {
        sortDirection := if sortDirection == Asc then Desc else Asc;
      } else {
        sortField := Some(field);
        sortDirection := Asc;
      }
    }
  }

  /** Clicking one header twice brings the table back to its direction. */
  method SortTwiceRestores(t: BooksTable, field: string)
    requires t.sortField == Some(field)
    modifies t
    ensures t.sortField == old(t.sortField) && t.sortDirection == old(t.sortDirection)
  {
    t.HandleSort(field);
    t.HandleSort(field);
  }

  // Pagination

  /** `Math.ceil(n / per)` */
  function TotalPages(n: nat, per: nat): (t: nat)
    requires per > 0
    ensures t * per >= n
    ensures t > 0 ==> (t - 1) * per < n
    ensures t == 0 <==> n == 0
  {
    (n + per - 1) / per
  }

  /** `rows.slice((page - 1) * per, page * per)` */
  function PageRows<T>(rows: seq<T>, page: int, per: nat): (r: seq<T>)
    requires per > 0
    ensures page >= 1 && (page - 1) * per <= |rows| ==>
              r == rows[(page - 1) * per..if page * per < |rows| then page * per else |rows|]
    ensures page >= 1 && (page - 1) * per >= |rows| ==> r == []
    ensures page >= 1 ==> |r| <= per
  {
    Slice(rows, (page - 1) * per, page * per)
  }

  /** The rows of pages 1 to k, in order. */
  function PagesUpTo<T>(rows: seq<T>, per: nat, k: nat): seq<T>
    requires per > 0
  {
    if k == 0 then [] else PagesUpTo(rows, per, k - 1) + PageRows(rows, k, per)
  }

  lemma {:induction false} PagesUpToPrefix<T>(rows: seq<T>, per: nat, k: nat)
    requires per > 0
    ensures PagesUpTo(rows, per, k) == rows[..if k * per < |rows| then k * per else |rows|]
  {
    if k > 0 {
      PagesUpToPrefix(rows, per, k - 1);
      var lo := (k - 1) * per;
      if lo <= |rows| {
        var hi := if k * per < |rows| then k * per else |rows|;
        assert rows[..lo] + rows[lo..hi] == rows[..hi];
      } else {
        assert (k - 1) * per <= k * per;
      }
    }
  }

  lemma MulMonotone(a: nat, b: nat, per: nat)
    requires a <= b
    ensures a * per <= b * per
  {
  }

  /** The pages 1..totalPages show every row exactly once, in order. */
  lemma PagesCoverRows<T>(rows: seq<T>, per: nat)
    requires per > 0
    ensures PagesUpTo(rows, per, TotalPages(|rows|, per)) == rows
  {
    var t := TotalPages(|rows|, per);
    PagesUpToPrefix(rows, per, t);
    assert rows[..|rows|] == rows;
  }

  /** Every page from 1 to totalPages holds between 1 and `per` rows. */
  lemma PageInRangeNonEmpty<T>(rows: seq<T>, per: nat, page: int)
    requires per > 0 && 1 <= page <= TotalPages(|rows|, per)
    ensures 1 <= |PageRows(rows, page, per)| <= per
  {
    var t := TotalPages(|rows|, per);
    MulMonotone(page - 1, t - 1, per);
    assert (page - 1) * per < |rows|;
  }

  /** The tables' effect: a page past the end goes back to the first. */
  function PageAfterReset(current: int, totalPages: nat): (p: int)
    ensures totalPages > 0 && 1 <= current ==> 1 <= p <= totalPages
    ensures 1 <= current <= totalPages ==> p == current
    ensures totalPages == 0 ==> p == current
  {
    if current > totalPages && totalPages > 0 then 1 else current
  }

  /** The back button: `Math.max(1, current - 1)`. */
  function PrevPage(current: int): int {
    if current - 1 > 1 then current - 1 else 1
  }

  /** The forward button: `Math.min(totalPages, current + 1)`. */
  function NextPage(current: int, totalPages: nat): int {
    if totalPages < current + 1 then totalPages else current + 1
  }

  /** The pager is shown only for two pages or more, and from a page in range
      both buttons stay in range and move by at most one. */
  lemma PagerStaysInRange(current: int, totalPages: nat)
    requires 1 <= current <= totalPages
    ensures 1 <= PrevPage(current) <= totalPages && 1 <= NextPage(current, totalPages) <= totalPages
    ensures current > 1 ==> PrevPage(current) == current - 1
    ensures current < totalPages ==> NextPage(current, totalPages) == current + 1
    ensures current == 1 ==> PrevPage(current) == 1
    ensures current == totalPages ==> NextPage(current, totalPages) == totalPages
  {
  }

  /** The page's own state: the tab, the search text and the page number. */
  class AdminPageState {
    var activeTab: string
    var searchQuery: string
    var currentPage: int
    var deleteConfirm: Value

    constructor ()
      ensures activeTab == "books" && searchQuery == "" && currentPage == 1 && deleteConfirm == Null
    {
      activeTab := "books";
      searchQuery := "";
      currentPage := 1;
      deleteConfirm := Null;
    }

    /** A tab button: the search text and the page number are kept. */
    method SelectTab(tab: string)
      modifies this
      ensures activeTab == tab
      ensures searchQuery == old(searchQuery) && currentPage == old(currentPage) && deleteConfirm == old(deleteConfirm)
    {
      activeTab := tab;
    }

    /** Typing in the search box goes back to the first page. */
    method OnSearchInput(query: string)
      modifies this
      ensures searchQuery == query && currentPage == 1
      ensures activeTab == old(activeTab) && deleteConfirm == old(deleteConfirm)
    {
      searchQuery := query;
      currentPage := 1;
    }

    /** The effect of the shown table after its rows change. */
    method ResetPageIfPastEnd(totalPages: nat)
      modifies this
      ensures currentPage == PageAfterReset(old(currentPage), totalPages)
      ensures activeTab == old(activeTab) && searchQuery == old(searchQuery) && deleteConfirm == old(deleteConfirm)
    {
      if currentPage > totalPages && totalPages > 0 {
        currentPage := 1;
      }
    }

    method GoBack()
      modifies this
      ensures currentPage == PrevPage(old(currentPage))
      ensures activeTab == old(activeTab) && searchQuery == old(searchQuery) && deleteConfirm == old(deleteConfirm)
    {
      currentPage := PrevPage(currentPage);
    }

    method GoForward(totalPages: nat)
      modifies this
      ensures currentPage == NextPage(old(currentPage), totalPages)
      ensures activeTab == old(activeTab) && searchQuery == old(searchQuery) && deleteConfirm == old(deleteConfirm)
    {
      currentPage := NextPage(currentPage, totalPages);
    }

    /** A row's delete button remembers the row to confirm. */
    method HandleDelete(item: Value)
      modifies this
      ensures deleteConfirm == item
      ensures activeTab == old(activeTab) && searchQuery == old(searchQuery) && currentPage == old(currentPage)
    {
      deleteConfirm := item;
    }
  }

  // The count label

  /** "Найдено: n" followed by the word for one, for a few (fewer than five,
      zero included) or for many. */
  function CountLabel(n: nat, one: string, few: string, many: string): (r: string)
    ensures n == 1 ==> r == one
    ensures n != 1 && n < 5 ==> r == few
    ensures n >= 5 ==> r == many
  {
    if n == 1 then one else if n < 5 then few else many
  }

  function BooksLabel(n: nat): string {
    CountLabel(n, "книга", "книги", "книг")
  }

  /** "Найдено: 0 книги" and "Найдено: 21 книг": zero takes the word for a few,
      and 21 the word for many. */
  lemma CountLabelAsWritten()
    ensures BooksLabel(0) == "книги" && BooksLabel(21) == "книг" && BooksLabel(11) == "книг"
  {
  }

  /** The Russian plural rule the labels follow for 1..4: the last digit picks
      the word, except for 11..14. */
  function RussianCountLabel(n: nat, one: string, few: string, many: string): (r: string)
    ensures n % 10 == 1 && n % 100 != 11 ==> r == one
    ensures 2 <= n % 10 <= 4 && !(12 <= n % 100 <= 14) ==> r == few
    ensures n % 10 == 0 || n % 10 >= 5 || 11 <= n % 100 <= 14 ==> r == many
  {
    var d := n % 10;
    var dd := n % 100;
    if d == 1 && dd != 11 then one
    else if 2 <= d <= 4 && !(12 <= dd <= 14) then few
    else many
  }

  /** The corrected label agrees with the page's below 21 except at zero, where it says many. */
  lemma RussianLabelAgreesBelowTwentyOne(n: nat, one: string, few: string, many: string)
    requires 1 <= n < 21
    ensures RussianCountLabel(n, one, few, many) == CountLabel(n, one, few, many)
  {
  }

  lemma RussianLabelOfZero(one: string, few: string, many: string)
    ensures RussianCountLabel(0, one, few, many) == many
  {
  }

  // Deleting

  datatype DeleteCall = RemoveBook(id: Value) | RemoveAuthor(id: Value) | RemoveGenre(id: Value)

  /** `confirmDelete()`: nothing without a row to confirm or on an unknown tab;
      otherwise the delete of the row's id in the shown table. */
  function ConfirmDelete(deleteConfirm: Value, activeTab: string): (r: Option<DeleteCall>)
    ensures r.None? <==> !Truthy(deleteConfirm) || activeTab !in {"books", "authors", "genres"}
    ensures r.Some? ==> r.value.id == Get(deleteConfirm, "id")
    ensures r.Some? ==> (r.value.RemoveBook? <==> activeTab == "books")
    ensures r.Some? ==> (r.value.RemoveAuthor? <==> activeTab == "authors")
    ensures r.Some? ==> (r.value.RemoveGenre? <==> activeTab == "genres")
  {
    if !Truthy(deleteConfirm) then None
    else if activeTab == "books" then Some(RemoveBook(Get(deleteConfirm, "id")))
    else if activeTab == "authors" then Some(RemoveAuthor(Get(deleteConfirm, "id")))
    else if activeTab == "genres" then Some(RemoveGenre(Get(deleteConfirm, "id")))
    else None
  }

  /** The request a delete sends. */
  function DeleteRequest(call: DeleteCall): (q: ApiService.Request)
    ensures q.verb == "delete" && q.body.None?
  {
    match call
    case RemoveBook(id) => ApiService.BooksDelete(id)
    case RemoveAuthor(id) => ApiService.AuthorsDelete(id)
    case RemoveGenre(id) => ApiService.GenresDelete(id)
  }

  // Mutation errors

  datatype Mutation =
    | CreateBook | UpdateBook | DeleteBook
    | CreateAuthor | UpdateAuthor | DeleteAuthor
    | CreateGenre | UpdateGenre | DeleteGenre

  function FallbackMessage(m: Mutation): string {
    match m
    case CreateBook => "Ошибка при создании книги"
    case UpdateBook => "Ошибка при обновлении книги"
    case DeleteBook => "Ошибка при удалении книги"
    case CreateAuthor => "Ошибка при создании автора"
    case UpdateAuthor => "Ошибка при обновлении автора"
    case DeleteAuthor => "Ошибка при удалении автора"
    case CreateGenre => "Ошибка при создании жанра"
    case UpdateGenre => "Ошибка при обновлении жанра"
    case DeleteGenre => "Ошибка при удалении жанра"
  }

  /** The toast of a failed mutation: the error's message, or the mutation's own text. */
  function ErrorToast(m: Mutation, e: ApiService.Rejected): (t: string)
    ensures t != ""
    ensures e.message != "" ==> t == e.message
  {
    if e.message != "" then e.message else FallbackMessage(m)
  }

  /** Whether a failed mutation offers the authorization settings: every one but
      the book creation applies the page's test. */
  function OffersSettings(m: Mutation, e: ApiService.Rejected): (b: bool)
    ensures m == CreateBook ==> !b
    ensures m != CreateBook ==> (b <==> ApiService.OffersAuthSettings(e))
  {
    m != CreateBook && ApiService.OffersAuthSettings(e)
  }

  /** On a 401 whose server message names neither "401" nor authorization, the
      update mutations offer the settings only once the rejection keeps the flag. */
  lemma SettingsOfferedOn401(m: Mutation)
    requires m != CreateBook
    ensures !OffersSettings(m, ApiService.Reject(ApiService.BadCredentials401))
    ensures OffersSettings(m, ApiService.RejectWithAuthFlag(ApiService.BadCredentials401))
  {
    ApiService.UnauthorizedFlagLost();
    ApiService.UnauthorizedAlwaysOffersSettings(ApiService.BadCredentials401);
  }

  // Editing

  /** `handleEdit(item)`: a book with an id is reloaded in full (`fetched`, None
      when the request fails, which keeps the row); other rows are edited as listed. */
  function EditingItem(activeTab: string, item: Value, fetched: Option<Value>): (e: Value)
    ensures activeTab != "books" || !Truthy(GetOpt(item, "id")) ==> e == item
    ensures activeTab == "books" && Truthy(GetOpt(item, "id")) && fetched.Some? ==> e == fetched.value
    ensures fetched.None? ==> e == item
  {
    if activeTab == "books" && Truthy(GetOpt(item, "id")) then
      match fetched
      case Some(full) => full
      case None => item
    else item
  }

  /** One author or genre of the item as a form id: `String(a.id || a)` for an
      object, `String(a)` otherwise. */
  function IdText(a: Value): string {
    if a.Obj? || a.Arr? then ToStr(Or(Get(a, "id"), a)) else ToStr(a)
  }

  /** The ids that survive the filter: not '', 'undefined' or 'null'. */
  predicate KeptId(s: string) {
    s != "" && s != "undefined" && s != "null"
  }

  /** `items.map(IdText).filter(KeptId)`, one element at a time. */
  function IdTexts(items: seq<Value>): (r: seq<string>)
    ensures r == Filter(Map(items, IdText), KeptId)
  {
    if items == [] then []
    else
      var s := IdText(items[0]);
      assert Map(items, IdText)[1..] == Map(items[1..], IdText);
      (if KeptId(s) then [s] else []) + IdTexts(items[1..])
  }

  function StrValues(texts: seq<string>): (r: seq<Value>)
    ensures |r| == |texts| && forall i :: 0 <= i < |r| ==> r[i] == Str(texts[i])
  {
    seq(|texts|, i requires 0 <= i < |texts| => Str(texts[i]))
  }

  /** `(v || []).map(...).filter(...)` as form values. */
  function FormIds(v: Value): (r: Result<Value>)
    ensures r.Ok? <==> !Truthy(v) || v.Arr?
    ensures !Truthy(v) ==> r == Ok(Arr([]))
    ensures v.Arr? ==> r == Ok(Arr(StrValues(Filter(Map(v.items, IdText), KeptId))))
  {
    var items :- ListOf(v);
    Ok(Arr(StrValues(IdTexts(items))))
  }

  /** A number field shown as text: '' for null, undefined or ''. */
  function NumberText(v: Value): (s: Value)
    ensures s.Str?
    ensures v.Num? ==> s == Str(IntToString(v.n))
  {
    if !Nullish(v) && v != Str("") then Str(ToStr(v)) else Str("")
  }

  const EmptyForm: Value := Obj(map[
    "title" := Str(""), "description" := Str(""), "publicationYear" := Str(""), "rating" := Str(""),
    "imageUrl" := Str(""), "authorIds" := Arr([]), "genreIds" := Arr([]), "name" := Str("")])

  /** The form a book fills: its seven fields, the id lists already converted. */
  function BookForm(item: Value, authorIds: Value, genreIds: Value): (r: Value)
    ensures r.Obj?
    ensures r.fields.Keys == {"title", "description", "publicationYear", "rating", "imageUrl", "authorIds", "genreIds"}
    ensures Get(r, "title") == Or(Get(item, "title"), Str(""))
    ensures Get(r, "description") == Or(Get(item, "description"), Str(""))
    ensures Get(r, "imageUrl") == Or(Get(item, "imageUrl"), Str(""))
    ensures Get(r, "publicationYear") == NumberText(Get(item, "publicationYear"))
    ensures Get(r, "rating") == NumberText(Get(item, "rating"))
    ensures Get(r, "authorIds") == authorIds && Get(r, "genreIds") == genreIds
    ensures Get(r, "name") == Undefined
  {
    Obj(map[
      "title" := Or(Get(item, "title"), Str("")),
      "description" := Or(Get(item, "description"), Str("")),
      "publicationYear" := NumberText(Get(item, "publicationYear")),
      "rating" := NumberText(Get(item, "rating")),
      "imageUrl" := Or(Get(item, "imageUrl"), Str("")),
      "authorIds" := authorIds,
      "genreIds" := genreIds])
  }

  /** `initialFormData`: the empty form without an item; a book's fields as
      text (ids as strings); an author's or genre's name. */
  function InitialFormData(item: Value, formType: string): (r: Result<Value>)
    ensures !Truthy(item) ==> r == Ok(EmptyForm)
    ensures Truthy(item) && formType != "books" ==> r.Ok?
    ensures Truthy(item) && (formType == "authors" || formType == "genres") ==>
              r == Ok(Obj(map["name" := Or(Get(item, "name"), Str(""))]))
    ensures Truthy(item) && formType !in {"books", "authors", "genres"} ==> r == Ok(EmptyForm)
    ensures Truthy(item) && formType == "books" ==>
              (r.Ok? <==> FormIds(Get(item, "authors")).Ok? && FormIds(Get(item, "genres")).Ok?)
    ensures Truthy(item) && formType == "books" && r.Ok? ==>
              && r.value.Obj?
              && r.value.fields.Keys == {"title", "description", "publicationYear", "rating", "imageUrl", "authorIds", "genreIds"}
              && Get(r.value, "title") == Or(Get(item, "title"), Str(""))
              && Get(r.value, "description") == Or(Get(item, "description"), Str(""))
              && Get(r.value, "imageUrl") == Or(Get(item, "imageUrl"), Str(""))
              && Get(r.value, "publicationYear") == NumberText(Get(item, "publicationYear"))
              && Get(r.value, "rating") == NumberText(Get(item, "rating"))
              && Ok(Get(r.value, "authorIds")) == FormIds(Get(item, "authors"))
              && Ok(Get(r.value, "genreIds")) == FormIds(Get(item, "genres"))
              && Get(r.value, "name") == Undefined
  {
    if !Truthy(item) then Ok(EmptyForm)
    else if formType == "books" then
      var authorIds :- FormIds(Get(item, "authors"));
      var genreIds :- FormIds(Get(item, "genres"));
      Ok(BookForm(item, authorIds, genreIds))
    else if formType == "authors" || formType == "genres" then
      Ok(Obj(map["name" := Or(Get(item, "name"), Str(""))]))
    else Ok(EmptyForm)
  }

  // Validation

  /** `isNaN(v)` */
  predicate IsNaN(v: Value) {
    ToNumber(v).None?
  }

  predicate YearInvalid(v: Value) {
    Truthy(v) && IsNaN(v)
  }

  predicate RatingInvalid(v: Value) {
    Truthy(v) && (IsNaN(v) || ToNumber(v).value < 0 || ToNumber(v).value > 10)
  }

  /** `v.trim()`: only strings have the method. */
  function TrimValue(v: Value): (r: Result<string>)
    ensures r.Ok? <==> v.Str?
    ensures v.Str? ==> r.value == Trim(v.s)
  {
    if v.Str? then Ok(Trim(v.s)) else TypeError
  }

  const NameRequired := "Название обязательно"
  const YearNotNumber := "Год должен быть числом"
  const RatingOutOfRange := "Рейтинг должен быть от 0 до 10"

  /** The book form's error map: one entry per failed check, with its message. */
  predicate BookErrorsOk(errors: map<string, string>, noTitle: bool, badYear: bool, badRating: bool) {
    && errors.Keys <= {"title", "publicationYear", "rating"}
    && ("title" in errors <==> noTitle) && (noTitle ==> errors["title"] == NameRequired)
    && ("publicationYear" in errors <==> badYear) && (badYear ==> errors["publicationYear"] == YearNotNumber)
    && ("rating" in errors <==> badRating) && (badRating ==> errors["rating"] == RatingOutOfRange)
  }

  /** The three checks of the book form, given the trimmed title. */
  method BookErrors(title: string, year: Value, rating: Value) returns (errors: map<string, string>)
    ensures BookErrorsOk(errors, title == "", YearInvalid(year), RatingInvalid(rating))
  {
    errors := map[];
    if title == "" {
      errors := errors["title" := NameRequired];
    }
    if YearInvalid(year) {
      errors := errors["publicationYear" := YearNotNumber];
    }
    if RatingInvalid(rating) {
      errors := errors["rating" := RatingOutOfRange];
    }
  }

  /** `newErrors` as `validate` fills it; `.trim()` on a missing title or name throws. */
  method NewErrors(formType: string, form: Value) returns (r: Result<map<string, string>>)
    ensures formType == "books" ==> (r.Ok? <==> Get(form, "title").Str?)
    ensures formType != "books" ==> (r.Ok? <==> Get(form, "name").Str?)
    ensures r.Ok? && formType == "books" ==>
              BookErrorsOk(r.value, Trim(Get(form, "title").s) == "",
                           YearInvalid(Get(form, "publicationYear")), RatingInvalid(Get(form, "rating")))
    ensures r.Ok? && formType != "books" ==>
              r.value == if Trim(Get(form, "name").s) == "" then map["name" := NameRequired] else map[]
  {
    if formType == "books" {
      var title := TrimValue(Get(form, "title"));
      if title.TypeError? {
        return TypeError;
      }
      var errors := BookErrors(title.value, Get(form, "publicationYear"), Get(form, "rating"));
      return Ok(errors);
    } else {
      var name := TrimValue(Get(form, "name"));
      if name.TypeError? {
        return TypeError;
      }
      var errors: map<string, string> := map[];
      if name.value == "" {
        errors := errors["name" := NameRequired];
      }
      return Ok(errors);
    }
  }

  /** The form's error state. */
  class AdminModal {
    var errors: map<string, string>

    constructor ()
      ensures errors == map[]
    {
      errors := map[];
    }

    /** `validate()`: records the errors and answers whether there were none. */
    method Validate(formType: string, form: Value) returns (ok: Result<bool>)
      modifies this
      ensures ok.Ok? ==> (ok.value <==> errors == map[])
      ensures ok.TypeError? ==> errors == old(errors)
      ensures formType == "books" ==> (ok.Ok? <==> Get(form, "title").Str?)
      ensures formType != "books" ==> (ok.Ok? <==> Get(form, "name").Str?)
      ensures ok.Ok? && formType == "books" && Get(form, "title").Str? ==>
                (ok.value <==> Trim(Get(form, "title").s) != ""
                               && !YearInvalid(Get(form, "publicationYear"))
                               && !RatingInvalid(Get(form, "rating")))
      ensures ok.Ok? && formType != "books" && Get(form, "name").Str? ==> (ok.value <==> Trim(Get(form, "name").s) != "")
      ensures ok.Ok? && formType == "books" ==>
                BookErrorsOk(errors, Trim(Get(form, "title").s) == "",
                             YearInvalid(Get(form, "publicationYear")), RatingInvalid(Get(form, "rating")))
      ensures ok.Ok? && formType != "books" ==>
                errors == if Trim(Get(form, "name").s) == "" then map["name" := NameRequired] else map[]
    {
      var newErrors := NewErrors(formType, form);
      if newErrors.TypeError? {
        return TypeError;
      }
      errors := newErrors.value;
      ok := Ok(|errors| == 0);
      if !ok.value {
        assert exists k :: k in errors;
      }
    }
  }

  // Submitting

  /** `Number(v)` in a JSON body: NaN travels as null. */
  function NumberValue(v: Value): (r: Value)
    ensures r.Num? || r.Null?
    ensures r.Num? <==> !IsNaN(v)
  {
    match ToNumber(v)
    case Some(n) => Num(n)
    case None => Null
  }

  function NumberValues(items: seq<Value>): (r: seq<Value>)
    ensures |r| == |items| && forall i :: 0 <= i < |r| ==> r[i] == NumberValue(items[i])
  {
    seq(|items|, i requires 0 <= i < |items| => NumberValue(items[i]))
  }

  /** `handleUploadImage()`: without a file the form's URL; after an upload
      (`response`, None when it fails) the returned url or imageUrl, else the form's. */
  function UploadedImageUrl(hasFile: bool, response: Option<Value>, formImage: Value): (u: Value)
    ensures !hasFile || response.None? ==> u == formImage
    ensures hasFile && response.Some? ==>
              u == Or(Or(Get(Get(response.value, "data"), "url"), Get(Get(response.value, "data"), "imageUrl")), formImage)
  {
    if !hasFile then formImage
    else match response
      case None => formImage
      case Some(resp) =>
        var data := Get(resp, "data");
        Or(Or(Get(data, "url"), Get(data, "imageUrl")), formImage)
  }

  /** The book payload of `handleSubmit`: the form with its URL, ids as numbers,
      and year and rating as numbers or null when empty. */
  function BookPayload(form: Value, imageUrl: Value): (r: Result<Value>)
    ensures r.Ok? <==> Get(form, "authorIds").Arr? && Get(form, "genreIds").Arr?
    ensures r.Ok? ==> Get(r.value, "imageUrl") == imageUrl
    ensures r.Ok? ==> Get(r.value, "authorIds") == Arr(NumberValues(Get(form, "authorIds").items))
    ensures r.Ok? ==> Get(r.value, "genreIds") == Arr(NumberValues(Get(form, "genreIds").items))
    ensures r.Ok? ==>
              Get(r.value, "publicationYear") ==
              (if Truthy(Get(form, "publicationYear")) then NumberValue(Get(form, "publicationYear")) else Null)
    ensures r.Ok? ==> Get(r.value, "rating") == (if Truthy(Get(form, "rating")) then NumberValue(Get(form, "rating")) else Null)
    ensures r.Ok? ==> forall k :: k !in {"imageUrl", "authorIds", "genreIds", "publicationYear", "rating"} ==> Get(r.value, k) == Get(form, k)
  {
    var authors := Get(form, "authorIds");
    var genres := Get(form, "genreIds");
    if !authors.Arr? || !genres.Arr? then TypeError
    else
      var year := Get(form, "publicationYear");
      var rating := Get(form, "rating");
      Ok(Put(Put(Put(Put(Put(form,
        "imageUrl", imageUrl),
        "authorIds", Arr(NumberValues(authors.items))),
        "genreIds", Arr(NumberValues(genres.items))),
        "publicationYear", if Truthy(year) then NumberValue(year) else Null),
        "rating", if Truthy(rating) then NumberValue(rating) else Null))
  }

  /** A form that passed validation submits a year and a rating that are numbers
      (the rating within 0..10) or null. */
  lemma ValidatedPayloadNumbers(form: Value, imageUrl: Value)
    requires BookPayload(form, imageUrl).Ok?
    requires !YearInvalid(Get(form, "publicationYear")) && !RatingInvalid(Get(form, "rating"))
    ensures var p := BookPayload(form, imageUrl).value;
            && (Get(p, "publicationYear").Num? || Get(p, "publicationYear").Null?)
            && (Get(p, "publicationYear").Null? <==> !Truthy(Get(form, "publicationYear")))
            && (Get(p, "rating").Null? <==> !Truthy(Get(form, "rating")))
            && (Get(p, "rating").Num? ==> 0 <= Get(p, "rating").n <= 10)
  {
  }

  /** The decimal text of an integer is never dropped from the form. */
  lemma IntTextKept(n: int)
    ensures KeptId(IntToString(n))
  {
    var s := IntToString(n);
    if n >= 0 {
      assert IsDigit(s[0]);
    } else {
      assert s[0] == '-';
    }
  }

  /** An author or genre entry that the form shows as a number: a bare number,
      or an object (such as `{id, name}` from the adapter) whose id is a
      non-zero number. A zero id falls back to the object itself in
      `a.id || a`, which shows as "[object Object]". */
  predicate FormIdEntry(a: Value) {
    a.Num? || (a.Obj? && Get(a, "id").Num? && Get(a, "id").n != 0)
  }

  /** The id such an entry stands for. */
  function EntryIdValue(a: Value): (r: Value)
    ensures FormIdEntry(a) ==> r.Num? && (a.Num? ==> r == a)
  {
    if a.Obj? then Get(a, "id") else a
  }

  /** Numeric ids, bare or inside entry objects, are shown as their decimal
      texts, all of them, in order. */
  lemma {:induction false} NumericIdTexts(ids: seq<Value>)
    requires forall i :: 0 <= i < |ids| ==> FormIdEntry(ids[i])
    ensures |IdTexts(ids)| == |ids|
    ensures forall i :: 0 <= i < |ids| ==> IdTexts(ids)[i] == IntToString(EntryIdValue(ids[i]).n)
  {
    if ids != [] {
      assert IdText(ids[0]) == IntToString(EntryIdValue(ids[0]).n);
      IntTextKept(EntryIdValue(ids[0]).n);
      NumericIdTexts(ids[1..]);
      assert IdTexts(ids) == [IntToString(EntryIdValue(ids[0]).n)] + IdTexts(ids[1..]);
    }
  }

  /** Numeric author or genre ids shown in the form come back as the same
      numbers: `Number(String(n)) == n` and no rendering is filtered out. */
  lemma NumericIdsRoundTrip(ids: seq<Value>)
    requires forall i :: 0 <= i < |ids| ==> ids[i].Num?
    ensures NumberValues(StrValues(IdTexts(ids))) == ids
  {
    EntryIdsRoundTrip(ids);
    assert Map(ids, EntryIdValue) == ids;
  }

  /** The ids of entries shown in the form come back as the entries' ids. */
  lemma EntryIdsRoundTrip(ids: seq<Value>)
    requires forall i :: 0 <= i < |ids| ==> FormIdEntry(ids[i])
    ensures NumberValues(StrValues(IdTexts(ids))) == Map(ids, EntryIdValue)
  {
    NumericIdTexts(ids);
    var back := NumberValues(StrValues(IdTexts(ids)));
    forall i | 0 <= i < |ids| ensures back[i] == EntryIdValue(ids[i]) {
      ParseNumberOfIntToString(EntryIdValue(ids[i]).n);
    }
  }

  /** A number field shown in the form and submitted again: a number comes back
      as itself, a missing one as null. */
  lemma NumberFieldRoundTrip(v: Value)
    requires v.Num? || Nullish(v)
    ensures var t := NumberText(v);
            (if Truthy(t) then NumberValue(t) else Null) == (if v.Num? then v else Null)
  {
    if v.Num? {
      IntTextKept(v.n);
      ParseNumberOfIntToString(v.n);
    }
  }

  /** Editing a book without touching the form submits its own ids, year and
      rating: the form `initialFormData` fills is turned back by the payload.
      The author and genre entries may be bare ids or the adapter's `{id, name}`
      objects; the payload carries their ids, in order. */
  lemma InitialFormSubmitsBook(book: Value, imageUrl: Value)
    requires Truthy(book)
    requires Get(book, "authors").Arr? && forall i :: 0 <= i < |Get(book, "authors").items| ==> FormIdEntry(Get(book, "authors").items[i])
    requires Get(book, "genres").Arr? && forall i :: 0 <= i < |Get(book, "genres").items| ==> FormIdEntry(Get(book, "genres").items[i])
    requires Get(book, "publicationYear").Num? || Nullish(Get(book, "publicationYear"))
    requires Get(book, "rating").Num? || Nullish(Get(book, "rating"))
    ensures InitialFormData(book, "books").Ok?
    ensures var p := BookPayload(InitialFormData(book, "books").value, imageUrl);
            && p.Ok?
            && Get(p.value, "authorIds") == Arr(Map(Get(book, "authors").items, EntryIdValue))
            && Get(p.value, "genreIds") == Arr(Map(Get(book, "genres").items, EntryIdValue))
            && Get(p.value, "publicationYear") == (if Get(book, "publicationYear").Num? then Get(book, "publicationYear") else Null)
            && Get(p.value, "rating") == (if Get(book, "rating").Num? then Get(book, "rating") else Null)
            && Get(p.value, "title") == Or(Get(book, "title"), Str(""))
            && Get(p.value, "imageUrl") == imageUrl
  {
    var authors := Get(book, "authors").items;
    var genres := Get(book, "genres").items;
    EntryIdsRoundTrip(authors);
    EntryIdsRoundTrip(genres);
    NumberFieldRoundTrip(Get(book, "publicationYear"));
    NumberFieldRoundTrip(Get(book, "rating"));
  }
}
