/** The book page (src/pages/BookDetailPage.jsx): the books shown as similar
    to the current one, and the history entry the page records. */
module BookDetail {
  import opened Js
  import opened Text
  import opened Seqs
  import opened BookStore

  const SimilarCap := 6

  /** `typeof x === 'object' ? x.id : x`: null is an object and has no `id`. */
  function EntryId(x: Value): (r: Result<Value>)
    ensures r.TypeError? <==> x.Null?
    ensures r.Ok? ==> r.value == if IsObjectType(x) then Get(x, "id") else x
  {
    if IsObjectType(x) then Member(x, "id") else Ok(x)
  }

  /** The inner comparison `id(g) === id(bg)`; the current book's entry is read first. */
  function SameEntry(g: Value, bg: Value): (r: Result<bool>)
    ensures r.TypeError? <==> g.Null? || bg.Null?
  {
    var gid :- EntryId(g);
    var bgid :- EntryId(bg);
    Ok(StrictEq(gid, bgid))
  }

  function SameEntryAs(g: Value): Value -> Result<bool> {
    bg => SameEntry(g, bg)
  }

  /** `v?.some(p)`: false for null or undefined; only arrays have the method. */
  function SomeOpt(v: Value, p: Value -> Result<bool>): (r: Result<bool>)
    ensures Nullish(v) ==> r == Ok(false)
    ensures !Nullish(v) && !v.Arr? ==> r.TypeError?
    ensures v.Arr? ==> r == SomeResult(v.items, p)
  {
    if Nullish(v) then Ok(false)
    else if v.Arr? then SomeResult(v.items, p)
    else TypeError
  }

  /** `b.<list>?.some(bg => id(g) === id(bg))` */
  function ListHasEntry(list: string, b: Value, g: Value): Result<bool> {
    SomeOpt(Get(b, list), SameEntryAs(g))
  }

  function ListHasEntryIn(list: string, b: Value): Value -> Result<bool> {
    g => ListHasEntry(list, b, g)
  }

  /** `book.<list>?.some(g => b.<list>?.some(...))` */
  function SharesEntry(list: string, book: Value, b: Value): Result<bool> {
    SomeOpt(Get(book, list), ListHasEntryIn(list, b))
  }

  /** The filter's callback: another id, and a shared genre or, failing that, a shared author. */
  function IsSimilar(book: Value, b: Value): (r: Result<bool>)
    ensures Nullish(b) ==> r.TypeError?
  {
    var bid :- Member(b, "id");
    if StrictEq(bid, Get(book, "id")) then Ok(false)
    else
      var genre :- SharesEntry("genres", book, b);
      if genre then Ok(true) else SharesEntry("authors", book, b)
  }

  function SimilarTo(book: Value): Value -> Result<bool> {
    b => IsSimilar(book, b)
  }

  /** The reference notion: another id, and a genre or an author in common. */
  predicate Similar(book: Value, b: Value) {
    !StrictEq(Get(b, "id"), Get(book, "id")) &&
    (SharesId("genres", book, b) || SharesId("authors", book, b))
  }

  /** `similarBooks`: [] unless both the book and the list are loaded, then the
      first six similar books. */
  function SimilarBooks(book: Value, allBooks: Value): (r: Result<seq<Value>>)
    ensures !Truthy(book) || !Truthy(allBooks) ==> r == Ok([])
    ensures Truthy(book) && Truthy(allBooks) && !allBooks.Arr? ==> r.TypeError?
    ensures r.Ok? ==> |r.value| <= SimilarCap
    ensures r.Ok? ==> forall k :: 0 <= k < |r.value| ==>
              allBooks.Arr? && r.value[k] in allBooks.items &&
              !StrictEq(Get(r.value[k], "id"), Get(book, "id"))
  {
    if Truthy(book) && Truthy(allBooks) then
      if allBooks.Arr? then
        var similar :- FilterResult(allBooks.items, SimilarTo(book));
        assert forall k :: 0 <= k < |similar| ==> similar[k] in allBooks.items && Kept(SimilarTo(book))(similar[k]);
        Ok(Slice(similar, 0, SimilarCap))
      else TypeError
    else Ok([])
  }

  /** The entry g has a match in b's list. */
  predicate HasMatch(list: string, b: Value, g: Value) {
    var theirs := Get(b, list);
    theirs.Arr? && !g.Null? &&
    exists j :: 0 <= j < |theirs.items| && !theirs.items[j].Null? &&
      StrictEq(EntryId(g).value, EntryId(theirs.items[j]).value)
  }

  /** The two lists hold entries with the same id. */
  predicate SharesId(list: string, book: Value, b: Value) {
    var mine := Get(book, list);
    mine.Arr? && exists i :: 0 <= i < |mine.items| && HasMatch(list, b, mine.items[i])
  }

  lemma ListHasEntryIff(list: string, b: Value, g: Value)
    requires ListHasEntry(list, b, g).Ok?
    ensures ListHasEntry(list, b, g).value <==> HasMatch(list, b, g)
  {
    var theirs := Get(b, list);
    if theirs.Arr? {
      var p := SameEntryAs(g);
      if HasMatch(list, b, g) {
        var j :| 0 <= j < |theirs.items| && !theirs.items[j].Null? &&
          StrictEq(EntryId(g).value, EntryId(theirs.items[j]).value);
        assert p(theirs.items[j]) == Ok(true);
      }
      if ListHasEntry(list, b, g).value {
        var j :| 0 <= j < |theirs.items| && p(theirs.items[j]) == Ok(true);
        assert !g.Null? && !theirs.items[j].Null?;
      }
    }
  }

  /** A callback answer that did not throw matches the shared-entry predicate. */
  lemma SharesEntryIff(list: string, book: Value, b: Value)
    requires SharesEntry(list, book, b).Ok?
    ensures SharesEntry(list, book, b).value <==> SharesId(list, book, b)
  {
    var mine := Get(book, list);
    if mine.Arr? {
      var p := ListHasEntryIn(list, b);
      var r := SomeResult(mine.items, p);
      assert r.Ok? && (r.value <==> exists i :: 0 <= i < |mine.items| && p(mine.items[i]) == Ok(true));
      if r.value {
        var i :| 0 <= i < |mine.items| && p(mine.items[i]) == Ok(true);
        ListHasEntryIff(list, b, mine.items[i]);
      }
      if SharesId(list, book, b) && !r.value {
        var i :| 0 <= i < |mine.items| && HasMatch(list, b, mine.items[i]);
        assert r == Ok(false);
        assert p(mine.items[i]) == Ok(false);
        ListHasEntryIff(list, b, mine.items[i]);
      }
    }
  }

  lemma IsSimilarIff(book: Value, b: Value)
    requires IsSimilar(book, b).Ok?
    ensures IsSimilar(book, b).value <==> Similar(book, b)
  {
    if !StrictEq(Get(b, "id"), Get(book, "id")) {
      SharesEntryIff("genres", book, b);
      if !SharesEntry("genres", book, b).value {
        SharesEntryIff("authors", book, b);
      }
    }
  }

  /** When nothing throws, the similar books are the first six books of the
      list, in the list's order, that have another id and share a genre id or
      an author id with the book. */
  lemma SimilarBooksAreSimilar(book: Value, allBooks: seq<Value>)
    requires Truthy(book) && SimilarBooks(book, Arr(allBooks)).Ok?
    ensures SimilarBooks(book, Arr(allBooks)).value ==
              Take(Filter(allBooks, b => Similar(book, b)), SimilarCap)
  {
    var p := SimilarTo(book);
    forall i | 0 <= i < |allBooks|
      ensures Kept(p)(allBooks[i]) <==> Similar(book, allBooks[i])
    {
      IsSimilarIff(book, allBooks[i]);
    }
    FilterCongruent(allBooks, Kept(p), b => Similar(book, b));
  }

  /** The current book is never listed as similar to itself when its id is a
      plain value. */
  lemma SimilarExcludesCurrent(book: Value, allBooks: Value)
    requires SimilarBooks(book, allBooks).Ok?
    requires !Get(book, "id").Arr? && !Get(book, "id").Obj?
    ensures book !in SimilarBooks(book, allBooks).value
  {
  }

  /** The page's effect: a loaded book with a truthy id is recorded in the history. */
  function AfterLoad(s: BookState, book: Value): (r: BookState)
    ensures !Truthy(GetOpt(book, "id")) ==> r == s
    ensures Truthy(GetOpt(book, "id")) ==>
              r == s.(viewedBooks := AddViewed(s.viewedBooks, Get(book, "id"))) && r.viewedBooks[0] == Get(book, "id")
  {
    if Truthy(GetOpt(book, "id")) then
      AddViewedProperties(s.viewedBooks, Get(book, "id"));
      AddViewedBook(s, Get(book, "id"))
    else s
  }
}
