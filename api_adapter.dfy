/** Translation between the backend's book, author and genre records and the
    shapes the application works with (src/utils/apiAdapter.js). The adapters
    are total JavaScript functions on decoded JSON; the inputs on which the
    JavaScript would raise a TypeError (a `.startsWith` or `.map` on a value that
    lacks it, a property read of null) yield `TypeError`. */
module ApiAdapter {
  import opened Js
  import opened Text

  /** The image value makes `apiBook.image.startsWith` throw: truthy but not a string. */
  predicate ImageThrows(image: Value) {
    Truthy(image) && !image.Str?
  }

  /** The image-path classification: absent or empty gives null, a URL or an
      absolute path is kept, a bare file name is placed under "/images/". */
  function ImageUrl(image: Value): (r: Result<Value>)
    ensures r.TypeError? <==> ImageThrows(image)
    ensures !Truthy(image) ==> r == Ok(Null)
    ensures image.Str? && image.s != "" && (StartsWith(image.s, "http") || StartsWith(image.s, "/")) ==> r == Ok(image)
    ensures image.Str? && image.s != "" && !StartsWith(image.s, "http") && !StartsWith(image.s, "/") ==>
              r == Ok(Str("/images/" + image.s))
  {
    if !Truthy(image) then Ok(Null)
    else if !image.Str? then TypeError
    else if StartsWith(image.s, "http") then Ok(image)
    else if StartsWith(image.s, "/") then Ok(image)
    else Ok(Str("/images/" + image.s))
  }

  /** The element map of `apiBook.author.map(...)` and `adaptAuthorFromAPI`. */
  function AuthorEntry(e: Value): (r: Value)
    ensures Get(r, "id") == Get(e, "id")
    ensures Truthy(Get(e, "full_name")) ==> Get(r, "name") == Get(e, "full_name")
    ensures !Truthy(Get(e, "full_name")) && Truthy(Get(e, "name")) ==> Get(r, "name") == Get(e, "name")
    ensures !Truthy(Get(e, "full_name")) && !Truthy(Get(e, "name")) ==> Get(r, "name") == e
    ensures r.Obj? && r.fields.Keys == {"id", "name"}
  {
    Obj(map["id" := Get(e, "id"), "name" := Or(Or(Get(e, "full_name"), Get(e, "name")), e)])
  }

  /** The element map of `apiBook.genre.map(...)` and `adaptGenreFromAPI`. */
  function GenreEntry(e: Value): (r: Value)
    ensures Get(r, "id") == Get(e, "id")
    ensures Truthy(Get(e, "name")) ==> Get(r, "name") == Get(e, "name")
    ensures !Truthy(Get(e, "name")) ==> Get(r, "name") == e
    ensures r.Obj? && r.fields.Keys == {"id", "name"}
  {
    Obj(map["id" := Get(e, "id"), "name" := Or(Get(e, "name"), e)])
  }

  function Entry(e: Value, author: bool): Value {
    if author then AuthorEntry(e) else GenreEntry(e)
  }

  /** `items.map(x => ({ id: x.id, ... }))`: throws at the first null or undefined element. */
  function MapEntries(items: seq<Value>, author: bool): (r: Result<seq<Value>>)
    ensures r.TypeError? <==> exists i :: 0 <= i < |items| && Nullish(items[i])
    ensures r.Ok? ==> |r.value| == |items| && forall i :: 0 <= i < |items| ==> r.value[i] == Entry(items[i], author)
  {
    if items == [] then Ok([])
    else if Nullish(items[0]) then TypeError
    else
      var rest :- MapEntries(items[1..], author);
      assert forall i :: 1 <= i < |items| ==> items[i] == items[1..][i - 1];
      Ok([Entry(items[0], author)] + rest)
  }

  /** The list field is truthy but `.map` over it throws. */
  predicate ListThrows(v: Value) {
    Truthy(v) && (!v.Arr? || exists i :: 0 <= i < |v.items| && Nullish(v.items[i]))
  }

  /** `field ? field.map(...) : fallback || []` */
  function EntryList(field: Value, fallback: Value, author: bool): (r: Result<Value>)
    ensures r.TypeError? <==> ListThrows(field)
    ensures Truthy(field) && r.Ok? ==>
              r.value.Arr? && field.Arr? && |r.value.items| == |field.items| &&
              forall i :: 0 <= i < |field.items| ==> r.value.items[i] == Entry(field.items[i], author)
    ensures !Truthy(field) ==> r == Ok(if Truthy(fallback) then fallback else Arr([]))
  {
    if Truthy(field) then
      if field.Arr? then
        var m :- MapEntries(field.items, author);
        Ok(Arr(m))
      else TypeError
    else Ok(Or(fallback, Arr([])))
  }

  predicate BookThrows(b: Value) {
    Truthy(b) && (ImageThrows(Get(b, "image")) || ListThrows(Get(b, "author")) || ListThrows(Get(b, "genre")))
  }

  /** `adaptBookFromAPI` */
  function BookFromApi(b: Value): (r: Result<Value>)
    ensures r == Ok(Null) <==> !Truthy(b)
    ensures r.TypeError? <==> BookThrows(b)
    ensures Truthy(b) && r.Ok? ==> r.value.Obj? && Get(r.value, "id") == Get(b, "id")
    ensures Truthy(b) && r.Ok? ==>
              Get(r.value, "title") == (if Truthy(Get(b, "name")) then Get(b, "name") else Get(b, "title"))
    ensures Truthy(b) && r.Ok? ==>
              Get(r.value, "publicationYear") ==
                (if Truthy(Get(b, "year_of_release")) then Get(b, "year_of_release")
                 else if Truthy(Get(b, "publicationYear")) then Get(b, "publicationYear")
                 else Null)
    ensures Truthy(b) && r.Ok? ==>
              Get(r.value, "description") == (if Truthy(Get(b, "description")) then Get(b, "description") else Str(""))
    ensures Truthy(b) && r.Ok? ==> Ok(Get(r.value, "imageUrl")) == ImageUrl(Get(b, "image"))
    ensures Truthy(b) && r.Ok? ==>
              Get(r.value, "rating") == (if Truthy(Get(b, "rating")) then Get(b, "rating") else Null)
    ensures Truthy(b) && r.Ok? ==>
              Get(r.value, "createdAt") == (if Truthy(Get(b, "createdAt")) then Get(b, "createdAt") else Null)
    ensures Truthy(b) && r.Ok? ==>
              Ok(Get(r.value, "authors")) == EntryList(Get(b, "author"), Get(b, "authors"), true)
    ensures Truthy(b) && r.Ok? ==>
              Ok(Get(r.value, "genres")) == EntryList(Get(b, "genre"), Get(b, "genres"), false)
  {
    if !Truthy(b) then Ok(Null)
    else
      var imageUrl :- ImageUrl(Get(b, "image"));
      var authors :- EntryList(Get(b, "author"), Get(b, "authors"), true);
      var genres :- EntryList(Get(b, "genre"), Get(b, "genres"), false);
      Ok(AppBook(b, imageUrl, authors, genres))
  }

  /** The application record built from a backend book and its adapted image and lists. */
  function AppBook(b: Value, imageUrl: Value, authors: Value, genres: Value): (r: Value)
    ensures r.Obj?
    ensures Get(r, "id") == Get(b, "id")
    ensures Get(r, "title") == Or(Get(b, "name"), Get(b, "title"))
    ensures Get(r, "publicationYear") == Or(Or(Get(b, "year_of_release"), Get(b, "publicationYear")), Null)
    ensures Get(r, "description") == Or(Get(b, "description"), Str(""))
    ensures Get(r, "imageUrl") == imageUrl
    ensures Get(r, "rating") == Or(Get(b, "rating"), Null)
    ensures Get(r, "authors") == authors
    ensures Get(r, "genres") == genres
    ensures Get(r, "createdAt") == Or(Get(b, "createdAt"), Null)
    ensures Get(r, "authorIds") == Undefined && Get(r, "genreIds") == Undefined
  {
    Obj(map[
      "id" := Get(b, "id"),
      "title" := Or(Get(b, "name"), Get(b, "title")),
      "publicationYear" := Or(Or(Get(b, "year_of_release"), Get(b, "publicationYear")), Null),
      "description" := Or(Get(b, "description"), Str("")),
      "imageUrl" := imageUrl,
      "rating" := Or(Get(b, "rating"), Null),
      "authors" := authors,
      "genres" := genres,
      "createdAt" := Or(Get(b, "createdAt"), Null)])
  }

  function MapBooks(items: seq<Value>): (r: Result<seq<Value>>)
    ensures r.TypeError? <==> exists i :: 0 <= i < |items| && BookThrows(items[i])
    ensures r.Ok? ==> |r.value| == |items| && forall i :: 0 <= i < |items| ==> BookFromApi(items[i]) == Ok(r.value[i])
  {
    if items == [] then Ok([])
    else
      var head :- BookFromApi(items[0]);
      var rest :- MapBooks(items[1..]);
      assert forall i :: 1 <= i < |items| ==> items[i] == items[1..][i - 1];
      Ok([head] + rest)
  }

  /** `adaptBooksFromAPI`: [] for anything but an array, otherwise the element-wise adaptation. */
  function BooksFromApi(v: Value): (r: Result<Value>)
    ensures !v.Arr? ==> r == Ok(Arr([]))
    ensures v.Arr? ==> (r.TypeError? <==> exists i :: 0 <= i < |v.items| && BookThrows(v.items[i]))
    ensures v.Arr? && r.Ok? ==>
              r.value.Arr? && |r.value.items| == |v.items| &&
              forall i :: 0 <= i < |v.items| ==> BookFromApi(v.items[i]) == Ok(r.value.items[i])
  {
    if !v.Arr? then Ok(Arr([]))
    else
      var m :- MapBooks(v.items);
      Ok(Arr(m))
  }

  /** `adaptAuthorFromAPI` */
  function AuthorFromApi(a: Value): (r: Value)
    ensures r.Null? <==> !Truthy(a)
    ensures Truthy(a) ==> r == AuthorEntry(a)
  {
    if !Truthy(a) then Null else AuthorEntry(a)
  }

  /** `adaptGenreFromAPI` */
  function GenreFromApi(g: Value): (r: Value)
    ensures r.Null? <==> !Truthy(g)
    ensures Truthy(g) ==> r == GenreEntry(g)
  {
    if !Truthy(g) then Null else GenreEntry(g)
  }

  /** `adaptAuthorsFromAPI` */
  function AuthorsFromApi(v: Value): (r: Value)
    ensures r.Arr?
    ensures !v.Arr? ==> r.items == []
    ensures v.Arr? ==> |r.items| == |v.items| && forall i :: 0 <= i < |v.items| ==> r.items[i] == AuthorFromApi(v.items[i])
  {
    if !v.Arr? then Arr([]) else Arr(seq(|v.items|, i requires 0 <= i < |v.items| => AuthorFromApi(v.items[i])))
  }

  /** `adaptGenresFromAPI` */
  function GenresFromApi(v: Value): (r: Value)
    ensures r.Arr?
    ensures !v.Arr? ==> r.items == []
    ensures v.Arr? ==> |r.items| == |v.items| && forall i :: 0 <= i < |v.items| ==> r.items[i] == GenreFromApi(v.items[i])
  {
    if !v.Arr? then Arr([]) else Arr(seq(|v.items|, i requires 0 <= i < |v.items| => GenreFromApi(v.items[i])))
  }

  /** `g => typeof g === 'object' ? g.id : g` */
  function IdOf(g: Value): (r: Result<Value>)
    ensures r.TypeError? <==> g.Null?
    ensures r.Ok? ==> r.value == if IsObjectType(g) then Get(g, "id") else g
  {
    if IsObjectType(g) then Member(g, "id") else Ok(g)
  }

  function MapIds(items: seq<Value>): (r: Result<seq<Value>>)
    ensures r.TypeError? <==> exists i :: 0 <= i < |items| && items[i].Null?
    ensures r.Ok? ==> |r.value| == |items| && forall i :: 0 <= i < |items| ==> IdOf(items[i]) == Ok(r.value[i])
  {
    if items == [] then Ok([])
    else
      var head :- IdOf(items[0]);
      var rest :- MapIds(items[1..]);
      assert forall i :: 1 <= i < |items| ==> items[i] == items[1..][i - 1];
      Ok([head] + rest)
  }

  predicate IdListThrows(ids: Value, objs: Value) {
    !ids.Arr? && !Nullish(objs) && (!objs.Arr? || exists i :: 0 <= i < |objs.items| && objs.items[i].Null?)
  }

  /** `Array.isArray(ids) ? ids : (objs?.map(IdOf) || [])` */
  function IdList(ids: Value, objs: Value): (r: Result<Value>)
    ensures r.TypeError? <==> IdListThrows(ids, objs)
    ensures ids.Arr? ==> r == Ok(ids)
    ensures !ids.Arr? && Nullish(objs) ==> r == Ok(Arr([]))
    ensures !ids.Arr? && objs.Arr? && r.Ok? ==>
              r.value.Arr? && |r.value.items| == |objs.items| &&
              forall i :: 0 <= i < |objs.items| ==> IdOf(objs.items[i]) == Ok(r.value.items[i])
  {
    if ids.Arr? then Ok(ids)
    else if Nullish(objs) then Ok(Arr([]))
    else if objs.Arr? then
      var m :- MapIds(objs.items);
      Ok(Arr(m))
    else TypeError
  }

  /** `adaptBookToAPI`. The image path is passed through as it is: no "/images/" prefix is removed. */
  function BookToApi(a: Value): (r: Result<Value>)
    ensures r.TypeError? <==>
              Nullish(a) || IdListThrows(Get(a, "genreIds"), Get(a, "genres")) || IdListThrows(Get(a, "authorIds"), Get(a, "authors"))
    ensures r.Ok? ==> r.value.Obj? && r.value.fields.Keys == {"name", "year_of_release", "description", "image", "genre", "author"}
    ensures r.Ok? ==> Get(r.value, "name") == Get(a, "title")
    ensures r.Ok? ==>
              Get(r.value, "year_of_release") == (if Truthy(Get(a, "publicationYear")) then Get(a, "publicationYear") else Null)
    ensures r.Ok? ==>
              Get(r.value, "description") == (if Truthy(Get(a, "description")) then Get(a, "description") else Str(""))
    ensures r.Ok? ==> Get(r.value, "image") == (if Truthy(Get(a, "imageUrl")) then Get(a, "imageUrl") else Null)
    ensures r.Ok? ==> Ok(Get(r.value, "genre")) == IdList(Get(a, "genreIds"), Get(a, "genres"))
    ensures r.Ok? ==> Ok(Get(r.value, "author")) == IdList(Get(a, "authorIds"), Get(a, "authors"))
  {
    var name :- Member(a, "title");
    var genre :- IdList(Get(a, "genreIds"), Get(a, "genres"));
    var author :- IdList(Get(a, "authorIds"), Get(a, "authors"));
    Ok(Obj(map[
      "name" := name,
      "year_of_release" := Or(Get(a, "publicationYear"), Null),
      "description" := Or(Get(a, "description"), Str("")),
      "image" := Or(Get(a, "imageUrl"), Null),
      "genre" := genre,
      "author" := author]))
  }

  // Properties of the image classification

  /** Every non-null image URL the adapter produces is absolute: it starts with "http" or "/". */
  lemma ImageUrlAbsolute(image: Value)
    requires ImageUrl(image).Ok? && ImageUrl(image).value != Null
    ensures ImageUrl(image).value.Str?
    ensures StartsWith(ImageUrl(image).value.s, "http") || StartsWith(ImageUrl(image).value.s, "/")
  {
    var u := ImageUrl(image).value;
    if !StartsWith(image.s, "http") && !StartsWith(image.s, "/") {
      assert u.s == "/images/" + image.s;
      assert u.s[..1] == "/";
    }
  }

  /** Classifying an already classified image changes nothing (the prefix is added at most once). */
  lemma ImageUrlIdempotent(image: Value)
    requires ImageUrl(image).Ok?
    ensures ImageUrl(ImageUrl(image).value) == ImageUrl(image)
  {
    var u := ImageUrl(image).value;
    if u != Null {
      ImageUrlAbsolute(image);
    }
  }

  /** A bare file name is placed under "/images/". */
  lemma RelativeImageUsesImagesDirectory()
    ensures ImageUrl(Str("relative.jpg")) == Ok(Str("/images/relative.jpg"))
  {
    assert "relative.jpg"[0] == 'r';
    assert !StartsWith("relative.jpg", "http");
    assert !StartsWith("relative.jpg", "/");
    assert "/images/" + "relative.jpg" == "/images/relative.jpg";
  }

  /** ... and so its URL does not contain "/image/relative.jpg". */
  lemma RelativeImageNotUnderImage()
    ensures !Contains("/images/relative.jpg", "/image/relative.jpg")
  {
    var s := "/images/relative.jpg";
    var t := "/image/relative.jpg";
    assert !StartsWith(s, t) by { assert s[6] != t[6]; }
    assert !StartsWith(s[1..], t) by { assert s[1..][0] != t[0]; }
    NotContainsLonger(s[2..], t);
    assert s[1..][1..] == s[2..];
  }

  /** The application-to-API direction keeps a prefixed image path as it is. */
  lemma ToApiKeepsImagePrefix(title: string)
    ensures BookToApi(Obj(map["title" := Str(title), "imageUrl" := Str("/images/test.jpg")])).Ok?
    ensures Get(BookToApi(Obj(map["title" := Str(title), "imageUrl" := Str("/images/test.jpg")])).value, "image") == Str("/images/test.jpg")
  {
  }

  /** A bare author name adapts to an entry with an undefined id and that name. */
  lemma AuthorFromBareString(s: string)
    requires s != ""
    ensures AuthorFromApi(Str(s)) == Obj(map["id" := Undefined, "name" := Str(s)])
  {
  }

  // The round trip from the API shape to the application shape and back

  lemma EntryIds(items: seq<Value>, author: bool)
    requires MapEntries(items, author).Ok?
    ensures MapIds(MapEntries(items, author).value).Ok?
    ensures |MapIds(MapEntries(items, author).value).value| == |items|
    ensures forall i :: 0 <= i < |items| ==> MapIds(MapEntries(items, author).value).value[i] == Get(items[i], "id")
  {
    var es := MapEntries(items, author).value;
    assert forall i :: 0 <= i < |es| ==> es[i].Obj?;
    var ids := MapIds(es);
    forall i | 0 <= i < |items|
      ensures ids.value[i] == Get(items[i], "id")
    {
      assert IdOf(es[i]) == Ok(ids.value[i]);
      assert es[i] == Entry(items[i], author);
    }
  }

  /** Adapting a backend book that lists its authors and genres and sending it back
      gives the backend its name (or title), year, description and image as adapted,
      and the ids of its authors and genres in their original order. */
  lemma {:induction false} RoundTrip(b: Value)
    requires BookFromApi(b).Ok? && Truthy(b)
    requires Truthy(Get(b, "author")) && Truthy(Get(b, "genre"))
    ensures BookToApi(BookFromApi(b).value).Ok?
    ensures var t := BookToApi(BookFromApi(b).value).value;
            && Get(t, "name") == Or(Get(b, "name"), Get(b, "title"))
            && Get(t, "year_of_release") == Or(Or(Get(b, "year_of_release"), Get(b, "publicationYear")), Null)
            && Get(t, "description") == Or(Get(b, "description"), Str(""))
            && Get(t, "image") == ImageUrl(Get(b, "image")).value
            && Get(t, "author") == Arr(seq(|Get(b, "author").items|, i requires 0 <= i < |Get(b, "author").items| => Get(Get(b, "author").items[i], "id")))
            && Get(t, "genre") == Arr(seq(|Get(b, "genre").items|, i requires 0 <= i < |Get(b, "genre").items| => Get(Get(b, "genre").items[i], "id")))
  {
    var a := BookFromApi(b).value;
    var au := Get(b, "author");
    var ge := Get(b, "genre");
    AdaptedLists(b);
    EntryIds(au.items, true);
    EntryIds(ge.items, false);
    var t := BookToApi(a);
    assert t.Ok?;
  }

  /** The adapted record of a book that lists its authors and genres: the
      adapted entries, no id lists, and an image URL that is set or null. */
  lemma AdaptedLists(b: Value)
    requires BookFromApi(b).Ok? && Truthy(b)
    requires Truthy(Get(b, "author")) && Truthy(Get(b, "genre"))
    ensures Get(b, "author").Arr? && Get(b, "genre").Arr?
    ensures MapEntries(Get(b, "author").items, true).Ok? && MapEntries(Get(b, "genre").items, false).Ok?
    ensures var a := BookFromApi(b).value;
            && Get(a, "authors") == Arr(MapEntries(Get(b, "author").items, true).value)
            && Get(a, "genres") == Arr(MapEntries(Get(b, "genre").items, false).value)
            && (Truthy(Get(a, "imageUrl")) || Get(a, "imageUrl") == Null)
  {
    var a := BookFromApi(b).value;
    var image := Get(b, "image");
    assert Truthy(Get(a, "imageUrl")) || Get(a, "imageUrl") == Null by {
      if Get(a, "imageUrl") != Null { ImageUrlAbsolute(image); }
    }
  }
}
