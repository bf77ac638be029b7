/** The service addresses chosen by the build's production flag, and the REST
    endpoint paths (src/config/api.js). */
module ApiConfig {
  import opened Js
  import opened Text

  datatype Config = Config(
    restApi: string,
    wsSocketIo: string,
    wsWebsocket: string,
    wsEnabled: bool,
    docs: string,
    externalApiBase: string)

  /** `API_CONFIG` for a given value of the production flag. */
  function ApiConfigFor(isProduction: bool): (c: Config)
    ensures c.wsEnabled <==> !isProduction
    ensures isProduction ==> c.restApi == "/api" && c.docs == "/api-docs"
    ensures !isProduction ==> c.restApi == "http://158.160.203.172:8080" && c.docs == "http://158.160.203.172:8083"
    ensures c.wsSocketIo == "ws://158.160.203.172:8081" && c.wsWebsocket == "ws://158.160.203.172:8082"
    ensures c.externalApiBase == "http://158.160.203.172:8080"
  {
    Config(
      restApi := if isProduction then "/api" else "http://158.160.203.172:8080",
      wsSocketIo := "ws://158.160.203.172:8081",
      wsWebsocket := "ws://158.160.203.172:8082",
      wsEnabled := !isProduction,
      docs := if isProduction then "/api-docs" else "http://158.160.203.172:8083",
      externalApiBase := "http://158.160.203.172:8080")
  }

  /** In development the REST client talks to the external server directly; in
      production it goes through the same-origin proxy path. */
  lemma RestApiTarget(isProduction: bool)
    ensures !isProduction <==> ApiConfigFor(isProduction).restApi == ApiConfigFor(isProduction).externalApiBase
    ensures isProduction <==> StartsWith(ApiConfigFor(isProduction).restApi, "/")
  {
    var c := ApiConfigFor(isProduction);
    if !isProduction {
      assert c.restApi[0] == 'h';
    } else {
      assert c.restApi != c.externalApiBase by { assert c.restApi[0] != c.externalApiBase[0]; }
    }
  }

  const Books := "/book/"
  const Authors := "/author/"
  const Genres := "/genre/"
  const Images := "/image/url"

  /** The id a by-id path asks for: the text after the collection and `?id=`,
      as the backend reads the query parameter; None for another path. */
  function QueryId(collection: string, u: string): Option<string> {
    var p := collection + "?id=";
    if StartsWith(u, p) then Some(u[|p|..]) else None
  }

  /** A by-id path asks its collection for the id's text. */
  lemma QueryOfById(collection: string, text: string)
    ensures QueryId(collection, collection + "?id=" + text) == Some(text)
  {
    var p := collection + "?id=";
    assert p + text == collection + "?id=" + text;
    assert (p + text)[..|p|] == p;
    assert (p + text)[|p|..] == text;
  }

  /** `BOOK_BY_ID(id)`, which interpolates the id with String(). */
  function BookById(id: Value): (u: string)
    ensures StartsWith(u, Books) && QueryId(Books, u) == Some(ToStr(id))
  {
    QueryOfById(Books, ToStr(id));
    "/book/?id=" + ToStr(id)
  }

  /** `AUTHOR_BY_ID(id)` */
  function AuthorById(id: Value): (u: string)
    ensures StartsWith(u, Authors) && QueryId(Authors, u) == Some(ToStr(id))
  {
    QueryOfById(Authors, ToStr(id));
    "/author/?id=" + ToStr(id)
  }

  /** `GENRE_BY_ID(id)` */
  function GenreById(id: Value): (u: string)
    ensures StartsWith(u, Genres) && QueryId(Genres, u) == Some(ToStr(id))
  {
    QueryOfById(Genres, ToStr(id));
    "/genre/?id=" + ToStr(id)
  }

  /** A numeric id is read back from its by-id path as the same number, so
      distinct ids address distinct paths. */
  lemma NumericByIdRoundTrip(n: int)
    ensures ParseNumber(QueryId(Books, BookById(Num(n))).value) == Some(n)
    ensures ParseNumber(QueryId(Authors, AuthorById(Num(n))).value) == Some(n)
    ensures ParseNumber(QueryId(Genres, GenreById(Num(n))).value) == Some(n)
  {
    ParseNumberOfIntToString(n);
  }

  lemma NumericByIdInjective(m: int, n: int)
    ensures BookById(Num(m)) == BookById(Num(n)) <==> m == n
    ensures AuthorById(Num(m)) == AuthorById(Num(n)) <==> m == n
    ensures GenreById(Num(m)) == GenreById(Num(n)) <==> m == n
  {
    NumericByIdRoundTrip(m);
    NumericByIdRoundTrip(n);
  }

  /** Each by-id path lies under its collection's path without the trailing slash. */
  lemma ByIdUnderCollection(id: Value)
    ensures StartsWith(BookById(id), Books[..|Books| - 1])
    ensures StartsWith(AuthorById(id), Authors[..|Authors| - 1])
    ensures StartsWith(GenreById(id), Genres[..|Genres| - 1])
  {
    assert BookById(id)[..5] == "/book";
    assert AuthorById(id)[..7] == "/author";
    assert GenreById(id)[..6] == "/genre";
  }

  /** The upload endpoint is an image path in the sense of the request rule. */
  lemma ImagesIsImagePath()
    ensures Contains(Images, "/image/")
  {
    assert Images[..7] == "/image/";
  }

  lemma {:induction false} NatToStringChars(n: nat)
    ensures 'm' !in NatToString(n)
  {
    var s := NatToString(n);
    assert forall i :: 0 <= i < |s| ==> IsDigit(s[i]);
  }

  lemma IntToStringChars(n: int)
    ensures 'm' !in IntToString(n)
  {
    if n < 0 {
      NatToStringChars(-n);
      var s := IntToString(n);
      assert s == "-" + NatToString(-n);
      assert forall i :: 1 <= i < |s| ==> s[i] == NatToString(-n)[i - 1];
    } else {
      NatToStringChars(n);
    }
  }

  /** A by-id path of a numeric id never counts as an image path, so writes
      through it carry credentials. */
  lemma {:induction false} NumericByIdIsNotImagePath(n: int)
    ensures !Contains(BookById(Num(n)), "/image/")
    ensures !Contains(AuthorById(Num(n)), "/image/")
    ensures !Contains(GenreById(Num(n)), "/image/")
  {
    IntToStringChars(n);
    var d := IntToString(n);
    NoLetterM("/book/?id=", d);
    NoLetterM("/author/?id=", d);
    NoLetterM("/genre/?id=", d);
  }

  lemma NoLetterM(p: string, d: string)
    requires 'm' !in p && 'm' !in d
    ensures !Contains(p + d, "/image/")
  {
    if Contains(p + d, "/image/") {
      ContainsHasChars(p + d, "/image/", 2);
    }
  }
}
