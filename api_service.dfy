/** The request and error policy of the REST client (src/services/api.js):
    which credentials are used, which requests carry them, how a failed request
    is turned into the error the pages see, and what each catalog call sends
    and returns. The HTTP transport itself is not modelled: a request is the
    value `Request(verb, url, body)` handed to it, a response a JavaScript value. */
module ApiService {
  import opened Js
  import opened Text
  import ApiAdapter
  import ApiConfig

  // Credentials

  /** `getAuthCredentials`: the stored record when it has a username and a
      password, else the build's environment pair when both are set, else admin/admin. */
  function ResolveCredentials(stored: Value, envUsername: Value, envPassword: Value): (c: Value)
    ensures Truthy(stored) && Truthy(Get(stored, "username")) && Truthy(Get(stored, "password")) ==> c == stored
    ensures !(Truthy(stored) && Truthy(Get(stored, "username")) && Truthy(Get(stored, "password"))) ==>
              c == if Truthy(envUsername) && Truthy(envPassword)
                   then Obj(map["username" := envUsername, "password" := envPassword])
                   else Obj(map["username" := Str("admin"), "password" := Str("admin")])
  {
    if Truthy(stored) && Truthy(Get(stored, "username")) && Truthy(Get(stored, "password")) then stored
    else if Truthy(envUsername) && Truthy(envPassword) then Obj(map["username" := envUsername, "password" := envPassword])
    else Obj(map["username" := Str("admin"), "password" := Str("admin")])
  }

  /** Whatever is stored or configured, the credentials used have a non-empty username and password. */
  lemma CredentialsAlwaysPresent(stored: Value, envUsername: Value, envPassword: Value)
    ensures Truthy(Get(ResolveCredentials(stored, envUsername, envPassword), "username"))
    ensures Truthy(Get(ResolveCredentials(stored, envUsername, envPassword), "password"))
  {
  }

  /** Stored credentials win over the environment pair. */
  lemma StoredCredentialsWin(username: string, password: string, envUsername: Value, envPassword: Value)
    requires username != "" && password != ""
    ensures Get(ResolveCredentials(Obj(map["username" := Str(username), "password" := Str(password)]), envUsername, envPassword), "username") == Str(username)
    ensures Get(ResolveCredentials(Obj(map["username" := Str(username), "password" := Str(password)]), envUsername, envPassword), "password") == Str(password)
  {
  }

  // The request interceptor

  /** `config.method?.toLowerCase() === 'get'` */
  predicate IsGetRequest(verb: Option<string>) {
    verb.Some? && Lower(verb.value) == "get"
  }

  /** `config.url?.includes('/image/')` */
  predicate IsImageEndpoint(url: Option<string>) {
    url.Some? && Contains(url.value, "/image/")
  }

  /** Basic Auth is attached to every request except GETs and image paths. */
  predicate NeedsAuth(verb: Option<string>, url: Option<string>) {
    !IsGetRequest(verb) && !IsImageEndpoint(url)
  }

  /** The part of an axios request configuration the interceptor reads and writes. */
  class RequestConfig {
    var verb: Option<string>
    var url: Option<string>
    var auth: Option<(Value, Value)>

    constructor (verb: Option<string>, url: Option<string>)
      ensures this.verb == verb && this.url == url && auth.None?
    {
      this.verb := verb;
      this.url := url;
      auth := None;
    }

    /** The request interceptor: sets `auth` to the resolved username and password
        when the request needs them, and leaves the configuration alone otherwise. */
    method Intercept(stored: Value, envUsername: Value, envPassword: Value)
      modifies this`auth
      ensures NeedsAuth(verb, url) ==>
                var c := ResolveCredentials(stored, envUsername, envPassword);
                auth == Some((Get(c, "username"), Get(c, "password")))
      ensures !NeedsAuth(verb, url) ==> auth == old(auth)
    {
      var isGetRequest := IsGetRequest(verb);
      var isImageEndpoint := IsImageEndpoint(url);
      if !isGetRequest && !isImageEndpoint {
        var c := ResolveCredentials(stored, envUsername, envPassword);
        auth := Some((Get(c, "username"), Get(c, "password")));
      }
    }
  }

  /** A GET carries no credentials, whatever the case of its method name. */
  lemma GetNeverAuthenticated(url: Option<string>)
    ensures !NeedsAuth(Some("get"), url) && !NeedsAuth(Some("GET"), url) && !NeedsAuth(Some("Get"), url)
  {
    assert Lower("GET") == "get";
    assert Lower("Get") == "get";
    assert Lower("get") == "get";
  }

  /** The image upload is sent without credentials. */
  lemma UploadNeverAuthenticated(verb: Option<string>)
    ensures !NeedsAuth(verb, Some(ApiConfig.Images))
  {
    ApiConfig.ImagesIsImagePath();
  }

  /** The guard's reading of `config.method?.toLowerCase()` when the method is
      absent: such a request counts as a write. axios fills in the method
      before request interceptors run, so requests it sends never take this
      case. */
  lemma MissingMethodIsWrite(url: Option<string>)
    ensures NeedsAuth(None, url) <==> !IsImageEndpoint(url)
  {
  }

  // The response error interceptor

  datatype HttpResponse = HttpResponse(status: int, data: Value, statusText: Value)

  /** An axios error: the response if one arrived, whether a request went out,
      and the error's own message. */
  datatype HttpError = HttpError(response: Option<HttpResponse>, request: bool, message: Value)

  /** The error the interceptor rejects with. `isAuthError` is false when the
      property is absent. */
  datatype Rejected = Rejected(message: string, isAuthError: bool)

  /** The message chosen for a response with this status when `data.message` is falsy. */
  function StatusMessage(status: int, statusText: Value): (m: string)
    ensures status == 404 ==> m == "Ресурс не найден. Проверьте доступность API сервера."
    ensures status == 400 ==> m == "Неверный запрос. Проверьте введенные данные."
    ensures status == 401 ==> m == UnauthorizedMessage
    ensures status == 403 ==> m == "Доступ запрещен."
    ensures status == 500 ==> m == "Внутренняя ошибка сервера."
    ensures status !in {404, 400, 401, 403, 500} ==>
              m == "Ошибка " + IntToString(status) + ": " + (if Truthy(statusText) then ToStr(statusText) else "Неизвестная ошибка")
  {
    match status
    case 404 => "Ресурс не найден. Проверьте доступность API сервера."
    case 400 => "Неверный запрос. Проверьте введенные данные."
    case 401 => UnauthorizedMessage
    case 403 => "Доступ запрещен."
    case 500 => "Внутренняя ошибка сервера."
    case _ => "Ошибка " + IntToString(status) + ": " + ToStr(Or(statusText, Str("Неизвестная ошибка")))
  }

  const NoResponseMessage := "Сервер не отвечает. Проверьте подключение к интернету и доступность API."
  const SetupFailureMessage := "Ошибка при выполнении запроса."

  /** The message the interceptor settles on, before it is converted to a string by `new Error`. */
  function ErrorMessage(e: HttpError): (m: Value)
    ensures e.response.Some? && Truthy(GetOpt(e.response.value.data, "message")) ==>
              m == GetOpt(e.response.value.data, "message")
    ensures e.response.Some? && !Truthy(GetOpt(e.response.value.data, "message")) ==>
              m == Str(StatusMessage(e.response.value.status, e.response.value.statusText))
    ensures e.response.None? && e.request ==> m == Str(NoResponseMessage)
    ensures e.response.None? && !e.request ==> m == (if Truthy(e.message) then e.message else Str(SetupFailureMessage))
    ensures Truthy(m)
  {
    match e.response
    case Some(resp) => Or(GetOpt(resp.data, "message"), Str(StatusMessage(resp.status, resp.statusText)))
    case None => if e.request then Str(NoResponseMessage) else Or(e.message, Str(SetupFailureMessage))
  }

  /** The interceptor marks the original error as an authorization failure exactly for status 401. */
  predicate MarksAuthError(e: HttpError) {
    e.response.Some? && e.response.value.status == 401
  }

  /** `Promise.reject(new Error(message))` as written: a fresh error carrying only
      the message, so the flag set on the original error is lost. */
  function Reject(e: HttpError): (r: Rejected)
    ensures r.message == ToStr(ErrorMessage(e))
    ensures !r.isAuthError
  {
    Rejected(ToStr(ErrorMessage(e)), false)
  }

  /** The rejection with the authorization flag carried over to the error callers receive. */
  function RejectWithAuthFlag(e: HttpError): (r: Rejected)
    ensures r.message == ToStr(ErrorMessage(e))
    ensures r.isAuthError <==> MarksAuthError(e)
  {
    Rejected(ToStr(ErrorMessage(e)), MarksAuthError(e))
  }

  /** The admin page's test for offering the authorization settings
      (`error.isAuthError || message includes '401' || includes 'авторизац'`). */
  predicate OffersAuthSettings(r: Rejected) {
    r.isAuthError || Contains(r.message, "401") || Contains(r.message, "авторизац")
  }

  /** "Требуется авторизация. Проверьте учетные данные в настройках административной панели.",
      written in three pieces so that the word it shares with the admin page's test stands out. */
  const UnauthorizedMessage := "Требуется " + "авторизац" + "ия. Проверьте учетные данные в настройках административной панели."

  lemma UnauthorizedMessageMentionsAuthorization()
    ensures Contains(UnauthorizedMessage, "авторизац")
  {
    ContainsMiddle("Требуется ", "авторизац", "ия. Проверьте учетные данные в настройках административной панели.");
  }

  /** A 401 whose body carries no message is still recognised as written,
      because the default text mentions authorization. */
  lemma DefaultUnauthorizedMessageOffersSettings(data: Value, statusText: Value)
    requires !Truthy(GetOpt(data, "message"))
    ensures OffersAuthSettings(Reject(HttpError(Some(HttpResponse(401, data, statusText)), true, Undefined)))
  {
    assert StatusMessage(401, statusText) == UnauthorizedMessage;
    UnauthorizedMessageMentionsAuthorization();
  }

  /** As written, a 401 whose body explains itself in words without "401" or
      "авторизац" does not lead the admin page to offer the authorization settings. */
  lemma UnauthorizedFlagLost()
    ensures MarksAuthError(BadCredentials401) && !OffersAuthSettings(Reject(BadCredentials401))
  {
    BadCredentialsText();
    assert Reject(BadCredentials401) == Rejected("Bad credentials", false);
  }

  const BadCredentials401 := HttpError(Some(HttpResponse(401, Obj(map["message" := Str("Bad credentials")]), Undefined)), true, Undefined)

  lemma BadCredentialsText()
    ensures !Contains("Bad credentials", "401") && !Contains("Bad credentials", "авторизац")
  {
    assert "401"[0] !in "Bad credentials";
    assert "авторизац"[0] !in "Bad credentials";
    MissingCharNotContained("Bad credentials", "401", 0);
    MissingCharNotContained("Bad credentials", "авторизац", 0);
  }

  /** With the flag carried over, every 401 leads to the authorization settings offer. */
  lemma UnauthorizedAlwaysOffersSettings(e: HttpError)
    requires MarksAuthError(e)
    ensures OffersAuthSettings(RejectWithAuthFlag(e))
  {
  }

  /** The corrected rejection differs from the written one only in the flag. */
  lemma RejectionsAgreeOnMessage(e: HttpError)
    ensures RejectWithAuthFlag(e).message == Reject(e).message
    ensures RejectWithAuthFlag(e) == Reject(e) <==> !MarksAuthError(e)
  {
  }

  // The catalog calls

  datatype Request = Request(verb: string, url: string, body: Option<Value>)

  /** `{ ...response, data: f(response.data) }` */
  function WithData(response: Value, data: Value): (r: Value)
    ensures Get(r, "data") == data
    ensures forall k :: k != "data" ==> Get(r, k) == Get(response, k)
  {
    Put(response, "data", data)
  }

  /** The verbs of the catalog calls: only "get" is a read. */
  lemma CatalogVerbs()
    ensures IsGetRequest(Some("get"))
    ensures !IsGetRequest(Some("post")) && !IsGetRequest(Some("put")) && !IsGetRequest(Some("delete"))
  {
    assert Lower("get") == "get";
    assert Lower("post") != "get" by { assert Lower("post")[0] == 'p'; }
    assert Lower("put") != "get" by { assert Lower("put")[0] == 'p'; }
    assert Lower("delete") != "get" by { assert Lower("delete")[0] == 'd'; }
  }

  /** `booksAPI.getAll`'s request: an unauthenticated read of the collection. */
  function BooksGetAllRequest(): (q: Request)
    ensures q.url == ApiConfig.Books && q.body.None?
    ensures !NeedsAuth(Some(q.verb), Some(q.url))
  {
    CatalogVerbs();
    Request("get", ApiConfig.Books, None)
  }

  function BooksGetAllResponse(response: Value): (r: Result<Value>)
    ensures r.Ok? <==> ApiAdapter.BooksFromApi(Get(response, "data")).Ok?
    ensures r.Ok? ==> r.value == WithData(response, ApiAdapter.BooksFromApi(Get(response, "data")).value)
  {
    var data :- ApiAdapter.BooksFromApi(Get(response, "data"));
    Ok(WithData(response, data))
  }

  /** `booksAPI.getById`'s request: an unauthenticated read asking for the id. */
  function BooksGetByIdRequest(id: Value): (q: Request)
    ensures ApiConfig.QueryId(ApiConfig.Books, q.url) == Some(ToStr(id)) && q.body.None?
    ensures !NeedsAuth(Some(q.verb), Some(q.url))
  {
    CatalogVerbs();
    Request("get", ApiConfig.BookById(id), None)
  }

  function BooksGetByIdResponse(response: Value): (r: Result<Value>)
    ensures r.Ok? <==> ApiAdapter.BookFromApi(Get(response, "data")).Ok?
    ensures r.Ok? ==> r.value == WithData(response, ApiAdapter.BookFromApi(Get(response, "data")).value)
  {
    var data :- ApiAdapter.BookFromApi(Get(response, "data"));
    Ok(WithData(response, data))
  }

  /** `booksAPI.create`: the payload is the book adapted to the API shape, once. */
  function BooksCreate(data: Value): (q: Result<Request>)
    ensures q.Ok? <==> ApiAdapter.BookToApi(data).Ok?
    ensures q.Ok? ==> q.value == Request("post", ApiConfig.Books, Some(ApiAdapter.BookToApi(data).value))
  {
    var body :- ApiAdapter.BookToApi(data);
    Ok(Request("post", ApiConfig.Books, Some(body)))
  }

  function BooksUpdate(id: Value, data: Value): (q: Result<Request>)
    ensures q.Ok? <==> ApiAdapter.BookToApi(data).Ok?
    ensures q.Ok? ==> q.value == Request("put", ApiConfig.BookById(id), Some(ApiAdapter.BookToApi(data).value))
  {
    var body :- ApiAdapter.BookToApi(data);
    Ok(Request("put", ApiConfig.BookById(id), Some(body)))
  }

  /** `booksAPI.delete`: a DELETE without a body asking for the id, authenticated for a numeric id. */
  function BooksDelete(id: Value): (q: Request)
    ensures q.verb == "delete" && q.body.None? && ApiConfig.QueryId(ApiConfig.Books, q.url) == Some(ToStr(id))
    ensures id.Num? ==> NeedsAuth(Some(q.verb), Some(q.url))
  {
    CatalogVerbs();
    if id.Num? then
      ApiConfig.NumericByIdIsNotImagePath(id.n);
      Request("delete", ApiConfig.BookById(id), None)
    else Request("delete", ApiConfig.BookById(id), None)
  }

  /** `authorsAPI.getAll`'s response: `data` becomes the adapted authors, one
      per element of an array and [] for anything else; the other fields are kept. */
  function AuthorsGetAllResponse(response: Value): (r: Value)
    ensures Get(r, "data").Arr?
    ensures !Get(response, "data").Arr? ==> Get(r, "data").items == []
    ensures var d := Get(response, "data");
            d.Arr? ==> |Get(r, "data").items| == |d.items| &&
                       forall i :: 0 <= i < |d.items| ==> Get(r, "data").items[i] == ApiAdapter.AuthorFromApi(d.items[i])
    ensures forall k :: k != "data" ==> Get(r, k) == Get(response, k)
  {
    WithData(response, ApiAdapter.AuthorsFromApi(Get(response, "data")))
  }

  /** `authorsAPI.getById`'s response: `data` becomes the adapted author, null
      for a falsy one; the other fields are kept. */
  function AuthorsGetByIdResponse(response: Value): (r: Value)
    ensures Get(r, "data").Null? <==> !Truthy(Get(response, "data"))
    ensures Truthy(Get(response, "data")) ==> Get(r, "data") == ApiAdapter.AuthorEntry(Get(response, "data"))
    ensures forall k :: k != "data" ==> Get(r, k) == Get(response, k)
  {
    WithData(response, ApiAdapter.AuthorFromApi(Get(response, "data")))
  }

  /** The author payload: exactly `{ full_name: data.name }`. */
  function AuthorPayload(data: Value): (r: Result<Value>)
    ensures r.TypeError? <==> Nullish(data)
    ensures r.Ok? ==> r.value == Obj(map["full_name" := Get(data, "name")])
  {
    var name :- Member(data, "name");
    Ok(Obj(map["full_name" := name]))
  }

  function AuthorsCreate(data: Value): (q: Result<Request>)
    ensures q.TypeError? <==> Nullish(data)
    ensures q.Ok? ==> q.value == Request("post", ApiConfig.Authors, Some(Obj(map["full_name" := Get(data, "name")])))
  {
    var body :- AuthorPayload(data);
    Ok(Request("post", ApiConfig.Authors, Some(body)))
  }

  function AuthorsUpdate(id: Value, data: Value): (q: Result<Request>)
    ensures q.TypeError? <==> Nullish(data)
    ensures q.Ok? ==> q.value == Request("put", ApiConfig.AuthorById(id), Some(Obj(map["full_name" := Get(data, "name")])))
  {
    var body :- AuthorPayload(data);
    Ok(Request("put", ApiConfig.AuthorById(id), Some(body)))
  }

  /** `authorsAPI.delete`: a DELETE without a body asking for the id, authenticated for a numeric id. */
  function AuthorsDelete(id: Value): (q: Request)
    ensures q.verb == "delete" && q.body.None? && ApiConfig.QueryId(ApiConfig.Authors, q.url) == Some(ToStr(id))
    ensures id.Num? ==> NeedsAuth(Some(q.verb), Some(q.url))
  {
    CatalogVerbs();
    if id.Num? then
      ApiConfig.NumericByIdIsNotImagePath(id.n);
      Request("delete", ApiConfig.AuthorById(id), None)
    else Request("delete", ApiConfig.AuthorById(id), None)
  }

  /** `genresAPI.getAll`'s response: `data` becomes the adapted genres, one
      per element of an array and [] for anything else; the other fields are kept. */
  function GenresGetAllResponse(response: Value): (r: Value)
    ensures Get(r, "data").Arr?
    ensures !Get(response, "data").Arr? ==> Get(r, "data").items == []
    ensures var d := Get(response, "data");
            d.Arr? ==> |Get(r, "data").items| == |d.items| &&
                       forall i :: 0 <= i < |d.items| ==> Get(r, "data").items[i] == ApiAdapter.GenreFromApi(d.items[i])
    ensures forall k :: k != "data" ==> Get(r, k) == Get(response, k)
  {
    WithData(response, ApiAdapter.GenresFromApi(Get(response, "data")))
  }

  /** `genresAPI.getById`'s response: `data` becomes the adapted genre, null
      for a falsy one; the other fields are kept. */
  function GenresGetByIdResponse(response: Value): (r: Value)
    ensures Get(r, "data").Null? <==> !Truthy(Get(response, "data"))
    ensures Truthy(Get(response, "data")) ==> Get(r, "data") == ApiAdapter.GenreEntry(Get(response, "data"))
    ensures forall k :: k != "data" ==> Get(r, k) == Get(response, k)
  {
    WithData(response, ApiAdapter.GenreFromApi(Get(response, "data")))
  }

  /** Genres are sent exactly as the page gives them. */
  function GenresCreate(data: Value): (q: Request)
    ensures q.url == ApiConfig.Genres && q.body == Some(data)
    ensures NeedsAuth(Some(q.verb), Some(q.url))
  {
    CatalogVerbs();
    CollectionsAreNotImagePaths();
    Request("post", ApiConfig.Genres, Some(data))
  }

  /** `genresAPI.update`: the page's data sent as it is to the id's path,
      authenticated for a numeric id. */
  function GenresUpdate(id: Value, data: Value): (q: Request)
    ensures q.body == Some(data) && ApiConfig.QueryId(ApiConfig.Genres, q.url) == Some(ToStr(id))
    ensures id.Num? ==> NeedsAuth(Some(q.verb), Some(q.url))
  {
    CatalogVerbs();
    if id.Num? then
      ApiConfig.NumericByIdIsNotImagePath(id.n);
      Request("put", ApiConfig.GenreById(id), Some(data))
    else Request("put", ApiConfig.GenreById(id), Some(data))
  }

  /** `genresAPI.delete`: a DELETE without a body asking for the id, authenticated for a numeric id. */
  function GenresDelete(id: Value): (q: Request)
    ensures q.verb == "delete" && q.body.None? && ApiConfig.QueryId(ApiConfig.Genres, q.url) == Some(ToStr(id))
    ensures id.Num? ==> NeedsAuth(Some(q.verb), Some(q.url))
  {
    CatalogVerbs();
    if id.Num? then
      ApiConfig.NumericByIdIsNotImagePath(id.n);
      Request("delete", ApiConfig.GenreById(id), None)
    else Request("delete", ApiConfig.GenreById(id), None)
  }

  /** Every catalog write with a numeric id carries credentials; every read does not. */
  lemma WritesAuthenticatedReadsNot(n: int, data: Value)
    ensures !NeedsAuth(Some(BooksGetAllRequest().verb), Some(BooksGetAllRequest().url))
    ensures !NeedsAuth(Some(BooksGetByIdRequest(Num(n)).verb), Some(BooksGetByIdRequest(Num(n)).url))
    ensures BooksCreate(data).Ok? ==> NeedsAuth(Some(BooksCreate(data).value.verb), Some(BooksCreate(data).value.url))
    ensures BooksUpdate(Num(n), data).Ok? ==> NeedsAuth(Some(BooksUpdate(Num(n), data).value.verb), Some(BooksUpdate(Num(n), data).value.url))
    ensures NeedsAuth(Some(BooksDelete(Num(n)).verb), Some(BooksDelete(Num(n)).url))
    ensures AuthorsCreate(data).Ok? ==> NeedsAuth(Some(AuthorsCreate(data).value.verb), Some(AuthorsCreate(data).value.url))
    ensures AuthorsUpdate(Num(n), data).Ok? ==> NeedsAuth(Some(AuthorsUpdate(Num(n), data).value.verb), Some(AuthorsUpdate(Num(n), data).value.url))
    ensures NeedsAuth(Some(AuthorsDelete(Num(n)).verb), Some(AuthorsDelete(Num(n)).url))
    ensures NeedsAuth(Some(GenresCreate(data).verb), Some(GenresCreate(data).url))
    ensures NeedsAuth(Some(GenresUpdate(Num(n), data).verb), Some(GenresUpdate(Num(n), data).url))
    ensures NeedsAuth(Some(GenresDelete(Num(n)).verb), Some(GenresDelete(Num(n)).url))
  {
    CatalogVerbs();
    ApiConfig.NumericByIdIsNotImagePath(n);
    CollectionsAreNotImagePaths();
  }

  lemma CollectionsAreNotImagePaths()
    ensures !Contains(ApiConfig.Books, "/image/")
    ensures !Contains(ApiConfig.Authors, "/image/")
    ensures !Contains(ApiConfig.Genres, "/image/")
  {
    NotContainsLonger(ApiConfig.Books, "/image/");
    if Contains(ApiConfig.Authors, "/image/") { ContainsHasChars(ApiConfig.Authors, "/image/", 2); }
    if Contains(ApiConfig.Genres, "/image/") { ContainsHasChars(ApiConfig.Genres, "/image/", 2); }
  }

  // Image upload

  /** A FormData: its entries in insertion order. */
  class FormData {
    var entries: seq<(string, Value)>

    constructor ()
      ensures entries == []
    {
      entries := [];
    }

    /** `formData.get(name)`: the first value under the name, or null. */
    function GetField(name: string): (v: Value)
      reads this
      ensures forall i :: FirstAt(entries, name, i) ==> v == entries[i].1
      ensures (forall i :: 0 <= i < |entries| ==> entries[i].0 != name) ==> v == Null
    {
      FirstValue(entries, name)
    }

    method Append(name: string, v: Value)
      modifies this
      ensures entries == old(entries) + [(name, v)]
    {
      entries := entries + [(name, v)];
    }
  }

  /** Entry i is the first one under the name. */
  predicate FirstAt(entries: seq<(string, Value)>, name: string, i: int) {
    0 <= i < |entries| && entries[i].0 == name && forall j :: 0 <= j < i ==> entries[j].0 != name
  }

  /** The value of the first entry under the name; null when there is none. */
  function FirstValue(entries: seq<(string, Value)>, name: string): (v: Value)
    ensures forall i :: FirstAt(entries, name, i) ==> v == entries[i].1
    ensures (forall i :: 0 <= i < |entries| ==> entries[i].0 != name) ==> v == Null
  {
    if entries == [] then Null
    else if entries[0].0 == name then entries[0].1
    else
      var v := FirstValue(entries[1..], name);
      assert forall i :: FirstAt(entries, name, i) ==> FirstAt(entries[1..], name, i - 1) by {
        forall i | FirstAt(entries, name, i) ensures FirstAt(entries[1..], name, i - 1) {
          assert i != 0;
          forall j | 0 <= j < i - 1 ensures entries[1..][j].0 != name {
            assert entries[1..][j] == entries[j + 1];
          }
        }
      }
      v
  }

  /** The upload form: the 'file' field, else the 'image' field, re-sent as 'image' when present. */
  method BuildUploadForm(formData: FormData) returns (apiFormData: FormData)
    ensures fresh(apiFormData)
    ensures var file := Or(formData.GetField("file"), formData.GetField("image"));
            apiFormData.entries == if Truthy(file) then [("image", file)] else []
  {
    apiFormData := new FormData();
    var file := Or(formData.GetField("file"), formData.GetField("image"));
    if Truthy(file) {
      apiFormData.Append("image", file);
    }
  }

  /** The upload's response: when the server names the stored file, `url` and
      `imageUrl` are added to the data as "/images/" followed by the name; otherwise
      the response is returned as it is. */
  function UploadResult(response: Value): (r: Value)
    ensures !Truthy(GetOpt(Get(response, "data"), "name")) ==> r == response
    ensures Truthy(GetOpt(Get(response, "data"), "name")) ==>
              var data := Get(response, "data");
              var url := Str("/images/" + ToStr(Get(data, "name")));
              && Get(Get(r, "data"), "url") == url
              && Get(Get(r, "data"), "imageUrl") == url
              && (forall k :: k != "url" && k != "imageUrl" ==> Get(Get(r, "data"), k) == Get(data, k))
              && (forall k :: k != "data" ==> Get(r, k) == Get(response, k))
  {
    var data := Get(response, "data");
    var name := GetOpt(data, "name");
    if Truthy(name) then
      var url := Str("/images/" + ToStr(name));
      WithData(response, Put(Put(data, "url", url), "imageUrl", url))
    else response
  }

  /** The URL stored after an upload of a plain file name is exactly the URL the
      adapter derives when the same name comes back as a book's image. */
  lemma UploadUrlMatchesAdapter(response: Value, name: string)
    requires Get(Get(response, "data"), "name") == Str(name) && name != ""
    requires !StartsWith(name, "http") && !StartsWith(name, "/")
    ensures ApiAdapter.ImageUrl(Str(name)) == Ok(Get(Get(UploadResult(response), "data"), "url"))
  {
  }
}
