/** The validation schemas and helpers (src/utils/validation.js). Each schema is
    a list of the issues it finds in a value, in the order the schema's fields
    are declared; a value is valid when there are none. The library's own
    wording for a value of the wrong type is not modelled (`LibraryMessage`),
    nor is URL syntax (`isUrl`), nor non-integer numbers. */
module Validation {
  import opened Js
  import opened Text

  datatype Message = Says(text: string) | LibraryMessage

  datatype Issue = Issue(path: seq<string>, message: Message)

  datatype Schema =
    | BookSchema(currentYear: int, isUrl: string -> bool)
    | AuthorSchema
    | GenreSchema
    | AuthCredentialsSchema
    | ChatMessageSchema
    | SearchQuerySchema
    | ChatUsernameSchema

  // Field checks

  /** A required string with a length range; both bounds are checked. */
  function StringIssues(path: seq<string>, v: Value, min: nat, minMsg: string, max: nat, maxMsg: string): (r: seq<Issue>)
    ensures r == [] <==> v.Str? && min <= |v.s| <= max
  {
    if !v.Str? then [Issue(path, LibraryMessage)]
    else
      (if |v.s| < min then [Issue(path, Says(minMsg))] else [])
      + (if |v.s| > max then [Issue(path, Says(maxMsg))] else [])
  }

  /** An optional, nullable number with a range. */
  function NumberIssues(path: seq<string>, v: Value, min: int, minMsg: string, max: int, maxMsg: string): (r: seq<Issue>)
    ensures r == [] <==> Nullish(v) || (v.Num? && min <= v.n <= max)
  {
    if Nullish(v) then []
    else if !v.Num? then [Issue(path, LibraryMessage)]
    else
      (if v.n < min then [Issue(path, Says(minMsg))] else [])
      + (if v.n > max then [Issue(path, Says(maxMsg))] else [])
  }

  /** One issue per element of the wrong type, at the element's index. */
  function ElementIssues(path: seq<string>, items: seq<Value>, isNumber: bool): (r: seq<Issue>)
    ensures r == [] <==> forall i :: 0 <= i < |items| ==> (if isNumber then items[i].Num? else items[i].Str?)
    decreases |items|
  {
    if items == [] then []
    else
      var last := items[|items| - 1];
      var ok := if isNumber then last.Num? else last.Str?;
      ElementIssues(path, items[..|items| - 1], isNumber)
      + (if ok then [] else [Issue(path + [NatToString(|items| - 1)], LibraryMessage)])
  }

  /** An optional array with at least one element, of numbers. */
  function IdListIssues(path: seq<string>, v: Value, minMsg: string): (r: seq<Issue>)
    ensures r == [] <==> v.Undefined? || (v.Arr? && |v.items| >= 1 && forall i :: 0 <= i < |v.items| ==> v.items[i].Num?)
  {
    if v.Undefined? then []
    else if !v.Arr? then [Issue(path, LibraryMessage)]
    else (if |v.items| < 1 then [Issue(path, Says(minMsg))] else []) + ElementIssues(path, v.items, true)
  }

  // Messages

  const TitleRequired := "Название книги обязательно"
  const TitleTooLong := "Название не должно превышать 200 символов"
  const DescriptionTooLong := "Описание не должно превышать 2000 символов"
  const YearTooSmall := "Год не может быть меньше 1000"
  const YearInFuture := "Год не может быть в будущем"
  const BadImageUrl := "Неверный формат URL изображения"
  const RatingNegative := "Рейтинг не может быть отрицательным"
  const RatingTooHigh := "Рейтинг не может превышать 5"
  const NoAuthor := "Должен быть выбран хотя бы один автор"
  const NoGenre := "Должен быть выбран хотя бы один жанр"

  /** `description`: absent, or a string of at most 2000 characters ('' included). */
  function DescriptionIssues(v: Value): (r: seq<Issue>)
    ensures r == [] <==> v.Undefined? || (v.Str? && |v.s| <= 2000)
  {
    if v.Undefined? then []
    else if !v.Str? then [Issue(["description"], LibraryMessage)]
    else if |v.s| > 2000 then [Issue(["description"], Says(DescriptionTooLong))]
    else []
  }

  /** `imageUrl`: absent, null, '' or a URL. */
  function ImageUrlIssues(v: Value, isUrl: string -> bool): (r: seq<Issue>)
    ensures r == [] <==> Nullish(v) || (v.Str? && (v.s == "" || isUrl(v.s)))
  {
    if Nullish(v) then []
    else if !v.Str? then [Issue(["imageUrl"], LibraryMessage)]
    else if v.s == "" || isUrl(v.s) then []
    else [Issue(["imageUrl"], Says(BadImageUrl))]
  }

  function BookFieldIssues(data: Value, currentYear: int, isUrl: string -> bool): seq<Issue> {
    StringIssues(["title"], Get(data, "title"), 1, TitleRequired, 200, TitleTooLong)
    + DescriptionIssues(Get(data, "description"))
    + NumberIssues(["publicationYear"], Get(data, "publicationYear"), 1000, YearTooSmall, currentYear + 1, YearInFuture)
    + ImageUrlIssues(Get(data, "imageUrl"), isUrl)
    + NumberIssues(["rating"], Get(data, "rating"), 0, RatingNegative, 5, RatingTooHigh)
    + IdListIssues(["authorIds"], Get(data, "authorIds"), NoAuthor)
    + IdListIssues(["genreIds"], Get(data, "genreIds"), NoGenre)
  }

  /** JavaScript's `\s` and the letters, digits and underscore of the chat name pattern. */
  predicate ChatNameChar(c: char) {
    ('а' <= c <= 'я') || ('А' <= c <= 'Я') || c == 'ё' || c == 'Ё'
    || ('a' <= c <= 'z') || ('A' <= c <= 'Z') || IsDigit(c) || c == '_' || IsSpace(c)
  }

  /** The pattern `^[а-яА-ЯёЁa-zA-Z0-9_\s]+$` */
  predicate MatchesChatName(s: string) {
    |s| >= 1 && forall i :: 0 <= i < |s| ==> ChatNameChar(s[i])
  }

  /** What a schema finds wrong with a value. */
  function Issues(schema: Schema, data: Value): seq<Issue> {
    match schema
    case SearchQuerySchema =>
      if !data.Str? then [Issue([], LibraryMessage)]
      else if |data.s| > 100 then [Issue([], Says("Поисковый запрос не должен превышать 100 символов"))]
      else []
    case ChatUsernameSchema =>
      if !data.Str? then [Issue([], LibraryMessage)]
      else
        (if |data.s| < 2 then [Issue([], Says("Имя должно содержать минимум 2 символа"))] else [])
        + (if |data.s| > 30 then [Issue([], Says("Имя не должно превышать 30 символов"))] else [])
        + (if MatchesChatName(data.s) then []
           else [Issue([], Says("Имя может содержать только буквы, цифры, пробелы и подчёркивания"))])
    case BookSchema(year, isUrl) => InObject(data, BookFieldIssues(data, year, isUrl))
    case AuthorSchema =>
      InObject(data,
        StringIssues(["name"], Get(data, "name"), 2, "Имя автора должно содержать минимум 2 символа",
                     100, "Имя автора не должно превышать 100 символов"))
    case GenreSchema =>
      InObject(data,
        StringIssues(["name"], Get(data, "name"), 2, "Название жанра должно содержать минимум 2 символа",
                     50, "Название жанра не должно превышать 50 символов"))
    case AuthCredentialsSchema =>
      InObject(data,
        StringIssues(["username"], Get(data, "username"), 3, "Имя пользователя должно содержать минимум 3 символа",
                     50, "Имя пользователя не должно превышать 50 символов")
        + StringIssues(["password"], Get(data, "password"), 3, "Пароль должен содержать минимум 3 символа",
                       100, "Пароль не должен превышать 100 символов"))
    case ChatMessageSchema =>
      InObject(data,
        StringIssues(["text"], Get(data, "text"), 1, "Сообщение не может быть пустым",
                     1000, "Сообщение не должно превышать 1000 символов")
        + StringIssues(["username"], Get(data, "username"), 2, "Имя пользователя должно содержать минимум 2 символа",
                       30, "Имя пользователя не должно превышать 30 символов")
        + BookIdsIssues(Get(data, "bookIds")))
  }

  /** An object schema reports a non-object as a whole and checks no field. */
  function InObject(data: Value, fieldIssues: seq<Issue>): seq<Issue> {
    if data.Obj? then fieldIssues else [Issue([], LibraryMessage)]
  }

  /** `bookIds`: absent, or an array of strings (possibly empty). */
  function BookIdsIssues(ids: Value): (r: seq<Issue>)
    ensures r == [] <==> ids.Undefined? || (ids.Arr? && forall i :: 0 <= i < |ids.items| ==> ids.items[i].Str?)
  {
    if ids.Undefined? then []
    else if !ids.Arr? then [Issue(["bookIds"], LibraryMessage)]
    else ElementIssues(["bookIds"], ids.items, false)
  }

  // Reference definitions of validity

  /** A valid book: title of 1..200 characters; description absent or at most 2000;
      year absent, null or in [1000, currentYear + 1]; image URL absent, null, '' or
      a URL; rating absent, null or in [0, 5]; author and genre ids absent or a
      non-empty array of numbers. */
  predicate BookValid(data: Value, currentYear: int, isUrl: string -> bool) {
    && data.Obj?
    && LengthIn(Get(data, "title"), 1, 200)
    && (var d := Get(data, "description"); d.Undefined? || (d.Str? && |d.s| <= 2000))
    && (var y := Get(data, "publicationYear"); Nullish(y) || (y.Num? && 1000 <= y.n <= currentYear + 1))
    && (var u := Get(data, "imageUrl"); Nullish(u) || (u.Str? && (u.s == "" || isUrl(u.s))))
    && (var r := Get(data, "rating"); Nullish(r) || (r.Num? && 0 <= r.n <= 5))
    && IdsOk(Get(data, "authorIds"))
    && IdsOk(Get(data, "genreIds"))
  }

  predicate IdsOk(v: Value) {
    v.Undefined? || (v.Arr? && |v.items| >= 1 && forall i :: 0 <= i < |v.items| ==> v.items[i].Num?)
  }

  predicate LengthIn(v: Value, min: nat, max: nat) {
    v.Str? && min <= |v.s| <= max
  }

  lemma BookSchemaIff(data: Value, currentYear: int, isUrl: string -> bool)
    ensures Issues(BookSchema(currentYear, isUrl), data) == [] <==> BookValid(data, currentYear, isUrl)
  {
  }

  /** An author name is 2..100 characters. */
  lemma AuthorSchemaIff(data: Value)
    ensures Issues(AuthorSchema, data) == [] <==> data.Obj? && LengthIn(Get(data, "name"), 2, 100)
  {
  }

  /** A genre name is 2..50 characters. */
  lemma GenreSchemaIff(data: Value)
    ensures Issues(GenreSchema, data) == [] <==> data.Obj? && LengthIn(Get(data, "name"), 2, 50)
  {
  }

  /** A user name of 3..50 characters and a password of 3..100. */
  lemma AuthCredentialsSchemaIff(data: Value)
    ensures Issues(AuthCredentialsSchema, data) == [] <==>
              data.Obj? && LengthIn(Get(data, "username"), 3, 50) && LengthIn(Get(data, "password"), 3, 100)
  {
  }

  /** A text of 1..1000 characters, a user name of 2..30 and, optionally, an array of string ids. */
  lemma ChatMessageSchemaIff(data: Value)
    ensures Issues(ChatMessageSchema, data) == [] <==>
              && data.Obj? && LengthIn(Get(data, "text"), 1, 1000) && LengthIn(Get(data, "username"), 2, 30)
              && var ids := Get(data, "bookIds");
                 ids.Undefined? || (ids.Arr? && forall i :: 0 <= i < |ids.items| ==> ids.items[i].Str?)
  {
  }

  /** A search query is a string of at most 100 characters. */
  lemma SearchQuerySchemaIff(data: Value)
    ensures Issues(SearchQuerySchema, data) == [] <==> data.Str? && |data.s| <= 100
  {
  }

  /** A chat name is 2..30 characters, each a Cyrillic or Latin letter, a digit, '_' or a space. */
  lemma ChatUsernameIff(data: Value)
    ensures Issues(ChatUsernameSchema, data) == [] <==>
              data.Str? && 2 <= |data.s| <= 30 && forall i :: 0 <= i < |data.s| ==> ChatNameChar(data.s[i])
  {
  }

  // validateData, isValid

  /** The key an issue is reported under: its path joined by '.'. */
  function PathKey(issue: Issue): string {
    Join(issue.path, ".")
  }

  /** The errors object: for each issue in turn, its message under its key, so a
      later issue overwrites an earlier one with the same key. */
  function FormatErrors(issues: seq<Issue>): map<string, Message>
    decreases |issues|
  {
    if issues == [] then map[]
    else
      var last := issues[|issues| - 1];
      FormatErrors(issues[..|issues| - 1])[PathKey(last) := last.message]
  }

  /** Every issue has an entry, and every entry comes from an issue. */
  lemma {:induction false} FormatErrorsKeys(issues: seq<Issue>)
    ensures forall i :: 0 <= i < |issues| ==> PathKey(issues[i]) in FormatErrors(issues)
    ensures forall k :: k in FormatErrors(issues) ==> exists i :: 0 <= i < |issues| && PathKey(issues[i]) == k
    decreases |issues|
  {
    if issues != [] {
      var n := |issues| - 1;
      var front := issues[..n];
      FormatErrorsKeys(front);
      assert forall i :: 0 <= i < n ==> issues[i] == front[i];
    }
  }

  /** The entry under a key holds the message of the last issue with that key. */
  lemma {:induction false} FormatErrorsLastWins(issues: seq<Issue>, i: nat)
    requires i < |issues|
    requires forall j :: i < j < |issues| ==> PathKey(issues[j]) != PathKey(issues[i])
    ensures PathKey(issues[i]) in FormatErrors(issues)
    ensures FormatErrors(issues)[PathKey(issues[i])] == issues[i].message
    decreases |issues|
  {
    var n := |issues| - 1;
    if i < n {
      var front := issues[..n];
      assert issues[i] == front[i];
      assert forall j :: i < j < n ==> issues[j] == front[j];
      FormatErrorsLastWins(front, i);
      assert PathKey(issues[n]) != PathKey(issues[i]);
    }
  }

  datatype Validated =
    | Success(data: Value)
    | Failure(errors: map<string, Message>)

  /** The keys an object schema declares; the string schemas declare none. */
  function SchemaKeys(schema: Schema): set<string> {
    match schema
    case BookSchema(_, _) => {"title", "description", "publicationYear", "imageUrl", "rating", "authorIds", "genreIds"}
    case AuthorSchema => {"name"}
    case GenreSchema => {"name"}
    case AuthCredentialsSchema => {"username", "password"}
    case ChatMessageSchema => {"text", "username", "bookIds"}
    case SearchQuerySchema => {}
    case ChatUsernameSchema => {}
  }

  /** What a successful parse returns: an object loses the keys its schema does
      not declare; a string is returned as it is. */
  function Parsed(schema: Schema, data: Value): (r: Value)
    ensures data.Obj? ==> r.Obj? && (forall k :: k in r.fields <==> k in data.fields && k in SchemaKeys(schema))
    ensures data.Obj? ==> forall k :: k in r.fields ==> r.fields[k] == data.fields[k]
    ensures !data.Obj? ==> r == data
  {
    if data.Obj? then Obj(map k | k in data.fields && k in SchemaKeys(schema) :: data.fields[k]) else data
  }

  /** `validateData(schema, data)`: the parsed data on success; the formatted issues
      on a validation failure; `{ general }` for any other failure, which is what
      calling it without a schema (None) raises. */
  function ValidateData(schema: Option<Schema>, data: Value): (r: Validated)
    ensures schema.None? ==> r == Failure(map["general" := Says("Ошибка валидации")])
    ensures schema.Some? ==> (r.Success? <==> Issues(schema.value, data) == [])
    ensures schema.Some? && r.Success? ==> r.data == Parsed(schema.value, data)
    ensures schema.Some? && r.Failure? ==> r.errors == FormatErrors(Issues(schema.value, data))
  {
    match schema
    case None => Failure(map["general" := Says("Ошибка валидации")])
    case Some(s) =>
      var issues := Issues(s, data);
      if issues == [] then Success(Parsed(s, data)) else Failure(FormatErrors(issues))
  }

  /** A schema looks only at the keys it declares. */
  lemma IssuesReadDeclaredKeys(schema: Schema, a: Value, b: Value)
    requires a.Obj? && b.Obj?
    requires forall k :: k in SchemaKeys(schema) ==> Get(a, k) == Get(b, k)
    ensures Issues(schema, a) == Issues(schema, b)
  {
    match schema
    case BookSchema(y, u) =>
      assert Get(a, "title") == Get(b, "title") && Get(a, "description") == Get(b, "description");
      assert Get(a, "publicationYear") == Get(b, "publicationYear") && Get(a, "imageUrl") == Get(b, "imageUrl");
      assert Get(a, "rating") == Get(b, "rating");
      assert Get(a, "authorIds") == Get(b, "authorIds") && Get(a, "genreIds") == Get(b, "genreIds");
    case AuthorSchema => assert Get(a, "name") == Get(b, "name");
    case GenreSchema => assert Get(a, "name") == Get(b, "name");
    case AuthCredentialsSchema =>
      assert Get(a, "username") == Get(b, "username") && Get(a, "password") == Get(b, "password");
    case ChatMessageSchema =>
      assert Get(a, "text") == Get(b, "text") && Get(a, "username") == Get(b, "username");
      assert Get(a, "bookIds") == Get(b, "bookIds");
    case SearchQuerySchema =>
    case ChatUsernameSchema =>
  }

  /** The fields a schema checks survive parsing: validating the parsed value
      again finds the same issues (none) and returns it unchanged. */
  lemma ParsedIsStable(schema: Schema, data: Value)
    requires Issues(schema, data) == []
    ensures Issues(schema, Parsed(schema, data)) == []
    ensures Parsed(schema, Parsed(schema, data)) == Parsed(schema, data)
  {
    var p := Parsed(schema, data);
    if data.Obj? {
      forall k | k in SchemaKeys(schema) ensures Get(p, k) == Get(data, k) {
      }
      IssuesReadDeclaredKeys(schema, p, data);
      assert p.fields == map k | k in p.fields && k in SchemaKeys(schema) :: p.fields[k];
    }
  }

  /** `isValid(schema, data)`; without a schema the call raises. */
  function IsValid(schema: Option<Schema>, data: Value): (r: Result<bool>)
    ensures schema.None? <==> r.TypeError?
  {
    match schema
    case None => TypeError
    case Some(s) => Ok(Issues(s, data) == [])
  }

  /** `isValid` agrees with the success flag of `validateData`. */
  lemma IsValidIffValidateData(schema: Schema, data: Value)
    ensures IsValid(Some(schema), data) == Ok(ValidateData(Some(schema), data).Success?)
  {
  }

  /** A failure always names at least one field. */
  lemma FailureHasErrors(schema: Schema, data: Value)
    requires ValidateData(Some(schema), data).Failure?
    ensures ValidateData(Some(schema), data).errors != map[]
  {
    var issues := Issues(schema, data);
    FormatErrorsKeys(issues);
    assert PathKey(issues[0]) in FormatErrors(issues);
  }

  /** A two-character title of a book in the 0..5 rating range with rating 5 is
      valid, and rating 6 (accepted by the admin form) is not. */
  lemma RatingBound(title: string, currentYear: int, isUrl: string -> bool)
    requires 1 <= |title| <= 200
    ensures Issues(BookSchema(currentYear, isUrl), Obj(map["title" := Str(title), "rating" := Num(5)])) == []
    ensures Issues(BookSchema(currentYear, isUrl), Obj(map["title" := Str(title), "rating" := Num(6)])) != []
  {
    var ok := Obj(map["title" := Str(title), "rating" := Num(5)]);
    var bad := Obj(map["title" := Str(title), "rating" := Num(6)]);
    assert Get(ok, "title") == Str(title) && Get(ok, "rating") == Num(5);
    assert Get(bad, "title") == Str(title) && Get(bad, "rating") == Num(6);
    assert Get(ok, "description") == Undefined && Get(bad, "description") == Undefined;
    assert Get(ok, "authorIds") == Undefined && Get(ok, "genreIds") == Undefined;
    assert Get(ok, "publicationYear") == Undefined && Get(ok, "imageUrl") == Undefined;
    BookSchemaIff(ok, currentYear, isUrl);
    BookSchemaIff(bad, currentYear, isUrl);
  }
}
