/** The message logic the chat sidebar (src/components/Chat/ChatSidebar.jsx) and
    the chat page (src/pages/ChatPage.jsx) share, written twice in the source:
    the user-name check, the book links `/book?id=N` found in a message with
    the global regex `/\/book\?id=(\d+)/g`, the payload sent, and a received
    message's text and linked books as displayed. */
module ChatLinks {
  import opened Js
  import opened Text
  import opened Seqs

  // The user name

  const EnterName := "Введите ваше имя"
  const NameTooShort := "Имя должно содержать минимум 2 символа"
  const NameTooLong := "Имя не должно превышать 30 символов"

  /** `handleUsernameSubmit`'s checks on the trimmed name, the first failing one reporting. */
  function UsernameError(username: string): (e: Option<string>)
    ensures e.None? <==> 2 <= |Trim(username)| <= 30
    ensures Trim(username) == "" ==> e == Some(EnterName)
    ensures 0 < |Trim(username)| < 2 ==> e == Some(NameTooShort)
    ensures |Trim(username)| > 30 ==> e == Some(NameTooLong)
  {
    var trimmed := Trim(username);
    if trimmed == "" then Some(EnterName)
    else if |trimmed| < 2 then Some(NameTooShort)
    else if |trimmed| > 30 then Some(NameTooLong)
    else None
  }

  // Link scanning

  const LinkPrefix := "/book?id="

  /** The number of leading decimal digits (`\d` is ASCII only). */
  function DigitRun(s: string): (n: nat)
    ensures n <= |s| && AllDigits(s[..n])
    ensures n < |s| ==> !IsDigit(s[n])
  {
    if s != [] && IsDigit(s[0]) then
      var n := 1 + DigitRun(s[1..]);
      assert forall i :: 1 <= i < n ==> s[..n][i] == s[1..][..n - 1][i - 1];
      n
    else 0
  }

  /** The regex matches at the front of s. */
  predicate LinkAt(s: string) {
    StartsWith(s, LinkPrefix) && |s| > |LinkPrefix| && IsDigit(s[|LinkPrefix|])
  }

  /** The length of the match at the front of s. */
  function LinkLength(s: string): (n: nat)
    requires LinkAt(s)
    ensures |LinkPrefix| < n <= |s|
  {
    |LinkPrefix| + DigitRun(s[|LinkPrefix|..])
  }

  /** `[...text.matchAll(regex)].map(m => m[1])`: the digit runs of the links, in order. */
  function BookIds(s: string): seq<string>
    decreases |s|
  {
    if s == [] then []
    else if LinkAt(s) then
      var n := LinkLength(s);
      [s[|LinkPrefix|..n]] + BookIds(s[n..])
    else BookIds(s[1..])
  }

  /** Every id found is a nonempty digit run. */
  lemma {:induction false} BookIdsAreDigits(s: string)
    ensures forall i :: 0 <= i < |BookIds(s)| ==> BookIds(s)[i] != "" && AllDigits(BookIds(s)[i])
    decreases |s|
  {
    if s != [] {
      if LinkAt(s) {
        var n := LinkLength(s);
        assert s[|LinkPrefix|..n] == s[|LinkPrefix|..][..n - |LinkPrefix|];
        BookIdsAreDigits(s[n..]);
      } else {
        BookIdsAreDigits(s[1..]);
      }
    }
  }

  /** `text.replace(regex, '')`: the text with every link removed. */
  function StripLinks(s: string): (r: string)
    ensures |r| <= |s|
    decreases |s|
  {
    if s == [] then []
    else if LinkAt(s) then StripLinks(s[LinkLength(s)..])
    else [s[0]] + StripLinks(s[1..])
  }

  /** A text after which no digit run can continue and no link can begin early. */
  predicate Boundary(t: string) {
    t == [] || t[0] == '/'
  }

  lemma {:induction false} DigitRunAppend(x: string, t: string)
    requires t == [] || !IsDigit(t[0])
    ensures DigitRun(x + t) == DigitRun(x)
    decreases |x|
  {
    if x != [] {
      assert (x + t)[1..] == x[1..] + t;
      DigitRunAppend(x[1..], t);
    } else {
      assert x + t == t;
    }
  }

  /** Before a text that starts with '/', a link is found exactly where it is found alone. */
  lemma LinkAtAppend(a: string, t: string)
    requires a != [] && Boundary(t)
    ensures LinkAt(a + t) <==> LinkAt(a)
    ensures LinkAt(a) ==> LinkLength(a + t) == LinkLength(a)
  {
    var s := a + t;
    if |a| > |LinkPrefix| {
      assert s[..|LinkPrefix|] == a[..|LinkPrefix|] && s[|LinkPrefix|] == a[|LinkPrefix|];
      if LinkAt(a) {
        assert s[|LinkPrefix|..] == a[|LinkPrefix|..] + t;
        DigitRunAppend(a[|LinkPrefix|..], t);
      }
    } else if t != [] {
      assert s[|a|] == '/';
      assert !LinkAt(a);
      if |a| < |LinkPrefix| {
        assert LinkPrefix[|a|] != '/';
      }
    } else {
      assert s == a;
    }
  }

  /** One step of the scan at a link. */
  lemma ScanAtLink(s: string)
    requires LinkAt(s)
    ensures BookIds(s) == [s[|LinkPrefix|..LinkLength(s)]] + BookIds(s[LinkLength(s)..])
    ensures StripLinks(s) == StripLinks(s[LinkLength(s)..])
  {
  }

  /** One step of the scan elsewhere. */
  lemma ScanAtOther(s: string)
    requires s != [] && !LinkAt(s)
    ensures BookIds(s) == BookIds(s[1..])
    ensures StripLinks(s) == [s[0]] + StripLinks(s[1..])
  {
  }

  lemma Assoc<T>(x: seq<T>, y: seq<T>, z: seq<T>)
    ensures x + (y + z) == (x + y) + z
  {
  }

  lemma SliceAppend(a: string, t: string, i: nat, n: nat)
    requires i <= n <= |a|
    ensures (a + t)[i..n] == a[i..n] && (a + t)[n..] == a[n..] + t
  {
  }

  /** The scan's step at a link of a, given the scan of the rest. */
  lemma ScanAppendAtLink(a: string, t: string)
    requires Boundary(t) && LinkAt(a)
    requires BookIds(a[LinkLength(a)..] + t) == BookIds(a[LinkLength(a)..]) + BookIds(t)
    requires StripLinks(a[LinkLength(a)..] + t) == StripLinks(a[LinkLength(a)..]) + StripLinks(t)
    ensures BookIds(a + t) == BookIds(a) + BookIds(t)
    ensures StripLinks(a + t) == StripLinks(a) + StripLinks(t)
  {
    LinkAtAppend(a, t);
    SliceAppend(a, t, |LinkPrefix|, LinkLength(a));
    ScanAtLink(a);
    ScanAtLink(a + t);
    Assoc([a[|LinkPrefix|..LinkLength(a)]], BookIds(a[LinkLength(a)..]), BookIds(t));
  }

  /** The scan's step elsewhere in a, given the scan of the rest. */
  lemma ScanAppendAtOther(a: string, t: string)
    requires Boundary(t) && a != [] && !LinkAt(a)
    requires BookIds(a[1..] + t) == BookIds(a[1..]) + BookIds(t)
    requires StripLinks(a[1..] + t) == StripLinks(a[1..]) + StripLinks(t)
    ensures BookIds(a + t) == BookIds(a) + BookIds(t)
    ensures StripLinks(a + t) == StripLinks(a) + StripLinks(t)
  {
    LinkAtAppend(a, t);
    SliceAppend(a, t, 0, 1);
    ScanAtOther(a);
    ScanAtOther(a + t);
    Assoc([a[0]], StripLinks(a[1..]), StripLinks(t));
  }

  /** Scanning a text then one that starts with '/' is scanning each in turn. */
  lemma {:induction false} ScanAppend(a: string, t: string)
    requires Boundary(t)
    ensures BookIds(a + t) == BookIds(a) + BookIds(t)
    ensures StripLinks(a + t) == StripLinks(a) + StripLinks(t)
    decreases |a|
  {
    if a == [] {
      assert a + t == t;
    } else if LinkAt(a) {
      ScanAppend(a[LinkLength(a)..], t);
      ScanAppendAtLink(a, t);
    } else {
      ScanAppend(a[1..], t);
      ScanAppendAtOther(a, t);
    }
  }

  /** A link followed by a text that does not start with a digit yields its id
      and disappears from the displayed text. */
  lemma ScanLink(d: string, b: string)
    requires d != [] && AllDigits(d)
    requires b == [] || !IsDigit(b[0])
    ensures BookIds(LinkPrefix + d + b) == [d] + BookIds(b)
    ensures StripLinks(LinkPrefix + d + b) == StripLinks(b)
  {
    var s := LinkPrefix + d + b;
    assert s[..|LinkPrefix|] == LinkPrefix;
    assert s[|LinkPrefix|..] == d + b;
    assert d[..|d|] == d;
    DigitRunAppend(d, b);
    assert DigitRun(d + b) == |d| by {
      DigitRunOfDigits(d);
    }
    assert s[|LinkPrefix|..LinkLength(s)] == d;
    assert s[LinkLength(s)..] == b;
  }

  lemma {:induction false} DigitRunOfDigits(d: string)
    requires AllDigits(d)
    ensures DigitRun(d) == |d|
    decreases |d|
  {
    if d != [] {
      DigitRunOfDigits(d[1..]);
    }
  }

  /** A text without '/' holds no link. */
  lemma {:induction false} ScanPlain(s: string)
    requires '/' !in s
    ensures BookIds(s) == [] && StripLinks(s) == s
    decreases |s|
  {
    if s != [] {
      assert s[0] == LinkPrefix[0] ==> '/' in s;
      assert s == [s[0]] + s[1..];
      ScanPlain(s[1..]);
    }
  }

  /** A link and the plain text after it. */
  datatype Piece = Piece(id: string, after: string)

  predicate PieceOk(p: Piece) {
    p.id != "" && AllDigits(p.id) && '/' !in p.after && (p.after == [] || !IsDigit(p.after[0]))
  }

  function Links(ps: seq<Piece>): (s: string)
    ensures Boundary(s)
  {
    if ps == [] then [] else LinkPrefix + ps[0].id + ps[0].after + Links(ps[1..])
  }

  function Ids(ps: seq<Piece>): seq<string> {
    if ps == [] then [] else [ps[0].id] + Ids(ps[1..])
  }

  function Afters(ps: seq<Piece>): string {
    if ps == [] then [] else ps[0].after + Afters(ps[1..])
  }

  lemma {:induction false} ScanLinks(ps: seq<Piece>)
    requires forall i :: 0 <= i < |ps| ==> PieceOk(ps[i])
    ensures BookIds(Links(ps)) == Ids(ps)
    ensures StripLinks(Links(ps)) == Afters(ps)
  {
    if ps != [] {
      var p := ps[0];
      var rest := Links(ps[1..]);
      var b := p.after + rest;
      ScanLinks(ps[1..]);
      ScanPlain(p.after);
      ScanAppend(p.after, rest);
      assert BookIds(b) == Ids(ps[1..]) && StripLinks(b) == Afters(ps);
      assert b == [] || !IsDigit(b[0]) by {
        if p.after != [] {
          assert b[0] == p.after[0];
        }
      }
      ScanLink(p.id, b);
      Assoc(LinkPrefix + p.id, p.after, rest);
    }
  }

  /** A message written as plain text and links: the ids sent are the links'
      ids in order, and the text displayed is the plain text in order. */
  lemma ComposedMessage(plain: string, ps: seq<Piece>)
    requires '/' !in plain
    requires forall i :: 0 <= i < |ps| ==> PieceOk(ps[i])
    ensures BookIds(plain + Links(ps)) == Ids(ps)
    ensures StripLinks(plain + Links(ps)) == plain + Afters(ps)
  {
    ScanPlain(plain);
    ScanAppend(plain, Links(ps));
    ScanLinks(ps);
  }

  // Sending

  /** The ids as the string values sent. */
  function IdValues(ids: seq<string>): (r: seq<Value>)
    ensures |r| == |ids| && forall i :: 0 <= i < |ids| ==> r[i] == Str(ids[i])
  {
    Map(ids, s => Str(s))
  }

  /** The `message:send` payload: the text unchanged, the user name, and the
      link ids only when there are some. */
  function SendPayload(input: string, username: string): (v: Value)
    ensures Get(v, "text") == Str(input) && Get(v, "username") == Str(username)
    ensures BookIds(input) == [] ==> Get(v, "bookIds") == Undefined
    ensures BookIds(input) != [] ==> Get(v, "bookIds") == Arr(IdValues(BookIds(input)))
  {
    var ids := BookIds(input);
    var fields := map["text" := Str(input), "username" := Str(username)];
    Obj(if ids == [] then fields else fields["bookIds" := Arr(IdValues(ids))])
  }

  /** `handleSendMessage`'s guard. */
  predicate CanSend(input: string, hasSocket: bool, isConnected: bool) {
    Trim(input) != "" && hasSocket && isConnected
  }

  // Displaying

  /** `message.text || message.message || ''` on a message that is not null or undefined. */
  function MessageText(message: Value): (t: Value)
    ensures Truthy(Get(message, "text")) ==> t == Get(message, "text")
    ensures !Truthy(Get(message, "text")) && Truthy(Get(message, "message")) ==> t == Get(message, "message")
    ensures !Truthy(Get(message, "text")) && !Truthy(Get(message, "message")) ==> t == Str("")
  {
    Or(Or(Get(message, "text"), Get(message, "message")), Str(""))
  }

  /** `messageText.replace(regex, '').trim()`; only strings have `replace`. */
  function DisplayText(message: Value): (r: Result<string>)
    ensures Nullish(message) ==> r.TypeError?
    ensures !Nullish(message) ==> (r.Ok? <==> MessageText(message).Str?)
    ensures r.Ok? ==> r.value == Trim(StripLinks(MessageText(message).s))
  {
    var _ :- Member(message, "text");
    var t := MessageText(message);
    if t.Str? then Ok(Trim(StripLinks(t.s))) else TypeError
  }

  /** `b.id === Number(id)`; NaN equals nothing. */
  function IdIsNumber(id: Value, b: Value): (r: Result<bool>)
    ensures r.TypeError? <==> Nullish(b)
    ensures r.Ok? ==> (r.value <==> ToNumber(id).Some? && Get(b, "id") == Num(ToNumber(id).value))
  {
    var bid :- Member(b, "id");
    Ok(ToNumber(id).Some? && bid == Num(ToNumber(id).value))
  }

  function IdIsNumberOf(id: Value): Value -> Result<bool> {
    b => IdIsNumber(id, b)
  }

  /** `books.find(b => b.id === Number(id))`, undefined when none. */
  function FindLinked(books: seq<Value>, id: Value): Result<Value> {
    var found :- FindResult(books, IdIsNumberOf(id));
    Ok(if found.Some? then found.value else Undefined)
  }

  function FindLinkedIn(books: seq<Value>): Value -> Result<Value> {
    id => FindLinked(books, id)
  }

  /** `bookLinks`: [] without ids; otherwise each id's book, unknown ids dropped. */
  function BookLinks(bookIds: Value, books: seq<Value>): (r: Result<seq<Value>>)
    ensures !Truthy(bookIds) ==> r == Ok([])
    ensures Truthy(bookIds) && !bookIds.Arr? ==> r.TypeError?
    ensures r.Ok? ==> forall k :: 0 <= k < |r.value| ==>
              r.value[k] in books && Truthy(r.value[k]) &&
              exists i :: 0 <= i < |bookIds.items| && ToNumber(bookIds.items[i]).Some? &&
                Get(r.value[k], "id") == Num(ToNumber(bookIds.items[i]).value)
  {
    if !Truthy(bookIds) then Ok([])
    else if !bookIds.Arr? then TypeError
    else
      var found :- MapResult(bookIds.items, FindLinkedIn(books));
      var r := Filter(found, Truthy);
      assert forall k :: 0 <= k < |r| ==> r[k] in found && Truthy(r[k]);
      Ok(r)
  }

  /** The first book whose id is the number, without the callback's throw. */
  function FirstWithNumber(books: seq<Value>, n: int): Value {
    if books == [] then Undefined
    else if Get(books[0], "id") == Num(n) then books[0]
    else FirstWithNumber(books[1..], n)
  }

  /** The linked books in link order, each id standing for its first book,
      ids that are not numbers or have no book skipped. */
  function Linked(ids: seq<Value>, books: seq<Value>): seq<Value> {
    if ids == [] then []
    else
      var n := ToNumber(ids[0]);
      var b := if n.Some? then FirstWithNumber(books, n.value) else Undefined;
      (if Truthy(b) then [b] else []) + Linked(ids[1..], books)
  }

  lemma {:induction false} FindLinkedIsFirst(books: seq<Value>, id: Value)
    requires forall j :: 0 <= j < |books| ==> !Nullish(books[j])
    ensures FindLinked(books, id) ==
              Ok(if ToNumber(id).Some? then FirstWithNumber(books, ToNumber(id).value) else Undefined)
  {
    if books != [] {
      FindLinkedIsFirst(books[1..], id);
    }
  }

  /** With no null or undefined book, the displayed links are the linked books in link order. */
  lemma {:induction false} BookLinksAreLinked(ids: seq<Value>, books: seq<Value>)
    requires forall j :: 0 <= j < |books| ==> !Nullish(books[j])
    ensures MapResult(ids, FindLinkedIn(books)).Ok?
    ensures Filter(MapResult(ids, FindLinkedIn(books)).value, Truthy) == Linked(ids, books)
  {
    if ids != [] {
      FindLinkedIsFirst(books, ids[0]);
      BookLinksAreLinked(ids[1..], books);
      var rest := MapResult(ids[1..], FindLinkedIn(books)).value;
      var first := FindLinked(books, ids[0]).value;
      assert MapResult(ids, FindLinkedIn(books)).value == [first] + rest;
      FilterAppend([first], rest, Truthy);
    }
  }

  /** A sent message's ids, read back on display, find the linked books by number. */
  lemma SentIdsResolve(input: string, books: seq<Value>)
    requires forall j :: 0 <= j < |books| ==> !Nullish(books[j])
    requires BookIds(input) != []
    ensures BookLinks(Get(SendPayload(input, ""), "bookIds"), books) ==
              Ok(Linked(IdValues(BookIds(input)), books))
  {
    var ids := IdValues(BookIds(input));
    assert Get(SendPayload(input, ""), "bookIds") == Arr(ids);
    BookLinksOfArray(ids, books);
  }

  /** With no null or undefined book, the links of an id array are its linked books. */
  lemma BookLinksOfArray(ids: seq<Value>, books: seq<Value>)
    requires forall j :: 0 <= j < |books| ==> !Nullish(books[j])
    ensures BookLinks(Arr(ids), books) == Ok(Linked(ids, books))
  {
    BookLinksAreLinked(ids, books);
  }

  // One displayed message

  /** What `ChatMessage` shows: whether the message is the user's own, its text
      and its linked books. */
  datatype MessageView = MessageView(isOwn: bool, text: string, books: seq<Value>)

  /** `message.username === currentUsername`: a string sender equal to the user's name. */
  function IsOwn(message: Value, currentUsername: string): (b: bool)
    ensures b <==> Get(message, "username") == Str(currentUsername)
  {
    StrictEq(Get(message, "username"), Str(currentUsername))
  }

  /** `ChatMessage({ message, currentUsername, books })`. */
  function ShowMessage(message: Value, currentUsername: string, books: seq<Value>): (r: Result<MessageView>)
    ensures Nullish(message) ==> r.TypeError?
    ensures r.Ok? <==> DisplayText(message).Ok? && BookLinks(Get(message, "bookIds"), books).Ok?
    ensures r.Ok? ==> r.value.isOwn == IsOwn(message, currentUsername)
    ensures r.Ok? ==> r.value.text == DisplayText(message).value
    ensures r.Ok? ==> r.value.books == BookLinks(Get(message, "bookIds"), books).value
  {
    var _ :- Member(message, "username");
    var links :- BookLinks(Get(message, "bookIds"), books);
    var text :- DisplayText(message);
    Ok(MessageView(IsOwn(message, currentUsername), text, links))
  }

  /** A message this client sent, echoed back by the server with its fields,
      shows as its own, its text stripped of links, its linked books in link order. */
  lemma EchoedPayloadShows(input: string, username: string, books: seq<Value>)
    requires BookIds(input) != []
    requires forall j :: 0 <= j < |books| ==> !Nullish(books[j])
    ensures ShowMessage(SendPayload(input, username), username, books) ==
              Ok(MessageView(true, Trim(StripLinks(input)), Linked(IdValues(BookIds(input)), books)))
  {
    assert input != [];
    SentIdsResolve(input, books);
    var payload := SendPayload(input, username);
    assert Get(SendPayload(input, ""), "bookIds") == Get(payload, "bookIds");
    assert MessageText(payload) == Str(input);
    assert DisplayText(payload) == Ok(Trim(StripLinks(input)));
  }

  /** For a message written as plain text and links: the plain text and the
      books of the links, in order. */
  lemma EchoedMessageShows(plain: string, ps: seq<Piece>, username: string, books: seq<Value>)
    requires '/' !in plain
    requires forall i :: 0 <= i < |ps| ==> PieceOk(ps[i])
    requires forall j :: 0 <= j < |books| ==> !Nullish(books[j])
    requires ps != []
    ensures ShowMessage(SendPayload(plain + Links(ps), username), username, books) ==
              Ok(MessageView(true, Trim(plain + Afters(ps)), Linked(IdValues(Ids(ps)), books)))
  {
    ComposedMessage(plain, ps);
    assert Ids(ps) != [];
    EchoedPayloadShows(plain + Links(ps), username, books);
  }
}
