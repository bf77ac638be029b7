/** The browser's `localStorage`: a map from keys to stored strings. A stored
    string is either the JSON text of a value or a text that is not valid JSON;
    `JSON.stringify` and `JSON.parse` are taken as inverse on the values stored. */
module LocalStorage {
  import opened Js
  import opened Text

  datatype Stored = Json(v: Value) | Raw(text: string)

  /** A stored string is truthy unless it is empty; JSON texts are never empty. */
  predicate StoredTruthy(s: Stored) {
    s.Json? || s.text != ""
  }

  /** `JSON.parse(s)`: the value of a JSON text, a SyntaxError (None) otherwise. */
  function Parse(s: Stored): (r: Option<Value>)
    ensures r.Some? <==> s.Json?
    ensures s.Json? ==> r == Some(s.v)
  {
    if s.Json? then Some(s.v) else None
  }

  /** `JSON.stringify(v)` */
  function Stringify(v: Value): (s: Stored)
    ensures Parse(s) == Some(v) && StoredTruthy(s)
  {
    Json(v)
  }

  class Storage {
    var items: map<string, Stored>

    constructor (initial: map<string, Stored>)
      ensures items == initial
    {
      items := initial;
    }

    /** `getItem(key)`: null (None) for a missing key. */
    function GetItem(key: string): (r: Option<Stored>)
      reads this
      ensures r.Some? <==> key in items
      ensures r.Some? ==> r.value == items[key]
    {
      if key in items then Some(items[key]) else None
    }

    method SetItem(key: string, value: Stored)
      modifies this
      ensures items == old(items)[key := value]
    {
      items := items[key := value];
    }

    method RemoveItem(key: string)
      modifies this
      ensures items == old(items) - {key}
    {
      items := items - {key};
    }
  }
}
