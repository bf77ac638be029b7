/** Credentials kept in `localStorage` under 'api_auth' (src/utils/auth.js).
    A storage call that throws is modelled by the `fails` parameter; the
    functions catch it and report false. */
module Auth {
  import opened Js
  import opened Text
  import opened LocalStorage

  const ApiAuthKey := "api_auth"

  function CredentialsObject(username: Value, password: Value): Value {
    Obj(map["username" := username, "password" := password])
  }

  /** `saveAuthCredentials(username, password)` */
  method SaveAuthCredentials(ls: Storage, username: Value, password: Value, fails: bool) returns (ok: bool)
    modifies ls
    ensures ok == !fails
    ensures ok ==> ls.items == old(ls.items)[ApiAuthKey := Stringify(CredentialsObject(username, password))]
    ensures !ok ==> ls.items == old(ls.items)
    ensures ok ==> GetAuthCredentials(ls) == CredentialsObject(username, password)
  {
    if fails {
      return false;
    }
    ls.SetItem(ApiAuthKey, Stringify(CredentialsObject(username, password)));
    return true;
  }

  /** `getAuthCredentials()`: the parsed value under 'api_auth', or null when the
      key is missing, empty or not valid JSON. */
  function GetAuthCredentials(ls: Storage): (c: Value)
    reads ls
    ensures ApiAuthKey !in ls.items ==> c == Null
    ensures ApiAuthKey in ls.items && ls.items[ApiAuthKey].Raw? ==> c == Null
    ensures ApiAuthKey in ls.items && ls.items[ApiAuthKey].Json? ==> c == ls.items[ApiAuthKey].v
  {
    match ls.GetItem(ApiAuthKey)
    case Some(stored) =>
      if StoredTruthy(stored) then
        match Parse(stored)
        case Some(v) => v
        case None => Null
      else Null
    case None => Null
  }

  /** `clearAuthCredentials()` */
  method ClearAuthCredentials(ls: Storage, fails: bool) returns (ok: bool)
    modifies ls
    ensures ok == !fails
    ensures ok ==> ls.items == old(ls.items) - {ApiAuthKey}
    ensures !ok ==> ls.items == old(ls.items)
    ensures ok ==> !HasAuthCredentials(ls)
  {
    if fails {
      return false;
    }
    ls.RemoveItem(ApiAuthKey);
    return true;
  }

  /** `hasAuthCredentials()` */
  predicate HasAuthCredentials(ls: Storage)
    reads ls
  {
    GetAuthCredentials(ls) != Null
  }

  /** The credentials are present exactly when 'api_auth' holds the JSON text of a non-null value. */
  lemma HasCredentialsIff(ls: Storage)
    ensures HasAuthCredentials(ls) <==> ApiAuthKey in ls.items && ls.items[ApiAuthKey].Json? && ls.items[ApiAuthKey].v != Null
  {
  }
}
