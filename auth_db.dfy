/** Credentials kept in the IndexedDB `authData` table (src/utils/authIndexDB.js):
    asynchronous wrappers that never throw, and an in-memory cache filled once
    for synchronous readers. A failing table call is modelled by `fails`. */
module AuthDb {
  import opened Js
  import opened Database

  function CredentialsObject(username: Value, password: Value): Value {
    Obj(map["username" := username, "password" := password])
  }

  /** `saveAuthCredentials(username, password)`: true on success, false on a store error. */
  method SaveAuthCredentials(ad: AuthData, username: Value, password: Value, now: nat, fails: bool) returns (ok: bool)
    modifies ad
    ensures ok == !fails
    ensures !ok ==> ad.items == old(ad.items)
    ensures ok ==> ad.items == old(ad.items)[CredentialsKey := AuthRecord(CredentialsObject(username, password), now)]
    ensures ok ==> ad.GetCredentials() == CredentialsObject(username, password)
  {
    if fails {
      return false;
    }
    ad.SaveCredentials(username, password, now);
    return true;
  }

  /** `getAuthCredentials()`: the stored credentials, or null on a store error. */
  method GetAuthCredentials(ad: AuthData, fails: bool) returns (c: Value)
    ensures fails ==> c == Null
    ensures !fails ==> c == ad.GetCredentials()
  {
    if fails {
      return Null;
    }
    return ad.GetCredentials();
  }

  /** `clearAuthCredentials()`: true on success, false on a store error. */
  method ClearAuthCredentials(ad: AuthData, fails: bool) returns (ok: bool)
    modifies ad
    ensures ok == !fails
    ensures !ok ==> ad.items == old(ad.items)
    ensures ok ==> ad.items == old(ad.items) - {CredentialsKey} && !ad.HasCredentials()
  {
    if fails {
      return false;
    }
    ad.ClearCredentials();
    return true;
  }

  /** `hasAuthCredentials()`: false on a store error. */
  method HasAuthCredentials(ad: AuthData, fails: bool) returns (b: bool)
    ensures b <==> !fails && ad.GetCredentials() != Null
  {
    if fails {
      return false;
    }
    return ad.HasCredentials();
  }

  /** The module-level `credentialsCache` and `cacheInitialized`. */
  class AuthCache {
    var credentialsCache: Value
    var cacheInitialized: bool

    constructor ()
      ensures credentialsCache == Null && !cacheInitialized
    {
      credentialsCache := Null;
      cacheInitialized := false;
    }

    /** `getAuthCredentialsSync()`: the cached value, null before initialisation. */
    function GetSync(): Value
      reads this
    {
      credentialsCache
    }

    /** `initAuthCache()`: reads the table on the first call only. */
    method InitAuthCache(ad: AuthData, fails: bool)
      modifies this
      ensures cacheInitialized
      ensures old(cacheInitialized) ==> credentialsCache == old(credentialsCache)
      ensures !old(cacheInitialized) ==> credentialsCache == (if fails then Null else ad.GetCredentials())
    {
      if !cacheInitialized {
        credentialsCache := GetAuthCredentials(ad, fails);
        cacheInitialized := true;
      }
    }

    /** `saveAuthCredentialsSync(username, password)`: the cache follows only a successful save. */
    method SaveSync(ad: AuthData, username: Value, password: Value, now: nat, fails: bool) returns (ok: bool)
      modifies this, ad
      ensures ok == !fails
      ensures cacheInitialized == old(cacheInitialized)
      ensures ok ==> credentialsCache == CredentialsObject(username, password) && ad.GetCredentials() == credentialsCache
      ensures !ok ==> credentialsCache == old(credentialsCache) && ad.items == old(ad.items)
    {
      ok := SaveAuthCredentials(ad, username, password, now, fails);
      if ok {
        credentialsCache := CredentialsObject(username, password);
      }
    }

    /** `clearAuthCredentialsSync()`: the cache is emptied only by a successful clear. */
    method ClearSync(ad: AuthData, fails: bool) returns (ok: bool)
      modifies this, ad
      ensures ok == !fails
      ensures cacheInitialized == old(cacheInitialized)
      ensures ok ==> credentialsCache == Null && ad.GetCredentials() == Null
      ensures !ok ==> credentialsCache == old(credentialsCache) && ad.items == old(ad.items)
    {
      ok := ClearAuthCredentials(ad, fails);
      if ok {
        credentialsCache := Null;
      }
    }
  }

  /** Once initialised, the cache ignores later changes made to the table by other
      writers: a second initialisation keeps the first reading. */
  method InitTwiceKeepsFirstReading(cache: AuthCache, ad: AuthData, username: Value, password: Value, now: nat)
    requires !cache.cacheInitialized
    requires ad.GetCredentials() == Null
    modifies cache, ad
    ensures ad.GetCredentials() == CredentialsObject(username, password)
    ensures cache.GetSync() == Null
  {
    cache.InitAuthCache(ad, false);
    ad.SaveCredentials(username, password, now);
    cache.InitAuthCache(ad, false);
  }
}
