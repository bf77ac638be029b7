/** The one-shot move of legacy `localStorage` data into the IndexedDB tables
    (src/db/migration.js). The three sub-steps touch disjoint keys, so they are
    run one after the other; each swallows its own errors. A failing credential
    save is modelled by `authSaveFails`; every other table call succeeds. */
module Migration {
  import opened Js
  import opened Text
  import opened LocalStorage
  import opened Database
  import Seqs

  const ApiAuthKey := "api_auth"
  const BookStorageKey := "book-storage"
  const KeysToMigrate := ["user_preferences", "theme", "language"]
  const CompletedKey := "migration_completed"
  const DateKey := "migration_date"

  datatype MigrationResult = MigrationResult(success: bool, alreadyMigrated: bool)

  function CredentialsObject(username: Value, password: Value): Value {
    Obj(map["username" := username, "password" := password])
  }

  // migrateAuthData

  /** 'api_auth' holds a non-empty JSON text whose value can be destructured. */
  predicate AuthParses(stored: Option<Stored>) {
    stored.Some? && stored.value.Json? && !Nullish(stored.value.v)
  }

  method MigrateAuthData(ls: Storage, ad: AuthData, now: nat, authSaveFails: bool)
    modifies ls, ad
    ensures var stored := old(ls.GetItem(ApiAuthKey));
            if AuthParses(stored) && !authSaveFails then
              && ad.items == old(ad.items)[CredentialsKey := AuthRecord(CredentialsObject(Get(stored.value.v, "username"), Get(stored.value.v, "password")), now)]
              && ls.items == old(ls.items) - {ApiAuthKey}
            else
              ad.items == old(ad.items) && ls.items == old(ls.items)
  {
    var authData := ls.GetItem(ApiAuthKey);
    if authData.Some? && StoredTruthy(authData.value) {
      match Parse(authData.value)
      case None =>
      case Some(parsed) =>
        if !Nullish(parsed) && !authSaveFails {
          ad.SaveCredentials(Get(parsed, "username"), Get(parsed, "password"), now);
          ls.RemoveItem(ApiAuthKey);
        }
    }
  }

  // migrateViewedBooks

  /** The legacy persisted state and its `viewedBooks` array, when 'book-storage'
      parses and holds one; None when the sub-step leaves everything alone. */
  function LegacyViewed(stored: Option<Stored>): (r: Option<(Value, seq<Value>)>)
    ensures r.Some? ==> r.value.0.Obj?
  {
    if stored.Some? && stored.value.Json? && !Nullish(stored.value.v) then
      var state := Get(stored.value.v, "state");
      var vb := GetOpt(state, "viewedBooks");
      if vb.Arr? then Some((state, vb.items)) else None
    else None
  }

  /** The rewritten blob: the same state with an empty history, version 0. */
  function ClearedBookStorage(state: Value): Stored {
    Stringify(Obj(map["state" := Put(state, "viewedBooks", Arr([])), "version" := Num(0)]))
  }

  /** The table after `viewedBooksAPI.add` of each id in turn. */
  function AddAll(rows: seq<Row<Value>>, ids: seq<Value>, firstId: nat, now: nat): seq<Row<Value>>
    decreases |ids|
  {
    if ids == [] then rows
    else AfterAdd(AddAll(rows, ids[..|ids| - 1], firstId, now), ids[|ids| - 1], firstId + |ids| - 1, now, ViewedBooksCap)
  }

  lemma AddAllStep(rows: seq<Row<Value>>, ids: seq<Value>, i: nat, firstId: nat, now: nat)
    requires i < |ids|
    ensures AddAll(rows, ids[..i + 1], firstId, now) ==
              AfterAdd(AddAll(rows, ids[..i], firstId, now), ids[i], firstId + i, now, ViewedBooksCap)
  {
    var pre := ids[..i + 1];
    assert pre[..|pre| - 1] == ids[..i];
    assert pre[|pre| - 1] == ids[i];
  }

  /** One iteration of the loop: the add of the i-th id. */
  method ReplayOne(viewed: StampedTable<Value>, ids: seq<Value>, i: nat, ghost rows0: seq<Row<Value>>, ghost firstId: nat, now: nat)
    requires i < |ids| && viewed.Valid() && viewed.ClockOk(now)
    requires viewed.rows == AddAll(rows0, ids[..i], firstId, now) && viewed.nextId == firstId + i
    modifies viewed
    ensures viewed.Valid() && viewed.ClockOk(now)
    ensures viewed.rows == AddAll(rows0, ids[..i + 1], firstId, now) && viewed.nextId == firstId + i + 1
  {
    AddAllStep(rows0, ids, i, firstId, now);
    ViewedBooksAdd(viewed, ids[i], now);
  }

  /** The `for` loop over the legacy ids: one `viewedBooksAPI.add` each. */
  method ReplayViews(viewed: StampedTable<Value>, ids: seq<Value>, now: nat)
    requires viewed.Valid() && viewed.ClockOk(now)
    modifies viewed
    ensures viewed.Valid() && viewed.ClockOk(now)
    ensures viewed.rows == AddAll(old(viewed.rows), ids, old(viewed.nextId), now)
    ensures viewed.nextId == old(viewed.nextId) + |ids|
  {
    var i := 0;
    while i < |ids|
      invariant 0 <= i <= |ids|
      invariant viewed.Valid() && viewed.ClockOk(now)
      invariant viewed.rows == AddAll(old(viewed.rows), ids[..i], old(viewed.nextId), now)
      invariant viewed.nextId == old(viewed.nextId) + i
    {
      ReplayOne(viewed, ids, i, old(viewed.rows), old(viewed.nextId), now);
      i := i + 1;
    }
    assert ids[..|ids|] == ids;
  }

  method MigrateViewedBooks(ls: Storage, viewed: StampedTable<Value>, now: nat)
    requires viewed.Valid() && viewed.ClockOk(now)
    modifies ls, viewed
    ensures viewed.Valid() && viewed.ClockOk(now)
    ensures var legacy := LegacyViewed(old(ls.GetItem(BookStorageKey)));
            if legacy.Some? then
              && viewed.rows == AddAll(old(viewed.rows), legacy.value.1, old(viewed.nextId), now)
              && viewed.nextId == old(viewed.nextId) + |legacy.value.1|
              && ls.items == old(ls.items)[BookStorageKey := ClearedBookStorage(legacy.value.0)]
            else
              viewed.rows == old(viewed.rows) && viewed.nextId == old(viewed.nextId) && ls.items == old(ls.items)
  {
    var bookStorageData := ls.GetItem(BookStorageKey);
    if bookStorageData.Some? && StoredTruthy(bookStorageData.value) {
      match Parse(bookStorageData.value)
      case None =>
      case Some(parsed) =>
        if !Nullish(parsed) {
          var state := Get(parsed, "state");
          var vb := GetOpt(state, "viewedBooks");
          if vb.Arr? {
            ReplayViews(viewed, vb.items, now);
            ls.SetItem(BookStorageKey, ClearedBookStorage(state));
          }
        }
    }
  }

  lemma KeysAppend(rows: seq<Row<Value>>, x: Row<Value>)
    ensures Keys(rows + [x]) == Keys(rows) + [x.key]
  {
  }

  lemma KeyAbsent(rows: seq<Row<Value>>, k: Value)
    requires k !in Keys(rows)
    ensures forall i :: 0 <= i < |rows| ==> rows[i].key != k
  {
    forall i | 0 <= i < |rows| ensures rows[i].key != k {
      assert Keys(rows)[i] == rows[i].key;
    }
  }

  /** Replaying distinct ids into a table that has room for them and holds none of
      them appends them in order. */
  lemma {:induction false} AddAllAppends(rows: seq<Row<Value>>, ids: seq<Value>, firstId: nat, now: nat)
    requires |rows| + |ids| <= ViewedBooksCap
    requires forall i, j :: 0 <= i < j < |ids| ==> ids[i] != ids[j]
    requires forall i :: 0 <= i < |rows| ==> rows[i].key !in ids
    ensures Keys(AddAll(rows, ids, firstId, now)) == Keys(rows) + ids
    decreases |ids|
  {
    if ids != [] {
      var front := ids[..|ids| - 1];
      var last := ids[|ids| - 1];
      assert Keys(AddAll(rows, front, firstId, now)) == Keys(rows) + front by {
        assert forall i, j :: 0 <= i < j < |front| ==> front[i] != front[j] by {
          forall i, j | 0 <= i < j < |front| ensures front[i] != front[j] {
            assert front[i] == ids[i] && front[j] == ids[j];
          }
        }
        assert forall i :: 0 <= i < |rows| ==> rows[i].key !in front by {
          forall i, j | 0 <= i < |rows| && 0 <= j < |front| ensures front[j] != rows[i].key {
            assert front[j] == ids[j];
          }
        }
        AddAllAppends(rows, front, firstId, now);
      }
      var before := AddAll(rows, front, firstId, now);
      assert last !in Keys(before) by {
        assert last !in front by {
          forall j | 0 <= j < |front| ensures front[j] != last {
            assert front[j] == ids[j];
          }
        }
        assert last !in Keys(rows) by {
          forall j | 0 <= j < |rows| ensures Keys(rows)[j] != last {
            assert Keys(rows)[j] == rows[j].key;
          }
        }
      }
      KeyAbsent(before, last);
      var x := Row(firstId + |ids| - 1, last, now);
      var after := AddAll(rows, ids, firstId, now);
      assert after == before + [x] by {
        assert after == AfterAdd(before, last, x.id, now, ViewedBooksCap);
        AddNewKeyKeepsAll(before, last, x.id, now, ViewedBooksCap);
      }
      KeysAppend(before, x);
      assert Keys(after) == Keys(rows) + front + [last];
      assert ids == front + [last];
    }
  }

  /** The legacy history is most recent first and is replayed front to back, so
      the migrated newest-first listing is the legacy list reversed. */
  lemma MigrationReversesHistory(ids: seq<Value>, firstId: nat, now: nat)
    requires |ids| <= ViewedBooksCap
    requires forall i, j :: 0 <= i < j < |ids| ==> ids[i] != ids[j]
    ensures Keys(NewestFirst(AddAll([], ids, firstId, now), ViewedBooksCap)) == Seqs.Reverse(ids)
  {
    var rows := AddAll([], ids, firstId, now);
    assert Keys(rows) == ids by {
      AddAllAppends([], ids, firstId, now);
      assert Keys<Value>([]) == [];
    }
    NewestFirstKeys(rows, ViewedBooksCap);
  }

  /** When the whole table fits, the newest-first keys are the table's keys reversed. */
  lemma NewestFirstKeys(rows: seq<Row<Value>>, n: nat)
    requires |rows| <= n
    ensures Keys(NewestFirst(rows, n)) == Seqs.Reverse(Keys(rows))
  {
    var r := NewestFirst(rows, n);
    forall i | 0 <= i < |rows| ensures Keys(r)[i] == Seqs.Reverse(Keys(rows))[i] {
      assert r[i] == rows[|rows| - 1 - i];
    }
  }

  // migrateOtherData

  /** The value a legacy entry is copied as: its JSON value, or the raw text. */
  function Migrated(s: Stored): (v: Value)
    ensures s.Raw? ==> v == Str(s.text)
    ensures Parse(s).Some? ==> v == Parse(s).value
  {
    match s
    case Json(v) => v
    case Raw(t) => Str(t)
  }

  /** The userData entries copied from the given legacy keys. */
  function OtherData(items: map<string, Stored>, keys: seq<string>): map<string, Value>
    decreases |keys|
  {
    if keys == [] then map[]
    else
      var k := keys[|keys| - 1];
      OtherData(items, keys[..|keys| - 1]) + (if k in items then map[k := Migrated(items[k])] else map[])
  }

  /** Exactly the listed keys present in the legacy store are copied, as their migrated values. */
  lemma {:induction false} OtherDataEntries(items: map<string, Stored>, keys: seq<string>)
    ensures forall k :: k in OtherData(items, keys) <==> k in keys && k in items
    ensures forall k :: k in OtherData(items, keys) ==> OtherData(items, keys)[k] == Migrated(items[k])
    decreases |keys|
  {
    if keys != [] {
      var front := keys[..|keys| - 1];
      OtherDataEntries(items, front);
      assert keys == front + [keys[|keys| - 1]];
    }
  }

  /** One more key copies that key's entry, when the legacy store has it. */
  lemma OtherDataStep(items: map<string, Stored>, keys: seq<string>, i: nat)
    requires i < |keys|
    ensures OtherData(items, keys[..i + 1]) ==
              OtherData(items, keys[..i]) + (if keys[i] in items then map[keys[i] := Migrated(items[keys[i]])] else map[])
  {
    assert keys[..i + 1][..i] == keys[..i];
  }

  lemma UnionUpdate<K, V>(m: map<K, V>, a: map<K, V>, k: K, v: V)
    ensures (m + a)[k := v] == m + (a + map[k := v])
  {
  }

  /** One iteration of the loop: the i-th legacy key is copied when present. */
  method MigrateOne(ls: Storage, ud: UserData, i: nat, ghost items0: map<string, Value>)
    requires i < |KeysToMigrate|
    requires ud.items == items0 + OtherData(ls.items, KeysToMigrate[..i])
    modifies ud
    ensures ud.items == items0 + OtherData(ls.items, KeysToMigrate[..i + 1])
  {
    var key := KeysToMigrate[i];
    OtherDataStep(ls.items, KeysToMigrate, i);
    var value := ls.GetItem(key);
    if value.Some? {
      ud.Set(key, Migrated(value.value));
      UnionUpdate(items0, OtherData(ls.items, KeysToMigrate[..i]), key, Migrated(value.value));
    }
  }

  method MigrateOtherData(ls: Storage, ud: UserData)
    modifies ud
    ensures ud.items == old(ud.items) + OtherData(ls.items, KeysToMigrate)
  {
    var i := 0;
    while i < |KeysToMigrate|
      invariant 0 <= i <= |KeysToMigrate|
      invariant ud.items == old(ud.items) + OtherData(ls.items, KeysToMigrate[..i])
    {
      MigrateOne(ls, ud, i, old(ud.items));
      i := i + 1;
    }
    assert KeysToMigrate[..|KeysToMigrate|] == KeysToMigrate;
  }

  // checkMigrationStatus, setMigrationCompleted

  /** `checkMigrationStatus()`: the flag must be exactly true. */
  function CheckMigrationStatus(ud: UserData): (done: bool)
    reads ud
    ensures done <==> CompletedKey in ud.items && ud.items[CompletedKey] == Bool(true)
  {
    ud.Get(CompletedKey) == Bool(true)
  }

  method SetMigrationCompleted(ud: UserData, dateText: string)
    modifies ud
    ensures ud.items == old(ud.items)[CompletedKey := Bool(true)][DateKey := Str(dateText)]
    ensures CheckMigrationStatus(ud)
  {
    ud.Set(CompletedKey, Bool(true));
    ud.Set(DateKey, Str(dateText));
  }

  // runMigration, forceMigration

  lemma LegacyKeysDistinct()
    ensures ApiAuthKey !in KeysToMigrate && BookStorageKey !in KeysToMigrate && ApiAuthKey != BookStorageKey
    ensures CompletedKey != DateKey
  {
    assert ApiAuthKey[0] != KeysToMigrate[2][0];
    assert |ApiAuthKey| != |KeysToMigrate[0]| && |ApiAuthKey| != |KeysToMigrate[1]|;
    assert |BookStorageKey| != |KeysToMigrate[0]| && |BookStorageKey| != |KeysToMigrate[1]| && |BookStorageKey| != |KeysToMigrate[2]|;
    assert |ApiAuthKey| != |BookStorageKey|;
    assert |CompletedKey| != |DateKey|;
  }

  /** Copying the listed keys reads the same values after the other sub-steps,
      which touch only 'api_auth' and 'book-storage'. */
  lemma {:induction false} OtherDataUnaffected(a: map<string, Stored>, b: map<string, Stored>, keys: seq<string>)
    requires forall k :: k in keys ==> (k in a <==> k in b) && (k in a ==> a[k] == b[k])
    ensures OtherData(a, keys) == OtherData(b, keys)
    decreases |keys|
  {
    if keys != [] {
      OtherDataUnaffected(a, b, keys[..|keys| - 1]);
    }
  }

  /** The option `getItem` returns for a key of the legacy store. */
  function Lookup(items: map<string, Stored>, key: string): Option<Stored> {
    if key in items then Some(items[key]) else None
  }

  /** The legacy store after the credential and history sub-steps. */
  function StorageAfter(items: map<string, Stored>, authSaveFails: bool): map<string, Stored> {
    var afterAuth := if AuthParses(Lookup(items, ApiAuthKey)) && !authSaveFails
                     then items - {ApiAuthKey} else items;
    var legacy := LegacyViewed(Lookup(items, BookStorageKey));
    if legacy.Some? then afterAuth[BookStorageKey := ClearedBookStorage(legacy.value.0)] else afterAuth
  }

  /** The credentials store after the credential sub-step. */
  function AuthAfter(adItems: map<string, AuthRecord>, items: map<string, Stored>, now: nat, authSaveFails: bool): map<string, AuthRecord> {
    var stored := Lookup(items, ApiAuthKey);
    if AuthParses(stored) && !authSaveFails then
      adItems[CredentialsKey := AuthRecord(CredentialsObject(Get(stored.value.v, "username"), Get(stored.value.v, "password")), now)]
    else adItems
  }

  /** The viewed-books rows and next id after the history sub-step. */
  function ViewedRowsAfter(rows: seq<Row<Value>>, nextId: nat, items: map<string, Stored>, now: nat): seq<Row<Value>> {
    var legacy := LegacyViewed(Lookup(items, BookStorageKey));
    if legacy.Some? then AddAll(rows, legacy.value.1, nextId, now) else rows
  }

  function ViewedNextAfter(nextId: nat, items: map<string, Stored>): nat {
    var legacy := LegacyViewed(Lookup(items, BookStorageKey));
    if legacy.Some? then nextId + |legacy.value.1| else nextId
  }

  /** The user-data store after the copy and the flag write. */
  function UserDataAfter(udItems: map<string, Value>, items: map<string, Stored>, dateText: string): map<string, Value> {
    (udItems + OtherData(items, KeysToMigrate))[CompletedKey := Bool(true)][DateKey := Str(dateText)]
  }

  /** `runMigration()`: nothing happens when the flag is already set; otherwise the
      three sub-steps run, the flag and date are written, and the run succeeds
      whatever the sub-steps met. */
  method RunMigration(ls: Storage, ud: UserData, ad: AuthData, viewed: StampedTable<Value>,
                      now: nat, dateText: string, authSaveFails: bool) returns (r: MigrationResult)
    requires viewed.Valid() && viewed.ClockOk(now)
    modifies ls, ud, ad, viewed
    ensures viewed.Valid() && viewed.ClockOk(now)
    ensures old(CheckMigrationStatus(ud)) ==>
              && r == MigrationResult(true, true)
              && ls.items == old(ls.items) && ud.items == old(ud.items) && ad.items == old(ad.items)
              && viewed.rows == old(viewed.rows) && viewed.nextId == old(viewed.nextId)
    ensures !old(CheckMigrationStatus(ud)) ==>
              && r == MigrationResult(true, false)
              && CheckMigrationStatus(ud)
              && ls.items == StorageAfter(old(ls.items), authSaveFails)
              && ud.items == UserDataAfter(old(ud.items), old(ls.items), dateText)
              && ad.items == AuthAfter(old(ad.items), old(ls.items), now, authSaveFails)
              && viewed.rows == ViewedRowsAfter(old(viewed.rows), old(viewed.nextId), old(ls.items), now)
              && viewed.nextId == ViewedNextAfter(old(viewed.nextId), old(ls.items))
  {
    if CheckMigrationStatus(ud) {
      return MigrationResult(true, true);
    }
    ghost var items0 := ls.items;
    LegacyKeysDistinct();
    MigrateAuthData(ls, ad, now, authSaveFails);
    MigrateViewedBooks(ls, viewed, now);
    OtherDataUnaffected(ls.items, items0, KeysToMigrate);
    MigrateOtherData(ls, ud);
    SetMigrationCompleted(ud, dateText);
    return MigrationResult(true, false);
  }

  /** `forceMigration()`: drops the flag, then runs as a first run would. */
  method ForceMigration(ls: Storage, ud: UserData, ad: AuthData, viewed: StampedTable<Value>,
                        now: nat, dateText: string, authSaveFails: bool) returns (r: MigrationResult)
    requires viewed.Valid() && viewed.ClockOk(now)
    modifies ls, ud, ad, viewed
    ensures viewed.Valid() && viewed.ClockOk(now)
    ensures r == MigrationResult(true, false)
    ensures CheckMigrationStatus(ud)
    ensures ls.items == StorageAfter(old(ls.items), authSaveFails)
    ensures ud.items == UserDataAfter(old(ud.items) - {CompletedKey}, old(ls.items), dateText)
    ensures ad.items == AuthAfter(old(ad.items), old(ls.items), now, authSaveFails)
    ensures viewed.rows == ViewedRowsAfter(old(viewed.rows), old(viewed.nextId), old(ls.items), now)
    ensures viewed.nextId == ViewedNextAfter(old(viewed.nextId), old(ls.items))
  {
    ud.Remove(CompletedKey);
    r := RunMigration(ls, ud, ad, viewed, now, dateText, authSaveFails);
  }

  /** A second run right after a first changes nothing and reports the earlier
      migration: both stores, the credentials and the history end as the first
      run left them. */
  method RunTwice(ls: Storage, ud: UserData, ad: AuthData, viewed: StampedTable<Value>,
                  now: nat, dateText: string, authSaveFails: bool) returns (first: MigrationResult, second: MigrationResult)
    requires viewed.Valid() && viewed.ClockOk(now)
    modifies ls, ud, ad, viewed
    ensures first == MigrationResult(true, old(CheckMigrationStatus(ud)))
    ensures second == MigrationResult(true, true)
    ensures old(CheckMigrationStatus(ud)) ==>
              && ls.items == old(ls.items) && ud.items == old(ud.items) && ad.items == old(ad.items)
              && viewed.rows == old(viewed.rows) && viewed.nextId == old(viewed.nextId)
    ensures !old(CheckMigrationStatus(ud)) ==>
              && ls.items == StorageAfter(old(ls.items), authSaveFails)
              && ud.items == UserDataAfter(old(ud.items), old(ls.items), dateText)
              && ad.items == AuthAfter(old(ad.items), old(ls.items), now, authSaveFails)
              && viewed.rows == ViewedRowsAfter(old(viewed.rows), old(viewed.nextId), old(ls.items), now)
              && viewed.nextId == ViewedNextAfter(old(viewed.nextId), old(ls.items))
  {
    first := RunMigration(ls, ud, ad, viewed, now, dateText, authSaveFails);
    ghost var lsItems, udItems, adItems, rows, nextId := ls.items, ud.items, ad.items, viewed.rows, viewed.nextId;
    second := RunMigration(ls, ud, ad, viewed, now, dateText, authSaveFails);
    assert ls.items == lsItems && ud.items == udItems && ad.items == adItems;
    assert viewed.rows == rows && viewed.nextId == nextId;
  }
}
