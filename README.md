# Catalogist of books — a Dafny model

Catalogist of books is a React book catalog. It lists books fetched from a REST backend, then filters, sorts and pages them. It remembers the books a reader has looked at, lets an administrator create, edit and delete books, authors and genres, and has a Socket.IO chat, both as a sidebar, a page and a `<book-chat>` web component.

This project models the logic behind those screens and proves what it promises:

- **Stores.** The chat store and the persisted catalog store (Zustand), and the catalog store built on the IndexedDB `viewedBooks` table.
- **Local data.** Credentials kept in `localStorage` and in IndexedDB. The Dexie tables of the local database, with their caps and newest-first listings. The one-shot migration of legacy `localStorage` data into those tables.
- **REST client.** The service addresses, the REST paths, the axios client's request and error policy, and the adapter between the backend's records and the application's books, authors and genres.
- **Validation.** The Zod schemas and their error formatting.
- **Chat.** The message handling shared by the chat views: link detection, the username rules, the send payload. The state machines of the sidebar, the page and the web component, as classes whose methods are the React effects, the handlers and the socket events.
- **Pages.** The home page's filter, sort and infinite scroll; the book page's similar books; the filter panel and the multiple select; and the admin tables, pager, delete confirmation, form initialisation, validation and payload.

JavaScript values are the datatype `Js.Value`. An expression that can raise a TypeError returns a `Js.Result`, so that the model keeps every throw the code can make. A number is an integer and NaN is `None`.

Where the repository's tests expect something other than the code does, the model follows the code and states the difference as a lemma:

- the adapter prefixes a relative image with "/images/", while a test expects "/image/" (`ApiAdapter.RelativeImageNotUnderImage`);
- going back to the API keeps that prefix, while a test expects it removed (`ApiAdapter.ToApiKeepsImagePrefix`).

The same holds where two parts of the code disagree:

- the admin form accepts ratings from 0 to 10 while the book schema accepts 0 to 5 (`Validation.RatingBound`);
- the home page compares string selections with numeric ids by `===` (`HomePage.StringSelectionMissesNumericIds`);
- the migration adds the legacy newest-first history in list order, so the newest old entry ends up oldest (`Migration.MigrationReversesHistory`).

## Model

| member | source | states |
|---|---|---|
| ChatStore.Initial | src/stores/useChatStore.js:4-7 | the store starts with no messages, disconnected, an empty online list and no unread messages |
| ChatStore.AddMessage | src/stores/useChatStore.js:9-13 | the message is appended at the end and the unread count goes up by one; connection and online users are untouched |
| ChatStore.SetMessages | src/stores/useChatStore.js:15 | the history replaces the messages and nothing else changes |
| ChatStore.SetConnected | src/stores/useChatStore.js:17 | only the connection flag changes |
| ChatStore.SetOnlineUsers | src/stores/useChatStore.js:19 | only the online-user list changes |
| ChatStore.ResetUnreadCount | src/stores/useChatStore.js:21 | the unread count becomes 0 and nothing else changes |
| ChatStore.ClearMessages | src/stores/useChatStore.js:23 | messages become empty and the unread count 0, connection and online users kept |
| ChatStore.AddMessagesAppends | src/stores/useChatStore.js:9-13 | a run of incoming messages is appended in arrival order and raises the unread count by the number received |
| ChatStore.UnreadSinceReset | src/stores/useChatStore.js:9-21 | after a reset the unread count equals the number of messages received since, and the log keeps the older messages |
| ChatStore.ClearThenReceive | src/stores/useChatStore.js:9-23 | after clearing, the messages are exactly those received since and all of them are unread |
| BookStore.AddViewedProperties | src/stores/useBookStore.js:9-13 | the viewed list starts with the book, never repeats it after the head, holds at most 10 entries and continues with the earlier list minus the book, truncated to 9 |
| BookStore.AddViewedIdempotent | src/stores/useBookStore.js:9-13 | viewing the same book twice in a row leaves the list as after the first view |
| BookStore.AddViewedNoDup | src/stores/useBookStore.js:9-13 | a history without duplicates stays without duplicates |
| BookStore.AddViewedBook | src/stores/useBookStore.js:9-13 | only `viewedBooks` changes, to the list described above |
| BookStore.ResetFilters | src/stores/useBookStore.js:32-39 | query "", genre, author and year null, sort by title; the viewed list is kept |
| BookStore.ResetIsInitialFilters | src/stores/useBookStore.js:4-39 | resetting gives the initial filter state with the current history, and resetting twice equals resetting once |
| BookStore.PartializeKeepsOnlyHistory | src/stores/useBookStore.js:41-44 | two states persist to the same value exactly when their viewed lists agree, so filters are never persisted |
| BookStore.AddViewedBookKeepsHistoryOk | src/stores/useBookStore.js:9-13 | a history that is duplicate-free and within the cap stays so after a view |
| BookStore.PersistedHistoryFound | src/stores/useBookStore.js:41-44 | what the store persists under 'book-storage' is what the migration reads back as the old history |
| BookStore.PersistedHistoryMigratesReversed | src/db/migration.js:25-41 | migrating the persisted history stores rows whose newest-first listing is the old list reversed (the oldest old entry ends up newest) |
| Auth.SaveAuthCredentials | src/utils/auth.js:9-17 | on success the key 'api_auth' holds the JSON of {username, password} and reading it back gives that object; a failing storage changes nothing and reports false |
| Auth.GetAuthCredentials | src/utils/auth.js:22-32 | null when the key is missing or its text does not parse; otherwise the parsed value |
| Auth.ClearAuthCredentials | src/utils/auth.js:37-45 | on success the key is removed and credentials are no longer present; on failure nothing changes |
| Auth.HasCredentialsIff | src/utils/auth.js:50-52 | credentials are present exactly when the key holds parseable JSON that is not null |
| ApiConfig.ApiConfigFor | src/config/api.js:1-20 | production talks to "/api" and "/api-docs" through the proxy and has sockets off; development talks to the host directly and has sockets on; socket URLs are fixed |
| ApiConfig.RestApiTarget | src/config/api.js:10 | the REST base is the external host exactly in development and a relative path exactly in production |
| ApiConfig.BookById | src/config/api.js:27 | the single-book URL starts with the books collection and its query `?id=` carries the id as text |
| ApiConfig.AuthorById | src/config/api.js:29 | the single-author URL starts with the authors collection and its query `?id=` carries the id as text |
| ApiConfig.GenreById | src/config/api.js:31 | the single-genre URL starts with the genres collection and its query `?id=` carries the id as text |
| ApiConfig.ByIdUnderCollection | src/config/api.js:25-31 | each by-id endpoint lies under its collection path |
| ApiConfig.ImagesIsImagePath | src/config/api.js:32 | the images endpoint is the "/image/" path |
| ApiConfig.NumericByIdIsNotImagePath | src/config/api.js:25-32 | no by-id endpoint for a numeric id can be taken for the image path |
| ApiConfig.QueryOfById | src/config/api.js:27-31 | the query read back from a by-id URL is the id text it was built from |
| ApiConfig.NumericByIdRoundTrip | src/config/api.js:27-31 | a numeric id is recovered from each by-id URL by parsing its query |
| ApiConfig.NumericByIdInjective | src/config/api.js:27-31 | two numeric ids give the same by-id URL exactly when they are equal |
| LocalStorage.Parse | src/utils/auth.js:24-27 | parsing succeeds exactly on text written as JSON and gives back the value written |
| LocalStorage.Stringify | src/utils/auth.js:11 | stringified text is truthy and parses back to the value |
| ChatLinks.UsernameError | src/components/Chat/ChatSidebar.jsx:100-115 | a name is accepted exactly when its trimmed length is 2 to 30; an empty, short or long name gets its own message, in that order |
| ChatLinks.DigitRun | src/components/Chat/ChatSidebar.jsx:125 | the `\d+` run is a digits-only prefix followed by a non-digit or the end |
| ChatLinks.LinkLength | src/components/Chat/ChatSidebar.jsx:125 | a matched link is longer than "/book?id=" and fits in the text |
| ChatLinks.BookIdsAreDigits | src/components/Chat/ChatSidebar.jsx:125-129 | every id captured by the link pattern is a non-empty run of digits |
| ChatLinks.StripLinks | src/components/Chat/ChatSidebar.jsx:282-283 | removing links never lengthens the text |
| ChatLinks.ScanAppend | src/components/Chat/ChatSidebar.jsx:125-129 | the captured ids and the link-free text of a + t are those of a followed by those of t when t starts at a '/' or is empty |
| ChatLinks.ScanLink | src/components/Chat/ChatSidebar.jsx:125-129 | "/book?id=" + digits, then text not starting with a digit, yields those digits as the first id and is removed entirely |
| ChatLinks.ScanPlain | src/components/Chat/ChatSidebar.jsx:125-129 | text without '/' has no ids and is left as it is |
| ChatLinks.ScanLinks | src/components/Chat/ChatSidebar.jsx:125-129 | a text made of links, each followed by non-link text, yields exactly the links' ids and strips to the texts between them |
| ChatLinks.ComposedMessage | src/components/Chat/ChatSidebar.jsx:125-129 | a plain prefix followed by links yields exactly the links' ids in order, and strips to the prefix and the texts between |
| ChatLinks.IdValues | src/components/Chat/ChatSidebar.jsx:129 | the emitted ids are the captured strings, one for one |
| ChatLinks.SendPayload | src/components/Chat/ChatSidebar.jsx:131-135 | the payload carries the raw input and the user name; `bookIds` is absent when no link matched and otherwise the captured ids |
| ChatLinks.MessageText | src/components/Chat/ChatSidebar.jsx:281 | the text shown is `text` if truthy, else `message` if truthy, else "" |
| ChatLinks.DisplayText | src/components/Chat/ChatSidebar.jsx:281-283 | a null message throws; otherwise the text is shown when it is a string, with links removed and trimmed |
| ChatLinks.IdIsNumber | src/components/Chat/ChatSidebar.jsx:277 | the find callback throws on a null book and otherwise answers whether the book's id equals Number(id) |
| ChatLinks.BookLinks | src/components/Chat/ChatSidebar.jsx:275-279 | falsy `bookIds` shows no books; a truthy non-array throws; every book shown comes from the list, is truthy and has an id equal to Number of one of the ids |
| ChatLinks.FindLinkedIsFirst | src/components/Chat/ChatSidebar.jsx:277 | the lookup of one id gives the first book with that numeric id, or undefined |
| ChatLinks.BookLinksAreLinked | src/components/Chat/ChatSidebar.jsx:276-278 | mapping the ids to books and dropping misses equals the reference list of first matches, one per id that has one |
| ChatLinks.SentIdsResolve | src/components/Chat/ChatSidebar.jsx:129-135 | the ids a sent message carries resolve to the reference list of books for the captured ids |
| ChatLinks.BookLinksOfArray | src/components/Chat/ChatSidebar.jsx:275-279 | an id array resolves without error to the reference list of first matches |
| ChatLinks.IsOwn | src/components/Chat/ChatSidebar.jsx:267 | a message is one's own exactly when its username is the current name |
| ChatLinks.ShowMessage | src/components/Chat/ChatSidebar.jsx:266-283 | a null message throws; rendering succeeds exactly when the text and the book links both do, and then shows exactly that text, those books and whether the message is one's own |
| ChatLinks.EchoedPayloadShows | src/components/Chat/ChatSidebar.jsx:121-138 | a sent message echoed back to its sender shows as own, with the link-free trimmed input and the books for the captured ids |
| ChatLinks.EchoedMessageShows | src/components/Chat/ChatSidebar.jsx:121-138 | for a prefix followed by links, the echo shows the prefix and the texts between links, and exactly the books of those links |
| ChatSidebar.ChatSidebar.constructor | src/components/Chat/ChatSidebar.jsx:23-29 | the sidebar starts closed, with empty inputs, the name form shown and no socket |
| ChatSidebar.ChatSidebar.UsernameInput | src/components/Chat/ChatSidebar.jsx:199-202 | typing a name sets it and clears the name error |
| ChatSidebar.ChatSidebar.MessageInput | src/components/Chat/ChatSidebar.jsx:243 | typing a message sets the input |
| ChatSidebar.ChatSidebar.UsernameSubmit | src/components/Chat/ChatSidebar.jsx:98-119 | a rejected name sets its error and keeps the form; an accepted one clears the error and hides the form |
| ChatSidebar.ChatSidebar.ConnectEffect | src/components/Chat/ChatSidebar.jsx:36-45 | a socket exists afterwards exactly when one existed or the form is hidden and a name is set |
| ChatSidebar.ChatSidebar.ConnectCleanup | src/components/Chat/ChatSidebar.jsx:76-79 | the cleanup marks the store disconnected |
| ChatSidebar.ChatSidebar.OnConnect | src/components/Chat/ChatSidebar.jsx:47-51 | on connect the store is connected and 'user:join' with the name is emitted |
| ChatSidebar.ChatSidebar.OnDisconnect | src/components/Chat/ChatSidebar.jsx:53-56 | on disconnect the store is disconnected |
| ChatSidebar.ChatSidebar.OnNewMessage | src/components/Chat/ChatSidebar.jsx:58-61 | a new message is added to the store |
| ChatSidebar.ChatSidebar.OnHistory | src/components/Chat/ChatSidebar.jsx:63-66 | the history replaces the store's messages |
| ChatSidebar.ChatSidebar.OnUsersOnline | src/components/Chat/ChatSidebar.jsx:68-70 | the online list is replaced |
| ChatSidebar.ChatSidebar.UnreadEffect | src/components/Chat/ChatSidebar.jsx:88-92 | while connected and open the unread count is reset; otherwise nothing changes |
| ChatSidebar.ChatSidebar.SendMessage | src/components/Chat/ChatSidebar.jsx:121-138 | blank input, no socket or no connection changes nothing; otherwise one 'message:send' with the payload is emitted and the input cleared |
| ChatSidebar.ChatSidebar.Toggle | src/components/Chat/ChatSidebar.jsx:140-146 | the open flag flips and opening resets the unread count |
| ChatSidebar.ChatSidebar.ToggleTwice | src/components/Chat/ChatSidebar.jsx:140-146 | two toggles restore the open flag and keep messages and connection |
| ChatPage.ChatPage.constructor | src/pages/ChatPage.jsx:25-30 | the page starts with empty inputs, the name form shown and no socket |
| ChatPage.ChatPage.UsernameInput | src/pages/ChatPage.jsx:153-156 | typing a name sets it and clears the name error |
| ChatPage.ChatPage.MessageInput | src/pages/ChatPage.jsx:221 | typing a message sets the input |
| ChatPage.ChatPage.UsernameSubmit | src/pages/ChatPage.jsx:100-121 | a rejected name sets its error and keeps the form; an accepted one clears the error and hides the form |
| ChatPage.ChatPage.ConnectEffect | src/pages/ChatPage.jsx:37-47 | a socket exists afterwards exactly when one existed or the form is hidden and a name is set |
| ChatPage.ChatPage.ConnectCleanup | src/pages/ChatPage.jsx:78-81 | the cleanup marks the store disconnected |
| ChatPage.ChatPage.OnConnect | src/pages/ChatPage.jsx:49-53 | on connect the store is connected and 'user:join' with the name is emitted |
| ChatPage.ChatPage.OnDisconnect | src/pages/ChatPage.jsx:55-58 | on disconnect the store is disconnected |
| ChatPage.ChatPage.OnNewMessage | src/pages/ChatPage.jsx:60-63 | a new message is added to the store |
| ChatPage.ChatPage.OnHistory | src/pages/ChatPage.jsx:65-68 | the history replaces the store's messages |
| ChatPage.ChatPage.OnUsersOnline | src/pages/ChatPage.jsx:70-72 | the online list is replaced |
| ChatPage.ChatPage.UnreadEffect | src/pages/ChatPage.jsx:90-94 | whenever connected the unread count is reset; otherwise nothing changes |
| ChatPage.ChatPage.SendMessage | src/pages/ChatPage.jsx:123-141 | blank input, no socket or no connection changes nothing; otherwise one 'message:send' with the payload is emitted and the input cleared |
| AuthDb.SaveAuthCredentials | src/utils/authIndexDB.js:11-19 | on success the 'credentials' record holds {username, password} stamped now and reads back as that object; a failing database changes nothing and reports false |
| AuthDb.GetAuthCredentials | src/utils/authIndexDB.js:24-31 | a failing read gives null; otherwise the stored credentials object or null |
| AuthDb.ClearAuthCredentials | src/utils/authIndexDB.js:36-44 | on success the record is removed and no credentials remain; on failure nothing changes |
| AuthDb.HasAuthCredentials | src/utils/authIndexDB.js:49-56 | true exactly when the read succeeds and finds credentials |
| AuthDb.AuthCache.constructor | src/utils/authIndexDB.js:62-63 | the cache starts empty and uninitialised |
| AuthDb.AuthCache.InitAuthCache | src/utils/authIndexDB.js:65-70 | the first call loads the stored credentials (null on failure) and marks the cache initialised; later calls keep the cached value |
| AuthDb.AuthCache.SaveSync | src/utils/authIndexDB.js:76-82 | a successful save updates both the database and the cache to the new object; a failed one changes neither |
| AuthDb.AuthCache.ClearSync | src/utils/authIndexDB.js:84-90 | a successful clear empties both the database and the cache; a failed one changes neither |
| AuthDb.InitTwiceKeepsFirstReading | src/utils/authIndexDB.js:65-74 | credentials saved through the asynchronous API after the cache was filled are in the database but the synchronous read still returns null |
| BookStoreDb.ListingAfterAdd | src/db/database.js:47-73 | after an add, the newest-first listing starts with the book, does not repeat it and holds at most 10 entries |
| BookStoreDb.BookStoreDb.constructor | src/stores/useBookStoreIndexDB.js:8-63 | the store starts with no history, query "", no genre, author or year, sorted by title |
| BookStoreDb.BookStoreDb.LoadViewedBooks | src/stores/useBookStoreIndexDB.js:13-20 | the history becomes the table's book ids, newest first; a failing read leaves it unchanged |
| BookStoreDb.BookStoreDb.AddViewedBook | src/stores/useBookStoreIndexDB.js:23-37 | on success the table is updated as the database add does and the history is the reloaded listing, headed by the book; on failure the table is untouched and the history is updated as the in-memory store does |
| BookStoreDb.BookStoreDb.ClearViewedBooks | src/stores/useBookStoreIndexDB.js:40-47 | on success both the table and the history are emptied; on failure neither changes |
| BookStoreDb.BookStoreDb.ResetFilters | src/stores/useBookStoreIndexDB.js:66-73 | the filters return to their defaults and the history is kept |
| Database.FilterKeepsOrder | src/db/database.js:62-65 | deleting the rows matching a condition keeps ids increasing and stamps in order |
| Database.Keys | src/stores/useBookStoreIndexDB.js:16 | the listing's keys are the rows' book ids one for one |
| Database.NewestFirstOrdered | src/db/database.js:52-58 | `orderBy(stamp).reverse().limit(n)` returns at most n rows, newest first, namely the last rows stored in reverse |
| Database.WithoutIdRemovesOne | src/db/database.js:81 | deleting by the id of one row removes exactly that row |
| Database.SplitIdsDistinct | src/db/database.js:14 | auto-incremented ids are distinct, so a row's id occurs nowhere else in the table |
| Database.StampedTable.constructor | src/db/database.js:12-28 | a new table is empty and its next id is 1 |
| Database.StampedTable.DeleteKey | src/db/database.js:62-65 | `where(key).equals(k).delete()` removes exactly the rows with that key |
| Database.StampedTable.DeleteId | src/db/database.js:81 | `delete(id)` removes exactly the row with that id |
| Database.StampedTable.Add | src/db/database.js:68-71 | `add` appends a row with the next id and the current stamp, and advances the id |
| Database.StampedTable.Clear | src/db/database.js:86 | the table becomes empty; ids are not reused |
| Database.StampedTable.KeepNewest | src/db/database.js:74-82 | deleting every row past the newest n, one id at a time, leaves exactly the newest n |
| Database.AfterAddProperties | src/db/database.js:60-83 | after an add at most cap rows remain, the newest is the new view, no other row has its key and the others are the newest older rows with other keys |
| Database.LastNOfAppended | src/db/database.js:74-82 | keeping the newest n of rows plus a new one keeps the new one last and takes the rest from the older rows |
| Database.AfterAddExactlyOnce | src/db/database.js:60-83 | after an add the key occurs exactly once in the table |
| Database.AfterAddTwice | src/db/database.js:60-83 | adding the same key twice leaves the same keys as adding it once |
| Database.AddNewKeyKeepsAll | src/db/database.js:60-83 | with room left, adding an absent key keeps every row and appends the new one |
| Database.ViewedBooksAdd | src/db/database.js:60-83 | the table becomes AfterAdd of its old rows with cap 10, and the next id advances by one |
| Database.ViewedBooksClear | src/db/database.js:85-87 | the table becomes empty |
| Database.ViewedBooksGetAll | src/db/database.js:52-58 | read backwards the listing is the 10 last stored views, so newest first by stamp when the stamps are in order |
| Database.AfterAdd | src/db/database.js:60-83 | after an add at most cap rows remain, each either the new view or an earlier row of another key |
| Database.SearchHistoryAdd | src/db/database.js:125-150 | a query that is empty or blank after trimming changes nothing; otherwise the table becomes AfterAdd with cap 20 |
| Database.SearchHistoryClear | src/db/database.js:152-154 | the table becomes empty |
| Database.SearchHistoryGetRecent | src/db/database.js:117-123 | read backwards the listing is the last `limit` stored searches, so newest first by stamp when the stamps are in order |
| Database.IgnoredQuery | src/db/database.js:126 | a query is ignored exactly when it consists only of white space (the empty query included) |
| Database.UntrimmedQueriesAreDistinct | src/db/database.js:125-150 | duplicates are found on the untrimmed text, so "rust" and " rust" are kept as two entries |
| Database.UserData.constructor | src/db/database.js:18 | the table starts empty |
| Database.UserData.Get | src/db/database.js:32-35 | the stored value of the key, null when the key is missing |
| Database.UserData.Set | src/db/database.js:37-39 | the key now reads as the value and no other key changes |
| Database.UserData.Remove | src/db/database.js:41-43 | the key now reads as null and no other key changes |
| Database.UserData.Clear | src/db/database.js:45-47 | the table becomes empty |
| Database.AuthData.constructor | src/db/database.js:24 | the table starts empty |
| Database.AuthData.GetCredentials | src/db/database.js:92-95 | the value of the 'credentials' record, null when it is missing |
| Database.AuthData.SaveCredentials | src/db/database.js:97-103 | the 'credentials' record becomes {username, password} stamped now, and credentials are present |
| Database.AuthData.ClearCredentials | src/db/database.js:105-107 | the record is removed and credentials are absent |
| Database.AuthData.HasCredentials | src/db/database.js:109-112 | credentials are present exactly when a 'credentials' record holds a non-null value |
| Database.KeyLessTransitive | src/db/database.js:15 | the primary-key order of the book cache is transitive |
| Database.Upsert | src/db/database.js:164-167 | `put` keeps the cache ordered by key, contains the new record and keeps every record with another key and nothing else |
| Database.FindKey | src/db/database.js:159-161 | a lookup returns a record with that key from the cache, or reports that none has it |
| Database.FindKeyUnique | src/db/database.js:159-161 | in an ordered cache a lookup returns the one record with the key |
| Database.BookCache.constructor | src/db/database.js:15 | the cache starts empty |
| Database.BookCache.GetEntry | src/db/database.js:159-161 | `get(id)` gives the record stored under that key, undefined when none is |
| Database.BookCache.GetAll | src/db/database.js:170-172 | every cached record, in key order |
| Database.BookCache.Set | src/db/database.js:163-168 | a book with a valid key is stored with `createdAt` set to the current date text, replacing the record with that key, and `get` then returns exactly that record; a book without a valid key is refused and nothing changes |
| Database.BookCache.Clear | src/db/database.js:174-176 | the cache becomes empty |
| Database.BookCache.RemoveOld | src/db/database.js:178-186 | exactly the records created before the cutoff (now minus the given days) are removed |
| Database.Cutoff | src/db/database.js:179-180 | the cutoff lies at or before now for a non-negative age, at or after it for a negative one, and one day back for an age of 1 |
| Database.FilterKeepsCacheOrder | src/db/database.js:182-185 | removing records keeps the key order |
| Database.ChatMessages.constructor | src/db/database.js:27 | the table starts empty with next id 1 |
| Database.ChatMessages.GetAll | src/db/database.js:191-195 | the messages whose timestamp is a valid index key, each once, in ascending timestamp order |
| Database.ChatMessages.GetRecent | src/db/database.js:208-214 | `orderBy(timestamp).reverse().limit(limit)`: read backwards it is the last `limit` messages of getAll, so at most `limit` rows, newest first |
| Database.ChatMessages.Add | src/db/database.js:197-202 | a null or undefined message throws and changes nothing; otherwise the record `{...message, timestamp}` is appended under the next id |
| Database.ChatMessages.Clear | src/db/database.js:204-206 | the table becomes empty |
| Database.ChatRecord | src/db/database.js:197-202 | the stored record keeps every field of the message and its truthy timestamp, else takes the current instant's text; its stamp is a valid index key exactly when the message has no truthy timestamp or a string or numeric one |
| Database.ReverseTakeReverse | src/db/database.js:208-214 | the first n of a reversed list, read backwards, are its last n |
| Database.RecentOrder | src/db/database.js:208-214 | the newest entries of an ascending list come out in descending order and are entries of the list |
| Migration.MigrateAuthData | src/db/migration.js:10-23 | when 'api_auth' holds JSON and the save succeeds, its username and password are saved as credentials stamped now and the key is removed; otherwise neither store changes |
| Migration.LegacyViewed | src/db/migration.js:30-33 | the old history is found only when 'book-storage' parses to an object whose `state` is an object with an array `viewedBooks` |
| Migration.ReplayViews | src/db/migration.js:35-37 | each old entry is added in turn with the viewed-books add, the table ending as all those adds in sequence |
| Migration.MigrateViewedBooks | src/db/migration.js:28-48 | with an old history the views are replayed and 'book-storage' is rewritten with an empty `viewedBooks`, the rest of the state kept; without it nothing changes |
| Migration.AddAllAppends | src/db/migration.js:35-37 | replaying distinct ids into room left keeps the existing keys and appends the ids in order |
| Migration.MigrationReversesHistory | src/db/migration.js:35-37 | replaying a newest-first history of at most 10 distinct ids gives a newest-first listing that is the history reversed |
| Migration.NewestFirstKeys | src/db/database.js:52-58 | when every row fits in the limit, the newest-first listing is the keys in reverse |
| Migration.Migrated | src/db/migration.js:64-72 | a value that parses as JSON is migrated as the parsed value and any other text as the string itself |
| Migration.OtherDataEntries | src/db/migration.js:56-75 | exactly the listed keys present in localStorage are copied, each as its migrated value |
| Migration.MigrateOtherData | src/db/migration.js:53-79 | the user data gains exactly the copied entries for 'user_preferences', 'theme' and 'language' and keeps everything else |
| Migration.CheckMigrationStatus | src/db/migration.js:84-92 | migration counts as done exactly when 'migration_completed' is stored as `true` |
| Migration.SetMigrationCompleted | src/db/migration.js:97-104 | 'migration_completed' becomes true and 'migration_date' the date text; afterwards the status reads done |
| Migration.LegacyKeysDistinct | src/db/migration.js:12-60 | the three migrations touch different localStorage keys |
| Migration.OtherDataUnaffected | src/db/migration.js:53-79 | the copy of other data depends only on the listed keys, so the other two migrations cannot change it |
| Migration.RunMigration | src/db/migration.js:110-139 | an already migrated database is left untouched and reported as such; otherwise the legacy store, user data, credentials and viewed history become what the three migrations and the flag write make of them, and the result is success, not already migrated |
| Migration.ForceMigration | src/db/migration.js:144-147 | the flag is removed first, so every store ends as after a first run from the current state, and the flag ends set |
| Migration.RunTwice | src/db/migration.js:110-118 | a second run reports that migration already happened and leaves every store, the credentials and the history as the first run left them |
| ApiAdapter.ImageUrl | src/utils/apiAdapter.js:10-19 | a falsy image gives null; a truthy non-string throws; "http…" and "/…" are kept; any other name is prefixed with "/images/" |
| ApiAdapter.AuthorEntry | src/utils/apiAdapter.js:30-33 | an author entry has exactly `id` and `name`, the name being `full_name`, else `name`, else the raw element |
| ApiAdapter.GenreEntry | src/utils/apiAdapter.js:37-40 | a genre entry has exactly `id` and `name`, the name being `name`, else the raw element |
| ApiAdapter.MapEntries | src/utils/apiAdapter.js:30-40 | mapping throws exactly when some element is null or undefined; otherwise one entry per element, in order |
| ApiAdapter.EntryList | src/utils/apiAdapter.js:29-41 | a truthy embedded list throws unless it is an array of non-null elements and maps one-for-one; a falsy one falls back to the app-side list, else [] |
| ApiAdapter.BookFromApi | src/utils/apiAdapter.js:6-44 | a falsy book gives null; a book throws exactly when its image or its lists do; otherwise each field is taken with its `||` fallbacks as the code lists them |
| ApiAdapter.AppBook | src/utils/apiAdapter.js:21-43 | the adapted object's fields and their fallbacks; no `authorIds` or `genreIds` are produced |
| ApiAdapter.MapBooks | src/utils/apiAdapter.js:49 | the books are adapted one for one; the map throws exactly when one of them does |
| ApiAdapter.BooksFromApi | src/utils/apiAdapter.js:47-50 | a non-array gives []; an array is adapted element by element and throws exactly when an element does |
| ApiAdapter.AuthorFromApi | src/utils/apiAdapter.js:65-71 | null exactly for a falsy author, otherwise the same entry as inside a book |
| ApiAdapter.GenreFromApi | src/utils/apiAdapter.js:80-86 | null exactly for a falsy genre, otherwise the same entry as inside a book |
| ApiAdapter.AuthorsFromApi | src/utils/apiAdapter.js:74-77 | a non-array gives []; an array is adapted element by element |
| ApiAdapter.GenresFromApi | src/utils/apiAdapter.js:89-92 | a non-array gives []; an array is adapted element by element |
| ApiAdapter.IdOf | src/utils/apiAdapter.js:59-60 | an object-typed entry gives its `id` (null throws, as `typeof null` is 'object'); any other entry is its own id |
| ApiAdapter.MapIds | src/utils/apiAdapter.js:59-60 | the ids are collected one for one and the map throws exactly on a null entry |
| ApiAdapter.IdList | src/utils/apiAdapter.js:59-60 | an id array is sent as it is; otherwise the ids of the objects, [] when there are none, throwing where the code does |
| ApiAdapter.BookToApi | src/utils/apiAdapter.js:53-62 | the API book has exactly name, year_of_release, description, image, genre and author, each with its fallback; a null book or a throwing id list throws |
| ApiAdapter.ImageUrlAbsolute | src/utils/apiAdapter.js:10-19 | every image URL produced is a string starting with "http" or "/" |
| ApiAdapter.ImageUrlIdempotent | src/utils/apiAdapter.js:10-19 | adapting an adapted image URL again changes nothing |
| ApiAdapter.RelativeImageUsesImagesDirectory | src/utils/apiAdapter.js:17 | "relative.jpg" becomes "/images/relative.jpg" |
| ApiAdapter.RelativeImageNotUnderImage | src/utils/apiAdapter.test.js:79 | that URL does not contain "/image/relative.jpg", the text the test expects |
| ApiAdapter.ToApiKeepsImagePrefix | src/utils/apiAdapter.js:58 | going back to the API keeps "/images/test.jpg" as it is, while the test expects "test.jpg" |
| ApiAdapter.AuthorFromBareString | src/utils/apiAdapter.js:65-71 | a bare author name is adapted to an undefined id and the name itself |
| ApiAdapter.EntryIds | src/utils/apiAdapter.js:30-60 | the ids collected from adapted entries are the original elements' ids |
| ApiAdapter.RoundTrip | src/utils/apiAdapter.js:6-62 | an API book with embedded authors and genres, adapted and sent back, keeps its name, year, description, adapted image and the ids of its authors and genres |
| ApiAdapter.AdaptedLists | src/utils/apiAdapter.js:26-41 | a book that adapts has its embedded lists mapped entry by entry and an image URL that is truthy or null |
| ApiService.ResolveCredentials | src/services/api.js:23-47 | stored credentials with a truthy username and password win; otherwise both environment values if both are set; otherwise admin/admin |
| ApiService.CredentialsAlwaysPresent | src/services/api.js:23-47 | the credentials used always have a truthy username and password |
| ApiService.StoredCredentialsWin | src/services/api.js:25-28 | saved non-empty credentials are the ones sent, whatever the environment says |
| ApiService.NeedsAuth | src/services/api.js:53-56 | a request is authenticated exactly when its method is not GET in any letter case and its URL does not contain "/image/" |
| ApiService.RequestConfig.constructor | src/services/api.js:51 | a request config starts with its method and URL and no auth |
| ApiService.RequestConfig.Intercept | src/services/api.js:50-70 | a request that needs auth gets the resolved username and password; any other request is left as it is |
| ApiService.GetNeverAuthenticated | src/services/api.js:53 | "get", "GET" and "Get" requests are never authenticated |
| ApiService.UploadNeverAuthenticated | src/services/api.js:54 | uploads to the images endpoint are never authenticated |
| ApiService.MissingMethodIsWrite | src/services/api.js:53-56 | the guard alone treats a missing method as a write, authenticated unless it targets an image path (axios always sets the method, so sent requests never take this case) |
| ApiService.StatusMessage | src/services/api.js:83-103 | the fixed messages for 404, 400, 401, 403 and 500, and "Ошибка <status>: <statusText or unknown>" otherwise |
| ApiService.ErrorMessage | src/services/api.js:76-110 | the server's `message` when truthy, else the status message; the no-response message when a request went out; else the error's own message or the setup-failure text; never falsy |
| ApiService.Reject | src/services/api.js:112 | the rejection carries the computed message and never the auth flag |
| ApiService.RejectWithAuthFlag | src/services/api.js:90-94 | the corrected rejection carries the same message and the auth flag exactly for a 401 |
| ApiService.UnauthorizedMessageMentionsAuthorization | src/services/api.js:91 | the default 401 message mentions authorization |
| ApiService.DefaultUnauthorizedMessageOffersSettings | src/services/api.js:90-94 | a 401 without a server message is still recognised by its text |
| ApiService.UnauthorizedFlagLost | src/services/api.js:93-112 | a 401 carrying the server message "Bad credentials" is marked as an auth error, yet what callers receive neither carries the flag nor mentions 401 or authorization |
| ApiService.BadCredentialsText | src/services/api.js:91 | "Bad credentials" contains neither "401" nor the authorization word |
| ApiService.UnauthorizedAlwaysOffersSettings | src/services/api.js:90-94 | with the flag kept, every 401 is recognised as an auth error |
| ApiService.RejectionsAgreeOnMessage | src/services/api.js:112 | both rejections carry the same message and differ exactly on 401s |
| ApiService.WithData | src/services/api.js:121-124 | `{...response, data}` replaces `data` and keeps every other field |
| ApiService.BooksGetAllRequest | src/services/api.js:119 | a read of the books collection without a body, sent without credentials |
| ApiService.BooksGetAllResponse | src/services/api.js:118-125 | the response with its data adapted as a list of books; it throws exactly when the adapter does |
| ApiService.BooksGetByIdRequest | src/services/api.js:127 | a read without a body whose URL asks the books collection for the id, sent without credentials |
| ApiService.BooksGetByIdResponse | src/services/api.js:126-132 | the response with its data adapted as one book; it throws exactly when the adapter does |
| ApiService.BooksCreate | src/services/api.js:133-137 | POST of the adapted book to the collection; it throws exactly when the adapter does |
| ApiService.BooksUpdate | src/services/api.js:138-142 | PUT of the adapted book to its by-id endpoint; it throws exactly when the adapter does |
| ApiService.BooksDelete | src/services/api.js:143 | a DELETE without a body whose URL asks the books collection for the id; with a numeric id it carries credentials |
| ApiService.AuthorsGetAllResponse | src/services/api.js:148-154 | `data` becomes an array holding the adapted author of each element, or [] when it was not an array; every other field is kept |
| ApiService.AuthorsGetByIdResponse | src/services/api.js:155-161 | `data` becomes null exactly when it was falsy and otherwise the adapted author entry; every other field is kept |
| ApiService.AuthorPayload | src/services/api.js:164-166 | the author payload is `{full_name: data.name}`; a null or undefined form throws |
| ApiService.AuthorsCreate | src/services/api.js:162-168 | POST of `{full_name}` to the authors collection |
| ApiService.AuthorsUpdate | src/services/api.js:169-174 | PUT of `{full_name}` to the author's by-id endpoint |
| ApiService.AuthorsDelete | src/services/api.js:175 | a DELETE without a body whose URL asks the authors collection for the id; with a numeric id it carries credentials |
| ApiService.GenresGetAllResponse | src/services/api.js:180-186 | `data` becomes an array holding the adapted genre of each element, or [] when it was not an array; every other field is kept |
| ApiService.GenresGetByIdResponse | src/services/api.js:187-193 | `data` becomes null exactly when it was falsy and otherwise the adapted genre entry; every other field is kept |
| ApiService.GenresCreate | src/services/api.js:194 | the page's data is sent unchanged to the genres collection, with credentials |
| ApiService.GenresUpdate | src/services/api.js:195 | the page's data is sent unchanged to the URL asking the genres collection for the id; with a numeric id it carries credentials |
| ApiService.GenresDelete | src/services/api.js:196 | a DELETE without a body whose URL asks the genres collection for the id; with a numeric id it carries credentials |
| ApiService.WritesAuthenticatedReadsNot | src/services/api.js:116-197 | every read of books is unauthenticated and every create, update and delete of books, authors and genres is authenticated |
| ApiService.CatalogVerbs | src/services/api.js:53 | of the catalog verbs only "get" counts as a read |
| ApiService.CollectionsAreNotImagePaths | src/config/api.js:25-31 | no collection path contains "/image/" |
| ApiService.FormData.constructor | src/services/api.js:203 | a new form is empty |
| ApiService.FormData.GetField | src/services/api.js:204 | `get(name)` gives the value of the first entry appended under that name, null when there is none |
| ApiService.FormData.Append | src/services/api.js:206 | `append` adds the entry at the end |
| ApiService.FirstValue | src/services/api.js:204 | the value of the first entry with the name, null when there is none |
| ApiService.BuildUploadForm | src/services/api.js:203-207 | the new form holds only 'image', set to the 'file' field or else the 'image' field, and is empty when neither is truthy |
| ApiService.UploadResult | src/services/api.js:213-224 | a response naming the stored file gains `url` and `imageUrl` "/images/<name>", everything else kept; any other response is returned as it is |
| ApiService.UploadUrlMatchesAdapter | src/services/api.js:219 | the URL the upload reports is the one the adapter builds from the plain file name |
| BookChat.BookChat.constructor | src/components/WebComponents/BookChat.js:16-29 | the element starts without a socket, messages or online users, disconnected and closed, its name being the attribute or "" |
| BookChat.BookChat.AttributeChanged | src/components/WebComponents/BookChat.js:37-44 | only a changed 'username' attribute changes the name |
| BookChat.BookChat.Connected | src/components/WebComponents/BookChat.js:47-55 | a socket is opened on attach exactly when the URL and the name are both truthy |
| BookChat.BookChat.ConnectWebSocket | src/components/WebComponents/BookChat.js:63-73 | after connecting there is a socket, any earlier one having been replaced |
| BookChat.BookChat.DisconnectWebSocket | src/components/WebComponents/BookChat.js:108-113 | after disconnecting there is no socket |
| BookChat.BookChat.OnConnect | src/components/WebComponents/BookChat.js:75-80 | on connect the element is connected and 'user:join' with the name is emitted |
| BookChat.BookChat.OnDisconnect | src/components/WebComponents/BookChat.js:82-86 | on disconnect the element is disconnected |
| BookChat.BookChat.AddMessage | src/components/WebComponents/BookChat.js:116-120 | a message is appended at the end |
| BookChat.BookChat.OnHistory | src/components/WebComponents/BookChat.js:92-95 | the history replaces the messages |
| BookChat.BookChat.OnUsersOnline | src/components/WebComponents/BookChat.js:97-100 | the online list is replaced |
| BookChat.BookChat.SendMessage | src/components/WebComponents/BookChat.js:123-130 | blank text, no socket or no connection emits nothing; otherwise one 'message:send' with the text and the name, without book ids |
| BookChat.BookChat.ToggleChat | src/components/WebComponents/BookChat.js:133-146 | the open flag flips |
| BookChat.ToggleTwice | src/components/WebComponents/BookChat.js:133-146 | two toggles restore the open flag |
| BookChat.NoUserNoSocket | src/components/WebComponents/BookChat.js:47-55 | an element without a name never opens a socket, so nothing it sends is emitted |
| MultiSelect.SelectedValues | src/components/UI/MultiSelect.jsx:34 | the selected values are the array's elements as strings, one for one, and [] for a non-array |
| MultiSelect.SelectedOptions | src/components/UI/MultiSelect.jsx:35 | the options, in their order, whose value as a string is among the selected values, and no others |
| MultiSelect.LabelMatches | src/components/UI/MultiSelect.jsx:38 | a string label matches when its lower-case form contains the lower-case search; a non-string label throws |
| MultiSelect.FilteredOptions | src/components/UI/MultiSelect.jsx:37-39 | the list is the options whose labels match, in order; it throws exactly when some label is not a string |
| MultiSelect.EmptySearchKeepsAll | src/components/UI/MultiSelect.jsx:37-39 | an empty search shows every option |
| MultiSelect.Toggled | src/components/UI/MultiSelect.jsx:42-45 | a selected value is filtered out (the others kept in order) and an unselected one appended at the end |
| MultiSelect.Removed | src/components/UI/MultiSelect.jsx:66-67 | the selection with the value filtered out, the other values kept in order |
| MultiSelect.RemovedFacts | src/components/UI/MultiSelect.jsx:44 | filtering out a value keeps exactly the other values and shortens a list that held it |
| MultiSelect.RemoveUnselectedIsIdentity | src/components/UI/MultiSelect.jsx:66-67 | removing a value that is not selected changes nothing |
| MultiSelect.ToggleTwiceRestores | src/components/UI/MultiSelect.jsx:42-45 | toggling an unselected value twice restores the selection |
| MultiSelect.ToggleSelectsOption | src/components/UI/MultiSelect.jsx:35-45 | toggling an option that is not selected shows it as chosen |
| MultiSelect.RemoveDeselectsOption | src/components/UI/MultiSelect.jsx:35-67 | after removing a value no option with that value is shown as chosen |
| MultiSelect.FindOption | src/components/UI/MultiSelect.jsx:49 | the lookup gives the first option whose value as a string is the one sought, and None exactly when there is none |
| MultiSelect.EmittedOptions | src/components/UI/MultiSelect.jsx:48-55 | entry i is `{ value, text, selected: true }` for the i-th new value, its text the first matching option's truthy label, else the value itself |
| MultiSelect.HandleToggle | src/components/UI/MultiSelect.jsx:41-62 | the change event carries, in order, one selected entry per toggled value, labelled as above |
| MultiSelect.HandleRemove | src/components/UI/MultiSelect.jsx:64-83 | the change event carries, in order, one selected entry per remaining value, none of them the removed one |
| BookFilters.YearOf | src/components/Book/BookFilters.jsx:56-59 | reading a book's year throws exactly on a null or undefined book |
| BookFilters.AvailableYears | src/components/Book/BookFilters.jsx:53-63 | no data or a non-array gives no years; the years offered are strictly decreasing, so sorted and without repeats; it throws exactly when some book is null |
| BookFilters.DistinctOfDescending | src/components/Book/BookFilters.jsx:61-62 | removing repeats from a descending list leaves a strictly decreasing one |
| BookFilters.AvailableYearsMembers | src/components/Book/BookFilters.jsx:53-63 | a year is offered exactly when it is positive and some book's year converts to it |
| BookFilters.SelectionOf | src/components/Book/BookFilters.jsx:90-93 | choosing the placeholder clears the selection; any other option stores its value string |
| BookFilters.SelectionRoundTrip | src/components/Book/BookFilters.jsx:89-93 | the shown value of a chosen option is that option, and a null or non-empty string selection is restored by choosing what is shown |
| BookFilters.ShownValue | src/components/Book/BookFilters.jsx:89 | a non-empty shown value comes from a truthy selection; a string selection is shown as itself and a non-zero number as its decimal text |
| BookFilters.OptionOf | src/components/Book/BookFilters.jsx:94-97 | an option's value is String(id); a null entry throws |
| BookFilters.Options | src/components/Book/BookFilters.jsx:49-50 | missing data gives no options; truthy data that is not an array throws; otherwise one option per entry, valued by String(id) |
| BookFilters.ChosenIdIsAString | src/components/Book/BookFilters.jsx:92 | a chosen numeric id is stored as a string, never strictly equal to the number |
| BookFilters.ShownSort | src/components/Book/BookFilters.jsx:125 | the sort select shows the store's sort, or "title" when it is falsy |
| HomePage.IncludesOpt | src/pages/HomePage.jsx:59 | `v?.toLowerCase().includes(q)` is true exactly for a string containing q after lower-casing; it throws on a value that is neither nullish nor a string |
| HomePage.SomeOpt | src/pages/HomePage.jsx:60 | `list?.some(p)` is false for a missing list, throws for a non-array and otherwise is `some` |
| HomePage.AuthorMatches | src/pages/HomePage.jsx:60-62 | an author matches when its name (the string itself, or its `name`) contains the query after lower-casing |
| HomePage.SearchMatches | src/pages/HomePage.jsx:58-63 | a book matches when its title or one of its authors contains the query; a null book throws |
| HomePage.IdOf | src/pages/HomePage.jsx:70 | an object-typed entry stands for its `id` (null throws) and any other entry for itself |
| HomePage.IdIs | src/pages/HomePage.jsx:70 | comparing an entry's id throws exactly on a null entry |
| HomePage.ListHasId | src/pages/HomePage.jsx:67-82 | the genre and author tests throw on a null book |
| HomePage.YearMatches | src/pages/HomePage.jsx:85-89 | a book passes the year filter exactly when its `publicationYear` is the number Number(selection) |
| HomePage.FilterIf | src/pages/HomePage.jsx:56-89 | an inactive filter keeps the list and an active one is the array filter |
| HomePage.SearchStage | src/pages/HomePage.jsx:56-64 | an empty query keeps every book; a non-string query throws; otherwise the books whose title or authors contain the lower-cased query |
| HomePage.SortBooks | src/pages/HomePage.jsx:92-103 | the result is a permutation of the books, ordered by title ascending, date or rating descending; an unknown sort keeps the order; it throws exactly when some book has no comparable key and there are two or more |
| HomePage.FilteredBooks | src/pages/HomePage.jsx:50-103 | no loaded books give an empty list; otherwise it succeeds exactly when the filters and the sort do, and the result is a permutation of the filtered books, sorted by the chosen kind (descending for date and rating) or in their own order for an unknown kind |
| HomePage.FilterIfMember | src/pages/HomePage.jsx:56-89 | a book survives a filter exactly when it was there and the active test answered true |
| HomePage.FilterStagesKeepIff | src/pages/HomePage.jsx:53-89 | a book survives the four filters exactly when it passes every active one |
| HomePage.FilteredBooksKeepIff | src/pages/HomePage.jsx:50-106 | the listed books are exactly the loaded books that pass every active filter |
| HomePage.ListHasIdIff | src/pages/HomePage.jsx:67-82 | the list test answers whether some entry's id is strictly equal to the selection |
| HomePage.StringSelectionMissesNumericIds | src/pages/HomePage.jsx:67-82 | when every genre or author id is a number, a selection stored as a string matches no book |
| HomePage.DisplayedBooks | src/pages/HomePage.jsx:108 | the first page × 12 filtered books are shown |
| HomePage.HasMore | src/pages/HomePage.jsx:109 | more books exist exactly when the filtered list is longer than page × 12 |
| HomePage.AdvanceShowsMore | src/pages/HomePage.jsx:108-109 | going to the next page while more exist shows strictly more books, extending what was shown |
| HomePage.Feed.constructor | src/pages/HomePage.jsx:24 | the feed starts at page 1 |
| HomePage.Feed.OnData | src/pages/HomePage.jsx:37-42 | new data returns the feed to page 1 |
| HomePage.Feed.OnInView | src/pages/HomePage.jsx:44-48 | the page advances by one exactly when the sentinel is in view and more books exist |
| HomePage.ScrollStaysOnBooks | src/pages/HomePage.jsx:44-48 | scrolling never reaches a page that starts past the last filtered book |
| HomePage.IdEquals | src/pages/HomePage.jsx:115 | the find callback throws on a null book and otherwise tests `b.id === id` |
| HomePage.RecentBooks | src/pages/HomePage.jsx:112-118 | no views give no books; at most 6 are shown, each a loaded truthy book whose id is strictly equal to a viewed id |
| HomePage.FindByIdIsFirst | src/pages/HomePage.jsx:115 | the lookup gives the first loaded book with that id, or undefined |
| HomePage.RecentBooksAreResolved | src/pages/HomePage.jsx:112-118 | the recent books are the first 6 of the reference list of views resolved to books, misses dropped |
| HomePage.ResolvedIsFilteredMap | src/pages/HomePage.jsx:114-116 | mapping views to books and keeping truthy ones equals the reference list |
| BookDetail.EntryId | src/pages/BookDetailPage.jsx:38 | an object-typed entry stands for its `id` (null throws) and any other entry for itself |
| BookDetail.SameEntry | src/pages/BookDetailPage.jsx:38 | comparing two entries throws exactly when one of them is null |
| BookDetail.SomeOpt | src/pages/BookDetailPage.jsx:36-37 | `list?.some(p)` is false for a missing list, throws for a non-array and otherwise is `some` |
| BookDetail.IsSimilar | src/pages/BookDetailPage.jsx:34-45 | testing a null book throws |
| BookDetail.SimilarBooks | src/pages/BookDetailPage.jsx:33-46 | without a book or a list there are none; a truthy non-array list throws; at most 6 are shown, each from the list and with an id not strictly equal to the current one |
| BookDetail.ListHasEntryIff | src/pages/BookDetailPage.jsx:37-38 | the inner test answers whether the other book has an entry with the same id |
| BookDetail.SharesEntryIff | src/pages/BookDetailPage.jsx:36-43 | the outer test answers whether the two books share an entry id in that list |
| BookDetail.IsSimilarIff | src/pages/BookDetailPage.jsx:34-45 | a book is similar exactly when its id differs and it shares a genre or an author id |
| BookDetail.SimilarBooksAreSimilar | src/pages/BookDetailPage.jsx:33-46 | the similar books are the first 6 of the list's similar books, in list order |
| BookDetail.SimilarExcludesCurrent | src/pages/BookDetailPage.jsx:35 | a book with a primitive id is never similar to itself |
| BookDetail.AfterLoad | src/pages/BookDetailPage.jsx:26-30 | a loaded book with a truthy id is recorded as viewed at the head of the history and nothing else in the store changes; otherwise nothing changes |
| Validation.StringIssues | src/utils/validation.js:11-13 | a string field has no issue exactly when it is a string whose length is within its bounds |
| Validation.NumberIssues | src/utils/validation.js:20-25 | an optional nullable number has no issue exactly when it is missing, null or a number within its bounds |
| Validation.ElementIssues | src/utils/validation.js:39 | an array's elements have no issue exactly when each has the element type |
| Validation.IdListIssues | src/utils/validation.js:39-45 | an id list has no issue exactly when it is missing or a non-empty array of numbers |
| Validation.DescriptionIssues | src/utils/validation.js:15-18 | the description has no issue exactly when it is missing or a string of at most 2000 characters |
| Validation.ImageUrlIssues | src/utils/validation.js:27-31 | the image URL has no issue exactly when it is missing, null, "" or a string that is a URL |
| Validation.BookIdsIssues | src/utils/validation.js:91 | a message's book ids have no issue exactly when missing or an array of strings |
| Validation.BookSchemaIff | src/utils/validation.js:10-46 | a book passes exactly when it is an object meeting every field rule: title 1-200, year 1000 to next year, rating 0-5, id lists non-empty when given |
| Validation.AuthorSchemaIff | src/utils/validation.js:51-55 | an author passes exactly when its name is a string of 2-100 characters |
| Validation.GenreSchemaIff | src/utils/validation.js:60-64 | a genre passes exactly when its name is a string of 2-50 characters |
| Validation.AuthCredentialsSchemaIff | src/utils/validation.js:69-77 | credentials pass exactly when the username has 3-50 and the password 3-100 characters |
| Validation.ChatMessageSchemaIff | src/utils/validation.js:82-92 | a message passes exactly when its text has 1-1000 characters, its username 2-30 and its book ids are missing or strings |
| Validation.SearchQuerySchemaIff | src/utils/validation.js:97-98 | a query passes exactly when it is a string of at most 100 characters |
| Validation.ChatUsernameIff | src/utils/validation.js:103-106 | a chat name passes exactly when it has 2-30 characters, each a Latin or Cyrillic letter, a digit, '_' or white space |
| Validation.FormatErrorsKeys | src/utils/validation.js:120-124 | the error map has exactly one key per dotted issue path |
| Validation.FormatErrorsLastWins | src/utils/validation.js:120-124 | for a path reported several times, the last message is kept |
| Validation.Parsed | src/utils/validation.js:116 | parsing an object keeps exactly its declared fields, unchanged; a non-object is returned as it is |
| Validation.ValidateData | src/utils/validation.js:114-129 | success exactly when there are no issues, with the parsed data; otherwise the formatted errors; a non-schema gives the general error |
| Validation.IssuesReadDeclaredKeys | src/utils/validation.js:10-106 | undeclared fields never cause an issue |
| Validation.ParsedIsStable | src/utils/validation.js:116 | parsed data passes again and parsing it again changes nothing |
| Validation.IsValid | src/utils/validation.js:137-139 | `isValid` throws exactly when given no schema |
| Validation.IsValidIffValidateData | src/utils/validation.js:114-139 | `isValid` agrees with the success of `validateData` |
| Validation.FailureHasErrors | src/utils/validation.js:118-125 | a failure always reports at least one error |
| Validation.RatingBound | src/utils/validation.js:33-37 | a rating of 5 passes and 6 fails, so the form's 0-10 range is narrower in the schema |
| AdminPage.LowerValue | src/pages/AdminPage.jsx:441-444 | `toLowerCase` succeeds exactly on strings and gives their lower-case form |
| AdminPage.ListOf | src/pages/AdminPage.jsx:440-443 | `(list \|\| [])` is [] for a falsy list, the elements of an array, and throws for anything else once mapped |
| AdminPage.BookTexts | src/pages/AdminPage.jsx:438-445 | the lower-cased title (or ''), the lower-cased author names and the lower-cased genre names, each list joined by ' '; it throws exactly on a null book, a non-string title, a list that is not an array, or an entry without a text |
| AdminPage.BookMatches | src/pages/AdminPage.jsx:436-447 | an empty query keeps every book; otherwise the test succeeds exactly when the book's texts can be collected, and the book matches exactly when the lower-cased query is in its lower-cased title, its joined author names or its joined genre names |
| AdminPage.AuthorText | src/pages/AdminPage.jsx:439-441 | a string author is its lower-cased text; an author object gives its lower-cased `name`, else its `full_name`, else ''; null, undefined, booleans and numbers throw |
| AdminPage.GenreText | src/pages/AdminPage.jsx:442-444 | a string genre is its lower-cased text, a genre object its lower-cased string `name`; it throws exactly when there is no string to lower-case |
| AdminPage.FilterBooks | src/pages/AdminPage.jsx:436-447 | an empty query keeps all books; otherwise the books, in order, that the search predicate keeps (the contents are given by FilterBooksKeepIff); it throws exactly when some book's texts cannot be collected |
| AdminPage.TitleMatchKept | src/pages/AdminPage.jsx:439-446 | a book whose title contains the query, ignoring case, is kept |
| AdminPage.TitleTextIsLower | src/pages/AdminPage.jsx:439 | the title searched is the lower-cased title |
| AdminPage.AuthorNameMatchKept | src/pages/AdminPage.jsx:440-446 | a book whose texts can be collected and which has an author object named `name` containing the query, ignoring case, matches |
| AdminPage.GenreNameMatchKept | src/pages/AdminPage.jsx:443-446 | a book whose texts can be collected and which has a genre object named `name` containing the query, ignoring case, matches |
| AdminPage.FilterBooksKeepIff | src/pages/AdminPage.jsx:436-447 | a book is listed exactly when it is one of the books and, for a non-empty query, its title, joined author names or joined genre names contain the query |
| AdminPage.NameMatches | src/pages/AdminPage.jsx:601-606 | an empty query keeps every item; a string name matches when it contains the query ignoring case; a null item or a truthy non-string name throws |
| AdminPage.FilterByName | src/pages/AdminPage.jsx:601-606 | the authors or genres shown are those whose names match, in order; an empty query keeps all |
| AdminPage.SortRows | src/pages/AdminPage.jsx:449-473 | the result is a permutation of the rows, sorted by id, title (lower-cased) or year (0 when falsy) in the chosen direction; no or an unknown field keeps the order; with two or more rows it throws exactly when a row is null or a truthy title is not a string |
| AdminPage.BooksTable.constructor | src/pages/AdminPage.jsx:424-425 | the table starts unsorted, ascending |
| AdminPage.BooksTable.HandleSort | src/pages/AdminPage.jsx:427-434 | clicking the sorted column flips the direction; clicking another sorts by it ascending |
| AdminPage.SortTwiceRestores | src/pages/AdminPage.jsx:427-434 | clicking the sorted column twice restores the direction |
| AdminPage.TotalPages | src/pages/AdminPage.jsx:475 | `Math.ceil(n / per)`: the pages hold all rows, the last page is not empty, and there are none exactly when there are no rows |
| AdminPage.PageRows | src/pages/AdminPage.jsx:476 | a page shows the rows from (page − 1) × per up to page × per, none past the end, never more than per |
| AdminPage.PagesUpToPrefix | src/pages/AdminPage.jsx:476 | the first k pages together are the first k × per rows |
| AdminPage.PagesCoverRows | src/pages/AdminPage.jsx:475-476 | all the pages together are exactly the rows, in order |
| AdminPage.PageInRangeNonEmpty | src/pages/AdminPage.jsx:475-476 | every page from 1 to the page count shows 1 to per rows |
| AdminPage.PageAfterReset | src/pages/AdminPage.jsx:478-482 | once there are pages, the page shown is always within them; a page in range and a table without pages are kept |
| AdminPage.PagerStaysInRange | src/pages/AdminPage.jsx:572-592 | back and forward keep the page between 1 and the page count, moving by one when possible |
| AdminPage.AdminPageState.constructor | src/pages/AdminPage.jsx:17-24 | the page opens on the books tab, no search, page 1, nothing to delete |
| AdminPage.AdminPageState.SelectTab | src/pages/AdminPage.jsx:263-280 | choosing a tab changes only the tab |
| AdminPage.AdminPageState.OnSearchInput | src/pages/AdminPage.jsx:296-299 | typing a search sets it and returns to page 1 |
| AdminPage.AdminPageState.ResetPageIfPastEnd | src/pages/AdminPage.jsx:478-482 | the page effect applies the reset rule and changes nothing else |
| AdminPage.AdminPageState.GoBack | src/pages/AdminPage.jsx:577 | back moves to max(1, page − 1) and changes nothing else |
| AdminPage.AdminPageState.GoForward | src/pages/AdminPage.jsx:588 | forward moves to min(pages, page + 1) and changes nothing else |
| AdminPage.AdminPageState.HandleDelete | src/pages/AdminPage.jsx:238-240 | asking to delete an item only records it for confirmation |
| AdminPage.CountLabel | src/pages/AdminPage.jsx:488 | the word after the count is the singular form for 1, the few form below 5 and the many form from 5 |
| AdminPage.CountLabelAsWritten | src/pages/AdminPage.jsx:488 | as written, 0 books reads "книги", and 21 and 11 both read "книг" |
| AdminPage.RussianCountLabel | src/pages/AdminPage.jsx:488 | the corrected label follows Russian plural rules: the singular for counts ending in 1 but not 11, the few form for 2-4 but not 12-14, the many form otherwise |
| AdminPage.RussianLabelAgreesBelowTwentyOne | src/pages/AdminPage.jsx:488 | for 1 to 20 the corrected label equals the one written |
| AdminPage.RussianLabelOfZero | src/pages/AdminPage.jsx:488 | the corrected label for 0 is the many form |
| AdminPage.ConfirmDelete | src/pages/AdminPage.jsx:242-252 | nothing is deleted without a pending item or on an unknown tab; otherwise exactly the mutation of the active tab runs, with the item's id |
| AdminPage.DeleteRequest | src/pages/AdminPage.jsx:76-78 | a delete mutation sends a DELETE without a body |
| AdminPage.ErrorToast | src/pages/AdminPage.jsx:51-53 | the error toast shows the rejection's message when it has one, else the mutation's fallback, never empty |
| AdminPage.OffersSettings | src/pages/AdminPage.jsx:64-72 | creating a book never offers the auth settings; every other mutation offers them exactly when the rejection is recognised as an auth error |
| AdminPage.EditingItem | src/pages/AdminPage.jsx:220-236 | editing a book with an id uses the full record when it loads and the list item otherwise; other items are used as they are |
| AdminPage.IdTexts | src/pages/AdminPage.jsx:837-842 | each entry's id (the entry itself when it has none) as text, in order, dropping the empty, "undefined" and "null" ones |
| AdminPage.StrValues | src/pages/AdminPage.jsx:837-850 | id texts become string values one for one |
| AdminPage.FormIds | src/pages/AdminPage.jsx:837-850 | a falsy list gives []; an array gives its id texts as above; anything else throws |
| AdminPage.NumberText | src/pages/AdminPage.jsx:855-860 | a number is shown as its decimal text, and the field is always a string |
| AdminPage.InitialFormData | src/pages/AdminPage.jsx:821-881 | no item or an unknown form gives the empty form; an author or genre gives its name or ""; a book gives exactly its seven form fields (texts defaulted to "", year and rating as text, id lists as above) and throws exactly when an id list does |
| AdminPage.TrimValue | src/pages/AdminPage.jsx:902 | `trim` succeeds exactly on strings |
| AdminPage.BookErrors | src/pages/AdminPage.jsx:901-910 | the book form gets exactly the errors for an empty title, a non-numeric year and a rating that is not a number from 0 to 10 |
| AdminPage.NewErrors | src/pages/AdminPage.jsx:898-915 | a non-string title or name throws; otherwise the book errors, or a name error exactly for a blank name |
| AdminPage.AdminModal.constructor | src/pages/AdminPage.jsx:817 | the modal starts without errors |
| AdminPage.AdminModal.Validate | src/pages/AdminPage.jsx:898-919 | the recorded errors are exactly one message per failed check (title, year, rating for a book; name otherwise) and the form is valid exactly when none was recorded; a missing title or name throws and keeps the old errors |
| AdminPage.NumberValue | src/pages/AdminPage.jsx:961-966 | `Number(x)` is a number exactly when x is not NaN; NaN is kept as null in the model |
| AdminPage.NumberValues | src/pages/AdminPage.jsx:961-962 | `map(Number)` converts the ids one for one |
| AdminPage.UploadedImageUrl | src/pages/AdminPage.jsx:933-949 | without a new file or after a failed upload the form's URL is kept; otherwise the upload's url, else imageUrl, else the form's URL |
| AdminPage.BookPayload | src/pages/AdminPage.jsx:958-967 | the payload is built exactly when both id lists are arrays; it keeps the form's other fields and carries the uploaded URL, the ids as numbers and the year and rating as numbers, or null when empty |
| AdminPage.ValidatedPayloadNumbers | src/pages/AdminPage.jsx:898-967 | after validation the year is a number or null and the rating a number from 0 to 10 or null, null exactly for an empty field |
| AdminPage.IntTextKept | src/pages/AdminPage.jsx:842 | the text of an integer id is never filtered out |
| AdminPage.NumericIdTexts | src/pages/AdminPage.jsx:837-850 | numeric ids, bare or as the `id` of an entry object, become their decimal texts, one for one |
| AdminPage.NumericIdsRoundTrip | src/pages/AdminPage.jsx:837-962 | numeric ids loaded into the form and submitted come back as the same numbers |
| AdminPage.EntryIdsRoundTrip | src/pages/AdminPage.jsx:837-962 | entries that are numeric ids or objects with a non-zero numeric id, loaded into the form and submitted, come back as their ids in order |
| AdminPage.NumberFieldRoundTrip | src/pages/AdminPage.jsx:855-967 | a numeric year or rating shown in the form and submitted comes back as the same number, a missing one as null |
| AdminPage.InitialFormSubmitsBook | src/pages/AdminPage.jsx:821-967 | submitting the form filled from a book whose authors and genres are numeric ids or `{id, name}` objects with non-zero numeric ids gives back those ids in order, its year, rating and title, with the uploaded URL |
| AdminPage.SettingsOfferedOn401 | src/pages/AdminPage.jsx:64-72 | an update or delete failing with a 401 whose message is "Bad credentials" offers no settings as written, and does once the rejection keeps the flag |

## Left out

- Network, sockets and IndexedDB are outside the model. A request, an upload or a table call that the model lets fail is a `fails` flag or a `None` response (the migration's unmodelled failures are listed below), the backend's replies are parameters, and Promise ordering and async interleaving are not modelled.
- Socket.IO is a log of emitted events plus a flag for whether a socket was opened. Server events are methods the environment calls. The 'error' event only shows a toast and is not modelled.
- The clock is a `now` parameter, assumed never to go back (`ClockOk`). `new Date().toISOString()` is a `dateText` parameter, the current year is `currentYear`, and the date a book is sorted by is `dateOf`.
- Zod's `url()` check is an `isUrl` predicate parameter. Zod's internal order of issues is reduced to the per-field checks the schemas declare.
- Numbers are integers. Floating-point ratings, `parseFloat`, and NaN arithmetic beyond `isNaN` are not modelled.
- `localeCompare` is the order of character codes. `toLowerCase` maps only the basic Latin and Cyrillic capitals. String lengths count characters, not UTF-16 code units.
- `===` on two arrays or objects is never true (`Js.StrictEq`): object identity is not modelled.
- A key set to `undefined` in an object literal is the key left out. This is where JSON serialisation differs.
- BookFilters: the search field's debounce timer is not modelled. The search is applied as it is typed.
- MultiSelect: the dropdown's open state, click-outside handling and focus are not modelled. The selection, the filtering of options and what is emitted are.
- AdminPage: not modelled are:
  - the modal's effect that refills the form when the item changes;
  - the image preview through `FileReader`;
  - the `setTimeout(…, 1000)` before the settings prompt;
  - `window.confirm`;
  - the shared `handleSubmit` dispatch between create and update. The model covers the payload and the toasts.
- ChatPage and ChatSidebar: the input's `maxLength`, the online user count display, message timestamps and scrolling are rendering and are not modelled.
- Rendering, toasts, routing, React Query caching and the other UI components (AuthSettings, layout, cards, buttons) are not part of this model.
- The browser's `localStorage` is the class `LocalStorage.Storage`. A throwing call of it is the `fails` flag.
- RunMigration: of the failures the migration catches, only a failing credential save is modelled (`authSaveFails`). A rejected viewed-books add, a rejected `userData.set`, a failing flag write and a failing status read (which `checkMigrationStatus` turns into "not migrated") are not, so the model always completes every sub-step; the three sub-steps run one after the other rather than under `Promise.all`.
- ToNumber: `Number(text)` accepts only an optional sign and decimal digits in the model (after trimming white space; a blank text is 0). Exponents ("2e3"), hexadecimal ("0x7E4"), "Infinity" and decimal fractions count as NaN, which is what the admin form's year and rating checks and the filters' number reading then see.
- SortRows: JavaScript's `<` and `>` on mixed values (a number against a string, `undefined`, an object) coerce before comparing. The model orders numbers before strings and compares any other id or year as 0. `Array.prototype.sort` moves `undefined` elements to the end without passing them to the comparator, so sorting a list that holds `undefined` does not throw in JavaScript; the model treats such a row like `null` and throws. Rows decoded from JSON are never `undefined`.
- SortBooks: a title that is truthy but not a string throws in the model whenever two or more books are sorted; in JavaScript only the comparator's receiver calls `localeCompare`, so whether such a book throws depends on the engine's sort algorithm. The stability of `Array.prototype.sort` (ties keep their order) is not stated. `Array.prototype.sort` moves `undefined` elements to the end without calling the comparator on them; the model treats an `undefined` book like `null` and throws, which JSON data cannot produce.
- BookStore.AddViewed: ids are compared structurally. For primitive ids this is `!==`; two distinct but equal objects would count as the same book in the model and as different ones in JavaScript.
- Database.ChatMessages: a message that carries its own `id` is stored under the table's next id, and ties between equal timestamps are not ordered by id as IndexedDB orders them. A stamp that is not a number or a string keeps the message out of the `timestamp` index.
- Database.BookCache.Set: the stored `createdAt` is the `dateText` parameter standing for `new Date().toISOString()`; `removeOld` compares the numeric instant `now` kept beside it, which orders the rows as the ISO texts do.
- Database.Cutoff: a day is a fixed 86 400 000 ms. `setDate(getDate() - days)` moves by local calendar days, which are 23 or 25 hours long across a daylight-saving change.
- Database.ChatMessages.Add: the stamp is the message's truthy `timestamp` or the `nowText` parameter standing for `new Date().toISOString()`.

## Findings

| source | as written | input that shows it | evidently intended | confidence | as-written member | corrected member |
|---|---|---|---|---|---|---|
| src/services/api.js:90-112 | the response interceptor sets `isAuthError` on the axios error, but rejects with `new Error(message)`, which carries only the message, so the admin page's test at src/pages/AdminPage.jsx:66 loses the flag | a 401 answer whose body is `{ message: "Bad credentials" }` | every 401 offers the authorization settings | not executed | ApiService.UnauthorizedFlagLost | ApiService.RejectWithAuthFlag |
| src/pages/AdminPage.jsx:488 | the count label picks the singular form for 1, the few form below 5 and the many form otherwise (the same at lines 621 and 716), so 0 books reads "0 книги" and 21 reads "21 книг" | counts 0 and 21 | Russian plural agreement by the last digits | not executed | AdminPage.CountLabelAsWritten | AdminPage.RussianCountLabel |
