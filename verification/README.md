# loci task queue, URL normalisation, activity feed grouping and actions: a Dafny model

This project models the core of the loci Firefox add-on (Activity Stream's
precursor):

- The **task queue** (`lib/task-queue/`):
  - `Page` is an immutable captured page. It carries a url, a blob path, a
    max age, a remote flag and a creation time. It serialises to JSON and
    is stored in the `moz_pages` table keyed by url.
  - `WorkerTask` is the unit of work a processor is handed. Its contract is
    the one its tests pin down: status values, `jobStarted`, serialisation,
    and save/get by id.
  - `Storage` keeps one cached SQLite connection per instance. Its
    `asyncExecuteCached` turns result rows into items.
  - `TaskRouter` admits capture messages under a process-wide lock, with a
    LIFO queue of deferred messages. For every url that needs processing it
    stores a page, writes the captured DOM to the page's blob, and creates
    and enqueues one task per processor. The lock and the queue are shared
    by every router instance, while each critical section uses the routes
    of the router that runs it.
- **`normalizeUrl`** (`lib/task-queue/utils.js`) takes a parsed URL and
  rebuilds it. It sorts the query parameters, replaces `+` by `%20`,
  upper-cases percent escapes, and optionally drops the reference.
- **`groupSitesBySession` and `groupSitesByDate`** (the activity feed)
  group sites in two ways:
  - by session: a new session starts wherever two consecutive visits are
    more than ten minutes apart;
  - by calendar day: days appear in order of first appearance, and each
    holds the sessions of its sites.
- **The action builders of `common/action-manager.js`**: `Notify`,
  `Response`, `RequestExpect`, the fixed requests built from them, and
  `NotifyEvent` with its validation.

Each JavaScript object is a `Json.Object`: an ordered list of keys and a
map from keys to values. So "which keys, in which order" is stated exactly
(it is what `JSON.stringify` prints). JavaScript truthiness is defined once
in `Json.Truthy`, and `undefined` is `None`.

The three sources of nondeterminism the source reads are parameters of the
model:

- the clock (`Date.now()`) is the parameter `now`;
- a fresh UUID (`generateUUID`) is the parameter `freshToken`;
- the calendar day of a timestamp (moment's `startOf("day")`) is the
  function parameter `day`.

The asynchronous critical section of `TaskRouter.asyncCreateTasks` is
modelled as two transitions on a `State`:

- `HandleMessage` takes the lock, or defers the message when the lock is
  held.
- `Complete` does the admission's reads and writes, releases the lock, and
  replays the most recently deferred message.

The in-flight section records the routes it runs with. A replayed message
runs with the routes of the router that finished the previous section,
which need not be the router that deferred it.

Any number of `HandleMessage` steps can happen between the two. This is the
interleaving the lock guards against.

Files: `wrappers.dfy` (Option/Result), `json.dfy`, `page.dfy`,
`worker_task.dfy`, `storage.dfy`, `task_router.dfy`, `url_normalize.dfy`,
`activity_feed.dfy` and `action_manager.dfy`. There is one module per file.

## Model

| member | source | states |
|---|---|---|
| Json.Get | common/action-manager.js:89-95 | a property read yields a value exactly when the key is present, and then the stored value |
| Page.MakePage | lib/task-queue/Page.js:26-36 | the constructor throws "URL must be defined" exactly when the url is falsy. Otherwise each field is the given one when truthy and its default when not: one week for `maxAge`, `now` for `createdAt`, the fresh UUID for `path`. `remote` is true only when given true |
| Page.MadePageWellFormed | lib/task-queue/Page.js:30-34 | a constructed page has a non-empty url and path and non-zero maxAge and createdAt, so no default can fire again when it is rebuilt |
| Page.RebuildIsIdentity | lib/task-queue/Page.js:26-36 | constructing a page from a page's own fields gives the same page (`new Page(dbPage)` in `asyncGetByUrl` recovers it) |
| Page.ToJson | lib/task-queue/Page.js:64-72 | the serialised page has exactly the keys url, path, maxAge, remote and createdAt, in that order, each once |
| Page.FromJson | lib/task-queue/Page.js:26-36 | rebuilding from a parsed object fails exactly when its url is not a non-empty string; the page then takes that url, `Boolean(remote)`, and the path when it is a non-empty string or the fresh token otherwise |
| Page.JsonRoundTrip | lib/task-queue/Page.js:64-72 | constructing a page from its serialisation gives the page back |
| Page.SerializationOfFullInput | test/test-Page.js:34-49 | a page built from a fully specified object serialises to exactly that object |
| Page.Save | lib/task-queue/Page.js:82-101 | `INSERT OR REPLACE` keyed by url: the table gains the page's url, the row under it is the page's row, every other row is unchanged, and a valid table stays valid |
| Page.GetByUrl | lib/task-queue/Page.js:112-130 | no row gives null; a stored row with a url gives a page with that url; on a valid table the read never throws |
| Page.SaveThenGet | test/test-Page.js:51-67 | reading a saved page back by its url gives the same page, and reading any other url gives what it gave before the save |
| Page.SaveAllKeys | test/test-Page.js:69-80 | saving a list of pages leaves exactly the old urls plus the saved urls in the table |
| Page.DistinctUrlsCount | test/test-Page.js:82-83 | pages with pairwise distinct urls have as many urls as pages |
| Page.SaveDistinctCount | test/test-Page.js:69-90 | saving pages with distinct urls into an empty table gives one row per page, and each page's url can be found |
| WorkerTask.ParseStatus | test/test-WorkerTask.js:11-23 | a status string is accepted exactly when it is "new", "working" or "done", and the parsed status prints back as that string |
| WorkerTask.ParseStatusName | test/test-WorkerTask.js:11-18 | every status parses back from its own name |
| WorkerTask.NewTask | test/test-WorkerTask.js:11-13 | a new task has no id, no job start time, status NEW, and the given url, type and creation time |
| WorkerTask.SetStatus | test/test-WorkerTask.js:11-23 | setting a status succeeds exactly for the three valid names, fails with "Invalid task status" otherwise, and changes nothing but the status |
| WorkerTask.JobStarted | test/test-WorkerTask.js:25-33 | afterwards the status is WORKING and a start time is set (to `now` when it was null, kept otherwise), and the id, url, creation time and type are unchanged |
| WorkerTask.TaskObject | test/test-WorkerTask.js:35-43 | a plain task object has exactly the keys id, pageUrl, createdAt, jobStartedAt, status and type, in that order |
| WorkerTask.ToJson | test/test-WorkerTask.js:47-50 | a serialised task has the same keys in the same order |
| WorkerTask.TaskObjectFields | test/test-WorkerTask.js:35-46 | each property read back from a task object is the value it was built from |
| WorkerTask.FromObject | test/test-WorkerTask.js:35-46 | `fromObject` succeeds exactly when every property reads with its type and the status is a valid name; each field is then the property read from the object, and an unknown status is rejected |
| WorkerTask.FromObjectSerialization | test/test-WorkerTask.js:35-50 | a task built by `fromObject` from a valid object serialises back to exactly that object |
| WorkerTask.JsonRoundTrip | test/test-WorkerTask.js:52-53 | `fromObject` of a serialised task gives that WorkerTask back |
| WorkerTask.Save | test/test-WorkerTask.js:56-76 | a save assigns a fresh id (the next after the largest) to a task without one, keeps the id of a task that has one, writes the row under that id, and keeps the table valid |
| WorkerTask.GetById | test/test-WorkerTask.js:67-68 | a lookup finds a task exactly when its id is stored, and then the stored task |
| WorkerTask.SavedTaskFound | lib/task-queue/TaskRouter.js:42-45 | after a save a task is found for the saved task's url, and a first save changes the answer for no other url |
| WorkerTask.FirstSaveAssignsId | test/test-WorkerTask.js:61-68 | the first save gives a new task a positive id, adds exactly one row, and `getById` returns the saved task |
| WorkerTask.ResaveUpdatesSameRow | test/test-WorkerTask.js:70-76 | saving again after `jobStarted()` rewrites the same row under the same id, without adding rows, and `getById` returns the changed task |
| Storage.GetConnection | lib/task-queue/Storage.js:134-141 | an open connection is reused; otherwise a new one is opened and cached |
| Storage.CloseConnection | lib/task-queue/Storage.js:71-76 | closing clears the cached connection, and fails when there is none (`this._conn.close()` on null) |
| Storage.ConnectionReused | lib/task-queue/Storage.js:134-141 | asking twice gives the same connection and opens at most one |
| Storage.CloseThenReopen | lib/task-queue/Storage.js:71-76 | after a close, the next request opens a connection that is new and distinct from the closed one |
| Storage.IndexOf | lib/task-queue/Storage.js:109 | the first position of a column name, or none exactly when the name is absent |
| Storage.ResultByName | lib/task-queue/Storage.js:109 | reading a column by name succeeds exactly when the row has that column with a value |
| Storage.ProjectRow | lib/task-queue/Storage.js:104-118 | with a columns array the item is an object whose keys are the columns in order of first occurrence, each holding the value read by that name; without one it is the array of the row's `numEntries` values by index. A failed read fails with the wrapping error, and the item is produced exactly when every read succeeds |
| Storage.ProjectColumns | lib/task-queue/Storage.js:106-110 | assigning each column in turn succeeds exactly when every column can be read; the object's keys are the columns in order of first occurrence, with no other properties, and each holds the value read by its name |
| Storage.ProjectEntries | lib/task-queue/Storage.js:112-116 | the array has one entry per `numEntries`, and entry i is the value at index i |
| Storage.FirstOccurrences | lib/task-queue/Storage.js:107-109 | the key order of an object filled by assignments in column order holds exactly the names assigned |
| Storage.FirstOccurrencesDistinct | lib/task-queue/Storage.js:107-109 | that key order lists each name once |
| Storage.FirstOccurrencesOfDistinct | lib/task-queue/Storage.js:107-109 | with distinct column names, the key order is the column order itself |
| Storage.ExecuteCached | lib/task-queue/Storage.js:91-126 | runs on the cached connection (opening one if needed). With a callback, rows go to the callback in order and the result is `[]`; the call fails exactly when the callback throws on some row, and no later row is delivered. Without a callback, the result is the projected rows in order, or the rethrown error of the first row that cannot be projected |
| Storage.DeliverRows | lib/task-queue/Storage.js:96-101 | each row is handed to the callback in order; the rows delivered are all rows when none throws, and otherwise end with the first row on which it throws |
| Storage.ProjectRows | lib/task-queue/Storage.js:96-124 | without a callback, every row is projected in order, and the call fails with the wrapping error exactly when some row cannot be projected |
| Storage.ResultByOwnName | lib/task-queue/Storage.js:106-110 | with distinct column names, reading a column by its own name gives that column's value |
| Storage.SelectedRowEqualsInserted | lib/task-queue/Storage.js:106-110 | selecting every column of a row by name rebuilds the row's name-to-value object with its keys in order of first occurrence; with distinct names the keys are the column names in order and each holds the value at its own position |
| TaskRouter.NewRouter | lib/task-queue/TaskRouter.js:23-29 | the constructor succeeds exactly when a processor map is given, keeps it as the routes, and otherwise throws "needs a map" |
| TaskRouter.NeedProcessing | lib/task-queue/TaskRouter.js:39-65 | a url with a task is not processed; a url with no page is; a stored page is processed exactly when it has expired and its blob is present |
| TaskRouter.NeedProcessingDecision | lib/task-queue/TaskRouter.js:39-65 | on a valid pages table the check never fails, and answers true exactly when no task tracks the url and the page is missing, or has expired with its blob present |
| TaskRouter.SaveTasks | lib/task-queue/TaskRouter.js:86-92 | saving one task per processor keeps the tasks table valid, yields one task per processor, and advances the largest id by their number |
| TaskRouter.SaveTasksCreated | lib/task-queue/TaskRouter.js:86-89 | the i-th saved task is a NEW task for the url with the i-th processor's type, under the i-th id after the old largest |
| TaskRouter.SaveTasksKeys | lib/task-queue/TaskRouter.js:86-92 | the saved table holds exactly the old ids and the new ones |
| TaskRouter.SaveTasksKeepsRows | lib/task-queue/TaskRouter.js:86-92 | existing task rows are left unchanged |
| TaskRouter.SaveTasksNewRows | lib/task-queue/TaskRouter.js:86-92 | each new id holds the WorkerTask saved under it |
| TaskRouter.Zip | lib/task-queue/TaskRouter.js:86-88 | each processor is paired with the WorkerTask handed to its `enqueue`, in processor order |
| TaskRouter.WritePage | lib/task-queue/TaskRouter.js:79-83 | the page write stores the page row for the url and the blob under its path holding the captured DOM, and leaves the tasks, the dispatch log, the lock, the queue and the in-flight section alone |
| TaskRouter.SaveAndEnqueue | lib/task-queue/TaskRouter.js:86-92 | saving and enqueueing the tasks keeps the tasks table valid and leaves the pages, blobs, lock, queue and in-flight section alone |
| TaskRouter.PersistEffects | lib/task-queue/TaskRouter.js:79-92 | writing the page and then the tasks stores the page row, the blob under the page's path holding the captured DOM, and one saved task per processor under the next ids, old rows untouched; each processor is enqueued with its task |
| TaskRouter.SaveAndDispatch | lib/task-queue/TaskRouter.js:86-92 | the dispatch log gains each processor in order with the NEW task saved for it, and that task is the row stored under its id |
| TaskRouter.PersistDispatch | lib/task-queue/TaskRouter.js:86-92 | the admission's dispatch log is the old log followed by each processor with its saved task |
| TaskRouter.MakeFreshPage | lib/task-queue/TaskRouter.js:79 | `new Page({url})` on a non-empty url is the default page for that url at `now` |
| TaskRouter.Admit | lib/task-queue/TaskRouter.js:77-93 | the critical section never touches the lock, the queue or the in-flight section, keeps the tasks table valid, and writes no task when it fails |
| TaskRouter.AdmitSkip | lib/task-queue/TaskRouter.js:77-78 | a message that does not need processing changes nothing |
| TaskRouter.AdmitEmptyUrl | lib/task-queue/TaskRouter.js:77-80 | an admitted message with an empty url makes the Page constructor throw before anything is written |
| TaskRouter.AdmitWrites | lib/task-queue/TaskRouter.js:77-93 | an admitted message with a url whose type the running routes know writes exactly the page, its blob and its tasks, and nothing else |
| TaskRouter.AdmitUnrouted | lib/task-queue/TaskRouter.js:77-86 | an admitted message with a url whose type the running routes do not know has its page and blob written, and then fails (`this.routes.get(type)` is undefined) before any task is saved |
| TaskRouter.HandleMessage | lib/task-queue/TaskRouter.js:113-128 | fails with "should contain a type" on a falsy type and "No route defined" on a type the handling router does not know, in that order, and succeeds otherwise. On success the lock is held and the stores are untouched: a held lock queues the message, a free one starts its critical section under the handling router's routes |
| TaskRouter.Complete | lib/task-queue/TaskRouter.js:73-100 | runs the in-flight section under its own routes. After success the lock is released when nothing waits; otherwise the most recently queued message is popped and its critical section begins under the same routes. An error leaves the lock held, the queue as it was and the tasks untouched, and only a missing route leaves a page written |
| TaskRouter.InitialInv | lib/task-queue/TaskRouter.js:11-14 | the initial state (lock free, queue empty, empty tables) satisfies the router invariant |
| TaskRouter.HandleMessagePreservesInv | lib/task-queue/TaskRouter.js:113-128 | any router handling any message keeps the invariant: the lock is held whenever something is in flight or queued, every pending message has a type, the tables are valid, stored pages have their blobs, and tasks have their pages |
| TaskRouter.AdmittedPagesInv | lib/task-queue/TaskRouter.js:79-83 | an admission adds exactly the url to the pages table, keeps the table valid, and gives every stored page a blob |
| TaskRouter.AdmittedTaskUrls | lib/task-queue/TaskRouter.js:86-89 | an admission only adds tasks whose page is stored |
| TaskRouter.AdmitPreservesInv | lib/task-queue/TaskRouter.js:77-93 | a critical section under any routes keeps the invariant, whether it admits, skips, or fails part-way |
| TaskRouter.CompletePreservesInv | lib/task-queue/TaskRouter.js:73-101 | finishing a critical section keeps the invariant, whatever routes it runs with and whether it admits, skips or fails |
| TaskRouter.FreshUrlCreatesOneTask | lib/task-queue/TaskRouter.js:73-128 | a message for an unseen url, handled from the initial state, stores its page and DOM, saves and enqueues exactly one task (id 1, NEW), and frees the lock |
| TaskRouter.SameUrlTwiceCreatesOneTask | lib/task-queue/TaskRouter.js:39-45 | a second message for the same url, arriving while the first is in flight, is queued, replayed and skipped: there is still exactly one task |
| TaskRouter.EmptyUrlWedgesLock | lib/task-queue/TaskRouter.js:75-80 | a message with an empty url makes the critical section throw with the lock held, so every later message is only queued |
| TaskRouter.ReplayUsesFinishingRoutes | lib/task-queue/TaskRouter.js:73-100 | with two routers sharing the lock, a message deferred by one is replayed under the other's routes; when those lack its type, its page and blob are written, no task tracks its url, and the lock stays held |
| UrlNormalize.Split | lib/task-queue/utils.js:40 | `split("&")` gives at least one piece, and no piece contains `&` |
| UrlNormalize.JoinSplit | lib/task-queue/utils.js:40 | joining the pieces with `&` gives the query back |
| UrlNormalize.SplitJoin | lib/task-queue/utils.js:40 | splitting a join of `&`-free pieces gives the pieces back |
| UrlNormalize.Join | lib/task-queue/utils.js:40 | `join("&")` starts with the first part, and every character is `&` or comes from some part |
| UrlNormalize.LessEqTotal | lib/task-queue/utils.js:40 | the character order used for sorting is total |
| UrlNormalize.LessEqTrans | lib/task-queue/utils.js:40 | that order is transitive |
| UrlNormalize.LessEqAntisym | lib/task-queue/utils.js:40 | that order is antisymmetric |
| UrlNormalize.Insert | lib/task-queue/utils.js:40 | inserting into a sorted list keeps it sorted and adds exactly the element |
| UrlNormalize.Sort | lib/task-queue/utils.js:40 | the result is sorted and a permutation of the input |
| UrlNormalize.SortedUnique | lib/task-queue/utils.js:40 | two sorted permutations of each other are equal, so the sorted order is unique |
| UrlNormalize.SortOfSorted | lib/task-queue/utils.js:40 | sorting a sorted list changes nothing |
| UrlNormalize.ReplacePlus | lib/task-queue/utils.js:43 | no `+` survives, each `+` grows the string by two, and no character outside the input and `%20` appears |
| UrlNormalize.ReplacePlusConcat | lib/task-queue/utils.js:43 | the replacement works piece by piece over a concatenation |
| UrlNormalize.ReplacePlusNoPlus | lib/task-queue/utils.js:43 | a string without `+` is unchanged |
| UrlNormalize.UpperHex | lib/task-queue/utils.js:46 | upper-casing keeps hex digits hex and leaves no lower-case hex letter |
| UrlNormalize.UpperEscapes | lib/task-queue/utils.js:46 | escape normalisation keeps the length |
| UrlNormalize.UpperEscapesChars | lib/task-queue/utils.js:46 | only the two hex digits after a `%` change, and only to their upper case |
| UrlNormalize.UpperEscapesUpper | lib/task-queue/utils.js:46 | after normalisation every `%xx` escape is upper case |
| UrlNormalize.UpperEscapesFixed | lib/task-queue/utils.js:46 | a string whose escapes are already upper case is unchanged |
| UrlNormalize.UpperEscapesAroundSep | lib/task-queue/utils.js:46 | normalising escapes across an `&` is normalising each side, since no escape spans the `&` |
| UrlNormalize.FixParam | lib/task-queue/utils.js:43-46 | a rewritten parameter has no `+` and only upper-case escapes |
| UrlNormalize.FixAll | lib/task-queue/utils.js:43-46 | every parameter is rewritten, in place |
| UrlNormalize.RewriteJoined | lib/task-queue/utils.js:40-46 | rewriting the joined query is joining the rewritten parameters |
| UrlNormalize.NormalizeQuery | lib/task-queue/utils.js:38-47 | the rewritten query has no `+` and only upper-case escapes |
| UrlNormalize.NormalizeQueryParams | lib/task-queue/utils.js:38-49 | the parameters of the normalised query are the rewritten parameters of the sorted query, in that order |
| UrlNormalize.NormalizeQueryKeepsOut | lib/task-queue/utils.js:38-49 | the query rewriting introduces no character other than `&`, `%` and hex digits, in particular no `#` |
| UrlNormalize.NormalizeUrl | lib/task-queue/utils.js:26-33 | a URL the parser rejects normalises to the empty string |
| UrlNormalize.SplitAtFirst | lib/task-queue/utils.js:48-55 | splitting at the first `?` or `#` recovers the text before it and after it |
| UrlNormalize.NormalizeUrlComponents | lib/task-queue/utils.js:26-56 | reading the result back: up to `?` is the pre-path and file path; between `?` and `#` is the normalised query, present exactly when the query is not empty; after `#` is the reference, present exactly when it is kept and not empty |
| UrlNormalize.NormalizeUrlReference | lib/task-queue/utils.js:51-55 | the part before `#` is everything but the reference, and what follows `#` is the reference exactly when it is kept and non-empty |
| UrlNormalize.ReadReference | lib/task-queue/utils.js:51-53 | an appended `#ref` is found again after the first `#` |
| UrlNormalize.ReadQuery | lib/task-queue/utils.js:48 | an appended `?query` is found again after the first `?` |
| UrlNormalize.FixParamFixed | lib/task-queue/utils.js:43-46 | a parameter with no `+` and upper-case escapes is its own rewrite |
| UrlNormalize.NormalizeQueryIntended | lib/task-queue/utils.js:13-15 | the corrected query's parameters are sorted, are the rewritten parameters as a multiset, and each is free of `+` with upper-case escapes |
| UrlNormalize.SortedRewrittenParams | lib/task-queue/utils.js:13-15 | sorting the rewritten parameters keeps each free of `&` and `+`, so splitting their join gives them back |
| UrlNormalize.IntendedParams | lib/task-queue/utils.js:13-15 | the corrected query's parameters are the rewritten parameters, sorted, each free of `+` and with upper-case escapes |
| UrlNormalize.IntendedIdempotent | lib/task-queue/utils.js:8-16 | normalising a query the corrected way twice is normalising it once |
| UrlNormalize.EscapeCaseChangesOrder | lib/task-queue/utils.js:40-46 | as written, `%2b&%2C` and `%2B&%2C` (the same parameters) normalise differently, and normalising `%2b&%2C` twice differs from normalising it once |
| UrlNormalize.EscapeCaseIntended | lib/task-queue/utils.js:13-15 | the corrected rewriting gives the same `%2B&%2C` for both spellings |
| UrlNormalize.AsWrittenLower | lib/task-queue/utils.js:40-46 | as written, `%2b&%2C` normalises to `%2C&%2B`, with the parameters out of order |
| UrlNormalize.AsWrittenUpper | lib/task-queue/utils.js:40-46 | as written, `%2B&%2C` and `%2C&%2B` both normalise to `%2B&%2C` |
| UrlNormalize.CounterexampleOrder | lib/task-queue/utils.js:40 | `%2C` sorts before `%2b` but after `%2B` |
| UrlNormalize.CounterexampleRewrite | lib/task-queue/utils.js:46 | `%2b` rewrites to `%2B`, and `%2B` and `%2C` are already normal |
| UrlNormalize.NormalizeTwo | lib/task-queue/utils.js:38-49 | a two-parameter query normalises to its sorted parameters, each rewritten |
| UrlNormalize.IntendedTwo | lib/task-queue/utils.js:13-15 | with the corrected rewriting, either spelling of `%2B` followed by `%2C` gives `%2B&%2C` |
| UrlNormalize.IntendedOfTwo | lib/task-queue/utils.js:13-15 | a two-parameter query normalises the corrected way to its rewritten parameters, sorted |
| ActivityFeed.Sessions | content-src/components/ActivityFeed/ActivityFeed.js:96-107 | there is always at least one session (an empty list gives `[[]]`), and the first session starts with the first site |
| ActivityFeed.GroupSitesBySession | content-src/components/ActivityFeed/ActivityFeed.js:96-107 | the source's loop (push the site onto the current session, open a new session when the next site is more than `SESSION_DIFF` away) computes `Sessions` |
| ActivityFeed.SessionsStep | content-src/components/ActivityFeed/ActivityFeed.js:101-104 | one more site either starts a new session after a gap or extends the last session |
| ActivityFeed.PushSite | content-src/components/ActivityFeed/ActivityFeed.js:99-104 | one loop step: pushing a site onto the last session, after a new empty session was opened at a gap, gives the sessions of the longer prefix |
| ActivityFeed.SessionsOfNothing | content-src/components/ActivityFeed/ActivityFeed.js:97 | no sites give one empty session |
| ActivityFeed.SessionsSplit | content-src/components/ActivityFeed/ActivityFeed.js:96-107 | the sessions of non-empty sites are non-empty, concatenate back to the sites in order, have no gap inside a session, and a gap at every boundary |
| ActivityFeed.SessionSplitUnique | content-src/components/ActivityFeed/ActivityFeed.js:96-107 | any split with those properties is the function's result, so the sessions are exactly the maximal gap-free runs |
| ActivityFeed.LastOfSplit | content-src/components/ActivityFeed/ActivityFeed.js:99-101 | the last session of a split ends with the last site |
| ActivityFeed.Bucket | content-src/components/ActivityFeed/ActivityFeed.js:111-122 | the days listed are exactly the days with an entry in the map, and no day's list is empty |
| ActivityFeed.BucketKeys | content-src/components/ActivityFeed/ActivityFeed.js:117-121 | the days listed are exactly the keys of the map, each listed once |
| ActivityFeed.BucketContents | content-src/components/ActivityFeed/ActivityFeed.js:111-122 | the list under each day is that day's dated sites, in input order |
| ActivityFeed.DaysPresent | content-src/components/ActivityFeed/ActivityFeed.js:111-122 | a day is listed exactly when some site with an integer date falls on it; undated sites are skipped |
| ActivityFeed.DaysOrder | content-src/components/ActivityFeed/ActivityFeed.js:117-121 | days are listed in order of their first site: each site of a later day comes after some site of every earlier day |
| ActivityFeed.GroupSitesByDate | content-src/components/ActivityFeed/ActivityFeed.js:109-128 | the days listed are exactly the days with sessions, and each day's sessions are non-empty, starting with a non-empty session |
| ActivityFeed.GroupedByDay | content-src/components/ActivityFeed/ActivityFeed.js:109-128 | the result lists each day with a dated site once, in the map's insertion order, and under each day puts the (non-empty) sessions of that day's sites |
| ActivityFeed.OnDayHas | content-src/components/ActivityFeed/ActivityFeed.js:117-121 | a site dated on a day puts something under that day |
| ActionManager.Notify | common/action-manager.js:29-38 | a notification has keys `type` and `meta`, then `data` exactly when the data is truthy |
| ActionManager.NotifyRead | common/action-manager.js:29-38 | a notification reads back as the type with the data when truthy, no error, and meta `{broadcast: "content-to-addon"}` |
| ActionManager.Response | common/action-manager.js:40-49 | a response has `type`, then `data` when given, `error` when `options.error` is truthy, and `meta` when `options.append` is truthy |
| ActionManager.ResponseRead | common/action-manager.js:40-49 | a response reads back as its type and data, an error exactly when `options.error` is truthy, and meta `{append: true}` exactly when `options.append` is truthy |
| ActionManager.RequestMeta | common/action-manager.js:52-64 | a request's meta has `broadcast` and `expect`, then `timeout` when truthy, then `append` when truthy, and reads back as exactly those values |
| ActionManager.RequestExpect | common/action-manager.js:51-66 | a request has keys `type` and `meta`, then `data` exactly when `options.data` is truthy |
| ActionManager.RequestExpectRead | common/action-manager.js:51-66 | a request reads back as a broadcast of its type that expects the response type, with data, timeout and append taken from the truthy options |
| ActionManager.TopFrecentNames | common/action-manager.js:5-27 | evaluating the constants: the top-frecent request and response are declared types, the response swaps the request's suffix, and it carries sites |
| ActionManager.BookmarksNames | common/action-manager.js:5-27 | the same for the recent-bookmarks pair |
| ActionManager.RecentLinksNames | common/action-manager.js:5-27 | the same for the recent-links pair |
| ActionManager.HighlightsLinksNames | common/action-manager.js:5-27 | the same for the highlights pair |
| ActionManager.RequestTopFrecent | common/action-manager.js:68-70 | `RequestTopFrecent` is a declared request of its own type expecting its declared response, which carries sites |
| ActionManager.RequestBookmarks | common/action-manager.js:72-74 | the same for `RequestBookmarks`, whatever the options |
| ActionManager.RequestRecentLinks | common/action-manager.js:76-78 | the same for `RequestRecentLinks`, whatever the options |
| ActionManager.RequestHighlightsLinks | common/action-manager.js:80-82 | the same for `RequestHighlightsLinks` |
| ActionManager.ActionsWithSitesDeclared | common/action-manager.js:20-27 | every action with sites is a declared action type |
| ActionManager.NotifyPerformSearch | common/action-manager.js:84-86 | a search notification is a declared type, broadcast with its data when truthy |
| ActionManager.NotifyEvent | common/action-manager.js:88-99 | an invalid `page` fails first, then an invalid `event`, then a truthy `source` that is not valid; the event succeeds exactly when all three checks pass, and each error names the offending value |
| ActionManager.NotifyEventRead | common/action-manager.js:88-99 | a valid event is broadcast as `NOTIFY_USER_EVENT` with its data object unchanged |

## Left out

- The SQL text, table creation and dropping (`asyncCreateTables`, `asyncDropTables`), `executeBeforeShutdown` and `Sqlite.openConnection` are left out. The pages table is a map keyed by url, and the tasks table is a map keyed by id.
- The `moz_pages` schema (lib/task-queue/Storage.js:19) names a column `expiry`, while `asyncSave` (lib/task-queue/Page.js:84) inserts into `maxAge`. The model stores `maxAge` as the save intends. Whether SQLite accepts that statement is outside the model.
- `WorkerTask.js` is not part of this model. Its contract comes from its tests. The strings "working" and "done" for `TASK_WORKING` and `TASK_DONE` are assumed, because only "new" appears as a literal. `WorkerTask.asyncGetByUrl` is reduced to whether some task row has the url, since the router uses only its truthiness.
- WorkerTask.JobStarted: stamps `now` only when no start time is recorded. The tests only pin down the fresh-task case.
- Task ids are modelled as "one more than the largest id so far". This agrees with SQLite's `INTEGER PRIMARY KEY` because rows are never deleted.
- `Storage.getFile` and `Storage.saveFile` (file I/O) become a map from path to content. A blob counts as present when its content is not empty, since the router tests its truthiness.
- `generateUUID`, `Date.now()` and moment's `startOf("day").format()` are parameters (`freshToken`, `now`, `day`). The UUID's brace stripping (`slice(1, -1)`) is part of the parameter.
- The asynchronous interleaving within the router is reduced to two atomic transitions around the critical section. `processor.enqueue` is recorded in a dispatch log.
- TaskRouter.SaveTasks: the source starts every processor's `task.save()` at once and waits for all of them with `Promise.all`, so the ids handed out and the order of the `enqueue` calls follow the order in which the saves complete. The model fixes both to processor order, one admissible completion order among several.
- TaskRouter.Complete: a failing `task.save()` or `processor.enqueue` inside `Promise.all` is not modelled; the only failures inside the critical section are the page lookup, the Page constructor and a missing route.
- Storage.ProjectRow: JavaScript lists integer-like property names (such as `"0"`) before all others, whatever the assignment order. The model keeps assignment order for every name.
- URL parsing (`newURI` as `nsIURL`) is not modelled. Its outcome is the input: a parse failure, or the pre-path, file path, query and reference. Lower-casing the host and adding the leading `/` happen in the parser.
- UrlNormalize.Sort: orders by Unicode scalar value, while JavaScript's `sort()` compares UTF-16 code units. The two differ only between supplementary-plane characters and U+E000–U+FFFF.
- UrlNormalize.NormalizeUrl: its doc comment promises `undefined` for invalid URLs and `%20` for whitespace. The code returns `""` and leaves whitespace to the parser; the model follows the code.
- `keepReference` defaults to true in the source. The model always takes it as an argument.
- ActivityFeed: a site is reduced to its url and an integer date, or none. A non-integer number (a float date) is treated like a missing date. This is right for `groupSitesByDate` (`Number.isInteger`). In `groupSitesBySession`, a float date would still be compared, so float dates are not modelled there.
- ActionManager: `am.type(t)` is taken to be `t` itself, since `ActionManager.js` is not part of this model. The event constants are a parameter of `NotifyEvent`.
- ActionManager.Response: with `data` undefined the key is omitted, as `JSON.stringify` does. `options = null` (which throws in the source) is not modelled, and missing options are `NO_OPTIONS`.
- Page immutability (`Object.freeze`, test/test-Page.js:26-32) holds by construction: datatype values cannot be assigned.
- `Page.expiration` has no row of its own. It is used, and its meaning stated, through `TaskRouter.NeedProcessing`.

## Findings

| source | as written | input that shows it | evidently intended | confidence | as-written member | corrected member |
|---|---|---|---|---|---|---|
| lib/task-queue/utils.js:40-46 | the query parameters are sorted before escapes are upper-cased, so the order depends on how the escapes were spelled | `%2b&%2C` normalises to `%2C&%2B`, while the same parameters spelled `%2B&%2C` normalise to `%2B&%2C`; normalising `%2C&%2B` again gives `%2B&%2C`, so the function is not idempotent | rewrite each parameter first and then sort, so that equivalent queries normalise to the same string and normalising twice changes nothing | medium, not executed | UrlNormalize.EscapeCaseChangesOrder | UrlNormalize.IntendedIdempotent |
