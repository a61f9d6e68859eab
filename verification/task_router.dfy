/** The admission state machine of lib/task-queue/TaskRouter.js.

    The process-wide `lock` and LIFO `mutexQueue`, the pages table, the blob
    directory and the tasks table form one `State`. The asynchronous
    `asyncCreateTasks` becomes two transitions: `HandleMessage` begins its
    critical section (setting the lock, which the source does before its
    first suspension point), and `Complete` runs the admission check and
    the writes, releases the lock and replays the most recently deferred
    message. Any number of `HandleMessage` steps may come in between, which
    is the interleaving the lock exists for.

    The lock and the queue are shared by every router in the process, but a
    critical section reads the routes of the router running it, and a
    replayed message runs under the router that finished the previous
    section, not the one that deferred it. So the in-flight `Section`
    records the routes it runs with. */
module TaskRouter {
  import opened Wrappers
  import Json
  import Page
  import WorkerTask

  /** A registered processor; `enqueue` is recorded in `State.dispatched`. */
  datatype Processor = Processor(taskType: string)

  /** Message type to the processors that handle it. */
  type Routes = map<string, seq<Processor>>

  datatype MessageData = MessageData(url: string, data: string)

  /** A capture message; `msgType` is `None` when the property is missing. */
  datatype Message = Message(msgType: Option<string>, data: MessageData)

  datatype RouterError =
    | NeedsMap                        // "TaskRouter needs a map as argument."
    | MissingType                     // "Worker queue messages should contain a type."
    | NoRoute(msgType: string)        // "No route defined for message of type: ..."
    | PageRejected(e: Page.PageError) // the Page constructor threw inside the critical section
    | NoProcessors(missingType: Option<string>) // the running router has no processors for the type

  datatype Router = Router(routes: Routes)

  /** `new TaskRouter(processorMap)`: any map is accepted, a missing one is not. */
  function NewRouter(processorMap: Option<Routes>): (r: Result<Router, RouterError>)
    ensures r.Success? <==> processorMap.Some?
    ensures r.Success? ==> r.value.routes == processorMap.value
    ensures r.Failure? ==> r.error == NeedsMap
  {
    match processorMap
    case None => Failure(NeedsMap)
    case Some(m) => Success(Router(m))
  }

  /** A critical section that has begun: the message, and the routes of the
      router whose `asyncCreateTasks` runs it. */
  datatype Section = Section(message: Message, routes: Routes)

  /** Everything the routers read and write. `inFlight` is the critical
      section that has begun and not yet finished. */
  datatype State = State(
    lock: bool,
    mutexQueue: seq<Message>,
    inFlight: Option<Section>,
    pages: Page.PageTable,
    blobs: map<string, string>,
    tasks: WorkerTask.TaskTable,
    dispatched: seq<(Processor, WorkerTask.Task)>)

  /** Lock free, nothing pending, empty tables. */
  const INITIAL: State := State(false, [], None, map[], map[], WorkerTask.EMPTY_TABLE, [])

  /** The page, blob and task stores of `s'` are those of `s`. */
  predicate SameStores(s: State, s': State) {
    s'.pages == s.pages && s'.blobs == s.blobs && s'.tasks == s.tasks && s'.dispatched == s.dispatched
  }

  /** `Storage.getFile(path)` yields content that is not falsy. */
  predicate BlobPresent(blobs: map<string, string>, path: string) {
    path in blobs && blobs[path] != ""
  }

  /** `asyncNeedProcessing(url)` at time `now`. */
  function NeedProcessing(s: State, url: string, now: int, freshToken: string): (r: Result<bool, Page.PageError>)
    ensures WorkerTask.HasTaskFor(s.tasks, url) ==> r == Success(false)
    ensures !WorkerTask.HasTaskFor(s.tasks, url) && url !in s.pages ==> r == Success(true)
    ensures Page.TableValid(s.pages) && !WorkerTask.HasTaskFor(s.tasks, url) && url in s.pages ==>
              r == Success(s.pages[url].createdAt + s.pages[url].maxAge <= now
                           && BlobPresent(s.blobs, s.pages[url].path))
  {
    if WorkerTask.HasTaskFor(s.tasks, url) then Success(false)
    else
      match Page.GetByUrl(s.pages, url, now, freshToken)
      case Failure(e) => Failure(e)
      case Success(None) => Success(true)
      case Success(Some(page)) =>
        if page.Expiration() > now then Success(false)
        else Success(BlobPresent(s.blobs, page.path))
  }

  /** The decision table: a page needs processing exactly when no task tracks
      its url and either no page is stored, or the stored page has expired
      and its blob is present. A stored page that has expired but lost its
      blob is skipped. */
  lemma NeedProcessingDecision(s: State, url: string, now: int, freshToken: string)
    requires Page.TableValid(s.pages)
    ensures NeedProcessing(s, url, now, freshToken).Success?
    ensures NeedProcessing(s, url, now, freshToken).value <==>
              && !WorkerTask.HasTaskFor(s.tasks, url)
              && (|| url !in s.pages
                  || (s.pages[url].createdAt + s.pages[url].maxAge <= now
                      && BlobPresent(s.blobs, s.pages[url].path)))
  {
  }

  /** Creates and saves one new task per processor, in order. Returns the
      table and the saved tasks. */
  function SaveTasks(tb: WorkerTask.TaskTable, url: string, ps: seq<Processor>, now: int)
    : (r: (WorkerTask.TaskTable, seq<WorkerTask.Task>))
    requires WorkerTask.Valid(tb)
    ensures WorkerTask.Valid(r.0)
    ensures |r.1| == |ps|
    ensures r.0.lastId == tb.lastId + |ps|
    decreases |ps|
  {
    if ps == [] then (tb, [])
    else
      var (tb1, ts) := SaveTasks(tb, url, ps[..|ps| - 1], now);
      var (tb2, t) := WorkerTask.Save(tb1, WorkerTask.NewTask(url, ps[|ps| - 1].taskType, now));
      (tb2, ts + [t])
  }

  /** The WorkerTask saved for the i-th processor when the table's largest id was
      `lastId`: a NEW task for the url with that processor's type. */
  function CreatedTask(url: string, ps: seq<Processor>, now: int, lastId: int, i: nat): WorkerTask.Task
    requires i < |ps|
  {
    WorkerTask.NewTask(url, ps[i].taskType, now).(id := Some(lastId + 1 + i))
  }

  /** The i-th saved task is the i-th processor's NEW task, under the i-th id
      after the old largest one. */
  lemma {:induction false} SaveTasksCreated(tb: WorkerTask.TaskTable, url: string, ps: seq<Processor>, now: int)
    requires WorkerTask.Valid(tb)
    ensures forall i :: 0 <= i < |ps| ==>
              SaveTasks(tb, url, ps, now).1[i] == CreatedTask(url, ps, now, tb.lastId, i)
    decreases |ps|
  {
    if ps != [] {
      var init := ps[..|ps| - 1];
      SaveTasksCreated(tb, url, init, now);
      forall i | 0 <= i < |init| ensures CreatedTask(url, init, now, tb.lastId, i) == CreatedTask(url, ps, now, tb.lastId, i) {
        assert init[i] == ps[i];
      }
    }
  }

  /** The saved table holds exactly the old ids and the new ones. */
  lemma {:induction false} SaveTasksKeys(tb: WorkerTask.TaskTable, url: string, ps: seq<Processor>, now: int)
    requires WorkerTask.Valid(tb)
    ensures forall k :: k in SaveTasks(tb, url, ps, now).0.rows <==> k in tb.rows || tb.lastId < k <= tb.lastId + |ps|
    decreases |ps|
  {
    if ps != [] {
      SaveTasksKeys(tb, url, ps[..|ps| - 1], now);
    }
  }

  /** The old rows are left unchanged. */
  lemma {:induction false} SaveTasksKeepsRows(tb: WorkerTask.TaskTable, url: string, ps: seq<Processor>, now: int)
    requires WorkerTask.Valid(tb)
    ensures forall k :: k in tb.rows ==> k in SaveTasks(tb, url, ps, now).0.rows
    ensures forall k :: k in tb.rows ==> SaveTasks(tb, url, ps, now).0.rows[k] == tb.rows[k]
    decreases |ps|
  {
    if ps != [] {
      SaveTasksKeepsRows(tb, url, ps[..|ps| - 1], now);
    }
  }

  /** The i-th saved task sits under the i-th id after `lastId`. */
  ghost predicate NewRowAt(r: (WorkerTask.TaskTable, seq<WorkerTask.Task>), lastId: int, i: nat) {
    && i < |r.1|
    && lastId + 1 + i in r.0.rows
    && r.0.rows[lastId + 1 + i] == r.1[i]
  }

  /** Each new id holds the WorkerTask saved under it. */
  lemma {:induction false} SaveTasksNewRows(tb: WorkerTask.TaskTable, url: string, ps: seq<Processor>, now: int)
    requires WorkerTask.Valid(tb)
    ensures forall i :: 0 <= i < |ps| ==> NewRowAt(SaveTasks(tb, url, ps, now), tb.lastId, i)
    decreases |ps|
  {
    if ps != [] {
      var init := ps[..|ps| - 1];
      SaveTasksNewRows(tb, url, init, now);
      var r1 := SaveTasks(tb, url, init, now);
      var saved := WorkerTask.Save(r1.0, WorkerTask.NewTask(url, ps[|ps| - 1].taskType, now));
      assert SaveTasks(tb, url, ps, now) == (saved.0, r1.1 + [saved.1]);
      assert saved.1.id == Some(tb.lastId + |ps|);
      forall i | 0 <= i < |ps| ensures NewRowAt((saved.0, r1.1 + [saved.1]), tb.lastId, i) {
        if i < |init| {
          assert NewRowAt(r1, tb.lastId, i);
          assert (r1.1 + [saved.1])[i] == r1.1[i];
        }
      }
    }
  }

  /** Pairs each processor with the WorkerTask handed to its `enqueue`. */
  function Zip(ps: seq<Processor>, ts: seq<WorkerTask.Task>): (r: seq<(Processor, WorkerTask.Task)>)
    requires |ps| == |ts|
    ensures |r| == |ps|
    ensures forall i :: 0 <= i < |r| ==> r[i] == (ps[i], ts[i])
  {
    if ps == [] then [] else [(ps[0], ts[0])] + Zip(ps[1..], ts[1..])
  }

  /** The routes know the message's type. */
  predicate Routed(routes: Routes, m: Message) {
    m.msgType.Some? && m.msgType.value in routes
  }

  /** The page `asyncCreateTasks` builds for an admitted url. */
  function FreshPage(url: string, now: int, freshToken: string): Page.Page {
    Page.Page(url, freshToken, Page.DEFAULT_MAX_AGE, false, now)
  }

  /** The page and blob an admission writes: the page row for the url, and
      the blob under the page's path holding the captured content. */
  predicate AdmittedPage(s: State, s': State, m: Message, now: int, freshToken: string) {
    var page := FreshPage(m.data.url, now, freshToken);
    && s'.pages == Page.Save(s.pages, page)
    && s'.blobs == s.blobs[page.path := m.data.data]
  }

  /** The tasks an admission writes: one new row per processor under the
      next ids, old rows untouched. */
  ghost predicate AdmittedRows(tb: WorkerTask.TaskTable, tb': WorkerTask.TaskTable, count: nat) {
    && tb'.lastId == tb.lastId + count
    && (forall k :: k in tb'.rows <==> k in tb.rows || tb.lastId < k <= tb.lastId + count)
    && (forall k :: k in tb.rows ==> tb'.rows[k] == tb.rows[k])
  }

  /** Each processor, in order, is appended to the dispatch log `d` with a
      NEW task for the url with its own task type, and that task is the row
      saved under its id in `rows'`. */
  ghost predicate DispatchedNew(d: seq<(Processor, WorkerTask.Task)>, d': seq<(Processor, WorkerTask.Task)>,
                                rows': map<int, WorkerTask.Task>, url: string, ps: seq<Processor>, now: int, lastId: int)
  {
    var n := |d|;
    && |d'| == n + |ps|
    && d'[..n] == d
    && (forall i :: 0 <= i < |ps| ==>
          && d'[n + i].0 == ps[i]
          && d'[n + i].1 == CreatedTask(url, ps, now, lastId, i)
          && lastId + 1 + i in rows'
          && rows'[lastId + 1 + i] == d'[n + i].1)
  }

  /** The dispatch part of an admission of `m`. */
  ghost predicate AdmittedDispatch(s: State, s': State, m: Message, ps: seq<Processor>, now: int) {
    DispatchedNew(s.dispatched, s'.dispatched, s'.tasks.rows, m.data.url, ps, now, s.tasks.lastId)
  }

  /** What an admission of `m` writes, given the processors `ps` of its type,
      and nothing else. */
  ghost predicate Admitted(s: State, s': State, m: Message, ps: seq<Processor>, now: int, freshToken: string) {
    && s'.lock == s.lock && s'.mutexQueue == s.mutexQueue && s'.inFlight == s.inFlight
    && AdmittedPage(s, s', m, now, freshToken)
    && AdmittedRows(s.tasks, s'.tasks, |ps|)
    && AdmittedDispatch(s, s', m, ps, now)
  }

  /** The first writes of an admitted message: the page row, then the blob
      holding the captured content under the page's path. */
  function WritePage(s: State, m: Message, now: int, freshToken: string): (s': State)
    ensures AdmittedPage(s, s', m, now, freshToken)
    ensures s'.tasks == s.tasks && s'.dispatched == s.dispatched
    ensures s'.lock == s.lock && s'.mutexQueue == s.mutexQueue && s'.inFlight == s.inFlight
  {
    var page := FreshPage(m.data.url, now, freshToken);
    s.(pages := Page.Save(s.pages, page), blobs := s.blobs[page.path := m.data.data])
  }

  /** The last writes of an admitted message: one saved and enqueued task
      per processor. */
  function SaveAndEnqueue(s: State, ps: seq<Processor>, m: Message, now: int): (s': State)
    requires WorkerTask.Valid(s.tasks)
    ensures WorkerTask.Valid(s'.tasks)
    ensures s'.pages == s.pages && s'.blobs == s.blobs
    ensures s'.lock == s.lock && s'.mutexQueue == s.mutexQueue && s'.inFlight == s.inFlight
  {
    var (tasks', created) := SaveTasks(s.tasks, m.data.url, ps, now);
    s.(tasks := tasks', dispatched := s.dispatched + Zip(ps, created))
  }

  /** Writing the page and then the tasks is exactly what `Admitted`
      describes. */
  lemma PersistEffects(s: State, ps: seq<Processor>, m: Message, now: int, freshToken: string)
    requires WorkerTask.Valid(s.tasks)
    ensures Admitted(s, SaveAndEnqueue(WritePage(s, m, now, freshToken), ps, m, now), m, ps, now, freshToken)
  {
    var s1 := WritePage(s, m, now, freshToken);
    var s' := SaveAndEnqueue(s1, ps, m, now);
    var saved := SaveTasks(s.tasks, m.data.url, ps, now);
    SaveTasksKeys(s.tasks, m.data.url, ps, now);
    SaveTasksKeepsRows(s.tasks, m.data.url, ps, now);
    assert s'.tasks == saved.0;
    assert AdmittedRows(s.tasks, s'.tasks, |ps|);
    PersistDispatch(s1, ps, m, now);
  }

  /** Saving the tasks and appending each with its processor to the
      dispatch log is what `DispatchedNew` describes. */
  lemma SaveAndDispatch(d: seq<(Processor, WorkerTask.Task)>, tb: WorkerTask.TaskTable, url: string, ps: seq<Processor>, now: int)
    requires WorkerTask.Valid(tb)
    ensures var saved := SaveTasks(tb, url, ps, now);
            DispatchedNew(d, d + Zip(ps, saved.1), saved.0.rows, url, ps, now, tb.lastId)
  {
    var saved := SaveTasks(tb, url, ps, now);
    SaveTasksCreated(tb, url, ps, now);
    SaveTasksNewRows(tb, url, ps, now);
    var z := Zip(ps, saved.1);
    var n := |d|;
    assert (d + z)[..n] == d;
    forall i | 0 <= i < |ps|
      ensures (d + z)[n + i].0 == ps[i]
      ensures (d + z)[n + i].1 == CreatedTask(url, ps, now, tb.lastId, i)
      ensures tb.lastId + 1 + i in saved.0.rows
      ensures saved.0.rows[tb.lastId + 1 + i] == (d + z)[n + i].1
    {
      assert (d + z)[n + i] == z[i] == (ps[i], saved.1[i]);
      assert NewRowAt(saved, tb.lastId, i);
    }
  }

  /** The dispatch log gains each processor with its saved task. */
  lemma PersistDispatch(s: State, ps: seq<Processor>, m: Message, now: int)
    requires WorkerTask.Valid(s.tasks)
    ensures AdmittedDispatch(s, SaveAndEnqueue(s, ps, m, now), m, ps, now)
  {
    var saved := SaveTasks(s.tasks, m.data.url, ps, now);
    SaveAndDispatch(s.dispatched, s.tasks, m.data.url, ps, now);
    var s' := SaveAndEnqueue(s, ps, m, now);
    assert s'.tasks == saved.0 && s'.dispatched == s.dispatched + Zip(ps, saved.1);
  }

  /** The Page constructor on a url alone, at time `now`. */
  lemma MakeFreshPage(url: string, now: int, freshToken: string)
    requires url != ""
    ensures Page.MakePage(Page.PageInit(Some(url), None, None, None, None), now, freshToken)
            == Success(FreshPage(url, now, freshToken))
  {
  }

  /** The outcome of a critical section: the new state, and the error its
      promise rejected with, if any. */
  datatype Step = Step(state: State, error: Option<RouterError>)

  /** The body of the critical section for `m` under the running router's
      `routes`: decide, and when admitted save a new Page for the url, write
      the captured content to the blob at the page's path, and save and
      enqueue one task per processor of the type. When the routes have no
      processors for the type, the page and blob are already written when
      the section throws, and no task is saved. */
  function Admit(s: State, routes: Routes, m: Message, now: int, freshToken: string): (r: Step)
    requires WorkerTask.Valid(s.tasks)
    ensures r.state.lock == s.lock && r.state.mutexQueue == s.mutexQueue && r.state.inFlight == s.inFlight
    ensures WorkerTask.Valid(r.state.tasks)
    ensures r.error.Some? ==> r.state.tasks == s.tasks && r.state.dispatched == s.dispatched
  {
    match NeedProcessing(s, m.data.url, now, freshToken)
    case Failure(e) => Step(s, Some(PageRejected(e)))
    case Success(false) => Step(s, None)
    case Success(true) =>
      match Page.MakePage(Page.PageInit(Some(m.data.url), None, None, None, None), now, freshToken)
      case Failure(e) => Step(s, Some(PageRejected(e)))
      case Success(_) =>
        var s1 := WritePage(s, m, now, freshToken);
        if Routed(routes, m) then Step(SaveAndEnqueue(s1, routes[m.msgType.value], m, now), None)
        else Step(s1, Some(NoProcessors(m.msgType)))
  }

  /** `handleMessage(message)` on the router with `routes`: validate against
      its own routes, then defer the message while the lock is held, or begin
      its critical section under those routes. */
  function HandleMessage(s: State, routes: Routes, m: Message): (r: Result<State, RouterError>)
    ensures !Json.TruthyStr(m.msgType) ==> r == Failure(MissingType)
    ensures Json.TruthyStr(m.msgType) && m.msgType.value !in routes ==> r == Failure(NoRoute(m.msgType.value))
    ensures r.Success? <==> Json.TruthyStr(m.msgType) && m.msgType.value in routes
    ensures r.Success? ==> SameStores(s, r.value) && r.value.lock
    ensures r.Success? && s.lock ==> r.value == s.(mutexQueue := s.mutexQueue + [m])
    ensures r.Success? && !s.lock ==> r.value == s.(lock := true, inFlight := Some(Section(m, routes)))
  {
    if !Json.TruthyStr(m.msgType) then Failure(MissingType)
    else if m.msgType.value !in routes then Failure(NoRoute(m.msgType.value))
    else if s.lock then Success(s.(mutexQueue := s.mutexQueue + [m]))
    else Success(s.(lock := true, inFlight := Some(Section(m, routes))))
  }

  /** The end of `asyncCreateTasks` for the in-flight section: admit under
      its routes, clear the lock, and if messages are waiting pop the most
      recent one and begin its critical section under the same routes. An
      error inside the critical section skips the rest, so the lock stays
      held. */
  function Complete(s: State, now: int, freshToken: string): (r: Step)
    requires s.lock && s.inFlight.Some?
    requires WorkerTask.Valid(s.tasks)
    ensures r.error.Some? ==>
              && r.state.lock && r.state.inFlight.None? && r.state.mutexQueue == s.mutexQueue
              && r.state.tasks == s.tasks && r.state.dispatched == s.dispatched
    ensures r.error.Some? && !r.error.value.NoProcessors? ==> SameStores(s, r.state)
    ensures r.error.None? && s.mutexQueue == [] ==> !r.state.lock && r.state.inFlight.None?
    ensures r.error.None? && s.mutexQueue != [] ==>
              && r.state.lock
              && r.state.inFlight == Some(Section(s.mutexQueue[|s.mutexQueue| - 1], s.inFlight.value.routes))
              && r.state.mutexQueue == s.mutexQueue[..|s.mutexQueue| - 1]
  {
    var sec := s.inFlight.value;
    var a := Admit(s, sec.routes, sec.message, now, freshToken);
    if a.error.Some? then Step(a.state.(inFlight := None), a.error)
    else if a.state.mutexQueue == [] then
      Step(a.state.(lock := false, inFlight := None), None)
    else
      var last := |a.state.mutexQueue| - 1;
      Step(a.state.(inFlight := Some(Section(a.state.mutexQueue[last], sec.routes)),
                    mutexQueue := a.state.mutexQueue[..last]), None)
  }

  // ---------------------------------------------------------------------
  // Invariant

  /** The router state invariant, for any mix of routers sharing the lock:
      - the lock is held while a critical section runs or messages wait;
      - every message in flight or waiting has a type;
      - the tables are well formed;
      - every stored page has its blob, and every task's page is stored. */
  predicate Inv(s: State) {
    && (s.inFlight.Some? ==> s.lock)
    && (s.mutexQueue != [] ==> s.lock)
    && (s.inFlight.Some? ==> Json.TruthyStr(s.inFlight.value.message.msgType))
    && (forall i :: 0 <= i < |s.mutexQueue| ==> Json.TruthyStr(s.mutexQueue[i].msgType))
    && Page.TableValid(s.pages)
    && WorkerTask.Valid(s.tasks)
    && (forall u :: u in s.pages ==> s.pages[u].path in s.blobs)
    && (forall k :: k in s.tasks.rows ==> s.tasks.rows[k].pageUrl in s.pages)
  }

  lemma InitialInv()
    ensures Inv(INITIAL)
  {
  }

  /** Any router handling any message keeps the invariant. */
  lemma HandleMessagePreservesInv(s: State, routes: Routes, m: Message)
    requires Inv(s)
    ensures HandleMessage(s, routes, m).Success? ==> Inv(HandleMessage(s, routes, m).value)
  {
  }

  /** A message that is not admitted changes nothing. */
  lemma AdmitSkip(s: State, routes: Routes, m: Message, now: int, freshToken: string)
    requires WorkerTask.Valid(s.tasks)
    requires NeedProcessing(s, m.data.url, now, freshToken) == Success(false)
    ensures Admit(s, routes, m, now, freshToken) == Step(s, None)
  {
  }

  /** An admitted message whose url is empty makes the Page constructor throw
      before anything is written. */
  lemma AdmitEmptyUrl(s: State, routes: Routes, m: Message, now: int, freshToken: string)
    requires WorkerTask.Valid(s.tasks)
    requires NeedProcessing(s, m.data.url, now, freshToken) == Success(true) && m.data.url == ""
    ensures Admit(s, routes, m, now, freshToken) == Step(s, Some(PageRejected(Page.UrlMustBeDefined)))
  {
  }

  /** An admitted message with a url, whose type the running routes know,
      writes exactly what `Admitted` describes. */
  lemma AdmitWrites(s: State, routes: Routes, m: Message, now: int, freshToken: string)
    requires Routed(routes, m) && WorkerTask.Valid(s.tasks)
    requires NeedProcessing(s, m.data.url, now, freshToken) == Success(true) && m.data.url != ""
    ensures Admit(s, routes, m, now, freshToken).error.None?
    ensures Admitted(s, Admit(s, routes, m, now, freshToken).state, m, routes[m.msgType.value], now, freshToken)
  {
    MakeFreshPage(m.data.url, now, freshToken);
    PersistEffects(s, routes[m.msgType.value], m, now, freshToken);
  }

  /** An admitted message with a url, whose type the running routes do not
      know, leaves a page and its blob behind, saves no task, and fails. */
  lemma AdmitUnrouted(s: State, routes: Routes, m: Message, now: int, freshToken: string)
    requires !Routed(routes, m) && WorkerTask.Valid(s.tasks)
    requires NeedProcessing(s, m.data.url, now, freshToken) == Success(true) && m.data.url != ""
    ensures Admit(s, routes, m, now, freshToken).error == Some(NoProcessors(m.msgType))
    ensures AdmittedPage(s, Admit(s, routes, m, now, freshToken).state, m, now, freshToken)
  {
    MakeFreshPage(m.data.url, now, freshToken);
  }

  /** Writing an admission's page keeps every page's blob, and the table
      well formed. */
  lemma AdmittedPagesInv(s: State, s': State, m: Message, now: int, freshToken: string)
    requires Page.TableValid(s.pages) && forall u :: u in s.pages ==> s.pages[u].path in s.blobs
    requires AdmittedPage(s, s', m, now, freshToken)
    requires m.data.url != "" && now != 0 && freshToken != ""
    ensures Page.TableValid(s'.pages)
    ensures forall u :: u in s'.pages ==> s'.pages[u].path in s'.blobs
    ensures s'.pages.Keys == s.pages.Keys + {m.data.url}
  {
    assert Page.WellFormed(FreshPage(m.data.url, now, freshToken));
  }

  /** An admission only adds tasks whose page it stores. */
  lemma AdmittedTaskUrls(s: State, s': State, m: Message, ps: seq<Processor>, now: int)
    requires forall k :: k in s.tasks.rows ==> s.tasks.rows[k].pageUrl in s.pages
    requires s.pages.Keys <= s'.pages.Keys && m.data.url in s'.pages
    requires AdmittedRows(s.tasks, s'.tasks, |ps|) && AdmittedDispatch(s, s', m, ps, now)
    ensures forall k :: k in s'.tasks.rows ==> s'.tasks.rows[k].pageUrl in s'.pages
  {
    forall k | k in s'.tasks.rows ensures s'.tasks.rows[k].pageUrl in s'.pages {
      if k !in s.tasks.rows {
        var i := k - s.tasks.lastId - 1;
        assert 0 <= i < |ps|;
        assert k == s.tasks.lastId + 1 + i;
        assert s'.dispatched[|s.dispatched| + i].1 == CreatedTask(m.data.url, ps, now, s.tasks.lastId, i);
        assert s'.tasks.rows[k] == s'.dispatched[|s.dispatched| + i].1;
      }
    }
  }

  /** A critical section under any routes keeps the invariant, whether it
      admits, skips, or fails part-way. */
  lemma AdmitPreservesInv(s: State, routes: Routes, m: Message, now: int, freshToken: string)
    requires Inv(s)
    requires now != 0 && freshToken != ""
    ensures Inv(Admit(s, routes, m, now, freshToken).state)
  {
    var r := Admit(s, routes, m, now, freshToken);
    var need := NeedProcessing(s, m.data.url, now, freshToken);
    if need == Success(true) && m.data.url != "" {
      if Routed(routes, m) {
        AdmitWrites(s, routes, m, now, freshToken);
        AdmittedPagesInv(s, r.state, m, now, freshToken);
        AdmittedTaskUrls(s, r.state, m, routes[m.msgType.value], now);
      } else {
        AdmitUnrouted(s, routes, m, now, freshToken);
        AdmittedPagesInv(s, r.state, m, now, freshToken);
      }
    } else if need == Success(true) {
      AdmitEmptyUrl(s, routes, m, now, freshToken);
    } else if need == Success(false) {
      AdmitSkip(s, routes, m, now, freshToken);
    }
  }

  /** Finishing a critical section keeps the invariant, whether it admits,
      skips, or fails. */
  lemma CompletePreservesInv(s: State, now: int, freshToken: string)
    requires Inv(s) && s.inFlight.Some?
    requires now != 0 && freshToken != ""
    ensures Inv(Complete(s, now, freshToken).state)
  {
    AdmitPreservesInv(s, s.inFlight.value.routes, s.inFlight.value.message, now, freshToken);
  }

  // ---------------------------------------------------------------------
  // Scenarios

  /** One route, "metadata", with a single processor of that type. */
  const METADATA_ROUTES: Routes := map["metadata" := [Processor("metadata")]]

  /** Another router's routes, which share no type with `METADATA_ROUTES`. */
  const OTHER_ROUTES: Routes := map["other" := [Processor("other")]]

  function CaptureMessage(url: string, data: string): Message {
    Message(Some("metadata"), MessageData(url, data))
  }

  /** A message for a url never seen before, handled from the initial state,
      stores the page and its content, saves and enqueues exactly one task,
      and leaves the lock free. */
  lemma FreshUrlCreatesOneTask(url: string, data: string, now: int, freshToken: string)
    requires url != ""
    ensures var s1 := HandleMessage(INITIAL, METADATA_ROUTES, CaptureMessage(url, data));
            && s1.Success? && s1.value.lock
            && var st := Complete(s1.value, now, freshToken);
            && st.error.None?
            && !st.state.lock && st.state.mutexQueue == [] && st.state.inFlight.None?
            && st.state.tasks.rows.Keys == {1}
            && st.state.tasks.rows[1] == WorkerTask.NewTask(url, "metadata", now).(id := Some(1))
            && st.state.dispatched == [(Processor("metadata"), st.state.tasks.rows[1])]
            && st.state.pages.Keys == {url}
            && st.state.blobs == map[freshToken := data]
  {
    var m := CaptureMessage(url, data);
    var s1 := HandleMessage(INITIAL, METADATA_ROUTES, m).value;
    NeedProcessingDecision(s1, url, now, freshToken);
    AdmitWrites(s1, METADATA_ROUTES, m, now, freshToken);
    var s2 := Admit(s1, METADATA_ROUTES, m, now, freshToken).state;
    assert AdmittedDispatch(s1, s2, m, [Processor("metadata")], now);
    assert s2.tasks.rows.Keys == {1} by {
      assert forall k :: k in s2.tasks.rows <==> k == 1;
    }
    assert s2.dispatched == [s2.dispatched[0]];
  }

  /** A second message for the same url that arrives while the first is in
      flight is deferred, then replayed and skipped: one task in total. */
  lemma SameUrlTwiceCreatesOneTask(url: string, data: string, now: int, freshToken: string)
    requires url != ""
    ensures var m := CaptureMessage(url, data);
            var s1 := HandleMessage(INITIAL, METADATA_ROUTES, m).value;
            var s2 := HandleMessage(s1, METADATA_ROUTES, m);
            && s2.Success? && s2.value.mutexQueue == [m]
            && var st1 := Complete(s2.value, now, freshToken);
            && st1.error.None? && st1.state.lock && st1.state.mutexQueue == []
            && st1.state.inFlight == Some(Section(m, METADATA_ROUTES))
            && var st2 := Complete(st1.state, now, freshToken);
            && st2.error.None? && !st2.state.lock
            && st2.state.tasks == st1.state.tasks && st2.state.dispatched == st1.state.dispatched
            && st2.state.tasks.rows.Keys == {1}
  {
    var m := CaptureMessage(url, data);
    var s1 := HandleMessage(INITIAL, METADATA_ROUTES, m).value;
    var s2 := HandleMessage(s1, METADATA_ROUTES, m).value;
    FreshUrlCreatesOneTask(url, data, now, freshToken);
    var st1 := Complete(s2, now, freshToken);
    assert st1.state.tasks == Complete(s1, now, freshToken).state.tasks;
    assert st1.state.tasks.rows[1].pageUrl == url;
    assert WorkerTask.HasTaskFor(st1.state.tasks, url);
    AdmitSkip(st1.state, METADATA_ROUTES, m, now, freshToken);
  }

  /** A message with an empty url is admitted, the Page constructor throws,
      and the lock is never released: every later message is only deferred. */
  lemma EmptyUrlWedgesLock(data: string, later: Message, now: int, freshToken: string)
    requires Routed(METADATA_ROUTES, later) && later.msgType.value != ""
    ensures var s1 := HandleMessage(INITIAL, METADATA_ROUTES, CaptureMessage("", data)).value;
            var st := Complete(s1, now, freshToken);
            && st.error == Some(PageRejected(Page.UrlMustBeDefined))
            && st.state.lock && st.state.inFlight.None?
            && HandleMessage(st.state, METADATA_ROUTES, later) == Success(st.state.(mutexQueue := [later]))
  {
    var m := CaptureMessage("", data);
    var s1 := HandleMessage(INITIAL, METADATA_ROUTES, m).value;
    NeedProcessingDecision(s1, "", now, freshToken);
    AdmitEmptyUrl(s1, METADATA_ROUTES, m, now, freshToken);
    var st := Complete(s1, now, freshToken);
    assert st == Step(s1.(inFlight := None), Some(PageRejected(Page.UrlMustBeDefined)));
    assert st.state.mutexQueue + [later] == [later];
  }

  /** Two routers share the lock. While the "metadata" router's section for
      `url1` runs, the "other" router defers a message of its own type for
      `url2`. The replay runs under the "metadata" routes, which have no
      processors for "other": the page and blob for `url2` are written, no
      task tracks `url2`, and the section throws with the lock held. */
  lemma ReplayUsesFinishingRoutes(url1: string, url2: string, data: string, now: int, token1: string, token2: string)
    requires url1 != "" && url2 != "" && url1 != url2
    ensures var m1 := CaptureMessage(url1, data);
            var m2 := Message(Some("other"), MessageData(url2, data));
            var s1 := HandleMessage(INITIAL, METADATA_ROUTES, m1).value;
            var s2 := HandleMessage(s1, OTHER_ROUTES, m2);
            && s2.Success? && s2.value.mutexQueue == [m2]
            && var st1 := Complete(s2.value, now, token1);
            && st1.error.None? && st1.state.inFlight == Some(Section(m2, METADATA_ROUTES))
            && var st2 := Complete(st1.state, now, token2);
            && st2.error == Some(NoProcessors(Some("other")))
            && st2.state.lock
            && url2 in st2.state.pages && st2.state.blobs[st2.state.pages[url2].path] == data
            && !WorkerTask.HasTaskFor(st2.state.tasks, url2)
  {
    var m1 := CaptureMessage(url1, data);
    var m2 := Message(Some("other"), MessageData(url2, data));
    var s1 := HandleMessage(INITIAL, METADATA_ROUTES, m1).value;
    var s2 := HandleMessage(s1, OTHER_ROUTES, m2).value;
    FreshUrlCreatesOneTask(url1, data, now, token1);
    var st1 := Complete(s2, now, token1);
    assert st1.state.tasks == Complete(s1, now, token1).state.tasks;
    assert st1.state.pages == Complete(s1, now, token1).state.pages;
    assert !WorkerTask.HasTaskFor(st1.state.tasks, url2) by {
      assert st1.state.tasks.rows[1].pageUrl == url1;
    }
    assert url2 !in st1.state.pages;
    AdmitUnrouted(st1.state, METADATA_ROUTES, m2, now, token2);
  }
}
