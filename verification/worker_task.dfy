/** A unit of work for one processor against one page url (the WorkerTask
    record whose behaviour test/test-WorkerTask.js pins), and the
    `moz_tasks` table it is saved into, keyed by a store-assigned id. */
module WorkerTask {
  import opened Wrappers
  import Json

  datatype Status = New | Working | Done

  /** The status strings as stored and serialised. */
  const TASK_NEW: string := "new"
  const TASK_WORKING: string := "working"
  const TASK_DONE: string := "done"

  /** The keys of a serialised task, in order. */
  const TASK_FIELDS: seq<string> := ["id", "pageUrl", "createdAt", "jobStartedAt", "status", "type"]

  datatype TaskError = InvalidTaskStatus | MalformedTask

  datatype Task = Task(
    id: Option<int>,
    pageUrl: string,
    createdAt: int,
    jobStartedAt: Option<int>,
    status: Status,
    taskType: string)

  function StatusName(s: Status): string {
    match s
    case New => TASK_NEW
    case Working => TASK_WORKING
    case Done => TASK_DONE
  }

  /** Recognises one of the three status strings. */
  function ParseStatus(v: string): (r: Option<Status>)
    ensures r.Some? <==> v in {TASK_NEW, TASK_WORKING, TASK_DONE}
    ensures r.Some? ==> StatusName(r.value) == v
  {
    if v == TASK_NEW then Some(New)
    else if v == TASK_WORKING then Some(Working)
    else if v == TASK_DONE then Some(Done)
    else None
  }

  /** Every status is recognised from its own name. */
  lemma ParseStatusName(s: Status)
    ensures ParseStatus(StatusName(s)) == Some(s)
  {
  }

  /** `new WorkerTask(pageUrl, type)` at time `now`. */
  function NewTask(pageUrl: string, taskType: string, now: int): (t: Task)
    ensures t.id.None? && t.jobStartedAt.None? && t.status == New
    ensures t.pageUrl == pageUrl && t.taskType == taskType && t.createdAt == now
  {
    Task(None, pageUrl, now, None, New, taskType)
  }

  /** The `status` setter: any of the three names, in any order; anything
      else fails with "Invalid task status". */
  function SetStatus(t: Task, v: string): (r: Result<Task, TaskError>)
    ensures r.Success? <==> v in {TASK_NEW, TASK_WORKING, TASK_DONE}
    ensures r.Failure? ==> r.error == InvalidTaskStatus
    ensures r.Success? ==> StatusName(r.value.status) == v
    ensures r.Success? ==> r.value == t.(status := r.value.status)
  {
    match ParseStatus(v)
    case None => Failure(InvalidTaskStatus)
    case Some(s) => Success(t.(status := s))
  }

  /** `jobStarted()`: a task becomes WORKING and carries the time work began;
      a start time already recorded is kept. */
  function JobStarted(t: Task, now: int): (r: Task)
    ensures r.status == Working && r.jobStartedAt.Some?
    ensures t.jobStartedAt.None? ==> r.jobStartedAt == Some(now)
    ensures t.jobStartedAt.Some? ==> r.jobStartedAt == t.jobStartedAt
    ensures r.id == t.id && r.pageUrl == t.pageUrl && r.createdAt == t.createdAt && r.taskType == t.taskType
  {
    var started := if t.jobStartedAt.None? then Some(now) else t.jobStartedAt;
    t.(status := Working, jobStartedAt := started)
  }

  /** A nullable integer as a JSON value. */
  function NullableNum(v: Option<int>): Json.Value {
    if v.Some? then Json.Num(v.value) else Json.Null
  }

  /** A plain task object with the six properties in serialisation order. */
  function TaskObject(id: Option<int>, pageUrl: string, createdAt: int, jobStartedAt: Option<int>,
                      status: string, taskType: string): (o: Json.Object)
    ensures o.keys == TASK_FIELDS
  {
    Json.Object(TASK_FIELDS,
                map["id" := NullableNum(id),
                    "pageUrl" := Json.Str(pageUrl),
                    "createdAt" := Json.Num(createdAt),
                    "jobStartedAt" := NullableNum(jobStartedAt),
                    "status" := Json.Str(status),
                    "type" := Json.Str(taskType)])
  }

  /** The serialised task. */
  function ToJson(t: Task): (o: Json.Object)
    ensures o.keys == TASK_FIELDS
  {
    TaskObject(t.id, t.pageUrl, t.createdAt, t.jobStartedAt, StatusName(t.status), t.taskType)
  }

  /** A nullable integer property: absent or `null` is no value. */
  function NullableField(o: Json.Object, key: string): Result<Option<int>, TaskError> {
    var v := Json.Get(o, key);
    if v.None? || v.value.Null? then Success(None)
    else if v.value.Num? then Success(Some(v.value.n))
    else Failure(MalformedTask)
  }

  function StrField(o: Json.Object, key: string): Result<string, TaskError> {
    var v := Json.Get(o, key);
    if v.Some? && v.value.Str? then Success(v.value.s) else Failure(MalformedTask)
  }

  function IntField(o: Json.Object, key: string): Result<int, TaskError> {
    var v := Json.Get(o, key);
    if v.Some? && v.value.Num? then Success(v.value.n) else Failure(MalformedTask)
  }

  /** `WorkerTask.fromObject(o)`: a task carrying `o`'s properties; the status
      goes through the same check as the setter. */
  function FromObject(o: Json.Object): (r: Result<Task, TaskError>)
    ensures r.Success? <==>
              && NullableField(o, "id").Success? && StrField(o, "pageUrl").Success?
              && IntField(o, "createdAt").Success? && NullableField(o, "jobStartedAt").Success?
              && StrField(o, "status").Success? && ParseStatus(StrField(o, "status").value).Some?
              && StrField(o, "type").Success?
    ensures r.Success? ==>
              && NullableField(o, "id") == Success(r.value.id)
              && StrField(o, "pageUrl") == Success(r.value.pageUrl)
              && IntField(o, "createdAt") == Success(r.value.createdAt)
              && NullableField(o, "jobStartedAt") == Success(r.value.jobStartedAt)
              && StrField(o, "status") == Success(StatusName(r.value.status))
              && StrField(o, "type") == Success(r.value.taskType)
    ensures StrField(o, "status").Success? && ParseStatus(StrField(o, "status").value).None? ==> r.Failure?
  {
    var id :- NullableField(o, "id");
    var pageUrl :- StrField(o, "pageUrl");
    var createdAt :- IntField(o, "createdAt");
    var jobStartedAt :- NullableField(o, "jobStartedAt");
    var statusName :- StrField(o, "status");
    var status :- ParseStatus(statusName).ToResultOr(InvalidTaskStatus);
    var taskType :- StrField(o, "type");
    Success(Task(id, pageUrl, createdAt, jobStartedAt, status, taskType))
  }

  /** Reading a task object's properties back gives the values it was built from. */
  lemma TaskObjectFields(id: Option<int>, pageUrl: string, createdAt: int, jobStartedAt: Option<int>,
                         status: string, taskType: string)
    ensures var o := TaskObject(id, pageUrl, createdAt, jobStartedAt, status, taskType);
            && NullableField(o, "id") == Success(id)
            && StrField(o, "pageUrl") == Success(pageUrl)
            && IntField(o, "createdAt") == Success(createdAt)
            && NullableField(o, "jobStartedAt") == Success(jobStartedAt)
            && StrField(o, "status") == Success(status)
            && StrField(o, "type") == Success(taskType)
  {
    var o := TaskObject(id, pageUrl, createdAt, jobStartedAt, status, taskType);
    assert o.props["id"] == NullableNum(id);
    assert o.props["jobStartedAt"] == NullableNum(jobStartedAt);
  }

  /** A task built from a well-typed plain object serialises back to exactly
      that object. */
  lemma FromObjectSerialization(id: Option<int>, pageUrl: string, createdAt: int, jobStartedAt: Option<int>,
                                status: string, taskType: string)
    requires status in {TASK_NEW, TASK_WORKING, TASK_DONE}
    ensures var o := TaskObject(id, pageUrl, createdAt, jobStartedAt, status, taskType);
            && FromObject(o).Success?
            && ToJson(FromObject(o).value) == o
  {
    TaskObjectFields(id, pageUrl, createdAt, jobStartedAt, status, taskType);
    var o := TaskObject(id, pageUrl, createdAt, jobStartedAt, status, taskType);
    var st := ParseStatus(status).value;
    assert FromObject(o) == Success(Task(id, pageUrl, createdAt, jobStartedAt, st, taskType));
  }

  /** Serialising any task and rebuilding it from the text gives it back. */
  lemma JsonRoundTrip(t: Task)
    ensures FromObject(ToJson(t)) == Success(t)
  {
    TaskObjectFields(t.id, t.pageUrl, t.createdAt, t.jobStartedAt, StatusName(t.status), t.taskType);
    ParseStatusName(t.status);
  }

  // ---------------------------------------------------------------------
  // The moz_tasks table

  /** Rows keyed by id; `lastId` is the largest id ever handed out. */
  datatype TaskTable = TaskTable(rows: map<int, Task>, lastId: int)

  const EMPTY_TABLE: TaskTable := TaskTable(map[], 0)

  /** Ids are positive, never above `lastId`, and each row knows its id. */
  predicate Valid(tb: TaskTable) {
    && tb.lastId >= 0
    && forall k :: k in tb.rows ==> 1 <= k <= tb.lastId && tb.rows[k].id == Some(k)
  }

  /** `task.save()`: a task without an id is inserted under a fresh id,
      a task with an id replaces the row with that id. Returns the table and
      the saved WorkerTask. */
  function Save(tb: TaskTable, t: Task): (r: (TaskTable, Task))
    ensures r.1.id.Some?
    ensures t.id.None? ==> r.1 == t.(id := Some(tb.lastId + 1)) && r.0.lastId == tb.lastId + 1
    ensures t.id.Some? ==> r.1 == t
    ensures Valid(tb) && t.id.None? ==> r.1.id.value !in tb.rows
    ensures r.0.rows == tb.rows[r.1.id.value := r.1]
    ensures Valid(tb) && (t.id.None? || t.id.value >= 1) ==> Valid(r.0)
  {
    match t.id
    case None =>
      var id := tb.lastId + 1;
      var saved := t.(id := Some(id));
      (TaskTable(tb.rows[id := saved], id), saved)
    case Some(id) =>
      (TaskTable(tb.rows[id := t], if id > tb.lastId then id else tb.lastId), t)
  }

  /** `WorkerTask.asyncGetById(id)`. */
  function GetById(tb: TaskTable, id: int): (r: Option<Task>)
    ensures r.Some? <==> id in tb.rows
    ensures r.Some? ==> r.value == tb.rows[id]
  {
    if id in tb.rows then Some(tb.rows[id]) else None
  }

  /** Whether `WorkerTask.asyncGetByUrl(url)` finds a task: some row tracks `url`. */
  predicate HasTaskFor(tb: TaskTable, url: string) {
    exists k :: k in tb.rows && tb.rows[k].pageUrl == url
  }

  /** After saving a task, `asyncGetByUrl` finds a task for its url; and a
      first save changes the answer for no other url. */
  lemma SavedTaskFound(tb: TaskTable, t: Task, url: string)
    requires Valid(tb)
    ensures HasTaskFor(Save(tb, t).0, t.pageUrl)
    ensures t.id.None? && url != t.pageUrl ==> (HasTaskFor(Save(tb, t).0, url) <==> HasTaskFor(tb, url))
  {
    var (tb', saved) := Save(tb, t);
    assert tb'.rows[saved.id.value].pageUrl == t.pageUrl;
    if t.id.None? && url != t.pageUrl {
      if HasTaskFor(tb', url) {
        var k :| k in tb'.rows && tb'.rows[k].pageUrl == url;
        assert k in tb.rows;
      }
      if HasTaskFor(tb, url) {
        var k :| k in tb.rows && tb.rows[k].pageUrl == url;
        assert k != saved.id.value;
        assert k in tb'.rows && tb'.rows[k].pageUrl == url;
      }
    }
  }

  /** The first save of a new task adds exactly one row under a fresh,
      non-null id, and reading that id back yields the saved task. */
  lemma FirstSaveAssignsId(tb: TaskTable, t: Task)
    requires Valid(tb) && t.id.None?
    ensures var (tb', saved) := Save(tb, t);
            && saved.id.Some? && saved.id.value >= 1
            && GetById(tb', saved.id.value) == Some(saved)
            && saved == t.(id := saved.id)
            && |tb'.rows| == |tb.rows| + 1
  {
    var (tb', saved) := Save(tb, t);
    assert saved.id.value !in tb.rows;
    assert tb'.rows.Keys == tb.rows.Keys + {saved.id.value};
  }

  /** Saving again after `jobStarted()` rewrites the same row under the same
      id, and `getById` sees the change. */
  lemma ResaveUpdatesSameRow(tb: TaskTable, t: Task, now: int)
    requires Valid(tb) && t.id.Some? && t.id.value in tb.rows
    ensures var (tb', saved) := Save(tb, JobStarted(t, now));
            && saved.id == t.id
            && GetById(tb', t.id.value) == Some(JobStarted(t, now))
            && |tb'.rows| == |tb.rows|
            && Valid(tb')
  {
    var (tb', saved) := Save(tb, JobStarted(t, now));
    assert tb'.rows.Keys == tb.rows.Keys;
  }
}
