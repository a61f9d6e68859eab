/** A captured document (lib/task-queue/Page.js): an immutable value with
    defaulting rules, a derived expiration, a fixed serialisation, and the
    `moz_pages` table it is upserted into, keyed by url. The clock and the
    UUID generator are parameters (`now`, `freshToken`). */
module Page {
  import opened Wrappers
  import Json

  /** One week, in milliseconds. */
  const DEFAULT_MAX_AGE: int := 1000 * 60 * 60 * 24 * 7

  /** The keys `toJSON` produces, in order. */
  const PAGE_FIELDS: seq<string> := ["url", "path", "maxAge", "remote", "createdAt"]

  datatype PageError = UrlMustBeDefined

  /** The constructor's argument object; `None` is an absent property. */
  datatype PageInit = PageInit(
    url: Option<string>,
    path: Option<string>,
    maxAge: Option<int>,
    remote: Option<bool>,
    createdAt: Option<int>)

  /** A frozen page: a datatype value cannot be changed after construction. */
  datatype Page = Page(url: string, path: string, maxAge: int, remote: bool, createdAt: int) {

    /** Time (epoch ms) from which the cached page is stale. */
    function Expiration(): int {
      createdAt + maxAge
    }
  }

  /** `v || fallback` on an integer property. */
  function IntOr(v: Option<int>, fallback: int): int {
    if v.Some? && v.value != 0 then v.value else fallback
  }

  /** `v || fallback` on a string property. */
  function StrOr(v: Option<string>, fallback: string): string {
    if Json.TruthyStr(v) then v.value else fallback
  }

  /** `new Page({url, path, maxAge, remote, createdAt})` at time `now`, with
      `freshToken` standing for the generated UUID. */
  function MakePage(init: PageInit, now: int, freshToken: string): (r: Result<Page, PageError>)
    ensures r.Failure? <==> !Json.TruthyStr(init.url)
    ensures r.Failure? ==> r.error == UrlMustBeDefined
    ensures r.Success? ==> r.value.url == init.url.value
    ensures r.Success? && init.maxAge.Some? && init.maxAge.value != 0 ==> r.value.maxAge == init.maxAge.value
    ensures r.Success? && (init.maxAge.None? || init.maxAge.value == 0) ==> r.value.maxAge == DEFAULT_MAX_AGE
    ensures r.Success? ==> r.value.maxAge != 0
    ensures r.Success? ==> (r.value.remote <==> init.remote == Some(true))
    ensures r.Success? && init.createdAt.Some? && init.createdAt.value != 0 ==> r.value.createdAt == init.createdAt.value
    ensures r.Success? && (init.createdAt.None? || init.createdAt.value == 0) ==> r.value.createdAt == now
    ensures r.Success? && Json.TruthyStr(init.path) ==> r.value.path == init.path.value
    ensures r.Success? && !Json.TruthyStr(init.path) ==> r.value.path == freshToken
  {
    if !Json.TruthyStr(init.url) then
      Failure(UrlMustBeDefined)
    else
      Success(Page(
        init.url.value,
        StrOr(init.path, freshToken),
        IntOr(init.maxAge, DEFAULT_MAX_AGE),
        init.remote == Some(true),
        IntOr(init.createdAt, now)))
  }

  /** Every field of `p` is truthy, so handing its fields back to the
      constructor triggers no default. */
  predicate WellFormed(p: Page) {
    p.url != "" && p.path != "" && p.maxAge != 0 && p.createdAt != 0
  }

  /** The constructor argument that names every field of `p`. */
  function InitOf(p: Page): PageInit {
    PageInit(Some(p.url), Some(p.path), Some(p.maxAge), Some(p.remote), Some(p.createdAt))
  }

  /** A page built with a real clock and a generated token is well formed. */
  lemma MadePageWellFormed(init: PageInit, now: int, freshToken: string)
    requires now != 0 && freshToken != ""
    requires MakePage(init, now, freshToken).Success?
    ensures WellFormed(MakePage(init, now, freshToken).value)
  {
  }

  /** Rebuilding a well-formed page from its own fields gives the same page,
      whatever the clock and token: no default is applied twice. */
  lemma RebuildIsIdentity(p: Page, now: int, freshToken: string)
    requires WellFormed(p)
    ensures MakePage(InitOf(p), now, freshToken) == Success(p)
  {
  }

  /** `toJSON`: exactly the five fields, in declaration order. */
  function ToJson(p: Page): (o: Json.Object)
    ensures o.keys == PAGE_FIELDS
    ensures Json.WellFormed(o)
  {
    Json.Object(PAGE_FIELDS,
                map["url" := Json.Str(p.url),
                    "path" := Json.Str(p.path),
                    "maxAge" := Json.Num(p.maxAge),
                    "remote" := Json.Bool(p.remote),
                    "createdAt" := Json.Num(p.createdAt)])
  }

  /** A string property of a parsed object, `undefined` unless it is a string. */
  function StrField(o: Json.Object, key: string): Option<string> {
    var v := Json.Get(o, key);
    if v.Some? && v.value.Str? then Some(v.value.s) else None
  }

  /** An integer property of a parsed object, `undefined` unless it is a number. */
  function IntField(o: Json.Object, key: string): Option<int> {
    var v := Json.Get(o, key);
    if v.Some? && v.value.Num? then Some(v.value.n) else None
  }

  /** `new Page(JSON.parse(text))`: the constructor applied to a parsed object;
      `Boolean(remote)` for the remote flag. */
  function FromJson(o: Json.Object, now: int, freshToken: string): (r: Result<Page, PageError>)
    ensures r.Failure? <==> !Json.TruthyStr(StrField(o, "url"))
    ensures r.Success? ==> r.value.url == StrField(o, "url").value
    ensures r.Success? ==> (r.value.remote <==> "remote" in o.props && Json.Truthy(o.props["remote"]))
    ensures r.Success? && Json.TruthyStr(StrField(o, "path")) ==> r.value.path == StrField(o, "path").value
    ensures r.Success? && !Json.TruthyStr(StrField(o, "path")) ==> r.value.path == freshToken
  {
    var remote := Json.Get(o, "remote");
    MakePage(PageInit(StrField(o, "url"), StrField(o, "path"), IntField(o, "maxAge"),
                      Some(remote.Some? && Json.Truthy(remote.value)), IntField(o, "createdAt")),
             now, freshToken)
  }

  /** Serialising a well-formed page and constructing a page from the parsed
      text gives back the same page. */
  lemma JsonRoundTrip(p: Page, now: int, freshToken: string)
    requires WellFormed(p)
    ensures FromJson(ToJson(p), now, freshToken) == Success(p)
  {
  }

  /** The plain object literal a caller writes to describe every field. */
  function InitJson(url: string, path: string, maxAge: int, remote: bool, createdAt: int): Json.Object {
    Json.Object(["url", "path", "maxAge", "remote", "createdAt"],
                map["url" := Json.Str(url), "path" := Json.Str(path), "maxAge" := Json.Num(maxAge),
                    "remote" := Json.Bool(remote), "createdAt" := Json.Num(createdAt)])
  }

  /** Serialising a page built from a fully specified object reproduces that
      object's serialisation. */
  lemma SerializationOfFullInput(url: string, path: string, maxAge: int, remote: bool, createdAt: int,
                                 now: int, freshToken: string)
    requires url != "" && path != "" && maxAge != 0 && createdAt != 0
    ensures var r := MakePage(PageInit(Some(url), Some(path), Some(maxAge), Some(remote), Some(createdAt)), now, freshToken);
            r.Success? && ToJson(r.value) == InitJson(url, path, maxAge, remote, createdAt)
  {
  }

  // ---------------------------------------------------------------------
  // The moz_pages table

  /** A stored row; SQLite keeps the boolean `remote` as 0 or 1. */
  datatype PageRow = PageRow(url: string, path: string, maxAge: int, remote: int, createdAt: int)

  type PageTable = map<string, PageRow>

  function RowOf(p: Page): (row: PageRow)
    ensures row.url == p.url
  {
    PageRow(p.url, p.path, p.maxAge, if p.remote then 1 else 0, p.createdAt)
  }

  /** The object a `SELECT` with the page's columns yields for `row`,
      handed to the constructor (`Boolean(remote)` turns 0/1 back). */
  function InitOfRow(row: PageRow): PageInit {
    PageInit(Some(row.url), Some(row.path), Some(row.maxAge), Some(row.remote != 0), Some(row.createdAt))
  }

  /** Every row sits under its own url and was written from a well-formed page. */
  predicate TableValid(t: PageTable) {
    forall u :: u in t ==> t[u].url == u && t[u].url != "" && t[u].path != ""
                           && t[u].maxAge != 0 && t[u].createdAt != 0 && t[u].remote in {0, 1}
  }

  /** `INSERT OR REPLACE INTO moz_pages`: upsert keyed by url. */
  function Save(t: PageTable, p: Page): (r: PageTable)
    ensures r.Keys == t.Keys + {p.url}
    ensures r[p.url] == RowOf(p)
    ensures forall u :: u in t && u != p.url ==> r[u] == t[u]
    ensures TableValid(t) && WellFormed(p) ==> TableValid(r)
  {
    t[p.url := RowOf(p)]
  }

  /** `asyncGetByUrl`: `null` when no row matches, otherwise `new Page(row)`. */
  function GetByUrl(t: PageTable, url: string, now: int, freshToken: string): (r: Result<Option<Page>, PageError>)
    ensures url !in t ==> r == Success(None)
    ensures url in t && t[url].url != "" ==> r.Success? && r.value.Some? && r.value.value.url == t[url].url
    ensures TableValid(t) ==> r.Success?
  {
    if url !in t then Success(None)
    else
      match MakePage(InitOfRow(t[url]), now, freshToken)
      case Failure(e) => Failure(e)
      case Success(p) => Success(Some(p))
  }

  /** Saving a well-formed page and reading its url back yields the same
      page; any other url reads as before. */
  lemma SaveThenGet(t: PageTable, p: Page, url: string, now: int, freshToken: string)
    requires WellFormed(p)
    ensures GetByUrl(Save(t, p), p.url, now, freshToken) == Success(Some(p))
    ensures url != p.url ==> GetByUrl(Save(t, p), url, now, freshToken) == GetByUrl(t, url, now, freshToken)
  {
    assert InitOfRow(RowOf(p)) == InitOf(p);
    RebuildIsIdentity(p, now, freshToken);
  }

  /** Saving pages one after another. */
  function SaveAll(t: PageTable, ps: seq<Page>): PageTable
    decreases |ps|
  {
    if ps == [] then t else SaveAll(Save(t, ps[0]), ps[1..])
  }

  function Urls(ps: seq<Page>): set<string> {
    set i | 0 <= i < |ps| :: ps[i].url
  }

  predicate DistinctUrls(ps: seq<Page>) {
    forall i, j :: 0 <= i < j < |ps| ==> ps[i].url != ps[j].url
  }

  /** After saving a list of pages the table's keys are the old keys plus
      every saved url. */
  lemma {:induction false} SaveAllKeys(t: PageTable, ps: seq<Page>)
    ensures SaveAll(t, ps).Keys == t.Keys + Urls(ps)
    decreases |ps|
  {
    if ps != [] {
      SaveAllKeys(Save(t, ps[0]), ps[1..]);
      assert Urls(ps) == {ps[0].url} + Urls(ps[1..]) by {
        forall u | u in Urls(ps) ensures u in {ps[0].url} + Urls(ps[1..]) {
          var i :| 0 <= i < |ps| && ps[i].url == u;
          if i > 0 { assert ps[1..][i - 1].url == u; }
        }
      }
    }
  }

  lemma {:induction false} DistinctUrlsCount(ps: seq<Page>)
    requires DistinctUrls(ps)
    ensures |Urls(ps)| == |ps|
    decreases |ps|
  {
    if ps != [] {
      DistinctUrlsCount(ps[1..]);
      assert Urls(ps) == {ps[0].url} + Urls(ps[1..]) by {
        forall u | u in Urls(ps) ensures u in {ps[0].url} + Urls(ps[1..]) {
          var i :| 0 <= i < |ps| && ps[i].url == u;
          if i > 0 { assert ps[1..][i - 1].url == u; }
        }
      }
      assert ps[0].url !in Urls(ps[1..]);
    }
  }

  /** Saving N pages with distinct urls into an empty table leaves exactly
      N rows, and every saved url can be read back. */
  lemma SaveDistinctCount(ps: seq<Page>)
    requires DistinctUrls(ps)
    ensures |SaveAll(map[], ps)| == |ps|
    ensures forall i :: 0 <= i < |ps| ==> ps[i].url in SaveAll(map[], ps)
  {
    SaveAllKeys(map[], ps);
    DistinctUrlsCount(ps);
    assert SaveAll(map[], ps).Keys == Urls(ps);
  }
}
