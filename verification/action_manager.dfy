/** The action builders of common/action-manager.js.

    An action is a plain JavaScript object, modelled as a `Json.Object` so
    that both the properties present and their insertion order are visible.
    `Read` is the view a consumer of an action takes of it; every builder's
    contract states that view, and which properties exist, in terms of its
    arguments. The `ActionManager` class and the `event-constants` sets are
    not part of this model: `am.type(t)` is taken to be `t`, and the valid
    pages, events and sources are a parameter. */
module ActionManager {
  import opened Wrappers
  import opened Json

  /** The action types the manager is created with, in declaration order. */
  const ACTION_TYPES: seq<string> := [
    "TOP_FRECENT_SITES_REQUEST",
    "TOP_FRECENT_SITES_RESPONSE",
    "RECEIVE_PLACES_CHANGES",
    "RECENT_BOOKMARKS_REQUEST",
    "RECENT_BOOKMARKS_RESPONSE",
    "RECEIVE_BOOKMARKS_CHANGES",
    "RECENT_LINKS_REQUEST",
    "RECENT_LINKS_RESPONSE",
    "HIGHLIGHTS_LINKS_REQUEST",
    "HIGHLIGHTS_LINKS_RESPONSE",
    "NOTIFY_PERFORM_SEARCH",
    "NOTIFY_USER_EVENT"
  ]

  /** The response types whose `data` is a list of sites. */
  const ACTIONS_WITH_SITES: set<string> := {
    "TOP_FRECENT_SITES_RESPONSE",
    "RECENT_BOOKMARKS_RESPONSE",
    "RECENT_LINKS_RESPONSE",
    "HIGHLIGHTS_LINKS_RESPONSE"
  }

  /** Where a request or notification is sent. */
  const BROADCAST: string := "content-to-addon"

  // ---------------------------------------------------------------------
  // Objects

  const EMPTY: Object := Object([], map[])

  /** `o[k] = v`: a new key goes to the end; an existing key keeps its place. */
  function Put(o: Object, k: string, v: Value): Object {
    Object(if k in o.props then o.keys else o.keys + [k], o.props[k := v])
  }

  /** The property names the builders use are all different. */
  lemma KeysDistinct()
    ensures "type" != "meta" && "type" != "data" && "type" != "error"
    ensures "meta" != "data" && "meta" != "error" && "data" != "error"
    ensures "broadcast" != "expect" && "broadcast" != "timeout" && "broadcast" != "append"
    ensures "expect" != "timeout" && "expect" != "append" && "timeout" != "append"
  {
    assert "type"[0] == 't' && "meta"[0] == 'm' && "data"[0] == 'd' && "error"[0] == 'e';
    assert "broadcast"[0] == 'b' && "expect"[0] == 'e' && "timeout"[0] == 't' && "append"[0] == 'a';
  }

  /** A property that holds a string, or nothing. */
  function StrField(o: Object, k: string): Option<string> {
    match Get(o, k)
    case Some(Str(s)) => Some(s)
    case _ => None
  }

  // ---------------------------------------------------------------------
  // The reader's view of an action

  datatype Meta = Meta(broadcast: Option<string>, expected: Option<string>, timeout: Option<Value>, append: bool)

  datatype Action = Action(actionType: string, data: Option<Value>, error: bool, meta: Option<Meta>)

  /** What a consumer reads from `action.meta`. */
  function ReadMeta(o: Object): Meta {
    Meta(StrField(o, "broadcast"), StrField(o, "expect"), Get(o, "timeout"), Get(o, "append") == Some(Bool(true)))
  }

  /** What a consumer reads from an action: its string `type`, its `data`,
      whether `error` is `true`, and its `meta` object. Anything without a
      string `type` is not an action. */
  function Read(o: Object): Option<Action> {
    match Get(o, "type")
    case Some(Str(t)) =>
      var meta := match Get(o, "meta") case Some(Obj(m)) => Some(ReadMeta(m)) case _ => None;
      Some(Action(t, Get(o, "data"), Get(o, "error") == Some(Bool(true)), meta))
    case _ => None
  }

  /** `v` if it is truthy, otherwise absent: the effect of `if (v) x.k = v`. */
  function IfTruthy(v: Option<Value>): Option<Value> {
    if TruthyOpt(v) then v else None
  }

  // ---------------------------------------------------------------------
  // Builders

  /** The `options` argument; a property not given is `undefined`, and
      omitting the argument gives `{}`. */
  datatype Options = Options(error: Option<Value>, append: Option<Value>, timeout: Option<Value>, data: Option<Value>)

  const NO_OPTIONS: Options := Options(None, None, None, None)

  /** `Notify(type, data)`: a broadcast to the add-on, carrying `data` only
      when it is truthy. */
  function Notify(actionType: string, data: Option<Value>): (r: Object)
    ensures r.keys == ["type", "meta"] + (if TruthyOpt(data) then ["data"] else [])
  {
    KeysDistinct();
    var meta := Put(EMPTY, "broadcast", Str(BROADCAST));
    var action := Put(Put(EMPTY, "type", Str(actionType)), "meta", Obj(meta));
    if TruthyOpt(data) then Put(action, "data", data.value) else action
  }

  /** `Response(type, data, options)`: always `type` and `data`; `error: true`
      exactly when `options.error` is truthy and `meta: {append: true}`
      exactly when `options.append` is truthy. */
  function Response(actionType: string, data: Option<Value>, options: Options): (r: Object)
    ensures r.keys == ["type"] + (if data.Some? then ["data"] else [])
                     + (if TruthyOpt(options.error) then ["error"] else [])
                     + (if TruthyOpt(options.append) then ["meta"] else [])
  {
    KeysDistinct();
    var action := Put(EMPTY, "type", Str(actionType));
    var action := if data.Some? then Put(action, "data", data.value) else action;
    var action := if TruthyOpt(options.error) then Put(action, "error", Bool(true)) else action;
    if TruthyOpt(options.append) then Put(action, "meta", Obj(Put(EMPTY, "append", Bool(true)))) else action
  }

  /** The `meta` of `RequestExpect`: `broadcast` and `expect`, then
      `timeout` and `append` when the options ask for them. */
  function RequestMeta(expected: string, options: Options): (m: Object)
    ensures m.keys == ["broadcast", "expect"] + (if TruthyOpt(options.timeout) then ["timeout"] else [])
                      + (if TruthyOpt(options.append) then ["append"] else [])
    ensures ReadMeta(m) == Meta(Some(BROADCAST), Some(expected), IfTruthy(options.timeout), TruthyOpt(options.append))
  {
    KeysDistinct();
    var meta := Put(Put(EMPTY, "broadcast", Str(BROADCAST)), "expect", Str(expected));
    var meta := if TruthyOpt(options.timeout) then Put(meta, "timeout", options.timeout.value) else meta;
    if TruthyOpt(options.append) then Put(meta, "append", Bool(true)) else meta
  }

  /** `RequestExpect(type, expect, options)`: a broadcast that names the
      response it expects; `timeout`, `data` and `append` are set only when
      the corresponding option is truthy. */
  function RequestExpect(actionType: string, expected: string, options: Options): (r: Object)
    ensures r.keys == ["type", "meta"] + (if TruthyOpt(options.data) then ["data"] else [])
  {
    KeysDistinct();
    var action := Put(Put(EMPTY, "type", Str(actionType)), "meta", Obj(RequestMeta(expected, options)));
    if TruthyOpt(options.data) then Put(action, "data", options.data.value) else action
  }

  // ---------------------------------------------------------------------
  // What the builders' actions say

  /** A notification reads as a broadcast of `type` with `data` when it is
      truthy, and nothing else. */
  lemma NotifyRead(actionType: string, data: Option<Value>)
    ensures Read(Notify(actionType, data)) == Some(Action(actionType, IfTruthy(data), false, Some(Meta(Some(BROADCAST), None, None, false))))
  {
    KeysDistinct();
  }

  /** A response reads as `type` and `data`, flagged as an error exactly
      when `options.error` is truthy, with `meta.append` exactly when
      `options.append` is truthy. */
  lemma ResponseRead(actionType: string, data: Option<Value>, options: Options)
    ensures Read(Response(actionType, data, options))
            == Some(Action(actionType, data, TruthyOpt(options.error),
                           if TruthyOpt(options.append) then Some(Meta(None, None, None, true)) else None))
  {
    KeysDistinct();
  }

  /** A request reads as a broadcast of `type` that expects `expected`, with
      `data`, `meta.timeout` and `meta.append` taken from the options that
      are truthy. */
  lemma RequestExpectRead(actionType: string, expected: string, options: Options)
    ensures Read(RequestExpect(actionType, expected, options))
            == Some(Action(actionType, IfTruthy(options.data), false,
                           Some(Meta(Some(BROADCAST), Some(expected), IfTruthy(options.timeout), TruthyOpt(options.append)))))
  {
    KeysDistinct();
  }

  // ---------------------------------------------------------------------
  // Fixed requests

  /** `RequestTopFrecent()`: a declared request that expects its own declared
      response, which carries sites. */
  function RequestTopFrecent(): (r: Object)
    ensures PairedRequest(r)
    ensures Read(r).value.actionType == "TOP_FRECENT_SITES_REQUEST"
  {
    RequestExpectRead("TOP_FRECENT_SITES_REQUEST", "TOP_FRECENT_SITES_RESPONSE", NO_OPTIONS);
    TopFrecentNames();
    RequestExpect("TOP_FRECENT_SITES_REQUEST", "TOP_FRECENT_SITES_RESPONSE", NO_OPTIONS)
  }

  /** `RequestBookmarks(options)`: the same pairing, whatever the options. */
  function RequestBookmarks(options: Options): (r: Object)
    ensures PairedRequest(r)
    ensures Read(r).value.actionType == "RECENT_BOOKMARKS_REQUEST"
  {
    RequestExpectRead("RECENT_BOOKMARKS_REQUEST", "RECENT_BOOKMARKS_RESPONSE", options);
    BookmarksNames();
    RequestExpect("RECENT_BOOKMARKS_REQUEST", "RECENT_BOOKMARKS_RESPONSE", options)
  }

  /** `RequestRecentLinks(options)`: the same pairing, whatever the options. */
  function RequestRecentLinks(options: Options): (r: Object)
    ensures PairedRequest(r)
    ensures Read(r).value.actionType == "RECENT_LINKS_REQUEST"
  {
    RequestExpectRead("RECENT_LINKS_REQUEST", "RECENT_LINKS_RESPONSE", options);
    RecentLinksNames();
    RequestExpect("RECENT_LINKS_REQUEST", "RECENT_LINKS_RESPONSE", options)
  }

  /** `RequestHighlightsLinks()`: the same pairing. */
  function RequestHighlightsLinks(): (r: Object)
    ensures PairedRequest(r)
    ensures Read(r).value.actionType == "HIGHLIGHTS_LINKS_REQUEST"
  {
    RequestExpectRead("HIGHLIGHTS_LINKS_REQUEST", "HIGHLIGHTS_LINKS_RESPONSE", NO_OPTIONS);
    HighlightsLinksNames();
    RequestExpect("HIGHLIGHTS_LINKS_REQUEST", "HIGHLIGHTS_LINKS_RESPONSE", NO_OPTIONS)
  }

  /** `NotifyPerformSearch(data)`: a declared type, broadcast with its data
      when the data is truthy. */
  function NotifyPerformSearch(data: Option<Value>): (r: Object)
    ensures "NOTIFY_PERFORM_SEARCH" in ACTION_TYPES
    ensures Read(r) == Some(Action("NOTIFY_PERFORM_SEARCH", IfTruthy(data), false, Some(Meta(Some(BROADCAST), None, None, false))))
  {
    NotifyRead("NOTIFY_PERFORM_SEARCH", data);
    assert ACTION_TYPES[10] == "NOTIFY_PERFORM_SEARCH";
    Notify("NOTIFY_PERFORM_SEARCH", data)
  }

  // ---------------------------------------------------------------------
  // Requests and their responses

  const REQUEST_SUFFIX: string := "_REQUEST"
  const RESPONSE_SUFFIX: string := "_RESPONSE"

  /** The response type that answers request type `t`: the same name with
      `_RESPONSE` in place of `_REQUEST`. */
  function ResponseFor(t: string): Option<string> {
    if |t| >= |REQUEST_SUFFIX| && t[|t| - |REQUEST_SUFFIX|..] == REQUEST_SUFFIX
    then Some(t[..|t| - |REQUEST_SUFFIX|] + RESPONSE_SUFFIX)
    else None
  }

  /** `ResponseFor` swaps the suffix of any request name. */
  lemma SwapSuffix(base: string)
    ensures ResponseFor(base + REQUEST_SUFFIX) == Some(base + RESPONSE_SUFFIX)
  {
    var t := base + REQUEST_SUFFIX;
    assert t[|t| - |REQUEST_SUFFIX|..] == REQUEST_SUFFIX;
    assert t[..|t| - |REQUEST_SUFFIX|] == base;
  }

  /** Evaluates the constants for `TOP_FRECENT_SITES`: the response name swaps the
      request's suffix, both are declared, and the response carries sites. */
  lemma TopFrecentNames()
    ensures ResponseFor("TOP_FRECENT_SITES_REQUEST") == Some("TOP_FRECENT_SITES_RESPONSE")
    ensures "TOP_FRECENT_SITES_REQUEST" in ACTION_TYPES && "TOP_FRECENT_SITES_RESPONSE" in ACTION_TYPES
    ensures "TOP_FRECENT_SITES_RESPONSE" in ACTIONS_WITH_SITES
  {
    SwapSuffix("TOP_FRECENT_SITES");
    assert "TOP_FRECENT_SITES" + REQUEST_SUFFIX == "TOP_FRECENT_SITES_REQUEST";
    assert "TOP_FRECENT_SITES" + RESPONSE_SUFFIX == "TOP_FRECENT_SITES_RESPONSE";
    assert ACTION_TYPES[0] == "TOP_FRECENT_SITES_REQUEST" && ACTION_TYPES[1] == "TOP_FRECENT_SITES_RESPONSE";
  }

  /** Evaluates the constants for `RECENT_BOOKMARKS`: the response name swaps the
      request's suffix, both are declared, and the response carries sites. */
  lemma BookmarksNames()
    ensures ResponseFor("RECENT_BOOKMARKS_REQUEST") == Some("RECENT_BOOKMARKS_RESPONSE")
    ensures "RECENT_BOOKMARKS_REQUEST" in ACTION_TYPES && "RECENT_BOOKMARKS_RESPONSE" in ACTION_TYPES
    ensures "RECENT_BOOKMARKS_RESPONSE" in ACTIONS_WITH_SITES
  {
    SwapSuffix("RECENT_BOOKMARKS");
    assert "RECENT_BOOKMARKS" + REQUEST_SUFFIX == "RECENT_BOOKMARKS_REQUEST";
    assert "RECENT_BOOKMARKS" + RESPONSE_SUFFIX == "RECENT_BOOKMARKS_RESPONSE";
    assert ACTION_TYPES[3] == "RECENT_BOOKMARKS_REQUEST" && ACTION_TYPES[4] == "RECENT_BOOKMARKS_RESPONSE";
  }

  /** Evaluates the constants for `RECENT_LINKS`: the response name swaps the
      request's suffix, both are declared, and the response carries sites. */
  lemma RecentLinksNames()
    ensures ResponseFor("RECENT_LINKS_REQUEST") == Some("RECENT_LINKS_RESPONSE")
    ensures "RECENT_LINKS_REQUEST" in ACTION_TYPES && "RECENT_LINKS_RESPONSE" in ACTION_TYPES
    ensures "RECENT_LINKS_RESPONSE" in ACTIONS_WITH_SITES
  {
    SwapSuffix("RECENT_LINKS");
    assert "RECENT_LINKS" + REQUEST_SUFFIX == "RECENT_LINKS_REQUEST";
    assert "RECENT_LINKS" + RESPONSE_SUFFIX == "RECENT_LINKS_RESPONSE";
    assert ACTION_TYPES[6] == "RECENT_LINKS_REQUEST" && ACTION_TYPES[7] == "RECENT_LINKS_RESPONSE";
  }

  /** Evaluates the constants for `HIGHLIGHTS_LINKS`: the response name swaps the
      request's suffix, both are declared, and the response carries sites. */
  lemma HighlightsLinksNames()
    ensures ResponseFor("HIGHLIGHTS_LINKS_REQUEST") == Some("HIGHLIGHTS_LINKS_RESPONSE")
    ensures "HIGHLIGHTS_LINKS_REQUEST" in ACTION_TYPES && "HIGHLIGHTS_LINKS_RESPONSE" in ACTION_TYPES
    ensures "HIGHLIGHTS_LINKS_RESPONSE" in ACTIONS_WITH_SITES
  {
    SwapSuffix("HIGHLIGHTS_LINKS");
    assert "HIGHLIGHTS_LINKS" + REQUEST_SUFFIX == "HIGHLIGHTS_LINKS_REQUEST";
    assert "HIGHLIGHTS_LINKS" + RESPONSE_SUFFIX == "HIGHLIGHTS_LINKS_RESPONSE";
    assert ACTION_TYPES[8] == "HIGHLIGHTS_LINKS_REQUEST" && ACTION_TYPES[9] == "HIGHLIGHTS_LINKS_RESPONSE";
  }

  /** `r` is a declared request that expects the matching declared
      response, whose data is a list of sites. */
  predicate PairedRequest(r: Object) {
    && Read(r).Some?
    && Read(r).value.actionType in ACTION_TYPES
    && Read(r).value.meta.Some?
    && Read(r).value.meta.value.expected.Some?
    && Read(r).value.meta.value.expected == ResponseFor(Read(r).value.actionType)
    && Read(r).value.meta.value.expected.value in ACTION_TYPES
    && Read(r).value.meta.value.expected.value in ACTIONS_WITH_SITES
  }

  /** Every action with sites is a declared action type. */
  lemma ActionsWithSitesDeclared()
    ensures forall t :: t in ACTIONS_WITH_SITES ==> t in ACTION_TYPES
  {
  }

  // ---------------------------------------------------------------------
  // User events

  /** The valid values of `page`, `event` and `source`. */
  datatype EventConstants = EventConstants(pages: set<string>, events: set<string>, sources: set<string>)

  /** `set.has(v)` for a set of strings: only a string can be a member. */
  predicate Has(s: set<string>, v: Option<Value>) {
    v.Some? && v.value.Str? && v.value.s in s
  }

  /** The error `NotifyEvent` throws, with the offending value. */
  datatype EventError =
    | InvalidPage(page: Option<Value>)
    | InvalidEvent(event: Option<Value>)
    | InvalidSource(source: Option<Value>)

  /** `NotifyEvent(data)`: check `page`, then `event`, then `source` when it
      is truthy; the first check that fails decides the error. A valid event
      is notified with `data` as is. */
  function NotifyEvent(data: Object, consts: EventConstants): (r: Result<Object, EventError>)
    ensures !Has(consts.pages, Get(data, "page")) ==> r == Failure(InvalidPage(Get(data, "page")))
    ensures Has(consts.pages, Get(data, "page")) && !Has(consts.events, Get(data, "event")) ==>
              r == Failure(InvalidEvent(Get(data, "event")))
    ensures r.Success? <==> && Has(consts.pages, Get(data, "page"))
                            && Has(consts.events, Get(data, "event"))
                            && (TruthyOpt(Get(data, "source")) ==> Has(consts.sources, Get(data, "source")))
    ensures r.Failure? && r.error.InvalidSource? ==> r.error.source == Get(data, "source") && TruthyOpt(r.error.source)
  {
    var page := Get(data, "page");
    var event := Get(data, "event");
    var source := Get(data, "source");
    if !Has(consts.pages, page) then Failure(InvalidPage(page))
    else if !Has(consts.events, event) then Failure(InvalidEvent(event))
    else if TruthyOpt(source) && !Has(consts.sources, source) then Failure(InvalidSource(source))
    else Success(Notify("NOTIFY_USER_EVENT", Some(Obj(data))))
  }

  /** A valid user event is broadcast with its `data` object unchanged. */
  lemma NotifyEventRead(data: Object, consts: EventConstants)
    ensures NotifyEvent(data, consts).Success? ==>
              Read(NotifyEvent(data, consts).value)
              == Some(Action("NOTIFY_USER_EVENT", Some(Obj(data)), false, Some(Meta(Some(BROADCAST), None, None, false))))
  {
    NotifyRead("NOTIFY_USER_EVENT", Some(Obj(data)));
  }
}
