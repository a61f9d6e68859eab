/** `groupSitesBySession` and `groupSitesByDate` of
    content-src/components/ActivityFeed/ActivityFeed.js.

    A site is reduced to what the grouping reads: its `dateDisplay`, which
    is an integer number of milliseconds or missing. The calendar day a
    timestamp falls on (`moment(date).startOf("day").format()`) is a
    parameter `day`. */
module ActivityFeed {
  import opened Wrappers

  /** Two consecutive visits more than ten minutes apart start a new session. */
  const SESSION_DIFF: int := 600000

  datatype Site = Site(url: string, date: Option<int>)

  function Abs(x: int): nat {
    if x < 0 then -x else x
  }

  /** `Math.abs(site.dateDisplay - nextSite.dateDisplay) > SESSION_DIFF`. A
      missing date makes the difference NaN, which is never greater. */
  predicate Gap(a: Site, b: Site) {
    a.date.Some? && b.date.Some? && Abs(a.date.value - b.date.value) > SESSION_DIFF
  }

  function Last<T>(s: seq<T>): T
    requires |s| > 0
  {
    s[|s| - 1]
  }

  /** The sessions of `sites`: a new session begins after each gap. Empty
      input gives one empty session, as the source's `[[]]` start does. */
  function Sessions(sites: seq<Site>): (r: seq<seq<Site>>)
    ensures |r| >= 1
    ensures sites != [] ==> r[0] != [] && r[0][0] == sites[0]
    decreases |sites|
  {
    if |sites| == 0 then [[]]
    else if |sites| == 1 then [sites]
    else
      var init := sites[..|sites| - 1];
      var p := Sessions(init);
      var x := Last(sites);
      if Gap(Last(init), x) then p + [[x]]
      else p[..|p| - 1] + [Last(p) + [x]]
  }

  /** `groupSitesBySession(sites)`, as the source's `forEach` builds it: push
      each site onto the open session, and open a new one when the next site
      is past the gap. */
  method GroupSitesBySession(sites: seq<Site>) returns (sessions: seq<seq<Site>>)
    ensures sessions == Sessions(sites)
  {
    sessions := [[]];
    for i := 0 to |sites|
      invariant |sessions| >= 1
      invariant i == 0 ==> sessions == [[]]
      invariant 0 < i ==> sessions == Sessions(sites[..i]) + (if i < |sites| && Gap(sites[i - 1], sites[i]) then [[]] else [])
    {
      var current := sessions[|sessions| - 1];
      if i == 0 {
        assert sites[..1] == [sites[0]];
        assert Sessions(sites[..1]) == [[sites[0]]];
        assert sessions == [[]];
        assert current == [];
        assert current + [sites[0]] == [sites[0]];
        assert sessions[..0] == [];
      } else {
        PushSite(sites, i, sessions);
        assert sessions[..|sessions| - 1] + [current + [sites[i]]] == Sessions(sites[..i + 1]);
      }
      sessions := sessions[..|sessions| - 1] + [current + [sites[i]]];
      if i + 1 < |sites| && Gap(sites[i], sites[i + 1]) {
        sessions := sessions + [[]];
      }
    }
    assert sites[..|sites|] == sites;
  }

  /** One step of `Sessions`: the last site opens a new session after a
      gap, and otherwise joins the last session. */
  lemma SessionsStep(sites: seq<Site>)
    requires |sites| >= 2
    ensures var init := sites[..|sites| - 1];
            var p := Sessions(init);
            Sessions(sites) == if Gap(Last(init), Last(sites)) then p + [[Last(sites)]]
                               else p[..|p| - 1] + [Last(p) + [Last(sites)]]
  {
  }

  /** The loop step of `GroupSitesBySession`: the sessions before site `i`,
      with the empty session opened after a gap, become the sessions up to
      and including it once the site is pushed onto the open session. */
  lemma PushSite(sites: seq<Site>, i: nat, before: seq<seq<Site>>)
    requires 0 < i < |sites|
    requires before == Sessions(sites[..i]) + (if Gap(sites[i - 1], sites[i]) then [[]] else [])
    ensures before[..|before| - 1] + [Last(before) + [sites[i]]] == Sessions(sites[..i + 1])
  {
    var s := sites[..i + 1];
    SessionsStep(s);
    assert s[..i] == sites[..i];
    assert Last(s[..i]) == sites[i - 1] && Last(s) == sites[i];
    var p := Sessions(sites[..i]);
    if Gap(sites[i - 1], sites[i]) {
      assert before[..|p|] == p;
      assert Last(before) + [sites[i]] == [sites[i]];
    }
  }

  // ---------------------------------------------------------------------
  // The sessions partition the input

  /** The concatenation of a sequence of sessions. */
  function Flatten(p: seq<seq<Site>>): seq<Site>
    decreases |p|
  {
    if |p| == 0 then [] else Flatten(p[..|p| - 1]) + Last(p)
  }

  /** `p` cuts `sites` into non-empty sessions, in order, exactly at the gaps. */
  ghost predicate IsSessionSplit(p: seq<seq<Site>>, sites: seq<Site>) {
    && Flatten(p) == sites
    && (forall k :: 0 <= k < |p| ==> p[k] != [])
    && (forall k, j :: 0 <= k < |p| && 0 <= j < |p[k]| - 1 ==> !Gap(p[k][j], p[k][j + 1]))
    && (forall k :: 0 <= k < |p| - 1 && p[k] != [] && p[k + 1] != [] ==> Gap(Last(p[k]), p[k + 1][0]))
  }

  lemma FlattenAppend(p: seq<seq<Site>>, q: seq<Site>)
    ensures Flatten(p + [q]) == Flatten(p) + q
  {
    assert (p + [q])[..|p|] == p;
  }

  /** No sites, no non-empty session. */
  lemma FlattenEmpty(p: seq<seq<Site>>)
    requires Flatten(p) == [] && forall k :: 0 <= k < |p| ==> p[k] != []
    ensures p == []
  {
  }

  /** Empty input gives exactly one empty session. */
  lemma SessionsOfNothing()
    ensures Sessions([]) == [[]]
  {
  }

  /** The sessions of non-empty input cut it exactly at its gaps. */
  lemma {:induction false} SessionsSplit(sites: seq<Site>)
    requires sites != []
    ensures IsSessionSplit(Sessions(sites), sites)
    decreases |sites|
  {
    if |sites| == 1 {
      assert Flatten([sites]) == Flatten([]) + sites;
    } else {
      var init := sites[..|sites| - 1];
      var x := Last(sites);
      SessionsSplit(init);
      var p := Sessions(init);
      assert sites == init + [x];
      if Gap(Last(init), x) {
        FlattenAppend(p, [x]);
        SplitAddSession(p, init, x);
      } else {
        SplitExtendLast(p, init, x);
      }
    }
  }

  /** Opening a new session for `x` after a gap keeps the split. */
  lemma SplitAddSession(p: seq<seq<Site>>, init: seq<Site>, x: Site)
    requires init != [] && IsSessionSplit(p, init) && Gap(Last(init), x)
    ensures IsSessionSplit(p + [[x]], init + [x])
  {
    FlattenAppend(p, [x]);
    var p' := p + [[x]];
    LastOfSplit(p, init);
    forall k | 0 <= k < |p'| - 1 && p'[k] != [] && p'[k + 1] != []
      ensures Gap(Last(p'[k]), p'[k + 1][0])
    {
      if k == |p| - 1 {
        assert Last(p'[k]) == Last(init);
      }
    }
  }

  /** Adding `x` to the last session when there is no gap keeps the split. */
  lemma SplitExtendLast(p: seq<seq<Site>>, init: seq<Site>, x: Site)
    requires init != [] && IsSessionSplit(p, init) && !Gap(Last(init), x)
    ensures IsSessionSplit(p[..|p| - 1] + [Last(p) + [x]], init + [x])
  {
    LastOfSplit(p, init);
    var front := p[..|p| - 1];
    FlattenAppend(front, Last(p) + [x]);
    FlattenAppend(front, Last(p));
    assert front + [Last(p)] == p;
    ExtendLastNoInnerGap(p, init, x);
    ExtendLastBoundaries(p, x);
  }

  /** Within the sessions of the extended split there is no gap. */
  lemma ExtendLastNoInnerGap(p: seq<seq<Site>>, init: seq<Site>, x: Site)
    requires init != [] && IsSessionSplit(p, init) && !Gap(Last(init), x)
    requires |p| > 0 && Last(p) != [] && Last(Last(p)) == Last(init)
    ensures var p' := p[..|p| - 1] + [Last(p) + [x]];
            forall k, j :: 0 <= k < |p'| && 0 <= j < |p'[k]| - 1 ==> !Gap(p'[k][j], p'[k][j + 1])
  {
    var front := p[..|p| - 1];
    var p' := front + [Last(p) + [x]];
    forall k, j | 0 <= k < |p'| && 0 <= j < |p'[k]| - 1 ensures !Gap(p'[k][j], p'[k][j + 1]) {
      if k < |front| {
        assert p'[k] == p[k];
      } else if j < |Last(p)| - 1 {
        assert p'[k][j] == p[k][j] && p'[k][j + 1] == p[k][j + 1];
      } else {
        assert p'[k][j] == Last(init) && p'[k][j + 1] == x;
      }
    }
  }

  /** The boundaries of the extended split are those of `p`, all gaps. */
  lemma ExtendLastBoundaries(p: seq<seq<Site>>, x: Site)
    requires |p| > 0 && Last(p) != []
    requires forall k :: 0 <= k < |p| - 1 && p[k] != [] && p[k + 1] != [] ==> Gap(Last(p[k]), p[k + 1][0])
    ensures var p' := p[..|p| - 1] + [Last(p) + [x]];
            forall k :: 0 <= k < |p'| - 1 && p'[k] != [] && p'[k + 1] != [] ==> Gap(Last(p'[k]), p'[k + 1][0])
  {
    var p' := p[..|p| - 1] + [Last(p) + [x]];
    forall k | 0 <= k < |p'| - 1 && p'[k] != [] && p'[k + 1] != []
      ensures Gap(Last(p'[k]), p'[k + 1][0])
    {
      assert p'[k] == p[k];
      if k + 1 < |p| - 1 {
        assert p'[k + 1] == p[k + 1];
      } else {
        assert p'[k + 1] == p[k + 1] + [x];
      }
    }
  }

  /** The last site is the last site of the last session. */
  lemma LastOfSplit(p: seq<seq<Site>>, sites: seq<Site>)
    requires sites != [] && IsSessionSplit(p, sites)
    ensures |p| > 0 && Last(p) != [] && Last(Last(p)) == Last(sites)
  {
  }

  /** There is only one way to cut the input at its gaps, so the sessions
      are determined by the properties above. */
  lemma {:induction false} SessionSplitUnique(p: seq<seq<Site>>, sites: seq<Site>)
    requires sites != [] && IsSessionSplit(p, sites)
    ensures p == Sessions(sites)
    decreases |sites|
  {
    LastOfSplit(p, sites);
    var front := p[..|p| - 1];
    var l := Last(p);
    var init := sites[..|sites| - 1];
    var x := Last(sites);
    assert p == front + [l];
    assert sites == init + [x];
    FlattenAppend(front, l);
    if |l| == 1 {
      if |sites| == 1 {
        FlattenEmpty(front);
      } else {
        SplitFront(p, init);
        SessionSplitUnique(front, init);
        LastOfSplit(front, init);
        NewSessionAtGap(p, sites);
        UniqueNewSession(front, init, x);
      }
    } else {
      var l' := l[..|l| - 1];
      assert l == l' + [x];
      SplitShortenLast(p, init);
      SessionSplitUnique(front + [l'], init);
      NoGapInSession(p, sites);
      UniqueLongerSession(front, l', init, x);
    }
  }

  /** In a split, a last session of one site follows a gap. */
  lemma NewSessionAtGap(p: seq<seq<Site>>, sites: seq<Site>)
    requires |sites| >= 2 && IsSessionSplit(p, sites)
    requires |p| >= 2 && |Last(p)| == 1
    requires Last(p[..|p| - 1]) != [] && Last(Last(p[..|p| - 1])) == Last(sites[..|sites| - 1])
    ensures Gap(Last(sites[..|sites| - 1]), Last(sites))
  {
    LastOfSplit(p, sites);
    assert Gap(Last(p[|p| - 2]), p[|p| - 1][0]);
  }

  /** In a split, the last two sites of a longer last session have no gap. */
  lemma NoGapInSession(p: seq<seq<Site>>, sites: seq<Site>)
    requires |sites| >= 2 && IsSessionSplit(p, sites)
    requires |p| >= 1 && |Last(p)| >= 2
    requires Flatten(p[..|p| - 1] + [Last(p)[..|Last(p)| - 1]]) == sites[..|sites| - 1]
    ensures !Gap(Last(sites[..|sites| - 1]), Last(sites))
  {
    var l := Last(p);
    LastOfSplit(p, sites);
    assert !Gap(l[|l| - 2], l[|l| - 1]);
    FlattenAppend(p[..|p| - 1], l[..|l| - 1]);
  }

  /** The step of `SessionSplitUnique` when the last session is one site. */
  lemma UniqueNewSession(front: seq<seq<Site>>, init: seq<Site>, x: Site)
    requires init != [] && front == Sessions(init) && Gap(Last(init), x)
    ensures front + [[x]] == Sessions(init + [x])
  {
    SessionsStep(init + [x]);
    assert (init + [x])[..|init|] == init;
  }

  /** The step of `SessionSplitUnique` when the last session is longer. */
  lemma UniqueLongerSession(front: seq<seq<Site>>, l: seq<Site>, init: seq<Site>, x: Site)
    requires init != [] && front + [l] == Sessions(init) && !Gap(Last(init), x)
    ensures front + [l + [x]] == Sessions(init + [x])
  {
    SessionsStep(init + [x]);
    assert (init + [x])[..|init|] == init;
    assert (front + [l])[..|front|] == front;
  }

  /** Without its last one-site session, a split is a split of the rest. */
  lemma SplitFront(p: seq<seq<Site>>, init: seq<Site>)
    requires |p| >= 2 && |Last(p)| == 1
    requires IsSessionSplit(p, init + [Last(Last(p))])
    requires Flatten(p[..|p| - 1]) == init
    ensures init != [] && IsSessionSplit(p[..|p| - 1], init)
  {
    var front := p[..|p| - 1];
    assert front[|front| - 1] == p[|p| - 2] != [];
    assert |Flatten(front)| >= |Last(front)|;
  }

  /** Without the last site of a longer last session, a split is a split of
      the rest. */
  lemma SplitShortenLast(p: seq<seq<Site>>, init: seq<Site>)
    requires |p| >= 1 && |Last(p)| >= 2
    requires IsSessionSplit(p, init + [Last(Last(p))])
    requires Flatten(p[..|p| - 1] + [Last(p)[..|Last(p)| - 1]]) == init
    ensures init != [] && IsSessionSplit(p[..|p| - 1] + [Last(p)[..|Last(p)| - 1]], init)
  {
    var l := Last(p);
    var p' := p[..|p| - 1] + [l[..|l| - 1]];
    FlattenAppend(p[..|p| - 1], l[..|l| - 1]);
    forall k, j | 0 <= k < |p'| && 0 <= j < |p'[k]| - 1 ensures !Gap(p'[k][j], p'[k][j + 1]) {
      if k < |p| - 1 {
        assert p'[k] == p[k];
      } else {
        assert p'[k][j] == p[k][j] && p'[k][j + 1] == p[k][j + 1];
      }
    }
    forall k | 0 <= k < |p'| - 1 && p'[k] != [] && p'[k + 1] != []
      ensures Gap(Last(p'[k]), p'[k + 1][0])
    {
      assert p'[k] == p[k];
      assert p'[k + 1][0] == p[k + 1][0];
    }
  }

  // ---------------------------------------------------------------------
  // Grouping by day

  /** Site `s` has a date, and it falls on day `d`. Sites without a date
      (`!Number.isInteger(date)`) belong to no day. */
  predicate OnDayAt(s: Site, day: int -> string, d: string) {
    s.date.Some? && day(s.date.value) == d
  }

  /** The sites on day `d`, in input order. */
  function OnDay(sites: seq<Site>, day: int -> string, d: string): (r: seq<Site>)
    decreases |sites|
  {
    if |sites| == 0 then []
    else OnDay(sites[..|sites| - 1], day, d) + (if OnDayAt(Last(sites), day, d) then [Last(sites)] else [])
  }

  /** The source's insertion-ordered `Map` from day to sites: the days in
      insertion order, and the sites pushed under each. */
  datatype Buckets = Buckets(days: seq<string>, groups: map<string, seq<Site>>)

  /** The first loop of `groupSitesByDate`: skip a site without a date,
      create the day's list the first time the day is seen, and push the
      site onto it. */
  function Bucket(sites: seq<Site>, day: int -> string): (r: Buckets)
    ensures forall d :: d in r.days <==> d in r.groups
    ensures forall d :: d in r.groups ==> r.groups[d] != []
    decreases |sites|
  {
    if |sites| == 0 then Buckets([], map[])
    else
      var b := Bucket(sites[..|sites| - 1], day);
      var x := Last(sites);
      if x.date.None? then b
      else
        var d := day(x.date.value);
        var b' := if d in b.groups then b else Buckets(b.days + [d], b.groups[d := []]);
        b'.(groups := b'.groups[d := b'.groups[d] + [x]])
  }

  /** The result of `groupSitesByDate`: the same days, in the same order,
      each holding the sessions of its sites. */
  datatype Grouped = Grouped(days: seq<string>, sessions: map<string, seq<seq<Site>>>)

  /** `groupSitesByDate(sites)`: bucket the sites by day, then replace each
      bucket with its sessions. Re-setting an existing key leaves the
      `Map`'s order alone. */
  function GroupSitesByDate(sites: seq<Site>, day: int -> string): (r: Grouped)
    ensures forall d :: d in r.sessions <==> d in r.days
    ensures forall d :: d in r.sessions ==> r.sessions[d] != [] && r.sessions[d][0] != []
  {
    var b := Bucket(sites, day);
    Grouped(b.days, map d | d in b.groups :: Sessions(b.groups[d]))
  }

  /** No day is listed twice. */
  ghost predicate Distinct(days: seq<string>) {
    forall j, k :: 0 <= j < k < |days| ==> days[j] != days[k]
  }

  /** The listed days are exactly the map's keys, each listed once. */
  lemma {:induction false} BucketKeys(sites: seq<Site>, day: int -> string)
    ensures var b := Bucket(sites, day);
            (forall d :: d in b.days <==> d in b.groups) && Distinct(b.days)
    decreases |sites|
  {
    if |sites| > 0 {
      BucketKeys(sites[..|sites| - 1], day);
    }
  }

  /** Each day holds exactly the sites on that day, in input order. */
  lemma {:induction false} BucketContents(sites: seq<Site>, day: int -> string)
    ensures var b := Bucket(sites, day);
            forall d :: d in b.groups ==> b.groups[d] == OnDay(sites, day, d)
    decreases |sites|
  {
    if |sites| > 0 {
      var init := sites[..|sites| - 1];
      BucketContents(init, day);
      BucketKeys(init, day);
      DaysPresent(init, day);
      var b := Bucket(init, day);
      forall d | d in Bucket(sites, day).groups
        ensures Bucket(sites, day).groups[d] == OnDay(sites, day, d)
      {
        if d !in b.groups {
          assert OnDay(init, day, d) == [] by {
            if OnDay(init, day, d) != [] {
              OnDayWitness(init, day, d);
            }
          }
        }
      }
    }
  }

  /** A site on day `d` is somewhere in the input. */
  lemma {:induction false} OnDayWitness(sites: seq<Site>, day: int -> string, d: string)
    requires OnDay(sites, day, d) != []
    ensures exists i :: 0 <= i < |sites| && OnDayAt(sites[i], day, d)
    decreases |sites|
  {
    var init := sites[..|sites| - 1];
    if !OnDayAt(Last(sites), day, d) {
      OnDayWitness(init, day, d);
      var i :| 0 <= i < |init| && OnDayAt(init[i], day, d);
      assert sites[i] == init[i];
    }
  }

  /** A day is listed exactly when some dated site falls on it. */
  lemma {:induction false} DaysPresent(sites: seq<Site>, day: int -> string)
    ensures forall d :: d in Bucket(sites, day).days <==> exists i :: 0 <= i < |sites| && OnDayAt(sites[i], day, d)
    decreases |sites|
  {
    if |sites| > 0 {
      var init := sites[..|sites| - 1];
      DaysPresent(init, day);
      BucketKeys(init, day);
      forall d ensures d in Bucket(sites, day).days <==> exists i :: 0 <= i < |sites| && OnDayAt(sites[i], day, d) {
        if exists i :: 0 <= i < |sites| && OnDayAt(sites[i], day, d) {
          var i :| 0 <= i < |sites| && OnDayAt(sites[i], day, d);
          if i < |init| {
            assert OnDayAt(init[i], day, d);
          }
        }
        if d in Bucket(init, day).days {
          var i :| 0 <= i < |init| && OnDayAt(init[i], day, d);
          assert OnDayAt(sites[i], day, d);
        }
      }
    }
  }

  /** Some site before index `i` falls on day `d`. */
  ghost predicate SeenBefore(sites: seq<Site>, day: int -> string, d: string, i: int) {
    exists i0 :: 0 <= i0 < i && i0 < |sites| && OnDayAt(sites[i0], day, d)
  }

  /** `days` is in order of first appearance: every site on a later-listed
      day comes after some site on each earlier-listed day. */
  ghost predicate FirstSeenOrder(sites: seq<Site>, day: int -> string, days: seq<string>) {
    forall j, k, i :: 0 <= j < k < |days| && 0 <= i < |sites| && OnDayAt(sites[i], day, days[k]) ==>
      SeenBefore(sites, day, days[j], i)
  }

  /** The days are listed in the order their first site appears. */
  lemma {:induction false} DaysOrder(sites: seq<Site>, day: int -> string)
    ensures FirstSeenOrder(sites, day, Bucket(sites, day).days)
    decreases |sites|
  {
    if |sites| > 0 {
      var init := sites[..|sites| - 1];
      DaysOrder(init, day);
      DaysPresent(init, day);
      BucketKeys(init, day);
      NewDayUnseen(sites, day);
      var before := Bucket(init, day).days;
      forall j | 0 <= j < |before| ensures SeenBefore(init, day, before[j], |init|) {
        assert before[j] in before;
      }
      DaysOrderStep(sites, day, before, Bucket(sites, day).days);
    }
  }

  /** The step of `DaysOrder` for the last site, given the order for the
      sites before it. */
  lemma DaysOrderStep(sites: seq<Site>, day: int -> string, before: seq<string>, days: seq<string>)
    requires |sites| > 0
    requires FirstSeenOrder(sites[..|sites| - 1], day, before)
    requires var init := sites[..|sites| - 1];
             && (|days| == |before| || |days| == |before| + 1)
             && days[..|before|] == before
             && (|days| > |before| ==> forall i :: 0 <= i < |init| ==> !OnDayAt(init[i], day, Last(days)))
             && (forall j :: 0 <= j < |before| ==> SeenBefore(init, day, before[j], |init|))
    ensures FirstSeenOrder(sites, day, days)
  {
    var init := sites[..|sites| - 1];
    assert |before| <= |days|;
    forall j, k, i | 0 <= j < k < |days| && 0 <= i < |sites| && OnDayAt(sites[i], day, days[k])
      ensures SeenBefore(sites, day, days[j], i)
    {
      assert days[j] == before[j];
      if k < |before| && i < |init| {
        assert OnDayAt(init[i], day, before[k]);
        assert SeenBefore(init, day, before[j], i);
        var i0 :| 0 <= i0 < i && i0 < |init| && OnDayAt(init[i0], day, before[j]);
        assert sites[i0] == init[i0];
      } else if i < |init| {
        assert false;
      } else {
        assert SeenBefore(init, day, before[j], |init|);
        var i0 :| 0 <= i0 < |init| && OnDayAt(init[i0], day, before[j]);
        assert sites[i0] == init[i0];
      }
    }
  }

  /** A day added for the last site has no site before it. */
  lemma NewDayUnseen(sites: seq<Site>, day: int -> string)
    requires |sites| > 0
    requires var init := sites[..|sites| - 1];
             forall d :: d in Bucket(init, day).days <==> exists i :: 0 <= i < |init| && OnDayAt(init[i], day, d)
    requires var b := Bucket(sites[..|sites| - 1], day);
             forall d :: d in b.days <==> d in b.groups
    ensures var init := sites[..|sites| - 1];
            var before := Bucket(init, day).days;
            var days := Bucket(sites, day).days;
            && (|days| == |before| || |days| == |before| + 1)
            && days[..|before|] == before
            && (|days| > |before| ==> forall i :: 0 <= i < |init| ==> !OnDayAt(init[i], day, Last(days)))
  {
    var init := sites[..|sites| - 1];
    var before := Bucket(init, day).days;
    var days := Bucket(sites, day).days;
    if |days| > |before| {
      var x := Last(sites);
      assert x.date.Some? && day(x.date.value) !in Bucket(init, day).groups;
      assert days == before + [day(x.date.value)];
      assert Last(days) !in before;
      assert !exists i0 :: 0 <= i0 < |init| && OnDayAt(init[i0], day, Last(days));
    }
  }

  /** `groupSitesByDate` lists each day with a dated site once, in order of
      first appearance, and under each day puts the sessions of that day's
      sites, which cut them at their gaps. */
  lemma GroupedByDay(sites: seq<Site>, day: int -> string)
    ensures var r := GroupSitesByDate(sites, day);
            && Distinct(r.days)
            && (forall d :: d in r.sessions <==> d in r.days)
            && (forall d :: d in r.days <==> exists i :: 0 <= i < |sites| && OnDayAt(sites[i], day, d))
            && (forall d :: d in r.sessions ==> OnDay(sites, day, d) != [] && r.sessions[d] == Sessions(OnDay(sites, day, d)))
            && (forall d :: d in r.sessions ==> IsSessionSplit(r.sessions[d], OnDay(sites, day, d)))
  {
    BucketKeys(sites, day);
    BucketContents(sites, day);
    DaysPresent(sites, day);
    var r := GroupSitesByDate(sites, day);
    forall d | d in r.sessions
      ensures OnDay(sites, day, d) != [] && IsSessionSplit(r.sessions[d], OnDay(sites, day, d))
    {
      var i :| 0 <= i < |sites| && OnDayAt(sites[i], day, d);
      OnDayHas(sites, day, d, i);
      SessionsSplit(OnDay(sites, day, d));
    }
  }

  /** A site on day `d` puts something on that day. */
  lemma {:induction false} OnDayHas(sites: seq<Site>, day: int -> string, d: string, i: nat)
    requires i < |sites| && OnDayAt(sites[i], day, d)
    ensures OnDay(sites, day, d) != []
    decreases |sites|
  {
    if i < |sites| - 1 {
      OnDayHas(sites[..|sites| - 1], day, d, i);
    }
  }
}
