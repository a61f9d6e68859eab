/** `normalizeUrl` of lib/task-queue/utils.js.

    The URL parser (`newURI` queried as an `nsIURL`) is not modelled: its
    outcome is the input, either a parse failure or the four components the
    function reads. What remains is string work on the query: split on `&`,
    sort, join, replace `+` by `%20`, and upper-case `%xx` escapes. */
module UrlNormalize {
  import opened Wrappers

  /** The components `normalizeUrl` reads from the parsed URL. */
  datatype UrlParts = UrlParts(prePath: string, filePath: string, query: string, ref: string)

  // ---------------------------------------------------------------------
  // Splitting and joining on '&'

  const SEP: char := '&'

  /** `s.split("&")`: the maximal `&`-free pieces, at least one. */
  function Split(s: string): (r: seq<string>)
    ensures |r| >= 1
    ensures forall i :: 0 <= i < |r| ==> SEP !in r[i]
    decreases |s|
  {
    if |s| == 0 then [""]
    else
      var rest := Split(s[1..]);
      if s[0] == SEP then [""] + rest
      else [[s[0]] + rest[0]] + rest[1..]
  }

  /** `parts.join("&")`: the first part comes first, and every character is
      a separator or comes from some part. */
  function Join(parts: seq<string>): (r: string)
    ensures parts != [] ==> parts[0] <= r
    ensures forall c :: c in r ==> c == SEP || exists i :: 0 <= i < |parts| && c in parts[i]
    decreases |parts|
  {
    if |parts| == 0 then ""
    else if |parts| == 1 then parts[0]
    else parts[0] + [SEP] + Join(parts[1..])
  }

  /** Joining the pieces gives back the string. */
  lemma {:induction false} JoinSplit(s: string)
    ensures Join(Split(s)) == s
    decreases |s|
  {
    if |s| > 0 {
      JoinSplit(s[1..]);
      var rest := Split(s[1..]);
      if s[0] != SEP {
        if |rest| > 1 {
          assert [[s[0]] + rest[0]] + rest[1..] == [[s[0]] + rest[0]] + rest[1..][..];
          assert ([[s[0]] + rest[0]] + rest[1..])[1..] == rest[1..];
          assert Join(rest) == rest[0] + [SEP] + Join(rest[1..]);
        }
      } else {
        assert ([""] + rest)[1..] == rest;
      }
    }
  }

  /** A `&`-free piece followed by `&` splits off as one part. */
  lemma {:induction false} SplitPiece(p: string, rest: string)
    requires SEP !in p
    ensures Split(p + [SEP] + rest) == [p] + Split(rest)
    ensures Split(p) == [p]
    decreases |p|
  {
    if |p| > 0 {
      SplitPiece(p[1..], rest);
      assert (p + [SEP] + rest)[1..] == p[1..] + [SEP] + rest;
      assert [p[0]] + p[1..] == p;
    } else {
      assert p + [SEP] + rest == [SEP] + rest;
    }
  }

  /** Splitting a join of `&`-free parts gives back the parts. */
  lemma {:induction false} SplitJoin(parts: seq<string>)
    requires |parts| >= 1
    requires forall i :: 0 <= i < |parts| ==> SEP !in parts[i]
    ensures Split(Join(parts)) == parts
    decreases |parts|
  {
    if |parts| == 1 {
      SplitPiece(parts[0], "");
    } else {
      SplitJoin(parts[1..]);
      SplitPiece(parts[0], Join(parts[1..]));
      assert [parts[0]] + parts[1..] == parts;
    }
  }

  // ---------------------------------------------------------------------
  // Ordering and sorting

  /** The default order of `Array.prototype.sort` on strings: lexicographic
      by character, a proper prefix first. */
  predicate LessEq(a: string, b: string)
    decreases |a|
  {
    |a| == 0 || (|b| > 0 && (a[0] < b[0] || (a[0] == b[0] && LessEq(a[1..], b[1..]))))
  }

  lemma {:induction false} LessEqTotal(a: string, b: string)
    ensures LessEq(a, b) || LessEq(b, a)
    decreases |a|
  {
    if |a| > 0 && |b| > 0 && a[0] == b[0] {
      LessEqTotal(a[1..], b[1..]);
    }
  }

  lemma {:induction false} LessEqTrans(a: string, b: string, c: string)
    requires LessEq(a, b) && LessEq(b, c)
    ensures LessEq(a, c)
    decreases |a|
  {
    if |a| > 0 && a[0] == b[0] && b[0] == c[0] {
      LessEqTrans(a[1..], b[1..], c[1..]);
    }
  }

  lemma {:induction false} LessEqAntisym(a: string, b: string)
    requires LessEq(a, b) && LessEq(b, a)
    ensures a == b
    decreases |a|
  {
    if |a| > 0 {
      LessEqAntisym(a[1..], b[1..]);
      assert a == [a[0]] + a[1..] && b == [b[0]] + b[1..];
    }
  }

  predicate Sorted(ps: seq<string>) {
    forall i, j :: 0 <= i < j < |ps| ==> LessEq(ps[i], ps[j])
  }

  /** Inserts `x` into a sorted sequence before the first element not below it. */
  function Insert(x: string, ps: seq<string>): (r: seq<string>)
    requires Sorted(ps)
    ensures Sorted(r)
    ensures multiset(r) == multiset(ps) + multiset{x}
    decreases |ps|
  {
    if ps == [] || LessEq(x, ps[0]) then
      BelowHead(x, ps);
      SortedCons(x, ps);
      [x] + ps
    else
      LessEqTotal(x, ps[0]);
      SortedTail(ps);
      var rest := Insert(x, ps[1..]);
      HeadBelowRest(x, ps, rest);
      SortedCons(ps[0], rest);
      assert ps == [ps[0]] + ps[1..];
      [ps[0]] + rest
  }

  /** A sorted sequence stays sorted with an element below all of it in front. */
  lemma SortedCons(h: string, ps: seq<string>)
    requires Sorted(ps) && forall j :: 0 <= j < |ps| ==> LessEq(h, ps[j])
    ensures Sorted([h] + ps)
  {
  }

  /** An element below the head of a sorted sequence is below all of it. */
  lemma BelowHead(x: string, ps: seq<string>)
    requires Sorted(ps) && (ps == [] || LessEq(x, ps[0]))
    ensures forall j :: 0 <= j < |ps| ==> LessEq(x, ps[j])
  {
    forall j | 0 <= j < |ps| ensures LessEq(x, ps[j]) {
      if j > 0 { LessEqTrans(x, ps[0], ps[j]); }
    }
  }

  /** The head of a sorted sequence is below the tail with an element above
      the head added. */
  lemma HeadBelowRest(x: string, ps: seq<string>, rest: seq<string>)
    requires Sorted(ps) && ps != [] && LessEq(ps[0], x)
    requires multiset(rest) == multiset(ps[1..]) + multiset{x}
    ensures forall j :: 0 <= j < |rest| ==> LessEq(ps[0], rest[j])
  {
    forall j | 0 <= j < |rest| ensures LessEq(ps[0], rest[j]) {
      assert rest[j] in multiset(ps[1..]) + multiset{x};
      if rest[j] != x {
        var k :| 1 <= k < |ps| && ps[k] == rest[j] by {
          assert rest[j] in ps[1..];
        }
      }
    }
  }

  /** `parts.sort()`. */
  function Sort(ps: seq<string>): (r: seq<string>)
    ensures Sorted(r)
    ensures multiset(r) == multiset(ps)
    decreases |ps|
  {
    if ps == [] then []
    else
      assert ps == [ps[0]] + ps[1..];
      Insert(ps[0], Sort(ps[1..]))
  }

  /** The head of a sorted sequence is below all of its elements. */
  lemma SortedHeadLeast(a: seq<string>, x: string)
    requires Sorted(a) && x in multiset(a)
    ensures LessEq(a[0], x)
  {
    var j :| 0 <= j < |a| && a[j] == x;
    if j == 0 { LessEqTotal(x, x); }
  }

  lemma SortedTail(a: seq<string>)
    requires Sorted(a) && |a| > 0
    ensures Sorted(a[1..])
    ensures multiset(a[1..]) == multiset(a) - multiset{a[0]}
  {
    assert a == [a[0]] + a[1..];
  }

  /** There is only one sorted arrangement of a multiset of strings, so
      `Sort` is the order any sort with this comparison produces. */
  lemma {:induction false} SortedUnique(a: seq<string>, b: seq<string>)
    requires Sorted(a) && Sorted(b) && multiset(a) == multiset(b)
    ensures a == b
    decreases |a|
  {
    assert |a| == |multiset(a)| == |multiset(b)| == |b|;
    if |a| > 0 {
      SortedHeadLeast(a, b[0]);
      SortedHeadLeast(b, a[0]);
      LessEqAntisym(a[0], b[0]);
      SortedTail(a);
      SortedTail(b);
      SortedUnique(a[1..], b[1..]);
      assert a == [a[0]] + a[1..] && b == [b[0]] + b[1..];
    }
  }

  /** Sorting a sorted sequence leaves it as it is. */
  lemma SortOfSorted(ps: seq<string>)
    requires Sorted(ps)
    ensures Sort(ps) == ps
  {
    SortedUnique(Sort(ps), ps);
  }

  // ---------------------------------------------------------------------
  // '+' to "%20"

  function Count(s: string, c: char): nat
    decreases |s|
  {
    if |s| == 0 then 0 else (if s[0] == c then 1 else 0) + Count(s[1..], c)
  }

  /** `q.replace(/[\+]/g, "%20")`. */
  function ReplacePlus(s: string): (r: string)
    ensures '+' !in r
    ensures |r| == |s| + 2 * Count(s, '+')
    ensures forall c :: c !in s && c !in "%20" ==> c !in r
    decreases |s|
  {
    if |s| == 0 then ""
    else (if s[0] == '+' then "%20" else [s[0]]) + ReplacePlus(s[1..])
  }

  /** Replacement works piece by piece. */
  lemma {:induction false} ReplacePlusConcat(a: string, b: string)
    ensures ReplacePlus(a + b) == ReplacePlus(a) + ReplacePlus(b)
    decreases |a|
  {
    if |a| > 0 {
      ReplacePlusConcat(a[1..], b);
      assert (a + b)[1..] == a[1..] + b;
    } else {
      assert a + b == b;
    }
  }

  /** A string with no '+' is left as it is, so replacing twice is
      replacing once. */
  lemma {:induction false} ReplacePlusNoPlus(s: string)
    requires '+' !in s
    ensures ReplacePlus(s) == s
    decreases |s|
  {
    if |s| > 0 {
      ReplacePlusNoPlus(s[1..]);
      assert [s[0]] + s[1..] == s;
    }
  }

  // ---------------------------------------------------------------------
  // Upper-casing percent escapes

  predicate IsHex(c: char) {
    ('0' <= c <= '9') || ('a' <= c <= 'f') || ('A' <= c <= 'F')
  }

  predicate IsLowerHex(c: char) {
    'a' <= c <= 'f'
  }

  /** `toUpperCase` on a hex digit. */
  function UpperHex(c: char): (r: char)
    ensures IsHex(r) <==> IsHex(c)
    ensures !IsLowerHex(r)
  {
    if IsLowerHex(c) then (c as int - 32) as char else c
  }

  /** An escape `%xx` starts at `i`. */
  predicate EscapeAt(s: string, i: int) {
    0 <= i && i + 2 < |s| && s[i] == '%' && IsHex(s[i + 1]) && IsHex(s[i + 2])
  }

  /** `q.replace(/%[0-9a-fA-F]{2}/g, pe => pe.toUpperCase())`: the escapes
      are found left to right without overlap. */
  function UpperEscapes(s: string): (r: string)
    ensures |r| == |s|
    decreases |s|
  {
    if |s| == 0 then ""
    else if EscapeAt(s, 0) then ['%', UpperHex(s[1]), UpperHex(s[2])] + UpperEscapes(s[3..])
    else [s[0]] + UpperEscapes(s[1..])
  }

  /** Only hex digits change, and only to their upper-case form. */
  lemma {:induction false} UpperEscapesChars(s: string)
    ensures var r := UpperEscapes(s);
            forall i :: 0 <= i < |s| ==> r[i] == s[i] || (IsHex(s[i]) && r[i] == UpperHex(s[i]))
    decreases |s|
  {
    if |s| > 0 {
      if EscapeAt(s, 0) {
        UpperEscapesChars(s[3..]);
      } else {
        UpperEscapesChars(s[1..]);
      }
    }
  }

  /** No escape is left with a lower-case hex digit. */
  predicate EscapesUpper(s: string) {
    forall i :: 0 <= i < |s| && EscapeAt(s, i) ==> !IsLowerHex(s[i + 1]) && !IsLowerHex(s[i + 2])
  }

  lemma {:induction false} UpperEscapesUpper(s: string)
    ensures EscapesUpper(UpperEscapes(s))
    decreases |s|
  {
    var r := UpperEscapes(s);
    if |s| == 0 {
    } else if EscapeAt(s, 0) {
      UpperEscapesUpper(s[3..]);
      UpperEscapesChars(s[3..]);
      forall i | 0 <= i < |r| && EscapeAt(r, i) ensures !IsLowerHex(r[i + 1]) && !IsLowerHex(r[i + 2]) {
        if 3 <= i {
          assert EscapeAt(UpperEscapes(s[3..]), i - 3);
        }
      }
    } else {
      UpperEscapesUpper(s[1..]);
      UpperEscapesChars(s[1..]);
      NoEscapeStaysNone(s);
      forall i | 0 <= i < |r| && EscapeAt(r, i) ensures !IsLowerHex(r[i + 1]) && !IsLowerHex(r[i + 2]) {
        if 1 <= i {
          assert EscapeAt(UpperEscapes(s[1..]), i - 1);
        }
      }
    }
  }

  /** Upper-casing does not create an escape where there was none. */
  lemma NoEscapeStaysNone(s: string)
    requires |s| > 0 && !EscapeAt(s, 0)
    ensures !EscapeAt(UpperEscapes(s), 0)
  {
    UpperEscapesChars(s);
  }

  /** Upper-casing leaves a string whose escapes are upper case as it is;
      with `UpperEscapesUpper`, the operation is idempotent. */
  lemma {:induction false} UpperEscapesFixed(s: string)
    requires EscapesUpper(s)
    ensures UpperEscapes(s) == s
    decreases |s|
  {
    if |s| > 0 {
      if EscapeAt(s, 0) {
        assert EscapesUpper(s[3..]) by {
          forall i | 0 <= i < |s[3..]| && EscapeAt(s[3..], i) ensures !IsLowerHex(s[3..][i + 1]) && !IsLowerHex(s[3..][i + 2]) {
            assert EscapeAt(s, i + 3);
          }
        }
        UpperEscapesFixed(s[3..]);
        assert s == ['%', s[1], s[2]] + s[3..];
      } else {
        assert EscapesUpper(s[1..]) by {
          forall i | 0 <= i < |s[1..]| && EscapeAt(s[1..], i) ensures !IsLowerHex(s[1..][i + 1]) && !IsLowerHex(s[1..][i + 2]) {
            assert EscapeAt(s, i + 1);
          }
        }
        UpperEscapesFixed(s[1..]);
        assert s == [s[0]] + s[1..];
      }
    }
  }

  /** An escape never spans a `&`, so upper-casing works piece by piece
      around it. */
  lemma {:induction false} UpperEscapesAroundSep(a: string, b: string)
    ensures UpperEscapes(a + [SEP] + b) == UpperEscapes(a) + [SEP] + UpperEscapes(b)
    decreases |a|
  {
    if |a| == 0 {
      var s := a + [SEP] + b;
      assert s == [SEP] + b && s[1..] == b;
      assert !EscapeAt(s, 0);
    } else if EscapeAt(a, 0) {
      UpperEscapesAroundSep(a[3..], b);
      EscapeBeforeSep(a, b);
    } else {
      UpperEscapesAroundSep(a[1..], b);
      NoEscapeBeforeSep(a, b);
    }
  }

  /** The step of `UpperEscapesAroundSep` when `a` starts with an escape. */
  lemma EscapeBeforeSep(a: string, b: string)
    requires EscapeAt(a, 0)
    requires UpperEscapes(a[3..] + [SEP] + b) == UpperEscapes(a[3..]) + [SEP] + UpperEscapes(b)
    ensures UpperEscapes(a + [SEP] + b) == UpperEscapes(a) + [SEP] + UpperEscapes(b)
  {
    var s := a + [SEP] + b;
    var head := ['%', UpperHex(a[1]), UpperHex(a[2])];
    assert UpperEscapes(s) == head + UpperEscapes(a[3..] + [SEP] + b) by {
      assert s[3..] == a[3..] + [SEP] + b;
      assert s[..3] == a[..3];
      assert EscapeAt(s, 0);
    }
    assert UpperEscapes(a) == head + UpperEscapes(a[3..]);
    ConcatAround(head, UpperEscapes(a[3..]), UpperEscapes(b));
  }

  /** The step of `UpperEscapesAroundSep` when `a` does not start with one. */
  lemma NoEscapeBeforeSep(a: string, b: string)
    requires |a| > 0 && !EscapeAt(a, 0)
    requires UpperEscapes(a[1..] + [SEP] + b) == UpperEscapes(a[1..]) + [SEP] + UpperEscapes(b)
    ensures UpperEscapes(a + [SEP] + b) == UpperEscapes(a) + [SEP] + UpperEscapes(b)
  {
    var s := a + [SEP] + b;
    SepBlocksEscape(a, b);
    assert s[0] == a[0] && s[1..] == a[1..] + [SEP] + b;
    assert UpperEscapes(s) == [a[0]] + UpperEscapes(a[1..] + [SEP] + b);
    assert UpperEscapes(a) == [a[0]] + UpperEscapes(a[1..]);
    ConcatAround([a[0]], UpperEscapes(a[1..]), UpperEscapes(b));
  }

  /** No escape starts at a position whose next two characters reach the `&`. */
  lemma SepBlocksEscape(a: string, b: string)
    requires |a| > 0 && !EscapeAt(a, 0)
    ensures !EscapeAt(a + [SEP] + b, 0)
  {
    var s := a + [SEP] + b;
    if |a| >= 3 { assert s[1] == a[1] && s[2] == a[2]; }
    else if |a| == 2 { assert s[2] == SEP; }
    else { assert s[1] == SEP; }
  }

  lemma ConcatAround(h: string, x: string, y: string)
    ensures h + (x + [SEP] + y) == (h + x) + [SEP] + y
  {
  }

  // ---------------------------------------------------------------------
  // The query and the URL

  /** One query parameter after `+` replacement and escape upper-casing. */
  function FixParam(p: string): (r: string)
    ensures '+' !in r
    ensures EscapesUpper(r)
  {
    UpperEscapesUpper(ReplacePlus(p));
    UpperEscapesChars(ReplacePlus(p));
    UpperEscapes(ReplacePlus(p))
  }

  function FixAll(ps: seq<string>): (r: seq<string>)
    ensures |r| == |ps|
    ensures forall i :: 0 <= i < |ps| ==> r[i] == FixParam(ps[i])
    decreases |ps|
  {
    if ps == [] then [] else [FixParam(ps[0])] + FixAll(ps[1..])
  }

  /** The query as `normalizeUrl` rewrites it: sorted first, then `+` and
      escapes rewritten on the joined string. */
  function NormalizeQuery(q: string): (r: string)
    ensures '+' !in r
    ensures EscapesUpper(r)
  {
    var joined := ReplacePlus(Join(Sort(Split(q))));
    UpperEscapesUpper(joined);
    UpperEscapesChars(joined);
    UpperEscapes(joined)
  }

  /** A parameter never gains a `&` from the rewriting. */
  lemma FixParamNoSep(p: string)
    requires SEP !in p
    ensures SEP !in FixParam(p)
  {
    var r := ReplacePlus(p);
    assert SEP !in r;
    UpperEscapesChars(r);
  }

  /** Rewriting the joined string is rewriting each parameter. */
  lemma {:induction false} RewriteJoined(ps: seq<string>)
    requires forall i :: 0 <= i < |ps| ==> SEP !in ps[i]
    ensures UpperEscapes(ReplacePlus(Join(ps))) == Join(FixAll(ps))
    decreases |ps|
  {
    if |ps| > 1 {
      RewriteJoined(ps[1..]);
      ReplacePlusConcat(ps[0] + [SEP], Join(ps[1..]));
      ReplacePlusConcat(ps[0], [SEP]);
      assert ReplacePlus([SEP]) == [SEP];
      UpperEscapesAroundSep(ReplacePlus(ps[0]), ReplacePlus(Join(ps[1..])));
      assert FixAll(ps)[1..] == FixAll(ps[1..]);
    }
  }

  /** The parameters of the rewritten query are the rewritten parameters of
      the sorted query, in that order. */
  lemma NormalizeQueryParams(q: string)
    ensures var sorted := Sort(Split(q));
            && Sorted(sorted) && multiset(sorted) == multiset(Split(q))
            && Split(NormalizeQuery(q)) == FixAll(sorted)
  {
    var sorted := Sort(Split(q));
    forall i | 0 <= i < |sorted| ensures SEP !in sorted[i] {
      assert sorted[i] in multiset(Split(q));
    }
    RewriteJoined(sorted);
    forall i | 0 <= i < |sorted| ensures SEP !in FixAll(sorted)[i] {
      FixParamNoSep(sorted[i]);
    }
    assert |sorted| == |Split(q)| by {
      assert |multiset(sorted)| == |multiset(Split(q))|;
    }
    SplitJoin(FixAll(sorted));
  }

  // ---------------------------------------------------------------------
  // Characters the rewriting does not introduce

  lemma {:induction false} SplitKeepsOut(s: string, c: char)
    requires c !in s
    ensures forall i :: 0 <= i < |Split(s)| ==> c !in Split(s)[i]
    decreases |s|
  {
    if |s| > 0 {
      SplitKeepsOut(s[1..], c);
    }
  }

  lemma {:induction false} JoinKeepsOut(ps: seq<string>, c: char)
    requires c != SEP && forall i :: 0 <= i < |ps| ==> c !in ps[i]
    ensures c !in Join(ps)
    decreases |ps|
  {
    if |ps| > 1 {
      JoinKeepsOut(ps[1..], c);
    }
  }

  /** A character that is not a hex digit, `%` or `&` and is absent from the
      query is absent from the rewritten query. */
  lemma NormalizeQueryKeepsOut(q: string, c: char)
    requires c !in q && c != SEP && c != '%' && !IsHex(c)
    ensures c !in NormalizeQuery(q)
  {
    SplitKeepsOut(q, c);
    var sorted := Sort(Split(q));
    forall i | 0 <= i < |sorted| ensures c !in sorted[i] {
      assert sorted[i] in multiset(Split(q));
    }
    JoinKeepsOut(sorted, c);
    var r := ReplacePlus(Join(sorted));
    assert c !in r;
    UpperEscapesChars(r);
  }

  // ---------------------------------------------------------------------
  // The URL

  /** `normalizeUrl(urlString, keepReference)`, given what the parser made
      of `urlString`: the pre-path and file path, then `?` and the rewritten
      query when there is a query, then `#` and the reference when it is
      kept and not empty. */
  function NormalizeUrl(parsed: Option<UrlParts>, keepReference: bool): (r: string)
    ensures parsed.None? ==> r == ""
  {
    match parsed
    case None => ""
    case Some(u) =>
      var path := u.filePath + (if u.query != "" then "?" + NormalizeQuery(u.query) else "");
      var path' := path + (if keepReference && u.ref != "" then "#" + u.ref else "");
      u.prePath + path'
  }

  /** The text of `s` before the first `c`, and what follows it if `c`
      occurs: how a reader splits a URL at `?` and `#`. */
  function Before(s: string, c: char): (r: string)
    ensures c !in r
    decreases |s|
  {
    if |s| == 0 || s[0] == c then "" else [s[0]] + Before(s[1..], c)
  }

  function After(s: string, c: char): Option<string>
    decreases |s|
  {
    if |s| == 0 then None else if s[0] == c then Some(s[1..]) else After(s[1..], c)
  }

  lemma {:induction false} SplitAtFirst(x: string, c: char, y: string)
    requires c !in x
    ensures Before(x + [c] + y, c) == x && After(x + [c] + y, c) == Some(y)
    ensures Before(x, c) == x && After(x, c) == None
    decreases |x|
  {
    if |x| == 0 {
      assert x + [c] + y == [c] + y;
    } else {
      SplitAtFirst(x[1..], c, y);
      assert (x + [c] + y)[1..] == x[1..] + [c] + y;
      assert x == [x[0]] + x[1..];
    }
  }

  /** Reading the normalised URL back: up to `?` is the pre-path and file
      path, between `?` and `#` is the rewritten query (present exactly when
      the query is not empty), after `#` is the reference (present exactly
      when it is kept and not empty). Holds whenever the parser's components
      have no `?` or `#` in the path and no `#` in the query. */
  lemma NormalizeUrlComponents(u: UrlParts, keepReference: bool)
    requires '?' !in u.prePath + u.filePath && '#' !in u.prePath + u.filePath
    requires '#' !in u.query
    ensures var r := NormalizeUrl(Some(u), keepReference);
            && Before(Before(r, '#'), '?') == u.prePath + u.filePath
            && After(Before(r, '#'), '?') == (if u.query != "" then Some(NormalizeQuery(u.query)) else None)
            && After(r, '#') == (if keepReference && u.ref != "" then Some(u.ref) else None)
  {
    NormalizeUrlReference(u, keepReference);
    ReadQuery(u.prePath + u.filePath, u.query, NormalizeQuery(u.query));
  }

  /** The part before `#` is everything but the reference, and the part
      after it is the reference when it is kept. */
  lemma NormalizeUrlReference(u: UrlParts, keepReference: bool)
    requires '#' !in u.prePath + u.filePath && '#' !in u.query
    ensures var r := NormalizeUrl(Some(u), keepReference);
            && Before(r, '#') == (u.prePath + u.filePath) + (if u.query != "" then "?" + NormalizeQuery(u.query) else "")
            && After(r, '#') == (if keepReference && u.ref != "" then Some(u.ref) else None)
  {
    NormalizeQueryKeepsOut(u.query, '#');
    QueryPartKeepsOut(u.prePath + u.filePath, u.query, NormalizeQuery(u.query));
    ReadReference((u.prePath + u.filePath) + (if u.query != "" then "?" + NormalizeQuery(u.query) else ""),
                  u.ref, keepReference);
    NormalizeUrlLayout(u, keepReference);
  }

  lemma QueryPartKeepsOut(base: string, q: string, nq: string)
    requires '#' !in base && '#' !in nq
    ensures '#' !in base + (if q != "" then "?" + nq else "")
  {
  }

  /** One unfolding of `NormalizeUrl` on a parsed URL, used as a step by
      the two lemmas above. */
  lemma NormalizeUrlLayout(u: UrlParts, keepReference: bool)
    ensures NormalizeUrl(Some(u), keepReference)
         == (u.prePath + u.filePath)
            + (if u.query != "" then "?" + NormalizeQuery(u.query) else "")
            + (if keepReference && u.ref != "" then "#" + u.ref else "")
  {
    Regroup(u.prePath, u.filePath,
            if u.query != "" then "?" + NormalizeQuery(u.query) else "",
            if keepReference && u.ref != "" then "#" + u.ref else "");
  }

  lemma Regroup(a: string, b: string, c: string, d: string)
    ensures a + (b + c + d) == (a + b) + c + d
  {
  }

  lemma ReadReference(x: string, ref: string, keep: bool)
    requires '#' !in x
    ensures var r := x + (if keep && ref != "" then "#" + ref else "");
            Before(r, '#') == x && After(r, '#') == (if keep && ref != "" then Some(ref) else None)
  {
    if keep && ref != "" {
      assert x + ("#" + ref) == x + ['#'] + ref;
      SplitAtFirst(x, '#', ref);
    } else {
      SplitAtFirst(x, '#', "");
      assert x + "" == x;
    }
  }

  /** A `?query` appended to `base`, when the query `q` is not empty, is
      found again after the first `?`, as the rewritten query `nq`. */
  lemma ReadQuery(base: string, q: string, nq: string)
    requires '?' !in base
    ensures var x := base + (if q != "" then "?" + nq else "");
            Before(x, '?') == base && After(x, '?') == (if q != "" then Some(nq) else None)
  {
    if q != "" {
      assert base + ("?" + nq) == base + ['?'] + nq;
      SplitAtFirst(base, '?', nq);
    } else {
      SplitAtFirst(base, '?', "");
      assert base + "" == base;
    }
  }

  // ---------------------------------------------------------------------
  // Sorting after rewriting

  /** A parameter with no `+` and upper-case escapes is its own rewrite. */
  lemma FixParamFixed(p: string)
    requires '+' !in p && EscapesUpper(p)
    ensures FixParam(p) == p
  {
    ReplacePlusNoPlus(p);
    UpperEscapesFixed(p);
  }

  /** The query rewritten as the rewrite is evidently meant: each parameter
      rewritten first, then sorted and joined, so that the parameters of the
      result are in order whatever the case of their escapes. */
  function NormalizeQueryIntended(q: string): (r: string)
    ensures Sorted(Split(r))
    ensures multiset(Split(r)) == multiset(FixAll(Split(q)))
    ensures forall i :: 0 <= i < |Split(r)| ==> '+' !in Split(r)[i] && EscapesUpper(Split(r)[i])
  {
    SortedRewrittenParams(q);
    Join(Sort(FixAll(Split(q))))
  }

  /** The rewritten parameters, sorted, survive the join: splitting gives
      them back, and each is free of `&` and `+` with upper-case escapes. */
  lemma SortedRewrittenParams(q: string)
    ensures var ps := Sort(FixAll(Split(q)));
            && Split(Join(ps)) == ps
            && Sorted(ps) && multiset(ps) == multiset(FixAll(Split(q)))
            && forall i :: 0 <= i < |ps| ==> '+' !in ps[i] && EscapesUpper(ps[i])
  {
    var fixed := FixAll(Split(q));
    var ps := Sort(fixed);
    forall i | 0 <= i < |ps| ensures SEP !in ps[i] && '+' !in ps[i] && EscapesUpper(ps[i]) {
      assert ps[i] in multiset(fixed);
      var j :| 0 <= j < |fixed| && fixed[j] == ps[i];
      FixParamNoSep(Split(q)[j]);
    }
    assert |ps| == |fixed| by {
      assert |multiset(ps)| == |multiset(fixed)|;
    }
    SplitJoin(ps);
  }

  /** The corrected query's parameters are exactly the sorted rewritten
      parameters. */
  lemma IntendedParams(q: string)
    ensures var ps := Sort(FixAll(Split(q)));
            && Split(NormalizeQueryIntended(q)) == ps
            && Sorted(ps) && multiset(ps) == multiset(FixAll(Split(q)))
            && forall i :: 0 <= i < |ps| ==> '+' !in ps[i] && EscapesUpper(ps[i])
  {
    SortedRewrittenParams(q);
  }

  /** Normalising the intended way twice is normalising once. */
  lemma IntendedIdempotent(q: string)
    ensures NormalizeQueryIntended(NormalizeQueryIntended(q)) == NormalizeQueryIntended(q)
  {
    IntendedParams(q);
    var ps := Sort(FixAll(Split(q)));
    forall i | 0 <= i < |ps| ensures FixAll(ps)[i] == ps[i] {
      FixParamFixed(ps[i]);
    }
    assert FixAll(ps) == ps;
    SortOfSorted(ps);
  }

  /** The parameters of the counterexample below: `%2b`, `%2B` and `%2C`. */
  predicate CounterexampleParams(lowerB: string, upperB: string, upperC: string) {
    lowerB == "%2b" && upperB == "%2B" && upperC == "%2C"
  }

  /** `C` (0x43) sorts before `b` (0x62) but after `B` (0x42). */
  lemma CounterexampleOrder(lowerB: string, upperB: string, upperC: string)
    requires CounterexampleParams(lowerB, upperB, upperC)
    ensures Sort([lowerB, upperC]) == [upperC, lowerB]
    ensures Sort([upperB, upperC]) == [upperB, upperC]
    ensures Sort([upperC, upperB]) == [upperB, upperC]
  {
    assert LessEq(upperC, lowerB);
    assert LessEq(upperB, upperC);
    SortPair(lowerB, upperC);
    SortPair(upperB, upperC);
    SortPair(upperC, upperB);
  }

  /** Two strings sort into their order. */
  lemma SortPair(a: string, b: string)
    ensures LessEq(a, b) ==> Sort([a, b]) == [a, b]
    ensures LessEq(b, a) ==> Sort([a, b]) == [b, a]
  {
    assert Sort([b]) == [b] by { assert [b][1..] == []; }
    assert Sort([a, b]) == Insert(a, [b]) by { assert [a, b][1..] == [b]; }
    if !LessEq(a, b) {
      assert Insert(a, [b]) == [b] + Insert(a, []) by { assert [b][1..] == []; }
    } else if LessEq(b, a) {
      LessEqAntisym(a, b);
    }
  }

  lemma CounterexampleRewrite(lowerB: string, upperB: string, upperC: string)
    requires CounterexampleParams(lowerB, upperB, upperC)
    ensures FixParam(lowerB) == upperB
    ensures FixParam(upperB) == upperB
    ensures FixParam(upperC) == upperC
    ensures SEP !in lowerB && SEP !in upperB && SEP !in upperC
  {
    ReplacePlusNoPlus(lowerB);
    ReplacePlusNoPlus(upperB);
    ReplacePlusNoPlus(upperC);
    assert EscapeAt(lowerB, 0) && EscapeAt(upperB, 0) && EscapeAt(upperC, 0);
  }

  /** `NormalizeQuery` on a two-parameter query, from the sorted pair and
      the rewrite of each parameter. */
  lemma NormalizeTwo(p1: string, p2: string, s1: string, s2: string, f1: string, f2: string)
    requires SEP !in p1 && SEP !in p2
    requires Sort([p1, p2]) == [s1, s2]
    requires FixParam(s1) == f1 && FixParam(s2) == f2
    ensures NormalizeQuery(p1 + [SEP] + p2) == f1 + [SEP] + f2
  {
    JoinPair(p1, p2);
    JoinPair(f1, f2);
    SplitJoin([p1, p2]);
    assert SEP !in s1 && SEP !in s2 by {
      assert s1 in multiset([p1, p2]) && s2 in multiset([p1, p2]);
    }
    RewriteJoined([s1, s2]);
  }

  /** The two orders of the pair are different strings. */
  lemma SwappedDiffer(lowerB: string, upperB: string, upperC: string)
    requires CounterexampleParams(lowerB, upperB, upperC)
    ensures upperC + [SEP] + upperB != upperB + [SEP] + upperC
  {
    assert (upperC + [SEP] + upperB)[2] != (upperB + [SEP] + upperC)[2];
  }

  lemma AsWrittenLower(lowerB: string, upperB: string, upperC: string)
    requires CounterexampleParams(lowerB, upperB, upperC)
    ensures NormalizeQuery(lowerB + [SEP] + upperC) == upperC + [SEP] + upperB
  {
    CounterexampleOrder(lowerB, upperB, upperC);
    CounterexampleRewrite(lowerB, upperB, upperC);
    NormalizeTwo(lowerB, upperC, upperC, lowerB, upperC, upperB);
  }

  lemma AsWrittenUpper(lowerB: string, upperB: string, upperC: string)
    requires CounterexampleParams(lowerB, upperB, upperC)
    ensures NormalizeQuery(upperB + [SEP] + upperC) == upperB + [SEP] + upperC
    ensures NormalizeQuery(upperC + [SEP] + upperB) == upperB + [SEP] + upperC
  {
    CounterexampleOrder(lowerB, upperB, upperC);
    CounterexampleRewrite(lowerB, upperB, upperC);
    NormalizeTwo(upperB, upperC, upperB, upperC, upperB, upperC);
    NormalizeTwo(upperC, upperB, upperB, upperC, upperB, upperC);
  }

  /** As written, the order depends on the case of the escapes: two queries
      that differ only in `%2b` against `%2B` normalise to different strings,
      and normalising the first result again changes it. */
  lemma EscapeCaseChangesOrder(lowerB: string, upperB: string, upperC: string)
    requires CounterexampleParams(lowerB, upperB, upperC)
    ensures NormalizeQuery(lowerB + [SEP] + upperC) != NormalizeQuery(upperB + [SEP] + upperC)
    ensures NormalizeQuery(NormalizeQuery(lowerB + [SEP] + upperC)) != NormalizeQuery(lowerB + [SEP] + upperC)
  {
    AsWrittenLower(lowerB, upperB, upperC);
    AsWrittenUpper(lowerB, upperB, upperC);
    SwappedDiffer(lowerB, upperB, upperC);
  }

  /** The intended rewrite gives the same string for both queries. */
  lemma EscapeCaseIntended(lowerB: string, upperB: string, upperC: string)
    requires CounterexampleParams(lowerB, upperB, upperC)
    ensures NormalizeQueryIntended(lowerB + [SEP] + upperC) == upperB + [SEP] + upperC
    ensures NormalizeQueryIntended(upperB + [SEP] + upperC) == upperB + [SEP] + upperC
  {
    IntendedTwo(lowerB, upperB, upperC, lowerB);
    IntendedTwo(lowerB, upperB, upperC, upperB);
  }

  lemma IntendedTwo(lowerB: string, upperB: string, upperC: string, first: string)
    requires CounterexampleParams(lowerB, upperB, upperC)
    requires first == lowerB || first == upperB
    ensures NormalizeQueryIntended(first + [SEP] + upperC) == upperB + [SEP] + upperC
  {
    CounterexampleOrder(lowerB, upperB, upperC);
    CounterexampleRewrite(lowerB, upperB, upperC);
    IntendedOfTwo(first, upperC, upperB, upperC, upperB, upperC);
  }

  /** `NormalizeQueryIntended` on a two-parameter query, from the rewrite of
      each parameter and the sorted pair. */
  lemma IntendedOfTwo(p1: string, p2: string, f1: string, f2: string, s1: string, s2: string)
    requires SEP !in p1 && SEP !in p2
    requires FixParam(p1) == f1 && FixParam(p2) == f2
    requires Sort([f1, f2]) == [s1, s2]
    ensures NormalizeQueryIntended(p1 + [SEP] + p2) == s1 + [SEP] + s2
  {
    SortedOfTwo(p1, p2, f1, f2, s1, s2);
    IntendedUnfold(p1 + [SEP] + p2, s1 + [SEP] + s2);
  }

  lemma SortedOfTwo(p1: string, p2: string, f1: string, f2: string, s1: string, s2: string)
    requires SEP !in p1 && SEP !in p2
    requires FixParam(p1) == f1 && FixParam(p2) == f2
    requires Sort([f1, f2]) == [s1, s2]
    ensures Join(Sort(FixAll(Split(p1 + [SEP] + p2)))) == s1 + [SEP] + s2
  {
    JoinPair(p1, p2);
    JoinPair(s1, s2);
    SplitJoin([p1, p2]);
    assert FixAll([p1, p2]) == [f1, f2];
  }

  /** One unfolding of `NormalizeQueryIntended`. */
  lemma IntendedUnfold(q: string, r: string)
    requires Join(Sort(FixAll(Split(q)))) == r
    ensures NormalizeQueryIntended(q) == r
  {
  }

  lemma JoinPair(a: string, b: string)
    ensures Join([a, b]) == a + [SEP] + b
  {
    assert [a, b][1..] == [b];
  }
}
