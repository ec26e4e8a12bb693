/** Resolving a request path to the permission that guards it: wildcard patterns, the sorted index and its cache. */
module RouteMatch {
  import opened Wrappers
  import opened Text

  /** A row of the route table joined with its permission. */
  datatype Row = Row(code: string, httpMethod: string, pattern: string, enabled: bool)

  datatype Route = Route(code: string, httpMethod: string, pattern: string)

  function NonEmpty(parts: seq<string>): seq<string> {
    if parts == [] then [] else (if parts[0] == "" then [] else [parts[0]]) + NonEmpty(parts[1..])
  }

  /** The non-empty segments of a path or pattern; outer and doubled slashes make no segments. */
  function Segments(path: string): seq<string> {
    NonEmpty(Split(path, '/'))
  }

  predicate MatchesSegments(p: seq<string>, v: seq<string>) {
    |p| == |v| && forall i :: 0 <= i < |p| ==> p[i] == "*" || p[i] == v[i]
  }

  predicate MatchPathPattern(pattern: string, path: string) {
    MatchesSegments(Segments(pattern), Segments(path))
  }

  function UpperCase(s: string): string {
    if s == "" then "" else [if 'a' <= s[0] <= 'z' then (s[0] as int - 32) as char else s[0]] + UpperCase(s[1..])
  }

  /** The routes of enabled permissions. */
  function EnabledRoutes(table: seq<Row>): seq<Route> {
    if table == [] then []
    else
      var rest := EnabledRoutes(table[1..]);
      var r := table[0];
      if r.enabled then [Route(r.code, UpperCase(r.httpMethod), r.pattern)] + rest else rest
  }

  /** Inserting before the first route whose pattern is no longer. */
  function Insert(r: Route, index: seq<Route>): seq<Route> {
    if index == [] || |r.pattern| >= |index[0].pattern| then [r] + index
    else [index[0]] + Insert(r, index[1..])
  }

  /** Stable sorting by pattern length, longest first. */
  function SortByLength(routes: seq<Route>): seq<Route> {
    if routes == [] then [] else Insert(routes[0], SortByLength(routes[1..]))
  }

  function FirstMatch(index: seq<Route>, httpMethod: string, path: string): Option<Route> {
    if index == [] then None
    else if index[0].httpMethod == httpMethod && MatchPathPattern(index[0].pattern, path) then Some(index[0])
    else FirstMatch(index[1..], httpMethod, path)
  }

  predicate Candidate(r: Route, httpMethod: string, path: string) {
    r.httpMethod == httpMethod && MatchPathPattern(r.pattern, path)
  }

  /** Position k holds the first of the longest matching routes. */
  predicate IsBest(routes: seq<Route>, httpMethod: string, path: string, k: nat) {
    && k < |routes| && Candidate(routes[k], httpMethod, path)
    && (forall j :: 0 <= j < k && Candidate(routes[j], httpMethod, path) ==> |routes[j].pattern| < |routes[k].pattern|)
    && (forall j :: k < j < |routes| && Candidate(routes[j], httpMethod, path) ==>
          |routes[j].pattern| <= |routes[k].pattern|)
  }

  predicate LongestFirst(index: seq<Route>) {
    forall i, j :: 0 <= i < j < |index| ==> |index[i].pattern| >= |index[j].pattern|
  }

  lemma InsertSorted(r: Route, index: seq<Route>)
    requires LongestFirst(index)
    ensures LongestFirst(Insert(r, index))
    ensures forall x :: x in Insert(r, index) <==> x == r || x in index
  {
    if index != [] && |r.pattern| < |index[0].pattern| {
      InsertSorted(r, index[1..]);
      var rest := Insert(r, index[1..]);
      forall j | 0 <= j < |rest| ensures |index[0].pattern| >= |rest[j].pattern| {
        assert rest[j] in rest;
      }
    }
  }

  lemma SortedIndex(routes: seq<Route>)
    ensures LongestFirst(SortByLength(routes))
    ensures forall x :: x in SortByLength(routes) <==> x in routes
  {
    if routes != [] {
      SortedIndex(routes[1..]);
      InsertSorted(routes[0], SortByLength(routes[1..]));
    }
  }

  lemma FirstMatchListed(index: seq<Route>, httpMethod: string, path: string)
    ensures var m := FirstMatch(index, httpMethod, path); m.Some? ==> m.value in index
  {
  }

  /** In a sorted index, inserting a route changes the first match exactly when the route matches and is no shorter. */
  lemma {:induction false} FirstMatchInsert(r: Route, index: seq<Route>, httpMethod: string, path: string)
    requires LongestFirst(index)
    ensures var before := FirstMatch(index, httpMethod, path);
            FirstMatch(Insert(r, index), httpMethod, path)
            == if Candidate(r, httpMethod, path) && (before.None? || |r.pattern| >= |before.value.pattern|)
               then Some(r) else before
  {
    hide MatchPathPattern;
    FirstMatchListed(index, httpMethod, path);
    if index == [] || |r.pattern| >= |index[0].pattern| {
      assert ([r] + index)[1..] == index;
    } else {
      var rest := Insert(r, index[1..]);
      FirstMatchInsert(r, index[1..], httpMethod, path);
      assert ([index[0]] + rest)[1..] == rest;
    }
  }

  /** Main result: resolution returns the first of the longest matching routes, and nothing exactly when
      nothing matches. */
  lemma {:induction false} FirstMatchIsBest(routes: seq<Route>, httpMethod: string, path: string)
    ensures var m := FirstMatch(SortByLength(routes), httpMethod, path);
            && (m.None? <==> forall j :: 0 <= j < |routes| ==> !Candidate(routes[j], httpMethod, path))
            && (m.Some? ==> exists k: nat :: IsBest(routes, httpMethod, path, k) && routes[k] == m.value)
  {
    hide MatchPathPattern;
    if routes != [] {
      var tail := routes[1..];
      SortedIndex(tail);
      FirstMatchIsBest(tail, httpMethod, path);
      FirstMatchInsert(routes[0], SortByLength(tail), httpMethod, path);
      var before := FirstMatch(SortByLength(tail), httpMethod, path);
      var m := FirstMatch(SortByLength(routes), httpMethod, path);
      assert forall j :: 0 < j < |routes| ==> routes[j] == tail[j - 1];
      assert forall j :: 0 <= j < |tail| ==> tail[j] == routes[j + 1];
      if m != before {
        assert IsBest(routes, httpMethod, path, 0);
      } else if before.Some? {
        var k: nat :| IsBest(tail, httpMethod, path, k) && tail[k] == before.value;
        if Candidate(routes[0], httpMethod, path) && |routes[0].pattern| >= |before.value.pattern| {
          assert IsBest(routes, httpMethod, path, 0);
        } else {
          assert IsBest(routes, httpMethod, path, k + 1);
        }
      }
    }
  }

  /** The best position is unique, so the result is determined by the table. */
  lemma BestUnique(routes: seq<Route>, httpMethod: string, path: string, k: nat, l: nat)
    requires IsBest(routes, httpMethod, path, k) && IsBest(routes, httpMethod, path, l)
    ensures k == l
  {
  }

  // ---------------------------------------------------------------- refinement

  function Slashed(segments: seq<string>): string {
    if segments == [] then "" else "/" + segments[0] + Slashed(segments[1..])
  }

  /** A pattern in normal form: a slash before every segment and no other. */
  predicate Normal(pattern: string) {
    pattern == Slashed(Segments(pattern))
  }

  function Length(segments: seq<string>): nat {
    if segments == [] then 0 else 1 + |segments[0]| + Length(segments[1..])
  }

  lemma SlashedLength(segments: seq<string>)
    ensures |Slashed(segments)| == Length(segments)
  {
  }

  /** q is p with some wildcards replaced by literals. */
  predicate Refines(q: seq<string>, p: seq<string>) {
    |q| == |p| && forall i :: 0 <= i < |q| ==> |q[i]| >= 1 && (q[i] == p[i] || p[i] == "*")
  }

  lemma RefinementLength(q: seq<string>, p: seq<string>)
    requires Refines(q, p)
    ensures Length(q) >= Length(p)
    ensures Length(q) == Length(p) <==> forall i :: 0 <= i < |q| ==> |q[i]| == |p[i]|
  {
  }

  /** Main result: a route is never chosen while another route of the same method matches and refines it,
      if both patterns are in normal form and some wildcard is replaced by two or more characters. */
  lemma RefinedNeverChosen(routes: seq<Route>, httpMethod: string, path: string, p: nat, q: nat)
    requires p < |routes| && q < |routes|
    requires Normal(routes[p].pattern) && Normal(routes[q].pattern)
    requires Refines(Segments(routes[q].pattern), Segments(routes[p].pattern))
    requires exists i :: 0 <= i < |Segments(routes[q].pattern)|
                         && |Segments(routes[q].pattern)[i]| != |Segments(routes[p].pattern)[i]|
    requires Candidate(routes[q], httpMethod, path)
    ensures !IsBest(routes, httpMethod, path, p)
  {
    RefinementLength(Segments(routes[q].pattern), Segments(routes[p].pattern));
    SlashedLength(Segments(routes[q].pattern));
    SlashedLength(Segments(routes[p].pattern));
  }

  /** When every replaced wildcard is a single character the lengths tie: whenever one of the two is chosen from a
      table, it is the one listed first. */
  lemma SingleCharacterTie(routes: seq<Route>, httpMethod: string, path: string, p: nat, q: nat)
    requires p < |routes| && q < |routes| && p != q
    requires Normal(routes[p].pattern) && Normal(routes[q].pattern)
    requires Refines(Segments(routes[q].pattern), Segments(routes[p].pattern))
    requires forall i :: 0 <= i < |Segments(routes[q].pattern)| ==>
                           |Segments(routes[q].pattern)[i]| == |Segments(routes[p].pattern)[i]|
    requires Candidate(routes[p], httpMethod, path) && Candidate(routes[q], httpMethod, path)
    requires IsBest(routes, httpMethod, path, p) || IsBest(routes, httpMethod, path, q)
    ensures IsBest(routes, httpMethod, path, q) <==> q < p
  {
    RefinementLength(Segments(routes[q].pattern), Segments(routes[p].pattern));
    SlashedLength(Segments(routes[q].pattern));
    SlashedLength(Segments(routes[p].pattern));
  }

  lemma TwoSegments(x: string, y: string)
    requires x != "" && y != "" && '/' !in x && '/' !in y
    ensures Segments("/" + x + "/" + y) == [x, y]
  {
    var parts := ["", x, y];
    assert parts[1..] == [x, y] && parts[1..][1..] == [y];
    assert Join([x, y], '/') == x + ['/'] + y;
    assert Join(parts, '/') == "/" + x + "/" + y;
    SplitJoin(parts, '/');
    assert NonEmpty([y]) == [y] && NonEmpty([x, y]) == [x, y];
  }

  /** Listed second, the refined route is not found for the very path it names. */
  lemma TieLost(any: Route, one: Route)
    requires any.httpMethod == one.httpMethod == "GET" && any.pattern == "/a/*" && one.pattern == "/a/b"
    ensures Refines(Segments(one.pattern), Segments(any.pattern)) && Candidate(one, "GET", "/a/b")
    ensures IsBest([any, one], "GET", "/a/b", 0)
  {
    hide Segments;
    TwoSegments("a", "*");
    TwoSegments("a", "b");
    assert "/" + "a" + "/" + "*" == any.pattern && "/" + "a" + "/" + "b" == one.pattern;
  }

  // ---------------------------------------------------------------- what matches

  lemma NonEmptyConcat(a: seq<string>, b: seq<string>)
    ensures NonEmpty(a + b) == NonEmpty(a) + NonEmpty(b)
  {
    if a == [] {
      assert a + b == b;
    } else {
      assert (a + b)[1..] == a[1..] + b;
      NonEmptyConcat(a[1..], b);
    }
  }

  lemma SplitFirst(c: char, s: string, sep: char)
    ensures var rest := Split(s, sep);
            Split([c] + s, sep) == if c == sep then [""] + rest else [[c] + rest[0]] + rest[1..]
  {
    assert ([c] + s)[1..] == s;
  }

  lemma SplitNothing(sep: char)
    ensures Split("", sep) == [""]
  {
  }

  lemma TailOfConcat(a: seq<string>, b: seq<string>)
    requires a != []
    ensures (a + b)[0] == a[0] && (a + b)[1..] == a[1..] + b
  {
  }

  lemma {:induction false} SplitConcat(a: string, b: string, sep: char)
    ensures Split(a + [sep] + b, sep) == Split(a, sep) + Split(b, sep)
  {
    hide Split;
    if a == "" {
      assert a + [sep] + b == [sep] + b;
      SplitFirst(sep, b, sep);
      SplitNothing(sep);
    } else {
      var tail := a[1..];
      assert a + [sep] + b == [a[0]] + (tail + [sep] + b) && a == [a[0]] + tail;
      SplitConcat(tail, b, sep);
      SplitFirst(a[0], tail + [sep] + b, sep);
      SplitFirst(a[0], tail, sep);
      TailOfConcat(Split(tail, sep), Split(b, sep));
    }
  }

  /** A slash parts the segments before it from those behind it, a text without a slash is one segment, and nothing is
      none: so slashes at the ends and doubled ones make no difference. */
  lemma SegmentsExact(a: string, b: string)
    ensures Segments("") == []
    ensures Segments(a + "/" + b) == Segments(a) + Segments(b)
    ensures a != "" && '/' !in a ==> Segments(a) == [a]
  {
    SplitConcat(a, b, '/');
    NonEmptyConcat(Split(a, '/'), Split(b, '/'));
    if '/' !in a {
      SplitPrefix(a, "", '/');
      assert a + "" == a;
    }
  }

  /** The segments of a pattern, each wildcard replaced by the segment at its place. */
  function Filled(pattern: seq<string>, fill: seq<string>): seq<string>
    requires |fill| == |pattern|
  {
    seq(|pattern|, i requires 0 <= i < |pattern| => if pattern[i] == "*" then fill[i] else pattern[i])
  }

  /** Main result: a pattern matches exactly the paths whose segments are its own with each wildcard replaced by one
      segment; so path and pattern have equally many, and without wildcards the same ones. */
  lemma MatchExact(pattern: string, path: string)
    ensures var p, v := Segments(pattern), Segments(path);
            && (MatchPathPattern(pattern, path) <==> exists fill :: |fill| == |p| && v == Filled(p, fill))
            && (MatchPathPattern(pattern, path) ==> |p| == |v|)
            && ("*" !in p ==> (MatchPathPattern(pattern, path) <==> p == v))
  {
    var p, v := Segments(pattern), Segments(path);
    hide Segments;
    if MatchPathPattern(pattern, path) {
      assert v == Filled(p, v);
    }
  }

  /** Upper-casing changes the small letters and nothing else. */
  lemma UpperCaseExact(s: string)
    ensures |UpperCase(s)| == |s|
    ensures forall i :: 0 <= i < |s| ==> if 'a' <= s[i] <= 'z'
                                         then UpperCase(s)[i] as int == s[i] as int - 'a' as int + 'A' as int
                                         else UpperCase(s)[i] == s[i]
  {
  }

  /** A row of an enabled permission for this method, with a pattern of as many segments as the path, each a wildcard or
      the path's own. */
  predicate Serves(r: Row, httpMethod: string, path: string) {
    var p, v := Segments(r.pattern), Segments(path);
    && r.enabled && UpperCase(r.httpMethod) == httpMethod
    && |p| == |v| && forall i :: 0 <= i < |p| ==> p[i] == "*" || p[i] == v[i]
  }

  function RouteOf(r: Row): Route {
    Route(r.code, UpperCase(r.httpMethod), r.pattern)
  }

  lemma EnabledRoutesExact(table: seq<Row>)
    ensures forall x :: x in EnabledRoutes(table) ==> exists r :: r in table && r.enabled && x == RouteOf(r)
    ensures forall r :: r in table && r.enabled ==> RouteOf(r) in EnabledRoutes(table)
  {
    if table != [] {
      hide UpperCase;
      EnabledRoutesExact(table[1..]);
      forall x | x in EnabledRoutes(table) ensures exists r :: r in table && r.enabled && x == RouteOf(r) {
        if x in EnabledRoutes(table[1..]) {
          var r :| r in table[1..] && r.enabled && x == RouteOf(r);
          assert r in table;
        } else {
          assert table[0] in table && x == RouteOf(table[0]);
        }
      }
    }
  }

  lemma ServesExactly(r: Row, httpMethod: string, path: string)
    ensures Serves(r, httpMethod, path) <==> r.enabled && Candidate(RouteOf(r), httpMethod, path)
  {
  }

  lemma RoutesServe(table: seq<Row>, httpMethod: string, path: string)
    ensures forall x :: x in EnabledRoutes(table) && Candidate(x, httpMethod, path) ==>
                          exists r :: r in table && Serves(r, httpMethod, path) && r.code == x.code
    ensures forall r :: r in table && Serves(r, httpMethod, path) ==>
                          exists x :: x in EnabledRoutes(table) && Candidate(x, httpMethod, path) && r.code == x.code
  {
    hide UpperCase, Candidate, Serves, EnabledRoutes;
    EnabledRoutesExact(table);
    forall x | x in EnabledRoutes(table) && Candidate(x, httpMethod, path)
      ensures exists r :: r in table && Serves(r, httpMethod, path) && r.code == x.code
    {
      var r :| r in table && r.enabled && x == RouteOf(r);
      ServesExactly(r, httpMethod, path);
    }
    forall r | r in table && Serves(r, httpMethod, path)
      ensures exists x :: x in EnabledRoutes(table) && Candidate(x, httpMethod, path) && r.code == x.code
    {
      ServesExactly(r, httpMethod, path);
      assert RouteOf(r) in EnabledRoutes(table);
    }
  }

  /** The best route of a table is that of a row that serves the request, and there is one where there is such a row. */
  lemma ResolvedServes(table: seq<Row>, httpMethod: string, path: string)
    ensures var m := FirstMatch(SortByLength(EnabledRoutes(table)), httpMethod, path);
            && (m.None? <==> forall r :: r in table ==> !Serves(r, httpMethod, path))
            && (m.Some? ==> exists r :: r in table && Serves(r, httpMethod, path) && r.code == m.value.code)
  {
    hide Segments, SortByLength, EnabledRoutes, FirstMatch, Candidate, Serves;
    var routes := EnabledRoutes(table);
    FirstMatchIsBest(routes, httpMethod, path);
    RoutesServe(table, httpMethod, path);
    assert forall j :: 0 <= j < |routes| ==> routes[j] in routes;
  }

  // ---------------------------------------------------------------- the cached index

  const TTL := 60.0

  class RouteIndexCache {
    var cached: Option<(real, seq<Route>)>
    /** The table the cached index was computed from. */
    ghost var source: seq<Row>

    ghost predicate Valid()
      reads this
    {
      cached.Some? ==> cached.value.1 == SortByLength(EnabledRoutes(source))
    }

    constructor ()
      ensures Valid() && cached == None
    {
      cached := None;
      source := [];
    }

    method Invalidate()
      modifies this
      ensures Valid() && cached == None
    {
      cached := None;
    }

    method LoadApiRouteIndex(now: real, table: seq<Row>) returns (index: seq<Route>)
      requires Valid()
      modifies this
      ensures Valid() && index == SortByLength(EnabledRoutes(source))
      ensures old(cached.Some? && now - cached.value.0 < 60.0) ==> unchanged(this)
      ensures !old(cached.Some? && now - cached.value.0 < 60.0) ==> source == table && cached == Some((now, index))
    {
      if cached.Some? && now - cached.value.0 < TTL {
        return cached.value.1;
      }
      index := SortByLength(EnabledRoutes(table));
      cached := Some((now, index));
      source := table;
    }

    /** The permission of the best route of a table no older than the lifetime of the cache. */
    method ResolveApiPermission(now: real, table: seq<Row>, httpMethod: string, path: string)
      returns (code: Option<string>)
      requires Valid()
      modifies this
      ensures Valid()
      ensures source == table || (source == old(source) && old(cached.Some? && now - cached.value.0 < 60.0))
      ensures var routes := EnabledRoutes(source);
              if code.None? then forall j :: 0 <= j < |routes| ==> !Candidate(routes[j], UpperCase(httpMethod), path)
              else exists k: nat :: IsBest(routes, UpperCase(httpMethod), path, k) && routes[k].code == code.value
      ensures code.None? ==> forall r :: r in source ==> !Serves(r, UpperCase(httpMethod), path)
      ensures code.Some? ==> exists r :: r in source && Serves(r, UpperCase(httpMethod), path) && r.code == code.value
    {
      hide SortByLength, EnabledRoutes, UpperCase, MatchPathPattern, IsBest, LongestFirst, Serves;
      var index := LoadApiRouteIndex(now, table);
      FirstMatchIsBest(EnabledRoutes(source), UpperCase(httpMethod), path);
      ResolvedServes(source, UpperCase(httpMethod), path);
      var i := 0;
      assert index[0..] == index;
      while i < |index|
        invariant 0 <= i <= |index|
        invariant FirstMatch(index[i..], UpperCase(httpMethod), path) == FirstMatch(index, UpperCase(httpMethod), path)
      {
        assert index[i..][1..] == index[i + 1..];
        if index[i].httpMethod == UpperCase(httpMethod) && MatchPathPattern(index[i].pattern, path) {
          return Some(index[i].code);
        }
        i := i + 1;
      }
      code := None;
    }
  }
}
