/**
 Mock routes: the validator warns that a route overlaps an earlier one by comparing printed keys; the server picks the
 first route that matches a request.
 */
module MockOverlap {
  import opened Options
  import opened Seqs
  import opened JsText
  import opened StringOrder

  datatype Condition = Condition(source: string, expression: string, matcher: string, expected: string)

  datatype Route = Route(enabled: bool, verb: string, pathPattern: string, conditions: seq<Condition>)

  /** What the server knows of a request; `satisfies` stands for the evaluation of one condition on it. */
  datatype Request = Request(verb: string, path: string, satisfies: Condition -> bool)

  // Matching.

  function StripLeading(path: string): string {
    if path != "" && path[0] == '/' then StripLeading(path[1..]) else path
  }

  function StripTrailing(path: string): string {
    if path != "" && Last(path) == '/' then StripTrailing(Front(path)) else path
  }

  /** `path.replace(/^\/+|\/+$/g, "")`. */
  function Normalize(path: string): string {
    StripTrailing(StripLeading(path))
  }

  function Segments(path: string): seq<string> {
    Split(Normalize(path), "/")
  }

  predicate IsParameter(segment: string) { segment != "" && segment[0] == ':' }

  predicate SegmentMatches(expected: string, actual: string) {
    IsParameter(expected) || Lower(expected) == Lower(actual)
  }

  predicate PathMatches(pattern: string, path: string) {
    var expected, actual := Segments(pattern), Segments(path);
    && |expected| == |actual|
    && forall i :: 0 <= i < |expected| ==> SegmentMatches(expected[i], actual[i])
  }

  /** The parameters of the segments, a later one of the same name taking the place of an earlier one. */
  function Parameters(expected: seq<string>, actual: seq<string>, decode: string -> string): map<string, string>
    requires |expected| == |actual|
  {
    if expected == [] then map[]
    else
      var earlier := Parameters(Front(expected), Front(actual), decode);
      if IsParameter(Last(expected)) then earlier[Last(expected)[1..] := decode(Last(actual))] else earlier
  }

  method MatchPath(pattern: string, path: string, decode: string -> string)
    returns (matched: bool, params: map<string, string>)
    ensures matched <==> PathMatches(pattern, path)
    ensures params == if matched then Parameters(Segments(pattern), Segments(path), decode) else map[]
  {
    var patternParts, pathParts := Segments(pattern), Segments(path);
    params := map[];
    if |patternParts| != |pathParts| {
      return false, params;
    }
    for index := 0 to |patternParts|
      invariant forall i :: 0 <= i < index ==> SegmentMatches(patternParts[i], pathParts[i])
      invariant params == Parameters(patternParts[..index], pathParts[..index], decode)
    {
      var expected, actual := patternParts[index], pathParts[index];
      assert Front(patternParts[..index + 1]) == patternParts[..index];
      assert Front(pathParts[..index + 1]) == pathParts[..index];
      if IsParameter(expected) {
        params := params[expected[1..] := decode(actual)];
        continue;
      }
      if Lower(expected) != Lower(actual) {
        assert !SegmentMatches(expected, actual);
        return false, map[];
      }
    }
    assert patternParts[..|patternParts|] == patternParts && pathParts[..|patternParts|] == pathParts;
    matched := true;
  }

  /** A parameter has the value of the last segment that it names, and there are no other parameters. */
  lemma {:induction false} ParametersAreLast(
    expected: seq<string>, actual: seq<string>, decode: string -> string, name: string
  )
    requires |expected| == |actual|
    ensures var params := Parameters(expected, actual, decode);
      && (name in params <==> [':'] + name in expected)
      && forall i :: 0 <= i < |expected| && expected[i] == [':'] + name && [':'] + name !in expected[i + 1..] ==>
        name in params && params[name] == decode(actual[i])
  {
    if expected != [] {
      var before, last := Front(expected), Last(expected);
      ParametersAreLast(before, Front(actual), decode, name);
      assert expected == before + [last];
      assert last == [':'] + name <==> IsParameter(last) && last[1..] == name;
      forall i | 0 <= i < |expected| - 1 && expected[i] == [':'] + name && [':'] + name !in expected[i + 1..]
        ensures last != [':'] + name && [':'] + name !in before[i + 1..]
      {
        assert expected[i + 1..] == before[i + 1..] + [last];
      }
    }
  }

  predicate ConditionsMatch(conditions: seq<Condition>, request: Request) {
    forall c <- conditions :: request.satisfies(c)
  }

  predicate RouteMatches(route: Route, request: Request) {
    && route.enabled && route.verb == request.verb
    && PathMatches(route.pathPattern, request.path)
    && ConditionsMatch(route.conditions, request)
  }

  /** The route that answers the request: the first that matches. */
  predicate Picks(routes: seq<Route>, request: Request, index: nat) {
    && index < |routes| && RouteMatches(routes[index], request)
    && forall i :: 0 <= i < index ==> !RouteMatches(routes[i], request)
  }

  datatype Match = Match(index: nat, params: map<string, string>)

  method FindMockRouteMatch(routes: seq<Route>, request: Request, decode: string -> string)
    returns (result: Option<Match>)
    ensures result.Some? ==> Picks(routes, request, result.value.index)
    ensures result.Some? ==>
      result.value.params == Parameters(
        Segments(routes[result.value.index].pathPattern), Segments(request.path), decode)
    ensures result.None? ==> forall route <- routes :: !RouteMatches(route, request)
  {
    for index := 0 to |routes|
      invariant forall i :: 0 <= i < index ==> !RouteMatches(routes[i], request)
    {
      var route := routes[index];
      if !route.enabled || route.verb != request.verb {
        continue;
      }
      var matched, params := MatchPath(route.pathPattern, request.path, decode);
      if matched && ConditionsMatch(route.conditions, request) {
        return Some(Match(index, params));
      }
    }
    result := None;
  }

  // Keys.

  function ConditionText(c: Condition): string {
    Join([c.source, c.expression, c.matcher, c.expected], ":")
  }

  function ConditionTexts(conditions: seq<Condition>): seq<string> {
    seq(|conditions|, i requires 0 <= i < |conditions| => ConditionText(conditions[i]))
  }

  function ConditionSignature(conditions: seq<Condition>): string {
    Join(Sort(ConditionTexts(conditions)), "|")
  }

  function SegmentShape(segment: string): string {
    if IsParameter(segment) then ":" else segment
  }

  function Shapes(path: string): seq<string> {
    var parts := Segments(path);
    seq(|parts|, i requires 0 <= i < |parts| => SegmentShape(parts[i]))
  }

  function RouteShape(path: string): string {
    Join(Shapes(path), "/")
  }

  function RouteKey(route: Route): string {
    route.verb + " " + RouteShape(route.pathPattern) + " " + ConditionSignature(route.conditions)
  }

  datatype Overlap = Overlap(routeIndex: nat, previous: nat)

  /** The first enabled route with a key. */
  predicate FirstWithKey(routes: seq<Route>, key: string, index: nat) {
    && index < |routes| && HasKey(routes[index], key)
    && forall i :: 0 <= i < index ==> !HasKey(routes[i], key)
  }

  predicate HasKey(route: Route, key: string) { route.enabled && RouteKey(route) == key }

  /** The earlier route is the first enabled one with the route's key. */
  predicate Overlaps(routes: seq<Route>, o: Overlap) {
    && o.previous < o.routeIndex < |routes| && routes[o.routeIndex].enabled
    && FirstWithKey(routes, RouteKey(routes[o.routeIndex]), o.previous)
  }

  /** The warning that `validateMockRoutes` adds for a route, given the keys seen before it. */
  function OverlapAt(routes: seq<Route>, index: nat, seen: map<string, nat>): seq<Overlap>
    requires index < |routes|
  {
    if routes[index].enabled && RouteKey(routes[index]) in seen then [Overlap(index, seen[RouteKey(routes[index])])]
    else []
  }

  /** Every key of the routes before `index` is seen, at its first route. */
  ghost predicate Seen(routes: seq<Route>, index: nat, seen: map<string, nat>)
    requires index <= |routes|
  {
    && (forall key <- seen :: seen[key] < index && FirstWithKey(routes, key, seen[key]))
    && forall i, key :: 0 <= i < index && HasKey(routes[i], key) ==> key in seen
  }

  lemma SeenGrows(routes: seq<Route>, index: nat, seen: map<string, nat>, key: string)
    requires index < |routes| && Seen(routes, index, seen)
    requires HasKey(routes[index], key)
    ensures Seen(routes, index + 1, if key in seen then seen else seen[key := index])
  {
  }

  lemma DisabledIsUnseen(routes: seq<Route>, index: nat, seen: map<string, nat>)
    requires index < |routes| && Seen(routes, index, seen) && !routes[index].enabled
    ensures Seen(routes, index + 1, seen)
  {
  }

  lemma OverlapsAt(routes: seq<Route>, index: nat, seen: map<string, nat>, o: Overlap)
    requires index < |routes| && Seen(routes, index, seen) && o.routeIndex == index
    ensures Overlaps(routes, o) <==> o in OverlapAt(routes, index, seen)
  {
    if routes[index].enabled {
      var key := RouteKey(routes[index]);
      assert HasKey(routes[index], key);
      if o.previous < index && FirstWithKey(routes, key, o.previous) {
        assert key in seen && FirstWithKey(routes, key, seen[key]);
        assert seen[key] == o.previous;
      }
    }
  }

  ghost predicate ListsOverlaps(routes: seq<Route>, index: nat, overlaps: seq<Overlap>) {
    forall o :: o in overlaps <==> Overlaps(routes, o) && o.routeIndex < index
  }

  predicate Ascending(overlaps: seq<Overlap>) {
    forall i, j :: 0 <= i < j < |overlaps| ==> overlaps[i].routeIndex < overlaps[j].routeIndex
  }

  /** The overlaps of the routes before `index`, in order. */
  ghost predicate Reported(routes: seq<Route>, index: nat, overlaps: seq<Overlap>) {
    ListsOverlaps(routes, index, overlaps) && Ascending(overlaps)
  }

  lemma ListGrows(routes: seq<Route>, index: nat, seen: map<string, nat>, overlaps: seq<Overlap>)
    requires index < |routes| && Seen(routes, index, seen) && ListsOverlaps(routes, index, overlaps)
    ensures ListsOverlaps(routes, index + 1, overlaps + OverlapAt(routes, index, seen))
  {
    var more := OverlapAt(routes, index, seen);
    forall o
      ensures o in overlaps + more <==> Overlaps(routes, o) && o.routeIndex < index + 1
    {
      assert o in overlaps + more <==> o in overlaps || o in more;
      if o.routeIndex == index {
        OverlapsAt(routes, index, seen, o);
      }
    }
  }

  lemma AscendingGrows(overlaps: seq<Overlap>, o: Overlap)
    requires Ascending(overlaps) && forall p <- overlaps :: p.routeIndex < o.routeIndex
    ensures Ascending(overlaps + [o])
  {
    assert forall i :: 0 <= i < |overlaps| ==> overlaps[i] in overlaps;
  }

  lemma ReportedGrows(routes: seq<Route>, index: nat, seen: map<string, nat>, overlaps: seq<Overlap>)
    requires index < |routes| && Seen(routes, index, seen) && Reported(routes, index, overlaps)
    ensures Reported(routes, index + 1, overlaps + OverlapAt(routes, index, seen))
  {
    ListGrows(routes, index, seen, overlaps);
    var more := OverlapAt(routes, index, seen);
    if more == [] {
      assert overlaps + more == overlaps;
    } else {
      AscendingGrows(overlaps, more[0]);
    }
  }

  /** The overlap warnings of `validateMockRoutes`, in order. */
  method FindOverlaps(routes: seq<Route>) returns (overlaps: seq<Overlap>)
    ensures Reported(routes, |routes|, overlaps)
  {
    var seenRouteKeys: map<string, nat> := map[];
    overlaps := [];
    for routeIndex := 0 to |routes|
      invariant Seen(routes, routeIndex, seenRouteKeys)
      invariant Reported(routes, routeIndex, overlaps)
    {
      ReportedGrows(routes, routeIndex, seenRouteKeys, overlaps);
      var route := routes[routeIndex];
      if !route.enabled {
        DisabledIsUnseen(routes, routeIndex, seenRouteKeys);
        assert overlaps + [] == overlaps;
        continue;
      }
      var routeKey := RouteKey(route);
      SeenGrows(routes, routeIndex, seenRouteKeys, routeKey);
      if routeKey in seenRouteKeys {
        overlaps := overlaps + [Overlap(routeIndex, seenRouteKeys[routeKey])];
      } else {
        assert overlaps + [] == overlaps;
        seenRouteKeys := seenRouteKeys[routeKey := routeIndex];
      }
    }
  }
}
