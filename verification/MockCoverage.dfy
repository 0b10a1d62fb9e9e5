/** Exactly when a route can never be picked: some earlier enabled route matches whatever it matches. */
module MockCoverage {
  import opened Options
  import opened Seqs
  import opened JsText
  import opened MockOverlap

  /** A parameter, or two literals that are equal in lower case. */
  predicate SegmentCovers(a: string, b: string) {
    IsParameter(a) || (!IsParameter(b) && Lower(a) == Lower(b))
  }

  predicate PatternCovers(a: string, b: string) {
    && |Segments(a)| == |Segments(b)|
    && forall i :: 0 <= i < |Segments(a)| && i < |Segments(b)| ==> SegmentCovers(Segments(a)[i], Segments(b)[i])
  }

  /** Enabled, of the same method, with a pattern that allows as much and no condition of its own. */
  predicate Covers(a: Route, b: Route) {
    && a.enabled && a.verb == b.verb && PatternCovers(a.pathPattern, b.pathPattern)
    && forall c <- a.conditions :: c in b.conditions
  }

  lemma PatternCoversPath(a: string, b: string, path: string)
    requires PatternCovers(a, b) && PathMatches(b, path)
    ensures PathMatches(a, path)
  {
    forall i | 0 <= i < |Segments(a)|
      ensures SegmentMatches(Segments(a)[i], Segments(path)[i])
    {
      assert SegmentCovers(Segments(a)[i], Segments(b)[i]) && SegmentMatches(Segments(b)[i], Segments(path)[i]);
    }
  }

  lemma CoveringMatches(a: Route, b: Route, request: Request)
    requires Covers(a, b) && RouteMatches(b, request)
    ensures RouteMatches(a, request)
  {
    PatternCoversPath(a.pathPattern, b.pathPattern, request.path);
  }

  // A request that only covering routes match.

  /** Each parameter takes the given text. */
  function Filled(parts: seq<string>, filler: string): seq<string> {
    seq(|parts|, i requires 0 <= i < |parts| => if IsParameter(parts[i]) then filler else parts[i])
  }

  function WitnessPath(pattern: string, filler: string): string {
    Join(Filled(Segments(pattern), filler), "/")
  }

  function Witness(route: Route, filler: string): Request {
    Request(route.verb, WitnessPath(route.pathPattern, filler), c => c in route.conditions)
  }

  /** No slash, and longer than every pattern. */
  predicate Fills(filler: string, routes: seq<Route>) {
    filler != "" && '/' !in filler && forall route <- routes :: |route.pathPattern| < |filler|
  }

  function Longest(routes: seq<Route>): nat {
    if routes == [] then 0
    else
      var rest, here := Longest(Front(routes)), |Last(routes).pathPattern|;
      if rest < here then here else rest
  }

  lemma {:induction false} LongestIsLongest(routes: seq<Route>)
    ensures forall route <- routes :: |route.pathPattern| <= Longest(routes)
  {
    if routes != [] {
      LongestIsLongest(Front(routes));
      assert routes == Front(routes) + [Last(routes)];
    }
  }

  lemma FillerExists(routes: seq<Route>) returns (filler: string)
    ensures Fills(filler, routes)
  {
    filler := seq(Longest(routes) + 1, i => 'x');
    LongestIsLongest(routes);
  }

  // The path is read back as the segments it was made of.

  lemma {:induction false} StripLeadingStarts(path: string)
    ensures StripLeading(path) != "" ==> StripLeading(path)[0] != '/'
    ensures |StripLeading(path)| <= |path|
  {
    if path != "" && path[0] == '/' {
      StripLeadingStarts(path[1..]);
    }
  }

  lemma {:induction false} StripTrailingEnds(path: string)
    ensures StripTrailing(path) != "" ==> Last(StripTrailing(path)) != '/'
    ensures StripTrailing(path) <= path
  {
    if path != "" && Last(path) == '/' {
      StripTrailingEnds(Front(path));
    }
  }

  /** No slash at either end. */
  predicate Stripped(path: string) {
    path != "" ==> path[0] != '/' && Last(path) != '/'
  }

  lemma NormalizeStrips(path: string)
    ensures Stripped(Normalize(path)) && |Normalize(path)| <= |path|
  {
    StripLeadingStarts(path);
    StripTrailingEnds(StripLeading(path));
  }

  lemma StrippedStays(path: string)
    requires Stripped(path)
    ensures Normalize(path) == path
  {
  }

  /** The segments at the ends are not empty, unless there is only one. */
  predicate SolidEnds(parts: seq<string>) {
    parts != [] && (|parts| > 1 ==> parts[0] != "" && Last(parts) != "")
  }

  lemma {:induction false} JoinEnds(parts: seq<string>)
    requires parts != [] && forall part <- parts :: '/' !in part
    ensures var joined := Join(parts, "/");
      && (parts[0] != "" ==> joined != "" && joined[0] != '/')
      && (Last(parts) != "" ==> joined != "" && Last(joined) != '/')
      && (|parts| > 1 && parts[0] == "" ==> joined != "" && joined[0] == '/')
      && (|parts| > 1 && Last(parts) == "" ==> joined != "" && Last(joined) == '/')
  {
    assert parts[0] in parts && forall part <- parts[1..] :: part in parts;
    assert parts[0] != "" ==> parts[0][0] in parts[0];
    if |parts| == 1 {
      assert parts[0] != "" ==> Last(parts[0]) in parts[0];
    } else {
      JoinEnds(parts[1..]);
      assert Last(parts) == Last(parts[1..]);
    }
  }

  lemma {:induction false} JoinSplit(s: string, c: char)
    ensures Join(Split(s, [c]), [c]) == s
    decreases |s|
  {
    var i := Find(s, [c]);
    if i >= 0 {
      JoinSplit(s[i + 1..], c);
      var rest := Split(s[i + 1..], [c]);
      assert ([s[..i]] + rest)[1..] == rest;
      assert s == s[..i] + s[i..i + 1] + s[i + 1..];
    }
  }

  lemma SegmentsAreSolid(path: string)
    ensures SolidEnds(Segments(path)) && forall part <- Segments(path) :: '/' !in part
  {
    NormalizeStrips(path);
    SplitParts(Normalize(path), '/');
    JoinSplit(Normalize(path), '/');
    JoinEnds(Segments(path));
  }

  lemma FilledIsSolid(parts: seq<string>, filler: string)
    requires SolidEnds(parts) && (forall part <- parts :: '/' !in part) && filler != "" && '/' !in filler
    ensures SolidEnds(Filled(parts, filler)) && forall part <- Filled(parts, filler) :: '/' !in part
  {
    assert forall i :: 0 <= i < |parts| ==> parts[i] in parts;
  }

  lemma SolidIsReadBack(parts: seq<string>)
    requires SolidEnds(parts) && forall part <- parts :: '/' !in part
    ensures Segments(Join(parts, "/")) == parts
  {
    JoinEnds(parts);
    SplitJoined(parts, '/');
    StrippedStays(Join(parts, "/"));
  }

  lemma WitnessSegments(pattern: string, filler: string)
    requires filler != "" && '/' !in filler
    ensures Segments(WitnessPath(pattern, filler)) == Filled(Segments(pattern), filler)
  {
    SegmentsAreSolid(pattern);
    FilledIsSolid(Segments(pattern), filler);
    SolidIsReadBack(Filled(Segments(pattern), filler));
  }

  lemma {:induction false} PartsAreShorter(s: string, c: char)
    ensures forall part <- Split(s, [c]) :: |part| <= |s|
    decreases |s|
  {
    var i := Find(s, [c]);
    if i >= 0 {
      PartsAreShorter(s[i + 1..], c);
    }
  }

  lemma SegmentsAreShorter(path: string)
    ensures forall part <- Segments(path) :: |part| <= |path|
  {
    NormalizeStrips(path);
    PartsAreShorter(Normalize(path), '/');
  }

  lemma WitnessMatches(route: Route, filler: string)
    requires route.enabled && filler != "" && '/' !in filler
    ensures RouteMatches(route, Witness(route, filler))
  {
    WitnessSegments(route.pathPattern, filler);
  }

  lemma WitnessTellsPatterns(a: string, b: string, filler: string)
    requires filler != "" && '/' !in filler && |a| < |filler|
    requires PathMatches(a, WitnessPath(b, filler))
    ensures PatternCovers(a, b)
  {
    WitnessSegments(b, filler);
    SegmentsAreShorter(a);
    var parts, others := Segments(a), Segments(b);
    forall i | 0 <= i < |parts| && i < |others|
      ensures SegmentCovers(parts[i], others[i])
    {
      assert parts[i] in parts && SegmentMatches(parts[i], Filled(others, filler)[i]);
      assert |Lower(parts[i])| == |parts[i]|;
    }
  }

  lemma WitnessTellsRoutes(a: Route, b: Route, filler: string)
    requires filler != "" && '/' !in filler && |a.pathPattern| < |filler| && RouteMatches(a, Witness(b, filler))
    ensures Covers(a, b)
  {
    WitnessTellsPatterns(a.pathPattern, b.pathPattern, filler);
  }

  // The exact conditions.

  /** A route answers every request another one would answer exactly if it covers it. */
  lemma {:induction false} CoversIff(a: Route, b: Route)
    requires b.enabled
    ensures (forall request :: RouteMatches(b, request) ==> RouteMatches(a, request)) <==> Covers(a, b)
  {
    if Covers(a, b) {
      forall request | RouteMatches(b, request)
        ensures RouteMatches(a, request)
      {
        CoveringMatches(a, b, request);
      }
    }
    if forall request :: RouteMatches(b, request) ==> RouteMatches(a, request) {
      var filler := FillerExists([a]);
      assert a in [a];
      WitnessMatches(b, filler);
      WitnessTellsRoutes(a, b, filler);
    }
  }

  ghost predicate NeverPicked(routes: seq<Route>, k: nat) {
    forall request :: !Picks(routes, request, k)
  }

  predicate CoveredEarlier(routes: seq<Route>, k: nat)
    requires k < |routes|
  {
    exists i :: 0 <= i < k && Covers(routes[i], routes[k])
  }

  lemma CoveredIsNeverPicked(routes: seq<Route>, k: nat)
    requires k < |routes| && CoveredEarlier(routes, k)
    ensures NeverPicked(routes, k)
  {
    var i :| 0 <= i < k && Covers(routes[i], routes[k]);
    forall request
      ensures !Picks(routes, request, k)
    {
      if RouteMatches(routes[k], request) {
        CoveringMatches(routes[i], routes[k], request);
      }
    }
  }

  lemma UncoveredIsPicked(routes: seq<Route>, k: nat)
    requires k < |routes| && routes[k].enabled && !CoveredEarlier(routes, k)
    ensures exists request :: Picks(routes, request, k)
  {
    var filler := FillerExists(routes);
    var request := Witness(routes[k], filler);
    WitnessMatches(routes[k], filler);
    forall i | 0 <= i < k
      ensures !RouteMatches(routes[i], request)
    {
      assert routes[i] in routes;
      if RouteMatches(routes[i], request) {
        WitnessTellsRoutes(routes[i], routes[k], filler);
      }
    }
    assert Picks(routes, request, k);
  }

  /** An enabled route answers no request whatsoever exactly if an earlier route covers it. */
  lemma {:induction false} NeverPickedIff(routes: seq<Route>, k: nat)
    requires k < |routes| && routes[k].enabled
    ensures (forall request :: !Picks(routes, request, k)) <==> CoveredEarlier(routes, k)
  {
    if CoveredEarlier(routes, k) {
      CoveredIsNeverPicked(routes, k);
    } else {
      UncoveredIsPicked(routes, k);
    }
  }
}
