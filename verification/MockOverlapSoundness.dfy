/**
 When the overlap warning is right. It names a route that is never picked exactly if an earlier route covers it, which
 is always so when the printed keys can be told apart.
 */
module MockOverlapSoundness {
  import opened Options
  import opened Seqs
  import opened JsText
  import opened StringOrder
  import opened MockOverlap
  import opened MockCoverage

  /** The separator of the three parts of a key occurs in neither of the first two. */
  predicate SpaceFree(route: Route) {
    ' ' !in route.verb && ' ' !in route.pathPattern
  }

  /** No separator of the key occurs in what it separates. */
  predicate CleanRoute(route: Route) {
    && SpaceFree(route)
    && forall c <- route.conditions :: CleanCondition(c)
  }

  predicate CleanCondition(c: Condition) {
    forall field <- Fields(c) :: ':' !in field && '|' !in field
  }

  function Fields(c: Condition): seq<string> {
    [c.source, c.expression, c.matcher, c.expected]
  }

  // Characters that do not appear.

  lemma {:induction false} NormalizeKeepsOut(path: string, c: char)
    requires c !in path
    ensures c !in Normalize(path)
  {
    LeadingKeepsOut(path, c);
    TrailingKeepsOut(StripLeading(path), c);
  }

  lemma {:induction false} LeadingKeepsOut(path: string, c: char)
    requires c !in path
    ensures c !in StripLeading(path)
  {
    if path != "" && path[0] == '/' {
      LeadingKeepsOut(path[1..], c);
    }
  }

  lemma {:induction false} TrailingKeepsOut(path: string, c: char)
    requires c !in path
    ensures c !in StripTrailing(path)
  {
    if path != "" && Last(path) == '/' {
      TrailingKeepsOut(Front(path), c);
    }
  }

  lemma {:induction false} SplitKeepsOut(s: string, separator: string, c: char)
    requires separator != "" && c !in s
    ensures forall part <- Split(s, separator) :: c !in part
    decreases |s|
  {
    var i := Find(s, separator);
    if i >= 0 {
      SplitKeepsOut(s[i + |separator|..], separator, c);
    }
  }

  lemma {:induction false} JoinKeepsOut(parts: seq<string>, separator: string, c: char)
    requires c !in separator && forall part <- parts :: c !in part
    ensures c !in Join(parts, separator)
  {
    if parts != [] {
      assert parts[0] in parts && forall part <- parts[1..] :: part in parts;
      JoinKeepsOut(parts[1..], separator, c);
    }
  }

  // What equal keys say.

  /** Text up to the first separator is determined. */
  lemma SameUpToSeparator(x: string, y: string, c: char, p: string, q: string)
    requires x + [c] + y == p + [c] + q && c !in x && c !in p
    ensures x == p && y == q
  {
    var s := x + [c] + y;
    assert s[|x|] == c && s[|p|] == c;
    assert forall i :: 0 <= i < |x| ==> s[i] == x[i];
    assert forall i :: 0 <= i < |p| ==> s[i] == p[i];
    assert x == s[..|x|] && p == s[..|p|] && y == s[|x| + 1..] && q == s[|p| + 1..];
  }

  lemma ShapesAreSegments(path: string, c: char)
    requires c != ':' && (c == '/' || c !in path)
    ensures forall shape <- Shapes(path) :: c !in shape
  {
    if c == '/' {
      SplitParts(Normalize(path), '/');
    } else {
      NormalizeKeepsOut(path, c);
      SplitKeepsOut(Normalize(path), "/", c);
    }
    var parts := Segments(path);
    forall shape | shape in Shapes(path)
      ensures c !in shape
    {
      var i :| 0 <= i < |parts| && shape == SegmentShape(parts[i]);
      assert parts[i] in parts;
    }
  }

  lemma ShapeDeterminesShapes(p: string, q: string)
    ensures RouteShape(p) == RouteShape(q) <==> Shapes(p) == Shapes(q)
  {
    ShapesAreSegments(p, '/');
    ShapesAreSegments(q, '/');
    SplitJoined(Shapes(p), '/');
    SplitJoined(Shapes(q), '/');
  }

  lemma TextHasNoBar(c: Condition)
    requires forall field <- Fields(c) :: '|' !in field
    ensures '|' !in ConditionText(c) && ConditionText(c) != ""
  {
    JoinKeepsOut(Fields(c), ":", '|');
    assert ConditionText(c) == c.source + ":" + Join(Fields(c)[1..], ":");
  }

  lemma TextDeterminesCondition(a: Condition, b: Condition)
    requires CleanCondition(a) && CleanCondition(b) && ConditionText(a) == ConditionText(b)
    ensures a == b
  {
    SplitJoined(Fields(a), ':');
    SplitJoined(Fields(b), ':');
    assert Fields(a) == Fields(b);
    assert Fields(a)[0] == a.source && Fields(a)[1] == a.expression && Fields(a)[2] == a.matcher;
    assert Fields(b)[0] == b.source && Fields(b)[1] == b.expression && Fields(b)[2] == b.matcher;
    assert Fields(a)[3] == a.expected && Fields(b)[3] == b.expected;
  }

  /** A joined list of non-empty texts without the separator determines the list. */
  lemma JoinDetermines(a: seq<string>, b: seq<string>, c: char)
    requires forall t <- a :: c !in t && t != ""
    requires forall t <- b :: c !in t && t != ""
    requires Join(a, [c]) == Join(b, [c])
    ensures a == b
  {
    JoinedIsEmptyIff(a, c);
    JoinedIsEmptyIff(b, c);
    if a != [] && b != [] {
      SplitJoined(a, c);
      SplitJoined(b, c);
    }
  }

  lemma JoinedIsEmptyIff(a: seq<string>, c: char)
    requires forall t <- a :: t != ""
    ensures Join(a, [c]) == "" <==> a == []
  {
    if a != [] {
      assert a[0] in a;
    }
  }

  predicate NoBars(conditions: seq<Condition>) {
    forall c <- conditions :: forall field <- Fields(c) :: '|' !in field
  }

  lemma SortedTextsHaveNoBar(conditions: seq<Condition>)
    requires NoBars(conditions)
    ensures forall t <- Sort(ConditionTexts(conditions)) :: '|' !in t && t != ""
  {
    var texts := ConditionTexts(conditions);
    forall t | t in Sort(texts)
      ensures '|' !in t && t != ""
    {
      assert t in multiset(texts);
      var i :| 0 <= i < |texts| && texts[i] == t;
      assert conditions[i] in conditions;
      TextHasNoBar(conditions[i]);
    }
  }

  lemma {:induction false} SignatureIsUnordered(a: seq<Condition>, b: seq<Condition>)
    requires NoBars(a) && NoBars(b)
    ensures ConditionSignature(a) == ConditionSignature(b)
       <==> multiset(ConditionTexts(a)) == multiset(ConditionTexts(b))
  {
    SortedTextsHaveNoBar(a);
    SortedTextsHaveNoBar(b);
    SortForgetsOrder(ConditionTexts(a), ConditionTexts(b));
    if ConditionSignature(a) == ConditionSignature(b) {
      JoinDetermines(Sort(ConditionTexts(a)), Sort(ConditionTexts(b)), '|');
    }
  }

  lemma CleanHasNoBars(conditions: seq<Condition>)
    requires forall c <- conditions :: CleanCondition(c)
    ensures NoBars(conditions)
  {
  }

  /** The parts of equal keys are equal. */
  lemma KeyParts(a: Route, b: Route)
    requires SpaceFree(a) && SpaceFree(b) && RouteKey(a) == RouteKey(b)
    ensures a.verb == b.verb && RouteShape(a.pathPattern) == RouteShape(b.pathPattern)
    ensures ConditionSignature(a.conditions) == ConditionSignature(b.conditions)
  {
    var shapeA, shapeB := RouteShape(a.pathPattern), RouteShape(b.pathPattern);
    var signA, signB := ConditionSignature(a.conditions), ConditionSignature(b.conditions);
    ShapesAreSegments(a.pathPattern, ' ');
    ShapesAreSegments(b.pathPattern, ' ');
    JoinKeepsOut(Shapes(a.pathPattern), "/", ' ');
    JoinKeepsOut(Shapes(b.pathPattern), "/", ' ');
    KeySplits(a.verb, shapeA, signA, b.verb, shapeB, signB);
  }

  lemma KeySplits(u: string, v: string, w: string, x: string, y: string, z: string)
    requires u + " " + v + " " + w == x + " " + y + " " + z
    requires ' ' !in u && ' ' !in v && ' ' !in x && ' ' !in y
    ensures u == x && v == y && w == z
  {
    assert u + " " + v + " " + w == u + " " + (v + " " + w) && x + " " + y + " " + z == x + " " + (y + " " + z);
    SameUpToSeparator(u, v + " " + w, ' ', x, y + " " + z);
    SameUpToSeparator(v, w, ' ', y, z);
  }

  /** Routes have the same key exactly if method, path shape and conditions up to order are the same. */
  lemma {:induction false} SameKeyIff(a: Route, b: Route)
    requires CleanRoute(a) && CleanRoute(b)
    ensures RouteKey(a) == RouteKey(b)
       <==> (&& a.verb == b.verb && Shapes(a.pathPattern) == Shapes(b.pathPattern)
             && multiset(ConditionTexts(a.conditions)) == multiset(ConditionTexts(b.conditions)))
  {
    CleanHasNoBars(a.conditions);
    CleanHasNoBars(b.conditions);
    ShapeDeterminesShapes(a.pathPattern, b.pathPattern);
    SignatureIsUnordered(a.conditions, b.conditions);
    if RouteKey(a) == RouteKey(b) {
      KeyParts(a, b);
    }
  }

  // What equal parts match.

  lemma {:induction false} SameShapesMatchTheSame(p: string, q: string, path: string)
    requires Shapes(p) == Shapes(q)
    ensures PathMatches(p, path) <==> PathMatches(q, path)
  {
    var parts, others, actual := Segments(p), Segments(q), Segments(path);
    assert |parts| == |Shapes(p)| && |others| == |Shapes(q)|;
    forall i | 0 <= i < |parts| && i < |actual|
      ensures SegmentMatches(parts[i], actual[i]) <==> SegmentMatches(others[i], actual[i])
    {
      assert Shapes(p)[i] == Shapes(q)[i];
      assert SegmentShape(parts[i]) == SegmentShape(others[i]);
    }
  }

  lemma SameTextsSameConditions(a: seq<Condition>, b: seq<Condition>, c: Condition)
    requires (forall d <- a :: CleanCondition(d)) && (forall d <- b :: CleanCondition(d))
    requires multiset(ConditionTexts(a)) == multiset(ConditionTexts(b)) && c in a
    ensures c in b
  {
    var i :| 0 <= i < |a| && a[i] == c;
    var texts := ConditionTexts(b);
    assert ConditionTexts(a)[i] in multiset(ConditionTexts(a));
    var j :| 0 <= j < |texts| && texts[j] == ConditionText(c);
    assert b[j] in b;
    TextDeterminesCondition(c, b[j]);
  }

  lemma SameShapesCover(p: string, q: string)
    requires Shapes(p) == Shapes(q)
    ensures PatternCovers(p, q)
  {
    var parts, others := Segments(p), Segments(q);
    assert |parts| == |Shapes(p)| && |others| == |Shapes(q)|;
    forall i | 0 <= i < |parts| && i < |others|
      ensures SegmentCovers(parts[i], others[i])
    {
      assert Shapes(p)[i] == Shapes(q)[i];
      assert SegmentShape(parts[i]) == SegmentShape(others[i]);
    }
  }

  // Which warnings are right.

  /**
   A reported route answers no request whatsoever exactly if an earlier route covers it; whatever it would answer, the
   route it is said to overlap answers, exactly if that one covers it.
   */
  lemma {:induction false} OverlapIsRightIff(routes: seq<Route>, o: Overlap)
    requires Overlaps(routes, o)
    ensures (forall request :: !Picks(routes, request, o.routeIndex)) <==> CoveredEarlier(routes, o.routeIndex)
    ensures var (a, b) := (routes[o.previous], routes[o.routeIndex]);
      (forall request :: RouteMatches(b, request) ==> RouteMatches(a, request)) <==> Covers(a, b)
  {
    NeverPickedIff(routes, o.routeIndex);
    CoversIff(routes[o.previous], routes[o.routeIndex]);
  }

  /** Without spaces in methods and patterns only the conditions decide whether the named route covers the other. */
  lemma {:induction false} SpaceFreeOverlapCoversIff(routes: seq<Route>, o: Overlap)
    requires Overlaps(routes, o) && SpaceFree(routes[o.previous]) && SpaceFree(routes[o.routeIndex])
    ensures Covers(routes[o.previous], routes[o.routeIndex])
       <==> forall c <- routes[o.previous].conditions :: c in routes[o.routeIndex].conditions
  {
    var a, b := routes[o.previous], routes[o.routeIndex];
    assert HasKey(a, RouteKey(b));
    KeyParts(a, b);
    ShapeDeterminesShapes(a.pathPattern, b.pathPattern);
    SameShapesCover(a.pathPattern, b.pathPattern);
  }

  lemma CleanOverlapCovers(routes: seq<Route>, o: Overlap)
    requires Overlaps(routes, o) && CleanRoute(routes[o.previous]) && CleanRoute(routes[o.routeIndex])
    ensures Covers(routes[o.previous], routes[o.routeIndex])
  {
    var a, b := routes[o.previous], routes[o.routeIndex];
    assert HasKey(a, RouteKey(b));
    SameKeyIff(a, b);
    SameShapesCover(a.pathPattern, b.pathPattern);
    forall c | c in a.conditions
      ensures c in b.conditions
    {
      SameTextsSameConditions(a.conditions, b.conditions, c);
    }
  }

  /** So a route without separators in its fields that is reported as overlapped answers no request whatsoever. */
  lemma {:induction false} OverlappedIsNeverPicked(routes: seq<Route>, o: Overlap)
    requires Overlaps(routes, o) && CleanRoute(routes[o.previous]) && CleanRoute(routes[o.routeIndex])
    ensures forall request :: !Picks(routes, request, o.routeIndex)
  {
    CleanOverlapCovers(routes, o);
    NeverPickedIff(routes, o.routeIndex);
  }

  // Without clean fields the warning can be wrong.

  /**
   Conditions whose fields contain the separator can print alike: the second route is reported although it answers
   every request that satisfies its condition and not the first route's.
   */
  lemma {:induction false} ColonMakesAFalseWarning(verb: string, path: string, a: Condition, b: Condition)
    requires a != b && ConditionText(a) == ConditionText(b)
    ensures var routes := [Route(true, verb, path, [a]), Route(true, verb, path, [b])];
      Overlaps(routes, Overlap(1, 0)) && exists request :: Picks(routes, request, 1)
  {
    var routes := [Route(true, verb, path, [a]), Route(true, verb, path, [b])];
    assert ConditionTexts([a]) == ConditionTexts([b]);
    assert HasKey(routes[0], RouteKey(routes[1]));
    assert FirstWithKey(routes, RouteKey(routes[1]), 0);
    var request := Request(verb, path, c => c == b);
    assert a in routes[0].conditions && !request.satisfies(a);
    assert !ConditionsMatch(routes[0].conditions, request);
    assert !RouteMatches(routes[0], request);
    assert RouteMatches(routes[1], request);
    assert Picks(routes, request, 1);
  }

  /** Such conditions exist, for any source and matcher. */
  lemma {:induction false} ConditionsThatPrintAlike(source: string, matcher: string)
    ensures var a := Condition(source, "a:" + matcher + ":b", matcher, "c");
      var b := Condition(source, "a", matcher, "b:" + matcher + ":c");
      a != b && ConditionText(a) == ConditionText(b)
  {
    var a := Condition(source, "a:" + matcher + ":b", matcher, "c");
    var b := Condition(source, "a", matcher, "b:" + matcher + ":c");
    FourJoined(source, a.expression, matcher, a.expected);
    FourJoined(source, b.expression, matcher, b.expected);
    assert ("a:" + matcher + ":b") + (":" + (matcher + (":" + "c")))
        == "a" + (":" + (matcher + (":" + ("b:" + matcher + ":c"))));
  }

  lemma FourJoined(a: string, b: string, c: string, d: string)
    ensures Join([a, b, c, d], ":") == a + (":" + (b + (":" + (c + (":" + d)))))
  {
    assert [a, b, c, d][1..] == [b, c, d] && [b, c, d][1..] == [c, d] && [c, d][1..] == [d];
    assert Join([c, d], ":") == c + (":" + d);
    assert Join([b, c, d], ":") == b + (":" + Join([c, d], ":"));
    assert Join([a, b, c, d], ":") == a + (":" + Join([b, c, d], ":"));
  }
}
