/** Reachability along a relation, by explicit paths. */
module Graphs {
  import opened Seqs

  type Edges = (string, string) -> bool

  predicate IsPath(edge: Edges, path: seq<string>) {
    path != [] && forall i :: 0 <= i < |path| - 1 ==> edge(path[i], path[i + 1])
  }

  ghost predicate Reaches(edge: Edges, a: string, b: string) {
    exists path :: IsPath(edge, path) && path[0] == a && Last(path) == b
  }

  ghost predicate ReachedFrom(edge: Edges, seeds: set<string>, b: string) {
    exists a :: a in seeds && Reaches(edge, a, b)
  }

  ghost predicate Closed(edge: Edges, nodes: set<string>) {
    forall a, b :: a in nodes && edge(a, b) ==> b in nodes
  }

  lemma ReachesItself(edge: Edges, a: string)
    ensures Reaches(edge, a, a)
  {
    assert IsPath(edge, [a]);
  }

  lemma ReachesFurther(edge: Edges, a: string, b: string, c: string)
    requires Reaches(edge, a, b) && Reaches(edge, b, c)
    ensures Reaches(edge, a, c)
  {
    var p :| IsPath(edge, p) && p[0] == a && Last(p) == b;
    var q :| IsPath(edge, q) && q[0] == b && Last(q) == c;
    var path := p + q[1..];
    forall i | 0 <= i < |path| - 1
      ensures edge(path[i], path[i + 1])
    {
      if i >= |p| - 1 {
        var k := i - (|p| - 1);
        assert path[i] == q[k] && path[i + 1] == q[k + 1];
      }
    }
    assert IsPath(edge, path);
  }

  lemma EdgeReaches(edge: Edges, a: string, b: string)
    requires edge(a, b)
    ensures Reaches(edge, a, b)
  {
    assert IsPath(edge, [a, b]);
  }

  lemma {:induction false} PathStaysInside(edge: Edges, nodes: set<string>, path: seq<string>)
    requires Closed(edge, nodes) && IsPath(edge, path) && path[0] in nodes
    ensures Last(path) in nodes
    decreases |path|
  {
    if |path| > 1 {
      assert edge(path[0], path[1]);
      forall i | 0 <= i < |path[1..]| - 1
        ensures edge(path[1..][i], path[1..][i + 1])
      {
        assert edge(path[i + 1], path[i + 2]);
      }
      PathStaysInside(edge, nodes, path[1..]);
    }
  }

  /** A closed set that only holds reachable nodes is exactly the set of reachable nodes. */
  lemma {:induction false} ClosureIsReachability(edge: Edges, seeds: set<string>, nodes: set<string>)
    requires seeds <= nodes && Closed(edge, nodes)
    requires forall b <- nodes :: ReachedFrom(edge, seeds, b)
    ensures forall b :: b in nodes <==> ReachedFrom(edge, seeds, b)
  {
    forall b | ReachedFrom(edge, seeds, b)
      ensures b in nodes
    {
      var a :| a in seeds && Reaches(edge, a, b);
      var path :| IsPath(edge, path) && path[0] == a && Last(path) == b;
      PathStaysInside(edge, nodes, path);
    }
  }
}
