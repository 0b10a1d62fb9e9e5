/** `map`, `flatMap` and the two ends of a sequence. */
module Seqs {
  function Last<T>(s: seq<T>): T
    requires s != []
  {
    s[|s| - 1]
  }

  function Front<T>(s: seq<T>): seq<T>
    requires s != []
  {
    s[..|s| - 1]
  }

  lemma ConcatAssociates<T>(a: seq<T>, b: seq<T>, c: seq<T>)
    ensures (a + b) + c == a + (b + c)
  {
  }

  function FlatMap<A, B>(f: A -> seq<B>, s: seq<A>): seq<B> {
    if s == [] then [] else f(s[0]) + FlatMap(f, s[1..])
  }

  lemma {:induction false} FlatMapConcat<A, B>(f: A -> seq<B>, a: seq<A>, b: seq<A>)
    ensures FlatMap(f, a + b) == FlatMap(f, a) + FlatMap(f, b)
  {
    if a == [] {
      assert a + b == b;
    } else {
      assert (a + b)[0] == a[0] && (a + b)[1..] == a[1..] + b;
      FlatMapConcat(f, a[1..], b);
    }
  }

  lemma FlatMapAppend<A, B>(f: A -> seq<B>, s: seq<A>, i: nat)
    requires i < |s|
    ensures FlatMap(f, s[..i + 1]) == FlatMap(f, s[..i]) + f(s[i])
  {
    assert s[..i + 1] == s[..i] + [s[i]];
    FlatMapConcat(f, s[..i], [s[i]]);
    assert [s[i]][1..] == [];
  }

  lemma FlatMapNext<A, B>(f: A -> seq<B>, s: seq<A>, i: nat, done: seq<B>, more: seq<B>)
    requires i < |s| && done == FlatMap(f, s[..i]) && more == f(s[i])
    ensures done + more == FlatMap(f, s[..i + 1])
  {
    FlatMapAppend(f, s, i);
  }

  lemma FlatMapOne<A, B>(f: A -> seq<B>, x: A)
    ensures FlatMap(f, [x]) == f(x)
  {
    assert [x][1..] == [];
  }

  lemma {:induction false} FlatMapSingles<A, B>(f: A -> seq<B>, s: seq<A>, t: seq<B>)
    requires |s| == |t| && forall i :: 0 <= i < |s| ==> f(s[i]) == [t[i]]
    ensures FlatMap(f, s) == t
  {
    if s != [] {
      FlatMapSingles(f, s[1..], t[1..]);
      assert t == [t[0]] + t[1..];
    }
  }
}
