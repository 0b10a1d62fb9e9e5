/** Sizes of finite sets. */
module Sets {
  lemma {:induction false} SubsetIsNoLarger<T>(a: set<T>, b: set<T>)
    requires a <= b
    ensures |a| <= |b|
  {
    if a != {} {
      var x :| x in a;
      SubsetIsNoLarger(a - {x}, b - {x});
    }
  }

  /** A set that grows inside a fixed one leaves less out. */
  lemma LessIsLeft<T>(all: set<T>, small: set<T>, large: set<T>)
    requires small < large <= all
    ensures |all - large| < |all - small|
  {
    var x :| x in large && x !in small;
    SubsetIsNoLarger(all - large, all - small - {x});
  }
}
