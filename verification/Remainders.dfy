/** Remainders that ignore whole rounds. */
module Remainders {
  lemma MultipleIsAtLeast(d: int, n: int)
    requires d >= 1 && n >= 0
    ensures d * n >= n
  {
    assert d * n == n + (d - 1) * n;
    assert (d - 1) * n >= 0;
  }

  lemma MultipleIsFarFromZero(d: int, n: int)
    requires d != 0 && n >= 0
    ensures d * n >= n || d * n <= -n
  {
    if d >= 1 {
      MultipleIsAtLeast(d, n);
    } else {
      MultipleIsAtLeast(-d, n);
      assert (-d) * n == -(d * n);
    }
  }

  lemma RemainderIsUnique(x: nat, n: nat, q: int, r: nat)
    requires n > 0 && r < n && x == q * n + r
    ensures x % n == r
  {
    var d := q - x / n;
    assert x == (x / n) * n + x % n;
    assert d * n == q * n - (x / n) * n;
    if d != 0 {
      MultipleIsFarFromZero(d, n);
    }
  }

  lemma RoundVanishes(n: nat, x: nat)
    requires n > 0
    ensures (n + x) % n == x % n
  {
    assert x == (x / n) * n + x % n;
    assert (x / n + 1) * n == (x / n) * n + n;
    RemainderIsUnique(n + x, n, x / n + 1, x % n);
  }

  lemma SmallStays(x: nat, n: nat)
    requires x < n
    ensures x % n == x
  {
    RemainderIsUnique(x, n, 0, x);
  }
}
