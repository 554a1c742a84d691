/** Remainders by repeated subtraction, for the rotating cursors. */
module Modulo {
  /** `x % n`. */
  function Rem(x: nat, n: nat): (r: nat)
    requires n >= 1
    ensures r < n
  {
    if x < n then x else Rem(x - n, n)
  }

  /** Moving a cursor on by at most a full turn wraps at most once. */
  lemma {:induction false} Advance(x: nat, t: nat, n: nat)
    requires n >= 1 && t <= n
    ensures Rem(x + t, n) == if Rem(x, n) + t < n then Rem(x, n) + t else Rem(x, n) + t - n
    decreases x
  {
    if x >= n {
      Advance(x - n, t, n);
      assert x + t - n == x - n + t;
    } else if x + t >= n {
      assert Rem(x + t - n, n) == x + t - n;
    }
  }

  lemma AtLeast(a: int, n: int)
    requires a >= 1 && n >= 1
    ensures a * n >= n
  {
    assert a * n == (a - 1) * n + n;
    assert (a - 1) * n >= 0;
  }

  lemma Unique(q: int, m: int, q': int, m': int, n: int)
    requires n >= 1 && q * n + m == q' * n + m'
    requires 0 <= m < n && 0 <= m' < n
    ensures m == m'
  {
    assert (q' - q) * n == q' * n - q * n == m - m';
    assert (q - q') * n == m' - m;
    if q < q' {
      AtLeast(q' - q, n);
    } else if q' < q {
      AtLeast(q - q', n);
    }
  }

  lemma {:induction false} RemQuotient(x: nat, n: nat) returns (q: nat)
    requires n >= 1
    ensures x == q * n + Rem(x, n)
  {
    q := 0;
    if x >= n {
      var q' := RemQuotient(x - n, n);
      q := q' + 1;
      assert q * n == q' * n + n;
    }
  }

  /** Repeated subtraction computes the machine remainder. */
  lemma RemIsRemainder(x: nat, n: nat)
    requires n >= 1
    ensures Rem(x, n) == x % n
  {
    var q := RemQuotient(x, n);
    var q', m' := x / n, x % n;
    assert x == q' * n + m';
    Unique(q, Rem(x, n), q', m', n);
  }
}
