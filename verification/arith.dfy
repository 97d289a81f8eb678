/** Facts about Euclidean remainder that the block proofs need, proved from the division axioms. */
module Arith {

  /** A remainder never exceeds the number divided. */
  lemma ModAtMost(n: nat, c: nat)
    requires c > 0
    ensures n % c <= n
  {
    var d := n / c;
    assert n == c * d + n % c;
    if d < 0 {
      MulAtLeast(c, -d);
    } else {
      assert c * d >= 0;
    }
  }

  /** Counting one more either wraps the remainder to zero or raises it by one. */
  lemma ModStep(n: nat, c: nat)
    requires c > 0
    ensures (n + 1) % c == if n % c + 1 == c then 0 else n % c + 1
  {
    var d, r := n / c, n % c;
    assert n == c * d + r;
    if r + 1 == c {
      assert n + 1 == c * (d + 1) + 0;
      ModUnique(n + 1, c, d + 1, 0);
    } else {
      ModUnique(n + 1, c, d, r + 1);
    }
  }

  /** The remainder is determined by any decomposition `n == c * d + r` with `0 <= r < c`. */
  lemma ModUnique(n: int, c: int, d: int, r: int)
    requires c > 0 && 0 <= r < c && n == c * d + r
    ensures n % c == r
  {
    var d0, r0 := n / c, n % c;
    assert n == c * d0 + r0;
    assert c * (d - d0) == r0 - r;
    if d - d0 >= 1 {
      MulAtLeast(c, d - d0);
    } else if d0 - d >= 1 {
      MulAtLeast(c, d0 - d);
    }
  }

  lemma MulAtLeast(c: int, e: int)
    requires c > 0 && e >= 1
    ensures c * e >= c
  {
  }

  /** A number below the divisor is its own remainder. */
  lemma ModSmall(n: nat, c: nat)
    requires n < c
    ensures n % c == n
  {
    ModUnique(n, c, 0, n);
  }

  /** A positive number leaves no remainder when divided by itself. */
  lemma ModSelf(c: nat)
    requires c > 0
    ensures c % c == 0
  {
    ModUnique(c, c, 1, 0);
  }
}
