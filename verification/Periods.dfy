/** When the multiples of a number are the only periods there are. */
module Periods {
  ghost predicate Factor(d: nat, n: nat) {
    exists k: nat :: n == d * k
  }

  function Gcd(a: nat, b: nat): nat
    decreases b
  {
    if b == 0 then a else Gcd(b, a % b)
  }

  lemma FactorSum(d: nat, a: nat, b: nat, q: nat)
    requires Factor(d, a) && Factor(d, b)
    ensures Factor(d, a + b * q)
  {
    var j: nat, k: nat :| a == d * j && b == d * k;
    assert a + b * q == d * (j + k * q);
  }

  lemma FactorDifference(d: nat, a: nat, b: nat, q: nat)
    requires Factor(d, a) && Factor(d, b) && a >= b * q
    ensures Factor(d, a - b * q)
  {
    var j: nat, k: nat :| a == d * j && b == d * k;
    assert a - b * q == d * (j - k * q);
    if d == 0 {
      assert a - b * q == d * 0;
    } else {
      NotNegative(d, j - k * q);
    }
  }

  lemma NotNegative(d: nat, x: int)
    requires d > 0 && d * x >= 0
    ensures x >= 0
  {}

  lemma {:induction false} GcdIsFactor(a: nat, b: nat)
    ensures Factor(Gcd(a, b), a) && Factor(Gcd(a, b), b)
    decreases b
  {
    if b == 0 {
      assert a == a * 1 && b == a * 0;
    } else {
      GcdIsFactor(b, a % b);
      FactorSum(Gcd(a, b), a % b, b, a / b);
    }
  }

  lemma {:induction false} GcdIsGreatest(d: nat, a: nat, b: nat)
    requires Factor(d, a) && Factor(d, b)
    ensures Factor(d, Gcd(a, b))
    decreases b
  {
    if b > 0 {
      FactorDifference(d, a, b, a / b);
      GcdIsGreatest(d, b, a % b);
    }
  }

  lemma ModScale(a: nat, b: nat, k: nat)
    requires b > 0 && k > 0
    ensures b * k > 0 && (a * k) % (b * k) == (a % b) * k
  {
    var q, r := a / b, a % b;
    assert a * k == (b * k) * q + r * k;
    assert r * k < b * k;
    ModUnique(a * k, b * k, q, r * k);
  }

  lemma ModUnique(n: nat, d: nat, q: nat, r: nat)
    requires n == d * q + r && r < d
    ensures n % d == r
  {
    assert d * (n / d - q) == r - n % d;
    Small(d, n / d - q);
  }

  lemma Small(d: nat, x: int)
    requires -(d as int) < d * x < d
    ensures x == 0
  {}

  lemma {:induction false} GcdScale(a: nat, b: nat, k: nat)
    requires k > 0
    ensures Gcd(a * k, b * k) == Gcd(a, b) * k
    decreases b
  {
    if b > 0 {
      ModScale(a, b, k);
      GcdScale(b, a % b, k);
    }
  }

  /** What divides a product and has nothing in common with one factor divides the other. */
  lemma Coprime(q: nat, m: nat, k: nat)
    requires k > 0 && Gcd(q, m) == 1 && Factor(q, m * k)
    ensures Factor(q, k)
  {
    assert q * k == q * k;
    GcdIsGreatest(q, q * k, m * k);
    GcdScale(q, m, k);
  }

  /** 7, 31 and 151 have no factors but themselves and 1. */
  lemma PrimeFactor(p: nat, g: nat)
    requires (p == 7 || p == 31 || p == 151) && Factor(g, p)
    ensures g == 1 || g == p
  {
    var k: nat :| p == g * k;
    OneIsSmall(g, k);
    if g <= 12 {
      SmallFactor(p, g, k);
    } else {
      SmallFactor(p, k, g);
    }
  }

  lemma OneIsSmall(g: nat, k: nat)
    requires g * k <= 151
    ensures g <= 12 || k <= 12
  {}

  lemma SmallFactor(p: nat, g: nat, k: nat)
    requires (p == 7 || p == 31 || p == 151) && g <= 12 && p == g * k
    ensures g == 1 || g == p
  {
    assert g != 0 && g != 2 && g != 3 && g != 4 && g != 5 && g != 6;
    assert g != 8 && g != 9 && g != 10 && g != 11 && g != 12;
    if g == 7 {
      assert p == 7;
    }
  }

  lemma SharesPrime(p: nat, q: nat)
    requires p == 7 || p == 31 || p == 151
    ensures Gcd(q, p) == 1 || Factor(p, q)
  {
    GcdIsFactor(q, p);
    PrimeFactor(p, Gcd(q, p));
  }

  /** A factor of 32767 = 7 * 31 * 151 other than 1 has one of the three primes in it. */
  lemma HasPrime(q: nat)
    requires Factor(q, 32767) && q > 1
    ensures Factor(7, q) || Factor(31, q) || Factor(151, q)
  {
    SharesPrime(7, q);
    SharesPrime(31, q);
    SharesPrime(151, q);
    if !Factor(7, q) && !Factor(31, q) && !Factor(151, q) {
      Coprime(q, 7, 4681);
      Coprime(q, 31, 151);
      Coprime(q, 151, 1);
      var k: nat :| 1 == q * k;
      AtLeast(q, k);
    }
  }

  /** Shifting by a period changes nothing. */
  predicate Adds(p: nat -> bool, a: nat, b: nat) {
    p(b) ==> (p(a + b) <==> p(a))
  }

  ghost predicate Closed(p: nat -> bool) {
    p(0) && forall a: nat, b: nat :: Adds(p, a, b)
  }

  lemma {:induction false} Multiple(p: nat -> bool, b: nat, k: nat)
    requires Closed(p) && p(b)
    ensures p(b * k)
  {
    if k > 0 {
      Multiple(p, b, k - 1);
      assert Adds(p, b * (k - 1), b);
      assert b * k == b * (k - 1) + b;
    }
  }

  lemma Remainder(p: nat -> bool, a: nat, b: nat)
    requires Closed(p) && b > 0 && p(b)
    ensures p(a) <==> p(a % b)
  {
    Multiple(p, b, a / b);
    assert Adds(p, a % b, b * (a / b));
    assert a == a % b + b * (a / b);
  }

  lemma {:induction false} GcdPeriod(p: nat -> bool, a: nat, b: nat)
    requires Closed(p) && p(a) && p(b)
    ensures p(Gcd(a, b))
    decreases b
  {
    if b > 0 {
      Remainder(p, a, b);
      GcdPeriod(p, b, a % b);
    }
  }

  /** If a proper divisor were a period, so would be 32767 divided by one of its primes. */
  lemma NoCofactor(p: nat -> bool, e: nat, q: nat, prime: nat, rest: nat)
    requires Closed(p) && p(e) && e * q == prime * rest && prime > 0 && Factor(prime, q)
    ensures p(rest)
  {
    var k: nat :| q == prime * k;
    Regroup(e, k, prime, rest);
    Multiple(p, e, k);
  }

  lemma Regroup(e: nat, k: nat, prime: nat, rest: nat)
    requires e * (prime * k) == prime * rest && prime > 0
    ensures e * k == rest
  {
    assert prime * (e * k) == prime * rest;
    assert prime * (e * k - rest) == 0;
  }

  lemma NoShorterPeriod(p: nat -> bool, d: nat)
    requires Closed(p) && p(32767) && !p(4681) && !p(1057) && !p(217) && 0 < d < 32767
    ensures !p(d)
  {
    if p(d) {
      var e := Gcd(32767, d);
      GcdPeriod(p, 32767, d);
      GcdIsFactor(32767, d);
      var q := Cofactor(e, d);
      HasPrime(q);
      if Factor(7, q) {
        NoCofactor(p, e, q, 7, 4681);
      } else if Factor(31, q) {
        NoCofactor(p, e, q, 31, 1057);
      } else {
        NoCofactor(p, e, q, 151, 217);
      }
    }
  }

  lemma Cofactor(e: nat, d: nat) returns (q: nat)
    requires Factor(e, 32767) && Factor(e, d) && 0 < d < 32767
    ensures e * q == 32767 && q > 1 && Factor(q, 32767)
  {
    q :| 32767 == e * q;
    var k: nat :| d == e * k;
    assert 32767 == q * e;
    AtLeast(e, k);
    if q <= 1 {
      AtMost(e, q);
    }
  }

  lemma AtLeast(e: nat, k: nat)
    requires e * k > 0
    ensures e * k >= e
  {
    assert k >= 1;
  }

  lemma AtMost(e: nat, q: nat)
    requires q <= 1
    ensures e * q <= e
  {}

  /** The periods are the multiples of 32767. */
  lemma OnlyMultiples(p: nat -> bool, d: nat)
    requires Closed(p) && p(32767) && !p(4681) && !p(1057) && !p(217)
    ensures p(d) <==> d % 32767 == 0
  {
    Remainder(p, d, 32767);
    if d % 32767 != 0 {
      NoShorterPeriod(p, d % 32767);
    }
  }
}
