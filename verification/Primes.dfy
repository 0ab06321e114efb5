/** The table sizes of the hash: FindPrime, by trial division. */
module Primes {
  import opened Arithmetic

  predicate Divides(d: nat, n: nat)
  {
    d > 0 && n % d == 0
  }

  ghost predicate Prime(n: nat)
  {
    n >= 2 && forall d :: 2 <= d < n ==> !Divides(d, n)
  }

  lemma DividesProduct(d: nat, k: nat)
    requires d > 0
    ensures Divides(d, d * k)
  {
    ModIs(d * k, d, k, 0);
  }

  lemma Quotient(d: nat, n: nat) returns (k: nat)
    requires Divides(d, n)
    ensures d > 0 && n == d * k
  {
    k := n / d;
  }

  lemma DividesMultiple(d: nat, n: nat, m: nat)
    requires Divides(d, n)
    ensures Divides(d, n * m)
  {
    hide Divides;
    var k := Quotient(d, n);
    assert n * m == d * (k * m);
    DividesProduct(d, k * m);
  }

  lemma DividesTrans(a: nat, b: nat, n: nat)
    requires Divides(a, b) && Divides(b, n)
    ensures Divides(a, n)
  {
    hide Divides;
    var k := Quotient(b, n);
    DividesMultiple(a, b, k);
  }

  /** No divisor of n above 1 divides n + 1. */
  lemma NotBoth(d: nat, n: nat)
    requires d > 1 && Divides(d, n)
    ensures !Divides(d, n + 1)
  {
    var k := n / d;
    ModIs(n + 1, d, k, 1);
  }

  // ---- There is always a larger prime ----

  /** The least divisor above 1 from `d` on. */
  function LeastDivisor(n: nat, d: nat): (r: nat)
    requires 2 <= d <= n && forall e :: 2 <= e < d ==> !Divides(e, n)
    ensures d <= r <= n && Divides(r, n) && forall e :: 2 <= e < r ==> !Divides(e, n)
    decreases n - d
  {
    if Divides(d, n) then d
    else
      assert d != n by {
        DividesProduct(n, 1);
      }
      LeastDivisor(n, d + 1)
  }

  lemma LeastDivisorIsPrime(n: nat)
    requires n >= 2
    ensures Prime(LeastDivisor(n, 2))
  {
    hide Divides, LeastDivisor;
    var p := LeastDivisor(n, 2);
    forall d | 2 <= d < p ensures !Divides(d, p) {
      if Divides(d, p) {
        DividesTrans(d, p, n);
      }
    }
  }

  function Factorial(n: nat): (r: nat)
    ensures r >= 1
  {
    if n == 0 then 1 else Factorial(n - 1) * n
  }

  lemma {:induction false} FactorialDivides(n: nat, d: nat)
    requires 1 <= d <= n
    ensures Divides(d, Factorial(n))
    decreases n
  {
    hide Divides;
    if d == n {
      DividesProduct(n, Factorial(n - 1));
      assert n * Factorial(n - 1) == Factorial(n);
    } else {
      FactorialDivides(n - 1, d);
      DividesMultiple(d, Factorial(n - 1), n);
    }
  }

  /** Euclid's theorem. */
  lemma PrimeAbove(n: nat) returns (p: nat)
    ensures p > n && Prime(p)
  {
    hide Divides, Factorial, LeastDivisor, Prime;
    p := LeastDivisor(Factorial(n) + 1, 2);
    LeastDivisorIsPrime(Factorial(n) + 1);
    if p <= n {
      FactorialDivides(n, p);
      NotBoth(p, Factorial(n));
    }
  }

  // ---- Trial division up to the square root is enough ----

  function Root(n: nat): (r: nat)
    ensures r * r <= n < (r + 1) * (r + 1)
  {
    if n == 0 then 0
    else
      var r := Root(n - 1);
      if (r + 1) * (r + 1) <= n then r + 1 else r
  }

  ghost predicate NoneDivides(n: nat, x: nat)
  {
    forall d :: 3 <= d < x ==> !Divides(d, n)
  }

  lemma SmallFactor(n: nat, d: nat, k: nat)
    requires n == d * k
    ensures d <= Root(n) || k <= Root(n)
  {
    hide Root;
    var r := Root(n);
    if d > r {
      MulMono(r + 1, d, k);
      assert k * (r + 1) == (r + 1) * k;
      MulCancel(k, r + 1, r + 1);
    }
  }

  lemma OddHasNoEvenDivisor(n: nat)
    requires n % 2 == 1
    ensures !Divides(2, n)
  {
  }

  /** A proper divisor comes with another one, and the smaller of the two is small. */
  lemma HasSmallDivisor(n: nat, d: nat) returns (e: nat)
    requires 2 <= d < n && Divides(d, n)
    ensures 2 <= e <= Root(n) && Divides(e, n)
  {
    hide Divides, Root;
    var k := Quotient(d, n);
    SmallFactor(n, d, k);
    MulCancel(1, k, d);
    DividesProduct(k, d);
    assert k * d == d * k;
    e := if d <= Root(n) then d else k;
  }

  lemma TrialDivision(n: nat)
    requires n >= 2 && n % 2 == 1 && NoneDivides(n, Root(n) + 2)
    ensures Prime(n)
  {
    hide Divides, Root;
    OddHasNoEvenDivisor(n);
    forall d | 2 <= d < n ensures !Divides(d, n) {
      if Divides(d, n) {
        var e := HasSmallDivisor(n, d);
      }
    }
  }

  lemma RootIsSmall(n: nat)
    requires n >= 5
    ensures Root(n) + 1 < n
  {
  }

  lemma EvenIsNotPrime(n: nat)
    requires n > 2 && n % 2 == 0
    ensures !Prime(n)
  {
    assert Divides(2, n);
  }

  // ---- The search ----

  /** Inner loop: some number from 3 to `stop` divides `n`. */
  method HasDivisor(n: nat, stop: nat) returns (found: bool)
    ensures found <==> !NoneDivides(n, stop + 1)
  {
    hide Divides;
    found := false;
    var x := 3;
    while x <= stop
      invariant 3 <= x && (x <= stop + 1 || x == 3) && NoneDivides(n, x)
    {
      if n % x == 0 {
        assert Divides(x, n) by {
          IsDivisor(x, n);
        }
        return true;
      }
      assert !Divides(x, n) by {
        IsDivisor(x, n);
      }
      x := x + 1;
    }
  }

  lemma IsDivisor(x: nat, n: nat)
    requires x > 0
    ensures Divides(x, n) <==> n % x == 0
  {
  }

  lemma OddIsPrimeIff(n: nat)
    requires n >= 5 && n % 2 == 1
    ensures Prime(n) <==> NoneDivides(n, Root(n) + 2)
  {
    hide Divides, Root;
    RootIsSmall(n);
    if NoneDivides(n, Root(n) + 2) {
      TrialDivision(n);
    }
  }

  ghost predicate NoPrimes(from: nat, to: nat)
  {
    forall p :: from <= p < to ==> !Prime(p)
  }

  lemma NoPrimesMore(from: nat, r: nat)
    requires NoPrimes(from, r) && r >= 3 && r % 2 == 1 && !Prime(r)
    ensures NoPrimes(from, r + 2)
  {
    hide Prime;
    EvenIsNotPrime(r + 1);
  }

  lemma NextOdd(r: nat, p: nat)
    requires r >= 3 && r % 2 == 1 && r <= p && Prime(p) && !Prime(r)
    ensures r + 2 <= p
  {
    hide Prime;
    if p == r + 1 {
      EvenIsNotPrime(p);
    }
  }

  lemma SmallPrimes()
    ensures Prime(2) && Prime(3)
  {
  }

  /** The least prime that is at least `val` and at least 2. */
  method FindPrime(val: nat) returns (result: nat)
    ensures Prime(result) && result >= val && NoPrimes(if val < 2 then 2 else val, result)
  {
    hide Prime, Divides, Root, NoneDivides;
    SmallPrimes();
    if val <= 2 {
      return 2;
    }
    if val == 3 {
      return 3;
    }
    ghost var p := PrimeAbove(val + 1);
    result := val;
    if result % 2 == 0 {
      EvenIsNotPrime(result);
      result := result + 1;
    }
    var prime := false;
    while !prime
      invariant 5 <= result && val <= result && result % 2 == 1 && result <= p && NoPrimes(val, result)
      invariant prime ==> Prime(result)
      decreases p - result, !prime
    {
      OddIsPrimeIff(result);
      var divisible := HasDivisor(result, Root(result) + 1);
      prime := !divisible;
      if divisible {
        NextOdd(result, p);
        NoPrimesMore(val, result);
        result := result + 2;
      }
    }
  }
}
