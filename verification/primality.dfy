/** Primality: the mathematical reference every algorithm is measured against.
    `IsPrime` is the textbook definition, `PrimesUpTo` the ascending list of
    primes up to a bound, and the lemmas below are the number theory the
    algorithms rely on (the square-root cutoff, least divisors, and the fact
    that an ascending list is determined by its elements). */
module Primality {

  /** k is prime: at least 2 and no d in [2, k) divides it. */
  predicate IsPrime(k: int) {
    k >= 2 && forall d :: 2 <= d < k ==> k % d != 0
  }

  predicate StrictlyAscending(s: seq<nat>) {
    forall i, j :: 0 <= i < j < |s| ==> s[i] < s[j]
  }

  /** The primes in [2, n] in ascending order: the reference result. */
  function PrimesUpTo(n: int): (r: seq<nat>)
    ensures StrictlyAscending(r)
    ensures forall k :: k in r <==> 2 <= k <= n && IsPrime(k)
    decreases n
  {
    if n < 2 then []
    else
      var below := PrimesUpTo(n - 1);
      assert forall i :: 0 <= i < |below| ==> below[i] in below;
      below + (if IsPrime(n) then [n] else [])
  }

  // ---------------------------------------------------------------------
  // Arithmetic helpers

  lemma MulAtLeast(a: int, d: int)
    requires a > 0 && d >= 1
    ensures a * d >= a
  {
  }

  lemma MulAtMost(a: int, d: int)
    requires a > 0 && d <= -1
    ensures a * d <= -a
  {
  }

  /** Euclidean division is unique: x = a * q + r with 0 <= r < a fixes q and r. */
  lemma DivModUnique(x: int, a: int, q: int, r: int)
    requires a > 0 && x == a * q + r && 0 <= r < a
    ensures x % a == r && x / a == q
  {
    var q', r' := x / a, x % a;
    assert x == a * q' + r';
    assert a * (q - q') == r' - r;
    var d := q - q';
    if d >= 1 {
      MulAtLeast(a, d);
    } else if d <= -1 {
      MulAtMost(a, d);
    }
  }

  lemma MulModZero(a: int, b: int)
    requires a > 0
    ensures (a * b) % a == 0
  {
    DivModUnique(a * b, a, b, 0);
  }

  lemma ModZeroIsMultiple(m: int, a: int)
    requires a > 0 && m % a == 0
    ensures m == a * (m / a)
  {
  }

  lemma MulLeftMonotone(a: nat, b: nat, c: nat)
    requires b <= c
    ensures a * b <= a * c
  {
  }

  lemma SquareMonotone(a: nat, b: nat)
    requires a <= b
    ensures a * a <= b * b
  {
    assert a * a <= a * b;
    assert a * b <= b * b;
  }

  /** Divisibility is transitive: d | m and m | k give d | k. */
  lemma DividesTransitive(d: int, m: int, k: int)
    requires d > 0 && m > 0
    requires m % d == 0 && k % m == 0
    ensures k % d == 0
  {
    ModZeroIsMultiple(m, d);
    ModZeroIsMultiple(k, m);
    var x, y := m / d, k / m;
    assert k == d * (x * y) by {
      assert k == m * y;
      assert m == d * x;
    }
    MulModZero(d, x * y);
  }

  // ---------------------------------------------------------------------
  // Least divisors

  /** The least divisor of k that is at least lo (k itself if there is none below k). */
  function MinDivisorFrom(k: nat, lo: nat): (m: nat)
    requires 2 <= lo <= k
    ensures lo <= m <= k && k % m == 0
    ensures forall d :: lo <= d < m ==> k % d != 0
    decreases k - lo
  {
    if k % lo == 0 then lo else MinDivisorFrom(k, lo + 1)
  }

  function MinDivisor(k: nat): (m: nat)
    requires k >= 2
    ensures 2 <= m <= k && k % m == 0
    ensures forall d :: 2 <= d < m ==> k % d != 0
  {
    MinDivisorFrom(k, 2)
  }

  /** The least divisor of a number is itself prime. */
  lemma MinDivisorIsPrime(k: nat)
    requires k >= 2
    ensures IsPrime(MinDivisor(k))
  {
    var m := MinDivisor(k);
    forall e | 2 <= e < m
      ensures m % e != 0
    {
      if m % e == 0 {
        DividesTransitive(e, m, k);
      }
    }
  }

  /** Splitting k = m * c with m a proper divisor: the cofactor c is a
      divisor of k too, and at least 2. */
  lemma Cofactor(k: nat, m: nat)
    requires 2 <= m < k && k % m == 0
    ensures k == m * (k / m)
    ensures 2 <= k / m && k % (k / m) == 0
  {
    ModZeroIsMultiple(k, m);
    var c := k / m;
    assert c >= 2;
    assert k == c * m;
    MulModZero(c, m);
  }

  /** A composite is at least the square of its least divisor. */
  lemma MinDivisorSquare(k: nat)
    requires k >= 2 && !IsPrime(k)
    ensures MinDivisor(k) < k
    ensures MinDivisor(k) * MinDivisor(k) <= k
  {
    var m := MinDivisor(k);
    var d :| 2 <= d < k && k % d == 0;
    assert m < k;
    Cofactor(k, m);
    var c := k / m;
    assert m <= c;
    MulLeftMonotone(m, m, c);
  }

  /** The square-root cutoff: a composite i has a divisor d with d * d <= i,
      so trial division may stop once the trial divisor squared exceeds i. */
  lemma CompositeHasSmallDivisor(i: nat)
    requires i >= 2 && !IsPrime(i)
    ensures exists d :: 2 <= d && d * d <= i && i % d == 0
  {
    MinDivisorSquare(i);
    var m := MinDivisor(i);
    assert 2 <= m && m * m <= i && i % m == 0;
  }

  /** If no d in [2, j) divides i and j * j > i, then i is prime. */
  lemma NoDivisorBelowRoot(i: nat, j: nat)
    requires i >= 2 && i < j * j
    requires forall d :: 2 <= d < j ==> i % d != 0
    ensures IsPrime(i)
  {
    if !IsPrime(i) {
      CompositeHasSmallDivisor(i);
      var d :| 2 <= d && d * d <= i && i % d == 0;
      if d >= j {
        SquareMonotone(j, d);
      }
      assert false;
    }
  }

  // ---------------------------------------------------------------------
  // Ascending lists are determined by their elements

  lemma AscendingTail(s: seq<nat>)
    requires |s| > 0 && StrictlyAscending(s)
    ensures StrictlyAscending(s[1..])
    ensures forall x :: x in s[1..] <==> x in s && x > s[0]
  {
    forall x | x in s && x > s[0]
      ensures x in s[1..]
    {
      var i :| 0 <= i < |s| && s[i] == x;
      assert i != 0;
      assert s[1..][i - 1] == x;
    }
  }

  /** Two strictly ascending lists holding the same elements are equal; this
      is what makes every implementation's result the same list. */
  lemma {:induction false} AscendingUnique(a: seq<nat>, b: seq<nat>)
    requires StrictlyAscending(a) && StrictlyAscending(b)
    requires forall x :: x in a <==> x in b
    ensures a == b
    decreases |a|
  {
    assert |a| > 0 ==> a[0] in b;
    assert |b| > 0 ==> b[0] in a;
    if |a| > 0 {
      var i :| 0 <= i < |b| && b[i] == a[0];
      var k :| 0 <= k < |a| && a[k] == b[0];
      assert a[0] <= a[k] == b[0] <= b[i] == a[0];
      assert a[0] == b[0];
      AscendingTail(a);
      AscendingTail(b);
      AscendingUnique(a[1..], b[1..]);
      assert a == [a[0]] + a[1..];
      assert b == [b[0]] + b[1..];
    }
  }

  /** Any strictly ascending list holding exactly the primes in [2, n] is
      the reference list. */
  lemma PrimesUpToUnique(s: seq<nat>, n: int)
    requires StrictlyAscending(s)
    requires forall k :: k in s <==> 2 <= k <= n && IsPrime(k)
    ensures s == PrimesUpTo(n)
  {
    AscendingUnique(s, PrimesUpTo(n));
  }
}
