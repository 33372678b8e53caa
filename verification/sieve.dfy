/** The Sieve of Eratosthenes as both implementations run it
    (golang/main.go:134-162, index.ts:74-88): a table that starts `true` from
    index 2 on; for each current p with p * p <= n, clear p*p, p*p + p, ...;
    then move p to the first `true` index beyond it. */
module Sieve {
  import opened Primality
  import opened Table

  /** The "next candidate" scan: the first index i with `list[i] && p < i`,
      or -1 when there is none. This is TypeScript's `findIndex`; the Go loop
      at golang/main.go:156-161 scans the same way from index 0. */
  method FindIndex(list: seq<bool>, p: int) returns (index: int)
    ensures -1 <= index < |list|
    ensures index >= 0 ==> list[index] && p < index
    ensures forall i :: 0 <= i < |list| && (index < 0 || i < index) ==> !(list[i] && p < i)
  {
    var i := 0;
    while i < |list|
      invariant 0 <= i <= |list|
      invariant forall k :: 0 <= k < i ==> !(list[k] && p < k)
    {
      if list[i] && p < i {
        return i;
      }
      i := i + 1;
    }
    return -1;
  }

  /** No prime is ever cleared, and 0 and 1 are never set. */
  ghost predicate Sound(t: seq<bool>) {
    && |t| >= 2 && !t[0] && !t[1]
    && forall k :: 0 <= k < |t| && IsPrime(k) ==> t[k]
  }

  /** Every composite whose least divisor is below p has been cleared. */
  ghost predicate ClearedBelow(t: seq<bool>, p: nat) {
    forall k: nat :: 2 <= k < |t| && !IsPrime(k) && MinDivisor(k) < p ==> !t[k]
  }

  /** A multiple of p beyond p itself is not prime. */
  lemma MultipleNotPrime(p: nat, q: nat)
    requires 2 <= p < q && q % p == 0
    ensures !IsPrime(q)
  {
  }

  /** Stepping by p from a multiple of p lands on the next multiple, with no
      multiple strictly in between. */
  lemma NextMultiple(p: nat, q: nat)
    requires p >= 1 && q % p == 0
    ensures (q + p) % p == 0
    ensures forall m :: q < m < q + p ==> m % p != 0
  {
    var c := q / p;
    assert q == p * c;
    DivModUnique(q + p, p, c + 1, 0);
    forall m | q < m < q + p
      ensures m % p != 0
    {
      DivModUnique(m, p, c, m - q);
    }
  }

  /** Clearing every multiple of p from p * p on (golang/main.go:150-153,
      index.ts:84-87). Afterwards every composite whose least divisor is at
      most p is cleared, and still no prime is. Only the entries p*p,
      p*p + p, ... change; every other entry keeps its value. */
  method ClearMultiples(list: seq<bool>, p: nat) returns (cleared: seq<bool>)
    requires 2 <= p && p * p < |list|
    requires Sound(list) && ClearedBelow(list, p)
    ensures |cleared| == |list|
    ensures forall k :: 0 <= k < |list| ==> cleared[k] == (list[k] && !(p * p <= k && k % p == 0))
    ensures Sound(cleared) && ClearedBelow(cleared, p + 1)
  {
    cleared := list;
    var q := p * p;
    MulModZero(p, p);
    while q < |cleared|
      invariant |cleared| == |list|
      invariant p * p <= q && q % p == 0
      invariant Sound(cleared) && ClearedBelow(cleared, p)
      invariant forall m :: 0 <= m < |list| ==> cleared[m] == (list[m] && !(p * p <= m < q && m % p == 0))
      decreases |cleared| - q
    {
      MultipleNotPrime(p, q);
      cleared := cleared[q := false];
      NextMultiple(p, q);
      q := q + p;
    }
    forall k: nat | 2 <= k < |cleared| && !IsPrime(k) && MinDivisor(k) < p + 1
      ensures !cleared[k]
    {
      if MinDivisor(k) == p {
        MinDivisorSquare(k);
      }
    }
  }

  /** The sieve's table for a bound n >= 1: entry k is true exactly when k is
      prime. The Go and TypeScript sieves share this marking phase.

      Neither source handles a scan that finds no `true` index beyond p. Go
      keeps p and loops forever; TypeScript continues with p = -1, whose
      square 1 is below the length, so its inner loop starts at q = 1 and
      steps by -1 forever. This model leaves the loop instead, and proves the
      table correct on that path too. */
  method SieveTable(n: nat) returns (table: seq<bool>)
    requires n >= 1
    ensures |table| == n + 1 && Tracks(table)
  {
    var checkArray := seq(n + 1, _ => true)[0 := false][1 := false];
    var p: nat := 2;
    while p * p < |checkArray|
      invariant |checkArray| == n + 1 && 2 <= p
      invariant Sound(checkArray) && ClearedBelow(checkArray, p)
      decreases |checkArray| - p
    {
      checkArray := ClearMultiples(checkArray, p);
      var next := FindIndex(checkArray, p);
      if next < 0 {
        // Every index beyond p is false, so every composite has its least
        // divisor at most p and has been cleared.
        forall k: nat | 2 <= k < |checkArray| && !IsPrime(k)
          ensures !checkArray[k]
        {
          var s := MinDivisor(k);
          MinDivisorIsPrime(k);
          assert !(checkArray[s] && p < s);
        }
        break;
      }
      forall k: nat | 2 <= k < |checkArray| && !IsPrime(k) && MinDivisor(k) < next
        ensures !checkArray[k]
      {
        var s := MinDivisor(k);
        MinDivisorIsPrime(k);
        assert !(checkArray[s] && p < s);
      }
      p := next;
    }
    forall k: nat | 2 <= k < |checkArray| && !IsPrime(k)
      ensures !checkArray[k]
    {
      if p * p >= |checkArray| {
        MinDivisorSquare(k);
        if MinDivisor(k) >= p {
          SquareMonotone(p, MinDivisor(k));
        }
      }
    }
    table := checkArray;
  }
}
