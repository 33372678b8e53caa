/** The demonstration bounds of index.ts:98-114 (10 and 100), worked out.
    IsPrime quantifies over all divisors, so it is not evaluated directly; a
    square-root-bounded divisor search (`NoDivisorFrom`) computes the same
    answer and is proved equal to it first. */
module Demo {
  import opened Primality
  import opened Outcomes
  import TsPrimes

  /** No e with lo <= e and e * e <= k divides k. */
  function NoDivisorFrom(k: nat, lo: nat): bool
    requires lo >= 2
    decreases k - lo
  {
    lo >= k || k < lo * lo || (k % lo != 0 && NoDivisorFrom(k, lo + 1))
  }

  lemma {:induction false} NoDivisorFromSpec(k: nat, lo: nat)
    requires lo >= 2
    ensures NoDivisorFrom(k, lo) <==> forall e :: lo <= e && e * e <= k ==> k % e != 0
    decreases k - lo
  {
    if lo >= k || k < lo * lo {
      forall e | lo <= e && e * e <= k
        ensures false
      {
        MulAtLeast(e, 2);
        SquareMonotone(lo, e);
      }
    } else {
      NoDivisorFromSpec(k, lo + 1);
    }
  }

  /** The bounded search decides primality. */
  lemma NoDivisorFromDecidesPrime(k: nat)
    requires k >= 2
    ensures NoDivisorFrom(k, 2) <==> IsPrime(k)
  {
    NoDivisorFromSpec(k, 2);
    if IsPrime(k) {
      forall e | 2 <= e && e * e <= k
        ensures k % e != 0
      {
        assert e < k;
      }
    } else {
      CompositeHasSmallDivisor(k);
    }
  }

  /** The primes up to n, computed with the bounded search. */
  function PrimesUpToComputed(n: int): seq<nat>
    decreases n
  {
    if n < 2 then []
    else PrimesUpToComputed(n - 1) + (if NoDivisorFrom(n, 2) then [n] else [])
  }

  lemma {:induction false} ComputedIsReference(n: int)
    ensures PrimesUpToComputed(n) == PrimesUpTo(n)
    decreases n
  {
    if n >= 2 {
      ComputedIsReference(n - 1);
      NoDivisorFromDecidesPrime(n);
    }
  }

  lemma ComputedUpTo10()
    ensures PrimesUpToComputed(10) == [2, 3, 5, 7]
  {
    assert NoDivisorFrom(2, 2);
    assert NoDivisorFrom(3, 2);
    assert !NoDivisorFrom(4, 2);
    assert NoDivisorFrom(5, 2);
    assert !NoDivisorFrom(6, 2);
    assert NoDivisorFrom(7, 2);
    assert !NoDivisorFrom(8, 2);
    assert !NoDivisorFrom(9, 2);
  }

  lemma ComputedUpTo20()
    ensures PrimesUpToComputed(20) == [2, 3, 5, 7, 11, 13, 17, 19]
  {
    ComputedUpTo10();
    assert NoDivisorFrom(11, 2);
    assert !NoDivisorFrom(12, 2);
    assert NoDivisorFrom(13, 2);
    assert !NoDivisorFrom(14, 2);
    assert !NoDivisorFrom(15, 2);
    assert !NoDivisorFrom(16, 2);
    assert NoDivisorFrom(17, 2);
    assert !NoDivisorFrom(18, 2);
    assert NoDivisorFrom(19, 2);
  }

  lemma ComputedUpTo30()
    ensures PrimesUpToComputed(30) == [2, 3, 5, 7, 11, 13, 17, 19, 23, 29]
  {
    ComputedUpTo20();
    assert !NoDivisorFrom(21, 2);
    assert !NoDivisorFrom(22, 2);
    assert NoDivisorFrom(23, 2);
    assert !NoDivisorFrom(24, 2);
    assert !NoDivisorFrom(25, 2);
    assert !NoDivisorFrom(26, 2);
    assert !NoDivisorFrom(27, 2);
    assert !NoDivisorFrom(28, 2);
    assert NoDivisorFrom(29, 2);
  }

  lemma ComputedUpTo40()
    ensures PrimesUpToComputed(40) == [2, 3, 5, 7, 11, 13, 17, 19, 23, 29, 31, 37]
  {
    ComputedUpTo30();
    assert NoDivisorFrom(31, 2);
    assert !NoDivisorFrom(32, 2);
    assert !NoDivisorFrom(33, 2);
    assert !NoDivisorFrom(34, 2);
    assert !NoDivisorFrom(35, 2);
    assert !NoDivisorFrom(36, 2);
    assert NoDivisorFrom(37, 2);
    assert !NoDivisorFrom(38, 2);
    assert !NoDivisorFrom(39, 2);
  }

  lemma ComputedUpTo50()
    ensures PrimesUpToComputed(50) == [2, 3, 5, 7, 11, 13, 17, 19, 23, 29, 31, 37, 41, 43, 47]
  {
    ComputedUpTo40();
    assert NoDivisorFrom(41, 2);
    assert !NoDivisorFrom(42, 2);
    assert NoDivisorFrom(43, 2);
    assert !NoDivisorFrom(44, 2);
    assert !NoDivisorFrom(45, 2);
    assert !NoDivisorFrom(46, 2);
    assert NoDivisorFrom(47, 2);
    assert !NoDivisorFrom(48, 2);
    assert !NoDivisorFrom(49, 2);
  }

  lemma ComputedUpTo60()
    ensures PrimesUpToComputed(60) == [2, 3, 5, 7, 11, 13, 17, 19, 23, 29, 31, 37, 41, 43, 47, 53, 59]
  {
    ComputedUpTo50();
    assert !NoDivisorFrom(51, 2);
    assert !NoDivisorFrom(52, 2);
    assert NoDivisorFrom(53, 2);
    assert !NoDivisorFrom(54, 2);
    assert !NoDivisorFrom(55, 2);
    assert !NoDivisorFrom(56, 2);
    assert !NoDivisorFrom(57, 2);
    assert !NoDivisorFrom(58, 2);
    assert NoDivisorFrom(59, 2);
  }

  lemma ComputedUpTo70()
    ensures PrimesUpToComputed(70) == [2, 3, 5, 7, 11, 13, 17, 19, 23, 29, 31, 37, 41, 43, 47, 53, 59, 61, 67]
  {
    ComputedUpTo60();
    assert NoDivisorFrom(61, 2);
    assert !NoDivisorFrom(62, 2);
    assert !NoDivisorFrom(63, 2);
    assert !NoDivisorFrom(64, 2);
    assert !NoDivisorFrom(65, 2);
    assert !NoDivisorFrom(66, 2);
    assert NoDivisorFrom(67, 2);
    assert !NoDivisorFrom(68, 2);
    assert !NoDivisorFrom(69, 2);
  }

  lemma ComputedUpTo80()
    ensures PrimesUpToComputed(80) == [2, 3, 5, 7, 11, 13, 17, 19, 23, 29, 31, 37, 41, 43, 47, 53, 59, 61, 67, 71, 73, 79]
  {
    ComputedUpTo70();
    assert NoDivisorFrom(71, 2);
    assert !NoDivisorFrom(72, 2);
    assert NoDivisorFrom(73, 2);
    assert !NoDivisorFrom(74, 2);
    assert !NoDivisorFrom(75, 2);
    assert !NoDivisorFrom(76, 2);
    assert !NoDivisorFrom(77, 2);
    assert !NoDivisorFrom(78, 2);
    assert NoDivisorFrom(79, 2);
  }

  lemma ComputedUpTo90()
    ensures PrimesUpToComputed(90) == [2, 3, 5, 7, 11, 13, 17, 19, 23, 29, 31, 37, 41, 43, 47, 53, 59, 61, 67, 71, 73, 79, 83, 89]
  {
    ComputedUpTo80();
    assert !NoDivisorFrom(81, 2);
    assert !NoDivisorFrom(82, 2);
    assert NoDivisorFrom(83, 2);
    assert !NoDivisorFrom(84, 2);
    assert !NoDivisorFrom(85, 2);
    assert !NoDivisorFrom(86, 2);
    assert !NoDivisorFrom(87, 2);
    assert !NoDivisorFrom(88, 2);
    assert NoDivisorFrom(89, 2);
  }

  lemma ComputedUpTo100()
    ensures PrimesUpToComputed(100) == [2, 3, 5, 7, 11, 13, 17, 19, 23, 29, 31, 37, 41, 43, 47, 53, 59, 61, 67, 71, 73, 79, 83, 89, 97]
  {
    ComputedUpTo90();
    assert !NoDivisorFrom(91, 2);
    assert !NoDivisorFrom(92, 2);
    assert !NoDivisorFrom(93, 2);
    assert !NoDivisorFrom(94, 2);
    assert !NoDivisorFrom(95, 2);
    assert !NoDivisorFrom(96, 2);
    assert NoDivisorFrom(97, 2);
    assert !NoDivisorFrom(98, 2);
    assert !NoDivisorFrom(99, 2);
  }

  /** Bound 10 (index.ts:98-101): both filter versions give [2, 3, 5, 7],
      the list every implementation's contract names. */
  lemma DemoBoundTen()
    ensures PrimesUpTo(10) == [2, 3, 5, 7]
    ensures TsPrimes.CreatePrimeNumberArray(10) == Some([2, 3, 5, 7])
    ensures TsPrimes.CreatePrimeNumberArray2(10) == Some([2, 3, 5, 7])
  {
    ComputedUpTo10();
    ComputedIsReference(10);
  }

  /** Bound 100 (index.ts:107-110): the 25 primes below 100. */
  lemma DemoBoundHundred()
    ensures PrimesUpTo(100) == [2, 3, 5, 7, 11, 13, 17, 19, 23, 29, 31, 37, 41, 43, 47, 53, 59, 61, 67, 71, 73, 79, 83, 89, 97]
    ensures TsPrimes.CreatePrimeNumberArray(100) == Some(PrimesUpTo(100))
    ensures TsPrimes.CreatePrimeNumberArray2(100) == Some(PrimesUpTo(100))
  {
    ComputedUpTo100();
    ComputedIsReference(100);
  }
}
