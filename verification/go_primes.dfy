/** The Go implementation (golang/main.go): three functions from a bound to
    the primes up to it, each building a boolean table, counting its `true`
    entries, and filling a result slice of exactly that length. A bound of 0
    is rejected before any table is built. */
module GoPrimes {
  import opened Primality
  import opened Outcomes
  import opened Table
  import Sieve

  /** The naive test for one candidate i (golang/main.go:36-52): try every j
      in [2, i); i is prime when the trial divisor reaches i. */
  method TrialDivision(i: nat) returns (prime: bool)
    requires i >= 2
    ensures prime == IsPrime(i)
  {
    var j := 0;
    while j < i
      invariant j <= i
      invariant forall d :: 2 <= d < j ==> i % d != 0
    {
      if j != 0 && j != 1 && i % j == 0 {
        return false;
      }
      j := j + 1;
    }
    return true;
  }

  /** The square-root test for one candidate i (golang/main.go:94-113): the
      loop stops with "prime" once int(sqrt(i)) < j, which for whole numbers
      is i < j * j. For i = 2 and i = 3 no divisor is tried at all. */
  method TrialDivisionToRoot(i: nat) returns (prime: bool)
    requires i >= 2
    ensures prime == IsPrime(i)
  {
    var j := 0;
    while j * j <= i
      invariant j <= i
      invariant forall d :: 2 <= d < j ==> i % d != 0
      decreases i - j
    {
      if j != 0 && j != 1 && i % j == 0 {
        return false;
      }
      if j >= 2 {
        MulAtLeast(j, 2);
      }
      j := j + 1;
    }
    NoDivisorBelowRoot(i, j);
    return true;
  }

  /** One candidate i >= 2 under the chosen test. */
  method TestCandidate(i: nat, toRoot: bool) returns (prime: bool)
    requires i >= 2
    ensures prime == IsPrime(i)
  {
    if toRoot {
      prime := TrialDivisionToRoot(i);
    } else {
      prime := TrialDivision(i);
    }
  }

  /** The table-building and counting loop shared by both trial-division
      functions (golang/main.go:16-53 and 75-114): every index i >= 2 is
      tested, its entry cleared when it is composite and the prime count
      bumped when it is prime; indices 0 and 1 are skipped and stay false. */
  method TrialDivisionTable(n: nat, toRoot: bool) returns (checkArray: seq<bool>, countPrimeNum: nat)
    requires n >= 1
    ensures |checkArray| == n + 1 && Tracks(checkArray)
    ensures countPrimeNum == |TrueIndices(checkArray)|
  {
    var table := seq(n + 1, _ => true)[0 := false][1 := false];
    ghost var initial := table;
    countPrimeNum := 0;
    var i := 0;
    while i < |table|
      invariant |table| == n + 1 && 0 <= i <= |table|
      invariant table[..i] == PrimeFlags(i)
      invariant table[i..] == initial[i..]
      invariant countPrimeNum == |TrueIndices(table[..i])|
    {
      ghost var before := table;
      if i != 0 && i != 1 {
        var prime := TestCandidate(i, toRoot);
        if prime {
          countPrimeNum := countPrimeNum + 1;
        } else {
          table := table[i := false];
        }
      }
      TableStep(before, table, initial, i);
      i := i + 1;
    }
    assert table[..i] == table;
    checkArray := table;
  }

  /** One step of the table loop: entry i now holds its verdict, everything
      before it is final and everything after it untouched. */
  lemma TableStep(before: seq<bool>, after: seq<bool>, initial: seq<bool>, i: nat)
    requires |before| == |after| == |initial| && i < |before|
    requires forall k :: 0 <= k < |initial| ==> initial[k] == (k >= 2)
    requires before[..i] == PrimeFlags(i) && before[i..] == initial[i..]
    requires after == before || after == before[i := false]
    requires after[i] == IsPrime(i)
    ensures after[..i + 1] == PrimeFlags(i + 1)
    ensures after[i + 1..] == initial[i + 1..]
    ensures |TrueIndices(after[..i + 1])| == |TrueIndices(before[..i])| + (if IsPrime(i) then 1 else 0)
  {
    PrimeFlagsSnoc(i);
    assert after[..i] == before[..i];
    assert after[..i + 1] == before[..i] + [after[i]];
    TrueIndicesAppend(before[..i], after[i]);
    assert after[i + 1..] == before[i..][1..];
  }

  /** createPrimeNumberArray (golang/main.go:10-64): naive trial division. */
  method CreatePrimeNumberArray(naturalNumber: nat) returns (r: Result<seq<nat>>)
    ensures r.Failure? <==> naturalNumber == 0
    ensures r.Success? ==> StrictlyAscending(r.value)
    ensures r.Success? ==> forall k :: k in r.value <==> 2 <= k <= naturalNumber && IsPrime(k)
    ensures r.Success? ==> r.value == PrimesUpTo(naturalNumber)
  {
    if naturalNumber == 0 {
      return Failure(NotNaturalNumber);
    }
    var checkArray, countPrimeNum := TrialDivisionTable(naturalNumber, false);
    var resultArray := Collect(checkArray, countPrimeNum);
    TrackedTableGivesPrimes(checkArray);
    return Success(resultArray);
  }

  /** createPrimeNumberArray2 (golang/main.go:67-125): trial division up to
      the square root. */
  method CreatePrimeNumberArray2(naturalNumber: nat) returns (r: Result<seq<nat>>)
    ensures r.Failure? <==> naturalNumber == 0
    ensures r.Success? ==> StrictlyAscending(r.value)
    ensures r.Success? ==> forall k :: k in r.value <==> 2 <= k <= naturalNumber && IsPrime(k)
    ensures r.Success? ==> r.value == PrimesUpTo(naturalNumber)
  {
    if naturalNumber == 0 {
      return Failure(NotNaturalNumber);
    }
    var checkArray, countPrimeNum := TrialDivisionTable(naturalNumber, true);
    var resultArray := Collect(checkArray, countPrimeNum);
    TrackedTableGivesPrimes(checkArray);
    return Success(resultArray);
  }

  /** eratosthenePrimeNumberArray (golang/main.go:128-179): the sieve, then a
      separate counting pass and the fill pass. */
  method EratosthenePrimeNumberArray(naturalNumber: nat) returns (r: Result<seq<nat>>)
    ensures r.Failure? <==> naturalNumber == 0
    ensures r.Success? ==> StrictlyAscending(r.value)
    ensures r.Success? ==> forall k :: k in r.value <==> 2 <= k <= naturalNumber && IsPrime(k)
    ensures r.Success? ==> r.value == PrimesUpTo(naturalNumber)
  {
    if naturalNumber == 0 {
      return Failure(NotNaturalNumber);
    }
    var checkArray := Sieve.SieveTable(naturalNumber);
    var countPrimeNum := CountTrue(checkArray);
    var resultArray := Collect(checkArray, countPrimeNum);
    TrackedTableGivesPrimes(checkArray);
    return Success(resultArray);
  }
}
