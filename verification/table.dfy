/** The primality table shared by all six implementations: a boolean per index
    0..n, and the two ways its `true` indices are gathered into the result —
    Go's count-then-fill pass and TypeScript's `reduce`. */
module Table {
  import opened Primality

  /** The table holds the final verdict: entry k is true exactly when k is prime. */
  ghost predicate Tracks(t: seq<bool>) {
    forall k :: 0 <= k < |t| ==> t[k] == IsPrime(k)
  }

  /** The final table for indices 0..m-1. */
  ghost function PrimeFlags(m: nat): (t: seq<bool>)
    ensures |t| == m
  {
    seq(m, k => IsPrime(k))
  }

  lemma PrimeFlagsSnoc(i: nat)
    ensures PrimeFlags(i + 1) == PrimeFlags(i) + [IsPrime(i)]
  {
  }

  /** The indices whose entry is true, in index order. This is TypeScript's
      `reduce` (index.ts:89-94): a left fold from an empty accumulator that
      pushes index i when entry i is `true` and hands the accumulator on. */
  function TrueIndices(t: seq<bool>): (r: seq<nat>)
    ensures |r| <= |t|
  {
    if |t| == 0 then []
    else TrueIndices(t[..|t| - 1]) + (if t[|t| - 1] then [|t| - 1] else [])
  }

  /** The gathered indices are exactly the true entries. */
  lemma {:induction false} TrueIndicesMembers(t: seq<bool>)
    ensures forall x :: x in TrueIndices(t) <==> 0 <= x < |t| && t[x]
  {
    if |t| > 0 {
      TrueIndicesMembers(t[..|t| - 1]);
    }
  }

  /** The gathered indices are in strictly ascending order. */
  lemma {:induction false} TrueIndicesAscending(t: seq<bool>)
    ensures StrictlyAscending(TrueIndices(t))
  {
    if |t| > 0 {
      var init := TrueIndices(t[..|t| - 1]);
      TrueIndicesAscending(t[..|t| - 1]);
      TrueIndicesMembers(t[..|t| - 1]);
      assert forall i :: 0 <= i < |init| ==> init[i] in init;
    }
  }

  /** Extending the table by one entry appends at most that one index. */
  lemma TrueIndicesSnoc(t: seq<bool>, i: nat)
    requires i < |t|
    ensures TrueIndices(t[..i + 1]) == TrueIndices(t[..i]) + (if t[i] then [i] else [])
  {
    assert t[..i + 1][..i] == t[..i];
  }

  /** Appending one entry appends at most its index. */
  lemma TrueIndicesAppend(t: seq<bool>, b: bool)
    ensures TrueIndices(t + [b]) == TrueIndices(t) + (if b then [|t|] else [])
  {
    assert (t + [b])[..|t|] == t;
  }

  /** A prefix of the table has no more true indices than the whole table. */
  lemma {:induction false} TrueIndicesPrefixCount(t: seq<bool>, i: nat)
    requires i <= |t|
    ensures |TrueIndices(t[..i])| <= |TrueIndices(t)|
    decreases |t| - i
  {
    if i < |t| {
      TrueIndicesSnoc(t, i);
      TrueIndicesPrefixCount(t, i + 1);
    } else {
      assert t[..i] == t;
    }
  }

  /** A table that tracks primality yields exactly the primes up to its last index. */
  lemma TrackedTableGivesPrimes(t: seq<bool>)
    requires |t| >= 1 && Tracks(t)
    ensures TrueIndices(t) == PrimesUpTo(|t| - 1)
  {
    TrueIndicesMembers(t);
    TrueIndicesAscending(t);
    PrimesUpToUnique(TrueIndices(t), |t| - 1);
  }

  /** The counting pass (golang/main.go:164-168): the number of true entries. */
  method CountTrue(checkArray: seq<bool>) returns (countPrimeNum: nat)
    ensures countPrimeNum == |TrueIndices(checkArray)|
  {
    countPrimeNum := 0;
    var i := 0;
    while i < |checkArray|
      invariant 0 <= i <= |checkArray|
      invariant countPrimeNum == |TrueIndices(checkArray[..i])|
    {
      TrueIndicesSnoc(checkArray, i);
      if checkArray[i] {
        countPrimeNum := countPrimeNum + 1;
      }
      i := i + 1;
    }
    assert checkArray[..i] == checkArray;
  }

  /** The fill pass: allocate exactly `countPrimeNum` slots and write the true
      indices in order. Every write is in bounds and every slot is written. */
  method Collect(checkArray: seq<bool>, countPrimeNum: nat) returns (resultArray: seq<nat>)
    requires countPrimeNum == |TrueIndices(checkArray)|
    ensures resultArray == TrueIndices(checkArray)
  {
    var result := new nat[countPrimeNum];
    var i, j := 0, 0;
    while i < |checkArray|
      invariant 0 <= i <= |checkArray|
      invariant j == |TrueIndices(checkArray[..i])| <= countPrimeNum
      invariant result[..j] == TrueIndices(checkArray[..i])
    {
      TrueIndicesSnoc(checkArray, i);
      if checkArray[i] {
        TrueIndicesPrefixCount(checkArray, i + 1);
        ghost var before := result[..j];
        result[j] := i;
        assert result[..j + 1] == before + [i];
        j := j + 1;
      }
      i := i + 1;
    }
    assert checkArray[..i] == checkArray;
    assert j == countPrimeNum;
    assert result[..] == result[..j];
    resultArray := result[..];
  }
}
