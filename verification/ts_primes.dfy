/** The TypeScript implementation (index.ts): the two trial-division versions
    are a `filter` over the keys 0..n whose callback asks `some` over the same
    keys for a divisor; the sieve marks a boolean list and gathers its true
    indices with `reduce`. A bound below 1 gives `undefined`. */
module TsPrimes {
  import opened Primality
  import opened Outcomes
  import opened Table
  import Sieve

  /** `[...Array(len).keys()]`: the list 0, 1, ..., len - 1. */
  function Keys(len: nat): seq<nat> {
    seq(len, i => i)
  }

  /** `Array.prototype.filter`: the elements passing `keep`, in their original order. */
  function Filter(s: seq<nat>, keep: nat -> bool): (r: seq<nat>)
    ensures |r| <= |s|
  {
    if |s| == 0 then []
    else (if keep(s[0]) then [s[0]] else []) + Filter(s[1..], keep)
  }

  /** `Array.prototype.some`: whether any element passes `test`. */
  function Any(s: seq<nat>, test: nat -> bool): (b: bool)
    ensures b <==> exists i :: 0 <= i < |s| && test(s[i])
  {
    if |s| == 0 then false
    else test(s[0]) || Any(s[1..], test)
  }

  /** The `filter` callback of createPrimeNumberArray (index.ts:10-27):
      reject 0 and 1, then reject `value` when some `value2` in the key list
      that is not 0, not 1 and below `value` divides it. */
  predicate NaiveKeep(keys: seq<nat>, value: nat) {
    if value == 0 || value == 1 then false
    else
      var judge := Any(keys, value2 =>
        if value2 == 0 || value2 == 1 || value <= value2 then false
        else value % value2 == 0);
      !judge
  }

  /** The `filter` callback of createPrimeNumberArray2 (index.ts:42-61): as
      above, but a `value2` beyond the square root is skipped. The floating
      test `Math.sqrt(value) < value2` is taken exactly, as `value < value2 * value2`. */
  predicate RootKeep(keys: seq<nat>, value: nat) {
    if value == 0 || value == 1 then false
    else
      var judge := Any(keys, value2 =>
        if value2 == 0 || value2 == 1 || value < value2 * value2 then false
        else value % value2 == 0);
      !judge
  }

  /** Filtering keeps exactly the elements that pass. */
  lemma {:induction false} FilterMembers(s: seq<nat>, keep: nat -> bool)
    ensures forall x :: x in Filter(s, keep) <==> x in s && keep(x)
  {
    if |s| > 0 {
      FilterMembers(s[1..], keep);
      assert forall x :: x in s <==> x == s[0] || x in s[1..];
    }
  }

  /** Filtering keeps the original order: an ascending list stays ascending. */
  lemma {:induction false} FilterAscending(s: seq<nat>, keep: nat -> bool)
    requires StrictlyAscending(s)
    ensures StrictlyAscending(Filter(s, keep))
  {
    if |s| > 0 {
      FilterAscending(s[1..], keep);
      FilterMembers(s[1..], keep);
      var rest := Filter(s[1..], keep);
      forall i | 0 <= i < |rest|
        ensures s[0] < rest[i]
      {
        assert rest[i] in rest;
        var j :| 0 <= j < |s[1..]| && s[1..][j] == rest[i];
        assert s[j + 1] == rest[i];
      }
    }
  }

  /** Filtering the keys 0..n with a test that agrees with IsPrime on them
      yields the reference list of primes. */
  lemma FilterKeysGivesPrimes(n: nat, keep: nat -> bool)
    requires forall v :: 0 <= v <= n ==> (keep(v) <==> IsPrime(v))
    ensures Filter(Keys(n + 1), keep) == PrimesUpTo(n)
  {
    var keys := Keys(n + 1);
    assert StrictlyAscending(keys);
    FilterMembers(keys, keep);
    FilterAscending(keys, keep);
    forall x
      ensures x in keys <==> 0 <= x <= n
    {
      if 0 <= x <= n {
        assert keys[x] == x;
      }
    }
    PrimesUpToUnique(Filter(keys, keep), n);
  }

  /** The naive callback keeps a key exactly when it is prime. */
  lemma NaiveKeepIsPrime(n: nat)
    ensures forall v :: 0 <= v <= n ==> (NaiveKeep(Keys(n + 1), v) <==> IsPrime(v))
  {
    var keys := Keys(n + 1);
    forall v | 0 <= v <= n && v >= 2
      ensures NaiveKeep(keys, v) <==> IsPrime(v)
    {
      if !IsPrime(v) {
        var d :| 2 <= d < v && v % d == 0;
        assert keys[d] == d;
      }
    }
  }

  /** The square-root callback keeps a key exactly when it is prime: every
      composite has a divisor whose square is at most the key. */
  lemma RootKeepIsPrime(n: nat)
    ensures forall v :: 0 <= v <= n ==> (RootKeep(Keys(n + 1), v) <==> IsPrime(v))
  {
    var keys := Keys(n + 1);
    forall v | 0 <= v <= n && v >= 2
      ensures RootKeep(keys, v) <==> IsPrime(v)
    {
      if !IsPrime(v) {
        CompositeHasSmallDivisor(v);
        var d :| 2 <= d && d * d <= v && v % d == 0;
        MulAtLeast(d, d);
        assert keys[d] == d;
      } else {
        forall i | 0 <= i < |keys| && 2 <= keys[i] && keys[i] * keys[i] <= v
          ensures v % keys[i] != 0
        {
          MulAtLeast(keys[i], keys[i]);
          if keys[i] == v {
            MulAtLeast(v, 2);
          }
        }
      }
    }
  }

  /** createPrimeNumberArray (index.ts:2-29). */
  function CreatePrimeNumberArray(naturalNumber: int): (r: Option<seq<nat>>)
    ensures r.None? <==> naturalNumber < 1
    ensures r.Some? ==> StrictlyAscending(r.value)
    ensures r.Some? ==> forall k :: k in r.value <==> 2 <= k <= naturalNumber && IsPrime(k)
    ensures r.Some? ==> r.value == PrimesUpTo(naturalNumber)
  {
    if naturalNumber < 1 then None
    else
      var keys := Keys(naturalNumber + 1);
      var keep := (value: nat) => NaiveKeep(keys, value);
      NaiveKeepIsPrime(naturalNumber);
      FilterKeysGivesPrimes(naturalNumber, keep);
      Some(Filter(keys, keep))
  }

  /** createPrimeNumberArray2 (index.ts:33-63). */
  function CreatePrimeNumberArray2(naturalNumber: int): (r: Option<seq<nat>>)
    ensures r.None? <==> naturalNumber < 1
    ensures r.Some? ==> StrictlyAscending(r.value)
    ensures r.Some? ==> forall k :: k in r.value <==> 2 <= k <= naturalNumber && IsPrime(k)
    ensures r.Some? ==> r.value == PrimesUpTo(naturalNumber)
  {
    if naturalNumber < 1 then None
    else
      var keys := Keys(naturalNumber + 1);
      var keep := (value: nat) => RootKeep(keys, value);
      RootKeepIsPrime(naturalNumber);
      FilterKeysGivesPrimes(naturalNumber, keep);
      Some(Filter(keys, keep))
  }

  /** eratosthenePrimeNumberArray (index.ts:67-96): the shared sieve table,
      then `reduce` gathers the true indices. */
  method EratosthenePrimeNumberArray(naturalNumber: int) returns (r: Option<seq<nat>>)
    ensures r.None? <==> naturalNumber < 1
    ensures r.Some? ==> StrictlyAscending(r.value)
    ensures r.Some? ==> forall k :: k in r.value <==> 2 <= k <= naturalNumber && IsPrime(k)
    ensures r.Some? ==> r.value == PrimesUpTo(naturalNumber)
  {
    if naturalNumber < 1 {
      return None;
    }
    var list := Sieve.SieveTable(naturalNumber);
    var resultArray := TrueIndices(list);
    TrackedTableGivesPrimes(list);
    return Some(resultArray);
  }
}
