# Primes up to a bound, in Go and TypeScript

This project models the prime-listing core of a small repository that writes
one idea twice: in Go (`golang/main.go`) and in TypeScript (`index.ts`). Each
file has three functions that take a bound n and return the primes in [2, n]
in ascending order:

- `createPrimeNumberArray`: naive trial division. A candidate i >= 2 is prime
  when no j in [2, i) divides it.
- `createPrimeNumberArray2`: the same test, but a divisor j is tried only
  while j <= floor(sqrt(i)).
- `eratosthenePrimeNumberArray`: the Sieve of Eratosthenes. The table starts
  `true` from index 2 on. For each p with p * p <= n, the multiples p*p,
  p*p + p, ... are cleared. Then p moves to the first `true` index beyond it.

A bound of 0 is rejected. Go returns an error value with a nil slice. The
TypeScript functions reject any bound below 1 and return `undefined`.

Modules:

- `Primality` (primality.dfy) holds the reference. `IsPrime` is the textbook
  predicate and `PrimesUpTo` is the ascending list of primes. It also has the
  number theory the algorithms rely on: least divisors, the square-root
  cutoff, and the fact that a strictly ascending list is determined by its
  elements.
- `Outcomes` (outcomes.dfy) holds Go's `(slice, error)` pair as `Result` and
  TypeScript's `T | undefined` as `Option`.
- `Table` (table.dfy) holds the primality table and the two ways its `true`
  indices are gathered. `TrueIndices` is TypeScript's `reduce`. `CountTrue`
  and `Collect` are Go's counting pass and fill pass.
- `Sieve` (sieve.dfy) holds the marking phase that both sieves share, and the
  "next candidate" scan.
- `GoPrimes` (go_primes.dfy) and `TsPrimes` (ts_primes.dfy) hold the six
  functions.
- `Demo` (demo.dfy) works out the demonstration bounds 10 and 100.

Every one of the six functions is proved to return `PrimesUpTo(n)` for every
accepted bound, so they all return the same list.

The source's floating-point `math.Sqrt`, `math.Pow` and `Math.sqrt` are
modelled as exact integer comparisons. `int(sqrt(i)) < j` becomes
`i < j * j`, and `p^2 < len` becomes `p * p < n + 1`. The primality tables
are value sequences that the model replaces entry by entry. Go's result
slice is an array of exactly `countPrimeNum` slots, filled by index.

## Model

| member | source | states |
|---|---|---|
| Primality.PrimesUpTo | golang/main.go:9 | the reference result: strictly ascending, and k is in it exactly when 2 <= k <= n and k is prime |
| Primality.CompositeHasSmallDivisor | golang/main.go:94-103 | a composite i has a divisor d >= 2 with d * d <= i, which is why trial division may stop at the square root |
| Primality.NoDivisorBelowRoot | golang/main.go:97-103 | if no d in [2, j) divides i and i < j * j, then i is prime |
| Primality.MinDivisorSquare | golang/main.go:150-151 | a composite is at least the square of its least divisor, so marking from p * p misses no composite |
| Primality.MinDivisorIsPrime | golang/main.go:155-161 | the least divisor of a number is prime, so the first uncleared index beyond p is never a composite the sieve still owes |
| Primality.AscendingUnique | golang/main.go:183-208 | two strictly ascending lists with the same elements are equal, which is why the three variants agree |
| Primality.PrimesUpToUnique | golang/main.go:183-208 | any strictly ascending list holding exactly the primes in [2, n] is the reference list |
| Table.TrueIndices | index.ts:89-94 | the `reduce` fold (and the result of Go's fill loop, golang/main.go:172-177); its contract bounds the result by the table length, and the two lemmas below give its members and order |
| Table.TrueIndicesMembers | index.ts:89-94 | `reduce` collects index i exactly when entry i is true |
| Table.TrueIndicesAscending | index.ts:89-94 | the collected indices come out strictly ascending |
| Table.CountTrue | golang/main.go:163-168 | the counting pass returns the number of true entries |
| Table.Collect | golang/main.go:169-177 | given that count, the fill pass writes every slot exactly once, in bounds, and yields the true indices in order |
| Table.TrackedTableGivesPrimes | golang/main.go:55-62 | a table whose entry k is true exactly for prime k yields the reference list |
| Sieve.FindIndex | index.ts:83 | the scan returns the first index i with `list[i] && p < i`, or -1 when there is none |
| Sieve.ClearMultiples | golang/main.go:149-153 | exactly the entries p*p, p*p + p, ... are cleared and every other entry keeps its value; hence every prime stays true and every composite whose least divisor is at most p is cleared |
| Sieve.SieveTable | golang/main.go:134-162 | after the outer loop, entry k is true exactly when k is prime; the loop always terminates |
| GoPrimes.TrialDivision | golang/main.go:36-52 | the naive inner loop answers "prime" exactly when i is prime |
| GoPrimes.TrialDivisionToRoot | golang/main.go:94-113 | the square-root inner loop answers "prime" exactly when i is prime, including i = 2 and i = 3 where no divisor is tried |
| GoPrimes.TrialDivisionTable | golang/main.go:16-53 | the marking loop leaves entry i true exactly when i is prime, entries 0 and 1 false, and the count equal to the number of true entries |
| GoPrimes.CreatePrimeNumberArray | golang/main.go:10-64 | bound 0 gives the error; any other bound gives exactly the primes in [2, n], strictly ascending |
| GoPrimes.CreatePrimeNumberArray2 | golang/main.go:67-125 | the same result as the naive version for every bound |
| GoPrimes.EratosthenePrimeNumberArray | golang/main.go:128-179 | the same result as the trial-division versions for every bound |
| TsPrimes.Any | index.ts:16-24 | `some` is true exactly when some element passes the test |
| TsPrimes.Filter | index.ts:10 | `filter` over the key list (also index.ts:42); its contract bounds the result by the input length, and the two lemmas below give its members and order |
| TsPrimes.FilterMembers | index.ts:10 | `filter` keeps exactly the elements that pass |
| TsPrimes.FilterAscending | index.ts:42 | `filter` keeps the original order, so the ascending key list stays ascending |
| TsPrimes.NaiveKeepIsPrime | index.ts:10-27 | the naive callback `NaiveKeep`, run over the key list `Keys(n + 1)` (`[...Array(n + 1).keys()]`), keeps a key in [0, n] exactly when it is prime |
| TsPrimes.RootKeepIsPrime | index.ts:42-61 | the square-root callback `RootKeep`, run over the key list `Keys(n + 1)`, keeps a key in [0, n] exactly when it is prime |
| TsPrimes.FilterKeysGivesPrimes | index.ts:10 | filtering 0..n with a callback that decides primality yields the reference list |
| TsPrimes.CreatePrimeNumberArray | index.ts:2-29 | a bound below 1 gives `undefined`; any other bound gives exactly the primes in [2, n], strictly ascending |
| TsPrimes.CreatePrimeNumberArray2 | index.ts:33-63 | the same result as the naive filter for every bound |
| TsPrimes.EratosthenePrimeNumberArray | index.ts:67-96 | the same result as the filters for every bound |
| Demo.DemoBoundTen | index.ts:98-105 | for bound 10 the result is [2, 3, 5, 7] |
| Demo.DemoBoundHundred | index.ts:107-114 | for bound 100 the result is the 25 primes below 100 |

## Left out

- Sieve.SieveTable: neither source handles a scan that finds no `true` index beyond p. Go then keeps p and loops forever (golang/main.go:156-161). TypeScript continues with p = -1 (index.ts:83); `Math.pow(-1, 2)` is 1, below the list length, so the inner loop starts at q = 1 and steps by -1 forever (index.ts:84), and TypeScript never terminates either. The model leaves the loop in that case and proves the table correct on that path as well. Showing that the case never arises would need a prime in (p, p * p], a Bertrand-type fact that is not proved here.
- `main` in golang/main.go and the top-level demo calls and `console.log`/`console.error` in index.ts: they only print. `Demo` states the demonstrated values instead.
- Floating point: `math.Sqrt`, `math.Pow`, `Math.sqrt` and the float loop counter of the Go sieve are exact integer comparisons here. Rounding is not modelled.
- The auxiliary `countArray` of the Go functions only supplies index values, so the model iterates over indices directly. Go's inner trial-division loops run j over `range countArray`, that is 0..n. The naive loop stops at `i <= j`; the model stops at j = i, which is the same since i <= n. The square-root loop (golang/main.go:96-103) stops once `int(root) < j`, at j = floor(sqrt(i)) + 1 <= i <= n, so the range bound is never reached there either and the model drops it.
- Go's `uint64` bound and `uint` results are unbounded naturals here. The wrap-around of `naturalNumber+1` at the largest `uint64` is not modelled.
- TypeScript's `Number.isInteger` check: the bound is a Dafny `int`, so non-integer bounds cannot be expressed. The `n < 1` rejection is modelled. It also rejects negative bounds, which the Go functions cannot receive.
- Memory and running time for huge bounds, and the failures they cause: TypeScript's `Array(naturalNumber + 1)` and `new Array(len)` throw a RangeError once n + 1 exceeds 2^32 - 1 (index.ts:10, 42, 78), and Go's `make` panics when the length exceeds the platform's limit (golang/main.go:16, 75, 134). The model's sequences have no size limit. This also covers the commented-out 2147483647 demo (index.ts:116-119).
- Table.TrueIndices: its own contract states only the length bound. Its members and order are stated by Table.TrueIndicesMembers and Table.TrueIndicesAscending, because those quantified facts on the function itself make the table loops too expensive to verify.
- TsPrimes.Filter: its own contract states only the length bound. Its members and order are stated by TsPrimes.FilterMembers and TsPrimes.FilterAscending, which the callers invoke only where those facts are needed.
