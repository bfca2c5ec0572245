/**
 Facts about Euclidean division by a positive batch size, used to relate the
 loader's batch counts to the samples a pass consumes.
 */
module Arith {

  lemma MulMono(a: int, b: int, d: int)
    requires a <= b && d > 0
    ensures a * d <= b * d
  {
    assert b * d - a * d == (b - a) * d;
  }

  /** `n / d` is the floor of the quotient. */
  lemma FloorBounds(n: int, d: int)
    requires d > 0
    ensures (n / d) * d <= n < (n / d + 1) * d
  {
    var q, r := n / d, n % d;
    assert n == d * q + r;
    assert (q + 1) * d == q * d + d;
    assert q * d == d * q;
  }

  /** The floor is the only integer with that property. */
  lemma FloorUnique(x: int, d: int, q: int)
    requires d > 0 && q * d <= x < (q + 1) * d
    ensures x / d == q
  {
    var q' := x / d;
    FloorBounds(x, d);
    if q' < q {
      MulMono(q' + 1, q, d);
    } else if q' > q {
      MulMono(q + 1, q', d);
    }
  }

  /** `(n + d - 1) / d` is the ceiling of the quotient. */
  lemma CeilBounds(n: int, d: int)
    requires d > 0
    ensures ((n + d - 1) / d - 1) * d < n <= ((n + d - 1) / d) * d
  {
    var c := (n + d - 1) / d;
    FloorBounds(n + d - 1, d);
    assert (c - 1) * d == c * d - d;
  }

  /** The 1-based number of the batch that position `x` falls in. */
  lemma BatchNumber(x: int, d: int, cur: int)
    requires d > 0 && cur == x / d + 1
    ensures (cur - 1) * d <= x < cur * d
  {
    FloorBounds(x, d);
  }

  /** Taking one full batch off leaves one batch fewer. */
  lemma FloorStep(n: int, d: int)
    requires 0 < d <= n
    ensures (n - d) / d == n / d - 1
  {
    FloorBounds(n, d);
    var q := n / d;
    assert (q - 1) * d == q * d - d;
    FloorUnique(n - d, d, q - 1);
  }

  lemma FloorZero(n: int, d: int)
    requires 0 <= n < d
    ensures n / d == 0
  {
    FloorUnique(n, d, 0);
  }

  /** `m` batches of `d` then the remaining ones: `(m * d + d) == (m + 1) * d`. */
  lemma MulSucc(m: int, d: int)
    ensures m * d + d == (m + 1) * d
  {
  }

  /** `k` rounds of `p` each, added up one round at a time. */
  function Times(k: nat, p: nat): nat {
    if k == 0 then 0 else Times(k - 1, p) + p
  }

  lemma {:induction false} TimesIsProduct(k: nat, p: nat)
    ensures Times(k, p) == k * p
  {
    if k > 0 {
      TimesIsProduct(k - 1, p);
      MulSucc(k - 1, p);
    }
  }

  /** Number of full batches of `d` in `x` items, counted one batch at a time. */
  function FullBatches(x: nat, d: nat): nat
    requires d > 0
    decreases x
  {
    if x < d then 0 else 1 + FullBatches(x - d, d)
  }

  /** Number of items in those full batches. */
  function FullPart(x: nat, d: nat): (p: nat)
    requires d > 0
    ensures p <= x
    decreases x
  {
    if x < d then 0 else d + FullPart(x - d, d)
  }

  lemma {:induction false} FullPartIsProduct(x: nat, d: nat)
    requires d > 0
    ensures FullPart(x, d) == (x / d) * d
    decreases x
  {
    FloorBounds(x, d);
    if x < d {
      FloorZero(x, d);
    } else {
      FullPartIsProduct(x - d, d);
      FloorStep(x, d);
      MulSucc(x / d - 1, d);
    }
  }

  /** Number of batches of at most `d` covering `x` items. */
  function AllBatches(x: nat, d: nat): nat
    requires d > 0
    decreases x
  {
    if x == 0 then 0 else if x <= d then 1 else 1 + AllBatches(x - d, d)
  }

  /** Size of the last of those batches. */
  function LastBatch(x: nat, d: nat): nat
    requires d > 0
    decreases x
  {
    if x <= d then x else LastBatch(x - d, d)
  }

  /** Counting full batches one at a time is floor division. */
  lemma {:induction false} FullBatchesIsFloor(x: nat, d: nat)
    requires d > 0
    ensures FullBatches(x, d) == x / d
    decreases x
  {
    if x < d {
      FloorZero(x, d);
    } else {
      FullBatchesIsFloor(x - d, d);
      FloorStep(x, d);
    }
  }

  /** Counting all batches one at a time is ceiling division, and the last
      batch holds what the full ones before it leave. */
  lemma {:induction false} AllBatchesIsCeil(x: nat, d: nat)
    requires d > 0
    ensures AllBatches(x, d) == (x + d - 1) / d
    ensures x > 0 ==> LastBatch(x, d) == x - d * (AllBatches(x, d) - 1)
    decreases x
  {
    if x == 0 {
      FloorZero(d - 1, d);
    } else if x <= d {
      FloorUnique(x + d - 1, d, 1);
    } else {
      AllBatchesIsCeil(x - d, d);
      FloorStep(x + d - 1, d);
      var k := AllBatches(x - d, d);
      assert d * k == d * (k - 1) + d;
    }
  }
}
