// The offset arithmetic of src/ImageSharp/Memory/CompressedBuffer.cs: how
// many partitions a buffer has, where each starts, how long it is, and which
// bytes of the compressed store hold it.

module Partitioning {
  import opened Wrappers
  import opened Common

  /**
   * The constructor's partitionCount: totalLength / preferredPartitionLength,
   * one more when there is a remainder, and 0 for an empty buffer. A preferred
   * length of 0 with elements to store divides by zero.
   */
  function PartitionCount(n: nat, p: nat): (r: Result<nat, Error>)
    ensures r.Failure? <==> n > 0 && p == 0
    ensures r.Failure? ==> r.error == DivideByZero
    ensures n == 0 ==> r == Success(0)
    ensures r.Success? && n > 0 ==> r.value * p >= n && (r.value - 1) * p < n
  {
    if n == 0 then Success(0)
    else if p == 0 then Failure(DivideByZero)
    else
      var q, rem := n / p, n % p;
      assert n == q * p + rem;
      var count := q + (if rem > 0 then 1 else 0);
      assert count * p >= n && (count - 1) * p < n by {
        if rem > 0 {
          assert count * p == q * p + p;
        } else {
          assert (count - 1) * p == q * p - p;
        }
      }
      Success(count)
  }

  /**
   * The partition count of a buffer that can be constructed: one partition
   * per started run of p elements. CountMatchesConstructor shows it is the
   * value the constructor computes.
   */
  function Count(n: nat, p: nat): nat
    requires n == 0 || p > 0
    decreases n
  {
    if n == 0 then 0 else if n <= p then 1 else 1 + Count(n - p, p)
  }

  /** Taking p away from n takes one from the quotient and leaves the remainder. */
  lemma DivShift(n: nat, p: nat)
    requires 0 < p < n
    ensures n / p == (n - p) / p + 1 && n % p == (n - p) % p
  {
    var q, r := (n - p) / p, (n - p) % p;
    assert n - p == q * p + r;
    assert (q + 1) * p == q * p + p;
    DivModUnique(n, p, q + 1, r);
  }

  lemma {:induction false} CountMatchesConstructor(n: nat, p: nat)
    requires n == 0 || p > 0
    ensures PartitionCount(n, p) == Success(Count(n, p))
    decreases n
  {
    if n > 0 {
      if n < p {
        DivModUnique(n, p, 0, n);
      } else if n == p {
        DivModUnique(n, p, 1, 0);
      } else {
        CountMatchesConstructor(n - p, p);
        DivShift(n, p);
      }
    }
  }

  /** The length of the partition at position k * p: min(p, n - k * p). */
  function PartitionLength(n: nat, p: nat, k: nat): (len: nat)
    requires p > 0 && Mul(k, p) < n
    ensures 0 < len <= p && Mul(k, p) + len <= n
  {
    Min(p, n - Mul(k, p))
  }

  /** Partition k exists exactly when its position k * p lies before n. */
  lemma {:induction false} PositionInRange(n: nat, p: nat, k: nat)
    requires n == 0 || p > 0
    ensures Mul(k, p) < n <==> k < Count(n, p)
    decreases n
  {
    if n > p && k > 0 {
      PositionInRange(n - p, p, k - 1);
    }
  }

  /** Every partition but the last is full; the last ends exactly at n. */
  lemma PartitionShape(n: nat, p: nat, k: nat)
    requires p > 0 && k < Count(n, p)
    ensures Mul(k, p) < n
    ensures k + 1 < Count(n, p) ==> PartitionLength(n, p, k) == p
    ensures k + 1 == Count(n, p) ==> Mul(k, p) + PartitionLength(n, p, k) == n
  {
    PositionInRange(n, p, k);
    PositionInRange(n, p, k + 1);
  }

  /** Every element index i < n lies in exactly one partition: number i / p. */
  lemma ElementCovered(n: nat, p: nat, i: nat)
    requires p > 0 && i < n
    ensures var k := i / p;
      k < Count(n, p) && Mul(k, p) <= i < Mul(k, p) + PartitionLength(n, p, k)
  {
    var k := i / p;
    MulIsProduct(k, p);
    assert i == k * p + i % p;
    PositionInRange(n, p, k);
  }

  lemma ElementCoveredOnce(n: nat, p: nat, i: nat, k: nat)
    requires p > 0 && Mul(k, p) < n
    requires Mul(k, p) <= i < Mul(k, p) + PartitionLength(n, p, k)
    ensures k == i / p
  {
    MulIsProduct(k, p);
    DivModUnique(i, p, k, i - k * p);
  }

  /** The first byte of partition k's compressed window: position times element size. */
  function WindowStart(p: nat, s: nat, k: nat): nat {
    Mul(Mul(k, p), s)
  }

  /** One past the last byte of partition k's compressed window. */
  function WindowEnd(n: nat, p: nat, s: nat, k: nat): nat
    requires p > 0 && Mul(k, p) < n
  {
    Mul(Mul(k, p) + PartitionLength(n, p, k), s)
  }

  /** The bytes held by the first c partitions: [0, min(c * p, n) * s). */
  function PrefixEnd(n: nat, p: nat, s: nat, c: nat): nat {
    Mul(Min(Mul(c, p), n), s)
  }

  /** A window holds exactly length * s bytes and lies inside the n * s byte store. */
  lemma WindowInStore(n: nat, p: nat, s: nat, k: nat)
    requires p > 0 && Mul(k, p) < n
    ensures WindowStart(p, s, k) <= WindowEnd(n, p, s, k) <= Mul(n, s)
    ensures WindowEnd(n, p, s, k) - WindowStart(p, s, k) == Mul(PartitionLength(n, p, k), s)
  {
    var len := PartitionLength(n, p, k);
    MulAdd(Mul(k, p), len, s);
    MulGrows(Mul(k, p) + len, n, s);
  }

  /** Windows of distinct partitions do not overlap: an earlier one ends before a later one starts. */
  lemma WindowsDisjoint(n: nat, p: nat, s: nat, j: nat, k: nat)
    requires p > 0 && j < k && Mul(k, p) < n
    ensures Mul(j, p) < n
    ensures WindowEnd(n, p, s, j) <= WindowStart(p, s, k)
  {
    MulGrows(j + 1, k, p);
    MulGrows(Mul(j, p) + PartitionLength(n, p, j), Mul(k, p), s);
  }

  /** The windows are laid end to end: window k spans [PrefixEnd(k), PrefixEnd(k + 1)). */
  lemma WindowsContiguous(n: nat, p: nat, s: nat, k: nat)
    requires p > 0 && Mul(k, p) < n
    ensures WindowStart(p, s, k) == PrefixEnd(n, p, s, k)
    ensures WindowEnd(n, p, s, k) == PrefixEnd(n, p, s, k + 1)
  {
  }
}
