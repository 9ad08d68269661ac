/** The two workloads the harness measures: the recursive `factorial`
    (`Tests::factorial`, repeated verbatim in `Instructions`, `PageFaults`
    and `CPU`) and the indexed buffer scan `read_data` (`Tests::read_data`,
    repeated in `ReadData`). Their results are discarded by the harness;
    what matters is what they compute and that the scan stays in bounds. */
module Workloads {
  import opened CppArith

  /** `factorial(n)`: 1 for 0 and 1, otherwise `factorial(n - 1) * n`,
      over mathematical integers (the C++ `int` result overflows from 13 on). */
  function Factorial(n: nat): (r: nat)
    ensures r >= 1 && r >= n
  {
    if n == 1 || n == 0 then 1 else Factorial(n - 1) * n
  }

  /** Every k in 1..n divides `factorial(n)`: the product really contains each factor. */
  lemma {:induction false} FactorialDivisible(n: nat, k: nat)
    requires 1 <= k <= n
    ensures Factorial(n) % k == 0
  {
    var f := Factorial(n - 1);
    assert Factorial(n) == f * n;
    if k < n {
      FactorialDivisible(n - 1, k);
      MultipleTimes(f, k, n);
    } else {
      EuclidUnique(f * n, k, f, 0);
    }
  }

  /** A multiple of k times anything is a multiple of k. */
  lemma MultipleTimes(a: int, k: int, c: int)
    requires k > 0 && a % k == 0
    ensures (a * c) % k == 0
  {
    var m := a / k;
    assert a == m * k;
    calc {
      a * c;
      (m * k) * c;
      { MulAssocComm(m, k, c); }
      (m * c) * k;
    }
    EuclidUnique(a * c, k, m * c, 0);
  }

  lemma MulAssocComm(x: int, y: int, z: int)
    ensures (x * y) * z == (x * z) * y
  {
  }

  /** `factorial` never decreases as its argument grows. */
  lemma {:induction false} FactorialMonotone(m: nat, n: nat)
    requires m <= n
    ensures Factorial(m) <= Factorial(n)
  {
    if m < n {
      FactorialMonotone(m, n - 1);
      MulMonotone(1, n, Factorial(n - 1));
    }
  }

  /** The largest C++ `int` (32-bit two's complement). */
  const IntMax: int := 0x7FFF_FFFF

  /** `factorial(12)` still fits in an `int`, `factorial(n)` for every n >= 13 does not:
      the slow workload's `factorial(1000)` overflows, while `factorial(3)` and
      `factorial(10)` are exact. */
  lemma {:induction false} FactorialIntRange(n: nat)
    ensures n <= 12 ==> Factorial(n) <= IntMax
    ensures n >= 13 ==> Factorial(n) > IntMax
  {
    assert Factorial(12) == 479001600;
    assert Factorial(13) == 6227020800;
    if n <= 12 {
      FactorialMonotone(n, 12);
    } else {
      FactorialMonotone(13, n);
    }
  }

  /** Number of reads one `read_data` call performs: `1 << 20`. */
  const ScanReads: nat := 0x10_0000

  /** The element index the scan computes on step `i`: `idx[i % size] % v.size()`,
      both remainders as C++ computes them. */
  function ScanIndex(i: nat, idx: seq<int>, vSize: nat): (k: int)
    requires |idx| > 0 && vSize > 0
    requires forall j :: 0 <= j < |idx| ==> idx[j] >= 0 || idx[j] % vSize == 0
    ensures 0 <= k < vSize
  {
    var slot := TruncRem(i, |idx|);
    TruncRemIsIndex(idx[slot], vSize);
    TruncRem(idx[slot], vSize)
  }

  /** An index entry that is negative and not a multiple of the buffer size
      makes the scan read before the start of `v`. */
  lemma ScanIndexNeedsNonNegative(idx: seq<int>, vSize: nat, j: nat)
    requires |idx| > 0 && vSize > 0 && j < |idx|
    requires idx[j] < 0 && idx[j] % vSize != 0
    ensures TruncRem(idx[TruncRem(j, |idx|)], vSize) < 0
  {
    TruncRemIsIndex(idx[j], vSize);
    assert TruncRem(j, |idx|) == j by {
      EuclidUnique(j, |idx|, 0, j);
    }
  }

  /** `read_data(v, idx)`: reads `v[idx[i % size] % v.size()]` into the
      volatile `b` for i in 0 .. 2^20 - 1. Neither buffer is modified.
      `visited` records, in order, the index each step reads; `b` is the
      last value read. The buffers must be non-empty (a zero divisor is
      undefined in C++) and every index entry must give a non-negative
      remainder. */
  method ReadData(v: array<int>, idx: array<int>) returns (b: int, ghost visited: seq<int>)
    requires v.Length > 0 && idx.Length > 0
    requires forall j :: 0 <= j < idx.Length ==> idx[j] >= 0 || idx[j] % v.Length == 0
    ensures |visited| == ScanReads
    ensures forall i :: 0 <= i < ScanReads ==> visited[i] == ScanIndex(i, idx[..], v.Length)
    ensures forall i :: 0 <= i < ScanReads ==> 0 <= visited[i] < v.Length
    ensures b == v[ScanIndex(ScanReads - 1, idx[..], v.Length)]
  {
    b := 0;
    visited := [];
    var size := idx.Length;
    var i := 0;
    while i < ScanReads
      invariant 0 <= i <= ScanReads
      invariant |visited| == i
      invariant forall k :: 0 <= k < i ==> visited[k] == ScanIndex(k, idx[..], v.Length)
      invariant i > 0 ==> b == v[ScanIndex(i - 1, idx[..], v.Length)]
    {
      var slot := TruncRem(i, size);
      TruncRemIsIndex(idx[slot], v.Length);
      var k := TruncRem(idx[slot], v.Length);
      b := v[k];
      visited := visited + [k];
      i := i + 1;
    }
  }
}
