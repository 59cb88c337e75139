/** Cyclic index arithmetic over the n vertices of a polygon.
    These are the only operations that move the sweep indices a, b and c.
    Indices and vertex counts are C++ `unsigned int`s, modelled as 32-bit
    unsigned values with wrap-around written out. */
module CyclicIndex {

  /** Exclusive upper bound of a 32-bit `unsigned int`. */
  const U32Limit: int := 0x1_0000_0000

  type U32 = x: int | 0 <= x < U32Limit

  /** Index of the vertex after `i`: the increment wraps modulo 2^32 before
      the remainder by `n` is taken (a zero `n` would divide by zero). */
  function Successor(i: U32, n: U32): (r: U32)
    requires 0 < n
    ensures r < n
    ensures i + 1 < n ==> r == i + 1
    ensures i + 1 == n ==> r == 0
  {
    ((i + 1) % U32Limit) % n
  }

  /** Index of the vertex before `i`: the first vertex's predecessor is the
      last one. `n - 1` is unsigned, so with no vertices it wraps to 2^32 - 1. */
  function Predecessor(i: U32, n: U32): (r: U32)
    ensures 0 < i ==> r == i - 1
    ensures i == 0 && 0 < n ==> r == n - 1
    ensures i == 0 && n == 0 ==> r == U32Limit - 1
    ensures i < n ==> r < n
  {
    if i == 0 then (n - 1 + U32Limit) % U32Limit else i - 1
  }

  /** Moves an index one position forward around the polygon. The result is
      the unique index in range whose predecessor is `i`. */
  function Advance(i: U32, n: U32): (r: U32)
    requires 0 < n && i < n
    ensures r < n
    ensures Predecessor(r, n) == i
  {
    Successor(i, n)
  }

  lemma PredecessorOfSuccessor(i: U32, n: U32)
    requires 0 < n && i < n
    ensures Predecessor(Successor(i, n), n) == i
  {
  }

  lemma SuccessorOfPredecessor(i: U32, n: U32)
    requires 0 < n && i < n
    ensures Successor(Predecessor(i, n), n) == i
  {
  }

  /** Predecessor is injective on the valid indices, so `Advance`'s contract
      determines its result. */
  lemma PredecessorInjective(i: U32, j: U32, n: U32)
    requires i < n && j < n
    requires Predecessor(i, n) == Predecessor(j, n)
    ensures i == j
  {
  }

  /** The index reached after `k` calls of `Advance`. */
  function AdvanceTimes(i: U32, k: nat, n: U32): (r: U32)
    requires 0 < n && i < n
    ensures r < n
    decreases k
  {
    if k == 0 then i else AdvanceTimes(Advance(i, n), k - 1, n)
  }

  /** Advancing k times is addition modulo n. */
  lemma {:induction false} AdvanceTimesIsModularAddition(i: U32, k: nat, n: U32)
    requires 0 < n && i < n
    ensures AdvanceTimes(i, k, n) == (i + k) % n
    decreases k
  {
    if k == 0 {
      DivModUnique(i, n, 0, i);
    } else {
      var j := Advance(i, n);
      AdvanceTimesIsModularAddition(j, k - 1, n);
      if i + 1 < n {
        assert j == i + 1;
        assert j + (k - 1) == i + k;
      } else {
        assert j == 0;
        assert i + k == (k - 1) + n;
        ModuloShift(k - 1, n);
      }
    }
  }

  /** Advancing j times and then k times is advancing j + k times. */
  lemma {:induction false} AdvanceTimesAdd(i: U32, j: nat, k: nat, n: U32)
    requires 0 < n && i < n
    ensures AdvanceTimes(AdvanceTimes(i, j, n), k, n) == AdvanceTimes(i, j + k, n)
    decreases j
  {
    if j > 0 {
      AdvanceTimesAdd(Advance(i, n), j - 1, k, n);
    }
  }

  /** Index j is reached from i by advancing some number of times: the
      cyclic index only ever moves forward. */
  ghost predicate Reaches(i: U32, j: U32, n: U32)
    requires 0 < n && i < n
  {
    exists k: nat :: AdvanceTimes(i, k, n) == j
  }

  lemma ReachesTransitive(i: U32, j: U32, l: U32, n: U32)
    requires 0 < n && i < n && j < n
    requires Reaches(i, j, n) && Reaches(j, l, n)
    ensures Reaches(i, l, n)
  {
    var k1: nat :| AdvanceTimes(i, k1, n) == j;
    var k2: nat :| AdvanceTimes(j, k2, n) == l;
    AdvanceTimesAdd(i, k1, k2, n);
  }

  /** Euclidean division is unique: a quotient/remainder pair that rebuilds
      `x` is the one Dafny's `/` and `%` compute. */
  lemma DivModUnique(x: int, n: int, q: int, r: int)
    requires 0 < n && 0 <= r < n && x == q * n + r
    ensures x % n == r && x / n == q
  {
    var q0, r0 := x / n, x % n;
    var d := q - q0;
    assert d * n == q * n - q0 * n;
    if d > 0 {
      MultipleAtLeast(d, n);
    } else if d < 0 {
      MultipleAtLeast(-d, n);
    }
  }

  lemma MultipleAtLeast(d: int, n: int)
    requires 1 <= d && 0 < n
    ensures d * n >= n
  {
    assert d * n == (d - 1) * n + n;
  }

  lemma ModuloShift(x: nat, n: nat)
    requires 0 < n
    ensures (x + n) % n == x % n
  {
    var q, r := x / n, x % n;
    assert x + n == (q + 1) * n + r;
    DivModUnique(x + n, n, q + 1, r);
  }

  /** n advances take every index once around the polygon back to itself. */
  lemma AdvanceFullTurn(i: U32, n: U32)
    requires 0 < n && i < n
    ensures AdvanceTimes(i, n, n) == i
  {
    AdvanceTimesIsModularAddition(i, n, n);
    ModuloShift(i, n);
    DivModUnique(i, n, 0, i);
  }
}
