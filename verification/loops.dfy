/** The two loop shapes of the sweep over cyclic indices, with the loop
    conditions abstracted as function values. The source's loops are
    unbounded; here each iteration consumes one unit of `fuel`, and running
    out of fuel yields None. */
module Loops {
  import opened Options
  import opened CyclicIndex

  /** `while (stay(i)) advance(i, n);` — on exit i is in range and the
      condition fails there. */
  function AdvanceWhile(stay: U32 -> bool, i: U32, n: U32, fuel: nat): (r: Option<U32>)
    requires 0 < n && i < n
    ensures r.Some? ==> r.value < n && !stay(r.value)
    decreases fuel
  {
    if fuel == 0 then
      None
    else if stay(i) then
      AdvanceWhile(stay, Advance(i, n), n, fuel - 1)
    else
      Some(i)
  }

  /** r is k steps ahead of i, and the condition holds at every index
      before it. */
  ghost predicate FirstExitAfter(stay: U32 -> bool, i: U32, n: U32, k: nat, r: U32)
    requires 0 < n && i < n
  {
    && r == AdvanceTimes(i, k, n)
    && forall j: nat :: j < k ==> stay(AdvanceTimes(i, j, n))
  }

  /** The loop stops at the first index, counting forward from i, at which
      the condition fails, after fewer steps than its fuel. */
  lemma {:induction false} AdvanceWhileStopsAtFirstExit(stay: U32 -> bool, i: U32, n: U32, fuel: nat)
    requires 0 < n && i < n
    ensures AdvanceWhile(stay, i, n, fuel).Some? ==>
              exists k: nat :: k < fuel && FirstExitAfter(stay, i, n, k, AdvanceWhile(stay, i, n, fuel).value)
    decreases fuel
  {
    if AdvanceWhile(stay, i, n, fuel).Some? {
      var r := AdvanceWhile(stay, i, n, fuel).value;
      if stay(i) {
        var next := Advance(i, n);
        assert AdvanceWhile(stay, i, n, fuel) == AdvanceWhile(stay, next, n, fuel - 1);
        AdvanceWhileStopsAtFirstExit(stay, next, n, fuel - 1);
        var k: nat :| k < fuel - 1 && FirstExitAfter(stay, next, n, k, r);
        assert AdvanceTimes(i, k + 1, n) == AdvanceTimes(next, k, n);
        forall j: nat | j < k + 1
          ensures stay(AdvanceTimes(i, j, n))
        {
          if j > 0 {
            assert AdvanceTimes(i, j, n) == AdvanceTimes(next, j - 1, n);
          }
        }
        assert FirstExitAfter(stay, i, n, k + 1, r);
      } else {
        assert FirstExitAfter(stay, i, n, 0, r);
      }
    }
  }

  /** In particular the loop only moves its index forward. */
  lemma AdvanceWhileReaches(stay: U32 -> bool, i: U32, n: U32, fuel: nat)
    requires 0 < n && i < n
    ensures AdvanceWhile(stay, i, n, fuel).Some? ==> Reaches(i, AdvanceWhile(stay, i, n, fuel).value, n)
  {
    if AdvanceWhile(stay, i, n, fuel).Some? {
      AdvanceWhileStopsAtFirstExit(stay, i, n, fuel);
      var k: nat :| k < fuel && FirstExitAfter(stay, i, n, k, AdvanceWhile(stay, i, n, fuel).value);
      assert AdvanceTimes(i, k, n) == AdvanceWhile(stay, i, n, fuel).value;
    }
  }

  /** Conversely, if the condition fails k steps ahead and the fuel exceeds
      k, the loop finishes. */
  lemma {:induction false} AdvanceWhileFinishesWithEnoughFuel(stay: U32 -> bool, i: U32, n: U32, fuel: nat, k: nat)
    requires 0 < n && i < n
    requires k < fuel && !stay(AdvanceTimes(i, k, n))
    ensures AdvanceWhile(stay, i, n, fuel).Some?
    decreases k
  {
    if stay(i) {
      assert k != 0;
      AdvanceWhileFinishesWithEnoughFuel(stay, Advance(i, n), n, fuel - 1, k - 1);
    }
  }

  /** A loop that finished within some fuel finishes identically with more. */
  lemma {:induction false} AdvanceWhileFuelMonotone(stay: U32 -> bool, i: U32, n: U32, fuel: nat, more: nat)
    requires 0 < n && i < n && fuel <= more
    ensures AdvanceWhile(stay, i, n, fuel).Some? ==> AdvanceWhile(stay, i, n, more) == AdvanceWhile(stay, i, n, fuel)
    decreases fuel
  {
    if AdvanceWhile(stay, i, n, fuel).Some? && stay(i) {
      AdvanceWhileFuelMonotone(stay, Advance(i, n), n, fuel - 1, more - 1);
    }
  }

  /** `while (higher(a, b)) { if (moveB(a, b)) advance(b, n); else advance(a, n); }`
      — on exit both indices are in range and the condition fails. */
  function MoveWhile(higher: (U32, U32) -> bool, moveB: (U32, U32) -> bool, a: U32, b: U32, n: U32, fuel: nat)
    : (r: Option<(U32, U32)>)
    requires 0 < n && a < n && b < n
    ensures r.Some? ==> r.value.0 < n && r.value.1 < n && !higher(r.value.0, r.value.1)
    decreases fuel
  {
    if fuel == 0 then
      None
    else if higher(a, b) then
      if moveB(a, b) then
        MoveWhile(higher, moveB, a, Advance(b, n), n, fuel - 1)
      else
        MoveWhile(higher, moveB, Advance(a, n), b, n, fuel - 1)
    else
      Some((a, b))
  }

  /** Both indices only move forward, in total fewer times than the fuel. */
  lemma {:induction false} MoveWhileMovesForward(higher: (U32, U32) -> bool, moveB: (U32, U32) -> bool,
                                                 a: U32, b: U32, n: U32, fuel: nat)
    requires 0 < n && a < n && b < n
    ensures MoveWhile(higher, moveB, a, b, n, fuel).Some? ==>
              exists ka: nat, kb: nat :: ka + kb < fuel
                && MoveWhile(higher, moveB, a, b, n, fuel).value == (AdvanceTimes(a, ka, n), AdvanceTimes(b, kb, n))
    decreases fuel
  {
    if MoveWhile(higher, moveB, a, b, n, fuel).Some? {
      if higher(a, b) {
        if moveB(a, b) {
          MoveWhileMovesForward(higher, moveB, a, Advance(b, n), n, fuel - 1);
          var ka: nat, kb: nat :| ka + kb < fuel - 1
            && MoveWhile(higher, moveB, a, Advance(b, n), n, fuel - 1).value
               == (AdvanceTimes(a, ka, n), AdvanceTimes(Advance(b, n), kb, n));
          assert AdvanceTimes(b, kb + 1, n) == AdvanceTimes(Advance(b, n), kb, n);
        } else {
          MoveWhileMovesForward(higher, moveB, Advance(a, n), b, n, fuel - 1);
          var ka: nat, kb: nat :| ka + kb < fuel - 1
            && MoveWhile(higher, moveB, Advance(a, n), b, n, fuel - 1).value
               == (AdvanceTimes(Advance(a, n), ka, n), AdvanceTimes(b, kb, n));
          assert AdvanceTimes(a, ka + 1, n) == AdvanceTimes(Advance(a, n), ka, n);
        }
      } else {
        assert AdvanceTimes(a, 0, n) == a && AdvanceTimes(b, 0, n) == b;
      }
    }
  }

  /** Neither index moves backwards. */
  lemma MoveWhileReaches(higher: (U32, U32) -> bool, moveB: (U32, U32) -> bool, a: U32, b: U32, n: U32, fuel: nat)
    requires 0 < n && a < n && b < n
    ensures var r := MoveWhile(higher, moveB, a, b, n, fuel);
            r.Some? ==> Reaches(a, r.value.0, n) && Reaches(b, r.value.1, n)
  {
    var r := MoveWhile(higher, moveB, a, b, n, fuel);
    if r.Some? {
      MoveWhileMovesForward(higher, moveB, a, b, n, fuel);
      var ka: nat, kb: nat :| ka + kb < fuel && r.value == (AdvanceTimes(a, ka, n), AdvanceTimes(b, kb, n));
      assert AdvanceTimes(a, ka, n) == r.value.0;
      assert AdvanceTimes(b, kb, n) == r.value.1;
    }
  }

  /** A loop that finished within some fuel finishes identically with more. */
  lemma {:induction false} MoveWhileFuelMonotone(higher: (U32, U32) -> bool, moveB: (U32, U32) -> bool,
                                                 a: U32, b: U32, n: U32, fuel: nat, more: nat)
    requires 0 < n && a < n && b < n && fuel <= more
    ensures MoveWhile(higher, moveB, a, b, n, fuel).Some? ==>
              MoveWhile(higher, moveB, a, b, n, more) == MoveWhile(higher, moveB, a, b, n, fuel)
    decreases fuel
  {
    if MoveWhile(higher, moveB, a, b, n, fuel).Some? && higher(a, b) {
      if moveB(a, b) {
        MoveWhileFuelMonotone(higher, moveB, a, Advance(b, n), n, fuel - 1, more - 1);
      } else {
        MoveWhileFuelMonotone(higher, moveB, Advance(a, n), b, n, fuel - 1, more - 1);
      }
    }
  }
}
