/**
 * Wrap-around stepping of a deque iterator.
 *
 * Positions are integer offsets from the start of the deque's storage. An
 * iterator walks a ring described by two bounds, bufferFirst and bufferLast,
 * and BOTH bounds are positions a step can land on: the ring has
 * bufferLast - bufferFirst + 1 slots.
 */
module Positions {

  /** The physical bounds an iterator wraps around. */
  datatype Ring = Ring(bufferFirst: int, bufferLast: int) {

    /** The bounds describe at least one slot. */
    predicate WellFormed() {
      bufferFirst <= bufferLast
    }

    /** The number of distinct positions on the ring, both bounds included. */
    function Slots(): (n: nat)
      requires WellFormed()
      ensures n >= 1
    {
      bufferLast - bufferFirst + 1
    }

    /** `p` is one of the ring's positions. */
    predicate Holds(p: int) {
      bufferFirst <= p <= bufferLast
    }

    /** The offset of position `p` from the ring's first slot. */
    function Offset(p: int): int {
      p - bufferFirst
    }

    /**
     * One step forward: from bufferLast the iterator wraps to bufferFirst,
     * from anywhere else it moves to the next slot. On the ring this is
     * "offset plus one, modulo the number of slots".
     */
    function Next(p: int): (r: int)
      ensures Holds(p) ==> Holds(r) && Offset(r) == (Offset(p) + 1) % Slots()
    {
      var r := if p == bufferLast then bufferFirst else p + 1;
      assert Holds(p) ==> Offset(r) == (Offset(p) + 1) % Slots() by {
        if Holds(p) {
          ModOfShifted(Offset(r), if p == bufferLast then 1 else 0, Slots());
        }
      }
      r
    }

    /**
     * One step back: from bufferFirst the iterator wraps to bufferLast,
     * from anywhere else it moves to the previous slot. On the ring this is
     * "offset minus one, modulo the number of slots".
     */
    function Prev(p: int): (r: int)
      ensures Holds(p) ==> Holds(r) && Offset(r) == (Offset(p) - 1) % Slots()
    {
      var r := if p == bufferFirst then bufferLast else p - 1;
      assert Holds(p) ==> Offset(r) == (Offset(p) - 1) % Slots() by {
        if Holds(p) {
          ModOfShifted(Offset(r), if p == bufferFirst then -1 else 0, Slots());
        }
      }
      r
    }

    /** The position reached from `p` by `k` forward steps. */
    function NextN(k: nat, p: int): int {
      if k == 0 then p else Next(NextN(k - 1, p))
    }

    /** The position reached from `p` by `k` backward steps. */
    function PrevN(k: nat, p: int): int {
      if k == 0 then p else Prev(PrevN(k - 1, p))
    }
  }

  /** `m + q * n` has remainder `m` modulo `n` whenever `m` is a remainder. */
  lemma ModOfShifted(m: int, q: int, n: int)
    requires n > 0 && 0 <= m < n
    ensures (m + q * n) % n == m
  {
    var x := m + q * n;
    var d, r := x / n, x % n;
    assert x == d * n + r;
    assert (q - d) * n == r - m;
    MultipleBelowIsZero(q - d, n);
  }

  /** The only multiple of `n` strictly between `-n` and `n` is zero. */
  lemma MultipleBelowIsZero(a: int, n: int)
    requires n > 0 && -n < a * n < n
    ensures a == 0
  {
    if a > 0 {
      MulAtLeast(a, n);
    } else if a < 0 {
      MulAtLeast(-a, n);
    }
  }

  /** A positive multiple of `n` is at least `n`. */
  lemma {:induction false} MulAtLeast(a: int, n: int)
    requires a >= 1 && n >= 0
    ensures a * n >= n
  {
    if a > 1 {
      MulAtLeast(a - 1, n);
      assert a * n == (a - 1) * n + n;
    }
  }

  /** A forward step undoes a backward step, and the other way round. */
  lemma NextPrevInverse(ring: Ring, p: int)
    requires ring.Holds(p)
    ensures ring.Prev(ring.Next(p)) == p
    ensures ring.Next(ring.Prev(p)) == p
  {
  }

  /** `k` forward steps add `k` to the offset, modulo the number of slots. */
  lemma {:induction false} NextNOffset(ring: Ring, k: nat, p: int)
    requires ring.Holds(p)
    ensures ring.Holds(ring.NextN(k, p))
    ensures ring.Offset(ring.NextN(k, p)) == (ring.Offset(p) + k) % ring.Slots()
  {
    if k == 0 {
      ModOfShifted(ring.Offset(p), 0, ring.Slots());
    } else {
      NextNOffset(ring, k - 1, p);
      ModShift(ring.Offset(p) + k - 1, 1, ring.Slots());
    }
  }

  /** `k` backward steps subtract `k` from the offset, modulo the number of slots. */
  lemma {:induction false} PrevNOffset(ring: Ring, k: nat, p: int)
    requires ring.Holds(p)
    ensures ring.Holds(ring.PrevN(k, p))
    ensures ring.Offset(ring.PrevN(k, p)) == (ring.Offset(p) - k) % ring.Slots()
  {
    if k == 0 {
      ModOfShifted(ring.Offset(p), 0, ring.Slots());
    } else {
      PrevNOffset(ring, k - 1, p);
      ModShift(ring.Offset(p) - (k - 1), -1, ring.Slots());
    }
  }

  /** Taking the remainder before adding `d` does not change the remainder of the sum. */
  lemma ModShift(x: int, d: int, n: int)
    requires n > 0
    ensures (x % n + d) % n == (x + d) % n
  {
    var q := x / n;
    assert x + d == (x % n + d) + q * n;
    ShiftedMod(x % n + d, q, n);
  }

  /** Adding a multiple of `n` does not change the remainder modulo `n`. */
  lemma ShiftedMod(x: int, q: int, n: int)
    requires n > 0
    ensures (x + q * n) % n == x % n
  {
    var m, d := x % n, x / n;
    assert x + q * n == m + (d + q) * n;
    ModOfShifted(m, d + q, n);
  }

  /**
   * Exactly Slots() forward steps bring an iterator on the ring back to where
   * it started; no smaller positive number of steps does.
   */
  lemma FullCycle(ring: Ring, p: int, k: nat)
    requires ring.Holds(p)
    requires 0 < k <= ring.Slots()
    ensures ring.NextN(k, p) == p <==> k == ring.Slots()
  {
    var n, o := ring.Slots(), ring.Offset(p);
    NextNOffset(ring, k, p);
    if k == n {
      ModOfShifted(o, 1, n);
    } else if o + k < n {
      ModOfShifted(o + k, 0, n);
    } else {
      ModOfShifted(o + k - n, 1, n);
    }
  }

  /**
   * Any number `k` of forward steps brings an iterator on the ring back to
   * where it started exactly when `k` is a multiple of Slots().
   */
  lemma ReturnsExactlyOnMultiples(ring: Ring, p: int, k: nat)
    requires ring.Holds(p)
    ensures ring.NextN(k, p) == p <==> k % ring.Slots() == 0
  {
    var n, o := ring.Slots(), ring.Offset(p);
    NextNOffset(ring, k, p);
    ModShift(k, o, n);
    ModOfShifted(o, 0, n);
    var m := k % n;
    // (o + k) % n == (m + o) % n, and o + m lies in [0, 2n).
    if o + m < n {
      ModOfShifted(o + m, 0, n);
    } else {
      ModOfShifted(o + m - n, 1, n);
    }
  }

  /** `k` backward steps undo `k` forward steps. */
  lemma BackUndoesForward(ring: Ring, k: nat, p: int)
    requires ring.Holds(p)
    ensures ring.PrevN(k, ring.NextN(k, p)) == p
  {
    var n, o := ring.Slots(), ring.Offset(p);
    var q := ring.NextN(k, p);
    NextNOffset(ring, k, p);
    PrevNOffset(ring, k, q);
    ModShift(o + k, -(k as int), n);
    ModOfShifted(o, 0, n);
  }

  /** `k` forward steps undo `k` backward steps. */
  lemma ForwardUndoesBack(ring: Ring, k: nat, p: int)
    requires ring.Holds(p)
    ensures ring.NextN(k, ring.PrevN(k, p)) == p
  {
    var n, o := ring.Slots(), ring.Offset(p);
    var q := ring.PrevN(k, p);
    PrevNOffset(ring, k, p);
    NextNOffset(ring, k, q);
    ModShift(o - k, k, n);
    ModOfShifted(o, 0, n);
  }

  /** `k` backward steps undo `k` forward steps, and the other way round. */
  lemma StepsUndo(ring: Ring, k: nat, p: int)
    requires ring.Holds(p)
    ensures ring.PrevN(k, ring.NextN(k, p)) == p
    ensures ring.NextN(k, ring.PrevN(k, p)) == p
  {
    BackUndoesForward(ring, k, p);
    ForwardUndoesBack(ring, k, p);
  }
}
