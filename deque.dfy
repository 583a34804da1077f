/**
 * The early deque container and its ring iterator.
 *
 * Positions are integer offsets from the container's storage pointer `a_`,
 * so `a_` itself is position 0 and `a_ + size_` is position `size_`. The
 * element storage and what the iterator points at are not modelled; only the
 * positions an iterator takes are.
 */
module DequeLib {
  import opened Positions

  /** The platform's 32-bit signed `int`. */
  type Int32 = x: int | -0x8000_0000 <= x < 0x8000_0000

  /** The container's `ui32` (`unsigned int`). */
  type Ui32 = x: int | 0 <= x < 0x1_0000_0000

  /**
   * Implicit conversion of `int` to `unsigned int`: a non-negative value is
   * kept, a negative one wraps around to 2^32 plus itself.
   */
  function ToUi32(x: Int32): (r: Ui32)
    ensures x >= 0 ==> r == x
    ensures x < 0 ==> r == x + 0x1_0000_0000
  {
    x % 0x1_0000_0000
  }

  /**
   * An iterator: the position it denotes, the logical window it was issued
   * for, and the physical ring bounds it wraps around. Both ring bounds are
   * reachable positions.
   */
  class DequeIterator {
    var current: int
    var first: int
    var last: int
    var bufferFirst: int
    var bufferLast: int

    /** The ring this iterator steps around. */
    function Buffer(): Ring
      reads this
    {
      Ring(bufferFirst, bufferLast)
    }

    /** The iterator's position lies on its ring. */
    predicate OnRing()
      reads this
    {
      Buffer().Holds(current)
    }

    /** The container's private five-position constructor. */
    constructor (current: int, first: int, last: int, bufferFirst: int, bufferLast: int)
      ensures this.current == current && this.first == first && this.last == last
      ensures this.bufferFirst == bufferFirst && this.bufferLast == bufferLast
    {
      this.current := current;
      this.first := first;
      this.last := last;
      this.bufferFirst := bufferFirst;
      this.bufferLast := bufferLast;
    }

    /** The defaulted copy constructor: a new iterator with the same five positions. */
    constructor Copy(another: DequeIterator)
      ensures current == another.current && first == another.first && last == another.last
      ensures bufferFirst == another.bufferFirst && bufferLast == another.bufferLast
    {
      current := another.current;
      first := another.first;
      last := another.last;
      bufferFirst := another.bufferFirst;
      bufferLast := another.bufferLast;
    }

    /**
     * Prefix `++`: one forward step around the ring; returns the iterator
     * itself. Only `current` changes, and an iterator on its ring stays on it.
     */
    method PreIncrement() returns (self: DequeIterator)
      modifies this`current
      ensures self == this
      ensures current == Buffer().Next(old(current))
      ensures first == old(first) && last == old(last)
      ensures Buffer() == old(Buffer())
      ensures old(OnRing()) ==> OnRing()
    {
      current := if current == bufferLast then bufferFirst else current + 1;
      self := this;
    }

    /**
     * Postfix `++`: a fresh copy holding the old position is returned, and
     * the receiver moves exactly as under prefix `++`.
     */
    method PostIncrement() returns (ans: DequeIterator)
      modifies this`current
      ensures fresh(ans)
      ensures ans.current == old(current) && ans.first == first && ans.last == last
      ensures ans.Buffer() == Buffer()
      ensures current == Buffer().Next(old(current))
      ensures first == old(first) && last == old(last)
      ensures Buffer() == old(Buffer())
      ensures old(OnRing()) ==> OnRing()
    {
      ans := new DequeIterator.Copy(this);
      current := if current == bufferLast then bufferFirst else current + 1;
    }

    /**
     * Prefix `--`: one backward step around the ring; returns the iterator
     * itself. Only `current` changes, and an iterator on its ring stays on it.
     */
    method PreDecrement() returns (self: DequeIterator)
      modifies this`current
      ensures self == this
      ensures current == Buffer().Prev(old(current))
      ensures first == old(first) && last == old(last)
      ensures Buffer() == old(Buffer())
      ensures old(OnRing()) ==> OnRing()
    {
      current := if current == bufferFirst then bufferLast else current - 1;
      self := this;
    }

    /**
     * Postfix `--`: a fresh copy holding the old position is returned, and
     * the receiver moves exactly as under prefix `--`.
     */
    method PostDecrement() returns (ans: DequeIterator)
      modifies this`current
      ensures fresh(ans)
      ensures ans.current == old(current) && ans.first == first && ans.last == last
      ensures ans.Buffer() == Buffer()
      ensures current == Buffer().Prev(old(current))
      ensures first == old(first) && last == old(last)
      ensures Buffer() == old(Buffer())
      ensures old(OnRing()) ==> OnRing()
    {
      ans := new DequeIterator.Copy(this);
      current := if current == bufferFirst then bufferLast else current - 1;
    }
  }

  /** The container: its capacity and size; the storage pointer is position 0. */
  class Deque {
    var capacity: Ui32
    var size: Ui32

    /** `Deque(int sz)`: capacity and size are both `sz`, converted to `unsigned int`. */
    constructor (sz: Int32)
      ensures capacity == ToUi32(sz) && size == ToUi32(sz)
    {
      capacity := ToUi32(sz);
      size := ToUi32(sz);
    }

    /**
     * `begin()`: an iterator at the storage start whose window and ring both
     * run from position 0 to position `size`, inclusive, so the ring has
     * `size + 1` slots. The container is not modified.
     */
    method Begin() returns (it: DequeIterator)
      ensures fresh(it)
      ensures it.current == 0 && it.first == 0 && it.bufferFirst == 0
      ensures it.last == size && it.bufferLast == size
      ensures it.Buffer().WellFormed() && it.Buffer().Slots() == size + 1 && it.OnRing()
    {
      it := new DequeIterator(0, 0, size, 0, size);
    }

    /** `cbegin()`: the same iterator as `begin()`, read-only on the elements. */
    method CBegin() returns (it: DequeIterator)
      ensures fresh(it)
      ensures it.current == 0 && it.first == 0 && it.bufferFirst == 0
      ensures it.last == size && it.bufferLast == size
      ensures it.Buffer().WellFormed() && it.Buffer().Slots() == size + 1 && it.OnRing()
    {
      it := new DequeIterator(0, 0, size, 0, size);
    }
  }
}
