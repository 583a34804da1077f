# Deque: ring iterator stepping (early revision)

This project models the early revision of `Deque/Deque.h`: a `Deque<T>`
container holding a storage pointer `a_`, a `capacity_` and a `size_`, and
its iterator `DequeIterator<isConst>`. The iterator holds five positions:
`current`, `first`, `last`, `bufferFirst` and `bufferLast`. Prefix and postfix
`++`/`--` move `current` one slot around a ring. Past `bufferLast` it wraps to
`bufferFirst`, and before `bufferFirst` it wraps to `bufferLast`.

Positions are integer offsets from `a_`, so `a_` is position 0 and
`a_ + size_` is position `size_`. In this revision `bufferLast` is itself a
reachable position, not one past the end. A ring `[bufferFirst, bufferLast]`
therefore has `bufferLast - bufferFirst + 1` slots, and the ring that `begin()`
builds has `size_ + 1` slots. The model keeps this inclusive bound as the code
has it. Later revisions of the container use half-open bounds, range checks
and a growable buffer. None of that exists in this file, so it is not modelled.

Two modules:

- `Positions` (`positions.dfy`) is the pure stepping arithmetic. The datatype
  `Ring` holds the two bounds, with one forward step `Next`, one backward step
  `Prev`, and their `k`-fold repetitions `NextN`/`PrevN`. Each step is tied to
  an independent reference definition: on the ring, a step adds or subtracts
  one from the offset modulo the number of slots. Lemmas prove that the steps
  are inverses, that `k` steps add or subtract `k` modulo the slot count, that
  exactly `Slots()` forward steps (and no fewer) return to the start, and that
  `k` steps back undo `k` steps forward.
- `DequeLib` (`deque.dfy`) holds the classes. `DequeIterator` has the five
  position fields, and its four stepping methods change only `current`, as
  the source does, in place. `Deque` has `capacity`/`size` as 32-bit unsigned
  values, and `Begin`/`CBegin` return fresh iterators. The C++ `int` argument
  of the constructor is converted to `unsigned int` explicitly (`ToUi32`,
  modulo 2^32).

## Model

| member | source | states |
|---|---|---|
| `Positions.Ring.Next` | Deque/Deque.h:49-52 | from a position on the ring, a forward step stays on the ring and adds one to the offset from `bufferFirst`, modulo the slot count `bufferLast - bufferFirst + 1` (so `bufferLast` wraps to `bufferFirst`) |
| `Positions.Ring.Prev` | Deque/Deque.h:58-61 | from a position on the ring, a backward step stays on the ring and subtracts one from the offset, modulo the slot count (so `bufferFirst` wraps to `bufferLast`) |
| `Positions.NextPrevInverse` | Deque/Deque.h:49-61 | on a ring position, `--` after `++` restores the position, and so does `++` after `--` |
| `Positions.NextNOffset` | Deque/Deque.h:49-52 | `k` forward steps keep a ring position on the ring and add `k` to its offset modulo the slot count |
| `Positions.PrevNOffset` | Deque/Deque.h:58-61 | `k` backward steps keep a ring position on the ring and subtract `k` from its offset modulo the slot count |
| `Positions.FullCycle` | Deque/Deque.h:49-52 | for `0 < k <= Slots()`, `k` forward steps return to the starting position exactly when `k == bufferLast - bufferFirst + 1` |
| `Positions.ReturnsExactlyOnMultiples` | Deque/Deque.h:49-52 | for any `k`, `k` forward steps return a ring position to itself exactly when `k` is a multiple of `bufferLast - bufferFirst + 1` |
| `Positions.BackUndoesForward` | Deque/Deque.h:49-61 | from a ring position, `k` backward steps after `k` forward steps restore the position |
| `Positions.ForwardUndoesBack` | Deque/Deque.h:49-61 | from a ring position, `k` forward steps after `k` backward steps restore the position |
| `Positions.StepsUndo` | Deque/Deque.h:49-61 | `k` backward steps undo `k` forward steps, and `k` forward steps undo `k` backward steps |
| `DequeLib.ToUi32` | Deque/Deque.h:73-75 | the `int` to `unsigned int` conversion keeps a non-negative value and maps a negative one to 2^32 plus itself |
| `DequeLib.DequeIterator.constructor` | Deque/Deque.h:28-33 | the five positions are set from the arguments |
| `DequeLib.DequeIterator.Copy` | Deque/Deque.h:41 | the copy has the same five positions as the original |
| `DequeLib.DequeIterator.PreIncrement` | Deque/Deque.h:49-52 | `current` becomes `Next(old current)`; `first`, `last` and both ring bounds are unchanged (only `current` is in the frame); a position on the ring stays on it; the iterator itself is returned |
| `DequeLib.DequeIterator.PostIncrement` | Deque/Deque.h:53-57 | returns a fresh iterator holding the old `current` and the same bounds; the receiver moves exactly as under prefix `++` |
| `DequeLib.DequeIterator.PreDecrement` | Deque/Deque.h:58-61 | `current` becomes `Prev(old current)`; `first`, `last` and both ring bounds are unchanged; a position on the ring stays on it; the iterator itself is returned |
| `DequeLib.DequeIterator.PostDecrement` | Deque/Deque.h:62-66 | returns a fresh iterator holding the old `current` and the same bounds; the receiver moves exactly as under prefix `--` |
| `DequeLib.Deque.constructor` | Deque/Deque.h:73-77 | `capacity` and `size` are both the argument converted to `unsigned int` |
| `DequeLib.Deque.Begin` | Deque/Deque.h:78-80 | a fresh iterator with `current == first == bufferFirst == 0` (that is, `a_`) and `last == bufferLast == size`; its ring is well formed with `size + 1` slots and holds `current`; the container is not modified (the method has no `modifies` clause) |
| `DequeLib.Deque.CBegin` | Deque/Deque.h:81-83 | the same iterator as `Begin`, without modifying the container |

## Left out

- Element storage, `operator*` and `operator->` (Deque/Deque.h:43-48): the model has positions only. `a_ = new T(sz)` allocates a single element initialised to `sz`, so no element beyond position 0 exists to model. `a_` itself is position 0 and has no field.
- The `isConst` parameter and its `const_cast` (Deque/Deque.h:44, 47): one `DequeIterator` class stands for both `iterator` and `const_iterator`; the constness is a C++ typing matter and enforces nothing.
- The public default constructor that sets all five positions to the null pointer (Deque/Deque.h:35-40): the null pointer is not an offset from `a_`.
- The `std::iterator` base class and the `reverse_iterator`/`const_reverse_iterator` typedefs (Deque/Deque.h:20, 71-72): library plumbing with no behaviour of its own here.
- Deque/main.cpp: a demonstration program with console output and a pause; it is not container behaviour.
- Push/pop, grow/shrink, indexed access, offset arithmetic, distance, comparisons and range-check errors: they belong to later revisions of the container and do not exist in this file.
- Int32, Ui32, ToUi32: the model takes C++ `int` and `unsigned int` to be 32 bits wide, as on the usual desktop targets; the language itself only guarantees at least 16 bits, and other widths are not modelled.
- Memory allocation and pointer overflow: positions are unbounded integers, so `a_ + size_` cannot overflow.
