# gostl vector, modelled in Dafny

This project models the generic dynamic array of `container/vector/vector.go`
(package `vector` of gostl) and proves its contracts.

- A `Vector` owns a backing buffer. The buffer's length is the capacity, and the first `Size()` slots hold the elements.
- The Vector supports append, pop, positional set, insert and erase (single index and index range), reserve, shrink-to-fit, truncate-only resize, clear and swap.
- There are two iterators, each a Vector reference plus an integer cursor: a forward one, whose End sentinel is `Size()`, and a reverse one, whose REnd sentinel is `-1`.

Layout:

- `vector_spec.dfy`, module `VectorSpec`:
  - the result types: `Status` (`Ok` / `OutOfRange`) and `Option` (Go's `nil` result);
  - a value-level function per fallible mutation (`SetOutcome`, `InsertOutcome`, `EraseRangeOutcome`, `EraseAtOutcome`), mapping the old element sequence to the status reported and the new sequence;
  - the lemmas relating these functions;
  - the as-written halves of the findings below.
- `vector.dfy`, module `Vectors`:
  - the class `Vector<T>` (fields `data: array<T>` and `size`; ghost `Elements()` is `data[..size]`). Every mutator is a method whose `ensures` gives the new `Elements()` in terms of `old(Elements())`, through the `VectorSpec` functions, and says what happens to the buffer (kept, or replaced by a fresh one);
  - the iterators `VectorIterator` and `VectorReverseIterator`. They are datatypes because the Go code never changes an iterator after building it: `Next` returns a new one;
  - the traversal lemmas.
- `vector_client.dfy`, module `VectorClient`: four client methods that use the vector and prove each step from the contracts alone:
  - push, insert and erase, then pop down to empty;
  - forward and reverse iteration over `[10, 20, 30]`;
  - erase and insert through an iterator, keeping or growing the capacity;
  - copy independence and swap.

Where the model deliberately differs from the code:

- `At` uses the strict domain `[0, Size())`. The code's guard also admits `index == Size()`, which panics (see Findings). As a result, `End().Value()` and `REnd().Value()` are `None`, and `Front()` on an empty vector is `None`.
- `Insert`, `Erase` and `EraseRange` return the iterator the code returns and also the `Status` of the index-based call beneath them. Go discards that error. The vector's state is exactly what the code leaves, including the unchanged vector on `OutOfRange`.
- `EraseAt` computes `index + 1` on unbounded integers (see Findings).

## Model

| member | source | states |
|---|---|---|
| Vectors.CopyPrefix | container/vector/vector.go:118-121 | the copy loops fill a fresh buffer of the requested capacity whose first n slots equal the source's |
| Vectors.Vector.New | container/vector/vector.go:17-19 | a new vector is empty, has exactly the requested capacity and owns fresh storage |
| Vectors.Vector.FromVector | container/vector/vector.go:21-27 | the copy has the same elements in the same order and the same capacity, in fresh storage |
| Vectors.Vector.Size | container/vector/vector.go:29-31 | the size is the length of the element sequence |
| Vectors.Vector.Capacity | container/vector/vector.go:33-35 | the capacity is never below the size |
| Vectors.Vector.Empty | container/vector/vector.go:37-42 | true exactly when there are no elements |
| Vectors.Vector.PushBack | container/vector/vector.go:44-46 | the sequence becomes old + [val]; capacity never shrinks; with room left the same buffer is written in place, otherwise a fresh one is used |
| Vectors.Vector.SetAt | container/vector/vector.go:48-54 | OutOfRange, nothing changed, exactly when index is outside [0, Size()); otherwise only position index changes, to val |
| Vectors.Vector.InsertAt | container/vector/vector.go:56-66 | OutOfRange, buffer and elements untouched, unless 0 <= index <= Size(); otherwise val is at index, earlier elements stay, later ones move up by one |
| Vectors.Vector.EraseAt | container/vector/vector.go:68-70 | Ok exactly for index in [0, Size()), removing that one element and keeping the buffer; otherwise OutOfRange and no change |
| Vectors.Vector.EraseIndexRange | container/vector/vector.go:72-84 | a reversed range is a successful no-op; OutOfRange with no change when first < 0 or last > Size(); otherwise old[..first] + old[last..] in the same buffer |
| Vectors.Vector.At | container/vector/vector.go:86-92 | Some(element) exactly for index in [0, Size()), None otherwise |
| Vectors.Vector.Front | container/vector/vector.go:94-97 | the first element, or None on an empty vector |
| Vectors.Vector.Back | container/vector/vector.go:99-102 | the last element, or None on an empty vector |
| Vectors.Vector.PopBack | container/vector/vector.go:104-112 | on an empty vector None and no change; otherwise returns the old last element and drops it, keeping the buffer |
| Vectors.Vector.Reserve | container/vector/vector.go:114-123 | elements unchanged; capacity becomes the larger of the old one and the request; no reallocation when the old capacity suffices |
| Vectors.Vector.ShrinkToFit | container/vector/vector.go:125-135 | elements unchanged and capacity equals size afterwards; no reallocation when already tight |
| Vectors.Vector.Clear | container/vector/vector.go:137-139 | no elements remain and the buffer, hence the capacity, is kept |
| Vectors.Vector.Data | container/vector/vector.go:141-143 | the elements in order: position i holds what At(i) returns |
| Vectors.Vector.Begin | container/vector/vector.go:145-147 | an iterator on this vector at cursor 0, whose value is Front() |
| Vectors.Vector.End | container/vector/vector.go:149-151 | an iterator on this vector whose value is None and which Next leaves in place |
| Vectors.Vector.RBegin | container/vector/vector.go:153-155 | a reverse iterator on this vector at cursor Size() - 1, whose value is Back() |
| Vectors.Vector.REnd | container/vector/vector.go:157-159 | a reverse iterator whose value is None and which Next leaves in place |
| Vectors.Vector.Insert | container/vector/vector.go:161-164 | InsertAt at the iterator's cursor, returning the same iterator, which then shows val; capacity never shrinks and the buffer is kept on error or when there was room |
| Vectors.Vector.Erase | container/vector/vector.go:166-169 | EraseAt at the iterator's cursor, keeping the buffer; the returned iterator then shows the element that followed the erased one |
| Vectors.Vector.EraseRange | container/vector/vector.go:171-176 | EraseIndexRange over the two cursors, keeping the buffer; the returned iterator at first shows what was at last |
| Vectors.Vector.Resize | container/vector/vector.go:178-183 | truncates to old[..n] when n < Size(), otherwise no change; the buffer is kept either way |
| Vectors.Vector.Swap | container/vector/vector.go:185-187 | each vector ends with the other's buffer and elements |
| Vectors.VectorIterator.Next | container/vector/vector.go:198-204 | same vector; one step forward below End, and End otherwise; never past Size() |
| Vectors.VectorIterator.Advance | container/vector/vector.go:198-204 | repeated Next stays on the same vector |
| Vectors.VectorIterator.Value | container/vector/vector.go:206-209 | the element at the cursor, or None outside [0, Size()) |
| Vectors.VectorIterator.Set | container/vector/vector.go:211-213 | SetAt at the cursor |
| Vectors.VectorIterator.Equal | container/vector/vector.go:215-224 | true exactly when both iterators hold the same vector reference and cursor |
| Vectors.VectorReverseIterator.Next | container/vector/vector.go:231-237 | same vector; one step back above -1, and -1 otherwise; never below REnd |
| Vectors.VectorReverseIterator.Advance | container/vector/vector.go:231-237 | repeated Next stays on the same vector |
| Vectors.VectorReverseIterator.Set | container/vector/vector.go:239-241 | SetAt at the cursor |
| Vectors.VectorReverseIterator.Value | container/vector/vector.go:243-245 | the element at the cursor, or None outside [0, Size()) |
| Vectors.VectorReverseIterator.Equal | container/vector/vector.go:247-256 | true exactly when both iterators hold the same vector reference and cursor |
| Vectors.AdvanceClamps | container/vector/vector.go:198-204 | k forward steps from a cursor at or before End reach min(cur + k, Size()) |
| Vectors.ReverseAdvanceClamps | container/vector/vector.go:231-237 | k reverse steps from a cursor at or after REnd reach max(cur - k, -1) |
| Vectors.BeginWalksToEnd | container/vector/vector.go:145-151 | Size() steps from Begin reach End, and after k steps the value is the k-th element |
| Vectors.RBeginWalksToREnd | container/vector/vector.go:153-159 | Size() steps from RBegin reach REnd, and after k steps the value is element Size() - 1 - k |
| Vectors.AtAgreesWithCodeExceptAtEnd | container/vector/vector.go:86-92 | the strict At and the code's guard agree at every index except Size(), where the code panics and At returns None |
| VectorSpec.SetOutcome | container/vector/vector.go:48-54 | Ok iff index in [0, len(s)); length kept; only position index may change, to v |
| VectorSpec.InsertOutcome | container/vector/vector.go:56-66 | Ok iff index in [0, len(s)]; on error s is unchanged; on success v at index, prefix kept, suffix shifted up by one |
| VectorSpec.EraseRangeOutcome | container/vector/vector.go:72-84 | no-op Ok when first > last; OutOfRange iff first <= last and the range leaves [0, len(s)]; on success the length drops by last - first and the rest keeps its order |
| VectorSpec.EraseAtOutcome | container/vector/vector.go:68-70 | Ok iff index in [0, len(s)), then the result is s without position index; otherwise unchanged |
| VectorSpec.InsertThenEraseRestores | container/vector/vector.go:56-70 | erasing at the index just inserted at gives back the original sequence |
| VectorSpec.EraseEmptyRangeIsNoOp | container/vector/vector.go:72-84 | erasing [i, i) inside the vector succeeds and changes nothing |
| VectorSpec.EraseRangeSplits | container/vector/vector.go:72-84 | erasing [first, mid) and then the remaining stretch at first equals erasing [first, last) at once |
| VectorSpec.AtAsWritten | container/vector/vector.go:86-92 | the code's At: nil below 0 or above Size(), an element inside, a panic exactly at index Size() |
| VectorSpec.FrontAsWrittenPanicsOnEmpty | container/vector/vector.go:94-97 | Front() on an empty vector reaches the out-of-range slice access |
| VectorSpec.WrapInt64 | container/vector/vector.go:69 | Go's 64-bit int wrap: identity in range, MaxInt64 + 1 wraps to MinInt64 |
| VectorSpec.EraseAtAsWritten | container/vector/vector.go:68-70 | with 64-bit index + 1 the code agrees with EraseAtOutcome below MaxInt64 and is a silent Ok no-op at MaxInt64 |
| VectorSpec.EraseAtMaxInt64SwallowsOutOfRange | container/vector/vector.go:68-70 | EraseAt(MaxInt64) reports Ok as written, where the intended result is OutOfRange |

## Left out

- `String()` (debug formatting through `fmt`) is not modelled. It is a call into a foreign library.
- `Data()` returns the elements as a value. Go returns the live backing slice, and writes through that alias are not modelled.
- Dynamic typing is replaced by one element type `T` per vector. This covers `interface{}` elements and the type assertions `iter.(*VectorIterator)`. An `Equal` between iterators of different kinds, which Go answers with `false`, cannot be written in the model.
- The `Iterator` and `ReverseIterator` interfaces of the `container` package are not part of this model. Only the methods implemented in this file are modelled.
- `ErrEmpty` and `ErrInvalidIterator` are declared but used nowhere, so they are left out.
- Vectors.Vector.PushBack: Go's append growth factor is not modelled. The model doubles the capacity (minimum 1), and the contract promises only that capacity does not shrink and that the buffer is reused when there is room.
- Vectors.Vector.InsertAt: inherits the same abstraction of append's growth.
- Vectors.Vector.New: the capacity is a `nat`. A negative capacity makes Go's `make` panic.
- Vectors.Vector.Resize: the size is a `nat`. A negative size makes Go's slice expression panic.
- Integer width: apart from `EraseAt` (see Findings), all indices are unbounded integers. The only other arithmetic is the iterator cursor's step by one (container/vector/vector.go:199, :232), `Size() - 1` in `Back` and `RBegin` (:101, :154) and the index of `InsertAt`'s shift loop (:61). All of these stay within sizes the vector really had, so 64-bit wrap-around does not arise there.
- Vectors.Vector.Reserve: `make` panics when asked for a capacity no allocation can serve. That panic is not modelled: any requested capacity is granted.
- Concurrency is not modelled. The code has none.

## Findings

| source | as written | input that shows it | evidently intended | confidence | as-written member | corrected member |
|---|---|---|---|---|---|---|
| container/vector/vector.go:88 | the guard rejects only `index < 0` and `index > Size()`, so `index == Size()` reaches `this.data[index]`, which panics | `Front()` on an empty vector; `At(Size())`; `End().Value()` | return nil for every index outside `[0, Size())`, as the doc comments of At, Front and Back say | not executed | VectorSpec.AtAsWritten | Vectors.Vector.At |
| container/vector/vector.go:69 | `index + 1` is a 64-bit int, so `EraseAt(MaxInt64)` calls `EraseIndexRange(MaxInt64, MinInt64)`, whose `first > last` test returns nil | `EraseAt(9223372036854775807)` on any vector | report ErrOutOffRange for an index outside `[0, Size())` | not executed | VectorSpec.EraseAtMaxInt64SwallowsOutOfRange | VectorSpec.EraseAtOutcome |
