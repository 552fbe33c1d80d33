/**
 * The vector container of container/vector/vector.go: a Vector whose backing
 * storage is an array (its length is the capacity) of which the first `size`
 * slots hold the elements, and two iterators that pair a Vector reference
 * with an integer cursor.
 *
 * Go's iterators are never updated after they are built (Next returns a new
 * one), so they are datatypes here; the Vector is a class and its mutators
 * are methods that state the new element sequence in terms of the old one,
 * through the value-level functions of module VectorSpec.
 */
module Vectors {
  import opened VectorSpec

  /** A fresh buffer of the given capacity whose first n slots copy src's. */
  method CopyPrefix<T(0)>(src: array<T>, n: nat, capacity: nat) returns (dst: array<T>)
    requires n <= src.Length && n <= capacity
    ensures fresh(dst) && dst.Length == capacity
    ensures dst[..n] == src[..n]
  {
    dst := new T[capacity];
    var i := 0;
    while i < n
      invariant 0 <= i <= n
      invariant forall k :: 0 <= k < i ==> dst[k] == src[k]
    {
      dst[i] := src[i];
      i := i + 1;
    }
    assert forall k :: 0 <= k < n ==> dst[..n][k] == src[..n][k];
  }

  class Vector<T(0)> {
    var data: array<T>
    var size: nat

    /** The slice invariant: the length never exceeds the capacity. */
    ghost predicate Valid()
      reads this
    {
      size <= data.Length
    }

    /** The abstract value: the elements at positions 0 .. size - 1. */
    ghost function Elements(): seq<T>
      reads this, data
      requires Valid()
    {
      data[..size]
    }

    /** New(capacity): an empty vector with room for capacity elements. */
    constructor New(capacity: nat)
      ensures Valid() && fresh(data)
      ensures Elements() == [] && data.Length == capacity
    {
      data := new T[capacity];
      size := 0;
    }

    /** NewFromVector(other): same size, same capacity, same elements, own storage. */
    constructor FromVector(other: Vector<T>)
      requires other.Valid()
      ensures Valid() && fresh(data)
      ensures Elements() == other.Elements() && data.Length == other.data.Length
    {
      var copy := CopyPrefix(other.data, other.size, other.data.Length);
      data, size := copy, other.size;
    }

    function Size(): (n: nat)
      reads this, data
      requires Valid()
      ensures n == |Elements()|
    {
      size
    }

    function Capacity(): (c: nat)
      reads this, data
      requires Valid()
      ensures Size() <= c
    {
      data.Length
    }

    function Empty(): (b: bool)
      reads this, data
      requires Valid()
      ensures b <==> Elements() == []
    {
      size == 0
    }

    /** At with the strict domain [0, Size()); see AtAsWritten for the code's guard. */
    function At(index: int): (r: Option<T>)
      reads this, data
      requires Valid()
      ensures r.Some? <==> 0 <= index < |Elements()|
      ensures r.Some? ==> r.value == Elements()[index]
    {
      if index < 0 || index >= size then None else Some(data[index])
    }

    function Front(): (r: Option<T>)
      reads this, data
      requires Valid()
      ensures r == if Elements() == [] then None else Some(Elements()[0])
    {
      At(0)
    }

    function Back(): (r: Option<T>)
      reads this, data
      requires Valid()
      ensures r == if Elements() == [] then None else Some(Elements()[|Elements()| - 1])
    {
      At(size - 1)
    }

    /** Data(): the current elements, in order (as a value, not as an alias). */
    function Data(): (r: seq<T>)
      reads this, data
      requires Valid()
      ensures |r| == Size()
      ensures forall i :: 0 <= i < |r| ==> At(i) == Some(r[i])
    {
      data[..size]
    }

    /**
     * PushBack is Go's append: in place when there is room, otherwise into
     * a fresh, larger buffer.
     */
    method PushBack(val: T)
      requires Valid()
      modifies this, data
      ensures Valid()
      ensures Elements() == old(Elements()) + [val]
      ensures Capacity() >= old(Capacity())
      ensures old(size) < old(data.Length) ==> data == old(data)
      ensures old(size) == old(data.Length) ==> fresh(data)
    {
      if size == data.Length {
        var newCapacity := if data.Length == 0 then 1 else 2 * data.Length;
        data := CopyPrefix(data, size, newCapacity);
      }
      data[size] := val;
      size := size + 1;
    }

    method SetAt(index: int, val: T) returns (status: Status)
      requires Valid()
      modifies data
      ensures Valid()
      ensures Outcome(status, Elements()) == SetOutcome(old(Elements()), index, val)
    {
      if index < 0 || index >= size {
        return OutOfRange;
      }
      data[index] := val;
      status := Ok;
    }

    /** InsertAt appends val, then shifts the tail up one slot at a time. */
    method InsertAt(index: int, val: T) returns (status: Status)
      requires Valid()
      modifies this, data
      ensures Valid()
      ensures Outcome(status, Elements()) == InsertOutcome(old(Elements()), index, val)
      ensures Capacity() >= old(Capacity())
      ensures status == OutOfRange || old(size) < old(data.Length) ==> data == old(data)
      ensures data == old(data) || fresh(data)
    {
      if index < 0 || index > size {
        return OutOfRange;
      }
      ghost var s := data[..size];
      PushBack(val);
      var i := size - 1;
      while i > index
        modifies data
        invariant index <= i <= |s|
        invariant size == |s| + 1 <= data.Length
        invariant forall k :: 0 <= k < i ==> data[k] == s[k]
        invariant forall k :: i < k < size ==> data[k] == s[k - 1]
      {
        data[i] := data[i - 1];
        i := i - 1;
      }
      data[index] := val;
      status := Ok;
      ghost var o := InsertOutcome(s, index, val).elems;
      assert forall k :: 0 <= k < size ==> data[..size][k] == o[k];
    }

    method EraseAt(index: int) returns (status: Status)
      requires Valid()
      modifies this, data
      ensures Valid() && data == old(data)
      ensures Outcome(status, Elements()) == EraseAtOutcome(old(Elements()), index)
    {
      status := EraseIndexRange(index, index + 1);
    }

    /**
     * EraseIndexRange is append(data[:first], data[last:]...): the tail is
     * copied down inside the same buffer, so the capacity is kept.
     */
    method EraseIndexRange(first: int, last: int) returns (status: Status)
      requires Valid()
      modifies this, data
      ensures Valid() && data == old(data)
      ensures Outcome(status, Elements()) == EraseRangeOutcome(old(Elements()), first, last)
    {
      if first > last {
        return Ok;
      }
      if first < 0 || last > size {
        return OutOfRange;
      }
      ghost var s := data[..size];
      var gap := last - first;
      forall k | first <= k < size - gap {
        data[k] := data[k + gap];
      }
      size := size - gap;
      status := Ok;
      ghost var o := EraseRangeOutcome(s, first, last).elems;
      assert forall k :: 0 <= k < size ==> data[..size][k] == o[k];
    }

    method PopBack() returns (r: Option<T>)
      requires Valid()
      modifies this
      ensures Valid() && data == old(data)
      ensures old(Elements()) == [] ==> r == None && Elements() == []
      ensures old(Elements()) != [] ==>
        && r == Some(old(Elements())[old(size) - 1])
        && Elements() == old(Elements())[..old(size) - 1]
    {
      if Empty() {
        return None;
      }
      r := Back();
      size := size - 1;
    }

    method Reserve(capacity: int)
      requires Valid()
      modifies this
      ensures Valid() && Elements() == old(Elements())
      ensures Capacity() == if old(Capacity()) >= capacity then old(Capacity()) else capacity
      ensures old(Capacity()) >= capacity ==> data == old(data)
      ensures old(Capacity()) < capacity ==> fresh(data)
    {
      if data.Length >= capacity {
        return;
      }
      data := CopyPrefix(data, size, capacity);
    }

    method ShrinkToFit()
      requires Valid()
      modifies this
      ensures Valid() && Elements() == old(Elements())
      ensures Capacity() == Size()
      ensures old(Size()) == old(Capacity()) ==> data == old(data)
      ensures old(Size()) < old(Capacity()) ==> fresh(data)
    {
      if size == data.Length {
        return;
      }
      data := CopyPrefix(data, size, size);
    }

    method Clear()
      requires Valid()
      modifies this
      ensures Valid() && data == old(data)
      ensures Elements() == []
    {
      size := 0;
    }

    /** Resize only truncates; a size at or above the current one changes nothing. */
    method Resize(n: nat)
      requires Valid()
      modifies this
      ensures Valid() && data == old(data)
      ensures Elements() == if n >= old(size) then old(Elements()) else old(Elements())[..n]
    {
      if n >= size {
        return;
      }
      size := n;
    }

    /** Swap exchanges the two vectors' storage, length and capacity. */
    method Swap(other: Vector<T>)
      requires Valid() && other.Valid()
      modifies this, other
      ensures Valid() && other.Valid()
      ensures data == old(other.data) && other.data == old(data)
      ensures Elements() == old(other.Elements()) && other.Elements() == old(Elements())
    {
      data, other.data := other.data, data;
      size, other.size := other.size, size;
    }

    function Begin(): (it: VectorIterator<T>)
      reads this, data
      requires Valid()
      ensures it.vec == this && it.cur == 0
      ensures it.Value() == Front()
    {
      VectorIterator(this, 0)
    }

    function End(): (it: VectorIterator<T>)
      reads this, data
      requires Valid()
      ensures it.vec == this && it.Value() == None
      ensures it.Next() == it
    {
      VectorIterator(this, size)
    }

    function RBegin(): (it: VectorReverseIterator<T>)
      reads this, data
      requires Valid()
      ensures it.vec == this && it.cur == Size() - 1
      ensures it.Value() == Back()
    {
      VectorReverseIterator(this, size - 1)
    }

    function REnd(): (it: VectorReverseIterator<T>)
      reads this, data
      requires Valid()
      ensures it.vec == this && it.Value() == None
      ensures it.Next() == it
    {
      VectorReverseIterator(this, -1)
    }

    /**
     * Insert at an iterator's cursor.  Go returns only the iterator and drops
     * InsertAt's error; the model also hands that status back.
     */
    method Insert(iter: VectorIterator<T>, val: T) returns (it: VectorIterator<T>, status: Status)
      requires Valid()
      modifies this, data
      ensures Valid() && it == iter
      ensures Outcome(status, Elements()) == InsertOutcome(old(Elements()), iter.cur, val)
      ensures status == Ok && iter.vec == this ==> it.Value() == Some(val)
      ensures Capacity() >= old(Capacity())
      ensures status == OutOfRange || old(size) < old(data.Length) ==> data == old(data)
      ensures data == old(data) || fresh(data)
    {
      status := InsertAt(iter.cur, val);
      it := iter;
    }

    /** Erase at an iterator's cursor; the returned iterator now sees the next element. */
    method Erase(iter: VectorIterator<T>) returns (it: VectorIterator<T>, status: Status)
      requires Valid()
      modifies this, data
      ensures Valid() && it == iter && data == old(data)
      ensures Outcome(status, Elements()) == EraseAtOutcome(old(Elements()), iter.cur)
      ensures status == Ok && iter.vec == this ==> it.Value() == old(At(iter.cur + 1))
    {
      status := EraseAt(iter.cur);
      it := iter;
    }

    /** Erase [first, last); the returned iterator sits where the range began. */
    method EraseRange(first: VectorIterator<T>, last: VectorIterator<T>)
      returns (it: VectorIterator<T>, status: Status)
      requires Valid()
      modifies this, data
      ensures Valid() && it == VectorIterator(this, first.cur) && data == old(data)
      ensures Outcome(status, Elements()) == EraseRangeOutcome(old(Elements()), first.cur, last.cur)
      ensures status == Ok && first.cur <= last.cur ==> it.Value() == old(At(last.cur))
    {
      status := EraseIndexRange(first.cur, last.cur);
      it := VectorIterator(this, first.cur);
    }
  }

  /** A forward iterator: cursor domain [0, Size()], with Size() the End sentinel. */
  datatype VectorIterator<T(0)> = VectorIterator(vec: Vector<T>, cur: int) {

    /** One step forward, clamped at End: it never moves past Size(). */
    function Next(): (r: VectorIterator<T>)
      reads vec, vec.data
      requires vec.Valid()
      ensures r.vec == vec && r.cur <= vec.Size()
      ensures cur < vec.Size() ==> r.cur == cur + 1
      ensures cur >= vec.Size() ==> r.cur == vec.Size()
    {
      var index := cur + 1;
      VectorIterator(vec, if index > vec.size then vec.size else index)
    }

    /** Next applied k times. */
    function Advance(k: nat): (r: VectorIterator<T>)
      reads vec, vec.data
      requires vec.Valid()
      ensures r.vec == vec
      decreases k
    {
      if k == 0 then this else Next().Advance(k - 1)
    }

    function Value(): (r: Option<T>)
      reads vec, vec.data
      requires vec.Valid()
      ensures r.Some? <==> 0 <= cur < vec.Size()
      ensures r.Some? ==> r.value == vec.Elements()[cur]
    {
      vec.At(cur)
    }

    method Set(val: T) returns (status: Status)
      requires vec.Valid()
      modifies vec.data
      ensures vec.Valid()
      ensures Outcome(status, vec.Elements()) == SetOutcome(old(vec.Elements()), cur, val)
    {
      status := vec.SetAt(cur, val);
    }

    /** Same vector reference and same cursor. */
    function Equal(other: VectorIterator<T>): (b: bool)
      ensures b <==> this == other
    {
      vec == other.vec && other.cur == cur
    }
  }

  /** A reverse iterator: cursor domain [-1, Size() - 1], with -1 the REnd sentinel. */
  datatype VectorReverseIterator<T(0)> = VectorReverseIterator(vec: Vector<T>, cur: int) {

    /** One step backward, clamped at REnd: it never moves below -1. */
    function Next(): (r: VectorReverseIterator<T>)
      ensures r.vec == vec && r.cur >= -1
      ensures cur > -1 ==> r.cur == cur - 1
      ensures cur <= -1 ==> r.cur == -1
    {
      var index := cur - 1;
      VectorReverseIterator(vec, if index < -1 then -1 else index)
    }

    /** Next applied k times. */
    function Advance(k: nat): (r: VectorReverseIterator<T>)
      ensures r.vec == vec
      decreases k
    {
      if k == 0 then this else Next().Advance(k - 1)
    }

    function Value(): (r: Option<T>)
      reads vec, vec.data
      requires vec.Valid()
      ensures r.Some? <==> 0 <= cur < vec.Size()
      ensures r.Some? ==> r.value == vec.Elements()[cur]
    {
      vec.At(cur)
    }

    method Set(val: T) returns (status: Status)
      requires vec.Valid()
      modifies vec.data
      ensures vec.Valid()
      ensures Outcome(status, vec.Elements()) == SetOutcome(old(vec.Elements()), cur, val)
    {
      status := vec.SetAt(cur, val);
    }

    /** Same vector reference and same cursor. */
    function Equal(other: VectorReverseIterator<T>): (b: bool)
      ensures b <==> this == other
    {
      vec == other.vec && other.cur == cur
    }
  }

  /** k forward steps from a cursor at or before End land at min(cur + k, Size()). */
  lemma {:induction false} AdvanceClamps<T(0)>(it: VectorIterator<T>, k: nat)
    requires it.vec.Valid() && it.cur <= it.vec.Size()
    ensures it.Advance(k).cur == if it.cur + k <= it.vec.Size() then it.cur + k else it.vec.Size()
    decreases k
  {
    if k > 0 {
      AdvanceClamps(it.Next(), k - 1);
    }
  }

  /** k reverse steps from a cursor at or after REnd land at max(cur - k, -1). */
  lemma {:induction false} ReverseAdvanceClamps<T(0)>(it: VectorReverseIterator<T>, k: nat)
    requires it.cur >= -1
    ensures it.Advance(k).cur == if it.cur - k >= -1 then it.cur - k else -1
    decreases k
  {
    if k > 0 {
      ReverseAdvanceClamps(it.Next(), k - 1);
    }
  }

  /** Size() steps from Begin reach End, and the k-th step shows the k-th element. */
  lemma BeginWalksToEnd<T(0)>(v: Vector<T>)
    requires v.Valid()
    ensures v.Begin().Advance(v.Size()) == v.End()
    ensures forall k: nat :: k < v.Size() ==> v.Begin().Advance(k).Value() == Some(v.Elements()[k])
  {
    AdvanceClamps(v.Begin(), v.Size());
    forall k: nat | k < v.Size()
      ensures v.Begin().Advance(k).Value() == Some(v.Elements()[k])
    {
      AdvanceClamps(v.Begin(), k);
    }
  }

  /** Size() steps from RBegin reach REnd, visiting the elements last to first. */
  lemma RBeginWalksToREnd<T(0)>(v: Vector<T>)
    requires v.Valid()
    ensures v.RBegin().Advance(v.Size()) == v.REnd()
    ensures forall k: nat :: k < v.Size() ==>
      v.RBegin().Advance(k).Value() == Some(v.Elements()[v.Size() - 1 - k])
  {
    ReverseAdvanceClamps(v.RBegin(), v.Size());
    forall k: nat | k < v.Size()
      ensures v.RBegin().Advance(k).Value() == Some(v.Elements()[v.Size() - 1 - k])
    {
      ReverseAdvanceClamps(v.RBegin(), k);
    }
  }

  /** The strict At agrees with the code's At everywhere except at index Size(). */
  lemma AtAgreesWithCodeExceptAtEnd<T(0)>(v: Vector<T>, index: int)
    requires v.Valid()
    ensures index != v.Size() ==>
      match AtAsWritten(v.Elements(), index)
      case Nil => v.At(index) == None
      case Element(x) => v.At(index) == Some(x)
      case Panic => false
    ensures index == v.Size() ==> v.At(index) == None && AtAsWritten(v.Elements(), index) == Panic
  {
  }
}
