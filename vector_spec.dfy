/**
 * Value-level specification of the vector container: what each fallible
 * index-based operation does to the abstract element sequence, stated as a
 * pure function from the old sequence to the reported status and the new
 * sequence.  The class in module Vectors is proved against these functions.
 *
 * The module also holds the two places where the Go code as written differs
 * from what it evidently intends (see README "## Findings"): the bounds guard
 * of At, and the 64-bit wrap-around of index + 1 in EraseAt.
 */
module VectorSpec {

  /** The error a fallible vector operation reports: nil or ErrOutOffRange. */
  datatype Status = Ok | OutOfRange

  /** The "returns nil" results of At, Front, Back, PopBack and Value. */
  datatype Option<T> = None | Some(value: T)

  /** What a fallible mutation reports, together with the sequence it leaves. */
  datatype Outcome<T> = Outcome(status: Status, elems: seq<T>)

  /** SetAt: overwrite one position; indices outside [0, |s|) are refused. */
  function SetOutcome<T>(s: seq<T>, index: int, v: T): (o: Outcome<T>)
    ensures o.status == Ok <==> 0 <= index < |s|
    ensures |o.elems| == |s|
    ensures forall j :: 0 <= j < |s| ==> o.elems[j] == if j == index then v else s[j]
  {
    if index < 0 || index >= |s| then Outcome(OutOfRange, s)
    else Outcome(Ok, s[index := v])
  }

  /** InsertAt: v becomes the element at index and the tail moves one place up. */
  function InsertOutcome<T>(s: seq<T>, index: int, v: T): (o: Outcome<T>)
    ensures o.status == Ok <==> 0 <= index <= |s|
    ensures o.status == OutOfRange ==> o.elems == s
    ensures o.status == Ok ==>
      && |o.elems| == |s| + 1
      && o.elems[index] == v
      && (forall j :: 0 <= j < index ==> o.elems[j] == s[j])
      && (forall j :: index < j <= |s| ==> o.elems[j] == s[j - 1])
  {
    if index < 0 || index > |s| then Outcome(OutOfRange, s)
    else Outcome(Ok, s[..index] + [v] + s[index..])
  }

  /**
   * EraseIndexRange: an empty-or-reversed range (first > last) is a
   * successful no-op; otherwise the range must lie inside [0, |s|], and the
   * elements at [last, |s|) move down to start at first.
   */
  function EraseRangeOutcome<T>(s: seq<T>, first: int, last: int): (o: Outcome<T>)
    ensures first > last ==> o == Outcome(Ok, s)
    ensures o.status == OutOfRange <==> first <= last && (first < 0 || last > |s|)
    ensures o.status == OutOfRange ==> o.elems == s
    ensures o.status == Ok && first <= last ==>
      && |o.elems| == |s| - (last - first)
      && (forall j :: 0 <= j < first ==> o.elems[j] == s[j])
      && (forall j :: first <= j < |o.elems| ==> o.elems[j] == s[j + (last - first)])
  {
    if first > last then Outcome(Ok, s)
    else if first < 0 || last > |s| then Outcome(OutOfRange, s)
    else Outcome(Ok, s[..first] + s[last..])
  }

  /** EraseAt is the one-element range [index, index + 1) on unbounded integers. */
  function EraseAtOutcome<T>(s: seq<T>, index: int): (o: Outcome<T>)
    ensures o.status == Ok <==> 0 <= index < |s|
    ensures o.status == OutOfRange ==> o.elems == s
    ensures o.status == Ok ==> o.elems == s[..index] + s[index + 1..]
  {
    EraseRangeOutcome(s, index, index + 1)
  }

  /** Erasing at the index just inserted at gives back the original sequence. */
  lemma {:induction false} InsertThenEraseRestores<T>(s: seq<T>, index: int, v: T)
    requires 0 <= index <= |s|
    ensures InsertOutcome(s, index, v).status == Ok
    ensures EraseAtOutcome(InsertOutcome(s, index, v).elems, index) == Outcome(Ok, s)
  {
    var t := InsertOutcome(s, index, v).elems;
    assert t[..index] == s[..index];
    assert t[index + 1..] == s[index..];
    assert s[..index] + s[index..] == s;
  }

  /** Erasing the empty range [i, i) succeeds for every i in [0, |s|] and changes nothing. */
  lemma EraseEmptyRangeIsNoOp<T>(s: seq<T>, i: int)
    requires 0 <= i <= |s|
    ensures EraseRangeOutcome(s, i, i) == Outcome(Ok, s)
  {
    assert s[..i] + s[i..] == s;
  }

  /**
   * Erasing [first, mid) and then [first, last - (mid - first)) erases
   * [first, last): range erasure composes.
   */
  lemma EraseRangeSplits<T>(s: seq<T>, first: int, mid: int, last: int)
    requires 0 <= first <= mid <= last <= |s|
    ensures EraseRangeOutcome(s, first, mid).status == Ok
    ensures EraseRangeOutcome(EraseRangeOutcome(s, first, mid).elems, first, last - (mid - first))
         == EraseRangeOutcome(s, first, last)
  {
    var t := EraseRangeOutcome(s, first, mid).elems;
    var u := EraseRangeOutcome(t, first, last - (mid - first)).elems;
    var w := EraseRangeOutcome(s, first, last).elems;
    assert |u| == |w|;
    forall j | 0 <= j < |u| ensures u[j] == w[j] {
      if j >= first {
        assert u[j] == t[j + (last - mid)];
      }
    }
  }

  // ---------------------------------------------------------------------
  // Findings: the code as written.

  /** What Go's At does: nil, an element, or an index-out-of-range panic. */
  datatype Access<T> = Nil | Element(value: T) | Panic

  /**
   * At as written: its guard rejects only index < 0 and index > |s|, so
   * index == |s| reaches the slice access, which Go bounds-checks against
   * the length and turns into a panic.
   */
  function AtAsWritten<T>(s: seq<T>, index: int): (a: Access<T>)
    ensures a == Panic <==> index == |s|
    ensures a.Element? <==> 0 <= index < |s|
    ensures a.Element? ==> a.value == s[index]
  {
    if index < 0 || index > |s| then Nil
    else if index < |s| then Element(s[index])
    else Panic
  }

  /** Front() is At(0): on an empty vector the guard lets 0 through and the access panics. */
  lemma FrontAsWrittenPanicsOnEmpty<T>()
    ensures AtAsWritten<T>([], 0) == Panic
  {
  }

  const MinInt64: int := -0x8000_0000_0000_0000
  const MaxInt64: int := 0x7fff_ffff_ffff_ffff

  predicate IsInt64(x: int) {
    MinInt64 <= x <= MaxInt64
  }

  /** Go's two's-complement wrap-around of a 64-bit int. */
  function WrapInt64(x: int): (r: int)
    ensures IsInt64(r)
    ensures IsInt64(x) ==> r == x
    ensures x == MaxInt64 + 1 ==> r == MinInt64
  {
    (x - MinInt64) % 0x1_0000_0000_0000_0000 + MinInt64
  }

  /** EraseAt as written: index + 1 is computed in a 64-bit int. */
  function EraseAtAsWritten<T>(s: seq<T>, index: int): (o: Outcome<T>)
    requires IsInt64(index)
    ensures index < MaxInt64 ==> o == EraseAtOutcome(s, index)
    ensures index == MaxInt64 ==> o == Outcome(Ok, s)
  {
    EraseRangeOutcome(s, index, WrapInt64(index + 1))
  }

  /**
   * EraseAt(MaxInt64) reports success although no vector holds that many
   * elements: index + 1 wraps to MinInt64 and the range reads as reversed.
   */
  lemma EraseAtMaxInt64SwallowsOutOfRange<T>(s: seq<T>)
    requires |s| <= MaxInt64
    ensures EraseAtAsWritten(s, MaxInt64) == Outcome(Ok, s)
    ensures EraseAtOutcome(s, MaxInt64) == Outcome(OutOfRange, s)
  {
  }
}
