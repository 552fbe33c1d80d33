/**
 * A client of the vector that knows only the contracts: an index-based walk
 * (push, insert, erase, pop), a forward and reverse iterator walk, and a copy
 * followed by a write and a swap, each step proved from the specifications.
 */
module VectorClient {
  import opened VectorSpec
  import opened Vectors

  /** Push 1, 2, 3; insert 99 at 1; erase at 0; erase [1, 3); pop the last one. */
  method IndexWalk() {
    var v := new Vector<int>.New(0);
    v.PushBack(1);
    v.PushBack(2);
    v.PushBack(3);
    assert v.Elements() == [1, 2, 3];
    assert v.Size() == 3 && v.At(0) == Some(1) && v.At(2) == Some(3);
    var st := v.InsertAt(1, 99);
    assert st == Ok && v.Elements() == [1, 99, 2, 3];
    st := v.EraseAt(0);
    assert st == Ok && v.Elements() == [99, 2, 3];
    st := v.EraseIndexRange(1, 3);
    assert st == Ok && v.Elements() == [99];
    var r := v.PopBack();
    assert r == Some(99) && v.Empty();
    r := v.PopBack();
    assert r == None && v.Size() == 0;
    st := v.SetAt(0, 7);
    assert st == OutOfRange && v.Elements() == [];
  }

  /** Walk [10, 20, 30] forward to End and backward to REnd. */
  method IteratorWalk() {
    var v := new Vector<int>.New(3);
    v.PushBack(10);
    v.PushBack(20);
    v.PushBack(30);
    assert v.Elements() == [10, 20, 30];
    var it := v.Begin();
    assert it.Value() == Some(10);
    it := it.Next().Next();
    assert it.Value() == Some(30);
    it := it.Next();
    assert it.Equal(v.End()) && it.Value() == None;
    var rit := v.RBegin();
    assert rit.Value() == Some(30);
    rit := rit.Next();
    assert rit.Value() == Some(20);
    rit := rit.Next().Next();
    assert rit.Equal(v.REnd()) && rit.Value() == None;
  }

  /** Erasing and inserting through an iterator keep, or only grow, the capacity. */
  method IteratorEditKeepsCapacity() {
    var v := new Vector<int>.New(2);
    v.PushBack(10);
    v.PushBack(20);
    var c := v.Capacity();
    var e, st := v.Erase(v.Begin());
    assert st == Ok && e.Value() == Some(20) && v.Elements() == [20];
    assert v.Capacity() == c;
    e, st := v.Insert(e, 15);
    assert st == Ok && v.Elements() == [15, 20] && v.Capacity() >= c;
  }

  /** A copy has its own storage: writing to it leaves the original as it was. */
  method CopyIsIndependent() {
    var v := new Vector<int>.New(4);
    v.PushBack(1);
    v.PushBack(2);
    var w := new Vector<int>.FromVector(v);
    assert w.Elements() == [1, 2] && w.Capacity() == v.Capacity();
    var st := w.SetAt(0, 5);
    assert st == Ok && w.Elements() == [5, 2];
    assert v.Elements() == [1, 2];
    v.Swap(w);
    assert v.Elements() == [5, 2] && w.Elements() == [1, 2];
  }
}
