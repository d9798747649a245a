/** Short runs on a list after which its links are not right, or a sort fails. */
module ListFindings {
  import opened LinkCells
  import opened ListOrder
  import opened ListSift
  import opened LinkedList

  /** src/lib/linklist.c:549-552: the only entry of a list is removed. */
  method RemoveOnlyEntry() returns (list: LinkedList)
    ensures list.Contents() == [] && !list.Valid()
  {
    list := new LinkedList();
    list.PushValue(5);
    var e := list.RemoveEntry(0);
  }

  /** src/lib/linklist.c:383-388 and 1132: a list is sorted into whose middle an entry was inserted. */
  method SortAfterInsert() returns (list: LinkedList, ok: bool)
    ensures !ok
  {
    list := ThreeValues();
    InsertSecond(list);
    CannotSort(list.Line());
    ok := list.Sort(Difference);
  }

  method ThreeValues() returns (list: LinkedList)
    ensures fresh(list) && fresh(list.cells.Keys) && list.Valid() && list.Contents() == [3, 1, 2]
  {
    list := new LinkedList();
    list.PushValue(3);
    list.PushValue(1);
    list.PushValue(2);
  }

  method InsertSecond(list: LinkedList)
    requires list.Valid() && list.Contents() == [3, 1, 2]
    modifies list, list.cells.Keys
    ensures list.Valid() && fresh(list.cells.Keys - old(list.cells).Keys)
    ensures list.Line().values == [3, 5, 1, 2] && !list.Line().named[1]
  {
    var e := list.NewEntry(5);
    list.InsertEntry(e, 1);
    PaddedPut([3, 1, 2], 1, 5);
    assert list.nodes[1] == e;
  }

  function Difference(a: Value, b: Value): int {
    a - b
  }

  /** The entry that does not name the list is the first pivot, and belongs before the entry on its left. */
  lemma CannotSort(r: Row)
    requires Matched(r) && r.values == [3, 5, 1, 2] && !r.named[1]
    ensures !CanSort(r, Difference) && Preorder(Difference)
  {
    var p := Part(r, 0, 1, 3);
    assert FirstPivot(4) == 1;
    SiftWhen(p, 5, Difference);
    assert Lows(r.values, 0, 1, 5, Difference) == 1 + Lows(r.values, 1, 1, 5, Difference);
    assert Highs(r.values, 2, 4, 5, Difference) == Highs(r.values, 2, 3, 5, Difference);
    assert Highs(r.values, 2, 3, 5, Difference) == Highs(r.values, 2, 2, 5, Difference);
    forall a, b, c ensures OrderedAt(Difference, a, b, c) {
    }
  }
}
