/** The doubly linked list with a cursor of src/lib/linklist.c. */
module LinkedList {
  import opened Sequences
  import opened LinkCells
  import opened Options
  import opened ListOrder
  import opened ListSift

  class LinkedList {
    var head: Entry?
    var tail: Entry?
    /** The entry that was picked last, and its position. */
    var cur: Entry?
    var pos: nat
    var length: nat
    /** The entries of the list in their order. */
    ghost var nodes: seq<Entry>
    /** The fields of all entries that were made for the list. */
    ghost var cells: Cells

    /** The entries are linked, from head to tail. */
    ghost predicate Well()
      reads this`head, this`tail, this`length, this`nodes, this`cells, cells.Keys
    {
      && Stored(cells) && Chain(cells, nodes) && Spare(cells, nodes)
      && head == At(nodes, 0) && tail == At(nodes, |nodes| - 1) && length == |nodes|
    }

    /** The cursor, if any, is the entry at its position. */
    ghost predicate Valid()
      reads this, cells.Keys
    {
      Well() && (cur != null ==> At(nodes, pos) == cur)
    }

    ghost function Contents(): seq<Value>
      reads this`nodes, this`cells
    {
      Values(cells, nodes)
    }

    /** src/lib/linklist.c:61-95 */
    constructor ()
      ensures Valid() && Contents() == [] && cells == map[]
    {
      head, tail, cur, pos, length := null, null, null, 0, 0;
      nodes, cells := [], map[];
    }

    // ----- single steps

    /** Makes `n` the entry after `p`. */
    method Join(p: Entry?, n: Entry?)
      requires Stored(cells) && (p != null ==> p in cells) && (n != null ==> n in cells)
      modifies this`cells, cells.Keys
      ensures Stored(cells) && cells == Joined(old(cells), p, n)
    {
      if p != null {
        p.next := n;
        cells := cells[p := cells[p].(next := n)];
      }
      if n != null {
        n.prev := p;
        cells := cells[n := cells[n].(prev := p)];
      }
      forall x | x in cells ensures StoredAt(cells, x) {
        assert old(StoredAt(cells, x));
      }
    }

    /** src/lib/linklist.c:242-244 */
    method Free(e: Entry)
      requires Stored(cells) && e in cells
      modifies this`cells, e
      ensures Stored(cells) && cells == old(cells)[e := Freed(old(cells)[e])]
    {
      e.list, e.prev, e.next := null, null, null;
      cells := cells[e := Freed(cells[e])];
      forall x | x in cells ensures StoredAt(cells, x) {
        assert old(StoredAt(cells, x));
      }
    }

    method SetList(e: Entry)
      requires Stored(cells) && e in cells
      modifies this`cells, e
      ensures Stored(cells) && cells == old(cells)[e := old(cells)[e].(list := this)]
    {
      e.list := this;
      cells := cells[e := cells[e].(list := this)];
      forall x | x in cells ensures StoredAt(cells, x) {
        assert old(StoredAt(cells, x));
      }
    }

    method SetValue(e: Entry, v: Value)
      requires Stored(cells) && e in cells
      modifies this`cells, e
      ensures Stored(cells) && cells == old(cells)[e := old(cells)[e].(value := v)]
    {
      e.value := v;
      cells := cells[e := cells[e].(value := v)];
      forall x | x in cells ensures StoredAt(cells, x) {
        assert old(StoredAt(cells, x));
      }
    }

    /** The neighbours of the entry at index `i` are joined; the entry keeps its own links. */
    method Bridge(e: Entry, ghost i: nat)
      requires Stored(cells) && Chain(cells, nodes) && Spare(cells, nodes) && i < |nodes| && nodes[i] == e
      modifies this`cells, this`nodes, cells.Keys
      ensures Stored(cells) && SameRest(old(cells), cells) && nodes == CutOut(old(nodes), i) && e in cells
      ensures e !in nodes
      ensures Chain(cells, nodes) && Spare(cells, nodes + [e]) && Contents() == CutOut(old(Contents()), i)
    {
      assert ChainedAt(cells, nodes, i);
      assert StoredAt(cells, e);
      BridgeReady(cells, nodes, i);
      Join(e.prev, e.next);
      nodes := CutOut(nodes, i);
    }

    /** The entry at index `i` leaves the list; head, tail and cursor are left to the caller. */
    method Unlink(e: Entry, ghost i: nat)
      requires Stored(cells) && Chain(cells, nodes) && Spare(cells, nodes) && i < |nodes| && nodes[i] == e
      modifies this`cells, this`nodes, cells.Keys
      ensures Stored(cells) && cells.Keys == old(cells).Keys && nodes == CutOut(old(nodes), i)
      ensures Chain(cells, nodes) && Spare(cells, nodes) && Contents() == CutOut(old(Contents()), i)
      ensures e in cells && e !in nodes && e.value == old(Contents())[i]
      ensures old(Own(cells, nodes, this)) ==> Own(cells, nodes, this)
    {
      ghost var c, l := cells, nodes;
      Bridge(e, i);
      UnlinkDone(c, cells, l, nodes, i, this);
      Free(e);
      assert StoredAt(cells, e);
    }

    /** An entry goes between `p` and `n`, the entries at `i - 1` and `i`. */
    method Hook(e: Entry, p: Entry?, n: Entry?, ghost i: nat)
      requires Stored(cells) && Chain(cells, nodes) && Spare(cells, nodes + [e]) && i <= |nodes| && e in cells
      requires e !in nodes
      requires p == At(nodes, i - 1) && n == At(nodes, i)
      modifies this`cells, this`nodes, cells.Keys
      ensures Stored(cells) && SameRest(old(cells), cells) && nodes == InsertedAt(old(nodes), i, e) && e in nodes
      ensures Chain(cells, nodes) && Spare(cells, nodes)
      ensures Contents() == InsertedAt(old(Contents()), i, old(cells)[e].value)
    {
      HookedChain(cells, nodes, i, e);
      HookedSpare(cells, nodes, i, e);
      InsertedMembers(nodes, i, e);
      Ends(cells, nodes, i - 1);
      Ends(cells, nodes, i);
      Join(p, e);
      Join(e, n);
      nodes := InsertedAt(nodes, i, e);
    }

    /** The same, and the entry gets to know its list. */
    method HookOwn(e: Entry, p: Entry?, n: Entry?, ghost i: nat)
      requires Stored(cells) && Chain(cells, nodes) && Spare(cells, nodes) && i <= |nodes| && e in cells && e !in nodes
      requires p == At(nodes, i - 1) && n == At(nodes, i)
      modifies this`cells, this`nodes, cells.Keys
      ensures Stored(cells) && cells.Keys == old(cells).Keys && nodes == InsertedAt(old(nodes), i, e)
      ensures Chain(cells, nodes) && Spare(cells, nodes) && Contents() == InsertedAt(old(Contents()), i, old(e.value))
      ensures KeepsValues(old(cells), cells) && (old(Own(cells, nodes, this)) ==> Own(cells, nodes, this))
    {
      ghost var c, l := cells, nodes;
      assert StoredAt(cells, e);
      SpareMore(cells, nodes, e);
      Hook(e, p, n, i);
      HookDone(c, cells, l, nodes, i, e, this);
      SetList(e);
    }

    // ----- both ends

    /** src/lib/linklist.c:235-250, for a list that is not empty. */
    method CutTail(e: Entry)
      requires Well() && tail == e
      modifies this`head, this`tail, this`length, this`nodes, this`cells, cells.Keys
      ensures Well() && cells.Keys == old(cells).Keys && |old(nodes)| > 0
      ensures nodes == CutOut(old(nodes), |old(nodes)| - 1)
      ensures e in cells && e !in nodes
      ensures Contents() == CutOut(old(Contents()), |old(nodes)| - 1) && e.value == old(Contents())[|old(nodes)| - 1]
      ensures old(Own(cells, nodes, this)) ==> Own(cells, nodes, this)
    {
      ghost var n := |nodes|;
      assert ChainedAt(cells, nodes, n - 1);
      assert StoredAt(cells, e);
      AtCut(nodes, n - 1, 0);
      AtCut(nodes, n - 1, n - 2);
      var t := e.prev;
      Unlink(e, n - 1);
      head, tail, length := if length == 1 then null else head, t, length - 1;
    }

    /** src/lib/linklist.c:228-254 */
    method PopEntry() returns (e: Entry?)
      requires Valid()
      modifies this, cells.Keys
      ensures Valid() && cells.Keys == old(cells).Keys && e == At(old(nodes), |old(nodes)| - 1)
      ensures e == null ==> nodes == old(nodes) && Contents() == old(Contents())
      ensures e != null ==>
                && nodes == CutOut(old(nodes), |old(nodes)| - 1) && e in cells && e !in nodes
                && Contents() == CutOut(old(Contents()), |old(nodes)| - 1)
                   && e.value == old(Contents())[|old(nodes)| - 1]
      ensures old(Own(cells, nodes, this)) ==> Own(cells, nodes, this)
    {
      e := tail;
      if e != null {
        AtCut(nodes, |nodes| - 1, pos);
        CutTail(e);
        if cur == e {
          cur := null;
        }
      }
    }

    /** src/lib/linklist.c:294-311, for a list that is not empty. */
    method CutHead(e: Entry)
      requires Well() && head == e
      modifies this`head, this`tail, this`length, this`nodes, this`cells, cells.Keys
      ensures Well() && cells.Keys == old(cells).Keys && |old(nodes)| > 0 && nodes == CutOut(old(nodes), 0)
      ensures e in cells && e !in nodes
      ensures Contents() == CutOut(old(Contents()), 0) && e.value == old(Contents())[0]
      ensures old(Own(cells, nodes, this)) ==> Own(cells, nodes, this)
    {
      assert ChainedAt(cells, nodes, 0);
      assert StoredAt(cells, e);
      AtCut(nodes, 0, 0);
      AtCut(nodes, 0, |nodes| - 2);
      var h := e.next;
      Unlink(e, 0);
      head, tail, length := h, if length == 1 then null else tail, length - 1;
    }

    /** src/lib/linklist.c:288-314 */
    method ShiftEntry() returns (e: Entry?)
      requires Valid()
      modifies this, cells.Keys
      ensures Valid() && cells.Keys == old(cells).Keys && e == At(old(nodes), 0)
      ensures e == null ==> nodes == old(nodes) && Contents() == old(Contents())
      ensures e != null ==>
                && nodes == CutOut(old(nodes), 0) && e in cells && e !in nodes
                && Contents() == CutOut(old(Contents()), 0) && e.value == old(Contents())[0]
      ensures old(Own(cells, nodes, this)) ==> Own(cells, nodes, this)
    {
      e := head;
      if e != null {
        AtCut(nodes, 0, pos - 1);
        CutHead(e);
        if cur == e {
          cur := null;
        } else if pos != 0 {
          pos := pos - 1;
        }
      }
    }

    /** src/lib/linklist.c:259-282 */
    method PushEntry(e: Entry)
      requires Valid() && e in cells && e !in nodes
      modifies this, cells.Keys
      ensures Valid() && cells.Keys == old(cells).Keys && nodes == InsertedAt(old(nodes), |old(nodes)|, e)
      ensures Contents() == InsertedAt(old(Contents()), |old(nodes)|, old(e.value))
      ensures KeepsValues(old(cells), cells) && (old(Own(cells, nodes, this)) ==> Own(cells, nodes, this))
    {
      ghost var n := |nodes|;
      AtInserted(nodes, n, e, 0);
      AtInserted(nodes, n, e, n);
      AtInserted(nodes, n, e, pos);
      HookOwn(e, tail, null, n);
      head, tail, length := if length == 0 then e else head, e, length + 1;
    }

    /** src/lib/linklist.c:327-340 */
    method PutHead(e: Entry)
      requires Well() && e in cells && e !in nodes
      modifies this`head, this`tail, this`length, this`nodes, this`cells, cells.Keys
      ensures Well() && cells.Keys == old(cells).Keys && nodes == InsertedAt(old(nodes), 0, e)
      ensures Contents() == InsertedAt(old(Contents()), 0, old(e.value))
      ensures old(Own(cells, nodes, this)) ==> Own(cells, nodes, this)
    {
      AtInserted(nodes, 0, e, 0);
      AtInserted(nodes, 0, e, |nodes|);
      HookOwn(e, null, head, 0);
      head, tail, length := e, if length == 0 then e else tail, length + 1;
    }

    /** src/lib/linklist.c:320-345 */
    method UnshiftEntry(e: Entry)
      requires Valid() && e in cells && e !in nodes
      modifies this, cells.Keys
      ensures Valid() && cells.Keys == old(cells).Keys && nodes == InsertedAt(old(nodes), 0, e)
      ensures Contents() == InsertedAt(old(Contents()), 0, old(e.value))
      ensures old(Own(cells, nodes, this)) ==> Own(cells, nodes, this)
    {
      AtInserted(nodes, 0, e, pos + 1);
      PutHead(e);
      if cur != null {
        pos := pos + 1;
      }
    }

    // ----- positions

    /** The next entry. */
    method Onward(e: Entry, ghost i: nat) returns (n: Entry?)
      requires Stored(cells) && Chain(cells, nodes) && At(nodes, i) == e
      ensures n == At(nodes, i + 1)
    {
      assert ChainedAt(cells, nodes, i);
      assert StoredAt(cells, e);
      n := e.next;
    }

    method Backward(e: Entry, ghost i: nat) returns (p: Entry?)
      requires Stored(cells) && Chain(cells, nodes) && At(nodes, i) == e
      ensures p == At(nodes, i - 1)
    {
      assert ChainedAt(cells, nodes, i);
      assert StoredAt(cells, e);
      p := e.prev;
    }

    /** Walks from the entry at `from` to the one at `to`. */
    method Walk(start: Entry, from: nat, to: nat) returns (e: Entry)
      requires Stored(cells) && Chain(cells, nodes) && At(nodes, from) == start && to < |nodes|
      ensures e == nodes[to]
    {
      e := start;
      var i := from;
      while i < to
        invariant from <= i && (from <= to ==> i <= to) && At(nodes, i) == e
      {
        var n := Onward(e, i);
        e := n;
        i := i + 1;
      }
      while i > to
        invariant i >= to && At(nodes, i) == e
      {
        var p := Backward(e, i);
        e := p;
        i := i - 1;
      }
    }

    /** src/lib/linklist.c:399-450: starts from the cursor if that is near, and from the nearer end if not. */
    method PickEntry(at: nat) returns (e: Entry?)
      requires Valid()
      modifies this`cur, this`pos
      ensures Valid() && e == At(nodes, at)
      ensures e != null ==> cur == e && pos == at
    {
      if length <= at {
        return null;
      }
      var half := length / 2;
      if cur != null && (if pos < at then at - pos else pos - at) < half {
        e := Walk(cur, pos, at);
      } else if at > half {
        e := Walk(tail, length - 1, at);
      } else {
        e := Walk(head, 0, at);
      }
      pos, cur := at, e;
    }

    /** src/lib/linklist.c:547-562; the tail of a list with a single entry is forgotten. */
    method CutAt(e: Entry, at: nat)
      requires Well() && at < |nodes| && nodes[at] == e
      modifies this`head, this`tail, this`length, this`nodes, this`cells, cells.Keys
      ensures Stored(cells) && Chain(cells, nodes) && Spare(cells, nodes) && head == At(nodes, 0) && length == |nodes|
      ensures tail == if |old(nodes)| == 1 then e else At(nodes, |nodes| - 1)
      ensures cells.Keys == old(cells).Keys && nodes == CutOut(old(nodes), at) && e in cells && e !in nodes
      ensures Contents() == CutOut(old(Contents()), at) && e.value == old(Contents())[at]
      ensures old(Own(cells, nodes, this)) ==> Own(cells, nodes, this)
    {
      ghost var l := nodes;
      assert EndsOf(l) == (head, tail);
      var prev := Backward(e, at);
      var next := Onward(e, at);
      Unlink(e, at);
      CutEnds(l, nodes, at, head, tail, prev, next);
      SetBounds(if at == 0 then next else head, if at != 0 && at == length - 1 then prev else tail, length - 1);
    }

    method SetBounds(h: Entry?, t: Entry?, n: nat)
      requires Stored(cells)
      modifies this`head, this`tail, this`length
      ensures head == h && tail == t && length == n && Stored(cells) && unchanged(cells.Keys)
    {
      head, tail, length := h, t, n;
    }

    /** src/lib/linklist.c:539-575: fine for every list but one with a single entry. */
    method RemoveEntry(at: nat) returns (e: Entry?)
      requires Valid()
      modifies this, cells.Keys
      ensures cells.Keys == old(cells).Keys && e == At(old(nodes), at)
      ensures e == null ==> nodes == old(nodes) && Contents() == old(Contents())
      ensures e != null ==>
                && nodes == CutOut(old(nodes), at) && e in cells && e !in nodes
                && Contents() == CutOut(old(Contents()), at) && e.value == old(Contents())[at]
      ensures Valid() <==> !(|old(nodes)| == 1 && at == 0)
      ensures old(Own(cells, nodes, this)) ==> Own(cells, nodes, this)
    {
      e := PickEntry(at);
      if e != null {
        ghost var before := nodes;
        ChainNoDup(cells, nodes);
        CutAt(e, at);
        DropCursor(e, at, before);
      }
    }

    /** src/lib/linklist.c:564-569 */
    method DropCursor(e: Entry, at: nat, ghost before: seq<Entry>)
      requires at < |before| && before[at] == e && NoDup(before) && (cur != null ==> At(before, pos) == cur)
      modifies this`cur, this`pos
      ensures cur != null ==> At(CutOut(before, at), pos) == cur
    {
      if cur == e {
        cur, pos := null, 0;
      } else if pos > at {
        pos := pos - 1;
      }
    }

    /** src/lib/linklist.c:456-467 */
    method FetchEntry(at: nat) returns (e: Entry?)
      requires Valid()
      modifies this, cells.Keys
      ensures Valid() && cells.Keys == old(cells).Keys && e == At(old(nodes), at)
      ensures e == null ==> nodes == old(nodes) && Contents() == old(Contents())
      ensures e != null ==>
                && nodes == CutOut(old(nodes), at) && e in cells && e !in nodes
                && Contents() == CutOut(old(Contents()), at) && e.value == old(Contents())[at]
      ensures old(Own(cells, nodes, this)) ==> Own(cells, nodes, this)
    {
      if at == 0 {
        e := ShiftEntry();
      } else if at == length - 1 {
        e := PopEntry();
      } else {
        e := RemoveEntry(at);
      }
    }

    /** create_entry for this list. */
    method NewEntry(v: Value) returns (e: Entry)
      requires Valid()
      modifies this`cells
      ensures Valid() && fresh(e) && cells.Keys == old(cells).Keys + {e} && e !in old(cells) && e !in nodes
      ensures e.value == v
      ensures Contents() == old(Contents()) && KeepsValues(old(cells), cells)
      ensures old(Own(cells, nodes, this)) ==> Own(cells, nodes, this)
    {
      e := new Entry(v);
      Enlarged(cells, nodes, e, v, this);
      cells := cells[e := Cell(null, null, null, v)];
      forall x | x in cells ensures StoredAt(cells, x) {
        assert x != e ==> old(StoredAt(cells, x));
      }
    }

    /** src/lib/linklist.c:380-388 */
    method LinkInside(e: Entry, prev: Entry, at: nat)
      requires Well() && e in cells && e !in nodes && 0 < at < |nodes| && prev == nodes[at - 1]
      modifies this`length, this`nodes, this`cells, cells.Keys
      ensures Well() && cells.Keys == old(cells).Keys && nodes == InsertedAt(old(nodes), at, e)
      ensures Contents() == InsertedAt(old(Contents()), at, old(e.value)) && !Own(cells, nodes, this)
      ensures !Names(cells, e, this)
    {
      ghost var c, l := cells, nodes;
      assert StoredAt(cells, e);
      var next := Onward(prev, at - 1);
      AtInserted(nodes, at, e, 0);
      AtInserted(nodes, at, e, |nodes|);
      SpareMore(cells, nodes, e);
      Hook(e, prev, next, at);
      NotOwn(c, cells, l, nodes, e, this);
      length := length + 1;
    }

    /** src/lib/linklist.c:380-393 */
    method PutInside(e: Entry, at: nat)
      requires Valid() && e in cells && e !in nodes && 0 < at < |nodes|
      modifies this, cells.Keys
      ensures Valid() && cells.Keys == old(cells).Keys && nodes == InsertedAt(old(nodes), at, e)
      ensures Contents() == InsertedAt(old(Contents()), at, old(e.value))
      ensures !Own(cells, nodes, this) && !Names(cells, e, this)
    {
      var prev := PickEntry(at - 1);
      AtInserted(nodes, at, e, at - 1);
      LinkInside(e, prev, at);
    }

    /** src/lib/linklist.c:361-371: entries without a value, up to a length of `n`. */
    method Pad(n: nat, ghost x: Entry)
      requires Valid() && x in cells && x !in nodes
      modifies this, cells.Keys
      ensures Valid() && old(cells).Keys <= cells.Keys && fresh(cells.Keys - old(cells).Keys)
      ensures Contents() == Padded(old(Contents()), n)
      ensures n <= |old(nodes)| ==> nodes == old(nodes) && cells.Keys == old(cells).Keys
      ensures x in cells && x !in nodes && x.value == old(x.value)
      ensures old(Own(cells, nodes, this)) ==> Own(cells, nodes, this)
    {
      while length < n
        invariant Valid() && old(cells).Keys <= cells.Keys && fresh(cells.Keys - old(cells).Keys)
        invariant Padded(Contents(), n) == Padded(old(Contents()), n)
        invariant n <= |old(nodes)| ==> nodes == old(nodes) && cells.Keys == old(cells).Keys
        invariant x in cells && x !in nodes && x.value == old(x.value)
        invariant old(Own(cells, nodes, this)) ==> Own(cells, nodes, this)
        decreases n - length
      {
        PushNone(n, x);
      }
    }

    /** src/lib/linklist.c:363-364 */
    method PushNone(ghost n: nat, ghost x: Entry)
      requires Valid() && x in cells && x !in nodes && length < n
      modifies this, cells.Keys
      ensures Valid() && old(cells).Keys <= cells.Keys && fresh(cells.Keys - old(cells).Keys)
      ensures length == old(length) + 1
      ensures Padded(Contents(), n) == Padded(old(Contents()), n)
      ensures x in cells && x !in nodes && x.value == old(x.value)
      ensures old(Own(cells, nodes, this)) ==> Own(cells, nodes, this)
    {
      ghost var c, l := cells, Contents();
      assert StoredAt(cells, x);
      PaddedMore(l, n);
      var e := NewEntry(0);
      ghost var d := cells;
      InsertedMembers(nodes, |nodes|, e);
      PushEntry(e);
      KeptMore(c, d, cells);
      assert KeptAt(c, cells, x);
      assert StoredAt(cells, x);
    }

    /** src/lib/linklist.c:350-394 */
    method InsertEntry(e: Entry, at: nat)
      requires Valid() && e in cells && e !in nodes
      modifies this, cells.Keys
      ensures Valid() && old(cells).Keys <= cells.Keys && fresh(cells.Keys - old(cells).Keys)
      ensures Contents() == PutAt(old(Contents()), at, old(e.value))
      ensures at <= |old(nodes)| ==> cells.Keys == old(cells).Keys && nodes == InsertedAt(old(nodes), at, e)
      ensures if 0 < at < |old(nodes)| then !Own(cells, nodes, this) && !Names(cells, e, this)
              else old(Own(cells, nodes, this)) ==> Own(cells, nodes, this)
    {
      PaddedPut(Contents(), at, e.value);
      if at == 0 {
        UnshiftEntry(e);
      } else if at >= length {
        Pad(at, e);
        PushEntry(e);
      } else {
        PutInside(e, at);
      }
    }

    /** src/lib/linklist.c:469-489; false if there is nothing at `src`. */
    method MoveEntry(src: nat, dst: nat) returns (ok: bool)
      requires Valid()
      modifies this, cells.Keys
      ensures Valid() && old(cells).Keys <= cells.Keys && fresh(cells.Keys - old(cells).Keys)
      ensures ok <==> src < |old(Contents())|
      ensures Contents() == MovedTo(old(Contents()), src, dst)
      ensures src < |old(nodes)| && dst < |old(nodes)| ==> cells.Keys == old(cells).Keys
    {
      var e := FetchEntry(src);
      ok := e != null;
      if ok {
        InsertEntry(e, dst);
      }
    }

    /** src/lib/linklist.c:492-516: the smaller position first. */
    method SwapEntries(p: nat, q: nat)
      requires Valid() && p < q < |nodes|
      modifies this, cells.Keys
      ensures Valid() && cells.Keys == old(cells).Keys && Contents() == Exchanged(old(Contents()), p, q)
    {
      ghost var l := Contents();
      var ok := MoveEntry(q, p);
      ghost var m := Contents();
      ok := MoveEntry(p + 1, q);
      SwapSteps(l, m, Contents(), p, q);
    }

    // ----- values

    /** src/lib/linklist.c:608-619 */
    method PopValue() returns (v: Value)
      requires Valid()
      modifies this, cells.Keys
      ensures Valid() && cells.Keys == old(cells).Keys
      ensures var l := old(Contents()); if l == [] then v == 0 && Contents() == [] else Contents() + [v] == l
    {
      v := 0;
      var e := PopEntry();
      if e != null {
        v := e.value;
      }
    }

    /** src/lib/linklist.c:621-633 */
    method PushValue(v: Value)
      requires Valid()
      modifies this, cells.Keys
      ensures Valid() && old(cells).Keys <= cells.Keys && fresh(cells.Keys - old(cells).Keys)
      ensures Contents() == old(Contents()) + [v]
    {
      var e := NewEntry(v);
      PushEntry(e);
      assert Contents() == old(Contents()) + [v];
    }

    /** src/lib/linklist.c:635-647 */
    method UnshiftValue(v: Value)
      requires Valid()
      modifies this, cells.Keys
      ensures Valid() && old(cells).Keys <= cells.Keys && fresh(cells.Keys - old(cells).Keys)
      ensures Contents() == [v] + old(Contents())
    {
      var e := NewEntry(v);
      UnshiftEntry(e);
      assert Contents() == [v] + old(Contents());
    }

    /** src/lib/linklist.c:649-660 */
    method ShiftValue() returns (v: Value)
      requires Valid()
      modifies this, cells.Keys
      ensures Valid() && cells.Keys == old(cells).Keys
      ensures var l := old(Contents()); if l == [] then v == 0 && Contents() == [] else [v] + Contents() == l
    {
      v := 0;
      var e := ShiftEntry();
      if e != null {
        v := e.value;
      }
    }

    /** src/lib/linklist.c:662-674 */
    method InsertValue(v: Value, at: nat)
      requires Valid()
      modifies this, cells.Keys
      ensures Valid() && old(cells).Keys <= cells.Keys && fresh(cells.Keys - old(cells).Keys)
      ensures Contents() == PutAt(old(Contents()), at, v)
    {
      var e := NewEntry(v);
      InsertEntry(e, at);
    }

    /** src/lib/linklist.c:676-683 */
    method PickValue(at: nat) returns (v: Value)
      requires Valid()
      modifies this`cur, this`pos
      ensures Valid() && v == ValueAt(Contents(), at)
    {
      v := 0;
      var e := PickEntry(at);
      if e != null {
        assert ChainedAt(cells, nodes, at);
        assert StoredAt(cells, e);
        v := e.value;
      }
    }

    /** src/lib/linklist.c:685-696 */
    method FetchValue(at: nat) returns (v: Value)
      requires Valid()
      modifies this, cells.Keys
      ensures Valid() && cells.Keys == old(cells).Keys && v == ValueAt(old(Contents()), at)
      ensures Contents() == if at < |old(Contents())| then CutOut(old(Contents()), at) else old(Contents())
    {
      v := 0;
      var e := FetchEntry(at);
      if e != null {
        v := e.value;
      }
    }

    /** src/lib/linklist.c:721-734: no effect if there is nothing at `at`. */
    method SubstValue(at: nat, v: Value) returns (was: Value)
      requires Valid()
      modifies this, cells.Keys
      ensures Valid() && cells.Keys == old(cells).Keys && was == ValueAt(old(Contents()), at)
      ensures Contents() == if at < |old(Contents())| then old(Contents())[at := v] else old(Contents())
    {
      was := 0;
      var e := PickEntry(at);
      if e != null {
        assert ChainedAt(cells, nodes, at);
        assert StoredAt(cells, e);
        Revalued(cells, nodes, at, v);
        was := e.value;
        SetValue(e, v);
      }
    }

    /** src/lib/linklist.c:705-719: inserts if there is nothing at `at`. */
    method PutValue(at: nat, v: Value) returns (was: Value)
      requires Valid()
      modifies this, cells.Keys
      ensures Valid() && old(cells).Keys <= cells.Keys && fresh(cells.Keys - old(cells).Keys)
      ensures was == ValueAt(old(Contents()), at)
      ensures Contents() == if at < |old(Contents())| then old(Contents())[at := v] else PutAt(old(Contents()), at, v)
    {
      was := 0;
      if at < length {
        was := SubstValue(at, v);
      } else {
        InsertValue(v, at);
      }
    }

    /** src/lib/linklist.c:492-516 and 736-740; false if the positions are the same. */
    method SwapValues(p: nat, q: nat) returns (ok: bool)
      requires Valid() && (p == q || (p < |nodes| && q < |nodes|))
      modifies this, cells.Keys
      ensures Valid() && cells.Keys == old(cells).Keys && (ok <==> p != q)
      ensures Contents() == if p == q then old(Contents()) else Exchanged(old(Contents()), p, q)
    {
      if p < q {
        SwapEntries(p, q);
      } else if q < p {
        SwapEntries(q, p);
        assert Exchanged(old(Contents()), q, p) == Exchanged(old(Contents()), p, q);
      }
      ok := p != q;
    }

    // ----- sorting

    /** The values and which entries name the list, by position. */
    ghost function Line(): (r: Row)
      reads this`nodes, this`cells
      ensures Matched(r) && r.nodes == nodes
    {
      Row(nodes, Contents(), Named(cells, nodes, this))
    }

    method SetEnds(h: Entry?, t: Entry?)
      requires Stored(cells) && Chain(cells, nodes) && Spare(cells, nodes) && length == |nodes|
      requires EndsOf(nodes) == (h, t)
      modifies this`head, this`tail
      ensures Well() && nodes == old(nodes) && cells == old(cells)
    {
      head, tail := h, t;
    }

    /** The links of MoveBefore; returns the entry that was before the pivot. */
    method LinkBefore(e: Entry, pivot: Entry, ghost b: nat, ghost k: nat) returns (before: Entry?)
      requires Well() && k < b < |nodes| && nodes[b] == e && nodes[k] == pivot
      modifies this`nodes, this`cells, cells.Keys
      ensures Stored(cells) && Chain(cells, nodes) && Spare(cells, nodes) && SameLists(old(cells), cells)
      ensures nodes == Relocated(old(nodes), b, k) && before == At(old(nodes), k - 1)
      ensures Contents() == Relocated(old(Contents()), b, k)
    {
      ghost var c, l := cells, nodes;
      Bridge(e, b);
      ghost var d := cells;
      AtCut(l, b, k);
      AtCut(l, b, k - 1);
      before := Backward(pivot, k);
      Hook(e, before, pivot, k);
      MovedLists(c, d, cells, l, b);
    }

    /** src/lib/linklist.c:1086-1113: the entry at `b` goes to just before the pivot at `k`. */
    method MoveBefore(e: Entry, pivot: Entry, ghost b: nat, ghost k: nat)
      requires Well() && k < b < |nodes| && nodes[b] == e && nodes[k] == pivot && Names(cells, pivot, this)
      modifies this`head, this`tail, this`nodes, this`cells, cells.Keys
      ensures Well() && SameLists(old(cells), cells) && nodes == Relocated(old(nodes), b, k)
      ensures Contents() == Relocated(old(Contents()), b, k)
    {
      assert ChainedAt(cells, nodes, k);
      assert StoredAt(cells, pivot);
      assert pivot.list == this;
      ghost var c, l := cells, nodes;
      assert EndsOf(l) == (head, tail);
      var last := Backward(e, b);
      var before := LinkBefore(e, pivot, b, k);
      var h, t := if before == null && pivot == head then e else head, if e == tail then last else tail;
      BeforeEnds(c, l, nodes, b, k, head, tail, before, last);
      SetEnds(h, t);
    }

    /** The links of MoveAfter; returns the entry that was after the pivot. */
    method LinkAfter(e: Entry, pivot: Entry, ghost a: nat, ghost k: nat) returns (after: Entry?)
      requires Well() && a < k < |nodes| && nodes[a] == e && nodes[k] == pivot
      modifies this`nodes, this`cells, cells.Keys
      ensures Stored(cells) && Chain(cells, nodes) && Spare(cells, nodes) && SameLists(old(cells), cells)
      ensures nodes == Relocated(old(nodes), a, k) && after == At(old(nodes), k + 1)
      ensures Contents() == Relocated(old(Contents()), a, k)
    {
      ghost var c, l := cells, nodes;
      Bridge(e, a);
      ghost var d := cells;
      AtCut(l, a, k - 1);
      AtCut(l, a, k);
      after := Onward(pivot, k - 1);
      Hook(e, pivot, after, k);
      MovedLists(c, d, cells, l, a);
    }

    /** src/lib/linklist.c:1119-1146: the entry at `a` goes to just after the pivot at `k`. */
    method MoveAfter(e: Entry, pivot: Entry, ghost a: nat, ghost k: nat)
      requires Well() && a < k < |nodes| && nodes[a] == e && nodes[k] == pivot && Names(cells, pivot, this)
      modifies this`head, this`tail, this`nodes, this`cells, cells.Keys
      ensures Well() && SameLists(old(cells), cells) && nodes == Relocated(old(nodes), a, k)
      ensures Contents() == Relocated(old(Contents()), a, k)
    {
      assert ChainedAt(cells, nodes, k);
      assert StoredAt(cells, pivot);
      assert pivot.list == this;
      ghost var c, l := cells, nodes;
      assert EndsOf(l) == (head, tail);
      var first := Onward(e, a);
      var after := LinkAfter(e, pivot, a, k);
      var h, t := if e == head then first else head, if after == null && pivot == tail then e else tail;
      AfterEnds(c, l, nodes, a, k, head, tail, h, t);
      SetEnds(h, t);
    }

    /** src/lib/linklist.c:1047-1055 */
    method SwapNodeValues(e: Entry, f: Entry, ghost i: nat, ghost j: nat)
      requires Well() && i < j < |nodes| && nodes[i] == e && nodes[j] == f
      modifies this`cells, cells.Keys
      ensures Well() && SameLists(old(cells), cells) && Contents() == Exchanged(old(Contents()), i, j)
    {
      assert ChainedAt(cells, nodes, i) && ChainedAt(cells, nodes, j);
      assert StoredAt(cells, e) && StoredAt(cells, f);
      var tmp := e.value;
      ghost var c := cells;
      PutNodeValue(e, f.value, i);
      ghost var d := cells;
      PutNodeValue(f, tmp, j);
      ListsMore(c, d, cells);
    }

    method PutNodeValue(e: Entry, v: Value, ghost i: nat)
      requires Well() && i < |nodes| && nodes[i] == e
      modifies this`cells, e
      ensures Well() && SameLists(old(cells), cells) && Contents() == old(Contents())[i := v]
    {
      assert ChainedAt(cells, nodes, i);
      Revalued(cells, nodes, i, v);
      RevaluedLists(cells, e, v);
      SetValue(e, v);
    }

    method ValueAtNode(e: Entry, ghost i: nat) returns (v: Value)
      requires Well() && i < |nodes| && nodes[i] == e
      ensures v == Contents()[i]
    {
      assert ChainedAt(cells, nodes, i);
      assert StoredAt(cells, e);
      v := e.value;
    }

    /** src/lib/linklist.c:1077-1078 */
    method SkipAbove(p: Entry, pivot: Entry, x: Value, cmp: Compare, ghost a: nat, ghost k: nat)
      returns (r: Entry, ghost i: nat)
      requires Well() && a <= k < |nodes| && nodes[a] == p && nodes[k] == pivot
      ensures i == SkipUp(Contents(), a, k, x, cmp) && nodes[i] == r
    {
      r, i := p, a;
      assert ChainedAt(cells, nodes, k);
      while true
        invariant a <= i <= k && nodes[i] == r
        invariant SkipUp(Contents(), i, k, x, cmp) == SkipUp(Contents(), a, k, x, cmp)
        decreases k - i
      {
        if r == pivot {
          return;
        }
        var v := ValueAtNode(r, i);
        if cmp(v, x) <= 0 {
          return;
        }
        var n := Onward(r, i);
        r, i := n, i + 1;
      }
    }

    /** src/lib/linklist.c:1080-1081 */
    method SkipBelow(p: Entry, pivot: Entry, x: Value, cmp: Compare, ghost k: nat, ghost b: nat)
      returns (r: Entry, ghost j: nat)
      requires Well() && k <= b < |nodes| && nodes[b] == p && nodes[k] == pivot
      ensures j == SkipDown(Contents(), k, b, x, cmp) && nodes[j] == r
    {
      r, j := p, b;
      assert ChainedAt(cells, nodes, k);
      while true
        invariant k <= j <= b && nodes[j] == r
        invariant SkipDown(Contents(), k, j, x, cmp) == SkipDown(Contents(), k, b, x, cmp)
        decreases j - k
      {
        if r == pivot {
          return;
        }
        var v := ValueAtNode(r, j);
        if cmp(v, x) >= 0 {
          return;
        }
        var n := Backward(r, j);
        r, j := n, j - 1;
      }
    }

    /** src/lib/linklist.c:1086-1117: the pivot is reached from the left. */
    method StepDown(p2: Entry, pivot: Entry, head0: Entry, tail0: Entry, ghost lo: nat, ghost hi: nat, ghost a: nat,
                    ghost k: nat, ghost b: nat)
      returns (p: Entry, h: Entry, t: Entry)
      requires Well() && Spots(nodes, lo, hi, a, k, b, pivot, p2, pivot, head0, tail0) && a == k < b
      requires Names(cells, pivot, this)
      modifies this`head, this`tail, this`nodes, this`cells, cells.Keys
      ensures Well() && SameLists(old(cells), cells)
      ensures Stepped(true, old(Line()), Line(), a, k, b) && NextSpots(nodes, lo, hi, a, k, b, pivot, p, pivot, h, t)
    {
      ghost var r, c, l := Line(), cells, nodes;
      var prev := Backward(p2, b);
      MoveBefore(p2, pivot, b, k);
      NamedRelocated(c, cells, l, b, k, this);
      SteppedDown(r, Line(), a, k, b);
      p, h, t := prev, if pivot == head0 then p2 else head0, if p2 == tail0 then prev else tail0;
      DownSpots(c, l, nodes, lo, hi, a, k, b, p2, pivot, head0, tail0, p, h, t);
    }

    /** src/lib/linklist.c:1119-1149: the pivot is reached from the right. */
    method StepUp(p1: Entry, pivot: Entry, head0: Entry, tail0: Entry, ghost lo: nat, ghost hi: nat, ghost a: nat,
                  ghost k: nat, ghost b: nat)
      returns (p: Entry, h: Entry, t: Entry)
      requires Well() && Spots(nodes, lo, hi, a, k, b, p1, pivot, pivot, head0, tail0) && a < k == b
      requires Names(cells, pivot, this)
      modifies this`head, this`tail, this`nodes, this`cells, cells.Keys
      ensures Well() && SameLists(old(cells), cells)
      ensures Stepped(true, old(Line()), Line(), a, k, b) && NextSpots(nodes, lo, hi, a, k, b, p, pivot, pivot, h, t)
    {
      ghost var r, c, l := Line(), cells, nodes;
      var next := Onward(p1, a);
      MoveAfter(p1, pivot, a, k);
      NamedRelocated(c, cells, l, a, k, this);
      SteppedUp(r, Line(), a, k, b);
      p, h, t := next, if p1 == head0 then next else head0, if pivot == tail0 then p1 else tail0;
      UpSpots(c, l, nodes, lo, hi, a, k, b, p1, pivot, head0, tail0, p, h, t);
    }

    /** src/lib/linklist.c:1151-1158: a value that belongs to the right and one that belongs to the left. */
    method StepBoth(p1: Entry, p2: Entry, ghost pivot: Entry, ghost h: Entry, ghost t: Entry, ghost lo: nat,
                    ghost hi: nat, ghost a: nat, ghost k: nat, ghost b: nat)
      returns (q1: Entry, q2: Entry)
      requires Well() && Spots(nodes, lo, hi, a, k, b, p1, p2, pivot, h, t) && a < k < b
      modifies this`cells, cells.Keys
      ensures Well() && SameLists(old(cells), cells)
      ensures Stepped(true, old(Line()), Line(), a, k, b) && NextSpots(nodes, lo, hi, a, k, b, q1, q2, pivot, h, t)
    {
      ghost var r, c := Line(), cells;
      SwapNodeValues(p1, p2, a, b);
      NamedSame(c, cells, nodes, this);
      SteppedBoth(r, Line(), a, k, b);
      var n := Onward(p1, a);
      var p := Backward(p2, b);
      q1, q2 := n, p;
    }

    /** pivot->list->head and pivot->list->tail can be read. */
    method KnowsList(pivot: Entry, ghost k: nat) returns (yes: bool)
      requires Well() && k < |nodes| && nodes[k] == pivot
      ensures yes == Names(cells, pivot, this) == Line().named[k]
    {
      assert ChainedAt(cells, nodes, k);
      assert StoredAt(cells, pivot);
      yes := pivot.list == this;
    }

    /** src/lib/linklist.c:1086-1117; `ok` is false if the pivot names no list whose ends could be set. */
    method TryDown(p2: Entry, pivot: Entry, head0: Entry, tail0: Entry, ghost lo: nat, ghost hi: nat, ghost a0: nat,
                   ghost k0: nat, ghost b0: nat)
      returns (ok: bool, p: Entry, h: Entry, t: Entry)
      requires Well() && Spots(nodes, lo, hi, a0, k0, b0, pivot, p2, pivot, head0, tail0) && a0 == k0 < b0
      modifies this`head, this`tail, this`nodes, this`cells, cells.Keys
      ensures Well() && SameLists(old(cells), cells)
      ensures Stepped(ok, old(Line()), Line(), a0, k0, b0)
      ensures ok ==> NextSpots(nodes, lo, hi, a0, k0, b0, pivot, p, pivot, h, t)
    {
      p, h, t := p2, head0, tail0;
      ok := KnowsList(pivot, k0);
      if ok {
        p, h, t := StepDown(p2, pivot, head0, tail0, lo, hi, a0, k0, b0);
      } else {
        StuckThere(Line(), a0, k0, b0);
      }
    }

    /** src/lib/linklist.c:1119-1149 */
    method TryUp(p1: Entry, pivot: Entry, head0: Entry, tail0: Entry, ghost lo: nat, ghost hi: nat, ghost a0: nat,
                 ghost k0: nat, ghost b0: nat)
      returns (ok: bool, p: Entry, h: Entry, t: Entry)
      requires Well() && Spots(nodes, lo, hi, a0, k0, b0, p1, pivot, pivot, head0, tail0) && a0 < k0 == b0
      modifies this`head, this`tail, this`nodes, this`cells, cells.Keys
      ensures Well() && SameLists(old(cells), cells)
      ensures Stepped(ok, old(Line()), Line(), a0, k0, b0)
      ensures ok ==> NextSpots(nodes, lo, hi, a0, k0, b0, p, pivot, pivot, h, t)
    {
      p, h, t := p1, head0, tail0;
      ok := KnowsList(pivot, k0);
      if ok {
        p, h, t := StepUp(p1, pivot, head0, tail0, lo, hi, a0, k0, b0);
      } else {
        StuckThere(Line(), a0, k0, b0);
      }
    }

    /** src/lib/linklist.c:1086-1158 */
    method Step(p1: Entry, p2: Entry, pivot: Entry, head0: Entry, tail0: Entry, ghost lo: nat, ghost hi: nat,
                ghost a0: nat, ghost k0: nat, ghost b0: nat)
      returns (ok: bool, q1: Entry, q2: Entry, h: Entry, t: Entry)
      requires Well() && Spots(nodes, lo, hi, a0, k0, b0, p1, p2, pivot, head0, tail0) && a0 < b0
      modifies this`head, this`tail, this`nodes, this`cells, cells.Keys
      ensures Well() && SameLists(old(cells), cells)
      ensures Stepped(ok, old(Line()), Line(), a0, k0, b0)
      ensures ok ==> NextSpots(nodes, lo, hi, a0, k0, b0, q1, q2, pivot, h, t)
    {
      SameEntry(cells, nodes, a0, k0);
      SameEntry(cells, nodes, b0, k0);
      if p1 == pivot {
        q1 := pivot;
        ok, q2, h, t := TryDown(p2, pivot, head0, tail0, lo, hi, a0, k0, b0);
      } else if p2 == pivot {
        q2 := pivot;
        ok, q1, h, t := TryUp(p1, pivot, head0, tail0, lo, hi, a0, k0, b0);
      } else {
        ok, h, t := true, head0, tail0;
        q1, q2 := StepBoth(p1, p2, pivot, h, t, lo, hi, a0, k0, b0);
      }
    }

    /** src/lib/linklist.c:1077-1158: one turn of the loop; `more` is false after the last one. */
    method Turn(p1: Entry, p2: Entry, pivot: Entry, head0: Entry, tail0: Entry, x: Value, cmp: Compare,
                ghost goal: Option<Part>, ghost lo: nat, ghost hi: nat, ghost a0: nat, ghost k1: nat, ghost b0: nat)
      returns (more: bool, ok: bool, q1: Entry, q2: Entry, h: Entry, t: Entry, ghost a: nat, ghost k: nat, ghost b: nat)
      requires Well() && OnTheWay(true, true, goal, Line(), lo, hi, a0, k1, b0, p1, p2, pivot, head0, tail0, x, cmp)
      modifies this`head, this`tail, this`nodes, this`cells, cells.Keys
      ensures Well() && SameLists(old(cells), cells) && (more ==> b - a < b0 - a0)
      ensures OnTheWay(more, ok, goal, Line(), lo, hi, a, k, b, q1, q2, pivot, h, t, x, cmp)
    {
      ghost var a1, b1;
      ok, h, t, a, k, b := true, head0, tail0, k1, k1, k1;
      q1, a1 := SkipAbove(p1, pivot, x, cmp, a0, k1);
      q2, b1 := SkipBelow(p2, pivot, x, cmp, k1, b0);
      SiftSkips(Line(), a0, a1, k1, b1, b0, x, cmp);
      SameEntry(cells, nodes, a1, b1);
      more := q1 != q2;
      if more {
        ghost var r := Line();
        ok, q1, q2, h, t := Step(q1, q2, pivot, head0, tail0, lo, hi, a1, k1, b1);
        SiftStep(ok, r, Line(), a1, k1, b1, x, cmp);
        a, k, b := NextA(a1, k1, b1), NextK(a1, k1, b1), NextB(a1, k1, b1);
        more := ok;
      }
    }

    /**
     src/lib/linklist.c:1072-1160: splits the part from `lo` to `hi`; or `ok` is false, and the program fails.
     */
    method Partition(head0: Entry, tail0: Entry, pivot: Entry, cmp: Compare, ghost lo: nat, ghost hi: nat,
                     ghost k0: nat)
      returns (ok: bool, h: Entry, t: Entry, ghost k: nat)
      requires Well() && Spots(nodes, lo, hi, lo, k0, hi - 1, head0, tail0, pivot, head0, tail0)
      modifies this`head, this`tail, this`nodes, this`cells, cells.Keys
      ensures Well() && SameLists(old(cells), cells)
      ensures
        var goal := Sift(Part(old(Line()), lo, k0, hi - 1), old(Line()).values[k0], cmp);
        (ok <==> goal.Some?) && (ok ==> goal == Some(Part(Line(), k, k, k)))
      ensures ok ==> Spots(nodes, lo, hi, k, k, k, pivot, pivot, pivot, h, t)
    {
      ghost var c := cells;
      var x := ValueAtNode(pivot, k0);
      var p1, p2 := head0, tail0;
      ok, h, t, k := true, head0, tail0, k0;
      ghost var a: nat, b: nat, goal := lo, hi - 1, Sift(Part(Line(), lo, k0, hi - 1), x, cmp);
      var more := true;
      while more
        invariant Well() && SameLists(c, cells) && cells.Keys == c.Keys
        invariant OnTheWay(more, ok, goal, Line(), lo, hi, a, k, b, p1, p2, pivot, h, t, x, cmp)
        decreases more, b - a
      {
        ghost var d := cells;
        more, ok, p1, p2, h, t, a, k, b := Turn(p1, p2, pivot, h, t, x, cmp, goal, lo, hi, a, k, b);
        ListsMore(c, d, cells);
      }
    }

    /** src/lib/linklist.c:1165-1170 */
    method CountTo(head0: Entry, pivot: Entry, ghost lo: nat, ghost k: nat) returns (n: nat)
      requires Well() && lo <= k < |nodes| && nodes[lo] == head0 && nodes[k] == pivot
      ensures n == k - lo
    {
      var p := head0;
      n := 0;
      SameEntry(cells, nodes, lo, k);
      while p != pivot
        invariant lo + n <= k && nodes[lo + n] == p
        decreases k - lo - n
      {
        SameEntry(cells, nodes, lo + n, k);
        var q := Onward(p, lo + n);
        p, n := q, n + 1;
      }
      SameEntry(cells, nodes, lo + n, k);
    }

    /** src/lib/linklist.c:1174-1175 */
    method Advance(e: Entry, n: nat, ghost i: nat) returns (r: Entry)
      requires Well() && i + n < |nodes| && nodes[i] == e
      ensures r == nodes[i + n]
    {
      r := e;
      for j := 0 to n
        invariant r == nodes[i + j]
      {
        var q := Onward(r, i + j);
        r := q;
      }
    }

    /** src/lib/linklist.c:1176-1177 */
    method Retreat(e: Entry, n: nat, ghost i: nat) returns (r: Entry)
      requires Well() && n <= i < |nodes| && nodes[i] == e
      ensures r == nodes[i - n]
    {
      r := e;
      for j := 0 to n
        invariant r == nodes[i - j]
      {
        var q := Backward(r, i - j);
        r := q;
      }
    }

    /** src/lib/linklist.c:1066-1070 */
    method SortTwo(head0: Entry, tail0: Entry, cmp: Compare, ghost lo: nat, ghost hi: nat, ghost k0: nat)
      requires Well() && hi == lo + 2 <= |nodes| && nodes[lo] == head0 && nodes[lo + 1] == tail0 && lo <= k0 < hi
      modifies this`cells, cells.Keys
      ensures Well() && SameLists(old(cells), cells) && Quick(old(Line()), lo, hi, k0, cmp) == Some(Line())
    {
      ghost var c := cells;
      var x := ValueAtNode(head0, lo);
      var y := ValueAtNode(tail0, lo + 1);
      if cmp(x, y) < 0 {
        SwapNodeValues(head0, tail0, lo, lo + 1);
        NamedSame(c, cells, nodes, this);
      }
    }

    /** src/lib/linklist.c:1180-1181 */
    method SortLeft(h: Entry, pivot: Entry, pv: Entry, n: nat, cmp: Compare, ghost lo: nat, ghost k: nat)
      returns (ok: bool)
      requires Well() && Preorder(cmp) && k == lo + n < |nodes| && nodes[lo] == h && nodes[k] == pivot
      requires nodes[lo + n / 2] == pv
      modifies this`head, this`tail, this`nodes, this`cells, cells.Keys
      ensures Well() && SameLists(old(cells), cells)
      ensures Brought(ok, Quick(old(Line()), lo, k, LeftPivot(lo, k), cmp), Line())
      decreases n, 4
    {
      var prev := Backward(pivot, k);
      SameEntry(cells, nodes, lo, if n > 0 then k - 1 else lo);
      ok := true;
      if n > 1 && prev != null && h != prev {
        ok := QuickSort(h, prev, pv, n, cmp, lo, k, LeftPivot(lo, k));
      } else {
        NothingToSort(Line(), lo, k, LeftPivot(lo, k), cmp);
      }
    }

    /** src/lib/linklist.c:1182-1183 */
    method SortRight(t: Entry, pivot: Entry, pv: Entry, n: nat, cmp: Compare, ghost k: nat, ghost hi: nat)
      returns (ok: bool)
      requires Well() && Preorder(cmp) && k + n + 1 == hi <= |nodes| && nodes[k] == pivot && nodes[hi - 1] == t
      requires nodes[hi - 1 - n / 2] == pv
      modifies this`head, this`tail, this`nodes, this`cells, cells.Keys
      ensures Well() && SameLists(old(cells), cells)
      ensures Brought(ok, Quick(old(Line()), k + 1, hi, RightPivot(k, hi), cmp), Line())
      decreases n, 4
    {
      var next := Onward(pivot, k);
      SameEntry(cells, nodes, hi - 1, if n > 0 then k + 1 else k);
      ok := true;
      if n > 1 && next != null && t != next {
        ok := QuickSort(next, t, pv, n, cmp, k + 1, hi, RightPivot(k, hi));
      } else {
        NothingToSort(Line(), k + 1, hi, RightPivot(k, hi), cmp);
      }
    }

    /** src/lib/linklist.c:1162-1183 */
    method SortParts(h: Entry, t: Entry, pivot: Entry, n: nat, cmp: Compare, ghost lo: nat, ghost k: nat, ghost hi: nat)
      returns (ok: bool)
      requires Well() && Preorder(cmp) && hi == lo + n && Spots(nodes, lo, hi, k, k, k, pivot, pivot, pivot, h, t)
      modifies this`head, this`tail, this`nodes, this`cells, cells.Keys
      ensures Well() && SameLists(old(cells), cells) && Brought(ok, Halves(old(Line()), lo, k, hi, cmp), Line())
      decreases n, 1
    {
      var l1 := CountTo(h, pivot, lo, k);
      var l2 := n - (l1 + 1);
      var pv1 := Advance(h, l1 / 2, lo);
      var pv2 := Retreat(t, l2 / 2, hi - 1);
      ok := SortBoth(h, t, pivot, pv1, pv2, l1, l2, cmp, lo, k, hi);
    }

    method SortBoth(h: Entry, t: Entry, pivot: Entry, pv1: Entry, pv2: Entry, l1: nat, l2: nat, cmp: Compare,
                    ghost lo: nat, ghost k: nat, ghost hi: nat)
      returns (ok: bool)
      requires Well() && Preorder(cmp) && k == lo + l1 && hi == k + 1 + l2 && hi <= |nodes|
      requires nodes[k] == pivot && nodes[lo] == h && nodes[hi - 1] == t && nodes[lo + l1 / 2] == pv1
      requires nodes[hi - 1 - l2 / 2] == pv2
      modifies this`head, this`tail, this`nodes, this`cells, cells.Keys
      ensures Well() && SameLists(old(cells), cells) && Brought(ok, Halves(old(Line()), lo, k, hi, cmp), Line())
      decreases l1 + l2 + 1, 0
    {
      ghost var r, c := Line(), cells;
      ok := SortLeft(h, pivot, pv1, l1, cmp, lo, k);
      if ok {
        ghost var d := cells;
        StillThere(r, Line(), lo, k, hi, hi - 1 - l2 / 2, cmp);
        ok := SortRight(t, pivot, pv2, l2, cmp, k, hi);
        ListsMore(c, d, cells);
      }
    }

    /** src/lib/linklist.c:1072-1183: three entries or more. */
    method SortMany(head0: Entry, tail0: Entry, pivot: Entry, n: nat, cmp: Compare, ghost lo: nat, ghost hi: nat,
                    ghost k0: nat)
      returns (ok: bool)
      requires Well() && Preorder(cmp) && hi == lo + n && n > 2
      requires Spots(nodes, lo, hi, lo, k0, hi - 1, head0, tail0, pivot, head0, tail0)
      modifies this`head, this`tail, this`nodes, this`cells, cells.Keys
      ensures Well() && SameLists(old(cells), cells) && Brought(ok, Quick(old(Line()), lo, hi, k0, cmp), Line())
      decreases n, 2
    {
      ghost var c := cells;
      ghost var k;
      var h, t;
      ok, h, t, k := Partition(head0, tail0, pivot, cmp, lo, hi, k0);
      if ok {
        ghost var d := cells;
        ok := SortParts(h, t, pivot, n, cmp, lo, k, hi);
        ListsMore(c, d, cells);
      }
    }

    /**
     src/lib/linklist.c:1057-1184: sorts the entries from `lo` to `hi`, from `head0` to `tail0`; or `ok` is false, and
     the program fails.
     */
    method QuickSort(head0: Entry?, tail0: Entry?, pivot: Entry?, n: nat, cmp: Compare, ghost lo: nat, ghost hi: nat,
                     ghost k0: nat)
      returns (ok: bool)
      requires Well() && Preorder(cmp) && lo + n == hi <= |nodes|
      requires n >= 2 ==>
                 head0 == At(nodes, lo) && tail0 == At(nodes, hi - 1) && pivot == At(nodes, k0) && lo <= k0 < hi
      modifies this`head, this`tail, this`nodes, this`cells, cells.Keys
      ensures Well() && SameLists(old(cells), cells) && Brought(ok, Quick(old(Line()), lo, hi, k0, cmp), Line())
      decreases n, 3
    {
      ok := true;
      if head0 == null || tail0 == null || pivot == null || n < 2 {
        return;
      }
      if n == 2 {
        SortTwo(head0, tail0, cmp, lo, hi, k0);
      } else {
        ok := SortMany(head0, tail0, pivot, n, cmp, lo, hi, k0);
      }
    }

    /**
     src/lib/linklist.c:1186-1195: the list is left with the same values, the greater ones first, and without
     a cursor; or `ok` is false, and the program fails, as a pivot whose links are to be changed does not name the
     list.
     */
    method Sort(cmp: Compare) returns (ok: bool)
      requires Valid() && Preorder(cmp)
      modifies this, cells.Keys
      ensures SameLists(old(cells), cells) && (ok <==> CanSort(old(Line()), cmp))
      ensures old(Own(cells, nodes, this)) ==> ok && Own(cells, nodes, this)
      ensures ok ==> Valid() && multiset(Contents()) == multiset(old(Contents()))
      ensures ok ==> forall i, j :: 0 <= i < j < |Contents()| ==> cmp(Contents()[i], Contents()[j]) >= 0
    {
      NamedOwn(cells, nodes, this);
      if AllNamed(Line()) {
        WholeNamed(Line(), cmp);
      }
      if CanSort(Line(), cmp) {
        WholeSorted(Line(), cmp);
      }
      var pivot := PickPivot();
      ok := SortAll(pivot, cmp);
      NamedOwn(cells, nodes, this);
      if ok {
        ClearCursor();
      }
    }

    /** src/lib/linklist.c:1190; there is no such entry in a list with less than two. */
    method PickPivot() returns (pivot: Entry?)
      requires Valid()
      modifies this`cur, this`pos
      ensures Valid() && (length >= 2 ==> pivot == At(nodes, length / 2 - 1))
    {
      pivot := null;
      if length >= 2 {
        pivot := PickEntry(length / 2 - 1);
      }
    }

    method ClearCursor()
      requires Well()
      modifies this`cur, this`pos
      ensures Valid()
    {
      cur, pos := null, 0;
    }

    method SortAll(pivot: Entry?, cmp: Compare) returns (ok: bool)
      requires Well() && Preorder(cmp) && (length >= 2 ==> pivot == At(nodes, length / 2 - 1))
      modifies this`head, this`tail, this`nodes, this`cells, cells.Keys
      ensures Well() && SameLists(old(cells), cells)
      ensures (ok <==> CanSort(old(Line()), cmp)) && (ok ==> Line() == WholeSort(old(Line()), cmp))
    {
      ok := QuickSort(head, tail, pivot, length, cmp, 0, |Contents()|, FirstPivot(|Contents()|));
    }
  }

  /** The sequence made as long as `n` with NULLs. */
  function Padded(l: seq<Value>, n: nat): seq<Value> {
    l + seq(if n < |l| then 0 else n - |l|, _ => 0)
  }

  /** `v` put in at a position, which may lie beyond the end. */
  function PutAt(l: seq<Value>, at: nat, v: Value): seq<Value> {
    InsertedAt(Padded(l, at), at, v)
  }

  lemma PaddedMore(l: seq<Value>, n: nat)
    requires |l| < n
    ensures Padded(InsertedAt(l, |l|, 0), n) == Padded(l, n)
  {
  }

  lemma PaddedPut(l: seq<Value>, at: nat, v: Value)
    ensures at >= |l| ==> PutAt(l, at, v) == Padded(l, at) + [v]
    ensures at <= |l| ==> PutAt(l, at, v) == InsertedAt(l, at, v) && Padded(l, at) == l
    ensures at == 0 ==> PutAt(l, at, v) == [v] + l
  {
  }

  /** Where everything is then: the value at its place, all others in their order, and NULLs up to it. */
  lemma PutAtIndex(l: seq<Value>, at: nat, v: Value, k: nat)
    requires k < |PutAt(l, at, v)|
    ensures |PutAt(l, at, v)| == (if at < |l| then |l| else at) + 1
    ensures PutAt(l, at, v)[k] ==
            if k == at then v else if k < at then (if k < |l| then l[k] else 0) else l[k - 1]
  {
  }

  function ValueAt(l: seq<Value>, at: nat): Value {
    if at < |l| then l[at] else 0
  }

  /** The element at `src` taken out and put in at `dst`. */
  function MovedTo(l: seq<Value>, src: nat, dst: nat): seq<Value> {
    if src < |l| then PutAt(CutOut(l, src), dst, l[src]) else l
  }

  /** A move to a place inside the list. */
  lemma MovedInside(l: seq<Value>, src: nat, dst: nat)
    requires src < |l| && dst < |l|
    ensures MovedTo(l, src, dst) == Relocated(l, src, dst)
  {
    PaddedPut(CutOut(l, src), dst, l[src]);
  }

  /** Two moves make a swap. */
  lemma SwapSteps(l: seq<Value>, m: seq<Value>, n: seq<Value>, p: nat, q: nat)
    requires p < q < |l| && m == MovedTo(l, q, p) && n == MovedTo(m, p + 1, q)
    ensures n == Exchanged(l, p, q)
  {
    MovedInside(l, q, p);
    MovedInside(m, p + 1, q);
    RelocatedTwice(l, m, n, p, q);
  }

  lemma RelocatedTwice(l: seq<Value>, m: seq<Value>, n: seq<Value>, p: nat, q: nat)
    requires p < q < |l| && m == Relocated(l, q, p) && n == Relocated(m, p + 1, q)
    ensures n == Exchanged(l, p, q)
  {
    forall k | 0 <= k < |l| ensures n[k] == Exchanged(l, p, q)[k] {
      RelocatedUp(m, p + 1, q, k);
      RelocatedDown(l, q, p, if k <= p || q < k then k else if k == q then p + 1 else k + 1);
    }
  }

  /** First and last entry after the one at `at` is gone; of a single entry the tail stays. */
  lemma CutEnds(l: seq<Entry>, m: seq<Entry>, at: nat, head: Entry?, tail: Entry?, prev: Entry?, next: Entry?)
    requires at < |l| && m == CutOut(l, at) && EndsOf(l) == (head, tail)
    requires prev == At(l, at - 1) && next == At(l, at + 1)
    ensures |m| == |l| - 1 && At(m, 0) == (if at == 0 then next else head)
    ensures (if at != 0 && at == |l| - 1 then prev else tail) == if |l| == 1 then l[at] else At(m, |m| - 1)
  {
    AtCut(l, at, 0);
    AtCut(l, at, |l| - 2);
  }

  ghost function EndsOf(l: seq<Entry>): (Entry?, Entry?) {
    (At(l, 0), At(l, |l| - 1))
  }

  /** First and last entry after a move to before the entry at `k`. */
  lemma BeforeEnds(c: Cells, l: seq<Entry>, m: seq<Entry>, b: nat, k: nat, head: Entry?, tail: Entry?, before: Entry?,
                   last: Entry?)
    requires Chain(c, l) && k < b < |l| && m == Relocated(l, b, k) && EndsOf(l) == (head, tail)
    requires before == At(l, k - 1) && last == At(l, b - 1)
    ensures |m| == |l|
    ensures EndsOf(m) == (if before == null && l[k] == head then l[b] else head, if l[b] == tail then last else tail)
  {
    SameEntry(c, l, b, |l| - 1);
    RelocatedDown(l, b, k, 0);
    RelocatedDown(l, b, k, |l| - 1);
  }

  lemma AfterEnds(c: Cells, l: seq<Entry>, m: seq<Entry>, a: nat, k: nat, head: Entry?, tail: Entry?, h: Entry?,
                  t: Entry?)
    requires Chain(c, l) && a < k < |l| && m == Relocated(l, a, k) && EndsOf(l) == (head, tail)
    requires h == if l[a] == head then At(l, a + 1) else head
    requires t == if At(l, k + 1) == null && l[k] == tail then l[a] else tail
    ensures |m| == |l| && EndsOf(m) == (h, t)
  {
    SameEntry(c, l, a, 0);
    RelocatedUp(l, a, k, 0);
    RelocatedUp(l, a, k, |l| - 1);
  }

  lemma DownSpots(c: Cells, l: seq<Entry>, m: seq<Entry>, lo: nat, hi: nat, a: nat, k: nat, b: nat, p2: Entry,
                  pivot: Entry, h0: Entry, t0: Entry, p: Entry, h: Entry, t: Entry)
    requires Chain(c, l) && Spots(l, lo, hi, a, k, b, pivot, p2, pivot, h0, t0) && a == k < b && m == Relocated(l, b, k)
    requires p == l[b - 1] && h == (if pivot == h0 then p2 else h0) && t == if p2 == t0 then p else t0
    ensures NextSpots(m, lo, hi, a, k, b, pivot, p, pivot, h, t)
  {
    RelocatedDown(l, b, k, b);
    RelocatedDown(l, b, k, k + 1);
    RelocatedDown(l, b, k, lo);
    RelocatedDown(l, b, k, hi - 1);
    SameEntry(c, l, k, lo);
    SameEntry(c, l, b, hi - 1);
  }

  lemma UpSpots(c: Cells, l: seq<Entry>, m: seq<Entry>, lo: nat, hi: nat, a: nat, k: nat, b: nat, p1: Entry,
                pivot: Entry, h0: Entry, t0: Entry, p: Entry, h: Entry, t: Entry)
    requires Chain(c, l) && Spots(l, lo, hi, a, k, b, p1, pivot, pivot, h0, t0) && a < k == b && m == Relocated(l, a, k)
    requires p == l[a + 1] && h == (if p1 == h0 then p else h0) && t == if pivot == t0 then p1 else t0
    ensures NextSpots(m, lo, hi, a, k, b, p, pivot, pivot, h, t)
  {
    RelocatedUp(l, a, k, a);
    RelocatedUp(l, a, k, k - 1);
    RelocatedUp(l, a, k, lo);
    RelocatedUp(l, a, k, hi - 1);
    SameEntry(c, l, k, hi - 1);
    SameEntry(c, l, a, lo);
  }

  lemma StillThere(r: Row, s: Row, lo: nat, k: nat, hi: nat, i: nat, cmp: Compare)
    requires Matched(r) && lo <= k < hi <= |r.nodes| && k <= i < hi && Preorder(cmp)
    requires Quick(r, lo, k, LeftPivot(lo, k), cmp) == Some(s)
    ensures s.nodes[k] == r.nodes[k] && s.nodes[i] == r.nodes[i] && s.nodes[hi - 1] == r.nodes[hi - 1]
  {
    QuickSorts(r, lo, k, LeftPivot(lo, k), cmp);
  }
}
