/** The entries of src/lib/linklist.c and the links between them. */
module LinkCells {
  import opened Sequences

  /** What an entry carries is an address; 0 is NULL. */
  type Value = nat

  /** src/lib/linklist.c:12-18, without the tag. */
  class Entry {
    var list: object?
    var prev: Entry?
    var next: Entry?
    var value: Value

    /** src/lib/linklist.c:190-200 */
    constructor (v: Value)
      ensures list == null && prev == null && next == null && value == v
    {
      list, prev, next, value := null, null, null, v;
    }
  }

  /** The fields of one entry. */
  datatype Cell = Cell(list: object?, prev: Entry?, next: Entry?, value: Value)

  type Cells = map<Entry, Cell>

  ghost predicate StoredAt(c: Cells, e: Entry)
    requires e in c
    reads e
  {
    e.list == c[e].list && e.prev == c[e].prev && e.next == c[e].next && e.value == c[e].value
  }

  /** The entries have these fields. */
  ghost predicate Stored(c: Cells)
    reads c.Keys
  {
    forall e {:trigger StoredAt(c, e)} :: e in c ==> StoredAt(c, e)
  }

  ghost function At(nodes: seq<Entry>, i: int): Entry? {
    if 0 <= i < |nodes| then nodes[i] else null
  }

  ghost predicate ChainedAt(c: Cells, nodes: seq<Entry>, i: nat)
    requires i < |nodes|
  {
    && nodes[i] in c && c[nodes[i]].prev == At(nodes, i - 1) && c[nodes[i]].next == At(nodes, i + 1)
    && forall j :: 0 <= j < |nodes| && nodes[j] == nodes[i] ==> j == i
  }

  /** The entries are linked in the order of `nodes`, each of them once. */
  ghost predicate Chain(c: Cells, nodes: seq<Entry>) {
    forall i {:trigger ChainedAt(c, nodes, i)} :: 0 <= i < |nodes| ==> ChainedAt(c, nodes, i)
  }

  lemma ChainNoDup(c: Cells, nodes: seq<Entry>)
    requires Chain(c, nodes)
    ensures NoDup(nodes)
  {
    forall i, j | 0 <= i < j < |nodes| ensures nodes[i] != nodes[j] {
      assert ChainedAt(c, nodes, i);
    }
  }

  lemma SameEntry(c: Cells, l: seq<Entry>, i: nat, j: nat)
    requires Chain(c, l) && i < |l| && j < |l|
    ensures l[i] == l[j] <==> i == j
  {
    assert ChainedAt(c, l, i);
  }

  /** Entries that are in no list have no links. */
  ghost predicate Spare(c: Cells, nodes: seq<Entry>) {
    forall e {:trigger SpareAt(c, e)} :: e in c && e !in nodes ==> SpareAt(c, e)
  }

  ghost predicate SpareAt(c: Cells, e: Entry)
    requires e in c
  {
    c[e].list == null && c[e].prev == null && c[e].next == null
  }

  /** All entries of the list name it as their list. */
  ghost predicate Own(c: Cells, nodes: seq<Entry>, l: object) {
    forall e {:trigger OwnAt(c, e, l)} :: e in nodes && e in c ==> OwnAt(c, e, l)
  }

  ghost predicate OwnAt(c: Cells, e: Entry, l: object)
    requires e in c
  {
    c[e].list == l
  }

  ghost function ValueOf(c: Cells, e: Entry): Value {
    if e in c then c[e].value else 0
  }

  ghost function Values(c: Cells, nodes: seq<Entry>): (r: seq<Value>)
    ensures |r| == |nodes| && forall i :: 0 <= i < |r| ==> r[i] == ValueOf(c, nodes[i])
  {
    seq(|nodes|, i requires 0 <= i < |nodes| => ValueOf(c, nodes[i]))
  }

  /** `n` comes after `p`. */
  ghost function Joined(c: Cells, p: Entry?, n: Entry?): Cells
    requires (p != null ==> p in c) && (n != null ==> n in c)
  {
    var d := if p == null then c else c[p := c[p].(next := n)];
    if n == null then d else d[n := d[n].(prev := p)]
  }

  /** Only links differ. */
  ghost predicate SameRest(c: Cells, d: Cells) {
    c.Keys == d.Keys && forall e {:trigger KeptAt(c, d, e)} :: e in c ==> KeptAt(c, d, e) && d[e].list == c[e].list
  }

  ghost predicate KeptAt(c: Cells, d: Cells, e: Entry)
    requires e in c
  {
    e in d && d[e].value == c[e].value
  }

  /** No entry has lost its value. */
  ghost predicate KeepsValues(c: Cells, d: Cells) {
    forall e {:trigger KeptAt(c, d, e)} :: e in c ==> KeptAt(c, d, e)
  }

  lemma JoinedRest(c: Cells, p: Entry?, n: Entry?)
    requires (p != null ==> p in c) && (n != null ==> n in c)
    ensures SameRest(c, Joined(c, p, n))
  {
  }

  lemma SameValues(c: Cells, d: Cells, nodes: seq<Entry>)
    requires SameRest(c, d)
    ensures Values(d, nodes) == Values(c, nodes) && KeepsValues(c, d)
  {
    forall e | e in c ensures KeptAt(c, d, e) && ValueOf(d, e) == ValueOf(c, e) {
    }
  }

  lemma Ends(c: Cells, nodes: seq<Entry>, i: int)
    requires Chain(c, nodes)
    ensures At(nodes, i) != null ==> At(nodes, i) in c
  {
    if 0 <= i < |nodes| {
      assert ChainedAt(c, nodes, i);
    }
  }

  lemma AtInserted(nodes: seq<Entry>, i: nat, e: Entry, k: int)
    requires i <= |nodes|
    ensures At(InsertedAt(nodes, i, e), k) == if k < i then At(nodes, k) else if k == i then e else At(nodes, k - 1)
  {
  }

  lemma AtCut(nodes: seq<Entry>, i: nat, k: int)
    requires i < |nodes|
    ensures At(CutOut(nodes, i), k) == if k < i then At(nodes, k) else At(nodes, k + 1)
  {
  }

  lemma CutMembers(nodes: seq<Entry>, i: nat)
    requires i < |nodes| && NoDup(nodes)
    ensures NoDup(CutOut(nodes, i)) && nodes[i] !in CutOut(nodes, i)
    ensures forall e :: e in CutOut(nodes, i) <==> e in nodes && e != nodes[i]
  {
    var m := CutOut(nodes, i);
    forall e | e in nodes && e != nodes[i] ensures e in m {
      var j :| 0 <= j < |nodes| && nodes[j] == e;
      assert m[if j < i then j else j - 1] == e;
    }
  }

  // ----- an entry leaves the list

  /** Its neighbours are joined. */
  ghost function Bridged(c: Cells, nodes: seq<Entry>, i: nat): Cells
    requires Chain(c, nodes) && i < |nodes|
  {
    Ends(c, nodes, i - 1);
    Ends(c, nodes, i + 1);
    Joined(c, At(nodes, i - 1), At(nodes, i + 1))
  }

  lemma BridgedChainAt(c: Cells, nodes: seq<Entry>, i: nat, j: nat)
    requires Chain(c, nodes) && i < |nodes| && j < |nodes| - 1
    ensures ChainedAt(Bridged(c, nodes, i), CutOut(nodes, i), j)
  {
    var k := if j < i then j else j + 1;
    assert ChainedAt(c, nodes, k) && ChainedAt(c, nodes, i);
    ChainNoDup(c, nodes);
    CutMembers(nodes, i);
    assert CutOut(nodes, i)[j] == nodes[k];
  }

  lemma BridgedChain(c: Cells, nodes: seq<Entry>, i: nat)
    requires Chain(c, nodes) && i < |nodes|
    ensures Chain(Bridged(c, nodes, i), CutOut(nodes, i)) && SameRest(c, Bridged(c, nodes, i))
  {
    Ends(c, nodes, i - 1);
    Ends(c, nodes, i + 1);
    JoinedRest(c, At(nodes, i - 1), At(nodes, i + 1));
    var d, m := Bridged(c, nodes, i), CutOut(nodes, i);
    forall j | 0 <= j < |m| ensures ChainedAt(d, m, j) {
      BridgedChainAt(c, nodes, i, j);
    }
  }

  /** The links of an entry outside of the list do not matter to it. */
  lemma OtherCell(c: Cells, nodes: seq<Entry>, e: Entry, x: Cell)
    requires Chain(c, nodes) && e !in nodes
    ensures Chain(c[e := x], nodes) && Values(c[e := x], nodes) == Values(c, nodes)
  {
    var d := c[e := x];
    forall i | 0 <= i < |nodes| ensures ChainedAt(d, nodes, i) {
      assert ChainedAt(c, nodes, i);
    }
  }

  function Freed(x: Cell): Cell {
    Cell(null, null, null, x.value)
  }

  lemma ValuesCut(c: Cells, nodes: seq<Entry>, i: nat)
    requires i < |nodes|
    ensures Values(c, CutOut(nodes, i)) == CutOut(Values(c, nodes), i)
  {
  }

  /** The entry that has left still has its links. */
  lemma BridgedSpare(c: Cells, nodes: seq<Entry>, i: nat)
    requires Chain(c, nodes) && Spare(c, nodes) && i < |nodes|
    ensures Spare(Bridged(c, nodes, i), CutOut(nodes, i) + [nodes[i]])
  {
    ChainNoDup(c, nodes);
    CutMembers(nodes, i);
    var d := Bridged(c, nodes, i);
    forall e | e in d && e !in CutOut(nodes, i) + [nodes[i]] ensures SpareAt(d, e) {
      assert SpareAt(c, e);
    }
  }

  lemma SpareMore(c: Cells, nodes: seq<Entry>, e: Entry)
    requires Spare(c, nodes)
    ensures Spare(c, nodes + [e])
  {
    forall x | x in c && x !in nodes + [e] ensures SpareAt(c, x) {
    }
  }

  lemma FreedSpare(c: Cells, nodes: seq<Entry>, e: Entry)
    requires Spare(c, nodes + [e]) && e in c && e !in nodes
    ensures Spare(c[e := Freed(c[e])], nodes)
  {
    var d := c[e := Freed(c[e])];
    forall x | x in d && x !in nodes ensures SpareAt(d, x) {
      assert x != e ==> SpareAt(c, x);
    }
  }

  lemma FreedOwn(c: Cells, nodes: seq<Entry>, e: Entry, l: object)
    requires Own(c, nodes, l) && e in c && e !in nodes
    ensures Own(c[e := Freed(c[e])], nodes, l)
  {
    var d := c[e := Freed(c[e])];
    forall x | x in nodes && x in d ensures OwnAt(d, x, l) {
      assert OwnAt(c, x, l);
    }
  }

  /** Fewer entries, or the same ones, still name the list. */
  lemma SameOwn(c: Cells, d: Cells, nodes: seq<Entry>, l: object, m: seq<Entry>)
    requires SameRest(c, d) && Own(c, nodes, l) && forall e :: e in m ==> e in nodes
    ensures Own(d, m, l)
  {
    forall x | x in m && x in d ensures OwnAt(d, x, l) {
      assert OwnAt(c, x, l) && KeptAt(c, d, x);
    }
  }

  // ----- an entry enters the list

  ghost function Hooked(c: Cells, nodes: seq<Entry>, i: nat, e: Entry): Cells
    requires Chain(c, nodes) && i <= |nodes| && e in c
  {
    Ends(c, nodes, i - 1);
    Ends(c, nodes, i);
    Joined(Joined(c, At(nodes, i - 1), e), e, At(nodes, i))
  }

  lemma HookedChainAt(c: Cells, nodes: seq<Entry>, i: nat, e: Entry, j: nat)
    requires Chain(c, nodes) && i <= |nodes| && e in c && e !in nodes && j <= |nodes|
    ensures ChainedAt(Hooked(c, nodes, i, e), InsertedAt(nodes, i, e), j)
  {
    ChainNoDup(c, nodes);
    InsertedMembers(nodes, i, e);
    if j < i {
      assert ChainedAt(c, nodes, j);
    } else if i < j {
      assert ChainedAt(c, nodes, j - 1);
    } else {
      Ends(c, nodes, i - 1);
      Ends(c, nodes, i);
    }
  }

  lemma HookedChain(c: Cells, nodes: seq<Entry>, i: nat, e: Entry)
    requires Chain(c, nodes) && i <= |nodes| && e in c && e !in nodes
    ensures Chain(Hooked(c, nodes, i, e), InsertedAt(nodes, i, e)) && SameRest(c, Hooked(c, nodes, i, e))
    ensures Values(Hooked(c, nodes, i, e), InsertedAt(nodes, i, e)) == InsertedAt(Values(c, nodes), i, c[e].value)
  {
    Ends(c, nodes, i - 1);
    Ends(c, nodes, i);
    JoinedRest(c, At(nodes, i - 1), e);
    JoinedRest(Joined(c, At(nodes, i - 1), e), e, At(nodes, i));
    var d, m := Hooked(c, nodes, i, e), InsertedAt(nodes, i, e);
    forall j | 0 <= j < |m| ensures ChainedAt(d, m, j) {
      HookedChainAt(c, nodes, i, e, j);
    }
    SameValues(c, d, m);
  }

  lemma HookedSpare(c: Cells, nodes: seq<Entry>, i: nat, e: Entry)
    requires Chain(c, nodes) && Spare(c, nodes + [e]) && i <= |nodes| && e in c && e !in nodes
    ensures Spare(Hooked(c, nodes, i, e), InsertedAt(nodes, i, e))
  {
    InsertedMembers(nodes, i, e);
    var d := Hooked(c, nodes, i, e);
    forall x | x in d && x !in InsertedAt(nodes, i, e) ensures SpareAt(d, x) {
      assert SpareAt(c, x);
    }
  }

  /** Which list an entry names does not matter to the links. */
  lemma Relisted(c: Cells, nodes: seq<Entry>, e: Entry, l: object?)
    requires Chain(c, nodes) && Spare(c, nodes) && e in c && e in nodes
    ensures
      var d := c[e := c[e].(list := l)];
      Chain(d, nodes) && Spare(d, nodes) && Values(d, nodes) == Values(c, nodes) && KeepsValues(c, d)
  {
    var d := c[e := c[e].(list := l)];
    forall i | 0 <= i < |nodes| ensures ChainedAt(d, nodes, i) {
      assert ChainedAt(c, nodes, i);
    }
    forall x | x in d && x !in nodes ensures SpareAt(d, x) {
      assert SpareAt(c, x);
    }
    forall x | x in c ensures KeptAt(c, d, x) {
    }
  }

  /** A new entry names the list, like the others. */
  lemma RelistedOwn(c: Cells, d: Cells, nodes: seq<Entry>, m: seq<Entry>, e: Entry, l: object)
    requires Own(c, nodes, l) && SameRest(c, d) && e in d && forall x :: x in m ==> x in nodes || x == e
    ensures Own(d[e := d[e].(list := l)], m, l)
  {
    var f := d[e := d[e].(list := l)];
    forall x | x in m && x in f ensures OwnAt(f, x, l) {
      if x != e {
        assert OwnAt(c, x, l) && KeptAt(c, d, x);
      }
    }
  }

  lemma Revalued(c: Cells, nodes: seq<Entry>, i: nat, v: Value)
    requires Chain(c, nodes) && Spare(c, nodes) && i < |nodes| && nodes[i] in c
    ensures
      var d := c[nodes[i] := c[nodes[i]].(value := v)];
      Chain(d, nodes) && Spare(d, nodes) && Values(d, nodes) == Values(c, nodes)[i := v]
  {
    var d := c[nodes[i] := c[nodes[i]].(value := v)];
    assert ChainedAt(c, nodes, i);
    forall j | 0 <= j < |nodes| ensures ChainedAt(d, nodes, j) {
      assert ChainedAt(c, nodes, j);
    }
    forall x | x in d && x !in nodes ensures SpareAt(d, x) {
      assert SpareAt(c, x);
    }
  }

  lemma KeptMore(c: Cells, d: Cells, f: Cells)
    requires KeepsValues(c, d) && KeepsValues(d, f)
    ensures KeepsValues(c, f)
  {
    forall x | x in c ensures KeptAt(c, f, x) {
      assert KeptAt(c, d, x) && KeptAt(d, f, x);
    }
  }

  lemma BridgeReady(c: Cells, nodes: seq<Entry>, i: nat)
    requires Chain(c, nodes) && Spare(c, nodes) && i < |nodes|
    ensures nodes[i] in c && (At(nodes, i - 1) != null ==> At(nodes, i - 1) in c)
    ensures (At(nodes, i + 1) != null ==> At(nodes, i + 1) in c)
    ensures
      var d := Joined(c, At(nodes, i - 1), At(nodes, i + 1));
      && Chain(d, CutOut(nodes, i)) && SameRest(c, d) && nodes[i] !in CutOut(nodes, i)
      && Spare(d, CutOut(nodes, i) + [nodes[i]]) && Values(d, CutOut(nodes, i)) == CutOut(Values(c, nodes), i)
  {
    assert ChainedAt(c, nodes, i);
    Ends(c, nodes, i - 1);
    Ends(c, nodes, i + 1);
    BridgedChain(c, nodes, i);
    BridgedSpare(c, nodes, i);
    ChainNoDup(c, nodes);
    CutMembers(nodes, i);
    ValuesCut(c, nodes, i);
    SameValues(c, Bridged(c, nodes, i), CutOut(nodes, i));
  }

  lemma UnlinkDone(c: Cells, d: Cells, nodes: seq<Entry>, m: seq<Entry>, i: nat, l: object)
    requires Chain(c, nodes) && i < |nodes| && SameRest(c, d) && m == CutOut(nodes, i) && Chain(d, m)
    requires Spare(d, m + [nodes[i]])
    requires nodes[i] in d && nodes[i] !in m
    ensures
      var f := d[nodes[i] := Freed(d[nodes[i]])];
      && Chain(f, m) && Spare(f, m) && Values(f, m) == Values(d, m) && (Own(c, nodes, l) ==> Own(f, m, l))
      && f[nodes[i]].value == Values(c, nodes)[i]
  {
    assert KeptAt(c, d, nodes[i]);
    OtherCell(d, m, nodes[i], Freed(d[nodes[i]]));
    FreedSpare(d, m, nodes[i]);
    if Own(c, nodes, l) {
      ChainNoDup(c, nodes);
      CutMembers(nodes, i);
      SameOwn(c, d, nodes, l, m);
      FreedOwn(d, m, nodes[i], l);
    }
  }

  lemma HookDone(c: Cells, d: Cells, nodes: seq<Entry>, m: seq<Entry>, i: nat, e: Entry, l: object)
    requires i <= |nodes| && m == InsertedAt(nodes, i, e) && SameRest(c, d) && Chain(d, m) && Spare(d, m) && e in d
    ensures
      var f := d[e := d[e].(list := l)];
      && Chain(f, m) && Spare(f, m) && Values(f, m) == Values(d, m) && KeepsValues(c, f)
         && (Own(c, nodes, l) ==> Own(f, m, l))
  {
    InsertedMembers(nodes, i, e);
    Relisted(d, m, e, l);
    SameValues(c, d, m);
    KeptMore(c, d, d[e := d[e].(list := l)]);
    if Own(c, nodes, l) {
      RelistedOwn(c, d, nodes, m, e, l);
    }
  }

  /** A new entry, which is not in the list. */
  lemma Enlarged(c: Cells, nodes: seq<Entry>, e: Entry, v: Value, l: object)
    requires Chain(c, nodes) && Spare(c, nodes) && e !in c
    ensures
      var d := c[e := Cell(null, null, null, v)];
      && e !in nodes && Chain(d, nodes) && Spare(d, nodes) && Values(d, nodes) == Values(c, nodes)
      && KeepsValues(c, d) && (Own(c, nodes, l) ==> Own(d, nodes, l))
  {
    var d := c[e := Cell(null, null, null, v)];
    forall i | 0 <= i < |nodes| ensures nodes[i] != e {
      assert ChainedAt(c, nodes, i);
    }
    OtherCell(c, nodes, e, Cell(null, null, null, v));
    forall x | x in c ensures KeptAt(c, d, x) {
    }
    forall x | x in d && x !in nodes ensures SpareAt(d, x) {
      assert x != e ==> SpareAt(c, x);
    }
    forall x | x in nodes && x in d && Own(c, nodes, l) ensures OwnAt(d, x, l) {
      assert OwnAt(c, x, l);
    }
  }

  /** An entry that was hooked in without naming the list. */
  lemma NotOwn(c: Cells, d: Cells, nodes: seq<Entry>, m: seq<Entry>, e: Entry, l: object)
    requires Spare(c, nodes) && e in c && e !in nodes && SameRest(c, d) && e in m
    ensures !Own(d, m, l) && !Names(d, e, l)
  {
    assert SpareAt(c, e) && KeptAt(c, d, e);
    assert !OwnAt(d, e, l);
  }

  /** All entries name the list that they named before. */
  ghost predicate SameLists(c: Cells, d: Cells) {
    c.Keys == d.Keys && forall e {:trigger ListKept(c, d, e)} :: e in c ==> ListKept(c, d, e)
  }

  ghost predicate ListKept(c: Cells, d: Cells, e: Entry)
    requires e in c
  {
    e in d && d[e].list == c[e].list
  }

  lemma ListsMore(c: Cells, d: Cells, f: Cells)
    requires SameLists(c, d) && SameLists(d, f)
    ensures SameLists(c, f)
  {
    forall e | e in c ensures ListKept(c, f, e) {
      assert ListKept(c, d, e) && ListKept(d, f, e);
    }
  }

  ghost predicate Names(c: Cells, e: Entry, l: object) {
    e in c && c[e].list == l
  }

  /** Which entries name the list, by position. */
  ghost function Named(c: Cells, nodes: seq<Entry>, l: object): (r: seq<bool>)
    ensures |r| == |nodes| && forall i :: 0 <= i < |r| ==> r[i] == Names(c, nodes[i], l)
  {
    seq(|nodes|, i requires 0 <= i < |nodes| => Names(c, nodes[i], l))
  }

  lemma NamedSame(c: Cells, d: Cells, nodes: seq<Entry>, l: object)
    requires SameLists(c, d)
    ensures Named(d, nodes, l) == Named(c, nodes, l)
  {
    forall i | 0 <= i < |nodes| ensures Names(d, nodes[i], l) == Names(c, nodes[i], l) {
      assert nodes[i] in c ==> ListKept(c, d, nodes[i]);
    }
  }

  lemma NamedOwn(c: Cells, nodes: seq<Entry>, l: object)
    requires Chain(c, nodes)
    ensures Own(c, nodes, l)
            <==> forall i {:trigger Named(c, nodes, l)[i]} :: 0 <= i < |nodes| ==> Named(c, nodes, l)[i]
  {
    if forall i {:trigger Named(c, nodes, l)[i]} :: 0 <= i < |nodes| ==> Named(c, nodes, l)[i] {
      forall e | e in nodes && e in c ensures OwnAt(c, e, l) {
        var i :| 0 <= i < |nodes| && nodes[i] == e;
        assert Named(c, nodes, l)[i];
      }
    }
    if Own(c, nodes, l) {
      forall i | 0 <= i < |nodes| ensures Named(c, nodes, l)[i] {
        assert ChainedAt(c, nodes, i) && OwnAt(c, nodes[i], l);
      }
    }
  }

  /** The entry at `i` has been taken out and put in elsewhere. */
  lemma MovedLists(c: Cells, d: Cells, f: Cells, nodes: seq<Entry>, i: nat)
    requires Chain(c, nodes) && SameRest(c, d) && SameRest(d, f) && i < |nodes|
    ensures SameLists(c, f) && nodes[i] in d && d[nodes[i]].value == Values(c, nodes)[i]
  {
    assert ChainedAt(c, nodes, i) && KeptAt(c, d, nodes[i]);
    forall e | e in c ensures ListKept(c, f, e) {
      assert KeptAt(c, d, e) && KeptAt(d, f, e);
    }
  }

  lemma RevaluedLists(c: Cells, e: Entry, v: Value)
    requires e in c
    ensures SameLists(c, c[e := c[e].(value := v)])
  {
    var d := c[e := c[e].(value := v)];
    forall x | x in c ensures ListKept(c, d, x) {
    }
  }
}
