/**
 Traversers over the table of src/lib/rb.c.  A traverser keeps the nodes above its current node on a
 stack of its own; when the table's generation number shows that the tree has changed, it finds that
 stack again by searching for its node.

 `rb_t_next` and `rb_t_prev`, and `rb_t_first` and `rb_t_last`, are mirror images and become one method
 each with a direction: true goes up the order, false goes down.
 */
module RbTraverser {
  import opened Sequences
  import opened RbTree
  import opened RbOrder
  import opened RbMemory
  import opened RbTable

  /** The stack of a traverser: the nodes above, without a pseudo-root. */
  ghost function Above<T>(p: Path<RbNode<T>>): seq<RbNode<T>> {
    match p
    case Top => []
    case Up(n, _, _, _, rest) => Above(rest) + [n]
  }

  /** How many nodes of the tree come before the far end of `t` in direction `d`. */
  function Edge<N>(p: Path<N>, t: Tree<N>, d: bool): int {
    if d then |Before(p)| + |InOrder(t)| else |Before(p)| - 1
  }

  /** The node at position `i` of a sequence, or null outside it. */
  ghost function At<T>(o: seq<RbNode<T>>, i: int): RbNode?<T> {
    if 0 <= i < |o| then o[i] else null
  }

  /** The position of the node on top of `t`. */
  function Position<N>(p: Path<N>, t: Tree<N>): nat
    requires t.Node?
  {
    |Before(p)| + |InOrder(t.left)|
  }

  lemma PositionAt<N>(p: Path<N>, t: Tree<N>)
    requires t.Node?
    ensures Position(p, t) < |InOrder(Plug(p, t))| && InOrder(Plug(p, t))[Position(p, t)] == t.node
  {
    PlugInOrder(p, t);
  }

  lemma EdgeKid<N>(p: Path<N>, t: Tree<N>, d: bool)
    requires t.Node?
    ensures Edge(Up(t.node, d, t.color, Kid(t, !d), p), Kid(t, d), d) == Edge(p, t, d)
    ensures Edge(Up(t.node, d, t.color, Kid(t, !d), p), Kid(t, d), !d) == Position(p, t)
    ensures Kid(t, d).Leaf? ==> Edge(p, t, d) == Position(p, t) + if d then 1 else -1
  {
  }

  lemma EdgeUp<N>(p: Path<N>, t: Tree<N>, d: bool)
    requires p.Up?
    ensures
      var j := Join(p.color, p.dir, t, p.node, p.other);
      && Plug(p, t) == Plug(p.rest, j)
      && Edge(p, t, d) == if p.dir == d then Edge(p.rest, j, d) else Position(p.rest, j)
  {
  }

  lemma EdgeTop<N>(t: Tree<N>, d: bool)
    ensures Edge(Top, t, d) == if d then |InOrder(t)| else -1
  {
  }

  class Traverser<T(==,!new)> {
    var table: Table<T>
    var node: RbNode?<T>
    var stack: seq<RbNode<T>>
    var generation: int
    ghost var path: Path<RbNode<T>>
    ghost var sub: Tree<RbNode<T>>

    /** The stack leads to the current node. */
    ghost predicate Aligned()
      reads this, table
    {
      Plug(path, sub) == table.tree && sub.Node? && node == sub.node && stack == Above(path)
    }

    ghost predicate Valid()
      reads this, table, table.memory.Keys
    {
      && table.Valid() && table.count < CAPACITY
      && (node != null ==> node in table.Order())
      && generation <= table.generation
      && (node != null && generation == table.generation ==> Aligned())
    }

    /** src/lib/rb.c:460-467: selects the null node. */
    constructor (tree: Table<T>)
      requires tree.Valid() && tree.count < CAPACITY
      ensures Valid() && table == tree && node == null
    {
      table, node, stack, generation := tree, null, [], tree.generation;
    }

    /** The loops that run down one side of a subtree, pushing the nodes they pass. */
    static method Slide(tree: Table<T>, x0: RbNode<T>, d: bool, stack0: seq<RbNode<T>>, ghost p0: Path<RbNode<T>>,
                        ghost t0: Tree<RbNode<T>>)
      returns (x: RbNode<T>, stack: seq<RbNode<T>>, ghost p: Path<RbNode<T>>, ghost t: Tree<RbNode<T>>)
      requires tree.Valid() && Plug(p0, t0) == tree.tree && t0.Node? && x0 == t0.node && stack0 == Above(p0)
      requires |stack0| + Height(t0) < RB_MAX_HEIGHT
      ensures Plug(p, t) == tree.tree && t.Node? && x == t.node && stack == Above(p)
      ensures Kid(t, d).Leaf? && Edge(p, t, d) == Edge(p0, t0, d)
    {
      x, stack, p, t := x0, stack0, p0, t0;
      tree.Read(p, t);
      while x.link.At(d) != null
        invariant Plug(p, t) == tree.tree && t.Node? && x == t.node && stack == Above(p)
        invariant Edge(p, t, d) == Edge(p0, t0, d) && |stack| + Height(t) < RB_MAX_HEIGHT
        invariant x.link == TopCell(t).link
        decreases t
      {
        assert |stack| < RB_MAX_HEIGHT;  // assert (trav->rb_height < RB_MAX_HEIGHT)
        EdgeKid(p, t, d);
        stack := stack + [x];
        x := x.link.At(d);
        p, t := Up(t.node, d, t.color, Kid(t, !d), p), Kid(t, d);
        tree.Read(p, t);
      }
    }

    /** Assigns all fields at once. */
    method Select(tree: Table<T>, st: seq<RbNode<T>>, x: RbNode?<T>, ghost p: Path<RbNode<T>>, ghost t: Tree<RbNode<T>>)
      modifies this
      ensures table == tree && stack == st && node == x && path == p && sub == t && generation == tree.generation
    {
      table, stack, generation, node, path, sub := tree, st, tree.generation, x, p, t;
    }

    static method Outermost(tree: Table<T>, d: bool)
      returns (x: RbNode?<T>, st: seq<RbNode<T>>, ghost p: Path<RbNode<T>>, ghost t: Tree<RbNode<T>>)
      requires tree.Valid() && tree.count < CAPACITY
      ensures x == At(tree.Order(), if d then |tree.Order()| - 1 else 0)
      ensures x != null ==> Plug(p, t) == tree.tree && t.Node? && x == t.node && st == Above(p) && x in tree.Order()
    {
      x, st, p, t := tree.root, [], Top, tree.tree;
      if x != null {
        tree.HeightFits();
        x, st, p, t := Slide(tree, x, d, [], Top, tree.tree);
        EdgeTop(tree.tree, d);
        EdgeKid(p, t, d);
        PositionAt(p, t);
      }
    }

    /** src/lib/rb.c:472-494 (d false) and 499-521 (d true): selects the first or the last item. */
    method Extreme(tree: Table<T>, d: bool)
      requires tree.Valid() && tree.count < CAPACITY
      modifies this
      ensures Valid() && table == tree && generation == tree.generation
      ensures node == At(tree.Order(), if d then |tree.Order()| - 1 else 0)
    {
      var x, st;
      ghost var p, t;
      x, st, p, t := Outermost(tree, d);
      Select(tree, st, x, p, t);
    }

    /** src/lib/rb.c:567-589: inserts an item, or finds its duplicate, and selects it. */
    method Insert(tree: Table<T>, item: T)
      requires tree.Valid() && tree.count + 1 < CAPACITY
      modifies this, tree, tree.memory.Keys`link, tree.memory.Keys`color
      ensures Valid() && table == tree
      ensures
        var s := old(tree.Items());
        var r := Rank(tree.compare, s, item);
        && tree.Items() == Added(tree.compare, s, item)
        && node == At(tree.Order(), r)
    {
      var n := Place(tree, item);
      Adopt(tree, n);
    }

    method Adopt(tree: Table<T>, n: RbNode<T>)
      requires tree.Valid() && tree.count < CAPACITY && n in tree.Order()
      modifies this
      ensures Valid() && table == tree && node == n
    {
      table, node, generation := tree, n, tree.generation - 1;
    }

    static method Place(tree: Table<T>, item: T) returns (n: RbNode<T>)
      requires tree.Valid() && tree.count + 1 < CAPACITY
      modifies tree, tree.memory.Keys`link, tree.memory.Keys`color
      ensures tree.Valid() && tree.count < CAPACITY && n in tree.Order()
      ensures
        var s := old(tree.Items());
        var r := Rank(tree.compare, s, item);
        && tree.Items() == Added(tree.compare, s, item)
        && n == At(tree.Order(), r)
    {
      n := tree.Probe(item);
      ghost var r := Rank(tree.compare, old(tree.Items()), item);
      assert r < |tree.Order()| && tree.Order()[r] == n;
    }

    /** The node sought is still below `i`, and no other node compares equal to it. */
    lemma Narrowed(k: nat, p: Path<RbNode<T>>, t: Tree<RbNode<T>>)
      requires table.Valid() && k < |table.Order()| && table.Order()[k] == node
      requires table.Searching(node.data, p, t)
      ensures t.Node? && (table.compare(node.data, t.node.data) == 0 ==> t.node == node)
    {
      assert Opposite(table.compare, node.data, node.data);
      SettleHit(table.compare, table.Items(), node.data, k);
      table.LeafMisses(node.data, p, t);
      if table.compare(node.data, t.node.data) == 0 {
        table.SearchHit(node.data, p, t);
      }
    }

    /** The search of src/lib/rb.c:446-455. */
    method Retrace() returns (st: seq<RbNode<T>>, ghost p: Path<RbNode<T>>, ghost t: Tree<RbNode<T>>)
      requires Valid() && node != null
      ensures Plug(p, t) == table.tree && t.Node? && node == t.node && st == Above(p)
    {
      ghost var k :| 0 <= k < |table.Order()| && table.Order()[k] == node;
      var i := table.root;
      st, p, t := [], Top, table.tree;
      table.HeightFits();
      while i != node
        invariant table.Valid() && table.Searching(node.data, p, t) && i == Root(t) && st == Above(p)
        invariant |st| + Height(t) < RB_MAX_HEIGHT
        decreases t
      {
        Narrowed(k, p, t);
        assert |st| < RB_MAX_HEIGHT;  // assert (trav->rb_height < RB_MAX_HEIGHT)
        st := st + [i];
        var d := table.compare(node.data, i.data) > 0;
        table.SearchDown(node.data, p, t, d);
        i := i.link.At(d);
        p, t := Up(t.node, d, t.color, Kid(t, !d), p), Kid(t, d);
      }
      Narrowed(k, p, t);
    }

    /** src/lib/rb.c:432-456: finds the stack again. */
    method Refresh()
      requires Valid()
      modifies this`stack, this`generation, this`path, this`sub
      ensures Valid() && generation == table.generation
    {
      if node != null {
        var st;
        ghost var p, t;
        st, p, t := Retrace();
        Restack(st, p, t);
      }
      generation := table.generation;
    }

    method Restack(st: seq<RbNode<T>>, ghost p: Path<RbNode<T>>, ghost t: Tree<RbNode<T>>)
      requires Valid() && node != null && Plug(p, t) == table.tree && t.Node? && node == t.node && st == Above(p)
      modifies this`stack, this`path, this`sub
      ensures Valid() && Aligned() && unchanged(table)
    {
      stack, path, sub := st, p, t;
    }

    /** The climb of src/lib/rb.c:648-659 and 701-712: leaves a subtree on its far side. */
    static method Climb(tree: Table<T>, x0: RbNode<T>, d: bool, stack: seq<RbNode<T>>, ghost p0: Path<RbNode<T>>,
                        ghost t0: Tree<RbNode<T>>)
      returns (x: RbNode?<T>, st: seq<RbNode<T>>, ghost p: Path<RbNode<T>>, ghost t: Tree<RbNode<T>>)
      requires tree.Valid() && Plug(p0, t0) == tree.tree && t0.Node? && x0 == t0.node && stack == Above(p0)
      requires Kid(t0, d).Leaf?
      ensures x != null ==> Plug(p, t) == tree.tree && t.Node? && x == t.node && st == Above(p) && x in tree.Order()
      ensures x == At(tree.Order(), Position(p0, t0) + if d then 1 else -1)
    {
      x, st, p, t := x0, stack, p0, t0;
      EdgeKid(p, t, d);
      while true
        invariant Plug(p, t) == tree.tree && t.Node? && x == t.node && st == Above(p)
        invariant Edge(p, t, d) == Edge(p0, t0, d)
        decreases p
      {
        if |st| == 0 {
          EdgeTop(t, d);
          x := null;
          return;
        }
        var y := x;
        x := st[|st| - 1];
        st := st[..|st| - 1];
        EdgeUp(p, t, d);
        tree.Seen(p, t);
        tree.Siblings(p, t);
        p, t := p.rest, Join(p.color, p.dir, t, p.node, p.other);
        if y != x.link.At(d) {
          PositionAt(p, t);
          return;
        }
      }
    }

    /**
     src/lib/rb.c:616-664 (d true) and 669-717 (d false): moves to the next or the previous item of the
     tree as it is now; from the null node, to the first or the last one.
     */
    method Step(d: bool)
      requires Valid()
      modifies this
      ensures Valid() && table == old(table)
      ensures old(node) == null ==> node == At(table.Order(), if d then 0 else |table.Order()| - 1)
      ensures forall i :: 0 <= i < |table.Order()| && table.Order()[i] == old(node) ==>
                node == At(table.Order(), if d then i + 1 else i - 1)
    {
      if generation != table.generation {
        Refresh();
      }
      if node == null {
        Extreme(table, !d);
      } else {
        Onward(d);
      }
    }

    /** src/lib/rb.c:633-642 and 686-695: into the subtree on the side to move to. */
    static method Inward(tree: Table<T>, x0: RbNode<T>, d: bool, stack: seq<RbNode<T>>, ghost p0: Path<RbNode<T>>,
                         ghost t0: Tree<RbNode<T>>)
      returns (x: RbNode<T>, st: seq<RbNode<T>>, ghost p: Path<RbNode<T>>, ghost t: Tree<RbNode<T>>)
      requires tree.Valid() && tree.count < CAPACITY && Plug(p0, t0) == tree.tree && t0.Node? && x0 == t0.node
      requires stack == Above(p0)
      requires x0.link.At(d) != null
      ensures Plug(p, t) == tree.tree && t.Node? && x == t.node && st == Above(p) && x in tree.Order()
      ensures x == At(tree.Order(), Position(p0, t0) + if d then 1 else -1)
    {
      tree.Read(p0, t0);
      tree.HeightFits();
      PlugHeight(p0, t0);
      AboveDepth(p0);
      EdgeKid(p0, t0, d);
      assert |stack| < RB_MAX_HEIGHT;  // assert (trav->rb_height < RB_MAX_HEIGHT)
      x, st, p, t := Slide(tree, x0.link.At(d), !d, stack + [x0], Up(t0.node, d, t0.color, Kid(t0, !d), p0),
                           Kid(t0, d));
      EdgeKid(p, t, !d);
      PositionAt(p, t);
    }

    method Onward(d: bool)
      requires Valid() && node != null && Aligned()
      modifies this
      ensures Valid() && table == old(table)
      ensures forall i :: 0 <= i < |table.Order()| && table.Order()[i] == old(node) ==>
                node == At(table.Order(), if d then i + 1 else i - 1)
    {
      InOrderNoDup(table.tree);
      PositionAt(path, sub);
      var x, st;
      ghost var p, t;
      x, st, p, t := Neighbour(table, node, d, stack, path, sub);
      Select(table, st, x, p, t);
    }

    /** src/lib/rb.c:631-660 and 684-713 */
    static method Neighbour(tree: Table<T>, x0: RbNode<T>, d: bool, stack: seq<RbNode<T>>, ghost p0: Path<RbNode<T>>,
                            ghost t0: Tree<RbNode<T>>)
      returns (x: RbNode?<T>, st: seq<RbNode<T>>, ghost p: Path<RbNode<T>>, ghost t: Tree<RbNode<T>>)
      requires tree.Valid() && tree.count < CAPACITY && Plug(p0, t0) == tree.tree && t0.Node? && x0 == t0.node
      requires stack == Above(p0)
      ensures tree.Valid() && tree.Order() == old(tree.Order())
      ensures x != null ==> Plug(p, t) == tree.tree && t.Node? && x == t.node && st == Above(p) && x in tree.Order()
      ensures x == At(tree.Order(), Position(p0, t0) + if d then 1 else -1)
    {
      tree.Read(p0, t0);
      if x0.link.At(d) != null {
        x, st, p, t := Inward(tree, x0, d, stack, p0, t0);
      } else {
        x, st, p, t := Climb(tree, x0, d, stack, p0, t0);
      }
    }
  }

  datatype Edit<T> = Insert(item: T) | Remove(item: T)

  /** The items after one edit. */
  function EditedOnce<T>(cmp: (T, T) -> int, s: seq<T>, edit: Edit<T>): seq<T> {
    match edit
    case Insert(x) => Added(cmp, s, x)
    case Remove(x) => Deleted(cmp, s, x)
  }

  /** The items after some edits. */
  function Edited<T>(cmp: (T, T) -> int, s: seq<T>, edits: seq<Edit<T>>): seq<T> {
    if edits == [] then s else EditedOnce(cmp, Edited(cmp, s, edits[..|edits| - 1]), edits[|edits| - 1])
  }

  method InsertUnder<T(==,!new)>(trav: Traverser<T>, item: T)
    requires trav.Valid() && trav.table.count + 1 < CAPACITY
    modifies trav.table, trav.table.memory.Keys`link, trav.table.memory.Keys`color
    ensures trav.Valid() && trav.table.count <= old(trav.table.count) + 1
    ensures trav.table.memory.Keys >= old(trav.table.memory.Keys)
    ensures fresh(trav.table.memory.Keys - old(trav.table.memory.Keys))
    ensures trav.table.Items() == Added(trav.table.compare, old(trav.table.Items()), item)
    ensures trav.node != null ==> trav.node.data == old(trav.node.data)
  {
    ghost var o, k := trav.table.Order(), Rank(trav.table.compare, trav.table.Items(), item);
    var _ := trav.table.Probe(item);
    if trav.node != null {
      KeptByInsert(o, trav.table.Order(), k, trav.node);
    }
  }

  method RemoveUnder<T(==,!new)>(trav: Traverser<T>, item: T)
    requires trav.Valid()
    requires trav.node != null ==> trav.table.compare(item, trav.node.data) != 0
    modifies trav.table, trav.table.memory.Keys`link, trav.table.memory.Keys`color
    ensures trav.Valid() && trav.table.count <= old(trav.table.count)
    ensures trav.table.memory.Keys == old(trav.table.memory.Keys)
    ensures trav.table.Items() == Deleted(trav.table.compare, old(trav.table.Items()), item)
    ensures trav.node != null ==> trav.node.data == old(trav.node.data)
  {
    ghost var o, s, k := trav.table.Order(), trav.table.Items(), Rank(trav.table.compare, trav.table.Items(), item);
    var _ := trav.table.Delete(item);
    if Hit(trav.table.compare, s, item) && trav.node != null {
      KeptByRemove(o, trav.table.Order(), k, trav.node);
    }
  }

  /** One change to the table, which leaves the item that the traverser stands on. */
  method EditUnder<T(==,!new)>(trav: Traverser<T>, edit: Edit<T>)
    requires trav.Valid() && trav.table.count + 1 < CAPACITY && trav.node != null
    requires edit.Remove? ==> trav.table.compare(edit.item, trav.node.data) != 0
    modifies trav.table, trav.table.memory.Keys`link, trav.table.memory.Keys`color
    ensures trav.Valid() && trav.table.count <= old(trav.table.count) + 1
    ensures trav.table.memory.Keys >= old(trav.table.memory.Keys)
    ensures fresh(trav.table.memory.Keys - old(trav.table.memory.Keys))
    ensures trav.table.Items() == EditedOnce(trav.table.compare, old(trav.table.Items()), edit)
    ensures trav.node.data == old(trav.node.data)
  {
    match edit
    case Insert(x) => InsertUnder(trav, x);
    case Remove(x) => RemoveUnder(trav, x);
  }

  /** Several changes. */
  method EditAllUnder<T(==,!new)>(trav: Traverser<T>, edits: seq<Edit<T>>)
    requires trav.Valid() && trav.table.count + |edits| < CAPACITY && trav.node != null
    requires forall i :: 0 <= i < |edits| && edits[i].Remove? ==> trav.table.compare(edits[i].item, trav.node.data) != 0
    modifies trav.table, trav.table.memory.Keys`link, trav.table.memory.Keys`color
    ensures trav.Valid() && fresh(trav.table.memory.Keys - old(trav.table.memory.Keys))
    ensures trav.table.Items() == Edited(trav.table.compare, old(trav.table.Items()), edits)
    ensures trav.node.data == old(trav.node.data)
  {
    assert edits[..0] == [];
    for i := 0 to |edits|
      invariant trav.Valid() && trav.table.count + |edits| - i < CAPACITY
      invariant trav.node.data == old(trav.node.data)
      invariant trav.table.Items() == Edited(trav.table.compare, old(trav.table.Items()), edits[..i])
      invariant fresh(trav.table.memory.Keys - old(trav.table.memory.Keys))
    {
      assert edits[..i + 1][..i] == edits[..i] && edits[..i + 1][i] == edits[i];
      EditUnder(trav, edits[i]);
    }
    assert edits[..|edits|] == edits;
  }

  /**
   Changes to the table while a traverser stands on a node: as long as the item it stands on is not
   removed, the traverser stays valid, so that the next step goes to the neighbour of that item in the
   table as it then is.
   */
  method StepAfter<T(==,!new)>(trav: Traverser<T>, edits: seq<Edit<T>>, d: bool)
    requires trav.Valid() && trav.table.count + |edits| < CAPACITY && trav.node != null
    requires forall i :: 0 <= i < |edits| && edits[i].Remove? ==> trav.table.compare(edits[i].item, trav.node.data) != 0
    modifies trav, trav.table, trav.table.memory.Keys`link, trav.table.memory.Keys`color
    ensures trav.Valid() && trav.table == old(trav.table)
    ensures trav.table.Items() == Edited(trav.table.compare, old(trav.table.Items()), edits)
    ensures old(trav.node) in trav.table.Order() && old(trav.node).data == old(trav.node.data)
    ensures forall i :: 0 <= i < |trav.table.Order()| && trav.table.Order()[i] == old(trav.node) ==>
              trav.node == At(trav.table.Order(), if d then i + 1 else i - 1)
  {
    EditAllUnder(trav, edits);
    trav.Step(d);
  }

  /** All items of a table in order: rb_t_first, then rb_t_next until it returns null. */
  method Traverse<T(==,!new)>(tree: Table<T>) returns (items: seq<T>)
    requires tree.Valid() && tree.count < CAPACITY
    ensures items == tree.Items()
  {
    var trav := new Traverser(tree);
    trav.Step(true);
    items := [];
    while trav.node != null
      invariant trav.Valid() && trav.table == tree && fresh(trav)
      invariant tree.Items() == old(tree.Items()) && |items| <= |tree.Order()|
      invariant items == tree.Items()[..|items|] && trav.node == At(tree.Order(), |items|)
      decreases |tree.Order()| - |items|
    {
      items := items + [trav.node.data];
      trav.Step(true);
    }
  }

  lemma AboveDepth<T>(p: Path<RbNode<T>>)
    ensures |Above(p)| == Depth(p)
  {
  }

  lemma KeptByInsert<N>(o: seq<N>, o': seq<N>, k: nat, n: N)
    requires k <= |o| && n in o && (o' == o || (|o'| == |o| + 1 && o' == InsertedAt(o, k, o'[k])))
    ensures n in o'
  {
    var i :| 0 <= i < |o| && o[i] == n;
    assert o' != o ==> o'[if i < k then i else i + 1] == n;
  }

  lemma KeptByRemove<N>(o: seq<N>, o': seq<N>, k: nat, n: N)
    requires k < |o| && n in o && n != o[k] && o' == CutOut(o, k)
    ensures n in o'
  {
    var i :| 0 <= i < |o| && o[i] == n;
    assert o'[if i < k then i else i - 1] == n;
  }
}
