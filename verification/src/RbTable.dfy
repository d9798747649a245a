/**
 The red-black table of src/lib/rb.c: insertion, search and deletion by rewriting linked nodes in place.
 */
module RbTable {
  import opened RbTree
  import opened Options
  import opened Sequences
  import opened RbOrder
  import opened RbMemory

  const RB_MAX_HEIGHT := 48

  /** With fewer items than this, no stack of a table or traverser overflows. */
  const CAPACITY := 0xFF_FFFF

  class Table<T(==,!new)> {
    const compare: (T, T) -> int
    var root: RbNode?<T>
    var count: nat
    var generation: nat
    ghost var tree: Tree<RbNode<T>>
    ghost var memory: Memory<T>

    /** The nodes below `root`, all different, are linked and coloured as in `t`. */
    ghost predicate Lies(t: Tree<RbNode<T>>)
      reads this`root, this`memory, memory.Keys
    {
      Fits(root, memory, t) && Stored(memory)
    }

    ghost predicate Valid()
      reads this, memory.Keys
    {
      && Lies(tree)
      && Members(tree) <= memory.Keys
      && Balanced(tree)
      && count == |InOrder(tree)|
      && Comparison(compare)
      && Ascending(compare, Items())
    }

    ghost function Order(): seq<RbNode<T>>
      reads this
    {
      InOrder(tree)
    }

    ghost function Items(): seq<T>
      requires Members(tree) <= memory.Keys
      reads this, memory.Keys
    {
      MembersInOrder(tree);
      assert forall n :: n in InOrder(tree) ==> n in Elements(InOrder(tree));
      Data(InOrder(tree))
    }

    constructor (cmp: (T, T) -> int)
      requires Comparison(cmp)
      ensures Valid() && compare == cmp && Items() == [] && generation == 0
    {
      compare, root, count, generation, tree, memory := cmp, null, 0, 0, Leaf, map[];
    }

    /** Where a descent stands: at a place in the tree that a red-black tree fits. */
    ghost predicate Placed(p: Path<RbNode<T>>, t: Tree<RbNode<T>>)
      reads this
    {
      Plug(p, t) == tree && RedBlack(t) && !Clash(p, t) && Accepts(p, BlackHeight(t))
    }

    /** A search for `item`: everything outside `t` is settled. */
    ghost predicate Searching(item: T, p: Path<RbNode<T>>, t: Tree<RbNode<T>>)
      requires Members(tree) <= memory.Keys
      reads this, memory.Keys
    {
      && Placed(p, t)
      && Settled(compare, Items(), item, |Before(p)|, |Before(p)| + |InOrder(t)|)
    }

    /** What the node on top of `t` says when it is read. */
    lemma Read(p: Path<RbNode<T>>, t: Tree<RbNode<T>>)
      requires Lies(Plug(p, t)) && t.Node?
      ensures t.node in memory && t.node.link == TopCell(t).link && t.node.color == t.color
    {
      HoldsPlug(memory, p, t);
    }

    lemma PlacedDown(p: Path<RbNode<T>>, t: Tree<RbNode<T>>, d: bool)
      requires Lies(tree) && Placed(p, t) && t.Node?
      ensures t.node.link.At(d) == Root(Kid(t, d))
      ensures Placed(Up(t.node, d, t.color, Kid(t, !d), p), Kid(t, d))
    {
      Read(p, t);
      DescendAccepts(p, t, d);
    }

    /** The node on top of `t` has the items before it and the left ones of `t` below it. */
    lemma TopRank(p: Path<RbNode<T>>, t: Tree<RbNode<T>>)
      requires Plug(p, t) == tree && t.Node?
      ensures |Before(p)| + |InOrder(t)| <= |Order()|
      ensures Order()[|Before(p)| + |InOrder(t.left)|] == t.node
    {
      PlugInOrder(p, t);
    }

    lemma SearchHit(item: T, p: Path<RbNode<T>>, t: Tree<RbNode<T>>)
      requires Valid() && Searching(item, p, t) && t.Node? && compare(item, t.node.data) == 0
      ensures
        var r := |Before(p)| + |InOrder(t.left)|;
        Hit(compare, Items(), item) && Rank(compare, Items(), item) == r && Order()[r] == t.node
      ensures Found(compare, Items(), item) == Some(t.node.data)
    {
      TopRank(p, t);
      SettleHit(compare, Items(), item, |Before(p)| + |InOrder(t.left)|);
    }

    lemma SearchDown(item: T, p: Path<RbNode<T>>, t: Tree<RbNode<T>>, d: bool)
      requires Valid() && Searching(item, p, t) && t.Node?
      requires compare(item, t.node.data) != 0 && d == (compare(item, t.node.data) > 0)
      ensures t.node.link.At(d) == Root(Kid(t, d))
      ensures Searching(item, Up(t.node, d, t.color, Kid(t, !d), p), Kid(t, d))
    {
      var q := Up(t.node, d, t.color, Kid(t, !d), p);
      PlacedDown(p, t, d);
      TopRank(p, t);
      var lo, l, r, s := |Before(p)|, |InOrder(t.left)|, |InOrder(t.right)|, Items();
      assert s[lo + l] == t.node.data && |InOrder(t)| == l + 1 + r;
      SettleDown(compare, s, item, lo, l, r);
      assert |Before(q)| == if d then lo + l + 1 else lo;
    }

    lemma SearchMiss(item: T, p: Path<RbNode<T>>, t: Tree<RbNode<T>>)
      requires Valid() && Searching(item, p, t) && t.Leaf?
      ensures !Hit(compare, Items(), item) && Found(compare, Items(), item) == None
      ensures Rank(compare, Items(), item) == |Before(p)|
      ensures Order() == Before(p) + After(p)
    {
      PlugInOrder(p, t);
      SettledMiss(compare, Items(), item, |Before(p)|);
    }

    lemma LeafMisses(item: T, p: Path<RbNode<T>>, t: Tree<RbNode<T>>)
      requires Valid() && Searching(item, p, t)
      ensures t.Leaf? ==> !Hit(compare, Items(), item)
    {
      if t.Leaf? {
        SearchMiss(item, p, t);
      }
    }

    /** src/lib/rb.c:63-82: the stored item that compares equal, by going down from the root. */
    method Find(item: T) returns (r: Option<T>)
      requires Valid()
      ensures r == Found(compare, Items(), item)
    {
      var p := root;
      ghost var path, t := Top, tree;
      while p != null
        invariant Valid() && p == Root(t) && Searching(item, path, t)
        decreases t
      {
        var cmp := compare(item, p.data);
        if cmp == 0 {
          SearchHit(item, path, t);
          return Some(p.data);
        }
        SearchDown(item, path, t, cmp > 0);
        p := p.link.At(cmp > 0);
        path, t := Up(t.node, cmp > 0, t.color, Kid(t, cmp <= 0), path), Kid(t, cmp > 0);
      }
      SearchMiss(item, path, t);
      return None;
    }

    /** No descent meets more nodes than the stacks have room for. */
    lemma HeightFits()
      requires Valid() && count < CAPACITY
      ensures Height(tree) <= RB_MAX_HEIGHT - 2
    {
      assert Pow2(10) == 0x400;
      assert Pow2(18) == 0x4_0000;
      assert Pow2(24) == 0x100_0000;
      Shallow(tree, 24);
    }

    /** The descents with stacks that start `rb_probe` and `rb_delete`. */
    method Locate(item: T)
      returns (p: RbNode?<T>, pa: seq<RbNode?<T>>, da: seq<bool>, ghost path: Path<RbNode<T>>, ghost t: Tree<RbNode<T>>)
      requires Valid() && count < CAPACITY
      ensures Valid() && Items() == old(Items())
      ensures Searching(item, path, t) && p == Root(t)
      ensures Stacks(pa, da, |pa|, path) && |pa| == |da|
      ensures p != null ==> compare(item, p.data) == 0
      ensures |pa| + Height(t) < RB_MAX_HEIGHT
    {
      p, pa, da, path, t := root, [null], [false], Top, tree;
      HeightFits();
      while p != null
        invariant Valid() && p == Root(t) && Searching(item, path, t)
        invariant pa == Nodes(path) && da == Dirs(path)
        invariant |pa| + Height(t) < RB_MAX_HEIGHT
        decreases t
      {
        var cmp := compare(item, p.data);
        if cmp == 0 {
          break;
        }
        SearchDown(item, path, t, cmp > 0);
        assert |pa| < RB_MAX_HEIGHT;  // room for pa[k] = p
        pa, da := pa + [p], da + [cmp > 0];
        p := p.link.At(cmp > 0);
        path, t := Up(t.node, cmp > 0, t.color, Kid(t, cmp <= 0), path), Kid(t, cmp > 0);
      }
      Stacked(path);
    }

    lemma Known()
      requires Members(tree) <= memory.Keys
      ensures forall i :: 0 <= i < |Order()| ==> Order()[i] in memory.Keys
    {
      MembersInOrder(tree);
      assert forall i :: 0 <= i < |Order()| ==> Order()[i] in Elements(Order());
    }

    /** q->rb_link[d] = x for a stack entry q, which may be the pseudo-root. */
    method SetLink(q: RbNode?<T>, d: bool, x: RbNode?<T>, ghost path: Path<RbNode<T>>)
      requires q == Anchor(path) && d == AnchorDir(path)
      requires Stored(memory) && (path.Up? ==> path.node in memory)
      modifies this`root, this`memory, (if path.Up? then {path.node} else {})`link
      ensures Stored(memory) && memory == Hang(old(memory), path, x) && memory.Keys == old(memory.Keys)
      ensures root == if path.Up? then old(root) else x
    {
      if q == null {
        root := x;
      } else {
        ghost var m := SetLinkAt(q, d, x, memory);
        memory := m;
      }
    }

    /** The uncle is red: src/lib/rb.c:131-133 and 165-167. */
    method Recolor(p: RbNode<T>, y: RbNode<T>, g: RbNode<T>, ghost path: Path<RbNode<T>>, ghost t: Tree<RbNode<T>>)
      requires path.Up? && path.rest.Up? && p == path.node && g == path.rest.node
      requires Lies(Plug(path, t)) && IsRed(path.rest.other) && y == path.rest.other.node
      modifies memory.Keys`color, this`memory
      ensures memory.Keys == old(memory.Keys) && Lies(Plug(path.rest.rest, Recolored(path, t)))
    {
      RecolorFits(root, memory, path, t);
      ghost var m := SetColor(p, Black, memory);
      m := SetColor(y, Black, m);
      m := SetColor(g, Red, m);
      assert m == RecoloredMemory(memory, p, y, g);
      memory := m;
    }

    /** The uncle is black: src/lib/rb.c:137-157 and 171-191, with q = pa[k - 3]. */
    method Rotate(p: RbNode<T>, dp: bool, g: RbNode<T>, d: bool, q: RbNode?<T>, dq: bool, ghost path: Path<RbNode<T>>,
                  ghost t: Tree<RbNode<T>>)
      requires path.Up? && path.rest.Up? && p == path.node && dp == path.dir && g == path.rest.node
      requires d == path.rest.dir
      requires q == Anchor(path.rest.rest) && dq == AnchorDir(path.rest.rest)
      requires Lies(Plug(path, t)) && path.color == Red && t.Node?
      modifies this`root, this`memory, memory.Keys`link, memory.Keys`color
      ensures memory.Keys == old(memory.Keys) && Lies(Plug(path.rest.rest, Rotated(path, t)))
    {
      RotationReady(root, memory, path, t);
      ghost var m;
      var y;
      if dp == d {
        y, m := RotateOuter(p, g, d, memory);
        OuterRotationMemory(root, memory, m, path, t);
      } else {
        y, m := RotateInner(p, g, d, memory);
        InnerRotationMemory(root, memory, m, path, t);
      }
      memory := m;
      SetLink(q, dq, y, path.rest.rest);
    }

    /** What a stack entry's node says when it is read. */
    lemma Seen(p: Path<RbNode<T>>, t: Tree<RbNode<T>>)
      requires Lies(Plug(p, t)) && p.Up?
      ensures p.node in memory && p.node.color == p.color
      ensures p.node.link.At(p.dir) == Root(t) && p.node.link.At(!p.dir) == Root(p.other)
      ensures p.other.Node? ==>
        && p.other.node in memory && p.other.node.color == p.other.color
        && p.other.node.link == TopCell(p.other).link
      ensures Plug(p, t) == Plug(p.rest, Join(p.color, p.dir, t, p.node, p.other))
    {
      HoldsPlug(memory, p, t);
    }

    /** One turn of the loop at src/lib/rb.c:124-194, with g = pa[k - 2] and q = pa[k - 3]. */
    method InsertTurn(p: RbNode<T>, dp: bool, g: RbNode<T>, d: bool, q: RbNode?<T>, dq: bool,
                      ghost path: Path<RbNode<T>>, ghost t: Tree<RbNode<T>>)
      returns (done: bool, ghost u: Tree<RbNode<T>>)
      requires path.Up? && path.rest.Up? && p == path.node && dp == path.dir && g == path.rest.node
      requires d == path.rest.dir
      requires q == Anchor(path.rest.rest) && dq == AnchorDir(path.rest.rest)
      requires Lies(Plug(path, t)) && Inserting(path, t) && path.color == Red
      modifies this`root, this`memory, memory.Keys`link, memory.Keys`color
      ensures memory.Keys == old(memory.Keys) && Lies(u) && InOrder(u) == InOrder(Plug(path, t))
      ensures done ==> Balanced(u)
      ensures !done ==> u == Plug(path.rest.rest, Recolored(path, t)) && Inserting(path.rest.rest, Recolored(path, t))
    {
      Seen(path, t);
      Seen(path.rest, Join(path.color, path.dir, t, path.node, path.other));
      var y := g.link.At(!d);
      if y != null && y.color == Red {
        RecolorStep(path, t);
        Recolor(p, y, g, path, t);
        u, done := Plug(path.rest.rest, Recolored(path, t)), false;
      } else {
        RotateStep(path, t);
        Rotate(p, dp, g, d, q, dq, path, t);
        u, done := Plug(path.rest.rest, Rotated(path, t)), true;
      }
    }

    /** src/lib/rb.c:126-193 */
    method FixTurn(pa: seq<RbNode?<T>>, da: seq<bool>, k0: nat, ghost path0: Path<RbNode<T>>, ghost t0: Tree<RbNode<T>>,
                   ghost order: seq<RbNode<T>>)
      returns (done: bool, k: nat, ghost path: Path<RbNode<T>>, ghost t: Tree<RbNode<T>>, ghost u: Tree<RbNode<T>>)
      requires Lies(Plug(path0, t0)) && Climbing(false, pa, da, k0, path0, t0, Plug(path0, t0), order)
      requires k0 >= 3 && pa[k0 - 1] != null && pa[k0 - 1].color == Red
      modifies this`root, this`memory, memory.Keys`link, memory.Keys`color
      ensures memory.Keys == old(memory.Keys) && Lies(u) && Climbing(done, pa, da, k, path, t, u, order)
      ensures k <= k0 && (done || k < k0)
    {
      TwoUp(pa, da, k0, path0);
      Seen(path0, t0);
      done, u := InsertTurn(pa[k0 - 1], da[k0 - 1], pa[k0 - 2], da[k0 - 2], pa[k0 - 3], da[k0 - 3], path0, t0);
      path, t, k := path0, t0, k0;
      if !done {
        path, t, k := path0.rest.rest, Recolored(path0, t0), k0 - 2;
      }
    }

    /** src/lib/rb.c:124-195 */
    method FixInsert(pa: seq<RbNode?<T>>, da: seq<bool>, ghost path0: Path<RbNode<T>>, ghost t0: Tree<RbNode<T>>)
      returns (ghost u: Tree<RbNode<T>>)
      requires Lies(Plug(path0, t0)) && Inserting(path0, t0)
      requires Stacks(pa, da, |pa|, path0)
      modifies this`root, this`memory, memory.Keys`link, memory.Keys`color
      ensures memory.Keys == old(memory.Keys) && Lies(u)
      ensures Balanced(u) && InOrder(u) == InOrder(Plug(path0, t0))
    {
      var k: nat := |pa|;
      ghost var path, t, order := path0, t0, InOrder(Plug(path0, t0));
      u := Plug(path, t);
      StacksTop(pa, da, k, path);
      PlugInOrder(path, t);
      assert order != [];
      var done := false;
      while !done && k >= 3 && pa[k - 1].color == Red
        invariant memory.Keys == old(memory.Keys) && Lies(u) && Climbing(done, pa, da, k, path, t, u, order)
        decreases k, !done
      {
        done, k, path, t, u := FixTurn(pa, da, k, path, t, order);
      }
      if !done {
        ClimbEnds(path, t, k);
      }
      u := PaintRoot(u);
    }

    lemma ClimbEnds(p: Path<RbNode<T>>, t: Tree<RbNode<T>>, k: nat)
      requires Lies(Plug(p, t)) && Inserting(p, t) && k == Depth(p) + 1
      requires k < 3 || Anchor(p).color == Black
      ensures Balanced(Paint(Plug(p, t), Black))
    {
      if p.Up? {
        Seen(p, t);
        assert p.rest.Up? ==> Depth(p.rest) >= 1;
      }
      InsertDone(p, t);
    }

    /** tree->rb_root->rb_color = RB_BLACK */
    method PaintRoot(ghost t: Tree<RbNode<T>>) returns (ghost u: Tree<RbNode<T>>)
      requires Lies(t) && InOrder(t) != []
      modifies this`memory, memory.Keys`color
      ensures memory.Keys == old(memory.Keys) && Lies(u) && u == Paint(t, Black) && InOrder(u) == InOrder(t)
    {
      PaintFits(root, memory, t);
      ghost var m := SetColor(root, Black, memory);
      memory, u := m, Paint(t, Black);
    }

    /** A new red node goes where the search ended: src/lib/rb.c:113-121. */
    method Grow(item: T, q: RbNode?<T>, d: bool, ghost path: Path<RbNode<T>>)
      returns (n: RbNode<T>)
      requires Lies(Plug(path, Leaf)) && q == Anchor(path) && d == AnchorDir(path)
      modifies this`root, this`memory, memory.Keys`link
      ensures fresh(n) && n.data == item && memory.Keys == old(memory.Keys) + {n}
      ensures Lies(Plug(path, Node(Red, Leaf, n, Leaf)))
    {
      n := new RbNode(item);
      GrowFits(root, memory, path, n);
      memory := memory[n := Cell(Links(null, null), Red)];
      SetLink(q, d, n, path);
    }

    /** The bookkeeping at the end of a change. */
    method Commit(n: nat, ghost u: Tree<RbNode<T>>, ghost items: seq<T>)
      requires Lies(u) && Balanced(u) && n == |InOrder(u)|
      requires Carries(InOrder(u), items) && Comparison(compare) && Ascending(compare, items)
      modifies this`tree, this`count, this`generation
      ensures Valid() && tree == u && Items() == items && generation == old(generation) + 1
    {
      HoldsMembers(memory, u);
      count := n;
      generation := generation + 1;
      tree := u;
      assert Items() == items;
    }

    /** Grow and rebalance: src/lib/rb.c:113-195. */
    method InsertAt(item: T, pa: seq<RbNode?<T>>, da: seq<bool>, ghost path: Path<RbNode<T>>)
      returns (n: RbNode<T>, ghost u: Tree<RbNode<T>>)
      requires Lies(Plug(path, Leaf)) && Accepts(path, 0) && Stacks(pa, da, |pa|, path)
      modifies this`root, this`memory, memory.Keys`link, memory.Keys`color
      ensures fresh(n) && n.data == item && memory.Keys == old(memory.Keys) + {n}
      ensures Lies(u) && Balanced(u) && InOrder(u) == Before(path) + [n] + After(path)
    {
      StacksTop(pa, da, |pa|, path);
      n := Grow(item, pa[|pa| - 1], da[|pa| - 1], path);
      StartInserting(path, n);
      u := FixInsert(pa, da, path, Node(Red, Leaf, n, Leaf));
    }

    /**
     src/lib/rb.c:88-199: the node for an item.  It is a new one, hung in and balanced, unless some node
     carries an equal item already.
     */
    method Probe(item: T) returns (n: RbNode<T>)
      requires Valid() && count < CAPACITY
      modifies this, memory.Keys`link, memory.Keys`color
      ensures Valid() && memory.Keys >= old(memory.Keys) && fresh(memory.Keys - old(memory.Keys)) && n in memory
      ensures
        var s := old(Items());
        var r := Rank(compare, s, item);
        if Hit(compare, s, item) then
          n == old(Order())[r] && unchanged(this) && Items() == s
        else
          && fresh(n) && Order() == InsertedAt(old(Order()), r, n) && Items() == InsertedAt(s, r, item)
          && generation == old(generation) + 1
    {
      var p, pa, da;
      ghost var path, t;
      p, pa, da, path, t := Locate(item);
      if p != null {
        SearchHit(item, path, t);
        Read(path, t);
        return p;
      }
      SearchMiss(item, path, t);
      n := InsertNew(item, pa, da, path);
    }

    method InsertNew(item: T, pa: seq<RbNode?<T>>, da: seq<bool>, ghost path: Path<RbNode<T>>)
      returns (n: RbNode<T>)
      requires Valid() && Plug(path, Leaf) == tree && Accepts(path, 0) && Stacks(pa, da, |pa|, path)
      requires Order() == Before(path) + After(path)
      requires !Hit(compare, Items(), item) && Rank(compare, Items(), item) == |Before(path)|
      modifies this, memory.Keys`link, memory.Keys`color
      ensures Valid() && memory.Keys == old(memory.Keys) + {n} && fresh(n)
      ensures Order() == InsertedAt(old(Order()), |Before(path)|, n)
      ensures Items() == InsertedAt(old(Items()), |Before(path)|, item)
      ensures generation == old(generation) + 1
    {
      ghost var o, s, r := Order(), Items(), |Before(path)|;
      Known();
      ghost var u;
      n, u := InsertAt(item, pa, da, path);
      assert Carries(o, s);
      InsertedSplit(Before(path), After(path), n);
      CarriesInserted(o, s, r, n);
      ReplacedAscending(compare, s, item);
      Commit(count + 1, u, InsertedAt(s, r, item));
    }

    // ----- deletion: unlinking the node

    /**
     What unlinking the node on top of `t` leaves: a tree without it, and, if a black node was lost, a
     link at which the tree is too light.
     */
    ghost predicate Unlinked(path: Path<RbNode<T>>, t: Tree<RbNode<T>>, lost: Color, q: Path<RbNode<T>>,
                             x: Tree<RbNode<T>>)
      requires t.Node?
      reads this`root, this`memory, memory.Keys
    {
      && Lies(Plug(q, x))
      && InOrder(Plug(q, x)) == Before(path) + (InOrder(t.left) + InOrder(t.right)) + After(path)
      && if lost == Black then Deleting(q, x) else Balanced(Plug(q, x))
    }

    /** No right child: src/lib/rb.c:260-261. */
    method UnlinkSplice(p: RbNode<T>, q: RbNode?<T>, d: bool, ghost path: Path<RbNode<T>>, ghost t: Tree<RbNode<T>>)
      requires Lies(tree) && Placed(path, t) && t.Node? && t.right.Leaf? && p == t.node
      requires q == Anchor(path) && d == AnchorDir(path)
      modifies this`root, this`memory, memory.Keys`link
      ensures memory.Keys == old(memory.Keys) && p.color == t.color
      ensures Unlinked(path, t, t.color, path, t.left)
    {
      Read(path, t);
      SpliceFits(root, memory, path, t);
      Unhooked(path, t, t.left);
      PlugInOrder(path, t.left);
      assert InOrder(t.left) == InOrder(t.left) + InOrder(t.right);
      SetLink(q, d, p.link.l0, path);
    }

    /** The right child has no left child and takes the node's place: src/lib/rb.c:267-276. */
    method UnlinkNear(p: RbNode<T>, q: RbNode?<T>, d: bool, ghost path: Path<RbNode<T>>, ghost t: Tree<RbNode<T>>)
      requires Lies(tree) && Placed(path, t) && t.Node? && t.right.Node? && t.right.left.Leaf? && p == t.node
      requires q == Anchor(path) && d == AnchorDir(path)
      modifies this`root, this`memory, memory.Keys`link, memory.Keys`color
      ensures memory.Keys == old(memory.Keys) && p.color == t.right.color
      ensures Unlinked(path, t, t.right.color, Up(t.right.node, true, t.color, t.left, path), t.right.right)
    {
      ghost var s := t.right;
      NearReady(root, memory, path, t);
      ghost var m1 := TakeOver(p, p.link.l1, memory);
      SuccessorFits(root, memory, m1, path, t, Top, s);
      NearShape(path, t);
      memory := m1;
      SetLink(q, d, p.link.l1, path);
    }

    /**
     The descent to the successor: src/lib/rb.c:279-291.  Slot j of `pa`, which the C code fills in
     afterwards, holds the node that is being deleted for the time being.
     */
    method Successor(p: RbNode<T>, pa0: seq<RbNode?<T>>, da0: seq<bool>, ghost path: Path<RbNode<T>>,
                     ghost t: Tree<RbNode<T>>)
      returns (r: RbNode<T>, s: RbNode<T>, pa: seq<RbNode?<T>>, da: seq<bool>, ghost q: Path<RbNode<T>>,
               ghost st: Tree<RbNode<T>>)
      requires Lies(tree) && Placed(path, t) && t.Node? && t.right.Node? && t.right.left.Node? && p == t.node
      requires pa0 == Nodes(path) && da0 == Dirs(path) && |pa0| + Height(t) < RB_MAX_HEIGHT
      ensures q.Up? && Leftmost(q) && t.right == Plug(q, st) && r == q.node
      ensures st.Node? && st.left.Leaf? && s == st.node
      ensures
        var over := Over(q, Up(t.node, true, t.color, t.left, path));
        Placed(over, st) && pa == Nodes(over) && da == Dirs(over)
      ensures |pa| + Height(st) < RB_MAX_HEIGHT
    {
      ghost var base := Up(t.node, true, t.color, t.left, path);
      PlacedDown(path, t, true);
      r := p.link.l1;
      assert |pa0| < RB_MAX_HEIGHT;  // j = k++
      pa, da := pa0 + [p], da0 + [true];
      q, st := Top, t.right;
      while true
        invariant Placed(Over(q, base), st) && st.Node? && st.left.Node? && r == st.node
        invariant Leftmost(q) && t.right == Plug(q, st)
        invariant pa == Nodes(Over(q, base)) && da == Dirs(Over(q, base))
        invariant |pa| + Height(st) < RB_MAX_HEIGHT
        decreases st
      {
        PlacedDown(Over(q, base), st, false);
        assert |pa| < RB_MAX_HEIGHT;  // pa[k++] = r
        pa, da := pa + [r], da + [false];
        s := r.link.l0;
        q, st := Up(st.node, false, st.color, st.right, q), st.left;
        Read(Over(q, base), st);
        if s.link.l0 == null {
          return;
        }
        r := s;
      }
    }

    /** A deeper successor takes the node's place: src/lib/rb.c:293-303. */
    method UnlinkFar(p: RbNode<T>, r: RbNode<T>, s: RbNode<T>, a: RbNode?<T>, d: bool, ghost path: Path<RbNode<T>>,
                     ghost t: Tree<RbNode<T>>, ghost q: Path<RbNode<T>>, ghost st: Tree<RbNode<T>>)
      requires Lies(tree) && Placed(path, t) && t.Node? && p == t.node && a == Anchor(path) && d == AnchorDir(path)
      requires q.Up? && Leftmost(q) && t.right == Plug(q, st) && r == q.node && st.Node? && st.left.Leaf?
      requires s == st.node
      requires Placed(Over(q, Up(t.node, true, t.color, t.left, path)), st)
      modifies this`root, this`memory, memory.Keys`link, memory.Keys`color
      ensures memory.Keys == old(memory.Keys) && p.color == st.color
      ensures Unlinked(path, t, st.color, Over(q, Up(s, true, t.color, t.left, path)), st.right)
    {
      FarReady(root, memory, path, t, q, st);
      ghost var m1, m2 := TakeOverDeep(p, r, s, memory);
      SuccessorFits(root, memory, m1, path, t, q, st);
      FarShape(path, t, q, st);
      memory := m2;
      SetLink(a, d, s, path);
    }

    /** src/lib/rb.c:260-305: relinks so that the node `p` is out; `p.color` then tells the colour lost. */
    method Unlink(p: RbNode<T>, pa0: seq<RbNode?<T>>, da0: seq<bool>, ghost path: Path<RbNode<T>>,
                  ghost t: Tree<RbNode<T>>)
      returns (pa: seq<RbNode?<T>>, da: seq<bool>, ghost q: Path<RbNode<T>>, ghost x: Tree<RbNode<T>>)
      requires Lies(tree) && Placed(path, t) && t.Node? && p == t.node
      requires Stacks(pa0, da0, |pa0|, path) && |pa0| == |da0| && |pa0| + Height(t) < RB_MAX_HEIGHT
      modifies this`root, this`memory, memory.Keys`link, memory.Keys`color
      ensures memory.Keys == old(memory.Keys) && Unlinked(path, t, p.color, q, x)
      ensures pa == Nodes(q) && da == Dirs(q) && |pa| < RB_MAX_HEIGHT - 1
    {
      var k := |pa0|;
      Read(path, t);
      StacksTop(pa0, da0, k, path);
      assert pa0 == pa0[..k] && da0 == da0[..k];
      var r := p.link.l1;
      if r == null {
        UnlinkSplice(p, pa0[k - 1], da0[k - 1], path, t);
        pa, da, q, x := pa0, da0, path, t.left;
        return;
      }
      PlacedDown(path, t, true);
      Read(Up(t.node, true, t.color, t.left, path), t.right);
      if r.link.l0 == null {
        UnlinkNear(p, pa0[k - 1], da0[k - 1], path, t);
        pa, da, q, x := pa0 + [r], da0 + [true], Up(r, true, t.color, t.left, path), t.right.right;
      } else {
        var s;
        ghost var st;
        r, s, pa, da, q, st := Successor(p, pa0, da0, path, t);
        UnlinkFar(p, r, s, pa0[k - 1], da0[k - 1], path, t, q, st);
        StackedOver(q, Up(t.node, true, t.color, t.left, path), s);
        pa := pa[k := s];
        q, x := Over(q, Up(s, true, t.color, t.left, path)), st.right;
      }
    }

    /** The two links of a node on a path differ, if the lower tree is not empty. */
    lemma Siblings(p: Path<RbNode<T>>, t: Tree<RbNode<T>>)
      requires Lies(Plug(p, t)) && p.Up? && t.Node?
      ensures p.node.link.At(!p.dir) != t.node
    {
      Seen(p, t);
      PlugApart(p.rest, Join(p.color, p.dir, t, p.node, p.other));
    }

    // ----- deletion: restoring the balance

    lemma SeenNephews(p: Path<RbNode<T>>, t: Tree<RbNode<T>>)
      requires Lies(Plug(p, t)) && p.Up? && p.other.Node?
      ensures p.other.left.Node? ==> p.other.left.node in memory && p.other.left.node.color == p.other.left.color
      ensures p.other.right.Node? ==> p.other.right.node in memory && p.other.right.node.color == p.other.right.color
      ensures p.rest.Up? ==> p.rest.node in memory
      ensures p.node != p.other.node && p.node in memory && p.other.node in memory
    {
      Pair(memory, p, t);
    }

    /** A red sibling: src/lib/rb.c:324-339 and 373-388. */
    method SiblingTurn(p: RbNode<T>, w: RbNode<T>, d: bool, a: RbNode?<T>, da: bool, ghost path: Path<RbNode<T>>,
                       ghost t: Tree<RbNode<T>>)
      requires Lies(Plug(path, t)) && path.Up? && path.other.Node? && p == path.node && w == path.other.node
      requires d == path.dir
      requires a == Anchor(path.rest) && da == AnchorDir(path.rest)
      modifies this`root, this`memory, memory.Keys`link, memory.Keys`color
      ensures memory.Keys == old(memory.Keys) && Lies(Plug(SiblingRotated(path), t))
    {
      SeenNephews(path, t);
      ghost var m := RotateSibling(p, w, d, memory);
      SiblingFits(root, memory, m, path, t);
      memory := m;
      SetLink(a, da, w, path.rest);
    }

    /** A black sibling with black children: src/lib/rb.c:341-345 and 390-394. */
    method LightenTurn(w: RbNode<T>, ghost path: Path<RbNode<T>>, ghost t: Tree<RbNode<T>>)
      requires Lies(Plug(path, t)) && path.Up? && path.other.Node? && w == path.other.node
      modifies this`memory, memory.Keys`color
      ensures memory.Keys == old(memory.Keys) && Lies(Plug(path.rest, Lightened(path, t)))
    {
      LightenFits(root, memory, path, t);
      ghost var m := SetColor(w, Red, memory);
      memory := m;
    }

    /** An inner red nephew: src/lib/rb.c:348-357 and 397-406. */
    method NephewTurn(p: RbNode<T>, w: RbNode<T>, y: RbNode<T>, d: bool, ghost path: Path<RbNode<T>>,
                      ghost t: Tree<RbNode<T>>)
      requires Lies(Plug(path, t)) && path.Up? && path.other.Node? && Kid(path.other, path.dir).Node?
      requires p == path.node && w == path.other.node && d == path.dir && y == Kid(path.other, d).node
      modifies this`memory, memory.Keys`link, memory.Keys`color
      ensures memory.Keys == old(memory.Keys) && Lies(Plug(path.(other := InnerRotated(path.other, d)), t))
    {
      Trio(memory, path, t, d);
      ghost var m := RotateNephew(p, w, y, d, memory);
      InnerFits(root, memory, m, path, t);
      memory := m;
    }

    /** An outer red nephew: src/lib/rb.c:359-366 and 408-415. */
    method LastTurn(p: RbNode<T>, w: RbNode<T>, f: RbNode<T>, d: bool, a: RbNode?<T>, da: bool,
                    ghost path: Path<RbNode<T>>, ghost t: Tree<RbNode<T>>)
      requires Lies(Plug(path, t)) && path.Up? && path.other.Node? && Kid(path.other, !path.dir).Node?
      requires p == path.node && w == path.other.node && d == path.dir && f == Kid(path.other, !d).node
      requires a == Anchor(path.rest) && da == AnchorDir(path.rest)
      modifies this`root, this`memory, memory.Keys`link, memory.Keys`color
      ensures memory.Keys == old(memory.Keys) && Lies(Plug(path.rest, OuterRotated(path, t, path.other)))
    {
      Trio(memory, path, t, !d);
      ghost var m := RotateLast(p, w, f, d, memory);
      OuterFits(root, memory, m, path, t);
      memory := m;
      SetLink(a, da, w, path.rest);
    }

    /** src/lib/rb.c:346-367 and 395-416: the turn that ends the loop, with a = pa[k - 2]. */
    method PivotTurn(p: RbNode<T>, w0: RbNode<T>, d: bool, a: RbNode?<T>, da: bool, ghost path: Path<RbNode<T>>,
                     ghost t: Tree<RbNode<T>>)
      requires Lies(Plug(path, t)) && path.Up? && path.other.Node? && p == path.node && w0 == path.other.node
      requires d == path.dir
      requires a == Anchor(path.rest) && da == AnchorDir(path.rest)
      requires RedBlack(path.other) && !IsRed(path.other) && (IsRed(path.other.left) || IsRed(path.other.right))
      modifies this`root, this`memory, memory.Keys`link, memory.Keys`color
      ensures memory.Keys == old(memory.Keys) && Lies(Plug(path.rest, OuterRotated(path, t, Pivot(path))))
    {
      var w := w0;
      ghost var q := path;
      Seen(path, t);
      SeenNephews(path, t);
      PivotShape(path);
      var far := w.link.At(!d);
      if far == null || far.color == Black {
        var y := w.link.At(d);
        NephewTurn(p, w, y, d, path, t);
        q := path.(other := InnerRotated(path.other, d));
        w := y;
        Seen(q, t);
      }
      LastTurn(p, w, w.link.At(!d), d, a, da, q, t);
    }

    /** pa[k - 1]->rb_link[da[k - 1]] */
    function ChildAt(a: RbNode?<T>, d: bool): RbNode?<T>
      reads this, a
    {
      if a == null then root else a.link.At(d)
    }

    lemma SeenBelow(p: Path<RbNode<T>>, t: Tree<RbNode<T>>)
      requires Lies(Plug(p, t))
      ensures ChildAt(Anchor(p), AnchorDir(p)) == Root(t)
      ensures t.Node? ==> t.node in memory && t.node.color == t.color
    {
      if p.Up? {
        Seen(p, t);
      }
      if t.Node? {
        Read(p, t);
      }
    }

    /** The red sibling, if any, is out of the way: src/lib/rb.c:322-339 and 371-388. */
    method BlackSibling(pa0: seq<RbNode?<T>>, da0: seq<bool>, ghost path0: Path<RbNode<T>>, ghost t: Tree<RbNode<T>>)
      returns (w: RbNode<T>, pa: seq<RbNode?<T>>, da: seq<bool>, ghost path: Path<RbNode<T>>)
      requires Lies(Plug(path0, t)) && Deleting(path0, t) && !IsRed(t) && path0.Up?
      requires pa0 == Nodes(path0) && da0 == Dirs(path0) && |pa0| < RB_MAX_HEIGHT - 1
      modifies this`root, this`memory, memory.Keys`link, memory.Keys`color
      ensures memory.Keys == old(memory.Keys) && Lies(Plug(path, t)) && Deleting(path, t) && path.Up?
      ensures InOrder(Plug(path, t)) == InOrder(Plug(path0, t))
      ensures path.other.Node? && !IsRed(path.other) && w == path.other.node
      ensures pa == Nodes(path) && da == Dirs(path)
      ensures path == path0 || (Depth(path) == Depth(path0) + 1 && path.color == Red)
    {
      var k := |pa0|;
      Stacked(path0);
      Stacked(path0.rest);
      var p, d := pa0[k - 1], da0[k - 1];
      Seen(path0, t);
      w := p.link.At(!d);
      pa, da, path := pa0, da0, path0;
      if w.color == Red {
        SiblingStep(path0, t);
        SiblingTurn(p, w, d, pa0[k - 2], da0[k - 2], path0, t);
        path := SiblingRotated(path0);
        assert k < RB_MAX_HEIGHT;  // pa[k] = pa[k - 1]
        pa, da := pa0[k - 1 := w] + [p], da0 + [d];
        SiblingStacks(path0);
        Seen(path, t);
        w := p.link.At(!d);
      }
    }

    /** One turn of the loop at src/lib/rb.c:309-420, for a link that is not the root's. */
    method DeleteTurn(pa0: seq<RbNode?<T>>, da0: seq<bool>, ghost path0: Path<RbNode<T>>, ghost t0: Tree<RbNode<T>>)
      returns (done: bool, pa: seq<RbNode?<T>>, da: seq<bool>, ghost path: Path<RbNode<T>>, ghost t: Tree<RbNode<T>>)
      requires Lies(Plug(path0, t0)) && Deleting(path0, t0) && !IsRed(t0) && path0.Up?
      requires pa0 == Nodes(path0) && da0 == Dirs(path0) && |pa0| < RB_MAX_HEIGHT - 1
      modifies this`root, this`memory, memory.Keys`link, memory.Keys`color
      ensures memory.Keys == old(memory.Keys) && Lies(Plug(path, t))
      ensures InOrder(Plug(path, t)) == InOrder(Plug(path0, t0))
      ensures done ==> Balanced(Plug(path, t))
      ensures !done ==> Deleting(path, t) && pa == Nodes(path) && da == Dirs(path) && |pa| < RB_MAX_HEIGHT - 1
      ensures !done ==> Depth(path) < Depth(path0) || (Depth(path) == Depth(path0) && IsRed(t))
    {
      var w;
      w, pa, da, path := BlackSibling(pa0, da0, path0, t0);
      Stacked(path0);
      Stacked(path);
      Stacked(path.rest);
      done, path, t := BlackSiblingTurn(w, pa, da, path, t0);
      pa, da := pa[..|pa| - 1], da[..|pa| - 1];
    }

    /** src/lib/rb.c:341-367 and 390-416 */
    method BlackSiblingTurn(w: RbNode<T>, pa: seq<RbNode?<T>>, da: seq<bool>, ghost path0: Path<RbNode<T>>,
                            ghost t0: Tree<RbNode<T>>)
      returns (done: bool, ghost path: Path<RbNode<T>>, ghost t: Tree<RbNode<T>>)
      requires Lies(Plug(path0, t0)) && Deleting(path0, t0) && !IsRed(t0) && path0.Up?
      requires path0.other.Node? && !IsRed(path0.other) && w == path0.other.node
      requires pa == Nodes(path0) && da == Dirs(path0)
      modifies this`root, this`memory, memory.Keys`link, memory.Keys`color
      ensures memory.Keys == old(memory.Keys) && Lies(Plug(path, t)) && path == path0.rest
      ensures InOrder(Plug(path, t)) == InOrder(Plug(path0, t0))
      ensures done ==> Balanced(Plug(path, t))
      ensures !done ==> Deleting(path, t) && (path0.color == Red ==> IsRed(t))
    {
      var k := |pa|;
      Stacked(path0);
      Stacked(path0.rest);
      Seen(path0, t0);
      SeenNephews(path0, t0);
      path := path0.rest;
      if (w.link.l0 == null || w.link.l0.color == Black) && (w.link.l1 == null || w.link.l1.color == Black) {
        LightenStep(path0, t0);
        LightenTurn(w, path0, t0);
        t, done := Lightened(path0, t0), false;
      } else {
        PivotStep(path0, t0);
        PivotTurn(pa[k - 1], w, da[k - 1], pa[k - 2], da[k - 2], path0, t0);
        t, done := OuterRotated(path0, t0, Pivot(path0)), true;
      }
    }

    /** x->rb_color = RB_BLACK */
    method BlackenTurn(x: RbNode<T>, ghost path: Path<RbNode<T>>, ghost t: Tree<RbNode<T>>)
      requires Lies(Plug(path, t)) && t.Node? && x == t.node
      modifies this`memory, memory.Keys`color
      ensures memory.Keys == old(memory.Keys) && Lies(Plug(path, Paint(t, Black)))
    {
      BlackenFits(root, memory, path, t);
      ghost var m := SetColor(x, Black, memory);
      memory := m;
    }

    /** src/lib/rb.c:307-422 */
    method FixDelete(pa0: seq<RbNode?<T>>, da0: seq<bool>, ghost path0: Path<RbNode<T>>, ghost t0: Tree<RbNode<T>>)
      returns (ghost u: Tree<RbNode<T>>)
      requires Lies(Plug(path0, t0)) && Deleting(path0, t0)
      requires pa0 == Nodes(path0) && da0 == Dirs(path0) && |pa0| < RB_MAX_HEIGHT - 1
      modifies this`root, this`memory, memory.Keys`link, memory.Keys`color
      ensures memory.Keys == old(memory.Keys) && Lies(u)
      ensures Balanced(u) && InOrder(u) == InOrder(Plug(path0, t0))
    {
      var pa, da := pa0, da0;
      ghost var path, t, order := path0, t0, InOrder(Plug(path0, t0));
      var done := false;
      while !done
        invariant memory.Keys == old(memory.Keys) && Lies(Plug(path, t)) && InOrder(Plug(path, t)) == order
        invariant done ==> Balanced(Plug(path, t))
        invariant !done ==> Deleting(path, t) && pa == Nodes(path) && da == Dirs(path) && |pa| < RB_MAX_HEIGHT - 1
        decreases !done, Depth(path), !IsRed(t)
      {
        var k := |pa|;
        Stacked(path);
        SeenBelow(path, t);
        var x := ChildAt(pa[k - 1], da[k - 1]);
        if x != null && x.color == Red {
          BlackenStep(path, t);
          BlackenTurn(x, path, t);
          t, done := Paint(t, Black), true;
        } else if k < 2 {
          DeleteDone(t);
          done := true;
        } else {
          done, pa, da, path, t := DeleteTurn(pa, da, path, t);
        }
      }
      u := Plug(path, t);
    }

    /** src/lib/rb.c:232-428: takes the node of an equal item out of the tree; nothing changes if there is none. */
    method Delete(item: T) returns (r: Option<T>)
      requires Valid() && count < CAPACITY
      modifies this, memory.Keys`link, memory.Keys`color
      ensures Valid() && memory.Keys == old(memory.Keys)
      ensures r == Found(compare, old(Items()), item)
      ensures
        var s := old(Items());
        var k := Rank(compare, s, item);
        if Hit(compare, s, item) then
          Order() == CutOut(old(Order()), k) && Items() == CutOut(s, k) && generation == old(generation) + 1
        else
          unchanged(this) && Items() == s
    {
      var p, pa, da;
      ghost var path, t;
      p, pa, da, path, t := Locate(item);
      if p == null {
        SearchMiss(item, path, t);
        r := None;
      } else {
        SearchHit(item, path, t);
        r := Some(p.data);
        DeleteNode(p, pa, da, path, t);
      }
    }

    /** src/lib/rb.c:258-427 */
    method DeleteNode(p: RbNode<T>, pa0: seq<RbNode?<T>>, da0: seq<bool>, ghost path: Path<RbNode<T>>,
                      ghost t: Tree<RbNode<T>>)
      requires Valid() && Placed(path, t) && t.Node? && p == t.node
      requires Stacks(pa0, da0, |pa0|, path) && |pa0| == |da0| && |pa0| + Height(t) < RB_MAX_HEIGHT
      modifies this, memory.Keys`link, memory.Keys`color
      ensures Valid() && memory.Keys == old(memory.Keys) && generation == old(generation) + 1
      ensures
        var k := |Before(path)| + |InOrder(t.left)|;
        && k < |old(Order())| && Order() == CutOut(old(Order()), k) && Items() == CutOut(old(Items()), k)
    {
      ghost var s, k := Items(), |Before(path)| + |InOrder(t.left)|;
      TopRank(path, t);
      ghost var u := DeleteTree(p, pa0, da0, path, t, s);
      RemovedAscending(compare, s, k);
      Commit(count - 1, u, CutOut(s, k));
    }

    method DeleteTree(p: RbNode<T>, pa0: seq<RbNode?<T>>, da0: seq<bool>, ghost path: Path<RbNode<T>>,
                      ghost t: Tree<RbNode<T>>, ghost items: seq<T>)
      returns (ghost u: Tree<RbNode<T>>)
      requires Lies(tree) && Placed(path, t) && t.Node? && p == t.node && Carries(InOrder(tree), items)
      requires Stacks(pa0, da0, |pa0|, path) && |pa0| == |da0| && |pa0| + Height(t) < RB_MAX_HEIGHT
      modifies this`root, this`memory, memory.Keys`link, memory.Keys`color
      ensures memory.Keys == old(memory.Keys) && Lies(u) && Balanced(u)
      ensures
        var k := |Before(path)| + |InOrder(t.left)|;
        k < |Order()| && InOrder(u) == CutOut(Order(), k) && Carries(InOrder(u), CutOut(items, k))
    {
      OrderStored(memory, tree);
      u := Excise(p, pa0, da0, path, t);
      OutOrder(path, t);
      CarriesRemoved(InOrder(tree), items, |Before(path)| + |InOrder(t.left)|);
    }

    method Excise(p: RbNode<T>, pa0: seq<RbNode?<T>>, da0: seq<bool>, ghost path: Path<RbNode<T>>,
                  ghost t: Tree<RbNode<T>>)
      returns (ghost u: Tree<RbNode<T>>)
      requires Lies(tree) && Placed(path, t) && t.Node? && p == t.node
      requires Stacks(pa0, da0, |pa0|, path) && |pa0| == |da0| && |pa0| + Height(t) < RB_MAX_HEIGHT
      modifies this`root, this`memory, memory.Keys`link, memory.Keys`color
      ensures memory.Keys == old(memory.Keys) && Lies(u) && Balanced(u)
      ensures InOrder(u) == Before(path) + (InOrder(t.left) + InOrder(t.right)) + After(path)
    {
      var pa, da;
      ghost var q, x;
      pa, da, q, x := Unlink(p, pa0, da0, path, t);
      u := Plug(q, x);
      if p.color == Black {
        u := FixDelete(pa, da, q, x);
      }
    }

    /** *p = item, for the data slot of a node. */
    method Overwrite(n: RbNode<T>, item: T, ghost k: nat)
      requires Valid() && k < |Order()| && Order()[k] == n && n in memory
      requires Hit(compare, Items(), item) && Rank(compare, Items(), item) == k
      modifies n`data
      ensures Valid() && Items() == old(Items())[k := item]
    {
      ghost var s, o := Items(), Order();
      ReplacedAscending(compare, s, item);
      InOrderNoDup(tree);
      n.data := item;
      assert Data(o) == s[k := item];
    }

    /** src/lib/rb.c:216-228: puts an item in the place of an equal one, which is handed back, or adds it. */
    method Replace(item: T) returns (r: Option<T>)
      requires Valid() && count < CAPACITY
      modifies this, memory.Keys
      ensures Valid() && memory.Keys >= old(memory.Keys) && fresh(memory.Keys - old(memory.Keys))
      ensures Items() == Replaced(compare, old(Items()), item)
      ensures r == if Found(compare, old(Items()), item) == Some(item) then None else Found(compare, old(Items()), item)
    {
      ghost var s := Items();
      ghost var k := Rank(compare, s, item);
      var n := Probe(item);
      assert k < |Order()| && Order()[k] == n && n.data == Items()[k];
      StoreOutcome(Hit(compare, s, item), s, Items(), k, item, n.data);
      if n.data == item {
        r := None;
      } else {
        r := Some(n.data);
        Overwrite(n, item, k);
      }
    }

    /** src/lib/rb.c:877-879: the left child goes above its parent. */
    static method RotateRight(p: RbNode<T>, ghost m: Memory<T>, ghost t: Tree<RbNode<T>>, ghost items: seq<T>)
      returns (q: RbNode<T>, ghost m': Memory<T>)
      requires Fits(p, m, t) && Stored(m) && t.Node? && t.left.Node? && Carries(InOrder(t), items)
      modifies m.Keys`link
      ensures Fits(q, m', RightRotated(t)) && Stored(m') && m'.Keys == m.Keys
      ensures InOrder(RightRotated(t)) == InOrder(t) && Carries(InOrder(t), items)
    {
      Pair(m, Up(t.node, false, t.color, t.right, Top), t.left);
      OrderStored(m, t);
      q := p.link.l0;
      m' := SetLinkAt(p, false, q.link.l1, m);
      m' := SetLinkAt(q, true, p, m');
      RightRotationFits(m, m', t);
    }

    /** src/lib/rb.c:867-880 */
    static method TakeApart(root: RbNode?<T>, ghost memory: Memory<T>, ghost tree: Tree<RbNode<T>>, ghost items: seq<T>)
      returns (visited: seq<T>)
      requires Fits(root, memory, tree) && Stored(memory) && Carries(InOrder(tree), items)
      modifies memory.Keys`link
      ensures visited == items
    {
      var p := root;
      visited := [];
      ghost var t, m, rest := tree, memory, items;
      while p != null
        invariant Fits(p, m, t) && Stored(m) && m.Keys == memory.Keys
        invariant Carries(InOrder(t), rest) && visited + rest == items
        decreases |InOrder(t)|, if t.Leaf? then 0 else |InOrder(t.left)|
      {
        if p.link.l0 == null {
          CarriesFirst(t, rest);
          visited := visited + [p.data];
          p := p.link.l1;
          t, rest := t.right, rest[1..];
        } else {
          p, m := RotateRight(p, m, t, rest);
          t := RightRotated(t);
        }
      }
    }

    /**
     src/lib/rb.c:860-883: takes the tree apart by rotating left children up, and hands every item to the
     callback; `visited` is the sequence of items that it gets.
     */
    method Destroy() returns (visited: seq<T>)
      requires Valid()
      modifies memory.Keys`link
      ensures visited == old(Items())
    {
      visited := TakeApart(root, memory, tree, Items());
    }
  }

  lemma SiblingStacks<T>(p: Path<RbNode<T>>)
    requires p.Up? && p.other.Node?
    ensures
      var q, k := SiblingRotated(p), Depth(p);
      && k < |Nodes(p)| && Nodes(q) == Nodes(p)[k := p.other.node] + [p.node] && Dirs(q) == Dirs(p) + [p.dir]
      && Depth(q) == k + 1
  {
    Stacked(p);
    Stacked(p.rest);
  }

  lemma FarReady<T>(r: RbNode?<T>, m: Memory<T>, p: Path<RbNode<T>>, t: Tree<RbNode<T>>, q: Path<RbNode<T>>,
                    s: Tree<RbNode<T>>)
    requires Fits(r, m, Plug(p, t)) && t.Node? && q.Up? && t.right == Plug(q, s) && s.Node?
    ensures t.node in m && q.node in m && s.node in m && t.node != q.node && q.node != s.node && s.node != t.node
    ensures m[t.node] == Cell(Links(Root(t.left), Root(Plug(q, s.right))), t.color)
    ensures m[s.node].link.l1 == Root(s.right) && m[s.node].color == s.color
    ensures p.Up? ==> p.node in m
  {
    HoldsPlug(m, p, t);
    PlugApart(p, t);
    FarLocal(m, t, q, s);
  }

  lemma FarLocal<T>(m: Memory<T>, t: Tree<RbNode<T>>, q: Path<RbNode<T>>, s: Tree<RbNode<T>>)
    requires Holds(m, t) && Apart(t) && t.Node? && q.Up? && t.right == Plug(q, s) && s.Node?
    ensures t.node in m && q.node in m && s.node in m && t.node != q.node && q.node != s.node && s.node != t.node
    ensures m[t.node] == Cell(Links(Root(t.left), Root(Plug(q, s.right))), t.color)
    ensures m[s.node] == TopCell(s)
  {
    SpineReady(m, t.right, q, s);
  }

  lemma SpineReady<T>(m: Memory<T>, t: Tree<RbNode<T>>, q: Path<RbNode<T>>, s: Tree<RbNode<T>>)
    requires Holds(m, t) && Apart(t) && t == Plug(q, s) && q.Up? && s.Node?
    ensures q.node in m && s.node in m && q.node != s.node && m[s.node] == TopCell(s)
    ensures q.node in Members(t) && s.node in Members(t)
    ensures Root(t) == Root(Plug(q, s.right))
  {
    HoldsPlug(m, q, s);
    MembersPlug(q, s);
    PlugApart(q, s);
    PlugRoot(q, s, s.right);
  }

  lemma FarShape<T>(p: Path<RbNode<T>>, t: Tree<RbNode<T>>, q: Path<RbNode<T>>, s: Tree<RbNode<T>>)
    requires t.Node? && Leftmost(q) && t.right == Plug(q, s) && s.Node? && s.left.Leaf?
    requires
      var over := Over(q, Up(t.node, true, t.color, t.left, p));
      RedBlack(s) && !Clash(over, s) && Accepts(over, BlackHeight(s))
    ensures
      var over := Over(q, Up(s.node, true, t.color, t.left, p));
      && Plug(over, s.right) == Plug(p, Succeeded(t, q, s))
      && InOrder(Plug(over, s.right)) == Before(p) + (InOrder(t.left) + InOrder(t.right)) + After(p)
      && if s.color == Black then Deleting(over, s.right) else Balanced(Plug(over, s.right))
  {
    var base := Up(t.node, true, t.color, t.left, p);
    AcceptsRenamed(q, base, s.node, BlackHeight(s));
    ClashRenamed(q, base, s.node, s);
    Unhooked(Over(q, base.(node := s.node)), s, s.right);
    PlugOver(q, base.(node := s.node), s.right);
    FarOrder(t, q, s);
    PlugInOrder(p, Succeeded(t, q, s));
  }

  lemma FarOrder<T>(t: Tree<RbNode<T>>, q: Path<RbNode<T>>, s: Tree<RbNode<T>>)
    requires t.Node? && Leftmost(q) && t.right == Plug(q, s) && s.Node? && s.left.Leaf?
    ensures InOrder(Succeeded(t, q, s)) == InOrder(t.left) + InOrder(t.right)
  {
    LeftmostOrder(q, s);
    LeftmostOrder(q, s.right);
    Shift(InOrder(t.left), s.node, InOrder(s.right), After(q));
  }

  lemma Shift<N>(a: seq<N>, n: N, b: seq<N>, c: seq<N>)
    ensures a + [n] + (b + c) == a + (([] + [n] + b) + c)
  {
  }

  lemma ClashRenamed<T>(q: Path<RbNode<T>>, p: Path<RbNode<T>>, n: RbNode<T>, t: Tree<RbNode<T>>)
    requires p.Up? && !Clash(Over(q, p), t)
    ensures !Clash(Over(q, p.(node := n)), t)
  {
  }

  lemma NearReady<T>(r: RbNode?<T>, m: Memory<T>, p: Path<RbNode<T>>, t: Tree<RbNode<T>>)
    requires Fits(r, m, Plug(p, t)) && t.Node? && t.right.Node?
    ensures t.node in m && t.right.node in m && t.node != t.right.node
    ensures m[t.node] == TopCell(t) && m[t.right.node] == TopCell(t.right)
    ensures p.Up? ==> p.node in m && p.node != t.node && p.node != t.right.node
  {
    HoldsPlug(m, p, t);
    PlugApart(p, t);
  }

  lemma NearShape<T>(p: Path<RbNode<T>>, t: Tree<RbNode<T>>)
    requires t.Node? && t.right.Node? && t.right.left.Leaf?
    requires RedBlack(t) && !Clash(p, t) && Accepts(p, BlackHeight(t))
    ensures
      var q, x := Up(t.right.node, true, t.color, t.left, p), t.right.right;
      && Plug(q, x) == Plug(p, Succeeded(t, Top, t.right))
      && InOrder(Plug(q, x)) == Before(p) + (InOrder(t.left) + InOrder(t.right)) + After(p)
      && if t.right.color == Black then Deleting(q, x) else Balanced(Plug(q, x))
  {
    var s := t.right;
    var q0 := Up(t.node, true, t.color, t.left, p);
    DescendAccepts(p, t, true);
    AcceptsRenamed(Top, q0, s.node, BlackHeight(s));
    Unhooked(q0.(node := s.node), s, s.right);
    var u := Succeeded(t, Top, s);
    PlugInOrder(p, u);
    assert InOrder(s) == [s.node] + InOrder(s.right);
    assert InOrder(u) == InOrder(t.left) + InOrder(t.right);
  }

  /** On the way up with a defect at the end of the path, or done. */
  ghost predicate Climbing<T>(done: bool, pa: seq<RbNode?<T>>, da: seq<bool>, k: nat, path: Path<RbNode<T>>,
                              t: Tree<RbNode<T>>, u: Tree<RbNode<T>>, order: seq<RbNode<T>>) {
    && InOrder(u) == order && (if done then Balanced(u) else u == Plug(path, t) && Inserting(path, t))
    && Stacks(pa, da, k, path) && k >= 1 && pa[k - 1] == Anchor(path)
  }

  lemma {:induction false} OutOrder<T>(p: Path<RbNode<T>>, t: Tree<RbNode<T>>)
    requires t.Node?
    ensures
      var k := |Before(p)| + |InOrder(t.left)|;
      && k < |InOrder(Plug(p, t))|
      && Before(p) + (InOrder(t.left) + InOrder(t.right)) + After(p) == CutOut(InOrder(Plug(p, t)), k)
  {
    PlugInOrder(p, t);
    OutMiddle(Before(p), InOrder(t.left), t.node, InOrder(t.right), After(p), InOrder(t), InOrder(Plug(p, t)));
  }

  lemma {:induction false} OutMiddle<N>(a: seq<N>, b: seq<N>, n: N, c: seq<N>, d: seq<N>, l: seq<N>, m: seq<N>)
    requires l == b + [n] + c && m == a + l + d
    ensures |a| + |b| < |m| && a + (b + c) + d == CutOut(m, |a| + |b|)
  {
    CutMiddle(a, b, n, c, d);
  }

  /** What is in the slot of an item after it was looked for, and what storing the item there comes to. */
  lemma StoreOutcome<T>(hit: bool, s: seq<T>, t: seq<T>, r: nat, x: T, y: T)
    requires (if hit then r < |s| else r <= |s|) && t == (if hit then s else InsertedAt(s, r, x)) && t[r] == y
    ensures y == x ==> t == (if hit then s[r := x] else InsertedAt(s, r, x)) && (hit ==> s[r] == x)
    ensures y != x ==> hit && t[r := x] == s[r := x] && s[r] == y
  {
  }

  lemma CutMiddle<N>(a: seq<N>, b: seq<N>, n: N, c: seq<N>, d: seq<N>)
    ensures a + (b + c) + d == CutOut(a + (b + [n] + c) + d, |a| + |b|)
  {
  }

  lemma OrderStored<T>(m: Memory<T>, t: Tree<RbNode<T>>)
    requires Holds(m, t)
    ensures forall i :: 0 <= i < |InOrder(t)| ==> InOrder(t)[i] in m.Keys
  {
    HoldsMembers(m, t);
    MembersInOrder(t);
    assert forall i :: 0 <= i < |InOrder(t)| ==> InOrder(t)[i] in Elements(InOrder(t));
  }

  lemma CarriesFirst<T>(t: Tree<RbNode<T>>, r: seq<T>)
    requires t.Node? && t.left.Leaf? && Carries(InOrder(t), r)
    ensures |r| > 0 && r[0] == t.node.data && Carries(InOrder(t.right), r[1..])
  {
    assert InOrder(t) == [t.node] + InOrder(t.right);
  }

  lemma CarriesRemoved<T>(o: seq<RbNode<T>>, s: seq<T>, k: nat)
    requires k < |o| && Carries(o, s)
    ensures Carries(CutOut(o, k), CutOut(s, k))
  {
  }

  lemma {:induction false} InOrderNoDup<T>(t: Tree<RbNode<T>>)
    requires Apart(t)
    ensures forall i, j :: 0 <= i < j < |InOrder(t)| ==> InOrder(t)[i] != InOrder(t)[j]
  {
    if t.Node? {
      InOrderNoDup(t.left);
      InOrderNoDup(t.right);
      MembersInOrder(t.left);
      MembersInOrder(t.right);
      var a, b := InOrder(t.left), InOrder(t.right);
      assert forall i :: 0 <= i < |a| ==> a[i] in Elements(a);
      assert forall i :: 0 <= i < |b| ==> b[i] in Elements(b);
    }
  }

  /** The left child above the node on top. */
  ghost function RightRotated<T>(t: Tree<RbNode<T>>): Tree<RbNode<T>>
    requires t.Node? && t.left.Node?
  {
    Node(t.left.color, t.left.left, t.left.node, Node(t.color, t.left.right, t.node, t.right))
  }

  lemma RightRotationFits<T>(m: Memory<T>, m': Memory<T>, t: Tree<RbNode<T>>)
    requires Fits(Root(t), m, t) && t.Node? && t.left.Node?
    requires Outside(m, m', {t.node, t.left.node}) && t.node in m' && t.left.node in m'
    requires m'[t.node] == Cell(Links(Root(t.left.right), Root(t.right)), t.color)
    requires m'[t.left.node] == Cell(Links(Root(t.left.left), t.node), t.left.color)
    ensures Fits(t.left.node, m', RightRotated(t))
    ensures InOrder(RightRotated(t)) == InOrder(t) && Members(RightRotated(t)) == Members(t)
  {
    var w, u := {t.node, t.left.node}, RightRotated(t);
    Pair(m, Up(t.node, false, t.color, t.right, Top), t.left);
    HoldsFrame(m, m', t.left.left, w);
    HoldsFrame(m, m', t.left.right, w);
    HoldsFrame(m, m', t.right, w);
    assert Holds(m', u.right);
    Regroup3(InOrder(t.left.left), t.left.node, InOrder(t.left.right), t.node, InOrder(t.right));
    SameApart(t, u);
  }
}
