/**
 How the trees of module RbTree lie in memory as linked nodes, and what the pointer writes of
 src/lib/rb.c make of them.

 A `Memory` is a map from nodes to the links and colour they hold.  Each write of the C code is a
 change of that map; the lemmas say which tree lies in memory after the writes of one step.
 */
module RbMemory {
  import opened Sequences
  import opened RbTree

  /** The two links of a node. */
  datatype Links<P> = Links(l0: P, l1: P) {
    function At(d: bool): P { if d then l1 else l0 }
    function With(d: bool, p: P): Links<P> { if d then Links(l0, p) else Links(p, l1) }
  }

  class RbNode<T> {
    var link: Links<RbNode?<T>>
    var data: T
    var color: Color

    constructor (item: T)
      ensures link == Links(null, null) && data == item && color == Red
    {
      link, data, color := Links(null, null), item, Red;
    }
  }

  // ----- trees of nodes

  datatype Cell<T> = Cell(link: Links<RbNode?<T>>, color: Color)

  ghost function Root<T>(t: Tree<RbNode<T>>): RbNode?<T> {
    if t.Leaf? then null else t.node
  }

  ghost function TopCell<T>(t: Tree<RbNode<T>>): Cell<T>
    requires t.Node?
  {
    Cell(Links(Root(t.left), Root(t.right)), t.color)
  }

  ghost function Members<T>(t: Tree<RbNode<T>>): set<RbNode<T>> {
    match t
    case Leaf => {}
    case Node(_, l, n, r) => Members(l) + {n} + Members(r)
  }

  ghost function PathMembers<T>(p: Path<RbNode<T>>): set<RbNode<T>> {
    match p
    case Top => {}
    case Up(n, _, _, o, rest) => {n} + Members(o) + PathMembers(rest)
  }

  /** The nodes of `t` are all different. */
  ghost predicate Apart<T>(t: Tree<RbNode<T>>) {
    match t
    case Leaf => true
    case Node(_, l, n, r) =>
      && n !in Members(l) && n !in Members(r) && Members(l) !! Members(r)
      && Apart(l) && Apart(r)
  }

  lemma MembersInOrder<T>(t: Tree<RbNode<T>>)
    ensures Members(t) == Elements(InOrder(t))
  {
  }

  /** Being all different is a matter of counting the in-order sequence. */
  lemma {:induction false} ApartCount<T>(t: Tree<RbNode<T>>)
    ensures |Members(t)| <= |InOrder(t)|
    ensures Apart(t) <==> |Members(t)| == |InOrder(t)|
  {
    match t
    case Leaf =>
    case Node(_, l, n, r) =>
      ApartCount(l);
      ApartCount(r);
      var a, b := Members(l), Members(r);
      assert |a + {n}| + |a * {n}| == |a| + 1;
      assert |a + {n} + b| + |(a + {n}) * b| == |a + {n}| + |b|;
      assert n in a ==> a * {n} == {n};
      assert n !in a ==> a * {n} == {};
      if Apart(t) {
        assert (a + {n}) * b == {};
      } else if n in b {
        assert n in (a + {n}) * b;
      } else if x :| x in a && x in b {
        assert x in (a + {n}) * b;
      }
  }

  lemma SameApart<T>(t: Tree<RbNode<T>>, u: Tree<RbNode<T>>)
    requires Apart(t) && InOrder(t) == InOrder(u)
    ensures Apart(u) && Members(u) == Members(t)
  {
    ApartCount(t);
    ApartCount(u);
    MembersInOrder(t);
    MembersInOrder(u);
  }

  lemma {:induction false} PlugApart<T>(p: Path<RbNode<T>>, t: Tree<RbNode<T>>)
    requires Apart(Plug(p, t))
    ensures Apart(t) && Members(t) !! PathMembers(p)
    ensures Members(Plug(p, t)) == Members(t) + PathMembers(p)
    decreases p
  {
    match p
    case Top =>
    case Up(n, d, c, o, rest) =>
      PlugApart(rest, Join(c, d, t, n, o));
  }

  // ----- memory, as a map from nodes to what they hold

  type Memory<T> = map<RbNode<T>, Cell<T>>

  ghost predicate Stored<T>(m: Memory<T>)
    reads m.Keys
  {
    forall n :: n in m ==> n.link == m[n].link && n.color == m[n].color
  }

  ghost function Tint<T>(m: Memory<T>, n: RbNode<T>, c: Color): Memory<T>
    requires n in m
  {
    m[n := m[n].(color := c)]
  }

  ghost function Rewire<T>(m: Memory<T>, n: RbNode<T>, d: bool, f: RbNode?<T>): Memory<T>
    requires n in m
  {
    m[n := m[n].(link := m[n].link.With(d, f))]
  }

  /** Every node of `t` is in `m` with the links and the colour that `t` shows. */
  ghost predicate Holds<T>(m: Memory<T>, t: Tree<RbNode<T>>) {
    t.Node? ==> t.node in m && m[t.node] == TopCell(t) && Holds(m, t.left) && Holds(m, t.right)
  }

  /** The same for the nodes of a path above the pointer `f`. */
  ghost predicate HoldsPath<T>(m: Memory<T>, p: Path<RbNode<T>>, f: RbNode?<T>) {
    p.Up? ==>
      && p.node in m
      && m[p.node].color == p.color
      && m[p.node].link == Links(f, f).With(!p.dir, Root(p.other))
      && Holds(m, p.other)
      && HoldsPath(m, p.rest, p.node)
  }

  /** Only cells of nodes in `w` differ. */
  ghost predicate Outside<T>(m: Memory<T>, m': Memory<T>, w: set<RbNode<T>>) {
    forall n :: n in m && n !in w ==> n in m' && m'[n] == m[n]
  }

  lemma {:induction false} HoldsPlug<T>(m: Memory<T>, p: Path<RbNode<T>>, t: Tree<RbNode<T>>)
    ensures Holds(m, Plug(p, t)) <==> HoldsPath(m, p, Root(t)) && Holds(m, t)
    decreases p
  {
    match p
    case Top =>
    case Up(n, d, c, o, rest) => HoldsPlug(m, rest, Join(c, d, t, n, o));
  }

  lemma {:induction false} HoldsFrame<T>(m: Memory<T>, m': Memory<T>, t: Tree<RbNode<T>>, w: set<RbNode<T>>)
    requires Holds(m, t) && Outside(m, m', w) && w !! Members(t)
    ensures Holds(m', t)
  {
    if t.Node? {
      HoldsFrame(m, m', t.left, w);
      HoldsFrame(m, m', t.right, w);
    }
  }

  lemma {:induction false} HoldsPathFrame<T>(m: Memory<T>, m': Memory<T>, p: Path<RbNode<T>>, f: RbNode?<T>,
                                             w: set<RbNode<T>>)
    requires HoldsPath(m, p, f) && Outside(m, m', w) && w !! PathMembers(p)
    ensures HoldsPath(m', p, f)
  {
    if p.Up? {
      HoldsFrame(m, m', p.other, w);
      HoldsPathFrame(m, m', p.rest, p.node, w);
    }
  }

  /** A node, its parent and its grandparent, and the four parts of the tree around them. */
  lemma Family<T>(m: Memory<T>, p: Path<RbNode<T>>, t: Tree<RbNode<T>>)
    requires Holds(m, Plug(p, t)) && Apart(Plug(p, t)) && p.Up? && p.rest.Up?
    ensures
      var g := p.rest;
      var w := {p.node, g.node};
      && p.node in m && m[p.node] == TopCell(Join(p.color, p.dir, t, p.node, p.other))
      && g.node in m && m[g.node] == Cell(Links(p.node, p.node).With(!g.dir, Root(g.other)), g.color)
      && p.node != g.node
      && w !! Members(t) && w !! Members(p.other) && w !! Members(g.other) && w !! PathMembers(g.rest)
      && Members(t) !! Members(p.other) && Members(t) !! Members(g.other) && Members(p.other) !! Members(g.other)
      && Members(t) !! PathMembers(g.rest) && Members(g.other) !! PathMembers(g.rest)
      && Apart(t) && Apart(g.other)
      && Holds(m, t) && Holds(m, p.other) && Holds(m, g.other) && HoldsPath(m, g.rest, g.node)
  {
    var g := p.rest;
    PlugApart(p, t);
    var j := Join(p.color, p.dir, t, p.node, p.other);
    PlugApart(g, j);
    PlugApart(g.rest, Join(g.color, g.dir, j, g.node, g.other));
    HoldsPlug(m, p, t);
    assert HoldsPath(m, g, p.node);
  }

  /** Below the pointer `r` lie the nodes of `t`, all different. */
  ghost predicate Fits<T>(r: RbNode?<T>, m: Memory<T>, t: Tree<RbNode<T>>) {
    r == Root(t) && Apart(t) && Holds(m, t)
  }

  lemma {:induction false} PlugRoot<T>(p: Path<RbNode<T>>, t: Tree<RbNode<T>>, u: Tree<RbNode<T>>)
    ensures Root(Plug(p, u)) == if p.Up? then Root(Plug(p, t)) else Root(u)
    decreases p
  {
    if p.Up? {
      PlugRoot(p.rest, Join(p.color, p.dir, t, p.node, p.other), Join(p.color, p.dir, u, p.node, p.other));
    }
  }

  /** Rearranging nodes below a path without changing their order. */
  lemma Refit<T>(r: RbNode?<T>, m: Memory<T>, m': Memory<T>, p: Path<RbNode<T>>, t: Tree<RbNode<T>>, u: Tree<RbNode<T>>)
    requires Fits(r, m, Plug(p, t)) && InOrder(t) == InOrder(u)
    requires Holds(m', Plug(p, u))
    ensures Fits(if p.Up? then r else Root(u), m', Plug(p, u))
  {
    PlugRoot(p, t, u);
    SameOrder(p, t, u);
    SameApart(Plug(p, t), Plug(p, u));
  }

  /** The tree at the grandparent of the link below `p`. */
  ghost function Around<T>(p: Path<RbNode<T>>, t: Tree<RbNode<T>>): Tree<RbNode<T>>
    requires p.Up? && p.rest.Up?
  {
    Join(p.rest.color, p.rest.dir, Join(p.color, p.dir, t, p.node, p.other), p.rest.node, p.rest.other)
  }

  lemma PlugAround<T>(p: Path<RbNode<T>>, t: Tree<RbNode<T>>)
    requires p.Up? && p.rest.Up?
    ensures Plug(p, t) == Plug(p.rest.rest, Around(p, t))
  {
    assert Plug(p, t) == Plug(p.rest, Join(p.color, p.dir, t, p.node, p.other));
  }

  ghost function RecoloredMemory<T>(m: Memory<T>, p: RbNode<T>, y: RbNode<T>, g: RbNode<T>): Memory<T>
    requires p in m && y in m && g in m
  {
    Tint(Tint(Tint(m, p, Black), y, Black), g, Red)
  }

  lemma RecolorHolds<T>(m: Memory<T>, p: Path<RbNode<T>>, t: Tree<RbNode<T>>)
    requires Holds(m, Plug(p, t)) && Apart(Plug(p, t)) && p.Up? && p.rest.Up? && IsRed(p.rest.other)
    ensures p.node in m && p.rest.node in m && p.rest.other.node in m
    ensures Holds(RecoloredMemory(m, p.node, p.rest.other.node, p.rest.node), Plug(p.rest.rest, Recolored(p, t)))
  {
    var g := p.rest;
    var y := g.other;
    Family(m, p, t);
    var m' := RecoloredMemory(m, p.node, y.node, g.node);
    var w := {p.node, g.node, y.node};
    assert Outside(m, m', w);
    HoldsPathFrame(m, m', g.rest, g.node, w);
    HoldsFrame(m, m', t, w);
    HoldsFrame(m, m', p.other, w);
    HoldsFrame(m, m', y.left, w);
    HoldsFrame(m, m', y.right, w);
    assert Holds(m', Join(Black, p.dir, t, p.node, p.other)) && Holds(m', Paint(y, Black));
    HoldsPlug(m', g.rest, Recolored(p, t));
  }

  lemma RecolorFits<T>(r: RbNode?<T>, m: Memory<T>, p: Path<RbNode<T>>, t: Tree<RbNode<T>>)
    requires Fits(r, m, Plug(p, t)) && p.Up? && p.rest.Up? && IsRed(p.rest.other)
    ensures p.node in m && p.rest.node in m && p.rest.other.node in m
    ensures Fits(r, RecoloredMemory(m, p.node, p.rest.other.node, p.rest.node), Plug(p.rest.rest, Recolored(p, t)))
  {
    RecolorHolds(m, p, t);
    PlugAround(p, t);
    Refit(r, m, RecoloredMemory(m, p.node, p.rest.other.node, p.rest.node), p.rest.rest, Around(p, t), Recolored(p, t));
  }

  /** The last write of a rotation: pa[k]->rb_link[da[k]] = f, where an empty path means the root pointer. */
  ghost function Hang<T>(m: Memory<T>, p: Path<RbNode<T>>, f: RbNode?<T>): Memory<T> {
    if p.Up? && p.node in m then Rewire(m, p.node, p.dir, f) else m
  }

  /** Other links inside `w`, a set below `p`, do not disturb the path above. */
  lemma HangHolds<T>(m: Memory<T>, m': Memory<T>, p: Path<RbNode<T>>, t: Tree<RbNode<T>>, f: RbNode?<T>,
                     w: set<RbNode<T>>)
    requires Holds(m, Plug(p, t)) && Apart(Plug(p, t)) && Outside(m, m', w) && w !! PathMembers(p)
    ensures HoldsPath(Hang(m', p, f), p, f)
  {
    HoldsPlug(m, p, t);
    HoldsPathFrame(m, m', p, Root(t), w);
    if p.Up? {
      PlugApart(p.rest, Join(p.color, p.dir, t, p.node, p.other));
      HoldsFrame(m', Hang(m', p, f), p.other, {p.node});
      HoldsPathFrame(m', Hang(m', p, f), p.rest, p.node, {p.node});
    }
  }

  lemma HangFrame<T>(m: Memory<T>, p: Path<RbNode<T>>, f: RbNode?<T>, t: Tree<RbNode<T>>)
    requires Holds(m, t) && PathMembers(p) !! Members(t)
    ensures Holds(Hang(m, p, f), t)
  {
    if p.Up? {
      HoldsFrame(m, Hang(m, p, f), t, {p.node});
    }
  }

  lemma PaintFits<T>(r: RbNode?<T>, m: Memory<T>, t: Tree<RbNode<T>>)
    requires Fits(r, m, t) && t.Node?
    ensures r != null && r in m
    ensures Fits(r, Tint(m, r, Black), Paint(t, Black))
  {
    var m' := Tint(m, r, Black);
    HoldsFrame(m, m', t.left, {r});
    HoldsFrame(m, m', t.right, {r});
  }

  lemma {:induction false} HoldsMembers<T>(m: Memory<T>, t: Tree<RbNode<T>>)
    requires Holds(m, t)
    ensures Members(t) <= m.Keys
  {
    if t.Node? {
      HoldsMembers(m, t.left);
      HoldsMembers(m, t.right);
    }
  }

  lemma {:induction false} MembersPlug<T>(p: Path<RbNode<T>>, t: Tree<RbNode<T>>)
    ensures Members(Plug(p, t)) == Members(t) + PathMembers(p)
    decreases p
  {
    if p.Up? {
      MembersPlug(p.rest, Join(p.color, p.dir, t, p.node, p.other));
    }
  }

  lemma ApartGrows<T>(p: Path<RbNode<T>>, n: RbNode<T>)
    requires Apart(Plug(p, Leaf)) && n !in Members(Plug(p, Leaf))
    ensures Apart(Plug(p, Node(Red, Leaf, n, Leaf)))
  {
    GrownMembers(p, n);
    GrownLength(p, n);
    ApartCount(Plug(p, Leaf));
    ApartCount(Plug(p, Node(Red, Leaf, n, Leaf)));
  }

  lemma GrownMembers<T>(p: Path<RbNode<T>>, n: RbNode<T>)
    ensures Members(Plug(p, Node(Red, Leaf, n, Leaf))) == Members(Plug(p, Leaf)) + {n}
  {
    var l := Node(Red, Leaf, n, Leaf);
    MembersPlug(p, Leaf);
    MembersPlug(p, l);
    assert Members(l) == {n};
  }

  lemma GrownLength<T>(p: Path<RbNode<T>>, n: RbNode<T>)
    ensures |InOrder(Plug(p, Node(Red, Leaf, n, Leaf)))| == |InOrder(Plug(p, Leaf))| + 1
  {
    var l := Node(Red, Leaf, n, Leaf);
    PlugInOrder(p, Leaf);
    PlugInOrder(p, l);
    assert InOrder(l) == [n];
  }

  /** A new red node below a path. */
  lemma GrowFits<T>(r: RbNode?<T>, m: Memory<T>, p: Path<RbNode<T>>, n: RbNode<T>)
    requires Fits(r, m, Plug(p, Leaf)) && n !in m
    ensures
      var l := Node(Red, Leaf, n, Leaf);
      && (p.Up? ==> p.node in m)
      && Fits(if p.Up? then r else n, Hang(m[n := TopCell(l)], p, n), Plug(p, l))
  {
    var l := Node(Red, Leaf, n, Leaf);
    var m' := m[n := TopCell(l)];
    HoldsPlug(m, p, Leaf);
    HoldsMembers(m, Plug(p, Leaf));
    MembersPlug(p, Leaf);
    ApartGrows(p, n);
    PlugRoot(p, Leaf, l);
    HangHolds(m, m', p, Leaf, n, {n});
    HangFrame(m', p, n, l);
    HoldsPlug(Hang(m', p, n), p, l);
  }

  lemma RotationReady<T>(r: RbNode?<T>, m: Memory<T>, p: Path<RbNode<T>>, t: Tree<RbNode<T>>)
    requires Fits(r, m, Plug(p, t)) && p.Up? && p.rest.Up? && t.Node?
    ensures p.node in m && p.rest.node in m && t.node in m
    ensures p.node != p.rest.node && t.node != p.node && t.node != p.rest.node
    ensures m[p.node].link.At(p.dir) == t.node
    ensures p.rest.rest.Up? ==> p.rest.rest.node in m
  {
    Family(m, p, t);
  }

  lemma OuterRotationMemory<T>(r: RbNode?<T>, m: Memory<T>, m': Memory<T>, p: Path<RbNode<T>>, t: Tree<RbNode<T>>)
    requires Fits(r, m, Plug(p, t)) && p.Up? && p.rest.Up? && t.Node? && p.dir == p.rest.dir
    requires Outside(m, m', {p.node, p.rest.node}) && p.node in m && p.rest.node in m && m'.Keys == m.Keys
    requires m'[p.node] == Cell(m[p.node].link.With(!p.dir, p.rest.node), Black)
    requires m'[p.rest.node] == Cell(m[p.rest.node].link.With(p.dir, m[p.node].link.At(!p.dir)), Red)
    ensures Fits(if p.rest.rest.Up? then r else p.node, Hang(m', p.rest.rest, p.node), Plug(p.rest.rest, Rotated(p, t)))
  {
    var g, w, u := p.rest, {p.node, p.rest.node}, Rotated(p, t);
    Family(m, p, t);
    HoldsFrame(m, m', t, w);
    HoldsFrame(m, m', p.other, w);
    HoldsFrame(m, m', g.other, w);
    assert Holds(m', Join(Red, g.dir, p.other, g.node, g.other));
    assert Holds(m', u);
    RotatedOrder(p, t);
    PlugAround(p, t);
    HangFits(r, m, m', g.rest, Around(p, t), u, w);
  }

  lemma HangPlug<T>(m: Memory<T>, m': Memory<T>, p: Path<RbNode<T>>, t: Tree<RbNode<T>>, u: Tree<RbNode<T>>,
                    w: set<RbNode<T>>)
    requires Holds(m, Plug(p, t)) && Apart(Plug(p, t))
    requires Outside(m, m', w) && w <= Members(t) && Members(u) == Members(t) && Holds(m', u)
    ensures Holds(Hang(m', p, Root(u)), Plug(p, u))
  {
    PlugApart(p, t);
    HangHolds(m, m', p, t, Root(u), w);
    HangFrame(m', p, Root(u), u);
    HoldsPlug(Hang(m', p, Root(u)), p, u);
  }

  /** A rearrangement below `p`, made known to the link above it. */
  lemma HangFits<T>(r: RbNode?<T>, m: Memory<T>, m': Memory<T>, p: Path<RbNode<T>>, t: Tree<RbNode<T>>,
                    u: Tree<RbNode<T>>, w: set<RbNode<T>>)
    requires Fits(r, m, Plug(p, t)) && InOrder(u) == InOrder(t)
    requires Outside(m, m', w) && w <= Members(t) && Holds(m', u)
    ensures Fits(if p.Up? then r else Root(u), Hang(m', p, Root(u)), Plug(p, u))
  {
    PlugApart(p, t);
    SameApart(t, u);
    HangPlug(m, m', p, t, u, w);
    Refit(r, m, Hang(m', p, Root(u)), p, t, u);
  }

  lemma InnerRotationMemory<T>(r: RbNode?<T>, m: Memory<T>, m': Memory<T>, p: Path<RbNode<T>>, t: Tree<RbNode<T>>)
    requires Fits(r, m, Plug(p, t)) && p.Up? && p.rest.Up? && t.Node? && p.dir != p.rest.dir && p.color == Red
    requires Outside(m, m', {p.node, p.rest.node, t.node}) && m'.Keys == m.Keys
    requires p.node in m && p.rest.node in m && t.node in m
    requires m'[t.node] == Cell(Links(p.node, p.node).With(p.dir, p.rest.node), Black)
    requires m'[p.node] == m[p.node].(link := m[p.node].link.With(p.dir, m[t.node].link.At(!p.dir)))
    requires m'[p.rest.node] == Cell(m[p.rest.node].link.With(!p.dir, m[t.node].link.At(p.dir)), Red)
    ensures Fits(if p.rest.rest.Up? then r else t.node, Hang(m', p.rest.rest, t.node), Plug(p.rest.rest, Rotated(p, t)))
  {
    var g, w, u := p.rest, {p.node, p.rest.node, t.node}, Rotated(p, t);
    Family(m, p, t);
    HoldsFrame(m, m', t.left, w);
    HoldsFrame(m, m', t.right, w);
    HoldsFrame(m, m', p.other, w);
    HoldsFrame(m, m', g.other, w);
    var d := g.dir;
    assert Holds(m', Join(Red, d, p.other, p.node, Kid(t, d)));
    assert Holds(m', Join(Red, d, Kid(t, !d), g.node, g.other));
    assert Holds(m', u);
    RotatedOrder(p, t);
    PlugAround(p, t);
    HangFits(r, m, m', g.rest, Around(p, t), u, w);
  }

  // ----- the fix-up steps of rb_delete

  /** A node, its sibling tree and what lies around them. */
  lemma Pair<T>(m: Memory<T>, p: Path<RbNode<T>>, t: Tree<RbNode<T>>)
    requires Holds(m, Plug(p, t)) && Apart(Plug(p, t)) && p.Up?
    ensures p.node in m && m[p.node] == TopCell(Join(p.color, p.dir, t, p.node, p.other))
    ensures p.node !in Members(t) && p.node !in Members(p.other) && Members(t) !! Members(p.other)
    ensures p.node !in PathMembers(p.rest) && Members(t) !! PathMembers(p.rest)
    ensures Members(p.other) !! PathMembers(p.rest)
    ensures Apart(t) && Apart(p.other) && Holds(m, t) && Holds(m, p.other) && HoldsPath(m, p.rest, p.node)
    ensures Plug(p, t) == Plug(p.rest, Join(p.color, p.dir, t, p.node, p.other))
    ensures p.rest.Up? ==> p.rest.node in m
  {
    var j := Join(p.color, p.dir, t, p.node, p.other);
    PlugApart(p, t);
    PlugApart(p.rest, j);
    HoldsPlug(m, p, t);
  }

  /** The parent, the sibling and one of its children. */
  lemma Trio<T>(m: Memory<T>, p: Path<RbNode<T>>, t: Tree<RbNode<T>>, d: bool)
    requires Holds(m, Plug(p, t)) && Apart(Plug(p, t)) && p.Up? && p.other.Node? && Kid(p.other, d).Node?
    ensures
      var n, w, f := p.node, p.other.node, Kid(p.other, d).node;
      n in m && w in m && f in m && n != w && w != f && f != n && m[w].link.At(d) == f
    ensures p.rest.Up? ==> p.rest.node in m
  {
    Pair(m, p, t);
  }

  lemma BlackenFits<T>(r: RbNode?<T>, m: Memory<T>, p: Path<RbNode<T>>, t: Tree<RbNode<T>>)
    requires Fits(r, m, Plug(p, t)) && t.Node?
    ensures t.node in m && Fits(r, Tint(m, t.node, Black), Plug(p, Paint(t, Black)))
  {
    HoldsPlug(m, p, t);
    PlugApart(p, t);
    var m' := Tint(m, t.node, Black);
    PaintFits(Root(t), m, t);
    HoldsPathFrame(m, m', p, Root(t), {t.node});
    HoldsPlug(m', p, Paint(t, Black));
    Refit(r, m, m', p, t, Paint(t, Black));
  }

  lemma SiblingFits<T>(r: RbNode?<T>, m: Memory<T>, m': Memory<T>, p: Path<RbNode<T>>, t: Tree<RbNode<T>>)
    requires Fits(r, m, Plug(p, t)) && p.Up? && p.other.Node?
    requires p.node in m && p.other.node in m && m'.Keys == m.Keys && Outside(m, m', {p.node, p.other.node})
    requires m'[p.node] == Cell(m[p.node].link.With(!p.dir, m[p.other.node].link.At(p.dir)), Red)
    requires m'[p.other.node] == Cell(m[p.other.node].link.With(p.dir, p.node), Black)
    ensures Fits(if p.rest.Up? then r else p.other.node, Hang(m', p.rest, p.other.node), Plug(SiblingRotated(p), t))
  {
    var w, d, s := p.other, p.dir, {p.node, p.other.node};
    Pair(m, p, t);
    HoldsFrame(m, m', t, s);
    HoldsFrame(m, m', w.left, s);
    HoldsFrame(m, m', w.right, s);
    var v, low := Join(p.color, d, t, p.node, w), Join(Red, d, t, p.node, Kid(w, d));
    var u := Join(Black, d, low, w.node, Kid(w, !d));
    assert Holds(m', low);
    Regroup3(InOrder(w.left), w.node, InOrder(w.right), p.node, InOrder(t));
    Regroup3(InOrder(t), p.node, InOrder(w.left), w.node, InOrder(w.right));
    HangFits(r, m, m', p.rest, v, u, s);
    assert Plug(SiblingRotated(p), t) == Plug(SiblingRotated(p).rest, low) == Plug(p.rest, u);
  }

  lemma LightenFits<T>(r: RbNode?<T>, m: Memory<T>, p: Path<RbNode<T>>, t: Tree<RbNode<T>>)
    requires Fits(r, m, Plug(p, t)) && p.Up? && p.other.Node?
    ensures p.other.node in m && Fits(r, Tint(m, p.other.node, Red), Plug(p.rest, Lightened(p, t)))
  {
    var w := p.other;
    Pair(m, p, t);
    var m', s := Tint(m, w.node, Red), {w.node};
    HoldsFrame(m, m', t, s);
    HoldsFrame(m, m', w.left, s);
    HoldsFrame(m, m', w.right, s);
    HoldsPathFrame(m, m', p.rest, p.node, s);
    assert Holds(m', Paint(w, Red));
    HoldsPlug(m', p.rest, Lightened(p, t));
    Refit(r, m, m', p.rest, Join(p.color, p.dir, t, p.node, w), Lightened(p, t));
  }

  /** The inner red nephew goes above the sibling. */
  lemma InnerFits<T>(r: RbNode?<T>, m: Memory<T>, m': Memory<T>, p: Path<RbNode<T>>, t: Tree<RbNode<T>>)
    requires Fits(r, m, Plug(p, t)) && p.Up? && p.other.Node? && Kid(p.other, p.dir).Node?
    requires
      var n, w, y, d := p.node, p.other.node, Kid(p.other, p.dir).node, p.dir;
      && n in m && w in m && y in m && m'.Keys == m.Keys && Outside(m, m', {n, w, y})
      && m'[n] == m[n].(link := m[n].link.With(!d, y))
      && m'[w] == Cell(m[w].link.With(d, m[y].link.At(!d)), Red)
      && m'[y] == Cell(m[y].link.With(!d, w), Black)
    ensures Fits(r, m', Plug(p.(other := InnerRotated(p.other, p.dir)), t))
  {
    var w, d := p.other, p.dir;
    var y := Kid(w, d);
    var s := {p.node, w.node, y.node};
    Pair(m, p, t);
    HoldsFrame(m, m', t, s);
    HoldsPathFrame(m, m', p.rest, p.node, s);
    InnerHolds(m, m', w, d, s);
    var u := Join(p.color, d, t, p.node, InnerRotated(w, d));
    InnerOrder(w, d);
    HoldsPlug(m', p.rest, u);
    Refit(r, m, m', p.rest, Join(p.color, d, t, p.node, w), u);
  }

  lemma InnerHolds<T>(m: Memory<T>, m': Memory<T>, w: Tree<RbNode<T>>, d: bool, s: set<RbNode<T>>)
    requires w.Node? && Kid(w, d).Node? && Holds(m, w) && Apart(w) && Outside(m, m', s) && m'.Keys == m.Keys
    requires
      var y := Kid(w, d);
      && w.node in m && y.node in m
      && (forall n :: n in s && n in Members(w) ==> n == w.node || n == y.node)
      && m'[w.node] == Cell(m[w.node].link.With(d, m[y.node].link.At(!d)), Red)
      && m'[y.node] == Cell(m[y.node].link.With(!d, w.node), Black)
    ensures Holds(m', InnerRotated(w, d))
  {
    var y := Kid(w, d);
    assert Apart(y) && Holds(m, y);
    HoldsFrame(m, m', Kid(w, !d), s);
    HoldsFrame(m, m', y.left, s);
    HoldsFrame(m, m', y.right, s);
    assert Holds(m', Join(Red, d, Kid(y, !d), w.node, Kid(w, !d)));
  }

  lemma InnerOrder<T>(w: Tree<RbNode<T>>, d: bool)
    requires w.Node? && Kid(w, d).Node?
    ensures InOrder(InnerRotated(w, d)) == InOrder(w)
  {
    var y := Kid(w, d);
    Regroup3(InOrder(Kid(w, !d)), w.node, InOrder(y.left), y.node, InOrder(y.right));
    Regroup3(InOrder(y.left), y.node, InOrder(y.right), w.node, InOrder(Kid(w, !d)));
  }

  /** The last rotation of a deletion. */
  lemma {:induction false} OuterFits<T>(r: RbNode?<T>, m: Memory<T>, m': Memory<T>, p: Path<RbNode<T>>,
                                        t: Tree<RbNode<T>>)
    requires Fits(r, m, Plug(p, t)) && p.Up? && p.other.Node? && Kid(p.other, !p.dir).Node?
    requires
      var n, w, f, d := p.node, p.other.node, Kid(p.other, !p.dir).node, p.dir;
      && n in m && w in m && f in m && m'.Keys == m.Keys && Outside(m, m', {n, w, f})
      && m'[n] == Cell(m[n].link.With(!d, m[w].link.At(d)), Black)
      && m'[w] == Cell(m[w].link.With(d, n), m[n].color)
      && m'[f] == m[f].(color := Black)
    ensures Fits(if p.rest.Up? then r
              else p.other.node, Hang(m', p.rest, p.other.node), Plug(p.rest, OuterRotated(p, t, p.other)))
  {
    var w, d := p.other, p.dir;
    var f := Kid(w, !d);
    var s := {p.node, w.node, f.node};
    Pair(m, p, t);
    HoldsFrame(m, m', t, s);
    HoldsFrame(m, m', Kid(w, d), s);
    HoldsFrame(m, m', f.left, s);
    HoldsFrame(m, m', f.right, s);
    var u := OuterRotated(p, t, w);
    assert Holds(m', Join(Black, d, t, p.node, Kid(w, d)));
    assert Holds(m', Paint(f, Black));
    OuterOrder(p, t, w);
    HangFits(r, m, m', p.rest, Join(p.color, d, t, p.node, w), u, s);
  }

  // ----- taking a node out of memory's tree

  /** Fewer nodes of an apart sequence are still apart. */
  lemma {:induction false} ApartShrinks<T>(t: Tree<RbNode<T>>, u: Tree<RbNode<T>>, n: RbNode<T>)
    requires Apart(t) && n in Members(t) && Members(u) == Members(t) - {n} && |InOrder(u)| == |InOrder(t)| - 1
    ensures Apart(u)
  {
    ApartCount(t);
    ApartCount(u);
  }

  lemma {:induction false} OutFits<T>(r: RbNode?<T>, m: Memory<T>, m': Memory<T>, p: Path<RbNode<T>>,
                                      t: Tree<RbNode<T>>, u: Tree<RbNode<T>>, n: RbNode<T>, w: set<RbNode<T>>)
    requires Fits(r, m, Plug(p, t)) && n in Members(t) && w <= Members(t) && Outside(m, m', w)
    requires Members(u) == Members(t) - {n} && |InOrder(u)| == |InOrder(t)| - 1 && Holds(m', u)
    ensures Fits(if p.Up? then r else Root(u), Hang(m', p, Root(u)), Plug(p, u))
  {
    PlugApart(p, t);
    HangHolds(m, m', p, t, Root(u), w);
    HangFrame(m', p, Root(u), u);
    HoldsPlug(Hang(m', p, Root(u)), p, u);
    PlugRoot(p, t, u);
    MembersPlug(p, t);
    MembersPlug(p, u);
    PlugInOrder(p, t);
    PlugInOrder(p, u);
    ApartShrinks(Plug(p, t), Plug(p, u), n);
  }

  /** No right child: the left child takes the node's place. */
  lemma SpliceFits<T>(r: RbNode?<T>, m: Memory<T>, p: Path<RbNode<T>>, t: Tree<RbNode<T>>)
    requires Fits(r, m, Plug(p, t)) && t.Node? && t.right.Leaf?
    ensures p.Up? ==> p.node in m
    ensures Fits(if p.Up? then r else Root(t.left), Hang(m, p, Root(t.left)), Plug(p, t.left))
  {
    HoldsPlug(m, p, t);
    PlugApart(p, t);
    OutFits(r, m, m, p, t, t.left, t.node, {});
  }

  /** The tree after `s`, the leftmost node on the right, has taken the place of the node on top of `t`. */
  ghost function Succeeded<T>(t: Tree<RbNode<T>>, q: Path<RbNode<T>>, s: Tree<RbNode<T>>): Tree<RbNode<T>>
    requires t.Node? && s.Node?
  {
    Node(t.color, t.left, s.node, Plug(q, s.right))
  }

  lemma SucceededMembers<T>(t: Tree<RbNode<T>>, q: Path<RbNode<T>>, s: Tree<RbNode<T>>)
    requires t.Node? && Apart(t) && s.Node? && s.left.Leaf? && t.right == Plug(q, s)
    ensures Members(Succeeded(t, q, s)) == Members(t) - {t.node}
    ensures |InOrder(Succeeded(t, q, s))| == |InOrder(t)| - 1
    ensures s.node in Members(t.right) && PathMembers(q) <= Members(t.right) && s.node !in PathMembers(q)
    ensures s.node !in Members(s.right) && Members(s.right) <= Members(t.right) && Members(s.right) !! PathMembers(q)
  {
    MembersPlug(q, s);
    MembersPlug(q, s.right);
    PlugInOrder(q, s);
    PlugInOrder(q, s.right);
    PlugApart(q, s);
  }

  /**
   The memory after the writes of src/lib/rb.c:269-273 or 295-303: `s` has the links and colour of the
   node on top of `t`, the node above `s` has lost it, and the link above `t` leads to `s`.
   */
  lemma SuccessorFits<T>(r: RbNode?<T>, m: Memory<T>, m1: Memory<T>, p: Path<RbNode<T>>, t: Tree<RbNode<T>>,
                         q: Path<RbNode<T>>, s: Tree<RbNode<T>>)
    requires Fits(r, m, Plug(p, t)) && t.Node? && s.Node? && s.left.Leaf? && t.right == Plug(q, s)
    requires s.node in m1 && Outside(m, m1, {t.node, s.node})
    requires m1[s.node] == Cell(Links(Root(t.left), Root(Plug(q, s.right))), t.color)
    ensures Fits(if p.Up? then r else s.node, Hang(Hang(m1, q, Root(s.right)), p, s.node), Plug(p, Succeeded(t, q, s)))
  {
    var u, m' := Succeeded(t, q, s), Hang(m1, q, Root(s.right));
    var w := {t.node, s.node} + if q.Up? then {q.node} else {};
    HoldsPlug(m, p, t);
    PlugApart(p, t);
    SucceededMembers(t, q, s);
    HoldsFrame(m, m1, t.left, {t.node, s.node});
    HangFrame(m1, q, Root(s.right), t.left);
    SuccessorUp(m, m1, q, s, t.node);
    assert Outside(m, m', w);
    assert Holds(m', u);
    OutFits(r, m, m', p, t, u, t.node, w);
  }

  lemma SuccessorUp<T>(m: Memory<T>, m1: Memory<T>, q: Path<RbNode<T>>, s: Tree<RbNode<T>>, n: RbNode<T>)
    requires Holds(m, Plug(q, s)) && Apart(Plug(q, s)) && s.Node? && s.left.Leaf?
    requires n !in Members(Plug(q, s)) && Outside(m, m1, {n, s.node})
    ensures Holds(Hang(m1, q, Root(s.right)), Plug(q, s.right))
  {
    PlugApart(q, s);
    HoldsPlug(m, q, s);
    HangHolds(m, m1, q, s, Root(s.right), {n, s.node});
    HoldsFrame(m, m1, s.right, {n, s.node});
    HangFrame(m1, q, Root(s.right), s.right);
    HoldsPlug(Hang(m1, q, Root(s.right)), q, s.right);
  }

  /** The innermost stack entry; null is the pseudo-root `(struct rb_node *) &tree->rb_root`. */
  ghost function Anchor<T>(p: Path<RbNode<T>>): RbNode?<T> {
    if p.Up? then p.node else null
  }

  ghost function AnchorDir<T>(p: Path<RbNode<T>>): bool {
    p.Up? && p.dir
  }

  /** The stacks `pa` and `da` of a path. */
  ghost function Nodes<T>(p: Path<RbNode<T>>): seq<RbNode?<T>> {
    match p
    case Top => [null]
    case Up(n, _, _, _, rest) => Nodes(rest) + [n]
  }

  ghost function Dirs<T>(p: Path<RbNode<T>>): seq<bool> {
    match p
    case Top => [false]
    case Up(_, d, _, _, rest) => Dirs(rest) + [d]
  }

  lemma Stacked<T>(p: Path<RbNode<T>>)
    ensures |Nodes(p)| == |Dirs(p)| == Depth(p) + 1
    ensures Nodes(p)[Depth(p)] == Anchor(p) && Dirs(p)[Depth(p)] == AnchorDir(p)
    ensures p.Up? ==> Nodes(p)[..Depth(p)] == Nodes(p.rest) && Dirs(p)[..Depth(p)] == Dirs(p.rest)
  {
  }

  /** The stacks of a path that continues another one. */
  lemma {:induction false} StackedOver<T>(q: Path<RbNode<T>>, p: Path<RbNode<T>>, n: RbNode<T>)
    requires p.Up?
    ensures Depth(Over(q, p)) == Depth(q) + Depth(p)
    ensures Depth(p) < |Nodes(Over(q, p))| == |Dirs(Over(q, p))| == Depth(q) + Depth(p) + 1
    ensures Nodes(Over(q, p.(node := n))) == Nodes(Over(q, p))[Depth(p) := n]
    ensures Dirs(Over(q, p.(node := n))) == Dirs(Over(q, p))
  {
    Stacked(p);
    Stacked(p.(node := n));
    if q.Up? {
      StackedOver(q.rest, p, n);
    }
  }

  /** `pa[..k]` and `da[..k]` are the stacks of `p`. */
  ghost predicate Stacks<T>(pa: seq<RbNode?<T>>, da: seq<bool>, k: nat, p: Path<RbNode<T>>) {
    k == Depth(p) + 1 && k <= |pa| && k <= |da| && pa[..k] == Nodes(p) && da[..k] == Dirs(p)
  }

  lemma StacksTop<T>(pa: seq<RbNode?<T>>, da: seq<bool>, k: nat, p: Path<RbNode<T>>)
    requires Stacks(pa, da, k, p)
    ensures k >= 1 && pa[k - 1] == Anchor(p) && da[k - 1] == AnchorDir(p)
    ensures p.Up? ==> k >= 2 && Stacks(pa, da, k - 1, p.rest)
  {
    Stacked(p);
    assert pa[..k][k - 1] == pa[k - 1] && da[..k][k - 1] == da[k - 1];
    assert pa[..k - 1] == pa[..k][..k - 1] && da[..k - 1] == da[..k][..k - 1];
  }

  /** The top three levels of both stacks. */
  lemma TwoUp<T>(pa: seq<RbNode?<T>>, da: seq<bool>, k: nat, p: Path<RbNode<T>>)
    requires Stacks(pa, da, k, p) && k >= 3
    ensures p.Up? && p.rest.Up? && pa[k - 1] == p.node && pa[k - 2] == p.rest.node && da[k - 2] == p.rest.dir
    ensures pa[k - 3] == Anchor(p.rest.rest) && da[k - 3] == AnchorDir(p.rest.rest) && da[k - 1] == p.dir
    ensures Stacks(pa, da, k - 2, p.rest.rest)
  {
    StacksTop(pa, da, k, p);
    Stacked(p);
    assert p.Up?;
    StacksTop(pa, da, k - 1, p.rest);
    Stacked(p.rest);
    assert p.rest.Up?;
    StacksTop(pa, da, k - 2, p.rest.rest);
  }

  ghost function Data<T>(s: seq<RbNode<T>>): (r: seq<T>)
    reads s
    ensures Carries(s, r)
  {
    seq(|s|, i requires 0 <= i < |s| reads s => s[i].data)
  }

  ghost predicate Carries<T>(s: seq<RbNode<T>>, r: seq<T>)
    reads s`data
  {
    |r| == |s| && forall i :: 0 <= i < |s| ==> r[i] == s[i].data
  }

  lemma InsertedSplit<N>(a: seq<N>, b: seq<N>, n: N)
    ensures InsertedAt(a + b, |a|, n) == a + [n] + b
  {
  }

  lemma CarriesInserted<T>(o: seq<RbNode<T>>, s: seq<T>, r: nat, n: RbNode<T>)
    requires r <= |o| && Carries(o, s)
    ensures Carries(InsertedAt(o, r, n), InsertedAt(s, r, n.data))
  {
  }

  // ----- single writes

  /** n->rb_color = c */
  method SetColor<T>(n: RbNode<T>, c: Color, ghost m: Memory<T>) returns (ghost m': Memory<T>)
    requires Stored(m) && n in m
    modifies n`color
    ensures m' == Tint(m, n, c) && Stored(m') && m'.Keys == m.Keys
  {
    n.color := c;
    m' := Tint(m, n, c);
  }

  /** n->rb_link[d] = f */
  method SetLinkAt<T>(n: RbNode<T>, d: bool, f: RbNode?<T>, ghost m: Memory<T>) returns (ghost m': Memory<T>)
    requires Stored(m) && n in m
    modifies n`link
    ensures m' == Rewire(m, n, d, f) && Stored(m') && m'.Keys == m.Keys
  {
    n.link := n.link.With(d, f);
    m' := Rewire(m, n, d, f);
  }

  /** src/lib/rb.c:139-140 and 150-155, and their mirror images; the link above is written by the caller */
  method RotateOuter<T>(p: RbNode<T>, g: RbNode<T>, d: bool, ghost m: Memory<T>) returns (y: RbNode<T>,
      ghost m': Memory<T>)
    requires Stored(m) && p in m && g in m && p != g
    modifies p`link, p`color, g`link, g`color
    ensures y == p && Stored(m') && m'.Keys == m.Keys && Outside(m, m', {p, g})
    ensures m'[p] == Cell(m[p].link.With(!d, g), Black)
    ensures m'[g] == Cell(m[g].link.With(d, m[p].link.At(!d)), Red)
  {
    y := p;
    var x := g;
    m' := SetColor(x, Red, m);
    m' := SetColor(y, Black, m');
    m' := SetLinkAt(x, d, y.link.At(!d), m');
    m' := SetLinkAt(y, !d, x, m');
  }

  /** src/lib/rb.c:143-155 and the mirror image */
  method RotateInner<T>(p: RbNode<T>, g: RbNode<T>, d: bool, ghost m: Memory<T>) returns (y: RbNode<T>,
      ghost m': Memory<T>)
    requires Stored(m) && p in m && g in m && p.link.At(!d) != null
    requires var n := p.link.At(!d); n in m && n != p && n != g && p != g
    modifies p`link, g`link, g`color, p.link.At(!d)`link, p.link.At(!d)`color
    ensures y == old(p.link.At(!d)) && Stored(m') && m'.Keys == m.Keys && Outside(m, m', {p, g, y})
    ensures y in m && m'[y] == Cell(Links(p, p).With(!d, g), Black)
    ensures m'[p] == m[p].(link := m[p].link.With(!d, m[y].link.At(d)))
    ensures m'[g] == Cell(m[g].link.With(d, m[y].link.At(!d)), Red)
  {
    var x := p;
    y := x.link.At(!d);
    m' := SetLinkAt(x, !d, y.link.At(d), m);
    m' := SetLinkAt(y, d, x, m');
    m' := SetLinkAt(g, d, y, m');
    x := g;
    m' := SetColor(x, Red, m');
    m' := SetColor(y, Black, m');
    m' := SetLinkAt(x, d, y.link.At(!d), m');
    m' := SetLinkAt(y, !d, x, m');
  }

  /** src/lib/rb.c:326-331 and 375-380 */
  method RotateSibling<T>(p: RbNode<T>, w: RbNode<T>, d: bool, ghost m: Memory<T>) returns (ghost m': Memory<T>)
    requires Stored(m) && p in m && w in m && p != w
    modifies p`link, p`color, w`link, w`color
    ensures Stored(m') && m'.Keys == m.Keys && Outside(m, m', {p, w})
    ensures m'[p] == Cell(m[p].link.With(!d, m[w].link.At(d)), Red)
    ensures m'[w] == Cell(m[w].link.With(d, p), Black)
  {
    m' := SetColor(w, Black, m);
    m' := SetColor(p, Red, m');
    m' := SetLinkAt(p, !d, w.link.At(d), m');
    m' := SetLinkAt(w, d, p, m');
  }

  /** src/lib/rb.c:351-356 and 400-405 */
  method RotateNephew<T>(p: RbNode<T>, w: RbNode<T>, y: RbNode<T>, d: bool,
                         ghost m: Memory<T>) returns (ghost m': Memory<T>)
    requires Stored(m) && p in m && w in m && y in m && p != w && w != y && y != p
    modifies p`link, w`link, w`color, y`link, y`color
    ensures Stored(m') && m'.Keys == m.Keys && Outside(m, m', {p, w, y})
    ensures m'[p] == m[p].(link := m[p].link.With(!d, y))
    ensures m'[w] == Cell(m[w].link.With(d, m[y].link.At(!d)), Red)
    ensures m'[y] == Cell(m[y].link.With(!d, w), Black)
  {
    m' := SetColor(y, Black, m);
    m' := SetColor(w, Red, m');
    m' := SetLinkAt(w, d, y.link.At(!d), m');
    m' := SetLinkAt(y, !d, w, m');
    m' := SetLinkAt(p, !d, y, m');
  }

  /** src/lib/rb.c:359-364 and 408-413 */
  method RotateLast<T>(p: RbNode<T>, w: RbNode<T>, f: RbNode<T>, d: bool,
                       ghost m: Memory<T>) returns (ghost m': Memory<T>)
    requires Stored(m) && p in m && w in m && f in m && p != w && w != f && f != p && w.link.At(!d) == f
    modifies p`link, p`color, w`link, w`color, f`color
    ensures Stored(m') && m'.Keys == m.Keys && Outside(m, m', {p, w, f})
    ensures m'[p] == Cell(m[p].link.With(!d, m[w].link.At(d)), Black)
    ensures m'[w] == Cell(m[w].link.With(d, p), m[p].color)
    ensures m'[f] == m[f].(color := Black)
  {
    m' := SetColor(w, p.color, m);
    m' := SetColor(p, Black, m');
    m' := SetColor(f, Black, m');
    m' := SetLinkAt(p, !d, w.link.At(d), m');
    m' := SetLinkAt(w, d, p, m');
  }

  /** src/lib/rb.c:269-272 */
  method TakeOver<T>(p: RbNode<T>, r: RbNode<T>, ghost m: Memory<T>) returns (ghost m1: Memory<T>)
    requires Stored(m) && p in m && r in m && p != r
    modifies r`link, r`color, p`color
    ensures Stored(m1) && m1.Keys == m.Keys && Outside(m, m1, {p, r}) && p.color == m[r].color
    ensures m1[r] == Cell(Links(m[p].link.l0, m[r].link.l1), m[p].color)
  {
    m1 := SetLinkAt(r, false, p.link.l0, m);
    var t := r.color;
    m1 := SetColor(r, p.color, m1);
    m1 := SetColor(p, t, m1);
  }

  /** src/lib/rb.c:297-299 */
  method MoveLinks<T>(p: RbNode<T>, r: RbNode<T>, s: RbNode<T>, ghost m: Memory<T>) returns (ghost m': Memory<T>)
    requires Stored(m) && p in m && r in m && s in m && p != r && r != s && s != p
    modifies s`link, r`link
    ensures Stored(m') && m'.Keys == m.Keys
    ensures m' == m[s := m[s].(link := m[p].link)][r := m[r].(link := m[r].link.With(false, m[s].link.l1))]
  {
    s.link := s.link.With(false, p.link.l0);
    r.link := r.link.With(false, s.link.l1);
    s.link := s.link.With(true, p.link.l1);
    m' := m[s := m[s].(link := m[p].link)][r := m[r].(link := m[r].link.With(false, m[s].link.l1))];
  }

  /** src/lib/rb.c:297-303 */
  method TakeOverDeep<T>(p: RbNode<T>, r: RbNode<T>, s: RbNode<T>, ghost m: Memory<T>)
    returns (ghost m1: Memory<T>, ghost m': Memory<T>)
    requires Stored(m) && p in m && r in m && s in m && p != r && r != s && s != p
    modifies s`link, s`color, r`link, p`color
    ensures Stored(m') && m'.Keys == m.Keys && r in m1 && m' == Rewire(m1, r, false, m[s].link.l1)
    ensures Outside(m, m1, {p, s}) && p.color == m[s].color
    ensures s in m1 && m1[s] == Cell(m[p].link, m[p].color)
  {
    m' := MoveLinks(p, r, s, m);
    var t := s.color;
    m' := SetColor(s, p.color, m');
    m' := SetColor(p, t, m');
    m1 := m[s := Cell(m[p].link, m[p].color)][p := m[p].(color := t)];
    LastWrites(m, s, m[s].(link := m[p].link), Cell(m[p].link, m[p].color),
               r, m[r].(link := m[r].link.With(false, m[s].link.l1)), p, m[p].(color := t));
  }

  lemma LastWrites<K, V>(m: map<K, V>, s: K, s1: V, s2: V, r: K, r1: V, p: K, p1: V)
    requires p != r && r != s && s != p
    ensures m[s := s1][r := r1][s := s2][p := p1] == m[s := s2][p := p1][r := r1]
  {
  }
}
