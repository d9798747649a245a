/**
 Red-black trees as values: the shapes that the linked nodes of src/lib/rb.c form in memory.

 A `Tree<N>` records, for every node reference `N`, its colour and its two subtrees.  A `Path<N>` is
 the part of a tree above one link, innermost step first: it is what the stacks `pa` and `da` of
 `rb_probe` and `rb_delete` hold, together with the subtrees not taken.  The two fix-up loops of the
 C code keep a tree that is red-black everywhere except at the link below a path; the lemmas here
 say what one turn of each loop does to such a pair.

 A direction is a bool: false stands for `rb_link[0]` and true for `rb_link[1]`, so that a step and
 its mirror image are one function.
 */
module RbTree {
  datatype Color = Red | Black

  datatype Tree<N> = Leaf | Node(color: Color, left: Tree<N>, node: N, right: Tree<N>)

  datatype Path<N> = Top | Up(node: N, dir: bool, color: Color, other: Tree<N>, rest: Path<N>)

  function InOrder<N>(t: Tree<N>): seq<N> {
    match t
    case Leaf => []
    case Node(_, l, n, r) => InOrder(l) + [n] + InOrder(r)
  }

  /** The node with `near` on side `d` and `far` on the other side. */
  function Join<N>(c: Color, d: bool, near: Tree<N>, n: N, far: Tree<N>): Tree<N> {
    if d then Node(c, far, n, near) else Node(c, near, n, far)
  }

  function Kid<N>(t: Tree<N>, d: bool): Tree<N>
    requires t.Node?
  {
    if d then t.right else t.left
  }

  function Paint<N>(t: Tree<N>, c: Color): Tree<N> {
    if t.Leaf? then Leaf else t.(color := c)
  }

  predicate IsRed<N>(t: Tree<N>) {
    t.Node? && t.color == Red
  }

  /** Number of black nodes on the leftmost way down. */
  function BlackHeight<N>(t: Tree<N>): nat {
    if t.Leaf? then 0 else BlackHeight(t.left) + Weight(t.color)
  }

  function Weight(c: Color): nat {
    if c == Black then 1 else 0
  }

  /** No red node has a red child, and every way down meets equally many black nodes. */
  predicate RedBlack<N>(t: Tree<N>) {
    t.Node? ==>
      && RedBlack(t.left)
      && RedBlack(t.right)
      && BlackHeight(t.left) == BlackHeight(t.right)
      && (t.color == Red ==> !IsRed(t.left) && !IsRed(t.right))
  }

  /** Red-black but for the colour on top, which may be red above red. */
  predicate RedBlackBelow<N>(t: Tree<N>) {
    RedBlack(Paint(t, Black))
  }

  /** What a table's tree looks like between calls. */
  predicate Balanced<N>(t: Tree<N>) {
    RedBlack(t) && !IsRed(t)
  }

  // ----- trees with one link singled out

  function Plug<N>(p: Path<N>, t: Tree<N>): Tree<N> {
    match p
    case Top => t
    case Up(n, d, c, o, rest) => Plug(rest, Join(c, d, t, n, o))
  }

  function Depth<N>(p: Path<N>): nat {
    match p
    case Top => 0
    case Up(_, _, _, _, rest) => 1 + Depth(rest)
  }

  /** Everything in order before, and after, the link below `p`. */
  function Before<N>(p: Path<N>): seq<N> {
    match p
    case Top => []
    case Up(n, d, _, o, rest) => if d then Before(rest) + (InOrder(o) + [n]) else Before(rest)
  }

  function After<N>(p: Path<N>): seq<N> {
    match p
    case Top => []
    case Up(n, d, _, o, rest) => if d then After(rest) else [n] + InOrder(o) + After(rest)
  }

  lemma {:induction false} PlugInOrder<N>(p: Path<N>, t: Tree<N>)
    ensures InOrder(Plug(p, t)) == Before(p) + InOrder(t) + After(p)
  {
    match p
    case Top =>
    case Up(n, d, c, o, rest) =>
      PlugInOrder(rest, Join(c, d, t, n, o));
      Regroup(Before(rest), InOrder(t), n, InOrder(o), After(rest));
  }

  lemma Regroup<N>(b: seq<N>, i: seq<N>, n: N, j: seq<N>, a: seq<N>)
    ensures (b + (j + [n])) + i + a == b + (j + [n] + i) + a
    ensures b + i + ([n] + j + a) == b + (i + [n] + j) + a
  {
  }

  /** Only the in-order sequence of what hangs below a path matters for the order of the whole. */
  lemma SameOrder<N>(p: Path<N>, t: Tree<N>, u: Tree<N>)
    requires InOrder(t) == InOrder(u)
    ensures InOrder(Plug(p, t)) == InOrder(Plug(p, u))
  {
    PlugInOrder(p, t);
    PlugInOrder(p, u);
  }

  /**
   The path accepts below it any red-black tree of black height `h` whose top does not clash with
   `p.color`.
   */
  predicate Accepts<N>(p: Path<N>, h: nat) {
    p.Up? ==>
      && RedBlack(p.other)
      && BlackHeight(p.other) == h
      && (p.color == Red ==> !IsRed(p.other) && p.rest.Up? && p.rest.color == Black)
      && Accepts(p.rest, h + Weight(p.color))
  }

  predicate Clash<N>(p: Path<N>, t: Tree<N>) {
    IsRed(t) && (p.Top? || p.color == Red)
  }

  lemma {:induction false} PlugBalanced<N>(p: Path<N>, t: Tree<N>)
    requires Accepts(p, BlackHeight(t))
    requires RedBlack(t) && !Clash(p, t)
    ensures Balanced(Plug(p, t))
  {
    match p
    case Top =>
    case Up(n, d, c, o, rest) => PlugBalanced(rest, Join(c, d, t, n, o));
  }

  /** Walking down one link of a balanced tree. */
  lemma DescendAccepts<N>(p: Path<N>, t: Tree<N>, d: bool)
    requires t.Node? && RedBlack(t) && !Clash(p, t) && Accepts(p, BlackHeight(t))
    ensures
      var q := Up(t.node, d, t.color, Kid(t, !d), p);
      var k := Kid(t, d);
      && RedBlack(k) && !Clash(q, k) && Accepts(q, BlackHeight(k))
      && Plug(q, k) == Plug(p, t)
  {
  }

  lemma JoinRedBlack<N>(c: Color, d: bool, near: Tree<N>, n: N, far: Tree<N>)
    requires RedBlack(near) && RedBlack(far) && BlackHeight(near) == BlackHeight(far)
    requires c == Red ==> !IsRed(near) && !IsRed(far)
    ensures RedBlack(Join(c, d, near, n, far))
    ensures BlackHeight(Join(c, d, near, n, far)) == BlackHeight(near) + Weight(c)
  {
  }

  // ----- insertion: a red tree below a path, perhaps below a red node

  /** The loop invariant of `rb_probe`'s second loop. */
  predicate Inserting<N>(p: Path<N>, t: Tree<N>) {
    IsRed(t) && RedBlack(t) && Accepts(p, BlackHeight(t))
  }

  lemma StartInserting<N>(p: Path<N>, n: N)
    requires Accepts(p, 0)
    ensures Inserting(p, Node(Red, Leaf, n, Leaf))
    ensures InOrder(Plug(p, Node(Red, Leaf, n, Leaf))) == Before(p) + [n] + After(p)
  {
    PlugInOrder(p, Node(Red, Leaf, n, Leaf));
  }

  /** The uncle is red: both parents turn black and the grandparent red. */
  function Recolored<N>(p: Path<N>, t: Tree<N>): Tree<N>
    requires p.Up? && p.rest.Up?
  {
    var g := p.rest;
    Join(Red, g.dir, Join(Black, p.dir, t, p.node, p.other), g.node, Paint(g.other, Black))
  }

  lemma RecolorStep<N>(p: Path<N>, t: Tree<N>)
    requires Inserting(p, t) && p.Up? && p.color == Red && IsRed(p.rest.other)
    ensures Inserting(p.rest.rest, Recolored(p, t))
    ensures InOrder(Plug(p.rest.rest, Recolored(p, t))) == InOrder(Plug(p, t))
  {
    var g := p.rest;
    assert Accepts(g, BlackHeight(t)) && RedBlack(g.other);
    SameOrder(g.rest, Recolored(p, t), Join(g.color, g.dir, Join(p.color, p.dir, t, p.node, p.other), g.node, g.other));
  }

  /** The uncle is black: one or two rotations finish the insertion. */
  function Rotated<N>(p: Path<N>, t: Tree<N>): Tree<N>
    requires p.Up? && p.rest.Up? && t.Node?
  {
    var g := p.rest;
    var d := g.dir;
    if p.dir == d then
      Join(Black, d, t, p.node, Join(Red, d, p.other, g.node, g.other))
    else
      Join(Black, d, Join(Red, d, p.other, p.node, Kid(t, d)), t.node, Join(Red, d, Kid(t, !d), g.node, g.other))
  }

  lemma RotatedOrder<N>(p: Path<N>, t: Tree<N>)
    requires p.Up? && p.rest.Up? && t.Node?
    ensures InOrder(Rotated(p, t)) ==
            InOrder(Join(p.rest.color, p.rest.dir, Join(p.color, p.dir, t, p.node, p.other), p.rest.node, p.rest.other))
  {
    var g, k, l := p.rest, InOrder(p.other), InOrder(p.rest.other);
    if p.dir == g.dir {
      Regroup3(l, g.node, k, p.node, InOrder(t));
      Regroup3(InOrder(t), p.node, k, g.node, l);
    } else {
      Regroup4(l, g.node, InOrder(t.left), t.node, InOrder(t.right), p.node, k);
      Regroup4(k, p.node, InOrder(t.left), t.node, InOrder(t.right), g.node, l);
    }
  }

  lemma Regroup3<N>(a: seq<N>, m: N, b: seq<N>, n: N, c: seq<N>)
    ensures a + [m] + (b + [n] + c) == (a + [m] + b) + [n] + c
  {
  }

  lemma Regroup4<N>(a: seq<N>, k: N, b: seq<N>, m: N, c: seq<N>, n: N, d: seq<N>)
    ensures (a + [k] + b) + [m] + (c + [n] + d) == a + [k] + ((b + [m] + c) + [n] + d)
    ensures (a + [k] + b) + [m] + (c + [n] + d) == (a + [k] + (b + [m] + c)) + [n] + d
  {
  }

  lemma RotateStep<N>(p: Path<N>, t: Tree<N>)
    requires Inserting(p, t) && p.Up? && p.color == Red && !IsRed(p.rest.other)
    ensures Balanced(Plug(p.rest.rest, Rotated(p, t)))
    ensures InOrder(Plug(p.rest.rest, Rotated(p, t))) == InOrder(Plug(p, t))
  {
    var g := p.rest;
    assert Accepts(g, BlackHeight(t)) && RedBlack(t);
    RotatedOrder(p, t);
    SameOrder(g.rest, Rotated(p, t), Join(g.color, g.dir, Join(p.color, p.dir, t, p.node, p.other), g.node, g.other));
    var d := g.dir;
    if p.dir == d {
      JoinRedBlack(Red, d, p.other, g.node, g.other);
    } else {
      JoinRedBlack(Red, d, p.other, p.node, Kid(t, d));
      JoinRedBlack(Red, d, Kid(t, !d), g.node, g.other);
    }
    assert Accepts(g.rest, BlackHeight(t) + 1);
    PlugBalanced(g.rest, Rotated(p, t));
  }

  /** The loop stops at the top or below a black node; the root is then painted black. */
  lemma InsertDone<N>(p: Path<N>, t: Tree<N>)
    requires Inserting(p, t) && (p.Up? ==> p.color == Black)
    ensures Balanced(Paint(Plug(p, t), Black))
    ensures p.Up? ==> Balanced(Plug(p, t))
    ensures InOrder(Paint(Plug(p, t), Black)) == InOrder(Plug(p, t))
  {
    if p.Up? {
      PlugBalanced(p, t);
    }
  }

  // ----- deletion: a tree that is one black node too light below a path

  /** The loop invariant of `rb_delete`'s fix-up loop. */
  predicate Deleting<N>(p: Path<N>, t: Tree<N>) {
    RedBlackBelow(t) && Accepts(p, BlackHeight(t) + 1)
  }

  /** A red top turns black and makes up for the missing node. */
  lemma BlackenStep<N>(p: Path<N>, t: Tree<N>)
    requires Deleting(p, t) && IsRed(t)
    ensures Balanced(Plug(p, Paint(t, Black)))
    ensures InOrder(Plug(p, Paint(t, Black))) == InOrder(Plug(p, t))
  {
    SameOrder(p, t, Paint(t, Black));
    PlugBalanced(p, Paint(t, Black));
  }

  /** A red sibling is rotated above the parent, so that the sibling becomes black. */
  function SiblingRotated<N>(p: Path<N>): Path<N>
    requires p.Up? && p.other.Node?
  {
    var w, d := p.other, p.dir;
    Up(p.node, d, Red, Kid(w, d), Up(w.node, d, Black, Kid(w, !d), p.rest))
  }

  lemma SiblingStep<N>(p: Path<N>, t: Tree<N>)
    requires Deleting(p, t) && !IsRed(t) && p.Up? && IsRed(p.other)
    ensures Deleting(SiblingRotated(p), t) && !IsRed(SiblingRotated(p).other)
    ensures InOrder(Plug(SiblingRotated(p), t)) == InOrder(Plug(p, t))
  {
    var q := SiblingRotated(p);
    var after := Join(Black, p.dir, Join(Red, p.dir, t, p.node, Kid(p.other, p.dir)), p.other.node,
                      Kid(p.other, !p.dir));
    var before := Join(p.color, p.dir, t, p.node, p.other);
    Regroup3(InOrder(p.other.left), p.other.node, InOrder(p.other.right), p.node, InOrder(t));
    Regroup3(InOrder(t), p.node, InOrder(p.other.left), p.other.node, InOrder(p.other.right));
    SameOrder(p.rest, after, before);
  }

  /** A black sibling with black children turns red; the whole is then too light one level up. */
  function Lightened<N>(p: Path<N>, t: Tree<N>): Tree<N>
    requires p.Up?
  {
    Join(p.color, p.dir, t, p.node, Paint(p.other, Red))
  }

  lemma LightenStep<N>(p: Path<N>, t: Tree<N>)
    requires Deleting(p, t) && !IsRed(t) && p.Up?
    requires p.other.Node? && !IsRed(p.other) && !IsRed(p.other.left) && !IsRed(p.other.right)
    ensures Deleting(p.rest, Lightened(p, t))
    ensures InOrder(Plug(p.rest, Lightened(p, t))) == InOrder(Plug(p, t))
  {
    SameOrder(p.rest, Lightened(p, t), Join(p.color, p.dir, t, p.node, p.other));
  }

  /** The sibling after its inner red child has been rotated above it. */
  function InnerRotated<N>(w: Tree<N>, d: bool): Tree<N>
    requires w.Node? && Kid(w, d).Node?
  {
    var y := Kid(w, d);
    Join(Black, d, Kid(y, d), y.node, Join(Red, d, Kid(y, !d), w.node, Kid(w, !d)))
  }

  /** The sibling, with a red outer child, is rotated above the parent; this ends the deletion. */
  function OuterRotated<N>(p: Path<N>, t: Tree<N>, w: Tree<N>): Tree<N>
    requires p.Up? && w.Node?
  {
    var d := p.dir;
    Join(p.color, d, Join(Black, d, t, p.node, Kid(w, d)), w.node, Paint(Kid(w, !d), Black))
  }

  /** The sibling that the last rotation uses. */
  function Pivot<N>(p: Path<N>): Tree<N>
    requires p.Up? && p.other.Node? && (IsRed(Kid(p.other, !p.dir)) || IsRed(Kid(p.other, p.dir)))
  {
    if IsRed(Kid(p.other, !p.dir)) then p.other else InnerRotated(p.other, p.dir)
  }

  lemma PivotShape<N>(p: Path<N>)
    requires p.Up? && p.other.Node? && RedBlack(p.other) && !IsRed(p.other)
    requires IsRed(p.other.left) || IsRed(p.other.right)
    ensures
      var w, d := Pivot(p), p.dir;
      && InOrder(w) == InOrder(p.other)
      && w.Node? && RedBlack(w) && !IsRed(w) && IsRed(Kid(w, !d))
      && BlackHeight(w) == BlackHeight(p.other)
  {
    var w, d := p.other, p.dir;
    if !IsRed(Kid(w, !d)) {
      var y := Kid(w, d);
      assert RedBlack(y) && y.Node?;
      Regroup3(InOrder(Kid(w, !d)), w.node, InOrder(y.left), y.node, InOrder(y.right));
      Regroup3(InOrder(y.left), y.node, InOrder(y.right), w.node, InOrder(Kid(w, !d)));
    }
  }

  lemma OuterOrder<N>(p: Path<N>, t: Tree<N>, w: Tree<N>)
    requires p.Up? && w.Node?
    ensures InOrder(OuterRotated(p, t, w)) == InOrder(Join(p.color, p.dir, t, p.node, w))
  {
    Regroup3(InOrder(w.left), w.node, InOrder(w.right), p.node, InOrder(t));
    Regroup3(InOrder(t), p.node, InOrder(w.left), w.node, InOrder(w.right));
  }

  lemma PivotStep<N>(p: Path<N>, t: Tree<N>)
    requires Deleting(p, t) && !IsRed(t) && p.Up? && p.other.Node? && !IsRed(p.other)
    requires IsRed(p.other.left) || IsRed(p.other.right)
    ensures Balanced(Plug(p.rest, OuterRotated(p, t, Pivot(p))))
    ensures InOrder(Plug(p.rest, OuterRotated(p, t, Pivot(p)))) == InOrder(Plug(p, t))
  {
    var w := Pivot(p);
    var u := OuterRotated(p, t, w);
    PivotShape(p);
    OuterOrder(p, t, w);
    SameOrder(p.rest, u, Join(p.color, p.dir, t, p.node, p.other));
    var d := p.dir;
    assert RedBlack(t) && RedBlack(Kid(w, d)) && RedBlack(Kid(w, !d));
    JoinRedBlack(Black, d, t, p.node, Kid(w, d));
    JoinRedBlack(p.color, d, Join(Black, d, t, p.node, Kid(w, d)), w.node, Paint(Kid(w, !d), Black));
    PlugBalanced(p.rest, u);
  }

  lemma DeleteDone<N>(t: Tree<N>)
    requires Deleting(Top, t) && !IsRed(t)
    ensures Balanced(t)
  {
  }

  // ----- taking a node out

  /** The path `q` continued above by `p`. */
  function Over<N>(q: Path<N>, p: Path<N>): Path<N> {
    match q
    case Top => p
    case Up(n, d, c, o, rest) => Up(n, d, c, o, Over(rest, p))
  }

  lemma {:induction false} PlugOver<N>(q: Path<N>, p: Path<N>, t: Tree<N>)
    ensures Plug(Over(q, p), t) == Plug(p, Plug(q, t))
  {
    match q
    case Top =>
    case Up(n, d, c, o, rest) => PlugOver(rest, p, Join(c, d, t, n, o));
  }

  /** `q` goes left all the way. */
  predicate Leftmost<N>(q: Path<N>) {
    q.Up? ==> !q.dir && Leftmost(q.rest)
  }

  lemma {:induction false} LeftmostOrder<N>(q: Path<N>, t: Tree<N>)
    requires Leftmost(q)
    ensures InOrder(Plug(q, t)) == InOrder(t) + After(q)
  {
    PlugInOrder(q, t);
    LeftmostBefore(q);
  }

  lemma LeftmostBefore<N>(q: Path<N>)
    requires Leftmost(q)
    ensures Before(q) == []
  {
  }

  /** Who sits in a node of the path does not matter to the balance below it. */
  lemma {:induction false} AcceptsRenamed<N>(q: Path<N>, p: Path<N>, n: N, h: nat)
    requires p.Up? && Accepts(Over(q, p), h)
    ensures Accepts(Over(q, p.(node := n)), h)
  {
    if q.Up? {
      AcceptsRenamed(q.rest, p, n, h + Weight(q.color));
      assert Over(q.rest, p).Up? && Over(q.rest, p.(node := n)).Up?;
      assert Over(q.rest, p).color == Over(q.rest, p.(node := n)).color;
    }
  }

  /** Removing a node with at most one child: nothing is lost if it was red. */
  lemma Unhooked<N>(p: Path<N>, t: Tree<N>, x: Tree<N>)
    requires t.Node? && RedBlack(t) && !Clash(p, t) && Accepts(p, BlackHeight(t))
    requires (t.left.Leaf? && x == t.right) || (t.right.Leaf? && x == t.left)
    ensures if t.color == Black then Deleting(p, x) else Balanced(Plug(p, x))
  {
    assert BlackHeight(t.left) == BlackHeight(t.right) == 0;
    if t.color == Red {
      PlugBalanced(p, x);
    }
  }

  // ----- how deep a balanced tree can be

  function Height<N>(t: Tree<N>): nat {
    if t.Leaf? then 0 else 1 + Max(Height(t.left), Height(t.right))
  }

  function Max(a: nat, b: nat): nat {
    if a < b then b else a
  }

  function Pow2(n: nat): nat {
    if n == 0 then 1 else 2 * Pow2(n - 1)
  }

  lemma {:induction false} HeightBound<N>(t: Tree<N>)
    requires RedBlack(t)
    ensures Height(t) <= 2 * BlackHeight(t) + (if IsRed(t) then 1 else 0)
    ensures Pow2(BlackHeight(t)) <= |InOrder(t)| + 1
  {
    if t.Node? {
      HeightBound(t.left);
      HeightBound(t.right);
    }
  }

  lemma {:induction false} Pow2Monotone(m: nat, n: nat)
    requires m <= n
    ensures Pow2(m) <= Pow2(n)
    decreases n
  {
    if m < n {
      Pow2Monotone(m, n - 1);
    }
  }

  /** A balanced tree of fewer than 2^h - 1 nodes has height below 2h. */
  lemma Shallow<N>(t: Tree<N>, h: nat)
    requires Balanced(t) && |InOrder(t)| + 1 < Pow2(h)
    ensures Height(t) <= 2 * (h - 1)
  {
    HeightBound(t);
    if h <= BlackHeight(t) {
      Pow2Monotone(h, BlackHeight(t));
      assert false;
    }
  }

  lemma {:induction false} PlugHeight<N>(p: Path<N>, t: Tree<N>)
    ensures Depth(p) + Height(t) <= Height(Plug(p, t))
  {
    match p
    case Top =>
    case Up(n, d, c, o, rest) => PlugHeight(rest, Join(c, d, t, n, o));
  }
}
