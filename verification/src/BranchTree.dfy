/** The routines of src/branch.c that change the branch tree in place. */
module BranchTree {
  import opened Options
  import opened Sequences
  import opened Forest
  import opened Sight

  class BranchTree {
    /** What the branch pointers lead to. */
    var branches: Store
    ghost var chain: Chains

    ghost predicate Valid()
      reads this
    {
      Trees(branches, chain)
    }

    constructor (s: Store, ghost c: Chains)
      ensures branches == s && chain == c
    {
      branches, chain := s, c;
    }

    /** src/branch.c:225-232: adds `n` to the counters of all branches above `b`. */
    method Increase(b: Ref, n: int)
      requires Chained(branches, chain) && b in branches
      modifies this`branches
      ensures branches == Increased(old(branches), WayUp(old(branches), chain, b), n)
    {
      ghost var s, l, i := branches, chain[b], 1;
      assert ChainedAt(s, chain, b) && l[1..] == WayUp(s, chain, b);
      assert Increased(s, l[1..1], n) == s;
      ChainNoDup(s, chain, b);
      ChainStep(s, chain, b, 0);
      var up := branches[b].parent;
      while up.Some?
        invariant 1 <= i <= |l| && up == (if i < |l| then Some(l[i]) else None)
        invariant branches == Increased(s, l[1..i], n)
        decreases |l| - i
      {
        ChainStep(s, chain, b, i);
        IncreasedOnce(s, l, i, n);
        branches := branches[up.value := branches[up.value].(total := branches[up.value].total + n)];
        up := branches[up.value].parent;
        i := i + 1;
      }
      assert l[1..i] == l[1..];
    }

    /** The loop of src/branch.c:79-85, shared by src/vbranch.c:78-84: a copy of the list with `b` at `pos`. */
    static method ListWith(l: seq<Ref>, b: Ref, pos: nat) returns (r: seq<Ref>)
      requires pos <= |l|
      ensures r == InsertedAt(l, pos, b)
    {
      r := [];
      var n, k := 0, 0;
      while n < |l| + 1
        invariant 0 <= n <= |l| + 1 && k == (if n <= pos then n else n - 1)
        invariant r == InsertedAt(l, pos, b)[..n]
      {
        if n != pos {
          r := r + [l[k]];
          k := k + 1;
        } else {
          r := r + [b];
        }
        n := n + 1;
      }
    }

    /** The loop of src/branch.c:107-119, shared by src/vbranch.c:106-111: a copy of the list without `b`. */
    static method ListWithout(l: seq<Ref>, b: Ref) returns (r: seq<Ref>)
      ensures r == Without(l, b)
    {
      r := [];
      var n := 0;
      while n < |l|
        invariant 0 <= n <= |l| && r + Without(l[n..], b) == Without(l, b)
      {
        assert l[n..][1..] == l[n + 1..];
        if l[n] != b {
          r := r + [l[n]];
        }
        n := n + 1;
      }
    }

    /** src/branch.c:69-93 */
    method Link(b: Ref, p: Ref, pos: int)
      requires b in branches && p in branches
      modifies this`branches
      ensures branches == LinkedTo(old(branches), b, p, pos)
    {
      branches := branches[b := branches[b].(parent := Some(p))];
      var at := Clamp(pos, |branches[p].kids|);
      var childs := ListWith(branches[p].kids, b, at);
      branches := branches[p := branches[p].(kids := childs)];
    }

    /** src/branch.c:109-132 */
    method Unlink(b: Ref, p: Ref)
      requires b in branches && p in branches
      modifies this`branches
      ensures branches == UnlinkedFrom(old(branches), b, p)
    {
      var childs := ListWithout(branches[p].kids, b);
      branches := branches[p := branches[p].(kids := childs)];
      branches := branches[b := branches[b].(parent := None)];
    }

    /** src/branch.c:65-98: the tree rooted at `b` becomes a child of `p`, at the end if there is no position `pos`. */
    method Add(b: Ref, p: Ref, pos: int)
      requires Valid() && b in branches && branches[b].parent.None? && p in branches && b !in chain[p]
      modifies this
      ensures Valid() && branches == Attached(old(branches), old(chain), b, p, pos)
      ensures chain == AttachedChains(old(chain), b, p)
      ensures p in branches && Placed(old(branches)[p].kids, branches[p].kids, b, pos)
    {
      AttachedTrees(branches, chain, b, p, pos);
      assert ChainedAt(branches, chain, p);
      AttachedShape(branches, chain, b, p, pos);
      ClampPlaced(branches[p].kids, b, pos);
      Join(b, p, pos);
    }

    method Join(b: Ref, p: Ref, pos: int)
      requires Chained(branches, chain) && b in branches && branches[b].parent.None? && p in branches && b !in chain[p]
      modifies this
      ensures branches == Attached(old(branches), old(chain), b, p, pos)
      ensures chain == AttachedChains(old(chain), b, p)
    {
      AttachSteps(branches, chain, b, p, pos);
      Link(b, p, pos);
      chain := AttachedChains(chain, b, p);
      Increase(b, branches[b].total + 1);
    }

    /** src/branch.c:101-135: `b` leaves its parent and is the root of a tree of its own. */
    method Detach(b: Ref)
      requires Valid() && b in branches && branches[b].parent.Some?
      modifies this
      ensures Valid() && old(branches)[b].parent.value in old(branches) && old(branches)[b].parent.value in old(chain)
      ensures branches == Detached(old(branches), old(chain), b)
      ensures chain == DetachedChains(old(chain), b)
      ensures
        var p := old(branches)[b].parent.value;
        p in branches && TakenOut(old(branches)[p].kids, branches[p].kids, b)
    {
      DetachedTrees(branches, chain, b);
      DetachedPlace(branches, chain, b);
      Part(b);
    }

    method Part(b: Ref)
      requires Chained(branches, chain) && b in branches && branches[b].parent.Some?
      modifies this
      ensures old(branches)[b].parent.value in old(branches) && old(branches)[b].parent.value in old(chain)
      ensures branches == Detached(old(branches), old(chain), b)
      ensures chain == DetachedChains(old(chain), b)
    {
      DetachSteps(branches, chain, b);
      var p := branches[b].parent.value;
      Increase(b, -branches[b].total - 1);
      Unlink(b, p);
      chain := DetachedChains(chain, b);
    }

    /** src/branch.c:234-244: every branch under `b` is counted by everything above it. */
    method Calculate(b: Ref)
      requires Linked(branches) && Chained(branches, chain) && b in branches
      modifies this`branches
      ensures branches == Gained(old(branches), chain, Under(chain, b))
      decreases |Under(chain, b)|, 2
    {
      ghost var s := branches;
      CountedFamily(s, chain, b);
      var n := |branches[b].kids|;
      Increase(b, 1);
      CalculateChildren(b, n, s);
    }

    /** src/branch.c:238-242 */
    method CalculateChildren(b: Ref, n: nat, ghost s: Store)
      requires Linked(s) && Chained(s, chain) && b in s && n == |s[b].kids|
      requires branches == Gained(s, chain, Family(s, chain, b, 0))
      modifies this`branches
      ensures branches == Gained(s, chain, Family(s, chain, b, n))
      decreases |Under(chain, b)|, 1
    {
      ghost var c := chain;
      var i := 0;
      while i < n
        invariant 0 <= i <= n && chain == c
        invariant branches == Gained(s, c, Family(s, c, b, i))
      {
        CalculateChild(b, i, s);
        i := i + 1;
      }
    }

    /** src/branch.c:240 */
    method CalculateChild(b: Ref, i: nat, ghost s: Store)
      requires Linked(s) && Chained(s, chain) && b in s && i < |s[b].kids|
      requires branches == Gained(s, chain, Family(s, chain, b, i))
      modifies this`branches
      ensures branches == Gained(s, chain, Family(s, chain, b, i + 1))
      decreases |Under(chain, b)|, 0
    {
      FamilyGrows(s, chain, b, i);
      GainedShape(s, chain, Family(s, chain, b, i));
      SmallerUnder(chain, s[b].kids[i], b);
      Calculate(branches[b].kids[i]);
      GainedTwice(s, chain, Family(s, chain, b, i), Under(chain, s[b].kids[i]));
    }

    /** src/branch.c:148-165: the position of a branch among the children of its parent, or -1. */
    method GetPos(b: Ref) returns (pos: int)
      requires b in branches && branches[b].parent.Some? && branches[b].parent.value in branches
      ensures pos == Position(branches, b)
    {
      pos := FindPos(branches[branches[b].parent.value].kids, b);
    }

    static method FindPos(kids: seq<Ref>, b: Ref) returns (pos: int)
      ensures pos == PosIn(kids, b)
    {
      var n := 0;
      while n < |kids|
        invariant 0 <= n <= |kids| && b !in kids[..n]
        invariant PosIn(kids, b) == if b in kids[n..] then n + PosIn(kids[n..], b) else -1
      {
        assert kids[n..][1..] == kids[n + 1..];
        assert kids == kids[..n] + kids[n..];
        if kids[n] == b {
          return n;
        }
        n := n + 1;
      }
      return -1;
    }
  }

  // ----- branch_calculate

  /** The branches of `u` that lie properly below `x`. */
  ghost function Inferior(c: Chains, u: set<Ref>, x: Ref): set<Ref> {
    set y | y in u && y in c && y != x && x in c[y]
  }

  /** Every branch of `u` has been counted once by everything above it. */
  ghost function Gained(s: Store, c: Chains, u: set<Ref>): Store {
    map x | x in s :: s[x].(total := s[x].total + |Inferior(c, u, x)|)
  }

  lemma SmallerUnder(c: Chains, k: Ref, b: Ref)
    requires Under(c, k) < Under(c, b)
    ensures |Under(c, k)| < |Under(c, b)|
  {
    assert |Under(c, b) - Under(c, k)| == |Under(c, b)| - |Under(c, k)|;
  }

  lemma GainedTwice(s: Store, c: Chains, u: set<Ref>, v: set<Ref>)
    requires u !! v
    ensures Gained(Gained(s, c, u), c, v) == Gained(s, c, u + v)
  {
    forall x | x in s ensures |Inferior(c, u + v, x)| == |Inferior(c, u, x)| + |Inferior(c, v, x)| {
      assert Inferior(c, u + v, x) == Inferior(c, u, x) + Inferior(c, v, x);
    }
  }

  lemma GainedShape(s: Store, c: Chains, u: set<Ref>)
    requires Linked(s) && Chained(s, c)
    ensures Linked(Gained(s, c, u)) && Chained(Gained(s, c, u), c)
  {
    var t := Gained(s, c, u);
    forall x | x in t ensures LinkedAt(t, x) && ChainedAt(t, c, x) {
      assert LinkedAt(s, x) && ChainedAt(s, c, x);
    }
  }

  /** branch_increase(b, 1) counts `b`. */
  lemma IncreasedGained(s: Store, c: Chains, b: Ref)
    requires Chained(s, c) && b in s
    ensures Increased(s, WayUp(s, c, b), 1) == Gained(s, c, {b})
  {
    assert ChainedAt(s, c, b);
    if s[b].parent.Some? {
      Acyclic(s, c, b);
    }
    forall x | x in s ensures |Inferior(c, {b}, x)| == if x in WayUp(s, c, b) then 1 else 0 {
      assert Inferior(c, {b}, x) == if x in WayUp(s, c, b) then {b} else {};
    }
  }

  /** `b` and everything under its first `n` children. */
  ghost function Family(s: Store, c: Chains, b: Ref, n: nat): set<Ref>
    requires b in s && n <= |s[b].kids|
  {
    set y | y in c && (y == b || exists j :: 0 <= j < n && s[b].kids[j] in c[y])
  }

  lemma FamilyGrows(s: Store, c: Chains, b: Ref, n: nat)
    requires Linked(s) && Chained(s, c) && b in s && n < |s[b].kids|
    ensures Family(s, c, b, n + 1) == Family(s, c, b, n) + Under(c, s[b].kids[n])
    ensures Family(s, c, b, n) !! Under(c, s[b].kids[n])
    ensures s[b].kids[n] in s && Under(c, s[b].kids[n]) < Under(c, b)
  {
    var k := s[b].kids[n];
    assert LinkedAt(s, b) && ChainedAt(s, c, b);
    assert ChainedAt(s, c, k);
    Acyclic(s, c, k);
    assert b in Under(c, b) && b !in Under(c, k);
    forall y | y in Under(c, k) ensures y in Under(c, b) && y !in Family(s, c, b, n) {
      Transitive(s, c, y, k, b);
      forall j | 0 <= j < n ensures s[b].kids[j] !in c[y] {
        if s[b].kids[j] in c[y] {
          Cousins(s, c, y, k, s[b].kids[j]);
        }
      }
    }
  }

  /** A way up passes at most one child of a branch. */
  lemma {:induction false} Cousins(s: Store, c: Chains, y: Ref, k: Ref, l: Ref)
    requires Chained(s, c) && y in s && k in c[y] && l in c[y] && k in s && l in s
    requires s[k].parent.Some? && s[k].parent == s[l].parent
    ensures k == l
    decreases |c[y]|
  {
    assert ChainedAt(s, c, y) && ChainedAt(s, c, k) && ChainedAt(s, c, l);
    if k != y && l != y {
      Cousins(s, c, s[y].parent.value, k, l);
    } else if k != l {
      Acyclic(s, c, y);
      if k == y {
        Suffix(s, c, s[y].parent.value, l);
      } else {
        Suffix(s, c, s[y].parent.value, k);
      }
    }
  }

  lemma {:induction false} FamilyAll(s: Store, c: Chains, b: Ref)
    requires Linked(s) && Chained(s, c) && b in s
    ensures Family(s, c, b, 0) == {b} && Family(s, c, b, |s[b].kids|) == Under(c, b)
  {
    assert ChainedAt(s, c, b) && LinkedAt(s, b);
    forall y | y in c ensures y in Family(s, c, b, |s[b].kids|) <==> y in Under(c, b) {
      if y in Family(s, c, b, |s[b].kids|) && y != b {
        var j :| 0 <= j < |s[b].kids| && s[b].kids[j] in c[y];
        assert ChainedAt(s, c, s[b].kids[j]);
        Transitive(s, c, y, s[b].kids[j], b);
      }
      if y in Under(c, b) && y != b {
        EnteredThrough(s, c, y, b);
      }
    }
  }

  lemma CountedFamily(s: Store, c: Chains, b: Ref)
    requires Linked(s) && Chained(s, c) && b in s
    ensures Increased(s, WayUp(s, c, b), 1) == Gained(s, c, Family(s, c, b, 0))
    ensures Gained(s, c, Family(s, c, b, |s[b].kids|)) == Gained(s, c, Under(c, b))
  {
    IncreasedGained(s, c, b);
    FamilyAll(s, c, b);
  }

  /** Counting from zero gives every branch the number of branches below it. */
  lemma GainedFromZero(s: Store, c: Chains, root: Ref)
    requires Linked(s) && Chained(s, c) && Under(c, root) == s.Keys && (forall x :: x in s ==> s[x].total == 0)
    ensures Trees(Gained(s, c, Under(c, root)), c)
  {
    GainedShape(s, c, Under(c, root));
    forall x | x in s ensures |Inferior(c, s.Keys, x)| == |Under(c, x)| - 1 {
      assert ChainedAt(s, c, x);
      assert Inferior(c, s.Keys, x) == Under(c, x) - {x};
    }
    var g := Gained(s, c, Under(c, root));
    forall x | x in g ensures CountedAt(g, c, x) {
    }
  }

  function LinkedTo(s: Store, b: Ref, p: Ref, pos: int): Store
    requires b in s && p in s
  {
    var t := s[b := s[b].(parent := Some(p))];
    t[p := t[p].(kids := InsertedAt(s[p].kids, Clamp(pos, |s[p].kids|), b))]
  }

  function UnlinkedFrom(s: Store, b: Ref, p: Ref): Store
    requires b in s && p in s
  {
    var t := s[p := s[p].(kids := Without(s[p].kids, b))];
    t[b := t[b].(parent := None)]
  }

  lemma AttachSteps(s: Store, c: Chains, b: Ref, p: Ref, pos: int)
    requires Chained(s, c) && b in s && s[b].parent.None? && p in s && b !in c[p]
    ensures
      var t, d := LinkedTo(s, b, p, pos), AttachedChains(c, b, p);
      Chained(t, d) && t[b].total == s[b].total
          && Increased(t, WayUp(t, d, b), t[b].total + 1) == Attached(s, c, b, p, pos)
  {
    assert ChainedAt(s, c, p);
    LinkHooks(s, b, p, pos);
    HookedChained(s, LinkedTo(s, b, p, pos), c, b, p, pos);
    LinkIncrease(s, c[p], b, p, pos);
  }

  lemma LinkHooks(s: Store, b: Ref, p: Ref, pos: int)
    requires b in s && p in s && b != p
    ensures Hooked(s, LinkedTo(s, b, p, pos), b, p, pos) && LinkedTo(s, b, p, pos)[b].total == s[b].total
  {
  }

  lemma LinkIncrease(s: Store, up: seq<Ref>, b: Ref, p: Ref, pos: int)
    requires b in s && p in s && b !in up && b != p
    ensures Increased(LinkedTo(s, b, p, pos), up, s[b].total + 1) == AttachedAlong(s, up, b, p, pos)
  {
  }

  lemma DetachSteps(s: Store, c: Chains, b: Ref)
    requires Chained(s, c) && b in s && s[b].parent.Some?
    ensures s[b].parent.value in s && s[b].parent.value in c
    ensures UnlinkedFrom(Increased(s, WayUp(s, c, b), -s[b].total - 1), b, s[b].parent.value) == Detached(s, c, b)
  {
    assert ChainedAt(s, c, b);
    Acyclic(s, c, b);
    assert ChainedAt(s, c, s[b].parent.value);
  }

  /** Along a way up, each branch is the parent of the one before it. */
  lemma {:induction false} ChainStep(s: Store, c: Chains, x: Ref, i: nat)
    requires Chained(s, c) && x in s && i < |c[x]|
    ensures c[x][i] in s && s[c[x][i]].parent == if i + 1 < |c[x]| then Some(c[x][i + 1]) else None
    decreases i
  {
    assert ChainedAt(s, c, x);
    if i > 0 {
      ChainStep(s, c, s[x].parent.value, i - 1);
    } else if s[x].parent.Some? {
      assert ChainedAt(s, c, s[x].parent.value);
    }
  }

  lemma {:induction false} ChainNoDup(s: Store, c: Chains, x: Ref)
    requires Chained(s, c) && x in s
    ensures NoDup(c[x]) && c[x] != []
    decreases |c[x]|
  {
    assert ChainedAt(s, c, x);
    if s[x].parent.Some? {
      Acyclic(s, c, x);
      ChainNoDup(s, c, s[x].parent.value);
    }
  }

  lemma IncreasedOnce(s: Store, l: seq<Ref>, i: nat, n: int)
    requires NoDup(l) && 1 <= i < |l| && l[i] in s
    ensures
      var t := Increased(s, l[1..i], n);
      && l[i] in t && t[l[i]] == s[l[i]]
      && Increased(s, l[1..i + 1], n) == t[l[i] := s[l[i]].(total := s[l[i]].total + n)]
  {
    assert l[1..i + 1] == l[1..i] + [l[i]];
  }
}
