/**
 The head file of src/io.c: one record for every slot that a branch was ever given, patched in place
 as the tree changes.
 */
module HeadFile {
  import opened Options
  import opened Sequences
  import opened Forest
  import opened Overlay
  import opened Sight

  /** src/io.h:26-31; `pos` and `kids` have 16 bits. */
  datatype Head = Head(id: nat, parent: nat, pos: nat, kids: nat)

  const BLANK := Head(0, 0, 0, 0)

  const BIT16 := 0x1_0000

  function ParentId(s: Store, b: Ref): nat
    requires b in s
  {
    IdOf(s, s[b].parent)
  }

  function ParentPos(s: Store, b: Ref): int
    requires b in s
  {
    if s[b].parent.Some? && s[b].parent.value in s then Position(s, b) else 0
  }

  /** The record of a branch: src/io.c:62-73, and 13-23 for the walk over the whole tree. */
  function HeadOf(s: Store, b: Ref): Head
    requires b in s
  {
    Head(s[b].id, ParentId(s, b), ParentPos(s, b) % BIT16, |s[b].kids| % BIT16)
  }

  /** Every branch has a slot of its own. */
  ghost predicate Slotted(s: Store, n: nat) {
    && (forall b :: b in s ==> s[b].slot < n)
    && (forall a, b :: a in s && b in s && s[a].slot == s[b].slot ==> a == b)
  }

  ghost predicate Free(s: Store, i: nat) {
    forall b :: b in s ==> s[b].slot != i
  }

  /** The file is up to date except for the records of the branches in `dirty`. */
  ghost predicate Clean(file: seq<Head>, s: Store, dirty: set<Ref>) {
    && Slotted(s, |file|)
    && (forall b {:trigger CleanAt(file, s, b)} :: b in s && b !in dirty ==> CleanAt(file, s, b))
    && (forall i {:trigger Free(s, i)} :: 0 <= i < |file| && Free(s, i) ==> file[i] == BLANK)
  }

  ghost predicate CleanAt(file: seq<Head>, s: Store, b: Ref)
    requires b in s
  {
    s[b].slot < |file| && file[s[b].slot] == HeadOf(s, b)
  }

  /** The file is what a full walk over the tree writes. */
  ghost predicate IsImage(file: seq<Head>, s: Store) {
    Clean(file, s, {})
  }

  /** There is only one such file, slot for slot. */
  lemma ImageUnique(f: seq<Head>, g: seq<Head>, s: Store)
    requires IsImage(f, s) && IsImage(g, s) && |f| == |g|
    ensures f == g
  {
    forall i | 0 <= i < |f| ensures f[i] == g[i] {
      if Free(s, i) {
        assert f[i] == BLANK;
      } else {
        var b :| b in s && s[b].slot == i;
        assert CleanAt(f, s, b) && CleanAt(g, s, b);
      }
    }
  }

  /** Writing one record. */
  lemma Saved(file: seq<Head>, s: Store, dirty: set<Ref>, b: Ref)
    requires Clean(file, s, dirty) && b in s && s[b].slot < |file|
    ensures Clean(file[s[b].slot := HeadOf(s, b)], s, dirty - {b})
  {
    var f := file[s[b].slot := HeadOf(s, b)];
    forall x | x in s && x !in dirty - {b} ensures CleanAt(f, s, x) {
      assert x != b ==> CleanAt(file, s, x);
    }
  }

  // ----- positions in child lists

  lemma {:induction false} PosInAt(l: seq<Ref>, i: nat)
    requires NoDup(l) && i < |l|
    ensures PosIn(l, l[i]) == i
  {
    if i > 0 {
      assert l[1..][i - 1] == l[i];
      assert NoDup(l[1..]);
      PosInAt(l[1..], i - 1);
    }
  }

  lemma {:induction false} PosInBounds(l: seq<Ref>, b: Ref)
    requires b in l
    ensures 0 <= PosIn(l, b) < |l| && l[PosIn(l, b)] == b
  {
    if l[0] != b {
      PosInBounds(l[1..], b);
    }
  }

  /** The branches from position `from` of the child list of `p` on. */
  function From(s: Store, p: Ref, from: nat): set<Ref>
    requires p in s
  {
    set i | from <= i < |s[p].kids| :: s[p].kids[i]
  }

  lemma SamePos(l: seq<Ref>, m: seq<Ref>, i: nat)
    requires NoDup(l) && NoDup(m) && i < |l| && i < |m| && l[i] == m[i]
    ensures PosIn(l, l[i]) == PosIn(m, l[i])
  {
    PosInAt(l, i);
    PosInAt(m, i);
  }

  /** The record of `x` is the same if its child list is as long as before and its own place is the same. */
  lemma SameHead(s: Store, t: Store, x: Ref)
    requires SameNames(s, t) && x in t && |t[x].kids| == |s[x].kids| && t[x].parent == s[x].parent
    requires s[x].parent.Some? ==>
               s[x].parent.value in t && PosIn(t[s[x].parent.value].kids, x) == PosIn(s[s[x].parent.value].kids, x)
    ensures HeadOf(t, x) == HeadOf(s, x)
  {
  }

  /** The tree after `b` has moved to below `q`. */
  ghost function Moved(s: Store, c: Chains, b: Ref, q: Ref, pos: int): Store
    requires b in s && s[b].parent.Some? && s[b].parent.value in s && s[b].parent.value in c && b in c
    requires q in s && q in c
  {
    Attached(Detached(s, c, b), DetachedChains(c, b), b, q, pos)
  }

  lemma MovedTrees(s: Store, c: Chains, root: Ref, b: Ref, q: Ref, pos: int)
    requires Trees(s, c) && CanMove(s, c, root, b, q)
    ensures Trees(Moved(s, c, b, q, pos), MovedChains(c, b, q))
    ensures DetachedChains(c, b)[q] == c[q]
  {
    assert ChainedAt(s, c, b) && ChainedAt(s, c, q);
    Acyclic(s, c, b);
    DetachedTrees(s, c, b);
    DetachedShape(s, c, b);
    AttachedTrees(Detached(s, c, b), DetachedChains(c, b), b, q, pos);
  }

  function Rejoined(s: Store, b: Ref, q: Ref): seq<Ref>
    requires b in s && q in s
  {
    if s[b].parent == Some(q) then Without(s[q].kids, b) else s[q].kids
  }

  /** The child lists after a move. */
  lemma MovedKids(s: Store, c: Chains, root: Ref, b: Ref, q: Ref, pos: int)
    requires Trees(s, c) && CanMove(s, c, root, b, q)
    ensures
      var t, p, l := Moved(s, c, b, q, pos), s[b].parent.value, Rejoined(s, b, q);
      && SameNames(s, t) && t[b].parent == Some(q)
         && (forall x {:trigger t[x]} :: x in s && x != b ==> t[x].parent == s[x].parent)
      && t[q].kids == InsertedAt(l, Clamp(pos, |l|), b)
      && (p != q ==> t[p].kids == Without(s[p].kids, b))
      && (forall x {:trigger t[x]} :: x in s && x != p && x != q ==> t[x].kids == s[x].kids)
  {
    assert ChainedAt(s, c, b) && ChainedAt(s, c, q);
    Acyclic(s, c, b);
    DetachedShape(s, c, b);
    AttachedShape(Detached(s, c, b), DetachedChains(c, b), b, q, pos);
  }

  lemma MovedRewired(s: Store, c: Chains, root: Ref, b: Ref, q: Ref, pos: int)
    requires Trees(s, c) && CanMove(s, c, root, b, q)
    ensures Rewired(s, Moved(s, c, b, q, pos), b, q)
  {
    var t, p, l := Moved(s, c, b, q, pos), s[b].parent.value, Rejoined(s, b, q);
    MovedKids(s, c, root, b, q, pos);
    WithoutMembers(s[p].kids, b);
    InsertedMembers(l, Clamp(pos, |l|), b);
    forall x, k | x in s ensures k in t[x].kids <==> (k in s[x].kids && k != b) || (x == q && k == b) {
      assert LinkedAt(s, x);
    }
  }

  /** What src/io.c:162-172 writes after a move. */
  ghost function MoveDirty(t: Store, b: Ref, p: Ref, q: Ref, at: nat, was: nat): set<Ref>
    requires p in t && q in t
  {
    {b, p, q} + From(t, q, at + 1) + From(t, p, was)
  }

  /** Before the place of `b`, positions do not change when `b` is taken out or put in. */
  lemma WithoutPlace(l: seq<Ref>, b: Ref, x: Ref)
    requires NoDup(l) && b in l && x in Without(l, b)
    requires forall i :: 0 <= i < |Without(l, b)| && PosIn(l, b) <= i ==> Without(l, b)[i] != x
    ensures PosIn(Without(l, b), x) == PosIn(l, x)
  {
    PosInBounds(l, b);
    WithoutSplit(l, PosIn(l, b));
    WithoutMembers(l, b);
    var i :| 0 <= i < |Without(l, b)| && Without(l, b)[i] == x;
    SamePos(l, Without(l, b), i);
  }

  lemma InsertedIndex(l: seq<Ref>, at: nat, b: Ref)
    requires at <= |l|
    ensures forall i {:trigger l[i]} :: 0 <= i < |l| ==> l[i] == InsertedAt(l, at, b)[if i < at then i else i + 1]
  {
  }

  lemma InsertedPlace(l: seq<Ref>, at: nat, b: Ref, x: Ref)
    requires NoDup(l) && b !in l && at <= |l| && x in l
    requires forall i :: at < i <= |l| ==> InsertedAt(l, at, b)[i] != x
    ensures PosIn(InsertedAt(l, at, b), x) == PosIn(l, x) < at
  {
    InsertedMembers(l, at, b);
    var i :| 0 <= i < |l| && l[i] == x;
    InsertedIndex(l, at, b);
    SamePos(l, InsertedAt(l, at, b), i);
    PosInAt(l, i);
  }

  /** A move within one list. */
  lemma MovedInPlace(l: seq<Ref>, at: nat, b: Ref, x: Ref)
    requires NoDup(l) && b in l && at <= |Without(l, b)| && x in l && x != b
    requires
      var m := InsertedAt(Without(l, b), at, b);
      && (forall i :: at < i < |m| ==> m[i] != x)
      && (forall i :: 0 <= i < |m| && PosIn(l, b) <= i ==> m[i] != x)
    ensures PosIn(InsertedAt(Without(l, b), at, b), x) == PosIn(l, x)
  {
    var w := Without(l, b);
    WithoutMembers(l, b);
    PosInBounds(l, b);
    InsertedPlace(w, at, b, x);
    PosInBounds(w, x);
    var k := PosIn(w, x);
    assert InsertedAt(w, at, b)[k] == x;
    forall i | PosIn(l, b) <= i < |w| ensures w[i] != x {
      if w[i] == x {
        PosInAt(w, i);
      }
    }
    WithoutPlace(l, b, x);
  }

  lemma MovedPlace(s: Store, t: Store, b: Ref, p: Ref, q: Ref, pos: int, x: Ref)
    requires Linked(s) && b in s && p in s && q in s && s[b].parent == Some(p) && SameNames(s, t)
    requires x in s && x != b && s[x].parent.Some? && s[x].parent.value in s
    requires t[q].kids == InsertedAt(Rejoined(s, b, q), Clamp(pos, |Rejoined(s, b, q)|), b)
    requires p != q ==> t[p].kids == Without(s[p].kids, b)
    requires forall y {:trigger t[y]} :: y in s && y != p && y != q ==> t[y].kids == s[y].kids
    requires PosIn(s[p].kids, b) >= 0
    requires x !in From(t, q, Clamp(pos, |Rejoined(s, b, q)|) + 1) && x !in From(t, p, PosIn(s[p].kids, b))
    ensures PosIn(t[s[x].parent.value].kids, x) == PosIn(s[s[x].parent.value].kids, x)
  {
    var l, y := Rejoined(s, b, q), s[x].parent.value;
    assert LinkedAt(s, x) && LinkedAt(s, y) && LinkedAt(s, b) && LinkedAt(s, p) && LinkedAt(s, q);
    WithoutMembers(s[p].kids, b);
    assert forall i :: Clamp(pos, |l|) < i < |t[q].kids| ==> t[q].kids[i] != x;
    assert forall i :: PosIn(s[p].kids, b) <= i < |t[p].kids| ==> t[p].kids[i] != x;
    if y == q && p == q {
      MovedInPlace(s[p].kids, Clamp(pos, |l|), b, x);
    } else if y == q {
      InsertedPlace(l, Clamp(pos, |l|), b, x);
    } else if y == p {
      WithoutPlace(s[p].kids, b, x);
    }
  }

  lemma MovedClean(file: seq<Head>, s: Store, c: Chains, root: Ref, b: Ref, q: Ref, pos: int)
    requires Trees(s, c) && CanMove(s, c, root, b, q) && IsImage(file, s)
    ensures Position(s, b) >= 0 && Moved(s, c, b, q, pos).Keys == s.Keys
    ensures
      var t, p, l := Moved(s, c, b, q, pos), s[b].parent.value, Rejoined(s, b, q);
      Clean(file, t, MoveDirty(t, b, p, q, Clamp(pos, |l|), Position(s, b)))
  {
    var t, p, l := Moved(s, c, b, q, pos), s[b].parent.value, Rejoined(s, b, q);
    MovedKids(s, c, root, b, q, pos);
    MovedTrees(s, c, root, b, q, pos);
    assert LinkedAt(s, b);
    PosInBounds(s[p].kids, b);
    var dirty := MoveDirty(t, b, p, q, Clamp(pos, |l|), Position(s, b));
    forall x | x in t && x !in dirty ensures CleanAt(file, t, x) {
      assert CleanAt(file, s, x);
      if s[x].parent.Some? {
        assert LinkedAt(s, x);
        MovedPlace(s, t, b, p, q, pos, x);
      }
      SameHead(s, t, x);
    }
    FreeSame(file, s, t);
  }

  lemma FreeSame(file: seq<Head>, s: Store, t: Store)
    requires Clean(file, s, {}) && SameNames(s, t) && s.Keys == t.Keys
    ensures Slotted(t, |file|)
    ensures forall i {:trigger Free(t, i)} :: 0 <= i < |file| && Free(t, i) ==> file[i] == BLANK
  {
    forall i | 0 <= i < |file| && Free(t, i) ensures file[i] == BLANK {
      assert forall b :: b in s ==> b in t && s[b].slot == t[b].slot;
      assert Free(s, i);
    }
  }

  /** The tree after the new branch `n` was inserted below `q`. */
  ghost function Grown(s: Store, c: Chains, n: Ref, nb: Branch, q: Ref, pos: int): Store
    requires q in s && q in c && n !in c
  {
    Attached(Lone(s, n, nb), c[n := [n]], n, q, pos)
  }

  ghost predicate IsNew(s: Store, n: Ref, nb: Branch) {
    n !in s && nb.parent == None && nb.kids == [] && nb.total == 0
  }

  lemma LoneTrees(s: Store, c: Chains, n: Ref, nb: Branch)
    requires Trees(s, c) && IsNew(s, n, nb)
    ensures Trees(Lone(s, n, nb), c[n := [n]])
  {
    var t, d := Lone(s, n, nb), c[n := [n]];
    LoneLinked(s, n, nb);
    NotAbove(s, c, n);
    forall x | x in t ensures ChainedAt(t, d, x) {
      if x != n {
        assert ChainedAt(s, c, x);
      }
    }
    forall a | a in t ensures CountedAt(t, d, a) {
      if a == n {
        assert Under(d, n) == {n};
      } else {
        assert CountedAt(s, c, a);
        assert Under(d, a) == Under(c, a);
      }
    }
  }

  lemma GrownTrees(s: Store, c: Chains, n: Ref, nb: Branch, q: Ref, pos: int)
    requires Trees(s, c) && IsNew(s, n, nb) && q in s
    ensures Trees(Grown(s, c, n, nb, q, pos), AttachedChains(c[n := [n]], n, q))
    ensures Hooked(Lone(s, n, nb), Grown(s, c, n, nb, q, pos), n, q, pos)
  {
    LoneTrees(s, c, n, nb);
    NotAbove(s, c, n);
    AttachedTrees(Lone(s, n, nb), c[n := [n]], n, q, pos);
    AttachedShape(Lone(s, n, nb), c[n := [n]], n, q, pos);
  }

  lemma GrownRewired(s: Store, t: Store, n: Ref, nb: Branch, q: Ref, pos: int)
    requires Linked(s) && IsNew(s, n, nb) && q in s && Hooked(Lone(s, n, nb), t, n, q, pos)
    ensures Rewired(Lone(s, n, nb), t, n, q)
  {
    var l := Lone(s, n, nb);
    InsertedMembers(s[q].kids, Clamp(pos, |s[q].kids|), n);
    forall x, k | x in l ensures k in t[x].kids <==> (k in l[x].kids && k != n) || (x == q && k == n) {
      if x != n {
        assert LinkedAt(s, x);
      }
    }
  }

  lemma GrownClean(file: seq<Head>, s: Store, t: Store, n: Ref, nb: Branch, q: Ref, pos: int, h: Head)
    requires Linked(s) && IsNew(s, n, nb) && q in s && Hooked(Lone(s, n, nb), t, n, q, pos)
    requires IsImage(file, s) && nb.slot == |file|
    ensures Clean(file + [h], t, {n, q} + From(t, q, Clamp(pos, |s[q].kids|)))
  {
    var dirty, at := {n, q} + From(t, q, Clamp(pos, |s[q].kids|)), Clamp(pos, |s[q].kids|);
    forall x | x in t && x !in dirty ensures CleanAt(file + [h], t, x) {
      assert CleanAt(file, s, x) && LinkedAt(s, x);
      if s[x].parent == Some(q) {
        assert LinkedAt(s, q);
        assert forall i :: at <= i < |t[q].kids| ==> t[q].kids[i] != x;
        InsertedPlace(s[q].kids, at, n, x);
      }
      assert HeadOf(t, x) == HeadOf(s, x);
    }
    forall i | 0 <= i < |file + [h]| && Free(t, i) ensures (file + [h])[i] == BLANK {
      assert t[n].slot == |file|;
      assert forall b :: b in s ==> b in t && t[b].slot == s[b].slot;
      assert Free(s, i);
    }
  }

  /** The tree after the branch `b`, which has no children, is gone. */
  ghost function Shrunk(s: Store, c: Chains, b: Ref): Store
    requires b in s && s[b].parent.Some? && s[b].parent.value in s && s[b].parent.value in c
  {
    Detached(s, c, b) - {b}
  }

  lemma ShrunkTrees(s: Store, c: Chains, b: Ref)
    requires Trees(s, c) && b in s && s[b].parent.Some? && s[b].kids == []
    ensures s[b].parent.value in s && s[b].parent.value in c
    ensures Trees(Shrunk(s, c, b), DetachedChains(c, b) - {b}) && Under(c, b) == {b}
    ensures Unhooked(s, Detached(s, c, b), b, s[b].parent.value)
  {
    DetachedTrees(s, c, b);
    Acyclic(s, c, b);
    assert ChainedAt(s, c, s[b].parent.value) && LinkedAt(s, b);
    DetachedShape(s, c, b);
    ChildlessUnder(s, c, b);
    DroppedTrees(Detached(s, c, b), DetachedChains(c, b), b);
    ShrunkCounted(s, c, b);
  }

  /** A branch without relatives can go. */
  lemma DroppedTrees(t: Store, d: Chains, b: Ref)
    requires Linked(t) && Chained(t, d) && b in t && t[b].parent == None && t[b].kids == []
    ensures Linked(t - {b}) && Chained(t - {b}, d - {b})
  {
    var u: Store, e: Chains := t - {b}, d - {b};
    forall x | x in u ensures LinkedAt(u, x) && ChainedAt(u, e, x) {
      assert LinkedAt(t, x) && ChainedAt(t, d, x);
    }
  }

  lemma ChildlessUnder(s: Store, c: Chains, b: Ref)
    requires Linked(s) && Chained(s, c) && b in s && s[b].kids == []
    ensures Under(c, b) == {b}
  {
    assert ChainedAt(s, c, b);
    forall x | x in Under(c, b) ensures x == b {
      if x != b {
        EnteredThrough(s, c, x, b);
      }
    }
  }

  lemma ShrunkCounted(s: Store, c: Chains, b: Ref)
    requires Trees(s, c) && b in s && s[b].parent.Some? && Under(c, b) == {b}
    requires s[b].parent.value in s && s[b].parent.value in c
    ensures Counted(Shrunk(s, c, b), DetachedChains(c, b) - {b})
  {
    DetachedTrees(s, c, b);
    var t: Store, d: Chains := Detached(s, c, b), DetachedChains(c, b);
    forall a | a in t && a != b ensures CountedAt(Shrunk(s, c, b), d - {b}, a) {
      assert ChainedAt(s, c, b);
      assert d[b] == [b];
      assert Under(d - {b}, a) == Under(d, a);
      assert CountedAt(t, d, a);
    }
  }

  lemma ShrunkPruned(s: Store, t: Store, b: Ref, p: Ref)
    requires Linked(s) && b in s && s[b].parent == Some(p) && p in s && p != b && s[b].kids == []
    requires Unhooked(s, t, b, p)
    ensures Pruned(s, t - {b}, b)
  {
    WithoutMembers(s[p].kids, b);
    forall x, k | x in s ensures k in t[x].kids <==> k in s[x].kids && k != b {
      assert LinkedAt(s, x);
    }
  }

  /** The branch has lost its id: src/map.c:923. */
  ghost function Nameless(t: Store, b: Ref): Store
    requires b in t
  {
    t[b := t[b].(id := 0)]
  }

  lemma NamelessLinked(t: Store, b: Ref)
    requires Linked(t) && b in t
    ensures Linked(Nameless(t, b))
  {
    var u := Nameless(t, b);
    forall x | x in u ensures LinkedAt(u, x) {
      assert LinkedAt(t, x);
    }
  }

  lemma CutClean(file: seq<Head>, s: Store, t: Store, b: Ref, p: Ref, from: nat)
    requires Linked(s) && b in s && s[b].parent == Some(p) && p in s && p != b && Unhooked(s, t, b, p)
    requires IsImage(file, s) && from <= PosIn(s[p].kids, b)
    ensures Clean(file, Nameless(t, b), {b, p} + From(t, p, from) + Elements(s[b].kids))
  {
    var u, dirty := Nameless(t, b), {b, p} + From(t, p, from) + Elements(s[b].kids);
    assert LinkedAt(s, b) && LinkedAt(s, p);
    forall x | x in u && x !in dirty ensures CleanAt(file, u, x) {
      assert CleanAt(file, s, x) && LinkedAt(s, x);
      if s[x].parent == Some(p) {
        WithoutMembers(s[p].kids, b);
        assert forall i :: 0 <= i < |t[p].kids| && PosIn(s[p].kids, b) <= i ==> t[p].kids[i] != x;
        WithoutPlace(s[p].kids, b, x);
      }
      assert HeadOf(u, x) == HeadOf(s, x);
    }
    forall i | 0 <= i < |file| && Free(u, i) ensures file[i] == BLANK {
      assert forall x :: x in s ==> x in u && u[x].slot == s[x].slot;
      assert Free(s, i);
    }
  }

  /** A branch with id 0 and without relatives leaves a blank record. */
  lemma GoneClean(file: seq<Head>, u: Store, b: Ref)
    requires Linked(u) && IsImage(file, u) && b in u && u[b].id == 0 && u[b].parent == None && u[b].kids == []
    ensures IsImage(file, u - {b})
  {
    var v: Store := u - {b};
    forall x | x in v ensures CleanAt(file, v, x) {
      assert CleanAt(file, u, x) && LinkedAt(u, x);
      assert HeadOf(v, x) == HeadOf(u, x);
    }
    forall i | 0 <= i < |file| && Free(v, i) ensures file[i] == BLANK {
      assert CleanAt(file, u, b);
      if i != u[b].slot {
        assert forall x :: x in u && x != b ==> x in v && v[x].slot == u[x].slot;
        assert Free(u, i);
      }
    }
  }
}
