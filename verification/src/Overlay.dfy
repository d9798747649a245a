/**
 What one view shows of the branch tree: the vbranches of src/vbranch.c and src/view.c.

 A view has at most one vbranch for a branch, so a vbranch is known by its branch: an `Overlay` maps
 the branches that a view shows to their vbranches.  Whatever makes a vbranch has to make sure that
 the view does not show its branch yet.
 */
module Overlay {
  import opened Options
  import opened Sequences
  import opened Forest

  /** src/vbranch.h:20-31 */
  datatype VBranch = VBranch(parent: Option<Ref>, kids: seq<Ref>)

  type Overlay = map<Ref, VBranch>

  ghost predicate SameMembers(l: seq<Ref>, m: seq<Ref>) {
    forall k :: k in l <==> k in m
  }

  /**
   The vbranch of `b` hangs below the vbranch of the parent of `b`, and its children are either none or
   one for every child of `b`.
   */
  ghost predicate ShownAt(s: Store, o: Overlay, b: Ref)
    requires b in o
  {
    && b in s
    && o[b].parent == s[b].parent
    && (o[b].parent.Some? ==> o[b].parent.value in o && b in o[o[b].parent.value].kids)
    && (forall k :: k in o[b].kids ==> k in o && o[k].parent == Some(b))
    && NoDup(o[b].kids)
    && (o[b].kids == [] || SameMembers(o[b].kids, s[b].kids))
  }

  ghost predicate ValidOverlay(s: Store, root: Ref, o: Overlay) {
    root in o && forall b {:trigger ShownAt(s, o, b)} :: b in o ==> ShownAt(s, o, b)
  }

  // ----- vbranch_detach and vbranch_add

  function VDetached(o: Overlay, b: Ref): Overlay
    requires b in o
  {
    if o[b].parent.Some? && o[b].parent.value in o then
      var p := o[b].parent.value;
      var u := o[p := o[p].(kids := Without(o[p].kids, b))];
      u[b := u[b].(parent := None)]
    else o
  }

  function VAdded(o: Overlay, b: Ref, p: Ref, pos: int): Overlay
    requires b in o && p in o
  {
    var u := o[b := o[b].(parent := Some(p))];
    u[p := u[p].(kids := InsertedAt(o[p].kids, Clamp(pos, |o[p].kids|), b))]
  }

  // ----- the branch tree changes below an overlay

  /** `b` has moved to below `q`, out of the child list in which it was, if any. */
  ghost predicate Rewired(s: Store, t: Store, b: Ref, q: Ref) {
    && b in s && q in s && s.Keys == t.Keys
    && t[b].parent == Some(q)
    && (forall x {:trigger t[x]} :: x in s && x != b ==> t[x].parent == s[x].parent)
    && (forall x, k :: x in s ==> (k in t[x].kids <==> (k in s[x].kids && k != b) || (x == q && k == b)))
  }

  /** The children of `q` can be seen in full, because they are shown or because there are none. */
  predicate Open(s: Store, o: Overlay, q: Ref)
    requires q in s
  {
    q in o && (o[q].kids == [] ==> s[q].kids == [])
  }

  /** The same of an overlay. */
  ghost predicate VRewired(o: Overlay, v: Overlay, b: Ref, q: Ref) {
    && b in o && q in o && o.Keys == v.Keys
    && v[b].parent == Some(q)
    && (forall x {:trigger v[x]} :: x in o && x != b ==> v[x].parent == o[x].parent)
    && (forall x, k :: x in o ==> (k in v[x].kids <==> (k in o[x].kids && k != b) || (x == q && k == b)))
    && (forall x {:trigger v[x]} :: x in o ==> NoDup(v[x].kids))
  }

  lemma FirstMember<N>(l: seq<N>)
    ensures l == [] || l[0] in l
  {
  }

  lemma VDetachedLists(s: Store, root: Ref, o: Overlay, b: Ref)
    requires ValidOverlay(s, root, o) && b in o
    ensures
      var u := VDetached(o, b);
      && u.Keys == o.Keys && u[b].parent == None
      && (forall x {:trigger u[x]} :: x in o && x != b ==> u[x].parent == o[x].parent)
      && (forall x, k :: x in o ==> (k in u[x].kids <==> k in o[x].kids && k != b))
      && (forall x {:trigger u[x]} :: x in o ==> NoDup(u[x].kids))
  {
    assert ShownAt(s, o, b);
    if o[b].parent.Some? {
      WithoutMembers(o[o[b].parent.value].kids, b);
    }
    forall x | x in o ensures NoDup(o[x].kids) && (b in o[x].kids ==> o[b].parent == Some(x)) {
      assert ShownAt(s, o, x);
    }
  }

  lemma MovedLists(s: Store, root: Ref, o: Overlay, b: Ref, q: Ref, pos: int)
    requires ValidOverlay(s, root, o) && b in o && q in o && b != q
    ensures VRewired(o, VAdded(VDetached(o, b), b, q, pos), b, q)
  {
    VDetachedLists(s, root, o, b);
    var u := VDetached(o, b);
    InsertedMembers(u[q].kids, Clamp(pos, |u[q].kids|), b);
  }

  /** Source and destination are visible: the vbranch moves along. */
  lemma MovedShown(s: Store, t: Store, root: Ref, o: Overlay, v: Overlay, b: Ref, q: Ref)
    requires ValidOverlay(s, root, o) && Rewired(s, t, b, q) && VRewired(o, v, b, q) && Open(s, o, q)
    ensures ValidOverlay(t, root, v)
  {
    forall x | x in v ensures ShownAt(t, v, x) {
      assert ShownAt(s, o, x);
      FirstMember(v[x].kids);
      if x != b && o[x].parent.Some? {
        assert ShownAt(s, o, o[x].parent.value);
      }
    }
  }

  /** A hidden branch that arrives in an open place gets a vbranch of its own. */
  function Appeared(o: Overlay, b: Ref, q: Ref, pos: int): Overlay
    requires q in o && b !in o
  {
    VAdded(o[b := VBranch(None, [])], b, q, pos)
  }

  lemma ParentShown(s: Store, root: Ref, o: Overlay, b: Ref)
    requires ValidOverlay(s, root, o) && b in o
    ensures b in s && o[b].parent == s[b].parent
    ensures (s[b].parent.Some? ==> s[b].parent.value in o && b in o[s[b].parent.value].kids)
  {
    assert ShownAt(s, o, b);
  }

  /** Siblings are seen together. */
  lemma SeenTogether(s: Store, root: Ref, o: Overlay, p: Ref, b: Ref)
    requires Linked(s) && ValidOverlay(s, root, o) && p in o && p in s && b in s[p].kids
    ensures b in o <==> b in o[p].kids
    ensures b in o <==> o[p].kids != []
  {
    assert ShownAt(s, o, p) && LinkedAt(s, p);
    FirstMember(o[p].kids);
    if b in o {
      assert ShownAt(s, o, b);
    }
  }

  lemma AppearedShown(s: Store, t: Store, root: Ref, o: Overlay, b: Ref, q: Ref, pos: int)
    requires Linked(s) && ValidOverlay(s, root, o) && Rewired(s, t, b, q) && b !in o && Open(s, o, q)
    ensures ValidOverlay(t, root, Appeared(o, b, q, pos))
  {
    var v := Appeared(o, b, q, pos);
    assert ShownAt(s, o, q);
    InsertedMembers(o[q].kids, Clamp(pos, |o[q].kids|), b);
    forall x | x in v ensures ShownAt(t, v, x) {
      if x != b {
        assert ShownAt(s, o, x);
        if b in s[x].kids {
          SeenTogether(s, root, o, x, b);
        }
      }
    }
  }

  /** A hidden branch that goes where nothing is seen leaves the overlay as it is. */
  lemma HiddenStays(s: Store, t: Store, root: Ref, o: Overlay, b: Ref, q: Ref)
    requires Linked(s) && ValidOverlay(s, root, o) && Rewired(s, t, b, q) && b !in o
    ensures ValidOverlay(t, root, o) <==> !(q in o && o[q].kids != [])
  {
    if q in o && o[q].kids != [] {
      assert ShownAt(s, o, q);
      assert !ShownAt(t, o, q);
    } else {
      forall x | x in o ensures ShownAt(t, o, x) {
        assert ShownAt(s, o, x);
        if b in s[x].kids {
          SeenTogether(s, root, o, x, b);
        }
      }
    }
  }

  // ----- a branch leaves the tree

  /** A branch without children is gone. */
  ghost predicate Pruned(s: Store, t: Store, b: Ref) {
    && b in s && s[b].kids == [] && t.Keys == s.Keys - {b}
    && (forall x {:trigger t[x]} :: x in t ==> t[x].parent == s[x].parent)
    && (forall x, k :: x in t ==> (k in t[x].kids <==> k in s[x].kids && k != b))
  }

  lemma PrunedShown(s: Store, t: Store, root: Ref, o: Overlay, b: Ref)
    requires Linked(s) && ValidOverlay(s, root, o) && Pruned(s, t, b) && b != root
    ensures ValidOverlay(t, root, if b in o then VDetached(o, b) - {b} else o)
  {
    assert LinkedAt(s, b);
    if b in o {
      assert ShownAt(s, o, b);
      VDetachedLists(s, root, o, b);
    }
    var v := if b in o then VDetached(o, b) - {b} else o;
    forall x | x in v ensures ShownAt(t, v, x) {
      assert ShownAt(s, o, x);
      FirstMember(v[x].kids);
      if b in s[x].kids {
        SeenTogether(s, root, o, x, b);
      }
      if o[x].parent == Some(b) {
        assert ShownAt(s, o, b);
      }
    }
  }

  // ----- showing more: the overlay grows

  /** All children of `y` get vbranches. */
  function KidsShown(s: Store, o: Overlay, y: Ref): Overlay
    requires y in s && y in o
  {
    map x | x in o.Keys + (set k | k in s[y].kids) ::
      if x == y then o[y].(kids := s[y].kids) else if x in s[y].kids then VBranch(Some(y), []) else o[x]
  }

  lemma KidsShownValid(s: Store, root: Ref, o: Overlay, y: Ref)
    requires Linked(s) && ValidOverlay(s, root, o) && y in s && y in o && o[y].kids == [] && y !in s[y].kids
    ensures ValidOverlay(s, root, KidsShown(s, o, y))
    ensures forall k :: k in s[y].kids ==> k !in o
  {
    var v := KidsShown(s, o, y);
    assert LinkedAt(s, y);
    forall k | k in s[y].kids ensures k !in o {
      SeenTogether(s, root, o, y, k);
    }
    forall x | x in v ensures ShownAt(s, v, x) {
      if x in o {
        assert ShownAt(s, o, x);
      }
      assert LinkedAt(s, x);
    }
  }

  predicate Unopened(o: Overlay, a: Ref) {
    a in o ==> o[a].kids == []
  }

  /** The deepest branch on the way `l` that is visible. */
  function Deepest(o: Overlay, l: seq<Ref>): Option<Ref> {
    if l == [] then None else if l[0] in o then Some(l[0]) else Deepest(o, l[1..])
  }

  /** Makes the first branch of the way up `l` visible, with its siblings and those of the branches above it. */
  function Revealed(s: Store, o: Overlay, l: seq<Ref>): (v: Overlay)
    ensures o.Keys <= v.Keys
  {
    if |l| < 2 || l[0] in o then o else
    var v := Revealed(s, o, l[1..]);
    if l[1] in s && l[1] in v then KidsShown(s, v, l[1]) else v
  }

  /** Everything above a visible branch is visible, with its children. */
  lemma {:induction false} VisibleAbove(s: Store, c: Chains, root: Ref, o: Overlay, b: Ref, a: Ref)
    requires Linked(s) && Chained(s, c) && ValidOverlay(s, root, o) && b in s && b in o && a in c[b]
    ensures a in s && a in o && (a != b ==> o[a].kids != [])
    decreases |c[b]|
  {
    assert ChainedAt(s, c, b) && ShownAt(s, o, b);
    if a != b {
      var y := s[b].parent.value;
      FirstMember(o[y].kids);
      VisibleAbove(s, c, root, o, y, a);
    }
  }

  lemma NotOwnKid(s: Store, c: Chains, y: Ref)
    requires Linked(s) && Chained(s, c) && y in s
    ensures y !in s[y].kids
  {
    assert LinkedAt(s, y) && ChainedAt(s, c, y);
  }

  predicate EndsAt(l: seq<Ref>, root: Ref) {
    l != [] && l[|l| - 1] == root
  }

  lemma RevealStep(s: Store, c: Chains, root: Ref, o: Overlay, b: Ref)
    requires Linked(s) && Chained(s, c) && b in s && EndsAt(c[b], root) && root in o && b !in o
    ensures s[b].parent.Some? && s[b].parent.value in s && b in s[s[b].parent.value].kids
    ensures
      var y := s[b].parent.value;
      && EndsAt(c[y], root) && |c[y]| < |c[b]| && y !in s[y].kids
      && (y in Revealed(s, o, c[y]) ==> Revealed(s, o, c[b]) == KidsShown(s, Revealed(s, o, c[y]), y))
  {
    assert ChainedAt(s, c, b) && LinkedAt(s, b);
    var y := s[b].parent.value;
    assert ChainedAt(s, c, y) && c[b][1..] == c[y];
    NotOwnKid(s, c, y);
  }

  /** Revealing a branch keeps the overlay valid and shows the branch. */
  lemma {:induction false} RevealedValid(s: Store, c: Chains, root: Ref, o: Overlay, b: Ref)
    requires Linked(s) && Chained(s, c) && ValidOverlay(s, root, o) && b in s && EndsAt(c[b], root)
    ensures ValidOverlay(s, root, Revealed(s, o, c[b])) && b in Revealed(s, o, c[b])
    ensures b !in o ==> Revealed(s, o, c[b])[b] == VBranch(s[b].parent, [])
    decreases |c[b]|
  {
    assert ChainedAt(s, c, b);
    if b !in o {
      RevealStep(s, c, root, o, b);
      var y := s[b].parent.value;
      RevealedValid(s, c, root, o, y);
      if y in o {
        SeenTogether(s, root, o, y, b);
        assert ChainedAt(s, c, y);
      }
      KidsShownValid(s, root, Revealed(s, o, c[y]), y);
    }
  }

  /**
   Revealing keeps every vbranch; where it has to open a branch, the children are listed in full and in
   the order of the branch tree.
   */
  lemma {:induction false} RevealedKeeps(s: Store, c: Chains, root: Ref, o: Overlay, b: Ref)
    requires Linked(s) && Chained(s, c) && ValidOverlay(s, root, o) && b in s && EndsAt(c[b], root)
    ensures forall x :: x in o ==> Revealed(s, o, c[b])[x].parent == o[x].parent
    ensures forall x :: x in o && o[x].kids != [] ==> Revealed(s, o, c[b])[x] == o[x]
    ensures b !in o ==> forall a :: a in c[b] && a != b ==>
              a in s && a in Revealed(s, o, c[b]) && (Unopened(o, a) ==> Revealed(s, o, c[b])[a].kids == s[a].kids)
    decreases |c[b]|
  {
    assert ChainedAt(s, c, b);
    if b !in o {
      RevealStep(s, c, root, o, b);
      var y := s[b].parent.value;
      RevealedKeeps(s, c, root, o, y);
      RevealedValid(s, c, root, o, y);
      var v := Revealed(s, o, c[y]);
      assert ChainedAt(s, c, y);
      if y in o {
        SeenTogether(s, root, o, y, b);
      }
      KidsShownValid(s, root, v, y);
      forall a | a in c[b] && a != b
        ensures a in s && a in Revealed(s, o, c[b]) && (Unopened(o, a) ==> Revealed(s, o, c[b])[a].kids == s[a].kids)
      {
        if y in o {
          VisibleAbove(s, c, root, o, y, a);
        }
      }
    }
  }
}
