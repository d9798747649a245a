/** Copying a view and removing one: view_vbranch_clone and view_destroy of src/view.c. */
module Cloning {
  import opened Options
  import opened Forest
  import opened Overlay
  import opened Sight
  import opened BranchTree
  import opened Views

  ghost predicate ShadowAt(c: Chains, l: seq<Ref>, i: nat, b: Ref, x: Ref) {
    x in c && (x == b || exists j :: 0 <= j < i && j < |l| && l[j] in c[x])
  }

  /** `b` and what is shown below the first `i` branches of `l`. */
  ghost function Shadows(c: Chains, o: Overlay, b: Ref, l: seq<Ref>, i: nat): set<Ref> {
    set x | x in o && ShadowAt(c, l, i, b, x)
  }

  /** What is shown of the branches under `b`. */
  ghost function Shadow(c: Chains, o: Overlay, b: Ref): set<Ref> {
    set x | x in o && x in c && b in c[x]
  }

  lemma ShadowsStep(s: Store, c: Chains, root: Ref, o: Overlay, b: Ref, i: nat)
    requires Linked(s) && Chained(s, c) && ValidOverlay(s, root, o) && b in o && i < |o[b].kids|
    ensures
      var l := o[b].kids;
      && l[i] in o && l[i] in s && o[l[i]].parent == Some(b) && |Under(c, l[i])| < |Under(c, b)|
      && Shadows(c, o, b, l, i + 1) == Shadows(c, o, b, l, i) + Shadow(c, o, l[i])
      && Shadows(c, o, b, l, i) !! Shadow(c, o, l[i])
  {
    var l := o[b].kids;
    assert ShownAt(s, o, b) && LinkedAt(s, b);
    assert l[i] in s[b].kids;
    var n :| 0 <= n < |s[b].kids| && s[b].kids[n] == l[i];
    FamilyGrows(s, c, b, n);
    SmallerUnder(c, l[i], b);
    forall x | x in Shadow(c, o, l[i]) ensures x !in Shadows(c, o, b, l, i) {
      Acyclic(s, c, l[i]);
      if x in Shadows(c, o, b, l, i) && x != b {
        var j :| 0 <= j < i && l[j] in c[x];
        assert l[j] in s[b].kids;
        assert ChainedAt(s, c, x);
        Cousins(s, c, x, l[i], l[j]);
      }
    }
  }

  lemma ShadowsAll(s: Store, c: Chains, root: Ref, o: Overlay, b: Ref)
    requires Linked(s) && Chained(s, c) && ValidOverlay(s, root, o) && b in o
    ensures b in s && Shadows(c, o, b, o[b].kids, 0) == {b}
    ensures Shadows(c, o, b, o[b].kids, |o[b].kids|) == Shadow(c, o, b)
  {
    assert ShownAt(s, o, b) && LinkedAt(s, b) && ChainedAt(s, c, b);
    forall x | x in o && x in c ensures ShadowAt(c, o[b].kids, |o[b].kids|, b, x) <==> b in c[x] {
      if b in c[x] && x != b {
        ShownThrough(s, c, root, o, x, b);
      }
      if ShadowAt(c, o[b].kids, |o[b].kids|, b, x) && x != b {
        var j :| 0 <= j < |o[b].kids| && o[b].kids[j] in c[x];
        assert o[b].kids[j] in s[b].kids;
        assert ChainedAt(s, c, o[b].kids[j]);
        Transitive(s, c, x, o[b].kids[j], b);
      }
    }
  }

  /** The way up from a visible branch enters `b` through a child that is listed there. */
  lemma ShownThrough(s: Store, c: Chains, root: Ref, o: Overlay, x: Ref, b: Ref)
    requires Linked(s) && Chained(s, c) && ValidOverlay(s, root, o) && x in o && x in s && b in c[x] && x != b
    ensures b in o && exists j :: 0 <= j < |o[b].kids| && o[b].kids[j] in c[x]
  {
    EnteredThrough(s, c, x, b);
    var j :| 0 <= j < |s[b].kids| && s[b].kids[j] in c[x];
    VisibleAbove(s, c, root, o, x, b);
    VisibleAbove(s, c, root, o, x, s[b].kids[j]);
    assert ShownAt(s, o, b);
    assert s[b].kids[j] in o[b].kids;
  }

  /** `w` with the vbranches of `o` for the branches in `u`. */
  function Copied(o: Overlay, w: Overlay, u: set<Ref>): Overlay {
    map x | x in w.Keys + (u * o.Keys) :: if x in u && x in o then o[x] else w[x]
  }

  /** The same, but the vbranch of `b` has no children yet. */
  function CopiedBut(o: Overlay, w: Overlay, u: set<Ref>, b: Ref): Overlay
    requires b in o
  {
    Put(Copied(o, w, u), b, VBranch(o[b].parent, []))
  }

  lemma CopiedStep(o: Overlay, w: Overlay, u: set<Ref>, v: set<Ref>, b: Ref)
    requires b in o && b in u && u !! v
    ensures Copied(o, CopiedBut(o, w, u, b), v) == CopiedBut(o, w, u + v, b)
  {
  }

  lemma CopiedFirst(o: Overlay, w: Overlay, b: Ref)
    requires b in o && b !in w
    ensures Put(w, b, VBranch(o[b].parent, [])) == CopiedBut(o, w, {b}, b)
  {
  }

  lemma CopiedLast(o: Overlay, w: Overlay, u: set<Ref>, b: Ref)
    requires b in o && b in u
    ensures Put(CopiedBut(o, w, u, b), b, CopiedBut(o, w, u, b)[b].(kids := o[b].kids)) == Copied(o, w, u)
    ensures CopiedBut(o, w, u, b).Keys == Copied(o, w, u).Keys
  {
  }

  /** src/view.c:77-115: the vbranch of `b` and all below it are made anew in the view `w`. */
  method Clone(views: Views, s: Store, v: View, w: View, b: Ref, parent: Option<Ref>, ghost c: Chains, ghost root: Ref)
    requires views.Valid() && v in views.shown && w in views.shown && v != w && views.viewers.Keys == s.Keys
    requires Linked(s) && Chained(s, c) && ValidOverlay(s, root, views.shown[v]) && b in views.shown[v] && b in s
    requires parent == views.shown[v][b].parent && Shadow(c, views.shown[v], b) !! views.shown[w].Keys
    modifies views`shown, views`viewers
    ensures views.Valid() && views.viewers.Keys == s.Keys
    ensures
      var o := old(views.shown)[v];
      views.shown == old(views.shown)[w := Copied(o, old(views.shown)[w], Shadow(c, o, b))]
    decreases |Under(c, b)|, 1
  {
    ghost var o, t := views.shown[v], views.shown[w];
    ShadowsAll(s, c, root, o, b);
    assert b in Shadow(c, o, b) by {
      assert ChainedAt(s, c, b);
    }
    CopiedFirst(o, t, b);
    views.NewVBranch(w, b, VBranch(parent, []));
    CloneChildren(views, s, v, w, b, t, c, root);
    CopiedLast(o, t, Shadow(c, o, b), b);
    views.Rearrange(w, Put(views.shown[w], b, views.shown[w][b].(kids := views.shown[v][b].kids)));
  }

  /** src/view.c:103-110 */
  method CloneChildren(views: Views, s: Store, v: View, w: View, b: Ref, ghost t: Overlay, ghost c: Chains,
                       ghost root: Ref)
    requires views.Valid() && v in views.shown && w in views.shown && v != w && views.viewers.Keys == s.Keys
    requires Linked(s) && Chained(s, c) && ValidOverlay(s, root, views.shown[v]) && b in views.shown[v] && b in s
    requires Shadow(c, views.shown[v], b) !! t.Keys && views.shown[w] == CopiedBut(views.shown[v], t, {b}, b)
    modifies views`shown, views`viewers
    ensures views.Valid() && views.viewers.Keys == s.Keys
    ensures
      var o := old(views.shown)[v];
      views.shown == old(views.shown)[w := CopiedBut(o, t, Shadow(c, o, b), b)]
    decreases |Under(c, b)|, 0
  {
    ghost var o := views.shown[v];
    var l := views.shown[v][b].kids;
    ShadowsAll(s, c, root, o, b);
    assert views.shown == views.shown[w := CopiedBut(o, t, {b}, b)];
    var i := 0;
    while i < |l|
      invariant 0 <= i <= |l| && views.Valid() && views.viewers.Keys == s.Keys
      invariant views.shown == old(views.shown)[w := CopiedBut(o, t, Shadows(c, o, b, l, i), b)]
    {
      ShadowsStep(s, c, root, o, b, i);
      ChildHidden(s, c, root, o, t, b, i);
      CopiedStep(o, t, Shadows(c, o, b, l, i), Shadow(c, o, l[i]), b);
      Clone(views, s, v, w, l[i], Some(b), c, root);
      i := i + 1;
    }
  }

  lemma ChildHidden(s: Store, c: Chains, root: Ref, o: Overlay, t: Overlay, b: Ref, i: nat)
    requires Linked(s) && Chained(s, c) && ValidOverlay(s, root, o) && b in o && i < |o[b].kids|
    requires Shadow(c, o, b) !! t.Keys
    ensures b in s && b in Shadows(c, o, b, o[b].kids, i)
    ensures Shadow(c, o, o[b].kids[i]) !! CopiedBut(o, t, Shadows(c, o, b, o[b].kids, i), b).Keys
  {
    ShadowsStep(s, c, root, o, b, i);
    ShadowsAll(s, c, root, o, b);
    assert ShownAt(s, o, b) && ChainedAt(s, c, b);
    forall x | x in Shadow(c, o, o[b].kids[i]) ensures x !in t && x != b {
      assert o[b].kids[i] in s[b].kids && LinkedAt(s, b);
      assert ChainedAt(s, c, o[b].kids[i]);
      Transitive(s, c, x, o[b].kids[i], b);
      Acyclic(s, c, o[b].kids[i]);
    }
  }

  /** src/view.c:117-122: the new view shows the same as the old one. */
  method CloneView(views: Views, s: Store, v: View, w: View, ghost c: Chains, root: Ref)
    requires views.Valid() && v in views.shown && w !in views.shown && views.viewers.Keys == s.Keys && root in s
    requires Linked(s) && Chained(s, c) && ValidOverlay(s, root, views.shown[v]) && s[root].parent.None?
    requires forall x :: x in s ==> root in c[x]
    modifies views`shown, views`viewers
    ensures views.Valid() && views.viewers.Keys == s.Keys && views.shown == old(views.shown)[w := old(views.shown)[v]]
  {
    ghost var o := views.shown[v];
    assert ShownAt(s, o, root);
    views.EmptyView(w);
    Clone(views, s, v, w, root, None, c, root);
    WholeShadow(s, c, root, o);
  }

  lemma WholeShadow(s: Store, c: Chains, root: Ref, o: Overlay)
    requires Chained(s, c) && ValidOverlay(s, root, o) && forall x :: x in s ==> root in c[x]
    ensures Shadow(c, o, root) == o.Keys && Copied(o, map[], Shadow(c, o, root)) == o
  {
    forall x | x in o ensures x in c && root in c[x] {
      assert ShownAt(s, o, x);
    }
  }

  // ----- view_destroy

  function Erased(o: Overlay, u: set<Ref>): Overlay {
    o - u
  }

  /** src/view.c:124-137: the vbranches below the one of `b` are removed, then that one. */
  method Destroy(views: Views, s: Store, v: View, b: Ref, ghost o: Overlay, ghost d: set<Ref>, ghost c: Chains,
                 ghost root: Ref)
    requires views.Valid() && v in views.shown && views.viewers.Keys == s.Keys && Linked(s) && Chained(s, c)
    requires ValidOverlay(s, root, o) && b in o && views.shown[v] == Erased(o, d) && d !! Shadow(c, o, b)
    modifies views`shown, views`viewers
    ensures views.Valid() && views.viewers.Keys == s.Keys
    ensures views.shown == old(views.shown)[v := Erased(o, d + Shadow(c, o, b))]
    decreases |Under(c, b)|, 1
  {
    ShadowsAll(s, c, root, o, b);
    assert b in Shadow(c, o, b) by {
      assert ChainedAt(s, c, b);
    }
    DestroyChildren(views, s, v, b, o, d, c, root);
    views.DetachVBranch(v, b);
    assert Dropped(Erased(o, d + (Shadow(c, o, b) - {b})), b) == Erased(o, d + Shadow(c, o, b));
  }

  /** src/view.c:125-128 */
  method DestroyChildren(views: Views, s: Store, v: View, b: Ref, ghost o: Overlay, ghost d: set<Ref>, ghost c: Chains,
                         ghost root: Ref)
    requires views.Valid() && v in views.shown && views.viewers.Keys == s.Keys && Linked(s) && Chained(s, c)
    requires ValidOverlay(s, root, o) && b in o && views.shown[v] == Erased(o, d) && d !! Shadow(c, o, b)
    modifies views`shown, views`viewers
    ensures views.Valid() && views.viewers.Keys == s.Keys
    ensures views.shown == old(views.shown)[v := Erased(o, d + (Shadow(c, o, b) - {b}))]
    decreases |Under(c, b)|, 0
  {
    ShadowsAll(s, c, root, o, b);
    assert b in Shadow(c, o, b) by {
      assert ChainedAt(s, c, b);
    }
    var l := views.shown[v][b].kids;
    assert l == o[b].kids && d + (Shadows(c, o, b, l, 0) - {b}) == d;
    assert views.shown == views.shown[v := Erased(o, d + (Shadows(c, o, b, l, 0) - {b}))];
    var i := 0;
    while i < |l|
      invariant 0 <= i <= |l| && views.Valid() && views.viewers.Keys == s.Keys
      invariant views.shown == old(views.shown)[v := Erased(o, d + (Shadows(c, o, b, l, i) - {b}))]
    {
      ShadowsStep(s, c, root, o, b, i);
      ShadowWithin(s, c, root, o, b, i);
      Destroy(views, s, v, l[i], o, d + (Shadows(c, o, b, l, i) - {b}), c, root);
      assert d + (Shadows(c, o, b, l, i) - {b}) + Shadow(c, o, l[i]) == d + (Shadows(c, o, b, l, i + 1) - {b});
      i := i + 1;
    }
  }

  lemma ShadowWithin(s: Store, c: Chains, root: Ref, o: Overlay, b: Ref, i: nat)
    requires Linked(s) && Chained(s, c) && ValidOverlay(s, root, o) && b in o && i < |o[b].kids|
    ensures o[b].kids[i] in o && Shadow(c, o, o[b].kids[i]) <= Shadow(c, o, b) && b !in Shadow(c, o, o[b].kids[i])
  {
    assert ShownAt(s, o, b) && LinkedAt(s, b);
    assert o[b].kids[i] in s[b].kids;
    assert ChainedAt(s, c, o[b].kids[i]) && ChainedAt(s, c, b);
    Acyclic(s, c, o[b].kids[i]);
    forall x | x in Shadow(c, o, o[b].kids[i]) ensures x in Shadow(c, o, b) {
      Transitive(s, c, x, o[b].kids[i], b);
    }
  }

  /** src/view.c:139-144: no vbranch of the view is left in any list. */
  method DestroyView(views: Views, s: Store, v: View, ghost c: Chains, root: Ref)
    requires views.Valid() && v in views.shown && views.viewers.Keys == s.Keys && Linked(s) && Chained(s, c)
    requires ValidOverlay(s, root, views.shown[v]) && forall x :: x in s ==> root in c[x]
    modifies views`shown, views`viewers
    ensures views.Valid() && views.viewers.Keys == s.Keys && views.shown == old(views.shown) - {v}
    ensures forall b :: b in views.viewers ==> v !in views.viewers[b]
  {
    ghost var o := views.shown[v];
    WholeShadow(s, c, root, o);
    assert Erased(o, {}) == o;
    Destroy(views, s, v, root, o, {}, c, root);
    assert Erased(o, {} + Shadow(c, o, root)) == map[];
    views.RemoveView(v);
    forall b | b in views.viewers ensures v !in views.viewers[b] {
      assert ListedAt(views.shown, views.viewers, b);
    }
  }
}
