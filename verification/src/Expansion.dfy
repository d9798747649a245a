/** Showing several levels of the tree at once: expand and view_expand of src/view.c. */
module Expansion {
  import opened Options
  import opened Sequences
  import opened Forest
  import opened Overlay
  import opened Sight
  import opened BranchTree
  import opened Views

  /** The vbranch of `b` gets all children of `b`, in their order; those that it has are kept. */
  function Completed(s: Store, o: Overlay, b: Ref): Overlay
    requires b in s && b in o
  {
    map x | x in o.Keys + (set k | k in s[b].kids) ::
      if x == b then o[b].(kids := s[b].kids) else if x in o then o[x] else VBranch(Some(b), [])
  }

  /** What is listed at `b` is part of the children of `b`, and the others are not shown anywhere. */
  ghost predicate Partial(s: Store, o: Overlay, b: Ref)
    requires b in s && b in o
  {
    && NoDup(s[b].kids) && b !in s[b].kids
    && (forall k :: k in o[b].kids ==> k in s[b].kids && k in o)
    && (forall k :: k in s[b].kids && k !in o[b].kids ==> k in s && k !in o)
  }

  ghost predicate MissingUpTo(l: seq<Ref>, kids: seq<Ref>, had: seq<Ref>, i: nat) {
    i <= |kids| && forall k :: k in l <==> k in kids[..i] && k !in had
  }

  lemma MissingStep(l: seq<Ref>, kids: seq<Ref>, had: seq<Ref>, i: nat)
    requires MissingUpTo(l, kids, had, i) && i < |kids| && NoDup(kids)
    ensures kids[i] !in l && MissingUpTo(if kids[i] in had then l else l + [kids[i]], kids, had, i + 1)
  {
    assert kids[..i + 1] == kids[..i] + [kids[i]];
  }

  lemma CompletedSpread(s: Store, o: Overlay, b: Ref, l: seq<Ref>, make: Ref -> VBranch)
    requires b in s && b in o && Partial(s, o, b) && MissingUpTo(l, s[b].kids, o[b].kids, |s[b].kids|)
    requires forall x :: make(x) == VBranch(Some(b), [])
    ensures b !in l && b in Spread(o, l, make)
    ensures Put(Spread(o, l, make), b, Spread(o, l, make)[b].(kids := s[b].kids)) == Completed(s, o, b)
  {
    assert s[b].kids[..|s[b].kids|] == s[b].kids;
  }

  /** src/view.c:155-186: new vbranches for the branches of `kids` that are not in `list`. */
  method ShowMissing(views: Views, v: View, b: Ref, kids: seq<Ref>, list: seq<Ref>,
                     ghost make: Ref -> VBranch) returns (ghost l: seq<Ref>)
    requires views.Valid() && v in views.shown && NoDup(kids) && forall x :: make(x) == VBranch(Some(b), [])
    requires forall k :: k in kids && k !in list ==> k in views.viewers && k !in views.shown[v]
    modifies views`shown, views`viewers
    ensures views.Valid() && Kept(old(views.viewers), views.viewers, old(views.shown)[v])
    ensures MissingUpTo(l, kids, list, |kids|)
    ensures views.shown == old(views.shown)[v := Spread(old(views.shown)[v], l, make)]
  {
    ghost var o := views.shown[v];
    l := [];
    SpreadNone(o, make);
    assert views.shown == views.shown[v := o];
    var i := 0;
    while i < |kids|
      invariant 0 <= i <= |kids| && views.Valid() && Kept(old(views.viewers), views.viewers, o)
      invariant MissingUpTo(l, kids, list, i) && views.shown == old(views.shown)[v := Spread(o, l, make)]
    {
      MissingStep(l, kids, list, i);
      var at := BranchTree.FindPos(list, kids[i]);
      FoundOrNot(list, kids[i]);
      if at < 0 {
        SpreadMore(o, l, kids[i], make);
        views.NewVBranch(v, kids[i], VBranch(Some(b), []));
        l := l + [kids[i]];
      }
      i := i + 1;
    }
  }

  /** src/view.c:146-196 */
  method Expand(views: Views, s: Store, v: View, b: Ref)
    requires views.Valid() && v in views.shown && views.viewers.Keys == s.Keys && b in s && b in views.shown[v]
    requires Partial(s, views.shown[v], b)
    modifies views`shown, views`viewers
    ensures views.Valid() && Kept(old(views.viewers), views.viewers, old(views.shown)[v])
    ensures views.shown == old(views.shown)[v := Completed(s, old(views.shown)[v], b)]
  {
    ghost var o, make := views.shown[v], (x: Ref) => VBranch(Some(b), []);
    ghost var l := ShowMissing(views, v, b, s[b].kids, views.shown[v][b].kids, make);
    CompletedSpread(s, o, b, l, make);
    views.Rearrange(v, Put(views.shown[v], b, views.shown[v][b].(kids := s[b].kids)));
  }

  lemma {:induction false} FoundOrNot(l: seq<Ref>, b: Ref)
    ensures PosIn(l, b) >= 0 <==> b in l
  {
    if l != [] && l[0] != b {
      FoundOrNot(l[1..], b);
    }
  }

  // ----- several levels

  /** `b` and what is below it, `n` levels down. */
  ghost function Within(c: Chains, b: Ref, n: nat): set<Ref>
    requires b in c
  {
    set x | x in c && b in c[x] && |c[x]| <= |c[b]| + n
  }

  ghost predicate OneOf(c: Chains, l: seq<Ref>, i: nat, n: nat, x: Ref)
    requires x in c
  {
    exists j :: 0 <= j < i && j < |l| && l[j] in c && l[j] in c[x] && |c[x]| <= |c[l[j]]| + n
  }

  /** The same for the first `i` branches of a list. */
  ghost function Beneath(c: Chains, l: seq<Ref>, i: nat, n: nat): set<Ref> {
    set x | x in c && OneOf(c, l, i, n, x)
  }

  lemma BeneathStep(c: Chains, l: seq<Ref>, i: nat, n: nat)
    requires i < |l| && l[i] in c
    ensures Beneath(c, l, i + 1, n) == Beneath(c, l, i, n) + Within(c, l[i], n)
  {
    forall x | x in c ensures OneOf(c, l, i + 1, n, x) <==> OneOf(c, l, i, n, x) || x in Within(c, l[i], n) {
    }
  }

  /** All children, and what is below them. */
  lemma BeneathAll(s: Store, c: Chains, b: Ref, l: seq<Ref>, n: nat)
    requires Linked(s) && Chained(s, c) && b in s && SameMembers(l, s[b].kids)
    ensures Within(c, b, n + 1) == {b} + Beneath(c, l, |l|, n)
  {
    assert ChainedAt(s, c, b) && LinkedAt(s, b);
    forall x | x in c ensures x in Within(c, b, n + 1) <==> x == b || OneOf(c, l, |l|, n, x) {
      if x in Within(c, b, n + 1) && x != b {
        EnteredThrough(s, c, x, b);
        var j :| 0 <= j < |s[b].kids| && s[b].kids[j] in c[x];
        assert ChainedAt(s, c, s[b].kids[j]);
        assert s[b].kids[j] in l;
        var i :| 0 <= i < |l| && l[i] == s[b].kids[j];
      }
      if OneOf(c, l, |l|, n, x) {
        var j :| 0 <= j < |l| && l[j] in c && l[j] in c[x] && |c[x]| <= |c[l[j]]| + n;
        assert l[j] in s[b].kids;
        assert ChainedAt(s, c, l[j]);
        Transitive(s, c, x, l[j], b);
      }
    }
  }

  // ----- overlays with partial lists

  /** As `ShownAt`, but the list of children need not be complete. */
  ghost predicate PartialAt(s: Store, o: Overlay, b: Ref)
    requires b in o
  {
    && b in s
    && o[b].parent == s[b].parent
    && (o[b].parent.Some? ==> o[b].parent.value in o && b in o[o[b].parent.value].kids)
    && (forall k :: k in o[b].kids ==> k in s[b].kids && k in o)
    && NoDup(o[b].kids)
  }

  ghost predicate PartialOverlay(s: Store, root: Ref, o: Overlay) {
    root in o && forall b {:trigger PartialAt(s, o, b)} :: b in o ==> PartialAt(s, o, b)
  }

  /** The list of `b` is complete. */
  ghost predicate Full(s: Store, o: Overlay, b: Ref) {
    b in s && b in o && SameMembers(o[b].kids, s[b].kids)
  }

  ghost predicate Settled(s: Store, o: Overlay, b: Ref) {
    b in o && (o[b].kids == [] || Full(s, o, b))
  }

  /** The list of `b` is empty, or that of the tree in its order. */
  ghost predicate Drawn(s: Store, o: Overlay, b: Ref) {
    b in o && (o[b].kids == [] || (b in s && o[b].kids == s[b].kids))
  }

  /** An overlay is valid if it is partial and no list is anything between empty and complete. */
  lemma ValidIsPartial(s: Store, root: Ref, o: Overlay)
    requires Linked(s)
    ensures ValidOverlay(s, root, o) <==>
              PartialOverlay(s, root, o) && forall x {:trigger Settled(s, o, x)} :: x in o ==> Settled(s, o, x)
  {
    if ValidOverlay(s, root, o) {
      forall x | x in o ensures PartialAt(s, o, x) && Settled(s, o, x) {
        assert ShownAt(s, o, x);
      }
    }
    if PartialOverlay(s, root, o) && forall x {:trigger Settled(s, o, x)} :: x in o ==> Settled(s, o, x) {
      forall x | x in o ensures ShownAt(s, o, x) {
        assert PartialAt(s, o, x) && Settled(s, o, x) && LinkedAt(s, x);
        forall k | k in o[x].kids ensures o[k].parent == Some(x) {
          assert PartialAt(s, o, k);
        }
      }
    }
  }

  /** Complete lists are kept; others are kept or list all children in the order of the tree. */
  ghost predicate WidenedAt(s: Store, o: Overlay, w: Overlay, x: Ref)
    requires x in o
  {
    && x in w && w[x].parent == o[x].parent
    && (w[x].kids == o[x].kids || (!Full(s, o, x) && x in s && w[x].kids == s[x].kids))
  }

  /** So it is for all vbranches; new ones list nothing or everything. */
  ghost predicate Widened(s: Store, o: Overlay, w: Overlay) {
    && (forall x {:trigger WidenedAt(s, o, w, x)} :: x in o ==> WidenedAt(s, o, w, x))
    && (forall x {:trigger Drawn(s, w, x)} :: x in w && x !in o ==> Drawn(s, w, x))
  }

  lemma WidenedMore(s: Store, o: Overlay, w: Overlay, u: Overlay)
    requires Widened(s, o, w) && Widened(s, w, u)
    ensures Widened(s, o, u)
  {
    forall x | x in o ensures WidenedAt(s, o, u, x) {
      assert WidenedAt(s, o, w, x);
      assert WidenedAt(s, w, u, x);
    }
    forall x | x in u && x !in o ensures Drawn(s, u, x) {
      if x in w {
        assert Drawn(s, w, x) && WidenedAt(s, w, u, x);
      }
    }
  }

  lemma WidenedSelf(s: Store, o: Overlay)
    ensures Widened(s, o, o)
  {
  }

  /** What was empty or complete is so still. */
  lemma WidenedSettled(s: Store, o: Overlay, w: Overlay, x: Ref)
    requires Widened(s, o, w) && Settled(s, o, x)
    ensures Settled(s, w, x)
  {
    assert WidenedAt(s, o, w, x);
  }

  lemma {:induction false} NoDupSize<N>(l: seq<N>)
    requires NoDup(l)
    ensures |Elements(l)| == |l|
  {
    if l != [] {
      var n := |l| - 1;
      assert Elements(l) == Elements(l[..n]) + {l[n]};
      NoDupSize(l[..n]);
    }
  }

  lemma SameSize<N>(a: set<N>, b: set<N>)
    requires a <= b && |a| == |b|
    ensures a == b
  {
    assert b == a + (b - a) && |b| == |a| + |b - a|;
  }

  /** src/view.c:210: a list of the right length is complete, and no other is. */
  lemma RightLength(s: Store, root: Ref, o: Overlay, b: Ref)
    requires Linked(s) && PartialOverlay(s, root, o) && b in o
    ensures b in s && (|o[b].kids| == |s[b].kids| <==> Full(s, o, b))
  {
    assert PartialAt(s, o, b) && LinkedAt(s, b);
    NoDupSize(o[b].kids);
    NoDupSize(s[b].kids);
    assert Elements(o[b].kids) <= Elements(s[b].kids);
    if |o[b].kids| == |s[b].kids| {
      SameSize(Elements(o[b].kids), Elements(s[b].kids));
      assert forall k :: k in s[b].kids ==> k in Elements(s[b].kids);
    }
    if Full(s, o, b) {
      assert Elements(o[b].kids) == Elements(s[b].kids);
    }
  }

  /** Completing one list. */
  lemma CompletedPartial(s: Store, c: Chains, root: Ref, o: Overlay, b: Ref)
    requires Linked(s) && Chained(s, c) && PartialOverlay(s, root, o) && b in o && b in s
    ensures Partial(s, o, b) && PartialOverlay(s, root, Completed(s, o, b))
    ensures Completed(s, o, b).Keys == o.Keys + Elements(s[b].kids) && Completed(s, o, b)[b].kids == s[b].kids
    ensures !Full(s, o, b) ==> Widened(s, o, Completed(s, o, b))
  {
    var w := Completed(s, o, b);
    NotOwnKid(s, c, b);
    assert LinkedAt(s, b) && PartialAt(s, o, b);
    forall k | k in s[b].kids && k in o ensures k in o[b].kids {
      assert PartialAt(s, o, k);
    }
    forall x | x in w ensures PartialAt(s, w, x) {
      if x in o {
        assert PartialAt(s, o, x);
      }
    }
    forall x | x in o && !Full(s, o, b) ensures WidenedAt(s, o, w, x) {
    }
    forall x | x in w && x !in o ensures Drawn(s, w, x) {
    }
  }

  /** src/view.c:210-217: makes the list of `b` complete, whatever part of it is there. */
  method OpenUp(views: Views, s: Store, v: View, b: Ref, ghost c: Chains, ghost root: Ref)
    requires views.Valid() && v in views.shown && views.viewers.Keys == s.Keys && Linked(s) && Chained(s, c)
    requires PartialOverlay(s, root, views.shown[v]) && b in views.shown[v]
    modifies views`shown, views`viewers
    ensures views.Valid() && views.viewers.Keys == s.Keys && v in views.shown
    ensures views.shown == old(views.shown)[v := views.shown[v]]
    ensures PartialOverlay(s, root, views.shown[v]) && Widened(s, old(views.shown)[v], views.shown[v])
    ensures Full(s, views.shown[v], b)
    ensures views.shown[v].Keys == old(views.shown)[v].Keys + Elements(s[b].kids)
  {
    ghost var o := views.shown[v];
    RightLength(s, root, o, b);
    WidenedSelf(s, o);
    if |views.shown[v][b].kids| != |s[b].kids| {
      CompletedPartial(s, c, root, o, b);
      Expand(views, s, v, b);
    } else {
      assert PartialAt(s, o, b);
      assert forall k :: k in s[b].kids ==> k in o[b].kids;
      assert o.Keys + Elements(s[b].kids) == o.Keys;
    }
  }

  /**
   src/view.c:198-230: from any overlay with partial lists, shows `b` and what is below it, down to 3 - level
   levels, and nothing else that was not shown before.
   */
  method ViewExpand(views: Views, s: Store, v: View, b: Ref, level: nat, ghost c: Chains, ghost root: Ref)
    requires views.Valid() && v in views.shown && views.viewers.Keys == s.Keys && Linked(s) && Chained(s, c)
    requires PartialOverlay(s, root, views.shown[v]) && b in views.shown[v] && b in s
    modifies views`shown, views`viewers
    ensures views.Valid() && views.viewers.Keys == s.Keys && v in views.shown
    ensures views.shown == old(views.shown)[v := views.shown[v]]
    ensures PartialOverlay(s, root, views.shown[v]) && Widened(s, old(views.shown)[v], views.shown[v])
    ensures views.shown[v].Keys == old(views.shown)[v].Keys + Within(c, b, Levels(level))
    ensures forall x {:trigger Full(s, views.shown[v], x)} ::
              x in s && b in c[x] && |c[x]| < |c[b]| + Levels(level) ==> Full(s, views.shown[v], x)
    ensures ValidOverlay(s, root, old(views.shown)[v]) ==> ValidOverlay(s, root, views.shown[v])
    decreases Levels(level), 1
  {
    ghost var o := views.shown[v];
    if level >= 3 {
      WithinNone(s, c, b);
      WidenedSelf(s, o);
      NoneBelow(s, c, b);
      return;
    }
    OpenUp(views, s, v, b, c, root);
    ghost var w := views.shown[v];
    ExpandChildren(views, s, v, b, level, c, root);
    WidenedMore(s, o, w, views.shown[v]);
    BeneathAll(s, c, b, w[b].kids, 2 - level);
    KidsBeneath(s, c, root, w, b, 2 - level);
    LevelsDone(s, c, root, o, views.shown[v], b, Levels(level));
  }

  /** How many levels are still to be shown. */
  function Levels(level: nat): nat {
    if level < 3 then 3 - level else 0
  }

  /** src/view.c:222-227 */
  method ExpandChildren(views: Views, s: Store, v: View, b: Ref, level: nat, ghost c: Chains, ghost root: Ref)
    requires views.Valid() && v in views.shown && views.viewers.Keys == s.Keys && Linked(s) && Chained(s, c)
    requires PartialOverlay(s, root, views.shown[v]) && b in views.shown[v] && b in s && level < 3
    modifies views`shown, views`viewers
    ensures views.Valid() && views.viewers.Keys == s.Keys && v in views.shown
    ensures views.shown == old(views.shown)[v := views.shown[v]]
    ensures PartialOverlay(s, root, views.shown[v]) && Widened(s, old(views.shown)[v], views.shown[v])
    ensures
      var o := old(views.shown)[v];
      views.shown[v].Keys == o.Keys + Beneath(c, o[b].kids, |o[b].kids|, 2 - level)
    decreases 3 - level, 0
  {
    ghost var o := views.shown[v];
    var l := views.shown[v][b].kids;
    WidenedSelf(s, o);
    assert Beneath(c, l, 0, 2 - level) == {};
    var i := 0;
    while i < |l|
      invariant 0 <= i <= |l| && views.Valid() && views.viewers.Keys == s.Keys && v in views.shown
      invariant views.shown == old(views.shown)[v := views.shown[v]] && PartialOverlay(s, root, views.shown[v])
      invariant Widened(s, o, views.shown[v]) && views.shown[v].Keys == o.Keys + Beneath(c, l, i, 2 - level)
    {
      ghost var w := views.shown[v];
      assert PartialAt(s, o, b) && l[i] in o && PartialAt(s, o, l[i]);
      BeneathStep(c, l, i, 2 - level);
      ViewExpand(views, s, v, l[i], level + 1, c, root);
      WidenedMore(s, o, w, views.shown[v]);
      i := i + 1;
    }
  }

  lemma WithinNone(s: Store, c: Chains, b: Ref)
    requires Chained(s, c) && b in s
    ensures Within(c, b, 0) == {b}
  {
    assert ChainedAt(s, c, b);
    forall x | x in Within(c, b, 0) ensures x == b {
      Suffix(s, c, x, b);
      assert ChainedAt(s, c, x);
      assert c[x][0..] == c[x] && c[x][0] == x && c[b][0] == b;
    }
  }

  lemma NoneBelow(s: Store, c: Chains, b: Ref)
    requires Chained(s, c) && b in s
    ensures forall x :: x in s && b in c[x] ==> |c[x]| >= |c[b]|
  {
    forall x | x in s && b in c[x] ensures |c[x]| >= |c[b]| {
      Suffix(s, c, x, b);
    }
  }

  lemma KidsBeneath(s: Store, c: Chains, root: Ref, o: Overlay, b: Ref, n: nat)
    requires Linked(s) && Chained(s, c) && PartialOverlay(s, root, o) && Full(s, o, b)
    ensures Elements(s[b].kids) <= Beneath(c, o[b].kids, |o[b].kids|, n)
  {
    assert LinkedAt(s, b);
    forall k | k in s[b].kids ensures k in c && OneOf(c, o[b].kids, |o[b].kids|, n, k) {
      assert k in o[b].kids;
      assert ChainedAt(s, c, k);
      var j :| 0 <= j < |o[b].kids| && o[b].kids[j] == k;
    }
  }

  /** Everything less than the full depth down lists all of its children. */
  lemma WithinFull(s: Store, c: Chains, root: Ref, o: Overlay, b: Ref, n: nat, x: Ref)
    requires Linked(s) && Chained(s, c) && PartialOverlay(s, root, o) && b in s && x in s && b in c[x]
    requires Within(c, b, n) <= o.Keys && |c[x]| < |c[b]| + n
    ensures Full(s, o, x)
  {
    assert x in Within(c, b, n) && PartialAt(s, o, x);
    forall k | k in s[x].kids ensures k in o[x].kids {
      assert LinkedAt(s, x);
      assert ChainedAt(s, c, k);
      assert k in Within(c, b, n) && PartialAt(s, o, k);
    }
  }

  /** All lists that many levels down are complete, and a valid overlay is still valid. */
  lemma LevelsDone(s: Store, c: Chains, root: Ref, o: Overlay, w: Overlay, b: Ref, n: nat)
    requires Linked(s) && Chained(s, c) && PartialOverlay(s, root, w) && Widened(s, o, w) && b in s
    requires w.Keys == o.Keys + Within(c, b, n) && b in o
    ensures forall x {:trigger Full(s, w, x)} :: x in s && b in c[x] && |c[x]| < |c[b]| + n ==> Full(s, w, x)
    ensures ValidOverlay(s, root, o) ==> ValidOverlay(s, root, w)
  {
    forall x | x in s && b in c[x] && |c[x]| < |c[b]| + n ensures Full(s, w, x) {
      WithinFull(s, c, root, w, b, n, x);
    }
    if ValidOverlay(s, root, o) {
      ValidIsPartial(s, root, o);
      WidenedValid(s, root, o, w, root);
    }
  }

  /** If only the list of `b` was partial, and it is complete now, the overlay is valid. */
  lemma WidenedValid(s: Store, root: Ref, o: Overlay, w: Overlay, b: Ref)
    requires Linked(s) && PartialOverlay(s, root, w) && Widened(s, o, w)
    requires forall x {:trigger Settled(s, o, x)} :: x in o && x != b ==> Settled(s, o, x)
    requires Settled(s, o, b) || Full(s, w, b)
    ensures ValidOverlay(s, root, w)
  {
    forall x | x in w ensures Settled(s, w, x) {
      if x in o && (x != b || Settled(s, o, b)) {
        WidenedSettled(s, o, w, x);
      } else if x !in o {
        assert Drawn(s, w, x);
      }
    }
    ValidIsPartial(s, root, w);
  }

  // ----- where partial lists come from

  /** Apart from the list of `q`, every list is empty or complete. */
  ghost predicate PartialOnly(s: Store, root: Ref, o: Overlay, q: Ref) {
    && PartialOverlay(s, root, o)
    && forall x {:trigger Settled(s, o, x)} :: x in o && x != q ==> Settled(s, o, x)
  }

  /** An overlay that does not follow a hidden branch to `q` has at worst a partial list there. */
  lemma HiddenPartial(s: Store, t: Store, root: Ref, o: Overlay, b: Ref, q: Ref)
    requires Linked(s) && Linked(t) && ValidOverlay(s, root, o) && Rewired(s, t, b, q) && b !in o
    ensures PartialOnly(t, root, o, q)
  {
    forall x | x in o ensures PartialAt(t, o, x) && (x != q ==> Settled(t, o, x)) {
      assert ShownAt(s, o, x);
      assert LinkedAt(s, x);
      if b in s[x].kids {
        SeenTogether(s, root, o, x, b);
      }
    }
  }

  /** The lone child of src/map.c:196-206 makes at worst a partial list. */
  lemma LonePartial(s: Store, t: Store, root: Ref, o: Overlay, b: Ref, q: Ref, pos: int)
    requires Linked(s) && Linked(t) && ValidOverlay(s, root, o) && Rewired(s, t, b, q) && b !in o && q in o
    requires s[b].parent.None?
    ensures PartialOnly(t, root, Appeared(o, b, q, pos), q)
  {
    var w := Appeared(o, b, q, pos);
    InsertedMembers(o[q].kids, Clamp(pos, |o[q].kids|), b);
    assert ShownAt(s, o, q);
    forall x | x in w ensures PartialAt(t, w, x) && (x != q ==> Settled(t, w, x)) {
      if x != b {
        assert ShownAt(s, o, x) && LinkedAt(s, x);
      }
    }
  }

  /** After an insertion, only the list of the parent can be partial. */
  lemma InsertSeenPartial(s: Store, t: Store, c: Chains, root: Ref, o: Overlay, n: Ref, nb: Branch, q: Ref, pos: int,
                          mine: bool)
    requires Linked(s) && Linked(t) && Chained(s, c) && ValidOverlay(s, root, o) && q in s && EndsAt(c[q], root)
    requires n !in s && nb.parent == None && nb.kids == [] && Rewired(Lone(s, n, nb), t, n, q)
    ensures PartialOnly(t, root, InsertSeen(s, c, o, n, q, pos, mine), q)
  {
    InsertSeenValid(s, t, c, root, o, n, nb, q, pos, mine);
    if AddsLoneChild(s, o, q, mine) {
      LoneLinked(s, n, nb);
      LoneValid(s, root, o, n, nb);
      LonePartial(Lone(s, n, nb), t, root, o, n, q, pos);
    } else {
      ValidIsPartial(t, root, InsertSeen(s, c, o, n, q, pos, mine));
    }
  }

  /** After a move, only the list of the destination can be partial. */
  lemma MoveSeenPartial(s: Store, t: Store, c: Chains, root: Ref, o: Overlay, b: Ref, q: Ref, mine: bool)
    requires CanMove(s, c, root, b, q) && Linked(t) && ValidOverlay(s, root, o) && Rewired(s, t, b, q)
    ensures PartialOnly(t, root, MoveSeen(s, c, o, b, q, mine), q)
  {
    MoveSeenValid(s, t, c, root, o, b, q, mine);
    if MissesArrival(o, b, q, mine) {
      HiddenPartial(s, t, root, o, b, q);
    } else {
      ValidIsPartial(t, root, MoveSeen(s, c, o, b, q, mine));
    }
  }

  /** All views but that of the asker show a valid overlay, and that one lacks at worst some children of `q`. */
  ghost predicate AllPartial(s: Store, root: Ref, shown: map<View, Overlay>, asker: Option<View>, q: Ref) {
    forall v {:trigger shown[v]} :: v in shown ==>
      PartialOnly(s, root, shown[v], q) && (asker != Some(v) ==> ValidOverlay(s, root, shown[v]))
  }
}
