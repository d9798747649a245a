/**
 The loop of view_expand_to (src/view.c:270-341), which builds the missing vbranches from the bottom up,
 against the definition of `Revealed`, which shows them from the top down.
 */
module Reveal {
  import opened Options
  import opened Sequences
  import opened Forest
  import opened Overlay
  import opened BranchTree

  /** New vbranches, without a parent yet, for all children of `y`; the one for `b` has the children `prev`. */
  function Level(s: Store, o: Overlay, y: Ref, b: Ref, prev: seq<Ref>): Overlay
    requires y in s
  {
    map x | x in o.Keys + (set k | k in s[y].kids) ::
      if x in s[y].kids then VBranch(None, if x == b then prev else []) else o[x]
  }

  /** The vbranches of `l` get their parent. */
  function Adopted(o: Overlay, l: seq<Ref>, p: Ref): Overlay {
    map x | x in o :: if x in l then o[x].(parent := Some(p)) else o[x]
  }

  /** All children of the branches in `ys`. */
  ghost function KidsOf(s: Store, ys: seq<Ref>): set<Ref> {
    set y, k | y in ys && y in s && k in s[y].kids :: k
  }

  ghost function OpenedAt(s: Store, o: Overlay, ys: seq<Ref>, x: Ref): VBranch {
    VBranch(if x in o then o[x].parent else if x in s then s[x].parent else None,
            if x in ys && x in s then s[x].kids else if x in o then o[x].kids else [])
  }

  /** The branches of `ys` opened up, described for each vbranch by itself. */
  ghost function Opened(s: Store, o: Overlay, ys: seq<Ref>): Overlay {
    map x | x in o.Keys + KidsOf(s, ys) :: OpenedAt(s, o, ys, x)
  }

  lemma KidsOfCons(s: Store, y: Ref, ys: seq<Ref>)
    requires y in s
    ensures KidsOf(s, [y] + ys) == KidsOf(s, ys) + set k | k in s[y].kids
  {
  }

  /** The list that is to be hung below the vbranch of l[i]. */
  ghost function Loose(s: Store, l: seq<Ref>, i: nat): seq<Ref> {
    if 0 < i < |l| && l[i] in s then s[l[i]].kids else []
  }

  ghost predicate PendingAt(s: Store, o0: Overlay, o: Overlay, l: seq<Ref>, i: nat, x: Ref)
    requires x in o && i < |l|
  {
    if x in o0 then o[x] == o0[x] else
      && x in s
      && o[x].parent == (if x in Loose(s, l, i) then None else s[x].parent)
      && o[x].kids == (if x in l[..i] && x != l[0] then s[x].kids else [])
  }

  /** After `i` turns of the loop the children of l[1] to l[i] have vbranches, the last ones without a parent. */
  ghost predicate Pending(s: Store, o0: Overlay, o: Overlay, l: seq<Ref>, i: nat) {
    && i < |l|
    && o.Keys == o0.Keys + KidsOf(s, l[1..i + 1])
    && (forall x {:trigger PendingAt(s, o0, o, l, i, x)} :: x in o ==> PendingAt(s, o0, o, l, i, x))
  }

  /** No child of the next branch up has a vbranch yet. */
  lemma NextHidden(s: Store, c: Chains, root: Ref, o0: Overlay, o: Overlay, b: Ref, i: nat, k: Ref)
    requires Linked(s) && Chained(s, c) && ValidOverlay(s, root, o0) && b in s
    requires Pending(s, o0, o, c[b], i) && i + 1 < |c[b]| && c[b][i] !in o0
    requires c[b][i + 1] in s && k in s[c[b][i + 1]].kids
    ensures k !in o && k in s && s[k].parent == Some(c[b][i + 1])
  {
    var l, y := c[b], c[b][i + 1];
    ChainStep(s, c, b, i);
    assert LinkedAt(s, l[i]) && LinkedAt(s, y);
    if y in o0 {
      SeenTogether(s, root, o0, y, l[i]);
      SeenTogether(s, root, o0, y, k);
    } else if k in o0 {
      ParentShown(s, root, o0, k);
    }
    ChainNoDup(s, c, b);
    forall z | z in l[1..i + 1] && z in s ensures k !in s[z].kids {
      assert LinkedAt(s, z);
      var j :| 1 <= j < i + 1 && l[j] == z;
    }
  }

  /** The children that are still without a parent. */
  lemma LooseKids(s: Store, c: Chains, root: Ref, o0: Overlay, o: Overlay, b: Ref, i: nat, k: Ref)
    requires Linked(s) && Chained(s, c) && ValidOverlay(s, root, o0) && b in s
    requires Pending(s, o0, o, c[b], i) && c[b][i] !in o0 && k in Loose(s, c[b], i)
    ensures k in o && k !in o0 && k in s && s[k].parent == Some(c[b][i])
  {
    var l := c[b];
    assert LinkedAt(s, l[i]) && l[i] in l[1..i + 1];
    if k in o0 {
      ParentShown(s, root, o0, k);
    }
  }

  lemma PendingStepAt(s: Store, c: Chains, root: Ref, o0: Overlay, o: Overlay, b: Ref, i: nat, x: Ref)
    requires Linked(s) && Chained(s, c) && ValidOverlay(s, root, o0) && b in s
    requires Pending(s, o0, o, c[b], i) && i + 1 < |c[b]| && c[b][i] !in o0 && c[b][i + 1] in s
    requires x in Level(s, o, c[b][i + 1], c[b][i], Loose(s, c[b], i))
    ensures
      var l := c[b];
      PendingAt(s, o0, Adopted(Level(s, o, l[i + 1], l[i], Loose(s, l, i)), Loose(s, l, i), l[i]), l, i + 1, x)
  {
    var l := c[b];
    ChainStep(s, c, b, i);
    ChainNoDup(s, c, b);
    var y, prev := l[i + 1], Loose(s, l, i);
    assert LinkedAt(s, y);
    if x in s[y].kids {
      NextHidden(s, c, root, o0, o, b, i, x);
      if x in prev {
        LooseKids(s, c, root, o0, o, b, i, x);
      }
      NotBelow(s, c, b, i, x);
    } else {
      assert PendingAt(s, o0, o, l, i, x);
      if x in prev {
        LooseKids(s, c, root, o0, o, b, i, x);
      }
      assert LinkedAt(s, l[i]);
    }
  }

  /** On the way up, only l[i] is a child of l[i + 1]. */
  lemma NotBelow(s: Store, c: Chains, b: Ref, i: nat, x: Ref)
    requires Linked(s) && Chained(s, c) && b in s && i + 1 < |c[b]| && c[b][i + 1] in s && x in s[c[b][i + 1]].kids
    ensures x in c[b][..i + 1] ==> x == c[b][i]
  {
    if x in c[b][..i + 1] {
      var j :| 0 <= j < i + 1 && c[b][j] == x;
      ChainStep(s, c, b, j);
      ChainNoDup(s, c, b);
      assert LinkedAt(s, c[b][i + 1]);
    }
  }

  lemma PendingStep(s: Store, c: Chains, root: Ref, o0: Overlay, o: Overlay, b: Ref, i: nat)
    requires Linked(s) && Chained(s, c) && ValidOverlay(s, root, o0) && b in s
    requires Pending(s, o0, o, c[b], i) && i + 1 < |c[b]| && c[b][i] !in o0
    ensures c[b][i + 1] in s
    ensures
      var l := c[b];
      Pending(s, o0, Adopted(Level(s, o, l[i + 1], l[i], Loose(s, l, i)), Loose(s, l, i), l[i]), l, i + 1)
  {
    var l := c[b];
    ChainStep(s, c, b, i + 1);
    var v := Adopted(Level(s, o, l[i + 1], l[i], Loose(s, l, i)), Loose(s, l, i), l[i]);
    assert l[1..i + 2] == l[1..i + 1] + [l[i + 1]];
    forall x | x in v ensures PendingAt(s, o0, v, l, i + 1, x) {
      PendingStepAt(s, c, root, o0, o, b, i, x);
    }
  }

  // ----- from the top down

  lemma OpenedStepAt(s: Store, o: Overlay, y: Ref, ys: seq<Ref>, x: Ref)
    requires Linked(s) && y in s && y !in ys && y in Opened(s, o, ys)
    requires forall k :: k in s[y].kids ==> k !in Opened(s, o, ys) && k !in ys && k != y
    requires x in KidsShown(s, Opened(s, o, ys), y)
    ensures KidsShown(s, Opened(s, o, ys), y)[x] == OpenedAt(s, o, [y] + ys, x)
  {
    assert LinkedAt(s, y);
    assert x in [y] + ys <==> x == y || x in ys;
  }

  /** Opening the lowest branch last. */
  lemma OpenedStep(s: Store, o: Overlay, y: Ref, ys: seq<Ref>)
    requires Linked(s) && y in s && y !in ys && y in Opened(s, o, ys)
    requires forall k :: k in s[y].kids ==> k !in Opened(s, o, ys) && k !in ys && k != y
    ensures KidsShown(s, Opened(s, o, ys), y) == Opened(s, o, [y] + ys)
  {
    KidsOfCons(s, y, ys);
    var u, v := KidsShown(s, Opened(s, o, ys), y), Opened(s, o, [y] + ys);
    assert u.Keys == v.Keys;
    forall x | x in u ensures u[x] == v[x] {
      OpenedStepAt(s, o, y, ys, x);
    }
  }

  lemma NotAboveParent(s: Store, c: Chains, b: Ref, i: nat, k: Ref)
    requires Linked(s) && Chained(s, c) && b in s && 0 < i < |c[b]| && c[b][1] in s && k in s[c[b][1]].kids
    ensures k !in c[b][2..i + 1] && k != c[b][1] && c[b][1] !in c[b][2..i + 1]
  {
    ChainNoDup(s, c, b);
    assert LinkedAt(s, c[b][1]);
    forall j | 1 <= j < i + 1 ensures c[b][j] != k {
      ChainStep(s, c, b, j);
    }
  }

  lemma OpenedNone(s: Store, root: Ref, o: Overlay)
    requires ValidOverlay(s, root, o)
    ensures Opened(s, o, []) == o
  {
  }

  /** `Revealed` opens all branches on the way up to the first visible one. */
  lemma {:induction false} RevealedOpens(s: Store, c: Chains, root: Ref, o: Overlay, b: Ref, i: nat)
    requires Linked(s) && Chained(s, c) && ValidOverlay(s, root, o) && b in s && EndsAt(c[b], root)
    requires i < |c[b]| && c[b][i] in o && (forall j :: 0 <= j < i ==> c[b][j] !in o)
    ensures Revealed(s, o, c[b]) == Opened(s, o, c[b][1..i + 1])
    decreases i
  {
    var l := c[b];
    assert ChainedAt(s, c, b) && l[0] == b;
    if i == 0 {
      OpenedNone(s, root, o);
    } else {
      RevealStep(s, c, root, o, b);
      var y := s[b].parent.value;
      var ys := l[2..i + 1];
      assert c[y] == l[1..] && c[y][1..i] == ys && l[1] == y && l[1..i + 1] == [y] + ys by {
        assert ChainedAt(s, c, y);
      }
      RevealedOpens(s, c, root, o, y, i - 1);
      RevealedValid(s, c, root, o, y);
      if y in o {
        SeenTogether(s, root, o, y, b);
      }
      KidsShownValid(s, root, Opened(s, o, ys), y);
      forall k | k in s[y].kids ensures k !in ys && k != y && y !in ys {
        NotAboveParent(s, c, b, i, k);
      }
      OpenedStep(s, o, y, ys);
    }
  }

  /** The vbranch found gets the list that is left over. */
  function Hung(o: Overlay, b: Ref, prev: seq<Ref>): Overlay
    requires b in o
  {
    var u := Adopted(o, prev, b);
    u[b := u[b].(kids := prev)]
  }

  lemma OnTheWay(l: seq<Ref>, i: nat, x: Ref)
    requires NoDup(l) && 0 < i < |l|
    ensures x in l[1..i + 1] <==> (x in l[..i] && x != l[0]) || x == l[i]
  {
    assert l[..i] == [l[0]] + l[1..i] && l[1..i + 1] == l[1..i] + [l[i]];
  }

  lemma PendingDoneAt(s: Store, c: Chains, root: Ref, o0: Overlay, o: Overlay, b: Ref, i: nat, x: Ref)
    requires Linked(s) && Chained(s, c) && ValidOverlay(s, root, o0) && b in s
    requires Pending(s, o0, o, c[b], i) && 0 < i && c[b][i] in o0 && (forall j :: 0 <= j < i ==> c[b][j] !in o0)
    requires x in o && c[b][i] in o
    ensures Hung(o, c[b][i], Loose(s, c[b], i))[x] == OpenedAt(s, o0, c[b][1..i + 1], x)
  {
    var l := c[b];
    var e, prev := l[i], Loose(s, l, i);
    ChainStep(s, c, b, i);
    ChainStep(s, c, b, i - 1);
    ChainNoDup(s, c, b);
    assert LinkedAt(s, e) && LinkedAt(s, l[i - 1]) && PendingAt(s, o0, o, l, i, x);
    OnTheWay(l, i, x);
    if x in prev {
      SeenTogether(s, root, o0, e, x);
      SeenTogether(s, root, o0, e, l[i - 1]);
    }
    if x in l[..i] {
      var j :| 0 <= j < i && l[j] == x;
    }
  }

  lemma PendingDone(s: Store, c: Chains, root: Ref, o0: Overlay, o: Overlay, b: Ref, i: nat)
    requires Linked(s) && Chained(s, c) && ValidOverlay(s, root, o0) && b in s && EndsAt(c[b], root)
    requires Pending(s, o0, o, c[b], i) && 0 < i && c[b][i] in o0 && (forall j :: 0 <= j < i ==> c[b][j] !in o0)
    ensures Loose(s, c[b], i) != [] && c[b][i] in o && Hung(o, c[b][i], Loose(s, c[b], i)) == Revealed(s, o0, c[b])
  {
    var l := c[b];
    ChainStep(s, c, b, i);
    ChainStep(s, c, b, i - 1);
    assert LinkedAt(s, l[i - 1]);
    RevealedOpens(s, c, root, o0, b, i);
    var u, v := Hung(o, l[i], Loose(s, l, i)), Opened(s, o0, l[1..i + 1]);
    assert u.Keys == v.Keys;
    forall x | x in u ensures u[x] == v[x] {
      PendingDoneAt(s, c, root, o0, o, b, i, x);
    }
  }

  lemma PendingStart(s: Store, o: Overlay, l: seq<Ref>)
    requires l != []
    ensures Pending(s, o, o, l, 0)
  {
    assert KidsOf(s, l[1..1]) == {};
  }

  /** Until it is reached, a branch on the way is visible exactly if it was visible before. */
  lemma SeenSame(s: Store, c: Chains, root: Ref, o0: Overlay, o: Overlay, b: Ref, i: nat)
    requires Linked(s) && Chained(s, c) && ValidOverlay(s, root, o0) && b in s && EndsAt(c[b], root)
    requires Pending(s, o0, o, c[b], i)
    ensures c[b][i] in o <==> c[b][i] in o0
    ensures c[b][i] !in o0 ==>
              c[b][i] in s && i + 1 < |c[b]| && s[c[b][i]].parent == Some(c[b][i + 1]) && c[b][i + 1] in s
  {
    ChainStep(s, c, b, i);
    if c[b][i] !in o0 {
      assert LinkedAt(s, c[b][i]);
      NextHidden(s, c, root, o0, o, b, i, c[b][i]);
    }
  }

  lemma {:induction false} DeepestAt(o: Overlay, l: seq<Ref>, i: nat)
    requires i < |l| && l[i] in o && (forall j :: 0 <= j < i ==> l[j] !in o)
    ensures Deepest(o, l) == Some(l[i])
  {
    if i > 0 {
      assert l[1..][i - 1] == l[i];
      DeepestAt(o, l[1..], i - 1);
    }
  }

  /** Nothing was made: the branch was visible. */
  lemma PendingNone(s: Store, c: Chains, o0: Overlay, o: Overlay, b: Ref)
    requires Chained(s, c) && b in s && b in o0 && Pending(s, o0, o, c[b], 0)
    ensures o == Revealed(s, o0, c[b])
  {
    assert ChainedAt(s, c, b) && KidsOf(s, c[b][1..1]) == {};
    forall x | x in o ensures o[x] == o0[x] {
      assert PendingAt(s, o0, o, c[b], 0, x);
    }
  }

  lemma LooseShown(s: Store, c: Chains, root: Ref, o0: Overlay, o: Overlay, b: Ref, i: nat)
    requires Chained(s, c) && b in s && Pending(s, o0, o, c[b], i) && Loose(s, c[b], i) != []
    ensures i > 0 && forall k :: k in Loose(s, c[b], i) ==> k in o
  {
    assert c[b][i] in c[b][1..i + 1];
  }
}
