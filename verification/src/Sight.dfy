/**
 How the views follow a change of the branch tree: what src/map.c does to each overlay when a branch is
 inserted, moved or deleted, and what it tells the client of that view.
 */
module Sight {
  import opened Options
  import opened Forest
  import opened Overlay

  type View = nat

  /** The messages that src/map.c puts on the queue `out_q`, with branches named by their ids. */
  datatype Notice =
    | MapInsert(view: View, parent: nat, pos: int, branch: nat)
    | MapMove(view: View, parent: nat, branch: nat, pos: int, retry: bool)
    | MapCount(view: View, branch: nat, n: int)
    | MapDelete(view: View, branch: nat)

  /** The notices of `l` that go to the client of `v`. */
  function Addressed(l: seq<Notice>, v: View): seq<Notice> {
    if l == [] then [] else
    Addressed(l[..|l| - 1], v) + if l[|l| - 1].view == v then [l[|l| - 1]] else []
  }

  lemma {:induction false} AddressedConcat(l: seq<Notice>, m: seq<Notice>, v: View)
    ensures Addressed(l + m, v) == Addressed(l, v) + Addressed(m, v)
  {
    if m == [] {
      assert l + m == l;
    } else {
      var n := |m| - 1;
      AddressedConcat(l, m[..n], v);
      assert (l + m)[..|l + m| - 1] == l + m[..n];
    }
  }

  lemma {:induction false} AddressedAll(m: seq<Notice>, v: View, w: View)
    requires forall i :: 0 <= i < |m| ==> m[i].view == w
    ensures Addressed(m, v) == if v == w then m else []
  {
    if m != [] {
      AddressedAll(m[..|m| - 1], v, w);
      assert m == m[..|m| - 1] + [m[|m| - 1]];
    }
  }

  /** Notices for one view added to what was sent. */
  lemma SentMore(sent: seq<Notice>, m: seq<Notice>, v: View)
    requires forall i :: 0 <= i < |m| ==> m[i].view == v
    ensures forall w :: Addressed(sent + m, w) == Addressed(sent, w) + if w == v then m else []
  {
    forall w ensures Addressed(sent + m, w) == Addressed(sent, w) + if w == v then m else [] {
      AddressedConcat(sent, m, w);
      AddressedAll(m, w, v);
    }
  }

  function PosIn(l: seq<Ref>, b: Ref): int {
    if b !in l then -1 else if l[0] == b then 0 else 1 + PosIn(l[1..], b)
  }

  /** branch_get_pos */
  function Position(s: Store, b: Ref): int
    requires b in s && s[b].parent.Some? && s[b].parent.value in s
  {
    PosIn(s[s[b].parent.value].kids, b)
  }

  /** view_expand_to with children: the target is revealed, and then its children are. */
  function Expanded(s: Store, o: Overlay, l: seq<Ref>): Overlay {
    var e := Revealed(s, o, l);
    if l != [] && l[0] in s && l[0] in e && s[l[0]].kids != [] then KidsShown(s, e, l[0]) else e
  }

  lemma ExpandedValid(s: Store, c: Chains, root: Ref, o: Overlay, q: Ref)
    requires Linked(s) && Chained(s, c) && ValidOverlay(s, root, o) && q in s && EndsAt(c[q], root) && Unopened(o, q)
    ensures ValidOverlay(s, root, Expanded(s, o, c[q])) && o.Keys <= Expanded(s, o, c[q]).Keys
    ensures Open(s, Expanded(s, o, c[q]), q)
  {
    RevealedValid(s, c, root, o, q);
    assert ChainedAt(s, c, q);
    NotOwnKid(s, c, q);
    if s[q].kids != [] {
      KidsShownValid(s, root, Revealed(s, o, c[q]), q);
    }
  }

  // ----- move

  /** src/map.c:499-781: one overlay after `b` has moved to below `q`; `mine` marks the view that asked for it. */
  function MoveSeen(s: Store, c: Chains, o: Overlay, b: Ref, q: Ref, mine: bool): Overlay
    requires b in s && s[b].parent.Some? && s[b].parent.value in s && q in s && q in c
  {
    var pos := Position(s, b);
    if b in o && Open(s, o, q) then
      VAdded(VDetached(o, b), b, q, pos)
    else if b !in o && Open(s, o, q) && !mine then
      Appeared(o, b, q, pos)
    else if b in o && b in Expanded(s, o, c[q]) && q in VDetached(Expanded(s, o, c[q]), b) then
      VAdded(VDetached(Expanded(s, o, c[q]), b), b, q, pos)
    else
      o
  }

  /** The case that src/map.c:565 leaves alone: the asking view sees the destination, but not the branch. */
  predicate MissesArrival(o: Overlay, b: Ref, q: Ref, mine: bool) {
    mine && b !in o && q in o && o[q].kids != []
  }

  ghost predicate CanMove(s: Store, c: Chains, root: Ref, b: Ref, q: Ref) {
    && Linked(s) && Chained(s, c)
    && b in s && s[b].parent.Some? && s[b].parent.value in s && q in s
    && b !in c[q] && EndsAt(c[q], root) && EndsAt(c[b], root)
  }

  /** A move keeps the overlay valid, except in that one case, in which it never does. */
  lemma MoveSeenValid(s: Store, t: Store, c: Chains, root: Ref, o: Overlay, b: Ref, q: Ref, mine: bool)
    requires CanMove(s, c, root, b, q) && ValidOverlay(s, root, o) && Rewired(s, t, b, q)
    ensures ValidOverlay(t, root, MoveSeen(s, c, o, b, q, mine)) <==> !MissesArrival(o, b, q, mine)
  {
    var pos := Position(s, b);
    assert ChainedAt(s, c, q);
    if b in o && Open(s, o, q) {
      MovedLists(s, root, o, b, q, pos);
      MovedShown(s, t, root, o, MoveSeen(s, c, o, b, q, mine), b, q);
    } else if b !in o && Open(s, o, q) && !mine {
      AppearedShown(s, t, root, o, b, q, pos);
    } else if b in o {
      ExpandedValid(s, c, root, o, q);
      var e := Expanded(s, o, c[q]);
      MovedLists(s, root, e, b, q, pos);
      assert MoveSeen(s, c, o, b, q, mine) == VAdded(VDetached(e, b), b, q, pos);
      MovedShown(s, t, root, e, MoveSeen(s, c, o, b, q, mine), b, q);
    } else {
      HiddenStays(s, t, root, o, b, q);
    }
  }

  function IdOf(s: Store, r: Option<Ref>): nat {
    if r.Some? && r.value in s then s[r.value].id else 0
  }

  /** What one view is told about a move to position `pos`. */
  function MoveNotices(s: Store, c: Chains, o: Overlay, b: Ref, q: Ref, pos: int, v: View, mine: bool): seq<Notice>
    requires b in s && s[b].parent.Some? && s[b].parent.value in c && q in s && q in c
  {
    var n := s[b].total + 1;
    var from, to := Deepest(o, c[s[b].parent.value]), Deepest(o, c[q]);
    var moved := if mine then [] else [MapMove(v, s[q].id, s[b].id, pos, false)];
    if b in o && Open(s, o, q) then
      moved
    else if b !in o && Open(s, o, q) && !mine then
      [MapCount(v, IdOf(s, from), -n), MapInsert(v, s[q].id, pos, s[b].id)]
    else if b in o then
      [MapInsert(v, IdOf(s, to), pos, IdOf(s, to))] + moved
    else if !mine && from != to then
      [MapCount(v, IdOf(s, from), -n), MapCount(v, IdOf(s, to), n)]
    else
      []
  }

  /** The sum of the count changes that are announced for a branch. */
  function Announced(l: seq<Notice>, id: nat): int {
    if l == [] then 0
    else (if l[0].MapCount? && l[0].branch == id then l[0].n else 0) + Announced(l[1..], id)
  }

  // ----- the branches hidden behind a vbranch

  /** The branches whose deepest visible ancestor is `e`. */
  ghost function Hidden(c: Chains, o: Overlay, e: Ref): set<Ref> {
    set x | x in c && x !in o && Deepest(o, c[x]) == Some(e)
  }

  lemma {:induction false} DeepestConcat(o: Overlay, h: seq<Ref>, l: seq<Ref>)
    ensures Deepest(o, h + l) == if Deepest(o, h).Some? then Deepest(o, h) else Deepest(o, l)
  {
    if h == [] {
      assert h + l == l;
    } else {
      assert (h + l)[1..] == h[1..] + l;
      DeepestConcat(o, h[1..], l);
    }
  }

  lemma {:induction false} DeepestIs(o: Overlay, l: seq<Ref>)
    ensures Deepest(o, l).Some? ==> Deepest(o, l).value in o && Deepest(o, l).value in l
    ensures Deepest(o, l).None? <==> forall x :: x in l ==> x !in o
  {
    if l != [] {
      DeepestIs(o, l[1..]);
      assert forall x :: x in l <==> x == l[0] || x in l[1..];
    }
  }

  /** It is the first visible branch on the way, with none before it. */
  lemma {:induction false} DeepestFirst(o: Overlay, l: seq<Ref>, e: Ref)
    ensures Deepest(o, l) == Some(e) <==>
            exists i :: 0 <= i < |l| && l[i] == e && e in o && forall j :: 0 <= j < i ==> l[j] !in o
  {
    if l != [] && l[0] !in o {
      DeepestFirst(o, l[1..], e);
      if Deepest(o, l) == Some(e) {
        var i :| 0 <= i < |l| - 1 && l[1..][i] == e && e in o && forall j :: 0 <= j < i ==> l[1..][j] !in o;
        assert l[i + 1] == e && forall j :: 0 < j < i + 1 ==> l[j] == l[1..][j - 1];
      }
      if i :| 0 <= i < |l| && l[i] == e && e in o && forall j :: 0 <= j < i ==> l[j] !in o {
        assert l[1..][i - 1] == e && forall j :: 0 <= j < i - 1 ==> l[1..][j] == l[j + 1];
      }
    }
  }

  lemma {:induction false} DeepestAgree(o: Overlay, v: Overlay, l: seq<Ref>)
    requires forall x :: x in l ==> (x in o <==> x in v)
    ensures Deepest(o, l) == Deepest(v, l)
  {
    if l != [] {
      DeepestAgree(o, v, l[1..]);
    }
  }

  /** The way up from `x`, before and after `b` on it has moved from below `p` to below `q`. */
  ghost predicate Bent(s: Store, c: Chains, d: Chains, b: Ref, p: Ref, q: Ref) {
    && c.Keys == d.Keys && p in c && q in c && b !in c[p] && b !in c[q]
    && (forall x :: x in c && b !in c[x] ==> d[x] == c[x])
    && (forall x :: x in c && b in c[x] ==> BentAt(c, d, b, p, q, x))
  }

  ghost predicate BentAt(c: Chains, d: Chains, b: Ref, p: Ref, q: Ref, x: Ref)
    requires x in c && x in d && p in c && q in c
  {
    var n := |c[x]| - |c[p]|;
    n > 0 && c[x] == c[x][..n] + c[p] && d[x] == c[x][..n] + c[q] && c[x][n - 1] == b
  }

  ghost function MovedChains(c: Chains, b: Ref, q: Ref): Chains
    requires b in c && q in c
  {
    AttachedChains(DetachedChains(c, b), b, q)
  }

  /** A way up falls into the part up to `b` and the way up from the parent of `b`. */
  lemma SplitAt(s: Store, c: Chains, b: Ref, x: Ref)
    requires Chained(s, c) && b in s && s[b].parent.Some? && s[b].parent.value in c && x in s && b in c[x]
    ensures
      var p := s[b].parent.value;
      var n := |c[x]| - |c[p]|;
      n > 0 && |c[b]| == |c[p]| + 1 && c[x][n - 1] == b && c[x] == c[x][..n] + c[p]
  {
    assert ChainedAt(s, c, b);
    Suffix(s, c, x, b);
    var n := |c[x]| - |c[b]|;
    assert c[x] == c[x][..n] + c[x][n..];
    assert c[x][..n] + [b] == c[x][..n + 1];
  }

  lemma MovedBent(s: Store, c: Chains, root: Ref, b: Ref, q: Ref)
    requires CanMove(s, c, root, b, q)
    ensures Bent(s, c, MovedChains(c, b, q), b, s[b].parent.value, q)
  {
    var p, d, e := s[b].parent.value, MovedChains(c, b, q), DetachedChains(c, b);
    Acyclic(s, c, b);
    assert e[q] == c[q];
    forall x | x in c && b in c[x] ensures BentAt(c, d, b, p, q, x) {
      SplitAt(s, c, b, x);
      var n := |c[x]| - |c[p]|;
      assert e[x] == c[x][..n] && b == e[x][n - 1];
    }
  }

  // ----- the announced counts are right

  /** Nothing below a hidden branch is visible. */
  lemma HiddenBelow(s: Store, c: Chains, root: Ref, o: Overlay, b: Ref, x: Ref)
    requires Linked(s) && Chained(s, c) && ValidOverlay(s, root, o) && x in s && b in c[x] && b !in o
    ensures x !in o
  {
    if x in o {
      VisibleAbove(s, c, root, o, x, b);
    }
  }

  /** The part of a way up to a hidden `b` shows nothing, so that the way from the parent of `b` decides. */
  lemma DeepestPast(s: Store, c: Chains, root: Ref, o: Overlay, b: Ref, p: Ref, n: nat, x: Ref, l: seq<Ref>)
    requires Linked(s) && Chained(s, c) && ValidOverlay(s, root, o) && x in s && b in c[x] && b !in o
    requires 0 < n <= |c[x]| && c[x][n - 1] == b
    ensures Deepest(o, c[x][..n] + l) == Deepest(o, l)
  {
    forall y | y in c[x][..n] ensures y !in o {
      var i :| 0 <= i < n && c[x][i] == y;
      Meets(s, c, x, i, b, n - 1);
      HiddenBelow(s, c, root, o, b, y);
    }
    DeepestIs(o, c[x][..n]);
    DeepestConcat(o, c[x][..n], l);
  }

  /** If `b` is visible, the part of a way up to it decides. */
  lemma DeepestWithin(o: Overlay, h: seq<Ref>, b: Ref, l: seq<Ref>, m: seq<Ref>)
    requires b in h && b in o
    ensures Deepest(o, h + l) == Deepest(o, h + m)
  {
    DeepestIs(o, h);
    DeepestConcat(o, h, l);
    DeepestConcat(o, h, m);
  }

  /** The branch moves with its vbranch: nothing changes behind any vbranch. */
  lemma HiddenMovedAlong(s: Store, c: Chains, d: Chains, o: Overlay, v: Overlay, b: Ref, p: Ref, q: Ref, e: Ref)
    requires Bent(s, c, d, b, p, q) && b in o && v.Keys == o.Keys
    ensures Hidden(d, v, e) == Hidden(c, o, e)
  {
    forall x | x in c ensures Deepest(v, d[x]) == Deepest(o, c[x]) {
      DeepestAgree(o, v, d[x]);
      if b in c[x] {
        assert BentAt(c, d, b, p, q, x);
        var n := |c[x]| - |c[p]|;
        DeepestWithin(o, c[x][..n], b, c[p], c[q]);
      }
    }
  }

  /** Both ends are hidden: what is under `b` changes from behind one vbranch to behind another. */
  lemma HiddenMovedUnseen(s: Store, c: Chains, d: Chains, root: Ref, o: Overlay, b: Ref, p: Ref, q: Ref, e: Ref)
    requires Linked(s) && Chained(s, c) && ValidOverlay(s, root, o) && Bent(s, c, d, b, p, q) && b !in o
    ensures Hidden(d, o, e) - Under(c, b) == Hidden(c, o, e) - Under(c, b)
    ensures Hidden(c, o, e) * Under(c, b) == if Deepest(o, c[p]) == Some(e) then Under(c, b) else {}
    ensures Hidden(d, o, e) * Under(c, b) == if Deepest(o, c[q]) == Some(e) then Under(c, b) else {}
  {
    forall x | x in c && b in c[x]
      ensures x !in o && Deepest(o, c[x]) == Deepest(o, c[p]) && Deepest(o, d[x]) == Deepest(o, c[q])
    {
      HiddenBelow(s, c, root, o, b, x);
      assert BentAt(c, d, b, p, q, x);
      var n := |c[x]| - |c[p]|;
      DeepestPast(s, c, root, o, b, p, n, x, c[p]);
      DeepestPast(s, c, root, o, b, p, n, x, c[q]);
    }
  }

  lemma SplitSize<N>(a: set<N>, u: set<N>)
    ensures |a| == |a - u| + |a * u|
  {
    assert a == (a - u) + (a * u);
  }

  /** `b` comes into sight: what is under it is no longer behind the vbranch it was behind. */
  lemma {:induction false} HiddenArrived(s: Store, c: Chains, d: Chains, root: Ref, o: Overlay, v: Overlay, b: Ref,
                                         p: Ref, q: Ref, e: Ref)
    requires Linked(s) && Chained(s, c) && ValidOverlay(s, root, o) && Bent(s, c, d, b, p, q)
    requires b !in o && v.Keys == o.Keys + {b} && e in o
    ensures Hidden(d, v, e) == Hidden(c, o, e) - Under(c, b)
  {
    if b in s {
      assert ChainedAt(s, c, b);
    }
    forall x | x in c ensures if b in c[x] then Deepest(v, d[x]) == Some(b) else Deepest(v, d[x]) == Deepest(o, c[x]) {
      if b in c[x] {
        assert BentAt(c, d, b, p, q, x);
        var n := |c[x]| - |c[p]|;
        var h := c[x][..n];
        assert h[n - 1] == b;
        DeepestIs(v, h);
        DeepestConcat(v, h, c[q]);
        var i :| 0 <= i < n && Deepest(v, h) == Some(h[i]);
        Meets(s, c, x, i, b, n - 1);
        HiddenBelow(s, c, root, o, b, h[i]);
      } else {
        DeepestAgree(o, v, c[x]);
      }
    }
  }

  /** The way up from the parent. */
  ghost function WayUp(s: Store, c: Chains, x: Ref): seq<Ref>
    requires x in s
  {
    if s[x].parent.Some? && s[x].parent.value in c then c[s[x].parent.value] else []
  }

  lemma DeepestStep(s: Store, c: Chains, o: Overlay, x: Ref)
    requires Chained(s, c) && x in s
    ensures x in o ==> Deepest(o, c[x]) == Some(x)
    ensures x !in o ==> Deepest(o, c[x]) == Deepest(o, WayUp(s, c, x))
  {
    assert ChainedAt(s, c, x);
    assert c[x][1..] == WayUp(s, c, x);
  }

  /** All vbranches that revealing makes were behind the same vbranch. */
  lemma {:induction false} RevealedBehind(s: Store, c: Chains, root: Ref, o: Overlay, b: Ref, z: Ref)
    requires Linked(s) && Chained(s, c) && ValidOverlay(s, root, o) && b in s && EndsAt(c[b], root)
    requires z in Revealed(s, o, c[b]) && z !in o
    ensures z in s && Deepest(o, c[z]) == Deepest(o, c[b])
    decreases |c[b]|
  {
    assert ChainedAt(s, c, b);
    RevealStep(s, c, root, o, b);
    var y := s[b].parent.value;
    RevealedValid(s, c, root, o, y);
    DeepestStep(s, c, o, b);
    if z in Revealed(s, o, c[y]) {
      RevealedBehind(s, c, root, o, y, z);
    } else {
      assert LinkedAt(s, y);
      DeepestStep(s, c, o, z);
    }
  }

  lemma ExpandedBehind(s: Store, c: Chains, root: Ref, o: Overlay, q: Ref, z: Ref)
    requires Linked(s) && Chained(s, c) && ValidOverlay(s, root, o) && q in s && EndsAt(c[q], root) && Unopened(o, q)
    requires z in Expanded(s, o, c[q]) && z !in o
    ensures z in s && Deepest(o, c[z]) == Deepest(o, c[q])
  {
    assert ChainedAt(s, c, q);
    if z in Revealed(s, o, c[q]) {
      RevealedBehind(s, c, root, o, q, z);
    } else {
      assert LinkedAt(s, q);
      DeepestStep(s, c, o, z);
      DeepestStep(s, c, o, q);
    }
  }

  lemma {:induction false} DeepestShrinks(o: Overlay, v: Overlay, l: seq<Ref>, e: Ref)
    requires o.Keys <= v.Keys && Deepest(v, l) == Some(e) && e in o
    ensures Deepest(o, l) == Some(e)
  {
    if l[0] != e {
      DeepestShrinks(o, v, l[1..], e);
    }
  }

  /** Vbranches that are not on the way to what is revealed hide what they hid. */
  lemma {:induction false} DeepestElsewhere(s: Store, c: Chains, root: Ref, o: Overlay, q: Ref, x: Ref)
    requires Linked(s) && Chained(s, c) && ValidOverlay(s, root, o) && q in s && EndsAt(c[q], root) && Unopened(o, q)
    requires x in s && Deepest(o, c[x]) != Deepest(o, c[q])
    ensures Deepest(Expanded(s, o, c[q]), c[x]) == Deepest(o, c[x]) && (x in Expanded(s, o, c[q]) ==> x in o)
    decreases |c[x]|
  {
    var v := Expanded(s, o, c[q]);
    ExpandedValid(s, c, root, o, q);
    DeepestStep(s, c, o, x);
    DeepestStep(s, c, v, x);
    assert ChainedAt(s, c, x);
    if x !in o {
      if x in v {
        ExpandedBehind(s, c, root, o, q, x);
      } else if s[x].parent.Some? {
        DeepestElsewhere(s, c, root, o, q, s[x].parent.value);
      }
    }
  }

  lemma HiddenExpanded(s: Store, c: Chains, root: Ref, o: Overlay, q: Ref, e: Ref)
    requires Linked(s) && Chained(s, c) && ValidOverlay(s, root, o) && q in s && EndsAt(c[q], root) && Unopened(o, q)
    requires e in o && Deepest(o, c[q]) != Some(e)
    ensures Hidden(c, Expanded(s, o, c[q]), e) == Hidden(c, o, e)
  {
    var v := Expanded(s, o, c[q]);
    ExpandedValid(s, c, root, o, q);
    forall x | x in c && x !in v && Deepest(v, c[x]) == Some(e) ensures Deepest(o, c[x]) == Some(e) {
      DeepestShrinks(o, v, c[x], e);
    }
    forall x | x in c && x !in o && Deepest(o, c[x]) == Some(e) ensures x !in v && Deepest(v, c[x]) == Some(e) {
      DeepestElsewhere(s, c, root, o, q, x);
    }
  }

  ghost predicate Countable(s: Store, c: Chains, root: Ref, o: Overlay, b: Ref, q: Ref, e: Ref) {
    && Trees(s, c) && CanMove(s, c, root, b, q) && ValidOverlay(s, root, o) && DistinctIds(s)
    && e in o && e in s
  }

  ghost predicate DistinctIds(s: Store) {
    forall x, y :: x in s && y in s && s[x].id == s[y].id ==> x == y
  }

  lemma ParentEnds(s: Store, c: Chains, root: Ref, b: Ref)
    requires Chained(s, c) && b in s && s[b].parent.Some? && s[b].parent.value in s && EndsAt(c[b], root)
    ensures EndsAt(c[s[b].parent.value], root)
  {
    assert ChainedAt(s, c, b) && ChainedAt(s, c, s[b].parent.value);
  }

  lemma MoveCountsSeen(s: Store, c: Chains, root: Ref, o: Overlay, b: Ref, q: Ref, e: Ref)
    requires Countable(s, c, root, o, b, q, e) && b in o
    requires !Open(s, o, q) ==> Deepest(o, c[q]) != Some(e)
    ensures Hidden(MovedChains(c, b, q), MoveSeen(s, c, o, b, q, false), e) == Hidden(c, o, e)
  {
    var p, d, w := s[b].parent.value, MovedChains(c, b, q), MoveSeen(s, c, o, b, q, false);
    MovedBent(s, c, root, b, q);
    assert ChainedAt(s, c, q);
    if Open(s, o, q) {
      MovedLists(s, root, o, b, q, Position(s, b));
      HiddenMovedAlong(s, c, d, o, w, b, p, q, e);
    } else {
      ExpandedValid(s, c, root, o, q);
      MovedLists(s, root, Expanded(s, o, c[q]), b, q, Position(s, b));
      HiddenMovedAlong(s, c, d, Expanded(s, o, c[q]), w, b, p, q, e);
      HiddenExpanded(s, c, root, o, q, e);
    }
  }

  lemma MoveCountsArriving(s: Store, c: Chains, root: Ref, o: Overlay, b: Ref, q: Ref, e: Ref)
    requires Countable(s, c, root, o, b, q, e) && b !in o && Open(s, o, q)
    ensures |Hidden(MovedChains(c, b, q), MoveSeen(s, c, o, b, q, false), e)| - |Hidden(c, o, e)|
            == if Deepest(o, c[s[b].parent.value]) == Some(e) then -s[b].total - 1 else 0
  {
    var p, d, u := s[b].parent.value, MovedChains(c, b, q), Under(c, b);
    MovedBent(s, c, root, b, q);
    HiddenArrived(s, c, d, root, o, MoveSeen(s, c, o, b, q, false), b, p, q, e);
    HiddenMovedUnseen(s, c, d, root, o, b, p, q, e);
    SplitSize(Hidden(c, o, e), u);
    assert CountedAt(s, c, b);
  }

  lemma MoveCountsUnseen(s: Store, c: Chains, root: Ref, o: Overlay, b: Ref, q: Ref, e: Ref)
    requires Countable(s, c, root, o, b, q, e) && b !in o && !Open(s, o, q)
    ensures |Hidden(MovedChains(c, b, q), MoveSeen(s, c, o, b, q, false), e)| - |Hidden(c, o, e)|
            == (if Deepest(o, c[q]) == Some(e) then s[b].total + 1 else 0)
             - (if Deepest(o, c[s[b].parent.value]) == Some(e) then s[b].total + 1 else 0)
  {
    var p, d, u := s[b].parent.value, MovedChains(c, b, q), Under(c, b);
    MovedBent(s, c, root, b, q);
    HiddenMovedUnseen(s, c, d, root, o, b, p, q, e);
    SplitSize(Hidden(c, o, e), u);
    SplitSize(Hidden(d, o, e), u);
    assert CountedAt(s, c, b);
  }

  /** What a list of at most two notices announces. */
  lemma AnnouncedPair(m: Notice, n: Notice, id: nat)
    ensures Announced([m], id) == if m.MapCount? && m.branch == id then m.n else 0
    ensures Announced([m, n], id) == Announced([m], id) + Announced([n], id)
  {
    assert [m, n][1..] == [n];
  }

  /**
   The counts announced to a view that did not ask for the move: behind every vbranch that is visible
   before and after, the number of hidden branches changes by what is announced, unless the move opens
   that vbranch to make the destination visible.
   */
  lemma MoveCounts(s: Store, c: Chains, root: Ref, o: Overlay, b: Ref, q: Ref, pos: int, v: View, e: Ref)
    requires Countable(s, c, root, o, b, q, e)
    requires b in o && !Open(s, o, q) ==> Deepest(o, c[q]) != Some(e)
    ensures |Hidden(MovedChains(c, b, q), MoveSeen(s, c, o, b, q, false), e)| - |Hidden(c, o, e)|
            == Announced(MoveNotices(s, c, o, b, q, pos, v, false), s[e].id)
  {
    var p := s[b].parent.value;
    var n, from, to := s[b].total + 1, Deepest(o, c[p]), Deepest(o, c[q]);
    ParentEnds(s, c, root, b);
    DeepestKnown(s, c, root, o, p);
    DeepestKnown(s, c, root, o, q);
    AnnouncedPair(MapCount(v, IdOf(s, from), -n), MapCount(v, IdOf(s, to), n), s[e].id);
    AnnouncedPair(MapCount(v, IdOf(s, from), -n), MapInsert(v, s[q].id, pos, s[b].id), s[e].id);
    AnnouncedPair(MapInsert(v, IdOf(s, to), pos, IdOf(s, to)), MapMove(v, s[q].id, s[b].id, pos, false), s[e].id);
    if b in o {
      MoveCountsSeen(s, c, root, o, b, q, e);
    } else if Open(s, o, q) {
      MoveCountsArriving(s, c, root, o, b, q, e);
    } else {
      MoveCountsUnseen(s, c, root, o, b, q, e);
    }
  }

  /** The deepest visible branch above is a branch. */
  lemma DeepestKnown(s: Store, c: Chains, root: Ref, o: Overlay, x: Ref)
    requires Linked(s) && Chained(s, c) && ValidOverlay(s, root, o) && x in s && EndsAt(c[x], root)
    ensures Deepest(o, c[x]).Some? && Deepest(o, c[x]).value in s && Deepest(o, c[x]).value in o
  {
    DeepestIs(o, c[x]);
    assert root in c[x];
    assert ShownAt(s, o, Deepest(o, c[x]).value);
  }

  // ----- insert

  /** A new branch, not yet in the tree. */
  function Lone(s: Store, n: Ref, nb: Branch): Store {
    s[n := nb]
  }

  /** src/map.c:132-228: the overlay of one view after `n` was inserted below `q` at `pos`. */
  function InsertSeen(s: Store, c: Chains, o: Overlay, n: Ref, q: Ref, pos: int, mine: bool): Overlay
    requires q in s && q in c
  {
    var u := if mine && q !in o then Expanded(s, o, c[q]) else o;
    if n !in u && q in u && (mine || u[q].kids != []) then Appeared(u, n, q, pos) else u
  }

  /** src/map.c:145: the asking view shows the parent, but not the children that it has. */
  predicate AddsLoneChild(s: Store, o: Overlay, q: Ref, mine: bool)
    requires q in s
  {
    mine && q in o && o[q].kids == [] && s[q].kids != []
  }

  lemma LoneLinked(s: Store, n: Ref, nb: Branch)
    requires Linked(s) && n !in s && nb.parent == None && nb.kids == []
    ensures Linked(Lone(s, n, nb))
  {
    var t := Lone(s, n, nb);
    forall x | x in t ensures LinkedAt(t, x) {
      if x != n {
        assert LinkedAt(s, x);
      }
    }
  }

  lemma LoneValid(s: Store, root: Ref, o: Overlay, n: Ref, nb: Branch)
    requires ValidOverlay(s, root, o) && n !in s
    ensures ValidOverlay(Lone(s, n, nb), root, o) && n !in o
  {
    forall x | x in o ensures x in s && ShownAt(Lone(s, n, nb), o, x) {
      assert ShownAt(s, o, x);
    }
  }

  /** An insertion keeps the overlay valid, except in that one case, in which it never does. */
  lemma InsertSeenValid(s: Store, t: Store, c: Chains, root: Ref, o: Overlay, n: Ref, nb: Branch, q: Ref, pos: int,
                        mine: bool)
    requires Linked(s) && Chained(s, c) && ValidOverlay(s, root, o) && q in s && EndsAt(c[q], root)
    requires n !in s && nb.parent == None && nb.kids == [] && Rewired(Lone(s, n, nb), t, n, q)
    ensures n !in o
    ensures ValidOverlay(t, root, InsertSeen(s, c, o, n, q, pos, mine)) <==> !AddsLoneChild(s, o, q, mine)
  {
    var l := Lone(s, n, nb);
    LoneLinked(s, n, nb);
    LoneValid(s, root, o, n, nb);
    if mine && q !in o {
      ExpandedValid(s, c, root, o, q);
      var u := Expanded(s, o, c[q]);
      LoneValid(s, root, u, n, nb);
      AppearedShown(l, t, root, u, n, q, pos);
    } else if AddsLoneChild(s, o, q, mine) {
      assert !ShownAt(t, Appeared(o, n, q, pos), q) by {
        assert s[q].kids[0] in t[q].kids && s[q].kids[0] != n by {
          assert LinkedAt(s, q);
        }
      }
    } else if q in o && (mine || o[q].kids != []) {
      AppearedShown(l, t, root, o, n, q, pos);
    } else {
      HiddenStays(l, t, root, o, n, q);
    }
  }

  /** What one view is told about an insertion. */
  function InsertNotices(s: Store, c: Chains, o: Overlay, id: nat, q: Ref, pos: int, v: View, mine: bool): seq<Notice>
    requires q in s && q in c
  {
    var to := IdOf(s, Deepest(o, c[q]));
    if mine then (if q in o then [] else [MapInsert(v, to, pos, to)])
    else if q in o && o[q].kids != [] then [MapInsert(v, s[q].id, pos, id)]
    else [MapCount(v, to, 1)]
  }

  /** Nobody has a branch above that is not in the tree. */
  lemma NotAbove(s: Store, c: Chains, n: Ref)
    requires Chained(s, c) && n !in s
    ensures forall x :: x in c ==> n !in c[x]
  {
    forall x, i | x in c && 0 <= i < |c[x]| ensures c[x][i] in s {
      Suffix(s, c, x, c[x][i]);
    }
  }

  lemma InsertHidden(s: Store, c: Chains, o: Overlay, w: Overlay, n: Ref, q: Ref, e: Ref)
    requires Chained(s, c) && n !in s && n !in o && q in c && e in o && e in s && w.Keys - {n} == o.Keys
    ensures Hidden(AttachedChains(c[n := [n]], n, q), w, e) ==
            Hidden(c, o, e) + (if n !in w && Deepest(o, c[q]) == Some(e) then {n} else {})
    ensures n !in Hidden(c, o, e)
  {
    var d := AttachedChains(c[n := [n]], n, q);
    NotAbove(s, c, n);
    forall x | x in c ensures d[x] == c[x] && Deepest(w, c[x]) == Deepest(o, c[x]) {
      DeepestAgree(o, w, c[x]);
    }
    assert d[n] == [n] + c[q];
    DeepestConcat(w, [n], c[q]);
  }

  /** The counts announced to the other views are right. */
  lemma {:induction false} InsertCounts(s: Store, c: Chains, root: Ref, o: Overlay, n: Ref, id: nat, q: Ref, pos: int,
                                        at: int, v: View, e: Ref)
    requires Linked(s) && Chained(s, c) && ValidOverlay(s, root, o) && DistinctIds(s) && q in s && EndsAt(c[q], root)
    requires n !in s && n !in o && e in o && e in s
    ensures |Hidden(AttachedChains(c[n := [n]], n, q), InsertSeen(s, c, o, n, q, at, false), e)| - |Hidden(c, o, e)|
            == Announced(InsertNotices(s, c, o, id, q, pos, v, false), s[e].id)
  {
    DeepestKnown(s, c, root, o, q);
    InsertHidden(s, c, o, InsertSeen(s, c, o, n, q, at, false), n, q, e);
  }

  // ----- delete

  /** src/map.c:817-890: the overlay of one view after the childless branch `b` is gone. */
  function DeleteSeen(o: Overlay, b: Ref): Overlay {
    if b in o then VDetached(o, b) - {b} else o
  }

  function DeleteNotices(s: Store, c: Chains, o: Overlay, b: Ref, v: View, mine: bool): seq<Notice>
    requires b in s && s[b].parent.Some? && s[b].parent.value in c
  {
    if mine then []
    else if b in o then [MapDelete(v, s[b].id)]
    else [MapCount(v, IdOf(s, Deepest(o, c[s[b].parent.value])), -s[b].total - 1)]
  }

  lemma DeleteHidden(s: Store, c: Chains, o: Overlay, w: Overlay, b: Ref, e: Ref)
    requires Chained(s, c) && b in s && Under(c, b) == {b} && e != b && w.Keys == o.Keys - {b}
    ensures Hidden(DetachedChains(c, b) - {b}, w, e) == Hidden(c, o, e) - {b}
  {
    var d := DetachedChains(c, b) - {b};
    forall x | x in d ensures d[x] == c[x] && Deepest(w, c[x]) == Deepest(o, c[x]) {
      assert x !in Under(c, b);
      DeepestAgree(o, w, c[x]);
    }
  }

  /** The counts announced to the other views are right. */
  lemma {:induction false} DeleteCounts(s: Store, c: Chains, root: Ref, o: Overlay, b: Ref, v: View, e: Ref)
    requires Trees(s, c) && ValidOverlay(s, root, o) && DistinctIds(s)
    requires b in s && s[b].parent.Some? && s[b].parent.value in s && EndsAt(c[b], root) && Under(c, b) == {b}
    requires e in o && e in s && e != b
    ensures |Hidden(DetachedChains(c, b) - {b}, DeleteSeen(o, b), e)| - |Hidden(c, o, e)|
            == Announced(DeleteNotices(s, c, o, b, v, false), s[e].id)
  {
    ParentEnds(s, c, root, b);
    DeepestKnown(s, c, root, o, s[b].parent.value);
    DeepestStep(s, c, o, b);
    assert ChainedAt(s, c, b) && CountedAt(s, c, b);
    if b in o {
      VDetachedLists(s, root, o, b);
    }
    DeleteHidden(s, c, o, DeleteSeen(o, b), b, e);
  }

  lemma {:induction false} AnnouncedConcat(l: seq<Notice>, m: seq<Notice>, id: nat)
    ensures Announced(l + m, id) == Announced(l, id) + Announced(m, id)
  {
    if l == [] {
      assert l + m == m;
    } else {
      assert (l + m)[1..] == l[1..] + m;
      AnnouncedConcat(l[1..], m, id);
    }
  }

  /** A move takes nothing out of sight. */
  lemma MoveSeenKeeps(s: Store, c: Chains, o: Overlay, b: Ref, q: Ref, mine: bool)
    requires b in s && s[b].parent.Some? && s[b].parent.value in s && q in s && q in c
    ensures o.Keys <= MoveSeen(s, c, o, b, q, mine).Keys
  {
    assert o.Keys <= Revealed(s, o, c[q]).Keys <= Expanded(s, o, c[q]).Keys;
  }
}
