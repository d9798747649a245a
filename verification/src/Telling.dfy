/**
 Whether the clients are told what they need to know.  A client learns of a change only by the notices that name
 branches by their ids: each of them has to be true of the new tree and of what the view shows then, and together
 they have to account for all that has come into sight, has another parent, or is gone.
 */
module Telling {
  import opened Options
  import opened Forest
  import opened Overlay
  import opened Sight
  import opened HeadFile
  import opened Views
  import opened MapSteps
  import opened Deletion

  ghost predicate Names(t: Store, x: Ref, id: nat) {
    x in t && t[x].id == id
  }

  /** The view shows `x` below a parent with this id, and `x` has that place among its children, or the last one. */
  ghost predicate Hangs(t: Store, w: Overlay, x: Ref, parent: nat, pos: int) {
    && x in w && x in t && t[x].parent.Some?
    && var p := t[x].parent.value;
    && p in w && Names(t, p, parent) && t[p].kids != []
    && x == if 0 <= pos < |t[p].kids| then t[p].kids[pos] else t[p].kids[|t[p].kids| - 1]
  }

  /**
   What a notice to `v` says is so.  An insertion below another branch names a branch that the view did not show
   before; one that names the same branch twice sends what a branch that was shown has below it.
   */
  ghost predicate TrueOf(t: Store, o: Overlay, w: Overlay, v: View, n: Notice) {
    && n.view == v
    && match n
       case MapInsert(_, p, pos, b) =>
         if p == b then exists x {:trigger Names(t, x, b)} :: Names(t, x, b) && x in o && x in w
         else exists x {:trigger Names(t, x, b)} :: Names(t, x, b) && x !in o && Hangs(t, w, x, p, pos)
       case MapMove(_, p, b, pos, retry) =>
         !retry && exists x {:trigger Names(t, x, b)} :: Names(t, x, b) && x in o && Hangs(t, w, x, p, pos)
       case MapCount(_, e, _) => exists x {:trigger Names(t, x, e)} :: Names(t, x, e) && x in o && x in w
       case MapDelete(_, b) => forall x {:trigger t[x]} :: x in t ==> t[x].id != b
  }

  /** `x` lies at or below the branch that the notice inserts. */
  ghost predicate Brings(t: Store, d: Chains, n: Notice, x: Ref) {
    && n.MapInsert? && x in d
    && exists y {:trigger Names(t, y, n.branch)} :: Names(t, y, n.branch) && y in d[x]
  }

  ghost predicate Brought(t: Store, d: Chains, l: seq<Notice>, m: nat, x: Ref) {
    exists i {:trigger l[i]} :: 0 <= i < |l| && i < m && Brings(t, d, l[i], x)
  }

  /** The branch that a notice moves goes to one whose children are shown, or have been inserted before. */
  ghost predicate InTime(s: Store, t: Store, d: Chains, o: Overlay, l: seq<Notice>, i: nat)
    requires i < |l|
  {
    l[i].MapMove? ==>
      forall z {:trigger Names(t, z, l[i].parent)} :: Names(t, z, l[i].parent) ==>
        (z in s && Open(s, o, z)) || Brought(t, d, l, i, z)
  }

  /** What the view shows of `x` now it has been told, if there is news. */
  ghost predicate Reported(s: Store, t: Store, d: Chains, o: Overlay, w: Overlay, l: seq<Notice>, x: Ref) {
    && (x in w && x !in o ==> Brought(t, d, l, |l|, x))
    && (x in w && x in o && x in s && x in t && t[x].parent != s[x].parent ==>
          exists i {:trigger l[i]} :: 0 <= i < |l| && l[i].MapMove? && l[i].branch == t[x].id)
    && (x in o && x !in w && x in s ==>
          exists i {:trigger l[i]} :: 0 <= i < |l| && l[i].MapDelete? && l[i].branch == s[x].id)
  }

  /**
   From the tree `s` to the tree `t` with the ways up `d`, and from the overlay `o` to `w`, the notices `l` are true,
   come in an order that makes sense, and are complete but for the branches in `known`.
   */
  ghost predicate Told(s: Store, t: Store, d: Chains, o: Overlay, w: Overlay, l: seq<Notice>, v: View,
                       known: set<Ref>) {
    && (forall i {:trigger l[i]} :: 0 <= i < |l| ==> TrueOf(t, o, w, v, l[i]) && InTime(s, t, d, o, l, i))
    && (forall x {:trigger Reported(s, t, d, o, w, l, x)} :: x !in known ==> Reported(s, t, d, o, w, l, x))
  }

  /** So it is for every view; the one that asked for the change knows about `b`. */
  ghost predicate AllTold(s: Store, t: Store, d: Chains, shown0: map<View, Overlay>, shown: map<View, Overlay>,
                          sent: seq<Notice>, asker: Option<View>, b: Ref) {
    forall v {:trigger ToldAt(s, t, d, shown0, shown, sent, asker, b, v)} :: v in shown0 ==>
      ToldAt(s, t, d, shown0, shown, sent, asker, b, v)
  }

  ghost predicate ToldAt(s: Store, t: Store, d: Chains, shown0: map<View, Overlay>, shown: map<View, Overlay>,
                         sent: seq<Notice>, asker: Option<View>, b: Ref, v: View)
    requires v in shown0
  {
    v in shown && Told(s, t, d, shown0[v], shown[v], Addressed(sent, v), v, Knows(asker, b, v))
  }

  /** What the client of `v` knows without being told. */
  ghost function Knows(asker: Option<View>, b: Ref, v: View): set<Ref> {
    if asker == Some(v) then {b} else {}
  }

  // ----- notices that are true and complete, whatever the change was

  /** Names and parents as before, except that `b` hangs below `q`. */
  ghost predicate Rehung(s: Store, t: Store, b: Ref, q: Ref) {
    && SameNames(s, t) && DistinctIds(s) && b in s && q in s
    && (forall x {:trigger t[x]} :: x in s && x != b ==> t[x].parent == s[x].parent)
  }

  lemma ToldMove(s: Store, t: Store, d: Chains, o: Overlay, w: Overlay, l: seq<Notice>, v: View, b: Ref, q: Ref,
                 pos: int, mine: bool)
    requires Rehung(s, t, b, q) && w.Keys == o.Keys && b in o && Open(s, o, q) && Hangs(t, w, b, s[q].id, pos)
    requires l == if mine then [] else [MapMove(v, s[q].id, s[b].id, pos, false)]
    ensures Told(s, t, d, o, w, l, v, if mine then {b} else {})
  {
    if !mine {
      assert Names(t, b, s[b].id) && l[0].MapMove?;
      assert TrueOf(t, o, w, v, l[0]) && InTime(s, t, d, o, l, 0);
    }
    forall x | x !in (if mine then {b} else {}) ensures Reported(s, t, d, o, w, l, x) {
    }
  }

  /** The branch `b` has come into sight; before that a count may have changed behind `e`. */
  lemma ToldArrival(s: Store, t: Store, d: Chains, o: Overlay, w: Overlay, l: seq<Notice>, v: View, b: Ref, parent: nat,
                    pos: int, e: Ref)
    requires s.Keys <= t.Keys && b in t && b !in o && w.Keys == o.Keys + {b} && Hangs(t, w, b, parent, pos)
    requires t[b].id != parent
    requires forall x {:trigger t[x]} :: x in s && x != b ==> t[x].parent == s[x].parent
    requires b in d && b in d[b] && e in o && e in s && e in t && t[e].id == s[e].id
    requires l != [] && l[|l| - 1] == MapInsert(v, parent, pos, t[b].id)
    requires forall i {:trigger l[i]} :: 0 <= i < |l| - 1 ==> l[i].MapCount? && l[i].view == v && l[i].branch == s[e].id
    ensures Told(s, t, d, o, w, l, v, {})
  {
    var k := |l| - 1;
    assert Names(t, b, t[b].id) && Names(t, e, t[e].id);
    assert l[k].MapInsert? && Brings(t, d, l[k], b);
    forall i | 0 <= i < |l| ensures TrueOf(t, o, w, v, l[i]) && InTime(s, t, d, o, l, i) {
    }
    forall x | x !in {} ensures Reported(s, t, d, o, w, l, x) {
    }
  }

  /** What has come into sight lies below `e`, which was visible; then `b` may have been moved. */
  lemma ToldOpening(s: Store, t: Store, d: Chains, o: Overlay, w: Overlay, l: seq<Notice>, v: View, e: Ref, at: int,
                    b: Ref, q: Ref, pos: int, mine: bool)
    requires Rehung(s, t, b, q) && o.Keys <= w.Keys && e in o && e in t && b in o
    requires forall x :: x in w && x !in o ==> x in d && e in d[x]
    requires q in d && e in d[q] && Hangs(t, w, b, s[q].id, pos)
    requires l == [MapInsert(v, t[e].id, at, t[e].id)] + if mine then [] else [MapMove(v, s[q].id, s[b].id, pos, false)]
    ensures Told(s, t, d, o, w, l, v, if mine then {b} else {})
  {
    assert Names(t, e, t[e].id) && Names(t, b, t[b].id) && Brings(t, d, l[0], q);
    assert TrueOf(t, o, w, v, l[0]) && InTime(s, t, d, o, l, 0);
    if !mine {
      assert l[1] == MapMove(v, s[q].id, s[b].id, pos, false);
      assert Brought(t, d, l, 1, q);
      assert TrueOf(t, o, w, v, l[1]) && InTime(s, t, d, o, l, 1);
    }
    forall x | x !in (if mine then {b} else {}) ensures Reported(s, t, d, o, w, l, x) {
      if x in w && x !in o {
        assert Brings(t, d, l[0], x);
      }
    }
  }

  /** Nothing has come into sight, and nothing that is shown has moved: there are only counts. */
  lemma ToldCounts(s: Store, t: Store, d: Chains, o: Overlay, l: seq<Notice>, v: View, known: set<Ref>, e: Ref, f: Ref)
    requires forall x {:trigger t[x]} :: x in o && x in s && x in t ==> t[x].parent == s[x].parent
    requires e in o && e in s && e in t && t[e].id == s[e].id && f in o && f in s && f in t && t[f].id == s[f].id
    requires forall i {:trigger l[i]} :: 0 <= i < |l| ==>
               l[i].MapCount? && l[i].view == v && (l[i].branch == s[e].id || l[i].branch == s[f].id)
    ensures Told(s, t, d, o, o, l, v, known)
  {
    assert Names(t, e, t[e].id) && Names(t, f, t[f].id);
    forall i | 0 <= i < |l| ensures TrueOf(t, o, o, v, l[i]) && InTime(s, t, d, o, l, i) {
    }
    forall x | x !in known ensures Reported(s, t, d, o, o, l, x) {
    }
  }

  /** What `e`, which was visible, has below it is sent anew, and with it all that has come into sight. */
  lemma ToldRefresh(s: Store, t: Store, d: Chains, o: Overlay, w: Overlay, l: seq<Notice>, v: View, e: Ref, at: int,
                    known: set<Ref>)
    requires o.Keys <= w.Keys && e in o && e in s && e in t && t[e].id == s[e].id
    requires forall x {:trigger t[x]} :: x in s && x in t ==> t[x].parent == s[x].parent
    requires forall x :: x in w && x !in o && x !in known ==> x in d && e in d[x]
    requires |l| == 1 && l[0] == MapInsert(v, s[e].id, at, s[e].id)
    ensures Told(s, t, d, o, w, l, v, known)
  {
    assert Names(t, e, t[e].id);
    assert TrueOf(t, o, w, v, l[0]) && InTime(s, t, d, o, l, 0);
    forall x | x !in known ensures Reported(s, t, d, o, w, l, x) {
      if x in w && x !in o {
        assert Brings(t, d, l[0], x);
      }
    }
  }

  /** There is no news but what the client knows. */
  lemma ToldNothing(s: Store, t: Store, d: Chains, o: Overlay, w: Overlay, v: View, known: set<Ref>)
    requires forall x :: x !in known ==> (x in w <==> x in o)
    requires forall x {:trigger t[x]} :: x in s && x in t ==> t[x].parent == s[x].parent
    ensures Told(s, t, d, o, w, [], v, known)
  {
    forall x | x !in known ensures Reported(s, t, d, o, w, [], x) {
    }
  }

  /** The branch `b` is gone. */
  lemma ToldGone(s: Store, t: Store, d: Chains, o: Overlay, w: Overlay, l: seq<Notice>, v: View, b: Ref)
    requires b in o && b in s && w.Keys == o.Keys - {b} && t.Keys == s.Keys - {b} && DistinctIds(s)
    requires forall x {:trigger t[x]} :: x in t ==> t[x].parent == s[x].parent && t[x].id == s[x].id
    requires |l| == 1 && l[0] == MapDelete(v, s[b].id)
    ensures Told(s, t, d, o, w, l, v, {})
  {
    assert TrueOf(t, o, w, v, l[0]) && InTime(s, t, d, o, l, 0);
    forall x | x !in {} ensures Reported(s, t, d, o, w, l, x) {
      assert l[0].MapDelete?;
    }
  }

  // ----- move

  lemma MovedHangs(s: Store, c: Chains, root: Ref, w: Overlay, b: Ref, q: Ref, pos: int)
    requires Trees(s, c) && CanMove(s, c, root, b, q) && b in w && q in w
    ensures
      var t := Moved(s, c, b, q, pos);
      Names(t, b, s[b].id) && Hangs(t, w, b, s[q].id, pos)
  {
    MovedKids(s, c, root, b, q, pos);
    ClampPlaced(Rejoined(s, b, q), b, pos);
  }

  /** Who is not below `b` has the same way up, and the same parent. */
  lemma MovedElsewhere(s: Store, c: Chains, root: Ref, b: Ref, q: Ref, pos: int)
    requires Trees(s, c) && CanMove(s, c, root, b, q)
    ensures
      var t, d := Moved(s, c, b, q, pos), MovedChains(c, b, q);
      && SameNames(s, t) && c.Keys == d.Keys
      && (forall x :: x in c && b !in c[x] ==> d[x] == c[x])
      && (forall x {:trigger t[x]} :: x in s && x != b ==> t[x].parent == s[x].parent)
      && d[q] == c[q]
  {
    MovedKids(s, c, root, b, q, pos);
    MovedBent(s, c, root, b, q);
  }

  lemma MoveTellsAlong(s: Store, c: Chains, root: Ref, o: Overlay, b: Ref, q: Ref, pos: int, v: View, mine: bool)
    requires Trees(s, c) && CanMove(s, c, root, b, q) && ValidOverlay(s, root, o) && DistinctIds(s)
    requires b in o && Open(s, o, q)
    ensures Told(s, Moved(s, c, b, q, pos), MovedChains(c, b, q), o, MoveSeen(s, c, o, b, q, mine),
                 MoveNotices(s, c, o, b, q, pos, v, mine), v, if mine then {b} else {})
  {
    var t, w := Moved(s, c, b, q, pos), MoveSeen(s, c, o, b, q, mine);
    assert ChainedAt(s, c, q);
    MovedLists(s, root, o, b, q, Position(s, b));
    MovedElsewhere(s, c, root, b, q, pos);
    MovedHangs(s, c, root, w, b, q, pos);
    ToldMove(s, t, MovedChains(c, b, q), o, w, MoveNotices(s, c, o, b, q, pos, v, mine), v, b, q, pos, mine);
  }

  lemma MovedSelf(s: Store, c: Chains, root: Ref, b: Ref, q: Ref, pos: int)
    requires Trees(s, c) && CanMove(s, c, root, b, q) && DistinctIds(s)
    ensures b in MovedChains(c, b, q) && b in MovedChains(c, b, q)[b] && s[b].id != s[q].id
    ensures b in Moved(s, c, b, q, pos) && Moved(s, c, b, q, pos)[b].id == s[b].id
  {
    MovedKids(s, c, root, b, q, pos);
    MovedTrees(s, c, root, b, q, pos);
    assert ChainedAt(Moved(s, c, b, q, pos), MovedChains(c, b, q), b) && ChainedAt(s, c, q);
  }

  lemma MoveTellsArrival(s: Store, c: Chains, root: Ref, o: Overlay, b: Ref, q: Ref, pos: int, v: View)
    requires Trees(s, c) && CanMove(s, c, root, b, q) && ValidOverlay(s, root, o) && DistinctIds(s)
    requires b !in o && Open(s, o, q)
    ensures Told(s, Moved(s, c, b, q, pos), MovedChains(c, b, q), o, MoveSeen(s, c, o, b, q, false),
                 MoveNotices(s, c, o, b, q, pos, v, false), v, {})
  {
    var e := EndpointAbove(s, c, root, o, b);
    assert ChainedAt(s, c, q);
    ArrivalNotices(s, c, o, b, q, pos, v, e);
    ArrivalTold(s, Moved(s, c, b, q, pos), c, MovedChains(c, b, q), root, o, MoveSeen(s, c, o, b, q, false), b, q,
                pos, v, MoveNotices(s, c, o, b, q, pos, v, false), e);
  }

  /** Where a view counts a branch that it does not show. */
  lemma EndpointAbove(s: Store, c: Chains, root: Ref, o: Overlay, b: Ref) returns (e: Ref)
    requires Linked(s) && Chained(s, c) && ValidOverlay(s, root, o) && b in s && s[b].parent.Some?
    requires b in c && EndsAt(c[b], root)
    ensures s[b].parent.value in s && s[b].parent.value in c
    ensures Deepest(o, c[s[b].parent.value]) == Some(e) && e in o && e in s
  {
    assert LinkedAt(s, b) && ChainedAt(s, c, b);
    ParentEnds(s, c, root, b);
    DeepestKnown(s, c, root, o, s[b].parent.value);
    e := Deepest(o, c[s[b].parent.value]).value;
  }

  lemma ArrivalTold(s: Store, t: Store, c: Chains, d: Chains, root: Ref, o: Overlay, w: Overlay, b: Ref, q: Ref,
                    pos: int, v: View, l: seq<Notice>, e: Ref)
    requires Trees(s, c) && CanMove(s, c, root, b, q) && DistinctIds(s)
    requires t == Moved(s, c, b, q, pos) && d == MovedChains(c, b, q)
    requires b !in o && q in o && w.Keys == o.Keys + {b} && e in o && e in s
    requires l != [] && l[|l| - 1] == MapInsert(v, s[q].id, pos, s[b].id)
    requires forall i {:trigger l[i]} :: 0 <= i < |l| - 1 ==> l[i].MapCount? && l[i].view == v && l[i].branch == s[e].id
    ensures Told(s, t, d, o, w, l, v, {})
  {
    MovedElsewhere(s, c, root, b, q, pos);
    MovedHangs(s, c, root, w, b, q, pos);
    MovedSelf(s, c, root, b, q, pos);
    ToldArrival(s, t, d, o, w, l, v, b, s[q].id, pos, e);
  }

  lemma ArrivalNotices(s: Store, c: Chains, o: Overlay, b: Ref, q: Ref, pos: int, v: View, e: Ref)
    requires b in s && s[b].parent.Some? && s[b].parent.value in s && s[b].parent.value in c && q in s && q in c
    requires b !in o && Open(s, o, q) && Deepest(o, c[s[b].parent.value]) == Some(e) && e in s
    ensures MoveSeen(s, c, o, b, q, false).Keys == o.Keys + {b}
    ensures
      var l := MoveNotices(s, c, o, b, q, pos, v, false);
      && l != [] && l[|l| - 1] == MapInsert(v, s[q].id, pos, s[b].id)
      && forall i {:trigger l[i]} :: 0 <= i < |l| - 1 ==>
           l[i].MapCount? && l[i].view == v && l[i].branch == s[e].id
  {
  }

  /** What comes into sight on the way to `q` hangs below a branch on that way. */
  lemma {:induction false} RevealedBelow(s: Store, c: Chains, root: Ref, o: Overlay, b: Ref, z: Ref)
    requires Linked(s) && Chained(s, c) && ValidOverlay(s, root, o) && b in s && EndsAt(c[b], root)
    requires z in Revealed(s, o, c[b]) && z !in o
    ensures z in s && s[z].parent.Some? && s[z].parent.value in c[b]
    decreases |c[b]|
  {
    assert ChainedAt(s, c, b);
    RevealStep(s, c, root, o, b);
    var y := s[b].parent.value;
    RevealedValid(s, c, root, o, y);
    if z in Revealed(s, o, c[y]) {
      RevealedBelow(s, c, root, o, y, z);
    } else {
      assert LinkedAt(s, y) && ChainedAt(s, c, y);
    }
  }

  lemma ExpandedBelow(s: Store, c: Chains, root: Ref, o: Overlay, q: Ref, z: Ref)
    requires Linked(s) && Chained(s, c) && ValidOverlay(s, root, o) && q in s && EndsAt(c[q], root) && Unopened(o, q)
    requires z in Expanded(s, o, c[q]) && z !in o
    ensures z in s && s[z].parent.Some? && s[z].parent.value in c[q]
    ensures Deepest(o, c[q]).Some? && Deepest(o, c[q]).value in c[z]
  {
    assert ChainedAt(s, c, q);
    ExpandedBehind(s, c, root, o, q, z);
    DeepestKnown(s, c, root, o, q);
    DeepestIs(o, c[z]);
    if z in Revealed(s, o, c[q]) {
      RevealedBelow(s, c, root, o, q, z);
    } else {
      assert LinkedAt(s, q);
    }
  }

  lemma MoveTellsOpening(s: Store, c: Chains, root: Ref, o: Overlay, b: Ref, q: Ref, pos: int, v: View, mine: bool)
    requires Trees(s, c) && CanMove(s, c, root, b, q) && ValidOverlay(s, root, o) && DistinctIds(s)
    requires b in o && !Open(s, o, q)
    ensures Told(s, Moved(s, c, b, q, pos), MovedChains(c, b, q), o, MoveSeen(s, c, o, b, q, mine),
                 MoveNotices(s, c, o, b, q, pos, v, mine), v, if mine then {b} else {})
  {
    var t, w, d := Moved(s, c, b, q, pos), MoveSeen(s, c, o, b, q, mine), MovedChains(c, b, q);
    OpenedSeen(s, c, root, o, b, q, mine);
    MovedElsewhere(s, c, root, b, q, pos);
    MovedHangs(s, c, root, w, b, q, pos);
    DeepestKnown(s, c, root, o, q);
    DeepestIs(o, c[q]);
    var to := Deepest(o, c[q]).value;
    forall x | x in w && x !in o ensures x in d && to in d[x] {
      ExpandedBelow(s, c, root, o, q, x);
      NotBelowMoved(s, c, b, q, x);
    }
    ToldOpening(s, t, d, o, w, MoveNotices(s, c, o, b, q, pos, v, mine), v, to, pos, b, q, pos, mine);
  }

  lemma OpenedSeen(s: Store, c: Chains, root: Ref, o: Overlay, b: Ref, q: Ref, mine: bool)
    requires CanMove(s, c, root, b, q) && ValidOverlay(s, root, o) && b in o && !Open(s, o, q)
    ensures Unopened(o, q) && MoveSeen(s, c, o, b, q, mine).Keys == Expanded(s, o, c[q]).Keys && q in c && b != q
    ensures o.Keys <= Expanded(s, o, c[q]).Keys && q in Expanded(s, o, c[q])
  {
    var e := Expanded(s, o, c[q]);
    assert ChainedAt(s, c, q);
    ExpandedValid(s, c, root, o, q);
    MovedLists(s, root, e, b, q, Position(s, b));
  }

  /** What hangs below a branch on the way to `q` is not below `b`, unless it is `b`. */
  lemma NotBelowMoved(s: Store, c: Chains, b: Ref, q: Ref, x: Ref)
    requires Chained(s, c) && q in s && b !in c[q] && x in s && x != b
    requires s[x].parent.Some? && s[x].parent.value in c[q]
    ensures x in c && b !in c[x]
  {
    var y := s[x].parent.value;
    Suffix(s, c, q, y);
    assert ChainedAt(s, c, x);
  }

  lemma MoveTellsUnseen(s: Store, c: Chains, root: Ref, o: Overlay, b: Ref, q: Ref, pos: int, v: View, mine: bool)
    requires Trees(s, c) && CanMove(s, c, root, b, q) && ValidOverlay(s, root, o) && DistinctIds(s)
    requires b !in o && (mine || !Open(s, o, q))
    ensures Told(s, Moved(s, c, b, q, pos), MovedChains(c, b, q), o, MoveSeen(s, c, o, b, q, mine),
                 MoveNotices(s, c, o, b, q, pos, v, mine), v, if mine then {b} else {})
  {
    var t, p := Moved(s, c, b, q, pos), s[b].parent.value;
    MovedElsewhere(s, c, root, b, q, pos);
    ParentEnds(s, c, root, b);
    DeepestKnown(s, c, root, o, p);
    DeepestKnown(s, c, root, o, q);
    var e, f := Deepest(o, c[p]).value, Deepest(o, c[q]).value;
    UnseenNotices(s, c, o, b, q, pos, v, mine, e, f);
    ToldCounts(s, t, MovedChains(c, b, q), o, MoveNotices(s, c, o, b, q, pos, v, mine), v, if mine then {b} else {}, e,
               f);
  }

  lemma UnseenNotices(s: Store, c: Chains, o: Overlay, b: Ref, q: Ref, pos: int, v: View, mine: bool, e: Ref, f: Ref)
    requires b in s && s[b].parent.Some? && s[b].parent.value in s && s[b].parent.value in c && q in s && q in c
    requires b !in o && (mine || !Open(s, o, q))
    requires Deepest(o, c[s[b].parent.value]) == Some(e) && Deepest(o, c[q]) == Some(f) && e in s && f in s
    ensures MoveSeen(s, c, o, b, q, mine) == o
    ensures
      var l := MoveNotices(s, c, o, b, q, pos, v, mine);
      forall i {:trigger l[i]} :: 0 <= i < |l| ==>
        l[i].MapCount? && l[i].view == v && (l[i].branch == s[e].id || l[i].branch == s[f].id)
  {
  }

  lemma MoveTells(s: Store, c: Chains, root: Ref, o: Overlay, b: Ref, q: Ref, pos: int, v: View, mine: bool)
    requires Trees(s, c) && CanMove(s, c, root, b, q) && ValidOverlay(s, root, o) && DistinctIds(s)
    ensures Told(s, Moved(s, c, b, q, pos), MovedChains(c, b, q), o, MoveSeen(s, c, o, b, q, mine),
                 MoveNotices(s, c, o, b, q, pos, v, mine), v, if mine then {b} else {})
  {
    if b in o && Open(s, o, q) {
      MoveTellsAlong(s, c, root, o, b, q, pos, v, mine);
    } else if b in o {
      MoveTellsOpening(s, c, root, o, b, q, pos, v, mine);
    } else if Open(s, o, q) && !mine {
      MoveTellsArrival(s, c, root, o, b, q, pos, v);
    } else {
      MoveTellsUnseen(s, c, root, o, b, q, pos, v, mine);
    }
  }

  lemma MoveAllTold(s: Store, c: Chains, root: Ref, shown0: map<View, Overlay>, shown: map<View, Overlay>,
                    sent: seq<Notice>, b: Ref, q: Ref, pos: int, asker: Option<View>)
    requires Trees(s, c) && DistinctIds(s) && CanMove(s, c, root, b, q) && AllValid(s, root, shown0)
    requires Followed(shown0, MovePlan(s, c, shown0, b, q, pos, asker), shown, sent, shown0.Keys)
    ensures AllTold(s, Moved(s, c, b, q, pos), MovedChains(c, b, q), shown0, shown, sent, asker, b)
  {
    forall v | v in shown0
      ensures ToldAt(s, Moved(s, c, b, q, pos), MovedChains(c, b, q), shown0, shown, sent, asker, b, v)
    {
      assert FollowedAt(shown0, MovePlan(s, c, shown0, b, q, pos, asker), shown, sent, shown0.Keys, v);
      assert ValidOverlay(s, root, shown0[v]);
      MoveTells(s, c, root, shown0[v], b, q, pos, v, asker == Some(v));
    }
  }

  // ----- insert

  lemma GrownHangs(s: Store, t: Store, w: Overlay, n: Ref, nb: Branch, q: Ref, pos: int)
    requires IsNew(s, n, nb) && q in s && Hooked(Lone(s, n, nb), t, n, q, pos) && n in w && q in w
    ensures Names(t, n, nb.id) && Hangs(t, w, n, s[q].id, pos)
  {
    ClampPlaced(s[q].kids, n, pos);
  }

  /** The ways up that were there are the same, and the new branch is on its own. */
  lemma GrownWays(s: Store, c: Chains, n: Ref, q: Ref)
    requires Chained(s, c) && n !in s && q in s
    ensures
      var d := AttachedChains(c[n := [n]], n, q);
      n in d && n in d[n] && forall x :: x in s ==> x in d && d[x] == c[x]
  {
    NotAbove(s, c, n);
    assert ChainedAt(s, c, q);
  }

  /** A branch that is new to the tree, and to the ids in it. */
  ghost predicate Fresh(s: Store, n: Ref, nb: Branch) {
    IsNew(s, n, nb) && forall x {:trigger s[x]} :: x in s ==> s[x].id != nb.id
  }

  lemma InsertTells(s: Store, t: Store, c: Chains, root: Ref, o: Overlay, n: Ref, nb: Branch, q: Ref, pos: int, at: int,
                    v: View, mine: bool)
    requires Linked(s) && Chained(s, c) && ValidOverlay(s, root, o) && Fresh(s, n, nb) && q in s && EndsAt(c[q], root)
    requires Hooked(Lone(s, n, nb), t, n, q, pos)
    ensures Told(s, t, AttachedChains(c[n := [n]], n, q), o, InsertSeen(s, c, o, n, q, at, mine),
                 InsertNotices(s, c, o, nb.id, q, pos, v, mine), v, if mine then {n} else {})
  {
    var d, w, l :=
      AttachedChains(c[n := [n]], n, q), InsertSeen(s, c, o, n, q, at, mine),
      InsertNotices(s, c, o, nb.id, q, pos, v, mine);
    GrownWays(s, c, n, q);
    LoneValid(s, root, o, n, nb);
    DeepestKnown(s, c, root, o, q);
    var e := Deepest(o, c[q]).value;
    if mine && q in o {
      ToldNothing(s, t, d, o, w, v, {n});
    } else if mine {
      InsertTellsOpening(s, t, c, root, o, n, nb, q, pos, at, v);
    } else if q in o && o[q].kids != [] {
      GrownHangs(s, t, w, n, nb, q, pos);
      ToldArrival(s, t, d, o, w, l, v, n, s[q].id, pos, q);
    } else {
      ToldCounts(s, t, d, o, l, v, {}, e, e);
    }
  }

  lemma InsertTellsOpening(s: Store, t: Store, c: Chains, root: Ref, o: Overlay, n: Ref, nb: Branch, q: Ref, pos: int,
                           at: int, v: View)
    requires Linked(s) && Chained(s, c) && ValidOverlay(s, root, o) && Fresh(s, n, nb) && q in s && EndsAt(c[q], root)
    requires Hooked(Lone(s, n, nb), t, n, q, pos) && q !in o
    ensures Told(s, t, AttachedChains(c[n := [n]], n, q), o, InsertSeen(s, c, o, n, q, at, true),
                 InsertNotices(s, c, o, nb.id, q, pos, v, true), v, {n})
  {
    var d, w, l :=
      AttachedChains(c[n := [n]], n, q), InsertSeen(s, c, o, n, q, at, true),
      InsertNotices(s, c, o, nb.id, q, pos, v, true);
    GrownWays(s, c, n, q);
    ExpandedValid(s, c, root, o, q);
    LoneValid(s, root, Expanded(s, o, c[q]), n, nb);
    DeepestKnown(s, c, root, o, q);
    var e := Deepest(o, c[q]).value;
    forall x | x in w && x !in o && x !in {n} ensures x in d && e in d[x] {
      ExpandedBelow(s, c, root, o, q, x);
    }
    ToldRefresh(s, t, d, o, w, l, v, e, pos, {n});
  }

  lemma InsertAllTold(s: Store, t: Store, c: Chains, root: Ref, shown0: map<View, Overlay>, shown: map<View, Overlay>,
                      sent: seq<Notice>, n: Ref, nb: Branch, q: Ref, pos: int, at: int, asker: Option<View>)
    requires Linked(s) && Chained(s, c) && AllValid(s, root, shown0) && Fresh(s, n, nb) && q in s && EndsAt(c[q], root)
    requires Hooked(Lone(s, n, nb), t, n, q, pos)
    requires Followed(shown0, InsertPlan(s, c, shown0, n, nb.id, q, pos, at, asker), shown, sent, shown0.Keys)
    ensures AllTold(s, t, AttachedChains(c[n := [n]], n, q), shown0, shown, sent, asker, n)
  {
    forall v | v in shown0
      ensures ToldAt(s, t, AttachedChains(c[n := [n]], n, q), shown0, shown, sent, asker, n, v)
    {
      assert FollowedAt(shown0, InsertPlan(s, c, shown0, n, nb.id, q, pos, at, asker), shown, sent, shown0.Keys, v);
      assert ValidOverlay(s, root, shown0[v]);
      InsertTells(s, t, c, root, shown0[v], n, nb, q, pos, at, v, asker == Some(v));
    }
  }

  // ----- delete

  lemma DeleteTells(s: Store, t: Store, c: Chains, d: Chains, root: Ref, o: Overlay, b: Ref, v: View, mine: bool)
    requires Linked(s) && Chained(s, c) && DistinctIds(s) && ValidOverlay(s, root, o) && b in s && s[b].parent.Some?
    requires s[b].parent.value in s && EndsAt(c[b], root) && t.Keys == s.Keys - {b}
    requires forall x {:trigger t[x]} :: x in t ==> t[x].parent == s[x].parent && t[x].id == s[x].id
    ensures s[b].parent.value in c
    ensures Told(s, t, d, o, DeleteSeen(o, b), DeleteNotices(s, c, o, b, v, mine), v, if mine then {b} else {})
  {
    var w, l, p := DeleteSeen(o, b), DeleteNotices(s, c, o, b, v, mine), s[b].parent.value;
    ParentEnds(s, c, root, b);
    DeepestKnown(s, c, root, o, p);
    if b in o {
      VDetachedLists(s, root, o, b);
    }
    if mine {
      ToldNothing(s, t, d, o, w, v, {b});
    } else if b in o {
      ToldGone(s, t, d, o, w, l, v, b);
    } else {
      ToldCounts(s, t, d, o, l, v, {}, Deepest(o, c[p]).value, Deepest(o, c[p]).value);
    }
  }

  lemma DeleteAllTold(s: Store, t: Store, c: Chains, d: Chains, root: Ref, shown0: map<View, Overlay>,
                      shown: map<View, Overlay>, sent: seq<Notice>, b: Ref, asker: Option<View>)
    requires Linked(s) && Chained(s, c) && DistinctIds(s) && AllValid(s, root, shown0) && b in s && s[b].parent.Some?
    requires s[b].parent.value in s && s[b].parent.value in c && EndsAt(c[b], root) && t.Keys == s.Keys - {b}
    requires forall x {:trigger t[x]} :: x in t ==> t[x].parent == s[x].parent && t[x].id == s[x].id
    requires Followed(shown0, GonePlan(s, c, shown0, b, asker), shown, sent, shown0.Keys)
    ensures AllTold(s, t, d, shown0, shown, sent, asker, b)
  {
    forall v | v in shown0 ensures ToldAt(s, t, d, shown0, shown, sent, asker, b, v) {
      assert FollowedAt(shown0, GonePlan(s, c, shown0, b, asker), shown, sent, shown0.Keys, v);
      assert ValidOverlay(s, root, shown0[v]);
      DeleteTells(s, t, c, d, root, shown0[v], b, v, asker == Some(v));
    }
  }

  /** That `b` is deleted is told to exactly the views that showed it, but for the asking one. */
  ghost predicate DeletionTold(s: Store, shown0: map<View, Overlay>, sent: seq<Notice>, b: Ref, asker: Option<View>) {
    && b in s
    && forall v {:trigger Addressed(sent, v)} :: v in shown0 ==>
         var l := Addressed(sent, v);
         && (forall i {:trigger l[i]} :: 0 <= i < |l| && l[i].MapDelete? ==> l[i] == MapDelete(v, s[b].id))
         && ((exists i {:trigger l[i]} :: 0 <= i < |l| && l[i].MapDelete?) <==> b in shown0[v] && asker != Some(v))
  }

  lemma DeletionIsTold(s: Store, c: Chains, shown0: map<View, Overlay>, plan: Plan, shown: map<View, Overlay>,
                       sent: seq<Notice>, b: Ref, asker: Option<View>)
    requires b in s && s[b].parent.Some? && s[b].parent.value in c && Followed(shown0, plan, shown, sent, shown0.Keys)
    requires forall v {:trigger plan[v]} :: v in shown0 ==>
               v in plan && plan[v].told == DeleteNotices(s, c, shown0[v], b, v, asker == Some(v))
    ensures DeletionTold(s, shown0, sent, b, asker)
  {
    forall v | v in shown0
      ensures
        var l := Addressed(sent, v);
        && (forall i {:trigger l[i]} :: 0 <= i < |l| && l[i].MapDelete? ==> l[i] == MapDelete(v, s[b].id))
        && ((exists i {:trigger l[i]} :: 0 <= i < |l| && l[i].MapDelete?) <==> b in shown0[v] && asker != Some(v))
    {
      assert FollowedAt(shown0, plan, shown, sent, shown0.Keys, v);
      var l := Addressed(sent, v);
      assert l == DeleteNotices(s, c, shown0[v], b, v, asker == Some(v));
      if asker != Some(v) && b in shown0[v] {
        assert l[0].MapDelete?;
      }
    }
  }

  // ----- expand

  /**
   An expansion is told, exactly if it does not open the root: `e` is the deepest branch that was visible, of which
   the client is sent all that it shows.
   */
  lemma ExpandTells(s: Store, c: Chains, root: Ref, o: Overlay, b: Ref, v: View, l: seq<Notice>)
    requires Linked(s) && Chained(s, c) && ValidOverlay(s, root, o) && b in s && EndsAt(c[b], root) && Unopened(o, b)
    requires DistinctIds(s) && (s[b].parent.None? <==> b == root)
    requires if b == root then l == [] else
             |l| == 1 && l[0] == MapInsert(v, IdOf(s, Deepest(o, c[b])), 0, IdOf(s, Deepest(o, c[b])))
    ensures Told(s, s, c, o, Expanded(s, o, c[b]), l, v, {}) <==> b != root || s[b].kids == []
  {
    var w := Expanded(s, o, c[b]);
    assert ChainedAt(s, c, b);
    ExpandedValid(s, c, root, o, b);
    DeepestKnown(s, c, root, o, b);
    if b != root {
      forall x | x in w && x !in o ensures x in c && Deepest(o, c[b]).value in c[x] {
        ExpandedBelow(s, c, root, o, b, x);
      }
      ToldRefresh(s, s, c, o, w, l, v, Deepest(o, c[b]).value, 0, {});
    } else if s[b].kids == [] {
      ToldNothing(s, s, c, o, w, v, {});
    } else {
      var k := s[b].kids[0];
      assert LinkedAt(s, b);
      SeenTogether(s, root, o, b, k);
      SeenTogether(s, root, w, b, k);
      assert k in w && k !in o;
      assert !Reported(s, s, c, o, w, l, k);
    }
  }
}
