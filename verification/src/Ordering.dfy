/**
 The order in which a view lists the children of a branch: that of the branch itself, as long as every change puts
 a vbranch where it puts the branch.
 */
module Ordering {
  import opened Options
  import opened Sequences
  import opened Forest
  import opened Overlay
  import opened Sight
  import opened HeadFile
  import opened Views
  import opened MapSteps
  import opened Expansion

  /** Every list of children that is shown is that of the tree. */
  ghost predicate Ordered(s: Store, o: Overlay) {
    forall x {:trigger Drawn(s, o, x)} :: x in o ==> Drawn(s, o, x)
  }

  ghost predicate AllOrdered(s: Store, shown: map<View, Overlay>) {
    forall v {:trigger Ordered(s, shown[v])} :: v in shown ==> Ordered(s, shown[v])
  }

  lemma {:induction false} RevealedOrdered(s: Store, c: Chains, root: Ref, o: Overlay, b: Ref)
    requires Linked(s) && Chained(s, c) && ValidOverlay(s, root, o) && b in s && EndsAt(c[b], root) && Ordered(s, o)
    ensures Ordered(s, Revealed(s, o, c[b]))
    decreases |c[b]|
  {
    assert ChainedAt(s, c, b);
    if b !in o {
      RevealStep(s, c, root, o, b);
      var y := s[b].parent.value;
      RevealedOrdered(s, c, root, o, y);
      RevealedValid(s, c, root, o, y);
      KidsOrdered(s, Revealed(s, o, c[y]), y);
    }
  }

  lemma KidsOrdered(s: Store, o: Overlay, y: Ref)
    requires Ordered(s, o) && y in s && y in o && y !in s[y].kids
    ensures Ordered(s, KidsShown(s, o, y))
  {
    forall x | x in KidsShown(s, o, y) ensures Drawn(s, KidsShown(s, o, y), x) {
      assert x in o ==> Drawn(s, o, x);
    }
  }

  lemma ExpandedOrdered(s: Store, c: Chains, root: Ref, o: Overlay, b: Ref)
    requires Linked(s) && Chained(s, c) && ValidOverlay(s, root, o) && b in s && EndsAt(c[b], root) && Ordered(s, o)
    ensures Ordered(s, Expanded(s, o, c[b]))
  {
    assert ChainedAt(s, c, b);
    RevealedOrdered(s, c, root, o, b);
    RevealedValid(s, c, root, o, b);
    NotOwnKid(s, c, b);
    KidsOrdered(s, Revealed(s, o, c[b]), b);
  }

  /** Completing lists keeps those that are in order. */
  lemma WidenedOrdered(s: Store, o: Overlay, w: Overlay)
    requires Widened(s, o, w) && Ordered(s, o)
    ensures Ordered(s, w)
  {
    forall x | x in w ensures Drawn(s, w, x) {
      if x in o {
        assert WidenedAt(s, o, w, x) && Drawn(s, o, x);
      }
    }
  }

  // ----- insert

  /** Where the view `v` has put the new branch `n`: in the list of `q`, at the index of the branch. */
  ghost predicate PutInPlace(s: Store, t: Store, o: Overlay, w: Overlay, n: Ref, q: Ref, mine: bool) {
    && q in s && q in t && n in t[q].kids
    && (q in o && o[q].kids == s[q].kids && (mine || s[q].kids != []) ==> q in w && w[q].kids == t[q].kids)
    && (q !in o && mine ==> q in w && w[q].kids == t[q].kids)
    && (q in o && n in w ==>
          q in w && exists k {:trigger t[q].kids[k]} :: 0 <= k < |t[q].kids| && t[q].kids[k] == n
                                                       && Placed(o[q].kids, w[q].kids, n, k))
    && (forall x {:trigger w[x]} :: x in o && x != q && o[x].kids != [] ==> x in w && w[x].kids == o[x].kids)
  }

  lemma {:induction false} InsertInPlace(s: Store, t: Store, c: Chains, root: Ref, o: Overlay, n: Ref, nb: Branch,
                                         q: Ref, pos: int, mine: bool)
    requires Linked(s) && Chained(s, c) && ValidOverlay(s, root, o) && IsNew(s, n, nb) && q in s && EndsAt(c[q], root)
    requires Hooked(Lone(s, n, nb), t, n, q, pos)
    ensures PutInPlace(s, t, o, InsertSeen(s, c, o, n, q, Clamp(pos, |s[q].kids|), mine), n, q, mine)
  {
    var k, w := Clamp(pos, |s[q].kids|), InsertSeen(s, c, o, n, q, Clamp(pos, |s[q].kids|), mine);
    LoneValid(s, root, o, n, nb);
    assert t[q].kids[k] == n;
    if mine && q !in o {
      var u := Expanded(s, o, c[q]);
      ExpandedValid(s, c, root, o, q);
      LoneValid(s, root, u, n, nb);
      ExpandedLists(s, c, root, o, q);
      AppearedLists(u, n, q, k);
      assert w == Appeared(u, n, q, k) && w[q].kids == t[q].kids;
    } else if q in o && (mine || o[q].kids != []) {
      AppearedLists(o, n, q, k);
      ClampPlaced(o[q].kids, n, k);
      assert w == Appeared(o, n, q, k);
    } else {
      assert w == o;
    }
  }

  lemma AppearedLists(o: Overlay, n: Ref, q: Ref, k: nat)
    requires q in o && n !in o
    ensures
      var w := Appeared(o, n, q, k);
      && q in w && w[q].kids == InsertedAt(o[q].kids, Clamp(k, |o[q].kids|), n)
      && (forall x {:trigger w[x]} :: x in o && x != q ==> x in w && w[x].kids == o[x].kids)
  {
  }

  /** The list of the branch itself, and those that were there. */
  lemma ExpandedLists(s: Store, c: Chains, root: Ref, o: Overlay, q: Ref)
    requires Linked(s) && Chained(s, c) && ValidOverlay(s, root, o) && q in s && EndsAt(c[q], root) && Unopened(o, q)
    ensures
      var e := Expanded(s, o, c[q]);
      && q in e && e[q].kids == s[q].kids
      && (forall x {:trigger e[x]} :: x in o && o[x].kids != [] ==> x in e && e[x].kids == o[x].kids)
  {
    assert ChainedAt(s, c, q);
    RevealedValid(s, c, root, o, q);
    RevealedKeeps(s, c, root, o, q);
    ExpandedValid(s, c, root, o, q);
    NotOwnKid(s, c, q);
    if s[q].kids != [] {
      KidsShownValid(s, root, Revealed(s, o, c[q]), q);
    }
  }

  /** After an insertion the lists are those of the tree still, exactly if the overlay is valid still. */
  lemma InsertOrdered(s: Store, t: Store, c: Chains, root: Ref, o: Overlay, n: Ref, nb: Branch, q: Ref, pos: int,
                      mine: bool)
    requires Linked(s) && Chained(s, c) && ValidOverlay(s, root, o) && IsNew(s, n, nb) && q in s && EndsAt(c[q], root)
    requires Hooked(Lone(s, n, nb), t, n, q, pos) && Ordered(s, o)
    ensures Ordered(t, InsertSeen(s, c, o, n, q, Clamp(pos, |s[q].kids|), mine)) <==> !AddsLoneChild(s, o, q, mine)
  {
    var k := Clamp(pos, |s[q].kids|);
    var u, w := if mine && q !in o then Expanded(s, o, c[q]) else o, InsertSeen(s, c, o, n, q, k, mine);
    LoneValid(s, root, o, n, nb);
    if mine && q !in o {
      ExpandedValid(s, c, root, o, q);
      ExpandedOrdered(s, c, root, o, q);
      ExpandedLists(s, c, root, o, q);
      LoneValid(s, root, u, n, nb);
    }
    assert t[q].kids == InsertedAt(s[q].kids, k, n);
    if AddsLoneChild(s, o, q, mine) {
      assert w[q].kids == [n];
      assert !Drawn(t, w, q);
    } else {
      forall x | x in w ensures Drawn(t, w, x) {
        if x in u {
          assert Drawn(s, u, x);
        }
      }
    }
  }

  lemma InsertAllInPlace(s: Store, t: Store, c: Chains, root: Ref, shown0: map<View, Overlay>,
                         shown: map<View, Overlay>, sent: seq<Notice>, n: Ref, nb: Branch, q: Ref, pos: int,
                         asker: Option<View>)
    requires Linked(s) && Chained(s, c) && AllValid(s, root, shown0) && IsNew(s, n, nb) && q in s && EndsAt(c[q], root)
    requires Hooked(Lone(s, n, nb), t, n, q, pos)
    requires Followed(shown0, InsertPlan(s, c, shown0, n, nb.id, q, pos, Clamp(pos, |s[q].kids|), asker), shown, sent,
                      shown0.Keys)
    ensures forall v {:trigger shown[v]} :: v in shown0 ==>
              v in shown && PutInPlace(s, t, shown0[v], shown[v], n, q, asker == Some(v))
    ensures AllOrdered(s, shown0) ==> (AllOrdered(t, shown) <==> !AskerLoneChild(s, shown0, asker, q))
  {
    var at := Clamp(pos, |s[q].kids|);
    forall v | v in shown0
      ensures v in shown && PutInPlace(s, t, shown0[v], shown[v], n, q, asker == Some(v))
      ensures AllOrdered(s, shown0) ==>
                (Ordered(t, shown[v]) <==> !AddsLoneChild(s, shown0[v], q, asker == Some(v)))
    {
      assert FollowedAt(shown0, InsertPlan(s, c, shown0, n, nb.id, q, pos, at, asker), shown, sent, shown0.Keys, v);
      assert ValidOverlay(s, root, shown0[v]);
      InsertInPlace(s, t, c, root, shown0[v], n, nb, q, pos, asker == Some(v));
      if AllOrdered(s, shown0) {
        InsertOrdered(s, t, c, root, shown0[v], n, nb, q, pos, asker == Some(v));
      }
    }
    if AskerLoneChild(s, shown0, asker, q) && AllOrdered(s, shown0) {
      assert !Ordered(t, shown[asker.value]);
    }
  }

  // ----- move

  /** The place at which an entry goes into a list of `n`: the index, or the end if there is no such index. */
  function Index(pos: int, n: nat): nat {
    if 0 <= pos <= n then pos else n
  }

  /** The view shows the branch at its new place. */
  predicate Shows(s: Store, o: Overlay, b: Ref, q: Ref, mine: bool)
    requires q in s
  {
    b in o || (Open(s, o, q) && !mine)
  }

  /**
   Where a view that shows the branch has put it: in the list of `q`, at the index that it had below its old parent, and
   out of any list in which it was.  All other lists are as they were.
   */
  ghost predicate PutByIndex(s: Store, o: Overlay, w: Overlay, b: Ref, q: Ref, mine: bool) {
    && b in s && s[b].parent.Some? && s[b].parent.value in s && q in s
    && var p, list := s[b].parent.value, if q in o && o[q].kids != [] then o[q].kids else s[q].kids;
    && (Shows(s, o, b, q, mine) ==>
          q in w && exists k, l {:trigger Placed(l, w[q].kids, b, k)} ::
            && 0 <= k < |s[p].kids| && s[p].kids[k] == b
            && (if b in list then TakenOut(list, l, b) else l == list) && Placed(l, w[q].kids, b, k))
    && (b in o && p != q ==> p in o && p in w && TakenOut(o[p].kids, w[p].kids, b))
    && (forall x {:trigger w[x]} :: x in o && x != p && x != q && o[x].kids != [] ==> x in w && w[x].kids == o[x].kids)
  }

  /** The view has put the branch at an index other than that of the branch in the tree. */
  ghost predicate Astray(s: Store, o: Overlay, b: Ref, q: Ref, pos: int, mine: bool)
    requires b in s && s[b].parent.Some? && s[b].parent.value in s && q in s
  {
    && Shows(s, o, b, q, mine)
    && Index(pos, |Rejoined(s, b, q)|) != Index(Position(s, b), |Rejoined(s, b, q)|)
  }

  lemma DifferentPlaces(l: seq<Ref>, b: Ref, i: nat, j: nat)
    requires i <= |l| && j <= |l| && b !in l
    ensures InsertedAt(l, i, b) == InsertedAt(l, j, b) <==> i == j
  {
    if i != j {
      assert InsertedAt(l, i, b)[i] == b;
      assert InsertedAt(l, j, b)[i] == if i < j then l[i] else l[i - 1];
    }
  }

  /** What the lists of `e` are when `b` is taken out and put in at the index that it had. */
  lemma ShiftLists(s: Store, root: Ref, e: Overlay, w: Overlay, b: Ref, q: Ref)
    requires Linked(s) && ValidOverlay(s, root, e) && Ordered(s, e) && b in e && q in s && q in e && Open(s, e, q)
    requires b != q
    requires b in s && s[b].parent.Some? && s[b].parent.value in s && b in VDetached(e, b) && q in VDetached(e, b)
    requires w == VAdded(VDetached(e, b), b, q, Position(s, b))
    ensures w.Keys == e.Keys
    ensures
      var p, l := s[b].parent.value, Rejoined(s, b, q);
      && w[q].kids == InsertedAt(l, Index(Position(s, b), |l|), b)
      && (p != q ==> p in w && w[p].kids == Without(s[p].kids, b))
      && (forall x {:trigger w[x]} :: x in w && x != p && x != q ==> w[x].kids == e[x].kids)
  {
    var p := s[b].parent.value;
    assert ShownAt(s, e, b) && ShownAt(s, e, p) && Drawn(s, e, p) && Drawn(s, e, q);
    FirstMember(e[p].kids);
  }

  /** `e` has `b`, and shows the children of `q`; taking `b` out and putting it below `q` keeps all other lists. */
  lemma ShiftOrdered(s: Store, t: Store, c: Chains, root: Ref, e: Overlay, w: Overlay, b: Ref, q: Ref, pos: int)
    requires Trees(s, c) && CanMove(s, c, root, b, q) && ValidOverlay(s, root, e) && Ordered(s, e)
    requires b in e && Open(s, e, q) && t == Moved(s, c, b, q, pos)
    requires w == VAdded(VDetached(e, b), b, q, Position(s, b))
    ensures Ordered(t, w) <==> Index(pos, |Rejoined(s, b, q)|) == Index(Position(s, b), |Rejoined(s, b, q)|)
  {
    var p, l, k := s[b].parent.value, Rejoined(s, b, q), Position(s, b);
    assert ChainedAt(s, c, q) && LinkedAt(s, q);
    MovedKids(s, c, root, b, q, pos);
    WithoutMembers(s[q].kids, b);
    DifferentPlaces(l, b, Index(pos, |l|), Index(k, |l|));
    ShiftLists(s, root, e, w, b, q);
    assert b !in l by {
      assert LinkedAt(s, q) && (b in s[q].kids ==> s[b].parent == Some(q));
    }
    ShiftedOrdered(s, t, e, w, p, q);
  }

  lemma ShiftedOrdered(s: Store, t: Store, e: Overlay, w: Overlay, p: Ref, q: Ref)
    requires Ordered(s, e) && w.Keys == e.Keys && q in w && s.Keys == t.Keys && q in t && p in s && w[q].kids != []
    requires p != q ==> p in w && w[p].kids == t[p].kids
    requires forall x {:trigger w[x]} :: x in w && x != p && x != q ==> w[x].kids == e[x].kids
    requires forall x {:trigger t[x]} :: x in s && x != p && x != q ==> t[x].kids == s[x].kids
    ensures Ordered(t, w) <==> w[q].kids == t[q].kids
  {
    if w[q].kids == t[q].kids {
      forall x | x in w ensures Drawn(t, w, x) {
        assert Drawn(s, e, x);
      }
    } else {
      assert !Drawn(t, w, q);
    }
  }

  lemma MoveOrdered(s: Store, c: Chains, root: Ref, o: Overlay, b: Ref, q: Ref, pos: int, mine: bool)
    requires Trees(s, c) && CanMove(s, c, root, b, q) && ValidOverlay(s, root, o) && Ordered(s, o)
    ensures Ordered(Moved(s, c, b, q, pos), MoveSeen(s, c, o, b, q, mine))
            <==> !MissesArrival(o, b, q, mine) && !Astray(s, o, b, q, pos, mine)
  {
    var t, w := Moved(s, c, b, q, pos), MoveSeen(s, c, o, b, q, mine);
    assert ChainedAt(s, c, q);
    if b in o && Open(s, o, q) {
      ShiftOrdered(s, t, c, root, o, w, b, q, pos);
    } else if b in o {
      OpenedOrdered(s, c, root, o, b, q, pos, mine);
    } else {
      HiddenOrdered(s, c, root, o, b, q, pos, mine);
    }
  }

  lemma OpenedOrdered(s: Store, c: Chains, root: Ref, o: Overlay, b: Ref, q: Ref, pos: int, mine: bool)
    requires Trees(s, c) && CanMove(s, c, root, b, q) && ValidOverlay(s, root, o) && Ordered(s, o)
    requires b in o && !Open(s, o, q)
    ensures Ordered(Moved(s, c, b, q, pos), MoveSeen(s, c, o, b, q, mine)) <==> !Astray(s, o, b, q, pos, mine)
  {
    var e, w := Expanded(s, o, c[q]), MoveSeen(s, c, o, b, q, mine);
    assert ChainedAt(s, c, q);
    ExpandedValid(s, c, root, o, q);
    ExpandedOrdered(s, c, root, o, q);
    MovedLists(s, root, e, b, q, Position(s, b));
    ShiftOrdered(s, Moved(s, c, b, q, pos), c, root, e, w, b, q, pos);
  }

  lemma HiddenOrdered(s: Store, c: Chains, root: Ref, o: Overlay, b: Ref, q: Ref, pos: int, mine: bool)
    requires Trees(s, c) && CanMove(s, c, root, b, q) && ValidOverlay(s, root, o) && Ordered(s, o) && b !in o
    ensures Ordered(Moved(s, c, b, q, pos), MoveSeen(s, c, o, b, q, mine))
            <==> !MissesArrival(o, b, q, mine) && !Astray(s, o, b, q, pos, mine)
  {
    var t := Moved(s, c, b, q, pos);
    HiddenLists(s, t, c, root, o, b, q, pos);
    if Open(s, o, q) && !mine {
      HiddenArrives(t, o, s[q].kids, b, q, pos, Position(s, b));
    } else {
      HiddenStays(t, o, q);
    }
  }

  lemma HiddenStays(t: Store, o: Overlay, q: Ref)
    requires q in t && t[q].kids != []
    requires forall x {:trigger DrawnBut(t, o, q, x)} :: x in o ==> DrawnBut(t, o, q, x)
    ensures Ordered(t, o) <==> (q in o ==> o[q].kids == [] || o[q].kids == t[q].kids)
  {
    if q in o ==> o[q].kids == [] || o[q].kids == t[q].kids {
      forall x | x in o ensures Drawn(t, o, x) {
        assert DrawnBut(t, o, q, x);
      }
    } else {
      assert !Drawn(t, o, q);
    }
  }

  lemma HiddenArrives(t: Store, o: Overlay, l: seq<Ref>, b: Ref, q: Ref, pos: int, k: int)
    requires q in o && q in t && b !in o && o[q].kids == l && b !in l && t[q].kids == InsertedAt(l, Index(pos, |l|), b)
    requires forall x {:trigger DrawnBut(t, o, q, x)} :: x in o ==> DrawnBut(t, o, q, x)
    ensures Ordered(t, Appeared(o, b, q, k)) <==> Index(pos, |l|) == Index(k, |l|)
  {
    var w := Appeared(o, b, q, k);
    DifferentPlaces(l, b, Index(pos, |l|), Index(k, |l|));
    assert w[q].kids == InsertedAt(l, Index(k, |l|), b);
    InsertedMembers(l, Index(k, |l|), b);
    HiddenAppears(t, o, w, b, q);
  }

  ghost predicate DrawnBut(t: Store, o: Overlay, q: Ref, x: Ref) {
    x != q ==> Drawn(t, o, x)
  }

  lemma HiddenAppears(t: Store, o: Overlay, w: Overlay, b: Ref, q: Ref)
    requires q in o && q in t && w.Keys == o.Keys + {b} && b !in o && w[b].kids == [] && w[q].kids != []
    requires forall x {:trigger w[x]} :: x in o && x != q ==> w[x].kids == o[x].kids
    requires forall x {:trigger DrawnBut(t, o, q, x)} :: x in o ==> DrawnBut(t, o, q, x)
    ensures Ordered(t, w) <==> w[q].kids == t[q].kids
  {
    if w[q].kids == t[q].kids {
      forall x | x in w ensures Drawn(t, w, x) {
        if x != q && x != b {
          assert DrawnBut(t, o, q, x);
        }
      }
    } else {
      assert !Drawn(t, w, q);
    }
  }

  /** The lists of an overlay that does not show `b`, in the tree after the move. */
  lemma HiddenLists(s: Store, t: Store, c: Chains, root: Ref, o: Overlay, b: Ref, q: Ref, pos: int)
    requires Trees(s, c) && CanMove(s, c, root, b, q) && ValidOverlay(s, root, o) && Ordered(s, o) && b !in o
    requires t == Moved(s, c, b, q, pos)
    ensures q in t && |t[q].kids| > 0 && b in t[q].kids
    ensures forall x {:trigger DrawnBut(t, o, q, x)} :: x in o ==> DrawnBut(t, o, q, x)
    ensures q in o && o[q].kids != [] ==> o[q].kids != t[q].kids
    ensures Open(s, o, q) ==> Rejoined(s, b, q) == s[q].kids && o[q].kids == s[q].kids && b !in s[q].kids
    ensures t[q].kids == InsertedAt(Rejoined(s, b, q), Index(pos, |Rejoined(s, b, q)|), b)
  {
    var p, l := s[b].parent.value, Rejoined(s, b, q);
    MovedKids(s, c, root, b, q, pos);
    assert LinkedAt(s, p) && LinkedAt(s, b);
    InsertedMembers(l, Clamp(pos, |l|), b);
    if p in o {
      SeenTogether(s, root, o, p, b);
    }
    if q in o {
      assert ShownAt(s, o, q) && Drawn(s, o, q);
    }
    forall x | x in o ensures DrawnBut(t, o, q, x) {
      assert Drawn(s, o, x);
    }
  }

  /** The same for any overlay `e` that has `b` and shows the children of `q`. */
  lemma ShiftInPlace(s: Store, root: Ref, e: Overlay, w: Overlay, b: Ref, q: Ref)
    requires Linked(s) && ValidOverlay(s, root, e) && b in e && q in s && q in e && Open(s, e, q) && b != q
    requires b in s && s[b].parent.Some? && s[b].parent.value in s && b in VDetached(e, b) && q in VDetached(e, b)
    requires w == VAdded(VDetached(e, b), b, q, Position(s, b))
    ensures
      var p, k := s[b].parent.value, Position(s, b);
      && 0 <= k < |s[p].kids| && s[p].kids[k] == b && q in w && p in e && p in w
      && (exists l {:trigger Placed(l, w[q].kids, b, k)} ::
            (if b in e[q].kids then TakenOut(e[q].kids, l, b) else l == e[q].kids) && Placed(l, w[q].kids, b, k))
      && (p != q ==> TakenOut(e[p].kids, w[p].kids, b))
      && (forall x {:trigger w[x]} :: x in e && x != p && x != q ==> x in w && w[x].kids == e[x].kids)
  {
    var p, k := s[b].parent.value, Position(s, b);
    assert ShownAt(s, e, b) && ShownAt(s, e, p) && ShownAt(s, e, q) && LinkedAt(s, b);
    PosInBounds(s[p].kids, b);
    WithoutTakenOut(e[p].kids, b);
    ClampPlaced(VDetached(e, b)[q].kids, b, k);
    assert b in e[q].kids ==> p == q;
  }

  lemma MoveInPlace(s: Store, c: Chains, root: Ref, o: Overlay, b: Ref, q: Ref, mine: bool)
    requires Trees(s, c) && CanMove(s, c, root, b, q) && ValidOverlay(s, root, o)
    ensures PutByIndex(s, o, MoveSeen(s, c, o, b, q, mine), b, q, mine)
  {
    var p, k, w := s[b].parent.value, Position(s, b), MoveSeen(s, c, o, b, q, mine);
    assert ChainedAt(s, c, q) && LinkedAt(s, b);
    PosInBounds(s[p].kids, b);
    if b in o && Open(s, o, q) {
      ShiftInPlace(s, root, o, w, b, q);
    } else if b in o {
      OpenedInPlace(s, c, root, o, w, b, q, mine);
    } else if Open(s, o, q) && !mine {
      assert ShownAt(s, o, q);
      ClampPlaced(o[q].kids, b, k);
    }
  }

  lemma OpenedInPlace(s: Store, c: Chains, root: Ref, o: Overlay, w: Overlay, b: Ref, q: Ref, mine: bool)
    requires Trees(s, c) && CanMove(s, c, root, b, q) && ValidOverlay(s, root, o) && b in o && !Open(s, o, q)
    requires w == MoveSeen(s, c, o, b, q, mine)
    ensures PutByIndex(s, o, w, b, q, mine)
  {
    var p, e := s[b].parent.value, Expanded(s, o, c[q]);
    assert ChainedAt(s, c, q) && ShownAt(s, o, b);
    FirstMember(o[p].kids);
    ExpandedValid(s, c, root, o, q);
    ExpandedLists(s, c, root, o, q);
    MovedLists(s, root, e, b, q, Position(s, b));
    ShiftInPlace(s, root, e, w, b, q);
    assert e[p].kids == o[p].kids;
  }

  lemma MoveAllInPlace(s: Store, c: Chains, root: Ref, shown0: map<View, Overlay>, shown: map<View, Overlay>,
                       sent: seq<Notice>, b: Ref, q: Ref, pos: int, asker: Option<View>)
    requires Trees(s, c) && CanMove(s, c, root, b, q) && AllValid(s, root, shown0)
    requires Followed(shown0, MovePlan(s, c, shown0, b, q, pos, asker), shown, sent, shown0.Keys)
    ensures forall v {:trigger shown[v]} :: v in shown0 ==>
              v in shown && PutByIndex(s, shown0[v], shown[v], b, q, asker == Some(v))
    ensures AllOrdered(s, shown0) ==>
              (AllOrdered(Moved(s, c, b, q, pos), shown) <==>
               !AskerMisses(shown0, asker, b, q) && !AnyAstray(s, shown0, b, q, pos, asker))
  {
    var t := Moved(s, c, b, q, pos);
    forall v | v in shown0
      ensures v in shown && PutByIndex(s, shown0[v], shown[v], b, q, asker == Some(v))
      ensures AllOrdered(s, shown0) ==>
                (Ordered(t, shown[v]) <==>
                 && !MissesArrival(shown0[v], b, q, asker == Some(v))
                 && !Astray(s, shown0[v], b, q, pos, asker == Some(v)))
    {
      assert FollowedAt(shown0, MovePlan(s, c, shown0, b, q, pos, asker), shown, sent, shown0.Keys, v);
      assert ValidOverlay(s, root, shown0[v]);
      MoveInPlace(s, c, root, shown0[v], b, q, asker == Some(v));
      if AllOrdered(s, shown0) {
        MoveOrdered(s, c, root, shown0[v], b, q, pos, asker == Some(v));
      }
    }
    if AllOrdered(s, shown0) && AskerMisses(shown0, asker, b, q) {
      assert !Ordered(t, shown[asker.value]);
    }
    if AllOrdered(s, shown0) && AnyAstray(s, shown0, b, q, pos, asker) {
      var v :| v in shown0 && Astray(s, shown0[v], b, q, pos, asker == Some(v));
      assert !Ordered(t, shown[v]);
    }
  }

  /** Some view puts the branch at the wrong place. */
  ghost predicate AnyAstray(s: Store, shown: map<View, Overlay>, b: Ref, q: Ref, pos: int, asker: Option<View>)
    requires b in s && s[b].parent.Some? && s[b].parent.value in s && q in s
  {
    exists v {:trigger shown[v]} :: v in shown && Astray(s, shown[v], b, q, pos, asker == Some(v))
  }

  // ----- delete

  lemma DeleteOrdered(s: Store, t: Store, root: Ref, o: Overlay, b: Ref)
    requires Linked(s) && ValidOverlay(s, root, o) && Ordered(s, o) && b in s && s[b].parent.Some?
    requires t.Keys == s.Keys - {b} && s[b].kids == []
    requires forall x {:trigger t[x]} :: x in t ==>
               t[x].kids == if s[b].parent == Some(x) then Without(s[x].kids, b) else s[x].kids
    ensures Ordered(t, DeleteSeen(o, b))
  {
    var w, p := DeleteSeen(o, b), s[b].parent.value;
    assert LinkedAt(s, b);
    if b in o {
      assert ShownAt(s, o, b) && ShownAt(s, o, p);
      FirstMember(o[p].kids);
    } else if p in o {
      SeenTogether(s, root, o, p, b);
    }
    forall x | x in w ensures Drawn(t, w, x) {
      assert Drawn(s, o, x) && ShownAt(s, o, x);
    }
  }
}
