/** What delete of src/map.c does with the children of the branch, and what becomes of the tree then. */
module Deletion {
  import opened Options
  import opened Sequences
  import opened Forest
  import opened Overlay
  import opened Sight
  import opened HeadFile
  import opened HeadLoader
  import opened HeadWriter
  import opened Views
  import opened MapSteps

  /** What is left of a list if the element at the index is taken out and the index advances, to the end. */
  function Skipped<N>(l: seq<N>, i: nat): seq<N>
    decreases |l| - i
  {
    if i < |l| then Skipped(CutOut(l, i), i + 1) else l
  }

  lemma {:induction false} SkippedLength<N>(l: seq<N>, i: nat)
    requires i <= |l|
    ensures |Skipped(l, i)| == i + (|l| - i) / 2
    decreases |l| - i
  {
    if i + 1 < |l| {
      SkippedLength(CutOut(l, i), i + 1);
    }
  }

  /** The loop skips every second element. */
  lemma {:induction false} SkippedOdd<N>(l: seq<N>, i: nat, j: nat)
    requires i <= |l| && j < i + (|l| - i) / 2
    ensures j < |Skipped(l, i)| && Skipped(l, i)[j] == l[if j < i then j else 2 * j - i + 1]
    decreases |l| - i
  {
    SkippedLength(l, i);
    if i + 1 < |l| {
      SkippedOdd(CutOut(l, i), i + 1, j);
    }
  }

  /** Nothing is left exactly if there was at most one element. */
  lemma SkippedNone<N>(l: seq<N>)
    ensures Skipped(l, 0) == [] <==> |l| <= 1
  {
    SkippedLength(l, 0);
  }

  /** From `s` to `t` the children of `b` have gone to `root`, except those of `left`. */
  ghost predicate Rehomed(s: Store, t: Store, b: Ref, root: Ref, left: seq<Ref>) {
    && SameNames(s, t) && b in s && root in s && t[b].kids == left && (forall x :: x in left ==> x in s[b].kids)
    && (forall x {:trigger t[x]} :: x in s ==>
       t[x].parent == if x in s[b].kids && x !in left then Some(root) else s[x].parent)
    && (forall x {:trigger t[x]} :: x in s && x != b && x != root ==> t[x].kids == s[x].kids)
    && |t[root].kids| + |left| == |s[root].kids| + |s[b].kids|
  }

  lemma RehomedNone(s: Store, b: Ref, root: Ref)
    requires b in s && root in s
    ensures Rehomed(s, s, b, root, s[b].kids)
  {
  }

  lemma RehomedMore(s: Store, t: Store, u: Store, b: Ref, root: Ref, l: seq<Ref>, m: seq<Ref>)
    requires Rehomed(s, t, b, root, l) && Rehomed(t, u, b, root, m) && b != root
    ensures Rehomed(s, u, b, root, m)
  {
  }

  /** One child goes to the root. */
  lemma RehomedOne(s: Store, c: Chains, root: Ref, b: Ref, i: nat, pos: int)
    requires Trees(s, c) && b in s && b != root && i < |s[b].kids| && CanMove(s, c, root, s[b].kids[i], root)
    ensures Rehomed(s, Moved(s, c, s[b].kids[i], root, pos), b, root, CutOut(s[b].kids, i))
  {
    var k := s[b].kids[i];
    assert LinkedAt(s, b);
    MovedKids(s, c, root, k, root, pos);
    WithoutSplit(s[b].kids, i);
    WithoutMembers(s[b].kids, k);
  }

  /** A child of a branch other than the root can always go to the root. */
  lemma ChildMovable(s: Store, c: Chains, root: Ref, index: map<nat, Ref>, next: Ref, b: Ref, k: Ref)
    requires Consistent(s, c, root, index, next) && b in s && b != root && k in s[b].kids
    ensures k in s && s[k].parent == Some(b) && Movable(s, c, index, s[root].id, s[b].id, s[k].id)
    ensures CanMove(s, c, root, k, root) && Rejoined(s, k, root) == s[root].kids && index[s[root].id] == root
    ensures index[s[k].id] == k
  {
    assert LinkedAt(s, b) && IndexedAt(s, index, k) && IndexedAt(s, index, root);
    assert StorableAt(s, c, root, root) && StorableAt(s, c, root, k);
    OnlyRoot(s, c, root, root);
    assert ChainedAt(s, c, root);
  }

  // ----- what all views are to show and to be told of the deletion of a childless branch

  ghost function GonePlan(s: Store, c: Chains, shown: map<View, Overlay>, b: Ref, asker: Option<View>): Plan
    requires b in s && s[b].parent.Some? && s[b].parent.value in c
  {
    map v | v in shown :: Turn(DeleteSeen(shown[v], b), DeleteNotices(s, c, shown[v], b, v, asker == Some(v)))
  }

  /** A branch other than the root, with at most one child. */
  ghost predicate Deletable(s: Store, c: Chains, root: Ref, b: Ref) {
    && b in s && b in c && root in s && root in c && |s[b].kids| <= 1
    && s[b].parent.Some? && s[b].parent.value in s && s[b].parent.value in c
    && forall k :: k in s[b].kids ==> k in s && k in c && s[k].parent == Some(b)
  }

  /** The tree when the child, if any, has gone to the root. */
  ghost function HomeStore(s: Store, c: Chains, root: Ref, b: Ref): Store
    requires Deletable(s, c, root, b)
  {
    if s[b].kids == [] then s else Moved(s, c, s[b].kids[0], root, 9999)
  }

  ghost function HomeChains(s: Store, c: Chains, root: Ref, b: Ref): Chains
    requires Deletable(s, c, root, b)
  {
    if s[b].kids == [] then c else MovedChains(c, s[b].kids[0], root)
  }

  /** What all views are to show and to be told: first the move of the child, if any, then the deletion. */
  ghost function DeletionTurn(s: Store, c: Chains, t: Store, d: Chains, root: Ref, o: Overlay, b: Ref, v: View,
                              mine: bool): Turn
    requires Deletable(s, c, root, b) && b in t && t[b].parent.Some? && t[b].parent.value in d
  {
    var k := if s[b].kids == [] then b else s[b].kids[0];
    var w := if s[b].kids == [] then o else MoveSeen(s, c, o, k, root, false);
    var told := if s[b].kids == [] then [] else MoveNotices(s, c, o, k, root, 9999, v, false);
    Turn(DeleteSeen(w, b), told + DeleteNotices(t, d, w, b, v, mine))
  }

  ghost function DeletionPlan(s: Store, c: Chains, t: Store, d: Chains, root: Ref, shown: map<View, Overlay>, b: Ref,
                              asker: Option<View>): Plan
    requires Deletable(s, c, root, b) && b in t && t[b].parent.Some? && t[b].parent.value in d
  {
    map v | v in shown :: DeletionTurn(s, c, t, d, root, shown[v], b, v, asker == Some(v))
  }

  lemma DeletionFollowed(s: Store, c: Chains, t: Store, d: Chains, root: Ref, shown0: map<View, Overlay>,
                         shown1: map<View, Overlay>, shown: map<View, Overlay>, sent: seq<Notice>, more: seq<Notice>,
                         b: Ref, asker: Option<View>)
    requires Deletable(s, c, root, b) && b in t && t[b].parent.Some? && t[b].parent.value in d
    requires if s[b].kids == [] then shown1 == shown0 && sent == []
             else Followed(shown0, MovePlan(s, c, shown0, s[b].kids[0], root, 9999, None), shown1, sent, shown0.Keys)
    requires Followed(shown1, GonePlan(t, d, shown1, b, asker), shown, more, shown1.Keys)
    ensures Followed(shown0, DeletionPlan(s, c, t, d, root, shown0, b, asker), shown, sent + more, shown0.Keys)
  {
    var plan := DeletionPlan(s, c, t, d, root, shown0, b, asker);
    forall v | v in shown0 ensures FollowedAt(shown0, plan, shown, sent + more, shown0.Keys, v) {
      if s[b].kids != [] {
        assert FollowedAt(shown0, MovePlan(s, c, shown0, s[b].kids[0], root, 9999, None), shown1, sent, shown0.Keys, v);
      }
      assert FollowedAt(shown1, GonePlan(t, d, shown1, b, asker), shown, more, shown1.Keys, v);
      AddressedConcat(sent, more, v);
    }
  }

  /** What the deletion of a branch without children comes to, from the tree `s` to the tree `t`. */
  ghost predicate GoneDone(s: Store, t: Store, c: Chains, d: Chains, shown0: map<View, Overlay>,
                           shown: map<View, Overlay>, sent: seq<Notice>, b: Ref, asker: Option<View>) {
    && b in s && b in c && s[b].parent.Some? && s[b].parent.value in s && s[b].parent.value in c
    && t == Shrunk(s, c, b) && d == DetachedChains(c, b) - {b}
    && Followed(shown0, GonePlan(s, c, shown0, b, asker), shown, sent, shown0.Keys)
  }

  /** The same, when `b` still has children: it keeps them, and the views keep what they show of them. */
  ghost predicate LeftDone(s: Store, t: Store, c: Chains, d: Chains, shown0: map<View, Overlay>,
                           shown: map<View, Overlay>, sent: seq<Notice>, b: Ref, asker: Option<View>) {
    && b in s && b in c && s[b].parent.Some? && s[b].parent.value in s && s[b].parent.value in c
    && t == Nameless(Detached(s, c, b), b) && d == DetachedChains(c, b)
    && Followed(shown0, DeletePlan(s, c, shown0, b, asker), shown, sent, shown0.Keys)
  }

  lemma GoneFollowed(s: Store, c: Chains, shown0: map<View, Overlay>, shown1: map<View, Overlay>,
                     shown: map<View, Overlay>, sent: seq<Notice>, b: Ref, asker: Option<View>)
    requires b in s && s[b].parent.Some? && s[b].parent.value in c
    requires Followed(shown0, DeletePlan(s, c, shown0, b, asker), shown1, sent, shown0.Keys)
    requires shown.Keys == shown1.Keys
    requires forall v {:trigger shown[v]} :: v in shown ==> shown[v] == Dropped(shown1[v], b)
    ensures Followed(shown0, GonePlan(s, c, shown0, b, asker), shown, sent, shown0.Keys)
  {
    forall v | v in shown0 ensures FollowedAt(shown0, GonePlan(s, c, shown0, b, asker), shown, sent, shown0.Keys, v) {
      assert FollowedAt(shown0, DeletePlan(s, c, shown0, b, asker), shown1, sent, shown0.Keys, v);
      DroppedSeen(shown0[v], b);
    }
  }

  lemma DroppedSeen(o: Overlay, b: Ref)
    ensures Dropped(Unhung(o, b), b) == DeleteSeen(o, b)
  {
  }

  lemma GoneAllValid(s: Store, t: Store, c: Chains, root: Ref, shown0: map<View, Overlay>, shown: map<View, Overlay>,
                     sent: seq<Notice>, b: Ref, asker: Option<View>)
    requires Linked(s) && AllValid(s, root, shown0) && b in s && s[b].parent.Some? && s[b].parent.value in c
    requires Pruned(s, t, b) && b != root
    requires Followed(shown0, GonePlan(s, c, shown0, b, asker), shown, sent, shown0.Keys)
    ensures AllValid(t, root, shown)
  {
    forall v | v in shown ensures ValidOverlay(t, root, shown[v]) {
      assert FollowedAt(shown0, GonePlan(s, c, shown0, b, asker), shown, sent, shown0.Keys, v);
      PrunedShown(s, t, root, shown0[v], b);
    }
  }

  // ----- the tree, the index and the head file

  lemma CutReady(file: seq<Head>, s: Store, c: Chains, root: Ref, b: Ref)
    requires Trees(s, c) && Storable(s, c, root) && IsImage(file, s) && b in s && s[b].parent.Some?
    ensures s[b].parent.value in s && s[b].parent.value in c && Position(s, b) >= 0
    ensures
      var u, p := Nameless(Detached(s, c, b), b), s[b].parent.value;
      && Linked(u) && p in u && SameSlots(s, u) && Linked(Detached(s, c, b))
      && Clean(file, u, {b, p} + From(u, p, Position(s, b) % 256) + Elements(s[b].kids))
  {
    CutLinks(s, c, b);
    var p, t := s[b].parent.value, Detached(s, c, b);
    SmallFirst(PosIn(s[p].kids, b));
    CutClean(file, s, t, b, p, PosIn(s[p].kids, b) % 256);
    SameFrom(t, b, p, PosIn(s[p].kids, b) % 256);
  }

  lemma {:induction false} CutLinks(s: Store, c: Chains, b: Ref)
    requires Trees(s, c) && b in s && s[b].parent.Some?
    ensures s[b].parent.value in s && s[b].parent.value in c && s[b].parent.value != b
    ensures PosIn(s[s[b].parent.value].kids, b) >= 0
    ensures
      var t := Detached(s, c, b);
      Linked(t) && Linked(Nameless(t, b)) && Unhooked(s, t, b, s[b].parent.value) && SameSlots(s, Nameless(t, b))
  {
    DetachedTrees(s, c, b);
    Acyclic(s, c, b);
    var p := s[b].parent.value;
    assert ChainedAt(s, c, p) && LinkedAt(s, b);
    DetachedShape(s, c, b);
    NamelessLinked(Detached(s, c, b), b);
    PosInBounds(s[p].kids, b);
  }

  lemma SameFrom(t: Store, b: Ref, p: Ref, from: nat)
    requires b in t && p in t
    ensures From(Nameless(t, b), p, from) == From(t, p, from)
  {
    assert Nameless(t, b)[p].kids == t[p].kids;
  }

  /** The 8 bits that src/map.c:917 keeps of the old position: never more than the position itself. */
  lemma SmallFirst(n: int)
    requires n >= 0
    ensures 0 <= n % 256 <= n
  {
  }

  ghost predicate SameSlots(s: Store, u: Store) {
    s.Keys == u.Keys && forall x {:trigger u[x]} :: x in s ==> u[x].slot == s[x].slot
  }

  /** A branch without children leaves no trace. */
  lemma CutChildless(file: seq<Head>, s: Store, c: Chains, root: Ref, index: map<nat, Ref>, next: Ref, b: Ref)
    requires Consistent(s, c, root, index, next) && b in s && s[b].parent.Some? && s[b].kids == []
    ensures s[b].parent.value in s && s[b].parent.value in c && b != root
    ensures
      var u, t := Nameless(Detached(s, c, b), b), Shrunk(s, c, b);
      && Consistent(t, DetachedChains(c, b) - {b}, root, index - {s[b].id}, next) && Pruned(s, t, b) && u - {b} == t
      && (Linked(u) && IsImage(file, u) ==> IsImage(file, t))
  {
    DeleteKeeps(s, c, root, index, next, b);
    assert StorableAt(s, c, root, b);
    OnlyRoot(s, c, root, b);
    Acyclic(s, c, b);
    assert ChainedAt(s, c, s[b].parent.value);
    var u := Nameless(Detached(s, c, b), b);
    ShrunkPruned(s, Detached(s, c, b), b, s[b].parent.value);
    if Linked(u) && IsImage(file, u) {
      GoneClean(file, u, b);
    }
  }

  // ----- children that are left behind

  /** `k` is still indexed, but the root is not above it, and its record names a parent that no branch is. */
  ghost predicate Orphan(t: Store, d: Chains, root: Ref, index: map<nat, Ref>, file: seq<Head>, k: Ref) {
    && k in t && t[k].id in index && index[t[k].id] == k
    && k in d && !EndsAt(d[k], root)
    && t[k].slot < |file| && file[t[k].slot].parent !in index && file[t[k].slot].parent != 0
  }

  /** The way up of a child that is left behind ends at the deleted branch. */
  lemma LeftWay(s: Store, c: Chains, root: Ref, b: Ref, k: Ref)
    requires Storable(s, c, root) && b in s && b != root && k in s[b].kids
    ensures k in c && b in c && DetachedChains(c, b)[k] == [k, b]
  {
    assert LinkedAt(s, b) && ChainedAt(s, c, b) && ChainedAt(s, c, k);
  }

  /** Its record is not written again. */
  lemma LeftRecord(f: seq<Head>, file: seq<Head>, s: Store, u: Store, b: Ref, p: Ref, k: Ref, w: set<Ref>)
    requires Linked(s) && IsImage(f, s) && b in s && p in s && p != b && k in s[b].kids && k != b && k != p
    requires SameSlots(s, u) && KeptBut(f, file, u, w) && w <= {b, p} + Elements(s[p].kids)
    ensures k in s && s[k].slot < |file| && file[s[k].slot].parent == s[b].id
  {
    assert LinkedAt(s, b) && LinkedAt(s, p) && CleanAt(f, s, k);
    assert Missed(u, w, s[k].slot);
  }

  lemma LeftOrphan(f: seq<Head>, file: seq<Head>, s: Store, c: Chains, root: Ref, index: map<nat, Ref>, next: Ref,
                   b: Ref, k: Ref, w: set<Ref>, t: Store)
    requires Consistent(s, c, root, index, next) && IsImage(f, s) && b in s && s[b].parent.Some? && k in s[b].kids
    requires s[b].parent.value in s && SameSlots(s, t)
    requires (forall x {:trigger t[x]} :: x in s && x != b ==> t[x].id == s[x].id)
    requires KeptBut(f, file, t, w) && w <= {b, s[b].parent.value} + Elements(s[s[b].parent.value].kids)
    ensures b in c && Orphan(t, DetachedChains(c, b), root, index - {s[b].id}, file, k)
  {
    assert LinkedAt(s, b) && IndexedAt(s, index, k) && IndexedAt(s, index, b) && StorableAt(s, c, root, b);
    OnlyRoot(s, c, root, b);
    Acyclic(s, c, b);
    Acyclic(s, c, k);
    assert ChainedAt(s, c, b) && ChainedAt(s, c, s[b].parent.value);
    LeftWay(s, c, root, b, k);
    LeftRecord(f, file, s, t, b, s[b].parent.value, k, w);
  }

  lemma CutShape(s: Store, c: Chains, b: Ref, from: nat)
    requires Chained(s, c) && b in s && s[b].parent.Some? && s[b].parent.value in s && s[b].parent.value in c
    ensures
      var u, p := Nameless(Detached(s, c, b), b), s[b].parent.value;
      && u[b].kids == s[b].kids && p in u && From(u, p, from) <= Elements(s[p].kids)
      && SameSlots(s, u) && forall x {:trigger u[x]} :: x in s && x != b ==> u[x].id == s[x].id
  {
    Acyclic(s, c, b);
    assert ChainedAt(s, c, s[b].parent.value);
    DetachedShape(s, c, b);
    WithoutMembers(s[s[b].parent.value].kids, b);
  }

  lemma CutDone(f: seq<Head>, file: seq<Head>, s: Store, c: Chains, root: Ref, index: map<nat, Ref>, next: Ref, b: Ref,
                from: nat)
    requires Consistent(s, c, root, index, next) && IsImage(f, s) && b in s && s[b].parent.Some?
    requires s[b].parent.value in s && s[b].parent.value in c
    requires
      var u, p := Nameless(Detached(s, c, b), b), s[b].parent.value;
      && p in u && KeptBut(f, file, u, {b} + {p} + From(u, p, from))
      && Clean(file, u, {b, p} + From(u, p, from) + Elements(s[b].kids) - {b} - {p} - From(u, p, from))
    ensures
      var u := Nameless(Detached(s, c, b), b);
      && Clean(file, u, Elements(s[b].kids)) && u[b].kids == s[b].kids
      && forall k :: k in s[b].kids ==> Orphan(u, DetachedChains(c, b), root, index - {s[b].id}, file, k)
  {
    var u, p := Nameless(Detached(s, c, b), b), s[b].parent.value;
    CutShape(s, c, b, from);
    assert forall x :: x in {b, p} + From(u, p, from) + Elements(s[b].kids) - {b} - {p} - From(u, p, from) ==>
        x in Elements(s[b].kids);
    forall k | k in s[b].kids ensures Orphan(u, DetachedChains(c, b), root, index - {s[b].id}, file, k) {
      LeftOrphan(f, file, s, c, root, index, next, b, k, {b} + {p} + From(u, p, from), u);
    }
  }

  lemma OnlyRootParent(s: Store, c: Chains, root: Ref, b: Ref)
    requires Storable(s, c, root) && b in s
    ensures s[b].parent.None? <==> b == root
  {
    assert StorableAt(s, c, root, b);
    OnlyRoot(s, c, root, b);
  }

  lemma ParentKnown(s: Store, c: Chains, root: Ref, b: Ref)
    requires Storable(s, c, root) && b in s && s[b].parent.Some?
    ensures s[b].parent.value in s && s[b].parent.value in c && EndsAt(c[b], root)
  {
    assert LinkedAt(s, b) && StorableAt(s, c, root, b);
  }

  lemma AllNamed(s: Store, c: Chains, root: Ref, index: map<nat, Ref>, next: Ref, b: Ref)
    requires Consistent(s, c, root, index, next) && b in s
    ensures s[b].id != 0
  {
    assert StorableAt(s, c, root, b);
  }

  /** All that a map without the childless branch `b` has to meet. */
  lemma DropDone(file: seq<Head>, s: Store, c: Chains, root: Ref, index: map<nat, Ref>, next: Ref, b: Ref,
                 asker: Option<View>, shown0: map<View, Overlay>, shown1: map<View, Overlay>, shown: map<View, Overlay>,
                 sent: seq<Notice>)
    requires Consistent(s, c, root, index, next) && AllValid(s, root, shown0)
    requires b in s && s[b].parent.Some? && s[b].parent.value in s && s[b].parent.value in c && s[b].kids == []
    requires Linked(Nameless(Detached(s, c, b), b)) && IsImage(file, Nameless(Detached(s, c, b), b))
    requires Followed(shown0, DeletePlan(s, c, shown0, b, asker), shown1, sent, shown0.Keys)
    requires shown.Keys == shown1.Keys
    requires forall v {:trigger shown[v]} :: v in shown ==> shown[v] == Dropped(shown1[v], b)
    ensures Nameless(Detached(s, c, b), b) - {b} == Shrunk(s, c, b) && Shrunk(s, c, b).Keys == s.Keys - {b}
    ensures Consistent(Shrunk(s, c, b), DetachedChains(c, b) - {b}, root, index - {s[b].id}, next)
    ensures IsImage(file, Shrunk(s, c, b)) && AllValid(Shrunk(s, c, b), root, shown)
    ensures Followed(shown0, GonePlan(s, c, shown0, b, asker), shown, sent, shown0.Keys)
  {
    CutChildless(file, s, c, root, index, next, b);
    GoneFollowed(s, c, shown0, shown1, shown, sent, b, asker);
    GoneAllValid(s, Shrunk(s, c, b), c, root, shown0, shown, sent, b, asker);
  }

  /** The other branches after `b` was taken out, with all that is left below it. */
  ghost predicate Parted(s: Store, t: Store, b: Ref)
    requires b in s
  {
    forall x {:trigger t[x]} :: x in s && x != b ==>
      && x in t && t[x].id == s[x].id && t[x].slot == s[x].slot && t[x].text == s[x].text && t[x].parent == s[x].parent
      && t[x].kids == if s[b].parent == Some(x) then Without(s[x].kids, b) else s[x].kids
  }

  lemma CutParted(s: Store, c: Chains, b: Ref)
    requires Chained(s, c) && b in s && s[b].parent.Some? && s[b].parent.value in s && s[b].parent.value in c
    ensures Parted(s, Nameless(Detached(s, c, b), b), b) && Parted(s, Shrunk(s, c, b), b)
  {
    Acyclic(s, c, b);
    assert ChainedAt(s, c, s[b].parent.value);
    DetachedShape(s, c, b);
  }

  /**
   The other branches after the deletion of `b`, whose children have gone to `root` except for those of
   `left`.
   */
  ghost predicate DeletedFrom(s: Store, t: Store, b: Ref, root: Ref, left: seq<Ref>)
    requires b in s
  {
    forall x {:trigger t[x]} :: x in s && x != b ==>
      && x in t && t[x].id == s[x].id && t[x].slot == s[x].slot && t[x].text == s[x].text
      && t[x].parent == (if x in s[b].kids && x !in left then Some(root) else s[x].parent)
      && (x != root ==> t[x].kids == if s[b].parent == Some(x) then Without(s[x].kids, b) else s[x].kids)
  }

  lemma RehomedParted(s: Store, t: Store, u: Store, b: Ref, root: Ref, left: seq<Ref>)
    requires Rehomed(s, t, b, root, left) && b in t && Parted(t, u, b) && b !in s[b].kids
    ensures DeletedFrom(s, u, b, root, left)
  {
  }
}
