/**
 Whether the counts that the clients are told are right.  A client shows behind each visible branch how many
 branches are hidden there; after each step the number that is announced to it has to be the change.
 */
module Counting {
  import opened Options
  import opened Sequences
  import opened Forest
  import opened Overlay
  import opened Sight
  import opened HeadFile
  import opened HeadLoader
  import opened Views
  import opened MapSteps
  import opened Deletion
  import opened Laws
  import opened Texts

  /** What was announced to `v` about `e` is by how much the number of branches hidden behind `e` has changed. */
  ghost predicate CountsAt(s: Store, c: Chains, d: Chains, shown0: map<View, Overlay>, shown: map<View, Overlay>,
                           sent: seq<Notice>, v: View, e: Ref)
    requires v in shown0 && e in s
  {
    v in shown && |Hidden(d, shown[v], e)| - |Hidden(c, shown0[v], e)| == Announced(Addressed(sent, v), s[e].id)
  }

  /** So it is in every view but that of the asker, for all that it showed, except what is set `apart`. */
  ghost predicate CountsHold(s: Store, c: Chains, d: Chains, shown0: map<View, Overlay>, shown: map<View, Overlay>,
                             sent: seq<Notice>, asker: Option<View>, apart: map<View, set<Ref>>) {
    forall v, e {:trigger CountsAt(s, c, d, shown0, shown, sent, v, e)} ::
      v in shown0 && asker != Some(v) && e in shown0[v] && e in s && !(v in apart && e in apart[v]) ==>
        CountsAt(s, c, d, shown0, shown, sent, v, e)
  }

  // ----- move

  /** The vbranch that a move opens to make the destination visible. */
  ghost function OpenedBy(s: Store, c: Chains, o: Overlay, b: Ref, q: Ref): set<Ref>
    requires q in s && q in c
  {
    var e := Deepest(o, c[q]);
    if b in o && !Open(s, o, q) && e.Some? then {e.value} else {}
  }

  ghost function MoveApart(s: Store, c: Chains, shown: map<View, Overlay>, b: Ref, q: Ref): map<View, set<Ref>>
    requires q in s && q in c
  {
    map v | v in shown :: OpenedBy(s, c, shown[v], b, q)
  }

  /** What a move of `b` to below `q` comes to, from the tree `s` to the tree `t`. */
  ghost predicate MoveDone(s: Store, t: Store, c: Chains, d: Chains, shown0: map<View, Overlay>,
                           shown: map<View, Overlay>, sent: seq<Notice>, b: Ref, q: Ref, pos: int,
                           asker: Option<View>) {
    && b in s && b in c && q in s && q in c && s[b].parent.Some? && s[b].parent.value in s && s[b].parent.value in c
    && t == Moved(s, c, b, q, pos) && d == MovedChains(c, b, q)
    && Followed(shown0, MovePlan(s, c, shown0, b, q, pos, asker), shown, sent, shown0.Keys)
    && CountsHold(s, c, d, shown0, shown, sent, asker, MoveApart(s, c, shown0, b, q))
  }

  lemma MoveCountsHold(s: Store, c: Chains, root: Ref, shown0: map<View, Overlay>, shown: map<View, Overlay>,
                       sent: seq<Notice>, b: Ref, q: Ref, pos: int, asker: Option<View>)
    requires Trees(s, c) && DistinctIds(s) && CanMove(s, c, root, b, q) && AllValid(s, root, shown0)
    requires Followed(shown0, MovePlan(s, c, shown0, b, q, pos, asker), shown, sent, shown0.Keys)
    ensures CountsHold(s, c, MovedChains(c, b, q), shown0, shown, sent, asker, MoveApart(s, c, shown0, b, q))
  {
    var d, plan, apart := MovedChains(c, b, q), MovePlan(s, c, shown0, b, q, pos, asker), MoveApart(s, c, shown0, b, q);
    forall v, e | v in shown0 && asker != Some(v) && e in shown0[v] && e in s && !(v in apart && e in apart[v])
      ensures CountsAt(s, c, d, shown0, shown, sent, v, e)
    {
      assert FollowedAt(shown0, plan, shown, sent, shown0.Keys, v) && ValidOverlay(s, root, shown0[v]);
      MoveCounts(s, c, root, shown0[v], b, q, pos, v, e);
    }
  }

  /** A move takes a map from `a` to `z`. */
  ghost predicate MoveStep(a: MapState, z: MapState, b: Ref, q: Ref, pos: int, asker: Option<View>) {
    && z.index == a.index && z.branchN == a.branchN && z.next == a.next
    && MadeMove(a, z, b, q, pos, asker) && MoveLaws(a, z, b, q, pos, asker)
  }

  ghost predicate MadeMove(a: MapState, z: MapState, b: Ref, q: Ref, pos: int, asker: Option<View>) {
    && a.out <= z.out
    && MoveDone(a.branches, z.branches, a.chain, z.chain, a.shown, z.shown, z.out[|a.out|..], b, q, pos, asker)
  }

  /** What a call of move comes to. */
  ghost predicate WasMoved(a: MapState, z: MapState, asker: Option<View>, to: nat, from: nat, id: nat, pos: int,
                           ok: bool)
  {
    if Movable(a.branches, a.chain, a.index, to, from, id) then
      ok && MoveStep(a, z, a.index[id], a.index[to], pos, asker)
    else
      && !ok && z == a.(out := a.out + Refusal(a.branches, a.index, to, id, asker))
      && RefusalTold(a.branches, a.index, to, id, asker, Refusal(a.branches, a.index, to, id, asker))
  }

  // ----- insert

  /** What the insertion of `nb` as the branch `n` below `q` comes to. */
  ghost predicate InsertDone(s: Store, t: Store, c: Chains, d: Chains, shown0: map<View, Overlay>,
                             shown: map<View, Overlay>, sent: seq<Notice>, n: Ref, nb: Branch, q: Ref, pos: int,
                             asker: Option<View>) {
    && n !in s && n !in c && q in s && q in c
    && t == Grown(s, c, n, nb, q, pos) && d == AttachedChains(c[n := [n]], n, q)
    && Followed(shown0, InsertPlan(s, c, shown0, n, nb.id, q, pos, Clamp(pos, |s[q].kids|), asker), shown, sent,
                shown0.Keys)
  }

  lemma InsertCountsHold(s: Store, c: Chains, root: Ref, shown0: map<View, Overlay>, shown: map<View, Overlay>,
                         sent: seq<Notice>, n: Ref, id: nat, q: Ref, pos: int, at: int, asker: Option<View>)
    requires Linked(s) && Chained(s, c) && DistinctIds(s) && q in s && EndsAt(c[q], root) && n !in s
    requires AllValid(s, root, shown0)
    requires Followed(shown0, InsertPlan(s, c, shown0, n, id, q, pos, at, asker), shown, sent, shown0.Keys)
    ensures CountsHold(s, c, AttachedChains(c[n := [n]], n, q), shown0, shown, sent, asker, map[])
  {
    var d, plan := AttachedChains(c[n := [n]], n, q), InsertPlan(s, c, shown0, n, id, q, pos, at, asker);
    forall v, e | v in shown0 && asker != Some(v) && e in shown0[v] && e in s
      ensures CountsAt(s, c, d, shown0, shown, sent, v, e)
    {
      assert FollowedAt(shown0, plan, shown, sent, shown0.Keys, v) && ValidOverlay(s, root, shown0[v]);
      if n in shown0[v] {
        ParentShown(s, root, shown0[v], n);
      }
      InsertCounts(s, c, root, shown0[v], n, id, q, pos, at, v, e);
    }
  }

  /** What a call of insert comes to. */
  ghost predicate Inserted(a: MapState, z: MapState, asker: Option<View>, parent: nat, id: nat, pos: int, text: string,
                           b: Option<Ref>) {
    if id in a.index || parent !in a.index then z == a && b == None else
      && b == Some(a.next) && z.index == a.index[id := a.next] && z.branchN == a.branchN + 1 && z.next == a.next + 1
      && a.out <= z.out
      && InsertDone(a.branches, z.branches, a.chain, z.chain, a.shown, z.shown, z.out[|a.out|..], a.next,
                    NewBranch(id, a.branchN, Sliced(text)), a.index[parent], pos, asker)
      && CountsHold(a.branches, a.chain, z.chain, a.shown, z.shown, z.out[|a.out|..], asker, map[])
      && InsertLaws(a, z, a.next, a.index[parent], pos, asker)
  }

  // ----- delete

  lemma GoneCountsHold(s: Store, c: Chains, root: Ref, shown0: map<View, Overlay>, shown: map<View, Overlay>,
                       sent: seq<Notice>, b: Ref, asker: Option<View>)
    requires Trees(s, c) && DistinctIds(s) && AllValid(s, root, shown0)
    requires b in s && s[b].parent.Some? && s[b].parent.value in s && s[b].parent.value in c && EndsAt(c[b], root)
    requires s[b].kids == []
    requires Followed(shown0, GonePlan(s, c, shown0, b, asker), shown, sent, shown0.Keys)
    ensures CountsHold(s, c, DetachedChains(c, b) - {b}, shown0, shown, sent, asker, DeleteApart(shown0, b))
  {
    var d, plan := DetachedChains(c, b) - {b}, GonePlan(s, c, shown0, b, asker);
    ChildlessUnder(s, c, b);
    forall v, e | v in shown0 && asker != Some(v) && e in shown0[v] && e in s && e !in DeleteApart(shown0, b)[v]
      ensures CountsAt(s, c, d, shown0, shown, sent, v, e)
    {
      assert FollowedAt(shown0, plan, shown, sent, shown0.Keys, v) && ValidOverlay(s, root, shown0[v]);
      DeleteCounts(s, c, root, shown0[v], b, v, e);
    }
  }

  ghost function DeleteApart(shown: map<View, Overlay>, b: Ref): map<View, set<Ref>> {
    map v | v in shown :: {b}
  }

  /** One step after another, for what stays visible. */
  lemma CountsTwice(s: Store, t: Store, c: Chains, c1: Chains, c2: Chains, shown0: map<View, Overlay>,
                    shown1: map<View, Overlay>, shown: map<View, Overlay>, sent: seq<Notice>, more: seq<Notice>,
                    asker: Option<View>, b: Ref)
    requires SameNames(s, t) && shown1.Keys == shown0.Keys
    requires forall v {:trigger shown1[v]} :: v in shown0 ==> shown0[v].Keys <= shown1[v].Keys
    requires CountsHold(s, c, c1, shown0, shown1, sent, None, map[])
    requires CountsHold(t, c1, c2, shown1, shown, more, asker, DeleteApart(shown1, b))
    ensures CountsHold(s, c, c2, shown0, shown, sent + more, asker, DeleteApart(shown0, b))
  {
    forall v, e | v in shown0 && asker != Some(v) && e in shown0[v] && e in s && e !in DeleteApart(shown0, b)[v]
      ensures CountsAt(s, c, c2, shown0, shown, sent + more, v, e)
    {
      assert CountsAt(s, c, c1, shown0, shown1, sent, v, e);
      assert CountsAt(t, c1, c2, shown1, shown, more, v, e);
      AddressedConcat(sent, more, v);
      AnnouncedConcat(Addressed(sent, v), Addressed(more, v), s[e].id);
    }
  }

  /** Whoever shows a child of a branch has the root open. */
  lemma NothingOpened(s: Store, c: Chains, root: Ref, shown: map<View, Overlay>, k: Ref)
    requires Linked(s) && Chained(s, c) && AllValid(s, root, shown) && k in s && k != root && EndsAt(c[k], root)
    requires root in s
    ensures forall v {:trigger shown[v]} :: v in shown ==>
              v in MoveApart(s, c, shown, k, root) && MoveApart(s, c, shown, k, root)[v] == {}
  {
    forall v | v in shown ensures OpenedBy(s, c, shown[v], k, root) == {} {
      assert ValidOverlay(s, root, shown[v]);
      if k in shown[v] {
        VisibleAbove(s, c, root, shown[v], k, root);
      }
    }
  }

  lemma ApartNone(s: Store, c: Chains, d: Chains, shown0: map<View, Overlay>, shown: map<View, Overlay>,
                  sent: seq<Notice>, asker: Option<View>, apart: map<View, set<Ref>>)
    requires CountsHold(s, c, d, shown0, shown, sent, asker, apart)
    requires forall v :: v in shown0 && v in apart ==> apart[v] == {}
    ensures CountsHold(s, c, d, shown0, shown, sent, asker, map[])
  {
    forall v, e | v in shown0 && asker != Some(v) && e in shown0[v] && e in s
      ensures CountsAt(s, c, d, shown0, shown, sent, v, e)
    {
    }
  }

  lemma DeletableNow(s: Store, c: Chains, root: Ref, b: Ref)
    requires Storable(s, c, root) && b in s && b != root
    ensures |s[b].kids| <= 1 ==> Deletable(s, c, root, b)
  {
    OnlyRootParent(s, c, root, b);
    ParentKnown(s, c, root, b);
    assert LinkedAt(s, b);
  }

  /** The child can go to the root. */
  lemma HomeCanMove(s: Store, c: Chains, root: Ref, b: Ref)
    requires Storable(s, c, root) && Deletable(s, c, root, b) && s[b].kids != []
    ensures CanMove(s, c, root, s[b].kids[0], root) && s[b].kids[0] != root
  {
    var k := s[b].kids[0];
    assert StorableAt(s, c, root, root) && StorableAt(s, c, root, k);
    OnlyRoot(s, c, root, root);
    assert ChainedAt(s, c, root);
  }

  lemma StillSeen(s: Store, c: Chains, root: Ref, shown0: map<View, Overlay>, shown: map<View, Overlay>,
                  sent: seq<Notice>, k: Ref)
    requires CanMove(s, c, root, k, root)
    requires Followed(shown0, MovePlan(s, c, shown0, k, root, 9999, None), shown, sent, shown0.Keys)
    ensures forall v {:trigger shown[v]} :: v in shown0 ==> shown0[v].Keys <= shown[v].Keys
  {
    forall v | v in shown0 ensures shown0[v].Keys <= shown[v].Keys {
      assert FollowedAt(shown0, MovePlan(s, c, shown0, k, root, 9999, None), shown, sent, shown0.Keys, v);
      MoveSeenKeeps(s, c, shown0[v], k, root, false);
    }
  }

  /** Counts over the move of the child and the deletion. */
  lemma DeletedCounts(s: Store, c: Chains, t: Store, d: Chains, root: Ref, shown0: map<View, Overlay>,
                      shown1: map<View, Overlay>, shown: map<View, Overlay>, sent: seq<Notice>, more: seq<Notice>,
                      b: Ref, asker: Option<View>)
    requires Trees(s, c) && Storable(s, c, root) && AllValid(s, root, shown0) && Deletable(s, c, root, b)
    requires s[b].kids != []
    requires t == HomeStore(s, c, root, b) && d == HomeChains(s, c, root, b)
    requires Followed(shown0, MovePlan(s, c, shown0, s[b].kids[0], root, 9999, None), shown1, sent, shown0.Keys)
    requires CountsHold(s, c, d, shown0, shown1, sent, None, MoveApart(s, c, shown0, s[b].kids[0], root))
    requires b in d && CountsHold(t, d, DetachedChains(d, b) - {b}, shown1, shown, more, asker, DeleteApart(shown1, b))
    ensures CountsHold(s, c, DetachedChains(d, b) - {b}, shown0, shown, sent + more, asker, DeleteApart(shown0, b))
  {
    var k := s[b].kids[0];
    HomeCanMove(s, c, root, b);
    NothingOpened(s, c, root, shown0, k);
    ApartNone(s, c, d, shown0, shown1, sent, None, MoveApart(s, c, shown0, k, root));
    MovedKids(s, c, root, k, root, 9999);
    StillSeen(s, c, root, shown0, shown1, sent, k);
    CountsTwice(s, t, c, d, DetachedChains(d, b) - {b}, shown0, shown1, shown, sent, more, asker, b);
  }

  lemma HomeStepCuts(a: MapState, z: MapState, b: Ref, i: nat, k: Ref, root: Ref)
    requires Trees(a.branches, a.chain) && Storable(a.branches, a.chain, root) && b in a.branches && b != root
    requires i < |a.branches[b].kids| && a.branches[b].kids[i] == k && MoveStep(a, z, k, root, 9999, None)
    ensures b in z.branches && z.branches[b].kids == CutOut(a.branches[b].kids, i)
    ensures z.shown.Keys == a.shown.Keys
    ensures Rehomed(a.branches, z.branches, b, root, CutOut(a.branches[b].kids, i))
  {
    assert LinkedAt(a.branches, b) && StorableAt(a.branches, a.chain, root, root);
    OnlyRoot(a.branches, a.chain, root, root);
    assert ChainedAt(a.branches, a.chain, root);
    ConsistentMove(a.branches, a.chain, root, k, root);
    RehomedOne(a.branches, a.chain, root, b, i, 9999);
  }

  /** The moves to the root that a deletion starts with: `i` is the move of the child at the position `2 * i`. */
  ghost predicate HomingAt(trail: seq<MapState>, l: seq<Ref>, root: Ref, i: nat) {
    i + 1 < |trail| && 2 * i < |l| && MoveStep(trail[i], trail[i + 1], l[2 * i], root, 9999, None)
  }

  /** From `a` on, the states between these moves. */
  ghost predicate Homing(a: MapState, trail: seq<MapState>, l: seq<Ref>, root: Ref) {
    && 0 < |trail| && trail[0] == a
    && forall i {:trigger HomingAt(trail, l, root, i)} :: 0 <= i < |trail| - 1 ==> HomingAt(trail, l, root, i)
  }

  lemma HomingMore(a: MapState, trail: seq<MapState>, now: MapState, z: MapState, l: seq<Ref>, root: Ref, i: nat,
                   k: Ref)
    requires Homing(a, trail, l, root) && trail[|trail| - 1] == now && |trail| == i + 1 && 2 * i < |l| && l[2 * i] == k
    requires MoveStep(now, z, k, root, 9999, None)
    ensures Homing(a, trail + [z], l, root)
  {
    forall i | 0 <= i < |trail| ensures HomingAt(trail + [z], l, root, i) {
      if i < |trail| - 1 {
        assert HomingAt(trail, l, root, i);
      }
    }
  }

  /** Of the list `l`, `m` is what is left after `i` turns. */
  predicate LeftAfter(l: seq<Ref>, m: seq<Ref>, i: nat) {
    && |l| == |m| + i && i <= |m| + 1
    && forall j :: i <= j < |m| ==> m[j] == l[i + j]
  }

  lemma LeftMore(l: seq<Ref>, m: seq<Ref>, i: nat)
    requires LeftAfter(l, m, i) && i < |m|
    ensures LeftAfter(l, CutOut(m, i), i + 1) && 2 * i < |l| && m[i] == l[2 * i]
  {
  }

  /** What the rest of a deletion comes to, when `b` has the children that are left. */
  ghost predicate Removal(a: MapState, z: MapState, b: Ref, asker: Option<View>) {
    && b in a.branches && z.index == a.index - {a.branches[b].id} && z.branchN == a.branchN && z.next == a.next
    && MadeRemoval(a, z, b, asker) && RemovalLaws(a, z, b, asker)
  }

  ghost predicate MadeRemoval(a: MapState, z: MapState, b: Ref, asker: Option<View>) {
    && a.out <= z.out && b in a.branches
    && if a.branches[b].kids == [] then
         GoneDone(a.branches, z.branches, a.chain, z.chain, a.shown, z.shown, z.out[|a.out|..], b, asker)
       else LeftDone(a.branches, z.branches, a.chain, z.chain, a.shown, z.shown, z.out[|a.out|..], b, asker)
  }

  /** After `i` turns of the loop over the children of `b`. */
  ghost predicate Homed(st: MapState, trail: seq<MapState>, now: MapState, b: Ref, root: Ref, i: nat) {
    && b in st.branches && b in now.branches && st.out <= now.out && now.shown.Keys == st.shown.Keys
    && now.index == st.index && now.branchN == st.branchN && now.next == st.next
    && Rehomed(st.branches, now.branches, b, root, now.branches[b].kids)
    && LeftAfter(st.branches[b].kids, now.branches[b].kids, i)
    && Skipped(now.branches[b].kids, i) == Skipped(st.branches[b].kids, 0)
    && Homing(st, trail, st.branches[b].kids, root) && |trail| == i + 1 && trail[i] == now
  }

  lemma HomedNone(st: MapState, b: Ref, root: Ref)
    requires b in st.branches && root in st.branches
    ensures Homed(st, [st], st, b, root, 0)
  {
    RehomedNone(st.branches, b, root);
  }

  lemma HomedMore(st: MapState, trail: seq<MapState>, now: MapState, z: MapState, b: Ref, root: Ref, i: nat, k: Ref)
    requires Homed(st, trail, now, b, root, i) && b != root && i < |now.branches[b].kids|
    requires now.branches[b].kids[i] == k
    requires MoveStep(now, z, k, root, 9999, None) && z.shown.Keys == now.shown.Keys && b in z.branches
    requires Rehomed(now.branches, z.branches, b, root, CutOut(now.branches[b].kids, i))
    ensures Homed(st, trail + [z], z, b, root, i + 1)
  {
    LeftMore(st.branches[b].kids, now.branches[b].kids, i);
    RehomedMore(st.branches, now.branches, z.branches, b, root, now.branches[b].kids, z.branches[b].kids);
    HomingMore(st, trail, now, z, st.branches[b].kids, root, i, k);
  }

  lemma RoomAtRoot(st: MapState, trail: seq<MapState>, now: MapState, b: Ref, root: Ref, i: nat)
    requires Homed(st, trail, now, b, root, i) && i < |now.branches[b].kids|
    requires |st.branches[root].kids| + (|st.branches[b].kids| + 1) / 2 < BIT16
    ensures |now.branches[root].kids| + 1 < BIT16
  {
  }

  /** At the end of the loop: what is left are the skipped children. */
  lemma StillBelow(st: MapState, trail: seq<MapState>, now: MapState, b: Ref, root: Ref, i: nat)
    requires Homed(st, trail, now, b, root, i) && |now.branches[b].kids| <= i && b !in st.branches[b].kids
    ensures now.branches[b].kids == Skipped(st.branches[b].kids, 0) && now.branches[b].parent == st.branches[b].parent
  {
  }

  /** The child of `b`, if there is one, has gone to the root. */
  ghost predicate HomeDone(a: MapState, z: MapState, b: Ref, root: Ref) {
    && Deletable(a.branches, a.chain, root, b)
    && if a.branches[b].kids == [] then z == a else MoveStep(a, z, a.branches[b].kids[0], root, 9999, None)
  }

  /** With at most one child there is at most one move. */
  lemma HomingOne(a: MapState, trail: seq<MapState>, z: MapState, root: Ref, b: Ref, i: nat)
    requires Storable(a.branches, a.chain, root) && b != root && Homed(a, trail, z, b, root, i)
    requires |a.branches[b].kids| <= 1 && |z.branches[b].kids| <= i
    ensures HomeDone(a, z, b, root) && z.branches[b].kids == []
  {
    DeletableNow(a.branches, a.chain, root, b);
    if |a.branches[b].kids| == 1 {
      HomingFirst(a, trail, z, a.branches[b].kids, root, a.branches[b].kids[0]);
    }
  }

  lemma HomingFirst(a: MapState, trail: seq<MapState>, z: MapState, l: seq<Ref>, root: Ref, k: Ref)
    requires Homing(a, trail, l, root) && 1 < |trail| && trail[1] == z && l == [k]
    ensures MoveStep(a, z, k, root, 9999, None)
  {
    assert HomingAt(trail, l, root, 0) && l[2 * 0] == k;
  }

  /**
   What the deletion of `b` comes to: every second child goes to the root, then the branch is removed with the
   children that it still has.
   */
  ghost predicate WhollyDeleted(st: MapState, trail: seq<MapState>, z: MapState, b: Ref, root: Ref,
                                asker: Option<View>) {
    && b in st.branches && st.out <= z.out && z.shown.Keys == st.shown.Keys
    && z.index == st.index - {st.branches[b].id} && z.branchN == st.branchN && z.next == st.next
    && Homing(st, trail, st.branches[b].kids, root) && |trail| == (|st.branches[b].kids| + 1) / 2 + 1
    && Removal(trail[|trail| - 1], z, b, asker)
    && DeletedFrom(st.branches, z.branches, b, root, Skipped(st.branches[b].kids, 0))
    && (|st.branches[b].kids| <= 1 ==>
          DeleteDone(st.branches, z.branches, st.chain, z.chain, root, st.shown, z.shown, z.out[|st.out|..], b, asker))
  }

  lemma DeletionWhole(st: MapState, trail: seq<MapState>, now: MapState, z: MapState, b: Ref, root: Ref, i: nat,
                      asker: Option<View>)
    requires Trees(st.branches, st.chain) && Storable(st.branches, st.chain, root)
    requires AllValid(st.branches, root, st.shown)
    requires Trees(now.branches, now.chain) && Storable(now.branches, now.chain, root)
    requires AllValid(now.branches, root, now.shown)
    requires Homed(st, trail, now, b, root, i) && |now.branches[b].kids| <= i && b != root
    requires Removal(now, z, b, asker) && z.shown.Keys == now.shown.Keys && Parted(now.branches, z.branches, b)
    ensures WhollyDeleted(st, trail, z, b, root, asker)
  {
    NotOwnKid(st.branches, st.chain, b);
    RehomedParted(st.branches, now.branches, z.branches, b, root, Skipped(st.branches[b].kids, 0));
    TailGrows(now.out, z.out, |st.out|);
    if |st.branches[b].kids| <= 1 {
      HomingOne(st, trail, now, root, b, i);
      if st.branches[b].kids == [] {
        DeletedChildless(st, z, root, b, asker);
      } else {
        DeletedWithChild(st, now, z, root, b, asker);
      }
    }
  }

  /** What the deletion of a branch with at most one child comes to. */
  ghost predicate DeleteDone(s: Store, t: Store, c: Chains, d: Chains, root: Ref, shown0: map<View, Overlay>,
                             shown: map<View, Overlay>, sent: seq<Notice>, b: Ref, asker: Option<View>) {
    && Deletable(s, c, root, b)
    && var s1, c1 := HomeStore(s, c, root, b), HomeChains(s, c, root, b);
    && b in s1 && b in c1 && s1[b].parent.Some? && s1[b].parent.value in s1 && s1[b].parent.value in c1
    && t == Shrunk(s1, c1, b) && d == DetachedChains(c1, b) - {b}
    && Followed(shown0, DeletionPlan(s, c, s1, c1, root, shown0, b, asker), shown, sent, shown0.Keys)
    && CountsHold(s, c, d, shown0, shown, sent, asker, DeleteApart(shown0, b))
  }

  lemma DeletedChildless(st: MapState, z: MapState, root: Ref, b: Ref, asker: Option<View>)
    requires Trees(st.branches, st.chain) && Storable(st.branches, st.chain, root)
    requires AllValid(st.branches, root, st.shown)
    requires Deletable(st.branches, st.chain, root, b) && st.branches[b].kids == [] && MadeRemoval(st, z, b, asker)
    ensures DeleteDone(st.branches, z.branches, st.chain, z.chain, root, st.shown, z.shown, z.out[|st.out|..], b, asker)
  {
    var more := z.out[|st.out|..];
    DeletionFollowed(st.branches, st.chain, st.branches, st.chain, root, st.shown, st.shown, z.shown, [], more, b,
                     asker);
    assert StorableAt(st.branches, st.chain, root, b) && [] + more == more;
    GoneCountsHold(st.branches, st.chain, root, st.shown, z.shown, more, b, asker);
  }

  lemma DeletedWithChild(st: MapState, now: MapState, z: MapState, root: Ref, b: Ref, asker: Option<View>)
    requires Trees(st.branches, st.chain) && Storable(st.branches, st.chain, root)
    requires AllValid(st.branches, root, st.shown)
    requires Trees(now.branches, now.chain) && Storable(now.branches, now.chain, root)
    requires AllValid(now.branches, root, now.shown)
    requires Deletable(st.branches, st.chain, root, b) && st.branches[b].kids != []
    requires MadeMove(st, now, st.branches[b].kids[0], root, 9999, None) && b in now.branches
    requires now.branches[b].kids == [] && MadeRemoval(now, z, b, asker)
    ensures st.out <= z.out
    ensures DeleteDone(st.branches, z.branches, st.chain, z.chain, root, st.shown, z.shown, z.out[|st.out|..], b, asker)
  {
    TailGrows(now.out, z.out, |st.out|);
    DeletionFollowed(st.branches, st.chain, now.branches, now.chain, root, st.shown, now.shown, z.shown,
                     now.out[|st.out|..], z.out[|now.out|..], b, asker);
    DeletedCounting(st, now, z, root, b, asker);
  }

  lemma DeletedCounting(st: MapState, now: MapState, z: MapState, root: Ref, b: Ref, asker: Option<View>)
    requires Trees(st.branches, st.chain) && Storable(st.branches, st.chain, root)
    requires AllValid(st.branches, root, st.shown)
    requires Trees(now.branches, now.chain) && Storable(now.branches, now.chain, root)
    requires AllValid(now.branches, root, now.shown)
    requires Deletable(st.branches, st.chain, root, b) && st.branches[b].kids != []
    requires MadeMove(st, now, st.branches[b].kids[0], root, 9999, None) && b in now.branches
    requires now.branches[b].kids == [] && MadeRemoval(now, z, b, asker)
    ensures st.out <= z.out
    ensures CountsHold(st.branches, st.chain, z.chain, st.shown, z.shown, z.out[|st.out|..], asker,
                       DeleteApart(st.shown, b))
  {
    TailGrows(now.out, z.out, |st.out|);
    assert StorableAt(now.branches, now.chain, root, b) && LinkedAt(now.branches, b);
    GoneCountsHold(now.branches, now.chain, root, now.shown, z.shown, z.out[|now.out|..], b, asker);
    DeletedCounts(st.branches, st.chain, now.branches, now.chain, root, st.shown, now.shown, z.shown,
                  now.out[|st.out|..], z.out[|now.out|..], b, asker);
  }
}
