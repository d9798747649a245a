/**
 What every change of a map keeps or makes true, from the state `a` to the state `z`: where branches and vbranches are
 put, and what the clients are told.
 */
module Laws {
  import opened Options
  import opened Forest
  import opened Overlay
  import opened Sight
  import opened HeadFile
  import opened Views
  import opened MapSteps
  import opened Deletion
  import opened Telling
  import opened Ordering

  // ----- move

  /**
   The branch `b` is at the position below `q` that was asked for, or last; no other branch has changed its parent or
   its place among its siblings.
   */
  ghost predicate MovePlaces(s: Store, t: Store, b: Ref, q: Ref, pos: int) {
    && SameNames(s, t) && b in s && q in s && s[b].parent.Some? && s[b].parent.value in s
    && var p := s[b].parent.value;
    && t[b].parent == Some(q) && (forall x {:trigger t[x]} :: x in s && x != b ==> t[x].parent == s[x].parent)
    && (exists l {:trigger Placed(l, t[q].kids, b, pos)} ::
          (if p == q then TakenOut(s[q].kids, l, b) else l == s[q].kids) && Placed(l, t[q].kids, b, pos))
    && (p != q ==> TakenOut(s[p].kids, t[p].kids, b))
    && (forall x {:trigger t[x]} :: x in s && x != p && x != q ==> t[x].kids == s[x].kids)
  }

  lemma MovedPlaces(s: Store, c: Chains, root: Ref, b: Ref, q: Ref, pos: int)
    requires Trees(s, c) && CanMove(s, c, root, b, q)
    ensures MovePlaces(s, Moved(s, c, b, q, pos), b, q, pos)
  {
    var p, l := s[b].parent.value, Rejoined(s, b, q);
    MovedKids(s, c, root, b, q, pos);
    assert LinkedAt(s, b) && LinkedAt(s, p);
    WithoutTakenOut(s[p].kids, b);
    ClampPlaced(l, b, pos);
  }

  ghost predicate MoveLaws(a: MapState, z: MapState, b: Ref, q: Ref, pos: int, asker: Option<View>) {
    && a.out <= z.out && MovePlaces(a.branches, z.branches, b, q, pos)
    && AllTold(a.branches, z.branches, z.chain, a.shown, z.shown, z.out[|a.out|..], asker, b)
    && (forall v {:trigger z.shown[v]} :: v in a.shown ==>
          v in z.shown && PutByIndex(a.branches, a.shown[v], z.shown[v], b, q, asker == Some(v)))
    && (AllOrdered(a.branches, a.shown) ==>
          (AllOrdered(z.branches, z.shown) <==>
           !AskerMisses(a.shown, asker, b, q) && !AnyAstray(a.branches, a.shown, b, q, pos, asker)))
  }

  lemma MoveLawsHold(a: MapState, z: MapState, root: Ref, b: Ref, q: Ref, pos: int, asker: Option<View>)
    requires Trees(a.branches, a.chain) && DistinctIds(a.branches) && CanMove(a.branches, a.chain, root, b, q)
    requires AllValid(a.branches, root, a.shown) && a.out <= z.out
    requires z.branches == Moved(a.branches, a.chain, b, q, pos) && z.chain == MovedChains(a.chain, b, q)
    requires Followed(a.shown, MovePlan(a.branches, a.chain, a.shown, b, q, pos, asker), z.shown, z.out[|a.out|..],
                      a.shown.Keys)
    ensures MoveLaws(a, z, b, q, pos, asker)
  {
    MovedPlaces(a.branches, a.chain, root, b, q, pos);
    MoveAllTold(a.branches, a.chain, root, a.shown, z.shown, z.out[|a.out|..], b, q, pos, asker);
    MoveAllInPlace(a.branches, a.chain, root, a.shown, z.shown, z.out[|a.out|..], b, q, pos, asker);
  }

  /** A refused move tells the asking view where the branch is. */
  ghost predicate RefusalTold(s: Store, index: map<nat, Ref>, to: nat, id: nat, asker: Option<View>, l: seq<Notice>) {
    if asker.Some? && id in index && to in index && index[id] in s && s[index[id]].parent.Some? then
      && |l| == 1 && l[0].MapMove? && l[0].view == asker.value && l[0].retry && Names(s, index[id], l[0].branch)
      && Names(s, s[index[id]].parent.value, l[0].parent)
      && var kids := s[s[index[id]].parent.value].kids;
         0 <= l[0].pos < |kids| && kids[l[0].pos] == index[id]
    else l == []
  }

  lemma RefusalIsTold(s: Store, index: map<nat, Ref>, to: nat, id: nat, asker: Option<View>)
    requires Linked(s) && (id in index ==> index[id] in s)
    ensures RefusalTold(s, index, to, id, asker, Refusal(s, index, to, id, asker))
  {
    if id in index && s[index[id]].parent.Some? {
      var b := index[id];
      assert LinkedAt(s, b);
      PosInBounds(s[s[b].parent.value].kids, b);
    }
  }

  // ----- insert

  /** The branch `n` is at the position below `q` that was asked for, or last; nothing else has changed. */
  ghost predicate InsertPlaces(s: Store, t: Store, n: Ref, q: Ref, pos: int) {
    && n !in s && q in s && t.Keys == s.Keys + {n} && t[n].parent == Some(q) && t[n].kids == []
    && Placed(s[q].kids, t[q].kids, n, pos)
    && (forall x {:trigger t[x]} :: x in s && x != q ==> t[x].kids == s[x].kids)
    && (forall x {:trigger t[x]} :: x in s ==> t[x].parent == s[x].parent && t[x].id == s[x].id)
  }

  ghost predicate InsertLaws(a: MapState, z: MapState, n: Ref, q: Ref, pos: int, asker: Option<View>) {
    && a.out <= z.out && InsertPlaces(a.branches, z.branches, n, q, pos)
    && AllTold(a.branches, z.branches, z.chain, a.shown, z.shown, z.out[|a.out|..], asker, n)
    && (forall v {:trigger z.shown[v]} :: v in a.shown ==>
          v in z.shown && PutInPlace(a.branches, z.branches, a.shown[v], z.shown[v], n, q, asker == Some(v)))
    && (AllOrdered(a.branches, a.shown) ==>
          (AllOrdered(z.branches, z.shown) <==> !AskerLoneChild(a.branches, a.shown, asker, q)))
  }

  lemma InsertLawsHold(a: MapState, z: MapState, root: Ref, n: Ref, nb: Branch, q: Ref, pos: int, asker: Option<View>)
    requires Trees(a.branches, a.chain) && AllValid(a.branches, root, a.shown) && a.out <= z.out && n !in a.chain
    requires Fresh(a.branches, n, nb) && q in a.branches && EndsAt(a.chain[q], root)
    requires z.branches == Grown(a.branches, a.chain, n, nb, q, pos)
    requires z.chain == AttachedChains(a.chain[n := [n]], n, q)
    requires Followed(a.shown, InsertPlan(a.branches, a.chain, a.shown, n, nb.id, q, pos,
                                          Clamp(pos, |a.branches[q].kids|), asker), z.shown, z.out[|a.out|..],
                      a.shown.Keys)
    ensures InsertLaws(a, z, n, q, pos, asker)
  {
    GrownTrees(a.branches, a.chain, n, nb, q, pos);
    ClampPlaced(a.branches[q].kids, n, pos);
    InsertAllTold(a.branches, z.branches, a.chain, root, a.shown, z.shown, z.out[|a.out|..], n, nb, q, pos,
                  Clamp(pos, |a.branches[q].kids|), asker);
    InsertAllInPlace(a.branches, z.branches, a.chain, root, a.shown, z.shown, z.out[|a.out|..], n, nb, q, pos, asker);
  }

  // ----- delete

  /**
   The branch is out of the list in which it was; that it is gone is told to those views that showed it; and if it had
   no children, all is told, and lists that were in order still are.
   */
  ghost predicate RemovalLaws(a: MapState, z: MapState, b: Ref, asker: Option<View>) {
    && a.out <= z.out && b in a.branches && a.branches[b].parent.Some? && a.branches[b].parent.value in a.branches
    && a.branches[b].parent.value in z.branches
    && TakenOut(a.branches[a.branches[b].parent.value].kids, z.branches[a.branches[b].parent.value].kids, b)
    && DeletionTold(a.branches, a.shown, z.out[|a.out|..], b, asker)
    && (a.branches[b].kids == [] ==>
          && AllTold(a.branches, z.branches, z.chain, a.shown, z.shown, z.out[|a.out|..], asker, b)
          && (AllOrdered(a.branches, a.shown) ==> AllOrdered(z.branches, z.shown)))
  }

  lemma GoneLaws(a: MapState, z: MapState, root: Ref, b: Ref, asker: Option<View>)
    requires Trees(a.branches, a.chain) && DistinctIds(a.branches) && AllValid(a.branches, root, a.shown)
    requires b in a.branches && b in a.chain && a.branches[b].parent.Some? && a.branches[b].parent.value in a.branches
    requires a.branches[b].parent.value in a.chain && EndsAt(a.chain[b], root) && a.branches[b].kids == []
    requires a.out <= z.out && z.branches == Shrunk(a.branches, a.chain, b)
    requires Followed(a.shown, GonePlan(a.branches, a.chain, a.shown, b, asker), z.shown, z.out[|a.out|..],
                      a.shown.Keys)
    ensures RemovalLaws(a, z, b, asker)
  {
    var s, t, p := a.branches, z.branches, a.branches[b].parent.value;
    ShrunkTrees(s, a.chain, b);
    DetachedPlace(s, a.chain, b);
    Acyclic(s, a.chain, b);
    assert ChainedAt(s, a.chain, p) && p != b;
    DeletionIsTold(s, a.chain, a.shown, GonePlan(s, a.chain, a.shown, b, asker), z.shown, z.out[|a.out|..], b, asker);
    DeleteAllTold(s, t, a.chain, z.chain, root, a.shown, z.shown, z.out[|a.out|..], b, asker);
    if AllOrdered(s, a.shown) {
      forall v | v in z.shown ensures Ordered(t, z.shown[v]) {
        assert FollowedAt(a.shown, GonePlan(s, a.chain, a.shown, b, asker), z.shown, z.out[|a.out|..], a.shown.Keys, v);
        assert ValidOverlay(s, root, a.shown[v]) && Ordered(s, a.shown[v]);
        DeleteOrdered(s, t, root, a.shown[v], b);
      }
    }
  }

  lemma LeftLaws(a: MapState, z: MapState, b: Ref, asker: Option<View>)
    requires Trees(a.branches, a.chain) && b in a.branches && b in a.chain && a.branches[b].parent.Some?
    requires a.branches[b].parent.value in a.branches && a.branches[b].parent.value in a.chain
    requires a.branches[b].kids != [] && a.out <= z.out
    requires z.branches == Nameless(Detached(a.branches, a.chain, b), b)
    requires Followed(a.shown, DeletePlan(a.branches, a.chain, a.shown, b, asker), z.shown, z.out[|a.out|..],
                      a.shown.Keys)
    ensures RemovalLaws(a, z, b, asker)
  {
    var s, p := a.branches, a.branches[b].parent.value;
    DetachedPlace(s, a.chain, b);
    Acyclic(s, a.chain, b);
    assert ChainedAt(s, a.chain, p) && p != b;
    DeletionIsTold(s, a.chain, a.shown, DeletePlan(s, a.chain, a.shown, b, asker), z.shown, z.out[|a.out|..], b, asker);
  }
}
