/** A map of src/map.c: the branch tree with its id index, its head file and its views. */
module TreeMap {
  import opened Options
  import opened Sequences
  import opened Forest
  import opened Overlay
  import opened Sight
  import opened HeadFile
  import opened HeadLoader
  import opened BranchTree
  import opened HeadWriter
  import opened Views
  import opened MapSteps
  import opened Deletion
  import opened Texts
  import opened PathNames
  import opened Laws
  import opened Telling
  import opened Ordering
  import opened Counting
  import opened PathSteps
  import opened Expansion
  import opened Repair
  import Cloning

  class TreeMap {
    const tree: BranchTree
    const heads: HeadWriter
    const sights: Views
    /** map->branch */
    const root: Ref
    /** map->branch_index */
    var index: map<nat, Ref>
    /** map->branch_n */
    var branchN: nat
    /** The next pointer that allocation will return. */
    var next: Ref

    ghost function State(): MapState
      reads this, tree, heads, sights
    {
      MapState(index, branchN, next, tree.branches, tree.chain, heads.file, sights.shown, sights.viewers, sights.out)
    }

    /** Tree, index and head file agree. */
    ghost predicate Sound()
      reads this, tree, heads, sights
    {
      && Consistent(tree.branches, tree.chain, root, index, next)
      && IsImage(heads.file, tree.branches) && branchN == |heads.file|
      && sights.Valid() && sights.viewers.Keys == tree.branches.Keys
    }

    ghost predicate Valid()
      reads this, tree, heads, sights
    {
      Sound() && AllValid(tree.branches, root, sights.shown)
    }

    /** src/map.c:1705-1765: a new map has a root with id 1 in slot 0, and no views. */
    constructor ()
      ensures Valid() && fresh(tree) && fresh(heads) && fresh(sights)
      ensures sights.shown == map[] && index == map[1 := root]
      ensures tree.branches == map[root := Branch(1, 0, None, [], 0, "My map")]
    {
      var s := map[0 := Branch(1, 0, None, [], 0, "My map")];
      tree := new BranchTree(s, map[0 := [0]]);
      heads := new HeadWriter([Head(1, 0, 0, 0)]);
      sights := new Views(s.Keys);
      root, index, branchN, next := 0, map[1 := 0], 1, 1;
      new;
      FirstTree();
    }

    /** src/map.c:461-469: is `b` on the way up from `x`? */
    method IsAbove(b: Ref, x: Ref) returns (above: bool)
      requires Chained(tree.branches, tree.chain) && x in tree.branches
      ensures above <==> b in tree.chain[x]
    {
      above := false;
      var bt := Some(x);
      while bt.Some?
        invariant bt.Some? ==> bt.value in tree.branches && (b in tree.chain[x] <==> above || b in tree.chain[bt.value])
        invariant bt.None? ==> (b in tree.chain[x] <==> above)
        decreases if bt.Some? then |tree.chain[bt.value]| else 0
      {
        assert ChainedAt(tree.branches, tree.chain, bt.value);
        if bt.value == b {
          above := true;
        }
        bt := tree.branches[bt.value].parent;
      }
    }

    /**
     src/map.c:437-792: moves a branch to below another one, if it is where the caller thinks it is and does
     not end up below itself.  All views follow and are told; the overlays stay valid, unless the asking
     view is in the one case that the code does not handle.
     */
    method Move(asker: Option<View>, to: nat, from: nat, id: nat, pos: int) returns (ok: bool)
      requires Valid() && (asker.Some? ==> asker.value in sights.shown)
      requires Movable(tree.branches, tree.chain, index, to, from, id) ==>
                 |Rejoined(tree.branches, index[id], index[to])| + 1 < BIT16
      modifies tree, heads, sights
      ensures Sound() && (ok <==> Movable(old(tree.branches), old(tree.chain), index, to, from, id))
      ensures Valid() <==> !(ok && AskerMisses(old(sights.shown), asker, index[id], index[to]))
      ensures WasMoved(old(State()), State(), asker, to, from, id, pos, ok)
      ensures ok ==> AllPartial(tree.branches, root, sights.shown, asker, index[to])
    {
      ok := IsMovable(to, from, id);
      if ok {
        assert Movable(tree.branches, tree.chain, index, to, from, id);
        MoveBoth(asker, index[id], index[to], pos);
        return;
      }
      RefusalIsTold(tree.branches, index, to, id, asker);
      if id in index && to in index && tree.branches[index[id]].parent.Some? {
        assert LinkedAt(tree.branches, index[id]);
        Refuse(asker, index[id], tree.branches[index[id]].parent.value);
      } else {
        assert sights.out == sights.out + Refusal(tree.branches, index, to, id, asker);
      }
    }

    /** Decides what `Movable` says, as src/map.c:443-471 does. */
    method IsMovable(to: nat, from: nat, id: nat) returns (yes: bool)
      requires Valid()
      ensures yes <==> Movable(tree.branches, tree.chain, index, to, from, id)
    {
      if id !in index || to !in index || tree.branches[index[id]].parent.None? {
        return false;
      }
      assert LinkedAt(tree.branches, index[id]);
      var above := IsAbove(index[id], index[to]);
      yes := tree.branches[tree.branches[index[id]].parent.value].id == from && !above;
    }

    /** src/map.c:474-493: the asking view is told where the branch is. */
    method Refuse(asker: Option<View>, b: Ref, p: Ref)
      requires Valid() && b in tree.branches && tree.branches[b].parent == Some(p) && p in tree.branches
      modifies sights`out
      ensures unchanged(this) && unchanged(tree) && unchanged(heads)
      ensures Valid() && sights.out == old(sights.out) +
              if asker.Some? then [MapMove(asker.value, tree.branches[p].id, tree.branches[b].id,
                                           Position(tree.branches, b), true)]
              else []
    {
      if asker.Some? {
        var at := tree.GetPos(b);
        sights.Push(MapMove(asker.value, tree.branches[p].id, tree.branches[b].id, at, true));
      }
    }

    /** src/map.c:499-791 */
    method MoveBoth(asker: Option<View>, b: Ref, q: Ref, pos: int)
      requires Valid() && (asker.Some? ==> asker.value in sights.shown)
      requires b in tree.branches && tree.branches[b].parent.Some? && q in tree.branches && b !in tree.chain[q]
      requires tree.branches[b].parent.value in tree.branches && |Rejoined(tree.branches, b, q)| + 1 < BIT16
      modifies tree, heads, sights
      ensures unchanged(this)
      ensures Sound() && (Valid() <==> !AskerMisses(old(sights.shown), asker, b, q))
      ensures MoveStep(old(State()), State(), b, q, pos, asker)
      ensures AllPartial(tree.branches, root, sights.shown, asker, q)
    {
      ghost var st := State();
      ConsistentMove(tree.branches, tree.chain, root, b, q);
      FollowMove(asker, b, q, pos);
      Relocate(b, q, pos);
      assert State() == MapState(st.index, st.branchN, st.next, tree.branches, tree.chain, heads.file, sights.shown,
                                 sights.viewers, sights.out);
      MoveLawsHold(st, State(), root, b, q, pos, asker);
    }

    /** src/map.c:499-781 */
    method FollowMove(asker: Option<View>, b: Ref, q: Ref, pos: int)
      requires Trees(tree.branches, tree.chain) && root in tree.branches
      requires CanMove(tree.branches, tree.chain, root, b, q)
      requires DistinctIds(tree.branches)
      requires sights.Valid() && sights.viewers.Keys == tree.branches.Keys
      requires AllValid(tree.branches, root, sights.shown)
      modifies sights
      ensures unchanged(tree) && unchanged(heads) && unchanged(this)
      ensures sights.Valid() && sights.viewers.Keys == tree.branches.Keys && old(sights.out) <= sights.out
      ensures AllValid(Moved(tree.branches, tree.chain, b, q, pos), root, sights.shown)
              <==> !AskerMisses(old(sights.shown), asker, b, q)
      ensures AllPartial(Moved(tree.branches, tree.chain, b, q, pos), root, sights.shown, asker, q)
      ensures Followed(old(sights.shown), MovePlan(tree.branches, tree.chain, old(sights.shown), b, q, pos, asker),
                       sights.shown, sights.out[|old(sights.out)|..], old(sights.shown).Keys)
      ensures CountsHold(tree.branches, tree.chain, MovedChains(tree.chain, b, q), old(sights.shown), sights.shown,
                         sights.out[|old(sights.out)|..], asker, MoveApart(tree.branches, tree.chain, old(sights.shown),
                             b, q))
    {
      ghost var shown0, n := sights.shown, |sights.out|;
      sights.MoveAll(tree.branches, b, q, pos, asker, root, tree.chain);
      MoveAllValid(tree.branches, tree.chain, root, shown0, sights.shown, sights.out[n..], b, q, pos, pos, asker);
      MoveCountsHold(tree.branches, tree.chain, root, shown0, sights.shown, sights.out[n..], b, q, pos, asker);
      MoveAllPartial(tree.branches, Moved(tree.branches, tree.chain, b, q, pos), tree.chain, root, shown0, sights.shown,
                     sights.out[n..], b, q, pos, asker);
    }

    /** src/map.c:783-789: the branch itself moves, and the head file follows. */
    method Relocate(b: Ref, q: Ref, pos: int)
      requires Consistent(tree.branches, tree.chain, root, index, next)
      requires CanMove(tree.branches, tree.chain, root, b, q)
      requires IsImage(heads.file, tree.branches) && |Rejoined(tree.branches, b, q)| + 1 < BIT16
      modifies tree, heads
      ensures unchanged(sights) && unchanged(this)
      ensures Consistent(tree.branches, tree.chain, root, index, next) && IsImage(heads.file, tree.branches)
      ensures |heads.file| == |old(heads.file)| && tree.branches.Keys == old(tree.branches).Keys
      ensures tree.branches == Moved(old(tree.branches), old(tree.chain), b, q, pos)
      ensures tree.chain == MovedChains(old(tree.chain), b, q)
    {
      var p := tree.branches[b].parent.value;
      var was := Rehang(b, q, pos, p);
      ghost var t, d := tree.branches, tree.chain;
      heads.BranchMoved(tree.branches, b, p, was % BIT16);
      assert tree.branches == t && tree.chain == d;
    }

    /** src/map.c:783-788: the tree, but not yet the file; returns the old position. */
    method Rehang(b: Ref, q: Ref, pos: int, ghost p: Ref) returns (was: int)
      requires Consistent(tree.branches, tree.chain, root, index, next)
      requires CanMove(tree.branches, tree.chain, root, b, q) && tree.branches[b].parent == Some(p)
      requires IsImage(heads.file, tree.branches) && |Rejoined(tree.branches, b, q)| + 1 < BIT16
      modifies tree
      ensures unchanged(sights) && unchanged(this) && unchanged(heads)
      ensures Consistent(tree.branches, tree.chain, root, index, next)
      ensures tree.branches.Keys == old(tree.branches).Keys
      ensures tree.branches == Moved(old(tree.branches), old(tree.chain), b, q, pos)
      ensures tree.chain == MovedChains(old(tree.chain), b, q)
      ensures 0 <= was && b in tree.branches && p in tree.branches && q in tree.branches
      ensures tree.branches[b].parent == Some(q) && Position(tree.branches, b) >= 0
      ensures Clean(heads.file, tree.branches,
                    MoveDirty(tree.branches, b, p, q, Position(tree.branches, b), was % BIT16))
    {
      ghost var s, c := tree.branches, tree.chain;
      was := tree.GetPos(b);
      RelocateTree(b, q, pos, root);
      RelocateDone(heads.file, s, tree.branches, c, tree.chain, root, index, next, b, q, pos);
    }

    method RelocateTree(b: Ref, q: Ref, pos: int, ghost root: Ref)
      requires tree.Valid() && CanMove(tree.branches, tree.chain, root, b, q)
      modifies tree
      ensures unchanged(this) && unchanged(heads) && unchanged(sights)
      ensures tree.branches == Moved(old(tree.branches), old(tree.chain), b, q, pos)
      ensures tree.chain == MovedChains(old(tree.chain), b, q)
    {
      Acyclic(tree.branches, tree.chain, b);
      assert ChainedAt(tree.branches, tree.chain, tree.branches[b].parent.value);
      DetachedShape(tree.branches, tree.chain, b);
      tree.Detach(b);
      tree.Add(b, q, pos);
    }

    // ----- insert

    /**
     src/map.c:117-302: inserts a new branch below another one and returns it; null if the id is taken or
     the parent is unknown.
     */
    method Insert(asker: Option<View>, parent: nat, id: nat, pos: int, text: string) returns (r: Option<Ref>)
      requires Valid() && (asker.Some? ==> asker.value in sights.shown) && id != 0
      requires parent in index ==> |tree.branches[index[parent]].kids| + 1 < BIT16
      modifies this, tree, heads, sights
      ensures Sound() && (r.None? <==> id in old(index) || parent !in old(index))
      ensures Inserted(old(State()), State(), asker, parent, id, pos, text, r)
      ensures Valid() <==>
                !(r.Some? && AskerLoneChild(old(tree.branches), old(sights.shown), asker, old(index)[parent]))
      ensures r.Some? ==> AllPartial(tree.branches, root, sights.shown, asker, old(index)[parent])
    {
      if id in index || parent !in index {
        return None;
      }
      r := Some(next);
      ghost var s, c, shown0, m, nb, st :=
          tree.branches, tree.chain, sights.shown, |sights.out|, NewBranch(id, branchN, Sliced(text)), State();
      assert StorableAt(s, c, root, index[parent]);
      InsertBelow(asker, index[parent], id, pos, Sliced(text));
      InsertCountsHold(s, c, root, shown0, sights.shown, sights.out[m..], old(next), id, old(index)[parent], pos,
                       Clamp(pos, |s[old(index)[parent]].kids|), asker);
      InsertAllPartial(s, tree.branches, c, root, shown0, sights.shown, sights.out[m..], old(next), nb,
                       old(index)[parent], pos, Clamp(pos, |s[old(index)[parent]].kids|), asker);
      FreshId(s, st.index, st.next, nb);
      InsertLawsHold(st, State(), root, st.next, nb, st.index[parent], pos, asker);
    }

    /** src/map.c:131-301 */
    method InsertBelow(asker: Option<View>, q: Ref, id: nat, pos: int, text: string)
      requires Valid() && (asker.Some? ==> asker.value in sights.shown) && id != 0 && id !in index
      requires q in tree.branches && |tree.branches[q].kids| + 1 < BIT16
      modifies this, tree, heads, sights
      ensures Sound() && (Valid() <==> !AskerLoneChild(old(tree.branches), old(sights.shown), asker, q))
      ensures index == old(index)[id := old(next)] && branchN == old(branchN) + 1 && next == old(next) + 1
      ensures old(sights.out) <= sights.out
      ensures InsertDone(old(tree.branches), tree.branches, old(tree.chain), tree.chain, old(sights.shown),
                         sights.shown,
                         sights.out[|old(sights.out)|..], old(next), NewBranch(id, old(branchN), text), q, pos, asker)
    {
      ghost var shown0, m := sights.shown, |sights.out|;
      assert StorableAt(tree.branches, tree.chain, root, q);
      Prepare(asker, q, pos);
      InsertPrepared(asker, q, id, pos, text, shown0, m);
    }

    /** src/map.c:171-301 */
    method InsertPrepared(asker: Option<View>, q: Ref, id: nat, pos: int, text: string,
                          ghost shown0: map<View, Overlay>, ghost m: nat)
      requires Sound() && id != 0 && id !in index && q in tree.branches && |tree.branches[q].kids| + 1 < BIT16
      requires AllValid(tree.branches, root, shown0) && (asker.Some? ==> asker.value in shown0)
      requires sights.shown == Prepared(tree.branches, tree.chain, shown0, q, asker) && m <= |sights.out|
      requires sights.out[m..] == Preamble(tree.branches, tree.chain, shown0, q, pos, asker)
      modifies this, tree, heads, sights
      ensures Sound() && (Valid() <==> !AskerLoneChild(old(tree.branches), shown0, asker, q))
      ensures index == old(index)[id := old(next)] && branchN == old(branchN) + 1 && next == old(next) + 1
      ensures old(sights.out) <= sights.out
      ensures InsertDone(old(tree.branches), tree.branches, old(tree.chain), tree.chain, shown0, sights.shown,
                         sights.out[m..], old(next), NewBranch(id, old(branchN), text), q, pos, asker)
    {
      ghost var s, c := tree.branches, tree.chain;
      assert StorableAt(s, c, root, q);
      var n := Plant(q, id, pos, text);
      FollowInsert(asker, n, q, pos, s, c, shown0, NewBranch(id, old(branchN), text), m);
    }

    /** src/map.c:132-169 */
    method Prepare(asker: Option<View>, q: Ref, pos: int)
      requires Linked(tree.branches) && Chained(tree.branches, tree.chain) && q in tree.branches
      requires EndsAt(tree.chain[q], root)
      requires sights.Valid() && sights.viewers.Keys == tree.branches.Keys
      requires AllValid(tree.branches, root, sights.shown)
      requires asker.Some? ==> asker.value in sights.shown
      modifies sights
      ensures sights.Valid() && sights.viewers.Keys == tree.branches.Keys
      ensures sights.shown == Prepared(tree.branches, tree.chain, old(sights.shown), q, asker)
      ensures sights.out == old(sights.out) + Preamble(tree.branches, tree.chain, old(sights.shown), q, pos, asker)
    {
      if asker.Some? {
        assert ValidOverlay(tree.branches, root, sights.shown[asker.value]);
        sights.InsertPrepare(tree.branches, asker.value, q, pos, tree.chain, root);
      }
      assert sights.shown == Prepared(tree.branches, tree.chain, old(sights.shown), q, asker);
    }

    /** src/map.c:171-185: the new branch goes into the tree, the index and the head file. */
    method Plant(q: Ref, id: nat, pos: int, text: string) returns (n: Ref)
      requires Consistent(tree.branches, tree.chain, root, index, next) && IsImage(heads.file, tree.branches)
      requires branchN == |heads.file|
      requires q in tree.branches && |tree.branches[q].kids| + 1 < BIT16 && id != 0 && id !in index
      modifies this, tree, heads
      ensures n == old(next) && n !in old(tree.branches) && next == n + 1 && branchN == old(branchN) + 1
      ensures index == old(index)[id := n]
      ensures Consistent(tree.branches, tree.chain, root, index, next) && IsImage(heads.file, tree.branches)
      ensures branchN == |heads.file|
      ensures tree.branches == Grown(old(tree.branches), old(tree.chain), n, NewBranch(id, old(branchN), text), q, pos)
      ensures tree.chain == AttachedChains(old(tree.chain)[n := [n]], n, q)
      ensures Hooked(Lone(old(tree.branches), n, NewBranch(id, old(branchN), text)), tree.branches, n, q, pos)
      ensures tree.chain[q] == old(tree.chain)[q]
    {
      n := next;
      PlantTree(n, NewBranch(id, branchN, text), q, pos);
      Register(n, id);
    }

    /** src/map.c:174 and 184 */
    method Register(n: Ref, id: nat)
      modifies this
      ensures next == n + 1 && branchN == old(branchN) + 1 && index == old(index)[id := n]
    {
      next, branchN, index := n + 1, branchN + 1, index[id := n];
    }

    /** src/map.c:183-185 */
    method PlantTree(n: Ref, nb: Branch, q: Ref, pos: int)
      requires Consistent(tree.branches, tree.chain, root, index, n) && IsImage(heads.file, tree.branches)
      requires nb.slot == |heads.file|
      requires q in tree.branches && |tree.branches[q].kids| + 1 < BIT16 && nb.id != 0 && nb.id !in index
      requires nb.parent == None && nb.kids == [] && nb.total == 0
      modifies tree, heads
      ensures n !in old(tree.branches) && n !in old(tree.chain)
      ensures Consistent(tree.branches, tree.chain, root, index[nb.id := n], n + 1)
      ensures IsImage(heads.file, tree.branches) && |heads.file| == |old(heads.file)| + 1
      ensures tree.branches == Grown(old(tree.branches), old(tree.chain), n, nb, q, pos)
      ensures tree.chain == AttachedChains(old(tree.chain)[n := [n]], n, q)
      ensures Hooked(Lone(old(tree.branches), n, nb), tree.branches, n, q, pos)
      ensures tree.chain[q] == old(tree.chain)[q]
    {
      ghost var s, c := tree.branches, tree.chain;
      Sow(n, nb, q, pos);
      PlantDone(s, tree.branches, c, tree.chain, root, index, n, nb, q, pos);
    }

    method Sow(n: Ref, nb: Branch, q: Ref, pos: int)
      requires tree.Valid() && IsNew(tree.branches, n, nb) && q in tree.branches
      requires IsImage(heads.file, tree.branches) && nb.slot == |heads.file|
      modifies tree, heads
      ensures tree.branches == Grown(old(tree.branches), old(tree.chain), n, nb, q, pos)
      ensures tree.chain == AttachedChains(old(tree.chain)[n := [n]], n, q)
      ensures IsImage(heads.file, tree.branches) && |heads.file| == |old(heads.file)| + 1
    {
      PlantReady(heads.file, tree.branches, tree.chain, n, nb, q, pos);
      Grow(n, nb, q, pos);
      heads.BranchNew(tree.branches, n);
    }

    method Grow(n: Ref, nb: Branch, q: Ref, pos: int)
      requires tree.Valid() && IsNew(tree.branches, n, nb) && q in tree.branches
      modifies tree
      ensures tree.branches == Grown(old(tree.branches), old(tree.chain), n, nb, q, pos)
      ensures tree.chain == AttachedChains(old(tree.chain)[n := [n]], n, q)
    {
      LoneTrees(tree.branches, tree.chain, n, nb);
      NotAbove(tree.branches, tree.chain, n);
      tree.branches := tree.branches[n := nb];
      tree.chain := tree.chain[n := [n]];
      tree.Add(n, q, pos);
    }

    /** src/map.c:188-299 */
    method FollowInsert(asker: Option<View>, n: Ref, q: Ref, pos: int, ghost s: Store, ghost c: Chains,
                        ghost shown0: map<View, Overlay>, ghost nb: Branch, ghost m: nat)
      requires Linked(s) && Chained(s, c) && AllValid(s, root, shown0) && IsNew(s, n, nb) && q in s
      requires EndsAt(c[q], root)
      requires Linked(tree.branches) && Chained(tree.branches, tree.chain) && root in s
      requires Hooked(Lone(s, n, nb), tree.branches, n, q, pos) && q in tree.chain && tree.chain[q] == c[q]
      requires sights.Valid() && sights.viewers.Keys == s.Keys && sights.shown == Prepared(s, c, shown0, q, asker)
      requires m <= |sights.out| && sights.out[m..] == Preamble(s, c, shown0, q, pos, asker)
      requires asker.Some? ==> asker.value in shown0
      modifies sights
      ensures sights.Valid() && sights.viewers.Keys == tree.branches.Keys && old(sights.out) <= sights.out
      ensures AllValid(tree.branches, root, sights.shown) <==> !AskerLoneChild(s, shown0, asker, q)
      ensures Followed(shown0, InsertPlan(s, c, shown0, n, nb.id, q, pos, Clamp(pos, |s[q].kids|), asker), sights.shown,
                       sights.out[m..], shown0.Keys)
    {
      ghost var shown1, k := sights.shown, |sights.out|;
      SpreadInsert(asker, n, q, pos, s, c, shown0, nb);
      assert sights.out[m..] == Preamble(s, c, shown0, q, pos, asker) + sights.out[k..];
      InsertOutcome(s, tree.branches, c, tree.chain, root, shown0, sights.shown, sights.out[k..], n, nb, q, pos, asker);
    }

    method SpreadInsert(asker: Option<View>, n: Ref, q: Ref, pos: int, ghost s: Store, ghost c: Chains,
                        ghost shown0: map<View, Overlay>, ghost nb: Branch)
      requires Linked(s) && Chained(s, c) && AllValid(s, root, shown0) && IsNew(s, n, nb) && q in s
      requires EndsAt(c[q], root)
      requires Linked(tree.branches) && Chained(tree.branches, tree.chain) && root in s
      requires Hooked(Lone(s, n, nb), tree.branches, n, q, pos) && q in tree.chain && tree.chain[q] == c[q]
      requires sights.Valid() && sights.viewers.Keys == s.Keys && sights.shown == Prepared(s, c, shown0, q, asker)
      modifies sights
      ensures sights.Valid() && sights.viewers.Keys == tree.branches.Keys && old(sights.out) <= sights.out
      ensures Followed(old(sights.shown), SpreadPlan(tree.branches, tree.chain, old(sights.shown), n, q, pos, asker),
                       sights.shown,
                       sights.out[|old(sights.out)|..], old(sights.shown).Keys)
    {
      ghost var shown1, m := sights.shown, |sights.out|;
      SpreadReady(s, tree.branches, c, tree.chain, root, shown0, n, nb, q, pos, asker);
      SpreadShown(asker, n, q, pos);
      sights.InsertCounted(tree.branches, n, q, pos, asker, root, tree.chain, shown1, m);
    }

    /** src/map.c:192-228 */
    method SpreadShown(asker: Option<View>, n: Ref, q: Ref, pos: int)
      requires sights.Valid() && n !in sights.viewers && tree.branches.Keys == sights.viewers.Keys + {n}
      requires root in sights.viewers
      requires q in sights.viewers && q in tree.chain
      requires forall v {:trigger sights.shown[v]} :: v in sights.shown ==>
                root in sights.shown[v] && n !in sights.shown[v]
      modifies sights
      ensures sights.Valid() && sights.viewers.Keys == tree.branches.Keys && old(sights.out) <= sights.out
      ensures Followed(old(sights.shown), SpreadPlan(tree.branches, tree.chain, old(sights.shown), n, q, pos, asker),
                       sights.shown,
                       sights.out[|old(sights.out)|..], Takers(old(sights.shown), q, asker))
      ensures NoDup(sights.viewers[root]) && Elements(sights.viewers[root]) == old(sights.shown).Keys
    {
      ghost var shown1, m := sights.shown, |sights.out|;
      sights.Enroll(n);
      sights.InsertShown(tree.branches, n, q, pos, asker, tree.chain);
      RootStillListed(shown1, SpreadPlan(tree.branches, tree.chain, shown1, n, q, pos, asker), sights.shown,
                      sights.out[m..],
                      Takers(shown1, q, asker), sights.viewers, root);
    }

    // ----- insert_path

    /** src/map.c:325-333: the first child with the given text. */
    method FindChild(p: Ref, name: string) returns (r: Option<Ref>)
      requires Linked(tree.branches) && p in tree.branches
      ensures r == Child(tree.branches, p, name) && (r.Some? ==> r.value in tree.branches)
      ensures Earliest(tree.branches, tree.branches[p].kids, name, r)
    {
      ChildIsEarliest(tree.branches, p, name);
      ghost var l := tree.branches[p].kids;
      assert LinkedAt(tree.branches, p);
      var j := 0;
      while j < |tree.branches[p].kids|
        invariant 0 <= j <= |l| && First(tree.branches, l, name) == First(tree.branches, l[j..], name)
      {
        var k := tree.branches[p].kids[j];
        assert l[j..][1..] == l[j + 1..] && l[j] in l;
        var same := Agree(name, tree.branches[k].text);
        if same {
          return Some(k);
        }
        j := j + 1;
      }
      return None;
    }

    /** src/map.c:312-317 */
    function PathStart(id: nat): Option<Ref>
      reads this
    {
      StartOf(index, root, id)
    }

    /**
     src/map.c:311-345: makes the branches that are missing on a path and returns its end.  What there is of
     the path is used, so that nothing is made if all of it is there; once it has succeeded, all of it is.
     */
    method InsertPath(parentId: nat, names: seq<string>) returns (r: Option<Ref>)
      requires Valid()
      requires PathStart(parentId).Some? && Path(tree.branches, PathStart(parentId).value, names).None? ==>
                 forall b :: b in tree.branches ==> |tree.branches[b].kids| + 1 < BIT16
      modifies this, tree, heads, sights
      ensures Valid()
      ensures old(PathStart(parentId)).None? ==> r.None? && State() == old(State())
      ensures old(PathStart(parentId)).Some? ==>
                && PathStart(parentId) == old(PathStart(parentId))
                && PathDone(old(State()), State(), old(PathStart(parentId)).value, names, r)
                && Walked(old(State()), State(), old(PathStart(parentId)).value, names, r)
    {
      var parent := PathStart(parentId);
      r := None;
      if parent.Some? {
        ghost var trail := Trail([], []);
        r, trail := Walk(parentId, parent.value, names);
        TrailEnd(parent.value, names, trail);
      }
    }

    /** src/map.c:322-342; `trail` is what the walk has passed. */
    method Walk(ghost start: nat, p: Ref, names: seq<string>) returns (r: Option<Ref>, ghost trail: Trail)
      requires Valid() && PathStart(start) == Some(p)
      requires Path(tree.branches, p, names).None? ==>
                 forall b :: b in tree.branches ==> |tree.branches[b].kids| + 1 < BIT16
      modifies this, tree, heads, sights
      ensures Valid() && PathStart(start) == Some(p)
      ensures IsTrail(old(State()), p, names, trail) && LastOf(trail) == (State(), r)
      ensures |trail.at| == |names| + 1 || r.None?
    {
      ghost var st := State();
      trail := Trail([st], [Some(p)]);
      r := Some(p);
      var i := 0;
      while i < |names| && r.Some?
        invariant 0 <= i <= |names| && Valid() && PathStart(start) == Some(p)
        invariant IsTrail(st, p, names, trail) && |trail.at| == i + 1 && LastOf(trail) == (State(), r)
      {
        r, trail := WalkOn(st, start, p, r.value, names, i, trail);
        i := i + 1;
      }
    }

    method WalkOn(ghost st: MapState, ghost start: nat, ghost p: Ref, q: Ref, names: seq<string>, i: nat,
                  ghost trail0: Trail)
      returns (r: Option<Ref>, ghost trail: Trail)
      requires Valid() && i < |names| && PathStart(start) == Some(p)
      requires IsTrail(st, p, names, trail0) && |trail0.at| == i + 1 && LastOf(trail0) == (State(), Some(q))
      requires Path(st.branches, p, names).None? ==> forall b :: b in st.branches ==> |st.branches[b].kids| + 1 < BIT16
      modifies this, tree, heads, sights
      ensures Valid() && PathStart(start) == Some(p)
      ensures IsTrail(st, p, names, trail) && |trail.at| == i + 2 && LastOf(trail) == (State(), r)
    {
      ghost var now := State();
      TrailOnPath(st, p, names, trail0, i);
      RoomBelow(st, now, p, names, i, q);
      var name := names[i];
      r := DownOne(start, q, name);
      trail := Trail(trail0.states + [State()], trail0.at + [r]);
      TrailMore(st, now, State(), p, names, i, q, name, trail0, trail, r);
    }

    /** src/map.c:322-341 */
    method DownOne(ghost start: nat, q: Ref, name: string) returns (branch: Option<Ref>)
      requires Valid() && q in tree.branches
      requires Child(tree.branches, q, name).None? ==> |tree.branches[q].kids| + 1 < BIT16
      modifies this, tree, heads, sights
      ensures Valid() && (old(PathStart(start)).Some? ==> PathStart(start) == old(PathStart(start)))
      ensures WentDown(old(State()), State(), q, name, branch)
    {
      branch := FindChild(q, name);
      if branch.None? {
        ghost var ids, n := index, branchN;
        branch := AppendNamed(q, name);
        StartKept(ids, root, n, start, if branch.Some? then branch.value else root);
      }
    }

    /** src/map.c:334-339: the id is made from the number of slots, so that it is never made twice. */
    method AppendNamed(q: Ref, name: string) returns (r: Option<Ref>)
      requires Valid() && q in tree.branches && |tree.branches[q].kids| + 1 < BIT16
      modifies this, tree, heads, sights
      ensures Valid() && MadeBelow(old(State()), State(), q, name, r)
      ensures r.Some? && old(branchN) < 0x1_0000_0000 ==>
                r.value in tree.branches && tree.branches[r.value].id == IdRead(Hex(1, 8) + Hex(old(branchN), 8))
    {
      ghost var a := State();
      var id := MakeId(branchN);
      assert IndexedAt(tree.branches, index, q);
      r := Insert(None, tree.branches[q].id, id, 999999, name);
      AppendDone(a, State(), root, q, name, r);
    }

    // ----- delete

    /**
     src/map.c:794-929: deletes a branch other than the root.  Its children should go to the root, but the
     loop over them misses every second one: the map stays sound exactly if the branch has at most one child.
     The states in `trail` are those between the moves of the children; after the last one the branch is removed.
     */
    method Delete(asker: Option<View>, id: nat) returns (ghost trail: seq<MapState>)
      requires Valid()
      requires id in index && index[id] != root ==>
                 |tree.branches[root].kids| + (|tree.branches[index[id]].kids| + 1) / 2 < BIT16
      modifies this, tree, heads, sights
      ensures old(sights.out) <= sights.out
      ensures id !in old(index) || old(tree.branches)[old(index)[id]].parent.None? ==> State() == old(State())
      ensures id in old(index) && old(tree.branches)[old(index)[id]].parent.Some? ==>
                var s, b := old(tree.branches), old(index)[id];
                && s[b].id == id && WhollyDeleted(old(State()), trail, State(), b, root, asker)
                && (Sound() <==> |s[b].kids| <= 1) && (Valid() <==> |s[b].kids| <= 1)
                && (forall k :: k in Skipped(s[b].kids, 0) ==>
                      Orphan(tree.branches, tree.chain, root, index, heads.file, k))
    {
      trail := [];
      if id !in index || tree.branches[index[id]].parent.None? {
        return;
      }
      OnlyRootParent(tree.branches, tree.chain, root, index[id]);
      trail := DeleteBelow(asker, index[id]);
    }

    /** src/map.c:801-926 */
    method DeleteBelow(asker: Option<View>, b: Ref) returns (ghost trail: seq<MapState>)
      requires Valid() && b in tree.branches && b != root && tree.branches[b].parent.Some?
      requires |tree.branches[root].kids| + (|tree.branches[b].kids| + 1) / 2 < BIT16
      modifies this, tree, heads, sights
      ensures WhollyDeleted(old(State()), trail, State(), b, root, asker)
      ensures (Sound() <==> |old(tree.branches)[b].kids| <= 1) && (Valid() <==> |old(tree.branches)[b].kids| <= 1)
      ensures forall k :: k in Skipped(old(tree.branches)[b].kids, 0) ==>
                Orphan(tree.branches, tree.chain, root, index, heads.file, k)
    {
      ghost var st := State();
      SkippedNone(st.branches[b].kids);
      ghost var i;
      trail, i := Rehome(b);
      ghost var now := State();
      NotOwnKid(st.branches, st.chain, b);
      StillBelow(st, trail, now, b, root, i);
      Remove(asker, b);
      DeletionWhole(st, trail, now, State(), b, root, i, asker);
    }

    /** src/map.c:802-807; the loop makes `n` turns. */
    method Rehome(b: Ref) returns (ghost trail: seq<MapState>, ghost n: nat)
      requires Valid() && b in tree.branches && b != root
      requires |tree.branches[root].kids| + (|tree.branches[b].kids| + 1) / 2 < BIT16
      modifies tree, heads, sights
      ensures Valid() && Homed(old(State()), trail, State(), b, root, n) && |tree.branches[b].kids| <= n
    {
      ghost var st := State();
      HomedNone(st, b, root);
      trail := [st];
      var i := 0;
      while i < |tree.branches[b].kids|
        invariant Valid() && Homed(st, trail, State(), b, root, i)
        decreases |tree.branches[b].kids| - i
      {
        RoomAtRoot(st, trail, State(), b, root, i);
        trail := RehomeNext(b, i, st, trail);
        i := i + 1;
      }
      n := i;
    }

    method RehomeNext(b: Ref, i: nat, ghost st: MapState, ghost trail0: seq<MapState>)
      returns (ghost trail: seq<MapState>)
      requires Valid() && b in tree.branches && b != root && i < |tree.branches[b].kids|
      requires |tree.branches[root].kids| + 1 < BIT16 && Homed(st, trail0, State(), b, root, i)
      modifies tree, heads, sights
      ensures Valid() && Homed(st, trail, State(), b, root, i + 1)
      ensures |tree.branches[b].kids| == |old(tree.branches)[b].kids| - 1
    {
      ghost var now := State();
      var k := tree.branches[b].kids[i];
      RehomeChild(b, k);
      HomeStepCuts(now, State(), b, i, k, root);
      trail := trail0 + [State()];
      HomedMore(st, trail0, now, State(), b, root, i, k);
    }

    /** src/map.c:805-806 */
    method RehomeChild(b: Ref, k: Ref)
      requires Valid() && b in tree.branches && b != root && k in tree.branches[b].kids
      requires |tree.branches[root].kids| + 1 < BIT16
      modifies tree, heads, sights
      ensures Valid() && MoveStep(old(State()), State(), k, root, 9999, None)
    {
      ChildMovable(tree.branches, tree.chain, root, index, next, b, k);
      var p := tree.branches[k].parent.value;
      MoveUnasked(tree.branches[root].id, tree.branches[p].id, tree.branches[k].id);
    }

    method MoveUnasked(to: nat, from: nat, id: nat)
      requires Valid() && Movable(tree.branches, tree.chain, index, to, from, id)
      requires |Rejoined(tree.branches, index[id], index[to])| + 1 < BIT16
      modifies tree, heads, sights
      ensures Valid() && MoveStep(old(State()), State(), index[id], index[to], 9999, None)
    {
      var ok := Move(None, to, from, id, 9999);
    }

    /** src/map.c:809-926: the rest, with what children there are left. */
    method Remove(asker: Option<View>, b: Ref)
      requires Valid() && b in tree.branches && tree.branches[b].parent.Some?
      modifies this, tree, heads, sights
      ensures index == old(index) - {old(tree.branches)[b].id} && sights.shown.Keys == old(sights.shown).Keys
      ensures old(sights.out) <= sights.out
      ensures Removal(old(State()), State(), b, asker) && (old(tree.branches)[b].kids == [] ==> Valid())
      ensures forall k :: k in old(tree.branches)[b].kids ==>
                Orphan(tree.branches, tree.chain, root, index, heads.file, k)
      ensures old(tree.branches)[b].kids != [] ==> !Sound()
      ensures Parted(old(tree.branches), tree.branches, b)
    {
      ghost var s, c, shown0, n, st := tree.branches, tree.chain, sights.shown, |sights.out|, State();
      ParentKnown(s, c, root, b);
      CutParted(s, c, b);
      sights.DeleteAll(tree.branches, b, asker, root, tree.chain);
      Cut(b);
      if tree.branches[b].kids == [] {
        Drop(asker, b, s, c, old(index), shown0, n);
        GoneLaws(st, State(), root, b, asker);
      } else {
        LeftLaws(st, State(), b, asker);
        if Consistent(tree.branches, tree.chain, root, index, next) {
          AllNamed(tree.branches, tree.chain, root, index, next, b);
        }
      }
    }

    /** src/map.c:916-925 */
    method Cut(b: Ref)
      requires Consistent(tree.branches, tree.chain, root, index, next) && IsImage(heads.file, tree.branches)
      requires b in tree.branches && tree.branches[b].parent.Some?
      modifies this`index, tree, heads
      ensures index == old(index) - {old(tree.branches)[b].id} && |heads.file| == |old(heads.file)|
      ensures old(tree.branches)[b].parent.value in old(tree.branches)
      ensures old(tree.branches)[b].parent.value in old(tree.chain)
      ensures tree.branches == Nameless(Detached(old(tree.branches), old(tree.chain), b), b)
      ensures tree.chain == DetachedChains(old(tree.chain), b)
      ensures Linked(tree.branches) && Clean(heads.file, tree.branches, Elements(old(tree.branches)[b].kids))
      ensures tree.branches[b].kids == old(tree.branches)[b].kids
      ensures forall k :: k in old(tree.branches)[b].kids ==>
                Orphan(tree.branches, tree.chain, root, index, heads.file, k)
    {
      ghost var s, c, f := tree.branches, tree.chain, heads.file;
      CutReady(heads.file, tree.branches, tree.chain, root, b);
      var p := tree.branches[b].parent.value;
      var at := tree.GetPos(b);
      CutTree(b);
      heads.BranchDeleted(tree.branches, b, p, at % 256,
                          {b, p} + From(tree.branches, p, at % 256) + Elements(s[b].kids));
      CutDone(f, heads.file, s, c, root, old(index), next, b, at % 256);
    }

    /** src/map.c:919-923 */
    method CutTree(b: Ref)
      requires tree.Valid() && b in tree.branches && tree.branches[b].parent.Some?
      modifies this`index, tree
      ensures index == old(index) - {old(tree.branches)[b].id}
      ensures old(tree.branches)[b].parent.value in old(tree.branches)
      ensures old(tree.branches)[b].parent.value in old(tree.chain)
      ensures tree.branches == Nameless(Detached(old(tree.branches), old(tree.chain), b), b)
      ensures tree.chain == DetachedChains(old(tree.chain), b)
    {
      tree.Detach(b);
      index := index - {tree.branches[b].id};
      tree.branches := tree.branches[b := tree.branches[b].(id := 0)];
    }

    /** Nothing refers to the branch any more. */
    method Drop(asker: Option<View>, b: Ref, ghost s: Store, ghost c: Chains, ghost index0: map<nat, Ref>,
                ghost shown0: map<View, Overlay>, ghost n: nat)
      requires b in s && s[b].parent.Some? && s[b].parent.value in s && s[b].parent.value in c && s[b].kids == []
      requires Consistent(s, c, root, index0, next) && index == index0 - {s[b].id} && AllValid(s, root, shown0)
      requires tree.branches == Nameless(Detached(s, c, b), b) && tree.chain == DetachedChains(c, b)
      requires Linked(tree.branches) && IsImage(heads.file, tree.branches) && branchN == |heads.file|
      requires sights.Valid() && sights.viewers.Keys == s.Keys && n <= |sights.out|
      requires Followed(shown0, DeletePlan(s, c, shown0, b, asker), sights.shown, sights.out[n..], shown0.Keys)
      modifies tree, sights`shown, sights`viewers
      ensures Valid() && sights.shown.Keys == shown0.Keys
      ensures GoneDone(s, tree.branches, c, tree.chain, shown0, sights.shown, sights.out[n..], b, asker)
    {
      ghost var shown1 := sights.shown;
      sights.Forget(b);
      DropDone(heads.file, s, c, root, index0, next, b, asker, shown0, shown1, sights.shown, sights.out[n..]);
      tree.branches, tree.chain := tree.branches - {b}, tree.chain - {b};
    }

    // ----- views

    /** src/map.c:65-77: a new view shows the root alone. */
    method CreateView(v: View)
      requires Valid() && v !in sights.shown
      modifies sights
      ensures Valid() && sights.shown == old(sights.shown)[v := map[root := VBranch(None, [])]]
      ensures sights.out == old(sights.out)
    {
      OnlyRootParent(tree.branches, tree.chain, root, root);
      sights.NewView(v, root);
      RootAlone(tree.branches, root);
    }

    /**
     src/map.c:1202-1231: shows the way to a branch and its children, and tells the view where that starts.
     The map stays valid exactly if the branch did not show its children before.
     */
    method ExpandTo(v: View, id: nat)
      requires Valid() && v in sights.shown
      modifies sights
      ensures Valid() <==> (id in index ==> Unopened(old(sights.shown)[v], index[id]))
      ensures id !in index ==> unchanged(sights)
      ensures id in index ==>
                var o, b := old(sights.shown)[v], index[id];
                && b in tree.chain
                && sights.shown == old(sights.shown)[v := Expanded(tree.branches, o, tree.chain[b])]
                && sights.out == old(sights.out) + ExpandNotices(tree.branches, tree.chain, root, o, v, b)
                && (Unopened(o, b) ==>
                      ExpandLaws(tree.branches, tree.chain, root, o, sights.shown[v], sights.out[|old(sights.out)|..],
                                 v, b))
    {
      if id !in index {
        return;
      }
      var b := index[id];
      ghost var s, c, o, out := tree.branches, tree.chain, sights.shown[v], sights.out;
      assert ValidOverlay(s, root, o) && StorableAt(s, c, root, b);
      OnlyRootParent(s, c, root, b);
      DeepestKnown(s, c, root, o, b);
      if Unopened(o, b) {
        ExpandedValid(s, c, root, o, b);
      }
      var e := sights.ExpandTo(tree.branches, v, b, true, tree.chain, root);
      if e.Some? {
        sights.Push(MapInsert(v, tree.branches[e.value].id, 0, tree.branches[e.value].id));
      }
      if Unopened(o, b) {
        assert sights.out[|out|..] == ExpandNotices(s, c, root, o, v, b);
        ExpandLawsHold(s, c, root, o, v, b);
      }
    }

    /** src/view.c:117-122: a new view that shows what another one shows. */
    method CloneView(v: View, w: View)
      requires Valid() && v in sights.shown && w !in sights.shown
      modifies sights
      ensures Valid() && sights.shown == old(sights.shown)[w := old(sights.shown)[v]] && sights.out == old(sights.out)
    {
      OnlyRootParent(tree.branches, tree.chain, root, root);
      AllUnder(tree.branches, tree.chain, root);
      assert ValidOverlay(tree.branches, root, sights.shown[v]);
      Cloning.CloneView(sights, tree.branches, v, w, tree.chain, root);
    }

    /** src/map.c:1160-1163: a view goes, and leaves nothing in the lists of the branches. */
    method DestroyView(v: View)
      requires Valid() && v in sights.shown
      modifies sights
      ensures Valid() && sights.shown == old(sights.shown) - {v} && sights.out == old(sights.out)
      ensures forall b :: b in sights.viewers ==> v !in sights.viewers[b]
    {
      AllUnder(tree.branches, tree.chain, root);
      assert ValidOverlay(tree.branches, root, sights.shown[v]);
      Cloning.DestroyView(sights, tree.branches, v, tree.chain, root);
    }

    /**
     src/map.c:1234-1261: completes the list of children of a branch that the view shows, whatever part of it is
     there.  If no other list was partial, the map is valid then.
     */
    method Unfold(v: View, id: nat)
      requires Sound() && v in sights.shown && PartialOverlay(tree.branches, root, sights.shown[v])
      modifies sights
      ensures Sound() && v in sights.shown && PartialOverlay(tree.branches, root, sights.shown[v])
      ensures sights.shown == old(sights.shown)[v := sights.shown[v]]
      ensures old(Valid()) ==> Valid()
      ensures id !in index ==> State() == old(State())
      ensures id in index && index[id] !in old(sights.shown)[v] ==> State() == old(State())
      ensures id in index && Full(tree.branches, old(sights.shown)[v], index[id]) ==> State() == old(State())
      ensures id in index && index[id] in old(sights.shown)[v] ==>
                var o, w, b := old(sights.shown)[v], sights.shown[v], index[id];
                && Full(tree.branches, w, b) && Widened(tree.branches, o, w)
                && (!Full(tree.branches, o, b) ==>
                      && b in tree.chain && w.Keys == o.Keys + Within(tree.chain, b, 1)
                      && sights.out == old(sights.out) + [MapInsert(v, id, 0, id)]
                      && Told(tree.branches, tree.branches, tree.chain, o, w, [MapInsert(v, id, 0, id)], v, {}))
                && (Ordered(tree.branches, o) ==> Ordered(tree.branches, w))
                && (PartialOnly(tree.branches, root, o, b) && AllValid(tree.branches, root, old(sights.shown) - {v}) ==>
                      Valid())
    {
      ghost var shown0 := sights.shown;
      assert sights.shown == shown0[v := sights.shown[v]];
      if id !in index {
        return;
      }
      var b := index[id];
      var found := sights.Sees(b, v);
      if found {
        RightLength(tree.branches, root, sights.shown[v], b);
        if |sights.shown[v][b].kids| != |tree.branches[b].kids| {
          UnfoldBelow(v, b);
          sights.Push(MapInsert(v, tree.branches[b].id, 0, tree.branches[b].id));
        } else {
          WidenedSelf(tree.branches, sights.shown[v]);
        }
        UnfoldedValid(tree.branches, root, shown0, sights.shown, v, b);
        UnfoldLaws(tree.branches, tree.chain, shown0[v], sights.shown[v], v, b);
      }
    }

    /** src/map.c:1241 */
    method UnfoldBelow(v: View, b: Ref)
      requires Sound() && v in sights.shown && PartialOverlay(tree.branches, root, sights.shown[v])
      requires b in sights.shown[v] && b in tree.branches
      modifies sights`shown, sights`viewers
      ensures Sound() && v in sights.shown && sights.shown == old(sights.shown)[v := sights.shown[v]]
      ensures PartialOverlay(tree.branches, root, sights.shown[v])
      ensures Widened(tree.branches, old(sights.shown)[v], sights.shown[v]) && Full(tree.branches, sights.shown[v], b)
      ensures b in tree.chain && sights.shown[v].Keys == old(sights.shown)[v].Keys + Within(tree.chain, b, 1)
    {
      assert ChainedAt(tree.branches, tree.chain, b);
      ViewExpand(sights, tree.branches, v, b, 2, tree.chain, root);
      assert Full(tree.branches, sights.shown[v], b);
    }

    // ----- the head file

    /** src/io.c:36-58: writing the whole file anew changes nothing. */
    method Resave()
      requires Valid()
      modifies heads
      ensures Valid() && heads.file == old(heads.file)
    {
      AllUnder(tree.branches, tree.chain, root);
      heads.Resave(tree.branches, root, branchN, tree.chain);
      ImageUnique(old(heads.file), heads.file, tree.branches);
    }

    /** src/map.c:1683-1691: reading the file gives the same tree, with branches known by their slots. */
    method Reload(junk: Ref, text: nat -> string) returns (ok: bool, copy: BranchTree, ids: map<nat, Ref>, top: Ref)
      requires Valid()
      ensures ok && copy.Valid() && top == tree.branches[root].slot && Restored(tree.branches, copy.branches, text)
      ensures forall b :: b in tree.branches ==>
                tree.branches[b].id in ids && ids[tree.branches[b].id] == tree.branches[b].slot
    {
      ok, copy, ids, top := HeadLoader.Reload(heads.file, junk, text, tree.branches, tree.chain, root);
    }
  }

  lemma FreshId(s: Store, index: map<nat, Ref>, n: Ref, nb: Branch)
    requires Indexed(s, index) && IsNew(s, n, nb) && nb.id !in index
    ensures Fresh(s, n, nb)
  {
    forall x | x in s ensures s[x].id != nb.id {
      assert IndexedAt(s, index, x);
    }
  }

  lemma UnfoldLaws(s: Store, c: Chains, o: Overlay, w: Overlay, v: View, b: Ref)
    requires b in s && b in o && b in c && Widened(s, o, w)
    ensures w.Keys == o.Keys + Within(c, b, 1) ==> Told(s, s, c, o, w, [MapInsert(v, s[b].id, 0, s[b].id)], v, {})
    ensures Ordered(s, o) ==> Ordered(s, w)
  {
    if w.Keys == o.Keys + Within(c, b, 1) {
      ToldRefresh(s, s, c, o, w, [MapInsert(v, s[b].id, 0, s[b].id)], v, b, 0, {});
    }
    if Ordered(s, o) {
      WidenedOrdered(s, o, w);
    }
  }

  /** After a list has been completed. */
  lemma UnfoldedValid(s: Store, root: Ref, shown0: map<View, Overlay>, shown: map<View, Overlay>, v: View, b: Ref)
    requires Linked(s) && v in shown0 && v in shown && shown == shown0[v := shown[v]] && b in shown0[v]
    requires PartialOverlay(s, root, shown0[v]) && PartialOverlay(s, root, shown[v])
    requires Widened(s, shown0[v], shown[v]) && Full(s, shown[v], b)
    ensures PartialOnly(s, root, shown0[v], b) && AllValid(s, root, shown0 - {v}) ==> AllValid(s, root, shown)
    ensures AllValid(s, root, shown0) ==> AllValid(s, root, shown)
  {
    if AllValid(s, root, shown0) {
      ValidIsPartial(s, root, shown0[v]);
    }
    if PartialOnly(s, root, shown0[v], b) && AllValid(s, root, shown0 - {v}) {
      WidenedValid(s, root, shown0[v], shown[v], b);
      forall w | w in shown ensures ValidOverlay(s, root, shown[w]) {
        assert w != v ==> ValidOverlay(s, root, (shown0 - {v})[w]);
      }
    }
    if AllValid(s, root, shown0) {
      forall w | w in shown0 - {v} ensures ValidOverlay(s, root, (shown0 - {v})[w]) {
        assert ValidOverlay(s, root, shown0[w]);
      }
    }
  }

  /**
   An expansion keeps the order of the lists, and all that has come into sight is told, exactly if it does not open the
   root.
   */
  ghost predicate ExpandLaws(s: Store, c: Chains, root: Ref, o: Overlay, w: Overlay, l: seq<Notice>, v: View, b: Ref)
    requires b in s
  {
    && (Told(s, s, c, o, w, l, v, {}) <==> b != root || s[b].kids == [])
    && (Ordered(s, o) ==> Ordered(s, w))
  }

  lemma ExpandLawsHold(s: Store, c: Chains, root: Ref, o: Overlay, v: View, b: Ref)
    requires Linked(s) && Chained(s, c) && DistinctIds(s) && ValidOverlay(s, root, o) && b in s && EndsAt(c[b], root)
    requires Unopened(o, b) && (s[b].parent.None? <==> b == root)
    ensures ExpandLaws(s, c, root, o, Expanded(s, o, c[b]), ExpandNotices(s, c, root, o, v, b), v, b)
  {
    ExpandTells(s, c, root, o, b, v, ExpandNotices(s, c, root, o, v, b));
    if Ordered(s, o) {
      ExpandedOrdered(s, c, root, o, b);
    }
  }

  ghost function ExpandNotices(s: Store, c: Chains, root: Ref, o: Overlay, v: View, b: Ref): seq<Notice>
    requires b in c
  {
    if b == root then [] else [MapInsert(v, IdOf(s, Deepest(o, c[b])), 0, IdOf(s, Deepest(o, c[b])))]
  }

  ghost function Preamble(s: Store, c: Chains, shown: map<View, Overlay>, q: Ref, pos: int,
                          asker: Option<View>): seq<Notice>
    requires q in s && q in c
  {
    if asker.Some? && asker.value in shown then InsertNotices(s, c, shown[asker.value], 0, q, pos, asker.value, true)
        else []
  }

  lemma PreparedRoot(s: Store, c: Chains, root: Ref, o: Overlay, q: Ref, mine: bool)
    requires Linked(s) && Chained(s, c) && ValidOverlay(s, root, o) && q in s && EndsAt(c[q], root)
    ensures root in PreparedAt(s, c, o, q, mine)
  {
    if mine && q !in o {
      ExpandedValid(s, c, root, o, q);
    }
  }

  lemma SpreadReady(s: Store, t: Store, c: Chains, d: Chains, root: Ref, shown: map<View, Overlay>, n: Ref, nb: Branch,
                    q: Ref, pos: int, asker: Option<View>)
    requires Linked(s) && Chained(s, c) && AllValid(s, root, shown) && IsNew(s, n, nb) && q in s && EndsAt(c[q], root)
    requires Linked(t) && Hooked(Lone(s, n, nb), t, n, q, pos) && q in d && d[q] == c[q]
    ensures InsertReady(t, d, root, Prepared(s, c, shown, q, asker), n, q, asker) && t[q].kids != []
    ensures forall v :: v in shown ==>
              root in Prepared(s, c, shown, q, asker)[v] && n !in Prepared(s, c, shown, q, asker)[v]
  {
    forall v | v in shown
      ensures ReadyAt(t, d, root, Prepared(s, c, shown, q, asker), n, q, asker, v)
      ensures root in Prepared(s, c, shown, q, asker)[v]
    {
      PreparedReady(s, t, c, d, root, shown, n, nb, q, pos, asker, v);
      PreparedRoot(s, c, root, shown[v], q, asker == Some(v));
    }
    HookedPosition(s, t, n, nb, q, pos);
  }

  lemma InsertOutcome(s: Store, t: Store, c: Chains, d: Chains, root: Ref, shown0: map<View, Overlay>,
                      shown: map<View, Overlay>, sent: seq<Notice>, n: Ref, nb: Branch, q: Ref, pos: int,
                      asker: Option<View>)
    requires Linked(s) && Chained(s, c) && AllValid(s, root, shown0) && IsNew(s, n, nb) && q in s && EndsAt(c[q], root)
    requires Linked(t) && Hooked(Lone(s, n, nb), t, n, q, pos) && q in d && d[q] == c[q]
    requires
      var shown1 := Prepared(s, c, shown0, q, asker);
      Followed(shown1, SpreadPlan(t, d, shown1, n, q, pos, asker), shown, sent, shown1.Keys)
    requires asker.Some? ==> asker.value in shown0
    ensures AllValid(t, root, shown) <==> !AskerLoneChild(s, shown0, asker, q)
    ensures Followed(shown0, InsertPlan(s, c, shown0, n, nb.id, q, pos, Clamp(pos, |s[q].kids|), asker), shown,
                     Preamble(s, c, shown0, q, pos, asker) + sent, shown0.Keys)
  {
    InsertAllValid(s, t, c, d, root, shown0, shown, sent, n, nb, q, pos, asker);
    InsertFollowed(s, t, c, d, root, shown0, shown, Preamble(s, c, shown0, q, pos, asker), sent, n, nb, q, pos, asker);
    HookedPosition(s, t, n, nb, q, pos);
  }

  lemma SameWay(s: Store, c: Chains, n: Ref, q: Ref)
    requires Chained(s, c) && n !in s && q in s
    ensures q in AttachedChains(c[n := [n]], n, q) && AttachedChains(c[n := [n]], n, q)[q] == c[q]
  {
    NotAbove(s, c, n);
  }

  lemma RootListed(shown: map<View, Overlay>, viewers: map<Ref, seq<View>>, root: Ref)
    requires Listed(shown, viewers) && root in viewers && (forall v :: v in shown ==> root in shown[v])
    ensures NoDup(viewers[root]) && Elements(viewers[root]) == shown.Keys
  {
    assert ListedAt(shown, viewers, root);
  }

  lemma RootStillListed(shown1: map<View, Overlay>, plan: Plan, shown: map<View, Overlay>, sent: seq<Notice>,
                        done: set<View>, viewers: map<Ref, seq<View>>, root: Ref)
    requires Followed(shown1, plan, shown, sent, done) && Listed(shown, viewers) && root in viewers
    requires forall v :: v in shown1 ==> root in shown1[v]
    requires forall v :: v in plan && v in shown1 ==> shown1[v].Keys <= plan[v].seen.Keys
    ensures NoDup(viewers[root]) && Elements(viewers[root]) == shown1.Keys
  {
    forall v | v in shown ensures root in shown[v] {
      assert FollowedAt(shown1, plan, shown, sent, done, v);
    }
    RootListed(shown, viewers, root);
  }

  lemma HookedPosition(s: Store, t: Store, n: Ref, nb: Branch, q: Ref, pos: int)
    requires Linked(t) && IsNew(s, n, nb) && q in s && Hooked(Lone(s, n, nb), t, n, q, pos)
    ensures PosIn(t[q].kids, n) == Clamp(pos, |s[q].kids|) && t[q].kids != []
  {
    assert LinkedAt(t, q);
    PosInAt(t[q].kids, Clamp(pos, |s[q].kids|));
  }

  lemma PlantReady(file: seq<Head>, s: Store, c: Chains, n: Ref, nb: Branch, q: Ref, pos: int)
    requires Trees(s, c) && IsNew(s, n, nb) && q in s && IsImage(file, s) && nb.slot == |file|
    ensures Linked(Grown(s, c, n, nb, q, pos))
    ensures
      var t := Grown(s, c, n, nb, q, pos);
      && n in t && t[n].parent == Some(q) && t[n].slot == |file| && q in t && Position(t, n) >= 0
      && Clean(file + [BLANK], t, {n, q} + From(t, q, Position(t, n)))
  {
    GrownTrees(s, c, n, nb, q, pos);
    GrownClean(file, s, Grown(s, c, n, nb, q, pos), n, nb, q, pos, BLANK);
    HookedPosition(s, Grown(s, c, n, nb, q, pos), n, nb, q, pos);
  }

  lemma RelocateDone(file: seq<Head>, s: Store, t: Store, c: Chains, d: Chains, root: Ref, index: map<nat, Ref>,
                     next: Ref, b: Ref, q: Ref, pos: int)
    requires Consistent(s, c, root, index, next) && CanMove(s, c, root, b, q) && |Rejoined(s, b, q)| + 1 < BIT16
    requires IsImage(file, s) && t == Moved(s, c, b, q, pos) && d == MovedChains(c, b, q)
    ensures Consistent(t, d, root, index, next) && t.Keys == s.Keys && 0 <= Position(s, b)
    ensures
      var p := s[b].parent.value;
      && b in t && p in t && q in t && t[b].parent == Some(q) && Position(t, b) >= 0
      && Clean(file, t, MoveDirty(t, b, p, q, Position(t, b), Position(s, b) % BIT16))
  {
    MoveKeeps(s, c, root, index, next, b, q, pos);
    MovedKeys(s, c, root, b, q, pos);
    RelocateReady(file, s, c, root, b, q, pos);
    MovedPosition(s, c, root, b, q, pos);
  }

  lemma RelocateReady(file: seq<Head>, s: Store, c: Chains, root: Ref, b: Ref, q: Ref, pos: int)
    requires Trees(s, c) && Storable(s, c, root) && CanMove(s, c, root, b, q) && IsImage(file, s)
    ensures
      var t, p := Moved(s, c, b, q, pos), s[b].parent.value;
      && b in t && p in t && q in t && t[b].parent == Some(q) && Position(t, b) >= 0
      && Clean(file, t, MoveDirty(t, b, p, q, Position(t, b), Position(s, b) % BIT16))
  {
    MovedClean(file, s, c, root, b, q, pos);
    MovedPosition(s, c, root, b, q, pos);
    SmallMod(Position(s, b));
  }

  lemma SmallMod(n: int)
    requires 0 <= n < BIT16
    ensures n % BIT16 == n
  {
  }

  /** Where the branch is after a move, and what its old position was. */
  lemma MovedPosition(s: Store, c: Chains, root: Ref, b: Ref, q: Ref, pos: int)
    requires Trees(s, c) && Storable(s, c, root) && CanMove(s, c, root, b, q)
    ensures 0 <= Position(s, b) < BIT16
    ensures
      var t, l := Moved(s, c, b, q, pos), Rejoined(s, b, q);
      b in t && t[b].parent == Some(q) && q in t && Position(t, b) == Clamp(pos, |l|)
  {
    var p, t, l := s[b].parent.value, Moved(s, c, b, q, pos), Rejoined(s, b, q);
    assert LinkedAt(s, b) && StorableAt(s, c, root, p);
    PosInBounds(s[p].kids, b);
    MovedKids(s, c, root, b, q, pos);
    MovedTrees(s, c, root, b, q, pos);
    assert LinkedAt(t, q);
    PosInAt(t[q].kids, Clamp(pos, |l|));
  }

  lemma FirstTree()
    ensures
      var s: Store, c: Chains := map[0 := Branch(1, 0, None, [], 0, "My map")], map[0 := [0]];
      Consistent(s, c, 0, map[1 := 0], 1) && IsImage([Head(1, 0, 0, 0)], s)
  {
    var s: Store, c: Chains := map[0 := Branch(1, 0, None, [], 0, "My map")], map[0 := [0]];
    assert LinkedAt(s, 0) && ChainedAt(s, c, 0) && Under(c, 0) == {0};
    assert CountedAt(s, c, 0) && IndexedAt(s, map[1 := 0], 0);
    assert StorableAt(s, c, 0, 0) && CleanAt([Head(1, 0, 0, 0)], s, 0);
  }

  lemma RootAlone(s: Store, root: Ref)
    requires root in s && s[root].parent.None?
    ensures ValidOverlay(s, root, map[root := VBranch(None, [])])
  {
  }

  lemma AllUnder(s: Store, c: Chains, root: Ref)
    requires Storable(s, c, root)
    ensures Under(c, root) == s.Keys
  {
    forall x | x in s ensures root in c[x] {
      assert StorableAt(s, c, root, x);
    }
  }

  lemma PlantDone(s: Store, t: Store, c: Chains, d: Chains, root: Ref, index: map<nat, Ref>, n: Ref, nb: Branch, q: Ref,
                  pos: int)
    requires Consistent(s, c, root, index, n) && q in s && |s[q].kids| + 1 < BIT16 && IsNew(s, n, nb)
    requires nb.id != 0 && nb.id !in index && n !in c && t == Grown(s, c, n, nb, q, pos)
    requires d == AttachedChains(c[n := [n]], n, q)
    ensures Consistent(t, d, root, index[nb.id := n], n + 1) && Hooked(Lone(s, n, nb), t, n, q, pos) && q in d
    ensures d[q] == c[q]
  {
    InsertKeeps(s, c, root, index, n, nb, q, pos);
    SameWay(s, c, n, q);
  }
}
