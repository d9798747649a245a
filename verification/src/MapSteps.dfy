/** What one step of src/map.c does to the tree of a map keeps it fit to be indexed and stored. */
module MapSteps {
  import opened Options
  import opened Forest
  import opened Overlay
  import opened Sight
  import opened HeadFile
  import opened HeadLoader
  import opened Views

  /** All that can change in a map. */
  datatype MapState = MapState(index: map<nat, Ref>, branchN: nat, next: Ref, branches: Store, chain: Chains,
                               file: seq<Head>,
                               shown: map<View, Overlay>, viewers: map<Ref, seq<View>>, out: seq<Notice>)

  ghost predicate IndexedAt(s: Store, index: map<nat, Ref>, b: Ref)
    requires b in s
  {
    s[b].id in index && index[s[b].id] == b
  }

  /** The index holds exactly the branches of the tree. */
  ghost predicate Indexed(s: Store, index: map<nat, Ref>) {
    && (forall b {:trigger IndexedAt(s, index, b)} :: b in s ==> IndexedAt(s, index, b))
    && (forall i {:trigger index[i]} :: i in index ==> index[i] in s && s[index[i]].id == i)
  }

  /** One tree below `root`, indexed by id, with pointers below `next`. */
  ghost predicate Consistent(s: Store, c: Chains, root: Ref, index: map<nat, Ref>, next: Ref) {
    && Trees(s, c) && Storable(s, c, root) && Indexed(s, index)
    && (forall b {:trigger s[b]} :: b in s ==> b < next)
  }

  lemma ConsistentMove(s: Store, c: Chains, root: Ref, b: Ref, q: Ref)
    requires Linked(s) && Storable(s, c, root) && b in s && s[b].parent.Some? && q in s && b !in c[q]
    ensures CanMove(s, c, root, b, q)
  {
    assert LinkedAt(s, b) && StorableAt(s, c, root, b) && StorableAt(s, c, root, q);
  }

  lemma BentStorableAt(s: Store, t: Store, c: Chains, d: Chains, root: Ref, b: Ref, p: Ref, q: Ref, x: Ref)
    requires Storable(s, c, root) && SameNames(s, t) && Bent(s, c, d, b, p, q) && q in s && x in s
    requires |t[x].kids| < BIT16
    ensures StorableAt(t, d, root, x)
  {
    assert StorableAt(s, c, root, x) && StorableAt(s, c, root, q);
    if b in c[x] {
      assert BentAt(c, d, b, p, q, x);
    }
  }

  lemma MovedNarrow(s: Store, c: Chains, root: Ref, b: Ref, q: Ref, pos: int, x: Ref)
    requires Trees(s, c) && Storable(s, c, root) && CanMove(s, c, root, b, q) && x in s
    requires |Rejoined(s, b, q)| + 1 < BIT16
    ensures SameNames(s, Moved(s, c, b, q, pos)) && |Moved(s, c, b, q, pos)[x].kids| < BIT16
  {
    MovedKids(s, c, root, b, q, pos);
    WithoutShorter(s[s[b].parent.value].kids, b);
    assert StorableAt(s, c, root, x);
  }

  lemma MovedStorable(s: Store, c: Chains, root: Ref, b: Ref, q: Ref, pos: int)
    requires Trees(s, c) && Storable(s, c, root) && CanMove(s, c, root, b, q)
    requires |Rejoined(s, b, q)| + 1 < BIT16
    ensures Storable(Moved(s, c, b, q, pos), MovedChains(c, b, q), root)
  {
    var t, d := Moved(s, c, b, q, pos), MovedChains(c, b, q);
    MovedTrees(s, c, root, b, q, pos);
    MovedBent(s, c, root, b, q);
    MovedNarrow(s, c, root, b, q, pos, root);
    forall x | x in s ensures StorableAt(t, d, root, x) {
      MovedNarrow(s, c, root, b, q, pos, x);
      BentStorableAt(s, t, c, d, root, b, s[b].parent.value, q, x);
    }
  }

  lemma {:induction false} WithoutShorter(l: seq<Ref>, b: Ref)
    ensures |Without(l, b)| <= |l|
  {
    if l != [] {
      WithoutShorter(l[1..], b);
    }
  }

  lemma MovedKeys(s: Store, c: Chains, root: Ref, b: Ref, q: Ref, pos: int)
    requires Trees(s, c) && CanMove(s, c, root, b, q)
    ensures Moved(s, c, b, q, pos).Keys == s.Keys
  {
    MovedKids(s, c, root, b, q, pos);
  }

  lemma MoveKeeps(s: Store, c: Chains, root: Ref, index: map<nat, Ref>, next: Ref, b: Ref, q: Ref, pos: int)
    requires Consistent(s, c, root, index, next) && CanMove(s, c, root, b, q)
    requires |Rejoined(s, b, q)| + 1 < BIT16
    ensures Consistent(Moved(s, c, b, q, pos), MovedChains(c, b, q), root, index, next)
  {
    MovedStorable(s, c, root, b, q, pos);
    MovedTrees(s, c, root, b, q, pos);
    MovedKids(s, c, root, b, q, pos);
    forall x | x in s ensures IndexedAt(Moved(s, c, b, q, pos), index, x) {
      assert IndexedAt(s, index, x);
    }
  }

  lemma GrownStorableAt(s: Store, t: Store, c: Chains, root: Ref, n: Ref, nb: Branch, q: Ref, pos: int, x: Ref)
    requires Chained(s, c) && Storable(s, c, root) && IsNew(s, n, nb) && q in s && |s[q].kids| + 1 < BIT16 && nb.id != 0
    requires Hooked(Lone(s, n, nb), t, n, q, pos) && x in t
    ensures StorableAt(t, AttachedChains(c[n := [n]], n, q), root, x)
  {
    NotAbove(s, c, n);
    assert StorableAt(s, c, root, q);
    if x != n {
      assert StorableAt(s, c, root, x);
    }
  }

  lemma InsertKeeps(s: Store, c: Chains, root: Ref, index: map<nat, Ref>, n: Ref, nb: Branch, q: Ref, pos: int)
    requires Consistent(s, c, root, index, n) && IsNew(s, n, nb) && q in s && |s[q].kids| + 1 < BIT16
    requires nb.id != 0 && nb.id !in index
    ensures Consistent(Grown(s, c, n, nb, q, pos), AttachedChains(c[n := [n]], n, q), root, index[nb.id := n], n + 1)
    ensures Hooked(Lone(s, n, nb), Grown(s, c, n, nb, q, pos), n, q, pos)
  {
    var t, d := Grown(s, c, n, nb, q, pos), AttachedChains(c[n := [n]], n, q);
    GrownTrees(s, c, n, nb, q, pos);
    forall x | x in t ensures StorableAt(t, d, root, x) {
      GrownStorableAt(s, t, c, root, n, nb, q, pos, x);
    }
    GrownNames(s, t, index, n, nb, q, pos);
  }

  lemma GrownNames(s: Store, t: Store, index: map<nat, Ref>, n: Ref, nb: Branch, q: Ref, pos: int)
    requires Indexed(s, index) && DistinctIds(s) && n !in s && q in s && nb.id !in index
    requires Hooked(Lone(s, n, nb), t, n, q, pos)
    requires forall b {:trigger s[b]} :: b in s ==> b < n
    ensures Indexed(t, index[nb.id := n]) && DistinctIds(t) && forall b {:trigger t[b]} :: b in t ==> b < n + 1
  {
    forall b | b in t ensures t[b].id == (if b == n then nb.id else s[b].id) && IndexedAt(t, index[nb.id := n], b) {
      if b != n {
        assert IndexedAt(s, index, b);
      }
    }
  }

  lemma ShrunkStorable(s: Store, c: Chains, root: Ref, b: Ref)
    requires Trees(s, c) && Storable(s, c, root) && b in s && s[b].parent.Some? && s[b].kids == []
    requires s[b].parent.value in s && s[b].parent.value in c
    ensures Storable(Shrunk(s, c, b), DetachedChains(c, b) - {b}, root)
  {
    var t: Store, d: Chains := Shrunk(s, c, b), DetachedChains(c, b) - {b};
    ShrunkTrees(s, c, b);
    WithoutShorter(s[s[b].parent.value].kids, b);
    assert StorableAt(s, c, root, b) && StorableAt(s, c, root, s[b].parent.value);
    OnlyRoot(s, c, root, b);
    forall x | x in t ensures StorableAt(t, d, root, x) {
      assert StorableAt(s, c, root, x);
      assert x !in Under(c, b);
    }
  }

  lemma DeleteKeeps(s: Store, c: Chains, root: Ref, index: map<nat, Ref>, next: Ref, b: Ref)
    requires Consistent(s, c, root, index, next) && b in s && s[b].parent.Some? && s[b].kids == []
    ensures s[b].parent.value in s && s[b].parent.value in c
    ensures Consistent(Shrunk(s, c, b), DetachedChains(c, b) - {b}, root, index - {s[b].id}, next)
    ensures Unhooked(s, Detached(s, c, b), b, s[b].parent.value) && Under(c, b) == {b}
  {
    ShrunkTrees(s, c, b);
    ShrunkStorable(s, c, root, b);
    var t := Shrunk(s, c, b);
    forall x | x in t ensures IndexedAt(t, index - {s[b].id}, x) {
      assert IndexedAt(s, index, x);
    }
  }

  // ----- the overlays after a step

  /** Which moves are made: src/map.c:443-471. */
  ghost predicate Movable(s: Store, c: Chains, index: map<nat, Ref>, to: nat, from: nat, id: nat) {
    && id in index && to in index && index[id] in s && index[to] in c
    && s[index[id]].parent.Some? && s[index[id]].parent.value in s
    && s[s[index[id]].parent.value].id == from && index[id] !in c[index[to]]
  }

  /** A refused move tells the asking view where the branch is: src/map.c:474-493. */
  ghost function Refusal(s: Store, index: map<nat, Ref>, to: nat, id: nat, asker: Option<View>): seq<Notice> {
    if asker.Some? && id in index && to in index && index[id] in s && s[index[id]].parent.Some?
        && s[index[id]].parent.value in s then
      [MapMove(asker.value, s[s[index[id]].parent.value].id, s[index[id]].id, Position(s, index[id]), true)]
    else []
  }

  /** The asking view, if any, is in the case that the code does not handle. */
  predicate AskerMisses(shown: map<View, Overlay>, asker: Option<View>, b: Ref, q: Ref) {
    asker.Some? && asker.value in shown && MissesArrival(shown[asker.value], b, q, true)
  }

  lemma MoveAllValid(s: Store, c: Chains, root: Ref, shown0: map<View, Overlay>, shown: map<View, Overlay>,
                     sent: seq<Notice>, b: Ref, q: Ref, pos: int, at: int, asker: Option<View>)
    requires Trees(s, c) && CanMove(s, c, root, b, q) && AllValid(s, root, shown0)
    requires Followed(shown0, MovePlan(s, c, shown0, b, q, pos, asker), shown, sent, shown0.Keys)
    ensures AllValid(Moved(s, c, b, q, at), root, shown) <==> !AskerMisses(shown0, asker, b, q)
  {
    MovedRewired(s, c, root, b, q, at);
    var t, plan := Moved(s, c, b, q, at), MovePlan(s, c, shown0, b, q, pos, asker);
    forall v | v in shown
      ensures v in shown0 && (ValidOverlay(t, root, shown[v]) <==> !MissesArrival(shown0[v], b, q, asker == Some(v)))
    {
      assert FollowedAt(shown0, plan, shown, sent, shown0.Keys, v);
      MoveSeenValid(s, t, c, root, shown0[v], b, q, asker == Some(v));
    }
    if AskerMisses(shown0, asker, b, q) {
      assert !ValidOverlay(t, root, shown[asker.value]);
    }
  }

  // ----- insert

  ghost function InsertPlan(s: Store, c: Chains, shown: map<View, Overlay>, n: Ref, id: nat, q: Ref, pos: int, at: int,
                            asker: Option<View>): Plan
    requires q in s && q in c
  {
    map v | v in shown :: Turn(InsertSeen(s, c, shown[v], n, q, at, asker == Some(v)),
                               InsertNotices(s, c, shown[v], id, q, pos, v, asker == Some(v)))
  }

  /** What src/map.c:132-169 leaves: the asking view shows the parent. */
  ghost function Prepared(s: Store, c: Chains, shown: map<View, Overlay>, q: Ref,
                          asker: Option<View>): map<View, Overlay>
    requires q in s && q in c
  {
    map v | v in shown :: PreparedAt(s, c, shown[v], q, asker == Some(v))
  }

  ghost function PreparedAt(s: Store, c: Chains, o: Overlay, q: Ref, mine: bool): Overlay
    requires q in s && q in c
  {
    if mine && q !in o then Expanded(s, o, c[q]) else o
  }

  function NewBranch(id: nat, slot: nat, text: string): Branch {
    Branch(id, slot, None, [], 0, text)
  }

  /** The asking view, if any, is in the case that the code does not handle. */
  predicate AskerLoneChild(s: Store, shown: map<View, Overlay>, asker: Option<View>, q: Ref)
    requires q in s
  {
    asker.Some? && asker.value in shown && AddsLoneChild(s, shown[asker.value], q, true)
  }

  lemma PreparedReady(s: Store, t: Store, c: Chains, d: Chains, root: Ref, shown: map<View, Overlay>, n: Ref,
                      nb: Branch, q: Ref, pos: int, asker: Option<View>, v: View)
    requires Linked(s) && Chained(s, c) && AllValid(s, root, shown) && IsNew(s, n, nb) && q in s && EndsAt(c[q], root)
    requires Hooked(Lone(s, n, nb), t, n, q, pos) && q in d && d[q] == c[q] && v in shown
    ensures ReadyAt(t, d, root, Prepared(s, c, shown, q, asker), n, q, asker, v)
  {
    assert ValidOverlay(s, root, shown[v]);
    var o := PreparedAt(s, c, shown[v], q, asker == Some(v));
    if asker == Some(v) && q !in shown[v] {
      ExpandedValid(s, c, root, shown[v], q);
    }
    LoneValid(s, root, o, n, nb);
    DeepestKnown(s, c, root, o, q);
    if q !in o {
      HiddenHasParent(s, c, root, o, q);
      assert LinkedAt(s, q);
    }
  }

  /** The rest of an insertion, after the asking view has been prepared, makes the whole of it. */
  lemma InsertPlanAt(s: Store, t: Store, c: Chains, d: Chains, root: Ref, shown: map<View, Overlay>, n: Ref, nb: Branch,
                     q: Ref, pos: int, asker: Option<View>, v: View)
    requires Linked(s) && Chained(s, c) && AllValid(s, root, shown) && IsNew(s, n, nb) && q in s && EndsAt(c[q], root)
    requires Hooked(Lone(s, n, nb), t, n, q, pos) && q in d && d[q] == c[q] && v in shown
    ensures
      var mine, at := asker == Some(v), PosIn(t[q].kids, n);
      var turn := SpreadPlan(t, d, Prepared(s, c, shown, q, asker), n, q, pos, asker)[v];
      && turn.seen == InsertSeen(s, c, shown[v], n, q, at, mine)
      && turn.told == if mine then [] else InsertNotices(s, c, shown[v], nb.id, q, pos, v, mine)
  {
    PreparedReady(s, t, c, d, root, shown, n, nb, q, pos, asker, v);
    assert ValidOverlay(s, root, shown[v]);
    DeepestKnown(s, c, root, shown[v], q);
  }

  lemma InsertAllValid(s: Store, t: Store, c: Chains, d: Chains, root: Ref, shown0: map<View, Overlay>,
                       shown: map<View, Overlay>, sent: seq<Notice>, n: Ref, nb: Branch, q: Ref, pos: int,
                       asker: Option<View>)
    requires Linked(s) && Chained(s, c) && AllValid(s, root, shown0) && IsNew(s, n, nb) && q in s && EndsAt(c[q], root)
    requires Hooked(Lone(s, n, nb), t, n, q, pos) && q in d && d[q] == c[q]
    requires
      var shown1 := Prepared(s, c, shown0, q, asker);
      Followed(shown1, SpreadPlan(t, d, shown1, n, q, pos, asker), shown, sent, shown1.Keys)
    ensures AllValid(t, root, shown) <==> !AskerLoneChild(s, shown0, asker, q)
  {
    var shown1, at := Prepared(s, c, shown0, q, asker), PosIn(t[q].kids, n);
    GrownRewired(s, t, n, nb, q, pos);
    forall v | v in shown
      ensures v in shown0 && (ValidOverlay(t, root, shown[v]) <==> !AddsLoneChild(s, shown0[v], q, asker == Some(v)))
    {
      assert FollowedAt(shown1, SpreadPlan(t, d, shown1, n, q, pos, asker), shown, sent, shown1.Keys, v);
      InsertPlanAt(s, t, c, d, root, shown0, n, nb, q, pos, asker, v);
      assert ValidOverlay(s, root, shown0[v]);
      InsertSeenValid(s, t, c, root, shown0[v], n, nb, q, at, asker == Some(v));
    }
    if AskerLoneChild(s, shown0, asker, q) {
      assert !ValidOverlay(t, root, shown[asker.value]);
    }
  }

  lemma InsertFollowed(s: Store, t: Store, c: Chains, d: Chains, root: Ref, shown0: map<View, Overlay>,
                       shown: map<View, Overlay>, prep: seq<Notice>, sent: seq<Notice>, n: Ref, nb: Branch, q: Ref,
                       pos: int, asker: Option<View>)
    requires Linked(s) && Chained(s, c) && AllValid(s, root, shown0) && IsNew(s, n, nb) && q in s && EndsAt(c[q], root)
    requires Hooked(Lone(s, n, nb), t, n, q, pos) && q in d && d[q] == c[q]
    requires
      var shown1 := Prepared(s, c, shown0, q, asker);
      Followed(shown1, SpreadPlan(t, d, shown1, n, q, pos, asker), shown, sent, shown1.Keys)
    requires asker.Some? ==> asker.value in shown0
    requires prep == if asker.Some? then InsertNotices(s, c, shown0[asker.value], nb.id, q, pos, asker.value, true)
              else []
    ensures Followed(shown0, InsertPlan(s, c, shown0, n, nb.id, q, pos, PosIn(t[q].kids, n), asker), shown, prep + sent,
                     shown0.Keys)
  {
    var shown1, at := Prepared(s, c, shown0, q, asker), PosIn(t[q].kids, n);
    var plan := InsertPlan(s, c, shown0, n, nb.id, q, pos, at, asker);
    forall v | v in shown0 ensures FollowedAt(shown0, plan, shown, prep + sent, shown0.Keys, v) {
      assert FollowedAt(shown1, SpreadPlan(t, d, shown1, n, q, pos, asker), shown, sent, shown1.Keys, v);
      InsertFollowedAt(s, t, c, d, root, shown0, shown, prep, sent, n, nb, q, pos, asker, v);
    }
  }

  lemma InsertFollowedAt(s: Store, t: Store, c: Chains, d: Chains, root: Ref, shown0: map<View, Overlay>,
                         shown: map<View, Overlay>, prep: seq<Notice>, sent: seq<Notice>, n: Ref, nb: Branch, q: Ref,
                         pos: int, asker: Option<View>, v: View)
    requires Linked(s) && Chained(s, c) && AllValid(s, root, shown0) && IsNew(s, n, nb) && q in s && EndsAt(c[q], root)
    requires Hooked(Lone(s, n, nb), t, n, q, pos) && q in d && d[q] == c[q] && v in shown0
    requires
      var shown1 := Prepared(s, c, shown0, q, asker);
      FollowedAt(shown1, SpreadPlan(t, d, shown1, n, q, pos, asker), shown, sent, shown1.Keys, v)
    requires asker.Some? ==> asker.value in shown0
    requires prep ==
               if asker.Some? then InsertNotices(s, c, shown0[asker.value], nb.id, q, pos, asker.value, true) else []
    ensures
      var plan := InsertPlan(s, c, shown0, n, nb.id, q, pos, PosIn(t[q].kids, n), asker);
      FollowedAt(shown0, plan, shown, prep + sent, shown0.Keys, v)
  {
    InsertPlanAt(s, t, c, d, root, shown0, n, nb, q, pos, asker, v);
    PreparationSent(s, c, shown0, prep, sent, nb.id, q, pos, asker, v);
  }

  /** What was sent to the asking view before, and to the others after. */
  lemma PreparationSent(s: Store, c: Chains, shown: map<View, Overlay>, prep: seq<Notice>, sent: seq<Notice>, id: nat,
                        q: Ref, pos: int, asker: Option<View>, v: View)
    requires q in s && q in c && (asker.Some? ==> asker.value in shown)
    requires prep ==
               if asker.Some? then InsertNotices(s, c, shown[asker.value], id, q, pos, asker.value, true) else []
    ensures Addressed(prep + sent, v) == (if asker == Some(v) then prep else []) + Addressed(sent, v)
  {
    AddressedConcat(prep, sent, v);
    if asker.Some? {
      AddressedAll(prep, v, asker.value);
    }
  }
}
