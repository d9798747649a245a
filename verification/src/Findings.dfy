/**
 Short runs from the empty map after which an invariant no longer holds, or a promise is not kept.  For each the
 contract of the last call, or a lemma, says exactly when that happens.
 */
module Findings {
  import opened Options
  import opened Sequences
  import opened Forest
  import opened Overlay
  import opened Sight
  import opened HeadFile
  import opened HeadLoader
  import opened Expansion
  import opened Views
  import opened MapSteps
  import opened Deletion
  import opened Counting
  import opened Ordering
  import opened Texts
  import opened PathNames
  import opened PathSteps
  import opened TreeMap

  const VIEW: View := 7

  /** The branch `n` has come to below `q`. */
  ghost predicate Planted(s: Store, t: Store, n: Ref, q: Ref) {
    && n !in s && q in s && t.Keys == s.Keys + {n} && t[n].parent == Some(q) && t[n].kids == []
    && |t[q].kids| == |s[q].kids| + 1
    && (forall x {:trigger t[x]} :: x in s && x != q ==> t[x].kids == s[x].kids)
    && (forall x {:trigger t[x]} :: x in s ==> t[x].id == s[x].id && t[x].parent == s[x].parent)
  }

  /** A new branch below one with few children, which all views show closed. */
  method Plant(m: TreeMap, parent: nat, id: nat)
    requires m.Valid() && parent in m.index && id !in m.index && id != 0
    requires |m.tree.branches[m.index[parent]].kids| < 10
    requires forall v :: v in m.sights.shown ==>
               m.index[parent] in m.sights.shown[v] && m.sights.shown[v][m.index[parent]].kids == []
    modifies m, m.tree, m.heads, m.sights
    ensures m.Valid() && m.index == old(m.index)[id := old(m.next)] && m.sights.shown == old(m.sights.shown)
    ensures Planted(old(m.tree.branches), m.tree.branches, old(m.next), old(m.index)[parent])
  {
    ghost var s, c, n, q := m.tree.branches, m.tree.chain, m.next, m.index[parent];
    ghost var shown0: map<View, Overlay>, k := m.sights.shown, |m.sights.out|;
    var r := m.Insert(None, parent, id, 0, "a");
    IsPlanted(s, m.tree.branches, c, n, NewBranch(id, old(m.branchN), Sliced("a")), q);
    SameSights(s, c, shown0, m.sights.shown, m.sights.out[k..], n, id, q);
  }

  lemma IsPlanted(s: Store, t: Store, c: Chains, n: Ref, nb: Branch, q: Ref)
    requires Trees(s, c) && IsNew(s, n, nb) && q in s && n !in c && t == Grown(s, c, n, nb, q, 0)
    ensures Planted(s, t, n, q)
  {
    GrownTrees(s, c, n, nb, q, 0);
  }

  lemma SameSights(s: Store, c: Chains, shown0: map<View, Overlay>, shown: map<View, Overlay>, sent: seq<Notice>,
                   n: Ref, id: nat, q: Ref)
    requires q in s && q in c && forall v :: v in shown0 ==> q in shown0[v] && shown0[v][q].kids == []
    requires Followed(shown0, InsertPlan(s, c, shown0, n, id, q, 0, Clamp(0, |s[q].kids|), None), shown, sent,
                      shown0.Keys)
    ensures shown == shown0
  {
    forall v | v in shown0 ensures v in shown && shown[v] == shown0[v] {
      assert FollowedAt(shown0, InsertPlan(s, c, shown0, n, id, q, 0, Clamp(0, |s[q].kids|), None), shown, sent,
                        shown0.Keys, v);
    }
  }

  method Root(view: bool) returns (m: TreeMap)
    ensures m.Valid() && fresh(m) && fresh(m.tree) && fresh(m.heads) && fresh(m.sights)
    ensures 1 in m.index && 2 !in m.index && 3 !in m.index && 4 !in m.index && m.index[1] == m.root
    ensures m.tree.branches[m.root].kids == []
    ensures m.sights.shown == if view then map[VIEW := map[m.root := VBranch(None, [])]] else map[]
  {
    m := new TreeMap();
    if view {
      m.CreateView(VIEW);
    }
  }

  /** A map with one branch below the root, and a view that shows the root alone, if wanted. */
  method OneBranch(view: bool) returns (m: TreeMap)
    ensures m.Valid() && fresh(m) && fresh(m.tree) && fresh(m.heads) && fresh(m.sights)
    ensures 1 in m.index && 2 in m.index && 3 !in m.index && 4 !in m.index && m.index[1] == m.root
    ensures |m.tree.branches[m.root].kids| == 1
    ensures m.tree.branches[m.index[2]].kids == [] && m.tree.branches[m.index[2]].parent == Some(m.root)
    ensures m.sights.shown == if view then map[VIEW := map[m.root := VBranch(None, [])]] else map[]
  {
    m := Root(view);
    ghost var s, n := m.tree.branches, m.next;
    Plant(m, 1, 2);
    OneBelow(s, m.tree.branches, n, m.root);
  }

  lemma OneBelow(s: Store, t: Store, n: Ref, q: Ref)
    requires Planted(s, t, n, q) && s[q].kids == []
    ensures |t[q].kids| == 1 && t[n].kids == [] && t[n].parent == Some(q)
  {
  }

  /** The same with a branch below that one. */
  method TwoBranches() returns (m: TreeMap)
    ensures m.Valid() && fresh(m) && fresh(m.tree) && fresh(m.heads) && fresh(m.sights)
    ensures 1 in m.index && 2 in m.index && 3 in m.index && 4 !in m.index && m.index[1] == m.root
    ensures |m.tree.branches[m.root].kids| == 1
    ensures |m.tree.branches[m.index[2]].kids| == 1 && m.tree.branches[m.index[2]].parent == Some(m.root)
    ensures m.tree.branches[m.index[3]].kids == [] && m.tree.branches[m.index[3]].parent == Some(m.index[2])
    ensures m.sights.shown == map[]
  {
    m := OneBranch(false);
    assert IndexedAt(m.tree.branches, m.index, m.root);
    Plant(m, 2, 3);
  }

  /** Expanding the root of a view that shows nothing else. */
  lemma OnlyRootOpened(s: Store, c: Chains, root: Ref, o: Overlay)
    requires Storable(s, c, root) && o == map[root := VBranch(None, [])] && s[root].kids != []
    ensures
      var e := Expanded(s, o, c[root]);
      && e.Keys == {root} + Elements(s[root].kids) && e[root].kids == s[root].kids
      && ValidOverlay(s, root, o) && EndsAt(c[root], root)
  {
    OnlyRootParent(s, c, root, root);
    assert ChainedAt(s, c, root);
    RootAlone(s, root);
  }

  lemma NotAboveRoot(s: Store, c: Chains, root: Ref, b: Ref)
    requires Storable(s, c, root) && b in s && b != root
    ensures b !in c[root]
  {
    OnlyRootParent(s, c, root, root);
    assert ChainedAt(s, c, root);
  }

  /** src/map.c:145 and 196-206: a view inserts a branch below one that it shows closed. */
  method InsertBelowClosed() returns (m: TreeMap)
    ensures m.Sound() && !m.Valid() && fresh(m.sights) && LacksAtRoot(m)
  {
    m := OneBranch(true);
    InsertLone(m);
  }

  method InsertLone(m: TreeMap)
    requires m.Valid() && m.sights.shown.Keys == {VIEW} && 1 in m.index && m.index[1] == m.root && 3 !in m.index
    requires m.root in m.tree.branches && |m.tree.branches[m.root].kids| == 1
    requires AskerLoneChild(m.tree.branches, m.sights.shown, Some(VIEW), m.root)
    modifies m, m.tree, m.heads, m.sights
    ensures m.Sound() && !m.Valid() && LacksAtRoot(m)
  {
    ghost var st, root := m.State(), m.root;
    var r := m.Insert(Some(VIEW), 1, 3, 0, "b");
    SameViews(st, m.State(), Some(VIEW), 1, 3, 0, "b", r, root);
  }

  lemma SameViews(a: MapState, z: MapState, asker: Option<View>, parent: nat, id: nat, pos: int, text: string,
                  r: Option<Ref>, q: Ref)
    requires Inserted(a, z, asker, parent, id, pos, text, r) && id !in a.index && parent in a.index
    requires a.index[parent] == q
    ensures r.Some? && z.shown.Keys == a.shown.Keys && parent in z.index && z.index[parent] == q
  {
  }

  /** The view lacks at worst some children of the root, and there is no other view. */
  ghost predicate LacksAtRoot(m: TreeMap)
    reads m, m.tree, m.sights
  {
    && m.sights.shown.Keys == {VIEW} && 1 in m.index && m.index[1] == m.root
    && PartialOnly(m.tree.branches, m.root, m.sights.shown[VIEW], m.root)
  }

  /** src/map.c:1240-1241: unfolding the branch merges what is there with what is missing. */
  method UnfoldAfterInsert() returns (m: TreeMap)
    ensures m.Valid()
  {
    m := InsertBelowClosed();
    m.Unfold(VIEW, 1);
  }

  method UnfoldAfterMove() returns (m: TreeMap)
    ensures m.Valid()
  {
    m := MoveFromOutOfSight();
    m.Unfold(VIEW, 1);
  }

  /** src/map.c:565: a view moves a branch that it does not show to one that it shows open. */
  method MoveFromOutOfSight() returns (m: TreeMap)
    ensures m.Sound() && !m.Valid() && fresh(m.sights) && LacksAtRoot(m)
  {
    m := HiddenBranch();
    var ok := m.Move(Some(VIEW), 1, 2, 3, 0);
  }

  method HiddenBranch() returns (m: TreeMap)
    ensures m.Valid() && fresh(m) && fresh(m.tree) && fresh(m.heads) && fresh(m.sights)
    ensures m.sights.shown.Keys == {VIEW} && 1 in m.index && m.index[1] == m.root
    ensures Movable(m.tree.branches, m.tree.chain, m.index, 1, 2, 3)
    ensures |Rejoined(m.tree.branches, m.index[3], m.index[1])| + 1 < BIT16
    ensures AskerMisses(m.sights.shown, Some(VIEW), m.index[3], m.index[1])
  {
    m := TwoBranches();
    OpenRoot(m);
    MovableToRoot(m.tree.branches, m.tree.chain, m.root, m.index, m.next, 2, 3);
  }

  /** A view that shows the root and its children. */
  method OpenRoot(m: TreeMap)
    requires m.Valid() && m.sights.shown == map[] && 1 in m.index && m.index[1] == m.root
    requires m.tree.branches[m.root].kids != []
    modifies m.sights
    ensures m.Valid() && m.sights.shown.Keys == {VIEW} && m.root in m.sights.shown[VIEW]
    ensures m.sights.shown[VIEW].Keys == {m.root} + Elements(m.tree.branches[m.root].kids)
    ensures m.sights.shown[VIEW][m.root].kids != [] && AllOrdered(m.tree.branches, m.sights.shown)
  {
    m.CreateView(VIEW);
    ghost var o := m.sights.shown[VIEW];
    m.ExpandTo(VIEW, 1);
    OnlyRootOpened(m.tree.branches, m.tree.chain, m.root, o);
  }

  lemma MovableToRoot(s: Store, c: Chains, root: Ref, index: map<nat, Ref>, next: Ref, from: nat, id: nat)
    requires Consistent(s, c, root, index, next) && 1 in index && index[1] == root && from in index && id in index
    requires s[index[id]].parent == Some(index[from]) && index[from] != root
    ensures Movable(s, c, index, 1, from, id) && index[id] !in s[root].kids && index[id] != root
    ensures Rejoined(s, index[id], root) == s[root].kids
  {
    OnlyRootParent(s, c, root, index[id]);
    NotAboveRoot(s, c, root, index[id]);
    assert LinkedAt(s, root);
  }

  /** src/vbranch.c:68: a branch changes its place among its siblings, but its vbranch does not. */
  method MoveAmongSiblings() returns (m: TreeMap)
    ensures m.Valid() && !AllOrdered(m.tree.branches, m.sights.shown)
  {
    m := TwoSiblings();
    OpenRoot(m);
    var b := m.index[2];
    var pos := if m.tree.branches[m.root].kids[0] == b then 1 else 0;
    OtherPlace(m.tree.branches, m.tree.chain, m.root, m.index, m.next, m.sights.shown, pos);
    var ok := m.Move(None, 1, 1, 2, pos);
  }

  method TwoSiblings() returns (m: TreeMap)
    ensures m.Valid() && fresh(m) && fresh(m.tree) && fresh(m.heads) && fresh(m.sights) && m.sights.shown == map[]
    ensures 1 in m.index && m.index[1] == m.root && 2 in m.index && |m.tree.branches[m.root].kids| == 2
    ensures m.tree.branches[m.index[2]].parent == Some(m.root)
  {
    m := OneBranch(false);
    Plant(m, 1, 3);
  }

  lemma OtherPlace(s: Store, c: Chains, root: Ref, index: map<nat, Ref>, next: Ref, shown: map<View, Overlay>, pos: int)
    requires Consistent(s, c, root, index, next) && 1 in index && index[1] == root && 2 in index
    requires s[index[2]].parent == Some(root) && |s[root].kids| == 2
    requires pos == if s[root].kids[0] == index[2] then 1 else 0
    requires VIEW in shown && shown[VIEW].Keys == {root} + Elements(s[root].kids)
    ensures Movable(s, c, index, 1, 1, 2) && |Rejoined(s, index[2], root)| == 1
    ensures AnyAstray(s, shown, index[2], root, pos, None)
  {
    var b, l := index[2], s[root].kids;
    assert LinkedAt(s, b) && LinkedAt(s, root);
    OnlyRootParent(s, c, root, b);
    NotAboveRoot(s, c, root, b);
    assert IndexedAt(s, index, root) && IndexedAt(s, index, b);
    PosInBounds(l, b);
    WithoutTakenOut(l, b);
    assert Astray(s, shown[VIEW], b, root, pos, false);
  }

  /** src/map.c:804-807: a branch with two children is deleted. */
  method DeleteWithTwoChildren() returns (m: TreeMap)
    ensures !m.Sound()
  {
    m := BranchWithTwo();
    ghost var trail := m.Delete(None, 2);
  }

  method BranchWithTwo() returns (m: TreeMap)
    ensures m.Valid() && fresh(m) && fresh(m.tree) && fresh(m.heads) && fresh(m.sights)
    ensures 2 in m.index && m.index[2] != m.root && m.tree.branches[m.index[2]].parent.Some?
    ensures |m.tree.branches[m.index[2]].kids| == 2 && |m.tree.branches[m.root].kids| == 1
  {
    m := TwoBranches();
    Plant(m, 2, 4);
  }

  /** src/map.c:1212 and src/view.c:348-382: a branch is expanded that shows its children. */
  method ExpandOpen() returns (m: TreeMap)
    ensures !m.Valid()
  {
    m := OneBranch(false);
    OpenRoot(m);
    m.ExpandTo(VIEW, 1);
  }

  /** src/map.c:177: a path with a name that is cut is inserted, and is not there then. */
  method InsertLongName(names: seq<string>) returns (m: TreeMap, r: Option<Ref>)
    requires |names| == 1 && |names[0]| == 5001
    ensures m.Valid() && r.Some? && Path(m.tree.branches, m.root, names) != r
  {
    m := new TreeMap();
    ghost var s, n := m.tree.branches, m.branchN;
    assert First(s, [], names[0]).None? && PathTo(s, m.root, names, 0) == Some(m.root);
    assert PathTo(s, m.root, names, 1) == Child(s, m.root, names[0]);
    KnownPath(s, m.root, names, 1);
    assert IdsFree(m.index, n, 1) by {
      assert m.index.Keys == {1} && GeneratedId(n) != 1;
    }
    assert !ShortFrom(names, 0, 1);
    r := m.InsertPath(0, names);
  }

  /** src/view.c:329: nothing has to be expanded, and the branch itself is returned. */
  method ExpandVisible() returns (m: TreeMap, b: Ref, found: Option<Ref>, ghost before: Overlay)
    ensures m.Valid() && b in before && b != m.root && found == Some(b) && m.sights.shown == map[VIEW := before]
  {
    m, b := VisibleChild();
    before := m.sights.shown[VIEW];
    found := m.sights.ExpandTo(m.tree.branches, VIEW, b, false, m.tree.chain, m.root);
    assert m.sights.shown == map[VIEW := before];
  }

  method VisibleChild() returns (m: TreeMap, b: Ref)
    ensures m.Valid() && fresh(m) && fresh(m.tree) && fresh(m.heads) && fresh(m.sights)
    ensures m.sights.shown.Keys == {VIEW} && ValidOverlay(m.tree.branches, m.root, m.sights.shown[VIEW])
    ensures
      var s, c, o := m.tree.branches, m.tree.chain, m.sights.shown[VIEW];
      && b in s && s[b].parent.Some? && b in c && b in o && b != m.root && EndsAt(c[b], m.root)
      && Deepest(o, c[b]) == Some(b) && Revealed(s, o, c[b]) == o
  {
    m := OneBranch(false);
    b := m.index[2];
    OpenRoot(m);
    ChildShown(m.tree.branches, m.tree.chain, m.root, m.sights.shown[VIEW], b);
  }

  lemma ChildShown(s: Store, c: Chains, root: Ref, o: Overlay, b: Ref)
    requires Linked(s) && Storable(s, c, root) && b in s && s[b].parent == Some(root) && root in s
    requires o.Keys == {root} + Elements(s[root].kids)
    ensures b in c && b in o && b != root && EndsAt(c[b], root)
    ensures Deepest(o, c[b]) == Some(b) && Revealed(s, o, c[b]) == o
  {
    assert LinkedAt(s, b) && StorableAt(s, c, root, b) && ChainedAt(s, c, b);
    OnlyRootParent(s, c, root, b);
  }

  /** src/map.c:1212-1214: the root is opened, and the view is told nothing. */
  method ExpandClosedRoot() returns (m: TreeMap, ghost told: seq<Notice>)
    ensures m.Valid() && VIEW in m.sights.shown && m.root in m.sights.shown[VIEW]
    ensures m.sights.shown[VIEW][m.root].kids != [] && told == []
  {
    m := OneBranch(true);
    ghost var o, out := m.sights.shown[VIEW], m.sights.out;
    m.ExpandTo(VIEW, 1);
    OnlyRootOpened(m.tree.branches, m.tree.chain, m.root, o);
    told := m.sights.out[|out|..];
  }

  /** Something has to be expanded: the branch is hidden, or it is closed over children that are asked for. */
  predicate Needed(s: Store, o: Overlay, b: Ref, withChildren: bool)
    requires b in s
  {
    b !in o || (withChildren && s[b].kids != [] && o[b].kids == [])
  }

  /** What view_expand_to shows and returns, by the contract of `Views.ExpandTo`. */
  ghost function Shown(s: Store, c: Chains, o: Overlay, b: Ref, withChildren: bool): Overlay
    requires b in c
  {
    if withChildren then Expanded(s, o, c[b]) else Revealed(s, o, c[b])
  }

  ghost function Returned(s: Store, c: Chains, o: Overlay, b: Ref): Option<Ref>
    requires b in s && b in c
  {
    if s[b].parent.None? then None else Deepest(o, c[b])
  }

  /** src/view.c:250-252: null is returned if nothing was expanded, and only then, exactly in these cases. */
  lemma AnswerWhen(s: Store, c: Chains, root: Ref, o: Overlay, b: Ref, withChildren: bool)
    requires Storable(s, c, root) && Linked(s) && ValidOverlay(s, root, o) && b in s
    requires (withChildren ==> Unopened(o, b))
    ensures b in c && (Needed(s, o, b, withChildren) <==> Shown(s, c, o, b, withChildren) != o)
    ensures (Returned(s, c, o, b).None? <==> Shown(s, c, o, b, withChildren) == o)
            <==> (b != root <==> Needed(s, o, b, withChildren))
  {
    assert StorableAt(s, c, root, b) && ChainedAt(s, c, b);
    OnlyRootParent(s, c, root, b);
    DeepestKnown(s, c, root, o, b);
    RevealedValid(s, c, root, o, b);
    if b in o && withChildren {
      ExpandedValid(s, c, root, o, b);
    }
  }
}
