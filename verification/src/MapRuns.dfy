/** Whole runs of a map: any sequence of requests, from the empty map on. */
module MapRuns {
  import opened Options
  import opened Forest
  import opened Overlay
  import opened Sight
  import opened HeadFile
  import opened HeadLoader
  import opened BranchTree
  import opened Views
  import opened MapSteps
  import opened Deletion
  import opened Telling
  import opened Counting
  import opened Expansion
  import opened PathNames
  import opened PathSteps
  import opened TreeMap

  datatype Request =
    | InsertRequest(asker: Option<View>, parent: nat, id: nat, pos: int, text: string)
    | MoveRequest(asker: Option<View>, to: nat, from: nat, id: nat, pos: int)
    | DeleteRequest(asker: Option<View>, id: nat)
    | PathRequest(id: nat, names: seq<string>)
    | ViewRequest(view: View)
    | ExpandRequest(view: View, id: nat)
    | UnfoldRequest(view: View, id: nat)
    | CloneRequest(view: View, copy: View)
    | DestroyRequest(view: View)

  /** What a request gives back: a branch or null, or whether a branch was moved. */
  datatype Answer = Found(branch: Option<Ref>) | Moving(ok: bool) | Nothing

  /** One tree with right counters below the root, an index of exactly its branches, a head file that is up to date,
   lists of views that agree with what the views show, and valid overlays in all views. */
  ghost predicate Proper(root: Ref, st: MapState) {
    && Consistent(st.branches, st.chain, root, st.index, st.next)
    && IsImage(st.file, st.branches) && st.branchN == |st.file|
    && Listed(st.shown, st.viewers) && st.viewers.Keys == st.branches.Keys
    && AllValid(st.branches, root, st.shown)
  }

  predicate HasAsker(shown: map<View, Overlay>, asker: Option<View>) {
    asker.Some? ==> asker.value in shown
  }

  /**
   The request comes from a view that exists, leaves room in the child lists, and is not one of those that
   the code is known to get wrong: an insertion below an unopened branch with children and a move of a hidden
   branch to an open one, both for the asking view, the deletion of a branch with several children, and the
   expansion of an open branch.
   */
  ghost predicate Admissible(root: Ref, st: MapState, r: Request)
    requires Proper(root, st)
  {
    var s := st.branches;
    match r
    case InsertRequest(asker, parent, id, _, _) =>
      && HasAsker(st.shown, asker) && id != 0
      && (parent in st.index ==> |s[st.index[parent]].kids| + 1 < BIT16)
      && (parent in st.index && id !in st.index ==> !AskerLoneChild(s, st.shown, asker, st.index[parent]))
    case MoveRequest(asker, to, from, id, _) =>
      && HasAsker(st.shown, asker)
      && (Movable(s, st.chain, st.index, to, from, id) ==>
            && |Rejoined(s, st.index[id], st.index[to])| + 1 < BIT16
            && !AskerMisses(st.shown, asker, st.index[id], st.index[to]))
    case DeleteRequest(_, id) =>
      id in st.index && st.index[id] != root ==>
        |s[st.index[id]].kids| <= 1 && |s[root].kids| + |s[st.index[id]].kids| < BIT16
    case PathRequest(_, _) => forall b :: b in s ==> |s[b].kids| + 1 < BIT16
    case ViewRequest(v) => v !in st.shown
    case ExpandRequest(v, id) => v in st.shown && (id in st.index ==> Unopened(st.shown[v], st.index[id]))
    case UnfoldRequest(v, _) => v in st.shown
    case CloneRequest(v, w) => v in st.shown && w !in st.shown
    case DestroyRequest(v) => v in st.shown
  }

  // ----- what each request does

  ghost predicate WasDeleted(root: Ref, a: MapState, z: MapState, asker: Option<View>, id: nat) {
    if id !in a.index || a.index[id] == root then z == a else
      exists trail {:trigger WhollyDeleted(a, trail, z, a.index[id], root, asker)} ::
        WhollyDeleted(a, trail, z, a.index[id], root, asker)
  }

  ghost predicate WasExpanded(root: Ref, a: MapState, z: MapState, v: View, id: nat) {
    if id !in a.index then z == a else
      && v in a.shown && a.index[id] in a.chain
      && z == a.(shown := a.shown[v := Expanded(a.branches, a.shown[v], a.chain[a.index[id]])], viewers := z.viewers,
                 out := a.out + ExpandNotices(a.branches, a.chain, root, a.shown[v], v, a.index[id]))
      && a.index[id] in a.branches && v in z.shown
      && ExpandLaws(a.branches, a.chain, root, a.shown[v], z.shown[v], z.out[|a.out|..], v, a.index[id])
  }

  ghost predicate WasUnfolded(a: MapState, z: MapState, v: View, id: nat) {
    && v in a.shown
    && if id !in a.index || a.index[id] !in a.shown[v] || Full(a.branches, a.shown[v], a.index[id]) then z == a else
         var b := a.index[id];
         && b in a.chain && v in z.shown
         && z == a.(shown := a.shown[v := z.shown[v]], viewers := z.viewers, out := a.out + [MapInsert(v, id, 0, id)])
         && z.shown[v].Keys == a.shown[v].Keys + Within(a.chain, b, 1)
         && Widened(a.branches, a.shown[v], z.shown[v]) && Full(a.branches, z.shown[v], b)
         && Told(a.branches, a.branches, a.chain, a.shown[v], z.shown[v], [MapInsert(v, id, 0, id)], v, {})
  }

  /** One request takes a map with this root from `a` to `z`. */
  ghost predicate Stepped(root: Ref, a: MapState, r: Request, answer: Answer, z: MapState) {
    match r
    case InsertRequest(asker, parent, id, pos, text) =>
      answer.Found? && Inserted(a, z, asker, parent, id, pos, text, answer.branch)
    case MoveRequest(asker, to, from, id, pos) => answer.Moving? && WasMoved(a, z, asker, to, from, id, pos, answer.ok)
    case DeleteRequest(asker, id) => answer == Nothing && WasDeleted(root, a, z, asker, id)
    case PathRequest(id, names) =>
      && answer.Found?
      && var p := StartOf(a.index, root, id);
      if p.None? then z == a && answer.branch == None
      else PathDone(a, z, p.value, names, answer.branch) && Walked(a, z, p.value, names, answer.branch)
    case ViewRequest(v) =>
      answer == Nothing && z == a.(shown := a.shown[v := map[root := VBranch(None, [])]], viewers := z.viewers)
    case ExpandRequest(v, id) => answer == Nothing && WasExpanded(root, a, z, v, id)
    case UnfoldRequest(v, id) => answer == Nothing && WasUnfolded(a, z, v, id)
    case CloneRequest(v, w) =>
      && answer == Nothing && v in a.shown
      && z == a.(shown := a.shown[w := a.shown[v]], viewers := z.viewers)
    case DestroyRequest(v) => answer == Nothing && z == a.(shown := a.shown - {v}, viewers := z.viewers)
  }

  method Perform(m: TreeMap, r: Request) returns (answer: Answer)
    requires m.Valid() && Admissible(m.root, m.State(), r)
    modifies m, m.tree, m.heads, m.sights
    ensures m.Valid() && Proper(m.root, m.State()) && Stepped(m.root, old(m.State()), r, answer, m.State())
  {
    answer := Nothing;
    match r {
      case InsertRequest(asker, parent, id, pos, text) =>
        var b := m.Insert(asker, parent, id, pos, text);
        answer := Found(b);
      case MoveRequest(asker, to, from, id, pos) =>
        var ok := m.Move(asker, to, from, id, pos);
        answer := Moving(ok);
      case DeleteRequest(asker, id) =>
        PerformDelete(m, asker, id);
      case PathRequest(id, names) =>
        var b := m.InsertPath(id, names);
        answer := Found(b);
      case ViewRequest(v) =>
        m.CreateView(v);
      case ExpandRequest(v, id) =>
        PerformExpand(m, v, id);
      case UnfoldRequest(v, id) =>
        PerformUnfold(m, v, id);
      case CloneRequest(v, w) =>
        m.CloneView(v, w);
      case DestroyRequest(v) =>
        m.DestroyView(v);
    }
  }

  method PerformExpand(m: TreeMap, v: View, id: nat)
    requires m.Valid() && Admissible(m.root, m.State(), ExpandRequest(v, id))
    modifies m.sights
    ensures m.Valid() && WasExpanded(m.root, old(m.State()), m.State(), v, id)
  {
    m.ExpandTo(v, id);
  }

  method PerformUnfold(m: TreeMap, v: View, id: nat)
    requires m.Valid() && v in m.sights.shown
    modifies m.sights
    ensures m.Valid() && WasUnfolded(old(m.State()), m.State(), v, id)
  {
    assert ValidOverlay(m.tree.branches, m.root, m.sights.shown[v]);
    ValidIsPartial(m.tree.branches, m.root, m.sights.shown[v]);
    m.Unfold(v, id);
  }

  method PerformDelete(m: TreeMap, asker: Option<View>, id: nat)
    requires m.Valid() && Admissible(m.root, m.State(), DeleteRequest(asker, id))
    modifies m, m.tree, m.heads, m.sights
    ensures m.Valid() && WasDeleted(m.root, old(m.State()), m.State(), asker, id)
  {
    if id in m.index {
      OnlyRootParent(m.tree.branches, m.tree.chain, m.root, m.index[id]);
    }
    ghost var trail := m.Delete(asker, id);
  }

  method IsAdmissible(m: TreeMap, r: Request) returns (yes: bool)
    requires m.Valid()
    ensures yes <==> Admissible(m.root, m.State(), r)
  {
    var s := m.tree.branches;
    match r {
      case InsertRequest(asker, parent, id, _, _) =>
        yes := && HasAsker(m.sights.shown, asker) && id != 0
               && (parent in m.index ==> |s[m.index[parent]].kids| + 1 < BIT16)
               && (parent in m.index && id !in m.index ==> !AskerLoneChild(s, m.sights.shown, asker, m.index[parent]));
      case MoveRequest(asker, to, from, id, _) =>
        var movable := m.IsMovable(to, from, id);
        yes := && HasAsker(m.sights.shown, asker)
               && (movable ==>
                     && |Rejoined(s, m.index[id], m.index[to])| + 1 < BIT16
                     && !AskerMisses(m.sights.shown, asker, m.index[id], m.index[to]));
      case DeleteRequest(_, id) =>
        yes := id in m.index && m.index[id] != m.root ==>
                 |s[m.index[id]].kids| <= 1 && |s[m.root].kids| + |s[m.index[id]].kids| < BIT16;
      case PathRequest(_, _) =>
        yes := forall b :: b in s ==> |s[b].kids| + 1 < BIT16;
      case ViewRequest(v) =>
        yes := v !in m.sights.shown;
      case ExpandRequest(v, id) =>
        yes := v in m.sights.shown && (id in m.index ==> Unopened(m.sights.shown[v], m.index[id]));
      case UnfoldRequest(v, _) =>
        yes := v in m.sights.shown;
      case CloneRequest(v, w) =>
        yes := v in m.sights.shown && w !in m.sights.shown;
      case DestroyRequest(v) =>
        yes := v in m.sights.shown;
    }
  }

  // ----- runs

  ghost predicate RanAt(root: Ref, trace: seq<MapState>, rs: seq<Request>, answers: seq<Answer>, i: nat) {
    && i + 1 < |trace| && i < |rs| && i < |answers|
    && Proper(root, trace[i]) && Admissible(root, trace[i], rs[i])
    && Stepped(root, trace[i], rs[i], answers[i], trace[i + 1])
  }

  /** The requests have been performed one after the other, as many as there are answers. */
  ghost predicate Ran(root: Ref, trace: seq<MapState>, rs: seq<Request>, answers: seq<Answer>) {
    && |trace| == |answers| + 1 && |answers| <= |rs|
    && forall i {:trigger RanAt(root, trace, rs, answers, i)} :: 0 <= i < |answers| ==>
         RanAt(root, trace, rs, answers, i)
  }

  lemma RanMore(root: Ref, trace: seq<MapState>, rs: seq<Request>, answers: seq<Answer>, a: MapState, r: Request,
                answer: Answer, z: MapState)
    requires Ran(root, trace, rs, answers) && |answers| < |rs| && rs[|answers|] == r && trace[|answers|] == a
    requires Proper(root, a) && Admissible(root, a, r) && Stepped(root, a, r, answer, z)
    ensures Ran(root, trace + [z], rs, answers + [answer])
  {
    forall i | 0 <= i < |answers| + 1 ensures RanAt(root, trace + [z], rs, answers + [answer], i) {
      if i < |answers| {
        assert RanAt(root, trace, rs, answers, i);
      }
    }
  }

  /**
   A run of requests, up to the first that is not admissible.  `trace` holds the states between the requests: each
   request does what it should, and each state is proper.
   */
  method Run(m: TreeMap, rs: seq<Request>) returns (answers: seq<Answer>, ghost trace: seq<MapState>)
    requires m.Valid()
    modifies m, m.tree, m.heads, m.sights
    ensures m.Valid() && Ran(m.root, trace, rs, answers)
    ensures trace[0] == old(m.State()) && trace[|answers|] == m.State() && Proper(m.root, m.State())
    ensures |answers| < |rs| ==> !Admissible(m.root, m.State(), rs[|answers|])
  {
    answers, trace := [], [m.State()];
    while |answers| < |rs|
      invariant m.Valid() && Ran(m.root, trace, rs, answers) && Proper(m.root, m.State())
      invariant trace[0] == old(m.State()) && trace[|answers|] == m.State()
      decreases |rs| - |answers|
    {
      var r := rs[|answers|];
      var yes := IsAdmissible(m, r);
      if !yes {
        return;
      }
      ghost var a := m.State();
      var answer := Perform(m, r);
      RanMore(m.root, trace, rs, answers, a, r, answer, m.State());
      answers, trace := answers + [answer], trace + [m.State()];
    }
  }

  /**
   After any run from the empty map the file that was patched step by step is the file that a full walk
   writes, and reading it gives the tree of the map with its counters.
   */
  method Life(rs: seq<Request>, junk: Ref, text: nat -> string)
    returns (m: TreeMap, answers: seq<Answer>, patched: seq<Head>, walked: seq<Head>, copy: BranchTree, top: Ref,
             ghost trace: seq<MapState>)
    ensures m.Valid() && patched == walked == m.heads.file
    ensures Ran(m.root, trace, rs, answers) && trace[|answers|] == m.State()
    ensures trace[0].shown == map[] && trace[0].index == map[1 := m.root]
    ensures trace[0].branches == map[m.root := Branch(1, 0, None, [], 0, "My map")]
    ensures |answers| < |rs| ==> !Admissible(m.root, m.State(), rs[|answers|])
    ensures copy.Valid() && top == m.tree.branches[m.root].slot && Restored(m.tree.branches, copy.branches, text)
  {
    m := new TreeMap();
    answers, trace := Run(m, rs);
    patched := m.heads.file;
    walked, copy, top := SaveAndLoad(m, junk, text);
  }

  method SaveAndLoad(m: TreeMap, junk: Ref, text: nat -> string)
    returns (walked: seq<Head>, copy: BranchTree, top: Ref)
    requires m.Valid()
    modifies m.heads
    ensures m.Valid() && m.State() == old(m.State()) && walked == m.heads.file
    ensures copy.Valid() && top == m.tree.branches[m.root].slot && Restored(m.tree.branches, copy.branches, text)
  {
    m.Resave();
    walked := m.heads.file;
    var ok, ids;
    ok, copy, ids, top := m.Reload(junk, text);
  }

  /** Inserting a path again inserts nothing and leads to the same branch. */
  method InsertPathTwice(m: TreeMap, id: nat, names: seq<string>) returns (r: Option<Ref>, again: Option<Ref>,
      ghost between: MapState)
    requires m.Valid() && Short(names) && forall b :: b in m.tree.branches ==> |m.tree.branches[b].kids| + 1 < BIT16
    modifies m, m.tree, m.heads, m.sights
    ensures m.Valid() && (r.Some? ==> again == r && m.State() == between)
  {
    ghost var s, p := m.tree.branches, m.PathStart(id);
    r := m.InsertPath(id, names);
    between := m.State();
    again := r;
    if r.Some? {
      AllShort(names, PathNames.Known(s, p.value, names));
      assert m.PathStart(id) == p && Path(m.tree.branches, p.value, names) == r;
      again := m.InsertPath(id, names);
    }
  }
}
