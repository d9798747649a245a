/** The routines of src/view.c and src/vbranch.c that change what the views show. */
module Views {
  import opened Options
  import opened Sequences
  import opened Forest
  import opened Overlay
  import opened Sight
  import opened Reveal
  import opened BranchTree

  /** The list of vbranches at `b` holds one for every view that shows `b`. */
  ghost predicate ListedAt(shown: map<View, Overlay>, viewers: map<Ref, seq<View>>, b: Ref)
    requires b in viewers
  {
    NoDup(viewers[b]) && forall v :: v in viewers[b] <==> v in shown && b in shown[v]
  }

  ghost predicate Listed(shown: map<View, Overlay>, viewers: map<Ref, seq<View>>) {
    forall b {:trigger ListedAt(shown, viewers, b)} :: b in viewers ==> ListedAt(shown, viewers, b)
  }

  /** The lists of branches that a view showed already are as they were. */
  ghost predicate Kept(w: map<Ref, seq<View>>, w': map<Ref, seq<View>>, o: Overlay) {
    w.Keys == w'.Keys && forall x {:trigger w'[x]} :: x in w && x in o ==> w'[x] == w[x]
  }

  lemma KeptMore(w: map<Ref, seq<View>>, w1: map<Ref, seq<View>>, w2: map<Ref, seq<View>>, o: Overlay, e: Overlay)
    requires Kept(w, w1, o) && Kept(w1, w2, e) && o.Keys <= e.Keys
    ensures Kept(w, w2, o)
  {
    forall x | x in w && x in o ensures w2[x] == w[x] {
      assert w1[x] == w[x];
    }
  }

  function Put(o: Overlay, b: Ref, vb: VBranch): Overlay {
    o[b := vb]
  }

  /** The overlay `o` with vbranches for the branches of `l`. */
  function Spread(o: Overlay, l: seq<Ref>, make: Ref -> VBranch): Overlay {
    map x | x in o.Keys + (set k | k in l) :: if x in l then make(x) else o[x]
  }

  lemma SpreadNone(o: Overlay, make: Ref -> VBranch)
    ensures Spread(o, [], make) == o
  {
  }

  lemma SpreadMore(o: Overlay, l: seq<Ref>, k: Ref, make: Ref -> VBranch)
    ensures Spread(o, l + [k], make) == Put(Spread(o, l, make), k, make(k))
    ensures k !in o && k !in l ==> k !in Spread(o, l, make)
  {
  }

  /** The lists of the branches in `l` have got one more vbranch of `v`. */
  function Enlisted(w: map<Ref, seq<View>>, l: seq<Ref>, v: View): map<Ref, seq<View>> {
    map x | x in w :: if x in l then w[x] + [v] else w[x]
  }

  lemma EnlistedMore(w: map<Ref, seq<View>>, l: seq<Ref>, v: View, k: Ref)
    requires k in w && k !in l
    ensures k in Enlisted(w, l, v) && Enlisted(w, l + [k], v) == Enlisted(w, l, v)[k := Enlisted(w, l, v)[k] + [v]]
  {
  }

  /** A view is listed twice where it has got a vbranch for a branch that it showed already. */
  lemma EnlistedListed(shown: map<View, Overlay>, w: map<Ref, seq<View>>, l: seq<Ref>, v: View, o: Overlay)
    requires Listed(shown, w) && v in shown && (forall k :: k in l ==> k in w) && o.Keys == shown[v].Keys + Elements(l)
    ensures Listed(shown[v := o], Enlisted(w, l, v)) <==> forall k :: k in l ==> k !in shown[v]
    ensures (forall k :: k in l ==> k !in shown[v]) ==> Kept(w, Enlisted(w, l, v), shown[v])
  {
    var w', shown' := Enlisted(w, l, v), shown[v := o];
    forall x | x in w ensures ListedAt(shown', w', x) <==> (x in l ==> x !in shown[v]) {
      assert ListedAt(shown, w, x);
      if x in l && x in shown[v] {
        var i :| 0 <= i < |w[x]| && w[x][i] == v;
        assert w'[x][i] == v && w'[x][|w[x]|] == v;
      }
    }
  }

  class Views {
    /** The overlay of every view. */
    var shown: map<View, Overlay>
    /** For every branch its vbranch_list, as the views that the vbranches belong to. */
    var viewers: map<Ref, seq<View>>
    /** The queue of messages to the clients. */
    var out: seq<Notice>

    ghost predicate Valid()
      reads this
    {
      Listed(shown, viewers)
    }

    constructor (branches: set<Ref>)
      ensures Valid() && viewers.Keys == branches && shown == map[] && out == []
    {
      shown, viewers, out := map[], map b | b in branches :: [], [];
      new;
      forall b | b in viewers ensures ListedAt(shown, viewers, b) {
      }
    }

    /** The search loops of src/map.c and view_get_vbranch: is `b` visible in `v`? */
    method Sees(b: Ref, v: View) returns (found: bool)
      requires Valid() && b in viewers
      ensures found <==> v in shown && b in shown[v]
    {
      assert ListedAt(shown, viewers, b);
      var j := 0;
      while j < |viewers[b]|
        invariant 0 <= j <= |viewers[b]| && v !in viewers[b][..j]
      {
        if viewers[b][j] == v {
          return true;
        }
        j := j + 1;
      }
      return false;
    }

    /** vbranch_new and branch_attach_vbranch (src/branch.c:167-191): meant for a branch that is not shown yet. */
    method NewVBranch(v: View, b: Ref, vb: VBranch)
      requires v in shown && b in viewers
      modifies this`shown, this`viewers
      ensures shown == old(shown)[v := Put(old(shown)[v], b, vb)] && viewers == old(viewers)[b := old(viewers)[b] + [v]]
      ensures old(Valid()) ==> (Valid() <==> b !in old(shown)[v])
      ensures b !in old(shown)[v] ==> Kept(old(viewers), viewers, old(shown)[v])
    {
      if Listed(shown, viewers) {
        EnlistedListed(shown, viewers, [b], v, Put(shown[v], b, vb));
        assert Enlisted(viewers, [b], v) == viewers[b := viewers[b] + [v]];
      }
      viewers := viewers[b := viewers[b] + [v]];
      shown := shown[v := Put(shown[v], b, vb)];
    }

    /** src/map.c:66-74 */
    method NewView(v: View, root: Ref)
      requires Valid() && v !in shown && root in viewers
      modifies this`shown, this`viewers
      ensures Valid() && viewers.Keys == old(viewers).Keys && shown == old(shown)[v := map[root := VBranch(None, [])]]
    {
      ghost var s0, w0 := shown, viewers;
      assert ListedAt(s0, w0, root);
      viewers := viewers[root := viewers[root] + [v]];
      shown := shown[v := map[root := VBranch(None, [])]];
      forall x | x in viewers ensures ListedAt(shown, viewers, x) {
        assert ListedAt(s0, w0, x);
      }
    }

    /** src/view.c:52-74: a view that shows nothing yet. */
    method EmptyView(v: View)
      requires Valid() && v !in shown
      modifies this`shown
      ensures Valid() && shown == old(shown)[v := map[]]
    {
      ghost var s0 := shown;
      shown := shown[v := map[]];
      forall x | x in viewers ensures ListedAt(shown, viewers, x) {
        assert ListedAt(s0, viewers, x);
      }
    }

    /** src/branch.c:194-223 */
    method DetachVBranch(v: View, b: Ref)
      requires Valid() && v in shown && b in shown[v] && b in viewers
      modifies this`shown, this`viewers
      ensures Valid() && viewers.Keys == old(viewers).Keys && shown == old(shown)[v := Dropped(old(shown)[v], b)]
    {
      ghost var s0, w0 := shown, viewers;
      WithoutMembers(viewers[b], v);
      viewers := viewers[b := Without(viewers[b], v)];
      shown := shown[v := Dropped(shown[v], b)];
      forall x | x in viewers ensures ListedAt(shown, viewers, x) {
        assert ListedAt(s0, w0, x);
      }
    }

    /** src/view.c:139-144: a view that shows nothing any more is forgotten. */
    method RemoveView(v: View)
      requires Valid() && v in shown && shown[v] == map[]
      modifies this`shown
      ensures Valid() && shown == old(shown) - {v}
    {
      ghost var s0 := shown;
      shown := shown - {v};
      forall x | x in viewers ensures ListedAt(shown, viewers, x) {
        assert ListedAt(s0, viewers, x);
      }
    }

    /** Changes the vbranches of one view without making or removing any. */
    method Rearrange(v: View, o: Overlay)
      requires v in shown && o.Keys == shown[v].Keys
      modifies this`shown
      ensures shown == old(shown)[v := o] && (Valid() <==> old(Valid()))
    {
      ghost var s0 := shown;
      shown := shown[v := o];
      forall x | x in viewers ensures ListedAt(shown, viewers, x) <==> ListedAt(s0, viewers, x) {
      }
    }

    /** New vbranches, made by `make`, for the branches of the list `l`. */
    method MakeVBranches(v: View, l: seq<Ref>, make: Ref -> VBranch)
      requires v in shown && NoDup(l) && (forall k :: k in l ==> k in viewers)
      modifies this`shown, this`viewers
      ensures shown == old(shown)[v := Spread(old(shown)[v], l, make)] && viewers == Enlisted(old(viewers), l, v)
    {
      ghost var o0 := shown[v];
      SpreadNone(o0, make);
      assert shown == shown[v := o0] && viewers == Enlisted(viewers, [], v);
      var i := 0;
      while i < |l|
        invariant 0 <= i <= |l| && shown == old(shown)[v := Spread(o0, l[..i], make)]
        invariant viewers == Enlisted(old(viewers), l[..i], v)
      {
        assert l[..i + 1] == l[..i] + [l[i]];
        MakeNext(v, l[..i], l[i], make, old(shown), old(viewers));
        i := i + 1;
      }
      assert l[..i] == l;
    }

    method MakeNext(v: View, ghost l: seq<Ref>, k: Ref, make: Ref -> VBranch, ghost shown0: map<View, Overlay>,
                    ghost viewers0: map<Ref, seq<View>>)
      requires v in shown0 && shown == shown0[v := Spread(shown0[v], l, make)]
      requires k in viewers0 && k !in l && viewers == Enlisted(viewers0, l, v)
      modifies this`shown, this`viewers
      ensures shown == shown0[v := Spread(shown0[v], l + [k], make)] && viewers == Enlisted(viewers0, l + [k], v)
    {
      SpreadMore(shown0[v], l, k, make);
      EnlistedMore(viewers0, l, v, k);
      NewVBranch(v, k, make(k));
    }

    /** They are as they should be if none of the branches was shown before. */
    method NewVBranches(v: View, l: seq<Ref>, make: Ref -> VBranch)
      requires v in shown && NoDup(l) && (forall k :: k in l ==> k in viewers)
      modifies this`shown, this`viewers
      ensures shown == old(shown)[v := Spread(old(shown)[v], l, make)] && viewers == Enlisted(old(viewers), l, v)
      ensures old(Valid()) ==> (Valid() <==> forall k :: k in l ==> k !in old(shown)[v])
      ensures old(Valid()) && (forall k :: k in l ==> k !in old(shown)[v]) ==>
                Kept(old(viewers), viewers, old(shown)[v])
    {
      ghost var shown0, w := shown, viewers;
      MakeVBranches(v, l, make);
      if Listed(shown0, w) {
        EnlistedListed(shown0, w, l, v, Spread(shown0[v], l, make));
      }
    }

    /** src/view.c:283-316: vbranches for all children of `y`, without a parent for the time being. */
    method NewLevel(s: Store, v: View, y: Ref, b: Ref, prev: seq<Ref>)
      requires Valid() && v in shown && y in s && viewers.Keys == s.Keys && NoDup(s[y].kids)
      requires forall k :: k in s[y].kids ==> k in s && k !in shown[v]
      modifies this`shown, this`viewers
      ensures Valid() && Kept(old(viewers), viewers, old(shown)[v])
      ensures shown == old(shown)[v := Level(s, old(shown)[v], y, b, prev)]
    {
      var make := (x: Ref) => VBranch(None, if x == b then prev else []);
      assert Spread(shown[v], s[y].kids, make) == Level(s, shown[v], y, b, prev);
      NewVBranches(v, s[y].kids, make);
    }

    /** src/view.c:301-304 and 325-328: the vbranches of the list `l` get the parent `p`. */
    method Adopt(v: View, l: seq<Ref>, p: Ref)
      requires Valid() && v in shown && (forall k :: k in l ==> k in shown[v])
      modifies this`shown
      ensures Valid() && shown == old(shown)[v := Adopted(old(shown)[v], l, p)]
    {
      ghost var o0 := shown[v];
      var o := shown[v];
      var j := 0;
      while j < |l|
        invariant 0 <= j <= |l| && o == Adopted(o0, l[..j], p)
      {
        o := o[l[j] := o[l[j]].(parent := Some(p))];
        assert l[..j + 1] == l[..j] + [l[j]];
        j := j + 1;
      }
      assert l[..j] == l;
      Rearrange(v, o);
    }

    /**
     src/view.c:362-381: vbranches for all children of `b`, below the vbranch of `b`.  Where a child is shown
     already, the overlay names its new vbranch, and the list of the child holds both.
     */
    method ShowChildren(s: Store, v: View, b: Ref)
      requires v in shown && b in s && b in shown[v] && viewers.Keys == s.Keys && NoDup(s[b].kids)
      requires forall k :: k in s[b].kids ==> k in s && k != b
      modifies this`shown, this`viewers
      ensures shown == old(shown)[v := KidsShown(s, old(shown)[v], b)]
      ensures viewers == Enlisted(old(viewers), s[b].kids, v)
      ensures old(Valid()) ==> (Valid() <==> forall k :: k in s[b].kids ==> k !in old(shown)[v])
      ensures old(Valid()) && (forall k :: k in s[b].kids ==> k !in old(shown)[v]) ==>
                Kept(old(viewers), viewers, old(shown)[v])
    {
      ghost var o0 := shown[v];
      NewVBranches(v, s[b].kids, x => VBranch(Some(b), []));
      var o := Put(shown[v], b, shown[v][b].(kids := s[b].kids));
      assert o == KidsShown(s, o0, b);
      Rearrange(v, o);
    }

    /** src/view.c:270-341: climbs to the first visible branch and makes the vbranches that are missing on the way. */
    method RevealPath(s: Store, v: View, branch: Ref, ghost c: Chains, ghost root: Ref) returns (found: Ref)
      requires Valid() && v in shown && viewers.Keys == s.Keys
      requires Linked(s) && Chained(s, c) && ValidOverlay(s, root, shown[v]) && branch in s && EndsAt(c[branch], root)
      modifies this`shown, this`viewers
      ensures Valid() && Kept(old(viewers), viewers, old(shown)[v])
      ensures shown == old(shown)[v := Revealed(s, old(shown)[v], c[branch])]
      ensures Deepest(old(shown)[v], c[branch]) == Some(found)
    {
      ghost var o0, l, i := shown[v], c[branch], 0;
      assert ChainedAt(s, c, branch);
      PendingStart(s, o0, l);
      assert shown == shown[v := o0];
      var b, prev := branch, [];
      while true
        invariant Valid() && v in shown && Kept(old(viewers), viewers, o0) && shown == old(shown)[v := shown[v]]
        invariant Pending(s, o0, shown[v], l, i) && b == l[i] && b in s && prev == Loose(s, l, i)
        invariant forall j :: 0 <= j < i ==> l[j] !in o0
        decreases |l| - i
      {
        SeenSame(s, c, root, o0, shown[v], branch, i);
        var seen := Sees(b, v);
        if seen {
          HangPrevious(s, v, branch, b, prev, o0, i, c, root);
          DeepestAt(o0, l, i);
          return b;
        }
        var pb := s[b].parent.value;
        AddLevel(s, v, branch, b, pb, prev, o0, i, c, root);
        prev, b, i := s[pb].kids, pb, i + 1;
      }
    }

    /** src/view.c:281-319: one turn of the loop for a branch that is not visible. */
    method AddLevel(s: Store, v: View, branch: Ref, b: Ref, pb: Ref, prev: seq<Ref>, ghost o0: Overlay, ghost i: nat,
                    ghost c: Chains, ghost root: Ref)
      requires Valid() && v in shown && viewers.Keys == s.Keys
      requires Linked(s) && Chained(s, c) && ValidOverlay(s, root, o0) && branch in s
      requires Pending(s, o0, shown[v], c[branch], i) && i + 1 < |c[branch]| && b == c[branch][i] && b !in o0
      requires pb == c[branch][i + 1] && pb in s && prev == Loose(s, c[branch], i)
      modifies this`shown, this`viewers
      ensures Valid() && Kept(old(viewers), viewers, o0) && v in shown && shown == old(shown)[v := shown[v]]
      ensures Pending(s, o0, shown[v], c[branch], i + 1)
    {
      assert LinkedAt(s, pb);
      forall k | k in s[pb].kids ensures k in s && k !in shown[v] {
        NextHidden(s, c, root, o0, shown[v], branch, i, k);
      }
      forall k | k in prev ensures k in shown[v] {
        LooseKids(s, c, root, o0, shown[v], branch, i, k);
      }
      PendingStep(s, c, root, o0, shown[v], branch, i);
      NewLevel(s, v, pb, b, prev);
      Adopt(v, prev, b);
    }

    /** src/view.c:321-334: the visible branch gets the vbranches that were made last, if any. */
    method HangPrevious(s: Store, v: View, branch: Ref, b: Ref, prev: seq<Ref>, ghost o0: Overlay, ghost i: nat,
                        ghost c: Chains, ghost root: Ref)
      requires Valid() && v in shown && viewers.Keys == s.Keys
      requires Linked(s) && Chained(s, c) && ValidOverlay(s, root, o0) && branch in s && EndsAt(c[branch], root)
      requires Pending(s, o0, shown[v], c[branch], i) && b == c[branch][i] && b in o0 && prev == Loose(s, c[branch], i)
      requires forall j :: 0 <= j < i ==> c[branch][j] !in o0
      modifies this`shown
      ensures Valid() && shown == old(shown)[v := Revealed(s, o0, c[branch])]
    {
      assert ChainedAt(s, c, branch);
      if i > 0 {
        PendingDone(s, c, root, o0, shown[v], branch, i);
      } else {
        PendingNone(s, c, o0, shown[v], branch);
      }
      if prev != [] {
        LooseShown(s, c, root, o0, shown[v], branch, i);
        assert b in shown[v];
        Adopt(v, prev, b);
        Rearrange(v, Put(shown[v], b, shown[v][b].(kids := prev)));
      }
    }

    /**
     src/view.c:253-387: makes a branch visible, and its children if asked to.  Returns the deepest branch on
     the way that was visible before, also when nothing had to be done; null for the root.  Asked for the
     children of a branch that is open, it makes second vbranches for them.
     */
    method ExpandTo(s: Store, v: View, branch: Ref, withChildren: bool, ghost c: Chains, ghost root: Ref)
      returns (found: Option<Ref>)
      requires Valid() && v in shown && viewers.Keys == s.Keys
      requires Linked(s) && Chained(s, c) && ValidOverlay(s, root, shown[v]) && branch in s && EndsAt(c[branch], root)
      modifies this`shown, this`viewers
      ensures viewers.Keys == s.Keys
      ensures Valid() <==> (withChildren ==> Unopened(old(shown)[v], branch))
      ensures (withChildren ==> Unopened(old(shown)[v], branch)) ==> Kept(old(viewers), viewers, old(shown)[v])
      ensures
        var o := old(shown)[v];
        shown == old(shown)[v := if withChildren then Expanded(s, o, c[branch]) else Revealed(s, o, c[branch])]
      ensures found == if s[branch].parent.None? then None else Deepest(old(shown)[v], c[branch])
    {
      ghost var o := shown[v];
      found := RevealTo(s, v, branch, c, root);
      if withChildren {
        ghost var w := viewers;
        RevealedValid(s, c, root, o, branch);
        OpenShown(s, c, root, o, branch);
        assert ChainedAt(s, c, branch);
        ShowBelow(s, v, branch, c);
        if Unopened(o, branch) {
          KeptMore(old(viewers), w, viewers, o, Revealed(s, o, c[branch]));
        }
      }
    }

    /** src/view.c:262-343 */
    method RevealTo(s: Store, v: View, branch: Ref, ghost c: Chains, ghost root: Ref) returns (found: Option<Ref>)
      requires Valid() && v in shown && viewers.Keys == s.Keys
      requires Linked(s) && Chained(s, c) && ValidOverlay(s, root, shown[v]) && branch in s && EndsAt(c[branch], root)
      modifies this`shown, this`viewers
      ensures Valid() && Kept(old(viewers), viewers, old(shown)[v])
      ensures shown == old(shown)[v := Revealed(s, old(shown)[v], c[branch])]
      ensures found == if s[branch].parent.None? then None else Deepest(old(shown)[v], c[branch])
    {
      found := None;
      assert ChainedAt(s, c, branch);
      if s[branch].parent.Some? {
        var b := RevealPath(s, v, branch, c, root);
        found := Some(b);
      } else {
        assert shown == shown[v := Revealed(s, shown[v], c[branch])];
      }
    }

    /** src/view.c:345-382 */
    method ShowBelow(s: Store, v: View, branch: Ref, ghost c: Chains)
      requires Valid() && v in shown && viewers.Keys == s.Keys
      requires Linked(s) && Chained(s, c) && branch in s && branch in shown[v]
      modifies this`shown, this`viewers
      ensures viewers.Keys == s.Keys
      ensures shown == old(shown)[v := if s[branch].kids != [] then KidsShown(s, old(shown)[v], branch)
                else old(shown)[v]]
      ensures Valid() <==> forall k :: k in s[branch].kids ==> k !in old(shown)[v]
      ensures (forall k :: k in s[branch].kids ==> k !in old(shown)[v]) ==> Kept(old(viewers), viewers, old(shown)[v])
    {
      assert shown == shown[v := shown[v]];
      if s[branch].kids != [] {
        assert LinkedAt(s, branch);
        NotOwnKid(s, c, branch);
        var seen := Sees(branch, v);
        if seen {
          ShowChildren(s, v, branch);
        }
      }
    }

    // ----- vbranch_detach and vbranch_add

    /** src/vbranch.c:96-124 */
    method Detach(v: View, b: Ref)
      requires Valid() && v in shown && b in shown[v]
      modifies this`shown
      ensures Valid() && shown == old(shown)[v := VDetached(old(shown)[v], b)]
    {
      var o := shown[v];
      if o[b].parent.Some? && o[b].parent.value in o {
        var p := o[b].parent.value;
        var childs := BranchTree.ListWithout(o[p].kids, b);
        o := o[p := o[p].(kids := childs)];
        o := o[b := o[b].(parent := None)];
      }
      Rearrange(v, o);
    }

    /** src/vbranch.c:59-94: the position is the one that the branch has among the branches `siblings`. */
    method Add(v: View, b: Ref, p: Ref, siblings: seq<Ref>)
      requires Valid() && v in shown && b in shown[v] && p in shown[v] && b != p
      modifies this`shown
      ensures Valid() && shown == old(shown)[v := VAdded(old(shown)[v], b, p, PosIn(siblings, b))]
      ensures p in shown[v] && Placed(old(shown)[v][p].kids, shown[v][p].kids, b, PosIn(siblings, b))
    {
      var o := shown[v];
      ClampPlaced(o[p].kids, b, PosIn(siblings, b));
      o := o[b := o[b].(parent := Some(p))];
      var childs := [b];
      assert InsertedAt([], 0, b) == [b];
      if o[p].kids != [] {
        var pos := BranchTree.FindPos(siblings, b);
        childs := BranchTree.ListWith(o[p].kids, b, Clamp(pos, |o[p].kids|));
      }
      o := o[p := o[p].(kids := childs)];
      Rearrange(v, o);
    }

    /** src/map.c:201-207 and 609-616: a new vbranch for `b` below the vbranch of `p`. */
    method Appear(v: View, b: Ref, p: Ref, siblings: seq<Ref>)
      requires Valid() && v in shown && b in viewers && b !in shown[v] && p in shown[v]
      modifies this`shown, this`viewers
      ensures Valid() && Kept(old(viewers), viewers, old(shown)[v])
      ensures shown == old(shown)[v := Appeared(old(shown)[v], b, p, PosIn(siblings, b))]
    {
      NewVBranch(v, b, VBranch(None, []));
      Add(v, b, p, siblings);
    }

    /** queue_push_right */
    method Push(n: Notice)
      modifies this`out
      ensures out == old(out) + [n]
    {
      out := out + [n];
    }

    // ----- move, seen by one view

    /** The climbing loops of src/map.c: the first visible branch from `x` up. */
    method FindEndpoint(s: Store, v: View, x: Ref, ghost c: Chains) returns (e: Option<Ref>)
      requires Valid() && v in shown && viewers.Keys == s.Keys && Chained(s, c) && x in s
      ensures e == Deepest(shown[v], c[x])
    {
      e := Some(x);
      while e.Some?
        invariant e.Some? ==> e.value in s && Deepest(shown[v], c[x]) == Deepest(shown[v], c[e.value])
        invariant e.None? ==> Deepest(shown[v], c[x]) == None
        decreases if e.Some? then |c[e.value]| else 0
      {
        DeepestStep(s, c, shown[v], e.value);
        assert ChainedAt(s, c, e.value);
        var seen := Sees(e.value, v);
        if seen {
          return;
        }
        e := s[e.value].parent;
      }
    }

    /** Is the destination open: visible, and not folded over existing children?  src/map.c:516-534 */
    method DestVisible(s: Store, v: View, q: Ref) returns (open: bool)
      requires Valid() && v in shown && viewers.Keys == s.Keys && q in s
      ensures open <==> Open(s, shown[v], q)
    {
      var found := Sees(q, v);
      open := found && !(s[q].kids != [] && shown[v][q].kids == []);
    }

    /** src/map.c:537-563 */
    method MoveAlong(s: Store, v: View, b: Ref, q: Ref, pos: int, mine: bool)
      requires Valid() && v in shown && b in s && q in s && b in shown[v] && q in shown[v] && b != q
      requires s[b].parent.Some? && s[b].parent.value in s
      modifies this`shown, this`out
      ensures Valid() && shown == old(shown)[v := VAdded(VDetached(old(shown)[v], b), b, q, Position(s, b))]
      ensures out == old(out) + if mine then [] else [MapMove(v, s[q].id, s[b].id, pos, false)]
    {
      Detach(v, b);
      Add(v, b, q, s[s[b].parent.value].kids);
      if !mine {
        Push(MapMove(v, s[q].id, s[b].id, pos, false));
      }
    }

    /** src/map.c:565-633 */
    method MoveInto(s: Store, v: View, b: Ref, q: Ref, pos: int, ghost c: Chains, ghost root: Ref)
      requires Valid() && v in shown && viewers.Keys == s.Keys
      requires CanMove(s, c, root, b, q) && ValidOverlay(s, root, shown[v]) && b !in shown[v] && Open(s, shown[v], q)
      modifies this`shown, this`viewers, this`out
      ensures Valid() && Kept(old(viewers), viewers, old(shown)[v])
      ensures shown == old(shown)[v := Appeared(old(shown)[v], b, q, Position(s, b))]
      ensures out == old(out) + MoveNotices(s, c, old(shown)[v], b, q, pos, v, false)
    {
      var p := s[b].parent.value;
      ParentEnds(s, c, root, b);
      DeepestKnown(s, c, root, shown[v], p);
      var e := FindEndpoint(s, v, p, c);
      Push(MapCount(v, s[e.value].id, -(s[b].total + 1)));
      Appear(v, b, q, s[p].kids);
      Push(MapInsert(v, s[q].id, pos, s[b].id));
    }

    /** src/map.c:635-695 */
    method MoveOpening(s: Store, v: View, b: Ref, q: Ref, pos: int, mine: bool, ghost c: Chains, ghost root: Ref)
      requires Valid() && v in shown && viewers.Keys == s.Keys
      requires CanMove(s, c, root, b, q) && ValidOverlay(s, root, shown[v]) && b in shown[v] && !Open(s, shown[v], q)
      modifies this`shown, this`viewers, this`out
      ensures Valid() && Kept(old(viewers), viewers, old(shown)[v])
      ensures shown == old(shown)[v := MoveSeen(s, c, old(shown)[v], b, q, mine)]
      ensures out == old(out) + MoveNotices(s, c, old(shown)[v], b, q, pos, v, mine)
    {
      ghost var o := shown[v];
      assert ChainedAt(s, c, q);
      ExpandedValid(s, c, root, o, q);
      DeepestKnown(s, c, root, o, q);
      ClosedHasParent(s, c, root, o, b, q);
      var e := ExpandTo(s, v, q, true, c, root);
      if e.Some? {
        Push(MapInsert(v, s[e.value].id, pos, s[e.value].id));
        MoveAlong(s, v, b, q, pos, mine);
      }
    }

    /** src/map.c:696-780 */
    method MoveUnseen(s: Store, v: View, b: Ref, q: Ref, ghost pos: int, ghost c: Chains, ghost root: Ref)
      requires Valid() && v in shown && viewers.Keys == s.Keys
      requires CanMove(s, c, root, b, q) && ValidOverlay(s, root, shown[v]) && b !in shown[v] && !Open(s, shown[v], q)
      modifies this`out
      ensures out == old(out) + MoveNotices(s, c, shown[v], b, q, pos, v, false)
    {
      var p := s[b].parent.value;
      ParentEnds(s, c, root, b);
      DeepestKnown(s, c, root, shown[v], p);
      DeepestKnown(s, c, root, shown[v], q);
      var from := FindEndpoint(s, v, p, c);
      var to := FindEndpoint(s, v, q, c);
      if from != to {
        Push(MapCount(v, s[from.value].id, -(s[b].total + 1)));
        Push(MapCount(v, s[to.value].id, s[b].total + 1));
      }
    }

    /** src/map.c:499-781, for one view */
    method MoveView(s: Store, v: View, b: Ref, q: Ref, pos: int, mine: bool, ghost c: Chains, ghost root: Ref)
      requires Valid() && v in shown && viewers.Keys == s.Keys
      requires CanMove(s, c, root, b, q) && ValidOverlay(s, root, shown[v])
      modifies this`shown, this`viewers, this`out
      ensures Valid() && Kept(old(viewers), viewers, old(shown)[v])
      ensures shown == old(shown)[v := MoveSeen(s, c, old(shown)[v], b, q, mine)]
      ensures out == old(out) + MoveNotices(s, c, old(shown)[v], b, q, pos, v, mine)
    {
      assert ChainedAt(s, c, q);
      var src := Sees(b, v);
      var dest := DestVisible(s, v, q);
      if src && dest {
        MoveAlong(s, v, b, q, pos, mine);
      } else if !src && dest && !mine {
        MoveInto(s, v, b, q, pos, c, root);
      } else if src && !dest {
        MoveOpening(s, v, b, q, pos, mine, c, root);
      } else if !src && !dest && !mine {
        MoveUnseen(s, v, b, q, pos, c, root);
        assert shown == shown[v := shown[v]];
      } else {
        assert shown == shown[v := shown[v]];
      }
    }

    /** src/map.c:499-781: every view follows the move. */
    method MoveAll(s: Store, b: Ref, q: Ref, pos: int, asker: Option<View>, root: Ref, ghost c: Chains)
      requires Valid() && viewers.Keys == s.Keys && root in s && CanMove(s, c, root, b, q) && AllValid(s, root, shown)
      modifies this`shown, this`viewers, this`out
      ensures Valid() && viewers.Keys == s.Keys && old(out) <= out
      ensures Followed(old(shown), MovePlan(s, c, old(shown), b, q, pos, asker), shown, out[|old(out)|..],
                       old(shown).Keys)
    {
      ghost var shown0, n := shown, |out|;
      ViewsListed(s, root, shown, viewers);
      assert out[n..] == [];
      NothingFollowed(shown0, MovePlan(s, c, shown0, b, q, pos, asker));
      MoveListed(s, b, q, pos, asker, root, c, shown0, n);
    }

    /** The loop over the views that are listed at the root. */
    method MoveListed(s: Store, b: Ref, q: Ref, pos: int, asker: Option<View>, root: Ref, ghost c: Chains,
                      ghost shown0: map<View, Overlay>, ghost n: nat)
      requires Valid() && viewers.Keys == s.Keys && root in s && CanMove(s, c, root, b, q) && AllValid(s, root, shown0)
      requires root in viewers && NoDup(viewers[root]) && Elements(viewers[root]) == shown0.Keys && n <= |out|
      requires Followed(shown0, MovePlan(s, c, shown0, b, q, pos, asker), shown, out[n..], {})
      modifies this`shown, this`viewers, this`out
      ensures Valid() && viewers.Keys == s.Keys && old(out) <= out
      ensures Followed(shown0, MovePlan(s, c, shown0, b, q, pos, asker), shown, out[n..], shown0.Keys)
    {
      ghost var l, done := viewers[root], {};
      Prefixes(l, 0);
      var i := 0;
      while i < |viewers[root]|
        invariant Valid() && viewers.Keys == s.Keys && viewers[root] == l && 0 <= i <= |l| && old(out) <= out
        invariant done == Elements(l[..i])
        invariant Followed(shown0, MovePlan(s, c, shown0, b, q, pos, asker), shown, out[n..], done)
      {
        Prefixes(l, i);
        MoveNext(s, viewers[root][i], b, q, pos, asker, shown0, n, done, c, root);
        done, i := done + {l[i]}, i + 1;
      }
      Prefixes(l, |l|);
      assert done == shown0.Keys;
    }

    method MoveNext(s: Store, v: View, b: Ref, q: Ref, pos: int, asker: Option<View>, ghost shown0: map<View, Overlay>,
                    ghost n: nat, ghost done: set<View>, ghost c: Chains, ghost root: Ref)
      requires Valid() && viewers.Keys == s.Keys && root in s && CanMove(s, c, root, b, q) && AllValid(s, root, shown0)
      requires n <= |out| && v in shown0 && v !in done
      requires Followed(shown0, MovePlan(s, c, shown0, b, q, pos, asker), shown, out[n..], done)
      modifies this`shown, this`viewers, this`out
      ensures Valid() && viewers.Keys == s.Keys && viewers[root] == old(viewers)[root] && old(out) <= out
      ensures Followed(shown0, MovePlan(s, c, shown0, b, q, pos, asker), shown, out[n..], done + {v})
    {
      ghost var sent, plan, shown1, out0 := out[n..], MovePlan(s, c, shown0, b, q, pos, asker), shown, out;
      assert FollowedAt(shown0, plan, shown, sent, done, v) && ValidOverlay(s, root, shown0[v]);
      MoveTold(s, c, shown0[v], b, q, pos, v, asker == Some(v));
      MoveView(s, v, b, q, pos, asker == Some(v), c, root);
      TailAdded(out0, plan[v].told, n);
      FollowNext(shown0, plan, shown1, shown, sent, done, v);
    }

    // ----- delete

    /** src/map.c:822-889, for one view */
    method DeleteView(s: Store, v: View, b: Ref, mine: bool, ghost c: Chains, ghost root: Ref)
      requires Valid() && v in shown && viewers.Keys == s.Keys && Linked(s) && Chained(s, c)
      requires ValidOverlay(s, root, shown[v])
      requires b in s && s[b].parent.Some? && s[b].parent.value in s && EndsAt(c[b], root)
      modifies this`shown, this`out
      ensures Valid() && shown == old(shown)[v := Unhung(old(shown)[v], b)]
      ensures out == old(out) + DeleteNotices(s, c, old(shown)[v], b, v, mine)
    {
      var src := Sees(b, v);
      if src {
        Detach(v, b);
        if !mine {
          Push(MapDelete(v, s[b].id));
        }
      } else {
        assert shown == shown[v := shown[v]];
        if !mine {
          ParentEnds(s, c, root, b);
          DeepestKnown(s, c, root, shown[v], s[b].parent.value);
          var e := FindEndpoint(s, v, s[b].parent.value, c);
          if e.Some? {
            Push(MapCount(v, s[e.value].id, -(s[b].total + 1)));
          }
        }
      }
    }

    /** src/map.c:816-890: every view takes its vbranch of `b` out. */
    method DeleteAll(s: Store, b: Ref, asker: Option<View>, root: Ref, ghost c: Chains)
      requires Valid() && viewers.Keys == s.Keys && root in s && Linked(s) && Chained(s, c) && AllValid(s, root, shown)
      requires b in s && s[b].parent.Some? && s[b].parent.value in s && EndsAt(c[b], root)
      modifies this`shown, this`out
      ensures Valid() && old(out) <= out
      ensures Followed(old(shown), DeletePlan(s, c, old(shown), b, asker), shown, out[|old(out)|..], old(shown).Keys)
    {
      ghost var shown0, n := shown, |out|;
      ViewsListed(s, root, shown, viewers);
      assert out[n..] == [];
      NothingFollowed(shown0, DeletePlan(s, c, shown0, b, asker));
      DeleteListed(s, b, asker, root, c, shown0, n);
    }

    /** The loop over the views that are listed at the root. */
    method DeleteListed(s: Store, b: Ref, asker: Option<View>, root: Ref, ghost c: Chains,
                        ghost shown0: map<View, Overlay>, ghost n: nat)
      requires Valid() && viewers.Keys == s.Keys && root in s && Linked(s) && Chained(s, c) && AllValid(s, root, shown0)
      requires b in s && s[b].parent.Some? && s[b].parent.value in s && EndsAt(c[b], root)
      requires root in viewers && NoDup(viewers[root]) && Elements(viewers[root]) == shown0.Keys && n <= |out|
      requires Followed(shown0, DeletePlan(s, c, shown0, b, asker), shown, out[n..], {})
      modifies this`shown, this`out
      ensures Valid() && old(out) <= out
      ensures Followed(shown0, DeletePlan(s, c, shown0, b, asker), shown, out[n..], shown0.Keys)
    {
      ghost var l, done := viewers[root], {};
      Prefixes(l, 0);
      var i := 0;
      while i < |viewers[root]|
        invariant Valid() && 0 <= i <= |l| && old(out) <= out && done == Elements(l[..i])
        invariant Followed(shown0, DeletePlan(s, c, shown0, b, asker), shown, out[n..], done)
      {
        Prefixes(l, i);
        DeleteNext(s, viewers[root][i], b, asker, shown0, n, done, c, root);
        done, i := done + {l[i]}, i + 1;
      }
      Prefixes(l, |l|);
      assert done == shown0.Keys;
    }

    method DeleteNext(s: Store, v: View, b: Ref, asker: Option<View>, ghost shown0: map<View, Overlay>, ghost n: nat,
                      ghost done: set<View>, ghost c: Chains, ghost root: Ref)
      requires Valid() && viewers.Keys == s.Keys && root in s && Linked(s) && Chained(s, c) && AllValid(s, root, shown0)
      requires b in s && s[b].parent.Some? && s[b].parent.value in s && EndsAt(c[b], root)
      requires n <= |out| && v in shown0 && v !in done
      requires Followed(shown0, DeletePlan(s, c, shown0, b, asker), shown, out[n..], done)
      modifies this`shown, this`out
      ensures Valid() && old(out) <= out
      ensures Followed(shown0, DeletePlan(s, c, shown0, b, asker), shown, out[n..], done + {v})
    {
      ghost var sent, plan, shown1, out0 := out[n..], DeletePlan(s, c, shown0, b, asker), shown, out;
      assert FollowedAt(shown0, plan, shown, sent, done, v) && ValidOverlay(s, root, shown0[v]);
      DeleteView(s, v, b, asker == Some(v), c, root);
      TailAdded(out0, plan[v].told, n);
      FollowNext(shown0, plan, shown1, shown, sent, done, v);
    }

    /** The deleted branch and the vbranches that were attached to it are out of reach. */
    method Forget(b: Ref)
      requires Valid()
      modifies this`shown, this`viewers
      ensures Valid() && viewers == old(viewers) - {b} && shown.Keys == old(shown).Keys
      ensures forall v {:trigger shown[v]} :: v in shown ==> shown[v] == Dropped(old(shown)[v], b)
    {
      ghost var shown0, viewers0 := shown, viewers;
      viewers := viewers - {b};
      shown := map v | v in shown :: Dropped(shown[v], b);
      forall x | x in viewers ensures ListedAt(shown, viewers, x) {
        assert ListedAt(shown0, viewers0, x);
      }
    }

    // ----- insert

    /** src/map.c:132-169: the asking view opens the way to the parent. */
    method InsertPrepare(s: Store, v: View, q: Ref, pos: int, ghost c: Chains, ghost root: Ref)
      requires Valid() && v in shown && viewers.Keys == s.Keys
      requires Linked(s) && Chained(s, c) && ValidOverlay(s, root, shown[v]) && q in s && EndsAt(c[q], root)
      modifies this`shown, this`viewers, this`out
      ensures Valid() && viewers.Keys == s.Keys
      ensures
        var o := old(shown)[v];
        && shown == old(shown)[v := if q in o then o else Expanded(s, o, c[q])]
        && out == old(out) + InsertNotices(s, c, o, 0, q, pos, v, true)
    {
      var found := Sees(q, v);
      if found {
        assert shown == shown[v := shown[v]];
      } else {
        HiddenHasParent(s, c, root, shown[v], q);
        DeepestKnown(s, c, root, shown[v], q);
        var e := ExpandTo(s, v, q, true, c, root);
        if e.Some? {
          Push(MapInsert(v, s[e.value].id, pos, s[e.value].id));
        }
      }
    }

    /** A branch that no view shows yet. */
    method Enroll(n: Ref)
      requires Valid() && n !in viewers && (forall v {:trigger shown[v]} :: v in shown ==> n !in shown[v])
      modifies this`viewers
      ensures Valid() && viewers == old(viewers)[n := []]
    {
      ghost var viewers0 := viewers;
      viewers := viewers[n := []];
      forall x | x in viewers ensures ListedAt(shown, viewers, x) {
        if x != n {
          assert ListedAt(shown, viewers0, x);
        }
      }
    }

    /** src/map.c:192-228: the views that show the parent open, and the asking one, get a vbranch for the branch. */
    method InsertShown(t: Store, n: Ref, q: Ref, pos: int, asker: Option<View>, ghost d: Chains)
      requires Valid() && viewers.Keys == t.Keys && n in t && q in t && q in d && n != q
      requires forall v {:trigger shown[v]} :: v in shown ==> n !in shown[v]
      modifies this`shown, this`viewers, this`out
      ensures Valid() && viewers.Keys == t.Keys && old(out) <= out
      ensures Followed(old(shown), SpreadPlan(t, d, old(shown), n, q, pos, asker), shown, out[|old(out)|..],
                       Takers(old(shown), q, asker))
    {
      ghost var l, shown0, m, plan := viewers[q], shown, |out|, SpreadPlan(t, d, shown, n, q, pos, asker);
      assert ListedAt(shown, viewers, q);
      assert out[m..] == [];
      var i := 0;
      while i < |viewers[q]|
        invariant Valid() && viewers.Keys == t.Keys && viewers[q] == l && 0 <= i <= |l| && old(out) <= out
        invariant Followed(shown0, plan, shown, out[m..], Elements(l[..i]) * Takers(shown0, q, asker))
      {
        InsertNext(t, viewers[q][i], n, q, pos, asker, shown0, m, Elements(l[..i]) * Takers(shown0, q, asker), d);
        Prefixes(l, i);
        assert Elements(l[..i + 1]) * Takers(shown0, q, asker) ==
               Elements(l[..i]) * Takers(shown0, q, asker) + {l[i]} * Takers(shown0, q, asker);
        i := i + 1;
      }
      Prefixes(l, |l|);
      assert Elements(l) * Takers(shown0, q, asker) == Takers(shown0, q, asker);
    }

    method InsertNext(t: Store, v: View, n: Ref, q: Ref, pos: int, asker: Option<View>,
                      ghost shown0: map<View, Overlay>, ghost m: nat, ghost done: set<View>, ghost d: Chains)
      requires Valid() && viewers.Keys == t.Keys && n in t && q in t && q in d && n != q
      requires forall w {:trigger shown0[w]} :: w in shown0 ==> n !in shown0[w]
      requires m <= |out| && v in shown0 && q in shown0[v] && v !in done
      requires Followed(shown0, SpreadPlan(t, d, shown0, n, q, pos, asker), shown, out[m..], done)
      modifies this`shown, this`viewers, this`out
      ensures Valid() && viewers.Keys == t.Keys && viewers[q] == old(viewers)[q] && old(out) <= out
      ensures Followed(shown0, SpreadPlan(t, d, shown0, n, q, pos, asker), shown, out[m..],
                       done + {v} * Takers(shown0, q, asker))
    {
      ghost var sent, plan, shown1, out0 := out[m..], SpreadPlan(t, d, shown0, n, q, pos, asker), shown, out;
      assert FollowedAt(shown0, plan, shown, sent, done, v);
      if asker != Some(v) && shown[v][q].kids == [] {
        assert done + {v} * Takers(shown0, q, asker) == done;
        return;
      }
      assert done + {v} * Takers(shown0, q, asker) == done + {v};
      Appear(v, n, q, t[q].kids);
      if asker != Some(v) {
        Push(MapInsert(v, t[q].id, pos, t[n].id));
      }
      assert out == out0 + plan[v].told;
      TailAdded(out0, plan[v].told, m);
      FollowNext(shown0, plan, shown1, shown, sent, done, v);
    }

    /** src/map.c:231-299: the views in which the new branch stays hidden are told of it. */
    method InsertCounted(t: Store, n: Ref, q: Ref, pos: int, asker: Option<View>, root: Ref, ghost d: Chains,
                         ghost shown0: map<View, Overlay>, ghost m: nat)
      requires Valid() && viewers.Keys == t.Keys && n in t && q in t && root in t && Linked(t) && Chained(t, d)
      requires t[q].kids != []
      requires m <= |out| && InsertReady(t, d, root, shown0, n, q, asker)
      requires Elements(viewers[root]) == shown0.Keys && NoDup(viewers[root])
      requires Followed(shown0, SpreadPlan(t, d, shown0, n, q, pos, asker), shown, out[m..], Takers(shown0, q, asker))
      modifies this`out
      ensures old(out) <= out
      ensures Followed(shown0, SpreadPlan(t, d, shown0, n, q, pos, asker), shown, out[m..], shown0.Keys)
    {
      ghost var l, done := viewers[root], Takers(shown0, q, asker);
      var i := 0;
      Prefixes(l, 0);
      while i < |viewers[root]|
        invariant 0 <= i <= |l| && old(out) <= out && done == Takers(shown0, q, asker) + Elements(l[..i])
        invariant Followed(shown0, SpreadPlan(t, d, shown0, n, q, pos, asker), shown, out[m..], done)
      {
        Prefixes(l, i);
        CountNext(t, viewers[root][i], n, q, pos, asker, d, root, shown0, m, done);
        done, i := done + {l[i]}, i + 1;
      }
      Prefixes(l, |l|);
      assert done == shown0.Keys;
    }

    method CountNext(t: Store, v: View, n: Ref, q: Ref, pos: int, asker: Option<View>, ghost d: Chains, ghost root: Ref,
                     ghost shown0: map<View, Overlay>, ghost m: nat, ghost done: set<View>)
      requires Valid() && viewers.Keys == t.Keys && n in t && q in t && Linked(t) && Chained(t, d) && t[q].kids != []
      requires m <= |out| && InsertReady(t, d, root, shown0, n, q, asker) && v in shown0
      requires Takers(shown0, q, asker) <= done && (v in done ==> v in Takers(shown0, q, asker))
      requires Followed(shown0, SpreadPlan(t, d, shown0, n, q, pos, asker), shown, out[m..], done)
      modifies this`out
      ensures old(out) <= out
      ensures Followed(shown0, SpreadPlan(t, d, shown0, n, q, pos, asker), shown, out[m..], done + {v})
    {
      ghost var sent, plan, out0 := out[m..], SpreadPlan(t, d, shown0, n, q, pos, asker), out;
      assert FollowedAt(shown0, plan, shown, sent, done, v) && ReadyAt(t, d, root, shown0, n, q, asker, v);
      if asker == Some(v) {
        assert done + {v} == done;
        return;
      }
      var found := Sees(q, v);
      var notExpanded := found && t[q].kids != [] && shown[v][q].kids == [];
      TakenOpen(t, d, shown0, shown, n, q, pos, asker, sent, done, v);
      if !found || notExpanded {
        var e := FindEndpoint(t, v, if notExpanded then q else t[q].parent.value, d);
        DeepestStep(t, d, shown[v], q);
        if e.Some? {
          Push(MapCount(v, t[e.value].id, 1));
        }
        TailAdded(out0, plan[v].told, m);
        FollowNext(shown0, plan, shown, shown, sent, done, v);
      } else {
        assert done + {v} == done;
      }
    }
  }

  /** After it has been revealed, a branch shows all of its children or none, as it did before. */
  lemma OpenShown(s: Store, c: Chains, root: Ref, o: Overlay, b: Ref)
    requires Linked(s) && Chained(s, c) && ValidOverlay(s, root, o) && b in s && EndsAt(c[b], root)
    ensures Unopened(o, b) <==> forall k :: k in s[b].kids ==> k !in Revealed(s, o, c[b])
  {
    var e := Revealed(s, o, c[b]);
    assert ChainedAt(s, c, b);
    RevealedValid(s, c, root, o, b);
    assert ShownAt(s, e, b);
    assert b in o ==> e == o && ShownAt(s, o, b);
    forall k | k in s[b].kids ensures k in e <==> e[b].kids != [] {
      SeenTogether(s, root, e, b, k);
    }
    FirstMember(e[b].kids);
    FirstMember(s[b].kids);
  }

  ghost predicate AllValid(s: Store, root: Ref, shown: map<View, Overlay>) {
    forall v {:trigger shown[v]} :: v in shown ==> ValidOverlay(s, root, shown[v])
  }

  /** Every view is listed at the root. */
  lemma ViewsListed(s: Store, root: Ref, shown: map<View, Overlay>, viewers: map<Ref, seq<View>>)
    requires Listed(shown, viewers) && root in viewers && AllValid(s, root, shown)
    ensures NoDup(viewers[root]) && Elements(viewers[root]) == shown.Keys
  {
    assert ListedAt(shown, viewers, root);
    forall v | v in shown ensures v in viewers[root] {
      assert ValidOverlay(s, root, shown[v]);
    }
  }

  // ----- what all views are to show and to be told

  datatype Turn = Turn(seen: Overlay, told: seq<Notice>)

  type Plan = map<View, Turn>

  ghost function MovePlan(s: Store, c: Chains, shown: map<View, Overlay>, b: Ref, q: Ref, pos: int,
                          asker: Option<View>): Plan
    requires b in s && s[b].parent.Some? && s[b].parent.value in s && s[b].parent.value in c && q in s && q in c
  {
    map v | v in shown :: Turn(MoveSeen(s, c, shown[v], b, q, asker == Some(v)),
                               MoveNotices(s, c, shown[v], b, q, pos, v, asker == Some(v)))
  }

  ghost function DeletePlan(s: Store, c: Chains, shown: map<View, Overlay>, b: Ref, asker: Option<View>): Plan
    requires b in s && s[b].parent.Some? && s[b].parent.value in c
  {
    map v | v in shown :: Turn(Unhung(shown[v], b), DeleteNotices(s, c, shown[v], b, v, asker == Some(v)))
  }

  function Unhung(o: Overlay, b: Ref): Overlay {
    if b in o then VDetached(o, b) else o
  }

  function Dropped(o: Overlay, b: Ref): Overlay {
    o - {b}
  }

  lemma HiddenHasParent(s: Store, c: Chains, root: Ref, o: Overlay, q: Ref)
    requires Chained(s, c) && ValidOverlay(s, root, o) && q in s && EndsAt(c[q], root) && q !in o
    ensures s[q].parent.Some?
  {
    assert ChainedAt(s, c, q);
  }

  /** After the asking view has opened the way: what is left to do for the new branch `n` below `q`. */
  ghost function SpreadPlan(t: Store, d: Chains, shown: map<View, Overlay>, n: Ref, q: Ref, pos: int,
                            asker: Option<View>): Plan
    requires n in t && q in t && q in d
  {
    map v | v in shown :: Turn(
      if q in shown[v] && n !in shown[v] && (asker == Some(v) || shown[v][q].kids != [])
          then Appeared(shown[v], n, q, PosIn(t[q].kids, n))
      else shown[v],
      if asker == Some(v) then [] else InsertNotices(t, d, shown[v], t[n].id, q, pos, v, false))
  }

  /** The views that get a vbranch for a new child of `q`. */
  ghost function Takers(shown: map<View, Overlay>, q: Ref, asker: Option<View>): set<View> {
    set v | v in shown && q in shown[v] && (asker == Some(v) || shown[v][q].kids != [])
  }

  ghost predicate ReadyAt(t: Store, d: Chains, root: Ref, shown: map<View, Overlay>, n: Ref, q: Ref,
                          asker: Option<View>, v: View)
    requires v in shown
  {
    && n !in shown[v] && (asker == Some(v) ==> q in shown[v])
    && q in t && q in d && Deepest(shown[v], d[q]).Some? && Deepest(shown[v], d[q]).value in t
    && (q !in shown[v] ==> t[q].parent.Some? && t[q].parent.value in t)
  }

  ghost predicate InsertReady(t: Store, d: Chains, root: Ref, shown: map<View, Overlay>, n: Ref, q: Ref,
                              asker: Option<View>) {
    forall v {:trigger ReadyAt(t, d, root, shown, n, q, asker, v)} :: v in shown ==>
        ReadyAt(t, d, root, shown, n, q, asker, v)
  }

  /** A view that has got the new branch shows its parent open. */
  lemma TakenOpen(t: Store, d: Chains, shown0: map<View, Overlay>, shown: map<View, Overlay>, n: Ref, q: Ref, pos: int,
                  asker: Option<View>, sent: seq<Notice>, done: set<View>, v: View)
    requires n in t && q in t && q in d && v in shown0 && n !in shown0[v]
    requires FollowedAt(shown0, SpreadPlan(t, d, shown0, n, q, pos, asker), shown, sent, done, v)
    requires Takers(shown0, q, asker) <= done && (v in done ==> v in Takers(shown0, q, asker)) && asker != Some(v)
    ensures v in done <==> q in shown[v] && shown[v][q].kids != []
    ensures v !in done ==> shown[v] == shown0[v]
  {
    if v in done {
      InsertedMembers(shown0[v][q].kids, Clamp(PosIn(t[q].kids, n), |shown0[v][q].kids|), n);
    }
  }

  lemma MoveTold(s: Store, c: Chains, o: Overlay, b: Ref, q: Ref, pos: int, v: View, mine: bool)
    requires b in s && s[b].parent.Some? && s[b].parent.value in c && q in s && q in c
    ensures ToView(MoveNotices(s, c, o, b, q, pos, v, mine), v)
  {
  }

  ghost predicate ToView(l: seq<Notice>, v: View) {
    forall i :: 0 <= i < |l| ==> l[i].view == v
  }

  ghost predicate FollowedAt(shown0: map<View, Overlay>, plan: Plan, shown: map<View, Overlay>, sent: seq<Notice>,
                             done: set<View>, v: View)
    requires v in shown0
  {
    && v in shown && v in plan
    && if v in done then shown[v] == plan[v].seen && Addressed(sent, v) == plan[v].told
       else shown[v] == shown0[v] && Addressed(sent, v) == []
  }

  /** The views of `done` have followed the plan; the others are as they were. */
  ghost predicate Followed(shown0: map<View, Overlay>, plan: Plan, shown: map<View, Overlay>, sent: seq<Notice>,
                           done: set<View>) {
    && shown.Keys == shown0.Keys
    && forall v {:trigger FollowedAt(shown0, plan, shown, sent, done, v)} ::
         v in shown0 ==> FollowedAt(shown0, plan, shown, sent, done, v)
  }

  lemma NothingFollowed(shown: map<View, Overlay>, plan: Plan)
    requires shown.Keys <= plan.Keys
    ensures Followed(shown, plan, shown, [], {})
  {
    forall v | v in shown ensures FollowedAt(shown, plan, shown, [], {}, v) {
    }
  }

  lemma FollowNext(shown0: map<View, Overlay>, plan: Plan, shown1: map<View, Overlay>, shown: map<View, Overlay>,
                   sent: seq<Notice>, done: set<View>, v: View)
    requires Followed(shown0, plan, shown1, sent, done) && v in shown0 && v !in done && v in plan
    requires shown == shown1[v := plan[v].seen] && ToView(plan[v].told, v)
    ensures Followed(shown0, plan, shown, sent + plan[v].told, done + {v})
  {
    SentMore(sent, plan[v].told, v);
    forall w | w in shown0 ensures FollowedAt(shown0, plan, shown, sent + plan[v].told, done + {v}, w) {
      assert FollowedAt(shown0, plan, shown1, sent, done, w);
    }
  }

  /** If anything below the root is visible, the root is open. */
  lemma ClosedHasParent(s: Store, c: Chains, root: Ref, o: Overlay, b: Ref, q: Ref)
    requires CanMove(s, c, root, b, q) && ValidOverlay(s, root, o) && b in o && !Open(s, o, q)
    ensures s[q].parent.Some? && Unopened(o, q)
  {
    assert ChainedAt(s, c, q) && ChainedAt(s, c, b);
    VisibleAbove(s, c, root, o, b, root);
  }
}
