/** What a walk along names does to a map, one name after the other. */
module PathSteps {
  import opened Options
  import opened Forest
  import opened Overlay
  import opened HeadFile
  import opened MapSteps
  import opened Texts
  import opened PathNames
  import opened Counting

  function StartOf(index: map<nat, Ref>, root: Ref, id: nat): Option<Ref> {
    if id == 0 then Some(root) else if id in index then Some(index[id]) else None
  }

  /** A generated id that was free does not change where a path starts. */
  lemma StartKept(index: map<nat, Ref>, root: Ref, n: nat, start: nat, r: Ref)
    ensures StartOf(index, root, start).Some? && GeneratedId(n) !in index ==>
              StartOf(index[GeneratedId(n) := r], root, start) == StartOf(index, root, start)
  {
  }

  /** After `i` names, at `at`: nothing is new as long as the names are known, and all that follows is. */
  ghost predicate OnPath(st: MapState, now: MapState, p: Ref, names: seq<string>, i: nat, at: Option<Ref>)
    requires i <= |names|
  {
    var k := Known(st.branches, p, names);
    && Extends(st.branches, now.branches) && IdsGrown(st.index, now.index, now.branchN)
    && (i <= k ==> now == st && at.Some?)
    && (at.Some? <==> IdsFree(st.index, st.branchN, i - k))
    && (at.Some? ==> at.value in now.branches && Reached(now.branches, p, names, k, i, at.value))
    && (k < i && at.Some? ==> now.branches[at.value].kids == [] && now.branchN == st.branchN + i - k)
  }

  /**
   What the insertion of a path from `p` down comes to, of which `k` names are there: nothing new if that is all;
   a branch for each of the others, if the ids that are made for them are free; and then all names lead to the last
   branch exactly if none of the new ones had to be cut.
   */
  ghost predicate PathDone(st: MapState, now: MapState, p: Ref, names: seq<string>, r: Option<Ref>) {
    var k := Known(st.branches, p, names);
    && Extends(st.branches, now.branches)
    && (Path(st.branches, p, names).Some? ==> r == Path(st.branches, p, names) && now == st)
    && (r.Some? <==> IdsFree(st.index, st.branchN, |names| - k))
    && (r.Some? ==> now.branchN == st.branchN + |names| - k)
    && (r.Some? ==> (Path(now.branches, p, names) == r <==> ShortFrom(names, k, |names|)))
  }

  /** From `a` to `b`, one name further down from `q`. */
  ghost predicate WentDown(a: MapState, b: MapState, q: Ref, name: string, r: Option<Ref>) {
    if Child(a.branches, q, name).Some? then
      b == a && r == Child(a.branches, q, name) && r.value in a.branches
    else MadeBelow(a, b, q, name, r)
  }

  /** From `a` to `b`, a new last child of `q`, unless the id that is made for it is taken. */
  ghost predicate MadeBelow(a: MapState, b: MapState, q: Ref, name: string, r: Option<Ref>) {
    && q in a.branches && Inserted(a, b, None, a.branches[q].id, GeneratedId(a.branchN), 999999, name, r)
    && Last(a, b, q, name, r)
  }

  ghost predicate Last(a: MapState, b: MapState, q: Ref, name: string, r: Option<Ref>) {
    if GeneratedId(a.branchN) in a.index then b == a && r.None? else
      && r.Some? && b.index == a.index[GeneratedId(a.branchN) := r.value] && b.branchN == a.branchN + 1
      && Appended(a.branches, b.branches, q, r.value) && b.branches[r.value].text == Sliced(name)
      && b.branches[r.value].id == GeneratedId(a.branchN)
  }

  /** The states that a walk along names has passed, and the branches where it was then. */
  datatype Trail = Trail(states: seq<MapState>, at: seq<Option<Ref>>)

  ghost predicate TrailAt(p: Ref, names: seq<string>, trail: Trail, j: nat) {
    && j + 1 < |trail.states| == |trail.at| && j < |names| && trail.at[j].Some?
    && Linked(trail.states[j].branches) && p in trail.states[j].branches
    && WentDown(trail.states[j], trail.states[j + 1], trail.at[j].value, names[j], trail.at[j + 1])
  }

  ghost predicate IsTrail(st: MapState, p: Ref, names: seq<string>, trail: Trail) {
    && 0 < |trail.states| == |trail.at| <= |names| + 1 && trail.states[0] == st && trail.at[0] == Some(p)
    && p in st.branches
    && forall j {:trigger TrailAt(p, names, trail, j)} :: 0 <= j < |trail.at| - 1 ==> TrailAt(p, names, trail, j)
  }

  ghost function LastOf(trail: Trail): (MapState, Option<Ref>)
    requires 0 < |trail.states| == |trail.at|
  {
    (trail.states[|trail.states| - 1], trail.at[|trail.at| - 1])
  }

  /** There is such a walk from `st` to `now`, up to the last name or to where the id of a new branch is taken. */
  ghost predicate Walked(st: MapState, now: MapState, p: Ref, names: seq<string>, r: Option<Ref>) {
    exists trail {:trigger IsTrail(st, p, names, trail)} ::
      IsTrail(st, p, names, trail) && LastOf(trail) == (now, r) && (|trail.at| == |names| + 1 || r.None?)
  }

  lemma TrailMore(st: MapState, now: MapState, next: MapState, p: Ref, names: seq<string>, i: nat, q: Ref, name: string,
                  trail0: Trail, trail: Trail, r: Option<Ref>)
    requires IsTrail(st, p, names, trail0) && |trail0.at| == i + 1 && LastOf(trail0) == (now, Some(q))
    requires i < |names| && names[i] == name && Linked(now.branches) && p in now.branches
    requires WentDown(now, next, q, name, r)
    requires trail == Trail(trail0.states + [next], trail0.at + [r])
    ensures IsTrail(st, p, names, trail) && LastOf(trail) == (next, r)
  {
    forall j | 0 <= j < |trail.at| - 1 ensures TrailAt(p, names, trail, j) {
      if j < |trail0.at| - 1 {
        assert TrailAt(p, names, trail0, j);
      }
    }
  }

  lemma {:induction false} TrailOnPath(st: MapState, p: Ref, names: seq<string>, trail: Trail, i: nat)
    requires IsTrail(st, p, names, trail) && i < |trail.at|
    ensures OnPath(st, trail.states[i], p, names, i, trail.at[i])
  {
    if i == 0 {
      OnPathStart(st, p, names);
    } else {
      TrailOnPath(st, p, names, trail, i - 1);
      TrailGoesOn(st, p, names, trail, i - 1);
    }
  }

  lemma TrailGoesOn(st: MapState, p: Ref, names: seq<string>, trail: Trail, j: nat)
    requires IsTrail(st, p, names, trail) && j + 1 < |trail.at| && OnPath(st, trail.states[j], p, names, j, trail.at[j])
    ensures OnPath(st, trail.states[j + 1], p, names, j + 1, trail.at[j + 1])
  {
    assert TrailAt(p, names, trail, j);
    OnPathNext(st, trail.states[j], trail.states[j + 1], p, names, j, trail.at[j].value, trail.at[j + 1]);
  }

  lemma TrailEnd(p: Ref, names: seq<string>, trail: Trail)
    requires 0 < |trail.states| == |trail.at| && IsTrail(trail.states[0], p, names, trail)
    requires |trail.at| == |names| + 1 || LastOf(trail).1.None?
    ensures PathDone(trail.states[0], LastOf(trail).0, p, names, LastOf(trail).1)
  {
    var i := |trail.at| - 1;
    TrailOnPath(trail.states[0], p, names, trail, i);
    OnPathEnd(trail.states[0], LastOf(trail).0, p, names, i, LastOf(trail).1);
  }

  lemma OnPathStart(st: MapState, p: Ref, names: seq<string>)
    requires p in st.branches
    ensures OnPath(st, st, p, names, 0, Some(p))
  {
    ExtendsSelf(st.branches);
    KnownPath(st.branches, p, names, 0);
  }

  lemma RoomBelow(st: MapState, now: MapState, p: Ref, names: seq<string>, i: nat, q: Ref)
    requires i < |names| && OnPath(st, now, p, names, i, Some(q))
    requires Path(st.branches, p, names).None? ==> forall b :: b in st.branches ==> |st.branches[b].kids| + 1 < BIT16
    ensures q in now.branches
    ensures Child(now.branches, q, names[i]).None? ==> |now.branches[q].kids| + 1 < BIT16
  {
    KnownPath(st.branches, p, names, |names|);
    if i < Known(st.branches, p, names) {
      assert ShortFrom(names, Known(st.branches, p, names), i);
      KnownNext(st.branches, p, names, i, q);
    }
  }

  lemma OnPathNext(st: MapState, now: MapState, next: MapState, p: Ref, names: seq<string>, i: nat, q: Ref,
                   r: Option<Ref>)
    requires i < |names| && Linked(now.branches) && p in now.branches && OnPath(st, now, p, names, i, Some(q))
    requires WentDown(now, next, q, names[i], r)
    ensures OnPath(st, next, p, names, i + 1, r)
  {
    var s := st.branches;
    var k := Known(s, p, names);
    KnownPath(s, p, names, i);
    if i < k {
      assert ShortFrom(names, k, i) && ShortFrom(names, k, i + 1);
      KnownNext(s, p, names, i, q);
      KnownPath(s, p, names, i + 1);
    } else {
      NextIsNew(st, now, p, names, i, q);
      OnPathNew(st, now, next, p, names, i, q, r);
    }
  }

  lemma OnPathNew(st: MapState, now: MapState, next: MapState, p: Ref, names: seq<string>, i: nat, q: Ref,
                  r: Option<Ref>)
    requires i < |names| && Linked(now.branches) && p in now.branches && OnPath(st, now, p, names, i, Some(q))
    requires Known(st.branches, p, names) <= i && Last(now, next, q, names[i], r)
    ensures OnPath(st, next, p, names, i + 1, r)
  {
    var k := Known(st.branches, p, names);
    NextIsNew(st, now, p, names, i, q);
    IdsFreeMore(st.index, now.index, st.branchN, i - k);
    ExtendsSelf(now.branches);
    ExtendsMore(st.branches, now.branches, next.branches);
    if r.Some? {
      ReachedMore(now.branches, next.branches, p, names, k, i, q, r.value);
      IdsGrownMore(st.index, now.index, now.branchN, r.value);
    }
  }

  /** Behind the known names nothing is found. */
  lemma NextIsNew(st: MapState, now: MapState, p: Ref, names: seq<string>, i: nat, q: Ref)
    requires i < |names| && OnPath(st, now, p, names, i, Some(q)) && Known(st.branches, p, names) <= i
    ensures Child(now.branches, q, names[i]).None? && now.branchN == st.branchN + i - Known(st.branches, p, names)
  {
    var k := Known(st.branches, p, names);
    if i == k {
      assert ShortFrom(names, k, i);
      KnownNext(st.branches, p, names, i, q);
    }
  }

  lemma OnPathEnd(st: MapState, now: MapState, p: Ref, names: seq<string>, i: nat, r: Option<Ref>)
    requires i <= |names| && (i < |names| ==> r.None?) && OnPath(st, now, p, names, i, r)
    ensures PathDone(st, now, p, names, r)
  {
    var s := st.branches;
    var k := Known(s, p, names);
    KnownPath(s, p, names, |names|);
    if r.Some? {
      ReachedIff(now.branches, p, names, k, r.value);
      assert k == |names| ==> ShortFrom(names, k, |names|);
    } else {
      var j: nat :| j < i - k && !FreeAt(st.index, st.branchN, j);
      assert !IdsFree(st.index, st.branchN, |names| - k);
    }
  }

  lemma AppendDone(a: MapState, b: MapState, root: Ref, q: Ref, name: string, r: Option<Ref>)
    requires Consistent(a.branches, a.chain, root, a.index, a.next) && q in a.branches && |a.branches[q].kids| <= 999999
    requires Inserted(a, b, None, a.branches[q].id, GeneratedId(a.branchN), 999999, name, r)
    ensures MadeBelow(a, b, q, name, r)
  {
    var nb := NewBranch(GeneratedId(a.branchN), a.branchN, Sliced(name));
    assert IndexedAt(a.branches, a.index, q);
    if r.Some? {
      GrownTrees(a.branches, a.chain, a.next, nb, q, 999999);
      GrownAppends(a.branches, b.branches, a.next, nb, q, 999999);
    }
  }
}
