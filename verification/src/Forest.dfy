/**
 The branch tree of src/branch.c.

 A `Store` maps branch pointers to the branches they lead to.  A `Chains` map gives for every branch
 the way up: the branch itself, its parent, and so on to a branch without a parent.  That such finite
 ways exist is what makes the links acyclic; the branches below `a` are those whose way passes `a`.
 */
module Forest {
  import opened Options
  import opened Sequences

  type Ref = nat

  /** src/branch.h:32-43, without the list of vbranches: child_list and child_n are one sequence. */
  datatype Branch = Branch(id: nat, slot: nat, parent: Option<Ref>, kids: seq<Ref>, total: int, text: string)

  type Store = map<Ref, Branch>

  type Chains = map<Ref, seq<Ref>>

  /** The parent of `b` lists it, once; its children name it as their parent. */
  ghost predicate LinkedAt(s: Store, b: Ref)
    requires b in s
  {
    && (s[b].parent.Some? ==> s[b].parent.value in s && b in s[s[b].parent.value].kids)
    && (forall k :: k in s[b].kids ==> k in s && s[k].parent == Some(b))
    && NoDup(s[b].kids)
  }

  /** Parent and child links are mutual. */
  ghost predicate Linked(s: Store) {
    forall b {:trigger LinkedAt(s, b)} :: b in s ==> LinkedAt(s, b)
  }

  /** The way up from `b` goes on from its parent. */
  ghost predicate ChainedAt(s: Store, c: Chains, b: Ref)
    requires b in s
  {
    b in c && match s[b].parent
              case None => c[b] == [b]
              case Some(p) => p in s && p in c && c[b] == [b] + c[p]
  }

  ghost predicate Chained(s: Store, c: Chains) {
    c.Keys == s.Keys && forall b {:trigger ChainedAt(s, c, b)} :: b in s ==> ChainedAt(s, c, b)
  }

  /** `a` and everything below it. */
  ghost function Under(c: Chains, a: Ref): set<Ref> {
    set x | x in c && a in c[x]
  }

  ghost predicate CountedAt(s: Store, c: Chains, a: Ref)
    requires a in s
  {
    s[a].total == |Under(c, a)| - 1
  }

  /** total_branch_n is the number of branches properly below. */
  ghost predicate Counted(s: Store, c: Chains) {
    forall a {:trigger CountedAt(s, c, a)} :: a in s ==> CountedAt(s, c, a)
  }

  ghost predicate Trees(s: Store, c: Chains) {
    Linked(s) && Chained(s, c) && Counted(s, c)
  }

  // ----- ways up

  /** Whoever is on the way up from `x` goes the same way from there. */
  lemma {:induction false} Suffix(s: Store, c: Chains, x: Ref, a: Ref)
    requires Chained(s, c) && x in s && a in c[x]
    ensures a in s && |c[a]| <= |c[x]| && c[x][|c[x]| - |c[a]|..] == c[a]
    decreases |c[x]|
  {
    assert ChainedAt(s, c, x);
    if a != x {
      var p := s[x].parent.value;
      Suffix(s, c, p, a);
      assert c[x][|c[x]| - |c[a]|..] == c[p][|c[p]| - |c[a]|..];
    }
  }

  lemma Transitive(s: Store, c: Chains, x: Ref, a: Ref, r: Ref)
    requires Chained(s, c) && x in s && a in c[x] && a in s && r in c[a]
    ensures r in c[x]
  {
    Suffix(s, c, x, a);
    assert r in c[x][|c[x]| - |c[a]|..];
  }

  /** No branch is above its own parent. */
  lemma Acyclic(s: Store, c: Chains, b: Ref)
    requires Chained(s, c) && b in s && s[b].parent.Some?
    ensures s[b].parent.value in c && b !in c[s[b].parent.value]
  {
    var p := s[b].parent.value;
    assert ChainedAt(s, c, b);
    if b in c[p] {
      Suffix(s, c, p, b);
    }
  }

  /** From above `b` one only reaches what is above `b`. */
  lemma AboveIsAbove(s: Store, c: Chains, b: Ref, a: Ref)
    requires Chained(s, c) && b in s && s[b].parent.Some? && s[b].parent.value in c && a in c[s[b].parent.value]
    ensures a in s && b !in c[a] && a in c[b] && a != b
  {
    var p := s[b].parent.value;
    Acyclic(s, c, b);
    assert ChainedAt(s, c, b);
    Suffix(s, c, p, a);
    if b in c[a] {
      Transitive(s, c, p, a, b);
    }
  }

  /** A way up enters `b` through one of its children. */
  lemma {:induction false} EnteredThrough(s: Store, c: Chains, x: Ref, b: Ref)
    requires Linked(s) && Chained(s, c) && x in s && b in c[x] && x != b
    ensures b in s && exists j :: 0 <= j < |s[b].kids| && s[b].kids[j] in c[x]
    decreases |c[x]|
  {
    assert ChainedAt(s, c, x) && LinkedAt(s, x);
    var p := s[x].parent.value;
    if p != b {
      EnteredThrough(s, c, p, b);
    }
  }

  // ----- branch_increase

  /** Adds `n` to the counters of the branches in `up`. */
  ghost function Increased(s: Store, up: seq<Ref>, n: int): Store {
    map x | x in s :: if x in up then s[x].(total := s[x].total + n) else s[x]
  }

  // ----- branch_detach

  function Without<N(==)>(l: seq<N>, x: N): seq<N> {
    if l == [] then [] else if l[0] == x then Without(l[1..], x) else [l[0]] + Without(l[1..], x)
  }

  /** The branch at `b` becomes the root of a tree of its own. */
  ghost function Detached(s: Store, c: Chains, b: Ref): Store
    requires b in s && s[b].parent.Some? && s[b].parent.value in s && s[b].parent.value in c
  {
    var p := s[b].parent.value;
    var up := Increased(s, c[p], -s[b].total - 1);
    up[p := up[p].(kids := Without(s[p].kids, b))][b := up[b].(parent := None)]
  }

  ghost function DetachedChains(c: Chains, b: Ref): Chains
    requires b in c
  {
    map x | x in c :: if b in c[x] && |c[b]| <= |c[x]| && 0 < |c[b]| then c[x][..|c[x]| - |c[b]| + 1] else c[x]
  }

  // ----- branch_add

  function Clamp(pos: int, n: nat): nat {
    if pos < 0 || pos > n then n else pos
  }

  /** `m` is the list `l` with `b` at the index `pos`, or at the end if there is no such index. */
  ghost predicate Placed(l: seq<Ref>, m: seq<Ref>, b: Ref, pos: int) {
    && (0 <= pos <= |l| ==> |m| == |l| + 1 && m[pos] == b && m[..pos] + m[pos + 1..] == l)
    && (pos < 0 || |l| < pos ==> m == l + [b])
  }

  lemma ClampPlaced(l: seq<Ref>, b: Ref, pos: int)
    ensures Placed(l, InsertedAt(l, Clamp(pos, |l|), b), b, pos)
  {
    var m := InsertedAt(l, Clamp(pos, |l|), b);
    if 0 <= pos <= |l| {
      assert m[..pos] == l[..pos] && m[pos + 1..] == l[pos..];
    }
  }

  /** `m` is the list `l` with `b` taken out. */
  ghost predicate TakenOut(l: seq<Ref>, m: seq<Ref>, b: Ref) {
    exists i {:trigger l[i]} :: 0 <= i < |l| && l[i] == b && m == l[..i] + l[i + 1..]
  }

  lemma WithoutTakenOut(l: seq<Ref>, b: Ref)
    requires NoDup(l) && b in l
    ensures TakenOut(l, Without(l, b), b)
  {
    var i :| 0 <= i < |l| && l[i] == b;
    WithoutSplit(l, i);
  }

  lemma {:induction false} WithoutSplit(l: seq<Ref>, i: nat)
    requires NoDup(l) && i < |l|
    ensures Without(l, l[i]) == l[..i] + l[i + 1..]
  {
    if i == 0 {
      WithoutAbsent(l[1..], l[0]);
    } else {
      assert l[1..][i - 1] == l[i];
      assert NoDup(l[1..]);
      WithoutSplit(l[1..], i - 1);
      assert l[..i] + l[i + 1..] == [l[0]] + (l[1..][..i - 1] + l[1..][i..]);
    }
  }

  lemma {:induction false} WithoutAbsent(l: seq<Ref>, x: Ref)
    requires x !in l
    ensures Without(l, x) == l
  {
    if l != [] {
      WithoutAbsent(l[1..], x);
    }
  }

  /** The tree rooted at `b` becomes a child of `p`. */
  ghost function Attached(s: Store, c: Chains, b: Ref, p: Ref, pos: int): Store
    requires b in s && p in s && p in c
  {
    AttachedAlong(s, c[p], b, p, pos)
  }

  ghost function AttachedAlong(s: Store, up: seq<Ref>, b: Ref, p: Ref, pos: int): Store
    requires b in s && p in s
  {
    var t := Increased(s, up, s[b].total + 1);
    t[p := t[p].(kids := InsertedAt(s[p].kids, Clamp(pos, |s[p].kids|), b))][b := s[b].(parent := Some(p))]
  }

  ghost function AttachedChains(c: Chains, b: Ref, p: Ref): Chains
    requires p in c
  {
    map x | x in c :: if b in c[x] then c[x] + c[p] else c[x]
  }

  /** Branches keep their ids, slots and texts. */
  ghost predicate SameNames(s: Store, t: Store) {
    s.Keys == t.Keys && forall x {:trigger t[x]} :: x in s ==>
        t[x].id == s[x].id && t[x].slot == s[x].slot && t[x].text == s[x].text
  }

  /** What detaching does to links and lists. */
  ghost predicate Unhooked(s: Store, t: Store, b: Ref, p: Ref) {
    && SameNames(s, t) && b in s && p in s
    && t[b].parent == None && (forall x {:trigger t[x]} :: x in s && x != b ==> t[x].parent == s[x].parent)
    && t[p].kids == Without(s[p].kids, b) && (forall x {:trigger t[x]} :: x in s && x != p ==> t[x].kids == s[x].kids)
  }

  lemma DetachedShape(s: Store, c: Chains, b: Ref)
    requires b in s && s[b].parent.Some? && s[b].parent.value in s && s[b].parent.value in c && s[b].parent != Some(b)
    ensures Unhooked(s, Detached(s, c, b), b, s[b].parent.value)
    ensures b !in c[s[b].parent.value] ==> Detached(s, c, b)[b].total == s[b].total
  {
  }

  lemma DetachedPlace(s: Store, c: Chains, b: Ref)
    requires Linked(s) && Chained(s, c) && b in s && s[b].parent.Some?
    requires s[b].parent.value in s && s[b].parent.value in c
    ensures
      var t, p := Detached(s, c, b), s[b].parent.value;
      p in t && TakenOut(s[p].kids, t[p].kids, b)
  {
    var p := s[b].parent.value;
    assert LinkedAt(s, b) && LinkedAt(s, p);
    Acyclic(s, c, b);
    assert ChainedAt(s, c, p);
    DetachedShape(s, c, b);
    WithoutTakenOut(s[p].kids, b);
  }

  /** What attaching does to links and lists. */
  ghost predicate Hooked(s: Store, t: Store, b: Ref, p: Ref, pos: int) {
    && SameNames(s, t) && b in s && p in s
    && t[b].parent == Some(p) && (forall x {:trigger t[x]} :: x in s && x != b ==> t[x].parent == s[x].parent)
    && t[p].kids == InsertedAt(s[p].kids, Clamp(pos, |s[p].kids|), b)
    && (forall x {:trigger t[x]} :: x in s && x != p ==> t[x].kids == s[x].kids)
  }

  lemma AttachedShape(s: Store, c: Chains, b: Ref, p: Ref, pos: int)
    requires b in s && p in s && p in c && b != p
    ensures Hooked(s, Attached(s, c, b, p, pos), b, p, pos)
  {
  }

  // ----- both keep the invariants

  lemma {:induction false} WithoutMembers<N>(l: seq<N>, x: N)
    ensures forall y :: y in Without(l, x) <==> y in l && y != x
    ensures NoDup(l) ==> NoDup(Without(l, x))
  {
    if l != [] {
      WithoutMembers(l[1..], x);
      assert forall y :: y in l <==> y == l[0] || y in l[1..];
      assert NoDup(l) ==> NoDup(l[1..]) && l[0] !in l[1..];
    }
  }

  lemma UnhookedLinked(s: Store, t: Store, b: Ref, p: Ref)
    requires Linked(s) && b in s && s[b].parent == Some(p) && p != b && Unhooked(s, t, b, p)
    ensures Linked(t)
  {
    WithoutMembers(s[p].kids, b);
    assert LinkedAt(s, p);
    forall x | x in t ensures LinkedAt(t, x) {
      assert LinkedAt(s, x);
    }
  }

  lemma HookedLinked(s: Store, t: Store, b: Ref, p: Ref, pos: int)
    requires Linked(s) && b in s && s[b].parent.None? && p != b && Hooked(s, t, b, p, pos)
    ensures Linked(t)
  {
    assert LinkedAt(s, p);
    InsertedMembers(s[p].kids, Clamp(pos, |s[p].kids|), b);
    forall x | x in t ensures LinkedAt(t, x) {
      assert LinkedAt(s, x);
    }
  }

  /** The ways up after a detachment: below `b` they end at `b`. */
  lemma UnhookedChained(s: Store, t: Store, c: Chains, b: Ref, p: Ref)
    requires Chained(s, c) && b in s && s[b].parent == Some(p) && Unhooked(s, t, b, p)
    ensures Chained(t, DetachedChains(c, b))
  {
    var d := DetachedChains(c, b);
    assert ChainedAt(s, c, b);
    forall x | x in t ensures ChainedAt(t, d, x) {
      assert ChainedAt(s, c, x);
      if b in c[x] {
        Suffix(s, c, x, b);
        if x != b {
          var q := s[x].parent.value;
          assert b in c[q];
          Suffix(s, c, q, b);
        }
      }
    }
  }

  lemma HookedChained(s: Store, t: Store, c: Chains, b: Ref, p: Ref, pos: int)
    requires Chained(s, c) && b in s && s[b].parent.None? && p in s && b !in c[p] && Hooked(s, t, b, p, pos)
    ensures Chained(t, AttachedChains(c, b, p))
  {
    assert ChainedAt(s, c, p);
    forall x | x in t ensures ChainedAt(t, AttachedChains(c, b, p), x) {
      assert ChainedAt(s, c, b) && ChainedAt(s, c, x);
      if x != b && s[x].parent.Some? {
        AttachedLink(c, b, p, x, s[x].parent.value);
      }
    }
  }

  lemma AttachedLink(c: Chains, b: Ref, p: Ref, x: Ref, y: Ref)
    requires x in c && y in c && p in c && c[x] == [x] + c[y] && x != b
    ensures AttachedChains(c, b, p)[x] == [x] + AttachedChains(c, b, p)[y]
  {
    assert b in c[x] <==> b in c[y];
    assert [x] + c[y] + c[p] == [x] + (c[y] + c[p]);
  }

  /** Detaching takes the branches under `b` away from those above it. */
  lemma DetachedUnder(s: Store, c: Chains, b: Ref, a: Ref)
    requires Linked(s) && Chained(s, c) && b in s && s[b].parent.Some? && a in s
    requires s[b].parent.value in s && s[b].parent.value in c
    ensures Under(DetachedChains(c, b), a) == if a in c[s[b].parent.value] then Under(c, a) - Under(c, b)
              else Under(c, a)
    ensures a in c[s[b].parent.value] ==> Under(c, b) <= Under(c, a)
  {
    var p, d := s[b].parent.value, DetachedChains(c, b);
    assert ChainedAt(s, c, b);
    forall x | x in c ensures a in d[x] <==> a in c[x] && !(a in c[p] && b in c[x]) {
      if b in c[x] {
        Suffix(s, c, x, b);
        var n := |c[x]| - |c[b]|;
        assert c[x] == c[x][..n + 1] + c[p] && c[x][n] == b;
        if a in c[p] && a in c[x][..n + 1] {
          var i :| 0 <= i <= n && c[x][i] == a;
          Meets(s, c, x, i, b, n);
          AboveIsAbove(s, c, b, a);
        }
      }
    }
    if a in c[p] {
      forall x | x in Under(c, b) ensures x in Under(c, a) {
        AboveIsAbove(s, c, b, a);
        Transitive(s, c, x, b, a);
      }
    }
  }

  /** On a way up, whoever comes later is above whoever comes earlier. */
  lemma {:induction false} Meets(s: Store, c: Chains, x: Ref, i: nat, b: Ref, n: nat)
    requires Chained(s, c) && x in s && i <= n < |c[x]| && c[x][n] == b
    ensures c[x][i] in s && b in c[c[x][i]]
    decreases i
  {
    assert ChainedAt(s, c, x);
    if i > 0 {
      Meets(s, c, s[x].parent.value, i - 1, b, n - 1);
    }
  }

  lemma AttachedUnder(s: Store, c: Chains, b: Ref, p: Ref, a: Ref)
    requires Linked(s) && Chained(s, c) && b in s && s[b].parent.None? && p in s && p in c && b !in c[p] && a in s
    ensures Under(AttachedChains(c, b, p), a) == if a in c[p] then Under(c, a) + Under(c, b) else Under(c, a)
    ensures a in c[p] ==> Under(c, a) !! Under(c, b)
  {
    assert ChainedAt(s, c, b);
    if a in c[p] {
      forall x | x in c && b in c[x] ensures a !in c[x] {
        if a in c[x] {
          Suffix(s, c, x, b);
          Suffix(s, c, x, a);
          assert ChainedAt(s, c, a);
          assert c[a][|c[a]| - 1] == c[x][|c[x]| - 1] == b;
          Transitive(s, c, p, a, b);
        }
      }
    }
  }

  lemma DetachedCounted(s: Store, c: Chains, b: Ref)
    requires Trees(s, c) && b in s && s[b].parent.Some? && s[b].parent.value in s && s[b].parent.value in c
    ensures Counted(Detached(s, c, b), DetachedChains(c, b))
  {
    var t, d := Detached(s, c, b), DetachedChains(c, b);
    Acyclic(s, c, b);
    forall a | a in t ensures CountedAt(t, d, a) {
      DetachedUnder(s, c, b, a);
      assert CountedAt(s, c, a) && CountedAt(s, c, b);
    }
  }

  lemma AttachedCounted(s: Store, c: Chains, b: Ref, p: Ref, pos: int)
    requires Trees(s, c) && b in s && s[b].parent.None? && p in s && p in c && b !in c[p]
    ensures Counted(Attached(s, c, b, p, pos), AttachedChains(c, b, p))
  {
    var t, d := Attached(s, c, b, p, pos), AttachedChains(c, b, p);
    forall a | a in t ensures CountedAt(t, d, a) {
      AttachedUnder(s, c, b, p, a);
      assert CountedAt(s, c, a) && CountedAt(s, c, b);
    }
  }

  lemma DetachedTrees(s: Store, c: Chains, b: Ref)
    requires Trees(s, c) && b in s && s[b].parent.Some?
    ensures s[b].parent.value in s && s[b].parent.value in c
    ensures Trees(Detached(s, c, b), DetachedChains(c, b))
  {
    assert LinkedAt(s, b) && ChainedAt(s, c, b);
    var p, t, d := s[b].parent.value, Detached(s, c, b), DetachedChains(c, b);
    Acyclic(s, c, b);
    assert ChainedAt(s, c, p);
    DetachedShape(s, c, b);
    UnhookedLinked(s, t, b, p);
    UnhookedChained(s, t, c, b, p);
    DetachedCounted(s, c, b);
  }

  lemma AttachedTrees(s: Store, c: Chains, b: Ref, p: Ref, pos: int)
    requires Trees(s, c) && b in s && s[b].parent.None? && p in s && p in c && b !in c[p]
    ensures Trees(Attached(s, c, b, p, pos), AttachedChains(c, b, p))
  {
    var t, d := Attached(s, c, b, p, pos), AttachedChains(c, b, p);
    assert ChainedAt(s, c, p);
    AttachedShape(s, c, b, p, pos);
    HookedLinked(s, t, b, p, pos);
    HookedChained(s, t, c, b, p, pos);
    AttachedCounted(s, c, b, p, pos);
  }
}
