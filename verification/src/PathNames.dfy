/** Finding a branch by the texts on the way down to it, as insert_path of src/map.c does. */
module PathNames {
  import opened Options
  import opened Texts
  import opened Forest
  import opened Sight
  import opened HeadFile

  ghost predicate Named(s: Store, k: Ref, name: string) {
    k in s && SameText(name, s[k].text)
  }

  /** The first branch of the list with the given text. */
  ghost function First(s: Store, l: seq<Ref>, name: string): Option<Ref> {
    if l == [] then None else if Named(s, l[0], name) then Some(l[0]) else First(s, l[1..], name)
  }

  ghost function Child(s: Store, p: Ref, name: string): Option<Ref> {
    if p in s then First(s, s[p].kids, name) else None
  }

  /** The branch has that text, but for the case of its letters. */
  ghost predicate Called(s: Store, k: Ref, name: string) {
    && k in s && |s[k].text| == |name|
    && forall i :: 0 <= i < |name| ==> SameLetter(name[i], s[k].text[i])
  }

  /** The earliest branch of the list that is called so, or none if none is. */
  ghost predicate Earliest(s: Store, l: seq<Ref>, name: string, r: Option<Ref>) {
    if r.None? then forall i :: 0 <= i < |l| ==> !Called(s, l[i], name)
    else exists i :: 0 <= i < |l| && l[i] == r.value && Called(s, l[i], name)
                     && forall j :: 0 <= j < i ==> !Called(s, l[j], name)
  }

  lemma {:induction false} FirstIsEarliest(s: Store, l: seq<Ref>, name: string)
    ensures Earliest(s, l, name, First(s, l, name))
  {
    if l != [] {
      FirstIsEarliest(s, l[1..], name);
      if l[0] in s {
        SameTextLetters(name, s[l[0]].text);
      }
      if !Named(s, l[0], name) {
        assert forall i :: 0 < i < |l| ==> l[i] == l[1..][i - 1];
        if First(s, l, name).Some? {
          var i :| 0 <= i < |l| - 1 && l[1..][i] == First(s, l[1..], name).value && Called(s, l[1..][i], name)
                   && forall j :: 0 <= j < i ==> !Called(s, l[1..][j], name);
          assert l[i + 1] == First(s, l, name).value && Called(s, l[i + 1], name);
          assert forall j :: 0 <= j < i + 1 ==> !Called(s, l[j], name);
        }
      }
    }
  }

  lemma ChildIsEarliest(s: Store, p: Ref, name: string)
    requires p in s
    ensures Earliest(s, s[p].kids, name, Child(s, p, name))
  {
    FirstIsEarliest(s, s[p].kids, name);
  }

  /** The branch that is reached by following the first `i` names from `p` down. */
  ghost function PathTo(s: Store, p: Ref, names: seq<string>, i: nat): Option<Ref>
    requires i <= |names|
  {
    if i == 0 then Some(p) else
    var q := PathTo(s, p, names, i - 1);
    if q.None? then None else Child(s, q.value, names[i - 1])
  }

  ghost function Path(s: Store, p: Ref, names: seq<string>): Option<Ref> {
    PathTo(s, p, names, |names|)
  }

  /** How many of the first `i` names lead somewhere. */
  ghost function KnownOf(s: Store, p: Ref, names: seq<string>, i: nat): nat
    requires i <= |names|
  {
    if i == 0 || PathTo(s, p, names, i).Some? then i else KnownOf(s, p, names, i - 1)
  }

  ghost function Known(s: Store, p: Ref, names: seq<string>): nat {
    KnownOf(s, p, names, |names|)
  }

  ghost predicate Short(names: seq<string>) {
    forall i :: 0 <= i < |names| ==> |names[i]| <= 5000
  }

  lemma {:induction false} KnownOfPath(s: Store, p: Ref, names: seq<string>, n: nat, i: nat)
    requires i <= n <= |names|
    ensures KnownOf(s, p, names, n) <= n && (PathTo(s, p, names, i).Some? <==> i <= KnownOf(s, p, names, n))
    decreases n
  {
    if n > 0 && PathTo(s, p, names, n).None? {
      KnownOfPath(s, p, names, n - 1, if i < n then i else n - 1);
    } else {
      PathPrefix(s, p, names, i, n);
    }
  }

  lemma {:induction false} PathPrefix(s: Store, p: Ref, names: seq<string>, i: nat, n: nat)
    requires i <= n <= |names| && PathTo(s, p, names, n).Some?
    ensures PathTo(s, p, names, i).Some?
    decreases n
  {
    if i < n {
      PathPrefix(s, p, names, i, n - 1);
    }
  }

  /** The names lead as far as `Known` says. */
  lemma KnownPath(s: Store, p: Ref, names: seq<string>, i: nat)
    requires i <= |names|
    ensures Known(s, p, names) <= |names| && (PathTo(s, p, names, i).Some? <==> i <= Known(s, p, names))
  {
    KnownOfPath(s, p, names, |names|, i);
  }

  /** Branches are only added, behind those that are there. */
  ghost predicate Extends(s: Store, t: Store) {
    forall x {:trigger t[x]} {:trigger s[x]} :: x in s ==>
      x in t && t[x].text == s[x].text && t[x].id == s[x].id && t[x].parent == s[x].parent && s[x].kids <= t[x].kids
  }

  lemma ExtendsSelf(s: Store)
    ensures Extends(s, s)
  {
  }

  lemma ExtendsMore(s: Store, t: Store, u: Store)
    requires Extends(s, t) && Extends(t, u)
    ensures Extends(s, u)
  {
    forall x | x in s ensures x in u && u[x].text == s[x].text && s[x].kids <= u[x].kids {
      assert t[x].text == s[x].text;
    }
  }

  lemma {:induction false} FirstKept(s: Store, t: Store, l: seq<Ref>, m: seq<Ref>, name: string)
    requires Extends(s, t) && l <= m && (forall k :: k in l ==> k in s) && First(s, l, name).Some?
    ensures First(t, m, name) == First(s, l, name)
  {
    assert l[0] == m[0] && l[0] in s && l[1..] <= m[1..];
    if !Named(s, l[0], name) {
      FirstKept(s, t, l[1..], m[1..], name);
    }
  }

  /** A way that can be gone can still be gone when branches have been added. */
  lemma {:induction false} PathKept(s: Store, t: Store, p: Ref, names: seq<string>, i: nat)
    requires Linked(s) && Extends(s, t) && i <= |names| && PathTo(s, p, names, i).Some?
    ensures PathTo(t, p, names, i) == PathTo(s, p, names, i)
  {
    if i > 0 {
      PathKept(s, t, p, names, i - 1);
      var q := PathTo(s, p, names, i - 1).value;
      assert LinkedAt(s, q);
      assert s[q].kids <= t[q].kids;
      FirstKept(s, t, s[q].kids, t[q].kids, names[i - 1]);
    }
  }

  /** A branch that is the first to have the text, and comes last, is found. */
  lemma {:induction false} FirstNew(s: Store, t: Store, l: seq<Ref>, n: Ref, name: string)
    requires Extends(s, t) && (forall k :: k in l ==> k in s) && First(s, l, name).None? && Named(t, n, name)
    ensures First(t, l + [n], name) == Some(n)
  {
    if l != [] {
      assert l[0] in s && t[l[0]].text == s[l[0]].text;
      assert (l + [n])[1..] == l[1..] + [n];
      FirstNew(s, t, l[1..], n, name);
    }
  }

  /** The branch `n` has come to the end of the children of `q`, and nothing else has changed. */
  ghost predicate Appended(s: Store, t: Store, q: Ref, n: Ref) {
    && Extends(s, t) && q in s && n !in s && n in t && t[n].kids == [] && t[q].kids == s[q].kids + [n]
    && forall x {:trigger t[x]} :: x in s && x != q ==> t[x].kids == s[x].kids
  }

  lemma GrownAppends(s: Store, t: Store, n: Ref, nb: Branch, q: Ref, pos: int)
    requires Linked(s) && IsNew(s, n, nb) && q in s && pos >= |s[q].kids| && Hooked(Lone(s, n, nb), t, n, q, pos)
    ensures Appended(s, t, q, n) && t[n].text == nb.text && t[n].id == nb.id
  {
    assert LinkedAt(s, q);
  }

  lemma SameTextSelf(a: string)
    ensures SameText(a, a)
  {
  }

  /** After the missing branch has been added, the names lead to it. */
  lemma PathGrown(s: Store, t: Store, p: Ref, names: seq<string>, i: nat, n: Ref, q: Ref)
    requires Linked(s) && Appended(s, t, q, n) && i < |names| && PathTo(s, p, names, i) == Some(q)
    requires Child(s, q, names[i]).None? && t[n].text == Sliced(names[i]) && |names[i]| <= 5000
    ensures PathTo(t, p, names, i + 1) == Some(n)
  {
    assert LinkedAt(s, q);
    PathKept(s, t, p, names, i);
    SameTextSelf(names[i]);
    FirstNew(s, t, s[q].kids, n, names[i]);
  }

  // ----- names that had to be cut

  ghost predicate ShortFrom(names: seq<string>, k: nat, i: nat) {
    forall j :: k <= j < i && j < |names| ==> |names[j]| <= 5000
  }

  lemma AllShort(names: seq<string>, k: nat)
    ensures Short(names) ==> ShortFrom(names, k, |names|)
  {
  }

  /** The names lead to `q` and no further. */
  ghost predicate StuckAt(t: Store, p: Ref, names: seq<string>, j: nat, q: Ref) {
    j < |names| && q in t && PathTo(t, p, names, j) == Some(q) && Child(t, q, names[j]).None?
  }

  /**
   Where `i` names lead, of which the first `k` were known before: to `at`, if none of the others had to be cut;
   if not, to another branch and no further.
   */
  ghost predicate Reached(t: Store, p: Ref, names: seq<string>, k: nat, i: nat, at: Ref)
    requires i <= |names|
  {
    if ShortFrom(names, k, i) then PathTo(t, p, names, i) == Some(at)
    else Known(t, p, names) < i && KnownEnd(t, p, names) != Some(at)
  }

  /** Where the names that are known lead. */
  ghost function KnownEnd(t: Store, p: Ref, names: seq<string>): Option<Ref> {
    if Known(t, p, names) <= |names| then PathTo(t, p, names, Known(t, p, names)) else None
  }

  lemma {:induction false} PathIn(t: Store, p: Ref, names: seq<string>, i: nat)
    requires p in t && i <= |names| && PathTo(t, p, names, i).Some?
    ensures PathTo(t, p, names, i).value in t
  {
    if i > 0 {
      PathIn(t, p, names, i - 1);
      FirstIn(t, t[PathTo(t, p, names, i - 1).value].kids, names[i - 1]);
    }
  }

  lemma {:induction false} FirstIn(t: Store, l: seq<Ref>, name: string)
    ensures First(t, l, name).Some? ==> First(t, l, name).value in t
  {
    if l != [] {
      FirstIn(t, l[1..], name);
    }
  }

  /** Names that are not all known are stuck at the end of those that are, and nowhere else. */
  lemma StuckKnown(t: Store, p: Ref, names: seq<string>)
    requires p in t && Known(t, p, names) < |names|
    ensures KnownEnd(t, p, names).Some? && StuckAt(t, p, names, Known(t, p, names), KnownEnd(t, p, names).value)
  {
    var j := Known(t, p, names);
    KnownPath(t, p, names, j);
    KnownPath(t, p, names, j + 1);
    PathIn(t, p, names, j);
  }

  lemma KnownStuck(t: Store, p: Ref, names: seq<string>, j: nat, q: Ref)
    requires StuckAt(t, p, names, j, q)
    ensures Known(t, p, names) == j && KnownEnd(t, p, names) == Some(q)
  {
    KnownPath(t, p, names, j);
    KnownPath(t, p, names, j + 1);
  }

  lemma {:induction false} FirstStillNone(s: Store, t: Store, l: seq<Ref>, name: string)
    requires Extends(s, t) && (forall k :: k in l ==> k in s) && First(s, l, name).None?
    ensures First(t, l, name).None?
  {
    if l != [] {
      assert l[0] in s && t[l[0]].text == s[l[0]].text;
      FirstStillNone(s, t, l[1..], name);
    }
  }

  lemma {:induction false} FirstNoneMore(t: Store, l: seq<Ref>, n: Ref, name: string)
    requires First(t, l, name).None? && !Named(t, n, name)
    ensures First(t, l + [n], name).None?
  {
    if l != [] {
      assert (l + [n])[1..] == l[1..] + [n];
      FirstNoneMore(t, l[1..], n, name);
    }
  }

  /** Where the names are stuck they stay stuck when a branch is added elsewhere. */
  lemma StuckKept(s: Store, t: Store, p: Ref, names: seq<string>, j: nat, q: Ref, at: Ref, n: Ref)
    requires Linked(s) && Appended(s, t, at, n) && q != at && StuckAt(s, p, names, j, q)
    ensures StuckAt(t, p, names, j, q) && q != n
  {
    assert LinkedAt(s, q);
    PathKept(s, t, p, names, j);
    FirstStillNone(s, t, s[q].kids, names[j]);
  }

  /** They get stuck where a name had to be cut. */
  lemma StuckNow(s: Store, t: Store, p: Ref, names: seq<string>, i: nat, q: Ref, n: Ref)
    requires Linked(s) && Appended(s, t, q, n) && i < |names| && PathTo(s, p, names, i) == Some(q)
    requires Child(s, q, names[i]).None? && t[n].text == Sliced(names[i]) && |names[i]| > 5000
    ensures StuckAt(t, p, names, i, q) && q != n
  {
    assert LinkedAt(s, q);
    PathKept(s, t, p, names, i);
    FirstStillNone(s, t, s[q].kids, names[i]);
    FirstNoneMore(t, s[q].kids, n, names[i]);
  }

  lemma ReachedMore(s: Store, t: Store, p: Ref, names: seq<string>, k: nat, i: nat, q: Ref, n: Ref)
    requires Linked(s) && p in s && Appended(s, t, q, n) && k <= i < |names| && Reached(s, p, names, k, i, q)
    requires Child(s, q, names[i]).None? && t[n].text == Sliced(names[i])
    ensures Reached(t, p, names, k, i + 1, n)
  {
    if !ShortFrom(names, k, i) {
      StuckKnown(s, p, names);
      var j, x := Known(s, p, names), KnownEnd(s, p, names).value;
      StuckKept(s, t, p, names, j, x, q, n);
      KnownStuck(t, p, names, j, x);
      assert !ShortFrom(names, k, i + 1);
    } else if |names[i]| <= 5000 {
      PathGrown(s, t, p, names, i, n, q);
      assert ShortFrom(names, k, i + 1);
    } else {
      StuckNow(s, t, p, names, i, q, n);
      KnownStuck(t, p, names, i, q);
      assert !ShortFrom(names, k, i + 1);
    }
  }

  /** The names lead to where they were followed exactly if none of the new ones had to be cut. */
  lemma ReachedIff(t: Store, p: Ref, names: seq<string>, k: nat, at: Ref)
    requires Reached(t, p, names, k, |names|, at)
    ensures Path(t, p, names) == Some(at) <==> ShortFrom(names, k, |names|)
  {
    KnownPath(t, p, names, |names|);
  }

  // ----- generated ids

  /** src/map.c:335-337: the hexadecimal digits 00000001 and those of the number of slots. */
  function GeneratedId(n: nat): nat {
    0x1_0000_0000 + n
  }

  /** The id that is read from the digits that are printed. */
  lemma GeneratedIdRead(n: nat)
    requires n < 0x1_0000_0000
    ensures GeneratedId(n) == IdRead(Hex(1, 8) + Hex(n, 8))
  {
    IdPrinted(n);
  }

  /** `branch_n` has 32 bits; the model goes on counting beyond them. */
  method MakeId(n: nat) returns (id: nat)
    ensures id == GeneratedId(n) && (n < 0x1_0000_0000 ==> id == IdRead(Hex(1, 8) + Hex(n, 8)))
  {
    if n < 0x1_0000_0000 {
      id := ReadId(Hex(1, 8) + Hex(n, 8));
      IdPrinted(n);
    } else {
      id := GeneratedId(n);
    }
  }

  /** None of the `m` ids that follow is taken. */
  ghost predicate IdsFree(index: map<nat, Ref>, n: nat, m: int) {
    forall j: nat {:trigger FreeAt(index, n, j)} :: j < m ==> FreeAt(index, n, j)
  }

  ghost predicate FreeAt(index: map<nat, Ref>, n: nat, j: nat) {
    GeneratedId(n + j) !in index
  }

  ghost predicate IdKept(index0: map<nat, Ref>, index: map<nat, Ref>, n: nat, x: nat) {
    && (x in index0 ==> x in index && index[x] == index0[x])
    && (x in index && x !in index0 ==> x < GeneratedId(n))
  }

  /** From `index0` to `index`, while the number of slots has grown to `n`: only generated ids have been added. */
  ghost predicate IdsGrown(index0: map<nat, Ref>, index: map<nat, Ref>, n: nat) {
    forall x {:trigger IdKept(index0, index, n, x)} :: IdKept(index0, index, n, x)
  }

  lemma IdsGrownMore(index0: map<nat, Ref>, index: map<nat, Ref>, n: nat, r: Ref)
    requires IdsGrown(index0, index, n) && GeneratedId(n) !in index
    ensures IdsGrown(index0, index[GeneratedId(n) := r], n + 1)
  {
    var index1, m := index[GeneratedId(n) := r], n + 1;
    forall x ensures IdKept(index0, index1, m, x) {
      assert IdKept(index0, index, n, x);
    }
  }

  /** The next id is taken exactly if it was taken before. */
  lemma IdsFreeMore(index0: map<nat, Ref>, index: map<nat, Ref>, n: nat, m: nat)
    requires IdsGrown(index0, index, n + m) && IdsFree(index0, n, m)
    ensures IdsFree(index0, n, m + 1) <==> GeneratedId(n + m) !in index
  {
    assert IdKept(index0, index, n + m, GeneratedId(n + m));
    if FreeAt(index0, n, m) {
      assert IdsFree(index0, n, m + 1);
    } else {
      assert !IdsFree(index0, n, m + 1);
    }
  }

  /** One name further: as long as the names are known, they are found where they were. */
  lemma KnownNext(s: Store, p: Ref, names: seq<string>, i: nat, q: Ref)
    requires i < |names| && (i <= Known(s, p, names) ==> PathTo(s, p, names, i) == Some(q))
    ensures Known(s, p, names) < |names| ==> Path(s, p, names).None?
    ensures i < Known(s, p, names) ==>
              Child(s, q, names[i]).Some? && PathTo(s, p, names, i + 1) == Child(s, q, names[i])
    ensures i == Known(s, p, names) ==> Child(s, q, names[i]).None?
  {
    KnownPath(s, p, names, i);
    KnownPath(s, p, names, i + 1);
    KnownPath(s, p, names, |names|);
  }
}
