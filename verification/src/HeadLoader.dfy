/**
 Reading the head file back: io_load_map of src/io.c, and the counting that map_load does after it.

 A branch that is read from slot i is known by i, as it is in `fast_list`.
 */
module HeadLoader {
  import opened Options
  import opened Sequences
  import opened Forest
  import opened Overlay
  import opened Sight
  import opened HeadFile
  import opened BranchTree

  /** A tree that can be written: one tree, whose branches have ids of their own, other than 0. */
  ghost predicate Storable(s: Store, c: Chains, root: Ref) {
    && Linked(s) && Chained(s, c) && root in s && DistinctIds(s)
    && (forall b {:trigger StorableAt(s, c, root, b)} :: b in s ==> StorableAt(s, c, root, b))
  }

  ghost predicate StorableAt(s: Store, c: Chains, root: Ref, b: Ref)
    requires b in s
  {
    s[b].id != 0 && |s[b].kids| < BIT16 && b in c && EndsAt(c[b], root)
  }

  /** The slot of the parent. */
  ghost function ParentSlot(s: Store, b: Ref): Option<Ref>
    requires b in s
  {
    if s[b].parent.Some? && s[b].parent.value in s then Some(s[s[b].parent.value].slot) else None
  }

  ghost function SlotOf(s: Store, k: Ref, i: nat, junk: Ref): Ref {
    if k in s && s[k].slot < i then s[k].slot else junk
  }

  ghost function KidSlots(s: Store, l: seq<Ref>, i: nat, junk: Ref): (r: seq<Ref>)
    ensures |r| == |l| && forall k :: 0 <= k < |l| ==> r[k] == SlotOf(s, l[k], i, junk)
  {
    seq(|l|, k requires 0 <= k < |l| => SlotOf(s, l[k], i, junk))
  }

  /** A branch when the records below slot `i` have been linked; `junk` is what fresh memory holds. */
  ghost function Half(s: Store, b: Ref, i: nat, junk: Ref, text: nat -> string): Branch
    requires b in s
  {
    var done := s[b].slot < i;
    Branch(s[b].id, s[b].slot, if done then ParentSlot(s, b) else None, KidSlots(s, s[b].kids, i, junk), 0,
           if done then text(s[b].id) else "")
  }

  ghost predicate HalfAt(s: Store, t: Store, i: nat, junk: Ref, text: nat -> string, b: Ref)
    requires b in s
  {
    s[b].slot in t && t[s[b].slot] == Half(s, b, i, junk, text)
  }

  ghost predicate HalfLoaded(s: Store, t: Store, i: nat, junk: Ref, text: nat -> string) {
    && (forall b {:trigger HalfAt(s, t, i, junk, text, b)} :: b in s ==> HalfAt(s, t, i, junk, text, b))
    && (forall j {:trigger Free(s, j)} :: j in t ==> !Free(s, j))
  }

  /** After the first loop, over the records below slot `i`. */
  ghost predicate Allocated(file: seq<Head>, t: Store, index: map<nat, Ref>, i: nat, junk: Ref) {
    && i <= |file|
    && (forall j {:trigger file[j]} :: 0 <= j < i && file[j].id != 0 ==>
          && j in t && t[j] == Branch(file[j].id, j, None, seq(file[j].kids, _ => junk), 0, "")
          && file[j].id in index && index[file[j].id] == j)
    && (forall j :: j in t ==> j < i && file[j].id != 0)
  }

  lemma SlotUsed(file: seq<Head>, s: Store, c: Chains, root: Ref, i: nat)
    requires Storable(s, c, root) && IsImage(file, s) && i < |file|
    ensures file[i].id == 0 <==> Free(s, i)
    ensures file[i].id != 0 ==> exists b :: b in s && s[b].slot == i && file[i] == HeadOf(s, b)
  {
    if !Free(s, i) {
      var b :| b in s && s[b].slot == i;
      assert CleanAt(file, s, b) && StorableAt(s, c, root, b);
    }
  }

  /** src/io.c:218-235 */
  method Allocate(file: seq<Head>, junk: Ref, ghost s: Store, ghost c: Chains, ghost root: Ref)
    returns (t: Store, index: map<nat, Ref>)
    requires Storable(s, c, root) && IsImage(file, s)
    ensures Allocated(file, t, index, |file|, junk)
  {
    t, index := map[], map[];
    for i := 0 to |file|
      invariant Allocated(file, t, index, i, junk)
    {
      if file[i].id != 0 {
        forall j | 0 <= j < i && file[j].id != 0 ensures file[j].id != file[i].id {
          DifferentIds(file, s, c, root, j, i);
        }
        t := t[i := Branch(file[i].id, i, None, seq(file[i].kids, _ => junk), 0, "")];
        index := index[file[i].id := i];
      }
    }
  }

  lemma DifferentIds(file: seq<Head>, s: Store, c: Chains, root: Ref, i: nat, j: nat)
    requires Storable(s, c, root) && IsImage(file, s) && i < j < |file| && file[i].id != 0 && file[j].id != 0
    ensures file[i].id != file[j].id
  {
    SlotUsed(file, s, c, root, i);
    SlotUsed(file, s, c, root, j);
  }

  lemma AllocatedHalf(file: seq<Head>, t: Store, index: map<nat, Ref>, junk: Ref, text: nat -> string, s: Store,
                      c: Chains, root: Ref)
    requires Storable(s, c, root) && IsImage(file, s) && Allocated(file, t, index, |file|, junk)
    ensures HalfLoaded(s, t, 0, junk, text)
    ensures forall b :: b in s ==> s[b].id in index && index[s[b].id] == s[b].slot
  {
    forall b | b in s
      ensures HalfAt(s, t, 0, junk, text, b)
      ensures s[b].id in index && index[s[b].id] == s[b].slot
    {
      assert CleanAt(file, s, b) && StorableAt(s, c, root, b);
      assert file[s[b].slot].id != 0;
      assert t[s[b].slot].kids == KidSlots(s, s[b].kids, 0, junk);
    }
    forall j | j in t ensures !Free(s, j) {
      SlotUsed(file, s, c, root, j);
    }
  }

  ghost predicate OwnSlots(s: Store) {
    forall a, b :: a in s && b in s && s[a].slot == s[b].slot ==> a == b
  }

  /** Linking slot `i`, in which `b` lives, fills in one place of one list. */
  lemma KidSlotsStep(s: Store, l: seq<Ref>, i: nat, junk: Ref, b: Ref)
    requires b in s && s[b].slot == i && NoDup(l) && (forall a :: a in s && s[a].slot == i ==> a == b)
    ensures b !in l ==> KidSlots(s, l, i + 1, junk) == KidSlots(s, l, i, junk)
    ensures b in l ==>
              && 0 <= PosIn(l, b) < |l|
              && KidSlots(s, l, i + 1, junk) == KidSlots(s, l, i, junk)[PosIn(l, b) := i]
  {
    if b in l {
      PosInBounds(l, b);
    }
  }

  /** What src/io.c:249-274 does for one record. */
  ghost function Connected(t: Store, b: Ref, p: Option<Ref>, pos: nat, text: string): Store
    requires b in t && (p.Some? ==> p.value in t && pos < |t[p.value].kids|)
  {
    var u := if p.None? then t else
             var v := t[b := t[b].(parent := p)];
             v[p.value := v[p.value].(kids := v[p.value].kids[pos := b])];
    u[b := u[b].(text := text)]
  }

  lemma FreeStep(s: Store, t: Store, i: nat, junk: Ref, text: nat -> string)
    requires HalfLoaded(s, t, i, junk, text) && Free(s, i)
    ensures HalfLoaded(s, t, i + 1, junk, text)
  {
    forall b | b in s ensures HalfAt(s, t, i + 1, junk, text, b) {
      assert HalfAt(s, t, i, junk, text, b);
      assert KidSlots(s, s[b].kids, i + 1, junk) == KidSlots(s, s[b].kids, i, junk);
    }
  }

  /** The record of `b` can be connected. */
  lemma UsedReady(s: Store, c: Chains, root: Ref, t: Store, junk: Ref, text: nat -> string, b: Ref)
    requires Storable(s, c, root) && b in s && HalfLoaded(s, t, s[b].slot, junk, text)
    ensures s[b].slot in t && t[s[b].slot].id == s[b].id && ParentPos(s, b) >= 0
    ensures ParentSlot(s, b).Some? ==>
              && ParentSlot(s, b).value in t && s[b].parent.value in s
              && 0 <= Position(s, b) < |t[ParentSlot(s, b).value].kids| == |s[s[b].parent.value].kids| < BIT16
  {
    assert LinkedAt(s, b) && HalfAt(s, t, s[b].slot, junk, text, b);
    if s[b].parent.Some? {
      var p := s[b].parent.value;
      assert LinkedAt(s, p) && StorableAt(s, c, root, p) && HalfAt(s, t, s[b].slot, junk, text, p);
      PosInBounds(s[p].kids, b);
    }
  }

  lemma UsedAt(s: Store, c: Chains, root: Ref, t: Store, junk: Ref, text: nat -> string, b: Ref, x: Ref)
    requires Storable(s, c, root) && OwnSlots(s) && b in s && x in s && HalfLoaded(s, t, s[b].slot, junk, text)
    requires s[b].slot in t && ParentPos(s, b) >= 0
    requires ParentSlot(s, b).Some? ==>
              ParentSlot(s, b).value in t && ParentPos(s, b) < |t[ParentSlot(s, b).value].kids|
    ensures HalfAt(s, Connected(t, s[b].slot, ParentSlot(s, b), ParentPos(s, b), text(s[b].id)), s[b].slot + 1, junk,
                   text, x)
  {
    assert LinkedAt(s, b) && LinkedAt(s, x) && HalfAt(s, t, s[b].slot, junk, text, b)
        && HalfAt(s, t, s[b].slot, junk, text, x);
    NotOwnKid(s, c, b);
    KidSlotsStep(s, s[x].kids, s[b].slot, junk, b);
  }

  lemma UsedStep(s: Store, c: Chains, root: Ref, t: Store, junk: Ref, text: nat -> string, b: Ref)
    requires Storable(s, c, root) && OwnSlots(s) && b in s && HalfLoaded(s, t, s[b].slot, junk, text)
    requires s[b].slot in t && ParentPos(s, b) >= 0
    requires ParentSlot(s, b).Some? ==>
              ParentSlot(s, b).value in t && ParentPos(s, b) < |t[ParentSlot(s, b).value].kids|
    ensures HalfLoaded(s, Connected(t, s[b].slot, ParentSlot(s, b), ParentPos(s, b), text(s[b].id)), s[b].slot + 1,
                       junk, text)
  {
    var u := Connected(t, s[b].slot, ParentSlot(s, b), ParentPos(s, b), text(s[b].id));
    forall x | x in s ensures HalfAt(s, u, s[b].slot + 1, junk, text, x) {
      UsedAt(s, c, root, t, junk, text, b, x);
    }
  }

  /** Only the root has no parent. */
  lemma OnlyRoot(s: Store, c: Chains, root: Ref, b: Ref)
    requires Chained(s, c) && b in s && EndsAtRoot(c, root, b)
    ensures s[b].parent.None? <==> b == root
  {
    assert ChainedAt(s, c, b);
    if s[b].parent.Some? {
      Acyclic(s, c, b);
      assert c[b][|c[b]| - 1] in c[s[b].parent.value] by {
        assert ChainedAt(s, c, s[b].parent.value);
      }
    }
  }

  ghost predicate EndsAtRoot(c: Chains, root: Ref, b: Ref) {
    b in c && EndsAt(c[b], root)
  }

  /** The record in slot `i`, as the tree has it. */
  lemma RecordOf(file: seq<Head>, index: map<nat, Ref>, s: Store, c: Chains, root: Ref, i: nat) returns (b: Ref)
    requires Storable(s, c, root) && IsImage(file, s) && i < |file| && file[i].id != 0
    requires forall x :: x in s ==> s[x].id in index && index[s[x].id] == s[x].slot
    ensures b in s && s[b].slot == i && file[i] == HeadOf(s, b) && (s[b].parent.Some? ==> s[b].parent.value in s)
    ensures file[i].parent == 0 <==> s[b].parent.None?
    ensures file[i].parent != 0 ==> file[i].parent in index && Some(index[file[i].parent]) == ParentSlot(s, b)
    ensures s[b].parent.None? <==> b == root
  {
    SlotUsed(file, s, c, root, i);
    b :| b in s && s[b].slot == i && file[i] == HeadOf(s, b);
    assert LinkedAt(s, b) && StorableAt(s, c, root, b);
    OnlyRoot(s, c, root, b);
    if s[b].parent.Some? {
      assert StorableAt(s, c, root, s[b].parent.value);
    }
  }

  /** src/io.c:249-274; false where the program prints a message and exits. */
  method Connect(t0: Store, index: map<nat, Ref>, h: Head, i: Ref, top0: Ref, text: nat -> string)
    returns (ok: bool, t: Store, top: Ref)
    requires i in t0 && t0[i].id == h.id
    requires h.parent in index && h.parent != 0 ==> index[h.parent] in t0 && h.pos < |t0[index[h.parent]].kids|
    ensures ok <==> h.parent == 0 || h.parent in index
    ensures ok ==> t == Connected(t0, i, ParentIn(index, h), RecordPos(h), text(h.id))
    ensures top == if h.parent == 0 then i else top0
  {
    ok, t, top := true, t0, top0;
    if h.parent != 0 {
      if h.parent !in index {
        ok := false;
        return;
      }
      var p := index[h.parent];
      t := t[i := t[i].(parent := Some(p))];
      t := t[p := t[p].(kids := t[p].kids[h.pos := i])];
    } else {
      top := i;
    }
    t := t[i := t[i].(text := text(h.id))];
  }

  /** The branch at `b` as it is after loading. */
  ghost function Copied(s: Store, b: Ref, text: nat -> string): Branch
    requires b in s
  {
    Branch(s[b].id, s[b].slot, ParentSlot(s, b), SlotsOf(s, s[b].kids), 0, text(s[b].id))
  }

  ghost function SlotsOf(s: Store, l: seq<Ref>): (r: seq<Ref>)
    ensures |r| == |l| && forall k :: 0 <= k < |l| && l[k] in s ==> r[k] == s[l[k]].slot
  {
    seq(|l|, k requires 0 <= k < |l| => if l[k] in s then s[l[k]].slot else 0)
  }

  ghost predicate CopiedAt(s: Store, t: Store, text: nat -> string, b: Ref)
    requires b in s
  {
    s[b].slot in t && t[s[b].slot] == Copied(s, b, text)
  }

  /** The same tree, with branches known by their slots. */
  ghost predicate IsCopy(s: Store, t: Store, text: nat -> string) {
    && (forall b {:trigger CopiedAt(s, t, text, b)} :: b in s ==> CopiedAt(s, t, text, b))
    && (forall j {:trigger Free(s, j)} :: j in t ==> !Free(s, j))
  }

  lemma HalfIsCopy(s: Store, t: Store, n: nat, junk: Ref, text: nat -> string)
    requires Linked(s) && Slotted(s, n) && HalfLoaded(s, t, n, junk, text)
    ensures IsCopy(s, t, text)
  {
    forall b | b in s ensures CopiedAt(s, t, text, b) {
      assert LinkedAt(s, b) && HalfAt(s, t, n, junk, text, b);
      assert KidSlots(s, s[b].kids, n, junk) == SlotsOf(s, s[b].kids);
    }
  }

  /**
   src/io.c:192-279: the file of any tree that can be written is read back as that tree, whatever the
   order in which parents and children have got their slots, and no part of fresh memory is left as it was.
   */
  method Load(file: seq<Head>, junk: Ref, text: nat -> string, ghost s: Store, ghost c: Chains, ghost root: Ref)
    returns (ok: bool, t: Store, index: map<nat, Ref>, top: Ref)
    requires Storable(s, c, root) && IsImage(file, s)
    ensures ok && IsCopy(s, t, text) && top == s[root].slot
    ensures forall b :: b in s ==> s[b].id in index && index[s[b].id] == s[b].slot
  {
    t, index := Allocate(file, junk, s, c, root);
    AllocatedHalf(file, t, index, junk, text, s, c, root);
    top, ok := junk, true;
    for i := 0 to |file|
      invariant ok && HalfLoaded(s, t, i, junk, text)
      invariant s[root].slot < i ==> top == s[root].slot
    {
      ok, t, top := LoadRecord(file, index, t, i, top, junk, text, s, c, root);
    }
    HalfIsCopy(s, t, |file|, junk, text);
  }

  /** The position that a record is linked at; the root has none. */
  function RecordPos(h: Head): nat {
    if h.parent == 0 then 0 else h.pos
  }

  function ParentIn(index: map<nat, Ref>, h: Head): Option<Ref> {
    if h.parent == 0 || h.parent !in index then None else Some(index[h.parent])
  }

  lemma RecordStep(file: seq<Head>, index: map<nat, Ref>, t: Store, i: nat, junk: Ref, text: nat -> string, s: Store,
                   c: Chains, root: Ref)
    requires Storable(s, c, root) && IsImage(file, s) && i < |file| && HalfLoaded(s, t, i, junk, text)
    requires forall b :: b in s ==> s[b].id in index && index[s[b].id] == s[b].slot
    ensures file[i].id == 0 ==> HalfLoaded(s, t, i + 1, junk, text) && s[root].slot != i
    ensures file[i].id != 0 ==>
              && i in t && t[i].id == file[i].id && (file[i].parent == 0 <==> s[root].slot == i)
              && (file[i].parent != 0 ==> file[i].parent in index && index[file[i].parent] in t)
              && (file[i].parent != 0 ==> file[i].pos < |t[index[file[i].parent]].kids|)
              && HalfLoaded(s, Connected(t, i, ParentIn(index, file[i]), RecordPos(file[i]), text(file[i].id)),
                            i + 1, junk, text)
  {
    SlotUsed(file, s, c, root, i);
    if file[i].id == 0 {
      FreeStep(s, t, i, junk, text);
    } else {
      var b := RecordOf(file, index, s, c, root, i);
      UsedReady(s, c, root, t, junk, text, b);
      UsedStep(s, c, root, t, junk, text, b);
    }
  }

  /** src/io.c:249-274 */
  method LoadRecord(file: seq<Head>, index: map<nat, Ref>, t0: Store, i: nat, top0: Ref, ghost junk: Ref,
                    text: nat -> string, ghost s: Store, ghost c: Chains, ghost root: Ref)
    returns (ok: bool, t: Store, top: Ref)
    requires Storable(s, c, root) && IsImage(file, s) && i < |file| && HalfLoaded(s, t0, i, junk, text)
    requires forall b :: b in s ==> s[b].id in index && index[s[b].id] == s[b].slot
    ensures ok && HalfLoaded(s, t, i + 1, junk, text)
    ensures top == if s[root].slot == i then i else top0
  {
    ok, t, top := true, t0, top0;
    RecordStep(file, index, t, i, junk, text, s, c, root);
    if file[i].id != 0 {
      ok, t, top := Connect(t, index, file[i], i, top, text);
    }
  }

  // ----- the copy is a tree with the same counts

  ghost function CopyChains(s: Store, c: Chains): Chains
    requires c.Keys == s.Keys && OwnSlots(s)
  {
    map b | b in s :: s[b].slot := SlotsOf(s, c[b])
  }

  /** `a` is on a way exactly if its slot is on the copy of the way. */
  lemma SlotsOfMember(s: Store, l: seq<Ref>, a: Ref)
    requires OwnSlots(s) && a in s && (forall x :: x in l ==> x in s)
    ensures a in l <==> s[a].slot in SlotsOf(s, l)
  {
    if a in l {
      var i :| 0 <= i < |l| && l[i] == a;
      assert SlotsOf(s, l)[i] == s[a].slot;
    }
  }

  lemma CopyLinkedAt(s: Store, t: Store, text: nat -> string, b: Ref)
    requires Linked(s) && OwnSlots(s) && IsCopy(s, t, text) && b in s
    ensures s[b].slot in t && LinkedAt(t, s[b].slot)
  {
    assert CopiedAt(s, t, text, b) && LinkedAt(s, b);
    if s[b].parent.Some? {
      var p := s[b].parent.value;
      assert CopiedAt(s, t, text, p) && LinkedAt(s, p);
      SlotsOfMember(s, s[p].kids, b);
    }
    forall k | k in t[s[b].slot].kids ensures k in t && t[k].parent == Some(s[b].slot) {
      var i :| 0 <= i < |s[b].kids| && k == SlotsOf(s, s[b].kids)[i];
      assert s[b].kids[i] in s[b].kids;
      assert CopiedAt(s, t, text, s[b].kids[i]);
    }
    assert forall i :: 0 <= i < |s[b].kids| ==> s[b].kids[i] in s;
  }

  lemma CopyChainedAt(s: Store, c: Chains, t: Store, text: nat -> string, b: Ref)
    requires Linked(s) && Chained(s, c) && OwnSlots(s) && IsCopy(s, t, text) && b in s
    ensures s[b].slot in t && ChainedAt(t, CopyChains(s, c), s[b].slot)
  {
    assert CopiedAt(s, t, text, b) && ChainedAt(s, c, b);
    if s[b].parent.Some? {
      var p := s[b].parent.value;
      assert CopiedAt(s, t, text, p);
      assert SlotsOf(s, [b] + c[p]) == [s[b].slot] + SlotsOf(s, c[p]);
    } else {
      assert SlotsOf(s, [b]) == [s[b].slot];
    }
  }

  lemma CopyTrees(s: Store, c: Chains, t: Store, text: nat -> string)
    requires Linked(s) && Chained(s, c) && OwnSlots(s) && IsCopy(s, t, text)
    ensures Linked(t) && Chained(t, CopyChains(s, c))
  {
    forall j | j in t ensures LinkedAt(t, j) && ChainedAt(t, CopyChains(s, c), j) {
      assert !Free(s, j);
      var b :| b in s && s[b].slot == j;
      CopyLinkedAt(s, t, text, b);
      CopyChainedAt(s, c, t, text, b);
    }
    forall b | b in s ensures s[b].slot in t {
      assert CopiedAt(s, t, text, b);
    }
  }

  ghost function Slots(s: Store, u: set<Ref>): set<Ref> {
    set x | x in u && x in s :: s[x].slot
  }

  lemma {:induction false} SlotsSize(s: Store, u: set<Ref>)
    requires OwnSlots(s) && u <= s.Keys
    ensures |Slots(s, u)| == |u|
  {
    if u != {} {
      var x :| x in u;
      SlotsSize(s, u - {x});
      assert Slots(s, u) == Slots(s, u - {x}) + {s[x].slot};
    }
  }

  lemma CopyUnder(s: Store, c: Chains, b: Ref)
    requires Chained(s, c) && OwnSlots(s) && b in s
    ensures Under(CopyChains(s, c), s[b].slot) == Slots(s, Under(c, b))
    ensures |Under(CopyChains(s, c), s[b].slot)| == |Under(c, b)|
  {
    var d := CopyChains(s, c);
    forall x | x in s ensures s[b].slot in d[s[x].slot] <==> b in c[x] {
      forall a | a in c[x] ensures a in s {
        Suffix(s, c, x, a);
      }
      SlotsOfMember(s, c[x], b);
    }
    SlotsSize(s, Under(c, b));
  }

  /**
   src/map.c:1683-1691: loading and then counting from zero gives the tree that was stored, with the
   counters that it had.
   */
  method Reload(file: seq<Head>, junk: Ref, text: nat -> string, ghost s: Store, ghost c: Chains, ghost root: Ref)
    returns (ok: bool, tree: BranchTree, index: map<nat, Ref>, top: Ref)
    requires Storable(s, c, root) && Counted(s, c) && IsImage(file, s)
    ensures ok && fresh(tree) && tree.Valid() && top == s[root].slot && Restored(s, tree.branches, text)
    ensures forall b :: b in s ==> s[b].id in index && index[s[b].id] == s[b].slot
  {
    var t;
    ok, t, index, top := Load(file, junk, text, s, c, root);
    CopyTrees(s, c, t, text);
    CopyGained(s, c, t, text, root);
    tree := CountUp(t, top, CopyChains(s, c));
  }

  /** src/map.c:1691 */
  method CountUp(t: Store, top: Ref, ghost d: Chains) returns (tree: BranchTree)
    requires Linked(t) && Chained(t, d) && top in t
    ensures fresh(tree) && tree.branches == Gained(t, d, Under(d, top)) && tree.chain == d
  {
    tree := new BranchTree(t, d);
    tree.Calculate(top);
  }

  /** The stored tree, with branches known by their slots, and with its counters. */
  ghost predicate Restored(s: Store, t: Store, text: nat -> string) {
    && (forall b {:trigger RestoredAt(s, t, text, b)} :: b in s ==> RestoredAt(s, t, text, b))
    && (forall j {:trigger Free(s, j)} :: j in t ==> !Free(s, j))
  }

  ghost predicate RestoredAt(s: Store, t: Store, text: nat -> string, b: Ref)
    requires b in s
  {
    s[b].slot in t && t[s[b].slot] == Copied(s, b, text).(total := s[b].total)
  }

  lemma CopyGained(s: Store, c: Chains, t: Store, text: nat -> string, root: Ref)
    requires Storable(s, c, root) && Counted(s, c) && OwnSlots(s) && IsCopy(s, t, text)
    ensures s[root].slot in t
    ensures
      var d := CopyChains(s, c);
      var g := Gained(t, d, Under(d, s[root].slot));
      Trees(g, d) && Restored(s, g, text)
  {
    var d := CopyChains(s, c);
    var g := Gained(t, d, Under(d, s[root].slot));
    CopyTrees(s, c, t, text);
    CopyRooted(s, c, t, text, root);
    GainedFromZero(t, d, s[root].slot);
    forall b | b in s ensures RestoredAt(s, g, text, b) {
      RestoredOne(s, c, t, text, Under(d, s[root].slot), b);
    }
  }

  lemma RestoredOne(s: Store, c: Chains, t: Store, text: nat -> string, u: set<Ref>, b: Ref)
    requires Chained(s, c) && Counted(s, c) && OwnSlots(s) && IsCopy(s, t, text) && b in s
    requires Counted(Gained(t, CopyChains(s, c), u), CopyChains(s, c))
    ensures RestoredAt(s, Gained(t, CopyChains(s, c), u), text, b)
  {
    var d := CopyChains(s, c);
    assert CopiedAt(s, t, text, b);
    CopyUnder(s, c, b);
    assert CountedAt(Gained(t, d, u), d, s[b].slot) && CountedAt(s, c, b);
  }

  lemma CopyRooted(s: Store, c: Chains, t: Store, text: nat -> string, root: Ref)
    requires Storable(s, c, root) && OwnSlots(s) && IsCopy(s, t, text)
    ensures Under(CopyChains(s, c), s[root].slot) == t.Keys && s[root].slot in t
    ensures forall j :: j in t ==> t[j].total == 0
  {
    CopyTrees(s, c, t, text);
    CopyUnder(s, c, root);
    assert CopiedAt(s, t, text, root);
    forall b | b in s ensures b in Under(c, root) {
      assert StorableAt(s, c, root, b);
    }
    forall j | j in t ensures t[j].total == 0 && j in Slots(s, s.Keys) {
      assert !Free(s, j);
      var b :| b in s && s[b].slot == j;
      assert CopiedAt(s, t, text, b);
    }
    assert Under(c, root) == s.Keys;
  }
}
