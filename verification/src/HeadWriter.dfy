/** The routines of src/io.c that write the head file. */
module HeadWriter {
  import opened Forest
  import opened Sight
  import opened HeadFile
  import opened BranchTree

  /** A record written at a slot; at the end of the file it makes the file longer. */
  function Written(file: seq<Head>, slot: nat, h: Head): seq<Head>
    requires slot <= |file|
  {
    if slot == |file| then file + [h] else file[slot := h]
  }

  /** The file as long as a write at `slot` makes it. */
  function Padded(file: seq<Head>, slot: nat): seq<Head> {
    if slot == |file| then file + [BLANK] else file
  }

  /** `buf` is `zero` with the records of the branches in `u` filled in. */
  ghost predicate Filled(zero: seq<Head>, buf: seq<Head>, s: Store, u: set<Ref>) {
    && |buf| == |zero|
    && (forall x {:trigger CleanAt(buf, s, x)} :: x in u && x in s ==> CleanAt(buf, s, x))
    && (forall i {:trigger Missed(s, u, i)} :: 0 <= i < |zero| && Missed(s, u, i) ==> buf[i] == zero[i])
  }

  ghost predicate Missed(s: Store, u: set<Ref>, i: nat) {
    forall x :: x in u && x in s ==> s[x].slot != i
  }

  lemma FilledMore(zero: seq<Head>, buf: seq<Head>, b2: seq<Head>, s: Store, u: set<Ref>, v: set<Ref>)
    requires Slotted(s, |zero|) && Filled(zero, buf, s, u) && Filled(buf, b2, s, v) && u !! v && u <= s.Keys
    ensures Filled(zero, b2, s, u + v)
  {
    forall x | x in u + v && x in s ensures CleanAt(b2, s, x) {
      if x in u {
        assert CleanAt(buf, s, x);
        assert Missed(s, v, s[x].slot);
      }
    }
    forall i | 0 <= i < |zero| && Missed(s, u + v, i) ensures b2[i] == zero[i] {
      assert Missed(s, u, i) && Missed(s, v, i);
    }
  }

  /** Only the records of the branches in `u` may differ. */
  ghost predicate KeptBut(f: seq<Head>, g: seq<Head>, s: Store, u: set<Ref>) {
    |f| <= |g| && forall i {:trigger Missed(s, u, i)} :: 0 <= i < |f| && Missed(s, u, i) ==> g[i] == f[i]
  }

  lemma KeptMore(f: seq<Head>, g: seq<Head>, h: seq<Head>, s: Store, u: set<Ref>, v: set<Ref>)
    requires KeptBut(f, g, s, u) && KeptBut(g, h, s, v)
    ensures KeptBut(f, h, s, u + v)
  {
    forall i | 0 <= i < |f| && Missed(s, u + v, i) ensures h[i] == f[i] {
      assert Missed(s, u, i) && Missed(s, v, i);
    }
  }

  class HeadWriter {
    /** The head file, record by record. */
    var file: seq<Head>

    constructor (f: seq<Head>)
      ensures file == f
    {
      file := f;
    }

    /** src/io.c:60-83 */
    method SaveHead(s: Store, b: Ref, ghost dirty: set<Ref>)
      requires b in s && s[b].slot <= |file| && Clean(Padded(file, s[b].slot), s, dirty)
      modifies this
      ensures Clean(file, s, dirty - {b}) && |file| == |Padded(old(file), s[b].slot)|
      ensures KeptBut(old(file), file, s, {b})
    {
      Saved(Padded(file, s[b].slot), s, dirty, b);
      var parent, pos := 0, 0;
      if s[b].parent.Some? && s[b].parent.value in s {
        parent, pos := s[s[b].parent.value].id, Position(s, b);
      }
      file := Written(file, s[b].slot, Head(s[b].id, parent, pos % BIT16, |s[b].kids| % BIT16));
      assert file == Padded(old(file), s[b].slot)[s[b].slot := HeadOf(s, b)];
    }

    /** src/io.c:153-160: the children of `p` from position `from` on. */
    method ChildsReordered(s: Store, p: Ref, from: nat, ghost dirty: set<Ref>)
      requires Linked(s) && p in s && Clean(file, s, dirty)
      modifies this
      ensures Clean(file, s, dirty - From(s, p, from)) && |file| == |old(file)|
      ensures KeptBut(old(file), file, s, From(s, p, from))
    {
      assert LinkedAt(s, p);
      var i := from;
      ghost var left, done := dirty, {};
      while i < |s[p].kids|
        invariant from <= i && |file| == |old(file)|
        invariant Clean(file, s, left) && left == dirty - done
        invariant done == (set j | from <= j < i && j < |s[p].kids| :: s[p].kids[j])
        invariant KeptBut(old(file), file, s, done)
      {
        ghost var before := file;
        SaveHead(s, s[p].kids[i], left);
        KeptMore(old(file), before, file, s, done, {s[p].kids[i]});
        done := done + {s[p].kids[i]};
        left := left - {s[p].kids[i]};
        i := i + 1;
      }
      assert done == From(s, p, from);
    }

    /** src/io.c:162-172 */
    method BranchMoved(s: Store, b: Ref, p: Ref, was: nat)
      requires Linked(s) && b in s && s[b].parent.Some? && s[b].parent.value in s && p in s && Position(s, b) >= 0
      requires Clean(file, s, MoveDirty(s, b, p, s[b].parent.value, Position(s, b), was))
      modifies this
      ensures IsImage(file, s) && |file| == |old(file)|
    {
      var q, at := s[b].parent.value, Position(s, b);
      ghost var dirty := MoveDirty(s, b, p, q, at, was);
      SaveHead(s, b, dirty);
      SaveHead(s, q, dirty - {b});
      SaveHead(s, p, dirty - {b} - {q});
      ChildsReordered(s, q, at + 1, dirty - {b} - {q} - {p});
      ChildsReordered(s, p, was, dirty - {b} - {q} - {p} - From(s, q, at + 1));
      assert dirty - {b} - {q} - {p} - From(s, q, at + 1) - From(s, p, was) == {};
    }

    /** src/io.c:181-190: the record of a new branch is appended. */
    method BranchNew(s: Store, b: Ref)
      requires Linked(s) && b in s && s[b].parent.Some? && s[b].parent.value in s && Position(s, b) >= 0
      requires s[b].slot == |file|
      requires Clean(file + [BLANK], s, {b, s[b].parent.value} + From(s, s[b].parent.value, Position(s, b)))
      modifies this
      ensures IsImage(file, s) && |file| == |old(file)| + 1
    {
      var p, at := s[b].parent.value, Position(s, b);
      ghost var dirty := {b, p} + From(s, p, at);
      SaveHead(s, b, dirty);
      SaveHead(s, p, dirty - {b});
      ChildsReordered(s, p, at, dirty - {b} - {p});
      assert dirty - {b} - {p} - From(s, p, at) == {};
    }

    /** src/io.c:174-179: the record of the deleted branch, which has id 0 by now, and those of its siblings. */
    method BranchDeleted(s: Store, b: Ref, p: Ref, from: nat, ghost dirty: set<Ref>)
      requires Linked(s) && b in s && p in s && Clean(file, s, dirty)
      modifies this
      ensures Clean(file, s, dirty - {b} - {p} - From(s, p, from)) && |file| == |old(file)|
      ensures KeptBut(old(file), file, s, {b} + {p} + From(s, p, from))
    {
      SaveHead(s, b, dirty);
      ghost var f1 := file;
      SaveHead(s, p, dirty - {b});
      ghost var f2 := file;
      KeptMore(old(file), f1, f2, s, {b}, {p});
      ChildsReordered(s, p, from, dirty - {b} - {p});
      KeptMore(old(file), f2, file, s, {b} + {p}, From(s, p, from));
    }

    /** src/io.c:11-34: the records of `b` and of everything below it. */
    method WalkSave(s: Store, b: Ref, buf: seq<Head>, ghost c: Chains) returns (r: seq<Head>)
      requires Linked(s) && Chained(s, c) && b in s && Slotted(s, |buf|)
      ensures Filled(buf, r, s, Under(c, b))
      decreases |Under(c, b)|
    {
      FamilyAll(s, c, b);
      r := buf[s[b].slot := HeadOf(s, b)];
      var i := 0;
      while i < |s[b].kids|
        invariant 0 <= i <= |s[b].kids| && Filled(buf, r, s, Family(s, c, b, i))
      {
        FamilyGrows(s, c, b, i);
        SmallerUnder(c, s[b].kids[i], b);
        var next := WalkSave(s, s[b].kids[i], r, c);
        FilledMore(buf, r, next, s, Family(s, c, b, i), Under(c, s[b].kids[i]));
        r := next;
        i := i + 1;
      }
    }

    /** src/io.c:36-58: writes the whole file anew. */
    method Resave(s: Store, root: Ref, n: nat, ghost c: Chains)
      requires Linked(s) && Chained(s, c) && root in s && Under(c, root) == s.Keys && Slotted(s, n)
      modifies this
      ensures IsImage(file, s) && |file| == n
    {
      var zero := seq(n, _ => BLANK);
      file := WalkSave(s, root, zero, c);
      forall i | 0 <= i < n && Free(s, i) ensures file[i] == BLANK {
        assert Missed(s, Under(c, root), i);
      }
    }
  }
}
