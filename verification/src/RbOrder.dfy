/**
 The table of src/lib/rb.c as a strictly ascending sequence of items: what `rb_find`, `rb_replace`
 and `rb_delete` promise, for any comparison function that orders the items totally.
 */
module RbOrder {
  import opened Options
  import opened Sequences

  /** The comparison function: its sign is a total preorder. */
  ghost predicate Comparison<T(!new)>(cmp: (T, T) -> int) {
    && (forall x, y :: Opposite(cmp, x, y))
    && (forall x, y, z :: Transitive(cmp, x, y, z))
  }

  predicate Opposite<T>(cmp: (T, T) -> int, x: T, y: T) {
    cmp(x, y) < 0 <==> cmp(y, x) > 0
  }

  predicate Transitive<T>(cmp: (T, T) -> int, x: T, y: T, z: T) {
    cmp(x, y) <= 0 && cmp(y, z) <= 0 ==> cmp(x, z) <= 0
  }

  ghost predicate Ascending<T>(cmp: (T, T) -> int, s: seq<T>) {
    forall i, j :: 0 <= i < j < |s| ==> Below(cmp, s, i, j)
  }

  predicate Below<T>(cmp: (T, T) -> int, s: seq<T>, i: nat, j: nat)
    requires i < j < |s|
  {
    cmp(s[i], s[j]) < 0
  }

  /** How many leading items of `s` are below `x`. */
  function Rank<T>(cmp: (T, T) -> int, s: seq<T>, x: T): (r: nat)
    ensures r <= |s|
    ensures forall i :: 0 <= i < r ==> cmp(x, s[i]) > 0
    ensures r < |s| ==> cmp(x, s[r]) <= 0
  {
    if s == [] || cmp(x, s[0]) <= 0 then 0 else 1 + Rank(cmp, s[1..], x)
  }

  predicate Hit<T>(cmp: (T, T) -> int, s: seq<T>, x: T) {
    var r := Rank(cmp, s, x);
    r < |s| && cmp(x, s[r]) == 0
  }

  function Found<T>(cmp: (T, T) -> int, s: seq<T>, x: T): Option<T> {
    if Hit(cmp, s, x) then Some(s[Rank(cmp, s, x)]) else None
  }

  /** The items after one has been added, unless an equal one is there. */
  function Added<T>(cmp: (T, T) -> int, s: seq<T>, x: T): seq<T> {
    if Hit(cmp, s, x) then s else InsertedAt(s, Rank(cmp, s, x), x)
  }

  function Replaced<T>(cmp: (T, T) -> int, s: seq<T>, x: T): seq<T> {
    var r := Rank(cmp, s, x);
    if Hit(cmp, s, x) then s[r := x] else InsertedAt(s, r, x)
  }

  function Deleted<T>(cmp: (T, T) -> int, s: seq<T>, x: T): seq<T> {
    if Hit(cmp, s, x) then CutOut(s, Rank(cmp, s, x)) else s
  }

  lemma StrictLeft<T(!new)>(cmp: (T, T) -> int, x: T, y: T, z: T)
    requires Comparison(cmp) && cmp(x, y) < 0 && cmp(y, z) <= 0
    ensures cmp(x, z) < 0
  {
    assert Transitive(cmp, y, z, x) && Opposite(cmp, x, y) && Opposite(cmp, x, z) && Opposite(cmp, z, x);
  }

  lemma StrictRight<T(!new)>(cmp: (T, T) -> int, x: T, y: T, z: T)
    requires Comparison(cmp) && cmp(x, y) <= 0 && cmp(y, z) < 0
    ensures cmp(x, z) < 0
  {
    assert Transitive(cmp, z, x, y) && Opposite(cmp, y, z) && Opposite(cmp, x, z) && Opposite(cmp, z, x);
  }

  /** `x` at or below position `k`, or at or above it, settles one side of `s`. */
  lemma Sides<T(!new)>(cmp: (T, T) -> int, s: seq<T>, x: T, k: nat)
    requires Comparison(cmp) && Ascending(cmp, s) && k < |s|
    ensures cmp(x, s[k]) <= 0 ==> forall i :: k < i < |s| ==> cmp(x, s[i]) < 0
    ensures cmp(x, s[k]) >= 0 ==> forall i :: 0 <= i < k ==> cmp(x, s[i]) > 0
  {
    if cmp(x, s[k]) <= 0 {
      forall i | k < i < |s| ensures cmp(x, s[i]) < 0 {
        assert Below(cmp, s, k, i);
        StrictRight(cmp, x, s[k], s[i]);
      }
    }
    if cmp(x, s[k]) >= 0 {
      forall i | 0 <= i < k ensures cmp(x, s[i]) > 0 {
        assert Opposite(cmp, s[k], x) && Opposite(cmp, x, s[k]) && Opposite(cmp, s[i], x) && Below(cmp, s, i, k);
        StrictLeft(cmp, s[i], s[k], x);
      }
    }
  }

  lemma RankIs<T>(cmp: (T, T) -> int, s: seq<T>, x: T, k: nat)
    requires k <= |s|
    requires forall i :: 0 <= i < k ==> cmp(x, s[i]) > 0
    requires k < |s| ==> cmp(x, s[k]) <= 0
    ensures Rank(cmp, s, x) == k
  {
  }

  /** Storing keeps the items ascending; a replaced item was equal in order to the new one. */
  lemma ReplacedAscending<T(!new)>(cmp: (T, T) -> int, s: seq<T>, x: T)
    requires Comparison(cmp) && Ascending(cmp, s)
    ensures Ascending(cmp, Replaced(cmp, s, x))
  {
    var r := Rank(cmp, s, x);
    SliceAscending(cmp, s, 0, r);
    SliceAscending(cmp, s, r, |s|);
    assert s[..r] == s[0..r] && s[r..] == s[r..|s|];
    if Hit(cmp, s, x) {
      Sides(cmp, s, x, r);
      SliceAscending(cmp, s, r + 1, |s|);
      assert s[r + 1..] == s[r + 1..|s|];
      SplitAscending(cmp, s[..r], x, s[r + 1..]);
      assert s[r := x] == s[..r] + [x] + s[r + 1..];
    } else {
      if r < |s| {
        Sides(cmp, s, x, r);
      }
      SplitAscending(cmp, s[..r], x, s[r..]);
    }
  }

  lemma SplitAscending<T(!new)>(cmp: (T, T) -> int, a: seq<T>, x: T, b: seq<T>)
    requires Comparison(cmp) && Ascending(cmp, a) && Ascending(cmp, b)
    requires forall i :: 0 <= i < |a| ==> cmp(x, a[i]) > 0
    requires forall i :: 0 <= i < |b| ==> cmp(x, b[i]) < 0
    ensures Ascending(cmp, a + [x] + b)
  {
    forall i | 0 <= i < |a| ensures cmp(a[i], x) < 0 {
      assert Opposite(cmp, a[i], x);
    }
    WedgeAscending(cmp, a, x, b);
  }

  lemma WedgeAscending<T(!new)>(cmp: (T, T) -> int, a: seq<T>, x: T, b: seq<T>)
    requires Comparison(cmp) && Ascending(cmp, a) && Ascending(cmp, b)
    requires forall i :: 0 <= i < |a| ==> cmp(a[i], x) < 0
    requires forall i :: 0 <= i < |b| ==> cmp(x, b[i]) < 0
    ensures Ascending(cmp, a + [x] + b)
  {
    var t := a + [x] + b;
    forall i: nat, j: nat | i < j < |t| ensures Below(cmp, t, i, j) {
      if j < |a| {
        assert Below(cmp, a, i, j);
      } else if i > |a| {
        assert Below(cmp, b, i - |a| - 1, j - |a| - 1);
      } else if i < |a| < j {
        StrictLeft(cmp, a[i], x, b[j - |a| - 1]);
      }
    }
  }

  lemma RemovedAscending<T>(cmp: (T, T) -> int, s: seq<T>, r: nat)
    requires Ascending(cmp, s) && r < |s|
    ensures Ascending(cmp, CutOut(s, r))
  {
    var t := CutOut(s, r);
    forall i: nat, j: nat | i < j < |t| ensures Below(cmp, t, i, j) {
      assert Below(cmp, s, if i < r then i else i + 1, if j < r then j else j + 1);
    }
  }

  lemma SliceAscending<T>(cmp: (T, T) -> int, s: seq<T>, lo: nat, hi: nat)
    requires Ascending(cmp, s) && lo <= hi <= |s|
    ensures Ascending(cmp, s[lo..hi])
  {
    forall i: nat, j: nat | i < j < hi - lo ensures Below(cmp, s[lo..hi], i, j) {
      assert Below(cmp, s, lo + i, lo + j);
    }
  }

  /** An item is found exactly when some stored item equals it in order, and that item is unique. */
  lemma FoundIff<T(!new)>(cmp: (T, T) -> int, s: seq<T>, x: T, y: T)
    requires Comparison(cmp) && Ascending(cmp, s)
    ensures Found(cmp, s, x) == Some(y) <==> y in s && cmp(x, y) == 0
  {
    if y in s && cmp(x, y) == 0 {
      var k :| 0 <= k < |s| && s[k] == y;
      Sides(cmp, s, x, k);
      RankIs(cmp, s, x, k);
    }
  }

  /** Outside positions lo to hi, every item of `s` is known to be below or above `x`. */
  ghost predicate Settled<T>(cmp: (T, T) -> int, s: seq<T>, x: T, lo: nat, hi: nat) {
    && lo <= hi <= |s|
    && (forall i :: 0 <= i < lo ==> cmp(x, s[i]) > 0)
    && (forall i :: hi <= i < |s| ==> cmp(x, s[i]) < 0)
  }

  lemma SettleHit<T(!new)>(cmp: (T, T) -> int, s: seq<T>, x: T, k: nat)
    requires Comparison(cmp) && Ascending(cmp, s) && k < |s| && cmp(x, s[k]) == 0
    ensures Hit(cmp, s, x) && Rank(cmp, s, x) == k
  {
    Sides(cmp, s, x, k);
    RankIs(cmp, s, x, k);
  }

  /** Comparing with the item between `l` items on its left and `r` items on its right. */
  lemma SettleDown<T(!new)>(cmp: (T, T) -> int, s: seq<T>, x: T, lo: nat, l: nat, r: nat)
    requires Comparison(cmp) && Ascending(cmp, s) && Settled(cmp, s, x, lo, lo + l + 1 + r)
    ensures cmp(x, s[lo + l]) < 0 ==> Settled(cmp, s, x, lo, lo + l)
    ensures cmp(x, s[lo + l]) > 0 ==> Settled(cmp, s, x, lo + l + 1, lo + l + 1 + r)
  {
    Sides(cmp, s, x, lo + l);
  }

  lemma SettledMiss<T>(cmp: (T, T) -> int, s: seq<T>, x: T, k: nat)
    requires Settled(cmp, s, x, k, k)
    ensures !Hit(cmp, s, x) && Rank(cmp, s, x) == k
  {
    RankIs(cmp, s, x, k);
  }
}
