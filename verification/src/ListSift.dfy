/**
 What the quicksort of src/lib/linklist.c comes to, and when it fails: at a relink it reads the list that the pivot
 names, and an entry that was inserted between two others names none.
 */
module ListSift {
  import opened Options
  import opened LinkCells
  import opened ListOrder

  /** The entries of a list, their values, and which of them name the list. */
  datatype Row = Row(nodes: seq<Entry>, values: seq<Value>, named: seq<bool>)

  ghost predicate Matched(r: Row) {
    |r.nodes| == |r.values| == |r.named|
  }

  /** src/lib/linklist.c:1077-1078 */
  function SkipUp(v: seq<Value>, a: nat, k: nat, x: Value, cmp: Compare): (i: nat)
    requires a <= k < |v|
    ensures a <= i <= k && (i < k ==> cmp(v[i], x) <= 0)
    decreases k - a
  {
    if a == k || cmp(v[a], x) <= 0 then a else SkipUp(v, a + 1, k, x, cmp)
  }

  /** src/lib/linklist.c:1080-1081 */
  function SkipDown(v: seq<Value>, k: nat, b: nat, x: Value, cmp: Compare): (j: nat)
    requires k <= b < |v|
    ensures k <= j <= b && (k < j ==> cmp(v[j], x) >= 0)
    decreases b - k
  {
    if b == k || cmp(v[b], x) >= 0 then b else SkipDown(v, k, b - 1, x, cmp)
  }

  ghost function Displaced(r: Row, i: nat, j: nat): (s: Row)
    requires Matched(r) && i < |r.values| && j < |r.values|
    ensures Matched(s) && |s.values| == |r.values|
  {
    Row(Relocated(r.nodes, i, j), Relocated(r.values, i, j), Relocated(r.named, i, j))
  }

  ghost function Traded(r: Row, i: nat, j: nat): (s: Row)
    requires Matched(r) && i < |r.values| && j < |r.values|
    ensures Matched(s) && |s.values| == |r.values|
  {
    r.(values := Exchanged(r.values, i, j))
  }

  /** A row in which the part from `a` to `b` is still to be looked at, with the pivot at `k`. */
  datatype Part = Part(row: Row, a: nat, k: nat, b: nat)

  ghost predicate Proper(p: Part) {
    Matched(p.row) && p.a <= p.k <= p.b < |p.row.values|
  }

  /** What both skips leave. */
  ghost function Skipped(p: Part, x: Value, cmp: Compare): (q: Part)
    requires Proper(p)
    ensures Proper(q) && q.b - q.a <= p.b - p.a && p.a <= q.a && q.b <= p.b && q.k == p.k && q.row == p.row
  {
    p.(a := SkipUp(p.row.values, p.a, p.k, x, cmp), b := SkipDown(p.row.values, p.k, p.b, x, cmp))
  }

  /** src/lib/linklist.c:1086-1158: one turn of the loop; None if it fails. */
  ghost function Turned(p: Part): (q: Option<Part>)
    requires Proper(p) && p.a < p.b
    ensures q.Some? ==>
              && Proper(q.value) && p.a <= q.value.a && q.value.b <= p.b && q.value.b - q.value.a < p.b - p.a
              && |q.value.row.values| == |p.row.values|
  {
    if p.a == p.k then
      if p.row.named[p.k] then Some(Part(Displaced(p.row, p.b, p.k), p.k + 1, p.k + 1, p.b)) else None
    else if p.b == p.k then
      if p.row.named[p.k] then Some(Part(Displaced(p.row, p.a, p.k), p.a, p.k - 1, p.k - 1)) else None
    else Some(Part(Traded(p.row, p.a, p.b), p.a + 1, p.k, p.b - 1))
  }

  /** src/lib/linklist.c:1075-1160: what the loop leaves of the row, and where the pivot is then; None if it fails. */
  ghost function Sift(p: Part, x: Value, cmp: Compare): (s: Option<Part>)
    requires Proper(p)
    ensures s.Some? ==>
              && Proper(s.value) && |s.value.row.values| == |p.row.values|
              && p.a <= s.value.a == s.value.k == s.value.b <= p.b
    decreases p.b - p.a
  {
    var q := Skipped(p, x, cmp);
    if q.a == q.b then Some(q)
    else if Turned(q).None? then None
    else Sift(Turned(q).value, x, cmp)
  }

  /** The pivot of the part before `k`, and that of the part behind it. */
  function LeftPivot(lo: nat, k: nat): (i: nat)
    requires lo <= k
    ensures k - lo >= 2 ==> lo <= i < k
  {
    lo + (k - lo) / 2
  }

  function RightPivot(k: nat, hi: nat): (i: nat)
    requires k < hi
    ensures hi - k - 1 >= 2 ==> k + 1 <= i < hi
  {
    hi - 1 - (hi - k - 1) / 2
  }

  /** src/lib/linklist.c:1057-1184 */
  ghost function Quick(r: Row, lo: nat, hi: nat, k0: nat, cmp: Compare): (s: Option<Row>)
    requires Matched(r) && lo <= hi <= |r.values| && (hi - lo >= 2 ==> lo <= k0 < hi)
    ensures s.Some? ==> Matched(s.value) && |s.value.values| == |r.values|
    decreases hi - lo
  {
    if hi - lo < 2 then Some(r)
    else if hi - lo == 2 then
      Some(if cmp(r.values[lo], r.values[lo + 1]) < 0 then Traded(r, lo, lo + 1) else r)
    else
      var s := Sift(Part(r, lo, k0, hi - 1), r.values[k0], cmp);
      if s.None? then None else Halves(s.value.row, lo, s.value.k, hi, cmp)
  }

  /** src/lib/linklist.c:1162-1183 */
  ghost function Halves(r: Row, lo: nat, k: nat, hi: nat, cmp: Compare): (s: Option<Row>)
    requires Matched(r) && lo <= k < hi <= |r.values|
    ensures s.Some? ==> Matched(s.value) && |s.value.values| == |r.values|
    decreases hi - lo, 0
  {
    var s := Quick(r, lo, k, LeftPivot(lo, k), cmp);
    if s.None? then None else Quick(s.value, k + 1, hi, RightPivot(k, hi), cmp)
  }

  // ----- when a partition fails

  /** How many values of a range belong behind the pivot. */
  ghost function Lows(v: seq<Value>, lo: nat, hi: nat, x: Value, cmp: Compare): nat
    requires hi <= |v|
    decreases hi - lo
  {
    if lo >= hi then 0 else (if cmp(v[lo], x) <= 0 then 1 else 0) + Lows(v, lo + 1, hi, x, cmp)
  }

  /** How many values of a range belong before the pivot. */
  ghost function Highs(v: seq<Value>, lo: nat, hi: nat, x: Value, cmp: Compare): nat
    requires hi <= |v|
    decreases hi - lo
  {
    if lo >= hi then 0 else (if cmp(v[hi - 1], x) >= 0 then 1 else 0) + Highs(v, lo, hi - 1, x, cmp)
  }

  lemma {:induction false} LowsSkipped(v: seq<Value>, a: nat, k: nat, x: Value, cmp: Compare)
    requires a <= k < |v|
    ensures Lows(v, SkipUp(v, a, k, x, cmp), k, x, cmp) == Lows(v, a, k, x, cmp)
    decreases k - a
  {
    if a < k && cmp(v[a], x) > 0 {
      LowsSkipped(v, a + 1, k, x, cmp);
    }
  }

  lemma {:induction false} HighsSkipped(v: seq<Value>, k: nat, b: nat, x: Value, cmp: Compare)
    requires k <= b < |v|
    ensures Highs(v, k + 1, SkipDown(v, k, b, x, cmp) + 1, x, cmp) == Highs(v, k + 1, b + 1, x, cmp)
    decreases b - k
  {
    if k < b && cmp(v[b], x) < 0 {
      HighsSkipped(v, k, b - 1, x, cmp);
    }
  }

  lemma {:induction false} LowsSame(v: seq<Value>, w: seq<Value>, lo: nat, hi: nat, x: Value, cmp: Compare)
    requires hi <= |v| == |w| && forall i :: lo <= i < hi ==> w[i] == v[i]
    ensures Lows(w, lo, hi, x, cmp) == Lows(v, lo, hi, x, cmp)
    decreases hi - lo
  {
    if lo < hi {
      LowsSame(v, w, lo + 1, hi, x, cmp);
    }
  }

  lemma {:induction false} HighsSame(v: seq<Value>, w: seq<Value>, lo: nat, hi: nat, x: Value, cmp: Compare)
    requires hi <= |v| == |w| && forall i :: lo <= i < hi ==> w[i] == v[i]
    ensures Highs(w, lo, hi, x, cmp) == Highs(v, lo, hi, x, cmp)
    decreases hi - lo
  {
    if lo < hi {
      HighsSame(v, w, lo, hi - 1, x, cmp);
    }
  }

  /** As many values before the pivot belong behind it as values behind it belong before it. */
  ghost predicate Balanced(p: Part, x: Value, cmp: Compare)
    requires Proper(p)
  {
    Lows(p.row.values, p.a, p.k, x, cmp) == Highs(p.row.values, p.k + 1, p.b + 1, x, cmp)
  }

  lemma TurnedNamed(p: Part)
    requires Proper(p) && p.a < p.b && Turned(p).Some?
    ensures Turned(p).value.row.named[Turned(p).value.k] == p.row.named[p.k]
  {
    if p.a == p.k {
      RelocatedDown(p.row.named, p.b, p.k, p.k + 1);
    } else if p.b == p.k {
      RelocatedUp(p.row.named, p.a, p.k, p.k - 1);
    }
  }

  lemma TurnedBalanced(p: Part, x: Value, cmp: Compare)
    requires Proper(p) && p.a < p.b && Skipped(p, x, cmp) == p
    ensures p.a == p.k || p.b == p.k ==> !Balanced(p, x, cmp)
    ensures p.a < p.k < p.b ==> (Balanced(Turned(p).value, x, cmp) <==> Balanced(p, x, cmp))
  {
    var v := p.row.values;
    if p.a < p.k < p.b {
      LowsSame(v, Exchanged(v, p.a, p.b), p.a + 1, p.k, x, cmp);
      HighsSame(v, Exchanged(v, p.a, p.b), p.k + 1, p.b, x, cmp);
    }
  }

  lemma SkippedBalanced(p: Part, x: Value, cmp: Compare)
    requires Proper(p)
    ensures Balanced(Skipped(p, x, cmp), x, cmp) <==> Balanced(p, x, cmp)
    ensures Skipped(Skipped(p, x, cmp), x, cmp) == Skipped(p, x, cmp)
  {
    LowsSkipped(p.row.values, p.a, p.k, x, cmp);
    HighsSkipped(p.row.values, p.k, p.b, x, cmp);
  }

  /**
   A partition goes through exactly if the pivot names the list, or if as many values before it belong behind it as
   values behind it belong before it, so that they all change places in pairs.
   */
  lemma {:induction false} SiftWhen(p: Part, x: Value, cmp: Compare)
    requires Proper(p)
    ensures Sift(p, x, cmp).Some? <==> p.row.named[p.k] || Balanced(p, x, cmp)
    decreases p.b - p.a
  {
    var q := Skipped(p, x, cmp);
    SkippedBalanced(p, x, cmp);
    if q.a < q.b {
      TurnedBalanced(q, x, cmp);
      if Turned(q).Some? {
        TurnedNamed(q);
        SiftWhen(Turned(q).value, x, cmp);
      }
    }
  }

  // ----- lists in which all entries name their list

  ghost predicate AllNamed(r: Row) {
    forall i {:trigger r.named[i]} :: 0 <= i < |r.named| ==> r.named[i]
  }

  lemma DisplacedNamed(r: Row, i: nat, j: nat)
    requires Matched(r) && AllNamed(r) && i < |r.values| && j < |r.values|
    ensures AllNamed(Displaced(r, i, j))
  {
    forall k | 0 <= k < |r.named| ensures Displaced(r, i, j).named[k] {
      if i <= j {
        RelocatedUp(r.named, i, j, k);
      } else {
        RelocatedDown(r.named, i, j, k);
      }
    }
  }

  lemma TurnedAllNamed(p: Part)
    requires Proper(p) && p.a < p.b && AllNamed(p.row)
    ensures Turned(p).Some? && AllNamed(Turned(p).value.row)
  {
    if p.a == p.k {
      DisplacedNamed(p.row, p.b, p.k);
    } else if p.b == p.k {
      DisplacedNamed(p.row, p.a, p.k);
    }
  }

  lemma {:induction false} SiftNamed(p: Part, x: Value, cmp: Compare)
    requires Proper(p) && AllNamed(p.row)
    ensures Sift(p, x, cmp).Some? && AllNamed(Sift(p, x, cmp).value.row)
    decreases p.b - p.a
  {
    var q := Skipped(p, x, cmp);
    if q.a < q.b {
      TurnedAllNamed(q);
      SiftNamed(Turned(q).value, x, cmp);
    }
  }

  /** Such lists can always be sorted. */
  lemma {:induction false} QuickNamed(r: Row, lo: nat, hi: nat, k0: nat, cmp: Compare)
    requires Matched(r) && lo <= hi <= |r.values| && (hi - lo >= 2 ==> lo <= k0 < hi) && AllNamed(r)
    ensures Quick(r, lo, hi, k0, cmp).Some? && AllNamed(Quick(r, lo, hi, k0, cmp).value)
    decreases hi - lo
  {
    if hi - lo > 2 {
      SiftNamed(Part(r, lo, k0, hi - 1), r.values[k0], cmp);
      var s := Sift(Part(r, lo, k0, hi - 1), r.values[k0], cmp).value;
      HalvesNamed(s.row, lo, s.k, hi, cmp);
    }
  }

  lemma {:induction false} HalvesNamed(r: Row, lo: nat, k: nat, hi: nat, cmp: Compare)
    requires Matched(r) && lo <= k < hi <= |r.values| && AllNamed(r)
    ensures Halves(r, lo, k, hi, cmp).Some? && AllNamed(Halves(r, lo, k, hi, cmp).value)
    decreases hi - lo, 0
  {
    var i, j := LeftPivot(lo, k), RightPivot(k, hi);
    QuickNamed(r, lo, k, i, cmp);
    var s := Quick(r, lo, k, i, cmp).value;
    QuickNamed(s, k + 1, hi, j, cmp);
  }

  // ----- what a sort comes to

  /** In a part of the row the values have changed places, and so have the entries; the rest is as it was. */
  ghost predicate Stirred(r: Row, s: Row, lo: nat, hi: nat) {
    Matched(r) && Matched(s) && Shuffled(r.values, s.values, lo, hi) && Aside(r.nodes, s.nodes, lo, hi)
  }

  lemma StirredMore(r: Row, s: Row, u: Row, lo: nat, hi: nat)
    requires Stirred(r, s, lo, hi) && Stirred(s, u, lo, hi)
    ensures Stirred(r, u, lo, hi)
  {
    ShuffledMore(r.values, s.values, u.values, lo, hi);
    AsideMore(r.nodes, s.nodes, u.nodes, lo, hi);
  }

  /** The part from `lo` to `hi` is being split: what is done lies before `p.a` and behind `p.b`. */
  ghost predicate Splitting(p: Part, lo: nat, hi: nat, x: Value, cmp: Compare) {
    Matched(p.row) && Parting(p.row.values, lo, hi, p.a, p.k, p.b, x, cmp)
  }

  lemma SkippedSplitting(p: Part, lo: nat, hi: nat, x: Value, cmp: Compare)
    requires Splitting(p, lo, hi, x, cmp)
    ensures Proper(p) && Splitting(Skipped(p, x, cmp), lo, hi, x, cmp)
  {
    SkipsHigher(p.row.values, p.a, p.k, x, cmp);
    SkipsLower(p.row.values, p.k, p.b, x, cmp);
  }

  lemma {:induction false} SkipsHigher(v: seq<Value>, a: nat, k: nat, x: Value, cmp: Compare)
    requires a <= k < |v|
    ensures Above(v, a, SkipUp(v, a, k, x, cmp), x, cmp)
    decreases k - a
  {
    if a < k && cmp(v[a], x) > 0 {
      SkipsHigher(v, a + 1, k, x, cmp);
    }
  }

  lemma {:induction false} SkipsLower(v: seq<Value>, k: nat, b: nat, x: Value, cmp: Compare)
    requires k <= b < |v|
    ensures Below(v, SkipDown(v, k, b, x, cmp) + 1, b + 1, x, cmp)
    decreases b - k
  {
    if k < b && cmp(v[b], x) < 0 {
      SkipsLower(v, k, b - 1, x, cmp);
    }
  }

  lemma TurnedSplitting(p: Part, lo: nat, hi: nat, x: Value, cmp: Compare)
    requires Splitting(p, lo, hi, x, cmp) && p.a < p.b && Turned(p).Some?
    requires (p.a < p.k ==> cmp(p.row.values[p.a], x) <= 0) && (p.k < p.b ==> cmp(p.row.values[p.b], x) >= 0)
    ensures Splitting(Turned(p).value, lo, hi, x, cmp) && Stirred(p.row, Turned(p).value.row, lo, hi)
  {
    if p.a == p.k {
      DownStep(p.row.values, lo, hi, p.k, p.b, x, cmp);
      RelocatedAside(p.row.nodes, p.b, p.k, lo, hi);
    } else if p.b == p.k {
      UpStep(p.row.values, lo, hi, p.a, p.k, x, cmp);
      RelocatedAside(p.row.nodes, p.a, p.k, lo, hi);
    } else {
      SwapStep(p.row.values, lo, hi, p.a, p.k, p.b, x, cmp);
    }
  }

  /** Afterwards no value before the pivot is below it, and none behind it above. */
  lemma {:induction false} SiftSplits(p: Part, lo: nat, hi: nat, x: Value, cmp: Compare)
    requires Splitting(p, lo, hi, x, cmp) && Proper(p) && Sift(p, x, cmp).Some?
    ensures
      var q := Sift(p, x, cmp).value;
      && lo <= q.k < hi <= |q.row.values| && q.row.values[q.k] == x && Stirred(p.row, q.row, lo, hi)
      && Above(q.row.values, lo, q.k, x, cmp) && Below(q.row.values, q.k + 1, hi, x, cmp)
    decreases p.b - p.a
  {
    var q := Skipped(p, x, cmp);
    SkippedSplitting(p, lo, hi, x, cmp);
    if q.a < q.b {
      TurnedSplitting(q, lo, hi, x, cmp);
      SiftSplits(Turned(q).value, lo, hi, x, cmp);
      StirredMore(p.row, Turned(q).value.row, Sift(p, x, cmp).value.row, lo, hi);
    } else {
      ShuffledSelf(p.row.values, lo, hi);
    }
  }

  /** Afterwards the part is in order. */
  ghost predicate Sorted(r: Row, s: Row, lo: nat, hi: nat, cmp: Compare) {
    Stirred(r, s, lo, hi) && Descending(s.values, lo, hi, cmp)
  }

  lemma {:induction false} QuickSorts(r: Row, lo: nat, hi: nat, k0: nat, cmp: Compare)
    requires Matched(r) && lo <= hi <= |r.values| && (hi - lo >= 2 ==> lo <= k0 < hi) && Preorder(cmp)
    requires Quick(r, lo, hi, k0, cmp).Some?
    ensures Sorted(r, Quick(r, lo, hi, k0, cmp).value, lo, hi, cmp)
    decreases hi - lo
  {
    ShuffledSelf(r.values, lo, hi);
    if hi - lo == 2 {
      TwoSorted(r, lo, cmp);
    } else if hi - lo > 2 {
      var p := Part(r, lo, k0, hi - 1);
      SiftSplits(p, lo, hi, r.values[k0], cmp);
      var q := Sift(p, r.values[k0], cmp).value;
      HalvesSort(q.row, lo, q.k, hi, cmp);
      StirredMore(r, q.row, Quick(r, lo, hi, k0, cmp).value, lo, hi);
    }
  }

  lemma TwoSorted(r: Row, lo: nat, cmp: Compare)
    requires Matched(r) && Preorder(cmp) && lo + 2 <= |r.values|
    ensures
      Sorted(r, if cmp(r.values[lo], r.values[lo + 1]) < 0 then Traded(r, lo, lo + 1) else r, lo, lo + 2, cmp)
  {
    var x, y := r.values[lo], r.values[lo + 1];
    assert OrderedAt(cmp, x, y, x) && OrderedAt(cmp, y, x, y);
    ShuffledSelf(r.values, lo, lo + 2);
    ExchangedShuffled(r.values, lo, lo + 1);
  }

  lemma {:induction false} HalvesSort(r: Row, lo: nat, k: nat, hi: nat, cmp: Compare)
    requires Matched(r) && lo <= k < hi <= |r.values| && Preorder(cmp) && Halves(r, lo, k, hi, cmp).Some?
    requires Above(r.values, lo, k, r.values[k], cmp) && Below(r.values, k + 1, hi, r.values[k], cmp)
    ensures Sorted(r, Halves(r, lo, k, hi, cmp).value, lo, hi, cmp)
    decreases hi - lo, 0
  {
    var i, j := LeftPivot(lo, k), RightPivot(k, hi);
    QuickSorts(r, lo, k, i, cmp);
    var s := Quick(r, lo, k, i, cmp).value;
    QuickSorts(s, k + 1, hi, j, cmp);
    var u := Quick(s, k + 1, hi, j, cmp).value;
    PartsSorted(r.values, s.values, u.values, lo, k, hi, cmp);
    AsideBoth(r.nodes, s.nodes, u.nodes, lo, k, hi);
  }

  // ----- the loop of the program

  /** What a sort has answered and left. */
  ghost predicate Brought(ok: bool, to: Option<Row>, s: Row) {
    (ok <==> to.Some?) && (ok ==> to == Some(s))
  }

  lemma NothingToSort(r: Row, lo: nat, hi: nat, k0: nat, cmp: Compare)
    requires Matched(r) && lo <= hi <= |r.values| && hi - lo < 2
    ensures Brought(true, Quick(r, lo, hi, k0, cmp), r)
  {
  }

  /** Where the variables of the loop stand: both runners, the pivot, first and last entry of the part. */
  ghost predicate Spots(l: seq<Entry>, lo: nat, hi: int, a: nat, k: nat, b: int, p1: Entry, p2: Entry, pivot: Entry,
                        h: Entry, t: Entry) {
    && lo <= a <= k <= b < hi <= |l| && l[a] == p1 && l[b] == p2 && l[k] == pivot && l[lo] == h && l[hi - 1] == t
  }

  /** Where runners and pivot stand after a turn. */
  function NextA(a: nat, k: nat, b: nat): nat {
    if a == k then k + 1 else if b == k then a else a + 1
  }

  function NextK(a: nat, k: nat, b: nat): nat {
    if a == k then k + 1 else if b == k && k > 0 then k - 1 else k
  }

  function NextB(a: nat, k: nat, b: nat): nat {
    if a == k || b == 0 then b else b - 1
  }

  ghost predicate NextSpots(l: seq<Entry>, lo: nat, hi: int, a: nat, k: nat, b: nat, p1: Entry, p2: Entry, pivot: Entry,
                            h: Entry, t: Entry) {
    Spots(l, lo, hi, NextA(a, k, b), NextK(a, k, b), NextB(a, k, b), p1, p2, pivot, h, t)
  }

  ghost predicate Stepped(ok: bool, r: Row, s: Row, a: nat, k: nat, b: nat) {
    && Matched(r) && a <= k <= b < |r.values| && a < b && (ok <==> Turned(Part(r, a, k, b)).Some?)
    && (ok ==> Turned(Part(r, a, k, b)) == Some(Part(s, NextA(a, k, b), NextK(a, k, b), NextB(a, k, b))))
  }

  lemma SteppedDown(r: Row, s: Row, a: nat, k: nat, b: nat)
    requires Matched(r) && a == k < b < |r.values| && r.named[k] && s == Displaced(r, b, k)
    ensures Stepped(true, r, s, a, k, b)
  {
  }

  lemma SteppedUp(r: Row, s: Row, a: nat, k: nat, b: nat)
    requires Matched(r) && a < k == b < |r.values| && r.named[k] && s == Displaced(r, a, k)
    ensures Stepped(true, r, s, a, k, b)
  {
  }

  lemma SteppedBoth(r: Row, s: Row, a: nat, k: nat, b: nat)
    requires Matched(r) && a < k < b < |r.values| && s == Traded(r, a, b)
    ensures Stepped(true, r, s, a, k, b)
  {
  }

  lemma StuckThere(r: Row, a: nat, k: nat, b: nat)
    requires Matched(r) && a <= k <= b < |r.values| && a < b && (a == k || b == k) && !r.named[k]
    ensures Stepped(false, r, r, a, k, b)
  {
  }

  /** While there is more to do, and then. */
  ghost predicate OnTheWay(more: bool, ok: bool, goal: Option<Part>, s: Row, lo: nat, hi: nat, a: nat, k: nat, b: nat,
                           p1: Entry, p2: Entry, pivot: Entry, h: Entry, t: Entry, x: Value, cmp: Compare) {
    && Matched(s)
    && if more then ok && Spots(s.nodes, lo, hi, a, k, b, p1, p2, pivot, h, t) && Sift(Part(s, a, k, b), x, cmp) == goal
       else
         && (ok <==> goal.Some?)
         && (ok ==> goal == Some(Part(s, k, k, k)) && Spots(s.nodes, lo, hi, k, k, k, pivot, pivot, pivot, h, t))
  }

  lemma SiftSkips(r: Row, a0: nat, a: nat, k: nat, b: nat, b0: nat, x: Value, cmp: Compare)
    requires Matched(r) && a0 <= k <= b0 < |r.values|
    requires a == SkipUp(r.values, a0, k, x, cmp) && b == SkipDown(r.values, k, b0, x, cmp)
    ensures Sift(Part(r, a, k, b), x, cmp) == Sift(Part(r, a0, k, b0), x, cmp)
    ensures Skipped(Part(r, a, k, b), x, cmp) == Part(r, a, k, b)
    ensures a == b ==> Sift(Part(r, a, k, b), x, cmp) == Some(Part(r, k, k, k))
  {
    SkippedBalanced(Part(r, a0, k, b0), x, cmp);
    assert Skipped(Part(r, a0, k, b0), x, cmp) == Part(r, a, k, b);
  }

  lemma SiftStep(ok: bool, r: Row, s: Row, a: nat, k: nat, b: nat, x: Value, cmp: Compare)
    requires Stepped(ok, r, s, a, k, b) && Skipped(Part(r, a, k, b), x, cmp) == Part(r, a, k, b)
    ensures ok ==>
              var p := Part(s, NextA(a, k, b), NextK(a, k, b), NextB(a, k, b));
              Proper(p) && p.b - p.a < b - a && Sift(p, x, cmp) == Sift(Part(r, a, k, b), x, cmp)
    ensures !ok ==> Sift(Part(r, a, k, b), x, cmp).None?
  {
  }

  /** src/lib/linklist.c:1190 */
  function FirstPivot(n: nat): (k: nat)
    ensures n >= 2 ==> k < n
  {
    if n >= 2 then n / 2 - 1 else 0
  }

  /** The condition under which the whole list can be sorted. */
  ghost predicate CanSort(r: Row, cmp: Compare)
    requires Matched(r)
  {
    Quick(r, 0, |r.values|, FirstPivot(|r.values|), cmp).Some?
  }

  ghost function WholeSort(r: Row, cmp: Compare): (s: Row)
    requires Matched(r) && CanSort(r, cmp)
    ensures Matched(s) && |s.values| == |r.values|
  {
    Quick(r, 0, |r.values|, FirstPivot(|r.values|), cmp).value
  }

  /** The same values, the greater ones first. */
  lemma WholeSorted(r: Row, cmp: Compare)
    requires Matched(r) && Preorder(cmp) && CanSort(r, cmp)
    ensures
      var v, w := r.values, WholeSort(r, cmp).values;
      multiset(w) == multiset(v) && forall i, j :: 0 <= i < j < |w| ==> cmp(w[i], w[j]) >= 0
  {
    QuickSorts(r, 0, |r.values|, FirstPivot(|r.values|), cmp);
    SameMultiset(r.values, WholeSort(r, cmp).values);
  }

  lemma SameMultiset(v: seq<Value>, w: seq<Value>)
    requires Shuffled(v, w, 0, |v|)
    ensures multiset(w) == multiset(v)
  {
    BagSlice(v, 0, |v|);
    BagSlice(w, 0, |v|);
    assert v[0..|v|] == v && w[0..|v|] == w;
  }

  lemma WholeNamed(r: Row, cmp: Compare)
    requires Matched(r) && AllNamed(r)
    ensures CanSort(r, cmp) && AllNamed(WholeSort(r, cmp))
  {
    QuickNamed(r, 0, |r.values|, FirstPivot(|r.values|), cmp);
  }

  lemma NamedRelocated(c: Cells, d: Cells, nodes: seq<Entry>, i: nat, j: nat, l: object)
    requires SameLists(c, d) && i < |nodes| && j < |nodes|
    ensures Named(d, Relocated(nodes, i, j), l) == Relocated(Named(c, nodes, l), i, j)
  {
    NamedSame(c, d, nodes, l);
    var r := Named(c, nodes, l);
    forall k | 0 <= k < |nodes| ensures Named(d, Relocated(nodes, i, j), l)[k] == Relocated(r, i, j)[k] {
      if i <= j {
        RelocatedUp(nodes, i, j, k);
        RelocatedUp(r, i, j, k);
      } else {
        RelocatedDown(nodes, i, j, k);
        RelocatedDown(r, i, j, k);
      }
    }
  }
}
