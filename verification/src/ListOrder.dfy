/** What the quicksort of src/lib/linklist.c does to the sequence of values. */
module ListOrder {
  import opened Sequences
  import opened LinkCells

  type Compare = (Value, Value) -> int

  ghost predicate OrderedAt(cmp: Compare, a: Value, b: Value, c: Value) {
    && (cmp(a, b) > 0 <==> cmp(b, a) < 0)
    && (cmp(a, b) >= 0 && cmp(b, c) >= 0 ==> cmp(a, c) >= 0)
  }

  /** A comparator that orders values; different values may be equal to it. */
  ghost predicate Preorder(cmp: Compare) {
    forall a, b, c {:trigger OrderedAt(cmp, a, b, c)} :: OrderedAt(cmp, a, b, c)
  }

  /** Outside of the range from `lo` to `hi` nothing has changed. */
  ghost predicate Aside<N>(l: seq<N>, m: seq<N>, lo: nat, hi: nat) {
    |l| == |m| && forall i {:trigger m[i]} :: 0 <= i < |l| && !(lo <= i < hi) ==> m[i] == l[i]
  }

  /** The values of a range, with how often they occur. */
  ghost function Bag(l: seq<Value>, lo: nat, hi: nat): multiset<Value>
    requires lo <= hi <= |l|
    decreases hi - lo
  {
    if lo == hi then multiset{} else Bag(l, lo, hi - 1) + multiset{l[hi - 1]}
  }

  lemma {:induction false} BagSlice(l: seq<Value>, lo: nat, hi: nat)
    requires lo <= hi <= |l|
    ensures Bag(l, lo, hi) == multiset(l[lo..hi])
    decreases hi - lo
  {
    if lo < hi {
      BagSlice(l, lo, hi - 1);
      LastFramed(l, lo, hi - 1);
    }
  }

  /** Inside the range the values have changed places. */
  ghost predicate Shuffled(l: seq<Value>, m: seq<Value>, lo: nat, hi: nat) {
    lo <= hi <= |l| && Aside(l, m, lo, hi) && Bag(m, lo, hi) == Bag(l, lo, hi)
  }

  lemma ShuffledSlices(l: seq<Value>, m: seq<Value>, lo: nat, hi: nat)
    requires lo <= hi <= |l| && Aside(l, m, lo, hi)
    ensures Shuffled(l, m, lo, hi) <==> multiset(m[lo..hi]) == multiset(l[lo..hi])
  {
    BagSlice(l, lo, hi);
    BagSlice(m, lo, hi);
  }

  ghost predicate Descending(v: seq<Value>, lo: nat, hi: nat, cmp: Compare) {
    forall i, j :: lo <= i < j < hi && j < |v| ==> cmp(v[i], v[j]) >= 0
  }

  ghost predicate Above(v: seq<Value>, lo: nat, hi: nat, x: Value, cmp: Compare) {
    forall i {:trigger v[i]} :: lo <= i < hi && i < |v| ==> cmp(v[i], x) >= 0
  }

  ghost predicate Below(v: seq<Value>, lo: nat, hi: nat, x: Value, cmp: Compare) {
    forall i {:trigger v[i]} :: lo <= i < hi && i < |v| ==> cmp(v[i], x) <= 0
  }

  function Exchanged(l: seq<Value>, i: nat, j: nat): seq<Value>
    requires i < |l| && j < |l|
  {
    l[i := l[j]][j := l[i]]
  }

  /** The element at `i` taken out and put in at `j`. */
  function Relocated<N>(l: seq<N>, i: nat, j: nat): (m: seq<N>)
    requires i < |l| && j < |l|
    ensures |m| == |l|
  {
    InsertedAt(CutOut(l, i), j, l[i])
  }

  lemma CutIndex<N>(l: seq<N>, i: nat, k: nat)
    requires i < |l| && k < |l| - 1
    ensures CutOut(l, i)[k] == l[if k < i then k else k + 1]
  {
  }

  lemma InsertedIndexAt<N>(l: seq<N>, j: nat, x: N, k: nat)
    requires j <= |l| && k <= |l|
    ensures |InsertedAt(l, j, x)| == |l| + 1
    ensures InsertedAt(l, j, x)[k] == if k < j then l[k] else if k == j then x else l[k - 1]
  {
  }

  lemma RelocatedDown<N>(l: seq<N>, i: nat, j: nat, k: nat)
    requires j <= i < |l| && k < |l|
    ensures |Relocated(l, i, j)| == |l|
    ensures Relocated(l, i, j)[k] == l[if k < j || i < k then k else if k == j then i else k - 1]
  {
    InsertedIndexAt(CutOut(l, i), j, l[i], k);
    if k != j {
      CutIndex(l, i, if k < j then k else k - 1);
    }
  }

  lemma RelocatedUp<N>(l: seq<N>, i: nat, j: nat, k: nat)
    requires i <= j < |l| && k < |l|
    ensures |Relocated(l, i, j)| == |l|
    ensures Relocated(l, i, j)[k] == l[if k < i || j < k then k else if k == j then i else k + 1]
  {
    InsertedIndexAt(CutOut(l, i), j, l[i], k);
    if k != j {
      CutIndex(l, i, if k < j then k else k - 1);
    }
  }

  // ----- shuffling

  lemma AsideMore<N>(l: seq<N>, m: seq<N>, n: seq<N>, lo: nat, hi: nat)
    requires Aside(l, m, lo, hi) && Aside(m, n, lo, hi)
    ensures Aside(l, n, lo, hi)
  {
    forall i | 0 <= i < |l| && !(lo <= i < hi) ensures n[i] == l[i] {
      assert m[i] == l[i];
    }
  }

  lemma ShuffledMore(l: seq<Value>, m: seq<Value>, n: seq<Value>, lo: nat, hi: nat)
    requires Shuffled(l, m, lo, hi) && Shuffled(m, n, lo, hi)
    ensures Shuffled(l, n, lo, hi)
  {
    AsideMore(l, m, n, lo, hi);
  }

  /** A shuffle of a part is a shuffle of the whole. */
  lemma ShuffledPart(l: seq<Value>, m: seq<Value>, lo: nat, a: nat, b: nat, hi: nat)
    requires lo <= a && b <= hi <= |l| && Shuffled(l, m, a, b)
    ensures Shuffled(l, m, lo, hi)
  {
    assert l[lo..hi] == l[lo..a] + l[a..b] + l[b..hi];
    assert m[lo..hi] == m[lo..a] + m[a..b] + m[b..hi];
    assert l[lo..a] == m[lo..a] && l[b..hi] == m[b..hi];
    ShuffledSlices(l, m, a, b);
    ShuffledSlices(l, m, lo, hi);
  }

  lemma ShuffledSelf(l: seq<Value>, lo: nat, hi: nat)
    requires lo <= hi <= |l|
    ensures Shuffled(l, l, lo, hi)
  {
  }

  lemma Framed(l: seq<Value>, i: nat, j: nat)
    requires i < j < |l|
    ensures l[i..j + 1] == [l[i]] + l[i + 1..j] + [l[j]]
  {
  }

  lemma EndsTraded(x: Value, n: seq<Value>, y: Value)
    ensures multiset([x] + n + [y]) == multiset([y] + n + [x])
    ensures multiset([x] + n) == multiset(n + [x])
  {
  }

  /** Two values have changed places. */
  ghost predicate Swapped(l: seq<Value>, m: seq<Value>, i: nat, j: nat) {
    && i < j < |l| == |m| && m[i] == l[j] && m[j] == l[i]
    && forall k {:trigger m[k]} :: 0 <= k < |l| && k != i && k != j ==> m[k] == l[k]
  }

  lemma SwappedBag(l: seq<Value>, m: seq<Value>, i: nat, j: nat)
    requires Swapped(l, m, i, j)
    ensures multiset(m[i..j + 1]) == multiset(l[i..j + 1])
  {
    Framed(l, i, j);
    Framed(m, i, j);
    assert m[i + 1..j] == l[i + 1..j];
    EndsTraded(l[i], l[i + 1..j], l[j]);
  }

  lemma SwappedShuffled(l: seq<Value>, m: seq<Value>, i: nat, j: nat)
    requires Swapped(l, m, i, j)
    ensures Shuffled(l, m, i, j + 1)
  {
    SwappedBag(l, m, i, j);
    ShuffledSlices(l, m, i, j + 1);
  }

  lemma ExchangedShuffled(l: seq<Value>, i: nat, j: nat)
    requires i < j < |l|
    ensures Shuffled(l, Exchanged(l, i, j), i, j + 1)
  {
    SwappedShuffled(l, Exchanged(l, i, j), i, j);
  }

  /** The first value of a range has come to its end. */
  ghost predicate Rotated(l: seq<Value>, m: seq<Value>, i: nat, j: nat) {
    && i <= j < |l| == |m|
    && forall k {:trigger m[k]} ::
         0 <= k < |l| ==> m[k] == l[if k < i || j < k then k else if k == j then i else k + 1]
  }

  lemma RotatedBag(l: seq<Value>, m: seq<Value>, i: nat, j: nat)
    requires Rotated(l, m, i, j)
    ensures multiset(m[i..j + 1]) == multiset(l[i..j + 1])
  {
    FirstFramed(l, i, j);
    LastFramed(m, i, j);
    assert m[i..j] == l[i + 1..j + 1];
    EndsTraded(l[i], l[i + 1..j + 1], l[i]);
  }

  lemma RotatedAside(l: seq<Value>, m: seq<Value>, i: nat, j: nat)
    requires Rotated(l, m, i, j)
    ensures Aside(l, m, i, j + 1) && Aside(m, l, i, j + 1)
  {
    assert forall k {:trigger l[k]} :: 0 <= k < |l| && !(i <= k < j + 1) ==> l[k] == m[k];
  }

  lemma RotatedShuffled(l: seq<Value>, m: seq<Value>, i: nat, j: nat)
    requires Rotated(l, m, i, j)
    ensures Shuffled(l, m, i, j + 1) && Shuffled(m, l, i, j + 1)
  {
    RotatedBag(l, m, i, j);
    RotatedAside(l, m, i, j);
    ShuffledSlices(l, m, i, j + 1);
    ShuffledSlices(m, l, i, j + 1);
  }

  lemma UpShuffled(l: seq<Value>, i: nat, j: nat)
    requires i <= j < |l|
    ensures Shuffled(l, Relocated(l, i, j), i, j + 1)
  {
    var m := Relocated(l, i, j);
    forall k | 0 <= k < |l| ensures m[k] == l[if k < i || j < k then k else if k == j then i else k + 1] {
      RelocatedUp(l, i, j, k);
    }
    RotatedShuffled(l, m, i, j);
  }

  lemma DownShuffled(l: seq<Value>, i: nat, j: nat)
    requires j <= i < |l|
    ensures Shuffled(l, Relocated(l, i, j), j, i + 1)
  {
    var m := Relocated(l, i, j);
    forall k | 0 <= k < |l| ensures l[k] == m[if k < j || i < k then k else if k == i then j else k + 1] {
      RelocatedDown(l, i, j, if k < j || i < k then k else if k == i then j else k + 1);
    }
    RotatedShuffled(m, l, j, i);
  }

  lemma FirstFramed(l: seq<Value>, i: nat, j: nat)
    requires i <= j < |l|
    ensures l[i..j + 1] == [l[i]] + l[i + 1..j + 1]
  {
  }

  lemma LastFramed(l: seq<Value>, i: nat, j: nat)
    requires i <= j < |l|
    ensures l[i..j + 1] == l[i..j] + [l[j]]
  {
  }

  lemma InMultiset(l: seq<Value>, lo: nat, hi: nat, i: nat)
    requires lo <= i < hi <= |l|
    ensures l[i] in multiset(l[lo..hi])
  {
    assert l[lo..hi][i - lo] == l[i];
  }

  /** What holds of all values of a range still holds when they have changed places. */
  lemma AboveKept(l: seq<Value>, m: seq<Value>, lo: nat, hi: nat, x: Value, cmp: Compare)
    requires Shuffled(l, m, lo, hi)
    ensures Above(l, lo, hi, x, cmp) ==> Above(m, lo, hi, x, cmp)
    ensures Below(l, lo, hi, x, cmp) ==> Below(m, lo, hi, x, cmp)
  {
    ShuffledSlices(l, m, lo, hi);
    forall i | lo <= i < hi ensures exists j :: lo <= j < hi && l[j] == m[i] {
      InMultiset(m, lo, hi, i);
      assert m[i] in l[lo..hi];
    }
  }

  // ----- partitioning

  /** The part that is done lies before `a` and after `b`; the pivot, with the value `x`, is at `k`. */
  ghost predicate Parting(v: seq<Value>, lo: nat, hi: nat, a: nat, k: nat, b: nat, x: Value, cmp: Compare) {
    lo <= a <= k <= b < hi <= |v| && v[k] == x && Above(v, lo, a, x, cmp) && Below(v, b + 1, hi, x, cmp)
  }

  /** src/lib/linklist.c:1151-1158 */
  lemma SwapStep(v: seq<Value>, lo: nat, hi: nat, a: nat, k: nat, b: nat, x: Value, cmp: Compare)
    requires Parting(v, lo, hi, a, k, b, x, cmp) && a < k < b && cmp(v[a], x) <= 0 && cmp(v[b], x) >= 0
    ensures Parting(Exchanged(v, a, b), lo, hi, a + 1, k, b - 1, x, cmp) && Shuffled(v, Exchanged(v, a, b), lo, hi)
  {
    ExchangedShuffled(v, a, b);
    ShuffledPart(v, Exchanged(v, a, b), lo, a, b + 1, hi);
  }

  /** src/lib/linklist.c:1086-1117 */
  lemma DownStep(v: seq<Value>, lo: nat, hi: nat, k: nat, b: nat, x: Value, cmp: Compare)
    requires Parting(v, lo, hi, k, k, b, x, cmp) && k < b && cmp(v[b], x) >= 0
    ensures Parting(Relocated(v, b, k), lo, hi, k + 1, k + 1, b, x, cmp) && Shuffled(v, Relocated(v, b, k), lo, hi)
  {
    DownShuffled(v, b, k);
    ShuffledPart(v, Relocated(v, b, k), lo, k, b + 1, hi);
    var w := Relocated(v, b, k);
    forall i | 0 <= i < |v| ensures w[i] == v[if i < k || b < i then i else if i == k then b else i - 1] {
      RelocatedDown(v, b, k, i);
    }
  }

  /** src/lib/linklist.c:1119-1149 */
  lemma UpStep(v: seq<Value>, lo: nat, hi: nat, a: nat, k: nat, x: Value, cmp: Compare)
    requires Parting(v, lo, hi, a, k, k, x, cmp) && a < k && cmp(v[a], x) <= 0
    ensures Parting(Relocated(v, a, k), lo, hi, a, k - 1, k - 1, x, cmp) && Shuffled(v, Relocated(v, a, k), lo, hi)
  {
    UpShuffled(v, a, k);
    ShuffledPart(v, Relocated(v, a, k), lo, a, k + 1, hi);
    var w := Relocated(v, a, k);
    forall i | 0 <= i < |v| ensures w[i] == v[if i < a || k < i then i else if i == k then a else i + 1] {
      RelocatedUp(v, a, k, i);
    }
  }

  /** Both parts in order, on their sides of the pivot. */
  lemma PartsDescend(v: seq<Value>, lo: nat, hi: nat, k: nat, cmp: Compare)
    requires Preorder(cmp) && lo <= k < hi <= |v| && Descending(v, lo, k, cmp) && Descending(v, k + 1, hi, cmp)
    requires Above(v, lo, k, v[k], cmp) && Below(v, k + 1, hi, v[k], cmp)
    ensures Descending(v, lo, hi, cmp)
  {
    forall i, j | lo <= i < j < hi ensures cmp(v[i], v[j]) >= 0 {
      assert OrderedAt(cmp, v[i], v[k], v[j]) && OrderedAt(cmp, v[j], v[k], v[i]) && OrderedAt(cmp, v[k], v[j], v[i]);
      assert i < k ==> cmp(v[i], v[k]) >= 0;
      assert k < j ==> cmp(v[j], v[k]) <= 0;
    }
  }

  lemma RelocatedAside<N>(l: seq<N>, i: nat, j: nat, lo: nat, hi: nat)
    requires lo <= i < hi <= |l| && lo <= j < hi
    ensures Aside(l, Relocated(l, i, j), lo, hi)
  {
    forall k | 0 <= k < |l| && !(lo <= k < hi) ensures Relocated(l, i, j)[k] == l[k] {
      if i < j {
        RelocatedUp(l, i, j, k);
      } else {
        RelocatedDown(l, i, j, k);
      }
    }
  }

  /** First the left part is sorted, then the right one. */
  lemma PartsSorted(u: seq<Value>, v: seq<Value>, w: seq<Value>, lo: nat, k: nat, hi: nat, cmp: Compare)
    requires Preorder(cmp) && lo <= k < hi <= |u| && Above(u, lo, k, u[k], cmp) && Below(u, k + 1, hi, u[k], cmp)
    requires Shuffled(u, v, lo, k) && Descending(v, lo, k, cmp)
    requires Shuffled(v, w, k + 1, hi) && Descending(w, k + 1, hi, cmp)
    ensures Shuffled(u, w, lo, hi) && Descending(w, lo, hi, cmp)
  {
    ShuffledPart(u, v, lo, lo, k, hi);
    ShuffledPart(v, w, lo, k + 1, hi, hi);
    ShuffledMore(u, v, w, lo, hi);
    BothSides(u, v, w, lo, k, hi, u[k], cmp);
    PartsDescend(w, lo, hi, k, cmp);
  }

  lemma BothSides(u: seq<Value>, v: seq<Value>, w: seq<Value>, lo: nat, k: nat, hi: nat, x: Value, cmp: Compare)
    requires lo <= k < hi <= |u| && Above(u, lo, k, x, cmp) && Below(u, k + 1, hi, x, cmp)
    requires Shuffled(u, v, lo, k) && Shuffled(v, w, k + 1, hi) && Descending(v, lo, k, cmp)
    ensures Above(w, lo, k, x, cmp) && Below(w, k + 1, hi, x, cmp) && w[k] == u[k] && Descending(w, lo, k, cmp)
  {
    AboveKept(u, v, lo, k, x, cmp);
    assert forall i {:trigger w[i]} :: 0 <= i <= k ==> w[i] == v[i];
    assert forall i {:trigger v[i]} :: k <= i < |v| ==> v[i] == u[i];
    AboveKept(v, w, k + 1, hi, x, cmp);
  }

  lemma AsideBoth<N>(l: seq<N>, m: seq<N>, n: seq<N>, lo: nat, k: nat, hi: nat)
    requires lo <= k < hi <= |l| && Aside(l, m, lo, k) && Aside(m, n, k + 1, hi)
    ensures Aside(l, n, lo, hi)
  {
    forall i | 0 <= i < |l| && !(lo <= i < hi) ensures n[i] == l[i] {
      assert m[i] == l[i];
    }
  }
}
