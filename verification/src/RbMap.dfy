/**
 The table of src/lib/rb.c against a mathematical map: whatever the sequence of calls, it gives the
 answers that a map from keys to items gives, where two items have the same key when the comparison
 function returns 0 for them.
 */
module RbMap {
  import opened Options
  import opened Sequences
  import opened RbOrder
  import opened RbTable

  datatype Op<T> = Replace(item: T) | Delete(item: T) | Find(item: T)

  ghost predicate Keyed<T(!new), K>(cmp: (T, T) -> int, key: T -> K) {
    forall x, y :: cmp(x, y) == 0 <==> key(x) == key(y)
  }

  /** The map that the reference semantics keeps. */
  function Next<T, K>(key: T -> K, m: map<K, T>, op: Op<T>): map<K, T> {
    match op
    case Replace(x) => m[key(x) := x]
    case Delete(x) => m - {key(x)}
    case Find(_) => m
  }

  function Lookup<T, K>(m: map<K, T>, k: K): Option<T> {
    if k in m then Some(m[k]) else None
  }

  /** What a call returns; storing the very item that is already there returns nothing. */
  function Answer<T(==), K>(key: T -> K, m: map<K, T>, op: Op<T>): Option<T> {
    var found := Lookup(m, key(op.item));
    if op.Replace? && found == Some(op.item) then None else found
  }

  /** The map after the first `n` calls. */
  function After<T, K>(key: T -> K, m: map<K, T>, ops: seq<Op<T>>, n: nat): map<K, T>
    requires n <= |ops|
  {
    if n == 0 then m else Next(key, After(key, m, ops, n - 1), ops[n - 1])
  }

  ghost predicate Represents<T, K>(key: T -> K, s: seq<T>, m: map<K, T>) {
    && (forall x :: x in s ==> key(x) in m && m[key(x)] == x)
    && (forall k :: k in m ==> m[k] in s && key(m[k]) == k)
  }

  lemma FoundIsLookup<T(!new), K>(cmp: (T, T) -> int, key: T -> K, s: seq<T>, m: map<K, T>, x: T)
    requires Comparison(cmp) && Ascending(cmp, s) && Keyed(cmp, key) && Represents(key, s, m)
    ensures Found(cmp, s, x) == Lookup(m, key(x))
  {
    if key(x) in m {
      FoundIff(cmp, s, x, m[key(x)]);
    } else if Found(cmp, s, x).Some? {
      FoundIff(cmp, s, x, Found(cmp, s, x).value);
    }
  }

  /** Two stored items never have the same key. */
  lemma UniqueKeys<T(!new), K>(cmp: (T, T) -> int, key: T -> K, s: seq<T>, i: nat, j: nat)
    requires Comparison(cmp) && Ascending(cmp, s) && Keyed(cmp, key) && i < |s| && j < |s| && i != j
    ensures key(s[i]) != key(s[j])
  {
    if i < j {
      assert Below(cmp, s, i, j);
    } else {
      assert Below(cmp, s, j, i);
    }
  }

  lemma ReplacedIsUpdate<T(!new), K>(cmp: (T, T) -> int, key: T -> K, s: seq<T>, m: map<K, T>, x: T)
    requires Comparison(cmp) && Ascending(cmp, s) && Keyed(cmp, key) && Represents(key, s, m)
    ensures Represents(key, Replaced(cmp, s, x), m[key(x) := x])
  {
    FoundIsLookup(cmp, key, s, m, x);
    var t, r := Replaced(cmp, s, x), Rank(cmp, s, x);
    assert t[r] == x;
    if Hit(cmp, s, x) {
      forall y | y in t ensures y == x || (y in s && key(y) != key(x)) {
        var i :| 0 <= i < |t| && t[i] == y;
        if i != r {
          UniqueKeys(cmp, key, s, i, r);
        }
      }
      forall k | k in m && k != key(x) ensures m[k] in t {
        var i :| 0 <= i < |s| && s[i] == m[k];
        assert t[i] == m[k];
      }
    } else {
      forall k | k in m ensures m[k] in t {
        var i :| 0 <= i < |s| && s[i] == m[k];
        assert t[if i < r then i else i + 1] == m[k];
      }
    }
  }

  lemma DeletedIsRemoval<T(!new), K>(cmp: (T, T) -> int, key: T -> K, s: seq<T>, m: map<K, T>, x: T)
    requires Comparison(cmp) && Ascending(cmp, s) && Keyed(cmp, key) && Represents(key, s, m)
    ensures Represents(key, Deleted(cmp, s, x), m - {key(x)})
  {
    FoundIsLookup(cmp, key, s, m, x);
    if Hit(cmp, s, x) {
      DeletedStays(cmp, key, s, m, x);
      DeletedKeeps(cmp, key, s, m, x);
    }
  }

  lemma DeletedStays<T(!new), K>(cmp: (T, T) -> int, key: T -> K, s: seq<T>, m: map<K, T>, x: T)
    requires Comparison(cmp) && Ascending(cmp, s) && Keyed(cmp, key) && Represents(key, s, m) && Hit(cmp, s, x)
    ensures forall y :: y in Deleted(cmp, s, x) ==> y in s && key(y) != key(x)
  {
    var t, r := Deleted(cmp, s, x), Rank(cmp, s, x);
    forall y | y in t ensures y in s && key(y) != key(x) {
      var i :| 0 <= i < |t| && t[i] == y;
      var j := if i < r then i else i + 1;
      assert s[j] == y;
      UniqueKeys(cmp, key, s, j, r);
    }
  }

  lemma {:induction false} DeletedKeeps<T(!new), K>(cmp: (T, T) -> int, key: T -> K, s: seq<T>, m: map<K, T>, x: T)
    requires Comparison(cmp) && Ascending(cmp, s) && Keyed(cmp, key) && Represents(key, s, m) && Hit(cmp, s, x)
    ensures forall k :: k in m && k != key(x) ==> m[k] in Deleted(cmp, s, x)
  {
    var t, r := CutOut(s, Rank(cmp, s, x)), Rank(cmp, s, x);
    assert key(s[r]) == key(x);
    forall k | k in m && k != key(x) ensures m[k] in t {
      var i :| 0 <= i < |s| && s[i] == m[k];
      assert i != r;
      assert t[if i < r then i else i - 1] == m[k];
    }
  }

  /** One call. */
  method Perform<T(==,!new), K>(table: Table<T>, op: Op<T>, ghost key: T -> K,
                                ghost m: map<K, T>) returns (answer: Option<T>)
    requires table.Valid() && table.count < CAPACITY && Keyed(table.compare, key) && Represents(key, table.Items(), m)
    modifies table, table.memory.Keys
    ensures table.Valid() && table.count <= old(table.count) + 1 && table.memory.Keys >= old(table.memory.Keys)
    ensures fresh(table.memory.Keys - old(table.memory.Keys))
    ensures Represents(key, table.Items(), Next(key, m, op)) && answer == Answer(key, m, op)
  {
    FoundIsLookup(table.compare, key, table.Items(), m, op.item);
    match op
    case Replace(x) =>
      ReplacedIsUpdate(table.compare, key, table.Items(), m, x);
      answer := table.Replace(x);
    case Delete(x) =>
      DeletedIsRemoval(table.compare, key, table.Items(), m, x);
      answer := table.Delete(x);
    case Find(x) =>
      answer := table.Find(x);
  }

  /** Each answer is the one that the map as it was then gives. */
  ghost predicate Answered<T, K>(key: T -> K, m: map<K, T>, ops: seq<Op<T>>, answers: seq<Option<T>>) {
    && |answers| <= |ops|
    && forall i {:trigger answers[i]} :: 0 <= i < |answers| ==> answers[i] == Answer(key, After(key, m, ops, i), ops[i])
  }

  lemma AnsweredMore<T, K>(key: T -> K, m: map<K, T>, ops: seq<Op<T>>, answers: seq<Option<T>>, answer: Option<T>)
    requires Answered(key, m, ops, answers) && |answers| < |ops|
    requires answer == Answer(key, After(key, m, ops, |answers|), ops[|answers|])
    ensures Answered(key, m, ops, answers + [answer])
  {
  }

  /**
   Any sequence of rb_replace, rb_delete and rb_find calls on a table returns what the same sequence
   returns on a map, and leaves the table holding that map.
   */
  method Run<T(==,!new), K>(table: Table<T>, ops: seq<Op<T>>, ghost key: T -> K,
                            ghost m: map<K, T>) returns (answers: seq<Option<T>>)
    requires table.Valid() && table.count + |ops| < CAPACITY && Keyed(table.compare, key)
    requires Represents(key, table.Items(), m)
    modifies table, table.memory.Keys
    ensures table.Valid() && Represents(key, table.Items(), After(key, m, ops, |ops|))
    ensures |answers| == |ops|
    ensures Answered(key, m, ops, answers)
  {
    answers := [];
    for i := 0 to |ops|
      invariant |answers| == i
      invariant table.Valid() && table.count + |ops| - i < CAPACITY
      invariant fresh(table.memory.Keys - old(table.memory.Keys))
      invariant Represents(key, table.Items(), After(key, m, ops, i))
      invariant Answered(key, m, ops, answers)
    {
      var answer := Perform(table, ops[i], key, After(key, m, ops, i));
      AnsweredMore(key, m, ops, answers, answer);
      answers := answers + [answer];
    }
  }
}
