/** Sequences that elements are put into and taken out of. */
module Sequences {
  ghost function Elements<N>(l: seq<N>): set<N> {
    set x | x in l
  }

  ghost predicate NoDup<N>(s: seq<N>) {
    forall i, j :: 0 <= i < j < |s| ==> s[i] != s[j]
  }

  function InsertedAt<N>(l: seq<N>, pos: nat, x: N): seq<N>
    requires pos <= |l|
  {
    l[..pos] + [x] + l[pos..]
  }

  lemma InsertedMembers<N>(l: seq<N>, pos: nat, x: N)
    requires pos <= |l|
    ensures forall y :: y in InsertedAt(l, pos, x) <==> y in l || y == x
    ensures NoDup(l) && x !in l ==> NoDup(InsertedAt(l, pos, x))
  {
    var t := InsertedAt(l, pos, x);
    assert t[pos] == x;
    forall y | y in l ensures y in t {
      var i :| 0 <= i < |l| && l[i] == y;
      assert t[if i < pos then i else i + 1] == y;
    }
  }

  function CutOut<N>(l: seq<N>, i: nat): seq<N>
    requires i < |l|
  {
    l[..i] + l[i + 1..]
  }

  /** What comes after position `n`, when more has been added to `l`. */
  lemma TailGrows<N>(l: seq<N>, m: seq<N>, n: nat)
    requires n <= |l| && l <= m
    ensures m[n..] == l[n..] + m[|l|..]
  {
  }

  /** The members of a list, one more at a time. */
  lemma Prefixes<N>(l: seq<N>, i: nat)
    requires i <= |l|
    ensures i == 0 ==> Elements(l[..i]) == {}
    ensures i == |l| ==> Elements(l[..i]) == Elements(l)
    ensures i < |l| ==> Elements(l[..i + 1]) == Elements(l[..i]) + {l[i]} && l[i] in Elements(l)
    ensures i < |l| && NoDup(l) ==> l[i] !in Elements(l[..i])
  {
    if i == |l| {
      assert l[..i] == l;
    } else {
      assert l[..i + 1] == l[..i] + [l[i]];
    }
  }

  lemma TailAdded<N>(l: seq<N>, x: seq<N>, n: nat)
    requires n <= |l|
    ensures (l + x)[n..] == l[n..] + x
  {
  }
}
