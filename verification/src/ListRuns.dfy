/** Any sequence of operations on the linked list of src/lib/linklist.c, against operations on a sequence. */
module ListRuns {
  import opened Sequences
  import opened LinkCells
  import opened ListOrder
  import opened LinkedList

  datatype Op =
    | Push(v: Value)
    | Pop
    | Unshift(v: Value)
    | Shift
    | Insert(v: Value, at: nat)
    | Pick(at: nat)
    | Fetch(at: nat)
    | Move(src: nat, dst: nat)
    | Swap(p: nat, q: nat)
    | Subst(at: nat, v: Value)
    | Put(at: nat, v: Value)

  /** A swap has to stay within the list; everything else can be asked of any list. */
  predicate Allowed(l: seq<Value>, op: Op) {
    op.Swap? && op.p != op.q ==> op.p < |l| && op.q < |l|
  }

  /** What an operation makes of a sequence. */
  function After(l: seq<Value>, op: Op): seq<Value>
    requires Allowed(l, op)
  {
    match op
    case Push(v) => l + [v]
    case Pop => if l == [] then [] else l[..|l| - 1]
    case Unshift(v) => [v] + l
    case Shift => if l == [] then [] else l[1..]
    case Insert(v, at) => PutAt(l, at, v)
    case Pick(_) => l
    case Fetch(at) => if at < |l| then CutOut(l, at) else l
    case Move(src, dst) => MovedTo(l, src, dst)
    case Swap(p, q) => if p == q then l else Exchanged(l, p, q)
    case Subst(at, v) => if at < |l| then l[at := v] else l
    case Put(at, v) => if at < |l| then l[at := v] else PutAt(l, at, v)
  }

  /** What it answers; 0 if there is nothing. */
  function Answer(l: seq<Value>, op: Op): Value {
    match op
    case Pop => if l == [] then 0 else l[|l| - 1]
    case Shift => ValueAt(l, 0)
    case Pick(at) => ValueAt(l, at)
    case Fetch(at) => ValueAt(l, at)
    case Subst(at, _) => ValueAt(l, at)
    case Put(at, _) => ValueAt(l, at)
    case _ => 0
  }

  ghost predicate AllAllowed(l: seq<Value>, ops: seq<Op>)
    decreases |ops|
  {
    ops == [] || (Allowed(l, ops[0]) && AllAllowed(After(l, ops[0]), ops[1..]))
  }

  ghost function AfterAll(l: seq<Value>, ops: seq<Op>): seq<Value>
    requires AllAllowed(l, ops)
    decreases |ops|
  {
    if ops == [] then l else AfterAll(After(l, ops[0]), ops[1..])
  }

  ghost function Answers(l: seq<Value>, ops: seq<Op>): seq<Value>
    requires AllAllowed(l, ops)
    decreases |ops|
  {
    if ops == [] then [] else [Answer(l, ops[0])] + Answers(After(l, ops[0]), ops[1..])
  }

  method Perform(list: LinkedList, op: Op) returns (v: Value)
    requires list.Valid() && Allowed(list.Contents(), op)
    modifies list, list.cells.Keys
    ensures list.Valid() && old(list.cells).Keys <= list.cells.Keys && fresh(list.cells.Keys - old(list.cells).Keys)
    ensures list.Contents() == After(old(list.Contents()), op) && v == Answer(old(list.Contents()), op)
  {
    v := 0;
    match op {
      case Push(x) =>
        list.PushValue(x);
      case Pop =>
        v := list.PopValue();
      case Unshift(x) =>
        list.UnshiftValue(x);
      case Shift =>
        v := list.ShiftValue();
      case Insert(x, at) =>
        list.InsertValue(x, at);
      case Pick(at) =>
        v := list.PickValue(at);
      case Fetch(at) =>
        v := list.FetchValue(at);
      case Move(src, dst) =>
        var ok := list.MoveEntry(src, dst);
      case Swap(p, q) =>
        var ok := list.SwapValues(p, q);
      case Subst(at, x) =>
        v := list.SubstValue(at, x);
      case Put(at, x) =>
        v := list.PutValue(at, x);
    }
  }

  /** The first of the operations that are left. */
  lemma RunStep(l: seq<Value>, ops: seq<Op>, i: nat, vs: seq<Value>)
    requires i < |ops| && AllAllowed(l, ops[i..])
    ensures Allowed(l, ops[i]) && AllAllowed(After(l, ops[i]), ops[i + 1..])
    ensures AfterAll(l, ops[i..]) == AfterAll(After(l, ops[i]), ops[i + 1..])
    ensures vs + Answers(l, ops[i..]) == vs + [Answer(l, ops[i])] + Answers(After(l, ops[i]), ops[i + 1..])
  {
    assert ops[i..][0] == ops[i] && ops[i..][1..] == ops[i + 1..];
  }

  /** Every run gives the answers of the sequence, wherever the cursor stands. */
  method Run(list: LinkedList, ops: seq<Op>) returns (vs: seq<Value>)
    requires list.Valid() && AllAllowed(list.Contents(), ops)
    modifies list, list.cells.Keys
    ensures list.Valid() && list.Contents() == AfterAll(old(list.Contents()), ops)
    ensures vs == Answers(old(list.Contents()), ops)
  {
    vs := [];
    var i := 0;
    ghost var l := list.Contents();
    assert ops[0..] == ops;
    while i < |ops|
      invariant 0 <= i <= |ops| && list.Valid() && old(list.cells).Keys <= list.cells.Keys
      invariant fresh(list.cells.Keys - old(list.cells).Keys)
      invariant AllAllowed(list.Contents(), ops[i..]) && AfterAll(list.Contents(), ops[i..]) == AfterAll(l, ops)
      invariant vs + Answers(list.Contents(), ops[i..]) == Answers(l, ops)
    {
      RunStep(list.Contents(), ops, i, vs);
      var v := Perform(list, ops[i]);
      vs := vs + [v];
      i := i + 1;
    }
    assert ops[i..] == [];
  }
}
