// The vCPU scheduler of crates/hyper-vcpu/src/lib.rs: six strict-priority classes,
// round robin within a class, blocked ids kept out of the queues.
module Scheduler {
  import opened Wrappers

  type Id = nat

  datatype Class = CriticalHost | ControlVm | NormalGuest | SandboxGuest | DetonationGuest | BackgroundGuest {
    function Index(): (i: nat)
      ensures i < 6
    {
      match this
      case CriticalHost => 0
      case ControlVm => 1
      case NormalGuest => 2
      case SandboxGuest => 3
      case DetonationGuest => 4
      case BackgroundGuest => 5
    }
  }

  datatype Raw = State(queues: seq<seq<Id>>, blocked: set<Id>)

  type State = s: Raw | |s.queues| == 6 witness State([[], [], [], [], [], []], {})

  // ---- The operations on values --------------------------------------------

  function Without(q: seq<Id>, id: Id): seq<Id> {
    if q == [] then [] else (if q[0] == id then [] else [q[0]]) + Without(q[1..], id)
  }

  function Enqueue(s: State, id: Id, c: nat): State
    requires c < 6
  {
    var q := s.queues[c];
    State(s.queues[c := if id in q then q else q + [id]], s.blocked - {id})
  }

  function Block(s: State, id: Id): State {
    State(seq(6, k requires 0 <= k < 6 => Without(s.queues[k], id)), s.blocked + {id})
  }

  function DropBlocked(q: seq<Id>, blocked: set<Id>): seq<Id> {
    if q != [] && q[0] in blocked then DropBlocked(q[1..], blocked) else q
  }

  /** `next_runnable` from class `k` down. */
  function NextFrom(s: State, k: nat): (State, Option<Id>)
    requires k <= 6
    decreases 6 - k
  {
    if k == 6 then (s, None)
    else
      var q := DropBlocked(s.queues[k], s.blocked);
      if q == [] then NextFrom(State(s.queues[k := []], s.blocked), k + 1)
      else (State(s.queues[k := q[1..] + [q[0]]], s.blocked), Some(q[0]))
  }

  function Next(s: State): (State, Option<Id>) {
    NextFrom(s, 0)
  }

  // ---- The invariant --------------------------------------------------------

  predicate NoDuplicates(q: seq<Id>) {
    forall i, j | 0 <= i < j < |q| :: q[i] != q[j]
  }

  predicate Disjoint(q: seq<Id>, blocked: set<Id>) {
    forall i | 0 <= i < |q| :: q[i] !in blocked
  }

  /** Blocked ids sit in no queue, and no class holds an id twice. */
  predicate Inv(s: State) {
    forall k | 0 <= k < 6 :: NoDuplicates(s.queues[k]) && Disjoint(s.queues[k], s.blocked)
  }

  predicate EmptyAbove(s: State, c: nat)
    requires c <= 6
  {
    forall k | 0 <= k < c :: s.queues[k] == []
  }

  function Rotated(q: seq<Id>): seq<Id>
    requires q != []
  {
    q[1..] + [q[0]]
  }

  lemma {:induction false} WithoutFacts(q: seq<Id>, id: Id)
    ensures id !in Without(q, id)
    ensures forall x | x in Without(q, id) :: x in q
    ensures id !in q ==> Without(q, id) == q
  {
    if q != [] {
      WithoutFacts(q[1..], id);
    }
  }

  lemma {:induction false} WithoutNoDuplicates(q: seq<Id>, id: Id)
    requires NoDuplicates(q)
    ensures NoDuplicates(Without(q, id))
  {
    if q != [] {
      WithoutNoDuplicates(q[1..], id);
      WithoutFacts(q[1..], id);
      assert q[0] !in q[1..];
      ConsNoDuplicates(q[0], Without(q[1..], id));
    }
  }

  lemma ConsNoDuplicates(x: Id, q: seq<Id>)
    requires NoDuplicates(q) && x !in q
    ensures NoDuplicates([x] + q)
  {
  }

  /** An id joins the back of its class unless it waits there already, is unblocked, and no other class changes. */
  lemma EnqueueEffect(s: State, id: Id, class_: Class)
    ensures
      var t, c := Enqueue(s, id, class_.Index()), class_.Index();
      && t.queues[c] == (if id in s.queues[c] then s.queues[c] else s.queues[c] + [id])
      && (forall k | 0 <= k < 6 && k != c :: t.queues[k] == s.queues[k])
      && id !in t.blocked && forall x | x != id :: x in t.blocked <==> x in s.blocked
  {
  }

  lemma {:induction false} WithoutKeeps(q: seq<Id>, id: Id, x: Id)
    requires x != id
    ensures x in Without(q, id) <==> x in q
  {
    if q != [] {
      WithoutKeeps(q[1..], id, x);
    }
  }

  /** A blocked id leaves every class; who else waits or is blocked does not change. */
  lemma BlockEffect(s: State, id: Id)
    ensures
      var t := Block(s, id);
      && id in t.blocked && (forall x | x != id :: x in t.blocked <==> x in s.blocked)
      && forall k | 0 <= k < 6 ::
           id !in t.queues[k] && forall x: Id | x != id :: x in t.queues[k] <==> x in s.queues[k]
  {
    forall k | 0 <= k < 6
      ensures id !in Without(s.queues[k], id)
      ensures forall x: Id | x != id :: x in Without(s.queues[k], id) <==> x in s.queues[k]
    {
      WithoutFacts(s.queues[k], id);
      forall x: Id | x != id
        ensures x in Without(s.queues[k], id) <==> x in s.queues[k]
      {
        WithoutKeeps(s.queues[k], id, x);
      }
    }
  }

  /** The classes in order of priority. */
  lemma PriorityOrder(c: Class)
    ensures [CriticalHost, ControlVm, NormalGuest, SandboxGuest, DetonationGuest, BackgroundGuest][c.Index()] == c
  {
  }

  lemma EnqueueKeepsInv(s: State, id: Id, c: nat)
    requires Inv(s) && c < 6
    ensures Inv(Enqueue(s, id, c))
  {
  }

  lemma BlockKeepsInv(s: State, id: Id)
    requires Inv(s)
    ensures Inv(Block(s, id))
  {
    forall k | 0 <= k < 6
      ensures NoDuplicates(Without(s.queues[k], id)) && Disjoint(Without(s.queues[k], id), s.blocked + {id})
    {
      var q := s.queues[k];
      WithoutFacts(q, id);
      WithoutNoDuplicates(q, id);
      forall i | 0 <= i < |Without(q, id)|
        ensures Without(q, id)[i] !in s.blocked + {id}
      {
        assert Without(q, id)[i] in Without(q, id);
      }
    }
  }

  /** With the invariant, the result is the front of the first non-empty class, which moves to its back. */
  lemma {:induction false} NextFromTop(s: State, k: nat, c: nat)
    requires Inv(s) && k <= c < 6 && s.queues[c] != []
    requires forall j | k <= j < c :: s.queues[j] == []
    ensures NextFrom(s, k) == (State(s.queues[c := Rotated(s.queues[c])], s.blocked), Some(s.queues[c][0]))
    decreases c - k
  {
    assert NoDuplicates(s.queues[k]) && Disjoint(s.queues[k], s.blocked);
    if k < c {
      assert s.queues[k := []] == s.queues;
      NextFromTop(s, k + 1, c);
    }
  }

  lemma {:induction false} NextFromNone(s: State, k: nat)
    requires k <= 6 && forall j | k <= j < 6 :: s.queues[j] == []
    ensures NextFrom(s, k) == (s, None)
    decreases 6 - k
  {
    if k < 6 {
      assert s.queues[k := []] == s.queues;
      NextFromNone(s, k + 1);
    }
  }

  /** Strict priority: `next_runnable` serves class `c` exactly when it is the first non-empty class. */
  lemma NextServesTopClass(s: State, c: nat)
    requires Inv(s) && c < 6 && s.queues[c] != [] && EmptyAbove(s, c)
    ensures Next(s) == (State(s.queues[c := Rotated(s.queues[c])], s.blocked), Some(s.queues[c][0]))
  {
    NextFromTop(s, 0, c);
  }

  lemma {:induction false} FirstNonEmpty(s: State, k: nat) returns (c: nat)
    requires k <= 6 && EmptyAbove(s, k)
    ensures c <= 6 && EmptyAbove(s, c) && (c < 6 ==> s.queues[c] != [])
    decreases 6 - k
  {
    if k == 6 || s.queues[k] != [] {
      c := k;
    } else {
      c := FirstNonEmpty(s, k + 1);
    }
  }

  lemma RotatedFacts(q: seq<Id>, blocked: set<Id>)
    requires q != [] && NoDuplicates(q) && Disjoint(q, blocked)
    ensures NoDuplicates(Rotated(q)) && Disjoint(Rotated(q), blocked)
  {
  }

  lemma NextKeepsInv(s: State)
    requires Inv(s)
    ensures Inv(Next(s).0)
    ensures Next(s).1 == None <==> forall k | 0 <= k < 6 :: s.queues[k] == []
  {
    var c := FirstNonEmpty(s, 0);
    if c == 6 {
      NextFromNone(s, 0);
    } else {
      NextServesTopClass(s, c);
      RotatedFacts(s.queues[c], s.blocked);
    }
  }

  // ---- Runs ------------------------------------------------------------------

  datatype Op = DoEnqueue(id: Id, class_: Class) | DoBlock(id: Id) | DoNext

  function Step(s: State, op: Op): State {
    match op
    case DoEnqueue(id, c) => Enqueue(s, id, c.Index())
    case DoBlock(id) => Block(s, id)
    case DoNext => Next(s).0
  }

  function Run(s: State, ops: seq<Op>): State
    decreases ops
  {
    if ops == [] then s else Run(Step(s, ops[0]), ops[1..])
  }

  /** What the `next_runnable` calls of a run return, in order. */
  function Served(s: State, ops: seq<Op>): seq<Option<Id>>
    decreases ops
  {
    if ops == [] then []
    else (if ops[0].DoNext? then [Next(s).1] else []) + Served(Step(s, ops[0]), ops[1..])
  }

  function CountNext(ops: seq<Op>): nat {
    if ops == [] then 0 else (if ops[0].DoNext? then 1 else 0) + CountNext(ops[1..])
  }

  lemma StepKeepsInv(s: State, op: Op)
    requires Inv(s)
    ensures Inv(Step(s, op))
  {
    match op
    case DoEnqueue(id, c) => EnqueueKeepsInv(s, id, c.Index());
    case DoBlock(id) => BlockKeepsInv(s, id);
    case DoNext => NextKeepsInv(s);
  }

  const EMPTY: State := State([[], [], [], [], [], []], {})

  /** Over every run from the empty scheduler the invariant holds. */
  lemma {:induction false} ReachableInv(s: State, ops: seq<Op>)
    requires Inv(s)
    ensures Inv(Run(s, ops))
    decreases ops
  {
    if ops != [] {
      StepKeepsInv(s, ops[0]);
      ReachableInv(Step(s, ops[0]), ops[1..]);
    }
  }

  // ---- Bounded waiting --------------------------------------------------------

  /** Operations that leave the classes above `c` empty and do not block `id`. */
  predicate Fair(op: Op, c: nat, id: Id) {
    match op
    case DoEnqueue(_, k) => k.Index() >= c
    case DoBlock(x) => x != id
    case DoNext => true
  }

  predicate Waiting(s: State, c: nat, p: nat, id: Id) {
    c < 6 && EmptyAbove(s, c) && p < |s.queues[c]| && s.queues[c][p] == id
  }

  lemma {:induction false} WithoutPosition(q: seq<Id>, x: Id, p: nat) returns (p': nat)
    requires p < |q| && q[p] != x
    ensures p' <= p && p' < |Without(q, x)| && Without(q, x)[p'] == q[p]
  {
    if p == 0 {
      p' := 0;
    } else {
      p' := WithoutPosition(q[1..], x, p - 1);
      if q[0] != x {
        p' := p' + 1;
      }
    }
  }

  /** One fair step either serves `id` or leaves it waiting, one place nearer if it was a pick. */
  lemma FairStep(s: State, op: Op, c: nat, p: nat, id: Id) returns (p': nat)
    requires Inv(s) && Waiting(s, c, p, id) && Fair(op, c, id)
    ensures op.DoNext? && p == 0 ==> Next(s).1 == Some(id)
    ensures op.DoNext? && p > 0 ==> p' == p - 1 && Waiting(Step(s, op), c, p', id)
    ensures !op.DoNext? ==> p' <= p && Waiting(Step(s, op), c, p', id)
  {
    match op
    case DoEnqueue(_, _) =>
      p' := p;
    case DoBlock(x) =>
      p' := WithoutPosition(s.queues[c], x, p);
    case DoNext =>
      NextServesTopClass(s, c);
      p' := if p > 0 then p - 1 else 0;
  }

  /** An id at position `p` is returned within the next `p + 1` picks. */
  lemma {:induction false} BoundedWaiting(s: State, ops: seq<Op>, c: nat, p: nat, id: Id)
    requires Inv(s) && Waiting(s, c, p, id)
    requires forall i | 0 <= i < |ops| :: Fair(ops[i], c, id)
    requires CountNext(ops) >= p + 1
    ensures exists i :: 0 <= i <= p && i < |Served(s, ops)| && Served(s, ops)[i] == Some(id)
    decreases ops
  {
    var p' := FairStep(s, ops[0], c, p, id);
    if ops[0].DoNext? && p == 0 {
      assert Served(s, ops)[0] == Some(id);
    } else {
      var s' := Step(s, ops[0]);
      StepKeepsInv(s, ops[0]);
      BoundedWaiting(s', ops[1..], c, p', id);
      var i :| 0 <= i <= p' && i < |Served(s', ops[1..])| && Served(s', ops[1..])[i] == Some(id);
      assert Served(s, ops)[if ops[0].DoNext? then i + 1 else i] == Some(id);
    }
  }

  // ---- One round --------------------------------------------------------------

  function Picks(n: nat): (ops: seq<Op>)
    ensures |ops| == n
  {
    seq(n, _ => DoNext)
  }

  function Somes(q: seq<Id>): (r: seq<Option<Id>>)
    ensures |r| == |q|
  {
    seq(|q|, i requires 0 <= i < |q| => Some(q[i]))
  }

  /** `n` picks serve the first `n` of the top class in order and rotate them to its back. */
  lemma {:induction false} PicksRotate(s: State, c: nat, n: nat)
    requires Inv(s) && c < 6 && EmptyAbove(s, c) && n <= |s.queues[c]|
    ensures Served(s, Picks(n)) == Somes(s.queues[c][..n])
    ensures Run(s, Picks(n)) == State(s.queues[c := s.queues[c][n..] + s.queues[c][..n]], s.blocked)
    decreases n
  {
    var q := s.queues[c];
    if n == 0 {
      assert q[0..] + q[..0] == q;
      assert s.queues[c := q] == s.queues;
    } else {
      NextServesTopClass(s, c);
      NextKeepsInv(s);
      var s' := Next(s).0;
      assert Picks(n)[1..] == Picks(n - 1);
      PicksRotate(s', c, n - 1);
      RotationFacts(q, n);
    }
  }

  lemma RotationFacts(q: seq<Id>, n: nat)
    requires 0 < n <= |q|
    ensures Rotated(q)[n - 1..] + Rotated(q)[..n - 1] == q[n..] + q[..n]
    ensures Somes(q[..n]) == [Some(q[0])] + Somes(Rotated(q)[..n - 1])
  {
  }

  /** A full round over the top class serves it in order and restores the scheduler exactly. */
  lemma FullRound(s: State, c: nat)
    requires Inv(s) && c < 6 && EmptyAbove(s, c)
    ensures Served(s, Picks(|s.queues[c]|)) == Somes(s.queues[c])
    ensures Run(s, Picks(|s.queues[c]|)) == s
  {
    var q := s.queues[c];
    PicksRotate(s, c, |q|);
    assert q[..|q|] == q && q[|q|..] + q[..|q|] == q;
    assert s.queues[c := q] == s.queues;
  }

  // ---- The scheduler as an object ---------------------------------------------

  class Scheduler {
    const queues: array<seq<Id>>
    var blocked: set<Id>

    ghost predicate Valid()
      reads this
    {
      queues.Length == 6
    }

    ghost function Value(): State
      requires Valid()
      reads this, queues
    {
      State(queues[..], blocked)
    }

    constructor ()
      ensures Valid() && fresh(queues) && Value() == EMPTY
    {
      queues := new seq<Id>[6](_ => []);
      blocked := {};
    }

    method EnqueueId(id: Id, class_: Class)
      requires Valid()
      modifies this, queues
      ensures Valid() && Value() == Enqueue(old(Value()), id, class_.Index())
    {
      blocked := blocked - {id};
      var k := class_.Index();
      if id !in queues[k] {
        queues[k] := queues[k] + [id];
      }
      assert queues[..] == Enqueue(old(Value()), id, class_.Index()).queues;
    }

    method BlockId(id: Id)
      requires Valid()
      modifies this, queues
      ensures Valid() && Value() == Block(old(Value()), id)
    {
      ghost var before := queues[..];
      blocked := blocked + {id};
      for k := 0 to 6
        invariant blocked == old(blocked) + {id}
        invariant forall j | 0 <= j < k :: queues[j] == Without(before[j], id)
        invariant forall j | k <= j < 6 :: queues[j] == before[j]
      {
        queues[k] := Retain(queues[k], id);
      }
    }

    method NextRunnable() returns (r: Option<Id>)
      requires Valid()
      modifies queues
      ensures Valid() && Next(old(Value())) == (Value(), r)
    {
      for k := 0 to 6
        invariant Next(old(Value())) == NextFrom(Value(), k)
      {
        while queues[k] != []
          invariant Next(old(Value())) == NextFrom(Value(), k)
          decreases |queues[k]|
        {
          var id := queues[k][0];
          ghost var before := Value();
          queues[k] := queues[k][1..];
          PopFront(before, Value(), k);
          if id !in blocked {
            queues[k] := queues[k] + [id];
            return Some(id);
          }
        }
        assert queues[..][k := []] == queues[..];
      }
      r := None;
    }
  }

  /** Popping a blocked front does not change what `next_runnable` will do. */
  lemma PopFront(s: State, t: State, k: nat)
    requires k < 6 && s.queues[k] != [] && t == State(s.queues[k := s.queues[k][1..]], s.blocked)
    ensures s.queues[k][0] in s.blocked ==> NextFrom(s, k) == NextFrom(t, k)
    ensures s.queues[k][0] !in s.blocked ==>
      NextFrom(s, k) == (State(t.queues[k := t.queues[k] + [s.queues[k][0]]], s.blocked), Some(s.queues[k][0]))
  {
    var q := DropBlocked(s.queues[k], s.blocked);
    if s.queues[k][0] in s.blocked {
      assert s.queues[k := []] == t.queues[k := []];
      assert q != [] ==> s.queues[k := Rotated(q)] == t.queues[k := Rotated(q)];
    } else {
      assert s.queues[k := Rotated(q)] == t.queues[k := t.queues[k] + [s.queues[k][0]]];
    }
  }

  lemma {:induction false} WithoutSnoc(q: seq<Id>, x: Id, id: Id)
    ensures Without(q + [x], id) == Without(q, id) + if x == id then [] else [x]
  {
    if q == [] {
      assert [] + [x] == [x];
    } else {
      WithoutSnoc(q[1..], x, id);
      assert (q + [x])[1..] == q[1..] + [x];
    }
  }

  /** `retain(|qid| qid != id)`. */
  method Retain(q: seq<Id>, id: Id) returns (r: seq<Id>)
    ensures r == Without(q, id)
  {
    r := [];
    for i := 0 to |q|
      invariant r == Without(q[..i], id)
    {
      WithoutSnoc(q[..i], q[i], id);
      assert q[..i + 1] == q[..i] + [q[i]];
      if q[i] != id {
        r := r + [q[i]];
      }
    }
    assert q[..|q|] == q;
  }
}
