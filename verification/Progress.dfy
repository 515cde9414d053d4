/**
 Lock-freedom. A compare-and-swap fails only because somebody else's succeeded, everybody
 updates the word at most twice, so every operation returns within a bound that depends on
 its length and the number of operations, under every schedule.
 */
module Progress {
  import opened LockRecord
  import opened Protocol
  import opened Accounting

  /** The next step of `id` changes the lock word. */
  predicate Updates(s: State, id: nat)
    requires Shape(s)
  {
    Next(s, id).word != s.word
  }

  /** The next step of `id` is a compare-and-swap that fails. */
  predicate CasFails(s: State, id: nat)
    requires Shape(s)
  {
    id < |s.ops| &&
    match s.ops[id].pc
    case Acquiring(f) => f.count[f.target] + 1 != WRITER && s.word != f
    case Releasing(_, _, f) => s.word != f
    case Claiming(f) => FreeSlot(f).Some? && s.word != f
    case Publishing(_, f) => s.word != f
    case _ => false
  }

  predicate Stale(s: State, id: nat) {
    id < |s.ops| && var pc := s.ops[id].pc;
    (pc.Acquiring? || pc.Releasing? || pc.Claiming? || pc.Checking? || pc.Publishing?) && s.word != pc.flags
  }

  function One(b: bool): nat { if b then 1 else 0 }

  // ---- what happened along a run ----

  function FailedCas(s: State, sched: seq<nat>, id: nat): nat
    requires Inv(s)
  {
    if sched == [] then 0
    else
      var a, x := sched[..|sched| - 1], sched[|sched| - 1];
      FailedCas(s, a, id) + One(x == id && CasFails(Run(s, a), id))
  }

  function UpdatesByOthers(s: State, sched: seq<nat>, id: nat): nat
    requires Inv(s)
  {
    if sched == [] then 0
    else
      var a, x := sched[..|sched| - 1], sched[|sched| - 1];
      UpdatesByOthers(s, a, id) + One(x != id && Updates(Run(s, a), x))
  }

  /** How many steps `id` took before it returned. */
  function Turns(s: State, sched: seq<nat>, id: nat): nat
    requires Inv(s) && id < |s.ops|
  {
    if sched == [] then 0
    else
      var a, x := sched[..|sched| - 1], sched[|sched| - 1];
      Turns(s, a, id) + One(x == id && !Run(s, a).ops[id].pc.Done())
  }

  /** Every failed compare-and-swap is paid for by another operation's update. */
  lemma {:induction false} FailuresPaidFor(s: State, sched: seq<nat>, id: nat)
    requires Inv(s)
    ensures FailedCas(s, sched, id) + One(Stale(Run(s, sched), id)) <= UpdatesByOthers(s, sched, id) + One(Stale(s, id))
  {
    if sched != [] {
      var a, x := sched[..|sched| - 1], sched[|sched| - 1];
      FailuresPaidFor(s, a, id);
      StaleAfter(Run(s, a), x, id);
    }
  }

  lemma StaleAfter(s: State, x: nat, id: nat)
    requires Inv(s)
    ensures x == id ==> One(CasFails(s, id)) + One(Stale(Next(s, x), id)) <= One(Stale(s, id))
    ensures x != id ==> One(Stale(Next(s, x), id)) <= One(Updates(s, x)) + One(Stale(s, id))
  {
    if x < |s.ops| { NextFrame(s, x); }
    if id < |s.ops| { assert OpOk(s.n, s.size, s.ops[id]); }
  }

  // ---- at most two updates each ----

  function UpdatesLeft(pc: Pc): nat {
    if pc.Done() then 0 else if pc.Idle? || pc.Acquiring? || pc.Claiming? then 2 else 1
  }

  /** The updates the operations below m, other than `id`, have left. */
  function OthersLeft(ops: seq<Op>, m: nat, id: nat): nat
    requires m <= |ops|
  {
    if m == 0 then 0 else OthersLeft(ops, m - 1, id) + if m - 1 == id then 0 else UpdatesLeft(ops[m - 1].pc)
  }

  lemma UpdateUsed(s: State, x: nat)
    requires Inv(s)
    ensures x >= |s.ops| ==> !Updates(s, x)
    ensures x < |s.ops| ==> |Next(s, x).ops| == |s.ops|
    ensures x < |s.ops| ==> One(Updates(s, x)) + UpdatesLeft(Next(s, x).ops[x].pc) <= UpdatesLeft(s.ops[x].pc)
  {
    if x < |s.ops| { assert OpOk(s.n, s.size, s.ops[x]); }
  }

  lemma {:induction false} OthersAfter(p: seq<Op>, q: seq<Op>, m: nat, id: nat, x: nat)
    requires |p| == |q| && m <= |p| && forall i :: 0 <= i < |p| && i != x ==> q[i] == p[i]
    requires x < |p| ==> UpdatesLeft(q[x].pc) <= UpdatesLeft(p[x].pc)
    ensures OthersLeft(q, m, id) == OthersLeft(p, m, id) -
              if x < m && x != id then UpdatesLeft(p[x].pc) - UpdatesLeft(q[x].pc) else 0
  {
    if m > 0 { OthersAfter(p, q, m - 1, id, x); }
  }

  lemma {:induction false} UpdatesBounded(s: State, sched: seq<nat>, id: nat)
    requires Inv(s)
    ensures UpdatesByOthers(s, sched, id) + OthersLeft(Run(s, sched).ops, |s.ops|, id) <= OthersLeft(s.ops, |s.ops|, id)
  {
    if sched != [] {
      var a, x := sched[..|sched| - 1], sched[|sched| - 1];
      UpdatesBounded(s, a, id);
      var before := Run(s, a);
      UpdateUsed(before, x);
      if x < |s.ops| {
        NextFrame(before, x);
        OthersAfter(before.ops, Next(before, x).ops, |s.ops|, id, x);
      }
    }
  }

  lemma {:induction false} OthersAtStart(ops: seq<Op>, m: nat, id: nat)
    requires m <= |ops|
    ensures OthersLeft(ops, m, id) <= 2 * (m - One(id < m))
  {
    if m > 0 { OthersAtStart(ops, m - 1, id); }
  }

  // ---- steps left if no compare-and-swap fails ----

  function Length(call: Call): nat {
    match call case Read(k) => k case Write(p, _) => |p|
  }

  function StepsLeft(op: Op): int {
    match op.pc
    case Idle => Length(op.call) + 6
    case Acquiring(_) => Length(op.call) + 3
    case Reading(_, got) => Length(op.call) - |got| + 2
    case Releasing(_, _, _) => 1
    case Claiming(_) => Length(op.call) + 5
    case Stamping(_) => Length(op.call) + 4
    case Filling(_, k) => Length(op.call) - k + 3
    case Checking(_, _) => 2
    case Publishing(_, _) => 1
    case BackingOff(_) => 1
    case _ => 0
  }

  lemma TurnTaken(s: State, id: nat)
    requires Inv(s) && id < |s.ops|
    ensures |Next(s, id).ops| == |s.ops|
    ensures One(!s.ops[id].pc.Done()) + StepsLeft(Next(s, id).ops[id]) <=
      StepsLeft(s.ops[id]) + 2 * One(CasFails(s, id))
  {
    assert OpOk(s.n, s.size, s.ops[id]);
  }

  lemma {:induction false} TurnsBounded(s: State, sched: seq<nat>, id: nat)
    requires Inv(s) && id < |s.ops|
    ensures Turns(s, sched, id) + StepsLeft(Run(s, sched).ops[id]) <= StepsLeft(s.ops[id]) + 2 * FailedCas(s, sched, id)
  {
    if sched != [] {
      var a, x := sched[..|sched| - 1], sched[|sched| - 1];
      TurnsBounded(s, a, id);
      var before := Run(s, a);
      if x == id { TurnTaken(before, id); }
      else if x < |s.ops| { NextFrame(before, x); }
    }
  }

  lemma DoneStays(s: State, x: nat, id: nat)
    requires Inv(s) && id < |s.ops|
    ensures |Next(s, x).ops| == |s.ops| && (s.ops[id].pc.Done() ==> Next(s, x).ops[id].pc.Done())
  {
    if x < |s.ops| { NextFrame(s, x); }
  }

  lemma {:induction false} TurnsAreOccurrences(s: State, sched: seq<nat>, id: nat)
    requires Inv(s) && id < |s.ops| && !Run(s, sched).ops[id].pc.Done()
    ensures Turns(s, sched, id) == multiset(sched)[id]
  {
    if sched != [] {
      var a, x := sched[..|sched| - 1], sched[|sched| - 1];
      var before := Run(s, a);
      DoneStays(before, x, id);
      hide Next, Inv;
      TurnsAreOccurrences(s, a, id);
      assert sched == a + [x];
    }
  }

  /** An operation's failed compare-and-swaps, among m operations, never exceed 2(m - 1). */
  lemma {:induction false} FailuresBounded(n: nat, size: nat, calls: seq<Call>, sched: seq<nat>, id: nat)
    requires CallsFit(n, size, calls) && id < |calls|
    ensures Inv(Initial(n, size, calls))
    ensures var s := Initial(n, size, calls);
      FailedCas(s, sched, id) <= UpdatesByOthers(s, sched, id) <= 2 * (|calls| - 1)
  {
    InitialInv(n, size, calls);
    var s := Initial(n, size, calls);
    FailuresPaidFor(s, sched, id);
    UpdatesBounded(s, sched, id);
    OthersAtStart(s.ops, |calls|, id);
  }

  /**
   Every operation returns once the schedule has given it its own length and six steps, and
   four more for each other operation, whatever the others do and wherever they stop.
   */
  lemma EveryOperationReturns(n: nat, size: nat, calls: seq<Call>, sched: seq<nat>, id: nat)
    requires CallsFit(n, size, calls) && id < |calls|
    requires multiset(sched)[id] >= Length(calls[id]) + 6 + 4 * (|calls| - 1)
    ensures Inv(Initial(n, size, calls))
    ensures Run(Initial(n, size, calls), sched).ops[id].pc.Done()
  {
    FailuresBounded(n, size, calls, sched, id);
    var s := Initial(n, size, calls);
    TurnsBounded(s, sched, id);
    RunCalls(s, sched);
    var t := Run(s, sched);
    assert OpOk(t.n, t.size, t.ops[id]);
    assert t.ops[id].pc.Done() || StepsLeft(t.ops[id]) >= 1;
    if !t.ops[id].pc.Done() {
      TurnsAreOccurrences(s, sched, id);
    }
  }
}
