/**
 The bounds of Capacity are tight. Fifteen reads of which fourteen stop with their lock make
 the fifteenth fail, and n writes of which n - 1 stop with their buffer make the n-th fail.
 */
module Crowding {
  import opened Basics
  import opened LockRecord
  import opened Protocol
  import opened Accounting
  import opened Capacity

  datatype Kind = Readers | Writers

  predicate IsKind(c: Call, kind: Kind) {
    if kind.Readers? then c.Read? else c.Write?
  }

  /** How many of the first m calls are reads, or writes. */
  function CountOf(calls: seq<Call>, m: nat, kind: Kind): nat
    requires m <= |calls|
  {
    if m == 0 then 0 else CountOf(calls, m - 1, kind) + if IsKind(calls[m - 1], kind) then 1 else 0
  }

  /** Each of the reads, or writes, among the first m calls loads the word and swaps once. */
  function Arrivals(calls: seq<Call>, m: nat, kind: Kind): seq<nat>
    requires m <= |calls|
  {
    if m == 0 then []
    else Arrivals(calls, m - 1, kind) + if IsKind(calls[m - 1], kind) then [m - 1, m - 1] else []
  }

  /** The word when c reads hold the first target. */
  function ReadLocked(n: nat, c: nat): Locks
    requires 2 <= n <= SLOTS
  {
    InitialLocks(n).WithCount(0, c)
  }

  /** The word when c writes hold buffers 1 to c. */
  function WriteLocked(n: nat, c: nat): Locks
    requires 2 <= n <= SLOTS
  {
    Locks(0, seq(SLOTS, i => if i == 0 || c < i < n then 0 else WRITER))
  }

  function Locked(n: nat, c: nat, kind: Kind): Locks
    requires 2 <= n <= SLOTS
  {
    if kind.Readers? then ReadLocked(n, c) else WriteLocked(n, c)
  }

  /** Everybody of that kind among the first m has its lock, and nobody else has moved. */
  predicate Crowded(t: State, calls: seq<Call>, m: nat, kind: Kind)
    requires m <= |calls|
  {
    && 2 <= t.n <= SLOTS && |t.ops| == |calls| && t.word == Locked(t.n, CountOf(calls, m, kind), kind)
    && forall i :: m <= i < |calls| ==> t.ops[i].call == calls[i] && t.ops[i].pc.Idle?
  }

  /** How many can have their lock at once. */
  function Room(n: nat, kind: Kind): nat
    requires n > 0
  {
    if kind.Readers? then 14 else n - 1
  }

  lemma WriteLockedFree(n: nat, c: nat)
    requires 2 <= n <= SLOTS && c < n
    ensures FreeSlot(WriteLocked(n, c)) == if c + 1 < n then Some(c + 1) else None
    ensures c + 1 < n ==> WriteLocked(n, c).WithCount(c + 1, WRITER) == WriteLocked(n, c + 1)
  {
    var l := WriteLocked(n, c);
    var free := LowestFree(l, 0);
    assert c + 1 < n ==> l.Free(c + 1);
    assert forall i :: 0 <= i <= c || n <= i ==> !l.Free(i);
    if c + 1 < n {
      var more := WriteLocked(n, c + 1);
      assert forall i :: 0 <= i < SLOTS ==> l.WithCount(c + 1, WRITER).count[i] == more.count[i];
      assert l.WithCount(c + 1, WRITER).count == more.count;
    }
  }

  predicate HasRoom(n: nat, calls: seq<Call>, m: nat, kind: Kind)
    requires n > 0 && m <= |calls|
  {
    CountOf(calls, m, kind) <= Room(n, kind)
  }

  /** One more arrives: it gets its lock if there is room, and else is refused. */
  lemma ReaderArrives(t: State, m: nat, c: nat)
    requires Inv(t) && m < |t.ops| && t.ops[m].call.Read? && t.ops[m].pc.Idle?
    requires c <= 14 && t.word == ReadLocked(t.n, c)
    ensures var u := Next(t, m); Inv(u) && |u.ops| == |t.ops|
    ensures var v := Next(Next(t, m), m);
      && Inv(v) && v.n == t.n && |v.ops| == |t.ops|
      && (forall i :: 0 <= i < |t.ops| && i != m ==> v.ops[i] == t.ops[i])
      && (c < 14 ==> v.word == ReadLocked(t.n, c + 1))
      && (c == 14 ==> v.ops[m].pc.ReadFull?)
  {
    NextInv(t, m);
    NextFrame(t, m);
    NextInv(Next(t, m), m);
    NextFrame(Next(t, m), m);
    assert ReadLocked(t.n, c).WithCount(0, c + 1) == ReadLocked(t.n, c + 1);
  }

  lemma WriterArrives(t: State, m: nat, c: nat)
    requires Inv(t) && m < |t.ops| && t.ops[m].call.Write? && t.ops[m].pc.Idle?
    requires c < t.n && t.word == WriteLocked(t.n, c)
    ensures var u := Next(t, m); Inv(u) && |u.ops| == |t.ops|
    ensures var v := Next(Next(t, m), m);
      && Inv(v) && v.n == t.n && |v.ops| == |t.ops|
      && (forall i :: 0 <= i < |t.ops| && i != m ==> v.ops[i] == t.ops[i])
      && (c + 1 < t.n ==> v.word == WriteLocked(t.n, c + 1))
      && (c + 1 == t.n ==> v.ops[m].pc.WriteFull?)
  {
    NextInv(t, m);
    NextFrame(t, m);
    NextInv(Next(t, m), m);
    NextFrame(Next(t, m), m);
    WriteLockedFree(t.n, c);
  }

  lemma InitialCrowded(n: nat, size: nat, calls: seq<Call>, kind: Kind)
    requires CallsFit(n, size, calls)
    ensures Crowded(Initial(n, size, calls), calls, 0, kind)
  {
    assert InitialLocks(n).count == ReadLocked(n, 0).count == WriteLocked(n, 0).count;
  }

  lemma {:induction false} RunCrowded(s: State, calls: seq<Call>, m: nat, kind: Kind)
    requires Inv(s) && m <= |calls| && HasRoom(s.n, calls, m, kind) && Crowded(s, calls, 0, kind)
    ensures Crowded(Run(s, Arrivals(calls, m, kind)), calls, m, kind)
  {
    hide Run, Next, Inv, Locked, Crowded;
    if m == 0 {
      assert Run(s, []) == s by { RunNothing(s); }
    } else {
      var a := Arrivals(calls, m - 1, kind);
      RunCrowded(s, calls, m - 1, kind);
      if IsKind(calls[m - 1], kind) {
        CrowdStep(s, a, calls, m - 1, kind);
      } else {
        assert Arrivals(calls, m, kind) == a;
        CrowdStays(Run(s, a), calls, m - 1, kind);
      }
    }
  }

  lemma RunNothing(s: State)
    requires Inv(s)
    ensures Run(s, []) == s
  {
  }

  lemma CrowdStays(t: State, calls: seq<Call>, m: nat, kind: Kind)
    requires m < |calls| && Crowded(t, calls, m, kind) && !IsKind(calls[m], kind)
    ensures Crowded(t, calls, m + 1, kind)
  {
  }

  lemma CrowdStep(s: State, a: seq<nat>, calls: seq<Call>, m: nat, kind: Kind)
    requires Inv(s) && m < |calls| && Crowded(Run(s, a), calls, m, kind) && IsKind(calls[m], kind)
    requires HasRoom(s.n, calls, m + 1, kind)
    ensures Crowded(Run(s, a + [m, m]), calls, m + 1, kind)
  {
    hide Run, Next, Inv, Locked, Crowded;
    TwoSteps(s, a, m);
    CrowdGrows(Run(s, a), calls, m, kind);
  }

  lemma TwoSteps(s: State, a: seq<nat>, i: nat)
    requires Inv(s)
    ensures Inv(Next(Run(s, a), i)) && Run(s, a + [i, i]) == Next(Next(Run(s, a), i), i)
  {
    NextInv(Run(s, a), i);
    hide Next, Run;
    assert a + [i, i] == a + [i] + [i];
    RunStep(s, a, i);
    RunStep(s, a + [i], i);
  }

  lemma CrowdGrows(t: State, calls: seq<Call>, m: nat, kind: Kind)
    requires Inv(t) && m < |calls| && Crowded(t, calls, m, kind) && IsKind(calls[m], kind)
    requires HasRoom(t.n, calls, m + 1, kind)
    ensures Inv(Next(t, m)) && |Next(t, m).ops| == |t.ops| && Inv(Next(Next(t, m), m))
    ensures Crowded(Next(Next(t, m), m), calls, m + 1, kind)
  {
    var c := CountOf(calls, m, kind);
    if kind.Readers? { ReaderArrives(t, m, c); } else { WriterArrives(t, m, c); }
  }

  /** The call of that kind that finds the place full. */
  lemma {:induction false} OneTooMany(calls: seq<Call>, m: nat, kind: Kind, room: nat) returns (i: nat)
    requires m <= |calls| && CountOf(calls, m, kind) > room
    ensures i < m && IsKind(calls[i], kind) && CountOf(calls, i, kind) == room
  {
    i := m - 1;
    if CountOf(calls, m - 1, kind) > room { i := OneTooMany(calls, m - 1, kind, room); }
  }

  predicate Refusal(pc: Pc, kind: Kind) {
    if kind.Readers? then pc.ReadFull? else pc.WriteFull?
  }

  /** With more calls of the kind than there is room for, the schedule in which they all arrive refuses one. */
  lemma {:induction false} CrowdRefuses(
      n: nat, size: nat, calls: seq<Call>, kind: Kind) returns (sched: seq<nat>, i: nat)
    requires CallsFit(n, size, calls) && Inv(Initial(n, size, calls))
    requires CountOf(calls, |calls|, kind) > Room(n, kind)
    ensures i < |calls| && Refusal(Run(Initial(n, size, calls), sched).ops[i].pc, kind)
  {
    var s := Initial(n, size, calls);
    i := OneTooMany(calls, |calls|, kind, Room(n, kind));
    var a := Arrivals(calls, i, kind);
    InitialCrowded(n, size, calls, kind);
    RunCrowded(s, calls, i, kind);
    sched := a + [i, i];
    TwoSteps(s, a, i);
    var t := Run(s, a);
    if kind.Readers? { ReaderArrives(t, i, 14); } else { WriterArrives(t, i, n - 1); }
  }

  // ---- exactly when nothing is refused ----

  function OfKind(calls: seq<Call>, m: nat, kind: Kind): set<nat>
    requires m <= |calls|
  {
    set i | 0 <= i < m && IsKind(calls[i], kind)
  }

  lemma {:induction false} OfKindCount(calls: seq<Call>, m: nat, kind: Kind)
    requires m <= |calls|
    ensures |OfKind(calls, m, kind)| == CountOf(calls, m, kind)
  {
    if m > 0 {
      OfKindCount(calls, m - 1, kind);
      if IsKind(calls[m - 1], kind) {
        assert OfKind(calls, m, kind) == OfKind(calls, m - 1, kind) + {m - 1};
      } else {
        assert OfKind(calls, m, kind) == OfKind(calls, m - 1, kind);
      }
    }
  }

  lemma FewReads(n: nat, size: nat, calls: seq<Call>, sched: seq<nat>)
    requires CallsFit(n, size, calls) && Inv(Initial(n, size, calls))
    ensures |ReadsInFlight(Run(Initial(n, size, calls), sched))| <= CountOf(calls, |calls|, Readers)
  {
    hide Run, Inv;
    RunCalls(Initial(n, size, calls), sched);
    OfKindCount(calls, |calls|, Readers);
    SubsetSize(ReadsInFlight(Run(Initial(n, size, calls), sched)), OfKind(calls, |calls|, Readers));
  }

  lemma FewWrites(n: nat, size: nat, calls: seq<Call>, sched: seq<nat>)
    requires CallsFit(n, size, calls) && Inv(Initial(n, size, calls)) && forall i :: 0 <= i < |calls| ==>
      calls[i].Write?
    ensures |InFlight(Run(Initial(n, size, calls), sched))| <= CountOf(calls, |calls|, Writers)
  {
    hide Run, Inv;
    RunCalls(Initial(n, size, calls), sched);
    OfKindCount(calls, |calls|, Writers);
    SubsetSize(InFlight(Run(Initial(n, size, calls), sched)), OfKind(calls, |calls|, Writers));
  }

  /** For any list of calls: no schedule refuses a read if and only if at most fourteen calls are reads. */
  lemma {:induction false} ReadsAdmittedExactly(n: nat, size: nat, calls: seq<Call>)
    requires CallsFit(n, size, calls) && Inv(Initial(n, size, calls))
    ensures
      (forall sched, r :: 0 <= r < |calls| ==> !Run(Initial(n, size, calls), sched).ops[r].pc.ReadFull?) <==>
      CountOf(calls, |calls|, Readers) <= 14
  {
    hide Run, Inv, ReadsInFlight;
    if CountOf(calls, |calls|, Readers) <= 14 {
      forall sched, r | 0 <= r < |calls| ensures !Run(Initial(n, size, calls), sched).ops[r].pc.ReadFull? {
        forall k | 0 <= k <= |sched| ensures |ReadsInFlight(Run(Initial(n, size, calls), sched[..k]))| < 15 {
          FewReads(n, size, calls, sched[..k]);
        }
        ReadsAreAdmitted(n, size, calls, sched, r);
      }
    } else {
      var sched, r := CrowdRefuses(n, size, calls, Readers);
      assert Run(Initial(n, size, calls), sched).ops[r].pc.ReadFull?;
    }
  }

  /** For any list of writes: no schedule refuses one if and only if there are fewer than n. */
  lemma {:induction false} WritesFitExactly(n: nat, size: nat, calls: seq<Call>)
    requires CallsFit(n, size, calls) && Inv(Initial(n, size, calls)) && forall i :: 0 <= i < |calls| ==>
      calls[i].Write?
    ensures
      (forall sched, w :: 0 <= w < |calls| ==> !Run(Initial(n, size, calls), sched).ops[w].pc.WriteFull?) <==>
      |calls| < n
  {
    hide Run, Inv, InFlight;
    AllOfKind(calls, |calls|);
    if |calls| < n {
      forall sched, w | 0 <= w < |calls| ensures !Run(Initial(n, size, calls), sched).ops[w].pc.WriteFull? {
        forall k | 0 <= k <= |sched| ensures |InFlight(Run(Initial(n, size, calls), sched[..k]))| < n {
          FewWrites(n, size, calls, sched[..k]);
        }
        WritesFindABuffer(n, size, calls, sched, w);
      }
    } else {
      var sched, w := CrowdRefuses(n, size, calls, Writers);
      assert Run(Initial(n, size, calls), sched).ops[w].pc.WriteFull?;
    }
  }

  lemma {:induction false} AllOfKind(calls: seq<Call>, m: nat)
    requires m <= |calls| && forall i :: 0 <= i < |calls| ==> calls[i].Write?
    ensures CountOf(calls, m, Writers) == m
  {
    if m > 0 { AllOfKind(calls, m - 1); }
  }
}
