/**
 When operations fail. A write finds no buffer only if the other n - 1 are all held, by as
 many different operations; a read is refused only if fourteen others read the target.
 */
module Capacity {
  import opened LockRecord
  import opened Protocol
  import opened Accounting

  function InFlight(s: State): set<nat> {
    set i | 0 <= i < |s.ops| && !s.ops[i].pc.Idle? && !s.ops[i].pc.Done()
  }

  function ReadsInFlight(s: State): set<nat> {
    set i | i in InFlight(s) && s.ops[i].call.Read?
  }

  /** The operation holds a buffer below m that is not the target. */
  predicate HoldsBelow(pc: Pc, m: nat, target: nat) {
    (pc.Reading? || pc.Releasing? || pc.Owns()) && pc.buf < m && pc.buf != target
  }

  /** The operations holding a buffer below m other than the target. */
  function HoldersBelow(s: State, m: nat): set<nat> {
    set i | 0 <= i < |s.ops| && HoldsBelow(s.ops[i].pc, m, s.word.target)
  }

  predicate Holds(pc: Pc, b: nat) {
    pc.HoldsRead(b) || pc.HoldsWrite(b)
  }

  /** An operation in flight other than w holds buffer b. */
  predicate HeldBeside(s: State, b: nat, w: nat) {
    exists i :: i in InFlight(s) && i != w && Holds(s.ops[i].pc, b)
  }

  /**
   Every buffer besides the target is held by an operation in flight other than w. An
   operation holds one buffer, so the holders of different buffers are different.
   */
  predicate OthersHeldBeside(s: State, w: nat) {
    forall b :: 0 <= b < s.n && b != s.word.target ==> HeldBeside(s, b, w)
  }

  lemma SomeHolder(s: State, b: nat) returns (i: nat)
    requires Inv(s) && b < s.n && s.word.count[b] > 0
    ensures i < |s.ops| && (s.ops[i].pc.Reading? || s.ops[i].pc.Releasing? || s.ops[i].pc.Owns())
    ensures s.ops[i].pc.buf == b
  {
    assert BufferOk(s, b);
    if s.word.count[b] == WRITER {
      i :| i in WritersOf(s, b);
    } else {
      assert ReadersOf(s, b) != {};
      i :| i in ReadersOf(s, b);
    }
  }

  lemma NotFree(s: State, b: nat)
    requires Inv(s) && FreeSlot(s.word).None? && b < s.n && b != s.word.target
    ensures s.word.count[b] > 0
  {
    assert !s.word.Free(b);
  }

  /** With no free slot among the buffers below m, each non-target one has its own holder. */
  lemma {:induction false} HoldersCounted(s: State, m: nat)
    requires Inv(s) && m <= s.n && FreeSlot(s.word).None?
    ensures |HoldersBelow(s, m)| >= m - (if s.word.target < m then 1 else 0)
  {
    hide Accounted, ContentsOk, OpOk, FreeSlot;
    if m > 0 {
      HoldersCounted(s, m - 1);
      if m - 1 == s.word.target {
        assert HoldersBelow(s, m) == HoldersBelow(s, m - 1);
      } else {
        NotFree(s, m - 1);
        var i := SomeHolder(s, m - 1);
        assert i in HoldersBelow(s, m) && i !in HoldersBelow(s, m - 1);
        SubsetSize(HoldersBelow(s, m - 1) + {i}, HoldersBelow(s, m));
      }
    }
  }

  lemma {:induction false} SubsetSize<T>(A: set<T>, B: set<T>)
    requires A <= B
    ensures |A| <= |B|
  {
    if A != {} {
      var x :| x in A;
      SubsetSize(A - {x}, B - {x});
    }
  }

  lemma HoldersInFlight(s: State, m: nat)
    ensures HoldersBelow(s, m) <= InFlight(s)
  {
  }

  /** And each of those buffers has a holder. */
  lemma FullMeansAllHeld(s: State, w: nat)
    requires Inv(s) && FreeSlot(s.word).None? && w < |s.ops| && s.ops[w].pc.Claiming?
    ensures OthersHeldBeside(s, w)
  {
    hide Accounted, ContentsOk, OpOk, FreeSlot;
    forall b | 0 <= b < s.n && b != s.word.target ensures HeldBeside(s, b, w) {
      NotFree(s, b);
      var i := SomeHolder(s, b);
      assert i in InFlight(s) && i != w && Holds(s.ops[i].pc, b);
    }
  }

  /** A word on which write w would give up is one where n - 1 others hold buffers. */
  lemma FullMeansHeld(s: State, w: nat)
    requires Inv(s) && FreeSlot(s.word).None? && w < |s.ops| && s.ops[w].pc.Claiming?
    ensures var holders := HoldersBelow(s, s.n);
      w !in holders && |holders| >= s.n - 1 && holders <= InFlight(s) && |InFlight(s)| >= s.n
  {
    HoldersCounted(s, s.n);
    HoldersInFlight(s, s.n);
    SubsetSize(HoldersBelow(s, s.n) + {w}, InFlight(s));
  }

  /** A word on which read r would give up is one where fourteen others read the target. */
  lemma FullMeansReaders(s: State, r: nat)
    requires Inv(s) && s.word.count[s.word.target] == 14 && r < |s.ops| && s.ops[r].pc.Acquiring?
    ensures var readers := ReadersOf(s, s.word.target);
      r !in readers && |readers| == 14 && readers <= ReadsInFlight(s) && |ReadsInFlight(s)| >= 15
  {
    assert BufferOk(s, s.word.target) && OpOk(s.n, s.size, s.ops[r]);
    forall i | i in ReadersOf(s, s.word.target) ensures i in ReadsInFlight(s) { assert OpOk(s.n, s.size, s.ops[i]); }
    SubsetSize(ReadersOf(s, s.word.target) + {r}, ReadsInFlight(s));
  }

  // ---- the deciding word was the shared word at some instant of the call ----

  predicate Waiting(pc: Pc) {
    pc.Acquiring? || pc.Claiming?
  }

  /** At instant k operation w has just loaded the word it acts on, and is still waiting. */
  predicate HasLooked(t: State, w: nat) {
    w < |t.ops| && Waiting(t.ops[w].pc) && t.ops[w].pc.flags == t.word
  }

  /** What an operation acts on before its first lock is the shared word as it loaded it at some instant k. */
  lemma {:induction false} Observation(s: State, sched: seq<nat>, w: nat) returns (k: nat)
    requires Inv(s) && w < |s.ops| && s.ops[w].pc.Idle?
    ensures k <= |sched|
    ensures var t, u := Run(s, sched[..k]), Run(s, sched);
      && (Waiting(u.ops[w].pc) ==> HasLooked(t, w) && t.ops[w].pc == u.ops[w].pc)
      && (u.ops[w].pc.ReadFull? ==> HasLooked(t, w) && t.ops[w].pc.Acquiring? && t.word.count[t.word.target] == 14)
      && (u.ops[w].pc.WriteFull? ==> HasLooked(t, w) && t.ops[w].pc.Claiming? && FreeSlot(t.word).None?)
  {
    k := |sched|;
    assert sched[..k] == sched;
    if sched != [] {
      var a, id := sched[..|sched| - 1], sched[|sched| - 1];
      var before := Run(s, a);
      var earlier := Observation(s, a, w);
      assert a[..earlier] == sched[..earlier];
      WaitingStep(before, id, w);
      if !HasLooked(Next(before, id), w) {
        k := earlier;
      }
    }
  }

  /** A waiting operation's word is fresh, or the one it had; a refusal is decided by the one it had. */
  lemma WaitingStep(s: State, id: nat, w: nat)
    requires Inv(s) && w < |s.ops|
    ensures |Next(s, id).ops| == |s.ops|
    ensures var p, q := s.ops[w].pc, Next(s, id).ops[w].pc;
      && (Waiting(q) ==> q == p || q.flags == Next(s, id).word)
      && (q.ReadFull? ==> q == p || (p.Acquiring? && WordOk(s.n, p.flags) && p.flags.count[p.flags.target] == 14))
      && (q.WriteFull? ==> q == p || (p.Claiming? && WordOk(s.n, p.flags) && FreeSlot(p.flags).None?))
  {
    assert OpOk(s.n, s.size, s.ops[w]);
    if id < |s.ops| { NextFrame(s, id); }
  }

  /**
   A write that returned -1 loaded the word it decided on at an instant k of its first loop. At
   that instant no buffer was free: each of the n - 1 buffers besides the target was held by an
   operation in flight other than this write, n - 1 different ones in all.
   */
  lemma {:induction false} RefusedWrite(n: nat, size: nat, calls: seq<Call>, sched: seq<nat>, w: nat) returns (k: nat)
    requires CallsFit(n, size, calls) && w < |calls| && Inv(Initial(n, size, calls))
    requires Run(Initial(n, size, calls), sched).ops[w].pc.WriteFull?
    ensures k <= |sched|
    ensures var t := Run(Initial(n, size, calls), sched[..k]);
      && t.ops[w].pc == Claiming(t.word) && w in InFlight(t) && FreeSlot(t.word).None?
      && OthersHeldBeside(t, w)
      && w !in HoldersBelow(t, n) && |HoldersBelow(t, n)| >= n - 1 && HoldersBelow(t, n) <= InFlight(t)
      && |InFlight(t)| >= n
  {
    hide Run, Next, FreeSlot, OthersHeldBeside, HoldersBelow;
    k := Observation(Initial(n, size, calls), sched, w);
    var t := Run(Initial(n, size, calls), sched[..k]);
    FullMeansHeld(t, w);
    FullMeansAllHeld(t, w);
  }

  /**
   A read that returned -1 loaded the word it decided on at an instant k of its first loop. At
   that instant exactly fourteen others in flight were reading the target.
   */
  lemma {:induction false} RefusedRead(n: nat, size: nat, calls: seq<Call>, sched: seq<nat>, r: nat) returns (k: nat)
    requires CallsFit(n, size, calls) && r < |calls| && Inv(Initial(n, size, calls))
    requires Run(Initial(n, size, calls), sched).ops[r].pc.ReadFull?
    ensures k <= |sched|
    ensures var t := Run(Initial(n, size, calls), sched[..k]);
      var readers := ReadersOf(t, t.word.target);
      && t.ops[r].pc == Acquiring(t.word) && r in InFlight(t)
      && r !in readers && |readers| == 14 && readers <= ReadsInFlight(t) && |ReadsInFlight(t)| >= 15
  {
    hide Run, Next, ReadersOf, ReadsInFlight;
    k := Observation(Initial(n, size, calls), sched, r);
    var t := Run(Initial(n, size, calls), sched[..k]);
    FullMeansReaders(t, r);
  }

  /** While never more than n - 1 operations are in flight at once, no write returns -1. */
  lemma {:induction false} WritesFindABuffer(n: nat, size: nat, calls: seq<Call>, sched: seq<nat>, w: nat)
    requires CallsFit(n, size, calls) && w < |calls| && Inv(Initial(n, size, calls))
    requires forall k {:trigger sched[..k]} :: 0 <= k <= |sched| ==>
      |InFlight(Run(Initial(n, size, calls), sched[..k]))| < n
    ensures !Run(Initial(n, size, calls), sched).ops[w].pc.WriteFull?
  {
    if Run(Initial(n, size, calls), sched).ops[w].pc.WriteFull? {
      var k := RefusedWrite(n, size, calls, sched, w);
    }
  }

  /** While never more than 14 reads are in flight at once, no read returns -1, for any number of writers. */
  lemma {:induction false} ReadsAreAdmitted(n: nat, size: nat, calls: seq<Call>, sched: seq<nat>, r: nat)
    requires CallsFit(n, size, calls) && r < |calls| && Inv(Initial(n, size, calls))
    requires forall k {:trigger sched[..k]} :: 0 <= k <= |sched| ==>
      |ReadsInFlight(Run(Initial(n, size, calls), sched[..k]))| < 15
    ensures !Run(Initial(n, size, calls), sched).ops[r].pc.ReadFull?
  {
    if Run(Initial(n, size, calls), sched).ops[r].pc.ReadFull? {
      var k := RefusedRead(n, size, calls, sched, r);
    }
  }
}
