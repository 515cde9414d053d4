/**
 The other half of the ordering result: whenever three writes can overtake each other and
 there are three buffers, some schedule makes the older write win. Together with Ordering
 this says exactly for which calls the latest write always wins.
 */
module Overtaking {
  import opened Basics
  import opened LockRecord
  import opened Protocol
  import opened Accounting
  import opened Ordering

  function Times(w: nat, m: nat): seq<nat> {
    if m == 0 then [] else Times(w, m - 1) + [w]
  }

  /** Where a write that runs alone is after m steps, with b the buffer it gets and l its word. */
  function SoloPc(b: nat, before: Locks, l: Locks, length: nat, m: nat): Pc {
    if m == 0 then Idle
    else if m == 1 then Claiming(before)
    else if m == 2 then Stamping(b)
    else if m <= length + 3 then Filling(b, m - 3)
    else if m == length + 4 then Checking(b, l)
    else Publishing(b, l)
  }

  /** t is s after m solo steps of write w. */
  predicate SoloAt(s: State, t: State, w: nat, b: nat, m: nat)
    requires w < |s.ops| == |t.ops| && s.ops[w].call.Write? && b < |s.word.count| && b < |s.stamps|
  {
    && (forall i :: 0 <= i < |s.ops| && i != w ==> t.ops[i] == s.ops[i])
    && t.ops[w].call == s.ops[w].call
    && t.ops[w].pc == SoloPc(b, s.word, s.word.WithCount(b, WRITER), |s.ops[w].call.payload|, m)
    && t.word == (if m < 2 then s.word else s.word.WithCount(b, WRITER))
    && t.stamps == (if m < 3 then s.stamps else s.stamps[b := s.ops[w].call.stamp])
  }

  lemma SoloStep(s: State, t: State, w: nat, b: nat, m: nat)
    requires Inv(s) && Inv(t) && t.n == s.n && w < |s.ops| == |t.ops| && s.ops[w].call.Write? && b < s.n
    requires b != s.word.target
    requires FreeSlot(s.word) == Some(b) && m < |s.ops[w].call.payload| + 5 && SoloAt(s, t, w, b, m)
    requires m < |s.ops[w].call.payload| + 4 || s.stamps[s.word.target] < s.ops[w].call.stamp
    ensures |Next(t, w).ops| == |s.ops| && SoloAt(s, Next(t, w), w, b, m + 1)
  {
    NextFrame(t, w);
    assert OpOk(t.n, t.size, t.ops[w]);
  }

  /** A write that runs alone gets the lowest free buffer, stamps it, fills it and, if newer, passes the check. */
  lemma {:induction false} Solo(s: State, w: nat, b: nat, m: nat)
    requires Inv(s) && w < |s.ops| && s.ops[w].call.Write? && s.ops[w].pc.Idle?
    requires FreeSlot(s.word) == Some(b) && m <= |s.ops[w].call.payload| + 5
    requires m <= |s.ops[w].call.payload| + 4 || s.stamps[s.word.target] < s.ops[w].call.stamp
    ensures b < s.n && b != s.word.target
    ensures SoloAt(s, Run(s, Times(w, m)), w, b, m)
  {
    assert WordOk(s.n, s.word) && s.word.Free(b);
    if m == 0 {
      assert Run(s, Times(w, 0)) == s;
    } else {
      var before := Times(w, m - 1);
      Solo(s, w, b, m - 1);
      SoloStep(s, Run(s, before), w, b, m - 1);
      assert Run(s, Times(w, m)) == Next(Run(s, before), w) by { RunStep(s, before, w); }
    }
  }

  /** t is s after write w has run alone to its end. */
  predicate PublishedAlone(s: State, t: State, w: nat, b: nat)
    requires w < |s.ops| == |t.ops| && s.ops[w].call.Write? && b < |s.word.count| && b < |s.stamps|
  {
    && (forall i :: 0 <= i < |s.ops| && i != w ==> t.ops[i] == s.ops[i])
    && t.ops[w].call == s.ops[w].call && t.ops[w].pc == Published
    && t.word == s.word.WithCount(b, 0).(target := b)
    && t.stamps == s.stamps[b := s.ops[w].call.stamp]
  }

  /** A write that runs alone to its end publishes the lowest free buffer. */
  lemma SoloPublish(s: State, w: nat, b: nat)
    requires Inv(s) && w < |s.ops| && s.ops[w].call.Write? && s.ops[w].pc.Idle?
    requires FreeSlot(s.word) == Some(b) && s.stamps[s.word.target] < s.ops[w].call.stamp
    ensures b < s.n && PublishedAlone(s, Run(s, Times(w, |s.ops[w].call.payload| + 6)), w, b)
  {
    var m := |s.ops[w].call.payload| + 5;
    Solo(s, w, b, m);
    RunStep(s, Times(w, m), w);
    SoloSwap(s, Run(s, Times(w, m)), w, b);
  }

  lemma SoloSwap(s: State, t: State, w: nat, b: nat)
    requires Inv(s) && Inv(t) && t.n == s.n && w < |s.ops| == |t.ops| && s.ops[w].call.Write? && b < s.n
    requires SoloAt(s, t, w, b, |s.ops[w].call.payload| + 5)
    ensures |Next(t, w).ops| == |s.ops| && PublishedAlone(s, Next(t, w), w, b)
  {
    NextFrame(t, w);
    assert OpOk(t.n, t.size, t.ops[w]);
    assert s.word.WithCount(b, WRITER).WithCount(b, 0) == s.word.WithCount(b, 0);
  }

  lemma LowestFreeIs(l: Locks, b: nat)
    requires |l.count| == SLOTS && l.Free(b) && forall i :: 0 <= i < b ==> !l.Free(i)
    ensures FreeSlot(l) == Some(b)
  {
  }

  /** The schedule: `first` up to its swap, then `second` and `third` to their ends, then the swap. */
  function OvertakingSchedule(calls: seq<Call>, i: nat, j: nat, k: nat): seq<nat>
    requires i < |calls| && j < |calls| && k < |calls| && Overtake(calls[i], calls[j], calls[k])
  {
    Times(i, |calls[i].payload| + 5) + Times(j, |calls[j].payload| + 6) + Times(k, |calls[k].payload| + 6) + [i]
  }

  /** The words along that schedule: the last is the one `first` is waiting to swap. */
  lemma OvertakingWords(n: nat)
    requires 3 <= n <= SLOTS
    ensures var l0 := InitialLocks(n); var l1 := l0.WithCount(1, WRITER);
      var l2 := l1.WithCount(2, 0).(target := 2); var l3 := l2.WithCount(0, 0).(target := 0);
      FreeSlot(l0) == Some(1) && FreeSlot(l1) == Some(2) && FreeSlot(l2) == Some(0) && l3 == l1
  {
    var l0 := InitialLocks(n);
    var l1 := l0.WithCount(1, WRITER);
    var l2 := l1.WithCount(2, 0).(target := 2);
    LowestFreeIs(l0, 1);
    LowestFreeIs(l1, 2);
    LowestFreeIs(l2, 0);
  }

  /** A state in which `first` waits with the current word and `third`, published, is the newer. */
  predicate AboutToOvertake(calls: seq<Call>, t: State, i: nat, k: nat)
    requires i < |calls| == |t.ops| && k < |calls|
  {
    && t.ops[i].call == calls[i] && t.ops[i].pc == Publishing(1, t.word)
    && t.ops[k].call == calls[k] && t.ops[k].pc.Published?
    && forall x :: 0 <= x < |calls| && x != i ==> t.ops[x].pc.Idle? || t.ops[x].pc.Published?
  }

  lemma BeforeTheSwap(n: nat, size: nat, calls: seq<Call>, i: nat, j: nat, k: nat)
    requires CallsFit(n, size, calls) && n >= 3 && Inv(Initial(n, size, calls))
    requires i < |calls| && j < |calls| && k < |calls| && i != j && Overtake(calls[i], calls[j], calls[k])
    ensures var t := Run(Run(Run(Initial(n, size, calls), Times(i, |calls[i].payload| + 5)),
                             Times(j, |calls[j].payload| + 6)), Times(k, |calls[k].payload| + 6));
      AboutToOvertake(calls, t, i, k)
  {
    var s0 := Initial(n, size, calls);
    OvertakingWords(n);
    Solo(s0, i, 1, |calls[i].payload| + 5);
    SecondAndThird(calls, s0, Run(s0, Times(i, |calls[i].payload| + 5)), i, j, k);
  }

  lemma SecondAndThird(calls: seq<Call>, s0: State, s1: State, i: nat, j: nat, k: nat)
    requires i < |calls| && j < |calls| && k < |calls| && i != j && Overtake(calls[i], calls[j], calls[k])
    requires 3 <= s0.n <= SLOTS && s0.stamps == seq(s0.n, _ => 0) && s0.word == InitialLocks(s0.n)
    requires |s0.ops| == |s1.ops| == |calls| && forall x :: 0 <= x < |calls| ==> s0.ops[x] == Op(calls[x], Idle, 0)
    requires Inv(s1) && s1.n == s0.n && SoloAt(s0, s1, i, 1, |calls[i].payload| + 5)
    ensures
      var t := Run(Run(s1, Times(j, |calls[j].payload| + 6)), Times(k, |calls[k].payload| + 6));
      AboutToOvertake(calls, t, i, k)
  {
    var l1 := s0.word.WithCount(1, WRITER);
    OvertakingWords(s0.n);
    assert s1.word == l1 && s1.word.target == 0 && s1.stamps[0] == 0;
    assert s1.ops[j] == s0.ops[j];
    SoloPublish(s1, j, 2);
    ThirdPublishes(calls, s1, Run(s1, Times(j, |calls[j].payload| + 6)), i, j, k, l1);
  }

  lemma ThirdPublishes(calls: seq<Call>, s1: State, s2: State, i: nat, j: nat, k: nat, l1: Locks)
    requires i < |calls| == |s1.ops| == |s2.ops| && j < |calls| && k < |calls| && i != j
    requires Overtake(calls[i], calls[j], calls[k])
    requires Inv(s1) && Inv(s2) && s1.n == s2.n && 3 <= s1.n && s1.word == l1
    requires
      var l2 := l1.WithCount(2, 0).(target := 2);
      FreeSlot(l2) == Some(0) && l2.WithCount(0, 0).(target := 0) == l1
    requires s1.ops[i].call == calls[i] && s1.ops[i].pc == Publishing(1, l1)
    requires forall x :: 0 <= x < |calls| && x != i ==> s1.ops[x] == Op(calls[x], Idle, 0)
    requires PublishedAlone(s1, s2, j, 2)
    ensures AboutToOvertake(calls, Run(s2, Times(k, |calls[k].payload| + 6)), i, k)
  {
    hide Accounted, ContentsOk, OpOk, FreeSlot;
    assert s2.ops[k] == s1.ops[k] && s2.ops[i] == s1.ops[i];
    assert s2.word.target == 2 && s2.stamps[2] == calls[j].stamp;
    SoloPublish(s2, k, 0);
    SwapRestored(calls, s1, s2, Run(s2, Times(k, |calls[k].payload| + 6)), i, j, k, l1);
  }

  lemma SwapRestored(calls: seq<Call>, s1: State, s2: State, s3: State, i: nat, j: nat, k: nat, l1: Locks)
    requires i < |calls| == |s1.ops| == |s2.ops| == |s3.ops| && j < |calls| && k < |calls| && i != j && i != k && j != k
    requires calls[j].Write? && calls[k].Write? && |l1.count| == SLOTS && |s1.stamps| == |s2.stamps| >= 3
    requires s1.word == l1 && l1.WithCount(2, 0).(target := 2).WithCount(0, 0).(target := 0) == l1
    requires s1.ops[i].call == calls[i] && s1.ops[i].pc == Publishing(1, l1)
    requires forall x :: 0 <= x < |calls| && x != i ==> s1.ops[x] == Op(calls[x], Idle, 0)
    requires |s2.word.count| == SLOTS && PublishedAlone(s1, s2, j, 2) && s2.ops[k].call.Write?
    requires PublishedAlone(s2, s3, k, 0)
    ensures AboutToOvertake(calls, s3, i, k)
  {
  }

  /** `third` is published and then overtaken by the older `first`, with nobody writing any more. */
  lemma OvertakingRun(n: nat, size: nat, calls: seq<Call>, i: nat, j: nat, k: nat)
    requires CallsFit(n, size, calls) && n >= 3 && Inv(Initial(n, size, calls))
    requires i < |calls| && j < |calls| && k < |calls| && i != j && Overtake(calls[i], calls[j], calls[k])
    ensures !LatestWon(Run(Initial(n, size, calls), OvertakingSchedule(calls, i, j, k)))
  {
    var s := Initial(n, size, calls);
    var a, b, c := Times(i, |calls[i].payload| + 5), Times(j, |calls[j].payload| + 6), Times(k, |calls[k].payload| + 6);
    BeforeTheSwap(n, size, calls, i, j, k);
    RunConcat(s, a, b);
    RunConcat(s, a + b, c);
    RunStep(s, a + b + c, i);
    TheSwap(Run(s, a + b + c), i, k);
  }

  lemma TheSwap(t: State, i: nat, k: nat)
    requires Inv(t) && i < |t.ops| && k < |t.ops| && i != k && t.ops[i].call.Write?
    requires t.ops[i].pc == Publishing(1, t.word) && t.ops[k].pc.Published? && Stamp(t.ops[i]) < Stamp(t.ops[k])
    requires forall x :: 0 <= x < |t.ops| && x != i ==> t.ops[x].pc.Idle? || t.ops[x].pc.Published?
    ensures Inv(Next(t, i)) && !LatestWon(Next(t, i))
  {
    NextInv(t, i);
    NextFrame(t, i);
    assert OpOk(t.n, t.size, t.ops[i]) && ContentsOk(t, t.ops[i]);
    assert Next(t, i).ops[k].pc.Published?;
  }

  /**
   The latest write wins under every schedule if and only if the variable has just two
   buffers or no three of the writes can overtake each other. With the configured four
   buffers, two writes are always safe and three are not.
   */
  lemma LatestWinsExactly(n: nat, size: nat, calls: seq<Call>)
    requires CallsFit(n, size, calls) && Inv(Initial(n, size, calls))
    ensures (forall sched :: LatestWon(Run(Initial(n, size, calls), sched))) <==> n == 2 || !Overtaken(calls)
  {
    if n == 2 || !Overtaken(calls) {
      forall sched ensures LatestWon(Run(Initial(n, size, calls), sched)) {
        forall k | 0 <= k < |sched| ensures Safe(Run(Initial(n, size, calls), sched[..k]), sched[k]) {
          RunCalls(Initial(n, size, calls), sched[..k]);
          assert CallsOf(Run(Initial(n, size, calls), sched[..k])) == calls;
        }
        RunSettled(n, size, calls, []);
        InitialRanked(n, size, calls);
        RunOrdered(Initial(n, size, calls), sched);
        QuietMeansLatest(Run(Initial(n, size, calls), sched));
      }
    } else {
      var i, j, k :|
        && 0 <= i < |calls| && 0 <= j < |calls| && 0 <= k < |calls|
        && i != j && Overtake(calls[i], calls[j], calls[k]);
      OvertakingRun(n, size, calls, i, j, k);
    }
  }
}
