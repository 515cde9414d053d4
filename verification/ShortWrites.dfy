/**
 What a read longer than the last write gets. A short write replaces only the front of a
 buffer, so behind it a longer read sees what was there before: zeros, or bytes of writes that
 were never readable themselves. This module exhibits that and says exactly for which calls it
 cannot happen.
 */
module ShortWrites {
  import opened Basics
  import opened LockRecord
  import opened Protocol
  import opened Accounting
  import opened Copies
  import opened Register
  import opened LastWrite
  import opened Ordering
  import opened Progress
  import opened Capacity
  import opened Overtaking

  // ---- schedules in which one operation runs alone ----

  lemma {:induction false} TimesAre(w: nat, m: nat)
    ensures |Times(w, m)| == m && multiset(Times(w, m))[w] == m
    ensures forall i :: 0 <= i < m ==> Times(w, m)[i] == w
  {
    if m > 0 { TimesAre(w, m - 1); }
  }

  lemma {:induction false} TimesPrefix(w: nat, m: nat, k: nat)
    requires k <= m
    ensures |Times(w, m)| == m && Times(w, m)[..k] == Times(w, k)
  {
    TimesAre(w, m);
    TimesAre(w, k);
  }

  lemma TimesNone(a: seq<nat>, w: nat)
    ensures a + Times(w, 0) == a
  {
  }

  lemma TimesMore(a: seq<nat>, w: nat, m: nat)
    requires m > 0
    ensures a + Times(w, m) == a + Times(w, m - 1) + [w]
  {
  }

  /** An operation the schedule does not name has not moved. */
  lemma {:induction false} Untouched(s: State, sched: seq<nat>, i: nat)
    requires Inv(s) && i < |s.ops| && i !in sched
    ensures Run(s, sched).ops[i] == s.ops[i]
  {
    if sched != [] {
      hide Inv;
      var before, id := Run(s, sched[..|sched| - 1]), sched[|sched| - 1];
      Untouched(s, sched[..|sched| - 1], i);
      if id < |before.ops| { NextFrame(before, id); }
    }
  }

  lemma {:induction false} ReadsDoNotPublish(s: State, a: seq<nat>, r: nat, j: nat)
    requires Inv(s) && r < |s.ops| && s.ops[r].call.Read?
    ensures Run(s, a + Times(r, j)).Register() == Run(s, a).Register()
    ensures LastPublish(s, a + Times(r, j)) == LastPublish(s, a)
  {
    hide Run, Next, Inv, LastPublish, Times;
    if j == 0 {
      TimesNone(a, r);
    } else {
      ReadsDoNotPublish(s, a, r, j - 1);
      TimesMore(a, r, j);
      ReadStepDoesNotPublish(s, a + Times(r, j - 1), r);
    }
  }

  lemma ReadStepDoesNotPublish(s: State, b: seq<nat>, r: nat)
    requires Inv(s) && r < |s.ops| && s.ops[r].call.Read?
    ensures Run(s, b + [r]).Register() == Run(s, b).Register()
    ensures LastPublish(s, b + [r]) == LastPublish(s, b)
  {
    RunStep(s, b, r);
    RunCalls(s, b);
    ReadRefines(Run(s, b), r);
    ReaderStays(Run(s, b), r);
    assert (b + [r])[..|b|] == b;
  }

  lemma LastPublishStep(s: State, b: seq<nat>, w: nat)
    requires Inv(s) && w < |s.ops|
    ensures
      var publishes := !Run(s, b).ops[w].pc.Published? && Run(s, b + [w]).ops[w].pc.Published?;
      LastPublish(s, b + [w]) == if publishes then Some(w) else LastPublish(s, b)
  {
    hide Inv, Next;
    assert (b + [w])[..|b|] == b;
  }

  /** A write that runs alone until it has published is the last to have published. */
  lemma {:induction false} PublishedLast(s: State, a: seq<nat>, w: nat, m: nat)
    requires Inv(s) && w < |s.ops| && !Run(s, a).ops[w].pc.Published? && Run(s, a + Times(w, m)).ops[w].pc.Published?
    ensures LastPublish(s, a + Times(w, m)) == Some(w)
  {
    hide Run, Next, Inv, LastPublish, Times;
    if m == 0 {
      TimesNone(a, w);
    } else {
      var b := a + Times(w, m - 1);
      TimesMore(a, w, m);
      LastPublishStep(s, b, w);
      if Run(s, b).ops[w].pc.Published? { PublishedLast(s, a, w, m - 1); }
    }
  }

  /** Bytes behind the payloads of all writes in a schedule stay as they are. */
  lemma {:induction false} BytesKept(s: State, sched: seq<nat>, b: nat, k: nat)
    requires Inv(s) && b < s.n && k < s.size
    requires forall i :: 0 <= i < |sched| && sched[i] < |s.ops| && s.ops[sched[i]].call.Write? ==>
      |s.ops[sched[i]].call.payload| <= k
    ensures Run(s, sched).data[b][k] == s.data[b][k]
  {
    if sched != [] {
      hide Next, Inv;
      var a, id := sched[..|sched| - 1], sched[|sched| - 1];
      BytesKept(s, a, b, k);
      RunCalls(s, a);
      StepByte(Run(s, a), id, b, k);
    }
  }

  // ---- a read after some writes ----

  function ReadAlone(calls: seq<Call>, r: nat): seq<nat>
    requires r < |calls|
  {
    Times(r, Length(calls[r]) + 6 + 4 * (|calls| - 1))
  }

  predicate OnlyWrites(calls: seq<Call>, a: seq<nat>) {
    forall i :: 0 <= i < |a| ==> a[i] < |calls| && calls[a[i]].Write?
  }

  lemma OnlyReader(n: nat, size: nat, calls: seq<Call>, a: seq<nat>, r: nat, k: nat, b: nat)
    requires CallsFit(n, size, calls) && Inv(Initial(n, size, calls)) && r < |calls| && calls[r].Read?
    requires OnlyWrites(calls, a) && k <= |a + ReadAlone(calls, r)|
    ensures ReadersOf(Run(Initial(n, size, calls), (a + ReadAlone(calls, r))[..k]), b) <= {r}
  {
    hide Inv, Next, Run;
    var s := Initial(n, size, calls);
    var sched := (a + ReadAlone(calls, r))[..k];
    var t := Run(s, sched);
    TimesAre(r, |ReadAlone(calls, r)|);
    TimesAre(r, Length(calls[r]) + 6 + 4 * (|calls| - 1));
    RunCalls(s, sched);
    forall i | i in ReadersOf(t, b) ensures i == r {
      ReaderReads(t, i, b);
      if i !in sched { Untouched(s, sched, i); }
    }
  }

  lemma ReaderReads(t: State, i: nat, b: nat)
    requires Inv(t) && i in ReadersOf(t, b)
    ensures i < |t.ops| && t.ops[i].call.Read? && !t.ops[i].pc.Idle?
  {
    assert OpOk(t.n, t.size, t.ops[i]);
  }

  /** Run alone after any writes, a read returns 0 with the front of what the register held. */
  lemma {:induction false} ThenRead(n: nat, size: nat, calls: seq<Call>, a: seq<nat>, r: nat)
    requires CallsFit(n, size, calls) && Inv(Initial(n, size, calls)) && r < |calls| && calls[r].Read?
    requires OnlyWrites(calls, a)
    ensures
      var s := Initial(n, size, calls);
      var t := Run(s, a + ReadAlone(calls, r));
      && calls[r].opSize <= |Run(s, a).Register()|
      && t.ops[r].pc == ReadDone(Run(s, a).Register()[..calls[r].opSize])
  {
    hide Run, Next, Inv, LastPublish, Returns, ReturnsCopies;
    var s := Initial(n, size, calls);
    var sched := a + ReadAlone(calls, r);
    ReadEnds(n, size, calls, a, r);
    ReadReturnsLastWrite(n, size, calls, sched, r);
    var got := Run(s, sched).ops[r].pc.got;
    var k: nat :| AcquiresAt(s, sched, r, k) && BytesReturned(s, calls, sched[..k], got);
    AcquiresAfter(calls, a, r, sched, k);
    ReadsDoNotPublish(s, a, r, k - |a|);
    RegisterSize(Run(s, a));
    RegisterSize(Run(s, sched[..k]));
  }

  lemma RegisterSize(t: State)
    requires Inv(t)
    ensures t.word.target < |t.data| && |t.Register()| == t.size
  {
  }

  /** The step at which a read that follows writes acquires is behind theirs. */
  lemma AcquiresAfter(calls: seq<Call>, a: seq<nat>, r: nat, sched: seq<nat>, k: nat)
    requires r < |calls| && calls[r].Read? && OnlyWrites(calls, a)
    requires sched == a + ReadAlone(calls, r) && k < |sched| && sched[k] == r
    ensures k >= |a| && sched[..k] == a + Times(r, k - |a|)
  {
    var m := Length(calls[r]) + 6 + 4 * (|calls| - 1);
    TimesAre(r, m);
    assert forall i :: 0 <= i < |a| ==> sched[i] == a[i];
    TimesPrefix(r, m, k - |a|);
    assert sched[..k] == a + Times(r, m)[..k - |a|];
  }

  lemma {:induction false} ReadEnds(n: nat, size: nat, calls: seq<Call>, a: seq<nat>, r: nat)
    requires CallsFit(n, size, calls) && Inv(Initial(n, size, calls)) && r < |calls| && calls[r].Read?
    requires OnlyWrites(calls, a)
    ensures Run(Initial(n, size, calls), a + ReadAlone(calls, r)).ops[r].pc.ReadDone?
  {
    hide Run, Next, Inv;
    var s := Initial(n, size, calls);
    var sched := a + ReadAlone(calls, r);
    TimesAre(r, Length(calls[r]) + 6 + 4 * (|calls| - 1));
    assert multiset(sched)[r] >= multiset(ReadAlone(calls, r))[r];
    EveryOperationReturns(n, size, calls, sched, r);
    RunCalls(s, sched);
    DoneReadPcs(Run(s, sched), r);
    if Run(s, sched).ops[r].pc.ReadFull? {
      var k := RefusedRead(n, size, calls, sched, r);
      OnlyReader(n, size, calls, a, r, k, Run(s, sched[..k]).word.target);
    }
  }

  lemma DoneReadPcs(t: State, r: nat)
    requires Inv(t) && r < |t.ops| && t.ops[r].call.Read? && t.ops[r].pc.Done()
    ensures t.ops[r].pc.ReadDone? || t.ops[r].pc.ReadFull?
  {
    assert OpOk(t.n, t.size, t.ops[r]);
  }

  // ---- exactly when a read has the bytes of one write and no others ----

  /** got is a prefix of the payload of the given last publish, or zeros before any. */
  ghost predicate OfOneWrite(calls: seq<Call>, last: Option<nat>, got: Bytes) {
    match last
    case None => got == Zeros(|got|)
    case Some(w) => w < |calls| && calls[w].Write? && got <= calls[w].payload
  }

  /** If read r has returned 0, all its bytes are of the write that had published last before its acquire. */
  ghost predicate ReadsOneWrite(s: State, calls: seq<Call>, sched: seq<nat>, r: nat)
    requires Inv(s) && r < |s.ops|
  {
    var pc := Run(s, sched).ops[r].pc;
    pc.ReadDone? ==>
      exists k: nat :: AcquiresAt(s, sched, r, k) && OfOneWrite(calls, LastPublish(s, sched[..k]), pc.got)
  }

  /** No read asks for more than a write stores; a write with timestamp 0 is never published and does not matter. */
  predicate Covered(calls: seq<Call>) {
    forall r, w :: 0 <= r < |calls| && 0 <= w < |calls| ==> Covers(calls[w], calls[r])
  }

  predicate Covers(write: Call, read: Call) {
    read.Read? && write.Write? && write.stamp > 0 ==> read.opSize <= |write.payload|
  }

  lemma {:induction false} CoveredReadsOneWrite(n: nat, size: nat, calls: seq<Call>, sched: seq<nat>, r: nat)
    requires CallsFit(n, size, calls) && Inv(Initial(n, size, calls)) && r < |calls| && Covered(calls)
    ensures ReadsOneWrite(Initial(n, size, calls), calls, sched, r)
  {
    hide Run, Next, Inv, LastPublish;
    var s := Initial(n, size, calls);
    var pc := Run(s, sched).ops[r].pc;
    ReadReturnsLastWrite(n, size, calls, sched, r);
    if pc.ReadDone? {
      var k: nat :| AcquiresAt(s, sched, r, k) && BytesReturned(s, calls, sched[..k], pc.got);
      var last := LastPublish(s, sched[..k]);
      if last.Some? {
        PublishedHasStamp(n, size, calls, sched[..k]);
        assert Covers(calls[last.value], calls[r]);
      }
      assert OfOneWrite(calls, last, pc.got);
    }
  }

  lemma PublishedHasStamp(n: nat, size: nat, calls: seq<Call>, a: seq<nat>)
    requires CallsFit(n, size, calls) && Inv(Initial(n, size, calls))
    ensures var last := LastPublish(Initial(n, size, calls), a);
      last.Some? ==> last.value < |calls| && calls[last.value].Write? && calls[last.value].stamp > 0
  {
    var s := Initial(n, size, calls);
    RunSettled(n, size, calls, a);
    RegisterIsLast(s, a);
    RunCalls(s, a);
    var last, t := LastPublish(s, a), Run(s, a);
    if last.Some? { assert SeenOk(t, t.ops[last.value]); }
  }

  lemma FirstFree(n: nat)
    requires 2 <= n <= SLOTS
    ensures FreeSlot(InitialLocks(n)) == Some(1)
  {
    LowestFreeIs(InitialLocks(n), 1);
  }

  /** A write with a timestamp that runs alone from the start publishes. */
  lemma FirstPublish(n: nat, size: nat, calls: seq<Call>, w: nat)
    requires CallsFit(n, size, calls) && Inv(Initial(n, size, calls)) && w < |calls|
    requires calls[w].Write? && calls[w].stamp > 0
    ensures LastPublish(Initial(n, size, calls), Times(w, |calls[w].payload| + 6)) == Some(w)
  {
    var s := Initial(n, size, calls);
    var m := |calls[w].payload| + 6;
    FirstFree(n);
    SoloPublish(s, w, 1);
    assert [] + Times(w, m) == Times(w, m) && Run(s, []) == s;
    hide Run, Next, Inv, LastPublish;
    PublishedLast(s, [], w, m);
  }

  /** A short write and then a longer read, each alone: the read has more than the write. */
  lemma {:induction false} LongerReadShowsMore(n: nat, size: nat, calls: seq<Call>, w: nat, r: nat)
    requires CallsFit(n, size, calls) && Inv(Initial(n, size, calls)) && r < |calls| && w < |calls|
    requires !Covers(calls[w], calls[r])
    ensures
      var sched := Times(w, |calls[w].payload| + 6) + ReadAlone(calls, r);
      !ReadsOneWrite(Initial(n, size, calls), calls, sched, r)
  {
    hide Run, Next, Inv, LastPublish, Initial;
    var s := Initial(n, size, calls);
    assert |s.ops| == |calls| && s.ops[r].call == calls[r] by { RunCallsNone(n, size, calls); }
    var m := |calls[w].payload| + 6;
    var sched := Times(w, m) + ReadAlone(calls, r);
    FirstPublish(n, size, calls, w);
    TimesAre(w, m);
    ThenRead(n, size, calls, Times(w, m), r);
    forall k: nat | AcquiresAt(s, sched, r, k)
      ensures !OfOneWrite(calls, LastPublish(s, sched[..k]), Run(s, sched).ops[r].pc.got)
    {
      AcquiresAfter(calls, Times(w, m), r, sched, k);
      ReadsDoNotPublish(s, Times(w, m), r, k - m);
    }
  }

  lemma RunCallsNone(n: nat, size: nat, calls: seq<Call>)
    requires n <= SLOTS
    ensures
      var s := Initial(n, size, calls);
      |s.ops| == |calls| && forall i :: 0 <= i < |calls| ==> s.ops[i].call == calls[i]
  {
  }

  /**
   For any list of calls: under every schedule every read has only bytes of the write that had
   published last before it acquired, if and only if no read asks for more than a write with a
   timestamp stores.
   */
  lemma {:induction false} ReadsOneWriteExactly(n: nat, size: nat, calls: seq<Call>)
    requires CallsFit(n, size, calls) && Inv(Initial(n, size, calls))
    ensures
      (forall sched, r :: 0 <= r < |calls| ==> ReadsOneWrite(Initial(n, size, calls), calls, sched, r)) <==>
      Covered(calls)
  {
    if Covered(calls) {
      forall sched, r | 0 <= r < |calls| ensures ReadsOneWrite(Initial(n, size, calls), calls, sched, r) {
        CoveredReadsOneWrite(n, size, calls, sched, r);
      }
    } else {
      var r, w :| 0 <= r < |calls| && 0 <= w < |calls| && !Covers(calls[w], calls[r]);
      LongerReadShowsMore(n, size, calls, w, r);
    }
  }

  // ---- bytes of a write that was never readable ----

  /** t is s after write w has run alone to its end and given up. */
  predicate GaveUpAlone(s: State, t: State, w: nat, b: nat)
    requires w < |s.ops| == |t.ops| && s.ops[w].call.Write? && b < |s.stamps| && b < |t.data|
  {
    && (forall i :: 0 <= i < |s.ops| && i != w ==> t.ops[i] == s.ops[i])
    && t.ops[w].call == s.ops[w].call && t.ops[w].pc == Superseded
    && t.word == s.word && t.stamps == s.stamps[b := s.ops[w].call.stamp] && s.ops[w].call.payload <= t.data[b]
  }

  /** A write that runs alone while the target is as new fills the lowest free buffer and gives it back. */
  lemma SoloGivesUp(s: State, w: nat, b: nat)
    requires Inv(s) && w < |s.ops| && s.ops[w].call.Write? && s.ops[w].pc.Idle?
    requires FreeSlot(s.word) == Some(b) && s.stamps[s.word.target] >= s.ops[w].call.stamp
    ensures b < s.n && GaveUpAlone(s, Run(s, Times(w, |s.ops[w].call.payload| + 6)), w, b)
  {
    var m := |s.ops[w].call.payload| + 4;
    Solo(s, w, b, m);
    RunStep(s, Times(w, m), w);
    RunStep(s, Times(w, m + 1), w);
    GiveUpSteps(s, Run(s, Times(w, m)), w, b);
  }

  lemma GiveUpSteps(s: State, t: State, w: nat, b: nat)
    requires Inv(s) && Inv(t) && t.n == s.n && w < |s.ops| == |t.ops| && s.ops[w].call.Write?
    requires FreeSlot(s.word) == Some(b) && b < s.n && s.stamps[s.word.target] >= s.ops[w].call.stamp
    requires SoloAt(s, t, w, b, |s.ops[w].call.payload| + 4)
    ensures Inv(Next(t, w)) && Inv(Next(Next(t, w), w)) && |Next(Next(t, w), w).ops| == |s.ops|
    ensures Next(Next(t, w), w).n == s.n && GaveUpAlone(s, Next(Next(t, w), w), w, b)
  {
    NextInv(t, w);
    NextFrame(t, w);
    NextInv(Next(t, w), w);
    NextFrame(Next(t, w), w);
    assert OpOk(t.n, t.size, t.ops[w]) && ContentsOk(t, t.ops[w]);
    assert s.word.Free(b);
    assert s.word.WithCount(b, WRITER).WithCount(b, 0) == s.word;
  }

  /** The schedule: write c publishes, a gives up, b publishes a shorter payload in a's buffer, r reads. */
  function StaleSchedule(calls: seq<Call>, c: nat, a: nat, b: nat, r: nat): seq<nat>
    requires c < |calls| && a < |calls| && b < |calls| && r < |calls|
    requires calls[c].Write? && calls[a].Write? && calls[b].Write?
  {
    WritesAlone(calls, c, a, b) + ReadAlone(calls, r)
  }

  function WritesAlone(calls: seq<Call>, c: nat, a: nat, b: nat): seq<nat>
    requires c < |calls| && a < |calls| && b < |calls| && calls[c].Write? && calls[a].Write? && calls[b].Write?
  {
    Times(c, |calls[c].payload| + 6) + Times(a, |calls[a].payload| + 6) + Times(b, |calls[b].payload| + 6)
  }

  /** Writes c, a and b as in that schedule. */
  predicate LeavesTail(c: Call, a: Call, b: Call) {
    c.Write? && a.Write? && b.Write? && a.stamp <= c.stamp < b.stamp && c.stamp > 0
  }

  lemma SecondFree(n: nat)
    requires 2 <= n <= SLOTS
    ensures FreeSlot(InitialLocks(n).WithCount(1, 0).(target := 1)) == Some(0)
  {
    LowestFreeIs(InitialLocks(n).WithCount(1, 0).(target := 1), 0);
  }

  /** Where the second and third write find the variable. */
  predicate ReadyFor(s: State, c: Call, w: Call, op: Op) {
    && FreeSlotIs(s.word, 0) && s.word.target == 1 && |s.stamps| == s.n >= 2 && c.Write? && s.stamps[1] == c.stamp
    && op.call == w && op.pc.Idle?
  }

  predicate FreeSlotIs(l: Locks, b: nat) {
    |l.count| == SLOTS && FreeSlot(l) == Some(b)
  }

  lemma AfterFirst(s: State, t: State, calls: seq<Call>, c: nat, w: nat)
    requires 2 <= s.n <= SLOTS && s.word == InitialLocks(s.n) && s.stamps == seq(s.n, _ => 0) && t.n == s.n
    requires c < |calls| == |s.ops| == |t.ops| && w < |calls| && w != c
    requires calls[c].Write? && s.ops[c].call == calls[c] && s.ops[w] == Op(calls[w], Idle, 0)
    requires PublishedAlone(s, t, c, 1)
    ensures ReadyFor(t, calls[c], calls[w], t.ops[w])
  {
    SecondFree(s.n);
  }

  lemma AfterSecond(s: State, t: State, c: Call, a: nat, b: nat)
    requires Inv(s) && Inv(t) && t.n == s.n && a < |s.ops| == |t.ops| && b < |s.ops| && a != b && s.ops[a].call.Write?
    requires ReadyFor(s, c, s.ops[a].call, s.ops[a]) && ReadyFor(s, c, s.ops[b].call, s.ops[b])
    requires GaveUpAlone(s, t, a, 0)
    ensures ReadyFor(t, c, s.ops[b].call, t.ops[b])
    ensures t.ops[a].pc.Superseded? && |t.data| > 0 && s.ops[a].call.payload <= t.data[0]
  {
  }

  /** After the first two writes the buffer the third will get begins with the payload of the second. */
  lemma FirstTwo(n: nat, size: nat, calls: seq<Call>, c: nat, a: nat, b: nat)
    requires CallsFit(n, size, calls) && Inv(Initial(n, size, calls)) && a != c
    requires c < |calls| && a < |calls| && b < |calls| && LeavesTail(calls[c], calls[a], calls[b])
    ensures
      var before := Times(c, |calls[c].payload| + 6) + Times(a, |calls[a].payload| + 6);
      var t := Run(Initial(n, size, calls), before);
      && ReadyFor(t, calls[c], calls[b], t.ops[b]) && t.ops[a].pc.Superseded?
      && |t.data| > 0 && calls[a].payload <= t.data[0]
  {
    var s0 := Initial(n, size, calls);
    var tc, ta := Times(c, |calls[c].payload| + 6), Times(a, |calls[a].payload| + 6);
    RunConcat(s0, tc, ta);
    RunCalls(s0, tc);
    FirstPublishes(n, size, calls, c, a);
    FirstPublishes(n, size, calls, c, b);
    hide Run, Next, Inv, GaveUpAlone, FreeSlot, Initial, Times;
    SoloGivesUp(Run(s0, tc), a, 0);
    AfterSecond(Run(s0, tc), Run(Run(s0, tc), ta), calls[c], a, b);
  }

  lemma FirstPublishes(n: nat, size: nat, calls: seq<Call>, c: nat, w: nat)
    requires CallsFit(n, size, calls) && Inv(Initial(n, size, calls)) && c < |calls| && w < |calls| && w != c
    requires calls[c].Write? && calls[c].stamp > 0
    ensures
      var t := Run(Initial(n, size, calls), Times(c, |calls[c].payload| + 6));
      ReadyFor(t, calls[c], calls[w], t.ops[w])
  {
    var s0 := Initial(n, size, calls);
    FirstFree(n);
    SoloPublish(s0, c, 1);
    AfterFirst(s0, Run(s0, Times(c, |calls[c].payload| + 6)), calls, c, w);
  }

  /** The third write alone: it publishes buffer 0, and behind its payload that keeps its bytes. */
  lemma BehindThird(s: State, b: nat, k: nat)
    requires Inv(s) && b < |s.ops| && s.ops[b].call.Write? && s.ops[b].pc.Idle?
    requires FreeSlot(s.word) == Some(0) && s.stamps[s.word.target] < s.ops[b].call.stamp
    requires |s.ops[b].call.payload| <= k < s.size
    ensures var t := Run(s, Times(b, |s.ops[b].call.payload| + 6));
      t.word.target == 0 && t.Register()[k] == s.data[0][k]
  {
    var m := |s.ops[b].call.payload| + 6;
    SoloPublish(s, b, 0);
    TimesAre(b, m);
    BytesKept(s, Times(b, m), 0, k);
  }

  lemma {:induction false} LastOfThree(s0: State, calls: seq<Call>, before: seq<nat>, c: nat, a: nat, b: nat)
    requires Inv(s0) && s0.Register() == Zeros(s0.size) && a < |s0.ops| == |calls| && b < |calls| && a != b
    requires forall i :: 0 <= i < |calls| ==> s0.ops[i].call == calls[i]
    requires c < |calls| && LeavesTail(calls[c], calls[a], calls[b])
    requires var s2 := Run(s0, before);
      && ReadyFor(s2, calls[c], calls[b], s2.ops[b]) && s2.ops[a].pc.Superseded?
      && |s2.data| > 0 && calls[a].payload <= s2.data[0]
    ensures var t := Run(s0, before + Times(b, |calls[b].payload| + 6));
      && t.ops[a].pc.Superseded? && t.ops[b].pc.Published? && calls[b].payload <= t.Register()
      && |calls[a].payload| <= |t.Register()|
      && forall k :: |calls[b].payload| <= k < |calls[a].payload| ==> t.Register()[k] == calls[a].payload[k]
  {
    hide Run, Next, Inv, Times, FreeSlot;
    var s2 := Run(s0, before);
    var m := |calls[b].payload| + 6;
    RunConcat(s0, before, Times(b, m));
    ThirdPublished(s0, calls, before, b, c);
    OverStays(s2, Times(b, m), a);
    RegisterSize(Run(s2, Times(b, m)));
    BufferSize(s2);
    forall k | |calls[b].payload| <= k < |calls[a].payload|
      ensures Run(s2, Times(b, m)).Register()[k] == calls[a].payload[k]
    {
      BehindThird(s2, b, k);
    }
  }

  lemma BufferSize(t: State)
    requires Inv(t)
    ensures forall b :: 0 <= b < |t.data| ==> |t.data[b]| == t.size
  {
  }

  lemma ThirdPublished(s0: State, calls: seq<Call>, before: seq<nat>, b: nat, c: nat)
    requires Inv(s0) && s0.Register() == Zeros(s0.size) && b < |s0.ops| == |calls| && c < |calls|
    requires forall i :: 0 <= i < |calls| ==> s0.ops[i].call == calls[i]
    requires calls[b].Write? && calls[c].Write? && calls[c].stamp < calls[b].stamp
    requires ReadyFor(Run(s0, before), calls[c], calls[b], Run(s0, before).ops[b])
    ensures var t := Run(s0, before + Times(b, |calls[b].payload| + 6));
      t.ops[b].pc.Published? && calls[b].payload <= t.Register()
  {
    hide Run, Next, Inv, LastPublish, Times, FreeSlot;
    var m := |calls[b].payload| + 6;
    RunConcat(s0, before, Times(b, m));
    SoloPublish(Run(s0, before), b, 0);
    PublishedLast(s0, before, b, m);
    RegisterIsLast(s0, before + Times(b, m));
    RunCalls(s0, before + Times(b, m));
  }

  /** After the three writes the buffer of the last still has the tail of the one that gave up. */
  lemma {:induction false} TailLeft(n: nat, size: nat, calls: seq<Call>, c: nat, a: nat, b: nat)
    requires CallsFit(n, size, calls) && Inv(Initial(n, size, calls)) && a != c
    requires c < |calls| && a < |calls| && b < |calls| && LeavesTail(calls[c], calls[a], calls[b])
    ensures var t := Run(Initial(n, size, calls), WritesAlone(calls, c, a, b));
      && t.ops[a].pc.Superseded? && t.ops[b].pc.Published? && calls[b].payload <= t.Register()
      && |calls[a].payload| <= |t.Register()|
      && forall k :: |calls[b].payload| <= k < |calls[a].payload| ==> t.Register()[k] == calls[a].payload[k]
  {
    FirstTwo(n, size, calls, c, a, b);
    LastOfThree(
      Initial(n, size, calls), calls, Times(c, |calls[c].payload| + 6) + Times(a, |calls[a].payload| + 6), c, a, b);
  }

  /**
   A read can return bytes of a write that was never readable. Whenever one write gives way to a
   newer one and a third, newer still and shorter, gets its buffer, a read longer than the third
   returns the third's payload and behind it the bytes of the one that returned 1.
   */
  lemma {:induction false} StaleTail(n: nat, size: nat, calls: seq<Call>, c: nat, a: nat, b: nat, r: nat)
    requires CallsFit(n, size, calls) && Inv(Initial(n, size, calls)) && a != c
    requires c < |calls| && a < |calls| && b < |calls| && LeavesTail(calls[c], calls[a], calls[b])
    requires r < |calls| && calls[r].Read?
    ensures var t := Run(Initial(n, size, calls), StaleSchedule(calls, c, a, b, r));
      && t.ops[a].pc.Superseded? && t.ops[r].pc.ReadDone? && |t.ops[r].pc.got| == calls[r].opSize
      && (forall k :: 0 <= k < |calls[b].payload| && k < calls[r].opSize ==> t.ops[r].pc.got[k] == calls[b].payload[k])
      && (forall k :: |calls[b].payload| <= k < |calls[a].payload| && k < calls[r].opSize ==>
           t.ops[r].pc.got[k] == calls[a].payload[k])
  {
    hide Run, Next, Inv, Initial;
    var s0 := Initial(n, size, calls);
    var writes := WritesAlone(calls, c, a, b);
    RunCallsNone(n, size, calls);
    TimesAre(c, |calls[c].payload| + 6);
    TimesAre(a, |calls[a].payload| + 6);
    TimesAre(b, |calls[b].payload| + 6);
    TailLeft(n, size, calls, c, a, b);
    ThenRead(n, size, calls, writes, r);
    RunConcat(s0, writes, ReadAlone(calls, r));
    OverStays(Run(s0, writes), ReadAlone(calls, r), a);
  }
}
