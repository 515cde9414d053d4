/**
 Does the latest write win? A writer compares its timestamp with the target's, then swaps in
 a word that carries no version, so a word that returned to an earlier value hides the
 publishes in between. This module finds exactly when that matters.
 */
module Ordering {
  import opened LockRecord
  import opened Protocol
  import opened Accounting

  function Publishes(s: State): nat { |Publishers(s)| }

  function Stamp(op: Op): nat {
    match op.call case Read(_) => 0 case Write(_, stamp) => stamp
  }

  // ---- what a writer's last look at the word still tells it ----

  /** `f` was the word when there had been op.seen publishes. */
  predicate LookOk(s: State, op: Op, f: Locks) {
    && (op.seen == Publishes(s) ==> s.word.target == f.target)
    && (op.seen + 1 == Publishes(s) ==> s.word.target != f.target)
    && (s.n == 2 ==> op.seen == Publishes(s))
  }

  predicate SeenOk(s: State, op: Op)
    requires Shape(s) && OpOk(s.n, s.size, op)
  {
    && op.seen <= Publishes(s)
    && match op.pc
       case Checking(_, f) => LookOk(s, op, f)
       case Publishing(_, f) =>
         LookOk(s, op, f) && Stamp(op) > 0 && (op.seen == Publishes(s) ==> s.stamps[f.target] < Stamp(op))
       case Published => Stamp(op) > 0
       case _ => true
  }

  /** Whoever owns the buffer a writer is about to check claimed it after that writer's look. */
  predicate ClaimedLater(s: State, i: nat, v: nat)
    requires i < |s.ops| && v < |s.ops|
  {
    s.ops[i].pc.Checking? && s.ops[v].pc.HoldsWrite(s.ops[i].pc.flags.target) ==> s.ops[i].seen < s.ops[v].seen
  }

  predicate TargetStampOk(s: State)
    requires Shape(s)
  {
    s.stamps[s.word.target] == 0 ||
    exists k :: 0 <= k < |s.ops| && s.ops[k].pc.Published? && Stamp(s.ops[k]) == s.stamps[s.word.target]
  }

  predicate History(s: State) {
    && Inv(s)
    && (forall i :: 0 <= i < |s.ops| ==> SeenOk(s, s.ops[i]))
    && (forall i, v :: 0 <= i < |s.ops| && 0 <= v < |s.ops| ==> ClaimedLater(s, i, v))
    && TargetStampOk(s)
  }

  lemma PublishersAfter(s: State, id: nat)
    requires Inv(s) && id < |s.ops|
    ensures |Next(s, id).ops| == |s.ops|
    ensures Next(s, id).ops[id].pc.Published? && !s.ops[id].pc.Published? ==>
              Publishers(Next(s, id)) == Publishers(s) + {id} && Publishes(Next(s, id)) == Publishes(s) + 1
    ensures !(Next(s, id).ops[id].pc.Published? && !s.ops[id].pc.Published?) ==>
              Publishers(Next(s, id)) == Publishers(s)
  {
    NextFrame(s, id);
    assert OpOk(s.n, s.size, s.ops[id]);
    assert id in Publishers(s) <==> s.ops[id].pc.Published?;
  }

  /** Only a publish moves the target, and it moves it to a buffer that was not the target. */
  lemma TargetAfter(s: State, id: nat)
    requires Inv(s) && id < |s.ops|
    ensures Inv(Next(s, id)) && |Next(s, id).ops| == |s.ops| && Next(s, id).n == s.n
    ensures Next(s, id).stamps[s.word.target] == s.stamps[s.word.target]
    ensures var t := Next(s, id);
      if t.ops[id].pc.Published? && !s.ops[id].pc.Published? then
        s.ops[id].pc.Publishing? && s.word == s.ops[id].pc.flags && t.word.target == s.ops[id].pc.buf != s.word.target
        && t.stamps[t.word.target] == Stamp(s.ops[id])
      else t.word.target == s.word.target
  {
    NextInv(s, id);
    NextFrame(s, id);
    var pc := s.ops[id].pc;
    assert OpOk(s.n, s.size, s.ops[id]) && ContentsOk(s, s.ops[id]);
    if pc.Stamping? || pc.Filling? || pc.Publishing? || pc.BackingOff? || pc.Checking? { WriterAlone(s, id, pc.buf); }
  }

  lemma OthersSeen(s: State, id: nat, i: nat)
    requires History(s) && id < |s.ops| && i < |s.ops| && i != id
    requires Inv(Next(s, id)) && |Next(s, id).ops| == |s.ops|
    ensures OpOk(Next(s, id).n, Next(s, id).size, Next(s, id).ops[i]) && SeenOk(Next(s, id), Next(s, id).ops[i])
  {
    NextFrame(s, id);
    PublishersAfter(s, id);
    TargetAfter(s, id);
    var p := s.ops[i].pc;
    assert OpOk(s.n, s.size, s.ops[i]) && SeenOk(s, s.ops[i]);
    if p.Checking? || p.Publishing? {
      WriterAlone(s, i, p.buf);
      if s.ops[id].pc.Publishing? { WriterAlone(s, id, s.ops[id].pc.buf); }
    }
  }

  lemma OwnSeen(s: State, id: nat)
    requires History(s) && id < |s.ops|
    requires Inv(Next(s, id)) && |Next(s, id).ops| == |s.ops|
    ensures OpOk(Next(s, id).n, Next(s, id).size, Next(s, id).ops[id]) && SeenOk(Next(s, id), Next(s, id).ops[id])
  {
    if s.ops[id].call.Read? { ReaderSeen(s, id); } else { WriterSeen(s, id); }
  }

  /** A read keeps its history and never gets where only writers are. */
  lemma ReaderStays(s: State, id: nat)
    requires Shape(s) && id < |s.ops| && s.ops[id].call.Read?
    ensures |Next(s, id).ops| == |s.ops| && !Stamped(s.ops[id].pc)
    ensures var q := Next(s, id).ops[id]; q.call == s.ops[id].call && q.seen == s.ops[id].seen && !Stamped(q.pc)
  {
    assert OpOk(s.n, s.size, s.ops[id]);
  }

  lemma ReaderSeen(s: State, id: nat)
    requires History(s) && id < |s.ops| && s.ops[id].call.Read?
    requires Inv(Next(s, id)) && |Next(s, id).ops| == |s.ops|
    ensures OpOk(Next(s, id).n, Next(s, id).size, Next(s, id).ops[id]) && SeenOk(Next(s, id), Next(s, id).ops[id])
  {
    hide Accounted, ContentsOk, Next, LookOk;
    PublishersAfter(s, id);
    ReaderStays(s, id);
    assert SeenOk(s, s.ops[id]);
  }

  lemma WriterSeen(s: State, id: nat)
    requires History(s) && id < |s.ops| && s.ops[id].call.Write?
    requires Inv(Next(s, id)) && |Next(s, id).ops| == |s.ops|
    ensures OpOk(Next(s, id).n, Next(s, id).size, Next(s, id).ops[id]) && SeenOk(Next(s, id), Next(s, id).ops[id])
  {
    var pc := s.ops[id].pc;
    if pc.Checking? { CheckerSeen(s, id); } else if pc.Publishing? { PublisherSeen(s, id); } else { EarlySeen(s, id); }
  }

  lemma CheckerSeen(s: State, id: nat)
    requires History(s) && id < |s.ops| && s.ops[id].call.Write? && s.ops[id].pc.Checking?
    requires Inv(Next(s, id)) && |Next(s, id).ops| == |s.ops|
    ensures OpOk(Next(s, id).n, Next(s, id).size, Next(s, id).ops[id]) && SeenOk(Next(s, id), Next(s, id).ops[id])
  {
    hide Accounted, ContentsOk, ReaderNext, ClaimedLater, TargetStampOk, FreeSlot;
    PublishersAfter(s, id);
    assert OpOk(s.n, s.size, s.ops[id]) && SeenOk(s, s.ops[id]);
  }

  lemma PublisherSeen(s: State, id: nat)
    requires History(s) && id < |s.ops| && s.ops[id].call.Write? && s.ops[id].pc.Publishing?
    requires Inv(Next(s, id)) && |Next(s, id).ops| == |s.ops|
    ensures OpOk(Next(s, id).n, Next(s, id).size, Next(s, id).ops[id]) && SeenOk(Next(s, id), Next(s, id).ops[id])
  {
    hide Accounted, ContentsOk, ReaderNext, ClaimedLater, TargetStampOk, FreeSlot;
    PublishersAfter(s, id);
    assert OpOk(s.n, s.size, s.ops[id]) && SeenOk(s, s.ops[id]);
  }

  /** Before its last loop a writer does not move the target, and its looks are fresh. */
  lemma EarlyLook(s: State, id: nat)
    requires Shape(s) && id < |s.ops| && s.ops[id].call.Write? && !s.ops[id].pc.Checking? && !s.ops[id].pc.Publishing?
    ensures |Next(s, id).ops| == |s.ops| && Next(s, id).word.target == s.word.target
    ensures var q := Next(s, id).ops[id];
      && q.call == s.ops[id].call && !q.pc.Publishing? && (q.pc.Published? ==> s.ops[id].pc.Published?)
      && (q.seen == s.ops[id].seen || q.seen == Publishes(s))
      && (q.pc.Checking? ==> q.pc.flags == s.word && q.seen == Publishes(s))
  {
    assert OpOk(s.n, s.size, s.ops[id]);
  }

  lemma EarlySeen(s: State, id: nat)
    requires History(s) && id < |s.ops| && s.ops[id].call.Write? && !s.ops[id].pc.Checking? && !s.ops[id].pc.Publishing?
    requires Inv(Next(s, id)) && |Next(s, id).ops| == |s.ops|
    ensures OpOk(Next(s, id).n, Next(s, id).size, Next(s, id).ops[id]) && SeenOk(Next(s, id), Next(s, id).ops[id])
  {
    PublishersAfter(s, id);
    EarlyLook(s, id);
    hide Next, Accounted, ContentsOk, ClaimedLater, TargetStampOk;
    assert OpOk(s.n, s.size, s.ops[id]) && SeenOk(s, s.ops[id]);
  }

  /** A writer that has just looked sees a target nobody owns. */
  lemma LookerSeesUnowned(s: State, id: nat, v: nat)
    requires History(s) && id < |s.ops| && v < |s.ops|
    requires Inv(Next(s, id)) && |Next(s, id).ops| == |s.ops|
    ensures ClaimedLater(Next(s, id), id, v)
  {
    var t := Next(s, id);
    NextFrame(s, id);
    assert OpOk(s.n, s.size, s.ops[id]);
    if t.ops[id].pc.Checking? && t.ops[v].pc.HoldsWrite(t.ops[id].pc.flags.target) {
      WriterAlone(t, v, t.ops[id].pc.flags.target);
    }
  }

  /** A buffer is claimed only while it is not the target, and a claim counts as a look. */
  lemma OwnerAfter(s: State, id: nat, b: nat)
    requires History(s) && id < |s.ops| && |Next(s, id).ops| == |s.ops| && Next(s, id).ops[id].pc.HoldsWrite(b)
    ensures Next(s, id).ops[id].seen >= s.ops[id].seen
    ensures s.ops[id].pc.HoldsWrite(b) || (s.word.target != b && Next(s, id).ops[id].seen == Publishes(s))
  {
    assert OpOk(s.n, s.size, s.ops[id]) && SeenOk(s, s.ops[id]);
    var p := s.ops[id].pc;
    if p.Claiming? && s.word == p.flags && FreeSlot(p.flags).Some? {
      assert s.word.Free(FreeSlot(p.flags).value);
    }
  }

  /** A claim of the buffer a writer is to check happens after a publish that writer has not seen. */
  lemma ClaimerIsLater(s: State, id: nat, i: nat)
    requires History(s) && id < |s.ops| && i < |s.ops| && i != id
    requires |Next(s, id).ops| == |s.ops| && Next(s, id).ops[i] == s.ops[i]
    ensures ClaimedLater(Next(s, id), i, id)
  {
    assert ClaimedLater(s, i, id) && SeenOk(s, s.ops[i]);
    var p := s.ops[i].pc;
    if p.Checking? && Next(s, id).ops[id].pc.HoldsWrite(p.flags.target) {
      OwnerAfter(s, id, p.flags.target);
    }
  }

  lemma NextHistory(s: State, id: nat)
    requires History(s)
    ensures History(Next(s, id))
  {
    NextInv(s, id);
    if id < |s.ops| {
      var t := Next(s, id);
      NextFrame(s, id);
      TargetAfter(s, id);
      OwnSeen(s, id);
      forall i | 0 <= i < |t.ops| && i != id ensures SeenOk(t, t.ops[i]) { OthersSeen(s, id, i); }
      forall i, v | 0 <= i < |t.ops| && 0 <= v < |t.ops| ensures ClaimedLater(t, i, v) {
        assert ClaimedLater(s, i, v);
        if i == id { LookerSeesUnowned(s, id, v); } else if v == id { ClaimerIsLater(s, id, i); }
      }
      assert TargetStampOk(t) by {
        if t.word.target == s.word.target && s.stamps[s.word.target] != 0 {
          var k :| 0 <= k < |s.ops| && s.ops[k].pc.Published? && Stamp(s.ops[k]) == s.stamps[s.word.target];
          assert t.ops[k].pc.Published? && Stamp(t.ops[k]) == t.stamps[t.word.target];
        } else if t.word.target != s.word.target {
          assert t.ops[id].pc.Published? && Stamp(t.ops[id]) == t.stamps[t.word.target];
        }
      }
    }
  }

  // ---- published timestamps never go back, unless three writes can overtake each other ----

  /** Three writes, two of them older than the third. */
  predicate Overtaken(calls: seq<Call>) {
    exists i, j, k ::
      && 0 <= i < |calls| && 0 <= j < |calls| && 0 <= k < |calls|
      && i != j && Overtake(calls[i], calls[j], calls[k])
  }

  predicate Overtake(first: Call, second: Call, third: Call) {
    first.Write? && second.Write? && third.Write? && 0 < first.stamp < third.stamp && 0 < second.stamp < third.stamp
  }

  predicate Ranked(s: State)
    requires Shape(s)
  {
    && (forall i :: 0 <= i < |s.ops| && s.ops[i].pc.Published? ==> Stamp(s.ops[i]) <= s.stamps[s.word.target])
    && (Publishes(s) >= 2 ==>
         exists j :: 0 <= j < |s.ops| && s.ops[j].pc.Published? && Stamp(s.ops[j]) < s.stamps[s.word.target])
  }

  /** The next step of id is a publish that succeeds. */
  predicate PublishesNext(s: State, id: nat) {
    id < |s.ops| && s.ops[id].pc.Publishing? && s.ops[id].pc.flags == s.word
  }

  /**
   If the next step of id publishes, at most one other write has published since id last
   loaded the word. Swaps that fail, and writers that overlap, are not restricted.
   */
  predicate Undisturbed(s: State, id: nat) {
    PublishesNext(s, id) ==> Publishes(s) <= s.ops[id].seen + 1
  }

  /** With one other publish since the load the target has moved, so a publish that succeeds has seen them all. */
  lemma UndisturbedHasSeenAll(s: State, id: nat)
    requires History(s) && PublishesNext(s, id) && Undisturbed(s, id)
    ensures s.ops[id].seen == Publishes(s)
  {
    assert SeenOk(s, s.ops[id]) && OpOk(s.n, s.size, s.ops[id]);
  }

  /** Such a publish strictly raises the target's timestamp. */
  lemma UndisturbedPublishRises(s: State, id: nat)
    requires History(s) && PublishesNext(s, id) && Undisturbed(s, id)
    ensures Inv(Next(s, id)) && |Next(s, id).ops| == |s.ops| && Next(s, id).ops[id].pc.Published?
    ensures Next(s, id).stamps[Next(s, id).word.target] == Stamp(s.ops[id]) > s.stamps[s.word.target]
  {
    UndisturbedHasSeenAll(s, id);
    TargetAfter(s, id);
    assert SeenOk(s, s.ops[id]) && OpOk(s.n, s.size, s.ops[id]);
  }

  predicate Safe(s: State, id: nat) {
    s.n == 2 || !Overtaken(CallsOf(s)) || Undisturbed(s, id)
  }

  lemma PublishRanks(s: State, id: nat)
    requires History(s) && Ranked(s) && Safe(s, id) && PublishesNext(s, id)
    ensures Stamp(s.ops[id]) >= s.stamps[s.word.target]
    ensures Publishes(s) >= 1 ==>
              exists j :: 0 <= j < |s.ops| && s.ops[j].pc.Published? && Stamp(s.ops[j]) < Stamp(s.ops[id])
  {
    var op := s.ops[id];
    assert SeenOk(s, op) && OpOk(s.n, s.size, op);
    if Undisturbed(s, id) { UndisturbedHasSeenAll(s, id); }
    if op.seen == Publishes(s) {
      if Publishes(s) >= 1 {
        var j :| j in Publishers(s);
        assert s.ops[j].pc.Published? && Stamp(s.ops[j]) < Stamp(op);
      }
    } else {
      var j :| 0 <= j < |s.ops| && s.ops[j].pc.Published? && Stamp(s.ops[j]) < s.stamps[s.word.target];
      var k :| 0 <= k < |s.ops| && s.ops[k].pc.Published? && Stamp(s.ops[k]) == s.stamps[s.word.target];
      assert SeenOk(s, s.ops[j]) && OpOk(s.n, s.size, s.ops[j]) && OpOk(s.n, s.size, s.ops[k]);
      var calls := CallsOf(s);
      assert !Overtake(calls[id], calls[j], calls[k]);
    }
  }

  lemma NextRanked(s: State, id: nat)
    requires History(s) && Ranked(s) && Safe(s, id)
    ensures Inv(Next(s, id)) && Ranked(Next(s, id))
  {
    NextInv(s, id);
    if id < |s.ops| {
      NextFrame(s, id);
      TargetAfter(s, id);
      PublishersAfter(s, id);
      assert OpOk(s.n, s.size, s.ops[id]);
      if PublishesNext(s, id) { PublishRanks(s, id); }
      RankedAfter(s, Next(s, id), id);
    }
  }

  lemma RankedAfter(s: State, t: State, id: nat)
    requires Shape(s) && Ranked(s) && Shape(t) && id < |s.ops| == |t.ops|
    requires forall i :: 0 <= i < |s.ops| && i != id ==> t.ops[i] == s.ops[i]
    requires t.ops[id].call == s.ops[id].call && (s.ops[id].pc.Published? ==> t.ops[id].pc.Published?)
    requires
      if t.ops[id].pc.Published? && !s.ops[id].pc.Published? then
        && Publishes(t) == Publishes(s) + 1
        && t.stamps[t.word.target] == Stamp(s.ops[id]) >= s.stamps[s.word.target]
        && (Publishes(s) >= 1 ==>
             exists j :: 0 <= j < |s.ops| && s.ops[j].pc.Published? && Stamp(s.ops[j]) < Stamp(s.ops[id]))
      else Publishes(t) == Publishes(s) && t.stamps[t.word.target] == s.stamps[s.word.target]
    ensures Ranked(t)
  {
    if Publishes(t) >= 2 {
      var j :| 0 <= j < |s.ops| && s.ops[j].pc.Published? && Stamp(s.ops[j]) < t.stamps[t.word.target];
      assert t.ops[j].pc.Published? && Stamp(t.ops[j]) < t.stamps[t.word.target];
    }
  }

  // ---- a superseded write was superseded by somebody who is, or will be, at least as new ----

  predicate Stamped(pc: Pc) {
    pc.Filling? || pc.Checking? || pc.Publishing? || pc.BackingOff? || pc.Superseded? || pc.Published?
  }

  predicate GaveUp(pc: Pc) { pc.BackingOff? || pc.Superseded? }

  /** w has published, or looked after `seen` and has not given up. */
  predicate Newer(w: Op, stamp: nat, seen: nat) {
    Stamp(w) >= stamp && (w.pc.Published? || ((w.pc.Filling? || w.pc.Checking? || w.pc.Publishing?) && w.seen > seen))
  }

  predicate Excused(s: State, i: nat)
    requires i < |s.ops|
  {
    GaveUp(s.ops[i].pc) && Stamp(s.ops[i]) > 0 ==>
      exists w :: 0 <= w < |s.ops| && Newer(s.ops[w], Stamp(s.ops[i]), s.ops[i].seen)
  }

  /** The timestamp a writer is about to compare with was put there by a publisher or a later claimer. */
  predicate CheckSourced(s: State, i: nat)
    requires Shape(s) && i < |s.ops| && OpOk(s.n, s.size, s.ops[i])
  {
    s.ops[i].pc.Checking? && s.stamps[s.ops[i].pc.flags.target] > 0 ==>
      exists v :: 0 <= v < |s.ops| && Stamper(s.ops[v], s.stamps[s.ops[i].pc.flags.target], s.ops[i].seen)
  }

  predicate Stamper(v: Op, stamp: nat, seen: nat) {
    Stamp(v) == stamp && Stamped(v.pc) && (v.pc.Published? || v.seen > seen)
  }

  predicate Settled(s: State)
    requires Shape(s)
  {
    && (forall i :: 0 <= i < |s.ops| ==> Excused(s, i))
    && forall i :: 0 <= i < |s.ops| ==> OpOk(s.n, s.size, s.ops[i]) && CheckSourced(s, i)
  }

  /** Whoever gives up can name somebody at least as new who has not. */
  lemma GivingUpIsExcused(s: State, id: nat) returns (w: nat)
    requires History(s) && Settled(s) && id < |s.ops| && s.ops[id].pc.Checking? && Stamp(s.ops[id]) > 0
    requires OpOk(s.n, s.size, s.ops[id]) && s.stamps[s.ops[id].pc.flags.target] >= Stamp(s.ops[id])
    ensures w < |s.ops| && w != id && Newer(s.ops[w], Stamp(s.ops[id]), s.ops[id].seen)
  {
    assert CheckSourced(s, id);
    var v :| 0 <= v < |s.ops| && Stamper(s.ops[v], s.stamps[s.ops[id].pc.flags.target], s.ops[id].seen);
    w := v;
    if GaveUp(s.ops[v].pc) {
      assert Excused(s, v);
      w :| 0 <= w < |s.ops| && Newer(s.ops[w], Stamp(s.ops[v]), s.ops[v].seen);
    }
  }

  /** Steps only move an operation's history forward. */
  predicate Forward(p: Op, q: Op, checking: bool) {
    && (p.pc.Published? ==> q.pc.Published?)
    && (Stamped(p.pc) ==> Stamped(q.pc) && q.seen >= p.seen && Stamp(q) == Stamp(p))
    && (GaveUp(p.pc) ==> GaveUp(q.pc) && q.seen == p.seen)
    && (GaveUp(q.pc) ==> Stamp(q) == Stamp(p) && q.seen == p.seen && (GaveUp(p.pc) || (checking && p.pc.Checking?)))
  }

  lemma SeenGrows(s: State, id: nat, w: nat)
    requires History(s) && id < |s.ops| && w < |s.ops|
    ensures |Next(s, id).ops| == |s.ops| && Forward(s.ops[w], Next(s, id).ops[w], w == id)
  {
    if w == id { OwnSeenGrows(s, id); } else { NextFrame(s, id); }
  }

  lemma OwnSeenGrows(s: State, id: nat)
    requires History(s) && id < |s.ops|
    ensures |Next(s, id).ops| == |s.ops| && Forward(s.ops[id], Next(s, id).ops[id], true)
  {
    assert s.ops[id].seen <= Publishes(s) by { assert SeenOk(s, s.ops[id]); }
    if s.ops[id].call.Read? {
      ReaderStays(s, id);
    } else {
      WriterForward(s, id);
    }
  }

  lemma WriterForward(s: State, id: nat)
    requires Shape(s) && id < |s.ops| && s.ops[id].call.Write? && s.ops[id].seen <= Publishes(s)
    ensures |Next(s, id).ops| == |s.ops| && Forward(s.ops[id], Next(s, id).ops[id], true)
  {
    hide WordOk, FreeSlot;
    assert OpOk(s.n, s.size, s.ops[id]);
  }

  /** Whoever gives up now compared with a timestamp at least as new. */
  lemma CheckPasses(s: State, id: nat)
    requires Shape(s) && id < |s.ops|
    ensures |Next(s, id).ops| == |s.ops| && OpOk(s.n, s.size, s.ops[id])
    ensures s.ops[id].pc.Checking? && GaveUp(Next(s, id).ops[id].pc) ==>
      s.stamps[s.ops[id].pc.flags.target] >= Stamp(s.ops[id])
  {
    assert OpOk(s.n, s.size, s.ops[id]);
  }

  /** If the one who answers for a write gives up in turn, somebody else answers for it. */
  lemma NewerAfter(s: State, id: nat, w: nat, stamp: nat, seen: nat) returns (v: nat)
    requires History(s) && Settled(s) && id < |s.ops| && w < |s.ops| && stamp > 0 && Newer(s.ops[w], stamp, seen)
    ensures |Next(s, id).ops| == |s.ops| && v < |s.ops| && Newer(Next(s, id).ops[v], stamp, seen)
  {
    v := w;
    SeenGrows(s, id, w);
    CheckPasses(s, id);
    hide Next, Inv, SeenOk, ClaimedLater, TargetStampOk, CheckSourced, Excused;
    if GaveUp(Next(s, id).ops[w].pc) {
      v := GivingUpIsExcused(s, w);
      SeenGrows(s, id, v);
    }
  }

  lemma ExcusedAfter(s: State, id: nat, i: nat)
    requires History(s) && Settled(s) && id < |s.ops| && i < |s.ops|
    ensures |Next(s, id).ops| == |s.ops| && Excused(Next(s, id), i)
  {
    SeenGrows(s, id, i);
    CheckPasses(s, id);
    assert Excused(s, i);
    hide Next, Inv, SeenOk, ClaimedLater, TargetStampOk, CheckSourced;
    if GaveUp(Next(s, id).ops[i].pc) && Stamp(s.ops[i]) > 0 {
      var w;
      if GaveUp(s.ops[i].pc) {
        w :| 0 <= w < |s.ops| && Newer(s.ops[w], Stamp(s.ops[i]), s.ops[i].seen);
      } else {
        w := GivingUpIsExcused(s, i);
      }
      var _ := NewerAfter(s, id, w, Stamp(s.ops[i]), s.ops[i].seen);
    }
  }

  /** A fresh look finds a published timestamp. */
  lemma FreshLookSourced(s: State, id: nat)
    requires History(s) && Settled(s) && id < |s.ops| && Inv(Next(s, id)) && |Next(s, id).ops| == |s.ops|
    ensures OpOk(Next(s, id).n, Next(s, id).size, Next(s, id).ops[id]) && CheckSourced(Next(s, id), id)
  {
    var t := Next(s, id);
    TargetAfter(s, id);
    assert OpOk(t.n, t.size, t.ops[id]) && OpOk(s.n, s.size, s.ops[id]);
    if t.ops[id].pc.Checking? && t.stamps[t.ops[id].pc.flags.target] > 0 {
      assert t.ops[id].pc.flags == s.word && s.stamps[s.word.target] > 0;
      var v :| 0 <= v < |s.ops| && s.ops[v].pc.Published? && Stamp(s.ops[v]) == s.stamps[s.word.target];
      SeenGrows(s, id, v);
      assert Stamper(t.ops[v], t.stamps[s.word.target], t.ops[id].seen);
    }
  }

  /** The timestamp behind an old look is changed only by a later claimer. */
  lemma OldLookSourced(s: State, id: nat, i: nat)
    requires History(s) && Settled(s) && id < |s.ops| && i < |s.ops| && i != id
    requires Inv(Next(s, id)) && |Next(s, id).ops| == |s.ops|
    ensures OpOk(Next(s, id).n, Next(s, id).size, Next(s, id).ops[i]) && CheckSourced(Next(s, id), i)
  {
    var t := Next(s, id);
    NextFrame(s, id);
    assert OpOk(s.n, s.size, s.ops[i]);
    if s.ops[i].pc.Checking? && t.stamps[s.ops[i].pc.flags.target] > 0 {
      var b := s.ops[i].pc.flags.target;
      if t.stamps[b] == s.stamps[b] {
        assert CheckSourced(s, i);
        var v :| 0 <= v < |s.ops| && Stamper(s.ops[v], s.stamps[b], s.ops[i].seen);
        SeenGrows(s, id, v);
        assert Stamper(t.ops[v], t.stamps[b], t.ops[i].seen);
      } else {
        StampChanged(s, id, b);
        assert ClaimedLater(s, i, id);
        assert Stamper(t.ops[id], t.stamps[b], t.ops[i].seen);
      }
    }
  }

  lemma StampChanged(s: State, id: nat, b: nat)
    requires Inv(s) && id < |s.ops| && b < s.n && Inv(Next(s, id)) && |Next(s, id).ops| == |s.ops|
    requires |Next(s, id).stamps| == s.n && Next(s, id).stamps[b] != s.stamps[b]
    ensures s.ops[id].pc == Stamping(b) && Next(s, id).ops[id].pc == Filling(b, 0)
    ensures Next(s, id).ops[id].seen == s.ops[id].seen
    ensures Next(s, id).stamps[b] == Stamp(s.ops[id]) == Stamp(Next(s, id).ops[id])
  {
    assert OpOk(s.n, s.size, s.ops[id]);
  }

  lemma NextSettled(s: State, id: nat)
    requires History(s) && Settled(s)
    ensures History(Next(s, id)) && Settled(Next(s, id))
  {
    NextHistory(s, id);
    if id < |s.ops| {
      NextFrame(s, id);
      forall i | 0 <= i < |s.ops| ensures Excused(Next(s, id), i) { ExcusedAfter(s, id, i); }
      forall i | 0 <= i < |s.ops|
        ensures OpOk(s.n, s.size, Next(s, id).ops[i]) && CheckSourced(Next(s, id), i)
      {
        if i == id { FreshLookSourced(s, id); } else { OldLookSourced(s, id, i); }
      }
    }
  }

  // ---- what holds along every schedule ----

  /** What every reachable state keeps about who looked when and who gave up for whom. */
  predicate Orderly(s: State) {
    History(s) && Settled(s)
  }

  lemma NextOrderly(s: State, id: nat)
    requires Inv(s) && Orderly(s)
    ensures Inv(Next(s, id)) && Orderly(Next(s, id))
  {
    NextSettled(s, id);
  }

  lemma InitialOrderly(n: nat, size: nat, calls: seq<Call>)
    requires CallsFit(n, size, calls)
    ensures Inv(Initial(n, size, calls)) && Orderly(Initial(n, size, calls))
  {
    InitialInv(n, size, calls);
    assert Publishers(Initial(n, size, calls)) == {};
  }

  lemma {:induction false} RunKeepsHistory(s: State, sched: seq<nat>)
    requires History(s) && Settled(s)
    ensures History(Run(s, sched)) && Settled(Run(s, sched))
  {
    if sched != [] {
      hide Next, History, Settled;
      RunKeepsHistory(s, sched[..|sched| - 1]);
      NextSettled(Run(s, sched[..|sched| - 1]), sched[|sched| - 1]);
    }
  }

  /** In every reachable state, whatever the calls and the interleaving. */
  lemma {:induction false} RunSettled(n: nat, size: nat, calls: seq<Call>, sched: seq<nat>)
    requires CallsFit(n, size, calls)
    ensures Inv(Initial(n, size, calls))
    ensures var t := Run(Initial(n, size, calls), sched); History(t) && Settled(t)
  {
    InitialOrderly(n, size, calls);
    RunKeepsHistory(Initial(n, size, calls), sched);
  }

  /** Somebody else at least as new has published, or claimed after i looked and has not given up. */
  predicate Answered(s: State, i: nat) {
    i < |s.ops| && exists w :: 0 <= w < |s.ops| && w != i && Newer(s.ops[w], Stamp(s.ops[i]), s.ops[i].seen)
  }

  /**
   In every interleaving, overtaking or not, a write that returned 1 is answered for by another
   write at least as new; once nobody is writing, by one that has returned 0. (A timestamp of
   0 is no newer than the initial value.)
   */
  lemma {:induction false} SupersededIsAnswered(n: nat, size: nat, calls: seq<Call>, sched: seq<nat>, i: nat)
    requires CallsFit(n, size, calls) && i < |calls|
    ensures Inv(Initial(n, size, calls))
    ensures var t := Run(Initial(n, size, calls), sched);
      t.ops[i].pc.Superseded? && Stamp(t.ops[i]) > 0 ==>
        && Answered(t, i)
        && (NobodyWrites(t) ==>
             exists w :: 0 <= w < |t.ops| && w != i && t.ops[w].pc.Published? && Stamp(t.ops[w]) >= Stamp(t.ops[i]))
  {
    RunSettled(n, size, calls, sched);
    var t := Run(Initial(n, size, calls), sched);
    if t.ops[i].pc.Superseded? && Stamp(t.ops[i]) > 0 { ExcusedIsAnswered(t, i); }
  }

  lemma ExcusedIsAnswered(t: State, i: nat)
    requires History(t) && Settled(t) && i < |t.ops| && t.ops[i].pc.Superseded? && Stamp(t.ops[i]) > 0
    ensures Answered(t, i)
    ensures NobodyWrites(t) ==>
      exists w :: 0 <= w < |t.ops| && w != i && t.ops[w].pc.Published? && Stamp(t.ops[w]) >= Stamp(t.ops[i])
  {
    assert Excused(t, i);
    var w :| 0 <= w < |t.ops| && Newer(t.ops[w], Stamp(t.ops[i]), t.ops[i].seen);
    assert NobodyWrites(t) ==> !t.ops[w].pc.Owns();
  }

  // ---- the latest write wins ----

  predicate NobodyWrites(s: State) {
    forall i :: 0 <= i < |s.ops| ==> !s.ops[i].pc.Owns()
  }

  /** The target's timestamp is the greatest of those of the writes that returned 0 or 1 and the initial 0. */
  predicate TargetIsLatest(s: State)
    requires Shape(s)
  {
    && TargetStampOk(s)
    && forall i :: 0 <= i < |s.ops| && (s.ops[i].pc.Published? || s.ops[i].pc.Superseded?) ==>
         Stamp(s.ops[i]) <= s.stamps[s.word.target]
  }

  predicate LatestWon(s: State)
    requires Shape(s)
  {
    NobodyWrites(s) ==> TargetIsLatest(s)
  }

  lemma QuietMeansLatest(s: State)
    requires History(s) && Ranked(s) && Settled(s)
    ensures LatestWon(s)
  {
    if NobodyWrites(s) {
      forall i | 0 <= i < |s.ops| && s.ops[i].pc.Superseded? && Stamp(s.ops[i]) > 0
        ensures Stamp(s.ops[i]) <= s.stamps[s.word.target]
      {
        ExcusedIsAnswered(s, i);
      }
    }
  }

  lemma InitialRanked(n: nat, size: nat, calls: seq<Call>)
    requires CallsFit(n, size, calls) && Inv(Initial(n, size, calls))
    ensures Ranked(Initial(n, size, calls))
  {
    assert Publishers(Initial(n, size, calls)) == {};
  }

  lemma {:induction false} RunOrdered(s: State, sched: seq<nat>)
    requires History(s) && Ranked(s) && Settled(s)
    requires forall k :: 0 <= k < |sched| ==> Safe(Run(s, sched[..k]), sched[k])
    ensures var t := Run(s, sched); History(t) && Ranked(t) && Settled(t)
  {
    if sched != [] {
      hide Next, History, Settled, Ranked, Safe;
      var a, id := sched[..|sched| - 1], sched[|sched| - 1];
      forall k | 0 <= k < |a| ensures Safe(Run(s, a[..k]), a[k]) {
        assert a[..k] == sched[..k] && a[k] == sched[k];
      }
      RunOrdered(s, a);
      assert Safe(Run(s, a), id) by { assert sched[..|a|] == a; }
      NextSettled(Run(s, a), id);
      NextRanked(Run(s, a), id);
    }
  }

  /**
   The latest write wins along every schedule in which every publish that succeeds has at most
   one other publish since its writer's last load of the word, for all calls, however they
   overlap: whenever nobody is writing, the target's timestamp is the greatest of all writes
   that returned 0 or 1, or the initial 0.
   */
  lemma {:induction false} UndisturbedLatestWins(n: nat, size: nat, calls: seq<Call>, sched: seq<nat>)
    requires CallsFit(n, size, calls) && Inv(Initial(n, size, calls))
    requires forall k :: 0 <= k < |sched| ==> Undisturbed(Run(Initial(n, size, calls), sched[..k]), sched[k])
    ensures LatestWon(Run(Initial(n, size, calls), sched))
  {
    var s := Initial(n, size, calls);
    RunSettled(n, size, calls, []);
    InitialRanked(n, size, calls);
    assert Run(s, []) == s;
    hide History, Settled, Ranked, Undisturbed, LatestWon, Next, Run, Inv;
    forall k | 0 <= k < |sched| ensures Safe(Run(s, sched[..k]), sched[k]) {
      UndisturbedIsSafe(Run(s, sched[..k]), sched[k]);
    }
    RunOrdered(s, sched);
    QuietMeansLatest(Run(s, sched));
  }

  /** And at each step of any schedule that meets this, the target's timestamp rises or stays. */
  lemma {:induction false} UndisturbedStepRises(n: nat, size: nat, calls: seq<Call>, sched: seq<nat>, id: nat)
    requires CallsFit(n, size, calls) && Inv(Initial(n, size, calls))
    requires Undisturbed(Run(Initial(n, size, calls), sched), id)
    ensures Rises(Run(Initial(n, size, calls), sched), id)
  {
    RunSettled(n, size, calls, sched);
    StepRises(Run(Initial(n, size, calls), sched), id);
  }

  lemma UndisturbedIsSafe(s: State, id: nat)
    requires Undisturbed(s, id)
    ensures Safe(s, id)
  {
  }

  /** A publish puts the writer's greater timestamp on the target; no other step changes the target's timestamp. */
  predicate Rises(s: State, id: nat)
    requires Shape(s)
  {
    var t := Next(s, id);
    && Shape(t)
    && if PublishesNext(s, id) then t.stamps[t.word.target] == Stamp(s.ops[id]) > s.stamps[s.word.target]
       else t.word.target == s.word.target && t.stamps[t.word.target] == s.stamps[s.word.target]
  }

  lemma StepRises(s: State, id: nat)
    requires History(s) && Undisturbed(s, id)
    ensures Rises(s, id)
  {
    NextInv(s, id);
    if id < |s.ops| {
      TargetAfter(s, id);
      PublishesWhen(s, id);
      if PublishesNext(s, id) { UndisturbedPublishRises(s, id); }
    }
  }

  lemma PublishesWhen(s: State, id: nat)
    requires Inv(s) && id < |s.ops|
    ensures |Next(s, id).ops| == |s.ops|
    ensures Next(s, id).ops[id].pc.Published? && !s.ops[id].pc.Published? <==> PublishesNext(s, id)
  {
    assert OpOk(s.n, s.size, s.ops[id]);
  }

  // ---- writes that do not overlap ----

  /** At most one operation owns a buffer for writing. */
  predicate OneWriter(s: State) {
    forall i, j :: 0 <= i < |s.ops| && 0 <= j < |s.ops| && s.ops[i].pc.Owns() && s.ops[j].pc.Owns() ==> i == j
  }

  /** Every writer in its last loop has seen every publish. */
  predicate AllSeen(s: State) {
    forall i :: 0 <= i < |s.ops| && (s.ops[i].pc.Checking? || s.ops[i].pc.Publishing?) ==> s.ops[i].seen == Publishes(s)
  }

  lemma NextAllSeen(s: State, id: nat)
    requires History(s) && OneWriter(s) && AllSeen(s)
    ensures AllSeen(Next(s, id))
  {
    if id < |s.ops| {
      hide Next, Accounted, ContentsOk;
      var t := Next(s, id);
      NextFrame(s, id);
      PublishersAfter(s, id);
      LookerHasSeen(s, id);
      PublishesWhen(s, id);
      forall i | 0 <= i < |t.ops| && i != id && (t.ops[i].pc.Checking? || t.ops[i].pc.Publishing?)
        ensures t.ops[i].seen == Publishes(t)
      {
        assert s.ops[i].pc.Owns();
        assert !s.ops[id].pc.Owns();
      }
    }
  }

  lemma LookerHasSeen(s: State, id: nat)
    requires History(s) && AllSeen(s) && id < |s.ops|
    ensures |Next(s, id).ops| == |s.ops|
    ensures var q := Next(s, id).ops[id]; q.pc.Checking? || q.pc.Publishing? ==> q.seen == Publishes(s)
  {
    assert OpOk(s.n, s.size, s.ops[id]);
  }

  lemma {:induction false} RunAllSeen(n: nat, size: nat, calls: seq<Call>, sched: seq<nat>, k: nat)
    requires CallsFit(n, size, calls) && Inv(Initial(n, size, calls)) && k <= |sched|
    requires forall k {:trigger sched[..k]} :: 0 <= k < |sched| ==> OneWriter(Run(Initial(n, size, calls), sched[..k]))
    ensures AllSeen(Run(Initial(n, size, calls), sched[..k]))
  {
    var s := Initial(n, size, calls);
    if k > 0 {
      hide Run, Next, History, Settled, Inv, AllSeen, OneWriter;
      RunAllSeen(n, size, calls, sched, k - 1);
      RunSettled(n, size, calls, sched[..k - 1]);
      assert sched[..k] == sched[..k - 1] + [sched[k - 1]];
      RunStep(s, sched[..k - 1], sched[k - 1]);
      NextAllSeen(Run(s, sched[..k - 1]), sched[k - 1]);
    }
  }

  /** So while writes do not overlap, whatever the readers do, the latest write wins, for all calls. */
  lemma {:induction false} SerialWritesWin(n: nat, size: nat, calls: seq<Call>, sched: seq<nat>)
    requires CallsFit(n, size, calls) && Inv(Initial(n, size, calls))
    requires forall k {:trigger sched[..k]} :: 0 <= k < |sched| ==> OneWriter(Run(Initial(n, size, calls), sched[..k]))
    ensures LatestWon(Run(Initial(n, size, calls), sched))
  {
    forall k | 0 <= k < |sched| ensures Undisturbed(Run(Initial(n, size, calls), sched[..k]), sched[k]) {
      RunAllSeen(n, size, calls, sched, k);
    }
    UndisturbedLatestWins(n, size, calls, sched);
  }
}
