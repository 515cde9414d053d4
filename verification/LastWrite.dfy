/**
 Which write a read returns: the one whose publish came last before the read's acquire, as far
 as that write went, and behind it what was in its buffer before.
 */
module LastWrite {
  import opened Basics
  import opened Protocol
  import opened Accounting
  import opened Copies
  import opened Register
  import opened Reads

  /** The operation that published last in a run, if any did. */
  function LastPublish(s: State, sched: seq<nat>): Option<nat>
    requires Inv(s)
  {
    if sched == [] then None
    else
      var before, id := Run(s, sched[..|sched| - 1]), sched[|sched| - 1];
      if id < |before.ops| && !before.ops[id].pc.Published? && Run(s, sched).ops[id].pc.Published? then Some(id)
      else LastPublish(s, sched[..|sched| - 1])
  }

  ghost predicate HoldsLast(t: State, size: nat, last: Option<nat>)
    requires Shape(t)
  {
    match last
    case None => t.Register() == Zeros(size)
    case Some(w) =>
      w < |t.ops| && t.ops[w].call.Write? && t.ops[w].pc.Published? && t.ops[w].call.payload <= t.Register()
  }

  lemma StepHoldsLast(s: State, id: nat, last: Option<nat>)
    requires Inv(s) && HoldsLast(s, s.size, last) && id < |s.ops|
    ensures Inv(Next(s, id)) && |Next(s, id).ops| == |s.ops|
    ensures
      var publishes := !s.ops[id].pc.Published? && Next(s, id).ops[id].pc.Published?;
      HoldsLast(Next(s, id), s.size, if publishes then Some(id) else last)
  {
    NextInv(s, id);
    NextFrame(s, id);
    assert OpOk(s.n, s.size, s.ops[id]);
    if s.ops[id].call.Read? { ReadRefines(s, id); } else { WriteRefines(s, id); }
  }

  lemma {:induction false} RegisterIsLast(s: State, sched: seq<nat>)
    requires Inv(s) && s.Register() == Zeros(s.size)
    ensures HoldsLast(Run(s, sched), s.size, LastPublish(s, sched))
  {
    if sched != [] {
      var a, id := sched[..|sched| - 1], sched[|sched| - 1];
      RegisterIsLast(s, a);
      if id < |Run(s, a).ops| { StepHoldsLast(Run(s, a), id, LastPublish(s, a)); }
    }
  }

  /** The step at k is the compare-and-swap by which r acquires its buffer. */
  ghost predicate AcquiresAt(s: State, sched: seq<nat>, r: nat, k: nat)
    requires Inv(s) && r < |s.ops|
  {
    k < |sched| && sched[k] == r && Run(s, sched[..k]).ops[r].pc.Acquiring? && Run(s, sched[..k + 1]).ops[r].pc.Reading?
  }

  predicate HasTaken(pc: Pc) {
    pc.Reading? || pc.Releasing? || pc.ReadDone?
  }

  lemma TakesByAcquiring(s: State, id: nat, r: nat)
    requires Inv(s) && r < |s.ops| && !HasTaken(s.ops[r].pc)
    ensures Inv(Next(s, id)) && |Next(s, id).ops| == |s.ops|
    ensures HasTaken(Next(s, id).ops[r].pc) ==> id == r && s.ops[r].pc.Acquiring? && Next(s, id).ops[r].pc.Reading?
  {
    NextInv(s, id);
    hide Inv, Accounted;
    if id < |s.ops| { NextFrame(s, id); }
  }

  lemma {:induction false} AcquiredSometime(s: State, sched: seq<nat>, r: nat)
    requires Inv(s) && r < |s.ops| && s.ops[r].pc.Idle?
    requires HasTaken(Run(s, sched).ops[r].pc)
    ensures exists k: nat :: AcquiresAt(s, sched, r, k)
  {
    hide Inv, Next;
    var a, id := sched[..|sched| - 1], sched[|sched| - 1];
    if HasTaken(Run(s, a).ops[r].pc) {
      AcquiredSometime(s, a, r);
      var k: nat :| AcquiresAt(s, a, r, k);
      assert a[..k] == sched[..k] && a[..k + 1] == sched[..k + 1];
      assert AcquiresAt(s, sched, r, k);
    } else {
      TakesByAcquiring(Run(s, a), id, r);
      assert sched[..|sched|] == sched;
      assert AcquiresAt(s, sched, r, |sched| - 1);
    }
  }

  /** got is what the given last publish put there, or zeros before any. */
  ghost predicate Returns(calls: seq<Call>, last: Option<nat>, got: Bytes) {
    match last
    case None => got == Zeros(|got|)
    case Some(w) => w < |calls| && calls[w].Write? && (calls[w].payload <= got || got <= calls[w].payload)
  }

  lemma AcquiresRegister(s: State, r: nat)
    requires Inv(s) && r < |s.ops| && s.ops[r].pc.Acquiring? && Next(s, r).ops[r].pc.Reading?
    ensures Inv(Next(s, r)) && |Next(s, r).ops| == |s.ops| && s.ops[r].call.Read?
    ensures Next(s, r).ops[r].pc.HoldsRead(s.word.target) && Next(s, r).data[s.word.target] == s.Register()
  {
    NextInv(s, r);
    NextFrame(s, r);
    assert OpOk(s.n, s.size, s.ops[r]);
  }

  /** From its acquire in state s on, whatever the others do, r returns the register's value in s. */
  lemma ReadFrom(s: State, r: nat, b: seq<nat>)
    requires Inv(s) && r < |s.ops| && s.ops[r].pc.Acquiring? && Next(s, r).ops[r].pc.Reading?
    ensures Inv(Next(s, r)) && |Next(s, r).ops| == |s.ops|
    ensures var t := Run(Next(s, r), b); var size := s.ops[r].call.opSize;
      t.ops[r].pc.ReadDone? ==>
        && s.ops[r].call.Read? && size <= s.size
        && t.ops[r].pc.got == s.Register()[..size] && |t.ops[r].pc.got| == size
  {
    hide Run, Next, Accounted, ContentsOk, OpOk;
    AcquiresRegister(s, r);
    NextCalls(s, r);
    ReadIsSnapshot(Next(s, r), b, r, s.word.target);
  }

  /** Every byte of got is the one its last copier put into the buffer that is the target after a, or 0. */
  ghost predicate ReturnsCopies(s: State, a: seq<nat>, got: Bytes)
    requires Inv(s)
  {
    var t := Run(s, a);
    |got| <= t.size && forall k :: 0 <= k < |got| ==> ReturnsCopy(t, LastCopy(s, a, t.word.target, k), k, got[k])
  }

  /** v is byte k of write w, which has returned 0 or 1. */
  ghost predicate ReturnsCopy(t: State, w: Option<nat>, k: nat, v: byte) {
    match w
    case None => v == 0
    case Some(w) =>
      && w < |t.ops| && t.ops[w].call.Write? && k < |t.ops[w].call.payload| && v == t.ops[w].call.payload[k]
      && (t.ops[w].pc.Published? || t.ops[w].pc.Superseded?)
  }

  lemma RegisterIsCopied(s: State, a: seq<nat>, got: Bytes)
    requires Inv(s) && forall b, k :: 0 <= b < s.n && 0 <= k < s.size ==> s.data[b][k] == 0
    requires |got| <= s.size && got == Run(s, a).Register()[..|got|]
    ensures ReturnsCopies(s, a, got)
  {
    var t := Run(s, a);
    var b := t.word.target;
    forall k | 0 <= k < |got| ensures ReturnsCopy(t, LastCopy(s, a, b, k), k, got[k]) {
      ByteSource(s, a, b, k);
      if LastCopy(s, a, b, k).Some? { UnownedByte(t, LastCopy(s, a, b, k).value, b, k, got[k]); }
    }
  }

  /**
   In every interleaving, a read that returned 0 acquired at some step k of its own, and returns
   what the register held then: the bytes of the write that had published last before that
   step, as far as that write went; and each byte is that of the last write to have copied so
   far into that buffer, a write that had returned 0 or 1, or zero if none had.
   */
  lemma {:induction false} ReadReturnsLastWrite(n: nat, size: nat, calls: seq<Call>, sched: seq<nat>, r: nat)
    requires CallsFit(n, size, calls) && r < |calls|
    ensures Inv(Initial(n, size, calls))
    ensures var s := Initial(n, size, calls); var pc := Run(s, sched).ops[r].pc;
      pc.ReadDone? ==>
        && calls[r] == Read(|pc.got|)
        && exists k: nat :: AcquiresAt(s, sched, r, k) && BytesReturned(s, calls, sched[..k], pc.got)
  {
    hide Run, Next, Accounted, ContentsOk, OpOk, WordOk, BytesReturned, ReturnsCopies, LastPublish;
    InitialInv(n, size, calls);
    var s := Initial(n, size, calls);
    var pc := Run(s, sched).ops[r].pc;
    if pc.ReadDone? {
      AcquiredSometime(s, sched, r);
      var k: nat :| AcquiresAt(s, sched, r, k);
      var a, b := sched[..k], sched[k + 1..];
      assert sched == a + [r] + b && sched[..k + 1] == a + [r];
      RunStep(s, a, r);
      RunConcat(s, a + [r], b);
      ReadFrom(Run(s, a), r, b);
      RunCalls(s, sched);
      RunCalls(s, a);
      AllReturned(n, size, calls, a, pc.got);
    }
  }

  /** What ReadReturnsLastWrite says of the bytes, for an acquire after a. */
  ghost predicate BytesReturned(s: State, calls: seq<Call>, a: seq<nat>, got: Bytes)
    requires Inv(s)
  {
    && |got| <= s.size && got == Run(s, a).Register()[..|got|]
    && Returns(calls, LastPublish(s, a), got) && ReturnsCopies(s, a, got)
  }

  lemma AllReturned(n: nat, size: nat, calls: seq<Call>, a: seq<nat>, got: Bytes)
    requires CallsFit(n, size, calls) && Inv(Initial(n, size, calls))
    requires |got| <= size && got == Run(Initial(n, size, calls), a).Register()[..|got|]
    ensures BytesReturned(Initial(n, size, calls), calls, a, got)
  {
    hide Run, Next, Accounted, ContentsOk, OpOk;
    var s := Initial(n, size, calls);
    RunCalls(s, a);
    RegisterIsLast(s, a);
    LastReturned(n, size, calls, Run(s, a), LastPublish(s, a), got);
    RegisterIsCopied(s, a, got);
  }

  /** A write that has returned stays returned. */
  lemma {:induction false} OverStays(s: State, b: seq<nat>, w: nat)
    requires Inv(s) && w < |s.ops| && s.ops[w].pc.Done()
    ensures Run(s, b).ops[w] == s.ops[w]
  {
    if b != [] {
      var before, id := Run(s, b[..|b| - 1]), b[|b| - 1];
      OverStays(s, b[..|b| - 1], w);
      hide Inv;
      if id < |before.ops| { NextFrame(before, id); }
    }
  }

  /** got begins like the payload of a write that returned 0, or is zeros, as far as that write went. */
  ghost predicate StartsAsWritten(t: State, got: Bytes) {
    || got == Zeros(|got|)
    || exists w :: 0 <= w < |t.ops| && t.ops[w].call.Write? && t.ops[w].pc.Published?
         && (t.ops[w].call.payload <= got || got <= t.ops[w].call.payload)
  }

  /** Byte k of got is zero, or byte k of a write that returned 0 or 1. */
  ghost predicate ByteWritten(t: State, k: nat, v: byte) {
    v == 0 || exists w: nat :: ReturnsCopy(t, Some(w), k, v)
  }

  /**
   In short, for every interleaving: a read that returned 0 has the bytes of one write that
   returned 0, as far as that write went, or zeros; and every byte of it, also behind a short
   write, is zero or the byte at its place of some write that returned 0 or 1.
   */
  lemma {:induction false} ReadsAreWrites(n: nat, size: nat, calls: seq<Call>, sched: seq<nat>, r: nat)
    requires CallsFit(n, size, calls) && r < |calls|
    ensures Inv(Initial(n, size, calls))
    ensures var t := Run(Initial(n, size, calls), sched); var pc := t.ops[r].pc;
      pc.ReadDone? ==>
        && calls[r] == Read(|pc.got|) && StartsAsWritten(t, pc.got)
        && forall k :: 0 <= k < |pc.got| ==> ByteWritten(t, k, pc.got[k])
  {
    hide Run, Inv, BytesReturned, StartsAsWritten, ByteWritten;
    ReadReturnsLastWrite(n, size, calls, sched, r);
    var s := Initial(n, size, calls);
    var t := Run(s, sched);
    if t.ops[r].pc.ReadDone? {
      var got := t.ops[r].pc.got;
      var k: nat :| AcquiresAt(s, sched, r, k) && BytesReturned(s, calls, sched[..k], got);
      WrittenSoFar(n, size, calls, sched[..k], sched[k..], got);
      assert sched == sched[..k] + sched[k..];
    }
  }

  lemma WrittenSoFar(n: nat, size: nat, calls: seq<Call>, a: seq<nat>, b: seq<nat>, got: Bytes)
    requires CallsFit(n, size, calls) && Inv(Initial(n, size, calls))
    requires BytesReturned(Initial(n, size, calls), calls, a, got)
    ensures var t := Run(Initial(n, size, calls), a + b);
      StartsAsWritten(t, got) && forall k :: 0 <= k < |got| ==> ByteWritten(t, k, got[k])
  {
    var s := Initial(n, size, calls);
    var before, t := Run(s, a), Run(s, a + b);
    RunConcat(s, a, b);
    RegisterIsLast(s, a);
    RunCalls(s, a);
    hide Run, Next, Inv;
    if LastPublish(s, a).Some? { OverStays(before, b, LastPublish(s, a).value); }
    forall k | 0 <= k < |got| ensures ByteWritten(t, k, got[k]) {
      var w := LastCopy(s, a, before.word.target, k);
      assert ReturnsCopy(before, w, k, got[k]);
      if w.Some? {
        OverStays(before, b, w.value);
        assert ReturnsCopy(t, w, k, got[k]);
      }
    }
  }

  lemma LastReturned(n: nat, size: nat, calls: seq<Call>, t: State, last: Option<nat>, got: Bytes)
    requires Shape(t) && t.size == size && HoldsLast(t, size, last)
    requires |got| <= size && got == t.Register()[..|got|] && |calls| == |t.ops| && forall i :: 0 <= i < |calls| ==>
      t.ops[i].call == calls[i]
    ensures Returns(calls, last, got)
  {
    if last.Some? { assert calls[last.value].payload <= t.Register(); }
  }
}
