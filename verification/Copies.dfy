/**
 Where the bytes of a buffer come from. A short write leaves the rest of its buffer as it was,
 so a buffer may hold bytes of several writes: each byte is that of the last write that copied
 so far into that buffer (src/host_variable.c:296), or the initial zero.
 */
module Copies {
  import opened Basics
  import opened Protocol
  import opened Accounting

  /** The next step of id copies byte k into buffer b. */
  predicate CopiesNext(s: State, id: nat, b: nat, k: nat) {
    id < |s.ops| && s.ops[id].call.Write? && s.ops[id].pc == Filling(b, k) && k < |s.ops[id].call.payload|
  }

  /** The operation that copied byte k into buffer b last, if any did. */
  function LastCopy(s: State, sched: seq<nat>, b: nat, k: nat): Option<nat>
    requires Inv(s)
  {
    if sched == [] then None
    else
      var a, id := sched[..|sched| - 1], sched[|sched| - 1];
      if CopiesNext(Run(s, a), id, b, k) then Some(id) else LastCopy(s, a, b, k)
  }

  /** Write w has copied v as byte k of buffer b, and holds the buffer still or has returned 0 or 1. */
  predicate CopiedBy(s: State, w: nat, b: nat, k: nat, v: byte) {
    && w < |s.ops| && s.ops[w].call.Write? && k < |s.ops[w].call.payload| && s.ops[w].call.payload[k] == v
    && (s.ops[w].pc.HoldsWrite(b) || s.ops[w].pc.Published? || s.ops[w].pc.Superseded?)
  }

  lemma StepByte(s: State, id: nat, b: nat, k: nat)
    requires Inv(s) && b < s.n && k < s.size
    ensures Inv(Next(s, id)) && Next(s, id).n == s.n && Next(s, id).size == s.size && |Next(s, id).ops| == |s.ops|
    ensures Next(s, id).data[b][k] == if CopiesNext(s, id, b, k) then s.ops[id].call.payload[k] else s.data[b][k]
  {
    NextInv(s, id);
    NextCalls(s, id);
    hide Accounted, ContentsOk;
    if id < |s.ops| { assert OpOk(s.n, s.size, s.ops[id]); }
  }

  lemma CopierStays(s: State, id: nat, w: nat, b: nat, k: nat, v: byte)
    requires Inv(s) && CopiedBy(s, w, b, k, v)
    ensures CopiedBy(Next(s, id), w, b, k, v)
  {
    hide Accounted, ContentsOk;
    if id < |s.ops| { NextFrame(s, id); }
    assert OpOk(s.n, s.size, s.ops[w]);
  }

  /** Along every schedule, every byte of every buffer is the one its last copier put there. */
  lemma {:induction false} ByteSource(s: State, sched: seq<nat>, b: nat, k: nat)
    requires Inv(s) && b < s.n && k < s.size
    ensures var t := Run(s, sched);
      match LastCopy(s, sched, b, k)
      case None => t.data[b][k] == s.data[b][k]
      case Some(w) => CopiedBy(t, w, b, k, t.data[b][k])
  {
    if sched != [] {
      hide Next, Inv;
      var a, id := sched[..|sched| - 1], sched[|sched| - 1];
      var before := Run(s, a);
      ByteSource(s, a, b, k);
      StepByte(before, id, b, k);
      if CopiesNext(before, id, b, k) {
        CopierStays(before, id, id, b, k, before.ops[id].call.payload[k]);
      } else if LastCopy(s, a, b, k).Some? {
        CopierStays(before, id, LastCopy(s, a, b, k).value, b, k, before.data[b][k]);
      }
    }
  }

  /** The same without saying which write: zero, or byte k of some write that is filling b or has returned. */
  ghost predicate Sourced(s: State)
    requires Shape(s)
  {
    forall b, k :: 0 <= b < s.n && 0 <= k < s.size ==> ByteSourced(s, b, k)
  }

  ghost predicate ByteSourced(s: State, b: nat, k: nat)
    requires Shape(s) && b < s.n && k < s.size
  {
    s.data[b][k] == 0 || exists w: nat :: CopiedBy(s, w, b, k, s.data[b][k])
  }

  lemma RunSourced(s: State, sched: seq<nat>)
    requires Inv(s) && forall b, k :: 0 <= b < s.n && 0 <= k < s.size ==> s.data[b][k] == 0
    ensures Sourced(Run(s, sched))
  {
    hide LastCopy, CopiedBy;
    forall b, k | 0 <= b < s.n && 0 <= k < s.size ensures ByteSourced(Run(s, sched), b, k) {
      ByteSource(s, sched, b, k);
    }
  }

  /** In a buffer nobody is writing to, every byte is of a write that has returned. */
  lemma UnownedByte(s: State, w: nat, b: nat, k: nat, v: byte)
    requires Inv(s) && CopiedBy(s, w, b, k, v) && b == s.word.target
    ensures s.ops[w].pc.Published? || s.ops[w].pc.Superseded?
  {
    if s.ops[w].pc.HoldsWrite(b) { WriterAlone(s, w, b); }
  }
}
