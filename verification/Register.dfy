/**
 What the protocol is for: a host variable behaves as one atomic register. The refinement
 map needs no history, because a buffer someone reads cannot change.
 */
module Register {
  import opened Basics
  import opened Protocol
  import opened Accounting
  import opened Copies

  // ---- the specification: one register, every operation takes effect in one step ----

  datatype SpecOp =
    | Pending
    | Taken(value: Bytes)          // a read has taken effect and will return this
    | Returned(value: Bytes)       // a read returned 0
    | Stored                       // a write took effect and returned 0
    | GaveWay                      // a write returned 1
    | Refused                      // a read or write returned -1

  datatype Spec = Spec(value: Bytes, ops: seq<SpecOp>)

  /** The atomic effect of one operation on the register, v before and w after. */
  predicate Effect(call: Call, before: SpecOp, after: SpecOp, v: Bytes, w: Bytes) {
    match after
    case Taken(x) => before.Pending? && w == v && call.Read? && call.opSize <= |v| && x == v[..call.opSize]
    case Returned(x) => before == Taken(x) && w == v
    case Stored => before.Pending? && call.Write? && |w| == |v| && call.payload <= w
    case GaveWay => before.Pending? && call.Write? && w == v
    case Refused => before.Pending? && w == v
    case Pending => false
  }

  /** Byte k of write i, which has returned 0 or 1. */
  predicate LeftByte(calls: seq<Call>, p: Spec, i: nat, k: nat, v: byte) {
    && i < |calls| == |p.ops| && calls[i].Write? && k < |calls[i].payload| && calls[i].payload[k] == v
    && (p.ops[i].Stored? || p.ops[i].GaveWay?)
  }

  /**
   Behind a short write's payload the register shows what was in the buffer before: each byte is
   zero, or was written there by an earlier write that returned 0 or 1.
   */
  ghost predicate TailIsLeft(calls: seq<Call>, p: Spec, id: nat, w: Bytes)
    requires id < |calls| && calls[id].Write?
  {
    forall k :: |calls[id].payload| <= k < |w| ==> w[k] == 0 || exists i: nat :: LeftByte(calls, p, i, k, w[k])
  }

  ghost predicate SpecStep(calls: seq<Call>, p: Spec, q: Spec, id: nat) {
    || q == p
    || (&& id < |calls| == |p.ops| == |q.ops| && q.ops == p.ops[id := q.ops[id]]
        && Effect(calls[id], p.ops[id], q.ops[id], p.value, q.value)
        && (q.ops[id].Stored? ==> TailIsLeft(calls, p, id, q.value)))
  }

  // ---- the refinement map ----

  function AbsOp(s: State, op: Op): SpecOp
    requires Shape(s) && OpOk(s.n, s.size, op)
  {
    match op.pc
    case Reading(b, _) => Taken(s.data[b][..op.call.opSize])
    case Releasing(b, _, _) => Taken(s.data[b][..op.call.opSize])
    case ReadDone(got) => Returned(got)
    case Published => Stored
    case ReadFull => Refused
    case Superseded => GaveWay
    case WriteFull => Refused
    case _ => Pending
  }

  function Abs(s: State): Spec
    requires Shape(s)
  {
    Spec(s.Register(), seq(|s.ops|, i requires 0 <= i < |s.ops| => AbsOp(s, s.ops[i])))
  }

  /** Nobody's step changes a buffer that a third party reads, or that is the target. */
  lemma ReadableKept(s: State, id: nat, b: nat)
    requires Inv(s) && id < |s.ops| && b < s.n
    requires b == s.word.target || exists r :: 0 <= r < |s.ops| && s.ops[r].pc.HoldsRead(b)
    ensures Inv(Next(s, id)) && Next(s, id).n == s.n
    ensures Next(s, id).data[b] == s.data[b] && Next(s, id).stamps[b] == s.stamps[b]
  {
    NextInv(s, id);
    NextFrame(s, id);
    if s.ops[id].pc.HoldsWrite(b) { WriterAlone(s, id, b); }
  }

  lemma AbsOthers(s: State, id: nat, i: nat)
    requires Inv(s) && id < |s.ops| && i < |s.ops| && i != id
    ensures Inv(Next(s, id)) && |Next(s, id).ops| == |s.ops|
    ensures Abs(Next(s, id)).ops[i] == Abs(s).ops[i]
  {
    NextInv(s, id);
    NextFrame(s, id);
    assert OpOk(s.n, s.size, s.ops[i]);
    var pc := s.ops[i].pc;
    if pc.Reading? || pc.Releasing? {
      assert pc.HoldsRead(pc.buf);
      ReadableKept(s, id, pc.buf);
    }
  }

  /** A reader's step as seen from the register. */
  lemma ReadRefines(s: State, id: nat)
    requires Inv(s) && id < |s.ops| && s.ops[id].call.Read?
    ensures Inv(Next(s, id))
    ensures Next(s, id).Register() == s.Register()
    ensures var t := Next(s, id);
      |t.ops| == |s.ops| && OpOk(s.n, s.size, s.ops[id]) && OpOk(t.n, t.size, t.ops[id]) &&
      (AbsOp(t, t.ops[id]) == AbsOp(s, s.ops[id]) ||
       Effect(s.ops[id].call, AbsOp(s, s.ops[id]), AbsOp(t, t.ops[id]), s.Register(), s.Register()))
  {
    NextInv(s, id);
    NextFrame(s, id);
    ReadableKept(s, id, s.word.target);
    assert OpOk(s.n, s.size, s.ops[id]) && ContentsOk(s, s.ops[id]);
  }

  /** A writer's step as seen from the register: it changes at the publish and nowhere else. */
  lemma WriteRefines(s: State, id: nat)
    requires Inv(s) && id < |s.ops| && s.ops[id].call.Write?
    ensures Inv(Next(s, id))
    ensures var t := Next(s, id);
      |t.ops| == |s.ops| && OpOk(s.n, s.size, s.ops[id]) && OpOk(t.n, t.size, t.ops[id]) &&
      ((AbsOp(t, t.ops[id]) == AbsOp(s, s.ops[id]) && t.Register() == s.Register()) ||
       Effect(s.ops[id].call, AbsOp(s, s.ops[id]), AbsOp(t, t.ops[id]), s.Register(), t.Register()))
  {
    NextInv(s, id);
    NextFrame(s, id);
    ReadableKept(s, id, s.word.target);
    assert OpOk(s.n, s.size, s.ops[id]) && ContentsOk(s, s.ops[id]);
  }

  /** A publish exposes its own bytes and those of writes that are over. */
  lemma PublishExposes(s: State, id: nat, k: nat)
    requires Inv(s) && id < |s.ops| && s.ops[id].call.Write? && s.ops[id].pc.Publishing? && s.ops[id].pc.buf < s.n
    requires |s.ops[id].call.payload| <= k < s.size && ByteSourced(s, s.ops[id].pc.buf, k)
    ensures var v := s.data[s.ops[id].pc.buf][k]; v == 0 || exists i: nat :: LeftByte(CallsOf(s), Abs(s), i, k, v)
  {
    var b := s.ops[id].pc.buf;
    var v := s.data[b][k];
    if v != 0 {
      var w: nat :| CopiedBy(s, w, b, k, v);
      if s.ops[w].pc.HoldsWrite(b) { WriterAlone(s, id, b); }
      assert OpOk(s.n, s.size, s.ops[w]);
      assert LeftByte(CallsOf(s), Abs(s), w, k, v);
    }
  }

  lemma StoredTail(s: State, id: nat)
    requires Inv(s) && Sourced(s) && id < |s.ops| && s.ops[id].call.Write?
    ensures Inv(Next(s, id)) && |Next(s, id).ops| == |s.ops|
    ensures Next(s, id).ops[id].pc.Published? && !s.ops[id].pc.Published? ==>
      TailIsLeft(CallsOf(s), Abs(s), id, Next(s, id).Register())
  {
    NextInv(s, id);
    NextFrame(s, id);
    PublishedBuffer(s, id);
    hide Next, Abs, CallsOf, Accounted, ContentsOk, OpOk, LeftByte;
    var t := Next(s, id);
    if t.ops[id].pc.Published? && !s.ops[id].pc.Published? {
      forall k | |s.ops[id].call.payload| <= k < |t.Register()|
        ensures t.Register()[k] == 0 || exists i: nat :: LeftByte(CallsOf(s), Abs(s), i, k, t.Register()[k])
      {
        assert ByteSourced(s, s.ops[id].pc.buf, k);
        PublishExposes(s, id, k);
      }
    }
  }

  lemma PublishedBuffer(s: State, id: nat)
    requires Inv(s) && id < |s.ops| && s.ops[id].call.Write?
    ensures |Next(s, id).ops| == |s.ops|
    ensures Next(s, id).ops[id].pc.Published? && !s.ops[id].pc.Published? ==>
      && s.ops[id].pc.Publishing? && s.ops[id].pc.buf < s.n
      && Next(s, id).word.target == s.ops[id].pc.buf && Next(s, id).data == s.data
  {
    assert OpOk(s.n, s.size, s.ops[id]);
  }

  lemma StepRefines(s: State, id: nat)
    requires Inv(s) && Sourced(s)
    ensures Inv(Next(s, id))
    ensures SpecStep(CallsOf(s), Abs(s), Abs(Next(s, id)), id)
  {
    NextInv(s, id);
    if id < |s.ops| {
      var t := Next(s, id);
      NextFrame(s, id);
      if s.ops[id].call.Read? {
        ReadRefines(s, id);
      } else {
        WriteRefines(s, id);
        StoredTail(s, id);
      }
      hide Next, Inv, Sourced, TailIsLeft;
      forall i | 0 <= i < |s.ops| && i != id ensures Abs(t).ops[i] == Abs(s).ops[i] { AbsOthers(s, id, i); }
      assert Abs(t).ops == Abs(s).ops[id := Abs(t).ops[id]];
    }
  }

  /**
   Every interleaving refines the atomic register: along every schedule, each step is a step
   of the register specification, starting from a zeroed register with all calls pending. A
   short write leaves behind its payload only bytes of writes that are over.
   */
  lemma RefinesRegister(n: nat, size: nat, calls: seq<Call>, sched: seq<nat>, k: nat)
    requires CallsFit(n, size, calls) && k < |sched|
    ensures Inv(Initial(n, size, calls))
    ensures Abs(Initial(n, size, calls)) == Spec(Zeros(size), seq(|calls|, _ => Pending))
    ensures
      var s := Initial(n, size, calls);
      SpecStep(calls, Abs(Run(s, sched[..k])), Abs(Run(s, sched[..k + 1])), sched[k])
  {
    InitialInv(n, size, calls);
    var s := Initial(n, size, calls);
    var before := Run(s, sched[..k]);
    assert Abs(s) == Spec(Zeros(size), seq(|calls|, _ => Pending));
    hide Run, Next, Sourced, SpecStep, Abs;
    RunCalls(s, sched[..k]);
    RunSourced(s, sched[..k]);
    assert CallsOf(before) == calls;
    StepRefines(before, sched[k]);
    RunStep(s, sched[..k], sched[k]);
    assert sched[..k] + [sched[k]] == sched[..k + 1];
  }
}
