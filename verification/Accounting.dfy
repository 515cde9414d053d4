/**
 The invariant of the host-variable protocol. In every reachable state a lock count tells
 exactly who holds the buffer, and a held buffer contains what its holder believes.
 */
module Accounting {
  import opened LockRecord
  import opened Protocol

  function ReadersOf(s: State, b: nat): set<nat> {
    set i | 0 <= i < |s.ops| && s.ops[i].pc.HoldsRead(b)
  }

  function WritersOf(s: State, b: nat): set<nat> {
    set i | 0 <= i < |s.ops| && s.ops[i].pc.HoldsWrite(b)
  }

  /** One buffer's count: either 0xF for its one writer, or the number of its readers. */
  predicate BufferOk(s: State, b: nat)
    requires Shape(s) && b < s.n
  {
    if s.word.count[b] == WRITER then
      |WritersOf(s, b)| == 1 && ReadersOf(s, b) == {} && b != s.word.target
    else
      WritersOf(s, b) == {} && s.word.count[b] == |ReadersOf(s, b)|
  }

  predicate Accounted(s: State)
    requires Shape(s)
  {
    forall b :: 0 <= b < s.n ==> BufferOk(s, b)
  }

  /** What an operation's progress says about the buffer it holds. */
  predicate ContentsOk(s: State, op: Op)
    requires Shape(s) && OpOk(s.n, s.size, op)
  {
    match op.pc
    case Reading(b, got) => got == s.data[b][..|got|]
    case Releasing(b, got, _) => got == s.data[b][..|got|]
    case Filling(b, k) => s.stamps[b] == op.call.stamp && s.data[b][..k] == op.call.payload[..k]
    case Checking(b, _) => s.stamps[b] == op.call.stamp && op.call.payload <= s.data[b]
    case Publishing(b, _) => s.stamps[b] == op.call.stamp && op.call.payload <= s.data[b]
    case BackingOff(b) => s.stamps[b] == op.call.stamp && op.call.payload <= s.data[b]
    case _ => true
  }

  predicate Inv(s: State) {
    && Shape(s)
    && Accounted(s)
    && forall i :: 0 <= i < |s.ops| ==> ContentsOk(s, s.ops[i])
  }

  // ---- consequences ----

  lemma SingletonMember<T>(A: set<T>, x: T, y: T)
    requires |A| == 1 && x in A && y in A
    ensures x == y
  {
    assert |A - {x}| == 0;
    assert A - {x} == {};
  }

  /** A writer holds its buffer alone, and its buffer is not the target. */
  lemma WriterAlone(s: State, w: nat, b: nat)
    requires Shape(s) && Accounted(s) && w < |s.ops| && s.ops[w].pc.HoldsWrite(b)
    ensures b < s.n && s.word.count[b] == WRITER && b != s.word.target
    ensures forall i :: 0 <= i < |s.ops| && i != w ==> !s.ops[i].pc.HoldsWrite(b)
    ensures forall i :: 0 <= i < |s.ops| ==> !s.ops[i].pc.HoldsRead(b)
  {
    assert OpOk(s.n, s.size, s.ops[w]);
    assert BufferOk(s, b);
    assert w in WritersOf(s, b);
    forall i | 0 <= i < |s.ops| && s.ops[i].pc.HoldsWrite(b) ensures i == w {
      SingletonMember(WritersOf(s, b), i, w);
    }
    forall i | 0 <= i < |s.ops| ensures !s.ops[i].pc.HoldsRead(b) {
      assert i !in ReadersOf(s, b);
    }
  }

  /** A buffer somebody reads has a count between 1 and 14. */
  lemma ReaderCounted(s: State, r: nat, b: nat)
    requires Shape(s) && Accounted(s) && r < |s.ops| && s.ops[r].pc.HoldsRead(b)
    ensures b < s.n && 0 < s.word.count[b] < WRITER && s.word.count[b] == |ReadersOf(s, b)|
    ensures WritersOf(s, b) == {}
  {
    assert OpOk(s.n, s.size, s.ops[r]);
    assert BufferOk(s, b);
    assert r in ReadersOf(s, b);
  }

  // ---- preservation ----

  /** How one operation's new program counter changes the holders of a buffer. */
  lemma HoldersAfter(s: State, t: State, id: nat, b: nat)
    requires id < |s.ops| == |t.ops| && forall i :: 0 <= i < |s.ops| && i != id ==> t.ops[i] == s.ops[i]
    ensures ReadersOf(t, b) == (ReadersOf(s, b) - {id}) + (if t.ops[id].pc.HoldsRead(b) then {id} else {})
    ensures WritersOf(t, b) == (WritersOf(s, b) - {id}) + (if t.ops[id].pc.HoldsWrite(b) then {id} else {})
    ensures id in ReadersOf(s, b) <==> s.ops[id].pc.HoldsRead(b)
    ensures id in WritersOf(s, b) <==> s.ops[id].pc.HoldsWrite(b)
  {
  }

  lemma ReaderOk(s: State, id: nat)
    requires Shape(s) && Accounted(s) && id < |s.ops| && s.ops[id].call.Read?
    ensures var t := Next(s, id); |t.ops| == |s.ops| && OpOk(s.n, s.size, t.ops[id]) && WordOk(s.n, t.word)
  {
    assert OpOk(s.n, s.size, s.ops[id]);
    match s.ops[id].pc
    case Reading(b, _) => ReaderCounted(s, id, b);
    case Releasing(b, _, _) => ReaderCounted(s, id, b);
    case _ =>
  }

  lemma WriterOk(s: State, id: nat)
    requires Shape(s) && Accounted(s) && id < |s.ops| && s.ops[id].call.Write?
    ensures var t := Next(s, id); |t.ops| == |s.ops| && OpOk(s.n, s.size, t.ops[id]) && WordOk(s.n, t.word)
  {
    WriterWordOk(s, id);
    hide Accounted, WordOk;
    assert OpOk(s.n, s.size, s.ops[id]);
  }

  lemma WriterWordOk(s: State, id: nat)
    requires Shape(s) && Accounted(s) && id < |s.ops| && s.ops[id].call.Write?
    ensures WordOk(s.n, Next(s, id).word)
    ensures (s.ops[id].pc.Claiming? && FreeSlot(s.ops[id].pc.flags).Some? ==> FreeSlot(s.ops[id].pc.flags).value < s.n)
  {
    assert OpOk(s.n, s.size, s.ops[id]);
    match s.ops[id].pc
    case BackingOff(b) => WriterAlone(s, id, b);
    case _ =>
  }

  lemma NextFrame(s: State, id: nat)
    requires Shape(s) && id < |s.ops|
    ensures var t := Next(s, id);
      && t.n == s.n && t.size == s.size && |t.ops| == |s.ops| && |t.stamps| == |s.stamps| && |t.data| == |s.data|
      && t.ops[id].call == s.ops[id].call
      && (forall i :: 0 <= i < |s.ops| && i != id ==> t.ops[i] == s.ops[i])
      && (forall b :: 0 <= b < s.n ==> |t.data[b]| == s.size)
      && (forall b :: 0 <= b < s.n && !s.ops[id].pc.HoldsWrite(b) ==>
           t.data[b] == s.data[b] && t.stamps[b] == s.stamps[b])
  {
    assert OpOk(s.n, s.size, s.ops[id]);
  }

  lemma NextShape(s: State, id: nat)
    requires Shape(s) && Accounted(s)
    ensures Shape(Next(s, id))
  {
    if id < |s.ops| {
      if s.ops[id].call.Read? { ReaderOk(s, id); } else { WriterOk(s, id); }
      NextFrame(s, id);
    }
  }

  /** A step that moves no lock and leaves the word alone. */
  predicate KeepsLocks(s: State, t: State, id: nat)
    requires id < |s.ops| == |t.ops|
  {
    && t.word == s.word
    && forall b :: 0 <= b < s.n ==>
         (t.ops[id].pc.HoldsRead(b) <==> s.ops[id].pc.HoldsRead(b)) &&
         (t.ops[id].pc.HoldsWrite(b) <==> s.ops[id].pc.HoldsWrite(b))
  }

  /** A step that changes one count, moving the stepping operation's lock on that buffer only. */
  predicate MovesLock(s: State, t: State, id: nat, buf: nat)
    requires id < |s.ops| == |t.ops| && |s.word.count| == |t.word.count| == SLOTS
  {
    && s.n <= SLOTS
    && (forall b :: 0 <= b < s.n && b != buf ==>
         t.word.count[b] == s.word.count[b] &&
         (t.ops[id].pc.HoldsRead(b) <==> s.ops[id].pc.HoldsRead(b)) &&
         (t.ops[id].pc.HoldsWrite(b) <==> s.ops[id].pc.HoldsWrite(b)))
    && (t.word.target == s.word.target || t.word.target == buf)
  }

  lemma ReaderLocks(s: State, id: nat)
    requires Shape(s) && Accounted(s) && id < |s.ops| && s.ops[id].call.Read?
    ensures var t := Next(s, id);
      |t.ops| == |s.ops| && |t.word.count| == SLOTS && t.word.target == s.word.target &&
      (KeepsLocks(s, t, id) ||
        match s.ops[id].pc
        case Acquiring(_) =>
          var b := s.word.target;
          MovesLock(s, t, id, b) && t.ops[id].pc.HoldsRead(b) && t.word.count[b] == s.word.count[b] + 1 < WRITER
        case Releasing(b, _, _) =>
          MovesLock(s, t, id, b) && t.ops[id].pc.ReadDone? && t.word.count[b] == s.word.count[b] - 1
        case _ => false)
  {
    assert OpOk(s.n, s.size, s.ops[id]);
  }

  /** The lock whose count a step changes, if any. */
  function MovedBuffer(s: State, id: nat): nat
    requires id < |s.ops|
  {
    var pc := s.ops[id].pc;
    if pc.Acquiring? then s.word.target
    else if pc.Claiming? then
      if |pc.flags.count| == SLOTS && FreeSlot(pc.flags).Some? then FreeSlot(pc.flags).value else SLOTS
    else if pc.Releasing? || pc.Publishing? || pc.BackingOff? then pc.buf
    else SLOTS
  }

  /** What a writer's step does to the locks. */
  predicate WriterMoves(s: State, t: State, id: nat)
    requires id < |s.ops|
  {
    && |t.ops| == |s.ops| && |s.word.count| == |t.word.count| == SLOTS
    && (KeepsLocks(s, t, id) ||
        match s.ops[id].pc
        case Claiming(_) =>
          t.ops[id].pc.Stamping? && var b := t.ops[id].pc.buf;
          && MovesLock(s, t, id, b) && b == MovedBuffer(s, id) < s.n && b != s.word.target == t.word.target
          && s.word.count[b] == 0 && t.word.count[b] == WRITER
        case Publishing(b, _) =>
          b < SLOTS && MovesLock(s, t, id, b) && t.ops[id].pc.Published? && t.word.target == b && t.word.count[b] == 0
        case BackingOff(b) =>
          && b < SLOTS && MovesLock(s, t, id, b) && t.ops[id].pc.Superseded?
          && t.word.target == s.word.target && t.word.count[b] == 0
        case _ => false)
  }

  lemma ClaimLocks(s: State, id: nat)
    requires Shape(s) && id < |s.ops| && s.ops[id].call.Write? && s.ops[id].pc.Claiming?
    ensures WriterMoves(s, Next(s, id), id)
  {
    assert OpOk(s.n, s.size, s.ops[id]);
  }

  lemma ReleaseLocks(s: State, id: nat)
    requires Shape(s) && id < |s.ops| && s.ops[id].call.Write? && (s.ops[id].pc.Publishing? || s.ops[id].pc.BackingOff?)
    ensures WriterMoves(s, Next(s, id), id)
  {
    assert OpOk(s.n, s.size, s.ops[id]);
  }

  lemma WriterLocks(s: State, id: nat)
    requires Shape(s) && id < |s.ops| && s.ops[id].call.Write?
    ensures WriterMoves(s, Next(s, id), id)
  {
    var pc := s.ops[id].pc;
    if pc.Claiming? {
      ClaimLocks(s, id);
    } else if pc.Publishing? || pc.BackingOff? {
      ReleaseLocks(s, id);
    } else {
      assert OpOk(s.n, s.size, s.ops[id]);
    }
  }

  /** A buffer whose count and holders a step leaves alone stays accounted for. */
  lemma BufferKept(s: State, t: State, id: nat, b: nat)
    requires Shape(s) && Shape(t) && t.n == s.n && b < s.n && BufferOk(s, b)
    requires id < |s.ops| == |t.ops| && forall i :: 0 <= i < |s.ops| && i != id ==> t.ops[i] == s.ops[i]
    requires t.word.count[b] == s.word.count[b] && (t.word.target == s.word.target || t.word.target != b)
    requires t.ops[id].pc.HoldsRead(b) <==> s.ops[id].pc.HoldsRead(b)
    requires t.ops[id].pc.HoldsWrite(b) <==> s.ops[id].pc.HoldsWrite(b)
    ensures BufferOk(t, b)
  {
    assert ReadersOf(t, b) == ReadersOf(s, b);
    assert WritersOf(t, b) == WritersOf(s, b);
  }

  /** The buffer a lock is taken on or given back stays accounted for. */
  lemma BufferMoved(s: State, t: State, id: nat, b: nat)
    requires Shape(s) && Accounted(s) && Shape(t) && t.n == s.n && b < s.n
    requires id < |s.ops| == |t.ops| && forall i :: 0 <= i < |s.ops| && i != id ==> t.ops[i] == s.ops[i]
    requires
      var p, q, c, d := s.ops[id].pc, t.ops[id].pc, s.word.count[b], t.word.count[b];
      if q.HoldsRead(b) then !q.HoldsWrite(b) && !p.HoldsRead(b) && !p.HoldsWrite(b) && d == c + 1 < WRITER
      else if q.HoldsWrite(b) then !p.HoldsRead(b) && !p.HoldsWrite(b) && c == 0 && d == WRITER && b != t.word.target
      else if p.HoldsRead(b) then d == c - 1
      else p.HoldsWrite(b) && d == 0
    ensures BufferOk(t, b)
  {
    assert BufferOk(s, b);
    HoldersAfter(s, t, id, b);
    if s.ops[id].pc.HoldsWrite(b) {
      WriterAlone(s, id, b);
      assert WritersOf(s, b) - {id} == {};
    } else if s.ops[id].pc.HoldsRead(b) {
      ReaderCounted(s, id, b);
    }
  }

  lemma NextBuffer(s: State, id: nat, b: nat)
    requires Shape(s) && Accounted(s) && Shape(Next(s, id)) && id < |s.ops| && b < s.n == Next(s, id).n
    ensures BufferOk(Next(s, id), b)
  {
    hide Next;
    var t := Next(s, id);
    NextFrame(s, id);
    if s.ops[id].call.Read? { ReaderLocks(s, id); } else { WriterLocks(s, id); }
    assert BufferOk(s, b);
    if KeepsLocks(s, t, id) || b != MovedBuffer(s, id) {
      BufferKept(s, t, id, b);
    } else {
      BufferMoved(s, t, id, b);
    }
  }

  lemma OwnContents(s: State, id: nat)
    requires Inv(s) && Shape(Next(s, id)) && id < |s.ops|
    ensures |Next(s, id).ops| == |s.ops| && ContentsOk(Next(s, id), Next(s, id).ops[id])
  {
    NextFrame(s, id);
    assert ContentsOk(s, s.ops[id]) && OpOk(s.n, s.size, s.ops[id]);
  }

  /** A step writes only into the buffer its operation owns, which no other operation holds. */
  lemma OtherContents(s: State, id: nat, i: nat)
    requires Inv(s) && Shape(Next(s, id)) && id < |s.ops| && i < |s.ops| && i != id
    ensures |Next(s, id).ops| == |s.ops| && ContentsOk(Next(s, id), Next(s, id).ops[i])
  {
    NextFrame(s, id);
    var pc := s.ops[id].pc;
    assert ContentsOk(s, s.ops[i]) && OpOk(s.n, s.size, s.ops[i]) && OpOk(s.n, s.size, s.ops[id]);
    if pc.Stamping? || pc.Filling? || pc.Checking? || pc.Publishing? || pc.BackingOff? {
      WriterAlone(s, id, pc.buf);
    }
  }

  lemma NextInv(s: State, id: nat)
    requires Inv(s)
    ensures Inv(Next(s, id))
  {
    if id < |s.ops| {
      NextShape(s, id);
      NextFrame(s, id);
      forall b | 0 <= b < s.n ensures BufferOk(Next(s, id), b) { NextBuffer(s, id, b); }
      OwnContents(s, id);
      forall i | 0 <= i < |s.ops| && i != id ensures ContentsOk(Next(s, id), Next(s, id).ops[i]) {
        OtherContents(s, id, i);
      }
    }
  }

  // ---- runs ----

  /** The state after a schedule: the operations named in it take their steps in that order. */
  function Run(s: State, sched: seq<nat>): (r: State)
    requires Inv(s)
    ensures Inv(r) && r.n == s.n && r.size == s.size && |r.ops| == |s.ops|
  {
    if sched == [] then s
    else
      var before := Run(s, sched[..|sched| - 1]);
      var id := sched[|sched| - 1];
      NextInv(before, id);
      NextCalls(before, id);
      Next(before, id)
  }

  lemma NextCalls(s: State, id: nat)
    requires Shape(s)
    ensures Next(s, id).n == s.n && Next(s, id).size == s.size && |Next(s, id).ops| == |s.ops|
    ensures forall i :: 0 <= i < |s.ops| ==> Next(s, id).ops[i].call == s.ops[i].call
  {
    if id < |s.ops| { NextFrame(s, id); }
  }

  lemma {:induction false} RunCalls(s: State, sched: seq<nat>)
    requires Inv(s)
    ensures forall i :: 0 <= i < |s.ops| ==> Run(s, sched).ops[i].call == s.ops[i].call
  {
    if sched != [] {
      RunCalls(s, sched[..|sched| - 1]);
      NextCalls(Run(s, sched[..|sched| - 1]), sched[|sched| - 1]);
    }
  }

  lemma RunStep(s: State, sched: seq<nat>, id: nat)
    requires Inv(s)
    ensures Run(s, sched + [id]) == Next(Run(s, sched), id)
  {
    assert (sched + [id])[..|sched|] == sched;
  }

  lemma {:induction false} RunConcat(s: State, a: seq<nat>, b: seq<nat>)
    requires Inv(s)
    ensures Run(s, a + b) == Run(Run(s, a), b)
  {
    if b == [] {
      assert a + b == a;
    } else {
      var c, x := b[..|b| - 1], b[|b| - 1];
      assert (a + c) + [x] == a + b && c + [x] == b;
      assert Run(s, a + b) == Next(Run(s, a + c), x) by { RunStep(s, a + c, x); }
      assert Run(Run(s, a), b) == Next(Run(Run(s, a), c), x) by { RunStep(Run(s, a), c, x); }
      RunConcat(s, a, c);
    }
  }

  lemma InitialInv(n: nat, size: nat, calls: seq<Call>)
    requires CallsFit(n, size, calls)
    ensures Inv(Initial(n, size, calls))
  {
    var s := Initial(n, size, calls);
    forall b | 0 <= b < n ensures ReadersOf(s, b) == {} && WritersOf(s, b) == {} {}
    forall i | 0 <= i < |s.ops| ensures OpOk(n, size, s.ops[i]) && s.ops[i].pc.Idle? {
      assert s.ops[i] == Op(calls[i], Idle, 0);
    }
  }

  /**
   Lock accounting in every reachable state of every interleaving: a usable buffer's count is
   0xF exactly when one writer owns it, with no reader and never on the target; otherwise it
   is the number of its readers. Slots past the last buffer stay reserved.
   */
  lemma LockAccounting(n: nat, size: nat, calls: seq<Call>, sched: seq<nat>, b: nat)
    requires CallsFit(n, size, calls) && b < SLOTS
    ensures Inv(Initial(n, size, calls))
    ensures var s := Run(Initial(n, size, calls), sched);
      && s.word.target < n
      && (b >= n ==> s.word.count[b] == WRITER)
      && (b < n ==>
           && (s.word.count[b] == WRITER <==> |WritersOf(s, b)| == 1)
           && (s.word.count[b] == WRITER ==> ReadersOf(s, b) == {} && b != s.word.target)
           && (s.word.count[b] != WRITER ==> WritersOf(s, b) == {} && s.word.count[b] == |ReadersOf(s, b)| <= 14))
  {
    InitialInv(n, size, calls);
    if b < n { assert BufferOk(Run(Initial(n, size, calls), sched), b); }
  }
}
