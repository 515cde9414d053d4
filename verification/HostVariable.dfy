/**
 src/host_variable.c itself: the shared memory as a packed 64-bit word, a timestamp array
 and one flat byte array, and the read and write functions with their loops. Every atomic
 access is one step of the protocol, so each call, with whatever the other operations do
 between its accesses, is a run of the step machine.
 */
module HostVariable {
  import opened Basics
  import opened LockRecord
  import opened FlagWord
  import opened WordMeaning
  import opened Protocol
  import opened Accounting
  import opened Reads
  import opened Ordering
  import opened Layout
  import opened Turns

  class SharedVariable {
    const n: nat
    const size: nat
    var flags: bv64
    const timestamp: array<nat>
    const data: array<byte>

    /** Every operation on the variable, in whatever process, with its locals. */
    var ops: seq<Operation<bv64>>
    /** Which other operations step at each coming interruption; arbitrary. */
    var script: seq<seq<nat>>

    ghost predicate Shaped()
      reads this
    {
      timestamp.Length == n && data.Length == Offset(size, n) && timestamp as object != data as object
    }

    ghost function View(): State
      reads this, timestamp, data
      requires Shaped()
    {
      State(n, size, Decode(flags), timestamp[..], Chunks(data[..], n, size), UnpackOps(ops))
    }

    ghost predicate Valid()
      reads this, timestamp, data
    {
      Shaped() && Inv(View()) && Orderly(View())
    }

    /** The initialisation of link_host_variable, on memory the system hands over zeroed. */
    constructor Link(n: nat, size: nat, calls: seq<Call>, script: seq<seq<nat>>)
      requires CallsFit(n, size, calls)
      ensures Valid() && View() == Initial(n, size, calls) && this.script == script
    {
      hide Orderly, Inv;
      this.n, this.size, this.script := n, size, script;
      ops := seq(|calls|, i requires 0 <= i < |calls| => Op(calls[i], Idle, 0));
      flags := 0;
      timestamp := new nat[n];
      data := new byte[Offset(size, n)](_ => 0);
      new;
      InitialMeans(n);
      flags := InitialBits(Bits(n));
      ghost var started := ops;
      for i := 0 to n
        invariant flags == InitialBits(Bits(n)) && ops == started && this.script == script
        invariant forall j :: 0 <= j < i ==> timestamp[j] == 0
        invariant forall j :: 0 <= j < data.Length ==> data[j] == 0
      {
        timestamp[i] := 0;
      }
      assert timestamp[..] == seq(n, _ => 0);
      forall b | 0 <= b < n ensures Chunk(data[..], n, size, b) == Zeros(size) { Apart(size, b, n); }
      assert Chunks(data[..], n, size) == seq(n, _ => Zeros(size));
      assert UnpackOps(ops) == Initial(n, size, calls).ops;
      InitialOrderly(n, size, calls);
    }

    // ---- one atomic access each ----

    /** The write half of a compare-and-swap turn, with the operation's new locals. */
    method Commit(id: nat, w: bv64, op: Packed)
      requires Valid() && id < |ops| && After(View(), id, w, op) == Next(View(), id)
      modifies this`flags, this`ops
      ensures Valid() && View() == Next(old(View()), id)
      ensures ops == old(ops)[id := op]
    {
      hide Orderly;
      NextOrderly(View(), id);
      UnpackUpdate(ops, id, op);
      flags := w;
      ops := ops[id := op];
    }

    /** The first load of either call. */
    method Begin(id: nat)
      requires Valid() && id < |ops| && ops[id].pc.Idle?
      modifies this`ops
      ensures Valid() && View() == Next(old(View()), id)
      ensures ops == old(ops)[id := ops[id]]
    {
      hide Orderly;
      ghost var before := View();
      var after := ops[id].(pc := if ops[id].call.Read? then Acquiring(flags) else Claiming(flags));
      UnpackUpdate(ops, id, after);
      ops := ops[id := after];
      NextOrderly(before, id);
    }

    /** The load that begins __release_read_lock. */
    method BeginRelease(id: nat)
      requires Valid() && id < |ops| && ops[id].pc.Reading? && ops[id].call.Read?
      requires |ops[id].pc.got| == ops[id].call.opSize
      modifies this`ops
      ensures Valid() && View() == Next(old(View()), id)
      ensures ops == old(ops)[id := ops[id]]
    {
      hide Orderly;
      ghost var before := View();
      var after := ops[id].(pc := Releasing(ops[id].pc.buf, ops[id].pc.got, flags));
      UnpackUpdate(ops, id, after);
      ops := ops[id := after];
      NextOrderly(before, id);
    }

    /** The load before a writer's last loop. */
    method BeginPublish(id: nat)
      requires Valid() && id < |ops| && ops[id].pc.Filling? && ops[id].call.Write?
      requires ops[id].pc.k == |ops[id].call.payload|
      modifies this`ops
      ensures Valid() && View() == Next(old(View()), id)
      ensures ops == old(ops)[id := ops[id]]
    {
      hide Orderly;
      ghost var before := View();
      SamePublishers(ops);
      var after := ops[id].(pc := Checking(ops[id].pc.buf, flags), seen := |PublishersIn(ops)|);
      UnpackUpdate(ops, id, after);
      ops := ops[id := after];
      assert View().ops == Next(before, id).ops;
      NextOrderly(before, id);
    }

    /** One copied byte of a read. */
    method CopyOut(id: nat)
      requires Valid() && id < |ops| && ops[id].pc.Reading? && ops[id].call.Read?
      requires |ops[id].pc.got| < ops[id].call.opSize
      modifies this`ops
      ensures Valid() && View() == Next(old(View()), id)
      ensures ops == old(ops)[id := ops[id]]
    {
      hide Orderly;
      ghost var before := View();
      assert OpOk(before.n, before.size, before.ops[id]);
      var Reading(b, got) := ops[id].pc;
      ChunkAt(data[..], n, size, b, |got|);
      var after := ops[id].(pc := Reading(b, got + [data[Offset(size, b) + |got|]]));
      UnpackUpdate(ops, id, after);
      ops := ops[id := after];
      NextOrderly(before, id);
    }

    /** The timestamp a writer stores before it copies. */
    method StoreStamp(id: nat)
      requires Valid() && id < |ops| && ops[id].pc.Stamping? && ops[id].call.Write?
      modifies this`ops, timestamp
      ensures Valid() && View() == Next(old(View()), id)
      ensures ops == old(ops)[id := ops[id]]
    {
      hide Orderly;
      ghost var before := View();
      assert OpOk(before.n, before.size, before.ops[id]);
      var b := ops[id].pc.buf;
      timestamp[b] := ops[id].call.stamp;
      var after := ops[id].(pc := Filling(b, 0));
      UnpackUpdate(ops, id, after);
      ops := ops[id := after];
      assert timestamp[..] == before.stamps[b := ops[id].call.stamp];
      NextOrderly(before, id);
    }

    /** One copied byte of a write. */
    method CopyIn(id: nat)
      requires Valid() && id < |ops| && ops[id].pc.Filling? && ops[id].call.Write?
      requires ops[id].pc.k < |ops[id].call.payload|
      modifies this`ops, data
      ensures Valid() && View() == Next(old(View()), id)
      ensures ops == old(ops)[id := ops[id]]
    {
      hide Orderly;
      ghost var before := View();
      assert OpOk(before.n, before.size, before.ops[id]);
      var Filling(b, k) := ops[id].pc;
      var v := ops[id].call.payload[k];
      ChunkAt(data[..], n, size, b, k);
      ChunkStore(data[..], n, size, b, k, v);
      ghost var was := data[..];
      data[Offset(size, b) + k] := v;
      assert data[..] == was[Offset(size, b) + k := v];
      var after := ops[id].(pc := Filling(b, k + 1));
      UnpackUpdate(ops, id, after);
      ops := ops[id := after];
      NextOrderly(before, id);
    }

    /** One turn of the loop in __acquire_read_lock. */
    method TryAcquire(id: nat)
      requires Valid() && id < |ops| && ops[id].pc.Acquiring?
      modifies this`flags, this`ops
      ensures Valid() && View() == Next(old(View()), id)
      ensures ops == old(ops)[id := ops[id]]
    {
      hide Orderly;
      ghost var before := View();
      AcquireTurnIsNext(before, id, flags, ops[id]);
      var (w, after) := AcquireTurn(flags, ops[id]);
      Commit(id, w, after);
    }

    /** One turn of the loop in __release_read_lock. */
    method TryRelease(id: nat)
      requires Valid() && id < |ops| && ops[id].pc.Releasing?
      modifies this`flags, this`ops
      ensures Valid() && View() == Next(old(View()), id)
      ensures ops == old(ops)[id := ops[id]]
    {
      hide Orderly;
      ghost var before := View();
      ReleaseTurnIsNext(before, id, flags, ops[id]);
      var (w, after) := ReleaseTurn(flags, ops[id]);
      Commit(id, w, after);
    }

    /** One turn of a writer's first loop. */
    method TryClaim(id: nat)
      requires Valid() && id < |ops| && ops[id].pc.Claiming? && ops[id].call.Write?
      modifies this`flags, this`ops
      ensures Valid() && View() == Next(old(View()), id)
      ensures ops == old(ops)[id := ops[id]]
    {
      hide Orderly;
      ghost var before := View();
      assert OpOk(before.n, before.size, before.ops[id]);
      SamePublishers(ops);
      var slot, desired := FindFree(ops[id].pc.flags);
      ClaimTurnIsNext(before, id, flags, ops[id], slot, desired);
      var (w, after) := ClaimTurn(flags, ops[id], slot, desired, |PublishersIn(ops)|);
      Commit(id, w, after);
    }

    /** The timestamp comparison of a writer's last loop. */
    method Check(id: nat)
      requires Valid() && id < |ops| && ops[id].pc.Checking? && ops[id].call.Write?
      modifies this`ops
      ensures Valid() && View() == Next(old(View()), id)
      ensures ops == old(ops)[id := ops[id]]
    {
      hide Orderly, Accounted, ContentsOk, ReaderNext, Chunks;
      ghost var before := View();
      assert OpOk(before.n, before.size, before.ops[id]);
      var Checking(b, f) := ops[id].pc;
      var oldTarget := Value(TargetBits(f));
      var next := if timestamp[oldTarget] >= ops[id].call.stamp then BackingOff(b) else Publishing(b, f);
      var after := ops[id].(pc := next);
      UnpackUpdate(ops, id, after);
      ops := ops[id := after];
      NextOrderly(before, id);
    }

    /** The compare-and-swap of a writer's last loop. */
    method TryPublish(id: nat)
      requires Valid() && id < |ops| && ops[id].pc.Publishing? && ops[id].call.Write?
      modifies this`flags, this`ops
      ensures Valid() && View() == Next(old(View()), id)
      ensures ops == old(ops)[id := ops[id]]
    {
      hide Orderly;
      ghost var before := View();
      SamePublishers(ops);
      PublishTurnIsNext(before, id, flags, ops[id]);
      var (w, after) := PublishTurn(flags, ops[id], |PublishersIn(ops)|);
      Commit(id, w, after);
    }

    /** The fetch-and of a superseded writer. */
    method BackOffNow(id: nat)
      requires Valid() && id < |ops| && ops[id].pc.BackingOff? && ops[id].call.Write?
      modifies this`flags, this`ops
      ensures Valid() && View() == Next(old(View()), id)
      ensures ops == old(ops)[id := ops[id]]
    {
      hide Orderly;
      ghost var before := View();
      assert OpOk(before.n, before.size, before.ops[id]);
      var b := ops[id].pc.buf;
      flags := BackOffWord(flags, b);
      var after := ops[id].(pc := Superseded);
      UnpackUpdate(ops, id, after);
      ops := ops[id := after];
      NextOrderly(before, id);
    }

    // ---- the other processes ----

    /** The next step of any operation: one atomic access, whichever its program counter says. */
    method Step(id: nat)
      requires Valid() && id < |ops|
      modifies this`flags, this`ops, timestamp, data
      ensures Valid() && View() == Next(old(View()), id)
      ensures ops == old(ops)[id := ops[id]]
    {
      hide Orderly, Accounted, ContentsOk, WordOk, Decode, Chunks;
      ghost var before := View();
      assert OpOk(before.n, before.size, before.ops[id]);
      match ops[id].pc {
        case Idle => Begin(id);
        case Acquiring(_) => TryAcquire(id);
        case Reading(_, got) => if |got| < ops[id].call.opSize { CopyOut(id); } else { BeginRelease(id); }
        case Releasing(_, _, _) => TryRelease(id);
        case Claiming(_) => TryClaim(id);
        case Stamping(_) => StoreStamp(id);
        case Filling(_, k) => if k < |ops[id].call.payload| { CopyIn(id); } else { BeginPublish(id); }
        case Checking(_, _) => Check(id);
        case Publishing(_, _) => TryPublish(id);
        case BackingOff(_) => BackOffNow(id);
        case _ => assert Next(before, id) == before;
      }
    }

    /** What the others do between two accesses of operation `me`: any of them, any number of steps. */
    method Interfere(me: nat)
      requires Valid() && me < |ops|
      modifies this`flags, this`ops, this`script, timestamp, data
      ensures Valid() && Reaches(old(View()), View())
      ensures Work(script) < old(Work(script)) || (Work(script) <= old(Work(script)) && View() == old(View()))
      ensures |ops| == old(|ops|) && ops[me] == old(ops[me])
    {
      hide Orderly;
      ghost var start := View();
      ghost var others: seq<nat> := [];
      if script != [] {
        var batch := script[0];
        script := script[1..];
        for i := 0 to |batch|
          invariant Valid() && View() == Run(start, others)
          invariant |others| <= i && script == old(script)[1..]
          invariant |ops| == old(|ops|) && ops[me] == old(ops[me])
        {
          if batch[i] != me && batch[i] < |ops| {
            Step(batch[i]);
            RunStep(start, others, batch[i]);
            others := others + [batch[i]];
          }
        }
      }
      assert others == [] ==> View() == start;
      assert Run(start, others) == View();
    }

    // ---- the C functions ----

    /** __acquire_read_lock: the target it locked, or -1. The lock is taken by the last step. */
    method AcquireReadLock(me: nat) returns (target: int)
      requires Valid() && me < |ops| && ops[me].pc.Idle? && ops[me].call.Read?
      modifies this`flags, this`ops, this`script, timestamp, data
      ensures Valid() && Reaches(old(View()), View())
      ensures |ops| == old(|ops|) && ops[me].call == old(ops[me].call)
      ensures if target < 0 then ops[me].pc.ReadFull?
              else ops[me].pc == Reading(target, []) && View().word.target == target
    {
      hide Next, ReaderNext, WriterNext, Inv, Run, Decode, Chunks, Reaches, Orderly;
      ghost var start := View();
      Interfere(me);
      OwnStep(start, View(), me);
      Begin(me);
      while ops[me].pc.Acquiring?
        invariant Valid() && Reaches(start, View())
        invariant |ops| == old(|ops|) && ops[me].call == old(ops[me].call)
        invariant Acquired(View().word, View().ops[me].pc)
        decreases Work(script), ops[me].pc.Acquiring?
      {
        ghost var head := View();
        Interfere(me);
        OwnStep2(start, head, View(), me);
        TryAcquire(me);
      }
      target := if ops[me].pc.ReadFull? then -1 else ops[me].pc.buf;
    }

    /** __release_read_lock. */
    method ReleaseReadLock(me: nat)
      requires Valid() && me < |ops| && ops[me].pc.Reading? && ops[me].call.Read?
      requires |ops[me].pc.got| == ops[me].call.opSize
      modifies this`flags, this`ops, this`script, timestamp, data
      ensures Valid() && Reaches(old(View()), View())
      ensures |ops| == old(|ops|) && ops[me].pc == ReadDone(old(ops[me].pc.got))
    {
      hide Next, ReaderNext, WriterNext, Inv, Run, Decode, Chunks, Reaches, Orderly;
      ghost var start := View();
      ghost var got := ops[me].pc.got;
      Interfere(me);
      OwnStep(start, View(), me);
      BeginRelease(me);
      while ops[me].pc.Releasing?
        invariant Valid() && Reaches(start, View())
        invariant |ops| == old(|ops|) && ops[me].call == old(ops[me].call)
        invariant Released(View().word, View().ops[me].pc, got)
        decreases Work(script), ops[me].pc.Releasing?
      {
        ghost var head := View();
        Interfere(me);
        OwnStep2(start, head, View(), me);
        TryRelease(me);
      }
    }

    /** The memcpy of a read, into the caller's buffer. */
    method CopyAll(me: nat, buf: array<byte>)
      requires Valid() && me < |ops| && ops[me].call.Read? && ops[me].pc.Reading? && ops[me].pc.got == []
      requires buf.Length >= ops[me].call.opSize && buf != data && buf as object != timestamp as object
      modifies this`flags, this`ops, this`script, timestamp, data, buf
      ensures Valid() && Reaches(old(View()), View())
      ensures |ops| == old(|ops|) && ops[me].call == old(ops[me].call)
      ensures ops[me].pc == Reading(old(ops[me].pc.buf), buf[..ops[me].call.opSize])
      ensures buf[ops[me].call.opSize..] == old(buf[ops[me].call.opSize..])
    {
      hide Next, ReaderNext, WriterNext, Inv, Run, Decode, Chunks, Reaches, Orderly;
      ghost var start := View();
      ReachesItself(start);
      var opSize := ops[me].call.opSize;
      for i := 0 to opSize
        invariant Valid() && Reaches(start, View())
        invariant |ops| == old(|ops|) && ops[me].call == old(ops[me].call)
        invariant ops[me].pc == Reading(old(ops[me].pc.buf), buf[..i])
        invariant buf[opSize..] == old(buf[opSize..])
      {
        ghost var head := View();
        Interfere(me);
        OwnStep2(start, head, View(), me);
        CopyOut(me);
        assert View().ops[me].pc == UnpackOp(ops[me]).pc;
        buf[i] := ops[me].pc.got[i];
        assert buf[..i + 1] == buf[..i] + [buf[i]];
      }
    }

    /**
     read_host_variable. On success the caller's buffer holds the prefix of what the register
     held at `instant`, a state during the call, whatever the other operations did.
     */
    method ReadHostVariable(me: nat, buf: array<byte>) returns (ret: int, ghost instant: State)
      requires Valid() && me < |ops| && ops[me].call.Read? && ops[me].pc.Idle?
      requires buf.Length >= ops[me].call.opSize && buf != data && buf as object != timestamp as object
      modifies this`flags, this`ops, this`script, timestamp, data, buf
      ensures Valid() && Reaches(old(View()), View())
      ensures |ops| == old(|ops|) && (ret == 0 || ret == -1)
      ensures ret == -1 ==> ops[me].pc == ReadFull && buf[..] == old(buf[..])
      ensures ret == 0 ==>
        var opSize := old(ops[me].call.opSize);
        && ops[me].pc == ReadDone(buf[..opSize]) && buf[opSize..] == old(buf[opSize..])
        && Inv(instant) && Reaches(old(View()), instant) && Reaches(instant, View())
        && opSize <= |instant.Register()| && buf[..opSize] == instant.Register()[..opSize]
    {
      hide Next, ReaderNext, WriterNext, Inv, Run, Decode, Chunks, Reaches, Orderly;
      ghost var start := View();
      var target := AcquireReadLock(me);
      instant := View();
      if target < 0 {
        return -1, instant;
      }
      assert instant.ops[me] == UnpackOp(ops[me]);
      CopyAll(me, buf);
      ghost var copied := View();
      ReleaseReadLock(me);
      ReachesThrough(instant, copied, View());
      ReachesThrough(start, instant, View());
      SnapshotReached(instant, View(), me, target);
      assert View().ops[me] == UnpackOp(ops[me]);
      ret := 0;
    }

    /** The first loop of a write: whether it claimed a buffer. */
    method ClaimBuffer(me: nat) returns (ok: bool)
      requires Valid() && me < |ops| && ops[me].pc.Idle? && ops[me].call.Write?
      modifies this`flags, this`ops, this`script, timestamp, data
      ensures Valid() && Reaches(old(View()), View())
      ensures |ops| == old(|ops|) && ops[me].call == old(ops[me].call)
      ensures if ok then ops[me].pc.Stamping? else ops[me].pc.WriteFull?
    {
      hide Next, ReaderNext, WriterNext, Inv, Run, Decode, Chunks, Reaches, Orderly;
      ghost var start := View();
      Interfere(me);
      OwnStep(start, View(), me);
      Begin(me);
      while ops[me].pc.Claiming?
        invariant Valid() && Reaches(start, View())
        invariant |ops| == old(|ops|) && ops[me].call == old(ops[me].call)
        invariant Claimed(View().word, View().ops[me].pc)
        decreases Work(script), ops[me].pc.Claiming?
      {
        ghost var head := View();
        Interfere(me);
        OwnStep2(start, head, View(), me);
        TryClaim(me);
      }
      ok := ops[me].pc.Stamping?;
    }

    /** The timestamp store and the memcpy of a write, and the load after them. */
    method StampAndFill(me: nat)
      requires Valid() && me < |ops| && ops[me].call.Write? && ops[me].pc.Stamping?
      modifies this`flags, this`ops, this`script, timestamp, data
      ensures Valid() && Reaches(old(View()), View())
      ensures |ops| == old(|ops|) && ops[me].call == old(ops[me].call)
      ensures ops[me].pc.Checking? && View().ops[me].pc.flags == View().word
    {
      hide Work, Claimed, Acquired, Released, Next, ReaderNext, WriterNext, Inv, Run, Decode, Chunks, Reaches, Orderly;
      ghost var start := View();
      Interfere(me);
      OwnStep(start, View(), me);
      StoreStamp(me);
      ghost var stamped := View();
      Fill(me);
      ghost var filled := View();
      ReachesThrough(start, stamped, filled);
      Interfere(me);
      OwnStep2(start, filled, View(), me);
      BeginPublish(me);
    }

    /** The memcpy into the claimed buffer. */
    method Fill(me: nat)
      requires Valid() && me < |ops| && ops[me].call.Write? && ops[me].pc.Filling? && ops[me].pc.k == 0
      modifies this`flags, this`ops, this`script, timestamp, data
      ensures Valid() && Reaches(old(View()), View())
      ensures |ops| == old(|ops|) && ops[me].call == old(ops[me].call)
      ensures View().ops[me].pc == Filling(old(ops[me].pc.buf), |old(ops[me].call.payload)|)
    {
      hide Work, Claimed, Acquired, Released, Next, ReaderNext, WriterNext, Inv, Run, Decode, Chunks, Reaches, Orderly;
      ghost var start := View();
      ReachesItself(start);
      for k := 0 to |ops[me].call.payload|
        invariant Valid() && Reaches(start, View())
        invariant |ops| == old(|ops|) && ops[me].call == old(ops[me].call)
        invariant View().ops[me].pc == Filling(old(ops[me].pc.buf), k)
      {
        ghost var head := View();
        Interfere(me);
        OwnStep2(start, head, View(), me);
        CopyIn(me);
      }
    }

    /** One turn of the last loop of a write: 0 if it published, 1 if it backed off, -1 to go round again. */
    method CheckAndSwap(me: nat) returns (outcome: int)
      requires Valid() && me < |ops| && ops[me].call.Write? && ops[me].pc.Checking?
      requires View().ops[me].pc.flags == View().word
      modifies this`flags, this`ops, this`script, timestamp, data
      ensures Valid() && Reaches(old(View()), View())
      ensures |ops| == old(|ops|) && ops[me].call == old(ops[me].call)
      ensures Work(script) <= old(Work(script)) && (outcome == 0 || outcome == 1 || outcome == -1)
      ensures outcome == 0 ==> ops[me].pc.Published? && ops[me].call.payload <= View().Register()
      ensures outcome == 1 ==> ops[me].pc.Superseded?
      ensures outcome == -1 ==>
                ops[me].pc.Checking? && View().ops[me].pc.flags == View().word && Work(script) < old(Work(script))
    {
      hide Work, Claimed, Acquired, Released, Next, ReaderNext, WriterNext, Inv, Run, Decode, Chunks, Reaches, Orderly;
      ghost var start := View();
      CheckStamp(me);
      OwnStep(start, View(), me);
      if ops[me].pc.BackingOff? {
        BackOffNow(me);
        return 1;
      }
      TryPublish(me);
      outcome := if ops[me].pc.Published? then 0 else -1;
    }

    /** The comparison, and what the others do before and after it. */
    method CheckStamp(me: nat)
      requires Valid() && me < |ops| && ops[me].call.Write? && ops[me].pc.Checking?
      requires View().ops[me].pc.flags == View().word
      modifies this`flags, this`ops, this`script, timestamp, data
      ensures Valid() && Reaches(old(View()), View())
      ensures |ops| == old(|ops|) && ops[me].call == old(ops[me].call) && Work(script) <= old(Work(script))
      ensures ops[me].pc.BackingOff? || ops[me].pc.Publishing?
      ensures ops[me].pc.Publishing? && View().ops[me].pc.flags != View().word ==> Work(script) < old(Work(script))
    {
      hide Work, Claimed, Acquired, Released, Next, ReaderNext, WriterNext, Inv, Run, Decode, Chunks, Reaches, Orderly;
      ghost var start := View();
      Interfere(me);
      OwnStep(start, View(), me);
      Check(me);
      ghost var checked := View();
      Interfere(me);
      ReachesThrough(start, checked, View());
    }

    /** The last loop of a write: whether it published, else it backed off. */
    method PublishOrBackOff(me: nat) returns (published: bool)
      requires Valid() && me < |ops| && ops[me].call.Write? && ops[me].pc.Checking?
      requires View().ops[me].pc.flags == View().word
      modifies this`flags, this`ops, this`script, timestamp, data
      ensures Valid() && Reaches(old(View()), View())
      ensures |ops| == old(|ops|) && ops[me].call == old(ops[me].call)
      ensures if published then ops[me].pc.Published? && ops[me].call.payload <= View().Register()
              else ops[me].pc.Superseded?
    {
      hide Next, ReaderNext, WriterNext, Inv, Run, Decode, Chunks, Reaches, Orderly;
      ghost var start := View();
      ReachesItself(start);
      while true
        invariant Valid() && Reaches(start, View())
        invariant |ops| == old(|ops|) && ops[me].call == old(ops[me].call)
        invariant ops[me].pc.Checking? && View().ops[me].pc.flags == View().word
        decreases Work(script)
      {
        ghost var head := View();
        var outcome := CheckAndSwap(me);
        ReachesThrough(start, head, View());
        if outcome != -1 {
          return outcome == 0;
        }
      }
    }

    /**
     write_host_variable. 0: the register now starts with the payload. 1: another write at least
     as new has published, or claimed a buffer later and has not given up. -1: no buffer was free.
     */
    method WriteHostVariable(me: nat) returns (ret: int)
      requires Valid() && me < |ops| && ops[me].call.Write? && ops[me].pc.Idle?
      modifies this`flags, this`ops, this`script, timestamp, data
      ensures Valid() && Reaches(old(View()), View())
      ensures |ops| == old(|ops|) && (ret == 0 || ret == 1 || ret == -1)
      ensures ret == 0 ==> ops[me].pc.Published? && old(ops[me].call.payload) <= View().Register()
      ensures ret == 1 ==> ops[me].pc.Superseded? && (old(ops[me].call.stamp) > 0 ==> Answered(View(), me))
      ensures ret == -1 ==> ops[me].pc.WriteFull?
    {
      hide Next, ReaderNext, WriterNext, Inv, Run, Decode, Chunks, Reaches, Orderly;
      ghost var start := View();
      var ok := ClaimBuffer(me);
      if !ok {
        return -1;
      }
      ghost var claimed := View();
      StampAndFill(me);
      ghost var filled := View();
      var published := PublishOrBackOff(me);
      ReachesThrough(claimed, filled, View());
      ReachesThrough(start, claimed, View());
      ret := if published then 0 else 1;
      if !published && ops[me].call.stamp > 0 { GaveUpFor(View(), me); }
    }
  }

  // ---- what a state can become ----

  ghost predicate Reaches(s: State, t: State)
    requires Inv(s)
  {
    exists sched :: Run(s, sched) == t
  }

  lemma ReachesItself(s: State)
    requires Inv(s)
    ensures Reaches(s, s)
  {
    assert Run(s, []) == s;
  }

  lemma ReachesThrough(s: State, t: State, u: State)
    requires Inv(s) && Inv(t) && Reaches(s, t) && Reaches(t, u)
    ensures Reaches(s, u)
  {
    var a :| Run(s, a) == t;
    var b :| Run(t, b) == u;
    RunConcat(s, a, b);
  }

  lemma GaveUpFor(s: State, me: nat)
    requires Orderly(s) && me < |s.ops| && s.ops[me].pc.Superseded? && Stamp(s.ops[me]) > 0
    ensures Answered(s, me)
  {
    ExcusedIsAnswered(s, me);
  }

  /** An operation's own step, after the interference that preceded it. */
  lemma OwnStep(start: State, t: State, me: nat)
    requires Inv(start) && Inv(t) && Reaches(start, t) && me < |t.ops|
    ensures Inv(Next(t, me)) && Reaches(start, Next(t, me))
    ensures TurnOk(t, Next(t, me), me)
  {
    var a :| Run(start, a) == t;
    RunStep(start, a, me);
    NextInv(t, me);
    if t.ops[me].call.Read? { ReaderTurn(t, me); } else { WriterTurn(t, me); }
  }

  lemma OwnStep2(start: State, head: State, t: State, me: nat)
    requires Inv(start) && Inv(head) && Inv(t) && Reaches(start, head) && Reaches(head, t) && me < |t.ops|
    ensures Inv(Next(t, me)) && Reaches(start, Next(t, me))
    ensures TurnOk(t, Next(t, me), me)
  {
    ReachesThrough(start, head, t);
    OwnStep(start, t, me);
  }

  lemma SnapshotReached(s: State, t: State, r: nat, b: nat)
    requires Inv(s) && Reaches(s, t) && r < |s.ops| && s.ops[r].pc.HoldsRead(b) && b == s.word.target
    ensures Inv(t) && |t.ops| == |s.ops| && s.ops[r].call.Read? && s.ops[r].call.opSize <= |s.Register()|
    ensures t.ops[r].pc.ReadDone? ==> t.ops[r].pc == ReadDone(s.Register()[..s.ops[r].call.opSize])
  {
    var a :| Run(s, a) == t;
    ReadIsSnapshot(s, a, r, b);
  }

  // ---- what an operation's own step does to its program counter ----

  predicate TurnOk(s: State, t: State, id: nat)
    requires id < |s.ops|
  {
    && |t.ops| == |s.ops| && t.ops[id].call == s.ops[id].call
    && match s.ops[id].pc
       case Idle =>
         if s.ops[id].call.Read? then Acquired(t.word, t.ops[id].pc) else Claimed(t.word, t.ops[id].pc)
       case Acquiring(f) => Acquired(t.word, t.ops[id].pc) && (f == s.word ==> !t.ops[id].pc.Acquiring?)
       case Reading(b, got) =>
         if s.ops[id].call.Read? && |got| < s.ops[id].call.opSize then
           && t.ops[id].pc.Reading? && t.ops[id].pc.buf == b
           && |t.ops[id].pc.got| == |got| + 1 && t.ops[id].pc.got[..|got|] == got
         else Released(t.word, t.ops[id].pc, got)
       case Releasing(b, got, f) => Released(t.word, t.ops[id].pc, got) && (f == s.word ==> t.ops[id].pc.ReadDone?)
       case Claiming(f) => Claimed(t.word, t.ops[id].pc) && (f == s.word ==> !t.ops[id].pc.Claiming?)
       case Stamping(b) => t.ops[id].pc == Filling(b, 0)
       case Filling(b, k) =>
         if s.ops[id].call.Write? && k < |s.ops[id].call.payload| then t.ops[id].pc == Filling(b, k + 1)
         else t.ops[id].pc == Checking(b, t.word)
       case Checking(b, f) =>
         t.word == s.word && (t.ops[id].pc == BackingOff(b) || t.ops[id].pc == Publishing(b, f))
       case Publishing(b, f) =>
         if f == s.word then
           && t.ops[id].pc == Published && t.word.target < |t.data|
           && s.ops[id].call.Write? && s.ops[id].call.payload <= t.Register()
         else t.ops[id].pc == Checking(b, t.word)
       case BackingOff(_) => t.ops[id].pc.Superseded?
       case _ => true
  }

  /** Where a writer is in its first loop, just after a step of its own. */
  predicate Claimed(word: Locks, pc: Pc) {
    match pc
    case Claiming(f) => f == word
    case Stamping(_) => true
    case WriteFull => true
    case _ => false
  }

  /** Where a reader is in its first loop, just after a step of its own. */
  predicate Acquired(word: Locks, pc: Pc) {
    match pc
    case Acquiring(f) => f == word
    case Reading(b, got) => got == [] && b == word.target
    case ReadFull => true
    case _ => false
  }

  /** Where a reader is in its last loop, just after a step of its own. */
  predicate Released(word: Locks, pc: Pc, bytes: Bytes) {
    match pc
    case Releasing(_, got, f) => f == word && got == bytes
    case ReadDone(got) => got == bytes
    case _ => false
  }

  lemma ReaderTurn(s: State, id: nat)
    requires Inv(s) && id < |s.ops| && s.ops[id].call.Read?
    ensures TurnOk(s, Next(s, id), id)
  {
    assert OpOk(s.n, s.size, s.ops[id]);
  }

  lemma WriterTurn(s: State, id: nat)
    requires Inv(s) && id < |s.ops| && s.ops[id].call.Write?
    ensures TurnOk(s, Next(s, id), id)
  {
    assert OpOk(s.n, s.size, s.ops[id]) && ContentsOk(s, s.ops[id]);
  }

  function Work(script: seq<seq<nat>>): nat {
    if script == [] then 0 else |script[0]| + Work(script[1..])
  }

  /** The free-buffer search and claim of src/host_variable.c:281-288. */
  method FindFree(flags: bv64) returns (slot: Option<nat>, desired: bv64)
    requires Decode(flags).Fits()
    ensures slot == FreeSlot(Decode(flags))
    ensures slot.Some? ==> Decode(desired) == Decode(flags).WithCount(slot.value, WRITER)
  {
    var freeMask := FreeMask(flags, TargetBits(flags));
    FreeMaskMeans(flags, 0);
    slot, desired := None, flags;
    if freeMask != 0 {
      var target4 := CountTrailingZeros(freeMask);
      FreeMaskMeans(flags, target4);
      ClaimMeans(flags, target4 >> 2);
      slot, desired := Some(Value(target4 >> 2)), ClaimBits(flags, target4);
    }
  }
}
