/**
 One turn of each compare-and-swap loop of src/host_variable.c, on the packed word: from the
 shared word and the operation's locals to the new word and locals. Each is proved to be the
 protocol's step on the decoded state.
 */
module Turns {
  import opened Basics
  import opened LockRecord
  import opened FlagWord
  import opened WordMeaning
  import opened Protocol
  import opened Accounting
  import opened Layout

  type Packed = Operation<bv64>

  /** The state after operation id has changed the word and its own locals. */
  function After(s: State, id: nat, flags: bv64, op: Packed): State
    requires id < |s.ops|
  {
    s.(word := Decode(flags), ops := s.ops[id := UnpackOp(op)])
  }

  /** The shared word and operation id of s, packed. */
  predicate Holds(s: State, id: nat, flags: bv64, op: Packed) {
    Inv(s) && id < |s.ops| && s.word == Decode(flags) && s.ops[id] == UnpackOp(op)
  }

  /** __acquire_read_lock. */
  function AcquireTurn(flags: bv64, op: Packed): (bv64, Packed)
    requires op.pc.Acquiring? && TargetBits(op.pc.flags) < 15
  {
    var expected := op.pc.flags;
    var desired := AcquireWord(expected);
    if desired.None? then (flags, op.(pc := ReadFull))
    else if flags != expected then (flags, op.(pc := Acquiring(flags)))
    else (desired.value, op.(pc := Reading(Value(TargetBits(expected)), [])))
  }

  lemma AcquireTurnIsNext(s: State, id: nat, flags: bv64, op: Packed)
    requires Holds(s, id, flags, op) && op.pc.Acquiring?
    ensures TargetBits(op.pc.flags) < 15
    ensures var (w, a) := AcquireTurn(flags, op); After(s, id, w, a) == Next(s, id)
  {
    assert OpOk(s.n, s.size, s.ops[id]);
    AcquireMeans(op.pc.flags);
    DecodeInjective(flags, op.pc.flags);
    assert Next(s, id) == ReaderNext(s, id);
  }

  /** __release_read_lock. */
  function ReleaseTurn(flags: bv64, op: Packed): (bv64, Packed)
    requires op.pc.Releasing? && op.pc.buf < SLOTS
  {
    var Releasing(b, got, expected) := op.pc;
    if flags != expected then (flags, op.(pc := Releasing(b, got, flags)))
    else (ReleaseWord(expected, b), op.(pc := ReadDone(got)))
  }

  lemma ReleaseTurnIsNext(s: State, id: nat, flags: bv64, op: Packed)
    requires Holds(s, id, flags, op) && op.pc.Releasing?
    ensures op.pc.buf < SLOTS
    ensures var (w, a) := ReleaseTurn(flags, op); After(s, id, w, a) == Next(s, id)
  {
    assert OpOk(s.n, s.size, s.ops[id]);
    ReleaseMeans(op.pc.flags, op.pc.buf);
    DecodeInjective(flags, op.pc.flags);
    assert Next(s, id) == ReaderNext(s, id);
  }

  /** The first loop of write_host_variable; `slot` and `desired` are what FindFree found. */
  function ClaimTurn(flags: bv64, op: Packed, slot: Option<nat>, desired: bv64, seen: nat): (bv64, Packed)
    requires op.pc.Claiming?
  {
    if slot.None? then (flags, op.(pc := WriteFull))
    else if flags != op.pc.flags then (flags, op.(pc := Claiming(flags)))
    else (desired, op.(pc := Stamping(slot.value), seen := seen))
  }

  lemma ClaimTurnIsNext(s: State, id: nat, flags: bv64, op: Packed, slot: Option<nat>, desired: bv64)
    requires Holds(s, id, flags, op) && op.pc.Claiming? && WordOk(s.n, s.ops[id].pc.flags)
    requires slot == FreeSlot(s.ops[id].pc.flags)
    requires slot.Some? ==> Decode(desired) == s.ops[id].pc.flags.WithCount(slot.value, WRITER)
    ensures var (w, a) := ClaimTurn(flags, op, slot, desired, |Publishers(s)|); After(s, id, w, a) == Next(s, id)
  {
    assert s.ops[id].call.Write? by { assert OpOk(s.n, s.size, s.ops[id]); }
    assert flags == op.pc.flags <==> s.word == s.ops[id].pc.flags by { DecodeInjective(flags, op.pc.flags); }
    ClaimNext(s, id, slot);
    ClaimTurnIs(s, id, flags, op, slot, desired, Next(s, id));
  }

  lemma ClaimTurnIs(s: State, id: nat, flags: bv64, op: Packed, slot: Option<nat>, desired: bv64, t: State)
    requires id < |s.ops| && s.word == Decode(flags) && s.ops[id] == UnpackOp(op) && op.pc.Claiming?
    requires |s.word.count| == SLOTS
    requires slot.Some? ==> slot.value < SLOTS
    requires var p := s.ops[id];
      t ==
        if slot.None? then s.(ops := s.ops[id := p.(pc := WriteFull)])
        else if flags != op.pc.flags then s.(ops := s.ops[id := p.(pc := Claiming(s.word))])
        else s.(word := Decode(desired), ops := s.ops[id := p.(pc := Stamping(slot.value), seen := |Publishers(s)|)])
    ensures var (w, a) := ClaimTurn(flags, op, slot, desired, |Publishers(s)|); After(s, id, w, a) == t
  {
    if slot.None? {
      AfterUpdate(s, id, flags, op, WriteFull, op.seen);
    } else if flags != op.pc.flags {
      AfterUpdate(s, id, flags, op, Claiming(flags), op.seen);
    } else {
      AfterUpdate(s, id, desired, op, Stamping(slot.value), |Publishers(s)|);
    }
  }

  lemma AfterUpdate(s: State, id: nat, w: bv64, op: Packed, pc: Where<bv64>, seen: nat)
    requires id < |s.ops| && s.ops[id] == UnpackOp(op)
    ensures After(s, id, w, op.(pc := pc, seen := seen)) ==
              s.(word := Decode(w), ops := s.ops[id := s.ops[id].(pc := Unpack(pc), seen := seen)])
  {
  }

  lemma ClaimNext(s: State, id: nat, slot: Option<nat>)
    requires Shape(s) && id < |s.ops| && s.ops[id].call.Write? && s.ops[id].pc.Claiming?
    requires WordOk(s.n, s.ops[id].pc.flags) && slot == FreeSlot(s.ops[id].pc.flags)
    ensures var p := s.ops[id];
      Next(s, id) ==
        if slot.None? then s.(ops := s.ops[id := p.(pc := WriteFull)])
        else if s.word != p.pc.flags then s.(ops := s.ops[id := p.(pc := Claiming(s.word))])
        else s.(word := s.word.WithCount(slot.value, WRITER),
                ops := s.ops[id := p.(pc := Stamping(slot.value), seen := |Publishers(s)|)])
  {
    assert Next(s, id) == WriterNext(s, id);
  }

  /** The compare-and-swap of the last loop of write_host_variable. */
  function PublishTurn(flags: bv64, op: Packed, seen: nat): (bv64, Packed)
    requires op.pc.Publishing? && op.pc.buf < SLOTS
  {
    var Publishing(b, expected) := op.pc;
    if flags != expected then (flags, op.(pc := Checking(b, flags), seen := seen))
    else (PublishWord(expected, b), op.(pc := Published))
  }

  lemma PublishTurnIsNext(s: State, id: nat, flags: bv64, op: Packed)
    requires Holds(s, id, flags, op) && op.pc.Publishing?
    ensures op.pc.buf < SLOTS
    ensures var (w, a) := PublishTurn(flags, op, |Publishers(s)|); After(s, id, w, a) == Next(s, id)
  {
    assert OpOk(s.n, s.size, s.ops[id]);
    DecodeInjective(flags, op.pc.flags);
    assert Next(s, id) == WriterNext(s, id);
  }
}
