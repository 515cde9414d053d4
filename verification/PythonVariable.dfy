/**
 HostVariable of the Python layer: the object around a shared variable with its own buffer
 (src/python_bindings.cpp:20-89), and what a whole run of writes and reads of objects gives
 (src/robot_ipc/robot_ipc.py:78-95). Exceptions are the outcome Raised.
 */
module PythonVariable {
  import opened Basics
  import opened Protocol
  import opened Accounting
  import opened LastWrite
  import opened HostVariable
  import opened PythonFraming

  datatype Outcome = Returned | Raised

  class PyHostVariable {
    const shared: SharedVariable
    const buffer: array<byte>

    ghost predicate Valid()
      reads this, shared, shared.timestamp, shared.data
    {
      && shared.Valid() && buffer.Length == shared.size
      && buffer != shared.data && buffer as object != shared.timestamp as object
    }

    constructor (shared: SharedVariable)
      requires shared.Valid()
      ensures Valid() && this.shared == shared && fresh(buffer)
    {
      this.shared := shared;
      buffer := new byte[shared.size](_ => 0);
    }

    /** write, as operation `me`: a result of 1, a newer value being there, raises as well. */
    method Write(me: nat, payload: Bytes, opSize: nat) returns (outcome: Outcome)
      requires Valid()
      requires var bytes := CoreWrite(payload, opSize, shared.size);
        bytes.Ok? ==>
          && me < |shared.ops| && shared.ops[me].pc.Idle?
          && shared.ops[me].call.Write? && shared.ops[me].call.payload == bytes.value
      modifies shared`flags, shared`ops, shared`script, shared.timestamp, shared.data
      ensures Valid() && Reaches(old(shared.View()), shared.View())
      ensures CoreWrite(payload, opSize, shared.size).Err? ==> outcome == Raised && shared.View() == old(shared.View())
      ensures
        var e := if opSize == 0 then |payload| else opSize;
        && (e > shared.size || e > |payload| ==> outcome == Raised && shared.View() == old(shared.View()))
        && (outcome == Returned ==> e <= |payload| && payload[..e] <= shared.View().Register())
      ensures outcome == Returned ==> me < |shared.ops| && shared.ops[me].pc.Published?
      ensures outcome == Returned ==> CoreWrite(payload, opSize, shared.size).value <= shared.View().Register()
      ensures CoreWrite(payload, opSize, shared.size).Ok? && outcome == Raised ==>
        me < |shared.ops| && (shared.ops[me].pc.Superseded? || shared.ops[me].pc.WriteFull?)
    {
      hide Inv, Run, Reaches;
      var effective := if opSize == 0 then |payload| else opSize;
      ReachesItself(shared.View());
      if effective > shared.size { return Raised; }
      if |payload| < effective { return Raised; }
      var ret := shared.WriteHostVariable(me);
      outcome := if ret == 0 then Returned else Raised;
    }

    /** read, as operation `me`: the bytes the register held at `instant`, out of the buffer. */
    method Read(me: nat, opSize: nat) returns (outcome: Outcome, bytes: Bytes, ghost instant: State)
      requires Valid()
      requires CoreRead(opSize, shared.size).Ok? ==>
        && me < |shared.ops| && shared.ops[me].pc.Idle?
        && shared.ops[me].call == Protocol.Read(CoreRead(opSize, shared.size).value)
      modifies shared`flags, shared`ops, shared`script, shared.timestamp, shared.data, buffer
      ensures Valid() && Reaches(old(shared.View()), shared.View())
      ensures CoreRead(opSize, shared.size).Err? ==> outcome == Raised && shared.View() == old(shared.View())
      ensures
        var e := if opSize == 0 then shared.size else opSize;
        && (e > shared.size ==> outcome == Raised && shared.View() == old(shared.View()))
        && (outcome == Returned ==> |bytes| == e)
      ensures CoreRead(opSize, shared.size).Ok? && outcome == Raised ==>
        me < |shared.ops| && shared.ops[me].pc == ReadFull
      ensures outcome == Returned ==>
        && CoreRead(opSize, shared.size).Ok? && |bytes| == CoreRead(opSize, shared.size).value
        && Inv(instant) && Reaches(old(shared.View()), instant) && Reaches(instant, shared.View())
        && bytes <= instant.Register()
    {
      hide Inv, Run, Reaches;
      var effective := if opSize == 0 then shared.size else opSize;
      ReachesItself(shared.View());
      bytes, instant := [], shared.View();
      if effective > shared.size { return Raised, bytes, instant; }
      var ret;
      ret, instant := shared.ReadHostVariable(me, buffer);
      if ret != 0 { return Raised, bytes, instant; }
      outcome, bytes := Returned, buffer[..effective];
    }
  }

  /** got decodes to the object of the given last publish; before any it is zeros. */
  ghost predicate Loads<O>(
      loads: Bytes -> Option<O>, calls: seq<Call>, objects: seq<O>, last: Option<nat>, got: Bytes)
  {
    match last
    case None => got == Zeros(|got|)
    case Some(w) => w < |calls| && w < |objects| && calls[w].Write? && loads(got) == Some(objects[w])
  }

  /**
   Objects survive short writes over stale tails. In every interleaving of whole-object writes
   and full-size reads through any number of HostVariables, a read that returns decodes to the
   object whose write had published last before the read's acquire, whatever longer objects
   left behind it in that buffer; before any publish it is all zeros.
   */
  lemma {:induction false} ObjectsReadBack<O(!new)>(
      dumps: O -> Bytes, loads: Bytes -> Option<O>, n: nat, size: nat, calls: seq<Call>, objects: seq<O>,
      sched: seq<nat>, r: nat)
    requires SelfDelimiting(dumps, loads) && CallsFit(n, size, calls) && |objects| == |calls| && r < |calls|
    requires forall w :: 0 <= w < |calls| && calls[w].Write? ==>
      WriteBytes(dumps(objects[w]), None, size) == Ok(calls[w].payload)
    requires calls[r].Read? && ReadSize(None, size) == Ok(calls[r].opSize)
    ensures Inv(Initial(n, size, calls))
    ensures var s := Initial(n, size, calls); var pc := Run(s, sched).ops[r].pc;
      pc.ReadDone? ==>
        exists k: nat ::
          AcquiresAt(s, sched, r, k) && Loads(loads, calls, objects, LastPublish(s, sched[..k]), pc.got)
  {
    hide Run, Inv;
    ReadReturnsLastWrite(n, size, calls, sched, r);
    var s := Initial(n, size, calls);
    var pc := Run(s, sched).ops[r].pc;
    if pc.ReadDone? {
      var k: nat :| AcquiresAt(s, sched, r, k) && BytesReturned(s, calls, sched[..k], pc.got);
      assert Returns(calls, LastPublish(s, sched[..k]), pc.got);
      var last := LastPublish(s, sched[..k]);
      if last.Some? {
        var payload := calls[last.value].payload;
        WholeObjectWritten(dumps(objects[last.value]), None, size);
        assert payload == dumps(objects[last.value]) && payload <= pc.got;
        assert pc.got == payload + pc.got[|payload|..];
      }
    }
  }
}
