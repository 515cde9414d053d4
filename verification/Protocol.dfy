/**
 The host-variable protocol of src/host_variable.c as a step machine.

 A state holds the shared memory (lock word, timestamps, buffers) and any number of
 operations, each a read or write call with a program counter and its locals. One step is
 one atomic load, compare-and-swap, fetch-and, timestamp access or copied byte of one
 operation, so a run is determined by its schedule: the sequence of operation indices that
 take the steps. Statements over all schedules are statements over all interleavings.
 */
module Protocol {
  import opened Basics
  import opened LockRecord

  datatype Call =
    | Read(opSize: nat)
    | Write(payload: Bytes, stamp: nat)

  /** Where an operation is. `flags` is the C local of that name, packed or as a record. */
  datatype Where<W> =
    | Idle
    // read_host_variable
    | Acquiring(flags: W)
    | Reading(buf: nat, got: Bytes)
    | Releasing(buf: nat, got: Bytes, flags: W)
    | ReadDone(got: Bytes)                 // returned 0
    | ReadFull                             // returned -1
    // write_host_variable
    | Claiming(flags: W)
    | Stamping(buf: nat)
    | Filling(buf: nat, k: nat)
    | Checking(buf: nat, flags: W)
    | Publishing(buf: nat, flags: W)
    | BackingOff(buf: nat)
    | Published                            // returned 0
    | Superseded                           // returned 1
    | WriteFull                            // returned -1
  {
    predicate HoldsRead(b: nat) {
      (Reading? || Releasing?) && buf == b
    }

    predicate Owns() {
      Stamping? || Filling? || Checking? || Publishing? || BackingOff?
    }

    predicate HoldsWrite(b: nat) {
      Owns() && buf == b
    }

    predicate Done() {
      ReadDone? || ReadFull? || Published? || Superseded? || WriteFull?
    }
  }

  /**
   `seen` is a history variable no step reads: the number of publishes there had been when
   the operation last loaded the word, from its claim on.
   */
  datatype Operation<W> = Op(call: Call, pc: Where<W>, seen: nat)

  type Pc = Where<Locks>
  type Op = Operation<Locks>

  datatype State = State(
    n: nat,                    // SHM_BUFFER_CNT
    size: nat,                 // bytes per buffer
    word: Locks,
    stamps: seq<nat>,
    data: seq<Bytes>,
    ops: seq<Op>)
  {
    function WithPc(id: nat, pc: Pc): State
      requires id < |ops|
    {
      this.(ops := ops[id := ops[id].(pc := pc)])
    }

    function WithSeen(id: nat): State
      requires id < |ops|
    {
      this.(ops := ops[id := ops[id].(seen := |Publishers(this)|)])
    }

    function Register(): Bytes
      requires word.target < |data|
    {
      data[word.target]
    }
  }

  function PublishersIn<W>(ops: seq<Operation<W>>): set<nat> {
    set i | 0 <= i < |ops| && ops[i].pc.Published?
  }

  function Publishers(s: State): set<nat> {
    PublishersIn(s.ops)
  }

  function CallsOf(s: State): seq<Call> {
    seq(|s.ops|, i requires 0 <= i < |s.ops| => s.ops[i].call)
  }

  // ---- shape: what makes every access of a step in bounds ----

  predicate WordOk(n: nat, w: Locks) {
    && w.Fits() && w.target < n && w.count[w.target] < WRITER
    && forall i :: n <= i < SLOTS ==> w.count[i] == WRITER
  }

  predicate OpOk(n: nat, size: nat, op: Op) {
    && (op.call.Read? ==> op.call.opSize <= size)
    && (op.call.Write? ==> |op.call.payload| <= size)
    && match op.pc
       case Idle => true
       case Acquiring(f) => op.call.Read? && WordOk(n, f)
       case Reading(b, got) => op.call.Read? && b < n && |got| <= op.call.opSize
       case Releasing(b, got, f) =>
         op.call.Read? && b < n <= SLOTS && |got| == op.call.opSize && WordOk(n, f) && 0 < f.count[b] < WRITER
       case ReadDone(got) => op.call.Read? && |got| == op.call.opSize
       case ReadFull => op.call.Read?
       case Claiming(f) => op.call.Write? && WordOk(n, f)
       case Stamping(b) => op.call.Write? && b < n
       case Filling(b, k) => op.call.Write? && b < n && k <= |op.call.payload|
       case Checking(b, f) => op.call.Write? && b < n && WordOk(n, f)
       case Publishing(b, f) => op.call.Write? && b < n && WordOk(n, f)
       case BackingOff(b) => op.call.Write? && b < n
       case Published => op.call.Write?
       case Superseded => op.call.Write?
       case WriteFull => op.call.Write?
  }

  predicate Shape(s: State) {
    && 2 <= s.n <= SLOTS && |s.stamps| == s.n && |s.data| == s.n
    && (forall b :: 0 <= b < s.n ==> |s.data[b]| == s.size)
    && WordOk(s.n, s.word)
    && forall i :: 0 <= i < |s.ops| ==> OpOk(s.n, s.size, s.ops[i])
  }

  // ---- one step of operation `id` ----

  function Next(s: State, id: nat): State
    requires Shape(s)
  {
    if id >= |s.ops| then s
    else if s.ops[id].call.Read? then ReaderNext(s, id)
    else WriterNext(s, id)
  }

  function ReaderNext(s: State, id: nat): State
    requires Shape(s) && id < |s.ops| && s.ops[id].call.Read?
  {
    match s.ops[id].pc
    case Idle => s.WithPc(id, Acquiring(s.word))
    case Acquiring(f) =>
      if f.count[f.target] + 1 == WRITER then s.WithPc(id, ReadFull)
      else if s.word != f then s.WithPc(id, Acquiring(s.word))
      else s.(word := f.WithCount(f.target, f.count[f.target] + 1)).WithPc(id, Reading(f.target, []))
    case Reading(b, got) =>
      if |got| < s.ops[id].call.opSize then s.WithPc(id, Reading(b, got + [s.data[b][|got|]]))
      else s.WithPc(id, Releasing(b, got, s.word))
    case Releasing(b, got, f) =>
      if s.word != f then s.WithPc(id, Releasing(b, got, s.word))
      else s.(word := f.WithCount(b, f.count[b] - 1)).WithPc(id, ReadDone(got))
    case _ => s
  }

  function WriterNext(s: State, id: nat): State
    requires Shape(s) && id < |s.ops| && s.ops[id].call.Write?
  {
    var Write(payload, stamp) := s.ops[id].call;
    match s.ops[id].pc
    case Idle => s.WithPc(id, Claiming(s.word))
    case Claiming(f) =>
      if FreeSlot(f).None? then s.WithPc(id, WriteFull)
      else if s.word != f then s.WithPc(id, Claiming(s.word))
      else
        var b := FreeSlot(f).value;
        s.(word := f.WithCount(b, WRITER)).WithSeen(id).WithPc(id, Stamping(b))
    case Stamping(b) => s.(stamps := s.stamps[b := stamp]).WithPc(id, Filling(b, 0))
    case Filling(b, k) =>
      if k < |payload| then s.(data := s.data[b := s.data[b][k := payload[k]]]).WithPc(id, Filling(b, k + 1))
      else s.WithSeen(id).WithPc(id, Checking(b, s.word))
    case Checking(b, f) =>
      if s.stamps[f.target] >= stamp then s.WithPc(id, BackingOff(b))
      else s.WithPc(id, Publishing(b, f))
    case Publishing(b, f) =>
      if s.word != f then s.WithSeen(id).WithPc(id, Checking(b, s.word))
      else s.(word := f.WithCount(b, 0).(target := b)).WithPc(id, Published)
    case BackingOff(b) => s.(word := s.word.WithCount(b, 0)).WithPc(id, Superseded)
    case _ => s
  }

  // ---- runs ----

  /** A new variable with n buffers of the given size, and a list of calls about to start. */
  function Initial(n: nat, size: nat, calls: seq<Call>): State
    requires n <= SLOTS
  {
    State(n, size, InitialLocks(n), seq(n, _ => 0), seq(n, _ => Zeros(size)),
          seq(|calls|, i requires 0 <= i < |calls| => Op(calls[i], Idle, 0)))
  }

  /** What the documentation asks of callers: no operation is longer than the variable. */
  predicate CallsFit(n: nat, size: nat, calls: seq<Call>) {
    && 2 <= n <= SLOTS
    && forall i :: 0 <= i < |calls| ==>
         match calls[i] { case Read(k) => k <= size case Write(p, _) => |p| <= size }
  }
}
