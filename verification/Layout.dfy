/**
 How the memory of a host variable stands for a protocol state: packed words decode to lock
 records, and one flat byte array holds the buffers one after the other.
 */
module Layout {
  import opened Basics
  import opened WordMeaning
  import opened Protocol

  // ---- from packed locals and flat memory to the protocol's state ----

  function Unpack(pc: Where<bv64>): Pc {
    match pc
    case Idle => Idle
    case Acquiring(f) => Acquiring(Decode(f))
    case Reading(b, got) => Reading(b, got)
    case Releasing(b, got, f) => Releasing(b, got, Decode(f))
    case ReadDone(got) => ReadDone(got)
    case ReadFull => ReadFull
    case Claiming(f) => Claiming(Decode(f))
    case Stamping(b) => Stamping(b)
    case Filling(b, k) => Filling(b, k)
    case Checking(b, f) => Checking(b, Decode(f))
    case Publishing(b, f) => Publishing(b, Decode(f))
    case BackingOff(b) => BackingOff(b)
    case Published => Published
    case Superseded => Superseded
    case WriteFull => WriteFull
  }

  function UnpackOp(op: Operation<bv64>): Op {
    Op(op.call, Unpack(op.pc), op.seen)
  }

  function UnpackOps(ops: seq<Operation<bv64>>): seq<Op> {
    seq(|ops|, i requires 0 <= i < |ops| => UnpackOp(ops[i]))
  }

  lemma SamePublishers(ops: seq<Operation<bv64>>)
    ensures PublishersIn(UnpackOps(ops)) == PublishersIn(ops)
  {
  }

  lemma UnpackUpdate(ops: seq<Operation<bv64>>, id: nat, op: Operation<bv64>)
    requires id < |ops|
    ensures UnpackOps(ops[id := op]) == UnpackOps(ops)[id := UnpackOp(op)]
  {
  }

  // ---- the flat data area ----

  /** Where buffer b starts in the data area: `b * size`, by repeated addition. */
  function Offset(size: nat, b: nat): nat {
    if b == 0 then 0 else Offset(size, b - 1) + size
  }

  lemma {:induction false} OffsetIsProduct(size: nat, b: nat)
    ensures Offset(size, b) == b * size
  {
    if b > 0 {
      OffsetIsProduct(size, b - 1);
      assert (b - 1) * size + size == b * size;
    }
  }

  /** A buffer ends before every later one starts, so no access leaves the data area. */
  lemma {:induction false} Apart(size: nat, b: nat, c: nat)
    requires b < c
    ensures Offset(size, b) + size <= Offset(size, c)
  {
    if b < c - 1 { Apart(size, b, c - 1); }
  }

  function Chunk(d: Bytes, n: nat, size: nat, b: nat): (r: Bytes)
    requires |d| == Offset(size, n) && b < n
    ensures |r| == size
  {
    Apart(size, b, n);
    d[Offset(size, b)..Offset(size, b) + size]
  }

  function Chunks(d: Bytes, n: nat, size: nat): seq<Bytes>
    requires |d| == Offset(size, n)
  {
    seq(n, b requires 0 <= b < n => Chunk(d, n, size, b))
  }

  lemma ChunkAt(d: Bytes, n: nat, size: nat, b: nat, k: nat)
    requires |d| == Offset(size, n) && b < n && k < size
    ensures Offset(size, b) + k < |d| && Chunks(d, n, size)[b][k] == d[Offset(size, b) + k]
  {
    Apart(size, b, n);
    assert Chunks(d, n, size)[b] == Chunk(d, n, size, b);
  }

  lemma ChunkStoreAt(d: Bytes, n: nat, size: nat, b: nat, k: nat, v: byte, c: nat)
    requires |d| == Offset(size, n) && b < n && k < size && Offset(size, b) + k < |d| && c < n
    ensures Chunk(d[Offset(size, b) + k := v], n, size, c) ==
      if c == b then Chunk(d, n, size, b)[k := v] else Chunk(d, n, size, c)
  {
    Apart(size, c, n);
    var o, p := Offset(size, b) + k, Offset(size, c);
    if c < b { Apart(size, c, b); } else if c > b { Apart(size, b, c); }
    assert c != b ==> o < p || p + size <= o;
    assert forall x :: p <= x < p + size ==> d[o := v][x] == if x == o then v else d[x];
  }

  /** Storing one byte changes one byte of one buffer. */
  lemma ChunkStore(d: Bytes, n: nat, size: nat, b: nat, k: nat, v: byte)
    requires |d| == Offset(size, n) && b < n && k < size && Offset(size, b) + k < |d|
    ensures |Chunks(d, n, size)[b]| == size
    ensures Chunks(d[Offset(size, b) + k := v], n, size) == Chunks(d, n, size)[b := Chunks(d, n, size)[b][k := v]]
  {
    forall c | 0 <= c < n
      ensures Chunk(d[Offset(size, b) + k := v], n, size, c) ==
                if c == b then Chunk(d, n, size, b)[k := v] else Chunk(d, n, size, c)
    {
      ChunkStoreAt(d, n, size, b, k, v, c);
    }
  }
}
