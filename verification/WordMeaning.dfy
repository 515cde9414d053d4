/**
 The packed word and the lock record are the same thing: Decode and Encode are inverse,
 and every update of src/host_variable.c commutes with Decode.
 */
module WordMeaning {
  import opened Basics
  import opened LockRecord
  import opened FlagWord

  function CountAt(flags: bv64, i: nat): nat
    requires i < SLOTS
  {
    Value(CountBits(flags, Bits(i)))
  }

  function Decode(flags: bv64): Locks {
    Locks(Value(TargetBits(flags)), seq(SLOTS, i requires 0 <= i < SLOTS => CountAt(flags, i)))
  }

  /** Writes the first n counts of l over a word whose target is already set. */
  function EncodeCounts(l: Locks, n: nat): bv64
    requires l.Fits() && n <= SLOTS
  {
    if n == 0 then Bits(l.target) << 60
    else SetCountBits(EncodeCounts(l, n - 1), Bits(n - 1), Bits(l.count[n - 1]))
  }

  function Encode(l: Locks): bv64
    requires l.Fits()
  {
    EncodeCounts(l, SLOTS)
  }

  lemma TargetAlone(t: bv64)
    requires t < 16
    ensures TargetBits(t << 60) == t
  {
  }

  /** A word that differs from another in one count decodes to a record that does. */
  lemma OneCountMeans(flags: bv64, after: bv64, i: bv64, v: bv64)
    requires i < 15 && v < 16
    requires forall j: bv64 :: j < 15 ==> CountBits(after, j) == if i == j then v else CountBits(flags, j)
    ensures Decode(after).count == Decode(flags).count[Value(i) := Value(v)]
  {
    forall j: nat | j < SLOTS
      ensures CountAt(after, j) == if j == Value(i) then Value(v) else CountAt(flags, j)
    {
      ValueOrder(i, Bits(j));
    }
  }

  lemma SetCountMeans(flags: bv64, i: bv64, tmp: bv64)
    requires i < 15 && tmp < 16
    ensures Decode(SetCountBits(flags, i, tmp)) == Decode(flags).WithCount(Value(i), Value(tmp))
  {
    forall j: bv64 | j < 15 { SetCountFields(flags, i, tmp, j); }
    SetCountTarget(flags, i, tmp);
    OneCountMeans(flags, SetCountBits(flags, i, tmp), i, tmp);
  }

  lemma {:induction false} EncodeCountsMeans(l: Locks, n: nat)
    requires l.Fits() && n <= SLOTS
    ensures Decode(EncodeCounts(l, n)).target == l.target
    ensures forall j :: 0 <= j < n ==> Decode(EncodeCounts(l, n)).count[j] == l.count[j]
  {
    if n == 0 {
      TargetAlone(Bits(l.target));
    } else {
      hide Decode, SetCountBits, TargetBits, CountBits;
      EncodeCountsMeans(l, n - 1);
      SetCountMeans(EncodeCounts(l, n - 1), Bits(n - 1), Bits(l.count[n - 1]));
    }
  }

  lemma DecodeEncode(l: Locks)
    requires l.Fits()
    ensures Decode(Encode(l)) == l
  {
    EncodeCountsMeans(l, SLOTS);
  }

  /** A compare-and-swap compares words; two words are equal exactly when their records are. */
  lemma DecodeInjective(a: bv64, b: bv64)
    ensures Decode(a) == Decode(b) <==> a == b
  {
    if Decode(a) == Decode(b) {
      ValueOrder(TargetBits(a), TargetBits(b));
      forall i: bv64 | i < 15 ensures CountBits(a, i) == CountBits(b, i) {
        SameCount(a, b, i);
      }
      SameFields(a, b);
    }
  }

  lemma SameCount(a: bv64, b: bv64, i: bv64)
    requires i < 15 && Decode(a).count == Decode(b).count
    ensures CountBits(a, i) == CountBits(b, i)
  {
    ValueOrder(i, i);
    assert Decode(a).count[Value(i)] == Decode(b).count[Value(i)];
    ValueOrder(CountBits(a, i), CountBits(b, i));
  }

  lemma EncodeDecode(flags: bv64)
    requires Decode(flags).Fits()
    ensures Encode(Decode(flags)) == flags
  {
    DecodeEncode(Decode(flags));
    DecodeInjective(Encode(Decode(flags)), flags);
  }

  lemma ClaimMeans(flags: bv64, i: bv64)
    requires i < 15
    ensures Decode(ClaimBits(flags, 4 * i)) == Decode(flags).WithCount(Value(i), WRITER)
  {
    forall j: bv64 | j < 15 { ClaimFields(flags, i, j); }
    ClaimFields(flags, i, i);
    OneCountMeans(flags, ClaimBits(flags, 4 * i), i, 15);
  }

  lemma PublishMeans(flags: bv64, i: bv64)
    requires i < 15
    ensures Decode(PublishBits(flags, 4 * i)) == Decode(flags).WithCount(Value(i), 0).(target := Value(i))
  {
    forall j: bv64 | j < 15 { PublishFields(flags, i, j); }
    PublishFields(flags, i, i);
    OneCountMeans(flags, PublishBits(flags, 4 * i), i, 0);
  }

  lemma BackOffMeans(flags: bv64, i: bv64)
    requires i < 15
    ensures Decode(BackOffBits(flags, 4 * i)) == Decode(flags).WithCount(Value(i), 0)
  {
    forall j: bv64 | j < 15 { BackOffFields(flags, i, j); }
    BackOffFields(flags, i, i);
    OneCountMeans(flags, BackOffBits(flags, 4 * i), i, 0);
  }

  lemma InitialMeans(n: nat)
    requires 2 <= n <= SLOTS
    ensures 2 <= Bits(n) <= 15 && Decode(InitialBits(Bits(n))) == InitialLocks(n)
  {
    var flags := InitialBits(Bits(n));
    forall j: nat | j < SLOTS
      ensures CountAt(flags, j) == if j < n then 0 else WRITER
    {
      InitialFields(Bits(n), Bits(j));
      ValueOrder(Bits(j), Bits(n));
    }
    InitialFields(Bits(n), 0);
  }

  /** The mask search finds exactly the lowest free slot of the record. */
  lemma {:induction false} FreeMaskMeans(flags: bv64, r: bv64)
    requires TargetBits(flags) < 15
    ensures FreeMask(flags, TargetBits(flags)) == 0 <==> FreeSlot(Decode(flags)).None?
    ensures LowestSet(FreeMask(flags, TargetBits(flags)), r) ==>
              r < 60 && 4 * (r >> 2) == r && r >> 2 < 15 && FreeSlot(Decode(flags)) == Some(Value(r >> 2))
  {
    forall j: bv64 | j < 15 { FreeMaskFields(flags, TargetBits(flags), j); }
    FreeMaskOnly(flags, TargetBits(flags));
    MaskMarksFree(flags, FreeMask(flags, TargetBits(flags)), r);
  }

  lemma MaskMarksFree(flags: bv64, mask: bv64, r: bv64)
    requires TargetBits(flags) < 15 && mask & !(0x0111_1111_1111_1111 as bv64) == 0
    requires forall j: bv64 :: j < 15 ==>
               CountBits(mask, j) == if CountBits(flags, j) == 0 && j != TargetBits(flags) then 1 else 0
    ensures mask == 0 <==> FreeSlot(Decode(flags)).None?
    ensures LowestSet(mask, r) ==>
              r < 60 && 4 * (r >> 2) == r && r >> 2 < 15 && FreeSlot(Decode(flags)) == Some(Value(r >> 2))
  {
    forall j: nat | j < SLOTS
      ensures CountBits(mask, Bits(j)) == if Decode(flags).Free(j) then 1 else 0
    {
      ValueOrder(Bits(j), TargetBits(flags));
    }
    MaskMeans(Decode(flags), mask, r);
  }

  lemma MaskMeans(l: Locks, mask: bv64, r: bv64)
    requires |l.count| == SLOTS && mask & !(0x0111_1111_1111_1111 as bv64) == 0
    requires forall j: nat :: j < SLOTS ==> CountBits(mask, Bits(j)) == if l.Free(j) then 1 else 0
    ensures mask == 0 <==> FreeSlot(l).None?
    ensures LowestSet(mask, r) ==>
              r < 60 && 4 * (r >> 2) == r && r >> 2 < 15 && FreeSlot(l) == Some(Value(r >> 2))
  {
    if LowestSet(mask, r) {
      LowestMeans(l, mask, r);
    }
    if mask == 0 {
      forall j: nat | j < SLOTS ensures !l.Free(j) { EmptyMask(Bits(j)); }
    } else {
      SomeBitSet(l, mask);
    }
  }

  lemma LowestMeans(l: Locks, mask: bv64, r: bv64)
    requires |l.count| == SLOTS && mask & !(0x0111_1111_1111_1111 as bv64) == 0 && LowestSet(mask, r)
    requires forall j: nat :: j < SLOTS ==> CountBits(mask, Bits(j)) == if l.Free(j) then 1 else 0
    ensures r < 60 && 4 * (r >> 2) == r && r >> 2 < 15 && FreeSlot(l) == Some(Value(r >> 2))
  {
    LowestInMask(mask, r);
    LowestIs(l, mask, r >> 2);
  }

  lemma LowestIs(l: Locks, mask: bv64, i: bv64)
    requires i < 15
    requires |l.count| == SLOTS && mask & !(0x0111_1111_1111_1111 as bv64) == 0 && LowestSet(mask, 4 * i)
    requires forall j: nat :: j < SLOTS ==> CountBits(mask, Bits(j)) == if l.Free(j) then 1 else 0
    ensures FreeSlot(l) == Some(Value(i))
  {
    LowestSlot(mask, i, i);
    ValueOrder(i, i);
    assert l.Free(Value(i));
    forall j: nat | j < Value(i) ensures !l.Free(j) {
      ValueOrder(Bits(j), i);
      LowestSlot(mask, i, Bits(j));
    }
  }

  lemma SomeBitSet(l: Locks, mask: bv64)
    requires |l.count| == SLOTS && mask & !(0x0111_1111_1111_1111 as bv64) == 0 && mask != 0
    requires forall j: nat :: j < SLOTS ==> CountBits(mask, Bits(j)) == if l.Free(j) then 1 else 0
    ensures FreeSlot(l).Some?
  {
    if FreeSlot(l).None? {
      forall i: bv64 | i < 15 ensures CountBits(mask, i) == CountBits(0, i) {
        ValueOrder(i, i);
        assert !l.Free(Value(i));
        EmptyMask(i);
      }
      NoTarget(mask);
      SameFields(mask, 0);
    }
  }

  lemma NoTarget(mask: bv64)
    requires mask & !(0x0111_1111_1111_1111 as bv64) == 0
    ensures TargetBits(mask) == TargetBits(0)
  {
  }

  // ---- the steps of the C code, on words that satisfy the protocol's invariant ----

  /** src/host_variable.c:208-212: the reader's new word, or none when the count is full. */
  function AcquireWord(flags: bv64): Option<bv64>
    requires TargetBits(flags) < 15
  {
    var target := TargetBits(flags);
    var tmp := CountBits(flags, target) + 1;
    if tmp == 0xF then None else Some(SetCountBits(flags, target, tmp))
  }

  /** src/host_variable.c:232-233: the word with one reader of buffer b fewer. */
  function ReleaseWord(flags: bv64, b: nat): bv64
    requires b < SLOTS
  {
    var tmp := CountBits(flags, Bits(b)) - 1;
    SetCountBits(flags, Bits(b), tmp)
  }

  /** src/host_variable.c:310-311: buffer b becomes the target, with no lock on it. */
  function PublishWord(flags: bv64, b: nat): (r: bv64)
    requires b < SLOTS
    ensures Decode(r) == Decode(flags).WithCount(b, 0).(target := b)
  {
    SmallShift(Bits(b));
    PublishMeans(flags, Bits(b));
    PublishBits(flags, 4 * Bits(b))
  }

  /** src/host_variable.c:304: the lock on buffer b is dropped. */
  function BackOffWord(flags: bv64, b: nat): (r: bv64)
    requires b < SLOTS
    ensures Decode(r) == Decode(flags).WithCount(b, 0)
  {
    SmallShift(Bits(b));
    BackOffMeans(flags, Bits(b));
    BackOffBits(flags, 4 * Bits(b))
  }

  lemma SmallShift(i: bv64)
    requires i < 15
    ensures 4 * i < 60
  {
  }

  lemma AcquireMeans(flags: bv64)
    requires Decode(flags).Fits() && Decode(flags).count[Decode(flags).target] < WRITER
    ensures TargetBits(flags) < 15
    ensures var l := Decode(flags);
      if l.count[l.target] + 1 == WRITER then AcquireWord(flags) == None
      else AcquireWord(flags).Some? && Decode(AcquireWord(flags).value) == l.WithCount(l.target, l.count[l.target] + 1)
  {
    var t := TargetBits(flags);
    ValueOrder(t, t);
    var c := CountBits(flags, t);
    FieldRange(flags, t);
    ValueOrder(c, 14);
    ValueStep(c);
    CountAfterAcquire(c);
    if c + 1 != 15 { SetCountMeans(flags, t, c + 1); }
  }

  lemma CountAfterAcquire(c: bv64)
    requires c < 15
    ensures c + 1 < 16 && (c + 1 == 15 <==> c == 14)
  {
  }

  lemma ReleaseMeans(flags: bv64, b: nat)
    requires b < SLOTS && 0 < Decode(flags).count[b] < WRITER
    ensures Decode(ReleaseWord(flags, b)) == Decode(flags).WithCount(b, Decode(flags).count[b] - 1)
  {
    var c := CountBits(flags, Bits(b));
    FieldRange(flags, Bits(b));
    CountAfterRelease(c);
    ValueStep(c - 1);
    SetCountMeans(flags, Bits(b), c - 1);
  }

  lemma CountAfterRelease(c: bv64)
    requires c < 16 && c != 0
    ensures c - 1 < 15 && (c - 1) + 1 == c
  {
  }
}
