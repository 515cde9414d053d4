/**
 The bit expressions of src/host_variable.c on the 64-bit lock word. Bits 4i..4i+3 hold
 the count of slot i, bits 60..63 the target. Each expression is proved to change exactly
 the part of the LockRecord it is meant to change, with no carry or borrow elsewhere.
 */
module FlagWord {

  // ---- the C expressions ----

  function TargetBits(flags: bv64): bv64 { flags >> 60 }

  function CountBits(flags: bv64, i: bv64): bv64
    requires i < 15
  {
    (flags >> (4 * i)) & 0xF
  }

  function SetCountBits(flags: bv64, i: bv64, tmp: bv64): bv64
    requires i < 15
  {
    (flags & !((0xF as bv64) << (4 * i))) | (tmp << (4 * i))
  }

  function FreeMask(flags: bv64, oldTarget: bv64): bv64
    requires oldTarget < 15
  {
    !(flags | (flags >> 1) | (flags >> 2) | (flags >> 3) | ((0xF as bv64) << (4 * oldTarget)))
    & 0x0111_1111_1111_1111
  }

  function ClaimBits(flags: bv64, target4: bv64): bv64
    requires target4 < 60
  {
    flags | ((0xF as bv64) << target4)
  }

  function PublishBits(flags: bv64, target4: bv64): bv64
    requires target4 < 60
  {
    ((target4 >> 2) << 60) | (flags & 0x0FFF_FFFF_FFFF_FFFF & !((0xF as bv64) << target4))
  }

  function BackOffBits(flags: bv64, target4: bv64): bv64
    requires target4 < 60
  {
    flags & !((0xF as bv64) << target4)
  }

  function InitialBits(n: bv64): bv64
    requires 2 <= n <= 15
  {
    (((1 as bv64) << ((15 - n) * 4)) - 1) << (n * 4)
  }

  // ---- 4-bit quantities as numbers ----

  /** The value of a 4-bit quantity. A table, because the solver converts bit-vectors badly. */
  function Value(b: bv64): (n: nat)
    requires b < 16
    ensures n < 16 && (b < 15 <==> n < 15) && (b == 0 <==> n == 0)
  {
    if b == 0 then 0 else if b == 1 then 1 else if b == 2 then 2 else if b == 3 then 3
    else if b == 4 then 4 else if b == 5 then 5 else if b == 6 then 6 else if b == 7 then 7
    else if b == 8 then 8 else if b == 9 then 9 else if b == 10 then 10 else if b == 11 then 11
    else if b == 12 then 12 else if b == 13 then 13 else if b == 14 then 14 else 15
  }

  /** The inverse of Value. */
  function Bits(n: nat): (b: bv64)
    requires n < 16
    ensures b < 16 && Value(b) == n
  {
    if n == 0 then 0 else if n == 1 then 1 else if n == 2 then 2 else if n == 3 then 3
    else if n == 4 then 4 else if n == 5 then 5 else if n == 6 then 6 else if n == 7 then 7
    else if n == 8 then 8 else if n == 9 then 9 else if n == 10 then 10 else if n == 11 then 11
    else if n == 12 then 12 else if n == 13 then 13 else if n == 14 then 14 else 15
  }

  lemma ValueOrder(a: bv64, b: bv64)
    requires a < 16 && b < 16
    ensures Value(a) < Value(b) <==> a < b
    ensures Value(a) == Value(b) <==> a == b
    ensures Bits(Value(a)) == a
  {
  }

  lemma ValueStep(a: bv64)
    requires a < 15
    ensures Value(a + 1) == Value(a) + 1
  {
  }

  // ---- what each expression does to every field of the word ----

  lemma FieldRange(flags: bv64, i: bv64)
    requires i < 15
    ensures CountBits(flags, i) < 16 && TargetBits(flags) < 16
  {
  }

  lemma SetCountFields(flags: bv64, i: bv64, tmp: bv64, j: bv64)
    requires i < 15 && j < 15 && tmp < 16
    ensures CountBits(SetCountBits(flags, i, tmp), j) == if i == j then tmp else CountBits(flags, j)
  {
    if i != j { SetCountElsewhere(flags, i, tmp, j); }
  }

  lemma SetCountElsewhere(flags: bv64, i: bv64, tmp: bv64, j: bv64)
    requires i < 15 && j < 15 && tmp < 16 && i != j
    ensures CountBits(SetCountBits(flags, i, tmp), j) == CountBits(flags, j)
  {
  }

  lemma SetCountTarget(flags: bv64, i: bv64, tmp: bv64)
    requires i < 15 && tmp < 16
    ensures TargetBits(SetCountBits(flags, i, tmp)) == TargetBits(flags)
  {
  }

  lemma ClaimFields(flags: bv64, i: bv64, j: bv64)
    requires i < 15 && j < 15
    ensures CountBits(ClaimBits(flags, 4 * i), j) == if i == j then 15 else CountBits(flags, j)
    ensures TargetBits(ClaimBits(flags, 4 * i)) == TargetBits(flags)
  {
  }

  lemma PublishFields(flags: bv64, i: bv64, j: bv64)
    requires i < 15 && j < 15
    ensures CountBits(PublishBits(flags, 4 * i), j) == if i == j then 0 else CountBits(flags, j)
    ensures TargetBits(PublishBits(flags, 4 * i)) == i
  {
  }

  lemma BackOffFields(flags: bv64, i: bv64, j: bv64)
    requires i < 15 && j < 15
    ensures CountBits(BackOffBits(flags, 4 * i), j) == if i == j then 0 else CountBits(flags, j)
    ensures TargetBits(BackOffBits(flags, 4 * i)) == TargetBits(flags)
  {
  }

  lemma InitialFields(n: bv64, j: bv64)
    requires 2 <= n <= 15 && j < 15
    ensures CountBits(InitialBits(n), j) == if j < n then 0 else 15
    ensures TargetBits(InitialBits(n)) == 0
  {
  }

  /** The free mask is the word with a 1 in each free slot and nothing else. */
  lemma FreeMaskFields(flags: bv64, t: bv64, i: bv64)
    requires t < 15 && i < 15
    ensures CountBits(FreeMask(flags, t), i) == if CountBits(flags, i) == 0 && i != t then 1 else 0
  {
  }

  lemma FreeMaskOnly(flags: bv64, t: bv64)
    requires t < 15
    ensures FreeMask(flags, t) & !(0x0111_1111_1111_1111 as bv64) == 0
  {
  }

  lemma SameFields(a: bv64, b: bv64)
    requires TargetBits(a) == TargetBits(b)
    requires forall i: bv64 :: i < 15 ==> CountBits(a, i) == CountBits(b, i)
    ensures a == b
  {
    assert CountBits(a, 0) == CountBits(b, 0) && CountBits(a, 1) == CountBits(b, 1);
    assert CountBits(a, 2) == CountBits(b, 2) && CountBits(a, 3) == CountBits(b, 3);
    assert CountBits(a, 4) == CountBits(b, 4) && CountBits(a, 5) == CountBits(b, 5);
    assert CountBits(a, 6) == CountBits(b, 6) && CountBits(a, 7) == CountBits(b, 7);
    assert CountBits(a, 8) == CountBits(b, 8) && CountBits(a, 9) == CountBits(b, 9);
    assert CountBits(a, 10) == CountBits(b, 10) && CountBits(a, 11) == CountBits(b, 11);
    assert CountBits(a, 12) == CountBits(b, 12) && CountBits(a, 13) == CountBits(b, 13);
    assert CountBits(a, 14) == CountBits(b, 14);
    SameNibbles(a, b);
  }

  lemma SameNibbles(a: bv64, b: bv64)
    requires CountBits(a, 0) == CountBits(b, 0) && CountBits(a, 1) == CountBits(b, 1)
    requires CountBits(a, 2) == CountBits(b, 2) && CountBits(a, 3) == CountBits(b, 3)
    requires CountBits(a, 4) == CountBits(b, 4) && CountBits(a, 5) == CountBits(b, 5)
    requires CountBits(a, 6) == CountBits(b, 6) && CountBits(a, 7) == CountBits(b, 7)
    requires CountBits(a, 8) == CountBits(b, 8) && CountBits(a, 9) == CountBits(b, 9)
    requires CountBits(a, 10) == CountBits(b, 10) && CountBits(a, 11) == CountBits(b, 11)
    requires CountBits(a, 12) == CountBits(b, 12) && CountBits(a, 13) == CountBits(b, 13)
    requires CountBits(a, 14) == CountBits(b, 14)
    requires TargetBits(a) == TargetBits(b)
    ensures a == b
  {
  }

  // ---- count trailing zeros ----

  predicate ClearBelow(x: bv64, r: bv64) {
    r < 64 && x & (((1 as bv64) << r) - 1) == 0
  }

  predicate LowestSet(x: bv64, r: bv64) {
    ClearBelow(x, r) && (x >> r) & 1 == 1
  }

  /** `__builtin_ctzll`: the index of the lowest set bit. */
  method CountTrailingZeros(x: bv64) returns (r: bv64)
    requires x != 0
    ensures LowestSet(x, r)
  {
    r := 0;
    NothingBelowZero(x);
    while (x >> r) & 1 != 1
      invariant ClearBelow(x, r)
      decreases 64 - r
    {
      NextBit(x, r);
      r := r + 1;
    }
  }

  lemma NothingBelowZero(x: bv64)
    ensures ClearBelow(x, 0)
  {
  }

  lemma NextBit(x: bv64, r: bv64)
    requires x != 0 && ClearBelow(x, r) && (x >> r) & 1 != 1
    ensures ClearBelow(x, r + 1) && 64 - (r + 1) < 64 - r
  {
  }

  lemma LowestInMask(m: bv64, r: bv64)
    requires m & !(0x0111_1111_1111_1111 as bv64) == 0 && LowestSet(m, r)
    ensures r < 60 && 4 * (r >> 2) == r && r >> 2 < 15
  {
  }

  lemma LowestSlot(m: bv64, i: bv64, j: bv64)
    requires m & !(0x0111_1111_1111_1111 as bv64) == 0 && i < 15 && LowestSet(m, 4 * i) && j < 15
    ensures CountBits(m, i) == 1 && (j < i ==> CountBits(m, j) == 0)
  {
  }

  lemma EmptyMask(i: bv64)
    requires i < 15
    ensures CountBits(0, i) == 0
  {
  }
}
