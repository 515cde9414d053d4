/**
 The byte formats of the Python layer (src/robot_ipc/robot_ipc.py): integers to and from
 bytes, the length-prefixed call frame, and what HostVariable hands to the shared variable.
 Objects and their codec are abstract; all that is asked of the codec is that decoding
 ignores whatever follows a complete encoding.
 */
module PythonFraming {
  import opened Basics

  datatype ByteOrder = Little | Big

  datatype Result<+T, +E> = Ok(value: T) | Err(error: E)

  datatype Error = ValueError | OverflowError | RuntimeError

  const SIZE_FIELD_BYTES: nat := 8

  // ---- int.to_bytes and int.from_bytes ----

  function Pow256(k: nat): (p: nat)
    ensures p > 0
  {
    if k == 0 then 1 else 256 * Pow256(k - 1)
  }

  function Reversed(b: Bytes): Bytes {
    seq(|b|, i requires 0 <= i < |b| => b[|b| - 1 - i])
  }

  /** The k lowest base-256 digits of n, lowest first. */
  function Digits(n: nat, k: nat): (b: Bytes)
    ensures |b| == k
  {
    if k == 0 then [] else [(n % 256) as byte] + Digits(n / 256, k - 1)
  }

  function Number(b: Bytes): nat {
    if b == [] then 0 else b[0] as nat + 256 * Number(b[1..])
  }

  function ToBytes(n: nat, k: nat, order: ByteOrder): Result<Bytes, Error> {
    if n >= Pow256(k) then Err(OverflowError)
    else Ok(if order.Little? then Digits(n, k) else Reversed(Digits(n, k)))
  }

  function FromBytes(b: Bytes, order: ByteOrder): nat {
    Number(if order.Little? then b else Reversed(b))
  }

  /** The order decides at which end the low digit is. */
  lemma ByteOrders(n: nat, k: nat)
    requires n < Pow256(k) && k > 0
    ensures ToBytes(n, k, Little).value[0] as nat == n % 256
    ensures ToBytes(n, k, Big).value[k - 1] as nat == n % 256
  {
  }

  lemma {:induction false} DigitsNumber(n: nat, k: nat)
    requires n < Pow256(k)
    ensures Number(Digits(n, k)) == n
  {
    if k > 0 {
      DigitsNumber(n / 256, k - 1);
      assert Digits(n, k)[1..] == Digits(n / 256, k - 1);
    }
  }

  lemma {:induction false} NumberDigits(b: Bytes)
    ensures Number(b) < Pow256(|b|) && Digits(Number(b), |b|) == b
  {
    if b != [] {
      NumberDigits(b[1..]);
      assert Number(b) / 256 == Number(b[1..]) && Number(b) % 256 == b[0] as nat;
    }
  }

  /** Every number that fits comes back from its k bytes, in either byte order. */
  lemma IntRoundTrip(n: nat, k: nat, order: ByteOrder)
    ensures ToBytes(n, k, order).Ok? <==> n < Pow256(k)
    ensures n < Pow256(k) ==> var b := ToBytes(n, k, order).value; |b| == k && FromBytes(b, order) == n
  {
    if n < Pow256(k) {
      DigitsNumber(n, k);
      assert Reversed(Reversed(Digits(n, k))) == Digits(n, k);
    }
  }

  /** And every k bytes come back from their number: the conversion is a bijection. */
  lemma BytesRoundTrip(b: Bytes, order: ByteOrder)
    ensures ToBytes(FromBytes(b, order), |b|, order) == Ok(b)
  {
    NumberDigits(b);
    NumberDigits(Reversed(b));
    assert Reversed(Reversed(b)) == b;
  }

  // ---- codecs ----

  /** Decoding a complete encoding gives the object back, whatever bytes follow it. */
  ghost predicate SelfDelimiting<O(!new)>(dumps: O -> Bytes, loads: Bytes -> Option<O>) {
    forall o, tail :: loads(dumps(o) + tail) == Some(o)
  }

  /** Python's b[..k] and b[k..], which clamp. */
  function Take(b: Bytes, k: nat): Bytes { if k <= |b| then b[..k] else b }
  function Drop(b: Bytes, k: nat): Bytes { if k <= |b| then b[k..] else [] }

  /** ctypes structures of one size: _encode_data_format copies them, _decode_data_format takes their prefix. */
  function StructLoads<O>(fromRaw: Bytes -> O, size: nat): Bytes -> Option<O> {
    raw => if |Take(raw, size)| < size then None else Some(fromRaw(Take(raw, size)))
  }

  /** Fixed-size structures are self-delimiting, so all that holds of pickles holds of them. */
  lemma StructsSelfDelimiting<O(!new)>(toRaw: O -> Bytes, fromRaw: Bytes -> O, size: nat)
    requires forall o :: |toRaw(o)| == size && fromRaw(toRaw(o)) == o
    ensures SelfDelimiting(toRaw, StructLoads(fromRaw, size))
  {
    forall o, tail ensures StructLoads(fromRaw, size)(toRaw(o) + tail) == Some(o) {
      assert Take(toRaw(o) + tail, size) == toRaw(o);
    }
  }

  /** std::fill and memcpy: a payload at the front of a buffer of zeros. */
  function Padded(payload: Bytes, size: nat): (b: Bytes)
    requires |payload| <= size
    ensures |b| == size
  {
    payload + Zeros(size - |payload|)
  }

  lemma PaddedMeans(payload: Bytes, size: nat, k: nat)
    requires |payload| <= size && k < size
    ensures Padded(payload, size)[k] == if k < |payload| then payload[k] else 0
  {
  }

  // ---- the call frame ----

  function EncodeCall<O>(dumps: O -> Bytes, args: O, kwargs: O, target: nat, order: ByteOrder): Result<Bytes, Error> {
    var a, k := dumps(args), dumps(kwargs);
    match ToBytes(|a|, SIZE_FIELD_BYTES, order)
    case Err(e) => Err(e)
    case Ok(field) =>
      var payload := field + a + k;
      if |payload| > target then Err(ValueError) else Ok(payload)
  }

  /** None is the exception of a failing loads. */
  function DecodeCall<O>(loads: Bytes -> Option<O>, raw: Bytes, order: ByteOrder): Option<(O, O)> {
    var size := FromBytes(Take(raw, SIZE_FIELD_BYTES), order);
    var end := SIZE_FIELD_BYTES + size;
    match loads(Drop(Take(raw, end), SIZE_FIELD_BYTES))
    case None => None
    case Some(args) =>
      match loads(Drop(raw, end))
      case None => None
      case Some(kwargs) => Some((args, kwargs))
  }

  /** Encoding fails exactly on frames that do not fit, or whose length field would overflow. */
  lemma EncodeCallFits<O>(dumps: O -> Bytes, args: O, kwargs: O, target: nat, order: ByteOrder)
    ensures EncodeCall(dumps, args, kwargs, target, order).Ok? <==>
      |dumps(args)| < Pow256(SIZE_FIELD_BYTES) && SIZE_FIELD_BYTES + |dumps(args)| + |dumps(kwargs)| <= target
    ensures EncodeCall(dumps, args, kwargs, target, order).Ok? ==>
      |EncodeCall(dumps, args, kwargs, target, order).value| == SIZE_FIELD_BYTES + |dumps(args)| + |dumps(kwargs)|
    ensures EncodeCall(dumps, args, kwargs, target, order).Ok? ==>
      |EncodeCall(dumps, args, kwargs, target, order).value| == 8 + |dumps(args)| + |dumps(kwargs)| <= target
    ensures EncodeCall(dumps, args, kwargs, target, order) == Err(OverflowError) <==>
      |dumps(args)| >= Pow256(SIZE_FIELD_BYTES)
  {
    IntRoundTrip(|dumps(args)|, SIZE_FIELD_BYTES, order);
  }

  /** Whatever call is encoded, its frame decodes to the same call, with anything behind it. */
  lemma CallRoundTrip<O(!new)>(
      dumps: O -> Bytes, loads: Bytes -> Option<O>, args: O, kwargs: O, target: nat, order: ByteOrder, tail: Bytes)
    requires SelfDelimiting(dumps, loads)
    requires EncodeCall(dumps, args, kwargs, target, order).Ok?
    ensures
      var frame := EncodeCall(dumps, args, kwargs, target, order).value;
      DecodeCall(loads, frame + tail, order) == Some((args, kwargs))
  {
    var a, k := dumps(args), dumps(kwargs);
    IntRoundTrip(|a|, SIZE_FIELD_BYTES, order);
    var field := ToBytes(|a|, SIZE_FIELD_BYTES, order).value;
    var raw := field + a + k + tail;
    assert Take(raw, SIZE_FIELD_BYTES) == field;
    assert Drop(Take(raw, SIZE_FIELD_BYTES + |a|), SIZE_FIELD_BYTES) == a + [];
    assert Drop(raw, SIZE_FIELD_BYTES + |a|) == k + tail;
  }

  // ---- HostVariable.write and PyHostVariable::write ----

  /** The C++ check: a size of 0 means the whole payload. The value is what gets copied. */
  function CoreWrite(payload: Bytes, opSize: nat, size: nat): Result<Bytes, Error> {
    var effective := if opSize == 0 then |payload| else opSize;
    if effective > size || |payload| < effective then Err(RuntimeError) else Ok(payload[..effective])
  }

  /** Exactly the bytes asked for are written, or none and it raises. */
  lemma CoreWriteMeans(payload: Bytes, opSize: nat, size: nat)
    ensures opSize == 0 ==> (CoreWrite(payload, opSize, size).Ok? <==> |payload| <= size)
    ensures opSize > 0 ==> (CoreWrite(payload, opSize, size).Ok? <==> opSize <= size && opSize <= |payload|)
    ensures CoreWrite(payload, opSize, size).Ok? ==>
      && CoreWrite(payload, opSize, size).value <= payload
      && |CoreWrite(payload, opSize, size).value| == if opSize == 0 then |payload| else opSize
    ensures CoreWrite(payload, opSize, size).Err? ==> CoreWrite(payload, opSize, size).error == RuntimeError
  {
  }

  function WriteBytes(payload: Bytes, dataLen: Option<nat>, maxSize: nat): Result<Bytes, Error> {
    var opSize := if dataLen.None? then |payload| else dataLen.value;
    if opSize > maxSize then Err(ValueError) else CoreWrite(payload, opSize, maxSize)
  }

  /**
   Exactly when a write hands over the whole object: it fits, and the length given is absent,
   zero or its true length. Any other length raises or cuts the object short.
   */
  lemma WholeObjectWritten(payload: Bytes, dataLen: Option<nat>, maxSize: nat)
    ensures WriteBytes(payload, dataLen, maxSize) == Ok(payload) <==>
      |payload| <= maxSize && (dataLen == None || dataLen == Some(0) || dataLen == Some(|payload|))
    ensures WriteBytes(payload, dataLen, maxSize).Ok? ==>
      WriteBytes(payload, dataLen, maxSize).value <= payload && |WriteBytes(payload, dataLen, maxSize).value| <= maxSize
  {
    if WriteBytes(payload, dataLen, maxSize).Ok? {
      var b := WriteBytes(payload, dataLen, maxSize).value;
      assert b == payload <==> |b| == |payload|;
    }
  }

  /** With a length given, exactly that many bytes are written, if there are as many and they fit. */
  lemma LengthWritten(payload: Bytes, k: nat, maxSize: nat)
    requires k > 0
    ensures WriteBytes(payload, Some(k), maxSize).Ok? <==> k <= maxSize && k <= |payload|
    ensures WriteBytes(payload, Some(k), maxSize).Ok? ==> WriteBytes(payload, Some(k), maxSize).value == payload[..k]
    ensures WriteBytes(payload, Some(k), maxSize) == Err(ValueError) <==> k > maxSize
  {
  }

  // ---- HostVariable.read and PyHostVariable::read ----

  /** A size of 0 means the whole variable. */
  function CoreRead(opSize: nat, size: nat): Result<nat, Error> {
    var effective := if opSize == 0 then size else opSize;
    if effective > size then Err(RuntimeError) else Ok(effective)
  }

  lemma CoreReadMeans(opSize: nat, size: nat)
    ensures CoreRead(0, size) == Ok(size)
    ensures 0 < opSize <= size ==> CoreRead(opSize, size) == Ok(opSize)
    ensures opSize > size ==> CoreRead(opSize, size) == Err(RuntimeError)
  {
  }

  function ReadSize(dataLen: Option<nat>, maxSize: nat): Result<nat, Error> {
    CoreRead(if dataLen.None? then maxSize else dataLen.value, maxSize)
  }
}
