/**
 Host functions of the Python layer: the C++ caller with its buffer and the dispatcher's
 callback (src/python_bindings.cpp:91-187), the Python callback around the user's function
 (src/robot_ipc/robot_ipc.py:159-175), and what they make of a whole pipeline.
 */
module PythonFunctions {
  import opened Basics
  import opened Pipeline
  import opened PythonFraming
  import opened Caller

  /** What Python code does: return an object, return None, or raise. */
  datatype Returns<+T> = Value(value: T) | PyNone | Raises

  // ---- the dispatcher's side ----

  /** `_callback`: decode the request, call the function, encode its result. */
  function PyCallback<R, O>(
      decode: Bytes -> Option<R>, f: R -> Returns<O>, dumps: O -> Bytes, maxRet: nat): Bytes -> Returns<Bytes>
  {
    raw =>
      match decode(raw)
      case None => Raises
      case Some(request) =>
        match f(request)
        case PyNone => PyNone
        case Raises => Raises
        case Value(o) => if |dumps(o)| > maxRet then Raises else Value(dumps(o))
  }

  /** dispatcher_callback: nothing for None, an exception or an answer that is too long. */
  function Bridge(callback: Bytes -> Returns<Bytes>, retSize: nat): Callback {
    request =>
      match callback(request)
      case Value(payload) => if retSize == 0 || |payload| > retSize then None else Some(Padded(payload, retSize))
      case _ => None
  }

  class CallbackBinding {
    const callback: Bytes -> Returns<Bytes>
    const argSize: nat
    const retSize: nat
    var response: Bytes               // the answer returned lives here

    constructor (callback: Bytes -> Returns<Bytes>, argSize: nat, retSize: nat)
      ensures this.callback == callback && this.argSize == argSize && this.retSize == retSize
      ensures response == Zeros(retSize)
    {
      this.callback, this.argSize, this.retSize := callback, argSize, retSize;
      response := Zeros(retSize);
    }

    method DispatcherCallback(args: Bytes) returns (ret: Option<Bytes>)
      requires |args| >= argSize
      modifies this
      ensures ret == Bridge(callback, retSize)(args[..argSize])
      ensures
        var payload := callback(args[..argSize]);
        && (ret.Some? <==> payload.Value? && retSize > 0 && |payload.value| <= retSize)
        && (ret.Some? ==> |ret.value| == retSize && payload.value <= ret.value)
        && (ret.Some? ==> forall k :: |payload.value| <= k < retSize ==> ret.value[k] == 0)
      ensures ret.Some? ==> ret.value == response && |response| == retSize
      ensures ret.None? ==> response == old(response)
    {
      match callback(args[..argSize])
      case PyNone => ret := None;
      case Raises => ret := None;
      case Value(payload) =>
        if retSize == 0 { return None; }
        if |payload| > retSize { return None; }
        response := Zeros(retSize);
        response := payload + response[|payload|..];
        assert response == Padded(payload, retSize);
        ret := Some(response);
    }
  }

  lemma BridgeProvides(callback: Bytes -> Returns<Bytes>, retSize: nat)
    ensures Provides(Bridge(callback, retSize), retSize)
  {
    forall q: Bytes ensures Bridge(callback, retSize)(q).Some? ==> |Bridge(callback, retSize)(q).value| == retSize {
      match callback(q)
      case Value(payload) => if |payload| <= retSize { assert |Padded(payload, retSize)| == retSize; }
      case _ =>
    }
  }

  // ---- the caller's side ----

  datatype Outcome = Returned | Raised | Blocked

  class PyHostFunctionCaller {
    const connection: Connection
    const buffer: array<byte>

    ghost predicate Valid()
      reads this, connection
    {
      && connection.Valid() && buffer.Length >= connection.link.szArg && buffer.Length >= connection.link.szRet
    }

    constructor (connection: Connection)
      requires connection.Valid()
      ensures Valid() && this.connection == connection && fresh(buffer)
    {
      this.connection := connection;
      var argSize, retSize := connection.link.szArg, connection.link.szRet;
      var size := if argSize > retSize then argSize else retSize;
      buffer := new byte[size](_ => 0);
    }

    /** call: the payload and zeros to the request size, whatever earlier calls left in the buffer. */
    method Call(payload: Bytes, fails: bool) returns (outcome: Outcome, ghost at: System)
      requires Valid()
      modifies connection, buffer
      ensures Valid() && Reaches(old(connection.link), at, connection.foo)
      ensures connection.link.szArg == old(connection.link.szArg) && connection.link.szRet == old(connection.link.szRet)
      ensures |payload| > connection.link.szArg ==>
        outcome == Raised && buffer[..] == old(buffer[..]) && connection.link == old(connection.link)
      ensures |payload| <= connection.link.szArg && outcome == Raised ==> fails
      ensures outcome == Returned ==>
        |payload| <= connection.link.szArg && connection.link.sent == at.sent + [Padded(payload, connection.link.szArg)]
      ensures outcome == Returned ==>
        connection.link == Next(at, connection.foo, Pipeline.Call(Padded(payload, connection.link.szArg)))
      ensures outcome == Returned ==>
        exists zeros: Bytes :: connection.link.sent == at.sent + [payload + zeros] &&
          |payload + zeros| == connection.link.szArg && forall k :: 0 <= k < |zeros| ==> zeros[k] == 0
      ensures outcome == Blocked ==>
        && !fails && connection.script == []
        && |connection.link.req| + connection.link.szArg > connection.link.capacity
      ensures outcome != Returned ==> connection.link == at
    {
      hide Inv, Next, Reaches;
      var argSize := connection.link.szArg;
      NoMove(connection.link, connection.foo);
      if |payload| > argSize { return Raised, connection.link; }
      CopyTo(buffer, Zeros(argSize));
      ghost var zeroed := buffer[..];
      assert zeroed[..argSize] == Zeros(argSize);
      CopyTo(buffer, payload);
      assert buffer[..] == payload + zeroed[|payload|..];
      assert forall k :: 0 <= k < argSize ==> zeroed[k] == zeroed[..argSize][k];
      assert zeroed[|payload|..argSize] == Zeros(argSize - |payload|);
      assert buffer[..argSize] == payload + zeroed[|payload|..argSize];
      var stuck, ret;
      stuck, ret, at := connection.CallHostFunction(buffer, fails);
      outcome := if stuck then Blocked else if ret != 0 then Raised else Returned;
    }

    /** get_response: the next whole answer, or no bytes if the function has none. */
    method GetResponse(fails: bool) returns (outcome: Outcome, bytes: Bytes, ghost at: System)
      requires Valid()
      modifies connection, buffer
      ensures Valid() && Reaches(old(connection.link), at, connection.foo)
      ensures connection.link.szArg == old(connection.link.szArg) && connection.link.szRet == old(connection.link.szRet)
      ensures outcome == Raised ==> fails
      ensures outcome != Returned ==> connection.link == at
      ensures connection.link.szRet == 0 ==> outcome != Blocked && bytes == [] && connection.link == at
      ensures outcome == Blocked ==> !fails && connection.script == [] && connection.link.res == []
      ensures outcome == Returned && connection.link.szRet > 0 ==>
        && connection.link == Next(at, connection.foo, Collect)
        && |at.collected| < |at.answered| && bytes == at.answered[|at.collected|]
        && connection.link.collected == at.collected + [bytes]
    {
      hide Inv, Next, Reaches;
      bytes := [];
      var stuck, ret;
      stuck, ret, at := connection.GetResponse(buffer, fails);
      if stuck { return Blocked, [], at; }
      if ret != 0 { return Raised, [], at; }
      outcome, bytes := Returned, buffer[..connection.link.szRet];
    }
  }

  // ---- remote calls through a whole pipeline ----

  /** What one call should bring back: its function's result, if there is one and it fits. */
  function Reply<R, O>(f: R -> Returns<O>, dumps: O -> Bytes, szRet: nat, call: R): seq<O> {
    match f(call)
    case Value(o) => if szRet == 0 || |dumps(o)| > szRet then [] else [o]
    case _ => []
  }

  function Replies<R, O>(f: R -> Returns<O>, dumps: O -> Bytes, szRet: nat, calls: seq<R>): seq<O> {
    if calls == [] then []
    else Replies(f, dumps, szRet, calls[..|calls| - 1]) + Reply(f, dumps, szRet, calls[|calls| - 1])
  }

  /** These messages decode, one by one, to these objects. */
  ghost predicate AllDecode<O>(decode: Bytes -> Option<O>, messages: seq<Bytes>, objects: seq<O>) {
    |messages| == |objects| && forall k :: 0 <= k < |messages| ==> decode(messages[k]) == Some(objects[k])
  }

  lemma {:induction false} AnswersDecode<R, O(!new)>(
      decode: Bytes -> Option<R>, f: R -> Returns<O>, dumps: O -> Bytes, loads: Bytes -> Option<O>, szRet: nat,
      sent: seq<Bytes>, calls: seq<R>)
    requires SelfDelimiting(dumps, loads) && AllDecode(decode, sent, calls)
    ensures
      var answers := Answers(Bridge(PyCallback(decode, f, dumps, szRet), szRet), szRet, sent);
      AllDecode(loads, answers, Replies(f, dumps, szRet, calls))
  {
    if sent != [] {
      var n := |sent| - 1;
      AnswersDecode(decode, f, dumps, loads, szRet, sent[..n], calls[..n]);
      assert decode(sent[n]) == Some(calls[n]);
      match f(calls[n])
      case Value(o) =>
        if 0 < szRet && |dumps(o)| <= szRet {
          assert Padded(dumps(o), szRet)[..szRet] == dumps(o) + Zeros(szRet - |dumps(o)|);
        }
      case _ =>
    }
  }

  /**
   Remote calls through one dispatcher, any number of callers and any interleaving: if the
   requests sent decode to `calls`, the answers callers get decode, in order, to the results
   of the user's function on those calls, without those that gave no answer.
   */
  lemma {:induction false} RemoteCalls<R, O(!new)>(
      decode: Bytes -> Option<R>, f: R -> Returns<O>, dumps: O -> Bytes, loads: Bytes -> Option<O>, szArg: nat,
      szRet: nat, capacity: nat, moves: seq<Move>, calls: seq<R>)
    requires SelfDelimiting(dumps, loads) && 0 < szArg <= PIPE_BUF && szRet <= PIPE_BUF
    requires
      var foo := Bridge(PyCallback(decode, f, dumps, szRet), szRet);
      AllDecode(decode, Run(Initial(szArg, szRet, capacity, 1), foo, moves).sent, calls)
    ensures var t := Run(Initial(szArg, szRet, capacity, 1), Bridge(PyCallback(decode, f, dumps, szRet), szRet), moves);
      var replies := Replies(f, dumps, szRet, calls);
      |t.collected| <= |replies| && AllDecode(loads, t.collected, replies[..|t.collected|])
  {
    var foo := Bridge(PyCallback(decode, f, dumps, szRet), szRet);
    BridgeProvides(PyCallback(decode, f, dumps, szRet), szRet);
    AnswersInOrder(szArg, szRet, capacity, foo, moves);
    AnswersDecode(decode, f, dumps, loads, szRet, Run(Initial(szArg, szRet, capacity, 1), foo, moves).sent, calls);
  }

  /** A call the pickling caller can send, and the request it sends. */
  predicate Sendable<O>(dumps: O -> Bytes, call: (O, O), szArg: nat, order: ByteOrder) {
    EncodeCall(dumps, call.0, call.1, szArg, order).Ok?
  }

  function Sent<O>(dumps: O -> Bytes, call: (O, O), szArg: nat, order: ByteOrder): Bytes
    requires Sendable(dumps, call, szArg, order)
  {
    EncodeCallFits(dumps, call.0, call.1, szArg, order);
    Padded(EncodeCall(dumps, call.0, call.1, szArg, order).value, szArg)
  }

  function AllSent<O>(dumps: O -> Bytes, calls: seq<(O, O)>, szArg: nat, order: ByteOrder): seq<Bytes>
    requires forall k :: 0 <= k < |calls| ==> Sendable(dumps, calls[k], szArg, order)
  {
    seq(|calls|, k requires 0 <= k < |calls| => Sent(dumps, calls[k], szArg, order))
  }

  /** Requests as the pickling caller sends them decode to the calls they were made for. */
  lemma CallsDecode<O(!new)>(
      dumps: O -> Bytes, loads: Bytes -> Option<O>, calls: seq<(O, O)>, szArg: nat, order: ByteOrder)
    requires SelfDelimiting(dumps, loads)
    requires forall k :: 0 <= k < |calls| ==> Sendable(dumps, calls[k], szArg, order)
    ensures AllDecode(raw => DecodeCall(loads, raw, order), AllSent(dumps, calls, szArg, order), calls)
  {
    forall k | 0 <= k < |calls|
      ensures DecodeCall(loads, Sent(dumps, calls[k], szArg, order), order) == Some(calls[k])
    {
      var payload := EncodeCall(dumps, calls[k].0, calls[k].1, szArg, order).value;
      EncodeCallFits(dumps, calls[k].0, calls[k].1, szArg, order);
      CallRoundTrip(dumps, loads, calls[k].0, calls[k].1, szArg, order, Zeros(szArg - |payload|));
    }
  }

  /**
   Pickled calls end to end: what comes back for calls made with args and kwargs is what the
   function returns on those args and kwargs; if it always returns something that fits, the
   k-th answer is the result of the k-th call.
   */
  lemma PickledCalls<O(!new)>(
      dumps: O -> Bytes, loads: Bytes -> Option<O>, f: ((O, O)) -> Returns<O>, calls: seq<(O, O)>,
      szArg: nat, szRet: nat, capacity: nat, order: ByteOrder, moves: seq<Move>)
    requires SelfDelimiting(dumps, loads) && 0 < szArg <= PIPE_BUF && 0 < szRet <= PIPE_BUF
    requires forall k :: 0 <= k < |calls| ==> Sendable(dumps, calls[k], szArg, order)
    requires forall k :: 0 <= k < |calls| ==> f(calls[k]).Value? && |dumps(f(calls[k]).value)| <= szRet
    requires
      var foo := Bridge(PyCallback(raw => DecodeCall(loads, raw, order), f, dumps, szRet), szRet);
      Run(Initial(szArg, szRet, capacity, 1), foo, moves).sent == AllSent(dumps, calls, szArg, order)
    ensures
      var foo := Bridge(PyCallback(raw => DecodeCall(loads, raw, order), f, dumps, szRet), szRet);
      var t := Run(Initial(szArg, szRet, capacity, 1), foo, moves);
      && |t.collected| <= |calls|
      && forall k :: 0 <= k < |t.collected| ==> loads(t.collected[k]) == Some(f(calls[k]).value)
  {
    var decode := raw => DecodeCall(loads, raw, order);
    CallsDecode(dumps, loads, calls, szArg, order);
    RemoteCalls(decode, f, dumps, loads, szArg, szRet, capacity, moves, calls);
    EveryCallReplies(f, dumps, szRet, calls);
  }

  lemma {:induction false} EveryCallReplies<R, O>(f: R -> Returns<O>, dumps: O -> Bytes, szRet: nat, calls: seq<R>)
    requires szRet > 0 && forall k :: 0 <= k < |calls| ==> f(calls[k]).Value? && |dumps(f(calls[k]).value)| <= szRet
    ensures |Replies(f, dumps, szRet, calls)| == |calls|
    ensures forall k :: 0 <= k < |calls| ==> Replies(f, dumps, szRet, calls)[k] == f(calls[k]).value
  {
    if calls != [] { EveryCallReplies(f, dumps, szRet, calls[..|calls| - 1]); }
  }
}
