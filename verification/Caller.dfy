/**
 The calling side of a host function (src/host_function_caller.c): linking with its rollback,
 unlinking, sending a request and waiting for an answer.
 */
module Caller {
  import opened Basics
  import opened Os
  import opened Pipeline
  import opened FunctionTable

  const ERR_PIPE_REQ: int := 202
  const ERR_PIPE_CLOSE: int := 203
  const ROBOT_OK: int := 0

  /**
   _try_to_open_pipe of the caller. Unlike the receiver's it returns the positive ERR_PIPE_REQ
   when the pipe cannot be made, which its callers take for a descriptor.
   */
  method TryToOpenPipe(os: OperatingSystem, name: string) returns (fd: int)
    modifies os`open, os`paths, os`faults
    ensures Fault(old(os.faults), 0) ==>
      fd == 202 && os.open == old(os.open) && os.faults == From(old(os.faults), 1)
    ensures !Fault(old(os.faults), 0) ==> os.faults == From(old(os.faults), 2)
    ensures !Fault(old(os.faults), 0) && Fault(old(os.faults), 1) ==> fd == -1 && os.open == old(os.open)
    ensures !Fault(old(os.faults), 0) && !Fault(old(os.faults), 1) ==>
      fd >= 0 && fd !in old(os.open) && os.open == old(os.open)[fd := name]
  {
    hide Fault, From;
    FaultFrom(os.faults, 1, 0);
    ghost var f := os.faults;
    var ret, errno := os.Make(name);
    if ret == -1 && errno != Exists { return ERR_PIPE_REQ; }
    fd := os.Open(name);
    FromFrom(f, 1, 1);
  }

  /** Linking gets as far as the pipes. */
  predicate ReachesPipes(szArg: nat, szRet: nat, faults: seq<bool>) {
    !Fault(faults, 0) && szArg <= PIPE_BUF && szRet <= PIPE_BUF && !Fault(faults, 1)
  }

  /** Which call makes the response pipe: one earlier if the request pipe was never opened. */
  function ResponseCall(faults: seq<bool>): nat { if Fault(faults, 2) then 3 else 4 }

  /** Some open() on the way fails. */
  predicate OpenFails(faults: seq<bool>) {
    || (!Fault(faults, 2) && Fault(faults, 3))
    || (!Fault(faults, ResponseCall(faults)) && Fault(faults, ResponseCall(faults) + 1))
  }

  class HostFunctionCaller {
    const os: OperatingSystem
    const reqFd: int
    const resFd: int
    const szArg: nat
    const szRet: nat

    constructor (os: OperatingSystem, reqFd: int, resFd: int, szArg: nat, szRet: nat)
      ensures this.os == os && this.reqFd == reqFd && this.resFd == resFd && this.szArg == szArg && this.szRet == szRet
    {
      this.os, this.reqFd, this.resFd, this.szArg, this.szRet := os, reqFd, resFd, szArg, szRet;
    }

    /** It holds two new descriptors, open on the two pipes of the name. */
    ghost predicate Connected(before: map<int, string>, name: string)
      reads os
    {
      && reqFd != resFd && reqFd !in before && resFd !in before
      && os.open == before[reqFd := ReqPath(name)][resFd := ResPath(name)]
    }

    /** unlink_host_function: gives up at the first close that fails. */
    method Unlink(bad: set<int>) returns (ret: int)
      modifies os`open
      ensures ret == 0 <==>
        reqFd in old(os.open) && resFd in old(os.open) && reqFd != resFd && reqFd !in bad && resFd !in bad
      ensures ret == 0 || ret == 203
      ensures os.open == old(os.open) - if reqFd in old(os.open) && reqFd !in bad then {reqFd, resFd} else {reqFd}
    {
      ret := os.CloseReporting(reqFd, bad);
      if ret != 0 { return ERR_PIPE_CLOSE; }
      ret := os.CloseReporting(resFd, bad);
      assert os.open == old(os.open) - {reqFd, resFd};
      if ret != 0 { return ERR_PIPE_CLOSE; }
      return ROBOT_OK;
    }
  }

  /**
   link_host_function. The caller returned is connected exactly when both pipes could be made
   or were there; otherwise it was returned all the same, with 202 for a descriptor. A failed
   link leaves the descriptors as they were, unless it closes that 202.
   */
  method LinkHostFunction(os: OperatingSystem, name: string, szArg: nat, szRet: nat) returns (p: HostFunctionCaller?)
    modifies os`open, os`paths, os`faults
    ensures p == null <==> !ReachesPipes(szArg, szRet, old(os.faults)) || OpenFails(old(os.faults))
    ensures szArg > 4096 || szRet > 4096 || Fault(old(os.faults), 0) || Fault(old(os.faults), 1) ==> p == null
    ensures szArg <= 4096 && szRet <= 4096 && (forall i :: 0 <= i < 6 ==> !Fault(old(os.faults), i)) ==>
      p != null && p.Connected(old(os.open), name)
    ensures p != null && p.Connected(old(os.open), name) ==>
      && p.reqFd in os.open && p.resFd in os.open && os.open[p.reqFd] != os.open[p.resFd]
      && os.open[p.reqFd] == "/tmp/robot_ipc/" + name + "_req" && os.open[p.resFd] == "/tmp/robot_ipc/" + name + "_res"
    ensures p == null ==> os.open == if ReachesPipes(szArg, szRet, old(os.faults)) && Fault(old(os.faults), 2)
                                     then old(os.open) - {ERR_PIPE_REQ} else old(os.open)
    ensures p != null ==> fresh(p) && p.os == os && p.szArg == szArg && p.szRet == szRet
    ensures p != null ==>
      (p.Connected(old(os.open), name) <==>
        !Fault(old(os.faults), 2) && !Fault(old(os.faults), ResponseCall(old(os.faults))))
  {
    hide Fault, From, ReqPath, ResPath;
    ghost var f := os.faults;
    Shifts(f);
    PathNames(name);
    PathsDiffer(name, name);
    p := null;
    var unallocated := os.Fails();
    if unallocated || szArg > PIPE_BUF || szRet > PIPE_BUF { return; }
    var made, errno := os.Make(PIPE_NAME_PREFIX);
    if made != 0 && errno != Exists { return; }
    var reqFd := TryToOpenPipe(os, ReqPath(name));
    if reqFd < 0 { return; }
    var resFd := TryToOpenPipe(os, ResPath(name));
    if resFd < 0 {
      var _ := os.Close(reqFd);
      assert !Fault(f, 2) ==> os.open == old(os.open);
      return;
    }
    p := new HostFunctionCaller(os, reqFd, resFd, szArg, szRet);
    assert p.Connected(old(os.open), name) ==> reqFd in os.open && resFd in os.open;
  }

  /** The faults left after one, two, three or four calls. */
  lemma Shifts(f: seq<bool>)
    ensures From(From(f, 1), 1) == From(f, 2)
    ensures From(From(f, 2), 1) == From(f, 3) && From(From(f, 2), 2) == From(f, 4)
    ensures forall k: nat, i: nat :: Fault(From(f, k), i) == Fault(f, k + i)
  {
  }

  // ---- requests and answers ----

  /** The two pipes of a linked caller, which everybody else goes on using. */
  class Connection {
    const foo: Callback               // what the dispatchers of this name run
    var link: System
    var script: seq<seq<Move>>        // what the others do at each coming interruption

    ghost predicate Valid()
      reads this
    {
      Inv(link, foo)
    }

    constructor (foo: Callback, szArg: nat, szRet: nat, capacity: nat, dispatchers: nat, script: seq<seq<Move>>)
      requires 0 < szArg <= PIPE_BUF && szRet <= PIPE_BUF && Provides(foo, szRet)
      ensures Valid() && link == Initial(szArg, szRet, capacity, dispatchers) && this.foo == foo
      ensures this.script == script
    {
      this.foo, this.script := foo, script;
      link := Initial(szArg, szRet, capacity, dispatchers);
      new;
      RunInv(szArg, szRet, capacity, dispatchers, foo, []);
    }

    method Interfere()
      requires Valid()
      modifies this
      ensures Valid() && Reaches(old(link), link, foo) && link.szArg == old(link.szArg) && link.szRet == old(link.szRet)
      ensures script == if old(script) == [] then [] else old(script)[1..]
      ensures link == if old(script) == [] then old(link) else Run(old(link), foo, old(script)[0])
    {
      hide Next, Inv, Reaches, Run;
      NoMove(link, foo);
      RunNone(link, foo);
      if script == [] { return; }
      var moves := script[0];
      script := script[1..];
      for i := 0 to |moves|
        invariant Valid() && Reaches(old(link), link, foo) && link.szArg == old(link.szArg)
        invariant link.szRet == old(link.szRet)
        invariant script == old(script)[1..] && link == Run(old(link), foo, moves[..i])
      {
        assert moves[..i + 1] == moves[..i] + [moves[i]];
        RunOne(old(link), foo, moves[..i], moves[i]);
        OneMove(link, foo, moves[i]);
        ThenReaches(old(link), link, Next(link, foo, moves[i]), foo);
        NextInv(link, foo, moves[i]);
        NextFrame(link, foo, moves[i]);
        link := Next(link, foo, moves[i]);
      }
      assert moves[..|moves|] == moves;
    }

    /** What happens while a call of this connection cannot go on. */
    method Await(sending: bool)
      requires Valid() && if sending then |link.req| + link.szArg > link.capacity else link.szRet > 0 && link.res == []
      modifies this
      ensures Valid() && Reaches(old(link), link, foo) && link.szArg == old(link.szArg) && link.szRet == old(link.szRet)
      ensures script == if old(script) == [] then [] else old(script)[1..]
    {
      Interfere();
    }

    /**
     call_host_function. `at` is the state its write acts on. If the pipe never has room the
     call never returns.
     */
    method CallHostFunction(arg: array<byte>, fails: bool) returns (stuck: bool, ret: int, ghost at: System)
      requires Valid() && arg.Length >= link.szArg
      modifies this
      ensures Valid() && Reaches(old(link), at, foo) && link.szArg == old(link.szArg) && link.szRet == old(link.szRet)
      ensures !stuck ==> ret == if fails then -1 else 0
      ensures stuck ==> !fails && script == [] && |link.req| + link.szArg > link.capacity
      ensures stuck || ret != 0 ==> link == at
      ensures !stuck && ret == 0 ==>
        link == Next(at, foo, Call(arg[..link.szArg])) && link.sent == at.sent + [arg[..link.szArg]]
    {
      stuck, ret := false, 0;
      Interfere();
      while !fails && |link.req| + link.szArg > link.capacity && script != []
        invariant Valid() && Reaches(old(link), link, foo) && link.szArg == old(link.szArg)
        invariant link.szRet == old(link.szRet)
        decreases |script|
      {
        ghost var before := link;
        Await(true);
        ThenReaches(old(link), before, link, foo);
      }
      at := link;
      if fails { return false, -1, at; }
      if |link.req| + link.szArg > link.capacity { return true, 0, at; }
      NextInv(link, foo, Call(arg[..link.szArg]));
      link := link.(req := link.req + arg[..link.szArg], sent := link.sent + [arg[..link.szArg]]);
    }

    /**
     get_response_host_function: the next whole answer, at the front of the buffer. A function
     without answers has none to wait for, and succeeds at once.
     */
    method GetResponse(buf: array<byte>, fails: bool) returns (stuck: bool, ret: int, ghost at: System)
      requires Valid() && buf.Length >= link.szRet
      modifies this, buf
      ensures Valid() && Reaches(old(link), at, foo) && link.szArg == old(link.szArg) && link.szRet == old(link.szRet)
      ensures !stuck ==> ret == if fails then -1 else 0
      ensures stuck || ret != 0 || link.szRet == 0 ==> link == at && buf[..] == old(buf[..])
      ensures stuck ==> !fails && script == [] && link.szRet > 0 && link.res == []
      ensures !stuck && ret == 0 && link.szRet > 0 ==>
        && link == Next(at, foo, Collect) && |at.collected| < |at.answered|
        && buf[..link.szRet] == at.answered[|at.collected|] && link.collected == at.collected + [buf[..link.szRet]]
      ensures buf[link.szRet..] == old(buf[link.szRet..])
    {
      stuck, ret := false, 0;
      AwaitAnswer(fails);
      at := link;
      if fails { return false, -1, at; }
      if link.szRet == 0 { return false, 0, at; }
      if link.res == [] { return true, 0, at; }
      CollectFrame(link, foo);
      NextInv(link, foo, Collect);
      var read := link.res[..Min(|link.res|, link.szRet)];
      CopyTo(buf, read);
      link := link.(res := link.res[|read|..], collected := link.collected + [read]);
    }

    /** read blocks while the pipe is empty, unless it is asked for nothing. */
    method AwaitAnswer(fails: bool)
      requires Valid()
      modifies this
      ensures Valid() && Reaches(old(link), link, foo) && link.szArg == old(link.szArg) && link.szRet == old(link.szRet)
      ensures fails || link.szRet == 0 || link.res != [] || script == []
    {
      hide Inv, Reaches;
      Interfere();
      while !fails && link.szRet > 0 && link.res == [] && script != []
        invariant Valid() && Reaches(old(link), link, foo) && link.szArg == old(link.szArg)
        invariant link.szRet == old(link.szRet)
        decreases |script|
      {
        ghost var before := link;
        Await(false);
        ThenReaches(old(link), before, link, foo);
      }
    }
  }

  /** memcpy to the front of a buffer. */
  method CopyTo(buf: array<byte>, bytes: Bytes)
    requires |bytes| <= buf.Length
    modifies buf
    ensures buf[..|bytes|] == bytes && buf[|bytes|..] == old(buf[|bytes|..])
  {
    for i := 0 to |bytes|
      invariant buf[..i] == bytes[..i] && buf[|bytes|..] == old(buf[|bytes|..])
    {
      buf[i] := bytes[i];
    }
  }
}
