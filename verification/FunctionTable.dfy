/**
 The function table of a dispatcher: creating it, attaching functions with rollback on failure,
 and tearing it down (src/host_function_receiver.c:57-243), over an operating system whose
 calls may fail at any point.
 */
module FunctionTable {
  import opened Basics
  import opened Os
  import opened Pipeline

  /** What a table slot calls: the adapter for plain functions, or the function given. */
  datatype Code = Adapter | Plain(id: nat)

  /** A slot as a reader of the table sees it: which pipes it serves, with what. */
  datatype Entry = Entry(
    reqPath: string, resPath: string, foo: Code, userData: Option<nat>, owned: bool, szArg: nat, szRet: nat)

  function ReqPath(name: string): string { PIPE_NAME_PREFIX + name + "_req" }
  function ResPath(name: string): string { PIPE_NAME_PREFIX + name + "_res" }

  /** The pipes of a name, which both ends spell alike. */
  lemma PathNames(name: string)
    ensures ReqPath(name) == "/tmp/robot_ipc/" + name + "_req" && ResPath(name) == "/tmp/robot_ipc/" + name + "_res"
  {
  }

  /** No request pipe is a response pipe, of whatever names, and different names have different pipes. */
  lemma PathsDiffer(a: string, b: string)
    ensures ReqPath(a) != ResPath(b)
    ensures ReqPath(a) == ReqPath(b) <==> a == b
    ensures ResPath(a) == ResPath(b) <==> a == b
  {
    var k := |PIPE_NAME_PREFIX|;
    assert ReqPath(a)[|ReqPath(a)| - 1] == 'q' && ResPath(b)[|ResPath(b)| - 1] == 's';
    assert ReqPath(a)[k..|ReqPath(a)| - 4] == a && ReqPath(b)[k..|ReqPath(b)| - 4] == b;
    assert ResPath(a)[k..|ResPath(a)| - 4] == a && ResPath(b)[k..|ResPath(b)| - 4] == b;
  }

  /** The result of attach_host_function_ex, from which of its system calls fail. */
  function AttachCode(szArg: nat, szRet: nat, faults: seq<bool>): int {
    if szArg > PIPE_BUF || szRet > PIPE_BUF then -5 else ConnectCode(faults)
  }

  /** What the result says: which check or call failed first. */
  lemma AttachCodeMeans(szArg: nat, szRet: nat, faults: seq<bool>)
    ensures AttachCode(szArg, szRet, faults) in {-5, -3, -2, -1, 0}
    ensures AttachCode(szArg, szRet, faults) == -5 <==> szArg > PIPE_BUF || szRet > PIPE_BUF
    ensures AttachCode(szArg, szRet, faults) == 0 <==>
      szArg <= PIPE_BUF && szRet <= PIPE_BUF && forall i :: 0 <= i < 6 ==> !Fault(faults, i)
    ensures AttachCode(szArg, szRet, faults) == -1 <==> szArg <= PIPE_BUF && szRet <= PIPE_BUF && FirstFault(faults, 0)
    ensures AttachCode(szArg, szRet, faults) == -2 <==>
      szArg <= PIPE_BUF && szRet <= PIPE_BUF && exists i :: 1 <= i <= 4 && FirstFault(faults, i)
    ensures AttachCode(szArg, szRet, faults) == -3 <==> szArg <= PIPE_BUF && szRet <= PIPE_BUF && FirstFault(faults, 5)
  {
    if Fault(faults, 1) && !Fault(faults, 0) { assert FirstFault(faults, 1); }
    else if Fault(faults, 2) && !Fault(faults, 0) { assert FirstFault(faults, 2); }
    else if Fault(faults, 3) && !Fault(faults, 0) { assert FirstFault(faults, 3); }
    else if Fault(faults, 4) && !Fault(faults, 0) { assert FirstFault(faults, 4); }
  }

  /** Call i fails, and none before it. */
  predicate FirstFault(faults: seq<bool>, i: nat) {
    Fault(faults, i) && forall j :: 0 <= j < i ==> !Fault(faults, j)
  }

  /** An attach makes every call up to the first that fails. */
  lemma ConnectCallsMeans(faults: seq<bool>)
    ensures 1 <= ConnectCalls(faults) <= 6 && forall i :: 0 <= i < ConnectCalls(faults) - 1 ==> !Fault(faults, i)
    ensures ConnectCalls(faults) < 6 ==> FirstFault(faults, ConnectCalls(faults) - 1)
  {
  }

  /** attach_host_function allocates a context first. */
  function LegacyCode(szArg: nat, szRet: nat, faults: seq<bool>): int {
    if Fault(faults, 0) then -4 else AttachCode(szArg, szRet, From(faults, 1))
  }

  function LegacyCalls(szArg: nat, szRet: nat, faults: seq<bool>): nat {
    if Fault(faults, 0) then 1 else 1 + AttachCalls(szArg, szRet, From(faults, 1))
  }

  lemma LegacyCodeMeans(szArg: nat, szRet: nat, faults: seq<bool>)
    ensures LegacyCode(szArg, szRet, faults) == -4 <==> Fault(faults, 0)
    ensures LegacyCode(szArg, szRet, faults) == -5 <==>
      !Fault(faults, 0) && (szArg > PIPE_BUF || szRet > PIPE_BUF)
    ensures LegacyCode(szArg, szRet, faults) == 0 <==>
      szArg <= PIPE_BUF && szRet <= PIPE_BUF && forall i :: 0 <= i < 7 ==> !Fault(faults, i)
    ensures -3 <= LegacyCode(szArg, szRet, faults) <= -1 ==> exists i :: 1 <= i <= 6 && FirstFault(faults, i)
  {
    hide AttachCode;
    var rest := From(faults, 1);
    AttachCodeMeans(szArg, szRet, rest);
    forall i: nat ensures Fault(rest, i) == Fault(faults, i + 1) { FaultFrom(faults, 1, i); }
    assert forall i :: 0 <= i < 6 ==> Fault(rest, i) == Fault(faults, i + 1);
    assert forall j :: 1 <= j < 7 ==> Fault(faults, j) == Fault(rest, j - 1);
    if !Fault(faults, 0) && -3 <= LegacyCode(szArg, szRet, faults) <= -1 {
      var i: nat :| i <= 5 && FirstFault(rest, i);
      assert forall j :: 1 <= j < i + 1 ==> Fault(faults, j) == Fault(rest, j - 1);
      assert FirstFault(faults, i + 1);
    }
  }

  /** mkdir, mkfifo, open, mkfifo, open, epoll_ctl. */
  function ConnectCode(faults: seq<bool>): int {
    if Fault(faults, 0) then -1
    else if Fault(faults, 1) || Fault(faults, 2) || Fault(faults, 3) || Fault(faults, 4) then -2
    else if Fault(faults, 5) then -3
    else 0
  }

  /** How many calls an attach makes before it returns: it stops at the first that fails. */
  function ConnectCalls(faults: seq<bool>): nat {
    if Fault(faults, 0) then 1
    else if PipeFails(From(faults, 1)) then 1 + PipeCalls(From(faults, 1))
    else 6
  }

  function PipeCalls(faults: seq<bool>): nat {
    if Fault(faults, 0) then 1 else if Fault(faults, 1) then 2 else if Fault(faults, 2) then 3 else 4
  }

  function AttachCalls(szArg: nat, szRet: nat, faults: seq<bool>): nat {
    if szArg > PIPE_BUF || szRet > PIPE_BUF then 0 else ConnectCalls(faults)
  }

  /** mkfifo, open, mkfifo, open. */
  predicate PipeFails(faults: seq<bool>) {
    Fault(faults, 0) || Fault(faults, 1) || Fault(faults, 2) || Fault(faults, 3)
  }

  predicate Distinct(fds: seq<int>) {
    forall i, j :: 0 <= i < j < |fds| ==> fds[i] != fds[j]
  }

  /** Every descriptor held is open and held once, and nothing else is open but the process's own. */
  ghost predicate DescriptorsOk(
      control: seq<int>, req: seq<int>, res: seq<int>, foreign: set<int>, open: map<int, string>)
  {
    && Distinct(control + req + res)
    && (forall fd :: fd in control + req + res ==> fd !in foreign)
    && (forall fd :: fd in open <==> fd in foreign || fd in control + req + res)
  }

  function ControlFds(epollFd: int, to: (int, int), from: (int, int)): seq<int> {
    [epollFd, to.0, to.1, from.0, from.1]
  }

  /** Exactly the descriptors fds have been opened beside those open before. */
  ghost predicate Opened(before: set<int>, open: map<int, string>, fds: seq<int>) {
    && Distinct(fds)
    && (forall fd :: fd in fds ==> fd !in before)
    && (forall fd :: fd in open <==> fd in before || fd in fds)
  }

  /** epoll watches the control pipe and each request pipe, each under its index. */
  ghost predicate WatchOk(watch: map<int, int>, control: int, req: seq<int>) {
    && (forall fd :: fd in watch <==> fd == control || fd in req)
    && watch[control] == -1
    && (forall i :: 0 <= i < |req| ==> watch[req[i]] == i)
  }

  /** Slot i owns the block at p. */
  ghost predicate OwnsAt(owns: seq<bool>, data: seq<Option<nat>>, i: int, p: nat) {
    0 <= i < |owns| && i < |data| && owns[i] && data[i] == Some(p)
  }

  /** Each owned context is live and owned by one slot, and nothing else is allocated but the process's own. */
  ghost predicate ContextsOk(owns: seq<bool>, data: seq<Option<nat>>, alien: set<nat>, heap: map<nat, nat>) {
    && |owns| == |data|
    && (forall i :: 0 <= i < |owns| && owns[i] ==> data[i].Some? && data[i].value !in alien)
    && (forall i, j :: 0 <= i < j < |owns| && owns[i] && owns[j] ==> data[i] != data[j])
    && (forall p :: p in heap <==> p in alien || exists i :: OwnsAt(owns, data, i, p))
  }

  class HostFunctionDispatcher {
    const os: OperatingSystem
    const capacity: nat
    const epollFd: int
    const toDaemonFd: (int, int)
    const fromDaemonFd: (int, int)
    var watch: map<int, int>              // the epoll instance: descriptor to data word
    var cntFunc: nat
    const reqFd: array<int>
    const resFd: array<int>
    const foo: array<Code>
    const fooUserData: array<Option<nat>>
    const fooOwnsUserData: array<bool>
    const szArg: array<nat>
    const szRet: array<nat>

    ghost const foreign: set<int>         // descriptors of the rest of the process
    ghost var alien: set<nat>             // memory of the rest of the process

    ghost predicate Shaped()
      reads this
    {
      && capacity == reqFd.Length == resFd.Length == foo.Length == fooUserData.Length == fooOwnsUserData.Length
      && capacity == szArg.Length == szRet.Length
      && reqFd != resFd && szArg != szRet && cntFunc <= capacity
    }

    ghost function Control(): seq<int>
    {
      ControlFds(epollFd, toDaemonFd, fromDaemonFd)
    }

    ghost predicate Valid()
      reads this, os, reqFd, resFd, fooUserData, fooOwnsUserData
    {
      && Shaped()
      && DescriptorsOk(Control(), reqFd[..cntFunc], resFd[..cntFunc], foreign, os.open)
      && WatchOk(watch, toDaemonFd.0, reqFd[..cntFunc])
      && ContextsOk(fooOwnsUserData[..cntFunc], fooUserData[..cntFunc], alien, os.heap)
    }

    /** Slot i of the table. */
    ghost function At(i: nat): Entry
      reads this, os, reqFd, resFd, foo, fooUserData, fooOwnsUserData, szArg, szRet
      requires Shaped() && i < cntFunc
    {
      Entry(os.PathOf(reqFd[i]), os.PathOf(resFd[i]), foo[i], fooUserData[i], fooOwnsUserData[i], szArg[i], szRet[i])
    }

    /** The struct and its arrays, once all system calls have succeeded. */
    constructor (
        os: OperatingSystem, n: nat, epollFd: int, toDaemonFd: (int, int), fromDaemonFd: (int, int),
        ghost foreign: set<int>)
      requires Opened(foreign, os.open, ControlFds(epollFd, toDaemonFd, fromDaemonFd))
      ensures Valid() && cntFunc == 0
      ensures fresh(reqFd) && fresh(resFd) && fresh(foo) && fresh(fooUserData) && fresh(fooOwnsUserData)
      ensures fresh(szArg) && fresh(szRet)
      ensures this.os == os && capacity == n && alien == os.heap.Keys && this.foreign == foreign
    {
      this.os, capacity := os, n;
      this.epollFd, this.toDaemonFd, this.fromDaemonFd := epollFd, toDaemonFd, fromDaemonFd;
      watch, cntFunc := map[toDaemonFd.0 := -1], 0;
      reqFd, resFd := new int[n], new int[n];
      foo, fooUserData, fooOwnsUserData := new Code[n](_ => Adapter), new Option<nat>[n](_ => None), new bool[n];
      szArg, szRet := new nat[n], new nat[n];
      this.foreign := foreign;
      alien := os.heap.Keys;
      new;
      assert Control() + reqFd[..0] + resFd[..0] == Control();
    }

    /** _try_to_open_pipe. */
    method TryToOpenPipe(name: string) returns (fd: int)
      modifies os`open, os`paths, os`faults
      ensures if Fault(old(os.faults), 0) || Fault(old(os.faults), 1) then fd == -1 && os.open == old(os.open)
              else fd >= 0 && fd !in old(os.open) && os.open == old(os.open)[fd := name]
      ensures os.faults == From(old(os.faults), if Fault(old(os.faults), 0) then 1 else 2)
      ensures fd >= 0 ==> os.paths == old(os.paths) + {name}
    {
      var ret, errno := os.Make(name);
      if ret == -1 && errno != Exists { return -1; }
      fd := os.Open(name);
    }

    /** The two pipes of a function: both descriptors, or neither. */
    method OpenPipes(id: nat, name: string) returns (ok: bool)
      requires id < reqFd.Length == resFd.Length && reqFd != resFd
      modifies os`open, os`paths, os`faults, reqFd, resFd
      ensures ok <==> !PipeFails(old(os.faults))
      ensures !ok ==> os.open == old(os.open)
      ensures os.faults == From(old(os.faults), PipeCalls(old(os.faults)))
      ensures ok ==> os.paths == old(os.paths) + {ReqPath(name), ResPath(name)}
      ensures ok ==> reqFd[id] !in old(os.open) && resFd[id] !in old(os.open) && reqFd[id] != resFd[id]
      ensures ok ==> os.open == old(os.open)[reqFd[id] := ReqPath(name)][resFd[id] := ResPath(name)]
      ensures forall i :: 0 <= i < reqFd.Length && i != id ==> reqFd[i] == old(reqFd[i]) && resFd[i] == old(resFd[i])
    {
      var fd := TryToOpenPipe(ReqPath(name));
      reqFd[id] := fd;
      if fd < 0 { return false; }
      FaultFrom(old(os.faults), 2, 0);
      FaultFrom(old(os.faults), 2, 1);
      fd := TryToOpenPipe(ResPath(name));
      resFd[id] := fd;
      if fd < 0 {
        var _ := os.Close(reqFd[id]);
        assert os.open == old(os.open);
        return false;
      }
      return true;
    }

    /** The system calls of an attach, with their rollback. */
    method Connect(id: nat, name: string) returns (ret: int)
      requires id < reqFd.Length == resFd.Length && reqFd != resFd
      modifies this`watch, os`open, os`paths, os`faults, reqFd, resFd
      ensures ret == ConnectCode(old(os.faults)) && os.faults == From(old(os.faults), ConnectCalls(old(os.faults)))
      ensures ret != 0 ==> os.open == old(os.open) && watch == old(watch)
      ensures ret == 0 ==> reqFd[id] !in old(os.open) && resFd[id] !in old(os.open) && reqFd[id] != resFd[id]
      ensures ret == 0 ==> os.open == old(os.open)[reqFd[id] := ReqPath(name)][resFd[id] := ResPath(name)]
      ensures ret == 0 ==> watch == old(watch)[reqFd[id] := id]
      ensures ret == 0 ==> os.paths == old(os.paths) + {PIPE_NAME_PREFIX, ReqPath(name), ResPath(name)}
      ensures forall i :: 0 <= i < reqFd.Length && i != id ==> reqFd[i] == old(reqFd[i]) && resFd[i] == old(resFd[i])
    {
      hide Fault, From, PipeFails, PipeCalls;
      PipeFaults(os.faults);
      AllCallsMade(os.faults);
      var made, errno := os.Make(PIPE_NAME_PREFIX);
      if made != 0 && errno != Exists { return -1; }
      var ok := OpenPipes(id, name);
      if !ok { return -2; }
      var unwatched := os.Fails();
      if unwatched {
        var _ := os.Close(resFd[id]);
        var _ := os.Close(reqFd[id]);
        assert os.open == old(os.open);
        return -3;
      }
      watch := watch[reqFd[id] := id];
      return 0;
    }

    /** The body of an attach: the next slot is filled and connected, or given back. */
    method Enter(name: string, code: Code, userData: Option<nat>, argSize: nat, retSize: nat) returns (ret: int)
      requires Shaped() && cntFunc < capacity
      modifies this`watch, this`cntFunc, os`open, os`paths, os`faults
      modifies reqFd, resFd, foo, fooUserData, fooOwnsUserData, szArg, szRet
      ensures ret == ConnectCode(old(os.faults)) && os.faults == From(old(os.faults), ConnectCalls(old(os.faults)))
      ensures cntFunc == old(cntFunc) + (if ret == 0 then 1 else 0)
      ensures ret != 0 ==> os.open == old(os.open) && watch == old(watch)
      ensures ret == 0 ==>
        && reqFd[cntFunc - 1] !in old(os.open) && resFd[cntFunc - 1] !in old(os.open)
        && reqFd[cntFunc - 1] != resFd[cntFunc - 1]
      ensures ret == 0 ==>
        os.open == old(os.open)[reqFd[cntFunc - 1] := ReqPath(name)][resFd[cntFunc - 1] := ResPath(name)]
      ensures ret == 0 ==> watch == old(watch)[reqFd[cntFunc - 1] := cntFunc - 1]
      ensures ret == 0 ==> os.paths == old(os.paths) + {PIPE_NAME_PREFIX, ReqPath(name), ResPath(name)}
      ensures forall i :: 0 <= i < old(cntFunc) ==> reqFd[i] == old(reqFd[i]) && resFd[i] == old(resFd[i])
      ensures foo[..] == old(foo[..])[old(cntFunc) := code]
      ensures szArg[..] == old(szArg[..])[old(cntFunc) := argSize]
      ensures szRet[..] == old(szRet[..])[old(cntFunc) := retSize]
      ensures fooUserData[..] == old(fooUserData[..])[old(cntFunc) := userData]
      ensures fooOwnsUserData[..] == old(fooOwnsUserData[..])[old(cntFunc) := false]
    {
      hide ConnectCode, ConnectCalls, ReqPath, ResPath;
      var id := cntFunc;
      cntFunc := cntFunc + 1;
      szArg[id], szRet[id], foo[id], fooUserData[id], fooOwnsUserData[id] := argSize, retSize, code, userData, false;
      ret := Connect(id, name);
      if ret != 0 { cntFunc := cntFunc - 1; }
    }

    /** attach_host_function_ex: one more slot, or everything as before. */
    method AttachHostFunctionEx(
        name: string, code: Code, userData: Option<nat>, argSize: nat, retSize: nat) returns (ret: int)
      requires Valid()
      requires argSize <= PIPE_BUF && retSize <= PIPE_BUF ==> cntFunc < capacity
      modifies this`watch, this`cntFunc, os`open, os`paths, os`faults
      modifies reqFd, resFd, foo, fooUserData, fooOwnsUserData, szArg, szRet
      ensures Valid()
      ensures ret == AttachCode(argSize, retSize, old(os.faults))
      ensures ret == -5 <==> argSize > 4096 || retSize > 4096
      ensures ret == 0 <==>
        argSize <= PIPE_BUF && retSize <= PIPE_BUF && forall i :: 0 <= i < 6 ==> !Fault(old(os.faults), i)
      ensures ret == -1 ==> FirstFault(old(os.faults), 0)
      ensures ret == -2 ==> exists i :: 1 <= i <= 4 && FirstFault(old(os.faults), i)
      ensures ret == -3 ==> FirstFault(old(os.faults), 5)
      ensures ret in {-5, -3, -2, -1, 0}
      ensures os.faults == From(old(os.faults), AttachCalls(argSize, retSize, old(os.faults)))
      ensures ret != 0 ==> cntFunc == old(cntFunc) && os.open == old(os.open) && watch == old(watch)
      ensures ret == 0 ==> cntFunc == old(cntFunc) + 1 && Keeps(old(os.open), os.open)
      ensures ret == 0 ==>
        At(old(cntFunc)) == Entry(ReqPath(name), ResPath(name), code, userData, false, argSize, retSize)
      ensures ret == 0 ==> At(old(cntFunc)).reqPath == "/tmp/robot_ipc/" + name + "_req"
      ensures ret == 0 ==> At(old(cntFunc)).resPath == "/tmp/robot_ipc/" + name + "_res"
      ensures ret == 0 ==> os.paths == old(os.paths) + {PIPE_NAME_PREFIX, ReqPath(name), ResPath(name)}
      ensures forall i :: 0 <= i < old(cntFunc) ==> At(i) == old(At(i))
    {
      hide ConnectCode, ConnectCalls, DescriptorsOk, WatchOk, ContextsOk, ReqPath, ResPath, FirstFault, Fault, From;
      AttachCodeMeans(argSize, retSize, os.faults);
      FromNone(os.faults);
      PathNames(name);
      if argSize > PIPE_BUF || retSize > PIPE_BUF { return -5; }
      ghost var req, res := reqFd[..cntFunc], resFd[..cntFunc];
      ghost var owns, data := fooOwnsUserData[..cntFunc], fooUserData[..cntFunc];
      HeldAreOpen(Control(), req, res, foreign, os.open);
      ghost var id := cntFunc;
      ret := Enter(name, code, userData, argSize, retSize);
      assert reqFd[..id] == req && resFd[..id] == res && fooOwnsUserData[..id] == owns && fooUserData[..id] == data;
      if ret == 0 {
        assert reqFd[..cntFunc] == req + [reqFd[id]] && resFd[..cntFunc] == res + [resFd[id]];
        assert fooOwnsUserData[..cntFunc] == owns + [false] && fooUserData[..cntFunc] == data + [userData];
        SlotAdded(Control(), req, res, foreign, old(os.open), reqFd[id], resFd[id], name, old(watch));
        ContextsGrow(owns, data, alien, os.heap, userData);
      }
    }

    /** malloc of a context, the caller's until a slot takes it. */
    method Borrow(callee: nat) returns (ctx: Option<nat>)
      requires Valid()
      modifies this`alien, os`heap, os`faults
      ensures Valid() && os.faults == From(old(os.faults), 1)
      ensures ctx.None? <==> Fault(old(os.faults), 0)
      ensures ctx.None? ==> os.heap == old(os.heap) && alien == old(alien)
      ensures ctx.Some? ==> ctx.value !in old(os.heap) && ctx.value !in old(alien)
      ensures ctx.Some? ==> os.heap == old(os.heap)[ctx.value := callee] && alien == old(alien) + {ctx.value}
    {
      hide DescriptorsOk, WatchOk, ContextsOk, Fault, From;
      ghost var owns, data := fooOwnsUserData[..cntFunc], fooUserData[..cntFunc];
      ctx := os.Malloc(callee);
      if ctx.Some? {
        ContextsLend(owns, data, alien, old(os.heap), ctx.value, callee);
        alien := alien + {ctx.value};
      }
    }

    /** A block of the caller's is freed. */
    method GiveBack(p: nat)
      requires Valid() && p in alien && p in os.heap
      modifies this`alien, os`heap
      ensures Valid() && alien == old(alien) - {p} && os.heap == old(os.heap) - {p}
    {
      hide DescriptorsOk, WatchOk;
      alien := alien - {p};
      os.Free(p);
    }

    /** The last slot takes over a block of the caller's. */
    method Take(p: nat)
      requires Valid() && p in alien && p in os.heap && cntFunc > 0
      requires fooUserData[cntFunc - 1] == Some(p) && !fooOwnsUserData[cntFunc - 1]
      modifies this`alien, fooOwnsUserData
      ensures Valid() && alien == old(alien) - {p}
      ensures fooOwnsUserData[..] == old(fooOwnsUserData[..])[cntFunc - 1 := true]
    {
      hide DescriptorsOk, WatchOk, ContextsOk;
      var id := cntFunc - 1;
      ghost var owns, data := fooOwnsUserData[..id], fooUserData[..id];
      assert fooOwnsUserData[..cntFunc] == owns + [false] && fooUserData[..cntFunc] == data + [Some(p)];
      fooOwnsUserData[id] := true;
      alien := alien - {p};
      assert fooOwnsUserData[..cntFunc] == owns + [true] && old(alien) == alien + {p};
      ContextsTake(owns, data, alien, os.heap, p);
    }

    /** The rest of attach_host_function: the context goes to the new slot, or is freed again. */
    method AttachContext(name: string, ctx: nat, argSize: nat, retSize: nat) returns (ret: int)
      requires Valid() && ctx in alien && ctx in os.heap
      requires argSize <= PIPE_BUF && retSize <= PIPE_BUF ==> cntFunc < capacity
      modifies this`watch, this`cntFunc, this`alien, os`open, os`paths, os`faults, os`heap
      modifies reqFd, resFd, foo, fooUserData, fooOwnsUserData, szArg, szRet
      ensures Valid() && alien == old(alien) - {ctx}
      ensures ret == AttachCode(argSize, retSize, old(os.faults))
      ensures os.faults == From(old(os.faults), AttachCalls(argSize, retSize, old(os.faults)))
      ensures ret != 0 ==> cntFunc == old(cntFunc) && os.open == old(os.open) && watch == old(watch)
      ensures ret == 0 ==> cntFunc == old(cntFunc) + 1 && Keeps(old(os.open), os.open)
      ensures os.heap == if ret == 0 then old(os.heap) else old(os.heap) - {ctx}
      ensures ret == 0 ==>
        At(old(cntFunc)) == Entry(ReqPath(name), ResPath(name), Adapter, Some(ctx), true, argSize, retSize)
      ensures forall i :: 0 <= i < old(cntFunc) ==> At(i) == old(At(i))
    {
      hide DescriptorsOk, WatchOk, ContextsOk, ReqPath, ResPath, AttachCode, AttachCalls, Fault, From, Keeps;
      ret := AttachHostFunctionEx(name, Adapter, Some(ctx), argSize, retSize);
      if ret != 0 {
        GiveBack(ctx);
      } else {
        assert At(cntFunc - 1).owned == false && At(cntFunc - 1).userData == Some(ctx);
        Take(ctx);
      }
    }

    /** attach_host_function: the table owns the context it allocates, or it is freed again. */
    method AttachHostFunction(name: string, callee: nat, argSize: nat, retSize: nat) returns (ret: int)
      requires Valid()
      requires !Fault(os.faults, 0) && argSize <= PIPE_BUF && retSize <= PIPE_BUF ==> cntFunc < capacity
      modifies this`watch, this`cntFunc, this`alien, os`open, os`paths, os`faults, os`heap
      modifies reqFd, resFd, foo, fooUserData, fooOwnsUserData, szArg, szRet
      ensures Valid() && alien == old(alien)
      ensures ret == LegacyCode(argSize, retSize, old(os.faults))
      ensures ret == -4 <==> Fault(old(os.faults), 0)
      ensures ret == -5 <==> !Fault(old(os.faults), 0) && (argSize > 4096 || retSize > 4096)
      ensures ret == 0 <==>
        argSize <= PIPE_BUF && retSize <= PIPE_BUF && forall i :: 0 <= i < 7 ==> !Fault(old(os.faults), i)
      ensures -3 <= ret <= -1 ==> exists i :: 1 <= i <= 6 && FirstFault(old(os.faults), i)
      ensures os.faults == From(old(os.faults), LegacyCalls(argSize, retSize, old(os.faults)))
      ensures ret != 0 ==>
        cntFunc == old(cntFunc) && os.open == old(os.open) && watch == old(watch) && os.heap == old(os.heap)
      ensures ret == 0 ==> cntFunc == old(cntFunc) + 1 && Keeps(old(os.open), os.open)
      ensures ret == 0 ==>
        var e := At(old(cntFunc)); e == Entry(ReqPath(name), ResPath(name), Adapter, e.userData, true, argSize, retSize)
      ensures ret == 0 ==>
        var p := fooUserData[old(cntFunc)];
        p.Some? && p.value !in old(os.heap) && os.heap == old(os.heap)[p.value := callee]
      ensures forall i :: 0 <= i < old(cntFunc) ==> At(i) == old(At(i))
    {
      hide DescriptorsOk, WatchOk, ContextsOk, ReqPath, ResPath, AttachCode, AttachCalls, Fault, From, Keeps;
      FromFrom(os.faults, 1, AttachCalls(argSize, retSize, From(os.faults, 1)));
      LegacyCodeMeans(argSize, retSize, os.faults);
      var ctx := Borrow(callee);
      if ctx.None? { return -4; }
      assert forall i :: 0 <= i < cntFunc ==> At(i) == old(At(i));
      ret := AttachContext(name, ctx.value, argSize, retSize);
    }

    /**
     delete_host_function_dispatcher, once the thread has acknowledged: everything held is
     released once. The result is the acknowledgement, or -1 if some close reports an error; a
     descriptor closed twice would be one, and a block freed twice would break Free's precondition.
     */
    method Delete(ack: int, bad: set<int>) returns (ret: int)
      requires Valid()
      modifies os`open, os`heap
      ensures ret == if AnyBad(Control() + reqFd[..cntFunc] + resFd[..cntFunc], bad) then -1 else ack
      ensures os.open.Keys == foreign && forall fd :: fd in foreign ==> os.open[fd] == old(os.open[fd])
      ensures os.heap.Keys == alien && forall p :: p in alien ==> os.heap[p] == old(os.heap[p])
    {
      hide DescriptorsOk, WatchOk, ContextsOk, AnyBad;
      HeldAreOpen(Control(), reqFd[..cntFunc], resFd[..cntFunc], foreign, os.open);
      ret := ack;
      var fds := [epollFd, toDaemonFd.0, toDaemonFd.1, fromDaemonFd.0, fromDaemonFd.1];
      NoneBad(bad);
      for i := 0 to 5
        invariant DescriptorsOk(fds[i..], reqFd[..cntFunc], resFd[..cntFunc], foreign, os.open)
        invariant forall fd :: fd in os.open ==> fd in old(os.open) && os.open[fd] == old(os.open[fd])
        invariant os.heap == old(os.heap) && ret == if AnyBad(fds[..i], bad) then -1 else ack
      {
        ClosedControl(fds[i..], reqFd[..cntFunc], resFd[..cntFunc], foreign, os.open);
        var closed := os.CloseReporting(fds[i], bad);
        ret := OrInto(ret, closed);
        OneMoreBad(fds, i, bad);
        assert fds[i..][1..] == fds[i + 1..];
      }
      assert fds[..5] == fds == Control();
      for i := 0 to cntFunc
        invariant DescriptorsOk([], reqFd[i..cntFunc], resFd[i..cntFunc], foreign, os.open)
        invariant ContextsOk(fooOwnsUserData[i..cntFunc], fooUserData[i..cntFunc], alien, os.heap)
        invariant forall fd :: fd in os.open ==> fd in old(os.open) && os.open[fd] == old(os.open[fd])
        invariant forall p :: p in os.heap ==> p in old(os.heap) && os.heap[p] == old(os.heap[p])
        invariant ret == if AnyBad(fds, bad) || AnyBad(reqFd[..i], bad) || AnyBad(resFd[..i], bad) then -1 else ack
      {
        var closed := CloseSlot(i, bad);
        ret := OrInto(ret, closed);
        OneMoreBad(reqFd[..], i, bad);
        OneMoreBad(resFd[..], i, bad);
        assert reqFd[..][..i] == reqFd[..i] && reqFd[..][..i + 1] == reqFd[..i + 1];
        assert resFd[..][..i] == resFd[..i] && resFd[..][..i + 1] == resFd[..i + 1];
        ContextsSkip(fooOwnsUserData[i..cntFunc], fooUserData[i..cntFunc], alien, os.heap);
        assert fooOwnsUserData[i..cntFunc][1..] == fooOwnsUserData[i + 1..cntFunc];
        assert fooUserData[i..cntFunc][1..] == fooUserData[i + 1..cntFunc];
        if fooOwnsUserData[i] && fooUserData[i].Some? {
          os.Free(fooUserData[i].value);
        }
      }
      AllBad(fds, reqFd[..cntFunc], resFd[..cntFunc], bad);
      assert reqFd[cntFunc..cntFunc] == [] && resFd[cntFunc..cntFunc] == [];
      assert fooOwnsUserData[cntFunc..cntFunc] == [] && fooUserData[cntFunc..cntFunc] == [];
      NothingHeld(foreign, os.open, alien, os.heap);
    }

    /** Closes the two descriptors of slot i. */
    method CloseSlot(i: nat, bad: set<int>) returns (ret: int)
      requires Shaped() && i < cntFunc && DescriptorsOk([], reqFd[i..cntFunc], resFd[i..cntFunc], foreign, os.open)
      modifies os`open
      ensures ret == if reqFd[i] in bad || resFd[i] in bad then -1 else 0
      ensures DescriptorsOk([], reqFd[i + 1..cntFunc], resFd[i + 1..cntFunc], foreign, os.open)
      ensures os.open == old(os.open) - {reqFd[i], resFd[i]}
    {
      hide DescriptorsOk;
      ClosedSlot(reqFd[i..cntFunc], resFd[i..cntFunc], foreign, os.open);
      assert reqFd[i..cntFunc][1..] == reqFd[i + 1..cntFunc] && resFd[i..cntFunc][1..] == resFd[i + 1..cntFunc];
      ret := os.CloseReporting(reqFd[i], bad);
      var closed := os.CloseReporting(resFd[i], bad);
      ret := OrInto(ret, closed);
      assert os.open == old(os.open) - {reqFd[i], resFd[i]};
    }
  }

  /** Some close reports an error. */
  predicate AnyBad(fds: seq<int>, bad: set<int>) {
    exists i :: 0 <= i < |fds| && fds[i] in bad
  }

  lemma NoneBad(bad: set<int>)
    ensures !AnyBad([], bad)
  {
  }

  lemma OneMoreBad(fds: seq<int>, i: nat, bad: set<int>)
    requires i < |fds|
    ensures AnyBad(fds[..i + 1], bad) <==> AnyBad(fds[..i], bad) || fds[i] in bad
  {
    if AnyBad(fds[..i], bad) {
      var j :| 0 <= j < i && fds[..i][j] in bad;
      assert fds[..i + 1][j] in bad;
    }
    assert fds[..i + 1][i] == fds[i];
    if AnyBad(fds[..i + 1], bad) && fds[i] !in bad {
      var j :| 0 <= j < |fds[..i + 1]| && fds[..i + 1][j] in bad;
      assert fds[..i][j] in bad;
    }
  }

  lemma AllBad(a: seq<int>, b: seq<int>, c: seq<int>, bad: set<int>)
    ensures AnyBad(a + b + c, bad) <==> AnyBad(a, bad) || AnyBad(b, bad) || AnyBad(c, bad)
  {
    var all := a + b + c;
    assert forall i :: 0 <= i < |a| ==> all[i] == a[i];
    assert forall i :: 0 <= i < |b| ==> all[|a| + i] == b[i];
    assert forall i :: 0 <= i < |c| ==> all[|a| + |b| + i] == c[i];
  }

  /** C's ret |= x for an x that is 0 or -1. */
  function OrInto(ret: int, x: int): int
    requires x == 0 || x == -1
  {
    if x == 0 then ret else -1
  }

  predicate CreationFails(faults: seq<bool>) {
    Fault(faults, 0) || Fault(faults, 1) || Fault(faults, 2) ||
    Fault(faults, 3) || Fault(faults, 4) || Fault(faults, 5)
  }

  /** How many descriptors a failed creation leaves open: the rollback closes only the epoll one. */
  function Leaked(faults: seq<bool>): nat {
    if Fault(faults, 0) then 0 else if Fault(faults, 1) then 2 else 4
  }

  lemma CreationMeans(faults: seq<bool>)
    ensures CreationFails(faults) <==> exists i :: 0 <= i < 6 && Fault(faults, i)
    ensures CreationFails(faults) <==>
      Fault(faults, 0) || Fault(faults, 1) || Fault(faults, 2) ||
      Fault(faults, 3) || Fault(faults, 4) || Fault(faults, 5)
    ensures Fault(faults, 0) ==> Leaked(faults) == 0
    ensures FirstFault(faults, 1) ==> Leaked(faults) == 2
    ensures !Fault(faults, 0) && !Fault(faults, 1) ==> Leaked(faults) == 4
  {
  }

  /** epoll_ctl, pthread_create and the array allocations. */
  method Prepare(os: OperatingSystem) returns (fails: bool)
    modifies os`faults
    ensures fails <==> Fault(old(os.faults), 0) || Fault(old(os.faults), 1) || Fault(old(os.faults), 2)
    ensures !fails ==> os.faults == From(old(os.faults), 3)
  {
    fails := os.Fails();
    if !fails { fails := os.Fails(); }
    if !fails { fails := os.Fails(); }
  }

  ghost predicate Keeps(before: map<int, string>, after: map<int, string>) {
    forall fd :: fd in before ==> fd in after && after[fd] == before[fd]
  }

  /** pipe, pipe and epoll_create1: five new descriptors, or those the failure leaves. */
  method OpenControl(os: OperatingSystem) returns (epollFd: int, to: (int, int), from: (int, int))
    modifies os`open, os`faults
    ensures epollFd < 0 <==> Fault(old(os.faults), 0) || Fault(old(os.faults), 1) || Fault(old(os.faults), 2)
    ensures Keeps(old(os.open), os.open)
    ensures epollFd < 0 ==> |os.open| == |old(os.open)| + Leaked(old(os.faults))
    ensures epollFd >= 0 ==> os.faults == From(old(os.faults), 3) && |os.open| == |old(os.open)| + 5
    ensures epollFd >= 0 ==>
      && epollFd in os.open && epollFd !in old(os.open)
      && Opened(old(os.open.Keys), os.open, ControlFds(epollFd, to, from))
  {
    epollFd, to, from := -1, (-1, -1), (-1, -1);
    var ret;
    ret, to := os.Pipe();
    if ret == -1 { return; }
    ret, from := os.Pipe();
    if ret == -1 { return; }
    epollFd := os.Open("epoll");
  }

  /** pipe, pipe, epoll_create1, epoll_ctl, pthread_create and the array allocations, in this order. */
  method CreateHostFunctionDispatcher(os: OperatingSystem, n: nat) returns (p: HostFunctionDispatcher?)
    modifies os`open, os`faults
    ensures p == null <==> CreationFails(old(os.faults))
    ensures p == null <==> exists i :: 0 <= i < 6 && Fault(old(os.faults), i)
    ensures Fault(old(os.faults), 0) ==> |os.open| == |old(os.open)|
    ensures FirstFault(old(os.faults), 1) ==> |os.open| == |old(os.open)| + 2
    ensures p == null && !Fault(old(os.faults), 0) && !Fault(old(os.faults), 1) ==> |os.open| == |old(os.open)| + 4
    ensures p != null ==> os.faults == From(old(os.faults), 6)
    ensures p != null ==> fresh(p) && p.os == os && p.Valid() && p.cntFunc == 0 && p.capacity == n
    ensures p != null ==> fresh(p.reqFd) && fresh(p.resFd) && fresh(p.foo) && fresh(p.fooUserData)
    ensures p != null ==> fresh(p.fooOwnsUserData) && fresh(p.szArg) && fresh(p.szRet)
    ensures p != null ==> p.foreign == old(os.open.Keys) && p.alien == os.heap.Keys
    ensures Keeps(old(os.open), os.open)
    ensures p == null ==> |os.open| == |old(os.open)| + Leaked(old(os.faults))
  {
    hide DescriptorsOk, WatchOk, ContextsOk, Opened, Fault, From, CreationFails, Leaked;
    CreationMeans(os.faults);
    p := null;
    FaultFrom(os.faults, 3, 0);
    FaultFrom(os.faults, 3, 1);
    FaultFrom(os.faults, 3, 2);
    FromFrom(os.faults, 3, 3);
    var epollFd, to, from := OpenControl(os);
    if epollFd < 0 { return; }
    var fails := Prepare(os);
    if fails {
      var _ := os.Close(epollFd);
    } else {
      p := new HostFunctionDispatcher(os, n, epollFd, to, from, old(os.open.Keys));
    }
  }

  // ---- a whole life of a table ----

  /** One attach, of either kind. */
  datatype Request =
    | Extended(name: string, foo: Code, userData: Option<nat>, szArg: nat, szRet: nat)
    | Legacy(name: string, callee: nat, szArg: nat, szRet: nat)

  /** The slot a request asks for; a legacy slot owns a block that holds its function. */
  predicate Describes(e: Entry, r: Request, heap: map<nat, nat>) {
    && e.reqPath == ReqPath(r.name) && e.resPath == ResPath(r.name) && e.szArg == r.szArg && e.szRet == r.szRet
    && match r
       case Extended(_, foo, userData, _, _) => e.foo == foo && e.userData == userData && !e.owned
       case Legacy(_, callee, _, _) =>
         && e.foo == Adapter && e.owned && e.userData.Some?
         && e.userData.value in heap && heap[e.userData.value] == callee
  }

  /** The requests that returned 0, in order. */
  function Succeeded(requests: seq<Request>, codes: seq<int>): (r: seq<Request>)
    requires |requests| == |codes|
    ensures |r| <= |requests|
  {
    if requests == [] then []
    else
      var last := |requests| - 1;
      Succeeded(requests[..last], codes[..last]) + if codes[last] == 0 then [requests[last]] else []
  }

  lemma SucceededMore(requests: seq<Request>, codes: seq<int>, i: nat, code: int)
    requires i == |codes| < |requests|
    ensures Succeeded(requests[..i + 1], codes + [code]) ==
      Succeeded(requests[..i], codes) + if code == 0 then [requests[i]] else []
  {
    assert requests[..i + 1][..i] == requests[..i] && (codes + [code])[..i] == codes;
  }

  /** What a request returns, and how many calls it makes, if these calls fail. */
  function Code1(r: Request, faults: seq<bool>): int {
    match r
    case Extended(_, _, _, szArg, szRet) => AttachCode(szArg, szRet, faults)
    case Legacy(_, _, szArg, szRet) => LegacyCode(szArg, szRet, faults)
  }

  function Calls1(r: Request, faults: seq<bool>): nat {
    match r
    case Extended(_, _, _, szArg, szRet) => AttachCalls(szArg, szRet, faults)
    case Legacy(_, _, szArg, szRet) => LegacyCalls(szArg, szRet, faults)
  }

  /** The faults left for what follows the requests. */
  function FaultsAfter(requests: seq<Request>, faults: seq<bool>): seq<bool> {
    if requests == [] then faults
    else
      var before := FaultsAfter(requests[..|requests| - 1], faults);
      From(before, Calls1(requests[|requests| - 1], before))
  }

  /** What each request returns when they are made one after another. */
  function Codes(requests: seq<Request>, faults: seq<bool>): (codes: seq<int>)
    ensures |codes| == |requests|
  {
    if requests == [] then []
    else
      var before := requests[..|requests| - 1];
      Codes(before, faults) + [Code1(requests[|requests| - 1], FaultsAfter(before, faults))]
  }

  lemma CodesMore(requests: seq<Request>, i: nat, faults: seq<bool>)
    requires i < |requests|
    ensures var before := FaultsAfter(requests[..i], faults);
      && Codes(requests[..i + 1], faults) == Codes(requests[..i], faults) + [Code1(requests[i], before)]
      && FaultsAfter(requests[..i + 1], faults) == From(before, Calls1(requests[i], before))
  {
    assert requests[..i + 1][..i] == requests[..i];
  }

  /** What the code of a request says of its own sizes and calls. */
  lemma {:induction false} CodesMean(requests: seq<Request>, faults: seq<bool>, i: nat)
    requires i < |requests|
    ensures Codes(requests, faults)[i] == Code1(requests[i], FaultsAfter(requests[..i], faults))
    ensures requests[i].Extended? ==>
      (Codes(requests, faults)[i] == -5 <==> requests[i].szArg > PIPE_BUF || requests[i].szRet > PIPE_BUF)
  {
    var last := |requests| - 1;
    AttachCodeMeans(requests[i].szArg, requests[i].szRet, FaultsAfter(requests[..i], faults));
    if i < last {
      CodesMean(requests[..last], faults, i);
      assert requests[..last][..i] == requests[..i];
    } else {
      assert requests[..last] == requests[..i];
    }
  }

  predicate AllFit(requests: seq<Request>) {
    forall i :: 0 <= i < |requests| ==> requests[i].szArg <= PIPE_BUF && requests[i].szRet <= PIPE_BUF
  }

  lemma NoneFails(faults: seq<bool>, k: nat)
    requires true !in faults
    ensures (forall i: nat :: !Fault(faults, i)) && true !in From(faults, k)
  {
  }

  lemma Succeeds(r: Request, faults: seq<bool>)
    requires true !in faults && r.szArg <= PIPE_BUF && r.szRet <= PIPE_BUF
    ensures Code1(r, faults) == 0 && true !in From(faults, Calls1(r, faults))
  {
    NoneFails(faults, Calls1(r, faults));
    AttachCodeMeans(r.szArg, r.szRet, faults);
    LegacyCodeMeans(r.szArg, r.szRet, faults);
  }

  lemma {:induction false} NoneFailAfter(requests: seq<Request>, faults: seq<bool>)
    requires AllFit(requests) && true !in faults
    ensures true !in FaultsAfter(requests, faults)
  {
    if requests != [] {
      hide Code1, Calls1, From;
      NoneFailAfter(requests[..|requests| - 1], faults);
      Succeeds(requests[|requests| - 1], FaultsAfter(requests[..|requests| - 1], faults));
    }
  }

  lemma {:induction false} AllReturnZero(requests: seq<Request>, codes: seq<int>)
    requires |codes| == |requests| && forall i :: 0 <= i < |codes| ==> codes[i] == 0
    ensures Succeeded(requests, codes) == requests
  {
    if requests != [] { AllReturnZero(requests[..|requests| - 1], codes[..|codes| - 1]); }
  }

  /** If no call fails, all requests that fit succeed. */
  lemma {:induction false} AllSucceed(requests: seq<Request>, faults: seq<bool>)
    requires AllFit(requests) && true !in faults
    ensures forall i :: 0 <= i < |requests| ==> Codes(requests, faults)[i] == 0
    ensures Succeeded(requests, Codes(requests, faults)) == requests
  {
    forall i | 0 <= i < |requests| ensures Codes(requests, faults)[i] == 0 {
      hide Codes, Code1, Calls1, From, FaultsAfter, Succeeded;
      CodesMean(requests, faults, i);
      NoneFailAfter(requests[..i], faults);
      Succeeds(requests[i], FaultsAfter(requests[..i], faults));
    }
    AllReturnZero(requests, Codes(requests, faults));
  }

  /** How many slots the first i requests have taken. */
  function Taken(requests: seq<Request>, i: nat, faults: seq<bool>): nat
    requires i <= |requests|
  {
    |Succeeded(requests[..i], Codes(requests[..i], faults))|
  }

  /** A request takes a slot, if only until it fails: it is not too large, and has its context. */
  predicate NeedsSlot(r: Request, faults: seq<bool>) {
    r.szArg <= PIPE_BUF && r.szRet <= PIPE_BUF && (r.Legacy? ==> !Fault(faults, 0))
  }

  /** Whenever a request needs a slot, one is free. */
  predicate SlotsSuffice(requests: seq<Request>, faults: seq<bool>, capacity: nat) {
    forall i :: 0 <= i < |requests| && NeedsSlot(requests[i], FaultsAfter(requests[..i], faults)) ==>
      Taken(requests, i, faults) < capacity
  }

  ghost predicate TableIs(p: HostFunctionDispatcher, wanted: seq<Request>)
    requires p.Shaped()
    reads p, p.os, p.reqFd, p.resFd, p.foo, p.fooUserData, p.fooOwnsUserData, p.szArg, p.szRet
  {
    p.cntFunc == |wanted| && forall j :: 0 <= j < |wanted| ==> Describes(p.At(j), wanted[j], p.os.heap)
  }

  /** Slots of different names share no pipe, and no slot's request pipe is a response pipe. */
  ghost predicate PipesApart(p: HostFunctionDispatcher, wanted: seq<Request>)
    requires p.Shaped()
    reads p, p.os, p.reqFd, p.resFd, p.foo, p.fooUserData, p.fooOwnsUserData, p.szArg, p.szRet
  {
    && p.cntFunc == |wanted|
    && (forall i, j :: 0 <= i < |wanted| && 0 <= j < |wanted| ==> p.At(i).reqPath != p.At(j).resPath)
    && (forall i, j :: 0 <= i < |wanted| && 0 <= j < |wanted| && wanted[i].name != wanted[j].name ==>
         p.At(i).reqPath != p.At(j).reqPath && p.At(i).resPath != p.At(j).resPath)
  }

  lemma SlotsApart(p: HostFunctionDispatcher, wanted: seq<Request>)
    requires p.Shaped() && TableIs(p, wanted)
    ensures PipesApart(p, wanted)
  {
    hide ReqPath, ResPath;
    forall i, j | 0 <= i < |wanted| && 0 <= j < |wanted|
      ensures p.At(i).reqPath != p.At(j).resPath
      ensures wanted[i].name != wanted[j].name ==>
        p.At(i).reqPath != p.At(j).reqPath && p.At(i).resPath != p.At(j).resPath
    {
      assert Describes(p.At(i), wanted[i], p.os.heap) && Describes(p.At(j), wanted[j], p.os.heap);
      PathsDiffer(wanted[i].name, wanted[j].name);
    }
  }

  method AttachOne(p: HostFunctionDispatcher, r: Request, ghost wanted: seq<Request>) returns (code: int)
    requires p.Valid() && TableIs(p, wanted)
    requires NeedsSlot(r, p.os.faults) ==> p.cntFunc < p.capacity
    modifies p`watch, p`cntFunc, p`alien, p.os
    modifies p.reqFd, p.resFd, p.foo, p.fooUserData, p.fooOwnsUserData, p.szArg, p.szRet
    ensures p.Valid() && p.alien == old(p.alien) && Keeps(old(p.os.open), p.os.open)
    ensures HeapKept(old(p.os.heap), p.os.heap)
    ensures TableIs(p, wanted + if code == 0 then [r] else [])
    ensures code == Code1(r, old(p.os.faults)) && p.os.faults == From(old(p.os.faults), Calls1(r, old(p.os.faults)))
  {
    hide DescriptorsOk, WatchOk, ContextsOk, ReqPath, ResPath, AttachCode, AttachCalls, LegacyCode, LegacyCalls, From;
    match r
    case Extended(name, foo, userData, szArg, szRet) =>
      code := p.AttachHostFunctionEx(name, foo, userData, szArg, szRet);
    case Legacy(name, callee, szArg, szRet) =>
      code := p.AttachHostFunction(name, callee, szArg, szRet);
  }

  ghost predicate HeapKept(before: map<nat, nat>, after: map<nat, nat>) {
    forall p :: p in before ==> p in after && after[p] == before[p]
  }

  /**
   Any sequence of attaches, with any calls failing: each returns what the faults it meets
   decide, and the table is the successful ones, in order.
   */
  method AttachAll(p: HostFunctionDispatcher, requests: seq<Request>) returns (codes: seq<int>)
    requires p.Valid() && p.cntFunc == 0 && SlotsSuffice(requests, p.os.faults, p.capacity)
    modifies p`watch, p`cntFunc, p`alien, p.os
    modifies p.reqFd, p.resFd, p.foo, p.fooUserData, p.fooOwnsUserData, p.szArg, p.szRet
    ensures codes == Codes(requests, old(p.os.faults))
    ensures p.Valid() && p.alien == old(p.alien)
    ensures Keeps(old(p.os.open), p.os.open) && HeapKept(old(p.os.heap), p.os.heap)
    ensures TableIs(p, Succeeded(requests, codes))
    ensures AllFit(requests) && true !in old(p.os.faults) ==>
      (forall i :: 0 <= i < |requests| ==> codes[i] == 0) && TableIs(p, requests)
    ensures PipesApart(p, Succeeded(requests, codes))
    ensures forall j :: 0 <= j < p.cntFunc ==> p.reqFd[j] in p.watch && p.watch[p.reqFd[j]] == j
  {
    hide DescriptorsOk, ContextsOk, Describes, WatchOk, Codes, TableIs, AllFit, PipesApart, Succeeded;
    codes := AttachEach(p, requests);
    if AllFit(requests) && true !in old(p.os.faults) { AllSucceed(requests, old(p.os.faults)); }
    SlotsApart(p, Succeeded(requests, codes));
  }

  /** One after another. */
  method AttachEach(p: HostFunctionDispatcher, requests: seq<Request>) returns (codes: seq<int>)
    requires p.Valid() && p.cntFunc == 0 && SlotsSuffice(requests, p.os.faults, p.capacity)
    modifies p`watch, p`cntFunc, p`alien, p.os
    modifies p.reqFd, p.resFd, p.foo, p.fooUserData, p.fooOwnsUserData, p.szArg, p.szRet
    ensures codes == Codes(requests, old(p.os.faults))
    ensures p.Valid() && p.alien == old(p.alien)
    ensures Keeps(old(p.os.open), p.os.open) && HeapKept(old(p.os.heap), p.os.heap)
    ensures TableIs(p, Succeeded(requests, codes))
    ensures forall j :: 0 <= j < p.cntFunc ==> p.reqFd[j] in p.watch && p.watch[p.reqFd[j]] == j
  {
    hide DescriptorsOk, ContextsOk, Describes, WatchOk, Codes, FaultsAfter, Code1, Calls1, From;
    codes := [];
    NoRequests(p.os.faults);
    for i := 0 to |requests|
      invariant p.Valid() && p.alien == old(p.alien)
      invariant codes == Codes(requests[..i], old(p.os.faults))
      invariant p.os.faults == FaultsAfter(requests[..i], old(p.os.faults))
      invariant Keeps(old(p.os.open), p.os.open) && HeapKept(old(p.os.heap), p.os.heap)
      invariant TableIs(p, Succeeded(requests[..i], codes))
    {
      assert p.cntFunc == Taken(requests, i, old(p.os.faults));
      var code := AttachOne(p, requests[i], Succeeded(requests[..i], codes));
      CodesMore(requests, i, old(p.os.faults));
      SucceededMore(requests, codes, i, code);
      codes := codes + [code];
    }
    assert requests[..|requests|] == requests;
    Indexed(p.watch, p.toDaemonFd.0, p.reqFd[..p.cntFunc]);
  }

  lemma NoRequests(faults: seq<bool>)
    ensures Codes([], faults) == [] && FaultsAfter([], faults) == faults
  {
  }

  lemma NoFaults(faults: seq<bool>)
    ensures true !in faults ==> !CreationFails(faults) && true !in From(faults, 6)
  {
  }

  lemma Indexed(watch: map<int, int>, control: int, req: seq<int>)
    requires WatchOk(watch, control, req)
    ensures forall j :: 0 <= j < |req| ==> req[j] in watch && watch[req[j]] == j
  {
    forall j | 0 <= j < |req| ensures req[j] in watch && watch[req[j]] == j {
      var fd := req[j];
      assert fd in req;
      assert fd in watch;
    }
  }

  /** What is kept while more is added is there unchanged once the additions are gone. */
  lemma Restored<K, V>(before: map<K, V>, during: map<K, V>, after: map<K, V>)
    requires forall k :: k in before ==> k in during && during[k] == before[k]
    requires after.Keys == before.Keys && forall k :: k in after ==> k in during && after[k] == during[k]
    ensures after == before
  {
  }

  /** The first k slots, each with the data word epoll has for its request pipe. */
  ghost function Rows(p: HostFunctionDispatcher, k: nat): (rows: seq<(Entry, int)>)
    requires p.Shaped() && k <= p.cntFunc
    requires forall j :: 0 <= j < k ==> p.reqFd[j] in p.watch
    reads p, p.os, p.reqFd, p.resFd, p.foo, p.fooUserData, p.fooOwnsUserData, p.szArg, p.szRet
    ensures |rows| == k && forall j :: 0 <= j < k ==> rows[j] == (p.At(j), p.watch[p.reqFd[j]])
  {
    if k == 0 then [] else Rows(p, k - 1) + [(p.At(k - 1), p.watch[p.reqFd[k - 1]])]
  }

  /**
   A dispatcher's table from creation to teardown, with whatever attaches in between failing or
   succeeding: `table` is what it held at the end, slot j with its epoll index; and afterwards
   the process has the descriptors and blocks it had before.
   */
  method Lifetime(os: OperatingSystem, n: nat, requests: seq<Request>, ack: int)
    returns (created: bool, codes: seq<int>, ret: int, ghost table: seq<(Entry, int)>, ghost heap: map<nat, nat>)
    requires !CreationFails(os.faults) ==> SlotsSuffice(requests, From(os.faults, 6), n)
    modifies os
    ensures created <==> !CreationFails(old(os.faults))
    ensures created ==> codes == Codes(requests, From(old(os.faults), 6)) && ret == ack
    ensures created ==> |table| == |Succeeded(requests, codes)|
    ensures AllFit(requests) && true !in old(os.faults) ==>
      created && (forall i :: 0 <= i < |requests| ==> codes[i] == 0) && Succeeded(requests, codes) == requests
    ensures created ==> forall j :: 0 <= j < |table| ==>
      table[j].1 == j && Describes(table[j].0, Succeeded(requests, codes)[j], heap)
    ensures created ==> os.open == old(os.open) && os.heap == old(os.heap)
  {
    hide DescriptorsOk, ContextsOk, Describes, WatchOk, CreationFails, SlotsSuffice, Codes, From;
    codes, ret, table, heap := [], 0, [], map[];
    NoFaults(os.faults);
    if AllFit(requests) && true !in os.faults {
      AllSucceed(requests, From(os.faults, 6));
    }
    var p := CreateHostFunctionDispatcher(os, n);
    created := p != null;
    if !created { return; }
    codes := AttachAll(p, requests);
    table := Rows(p, p.cntFunc);
    heap := os.heap;
    ghost var open := os.open;
    ret := p.Delete(ack, {});
    assert forall fd :: fd in old(os.open) ==> fd in open && open[fd] == old(os.open[fd]);
    assert forall fd :: fd in os.open ==> fd in p.foreign && fd in old(os.open) && os.open[fd] == open[fd];
    Restored(old(os.open), open, os.open);
    Restored(old(os.heap), heap, os.heap);
  }

  lemma DescriptorsGrow(
      control: seq<int>, req: seq<int>, res: seq<int>, foreign: set<int>, open: map<int, string>, a: int, b: int,
      at: string, bt: string)
    requires DescriptorsOk(control, req, res, foreign, open) && a !in open && b !in open && a != b
    ensures DescriptorsOk(control, req + [a], res + [b], foreign, open[a := at][b := bt])
  {
    var was, now := control + req + res, control + (req + [a]) + (res + [b]);
    var k := |control + req|;
    assert forall i :: 0 <= i < k ==> now[i] == was[i];
    assert now[k] == a && now[|was| + 1] == b;
    assert forall i :: k < i <= |was| ==> now[i] == was[i - 1];
    assert forall i :: k <= i < |was| ==> was[i] == now[i + 1];
  }

  lemma WatchGrow(watch: map<int, int>, control: int, req: seq<int>, a: int)
    requires WatchOk(watch, control, req) && a !in watch
    ensures WatchOk(watch[a := |req|], control, req + [a])
  {
  }

  /** A new slot that owns nothing. */
  lemma ContextsGrow(owns: seq<bool>, data: seq<Option<nat>>, alien: set<nat>, heap: map<nat, nat>, d: Option<nat>)
    requires ContextsOk(owns, data, alien, heap)
    ensures ContextsOk(owns + [false], data + [d], alien, heap)
  {
    forall p ensures p in heap <==> p in alien || exists i :: OwnsAt(owns + [false], data + [d], i, p) {
      if p in heap && p !in alien {
        var i :| OwnsAt(owns, data, i, p);
        assert OwnsAt(owns + [false], data + [d], i, p);
      }
      if i :| OwnsAt(owns + [false], data + [d], i, p) { assert OwnsAt(owns, data, i, p); }
    }
  }

  lemma WatchedAreOpen(
      control: seq<int>, req: seq<int>, res: seq<int>, foreign: set<int>, open: map<int, string>,
      watch: map<int, int>)
    requires DescriptorsOk(control, req, res, foreign, open) && |control| == 5 && WatchOk(watch, control[1], req)
    ensures forall fd :: fd in watch ==> fd in open
  {
  }

  lemma PipeFaults(faults: seq<bool>)
    ensures PipeFails(From(faults, 1)) <==>
      Fault(faults, 1) || Fault(faults, 2) || Fault(faults, 3) || Fault(faults, 4)
    ensures From(From(faults, 1), PipeCalls(From(faults, 1))) == From(faults, 1 + PipeCalls(From(faults, 1)))
  {
    FromFrom(faults, 1, PipeCalls(From(faults, 1)));
  }

  lemma AllCallsMade(faults: seq<bool>)
    ensures !PipeFails(From(faults, 1)) ==> PipeCalls(From(faults, 1)) == 4
    ensures Fault(From(faults, 5), 0) == Fault(faults, 5) && From(From(faults, 5), 1) == From(faults, 6)
  {
  }

  lemma SlotAdded(
      control: seq<int>, req: seq<int>, res: seq<int>, foreign: set<int>, open: map<int, string>, a: int, b: int,
      name: string, watch: map<int, int>)
    requires DescriptorsOk(control, req, res, foreign, open) && a !in open && b !in open && a != b
    requires |control| == 5 && WatchOk(watch, control[1], req)
    ensures DescriptorsOk(control, req + [a], res + [b], foreign, open[a := ReqPath(name)][b := ResPath(name)])
    ensures WatchOk(watch[a := |req|], control[1], req + [a])
  {
    hide DescriptorsOk, WatchOk;
    DescriptorsGrow(control, req, res, foreign, open, a, b, ReqPath(name), ResPath(name));
    WatchedAreOpen(control, req, res, foreign, open, watch);
    WatchGrow(watch, control[1], req, a);
  }

  lemma HeldAreOpen(control: seq<int>, req: seq<int>, res: seq<int>, foreign: set<int>, open: map<int, string>)
    requires DescriptorsOk(control, req, res, foreign, open)
    ensures forall fd :: fd in control || fd in req || fd in res ==> fd in open
  {
    assert forall fd :: fd in control || fd in req || fd in res ==> fd in control + req + res;
  }

  /** A fresh block is the caller's until a slot takes it. */
  lemma ContextsLend(owns: seq<bool>, data: seq<Option<nat>>, alien: set<nat>, heap: map<nat, nat>, p: nat, value: nat)
    requires ContextsOk(owns, data, alien, heap) && p !in heap
    ensures p !in alien && ContextsOk(owns, data, alien + {p}, heap[p := value])
  {
    assert forall i :: 0 <= i < |owns| && owns[i] ==> OwnsAt(owns, data, i, data[i].value);
  }

  lemma ContextsTake(owns: seq<bool>, data: seq<Option<nat>>, alien: set<nat>, heap: map<nat, nat>, p: nat)
    requires p !in alien && ContextsOk(owns + [false], data + [Some(p)], alien + {p}, heap)
    ensures ContextsOk(owns + [true], data + [Some(p)], alien, heap)
  {
    var o, t, d := owns + [false], owns + [true], data + [Some(p)];
    assert forall i :: 0 <= i < |owns| ==> o[i] == t[i];
    forall q ensures q in heap <==> q in alien || exists i :: OwnsAt(t, d, i, q) {
      assert OwnsAt(t, d, |owns|, p);
      if q in heap && q !in alien && q != p {
        var i :| OwnsAt(o, d, i, q);
        assert OwnsAt(t, d, i, q);
      }
      if i :| OwnsAt(t, d, i, q) && q != p { assert OwnsAt(o, d, i, q); }
    }
  }

  lemma ClosedControl(control: seq<int>, req: seq<int>, res: seq<int>, foreign: set<int>, open: map<int, string>)
    requires DescriptorsOk(control, req, res, foreign, open) && control != []
    ensures control[0] in open && DescriptorsOk(control[1..], req, res, foreign, open - {control[0]})
  {
    var all := control + req + res;
    assert all[0] == control[0] && control[1..] + req + res == all[1..];
    assert forall fd :: fd in all <==> fd == all[0] || fd in all[1..];
  }

  lemma ClosedSlot(req: seq<int>, res: seq<int>, foreign: set<int>, open: map<int, string>)
    requires DescriptorsOk([], req, res, foreign, open) && |req| == |res| > 0
    ensures req[0] in open && res[0] in open && req[0] != res[0]
    ensures DescriptorsOk([], req[1..], res[1..], foreign, open - {req[0], res[0]})
  {
    var all, left := [] + req + res, [] + req[1..] + res[1..];
    var n := |req|;
    assert all[0] == req[0] && all[n] == res[0];
    assert forall i :: 0 <= i < n - 1 ==> left[i] == all[i + 1];
    assert forall i :: n - 1 <= i < |left| ==> left[i] == all[i + 2];
    assert forall i :: 0 < i < n ==> all[i] == left[i - 1];
    assert forall i :: n < i < |all| ==> all[i] == left[i - 2];
    assert forall fd :: fd in all <==> fd == req[0] || fd == res[0] || fd in left;
  }

  /** The first slot goes: what it owned is no longer accounted for. */
  lemma ContextsSkip(owns: seq<bool>, data: seq<Option<nat>>, alien: set<nat>, heap: map<nat, nat>)
    requires ContextsOk(owns, data, alien, heap) && |owns| > 0
    ensures owns[0] && data[0].Some? ==>
      data[0].value in heap && ContextsOk(owns[1..], data[1..], alien, heap - {data[0].value})
    ensures !(owns[0] && data[0].Some?) ==> ContextsOk(owns[1..], data[1..], alien, heap)
  {
    var kept := if owns[0] && data[0].Some? then heap - {data[0].value} else heap;
    if owns[0] && data[0].Some? { assert OwnsAt(owns, data, 0, data[0].value); }
    forall p ensures p in kept <==> p in alien || exists i :: OwnsAt(owns[1..], data[1..], i, p) {
      if p in kept && p !in alien {
        var i :| OwnsAt(owns, data, i, p);
        assert OwnsAt(owns[1..], data[1..], i - 1, p);
      }
      if i :| OwnsAt(owns[1..], data[1..], i, p) { assert OwnsAt(owns, data, i + 1, p); }
    }
  }

  lemma NothingHeld(foreign: set<int>, open: map<int, string>, alien: set<nat>, heap: map<nat, nat>)
    requires DescriptorsOk([], [], [], foreign, open) && ContextsOk([], [], alien, heap)
    ensures open.Keys == foreign && heap.Keys == alien
  {
    var none: seq<int> := [];
    assert none + none + none == none;
    assert forall fd :: fd in open <==> fd in foreign;
  }
}
