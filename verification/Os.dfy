/**
 What the function table and the callers need of the operating system: named pipes, open
 descriptors and heap blocks. Which calls fail is decided by an arbitrary list of faults,
 one per call.
 */
module Os {
  import opened Basics

  const PIPE_NAME_PREFIX: string := "/tmp/robot_ipc/"

  datatype Errno = Fine | Exists | Other

  function Fault(faults: seq<bool>, i: nat): bool { i < |faults| && faults[i] }

  function From(faults: seq<bool>, i: nat): seq<bool> { if i <= |faults| then faults[i..] else [] }

  lemma FaultFrom(faults: seq<bool>, k: nat, i: nat)
    ensures Fault(From(faults, k), i) == Fault(faults, k + i)
  {
  }

  lemma FromNone(faults: seq<bool>)
    ensures From(faults, 0) == faults
  {
  }

  lemma FromFrom(faults: seq<bool>, a: nat, b: nat)
    ensures From(From(faults, a), b) == From(faults, a + b)
  {
  }

  class OperatingSystem {
    var open: map<int, string>      // descriptor to what it is open on
    var paths: set<string>          // named pipes and directories that exist
    var heap: map<nat, nat>         // address to the function stored there
    var faults: seq<bool>

    constructor (faults: seq<bool>)
      ensures open == map[] && heap == map[] && this.faults == faults
    {
      open, paths, heap := map[], {}, map[];
      this.faults := faults;
    }

    ghost function PathOf(fd: int): string
      reads this
    {
      if fd in open then open[fd] else ""
    }

    /** Whether the next call fails. */
    method Fails() returns (fails: bool)
      modifies this`faults
      ensures fails == Fault(old(faults), 0) && faults == From(old(faults), 1)
    {
      fails := false;
      if faults != [] {
        fails, faults := faults[0], faults[1..];
      }
    }

    /** mkdir or mkfifo: fails with EEXIST when the path is there. */
    method Make(path: string) returns (ret: int, errno: Errno)
      modifies this`paths, this`faults
      ensures faults == From(old(faults), 1)
      ensures errno.Other? <==> Fault(old(faults), 0)
      ensures ret == (if errno.Fine? then 0 else -1)
      ensures paths == if errno.Other? then old(paths) else old(paths) + {path}
      ensures errno.Exists? ==> path in old(paths)
    {
      var fails := Fails();
      if fails { return -1, Other; }
      if path in paths { return -1, Exists; }
      paths := paths + {path};
      return 0, Fine;
    }

    /** The lowest descriptor not in use. */
    method Lowest() returns (fd: int)
      ensures fd >= 0 && fd !in open && forall k :: 0 <= k < fd ==> k in open
    {
      fd := 0;
      ghost var above := open.Keys;
      while fd in open
        invariant fd >= 0 && forall k :: 0 <= k < fd ==> k in open
        invariant forall k :: k in above <==> k in open && !(0 <= k < fd)
        decreases |above|
      {
        above := above - {fd};
        fd := fd + 1;
      }
    }

    /** open: a new descriptor, or -1. */
    method Open(path: string) returns (fd: int)
      modifies this`open, this`faults
      ensures faults == From(old(faults), 1)
      ensures if Fault(old(faults), 0) then fd == -1 && open == old(open)
              else fd >= 0 && fd !in old(open) && open == old(open)[fd := path]
    {
      var fails := Fails();
      if fails { return -1; }
      fd := Lowest();
      open := open[fd := path];
    }

    /** pipe: two new descriptors, or neither. */
    method Pipe() returns (ret: int, ends: (int, int))
      modifies this`open, this`faults
      ensures faults == From(old(faults), 1)
      ensures if Fault(old(faults), 0) then ret == -1 && open == old(open)
              else ret == 0 && open == old(open)[ends.0 := "pipe"][ends.1 := "pipe"]
      ensures ret == 0 ==> ends.0 != ends.1 && ends.0 !in old(open) && ends.1 !in old(open)
    {
      var fails := Fails();
      if fails { return -1, (-1, -1); }
      var r := Lowest();
      open := open[r := "pipe"];
      var w := Lowest();
      open := open[w := "pipe"];
      return 0, (r, w);
    }

    /** close: -1 on a descriptor that is not open. */
    method Close(fd: int) returns (ret: int)
      modifies this`open
      ensures ret == (if fd in old(open) then 0 else -1)
      ensures open == old(open) - {fd}
    {
      ret := if fd in open then 0 else -1;
      open := open - {fd};
    }

    /** close, where that of the descriptors in `bad` reports an error; it releases them all the same. */
    method CloseReporting(fd: int, bad: set<int>) returns (ret: int)
      modifies this`open
      ensures ret == (if fd in old(open) && fd !in bad then 0 else -1)
      ensures open == old(open) - {fd}
    {
      ret := Close(fd);
      if fd in bad { ret := -1; }
    }

    method Malloc(value: nat) returns (p: Option<nat>)
      modifies this`heap, this`faults
      ensures faults == From(old(faults), 1)
      ensures if Fault(old(faults), 0) then p.None? && heap == old(heap)
              else p.Some? && p.value !in old(heap) && heap == old(heap)[p.value := value]
    {
      var fails := Fails();
      if fails { return None; }
      var a := 0;
      ghost var above := heap.Keys;
      while a in heap
        invariant forall k :: k in above <==> k in heap && k >= a
        decreases |above|
      {
        above := above - {a};
        a := a + 1;
      }
      heap := heap[a := value];
      return Some(a);
    }

    /** free: only of a live block. */
    method Free(p: nat)
      requires p in heap
      modifies this`heap
      ensures heap == old(heap) - {p}
    {
      heap := heap - {p};
    }
  }
}
