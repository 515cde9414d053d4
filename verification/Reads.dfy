/** No torn reads: what a read returns is one buffer's contents at one instant. */
module Reads {
  import opened Protocol
  import opened Accounting
  import opened Register

  /**
   From its acquire on, and whatever everybody else does meanwhile, a reader either still
   holds its buffer with not a byte changed, or has returned exactly what was in it then.
   */
  lemma {:induction false} ReadIsSnapshot(s: State, sched: seq<nat>, r: nat, b: nat)
    requires Inv(s) && r < |s.ops| && s.ops[r].pc.HoldsRead(b)
    ensures b < s.n && s.ops[r].call.Read? && s.ops[r].call.opSize <= |s.data[b]|
    ensures var t := Run(s, sched);
      || (t.ops[r].pc.HoldsRead(b) && t.data[b] == s.data[b] && t.stamps[b] == s.stamps[b])
      || t.ops[r].pc == ReadDone(s.data[b][..s.ops[r].call.opSize])
  {
    assert OpOk(s.n, s.size, s.ops[r]);
    if sched != [] {
      var before, id := Run(s, sched[..|sched| - 1]), sched[|sched| - 1];
      ReadIsSnapshot(s, sched[..|sched| - 1], r, b);
      RunCalls(s, sched[..|sched| - 1]);
      assert OpOk(before.n, before.size, before.ops[r]) && ContentsOk(before, before.ops[r]);
      if id < |before.ops| {
        NextFrame(before, id);
        if before.ops[r].pc.HoldsRead(b) { ReadableKept(before, id, b); }
      }
    }
  }

  /** While no writer owns a buffer its bytes and its timestamp are frozen, wherever the target is. */
  lemma {:induction false} FrozenUnlessOwned(s: State, sched: seq<nat>, b: nat)
    requires Inv(s) && b < s.n
    requires forall k {:trigger sched[..k]} :: 0 <= k < |sched| ==> WritersOf(Run(s, sched[..k]), b) == {}
    ensures Run(s, sched).data[b] == s.data[b] && Run(s, sched).stamps[b] == s.stamps[b]
  {
    if sched != [] {
      var a, id := sched[..|sched| - 1], sched[|sched| - 1];
      forall k | 0 <= k < |a| ensures WritersOf(Run(s, a[..k]), b) == {} {
        assert a[..k] == sched[..k];
      }
      FrozenUnlessOwned(s, a, b);
      var before := Run(s, a);
      if id < |before.ops| {
        NextFrame(before, id);
        assert id !in WritersOf(before, b);
      }
    }
  }
}
