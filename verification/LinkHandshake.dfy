/**
 link_host_variable by many processes at once: one creates the shared memory and initialises
 it, the others wait for its `created` flag (src/host_variable.c:133-177). Linked processes
 may meanwhile change the word and the timestamps as they like.
 */
module LinkHandshake {
  import opened LockRecord

  datatype Pc =
    | Opening                    // shm_open with O_CREAT | O_EXCL
    | Reopening                  // it existed: shm_open again
    | Sizing(creator: bool)      // ftruncate
    | Mapping(creator: bool)     // mmap
    | ClearingCreated
    | StoringFlags
    | StoringStamp(i: nat)
    | SettingCreated
    | Waiting                    // spinning on `created`
    | Linked                     // link_host_variable has returned

  /** `first` is the constant the creator stores into the word. */
  datatype State = State(
    n: nat, first: Locks, present: bool, created: bool, flags: Locks, stamps: seq<nat>, procs: seq<Pc>)

  datatype Move =
    | Advance(id: nat)                               // the next step of a link
    | Use(id: nat, flags: Locks, stamps: seq<nat>)    // what a linked process stores, all at once

  function Initial(n: nat, processes: nat): State
    requires 2 <= n <= 15
  {
    State(n, InitialLocks(n), false, false, Locks(0, seq(SLOTS, _ => 0)), seq(n, _ => 0), seq(processes, _ => Opening))
  }

  function Next(s: State, m: Move): State
    requires |s.stamps| == s.n
  {
    if m.id >= |s.procs| then s
    else if m.Use? then
      if s.procs[m.id].Linked? && |m.stamps| == s.n then s.(flags := m.flags, stamps := m.stamps) else s
    else
      match s.procs[m.id]
      case Opening =>
        if s.present then At(s, m.id, Reopening) else At(s.(present := true), m.id, Sizing(true))
      case Reopening => At(s, m.id, Sizing(false))
      case Sizing(c) => At(s, m.id, Mapping(c))
      case Mapping(c) => At(s, m.id, if c then ClearingCreated else Waiting)
      case ClearingCreated => At(s.(created := false), m.id, StoringFlags)
      case StoringFlags => At(s.(flags := s.first), m.id, StoringStamp(0))
      case StoringStamp(i) =>
        if i < s.n then At(s.(stamps := s.stamps[i := 0]), m.id, StoringStamp(i + 1))
        else At(s, m.id, SettingCreated)
      case SettingCreated => At(s.(created := true), m.id, Linked)
      case Waiting => if s.created then At(s, m.id, Linked) else s
      case Linked => s
  }

  function At(s: State, id: nat, pc: Pc): State
    requires id < |s.procs|
  {
    s.(procs := s.procs[id := pc])
  }

  predicate Initialising(pc: Pc) {
    || pc == Sizing(true) || pc == Mapping(true)
    || pc.ClearingCreated? || pc.StoringFlags? || pc.StoringStamp? || pc.SettingCreated?
  }

  predicate SomebodyLinked(s: State) {
    exists i :: 0 <= i < |s.procs| && s.procs[i].Linked?
  }

  /** Only one process initialises, and only before `created` is set. */
  predicate OneInitialiser(s: State) {
    && (forall i, j :: 0 <= i < j < |s.procs| ==> !(Initialising(s.procs[i]) && Initialising(s.procs[j])))
    && (forall i :: 0 <= i < |s.procs| && Initialising(s.procs[i]) ==> !s.created && s.present)
  }

  predicate CreatedIsRight(s: State) {
    && (s.created ==> s.present && SomebodyLinked(s))
    && (forall i :: 0 <= i < |s.procs| && s.procs[i].Linked? ==> s.created)
  }

  predicate MemoryIsRight(s: State)
  {
    && (!s.created ==> s.stamps == seq(s.n, _ => 0))
    && (forall i :: 0 <= i < |s.procs| && (s.procs[i].StoringStamp? || s.procs[i].SettingCreated?) ==>
         s.flags == s.first)
  }

  predicate Inv(s: State) {
    2 <= s.n <= 15 && |s.stamps| == s.n && OneInitialiser(s) && CreatedIsRight(s) && MemoryIsRight(s)
  }

  lemma NextFrame(s: State, m: Move)
    requires |s.stamps| == s.n
    ensures var t := Next(s, m); t.n == s.n && t.first == s.first && |t.stamps| == s.n && |t.procs| == |s.procs|
    ensures forall i :: 0 <= i < |s.procs| && (i != m.id || m.Use?) ==> Next(s, m).procs[i] == s.procs[i]
    ensures m.id < |s.procs| && s.procs[m.id].Linked? ==> Next(s, m).procs[m.id].Linked?
  {
  }

  lemma LinkedStays(s: State, m: Move)
    requires |s.stamps| == s.n && SomebodyLinked(s)
    ensures SomebodyLinked(Next(s, m))
  {
    NextFrame(s, m);
    var i :| 0 <= i < |s.procs| && s.procs[i].Linked?;
    assert Next(s, m).procs[i].Linked?;
  }

  lemma NextOneInitialiser(s: State, m: Move)
    requires Inv(s)
    ensures OneInitialiser(Next(s, m))
  {
    NextFrame(s, m);
  }

  lemma NextCreatedIsRight(s: State, m: Move)
    requires Inv(s)
    ensures CreatedIsRight(Next(s, m))
  {
    NextFrame(s, m);
    if SomebodyLinked(s) { LinkedStays(s, m); }
    if m.id < |s.procs| && Next(s, m).procs[m.id].Linked? { assert SomebodyLinked(Next(s, m)); }
  }

  lemma NextMemoryIsRight(s: State, m: Move)
    requires Inv(s)
    ensures Next(s, m).n == s.n && MemoryIsRight(Next(s, m))
  {
    NextFrame(s, m);
  }

  lemma NextInv(s: State, m: Move)
    requires Inv(s)
    ensures Inv(Next(s, m)) && Next(s, m).n == s.n && Next(s, m).first == s.first
  {
    hide Next, OneInitialiser, CreatedIsRight, MemoryIsRight;
    NextFrame(s, m);
    NextOneInitialiser(s, m);
    NextCreatedIsRight(s, m);
    NextMemoryIsRight(s, m);
  }

  function Run(s: State, sched: seq<Move>): (r: State)
    requires Inv(s)
    ensures Inv(r) && r.n == s.n && r.first == s.first
  {
    if sched == [] then s
    else
      var before := Run(s, sched[..|sched| - 1]);
      NextInv(before, sched[|sched| - 1]);
      Next(before, sched[|sched| - 1])
  }

  /**
   What the memory should hold: the last store a linked process made, or, before any, the
   initial word and timestamps.
   */
  function Expected(s: State, sched: seq<Move>): (Locks, seq<nat>)
    requires Inv(s)
  {
    if sched == [] then (s.first, seq(s.n, _ => 0))
    else
      var before, m := Run(s, sched[..|sched| - 1]), sched[|sched| - 1];
      if m.Use? && m.id < |before.procs| && before.procs[m.id].Linked? && |m.stamps| == s.n then (m.flags, m.stamps)
      else Expected(s, sched[..|sched| - 1])
  }

  /**
   In every interleaving of any number of links, once one has returned the word and the
   timestamps are initialised, and no link, however late, ever stores over what a linked
   process stored.
   */
  lemma {:induction false} LinkedMeansInitialised(n: nat, processes: nat, sched: seq<Move>)
    requires 2 <= n <= 15
    ensures Inv(Initial(n, processes))
    ensures var s := Run(Initial(n, processes), sched);
      if SomebodyLinked(s) then s.created && (s.flags, s.stamps) == Expected(Initial(n, processes), sched)
      else Expected(Initial(n, processes), sched) == (InitialLocks(n), seq(n, _ => 0))
  {
    if sched != [] {
      var s, a, m := Initial(n, processes), sched[..|sched| - 1], sched[|sched| - 1];
      LinkedMeansInitialised(n, processes, a);
      StoreKept(Run(s, a), m);
    }
  }

  /** A link's step changes the memory only while nobody is linked, and leaves it initialised when it links. */
  lemma StoreKept(s: State, m: Move)
    requires Inv(s)
    ensures SomebodyLinked(s) ==> SomebodyLinked(Next(s, m))
    ensures SomebodyLinked(s) && m.Advance? ==> Next(s, m).flags == s.flags && Next(s, m).stamps == s.stamps
    ensures SomebodyLinked(Next(s, m)) && !SomebodyLinked(s) ==>
              m.Advance? && Next(s, m).flags == s.first && Next(s, m).stamps == seq(s.n, _ => 0)
  {
    NextFrame(s, m);
    if SomebodyLinked(s) { LinkedStays(s, m); }
  }

  // ---- every link returns ----

  /** How many steps of its own process id takes in a schedule. */
  function Steps(sched: seq<Move>, id: nat): nat {
    if sched == [] then 0 else Steps(sched[..|sched| - 1], id) + if sched[|sched| - 1] == Advance(id) then 1 else 0
  }

  /** How many steps a process has taken to get where it is; a process that waits may have taken more. */
  predicate StepsAre(n: nat, pc: Pc, steps: nat) {
    match pc
    case Opening => steps == 0
    case Reopening => steps == 1
    case Sizing(c) => steps == if c then 1 else 2
    case Mapping(c) => steps == if c then 2 else 3
    case ClearingCreated => steps == 3
    case StoringFlags => steps == 4
    case StoringStamp(i) => i <= n && steps == 5 + i
    case SettingCreated => steps == n + 6
    case Waiting => steps >= 4
    case Linked => steps >= 5
  }

  /** Whoever has begun has found or made the memory, and somebody initialises it until that is done. */
  predicate PresentIsRight(s: State) {
    && (forall i :: 0 <= i < |s.procs| && !s.procs[i].Opening? ==> s.present)
    && (s.present && !s.created ==> exists i :: 0 <= i < |s.procs| && Initialising(s.procs[i]))
  }

  lemma NextPresentIsRight(s: State, m: Move)
    requires Inv(s) && PresentIsRight(s)
    ensures PresentIsRight(Next(s, m))
  {
    NextFrame(s, m);
    var t := Next(s, m);
    if m.id < |s.procs| && Initialising(t.procs[m.id]) {
    } else if s.present && !s.created {
      var i :| 0 <= i < |s.procs| && Initialising(s.procs[i]);
      assert i != m.id || m.Use? ==> Initialising(t.procs[i]);
    }
  }

  lemma {:induction false} RunPresent(n: nat, processes: nat, sched: seq<Move>)
    requires 2 <= n <= 15
    ensures Inv(Initial(n, processes)) && |Run(Initial(n, processes), sched).procs| == processes
    ensures PresentIsRight(Run(Initial(n, processes), sched))
  {
    if sched != [] {
      RunPresent(n, processes, sched[..|sched| - 1]);
      NextPresentIsRight(Run(Initial(n, processes), sched[..|sched| - 1]), sched[|sched| - 1]);
      NextFrame(Run(Initial(n, processes), sched[..|sched| - 1]), sched[|sched| - 1]);
    }
  }

  lemma {:induction false} RunSteps(n: nat, processes: nat, sched: seq<Move>, id: nat)
    requires 2 <= n <= 15 && id < processes
    ensures Inv(Initial(n, processes)) && |Run(Initial(n, processes), sched).procs| == processes
    ensures StepsAre(n, Run(Initial(n, processes), sched).procs[id], Steps(sched, id))
  {
    if sched != [] {
      RunSteps(n, processes, sched[..|sched| - 1], id);
      NextFrame(Run(Initial(n, processes), sched[..|sched| - 1]), sched[|sched| - 1]);
    }
  }

  lemma {:induction false} RunConcat(s: State, a: seq<Move>, b: seq<Move>)
    requires Inv(s)
    ensures Run(s, a + b) == Run(Run(s, a), b)
  {
    if b == [] {
      assert a + b == a;
    } else {
      RunConcat(s, a, b[..|b| - 1]);
      assert (a + b)[..|a + b| - 1] == a + b[..|b| - 1];
    }
  }

  /** Once `created` is set it stays set, and a process that waits returns at its next step. */
  lemma {:induction false} WaiterReturns(s: State, b: seq<Move>, id: nat)
    requires Inv(s) && id < |s.procs| && s.created && (s.procs[id].Waiting? || s.procs[id].Linked?)
    ensures
      var t := Run(s, b);
      && t.created && |t.procs| == |s.procs| && (t.procs[id].Waiting? || t.procs[id].Linked?)
      && (Steps(b, id) > 0 || s.procs[id].Linked? ==> t.procs[id].Linked?)
  {
    if b != [] {
      WaiterReturns(s, b[..|b| - 1], id);
      NextFrame(Run(s, b[..|b| - 1]), b[|b| - 1]);
    }
  }

  /**
   Linking to memory somebody has initialised: a process that has taken four steps of its own
   returns at its next.
   */
  lemma {:induction false} LinkerReturns(n: nat, processes: nat, a: seq<Move>, b: seq<Move>, id: nat)
    requires 2 <= n <= 15 && id < processes && Inv(Initial(n, processes))
    requires Run(Initial(n, processes), a).created && Steps(a, id) >= 4 && Steps(b, id) >= 1
    ensures |Run(Initial(n, processes), a + b).procs| == processes
    ensures Run(Initial(n, processes), a + b).procs[id].Linked?
  {
    RunSteps(n, processes, a, id);
    RunConcat(Initial(n, processes), a, b);
    WaiterReturns(Run(Initial(n, processes), a), b, id);
  }

  /** The creator waits for nobody: it returns after n + 7 steps of its own. */
  lemma {:induction false} CreatorReturns(n: nat, processes: nat, a: seq<Move>, b: seq<Move>, id: nat)
    requires 2 <= n <= 15 && id < processes && Inv(Initial(n, processes))
    requires |Run(Initial(n, processes), a).procs| == processes && Initialising(Run(Initial(n, processes), a).procs[id])
    requires Steps(a + b, id) >= n + 7
    ensures |Run(Initial(n, processes), a + b).procs| == processes
    ensures Run(Initial(n, processes), a + b).procs[id].Linked?
  {
    RunSteps(n, processes, a + b, id);
    RunConcat(Initial(n, processes), a, b);
    CreatorStays(Run(Initial(n, processes), a), b, id);
  }

  lemma {:induction false} CreatorStays(s: State, b: seq<Move>, id: nat)
    requires Inv(s) && id < |s.procs| && Initialising(s.procs[id])
    ensures |Run(s, b).procs| == |s.procs| && (Initialising(Run(s, b).procs[id]) || Run(s, b).procs[id].Linked?)
  {
    if b != [] {
      CreatorStays(s, b[..|b| - 1], id);
      NextFrame(Run(s, b[..|b| - 1]), b[|b| - 1]);
    }
  }

  /**
   Every link returns: in whatever interleaving all processes have taken n + 7 steps, and however
   linked processes use the memory meanwhile, each has returned or returns at its next step.
   */
  lemma {:induction false} EveryLinkReturns(n: nat, processes: nat, a: seq<Move>, b: seq<Move>, id: nat)
    requires 2 <= n <= 15 && id < processes && forall i :: 0 <= i < processes ==> Steps(a, i) >= n + 7
    requires Steps(b, id) >= 1
    ensures Inv(Initial(n, processes)) && |Run(Initial(n, processes), a + b).procs| == processes
    ensures Run(Initial(n, processes), a + b).procs[id].Linked?
  {
    var s := Initial(n, processes);
    RunPresent(n, processes, a);
    forall i | 0 <= i < processes ensures Run(s, a).procs[i].Waiting? || Run(s, a).procs[i].Linked? {
      RunSteps(n, processes, a, i);
    }
    assert !Run(s, a).procs[id].Opening?;
    LinkerReturns(n, processes, a, b, id);
  }
}
