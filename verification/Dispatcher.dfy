/**
 The dispatcher thread itself (src/host_function_receiver.c:253-315): its two nested loops over
 epoll events, the control pipe and the request and response pipes of all its functions. Each
 of its system calls is one move of the pipeline of that function, made after anything
 callers, other dispatchers and the owner of the control pipe may have done in between.
 */
module Dispatcher {
  import opened Basics
  import opened Pipeline

  const MAX_EPOLL_EVENTS: nat := 16
  const DISPATCHER_EXIT: int := -1

  /** The data word of an epoll event: -1 or the index of a function. */
  datatype Source = Control | Function(id: nat)

  datatype Event = Event(source: Source, epollIn: bool)

  /** What happens outside this thread. */
  datatype Outside = Move(id: nat, move: Pipeline.Move) | Signal(value: int)

  /** Some outside events, and what epoll_wait reports if it returns after them: None is -1. */
  datatype Slice = Slice(events: seq<Outside>, wake: Option<seq<Event>>)

  /** This thread is dispatcher 0 of every function's pipeline. */
  predicate MovesThread(m: Pipeline.Move) {
    match m
    case Wake(d) => d == 0
    case Fetch(d) => d == 0
    case Invoke(d) => d == 0
    case Reply(d) => d == 0
    case _ => false
  }

  function Ack(signal: int): int { if signal == DISPATCHER_EXIT then 0 else signal }

  function Acks(signals: seq<int>): seq<int> {
    seq(|signals|, i requires 0 <= i < |signals| => Ack(signals[i]))
  }

  /** Every pipeline went from its old state to its new one by moves of the step machine. */
  ghost predicate Evolves(before: seq<System>, after: seq<System>, foo: seq<Callback>) {
    |before| == |after| == |foo| && forall f :: 0 <= f < |foo| ==> Reaches(before[f], after[f], foo[f])
  }

  lemma EvolvesNot(before: seq<System>, foo: seq<Callback>)
    requires |before| == |foo|
    ensures Evolves(before, before, foo)
  {
    forall f | 0 <= f < |foo| ensures Reaches(before[f], before[f], foo[f]) { NoMove(before[f], foo[f]); }
  }

  lemma EvolvesBy(before: seq<System>, foo: seq<Callback>, f: nat, m: Pipeline.Move)
    requires |before| == |foo| && f < |foo|
    ensures Evolves(before, before[f := Next(before[f], foo[f], m)], foo)
  {
    hide Next;
    EvolvesNot(before, foo);
    OneMove(before[f], foo[f], m);
  }

  lemma EvolvesOn(a: seq<System>, b: seq<System>, c: seq<System>, foo: seq<Callback>)
    requires Evolves(a, b, foo) && Evolves(b, c, foo)
    ensures Evolves(a, c, foo)
  {
    forall f | 0 <= f < |foo| ensures Reaches(a[f], c[f], foo[f]) { ThenReaches(a[f], b[f], c[f], foo[f]); }
  }

  ghost predicate Good(s: System, foo: Callback) {
    Inv(s, foo) && InOrder(s, foo) && |s.dispatchers| > 0
  }

  lemma NextGood(s: System, foo: Callback, m: Pipeline.Move)
    requires Good(s, foo)
    ensures Good(Next(s, foo, m), foo) && NextKeeps(s, Next(s, foo, m))
  {
    NextInv(s, foo, m);
    NextInOrder(s, foo, m);
    NextFrame(s, foo, m);
  }

  predicate NextKeeps(s: System, t: System) {
    t.szArg == s.szArg && t.szRet == s.szRet && |t.dispatchers| == |s.dispatchers|
  }

  lemma OthersLeaveThread(s: System, foo: Callback, m: Pipeline.Move)
    requires !MovesThread(m) && |s.dispatchers| > 0
    ensures |Next(s, foo, m).dispatchers| > 0 && Next(s, foo, m).dispatchers[0] == s.dispatchers[0]
  {
  }

  /** An event for this source was among the first k reported readable. */
  ghost predicate Selected(events: seq<Event>, k: nat, source: Source) {
    k <= |events| && exists j :: 0 <= j < k && events[j] == Event(source, true)
  }

  ghost predicate Lists(events: seq<Event>, source: Source) {
    exists j :: 0 <= j < |events| && events[j].source == source
  }

  /** In how many batches a source was reported readable. */
  ghost function Reported(batches: seq<seq<Event>>, source: Source): nat {
    if batches == [] then 0
    else
      var last := batches[|batches| - 1];
      Reported(batches[..|batches| - 1], source) + if Selected(last, |last|, source) then 1 else 0
  }

  lemma ReportedMore(batches: seq<seq<Event>>, events: seq<Event>)
    ensures forall s {:trigger Reported(batches + [events], s)} ::
      Reported(batches + [events], s) == Reported(batches, s) + if Selected(events, |events|, s) then 1 else 0
  {
    assert (batches + [events])[..|batches|] == batches;
  }

  class Thread {
    const foo: seq<Callback>
    const szArg: seq<nat>
    const szRet: seq<nat>
    var pipes: seq<System>
    var toDaemon: seq<int>
    var fromDaemon: seq<int>
    var script: seq<Slice>

    ghost var commands: seq<int>            // control values ever written to toDaemon
    ghost var signals: seq<int>             // those this thread has read
    ghost var batches: seq<seq<Event>>      // what each epoll_wait reported

    ghost predicate Valid()
      reads this
    {
      && |pipes| == |foo| == |szArg| == |szRet| && commands == signals + toDaemon
      && forall f :: 0 <= f < |foo| ==>
           Good(pipes[f], foo[f]) && pipes[f].szArg == szArg[f] && pipes[f].szRet == szRet[f]
    }

    /** This thread as the pipeline of function f sees it, with the requests it took and the answers it wrote. */
    ghost function Self(f: nat): Pipeline.Dispatcher
      reads this
      requires Valid() && f < |foo|
    {
      pipes[f].dispatchers[0]
    }

    ghost function At(f: nat): Place
      reads this
      requires Valid() && f < |foo|
    {
      Self(f).at
    }

    ghost predicate Idle()
      reads this
      requires Valid()
    {
      forall f :: 0 <= f < |foo| ==> At(f) == Waiting
    }

    /**
     The thread waits for good in a system call for function f, as nothing happens any more: its
     request pipe is empty, emptied by another dispatcher, or its response pipe has no room.
     */
    ghost predicate Blocked(f: nat)
      reads this
      requires Valid() && f < |foo|
    {
      && script == []
      && (At(f) == Notified ==> pipes[f].req == [])
      && (At(f) != Notified ==> At(f).Answering? && |pipes[f].res| + szRet[f] > pipes[f].capacity)
    }

    ghost predicate SomewhereBlocked()
      reads this
      requires Valid()
    {
      exists f :: 0 <= f < |foo| && Blocked(f)
    }

    constructor (
        foo: seq<Callback>, szArg: seq<nat>, szRet: seq<nat>, capacity: nat, dispatchers: nat, script: seq<Slice>)
      requires |foo| == |szArg| == |szRet| && dispatchers > 0
      requires forall f :: 0 <= f < |foo| ==>
        0 < szArg[f] <= PIPE_BUF && szRet[f] <= PIPE_BUF && Provides(foo[f], szRet[f])
      ensures Valid() && Idle()
      ensures this.foo == foo && this.szArg == szArg && this.szRet == szRet && this.script == script
      ensures forall f :: 0 <= f < |foo| ==> pipes[f] == Initial(szArg[f], szRet[f], capacity, dispatchers)
      ensures toDaemon == [] && signals == [] && fromDaemon == [] && batches == []
    {
      this.foo, this.szArg, this.szRet, this.script := foo, szArg, szRet, script;
      pipes := seq(|foo|, f requires 0 <= f < |foo| => Initial(szArg[f], szRet[f], capacity, dispatchers));
      toDaemon, fromDaemon, commands, signals, batches := [], [], [], [], [];
      new;
      forall f | 0 <= f < |foo| ensures Good(pipes[f], foo[f]) {
        RunInv(szArg[f], szRet[f], capacity, dispatchers, foo[f], []);
        RunInOrder(szArg[f], szRet[f], capacity, dispatchers, foo[f], []);
      }
    }

    /** One system call of this thread on the pipes of function f. */
    method Commit(f: nat, m: Pipeline.Move, next: System)
      requires Valid() && f < |foo| && next == Next(pipes[f], foo[f], m)
      modifies this`pipes
      ensures Valid() && pipes == old(pipes)[f := next]
      ensures Evolves(old(pipes), pipes, foo)
    {
      hide Next, Good, Evolves;
      NextGood(pipes[f], foo[f], m);
      EvolvesBy(pipes, foo, f, m);
      pipes := pipes[f := next];
    }

    /** Whatever the rest of the system does before this thread goes on. */
    method Interfere() returns (wake: Option<seq<Event>>)
      requires Valid()
      modifies this`pipes, this`toDaemon, this`commands, this`script
      ensures Valid() && Evolves(old(pipes), pipes, foo)
      ensures forall f :: 0 <= f < |foo| ==> Self(f) == old(Self(f))
      ensures old(toDaemon) <= toDaemon
      ensures if old(script) == [] then script == [] && wake == None
              else script == old(script)[1..] && wake == old(script)[0].wake
    {
      hide Next, Good, Evolves, Reaches;
      EvolvesNot(pipes, foo);
      if script == [] { return None; }
      var Slice(events, after) := script[0];
      script := script[1..];
      wake := after;
      for i := 0 to |events|
        invariant Valid() && Evolves(old(pipes), pipes, foo)
        invariant forall f :: 0 <= f < |foo| ==> Self(f) == old(Self(f))
        invariant old(toDaemon) <= toDaemon && script == old(script)[1..]
      {
        match events[i]
        case Signal(v) => toDaemon, commands := toDaemon + [v], commands + [v];
        case Move(f, m) =>
          if f < |foo| && !MovesThread(m) {
            ghost var before := pipes;
            Others(f, m);
            EvolvesOn(old(pipes), before, pipes, foo);
          }
      }
    }

    /** What happens while this thread is blocked in a read or a write for function f. */
    method Await(f: nat)
      requires Valid() && f < |foo|
      requires At(f) == Notified ==> pipes[f].req == []
      requires At(f) != Notified ==> At(f).Answering? && |pipes[f].res| + szRet[f] > pipes[f].capacity
      modifies this`pipes, this`toDaemon, this`commands, this`script
      ensures Valid() && Evolves(old(pipes), pipes, foo)
      ensures forall g :: 0 <= g < |foo| ==> Self(g) == old(Self(g))
      ensures old(toDaemon) <= toDaemon && script == if old(script) == [] then [] else old(script)[1..]
    {
      var _ := Interfere();
    }

    method Others(f: nat, m: Pipeline.Move)
      requires Valid() && f < |foo| && !MovesThread(m)
      modifies this`pipes
      ensures Valid() && Evolves(old(pipes), pipes, foo)
      ensures forall g :: 0 <= g < |foo| ==> Self(g) == old(Self(g))
    {
      hide Evolves, Next;
      OthersLeaveThread(pipes[f], foo[f], m);
      Commit(f, m, Next(pipes[f], foo[f], m));
    }

    predicate Ready(source: Source)
      reads this
    {
      match source
      case Control => toDaemon != []
      case Function(f) => f < |pipes| && pipes[f].req != []
    }

    // ---- the thread's own system calls ----

    /** epoll_wait: distinct sources that are readable, at most MAX_EPOLL_EVENTS; or an error. */
    method EpollWait() returns (failed: bool, events: seq<Event>)
      requires Valid() && script != [] && Idle()
      modifies this`pipes, this`toDaemon, this`commands, this`script, this`batches
      ensures Valid() && Evolves(old(pipes), pipes, foo) && batches == old(batches) + [events]
      ensures |script| < |old(script)| && old(toDaemon) <= toDaemon
      ensures failed <==> old(script)[0].wake.None?
      ensures failed ==> events == []
      ensures !failed ==> Reports(events, old(script)[0].wake.value)
      ensures |events| <= 16
      ensures forall i, j :: 0 <= i < j < |events| ==> events[i].source != events[j].source
      ensures forall i :: 0 <= i < |events| ==> Ready(events[i].source)
      ensures forall f :: 0 <= f < |foo| ==> Self(f) == Told(old(Self(f)), events, f)
    {
      hide Next, Good, Evolves, Reaches;
      NoneSelected();
      assert forall f :: 0 <= f < |foo| ==> Self(f).at == At(f) == Waiting;
      events := [];
      var wake := Interfere();
      if wake.None? {
        batches := batches + [[]];
        return true, [];
      }
      failed := false;
      for i := 0 to |wake.value|
        invariant batches == old(batches) && Reports(events, wake.value[..i])
        invariant Valid() && Evolves(old(pipes), pipes, foo)
        invariant |script| < |old(script)| && old(toDaemon) <= toDaemon
        invariant |events| <= MAX_EPOLL_EVENTS
        invariant forall i, j :: 0 <= i < j < |events| ==> events[i].source != events[j].source
        invariant forall i :: 0 <= i < |events| ==> Ready(events[i].source)
        invariant forall f :: 0 <= f < |foo| ==> Self(f) == Told(old(Self(f)), events, f)
      {
        var e := wake.value[i];
        var listed := exists j :: 0 <= j < |events| && events[j].source == e.source;
        if |events| < MAX_EPOLL_EVENTS && Ready(e.source) && !listed {
          ghost var before := pipes;
          Report(events, e);
          EvolvesOn(old(pipes), before, pipes, foo);
          ReportsMore(events, wake.value[..i], e);
          events := events + [e];
        }
        assert wake.value[..i + 1] == wake.value[..i] + [e];
      }
      assert wake.value[..|wake.value|] == wake.value;
      batches := batches + [events];
    }

    /** Of the sources of a wake-up, those readable are reported, up to MAX_EPOLL_EVENTS, and no others. */
    ghost predicate Reports(events: seq<Event>, wake: seq<Event>)
      reads this
    {
      && (forall e :: e in events ==> e in wake)
      && (|events| == 16 || forall e :: e in wake && Ready(e.source) ==> Lists(events, e.source))
    }

    lemma ReportsMore(events: seq<Event>, wake: seq<Event>, e: Event)
      requires Reports(events, wake) && |events| < MAX_EPOLL_EVENTS
      ensures Reports(events + [e], wake + [e])
    {
      forall x | x in wake && Ready(x.source) ensures Lists(events + [e], x.source) {
        var j :| 0 <= j < |events| && events[j].source == x.source;
        assert (events + [e])[j].source == x.source;
      }
      assert (events + [e])[|events|].source == e.source;
    }

    /** One more event reported; if it says a request can be read, the thread is notified of it. */
    method Report(ghost events: seq<Event>, e: Event)
      requires Valid() && Ready(e.source)
      requires forall j :: 0 <= j < |events| ==> events[j].source != e.source
      requires forall f :: 0 <= f < |foo| ==> Self(f) == Told(Self(f), events, f)
      modifies this`pipes
      ensures Valid() && Evolves(old(pipes), pipes, foo)
      ensures forall s :: old(Ready(s)) <==> Ready(s)
      ensures forall f :: 0 <= f < |foo| ==> Self(f) == Told(old(Self(f)), events + [e], f)
    {
      hide Good, Evolves, Reaches;
      SelectedMore(events, e);
      EvolvesNot(pipes, foo);
      if e.epollIn && e.source.Function? {
        var f := e.source.id;
        assert At(f) == Waiting;
        Commit(f, Wake(0), pipes[f].Moved(0, Notified)) by { Counts(f); }
      }
    }

    /** read on a request pipe: waits for bytes, then takes at most one request's size. */
    method ReadRequest(f: nat) returns (stuck: bool, buffer: Bytes)
      requires Valid() && f < |foo| && At(f) == Notified
      modifies this`pipes, this`toDaemon, this`commands, this`script
      ensures Valid() && Evolves(old(pipes), pipes, foo)
      ensures forall g :: 0 <= g < |foo| && g != f ==> Self(g) == old(Self(g))
      ensures old(toDaemon) <= toDaemon && |script| <= |old(script)|
      ensures stuck ==> Blocked(f)
      ensures !stuck ==> |buffer| == szArg[f]
      ensures !stuck ==> Self(f) == old(Self(f)).(at := Running(buffer), took := old(Self(f).took) + [buffer])
    {
      hide Next, Evolves, Reaches, InOrder, Framed;
      stuck, buffer := true, [];
      var _ := Interfere();
      while pipes[f].req == [] && script != []
        invariant Valid() && Evolves(old(pipes), pipes, foo)
        invariant forall g :: 0 <= g < |foo| ==> Self(g) == old(Self(g))
        invariant old(toDaemon) <= toDaemon && |script| <= |old(script)|
        decreases |script|
      {
        ghost var before := pipes;
        Await(f);
        EvolvesOn(old(pipes), before, pipes, foo);
      }
      if pipes[f].req != [] {
        ghost var before := pipes;
        FetchTakes(pipes[f], foo[f], 0);
        stuck, buffer := false, pipes[f].req[..Min(|pipes[f].req|, szArg[f])];
        Commit(f, Fetch(0), pipes[f].Taken(0, buffer).(req := pipes[f].req[|buffer|..]));
        EvolvesOn(old(pipes), before, pipes, foo);
      }
    }

    /** The callback, called blockingly: None is NULL. */
    method CallFunction(f: nat, buffer: Bytes) returns (answer: Option<Bytes>)
      requires Valid() && f < |foo| && At(f) == Running(buffer)
      modifies this`pipes, this`toDaemon, this`commands, this`script
      ensures Valid() && Evolves(old(pipes), pipes, foo)
      ensures forall g :: 0 <= g < |foo| && g != f ==> Self(g) == old(Self(g))
      ensures old(toDaemon) <= toDaemon && |script| <= |old(script)|
      ensures answer == foo[f](buffer) && (answer.Some? ==> |answer.value| >= szRet[f])
      ensures
        var next := if answer.Some? && szRet[f] > 0 then Answering(answer.value[..szRet[f]]) else Waiting;
        Self(f) == old(Self(f)).(at := next)
    {
      hide Evolves, Reaches, InOrder, Framed;
      var _ := Interfere();
      ghost var before := pipes;
      answer := foo[f](buffer);
      var next := if answer.Some? && szRet[f] != 0 then Answering(answer.value[..szRet[f]]) else Waiting;
      Commit(f, Invoke(0), pipes[f].Moved(0, next));
      EvolvesOn(old(pipes), before, pipes, foo);
    }

    /** write on a response pipe: waits until the answer fits. */
    method WriteAnswer(f: nat, answer: Bytes) returns (stuck: bool)
      requires Valid() && f < |foo| && |answer| >= szRet[f] > 0 && At(f) == Answering(answer[..szRet[f]])
      modifies this`pipes, this`toDaemon, this`commands, this`script
      ensures Valid() && Evolves(old(pipes), pipes, foo)
      ensures forall g :: 0 <= g < |foo| && g != f ==> Self(g) == old(Self(g))
      ensures old(toDaemon) <= toDaemon && |script| <= |old(script)|
      ensures stuck ==> Blocked(f)
      ensures !stuck ==>
        Self(f) == old(Self(f)).(at := Waiting, wrote := old(Self(f).wrote) + [answer[..szRet[f]]])
    {
      hide Evolves, Reaches, InOrder, Framed;
      var _ := Interfere();
      while |pipes[f].res| + szRet[f] > pipes[f].capacity && script != []
        invariant Valid() && Evolves(old(pipes), pipes, foo)
        invariant forall g :: 0 <= g < |foo| ==> Self(g) == old(Self(g))
        invariant old(toDaemon) <= toDaemon && |script| <= |old(script)|
        decreases |script|
      {
        ghost var before := pipes;
        Await(f);
        EvolvesOn(old(pipes), before, pipes, foo);
      }
      stuck := |pipes[f].res| + szRet[f] > pipes[f].capacity;
      if !stuck {
        ghost var before := pipes;
        var written := answer[..szRet[f]];
        Commit(f, Reply(0), pipes[f].Written(0, written).(res := pipes[f].res + written));
        EvolvesOn(old(pipes), before, pipes, foo);
      }
    }

    // ---- the loops ----

    /**
     One readable request pipe: this thread reads exactly one whole request from it, calls the
     function once, and writes exactly its answer, unless it waits for good for one or the other.
     */
    method Serve(f: nat) returns (stuck: bool)
      requires Valid() && f < |foo| && At(f) == Notified
      modifies this`pipes, this`toDaemon, this`commands, this`script
      ensures Valid() && Evolves(old(pipes), pipes, foo)
      ensures forall g :: 0 <= g < |foo| && g != f ==> Self(g) == old(Self(g))
      ensures old(toDaemon) <= toDaemon && |script| <= |old(script)|
      ensures stuck ==> Blocked(f)
      ensures !stuck ==> ServedOne(old(Self(f)), Self(f), foo[f], szArg[f], szRet[f])
    {
      hide Next, Evolves, Reaches, Good;
      var buffer;
      stuck, buffer := ReadRequest(f);
      if stuck { return; }
      ghost var fetched := pipes;
      var answer := CallFunction(f, buffer);
      EvolvesOn(old(pipes), fetched, pipes, foo);
      if answer.Some? && szRet[f] != 0 {
        ghost var invoked := pipes;
        stuck := WriteAnswer(f, answer.value);
        EvolvesOn(old(pipes), invoked, pipes, foo);
      }
      assert stuck || Served(old(Self(f)), Self(f), foo[f], szRet[f], buffer);
    }

    /** A value on the control pipe: acknowledged, and EXIT ends the outer loop. */
    method Obey() returns (exit: bool)
      requires Valid() && toDaemon != []
      modifies this`toDaemon, this`fromDaemon, this`signals
      ensures Valid() && toDaemon == old(toDaemon)[1..] && signals == old(signals) + [old(toDaemon[0])]
      ensures fromDaemon == old(fromDaemon) + [if old(toDaemon[0]) == -1 then 0 else old(toDaemon[0])]
      ensures exit <==> old(toDaemon[0]) == DISPATCHER_EXIT
    {
      hide Good;
      var tmp := toDaemon[0];
      toDaemon, signals := toDaemon[1..], signals + [tmp];
      exit := tmp == DISPATCHER_EXIT;
      if exit { tmp := 0; }
      fromDaemon := fromDaemon + [tmp];
    }

    /** One event of a batch. */
    method HandleEvent(e: Event) returns (exit: bool, stuck: bool)
      requires Valid() && fromDaemon == Acks(signals)
      requires e == Event(Control, true) ==> toDaemon != []
      requires e.epollIn && e.source.Function? ==> e.source.id < |foo| && At(e.source.id) == Notified
      modifies this`pipes, this`toDaemon, this`commands, this`fromDaemon, this`script, this`signals
      ensures Valid() && Evolves(old(pipes), pipes, foo) && |script| <= |old(script)|
      ensures fromDaemon == Acks(signals) && (stuck ==> SomewhereBlocked())
      ensures !stuck ==> forall f :: 0 <= f < |foo| ==>
        if e == Event(Function(f), true) then ServedOne(old(Self(f)), Self(f), foo[f], szArg[f], szRet[f])
        else Self(f) == old(Self(f))
      ensures e == Event(Control, true) ==>
        signals == old(signals) + [old(toDaemon[0])] && (exit <==> old(toDaemon[0]) == DISPATCHER_EXIT)
      ensures e != Event(Control, true) ==> signals == old(signals) && !exit && old(toDaemon) <= toDaemon
    {
      hide Next, Evolves, Reaches, Good, Answers, Acks, ServedOne;
      exit, stuck := false, false;
      EvolvesNot(pipes, foo);
      if e.epollIn {
        match e.source
        case Control =>
          AcksAppend(signals, toDaemon[0]);
          exit := Obey();
        case Function(f) => stuck := Serve(f);
      }
    }

    /**
     All events of one epoll_wait: one request of each function reported readable and none of
     the others. Events behind an EXIT are still served.
     */
    method HandleEvents(events: seq<Event>) returns (exit: bool, stuck: bool)
      requires Valid() && fromDaemon == Acks(signals)
      requires forall i, j :: 0 <= i < j < |events| ==> events[i].source != events[j].source
      requires forall i :: 0 <= i < |events| ==> Ready(events[i].source)
      requires forall f :: 0 <= f < |foo| ==> Self(f) == Told(Self(f), events, f)
      modifies this`pipes, this`toDaemon, this`commands, this`fromDaemon, this`script, this`signals
      ensures Valid() && Evolves(old(pipes), pipes, foo) && |script| <= |old(script)|
      ensures fromDaemon == Acks(signals) && (if stuck then SomewhereBlocked() else Idle())
      ensures !stuck ==> forall f :: 0 <= f < |foo| ==>
        if Selected(events, |events|, Function(f)) then ServedOne(old(Self(f)), Self(f), foo[f], szArg[f], szRet[f])
        else Self(f) == old(Self(f))
      ensures !stuck && Selected(events, |events|, Control) ==>
        && old(toDaemon) != [] && signals == old(signals) + [old(toDaemon[0])]
        && (exit <==> old(toDaemon[0]) == DISPATCHER_EXIT)
      ensures !Selected(events, |events|, Control) ==> signals == old(signals) && !exit
    {
      hide Next, Evolves, Reaches, Good, Answers, ServedOne;
      exit, stuck := false, false;
      EvolvesNot(pipes, foo);
      for i := 0 to |events|
        invariant Valid() && Evolves(old(pipes), pipes, foo) && |script| <= |old(script)|
        invariant fromDaemon == Acks(signals)
        invariant forall f :: 0 <= f < |foo| ==>
          if Selected(events, i, Function(f)) then ServedOne(old(Self(f)), Self(f), foo[f], szArg[f], szRet[f])
          else Self(f) == old(Self(f))
        invariant !Selected(events, i, Control) ==> old(toDaemon) <= toDaemon && signals == old(signals) && !exit
        invariant Selected(events, i, Control) ==>
          && old(toDaemon) != [] && signals == old(signals) + [old(toDaemon[0])]
          && (exit <==> old(toDaemon[0]) == DISPATCHER_EXIT)
      {
        SelectedNext(events, i);
        ghost var before := pipes;
        var now;
        now, stuck := HandleEvent(events[i]);
        EvolvesOn(old(pipes), before, pipes, foo);
        if stuck { return; }
        exit := exit || now;
      }
      forall f | 0 <= f < |foo| ensures At(f) == Waiting {
        if Selected(events, |events|, Function(f)) {
          ServedWaits(old(Self(f)), Self(f), foo[f], szArg[f], szRet[f]);
        }
      }
    }

    /**
     The thread, until an EXIT arrives, it blocks for good in a read or a write, or nothing
     happens any more. It obeys one control value and takes one request for each report of them.
     Throughout, every pipeline makes only moves of the step machine. However many dispatchers
     a function has, this one has then written exactly the answers to the requests it took, in
     order; if it is the only one, those are all the requests delivered.
     */
    method Dispatch() returns (exited: bool, stuck: bool)
      requires Valid() && Idle() && signals == [] && fromDaemon == [] && batches == []
      modifies this`pipes, this`toDaemon, this`commands, this`fromDaemon, this`script, this`signals, this`batches
      ensures Valid() && Evolves(old(pipes), pipes, foo) && fromDaemon == Acks(signals)
      ensures if stuck then SomewhereBlocked() else Idle()
      ensures !stuck ==> |signals| == Reported(batches, Control)
      ensures !stuck ==> forall f :: 0 <= f < |foo| ==>
        |Self(f).took| == |old(Self(f).took)| + Reported(batches, Function(f))
      ensures !stuck ==> forall f :: 0 <= f < |foo| ==> Self(f).wrote == Answers(foo[f], szRet[f], Self(f).took)
      ensures !stuck ==> forall f :: 0 <= f < |foo| && |pipes[f].dispatchers| == 1 ==>
        pipes[f].answered == Answers(foo[f], szRet[f], pipes[f].delivered)
      ensures !stuck && exited ==>
        signals != [] && signals[|signals| - 1] == DISPATCHER_EXIT && DISPATCHER_EXIT !in signals[..|signals| - 1]
      ensures !stuck && !exited ==> DISPATCHER_EXIT !in signals && script == []
    {
      hide Next, Evolves, Reaches, Good, Selected, Acks, Told, ServedOne, Blocked, Reports;
      exited, stuck := false, false;
      EvolvesNot(pipes, foo);
      NoAcks();
      while !exited && !stuck && script != []
        invariant Valid() && Evolves(old(pipes), pipes, foo) && fromDaemon == Acks(signals)
        invariant if stuck then SomewhereBlocked() else Idle()
        invariant !stuck ==> |signals| == Reported(batches, Control)
        invariant !stuck ==> forall f :: 0 <= f < |foo| ==>
          |Self(f).took| == |old(Self(f).took)| + Reported(batches, Function(f))
        invariant !stuck && exited ==>
          signals != [] && signals[|signals| - 1] == DISPATCHER_EXIT && DISPATCHER_EXIT !in signals[..|signals| - 1]
        invariant !stuck && !exited ==> DISPATCHER_EXIT !in signals
        decreases |script|
      {
        ghost var before, had := pipes, batches;
        var failed, events := EpollWait();
        ReportedMore(had, events);
        EvolvesOn(old(pipes), before, pipes, foo);
        ToldTwice(events);
        if failed { NoneSelected(); continue; }
        ghost var waited := pipes;
        label Waited:
        exited, stuck := HandleEvents(events);
        if !stuck {
          forall f | 0 <= f < |foo| && Selected(events, |events|, Function(f))
            ensures |Self(f).took| == |old@Waited(Self(f).took)| + 1
          {
            ServedTook(old@Waited(Self(f)), Self(f), foo[f], szArg[f], szRet[f]);
          }
        }
        EvolvesOn(old(pipes), waited, pipes, foo);
      }
      if !stuck { OwnAnswers(); }
    }

    lemma OwnAnswers()
      requires Valid() && Idle()
      ensures forall f :: 0 <= f < |foo| ==> Self(f).wrote == Answers(foo[f], szRet[f], Self(f).took)
      ensures forall f :: 0 <= f < |foo| && |pipes[f].dispatchers| == 1 ==>
        pipes[f].answered == Answers(foo[f], szRet[f], pipes[f].delivered)
    {
      forall f | 0 <= f < |foo|
        ensures Self(f).wrote == Answers(foo[f], szRet[f], Self(f).took)
        ensures |pipes[f].dispatchers| == 1 ==> pipes[f].answered == Answers(foo[f], szRet[f], pipes[f].delivered)
      {
        assert At(f) == Waiting && AnswersOwn(foo[f], szRet[f], Self(f));
      }
    }

    lemma Counts(f: nat)
      requires Valid() && f < |foo|
      ensures |pipes[f].dispatchers| > 0
    {
    }
  }

  /** A dispatcher that waited, told of the events of a batch. */
  ghost function Told(d: Pipeline.Dispatcher, events: seq<Event>, f: nat): Pipeline.Dispatcher {
    d.(at := if Selected(events, |events|, Function(f)) then Notified else Waiting)
  }

  lemma ToldTwice(events: seq<Event>)
    ensures forall d, f {:trigger Told(d, events, f)} :: Told(Told(d, events, f), events, f) == Told(d, events, f)
    ensures forall d, f {:trigger Told(d, events, f)} ::
      Selected(events, |events|, Function(f)) || Told(d, events, f).at == Waiting
    ensures forall d, f {:trigger Told(d, events, f)} :: Told(d, events, f).took == d.took
  {
  }

  /** From one state of a dispatcher to another: one request taken, its answer written, nothing owed. */
  ghost predicate Served(
    before: Pipeline.Dispatcher, after: Pipeline.Dispatcher, foo: Callback, szRet: nat, request: Bytes)
  {
    && after.at == Waiting && after.took == before.took + [request]
    && after.wrote == before.wrote + AnswerTo(foo, szRet, request)
  }

  ghost predicate ServedOne(
    before: Pipeline.Dispatcher, after: Pipeline.Dispatcher, foo: Callback, szArg: nat, szRet: nat)
  {
    exists request :: |request| == szArg && Served(before, after, foo, szRet, request)
  }

  lemma ServedTook(before: Pipeline.Dispatcher, after: Pipeline.Dispatcher, foo: Callback, szArg: nat, szRet: nat)
    requires ServedOne(before, after, foo, szArg, szRet)
    ensures |after.took| == |before.took| + 1
  {
  }

  lemma ServedWaits(before: Pipeline.Dispatcher, after: Pipeline.Dispatcher, foo: Callback, szArg: nat, szRet: nat)
    requires ServedOne(before, after, foo, szArg, szRet)
    ensures after.at == Waiting
  {
  }

  lemma NoAcks()
    ensures Acks([]) == []
  {
  }

  lemma AcksAppend(signals: seq<int>, v: int)
    ensures Acks(signals + [v]) == Acks(signals) + [Ack(v)]
  {
  }

  lemma SelectedNext(events: seq<Event>, i: nat)
    requires i < |events|
    requires forall i, j :: 0 <= i < j < |events| ==> events[i].source != events[j].source
    ensures !Selected(events, i, events[i].source)
    ensures forall s :: Selected(events, i + 1, s) <==> Selected(events, i, s) || events[i] == Event(s, true)
    ensures forall s :: Selected(events, i + 1, s) ==> Selected(events, |events|, s)
  {
  }

  lemma NoneSelected()
    ensures forall s :: !Selected([], 0, s)
  {
  }

  lemma SelectedMore(events: seq<Event>, e: Event)
    ensures forall s ::
      Selected(events + [e], |events| + 1, s) <==> Selected(events, |events|, s) || e == Event(s, true)
  {
    forall s ensures Selected(events + [e], |events| + 1, s) <==> Selected(events, |events|, s) || e == Event(s, true) {
      if Selected(events, |events|, s) {
        var j :| 0 <= j < |events| && events[j] == Event(s, true);
        assert (events + [e])[j] == Event(s, true);
      }
      assert (events + [e])[|events|] == e;
    }
  }
}
