/**
 Host functions as a message system: any number of callers write requests of one size into
 the request pipe of a name, any number of dispatchers read them, call the function and write
 its answers, and callers read the answers (src/host_function_caller.c:100-117,
 src/host_function_receiver.c:263-312). A run is a sequence of moves; a move that would block
 changes nothing.
 */
module Pipeline {
  import opened Basics

  /** The limit up to which writes to a pipe are atomic, as Linux sets it. */
  const PIPE_BUF: nat := 4096

  /** Where a dispatcher thread is. */
  datatype Place =
    | Waiting                      // in epoll_wait
    | Notified                     // about to read
    | Running(request: Bytes)      // inside the callback
    | Answering(answer: Bytes)     // about to write

  /** A dispatcher thread, with two histories: the requests it read and the answers it wrote, in order. */
  datatype Dispatcher = Dispatcher(at: Place, took: seq<Bytes>, wrote: seq<Bytes>)

  datatype Move =
    | Call(arg: Bytes)
    | Wake(d: nat)
    | Fetch(d: nat)
    | Invoke(d: nat)
    | Reply(d: nat)
    | Collect

  datatype System = System(
    szArg: nat,
    szRet: nat,
    capacity: nat,                 // of each pipe; a write that does not fit blocks
    req: Bytes,
    res: Bytes,
    dispatchers: seq<Dispatcher>,
    sent: seq<Bytes>,              // history: requests written, in order
    delivered: seq<Bytes>,         // history: requests handed to the callback, in order
    answered: seq<Bytes>,          // history: answers written, in order
    collected: seq<Bytes>,         // history: answers callers got, in order
    takers: seq<nat>,              // history: which dispatcher read each delivered request
    writers: seq<nat>)             // history: which dispatcher wrote each answer
  {
    /** Dispatcher d goes elsewhere. */
    function Moved(d: nat, at: Place): System
      requires d < |dispatchers|
    {
      this.(dispatchers := dispatchers[d := dispatchers[d].(at := at)])
    }

    /** Dispatcher d has read a request and begins to handle it. */
    function Taken(d: nat, request: Bytes): System
      requires d < |dispatchers|
    {
      var took := dispatchers[d].(at := Running(request), took := dispatchers[d].took + [request]);
      this.(dispatchers := dispatchers[d := took], delivered := delivered + [request], takers := takers + [d])
    }

    /** Dispatcher d has written an answer and is done. */
    function Written(d: nat, answer: Bytes): System
      requires d < |dispatchers|
    {
      var wrote := dispatchers[d].(at := Waiting, wrote := dispatchers[d].wrote + [answer]);
      this.(dispatchers := dispatchers[d := wrote], answered := answered + [answer], writers := writers + [d])
    }
  }

  /** A callback: None is NULL. */
  type Callback = Bytes -> Option<Bytes>

  function Min(a: nat, b: nat): nat { if a < b then a else b }

  /** Whatever a callback returns is at least as long as the answers of its function. */
  ghost predicate Provides(foo: Callback, szRet: nat) {
    forall q :: foo(q).Some? ==> |foo(q).value| >= szRet
  }

  /** What one request puts into the response pipe: nothing for NULL or for functions without answers. */
  function AnswerTo(foo: Callback, szRet: nat, request: Bytes): seq<Bytes> {
    match foo(request)
    case None => []
    case Some(a) => if szRet == 0 then [] else [a[..Min(szRet, |a|)]]
  }

  function Answers(foo: Callback, szRet: nat, requests: seq<Bytes>): seq<Bytes> {
    if requests == [] then []
    else Answers(foo, szRet, requests[..|requests| - 1]) + AnswerTo(foo, szRet, requests[|requests| - 1])
  }

  function Next(s: System, foo: Callback, m: Move): System {
    match m
    case Call(arg) =>
      if |arg| == s.szArg && |s.req| + s.szArg <= s.capacity then s.(req := s.req + arg, sent := s.sent + [arg]) else s
    case Wake(d) =>
      if d < |s.dispatchers| && s.dispatchers[d].at.Waiting? && s.req != [] then s.Moved(d, Notified) else s
    case Fetch(d) =>
      if d < |s.dispatchers| && s.dispatchers[d].at.Notified? && s.req != [] then
        var k := Min(|s.req|, s.szArg);
        if k != s.szArg then s.Moved(d, Waiting).(req := s.req[k..])
        else s.Taken(d, s.req[..k]).(req := s.req[k..])
      else s
    case Invoke(d) =>
      if d < |s.dispatchers| && s.dispatchers[d].at.Running? then
        var answer := AnswerTo(foo, s.szRet, s.dispatchers[d].at.request);
        s.Moved(d, if answer == [] then Waiting else Answering(answer[0]))
      else s
    case Reply(d) =>
      if d < |s.dispatchers| && s.dispatchers[d].at.Answering? && |s.res| + s.szRet <= s.capacity then
        var answer := s.dispatchers[d].at.answer;
        s.Written(d, answer).(res := s.res + answer)
      else s
    case Collect =>
      if s.res != [] then
        var k := Min(|s.res|, s.szRet);
        if k != s.szRet then s.(res := s.res[k..])
        else s.(res := s.res[k..], collected := s.collected + [s.res[..k]])
      else s
  }

  function Initial(szArg: nat, szRet: nat, capacity: nat, dispatchers: nat): System {
    System(szArg, szRet, capacity, [], [], seq(dispatchers, _ => Dispatcher(Waiting, [], [])), [], [], [], [], [], [])
  }

  function Run(s: System, foo: Callback, moves: seq<Move>): System {
    if moves == [] then s else Next(Run(s, foo, moves[..|moves| - 1]), foo, moves[|moves| - 1])
  }

  ghost predicate Reaches(s: System, t: System, foo: Callback) {
    exists moves :: Run(s, foo, moves) == t
  }

  lemma OneMove(s: System, foo: Callback, m: Move)
    ensures Reaches(s, Next(s, foo, m), foo)
  {
    assert Run(s, foo, [m]) == Next(Run(s, foo, []), foo, m);
  }

  lemma RunNone(s: System, foo: Callback)
    ensures Run(s, foo, []) == s
  {
  }

  lemma RunOne(s: System, foo: Callback, moves: seq<Move>, m: Move)
    ensures Run(s, foo, moves + [m]) == Next(Run(s, foo, moves), foo, m)
  {
    assert (moves + [m])[..|moves|] == moves;
  }

  lemma NoMove(s: System, foo: Callback)
    ensures Reaches(s, s, foo)
  {
    assert Run(s, foo, []) == s;
  }

  lemma {:induction false} RunConcat(s: System, foo: Callback, a: seq<Move>, b: seq<Move>)
    ensures Run(s, foo, a + b) == Run(Run(s, foo, a), foo, b)
  {
    if b == [] {
      assert a + b == a;
    } else {
      RunConcat(s, foo, a, b[..|b| - 1]);
      assert (a + b)[..|a + b| - 1] == a + b[..|b| - 1];
    }
  }

  lemma ThenReaches(s: System, t: System, u: System, foo: Callback)
    requires Reaches(s, t, foo) && Reaches(t, u, foo)
    ensures Reaches(s, u, foo)
  {
    var a :| Run(s, foo, a) == t;
    var b :| Run(t, foo, b) == u;
    RunConcat(s, foo, a, b);
  }

  // ---- framing ----

  function Flat(frames: seq<Bytes>): Bytes {
    if frames == [] then [] else frames[0] + Flat(frames[1..])
  }

  predicate AllSized(frames: seq<Bytes>, size: nat) {
    forall i :: 0 <= i < |frames| ==> |frames[i]| == size
  }

  lemma {:induction false} FlatAppend(frames: seq<Bytes>, x: Bytes)
    ensures Flat(frames + [x]) == Flat(frames) + x
  {
    if frames == [] {
      assert frames + [x] == [x];
      assert [x][1..] == [];
    } else {
      FlatAppend(frames[1..], x);
      assert (frames + [x])[1..] == frames[1..] + [x];
      assert Flat(frames + [x]) == frames[0] + Flat(frames[1..] + [x]);
    }
  }

  /** A pipe between what went in and what came out: whole frames, in order, none lost or repeated. */
  predicate Framed(pipe: Bytes, size: nat, written: seq<Bytes>, read: seq<Bytes>) {
    && read <= written && AllSized(written, size)
    && pipe == Flat(written[|read|..])
  }

  lemma FramedWrite(pipe: Bytes, size: nat, written: seq<Bytes>, read: seq<Bytes>, x: Bytes)
    requires Framed(pipe, size, written, read) && |x| == size
    ensures Framed(pipe + x, size, written + [x], read)
  {
    FlatAppend(written[|read|..], x);
    assert (written + [x])[|read|..] == written[|read|..] + [x];
  }

  /** A read of one frame's size from a pipe that is not empty gets exactly the next frame. */
  lemma FramedRead(pipe: Bytes, size: nat, written: seq<Bytes>, read: seq<Bytes>)
    requires Framed(pipe, size, written, read) && pipe != [] && size > 0
    ensures |read| < |written| && |pipe| >= size && pipe[..size] == written[|read|]
    ensures Framed(pipe[size..], size, written, read + [written[|read|]])
  {
    var rest := written[|read|..];
    assert rest != [];
    assert rest[0] == written[|read|] && rest[1..] == written[|read| + 1..];
    assert pipe == rest[0] + Flat(rest[1..]);
  }

  // ---- conservation ----

  /** The answers a dispatcher still owes for what it has fetched. */
  function Owed(foo: Callback, szRet: nat, at: Place): seq<Bytes> {
    match at
    case Running(q) => AnswerTo(foo, szRet, q)
    case Answering(a) => [a]
    case _ => []
  }

  function Count(answers: seq<Bytes>, v: Bytes): nat { multiset(answers)[v] }

  /** How often v occurs in all the parts together. */
  function Total(parts: seq<seq<Bytes>>, v: Bytes): nat {
    if parts == [] then 0 else Total(parts[..|parts| - 1], v) + Count(parts[|parts| - 1], v)
  }

  function Owes(foo: Callback, szRet: nat, ds: seq<Dispatcher>): seq<seq<Bytes>> {
    seq(|ds|, d requires 0 <= d < |ds| => Owed(foo, szRet, ds[d].at))
  }

  function Tooks(ds: seq<Dispatcher>): seq<seq<Bytes>> {
    seq(|ds|, d requires 0 <= d < |ds| => ds[d].took)
  }

  function Wrotes(ds: seq<Dispatcher>): seq<seq<Bytes>> {
    seq(|ds|, d requires 0 <= d < |ds| => ds[d].wrote)
  }

  ghost predicate Inv(s: System, foo: Callback) {
    && Provides(foo, s.szRet)
    && 0 < s.szArg <= PIPE_BUF && s.szRet <= PIPE_BUF
    && Framed(s.req, s.szArg, s.sent, s.delivered)
    && Framed(s.res, s.szRet, s.answered, s.collected)
    && (s.szRet == 0 ==> s.answered == [])
    && (forall d :: 0 <= d < |s.dispatchers| && s.dispatchers[d].at.Answering? ==>
          s.szRet > 0 && |s.dispatchers[d].at.answer| == s.szRet)
  }

  lemma NextInv(s: System, foo: Callback, m: Move)
    requires Inv(s, foo)
    ensures Inv(Next(s, foo, m), foo)
  {
    match m
    case Call(arg) =>
      if |arg| == s.szArg { FramedWrite(s.req, s.szArg, s.sent, s.delivered, arg); }
    case Fetch(d) =>
      if s.req != [] { FramedRead(s.req, s.szArg, s.sent, s.delivered); }
    case Reply(d) =>
      if d < |s.dispatchers| && s.dispatchers[d].at.Answering? {
        FramedWrite(s.res, s.szRet, s.answered, s.collected, s.dispatchers[d].at.answer);
      }
    case Collect =>
      if s.res != [] { CollectFrame(s, foo); }
    case _ =>
  }

  lemma CollectFrame(s: System, foo: Callback)
    requires Inv(s, foo) && s.res != []
    ensures s.szRet > 0 && |s.collected| < |s.answered| && |s.res| >= s.szRet
    ensures s.res[..s.szRet] == s.answered[|s.collected|]
    ensures Framed(s.res[s.szRet..], s.szRet, s.answered, s.collected + [s.answered[|s.collected|]])
  {
    FramedRead(s.res, s.szRet, s.answered, s.collected);
  }

  lemma NextFrame(s: System, foo: Callback, m: Move)
    ensures var t := Next(s, foo, m); t.szArg == s.szArg && t.szRet == s.szRet && |t.dispatchers| == |s.dispatchers|
  {
  }

  lemma {:induction false} RunInv(szArg: nat, szRet: nat, capacity: nat, n: nat, foo: Callback, moves: seq<Move>)
    requires 0 < szArg <= PIPE_BUF && szRet <= PIPE_BUF && Provides(foo, szRet)
    ensures var t := Run(Initial(szArg, szRet, capacity, n), foo, moves);
      Inv(t, foo) && t.szArg == szArg && t.szRet == szRet && |t.dispatchers| == n
  {
    if moves != [] {
      var a := moves[..|moves| - 1];
      RunInv(szArg, szRet, capacity, n, foo, a);
      NextInv(Run(Initial(szArg, szRet, capacity, n), foo, a), foo, moves[|moves| - 1]);
      NextFrame(Run(Initial(szArg, szRet, capacity, n), foo, a), foo, moves[|moves| - 1]);
    }
  }

  /**
   Framing, for any number of callers and dispatchers on a name and any interleaving of their
   moves: each pipe holds the whole messages written and not yet read, in the order written.
   Requests are delivered in order, each exactly once.
   */
  lemma MessagesStayWhole(szArg: nat, szRet: nat, capacity: nat, n: nat, foo: Callback, moves: seq<Move>)
    requires 0 < szArg <= PIPE_BUF && szRet <= PIPE_BUF && Provides(foo, szRet)
    ensures var t := Run(Initial(szArg, szRet, capacity, n), foo, moves);
      && AllSized(t.sent, szArg) && t.delivered <= t.sent && t.req == Flat(t.sent[|t.delivered|..])
      && AllSized(t.answered, szRet) && t.collected <= t.answered && t.res == Flat(t.answered[|t.collected|..])
  {
    RunInv(szArg, szRet, capacity, n, foo, moves);
  }

  // ---- each dispatcher answers in the order of its requests ----

  /** What one dispatcher wrote and still owes is what the requests it took call for, in order. */
  predicate AnswersOwn(foo: Callback, szRet: nat, d: Dispatcher) {
    d.wrote + Owed(foo, szRet, d.at) == Answers(foo, szRet, d.took)
  }

  /** The first dispatcher read and wrote all there was. */
  predicate SoleHistory(s: System) {
    s.dispatchers != [] && s.delivered == s.dispatchers[0].took && s.answered == s.dispatchers[0].wrote
  }

  predicate InOrder(s: System, foo: Callback) {
    && (forall d :: 0 <= d < |s.dispatchers| ==> AnswersOwn(foo, s.szRet, s.dispatchers[d]))
    && (|s.dispatchers| == 1 ==> SoleHistory(s))
  }

  lemma AnswersAppend(foo: Callback, szRet: nat, requests: seq<Bytes>, q: Bytes)
    ensures Answers(foo, szRet, requests + [q]) == Answers(foo, szRet, requests) + AnswerTo(foo, szRet, q)
  {
    assert (requests + [q])[..|requests|] == requests;
  }

  /** The code tests for a short read; framing rules it out. */
  lemma FetchTakes(s: System, foo: Callback, d: nat)
    requires Inv(s, foo) && d < |s.dispatchers| && s.dispatchers[d].at.Notified? && s.req != []
    ensures |s.req| >= s.szArg
    ensures Next(s, foo, Fetch(d)) == s.Taken(d, s.req[..s.szArg]).(req := s.req[s.szArg..])
  {
    FramedRead(s.req, s.szArg, s.sent, s.delivered);
  }

  /** Dispatcher d after a step of its own. */
  lemma NextOwn(s: System, foo: Callback, m: Move, d: nat)
    requires Inv(s, foo) && d < |s.dispatchers| && AnswersOwn(foo, s.szRet, s.dispatchers[d])
    requires m == Wake(d) || m == Fetch(d) || m == Invoke(d) || m == Reply(d)
    ensures |Next(s, foo, m).dispatchers| == |s.dispatchers| && AnswersOwn(foo, s.szRet, Next(s, foo, m).dispatchers[d])
  {
    hide Framed, Answers;
    if m.Fetch? && s.dispatchers[d].at.Notified? && s.req != [] {
      FetchTakes(s, foo, d);
      AnswersAppend(foo, s.szRet, s.dispatchers[d].took, s.req[..s.szArg]);
    }
  }

  /** Every step is one dispatcher's at most, and the histories of a sole dispatcher are those of the pipes. */
  lemma NextOthers(s: System, foo: Callback, m: Move, d: nat)
    requires d < |s.dispatchers|
    ensures |Next(s, foo, m).dispatchers| == |s.dispatchers|
    ensures
      || m == Wake(d) || m == Fetch(d) || m == Invoke(d) || m == Reply(d)
      || Next(s, foo, m).dispatchers[d] == s.dispatchers[d]
    ensures |s.dispatchers| == 1 && SoleHistory(s) ==> SoleHistory(Next(s, foo, m))
  {
  }

  lemma NextInOrder(s: System, foo: Callback, m: Move)
    requires Inv(s, foo) && InOrder(s, foo)
    ensures InOrder(Next(s, foo, m), foo)
  {
    hide Next, AnswersOwn, Inv;
    NextFrame(s, foo, m);
    if s.dispatchers != [] { NextOthers(s, foo, m, 0); }
    forall d | 0 <= d < |s.dispatchers| ensures AnswersOwn(foo, s.szRet, Next(s, foo, m).dispatchers[d]) {
      NextOthers(s, foo, m, d);
      if Next(s, foo, m).dispatchers[d] != s.dispatchers[d] { NextOwn(s, foo, m, d); }
    }
  }

  lemma {:induction false} RunInOrder(szArg: nat, szRet: nat, capacity: nat, n: nat, foo: Callback, moves: seq<Move>)
    requires 0 < szArg <= PIPE_BUF && szRet <= PIPE_BUF && Provides(foo, szRet)
    ensures InOrder(Run(Initial(szArg, szRet, capacity, n), foo, moves), foo)
  {
    if moves != [] {
      RunInOrder(szArg, szRet, capacity, n, foo, moves[..|moves| - 1]);
      RunInv(szArg, szRet, capacity, n, foo, moves[..|moves| - 1]);
      NextInOrder(Run(Initial(szArg, szRet, capacity, n), foo, moves[..|moves| - 1]), foo, moves[|moves| - 1]);
    }
  }

  lemma {:induction false} AnswersOfPrefix(foo: Callback, szRet: nat, a: seq<Bytes>, b: seq<Bytes>)
    requires a <= b
    ensures Answers(foo, szRet, a) <= Answers(foo, szRet, b)
  {
    if a != b {
      assert a <= b[..|b| - 1];
      AnswersOfPrefix(foo, szRet, a, b[..|b| - 1]);
    }
  }

  lemma {:induction false} EveryRequestAnswered(foo: Callback, szRet: nat, requests: seq<Bytes>, k: nat)
    requires szRet > 0 && Provides(foo, szRet) && forall q :: foo(q).Some?
    ensures |Answers(foo, szRet, requests)| == |requests|
    ensures k < |requests| ==> Answers(foo, szRet, requests)[k] == foo(requests[k]).value[..szRet]
  {
    if requests != [] {
      EveryRequestAnswered(foo, szRet, requests[..|requests| - 1], k);
    }
  }

  /**
   With one dispatcher the answers callers get are, in order, the callback's results on the
   requests sent, without the NULL ones. If the callback always answers, the k-th answer
   answers the k-th call.
   */
  lemma AnswersInOrder(szArg: nat, szRet: nat, capacity: nat, foo: Callback, moves: seq<Move>)
    requires 0 < szArg <= PIPE_BUF && szRet <= PIPE_BUF && Provides(foo, szRet)
    ensures var t := Run(Initial(szArg, szRet, capacity, 1), foo, moves);
      && t.collected <= Answers(foo, szRet, t.sent)
      && (szRet > 0 && (forall q :: foo(q).Some?) ==>
           |t.collected| <= |t.sent| &&
           forall k :: 0 <= k < |t.collected| ==> t.collected[k] == foo(t.sent[k]).value[..szRet])
  {
    RunInv(szArg, szRet, capacity, 1, foo, moves);
    RunInOrder(szArg, szRet, capacity, 1, foo, moves);
    var t := Run(Initial(szArg, szRet, capacity, 1), foo, moves);
    AnswersOfPrefix(foo, szRet, t.delivered, t.sent);
    assert AnswersOwn(foo, szRet, t.dispatchers[0]);
    assert t.answered <= Answers(foo, szRet, t.delivered);
    if szRet > 0 && forall q :: foo(q).Some? {
      EveryRequestAnswered(foo, szRet, t.sent, 0);
      forall k | 0 <= k < |t.collected| ensures t.collected[k] == foo(t.sent[k]).value[..szRet] {
        EveryRequestAnswered(foo, szRet, t.sent, k);
      }
    }
  }

  // ---- many dispatchers: requests are dealt out, in order ----

  /** What dispatcher d has of `all`, in the order of `all`, if who[i] has all[i]. */
  function PartOf(all: seq<Bytes>, who: seq<nat>, d: nat): seq<Bytes>
    requires |all| == |who|
  {
    if all == [] then []
    else
      var last := |all| - 1;
      PartOf(all[..last], who[..last], d) + if who[last] == d then [all[last]] else []
  }

  lemma PartOfMore(all: seq<Bytes>, who: seq<nat>, d: nat, x: Bytes, e: nat)
    requires |all| == |who|
    ensures PartOf(all + [x], who + [e], d) == PartOf(all, who, d) + if e == d then [x] else []
  {
    assert (all + [x])[..|all|] == all && (who + [e])[..|who|] == who;
  }

  /**
   Each delivered request was read by one dispatcher and each answer written by one: a
   dispatcher's requests are its part of those delivered, in their order, and so for answers.
   */
  predicate DealtOut(s: System) {
    && |s.takers| == |s.delivered| && |s.writers| == |s.answered|
    && (forall i :: 0 <= i < |s.takers| ==> s.takers[i] < |s.dispatchers|)
    && (forall i :: 0 <= i < |s.writers| ==> s.writers[i] < |s.dispatchers|)
    && (forall d :: 0 <= d < |s.dispatchers| ==> s.dispatchers[d].took == PartOf(s.delivered, s.takers, d))
    && (forall d :: 0 <= d < |s.dispatchers| ==> s.dispatchers[d].wrote == PartOf(s.answered, s.writers, d))
  }

  lemma TakenDealtOut(s: System, d: nat, x: Bytes)
    requires DealtOut(s) && d < |s.dispatchers|
    ensures DealtOut(s.Taken(d, x))
  {
    forall e | 0 <= e < |s.dispatchers|
      ensures s.Taken(d, x).dispatchers[e].took == PartOf(s.delivered + [x], s.takers + [d], e)
    {
      PartOfMore(s.delivered, s.takers, e, x, d);
    }
  }

  lemma WrittenDealtOut(s: System, d: nat, x: Bytes)
    requires DealtOut(s) && d < |s.dispatchers|
    ensures DealtOut(s.Written(d, x))
  {
    forall e | 0 <= e < |s.dispatchers|
      ensures s.Written(d, x).dispatchers[e].wrote == PartOf(s.answered + [x], s.writers + [d], e)
    {
      PartOfMore(s.answered, s.writers, e, x, d);
    }
  }

  lemma NextDealtOut(s: System, foo: Callback, m: Move)
    requires DealtOut(s)
    ensures DealtOut(Next(s, foo, m))
  {
    hide PartOf;
    match m
    case Fetch(d) => if d < |s.dispatchers| { TakenDealtOut(s, d, s.req[..Min(|s.req|, s.szArg)]); }
    case Reply(d) =>
      if d < |s.dispatchers| && s.dispatchers[d].at.Answering? { WrittenDealtOut(s, d, s.dispatchers[d].at.answer); }
    case _ =>
  }

  /** For any number of dispatchers and any interleaving. */
  lemma {:induction false} RequestsDealtOut(
      szArg: nat, szRet: nat, capacity: nat, n: nat, foo: Callback, moves: seq<Move>)
    ensures DealtOut(Run(Initial(szArg, szRet, capacity, n), foo, moves))
  {
    if moves != [] {
      RequestsDealtOut(szArg, szRet, capacity, n, foo, moves[..|moves| - 1]);
      NextDealtOut(Run(Initial(szArg, szRet, capacity, n), foo, moves[..|moves| - 1]), foo, moves[|moves| - 1]);
    }
  }

  // ---- many dispatchers: no answer is lost or invented ----

  predicate Conserved(s: System, foo: Callback, v: Bytes) {
    && Count(Answers(foo, s.szRet, s.delivered), v) ==
         Count(s.answered, v) + Total(Owes(foo, s.szRet, s.dispatchers), v)
    && Count(s.delivered, v) == Total(Tooks(s.dispatchers), v)
    && Count(s.answered, v) == Total(Wrotes(s.dispatchers), v)
  }

  lemma {:induction false} TotalUpdate(parts: seq<seq<Bytes>>, d: nat, x: seq<Bytes>, v: Bytes)
    requires d < |parts|
    ensures Total(parts[d := x], v) + Count(parts[d], v) == Total(parts, v) + Count(x, v)
  {
    var last := |parts| - 1;
    if d < last {
      TotalUpdate(parts[..last], d, x, v);
      assert parts[d := x][..last] == parts[..last][d := x];
    } else {
      assert parts[d := x][..last] == parts[..last];
    }
  }

  lemma CountAppend(a: seq<Bytes>, b: seq<Bytes>, v: Bytes)
    ensures Count(a + b, v) == Count(a, v) + Count(b, v)
  {
  }

  /** Appending x to one part adds its occurrences to the total. */
  lemma TotalAppend(parts: seq<seq<Bytes>>, d: nat, x: seq<Bytes>, v: Bytes)
    requires d < |parts|
    ensures Total(parts[d := parts[d] + x], v) == Total(parts, v) + Count(x, v)
  {
    TotalUpdate(parts, d, parts[d] + x, v);
    CountAppend(parts[d], x, v);
  }

  /**
   A step of dispatcher d that reads `got` and writes `written` keeps the balance, if what it
   then owes is what it owed, and what `got` calls for, without what it wrote.
   */
  lemma Balance(
      s: System, t: System, foo: Callback, d: nat, got: seq<Bytes>, written: seq<Bytes>, due: seq<Bytes>, v: Bytes)
    requires Conserved(s, foo, v) && d < |s.dispatchers| == |t.dispatchers| && t.szRet == s.szRet
    requires t.dispatchers == s.dispatchers[d := t.dispatchers[d]]
    requires t.answered == s.answered + written && t.dispatchers[d].wrote == s.dispatchers[d].wrote + written
    requires t.delivered == s.delivered + got && t.dispatchers[d].took == s.dispatchers[d].took + got
    requires Answers(foo, s.szRet, t.delivered) == Answers(foo, s.szRet, s.delivered) + due
    requires Owed(foo, s.szRet, s.dispatchers[d].at) + due == written + Owed(foo, s.szRet, t.dispatchers[d].at)
    ensures Conserved(t, foo, v)
  {
    hide Answers, Total, Owed, Count;
    var before, after := Owed(foo, s.szRet, s.dispatchers[d].at), Owed(foo, s.szRet, t.dispatchers[d].at);
    assert Owes(foo, s.szRet, t.dispatchers) == Owes(foo, s.szRet, s.dispatchers)[d := after];
    assert Tooks(t.dispatchers) == Tooks(s.dispatchers)[d := s.dispatchers[d].took + got];
    assert Wrotes(t.dispatchers) == Wrotes(s.dispatchers)[d := s.dispatchers[d].wrote + written];
    TotalUpdate(Owes(foo, s.szRet, s.dispatchers), d, after, v);
    TotalAppend(Tooks(s.dispatchers), d, got, v);
    TotalAppend(Wrotes(s.dispatchers), d, written, v);
    CountAppend(s.answered, written, v);
    CountAppend(s.delivered, got, v);
    CountAppend(Answers(foo, s.szRet, s.delivered), due, v);
    CountAppend(before, due, v);
    CountAppend(written, after, v);
  }

  lemma FetchBalance(s: System, foo: Callback, d: nat, v: Bytes)
    requires Inv(s, foo) && Conserved(s, foo, v)
    requires d < |s.dispatchers| && s.dispatchers[d].at.Notified? && s.req != []
    ensures Conserved(Next(s, foo, Fetch(d)), foo, v)
  {
    hide Next, AnswerTo, Answers, Inv, Conserved;
    FetchTakes(s, foo, d);
    var q := s.req[..s.szArg];
    AnswersAppend(foo, s.szRet, s.delivered, q);
    Balance(s, Next(s, foo, Fetch(d)), foo, d, [q], [], AnswerTo(foo, s.szRet, q), v);
  }

  lemma WakeBalance(s: System, foo: Callback, d: nat, v: Bytes)
    requires Conserved(s, foo, v) && d < |s.dispatchers| && s.dispatchers[d].at.Waiting? && s.req != []
    ensures Conserved(Next(s, foo, Wake(d)), foo, v)
  {
    hide Answers, Conserved;
    Balance(s, Next(s, foo, Wake(d)), foo, d, [], [], [], v);
  }

  lemma InvokeBalance(s: System, foo: Callback, d: nat, v: Bytes)
    requires Conserved(s, foo, v) && d < |s.dispatchers| && s.dispatchers[d].at.Running?
    ensures Conserved(Next(s, foo, Invoke(d)), foo, v)
  {
    hide Answers, Conserved;
    Balance(s, Next(s, foo, Invoke(d)), foo, d, [], [], [], v);
  }

  lemma ReplyBalance(s: System, foo: Callback, d: nat, v: Bytes)
    requires Conserved(s, foo, v) && d < |s.dispatchers| && s.dispatchers[d].at.Answering?
    requires |s.res| + s.szRet <= s.capacity
    ensures Conserved(Next(s, foo, Reply(d)), foo, v)
  {
    hide Answers, Conserved;
    Balance(s, Next(s, foo, Reply(d)), foo, d, [], [s.dispatchers[d].at.answer], [], v);
  }

  lemma NextConserved(s: System, foo: Callback, m: Move, v: Bytes)
    requires Inv(s, foo) && Conserved(s, foo, v)
    ensures Conserved(Next(s, foo, m), foo, v)
  {
    hide Inv, Total, Answers, AnswerTo, Owed;
    match m {
      case Wake(d) =>
        if d < |s.dispatchers| && s.dispatchers[d].at.Waiting? && s.req != [] { WakeBalance(s, foo, d, v); }
      case Fetch(d) =>
        if d < |s.dispatchers| && s.dispatchers[d].at.Notified? && s.req != [] { FetchBalance(s, foo, d, v); }
      case Invoke(d) =>
        if d < |s.dispatchers| && s.dispatchers[d].at.Running? { InvokeBalance(s, foo, d, v); }
      case Reply(d) =>
        if d < |s.dispatchers| && s.dispatchers[d].at.Answering? && |s.res| + s.szRet <= s.capacity {
          ReplyBalance(s, foo, d, v);
        }
      case _ =>
    }
  }

  lemma {:induction false} RunConserved(
      szArg: nat, szRet: nat, capacity: nat, n: nat, foo: Callback, moves: seq<Move>, v: Bytes)
    requires 0 < szArg <= PIPE_BUF && szRet <= PIPE_BUF && Provides(foo, szRet)
    ensures Conserved(Run(Initial(szArg, szRet, capacity, n), foo, moves), foo, v)
  {
    if moves == [] {
      AllZero(szArg, szRet, capacity, n, foo, v);
    } else {
      RunConserved(szArg, szRet, capacity, n, foo, moves[..|moves| - 1], v);
      RunInv(szArg, szRet, capacity, n, foo, moves[..|moves| - 1]);
      NextConserved(Run(Initial(szArg, szRet, capacity, n), foo, moves[..|moves| - 1]), foo, moves[|moves| - 1], v);
    }
  }

  /** Nobody is inside a callback or about to write. */
  predicate Quiet(ds: seq<Dispatcher>) {
    forall d :: 0 <= d < |ds| ==> ds[d].at.Waiting? || ds[d].at.Notified?
  }

  lemma {:induction false} NoneInTotal(parts: seq<seq<Bytes>>, v: Bytes)
    requires forall d :: 0 <= d < |parts| ==> parts[d] == []
    ensures Total(parts, v) == 0
  {
    if parts != [] { NoneInTotal(parts[..|parts| - 1], v); }
  }

  lemma AllZero(szArg: nat, szRet: nat, capacity: nat, n: nat, foo: Callback, v: Bytes)
    ensures Conserved(Initial(szArg, szRet, capacity, n), foo, v)
  {
    var ds := Initial(szArg, szRet, capacity, n).dispatchers;
    NoneInTotal(Owes(foo, szRet, ds), v);
    NoneInTotal(Tooks(ds), v);
    NoneInTotal(Wrotes(ds), v);
  }

  lemma FlatEmpty(size: nat, frames: seq<Bytes>)
    requires AllSized(frames, size) && size > 0
    ensures Flat(frames) == [] ==> frames == []
  {
    if frames != [] { assert |Flat(frames)| == |frames[0]| + |Flat(frames[1..])|; }
  }

  lemma EmptyPipe(size: nat, written: seq<Bytes>, read: seq<Bytes>)
    requires Framed([], size, written, read) && size > 0
    ensures read == written
  {
    FlatEmpty(size, written[|read|..]);
  }

  /**
   With any number of dispatchers no answer is lost, invented or repeated: every byte string
   has been answered and is still owed as often as the delivered requests call for it. The
   delivered requests are dealt out to the dispatchers in order, each to one of them, and each
   dispatcher answers its own in order.
   */
  lemma {:induction false} AnswersConserved(
    szArg: nat, szRet: nat, capacity: nat, n: nat, foo: Callback, moves: seq<Move>, v: Bytes)
    requires 0 < szArg <= PIPE_BUF && szRet <= PIPE_BUF && Provides(foo, szRet)
    ensures var t := Run(Initial(szArg, szRet, capacity, n), foo, moves);
      && Count(t.answered, v) + Total(Owes(foo, szRet, t.dispatchers), v) == Count(Answers(foo, szRet, t.delivered), v)
      && Count(t.delivered, v) == Total(Tooks(t.dispatchers), v)
      && Count(t.answered, v) == Total(Wrotes(t.dispatchers), v)
      && DealtOut(t) && forall d :: 0 <= d < |t.dispatchers| ==> AnswersOwn(foo, szRet, t.dispatchers[d])
  {
    hide Next, Run, Owes, Tooks, Wrotes, Total, AnswersOwn, DealtOut;
    RequestsDealtOut(szArg, szRet, capacity, n, foo, moves);
    RunInv(szArg, szRet, capacity, n, foo, moves);
    RunInOrder(szArg, szRet, capacity, n, foo, moves);
    RunConserved(szArg, szRet, capacity, n, foo, moves, v);
  }

  /** Once everything is quiet and the pipes are empty, callers have got exactly the answers due. */
  lemma {:induction false} AnswersAllCollected(
    szArg: nat, szRet: nat, capacity: nat, n: nat, foo: Callback, moves: seq<Move>)
    requires 0 < szArg <= PIPE_BUF && szRet <= PIPE_BUF && Provides(foo, szRet)
    ensures var t := Run(Initial(szArg, szRet, capacity, n), foo, moves);
      t.req == [] && t.res == [] && Quiet(t.dispatchers) ==>
        multiset(t.collected) == multiset(Answers(foo, szRet, t.sent))
  {
    hide Next, Run, Answers;
    RunInv(szArg, szRet, capacity, n, foo, moves);
    var t := Run(Initial(szArg, szRet, capacity, n), foo, moves);
    if t.req == [] && t.res == [] && Quiet(t.dispatchers) {
      EmptyPipe(szArg, t.sent, t.delivered);
      if szRet > 0 { EmptyPipe(szRet, t.answered, t.collected); }
      forall v: Bytes ensures multiset(t.collected)[v] == multiset(Answers(foo, szRet, t.sent))[v] {
        RunConserved(szArg, szRet, capacity, n, foo, moves, v);
        NoneInTotal(Owes(foo, szRet, t.dispatchers), v);
      }
    }
  }
}
