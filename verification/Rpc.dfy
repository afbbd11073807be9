/**
 ClientConnection::call and ServerConnection::connectionThread as a step system.

 Any number of callers share one connection: each takes `comm_queue_mutex_`, then `comm_mutex_`,
 gives back the first, and exchanges one request for one reply. Bytes move between the two ends in
 pieces of any size; a system call may be interrupted or fail at any point, and the server may go
 away. What the server does with a request is any function `h` of its state and the request.

 `handled` and `completed` are histories: what the server handled, and what calls returned.
 */
module Rpc {
  import opened Wire
  import opened Framing

  datatype Pc =
    | Idle
    | HoldsQueue(req: Request)
    | HoldsBoth(req: Request)
    | Sending(req: Request, left: bytes)
    | Receiving(req: Request, got: bytes)

  datatype Server = Reading(got: bytes) | Writing(left: bytes) | Gone

  datatype Handled = Handled(req: Request, reply: Reply)

  /** A call that got a reply; `clean` if the connection was not marked broken at that time. */
  datatype Completed = Completed(caller: nat, req: Request, reply: Reply, clean: bool)

  datatype State<S> = State(
    pcs: map<nat, Pc>,
    queue: Option<nat>,
    comm: Option<nat>,
    broken: bool,
    toServer: bytes,
    toClient: bytes,
    server: Server,
    session: S,
    handled: seq<Handled>,
    completed: seq<Completed>,
    queueLog: seq<nat>,
    startLog: seq<nat>)

  datatype Event =
    | LockQueue(c: nat, req: Request)
    | LockComm(c: nat)
    | UnlockQueue(c: nat)
    | Send(c: nat, n: nat)
    | Receive(c: nat, n: nat)
    | Interrupted(c: nat)
    | Fail(c: nat)
    | Finish(c: nat, parses: bool)
    | ServerReceive(n: nat)
    | ServerHandle
    | ServerSend(n: nat, stays: bool)
    | ServerGoes

  function PcOf<S>(s: State<S>, c: nat): Pc
  {
    if c in s.pcs then s.pcs[c] else Idle
  }

  function Start<S>(session: S): State<S>
  {
    State(map[], None, None, false, [], [], Reading([]), session, [], [], [], [])
  }

  /** The reply a client reads off the bytes it received. */
  function DecodeReply(got: bytes): Reply
    requires |got| >= RESPONSE_HEADER
  {
    Reply(HeaderProtoRc(got), HeaderMethodRc(got), got[RESPONSE_HEADER..])
  }

  predicate Enabled<S>(s: State<S>, e: Event)
  {
    match e
    case LockQueue(c, req) => PcOf(s, c).Idle? && s.queue.None? && ValidRequest(req)
    case LockComm(c) => PcOf(s, c).HoldsQueue? && s.comm.None?
    case UnlockQueue(c) => PcOf(s, c).HoldsBoth?
    case Send(c, n) => PcOf(s, c).Sending? && 1 <= n <= |PcOf(s, c).left| && !s.server.Gone?
    case Receive(c, n) =>
      PcOf(s, c).Receiving? && 1 <= n <= |s.toClient|
      && |PcOf(s, c).got| + n <= ReplyNeed(PcOf(s, c).got)
    case Interrupted(c) => PcOf(s, c).Sending? || PcOf(s, c).Receiving?
    case Fail(c) => PcOf(s, c).Sending? || PcOf(s, c).Receiving?
    case Finish(c, _) =>
      PcOf(s, c).Receiving? && RESPONSE_HEADER <= |PcOf(s, c).got| == ReplyNeed(PcOf(s, c).got)
    case ServerReceive(n) =>
      s.server.Reading? && 1 <= n <= |s.toServer| && |s.server.got| + n <= RequestNeed(s.server.got)
    case ServerHandle =>
      s.server.Reading? && REQUEST_HEADER <= |s.server.got| == RequestNeed(s.server.got)
    case ServerSend(n, _) => s.server.Writing? && 1 <= n <= |s.server.left|
    case ServerGoes => !s.server.Gone?
  }

  /** A failed call marks the connection and gives the lock back. */
  function Break<S>(s: State<S>, c: nat): State<S>
  {
    s.(broken := true, comm := None, pcs := s.pcs[c := Idle])
  }

  function Next<S(!new)>(h: (S, Request) -> (S, Reply), s: State<S>, e: Event): State<S>
    requires Enabled(s, e) && GoodHandler(h)
  {
    match e
    case LockQueue(c, req) =>
      s.(queue := Some(c), pcs := s.pcs[c := HoldsQueue(req)], queueLog := s.queueLog + [c])
    case LockComm(c) =>
      s.(comm := Some(c), pcs := s.pcs[c := HoldsBoth(PcOf(s, c).req)], startLog := s.startLog + [c])
    case UnlockQueue(c) =>
      var req := PcOf(s, c).req;
      s.(queue := None, pcs := s.pcs[c := Sending(req, RequestFrame(req))])
    case Send(c, n) =>
      var p := PcOf(s, c);
      s.(toServer := s.toServer + p.left[..n],
         pcs := s.pcs[c := if n == |p.left| then Receiving(p.req, []) else Sending(p.req, p.left[n..])])
    case Receive(c, n) =>
      var p := PcOf(s, c);
      s.(toClient := s.toClient[n..], pcs := s.pcs[c := Receiving(p.req, p.got + s.toClient[..n])])
    case Interrupted(_) => s
    case Fail(c) => Break(s, c)
    case Finish(c, parses) =>
      var p := PcOf(s, c);
      if !GoodHeader(p.got) || HeaderProtoRc(p.got) < 0 || (HeaderProtoRc(p.got) > 0 && !parses)
      then Break(s, c)
      else s.(comm := None, pcs := s.pcs[c := Idle],
              completed := s.completed + [Completed(c, p.req, DecodeReply(p.got), !s.broken)])
    case ServerReceive(n) =>
      s.(toServer := s.toServer[n..], server := Reading(s.server.got + s.toServer[..n]))
    case ServerHandle =>
      if !GoodHeader(s.server.got) then s.(server := Gone)
      else
        var req := Request(HeaderMethod(s.server.got), s.server.got[REQUEST_HEADER..]);
        var (session, reply) := h(s.session, req);
        assert ValidReply(h(s.session, req).1);
        s.(session := session, server := Writing(ReplyFrame(req.op, reply)),
           handled := s.handled + [Handled(req, reply)])
    case ServerSend(n, stays) =>
      s.(toClient := s.toClient + s.server.left[..n],
         server := if n < |s.server.left| then Writing(s.server.left[n..])
                   else if stays then Reading([]) else Gone)
    case ServerGoes => s.(server := Gone)
  }

  ghost predicate GoodHandler<S(!new)>(h: (S, Request) -> (S, Reply))
  {
    forall s, r :: ValidReply(h(s, r).1)
  }

  ghost predicate Runs<S(!new)>(h: (S, Request) -> (S, Reply), s: State<S>, es: seq<Event>, t: State<S>)
    requires GoodHandler(h)
    decreases |es|
  {
    if es == [] then t == s
    else Enabled(s, es[0]) && Runs(h, Next(h, s, es[0]), es[1..], t)
  }

  /* ---------- Locks ---------- */

  /** Mutual exclusion, and exchanges start in the order in which the queue lock was taken. */
  predicate Locks<S>(s: State<S>)
  {
    && (forall c :: c in s.pcs && (s.pcs[c].HoldsQueue? || s.pcs[c].HoldsBoth?) ==> s.queue == Some(c))
    && (forall c :: c in s.pcs && (s.pcs[c].HoldsBoth? || s.pcs[c].Sending? || s.pcs[c].Receiving?) ==>
          s.comm == Some(c))
    && (s.comm.Some? ==> !PcOf(s, s.comm.value).Idle? && !PcOf(s, s.comm.value).HoldsQueue?)
    && (s.queue.Some? ==> PcOf(s, s.queue.value).HoldsQueue? || PcOf(s, s.queue.value).HoldsBoth?)
    && s.queueLog == s.startLog + Waiting(s)
  }

  function Waiting<S>(s: State<S>): seq<nat>
  {
    if s.queue.Some? && PcOf(s, s.queue.value).HoldsQueue? then [s.queue.value] else []
  }

  predicate InExchange<S>(s: State<S>, c: nat)
  {
    PcOf(s, c).Sending? || PcOf(s, c).Receiving?
  }

  /** A step of the caller in the exchange, or of the server, that keeps the locks. */
  lemma LocksKept<S>(s: State<S>, t: State<S>, c: nat, p: Pc)
    requires Locks(s) && InExchange(s, c) && (p.Sending? || p.Receiving?)
    requires t.pcs == s.pcs[c := p] && t.queue == s.queue && t.comm == s.comm
    requires t.queueLog == s.queueLog && t.startLog == s.startLog
    ensures Locks(t)
  {
  }

  lemma LocksReleased<S>(s: State<S>, t: State<S>, c: nat)
    requires Locks(s) && InExchange(s, c)
    requires t.pcs == s.pcs[c := Idle] && t.queue == s.queue && t.comm == None
    requires t.queueLog == s.queueLog && t.startLog == s.startLog
    ensures Locks(t)
  {
  }

  lemma LocksSame<S>(s: State<S>, t: State<S>)
    requires Locks(s)
    requires t.pcs == s.pcs && t.queue == s.queue && t.comm == s.comm
    requires t.queueLog == s.queueLog && t.startLog == s.startLog
    ensures Locks(t)
  {
  }

  lemma LocksTaken<S(!new)>(h: (S, Request) -> (S, Reply), s: State<S>, e: Event)
    requires GoodHandler(h) && Enabled(s, e) && Locks(s) && (e.LockQueue? || e.LockComm? || e.UnlockQueue?)
    ensures Locks(Next(h, s, e))
  {
  }

  lemma LocksStep<S(!new)>(h: (S, Request) -> (S, Reply), s: State<S>, e: Event)
    requires GoodHandler(h) && Enabled(s, e) && Locks(s)
    ensures Locks(Next(h, s, e))
  {
    var t := Next(h, s, e);
    match e
    case Send(c, _) => LocksKept(s, t, c, PcOf(t, c));
    case Receive(c, _) => LocksKept(s, t, c, PcOf(t, c));
    case Fail(c) => LocksReleased(s, t, c);
    case Finish(c, _) => LocksReleased(s, t, c);
    case LockQueue(_, _) => LocksTaken(h, s, e);
    case LockComm(_) => LocksTaken(h, s, e);
    case UnlockQueue(_) => LocksTaken(h, s, e);
    case _ => LocksSame(s, t);
  }

  /* ---------- The stream ---------- */

  /** Nothing under way: both directions empty, the server (if still there) waiting for a header. */
  predicate Quiet<S>(s: State<S>)
  {
    && s.toServer == [] && s.toClient == []
    && (s.server == Reading([]) || s.server.Gone?)
    && |s.handled| == |s.completed|
  }

  /** The part of the request that has left the client is what the server has or will get. */
  predicate RequestUnderWay<S>(s: State<S>, req: Request, sent: bytes)
  {
    && ValidRequest(req) && sent <= RequestFrame(req)
    && |s.handled| == |s.completed| && s.toClient == []
    && (s.server.Gone? || (s.server.Reading? && s.server.got + s.toServer == sent))
  }

  /** The server has handled the request; what it wrote for it is what the client got, what is in
      the stream, and what is left to write. */
  predicate ReplyUnderWay<S>(s: State<S>, req: Request, got: bytes)
  {
    && ValidRequest(req) && s.toServer == []
    && |s.handled| == |s.completed| + 1
    && var last := s.handled[|s.completed|];
       && last.req == req && ValidReply(last.reply)
       && match s.server
          case Writing(left) => left != [] && got + s.toClient + left == ReplyFrame(req.op, last.reply)
          case Reading(g) => g == [] && got + s.toClient == ReplyFrame(req.op, last.reply)
          case Gone => got + s.toClient <= ReplyFrame(req.op, last.reply)
  }

  predicate Channel<S>(s: State<S>)
  {
    match s.comm
    case None => Quiet(s)
    case Some(c) =>
      match PcOf(s, c)
      case Sending(req, left) =>
        && left != [] && |left| <= |RequestFrame(req)|
        && var sent := RequestFrame(req)[..|RequestFrame(req)| - |left|];
           RequestFrame(req) == sent + left && RequestUnderWay(s, req, sent)
      case Receiving(req, got) =>
        || (got == [] && RequestUnderWay(s, req, RequestFrame(req)))
        || ReplyUnderWay(s, req, got)
      case _ => Quiet(s)
  }

  /** Requests are valid, and completed clean calls are, in order, what the server handled. */
  predicate Paired<S>(s: State<S>)
  {
    && (forall c :: c in s.pcs && (s.pcs[c].HoldsQueue? || s.pcs[c].HoldsBoth?) ==> ValidRequest(s.pcs[c].req))
    && (!s.broken ==> |s.completed| <= |s.handled|)
    && forall k :: 0 <= k < |s.completed| && s.completed[k].clean ==>
         && k < |s.handled|
         && s.completed[k].req == s.handled[k].req && s.completed[k].reply == s.handled[k].reply
  }

  /** While the connection is sound, exchanges complete in the order in which they started. */
  predicate InOrder<S>(s: State<S>)
  {
    && |s.startLog| == |s.completed| + (if s.comm.Some? then 1 else 0)
    && (s.comm.Some? ==> s.startLog[|s.completed|] == s.comm.value)
    && forall k :: 0 <= k < |s.completed| ==> s.completed[k].caller == s.startLog[k]
  }

  predicate Inv<S>(s: State<S>)
  {
    && Locks(s) && Paired(s)
    && (!s.broken ==>
          Channel(s) && InOrder(s) && forall k :: 0 <= k < |s.completed| ==> s.completed[k].clean)
  }

  lemma LockSteps<S(!new)>(h: (S, Request) -> (S, Reply), s: State<S>, e: Event)
    requires GoodHandler(h) && Enabled(s, e) && Inv(s)
    requires e.LockQueue? || e.LockComm? || e.UnlockQueue? || e.Interrupted? || e.Fail?
    ensures Inv(Next(h, s, e))
  {
    LocksStep(h, s, e);
    if e.UnlockQueue? {
      var f := RequestFrame(PcOf(s, e.c).req);
      assert f[..|f| - |f|] == [] && f == [] + f;
    }
  }

  /** Sending `n` more bytes moves them from what is left to what is sent. */
  lemma SentMore(f: bytes, left: bytes, n: nat)
    requires |left| <= |f| && f == f[..|f| - |left|] + left && n <= |left|
    ensures f[..|f| - |left[n..]|] == f[..|f| - |left|] + left[..n]
    ensures f == f[..|f| - |left[n..]|] + left[n..]
  {
    assert left == left[..n] + left[n..];
    SeqAssoc(f[..|f| - |left|], left[..n], left[n..]);
  }

  lemma SendStep<S(!new)>(h: (S, Request) -> (S, Reply), s: State<S>, c: nat, n: nat)
    requires GoodHandler(h) && Enabled(s, Send(c, n)) && Inv(s)
    ensures Inv(Next(h, s, Send(c, n)))
  {
    LocksStep(h, s, Send(c, n));
    if !s.broken {
      var p := PcOf(s, c);
      var f := RequestFrame(p.req);
      SentMore(f, p.left, n);
      if n == |p.left| {
        assert p.left[n..] == [] && f[..|f|] == f;
      }
      if s.server.Reading? {
        SeqAssoc(s.server.got, s.toServer, p.left[..n]);
      }
    }
  }

  lemma ServerReceiveStep<S(!new)>(h: (S, Request) -> (S, Reply), s: State<S>, n: nat)
    requires GoodHandler(h) && Enabled(s, ServerReceive(n)) && Inv(s)
    ensures Inv(Next(h, s, ServerReceive(n)))
  {
    LocksStep(h, s, ServerReceive(n));
    assert s.server.got + s.toServer == (s.server.got + s.toServer[..n]) + s.toServer[n..];
  }

  lemma ServerHandleStep<S(!new)>(h: (S, Request) -> (S, Reply), s: State<S>)
    requires GoodHandler(h) && Enabled(s, ServerHandle) && Inv(s)
    ensures Inv(Next(h, s, ServerHandle))
  {
    LocksStep(h, s, ServerHandle);
    if !s.broken {
      assert s.comm.Some?;
      var p := PcOf(s, s.comm.value);
      RequestPrefix(p.req, s.server.got);
      assert s.server.got == RequestFrame(p.req) && s.toServer == [];
    }
  }

  lemma ServerSendStep<S(!new)>(h: (S, Request) -> (S, Reply), s: State<S>, n: nat, stays: bool)
    requires GoodHandler(h) && Enabled(s, ServerSend(n, stays)) && Inv(s)
    ensures Inv(Next(h, s, ServerSend(n, stays)))
  {
    LocksStep(h, s, ServerSend(n, stays));
    if !s.broken {
      var p := PcOf(s, s.comm.value);
      var left := s.server.left;
      assert p.got + s.toClient + left == p.got + (s.toClient + left[..n]) + left[n..];
    }
  }

  lemma ReceiveStep<S(!new)>(h: (S, Request) -> (S, Reply), s: State<S>, c: nat, n: nat)
    requires GoodHandler(h) && Enabled(s, Receive(c, n)) && Inv(s)
    ensures Inv(Next(h, s, Receive(c, n)))
  {
    LocksStep(h, s, Receive(c, n));
    if !s.broken {
      var p := PcOf(s, c);
      assert p.got + s.toClient == (p.got + s.toClient[..n]) + s.toClient[n..];
    }
  }

  /** A caller that has received all it wants has the reply to its request, and the server is done. */
  lemma ReplyComplete<S>(s: State<S>, c: nat)
    requires Inv(s) && !s.broken && PcOf(s, c).Receiving?
    requires RESPONSE_HEADER <= |PcOf(s, c).got| == ReplyNeed(PcOf(s, c).got)
    ensures |s.handled| == |s.completed| + 1 && s.toServer == [] && s.toClient == []
    ensures s.server == Reading([]) || s.server.Gone?
    ensures var last, p := s.handled[|s.completed|], PcOf(s, c);
            && last.req == p.req && GoodHeader(p.got) && DecodeReply(p.got) == last.reply
  {
    var p := PcOf(s, c);
    assert ReplyUnderWay(s, p.req, p.got);
    ReplyPrefix(p.req.op, s.handled[|s.completed|].reply, p.got);
  }

  lemma FinishStep<S(!new)>(h: (S, Request) -> (S, Reply), s: State<S>, c: nat, parses: bool)
    requires GoodHandler(h) && Enabled(s, Finish(c, parses)) && Inv(s)
    ensures Inv(Next(h, s, Finish(c, parses)))
  {
    LocksStep(h, s, Finish(c, parses));
    if !s.broken {
      ReplyComplete(s, c);
      FinishPairs(h, s, c, parses);
    }
  }

  lemma FinishPairs<S(!new)>(h: (S, Request) -> (S, Reply), s: State<S>, c: nat, parses: bool)
    requires GoodHandler(h) && Enabled(s, Finish(c, parses)) && Inv(s) && !s.broken
    ensures var t := Next(h, s, Finish(c, parses));
            !t.broken ==> Channel(t) && Paired(t) && InOrder(t)
  {
    ReplyComplete(s, c);
  }

  lemma GoesStep<S(!new)>(h: (S, Request) -> (S, Reply), s: State<S>)
    requires GoodHandler(h) && Enabled(s, ServerGoes) && Inv(s)
    ensures Inv(Next(h, s, ServerGoes))
  {
    LocksStep(h, s, ServerGoes);
  }

  lemma InvStep<S(!new)>(h: (S, Request) -> (S, Reply), s: State<S>, e: Event)
    requires GoodHandler(h) && Enabled(s, e) && Inv(s)
    ensures Inv(Next(h, s, e))
  {
    match e
    case Send(c, n) => SendStep(h, s, c, n);
    case Receive(c, n) => ReceiveStep(h, s, c, n);
    case Finish(c, parses) => FinishStep(h, s, c, parses);
    case ServerReceive(n) => ServerReceiveStep(h, s, n);
    case ServerHandle => ServerHandleStep(h, s);
    case ServerSend(n, stays) => ServerSendStep(h, s, n, stays);
    case ServerGoes => GoesStep(h, s);
    case _ => LockSteps(h, s, e);
  }

  lemma {:induction false} InvRuns<S(!new)>(h: (S, Request) -> (S, Reply), s: State<S>, es: seq<Event>, t: State<S>)
    requires GoodHandler(h) && Inv(s) && Runs(h, s, es, t)
    ensures Inv(t)
    decreases |es|
  {
    if es != [] {
      InvStep(h, s, es[0]);
      InvRuns(h, Next(h, s, es[0]), es[1..], t);
    }
  }

  /* ---------- Serial execution ---------- */

  /** `hs` is what happens when `h` is run on the requests one after the other. */
  ghost predicate Serial<S(!new)>(h: (S, Request) -> (S, Reply), x: S, hs: seq<Handled>, y: S)
    decreases |hs|
  {
    if hs == [] then y == x
    else hs[0].reply == h(x, hs[0].req).1 && Serial(h, h(x, hs[0].req).0, hs[1..], y)
  }

  lemma {:induction false} SerialExtend<S(!new)>(h: (S, Request) -> (S, Reply), x: S, hs: seq<Handled>, y: S,
                                                 req: Request)
    requires Serial(h, x, hs, y)
    ensures Serial(h, x, hs + [Handled(req, h(y, req).1)], h(y, req).0)
    decreases |hs|
  {
    var more := hs + [Handled(req, h(y, req).1)];
    if hs != [] {
      SerialExtend(h, h(x, hs[0].req).0, hs[1..], y, req);
      assert more[1..] == hs[1..] + [Handled(req, h(y, req).1)];
    }
  }

  lemma {:induction false} SerialRuns<S(!new)>(h: (S, Request) -> (S, Reply), x: S, s: State<S>, es: seq<Event>,
                                               t: State<S>)
    requires GoodHandler(h) && Serial(h, x, s.handled, s.session) && Runs(h, s, es, t)
    ensures Serial(h, x, t.handled, t.session)
    decreases |es|
  {
    if es != [] {
      var n := Next(h, s, es[0]);
      if es[0].ServerHandle? && GoodHeader(s.server.got) {
        var req := Request(HeaderMethod(s.server.got), s.server.got[REQUEST_HEADER..]);
        SerialExtend(h, x, s.handled, s.session, req);
      }
      assert Serial(h, x, n.handled, n.session);
      SerialRuns(h, x, n, es[1..], t);
    }
  }

  /* ---------- Main results ---------- */

  /** For every interleaving of callers and every pattern of short, interrupted and failing system
      calls: each call that completed on a connection not marked broken got the reply the server
      produced for its own request, the server having handled the requests one after the other; and
      unless the connection is broken, no byte is left in either direction once no call is in
      flight, and calls have been served in the order in which they took the queue lock. */
  lemma CallsArePaired<S(!new)>(h: (S, Request) -> (S, Reply), x: S, es: seq<Event>, t: State<S>)
    requires GoodHandler(h) && Runs(h, Start(x), es, t)
    ensures Serial(h, x, t.handled, t.session)
    ensures forall k :: 0 <= k < |t.completed| && t.completed[k].clean ==>
              && k < |t.handled|
              && t.completed[k].req == t.handled[k].req
              && t.completed[k].reply == t.handled[k].reply
    ensures !t.broken && t.comm.None? ==>
              t.toServer == [] && t.toClient == [] && |t.handled| == |t.completed|
    ensures !t.broken ==>
              forall k :: 0 <= k < |t.completed| ==>
                k < |t.queueLog| && t.completed[k].clean && t.completed[k].caller == t.queueLog[k]
  {
    InvRuns(h, Start(x), es, t);
    SerialRuns(h, x, Start(x), es, t);
  }

  lemma {:induction false} LogsGrow<S(!new)>(h: (S, Request) -> (S, Reply), s: State<S>, es: seq<Event>, t: State<S>)
    requires GoodHandler(h) && Runs(h, s, es, t)
    ensures s.queueLog <= t.queueLog && s.startLog <= t.startLog
    decreases |es|
  {
    if es != [] {
      LogsGrow(h, Next(h, s, es[0]), es[1..], t);
    }
  }

  lemma OneExchange<S>(s: State<S>, d: nat, e: nat)
    requires Locks(s) && InExchange(s, d) && InExchange(s, e)
    ensures d == e
  {
  }

  /** The caller that holds the queue lock is the next to start. */
  lemma NextToStart<S>(s: State<S>, c: nat)
    requires Locks(s) && PcOf(s, c).HoldsQueue?
    ensures s.queueLog == s.startLog + [c]
  {
  }

  /** No overtaking: once a caller holds the queue lock, the next exchange to start is its own, and
      at most one caller is in an exchange at any time. */
  lemma NoOvertaking<S(!new)>(h: (S, Request) -> (S, Reply), x: S, before: seq<Event>, s: State<S>,
                              c: nat, after: seq<Event>, t: State<S>)
    requires GoodHandler(h) && Runs(h, Start(x), before, s) && Runs(h, s, after, t)
    requires PcOf(s, c).HoldsQueue?
    ensures |t.startLog| > |s.startLog| ==> t.startLog[|s.startLog|] == c
    ensures forall d, e :: InExchange(t, d) && InExchange(t, e) ==> d == e
  {
    InvRuns(h, Start(x), before, s);
    InvRuns(h, s, after, t);
    LogsGrow(h, s, after, t);
    NextToStart(s, c);
    assert s.queueLog[|s.startLog|] == c;
    forall d, e | InExchange(t, d) && InExchange(t, e)
      ensures d == e
    {
      OneExchange(t, d, e);
    }
  }

  /** An exchange on a sound connection with a live server never gets stuck: some step that moves
      it forward is possible. */
  lemma NeverStuck<S(!new)>(h: (S, Request) -> (S, Reply), x: S, es: seq<Event>, t: State<S>) returns (e: Event)
    requires GoodHandler(h) && Runs(h, Start(x), es, t)
    requires !t.broken && t.comm.Some? && !t.server.Gone?
    ensures Enabled(t, e)
    ensures e.UnlockQueue? || e.Send? || e.Receive? || e.Finish?
         || e.ServerReceive? || e.ServerHandle? || e.ServerSend?
  {
    InvRuns(h, Start(x), es, t);
    var c := t.comm.value;
    match PcOf(t, c) {
      case Sending(_, _) => e := Send(c, 1);
      case Receiving(_, _) =>
        if t.server.Writing? {
          e := ServerSend(1, true);
        } else if |t.handled| == |t.completed| {
          e := ServerGoesOn(t, c);
        } else {
          e := CallerGoesOn(t, c);
        }
      case _ => e := UnlockQueue(c);
    }
  }

  /** The server has not handled the request yet: it has bytes to receive, or all of them. */
  lemma ServerGoesOn<S>(t: State<S>, c: nat) returns (e: Event)
    requires Channel(t) && t.comm == Some(c) && PcOf(t, c).Receiving? && t.server.Reading?
    requires |t.handled| == |t.completed|
    ensures Enabled(t, e) && (e.ServerReceive? || e.ServerHandle?)
  {
    var req := PcOf(t, c).req;
    RequestPrefix(req, t.server.got);
    e := if t.toServer == [] then ServerHandle else ServerReceive(1);
    assert t.toServer == [] ==> t.server.got == RequestFrame(req);
  }

  /** It has: the caller has bytes to receive, or all of them. */
  lemma CallerGoesOn<S>(t: State<S>, c: nat) returns (e: Event)
    requires Channel(t) && t.comm == Some(c) && PcOf(t, c).Receiving? && t.server.Reading?
    requires |t.handled| != |t.completed|
    ensures Enabled(t, e) && (e.Receive? || e.Finish?)
  {
    var p := PcOf(t, c);
    var reply := t.handled[|t.completed|].reply;
    ReplyPrefix(p.req.op, reply, p.got);
    e := if t.toClient == [] then Finish(c, true) else Receive(c, 1);
    assert t.toClient == [] ==> p.got == ReplyFrame(p.req.op, reply);
  }
}
