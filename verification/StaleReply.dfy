/**
 Why pairing stops at a broken connection: `call` never looks at `is_broken_`, so a caller that was
 waiting for the lock sends on the same socket and takes the reply to the failed call for its own.
 */
module StaleReply {
  import opened Wire
  import opened Framing
  import opened Rpc

  /** A server that answers with a running number as the method's result code. */
  function Count(n: nat, r: Request): (nat, Reply)
  {
    (n + 1, Reply(0, n % TWO_32, []))
  }

  const FIRST := Request(3, [])
  const SECOND := Request(4, [])

  lemma RunsCons<S(!new)>(h: (S, Request) -> (S, Reply), s: State<S>, e: Event, es: seq<Event>, t: State<S>)
    requires GoodHandler(h) && Enabled(s, e) && Runs(h, Next(h, s, e), es, t)
    ensures Runs(h, s, [e] + es, t)
  {
    assert ([e] + es)[1..] == es;
  }

  lemma {:induction false} RunsConcat<S(!new)>(h: (S, Request) -> (S, Reply), s: State<S>, a: seq<Event>, m: State<S>,
                                               b: seq<Event>, t: State<S>)
    requires GoodHandler(h) && Runs(h, s, a, m) && Runs(h, m, b, t)
    ensures Runs(h, s, a + b, t)
    decreases |a|
  {
    if a == [] {
      assert a + b == b;
    } else {
      RunsConcat(h, Next(h, s, a[0]), a[1..], m, b, t);
      assert (a + b)[1..] == a[1..] + b;
    }
  }

  /** Taking both locks and sending a whole request. */
  lemma SendAll<S(!new)>(h: (S, Request) -> (S, Reply), s: State<S>, c: nat, req: Request)
    returns (es: seq<Event>, t: State<S>)
    requires GoodHandler(h) && ValidRequest(req)
    requires PcOf(s, c).Idle? && s.queue.None? && s.comm.None? && !s.server.Gone?
    ensures Runs(h, s, es, t)
    ensures t == s.(comm := Some(c), toServer := s.toServer + RequestFrame(req),
                    pcs := s.pcs[c := Receiving(req, [])],
                    queueLog := s.queueLog + [c], startLog := s.startLog + [c])
  {
    var n := |RequestFrame(req)|;
    var s1 := Next(h, s, LockQueue(c, req));
    var s2 := Next(h, s1, LockComm(c));
    var s3 := Next(h, s2, UnlockQueue(c));
    t := Next(h, s3, Send(c, n));
    RunsCons(h, s3, Send(c, n), [], t);
    RunsCons(h, s2, UnlockQueue(c), [Send(c, n)], t);
    RunsCons(h, s1, LockComm(c), [UnlockQueue(c)] + [Send(c, n)], t);
    es := [LockQueue(c, req)] + ([LockComm(c)] + ([UnlockQueue(c)] + [Send(c, n)]));
    RunsCons(h, s, LockQueue(c, req), [LockComm(c)] + ([UnlockQueue(c)] + [Send(c, n)]), t);
    assert t.pcs == s.pcs[c := Receiving(req, [])];
  }

  lemma ServerGets<S(!new)>(h: (S, Request) -> (S, Reply), s: State<S>, f: bytes)
    requires GoodHandler(h) && s.server == Reading([]) && s.toServer == f && |f| == REQUEST_HEADER
    ensures Enabled(s, ServerReceive(12))
    ensures Next(h, s, ServerReceive(12)) == s.(toServer := [], server := Reading(f))
  {
    assert f[..12] == f && f[12..] == [] && [] + f == f;
  }

  lemma ServerAnswers<S(!new)>(h: (S, Request) -> (S, Reply), s: State<S>, req: Request)
    requires GoodHandler(h) && ValidRequest(req) && req.data == [] && s.server == Reading(RequestFrame(req))
    ensures ValidReply(h(s.session, req).1) && Enabled(s, ServerHandle)
    ensures Next(h, s, ServerHandle)
         == s.(server := Writing(ReplyFrame(req.op, h(s.session, req).1)), session := h(s.session, req).0,
               handled := s.handled + [Handled(req, h(s.session, req).1)])
  {
    var f := RequestFrame(req);
    assert |f| == 12;
    RequestPrefix(req, f);
    assert Request(HeaderMethod(f), f[REQUEST_HEADER..]) == req;
  }

  /** The server reading and handling the request in the stream ... */
  lemma Serve<S(!new)>(h: (S, Request) -> (S, Reply), s: State<S>, req: Request) returns (es: seq<Event>, t: State<S>)
    requires GoodHandler(h) && ValidRequest(req) && req.data == []
    requires s.server == Reading([]) && s.toServer == RequestFrame(req)
    ensures ValidReply(h(s.session, req).1)
    ensures Runs(h, s, es, t)
    ensures t == s.(toServer := [], server := Writing(ReplyFrame(req.op, h(s.session, req).1)),
                    session := h(s.session, req).0,
                    handled := s.handled + [Handled(req, h(s.session, req).1)])
  {
    ServerGets(h, s, RequestFrame(req));
    var s1 := Next(h, s, ServerReceive(12));
    ServerAnswers(h, s1, req);
    t := Next(h, s1, ServerHandle);
    RunsCons(h, s1, ServerHandle, [], t);
    es := [ServerReceive(12)] + [ServerHandle];
    RunsCons(h, s, ServerReceive(12), [ServerHandle], t);
  }

  lemma ServerSends<S(!new)>(h: (S, Request) -> (S, Reply), s: State<S>, f: bytes)
    requires GoodHandler(h) && s.server == Writing(f) && |f| == RESPONSE_HEADER && s.toClient == []
    ensures Enabled(s, ServerSend(16, true))
    ensures Next(h, s, ServerSend(16, true)) == s.(toClient := f, server := Reading([]))
  {
    assert f[..16] == f && [] + f == f;
  }

  lemma ClientGets<S(!new)>(h: (S, Request) -> (S, Reply), s: State<S>, c: nat, req: Request, f: bytes)
    requires GoodHandler(h) && PcOf(s, c) == Receiving(req, []) && s.toClient == f && |f| == RESPONSE_HEADER
    ensures Enabled(s, Receive(c, 16))
    ensures Next(h, s, Receive(c, 16)) == s.(toClient := [], pcs := s.pcs[c := Receiving(req, f)])
  {
    assert f[..16] == f && f[16..] == [] && [] + f == f;
  }

  lemma ClientReturns<S(!new)>(h: (S, Request) -> (S, Reply), s: State<S>, c: nat, req: Request, op: nat, reply: Reply)
    requires GoodHandler(h) && ValidReply(reply) && reply.protoRc == 0 && op < 0x1_0000
    requires PcOf(s, c) == Receiving(req, ReplyFrame(op, reply))
    ensures Enabled(s, Finish(c, true))
    ensures Next(h, s, Finish(c, true))
         == s.(comm := None, pcs := s.pcs[c := Idle],
               completed := s.completed + [Completed(c, req, reply, !s.broken)])
  {
    var f := ReplyFrame(op, reply);
    ReplyPrefix(op, reply, f);
    assert |f| == 16 && DecodeReply(f) == reply;
  }

  /** ... and a caller receiving and returning a reply without data. */
  lemma Deliver<S(!new)>(h: (S, Request) -> (S, Reply), s: State<S>, c: nat, req: Request, op: nat, reply: Reply)
    returns (es: seq<Event>, t: State<S>)
    requires GoodHandler(h) && ValidReply(reply) && reply.protoRc == 0 && op < 0x1_0000
    requires PcOf(s, c) == Receiving(req, []) && s.comm == Some(c)
    requires s.toClient == [] && s.server == Writing(ReplyFrame(op, reply))
    ensures Runs(h, s, es, t)
    ensures t == s.(server := Reading([]), comm := None, pcs := s.pcs[c := Idle],
                    completed := s.completed + [Completed(c, req, reply, !s.broken)])
  {
    var f := ReplyFrame(op, reply);
    ServerSends(h, s, f);
    var s1 := Next(h, s, ServerSend(16, true));
    ClientGets(h, s1, c, req, f);
    var s2 := Next(h, s1, Receive(c, 16));
    ClientReturns(h, s2, c, req, op, reply);
    t := Next(h, s2, Finish(c, true));
    assert t.pcs == s.pcs[c := Idle];
    RunsCons(h, s2, Finish(c, true), [], t);
    RunsCons(h, s1, Receive(c, 16), [Finish(c, true)], t);
    es := [ServerSend(16, true)] + ([Receive(c, 16)] + [Finish(c, true)]);
    RunsCons(h, s, ServerSend(16, true), [Receive(c, 16)] + [Finish(c, true)], t);
  }

  /** Caller 1 sends and gives up; the server answers; caller 2 sends its own request and completes
      with the answer to caller 1's, its own request not even handled. */
  lemma BrokenConnectionMispairs() returns (es: seq<Event>, t: State<nat>)
    ensures GoodHandler(Count) && Runs(Count, Start(0), es, t)
    ensures t.broken && t.comm.None?
    ensures t.completed == [Completed(2, SECOND, Reply(0, 0, []), false)]
    ensures t.handled == [Handled(FIRST, Reply(0, 0, []))] && t.toServer == RequestFrame(SECOND)
  {
    assert GoodHandler(Count);
    var a, s1 := SendAll(Count, Start(0), 1, FIRST);
    var s2 := Next(Count, s1, Fail(1));
    RunsCons(Count, s1, Fail(1), [], s2);
    RunsConcat(Count, Start(0), a, s1, [Fail(1)], s2);
    assert [] + RequestFrame(FIRST) == RequestFrame(FIRST);
    var b, s3 := Serve(Count, s2, FIRST);
    RunsConcat(Count, Start(0), a + [Fail(1)], s2, b, s3);
    var d, s4 := SendAll(Count, s3, 2, SECOND);
    RunsConcat(Count, Start(0), a + [Fail(1)] + b, s3, d, s4);
    var e;
    e, t := Deliver(Count, s4, 2, SECOND, FIRST.op, Reply(0, 0, []));
    es := a + [Fail(1)] + b + d + e;
    RunsConcat(Count, Start(0), a + [Fail(1)] + b + d, s4, e, t);
    assert t.toServer == [] + RequestFrame(SECOND);
  }
}
