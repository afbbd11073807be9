/**
 The server behind the byte stream: `call` of ServerConnection picks the handler of a request's method. With
 it the two halves of the protocol meet: the exchanges of Rpc.dfy carry the requests and replies of
 ProxyServer.dfy.
 */
module ProxyDispatch {
  import opened Wire
  import opened Message
  import opened Canonical
  import opened Schemas
  import opened Framing
  import opened Ioctl
  import opened ProxyServer
  import opened ProxyClient
  import opened ProxyMirror
  import opened ProxyAnswers
  import PR = ProxyRuns
  import Rpc

  const OPEN_SESSION := 0
  const OPEN_TRUSTLET := 1
  const CLOSE_SESSION := 2
  const NOTIFY := 3
  const WAIT := 4
  const MAP := 5
  const UNMAP := 6
  const GET_ERROR := 7
  const GET_VERSION := 9
  const GP_REQUESTCANCELLATION := 27

  type Int32 = x: int | -TWO_31 <= x < TWO_31

  datatype Version = Version(productId: bytes, mci: U32, so: U32, mclf: U32, container: U32, config: U32,
                             tlApi: U32, drApi: U32, nwd: U32)

  /** What the driver answers to the next request, whichever call that makes, and what the trusted
      application has made of the shared memory by then. */
  datatype Answers = Answers(
    does: Driver<()>,
    opens: Driver<U32>,
    maps: Driver<seq<U64>>,
    error: Driver<Int32>,
    version: Driver<Version>,
    tci: Option<bytes>,
    contents: seq<bytes>)

  /** The session of a connection and the answers to come. */
  datatype ServerState = ServerState(session: Option<Session>, answers: seq<Answers>)

  /** A driver that has nothing to say any more. */
  const NO_DRIVER := Answers(Fails(EPIPE), Fails(EPIPE), Fails(EPIPE), Fails(EPIPE), Fails(EPIPE), None, [])

  /* ---------- The other handlers ---------- */

  function OpenTrustlet(s: Option<Session>, data: bytes, d: Driver<U32>): Outcome
  {
    if s.Some? then ProtocolError(s, EBUSY)
    else
      OpenTablesFit();
      match ParseFromString(OPEN_TRUSTLET_REQUEST, data)
      case None => ProtocolError(s, EPIPE)
      case Some(m) =>
        if !Has(m, 0) || !Has(m, 1) then ProtocolError(s, EINVAL)
        else
          match d
          case Fails(errno) => MethodError(s, errno)
          case Works(sid) =>
            var tci := if Has(m, 2) then Some(DataAt(m, 2)) else None;
            var response := Respond(s, OPEN_TRUSTLET_RESPONSE, Msg([[Num(sid)]], []), 0);
            if response.reply.protoRc < 0 then response
            else response.(session := Some(Session(sid, tci, [])))
  }

  function GetError(s: Option<Session>, data: bytes, d: Driver<Int32>): Outcome
  {
    PlainTablesFit();
    match ParseFromString(GET_ERROR_REQUEST, data)
    case None => ProtocolError(s, EPIPE)
    case Some(m) =>
      if !Has(m, 0) then ProtocolError(s, EINVAL)
      else
        match d
        case Fails(errno) => MethodError(s, errno)
        case Works(code) => Respond(s, GET_ERROR_RESPONSE, Msg([[Num(code)]], []), 0)
  }

  function VersionResponse(v: Version): (m: Msg)
    ensures Typed(GET_VERSION_RESPONSE, m)
  {
    Msg([[Data(v.productId)], [Num(v.mci)], [Num(v.so)], [Num(v.mclf)], [Num(v.container)], [Num(v.config)],
         [Num(v.tlApi)], [Num(v.drApi)], [Num(v.nwd)]], [])
  }

  function GetVersion(s: Option<Session>, data: bytes, d: Driver<Version>): Outcome
  {
    PlainTablesFit();
    match ParseFromString(EMPTY_MESSAGE, data)
    case None => ProtocolError(s, EPIPE)
    case Some(_) =>
      match d
      case Fails(errno) => MethodError(s, errno)
      case Works(v) => Respond(s, GET_VERSION_RESPONSE, VersionResponse(v), 0)
  }

  /** It reads its request as one of get-error; the two have the same fields. */
  function GpRequestCancellation(s: Option<Session>, data: bytes, d: Driver<()>): Outcome
  {
    PlainTablesFit();
    match ParseFromString(GET_ERROR_REQUEST, data)
    case None => ProtocolError(s, EPIPE)
    case Some(m) =>
      if !Has(m, 0) then ProtocolError(s, EINVAL)
      else
        match d
        case Fails(errno) => MethodError(s, errno)
        case Works(_) => Outcome(s, Reply(0, 0, []))
  }

  /** The version that the driver reports is the one that the client reads. */
  lemma VersionArrives(v: Version)
    requires |Serialize(GET_VERSION_RESPONSE, VersionResponse(v))| < TWO_31
    ensures WellFormed(GET_VERSION_RESPONSE)
    ensures Receive(GET_VERSION_RESPONSE, Respond(None, GET_VERSION_RESPONSE, VersionResponse(v), 0).reply)
         == Done(VersionResponse(v))
  {
    VersionTableFits();
    VersionComplete(v);
    ResponseRead(GET_VERSION_RESPONSE, VersionResponse(v));
  }

  lemma VersionComplete(v: Version)
    ensures IsInitialized(GET_VERSION_RESPONSE, VersionResponse(v))
  {
  }

  lemma ResponseRead(s: Schema, m: Msg)
    requires WellFormed(s) && Flat(s) && s != [] && Typed(s, m) && m.unknown == []
    requires IsInitialized(s, m) && m.fields[0] != [] && |Serialize(s, m)| < TWO_31
    ensures Receive(s, Respond(None, s, m, 0).reply) == Done(m)
  {
    FlatArrives(s, m);
    assert |ValuesBytes(s[0], m.fields[0])| > 0;
    assert FieldsBytes(s, m.fields, 0) == ValuesBytes(s[0], m.fields[0]) + FieldsBytes(s, m.fields, 1);
  }

  /* ---------- Dispatch ---------- */

  function Handle(s: Option<Session>, r: Request, a: Answers): Outcome
  {
    if r.op == OPEN_SESSION then OpenSession(s, r.data, a.opens)
    else if r.op == OPEN_TRUSTLET then OpenTrustlet(s, r.data, a.opens)
    else if r.op == CLOSE_SESSION then CloseSession(s, r.data, a.does)
    else if r.op == NOTIFY then ProxyServer.Notify(s, r.data, a.does)
    else if r.op == WAIT then WaitNotification(s, r.data, a.does)
    else if r.op == MAP then ProxyServer.Map(s, r.data, a.maps)
    else if r.op == UNMAP then ProxyServer.Unmap(s, r.data, a.does)
    else if r.op == GET_ERROR then GetError(s, r.data, a.error)
    else if r.op == GET_VERSION then GetVersion(s, r.data, a.version)
    else if r.op == GP_REQUESTCANCELLATION then GpRequestCancellation(s, r.data, a.does)
    else Outcome(s, Reply(-1, 0, []))
  }

  function NextAnswers(s: ServerState): Answers
  {
    if s.answers == [] then NO_DRIVER else s.answers[0]
  }

  /** The session as the trusted application has left it. */
  function Touched(s: Option<Session>, a: Answers): Option<Session>
  {
    if s.Some? && PR.SameSizes(s.value, a.tci, a.contents) then Some(PR.TrustletWrite(s.value, a.tci, a.contents))
    else s
  }

  function Dispatch(s: ServerState, r: Request): (ServerState, Reply)
  {
    var a := NextAnswers(s);
    var o := Handle(Touched(s.session, a), r, a);
    (ServerState(o.session, if s.answers == [] then [] else s.answers[1..]), o.reply)
  }

  lemma OpenHandlersValid(s: Option<Session>, data: bytes, d: Driver<U32>)
    ensures ValidReply(OpenSession(s, data, d).reply)
    ensures ValidReply(OpenTrustlet(s, data, d).reply)
  {
  }

  lemma PlainHandlersValid(s: Option<Session>, data: bytes, d: Driver<()>)
    ensures ValidReply(CloseSession(s, data, d).reply)
    ensures ValidReply(GpRequestCancellation(s, data, d).reply)
  {
  }

  lemma QueryHandlersValid(s: Option<Session>, data: bytes, error: Driver<Int32>, version: Driver<Version>)
    ensures ValidReply(GetError(s, data, error).reply)
    ensures ValidReply(GetVersion(s, data, version).reply)
  {
  }

  lemma NotifyHandlerValid(s: Option<Session>, data: bytes, d: Driver<()>)
    ensures ValidReply(ProxyServer.Notify(s, data, d).reply)
  {
  }

  lemma WaitHandlerValid(s: Option<Session>, data: bytes, d: Driver<()>)
    ensures ValidReply(WaitNotification(s, data, d).reply)
  {
  }

  lemma MapHandlerValid(s: Option<Session>, data: bytes, d: Driver<seq<U64>>)
    ensures ValidReply(ProxyServer.Map(s, data, d).reply)
  {
  }

  lemma UnmapHandlerValid(s: Option<Session>, data: bytes, d: Driver<()>)
    ensures ValidReply(ProxyServer.Unmap(s, data, d).reply)
  {
  }

  lemma HandleValid(s: Option<Session>, r: Request, a: Answers)
    ensures ValidReply(Handle(s, r, a).reply)
  {
    if r.op == MAP {
      MapHandlerValid(s, r.data, a.maps);
    } else if r.op == UNMAP {
      UnmapHandlerValid(s, r.data, a.does);
    } else if r.op == NOTIFY || r.op == WAIT {
      NotifyHandlerValid(s, r.data, a.does);
      WaitHandlerValid(s, r.data, a.does);
    } else if r.op == OPEN_SESSION || r.op == OPEN_TRUSTLET {
      OpenHandlersValid(s, r.data, a.opens);
    } else {
      PlainHandlersValid(s, r.data, a.does);
      QueryHandlersValid(s, r.data, a.error, a.version);
    }
  }

  /** Whatever the session, the request and the driver, the reply of the server is a well-formed one. */
  lemma DispatchIsGood()
    ensures Rpc.GoodHandler(Dispatch)
  {
    forall s: ServerState, r: Request
      ensures ValidReply(Dispatch(s, r).1)
    {
      HandleValid(Touched(s.session, NextAnswers(s)), r, NextAnswers(s));
    }
  }

  /* ---------- End to end ---------- */

  /** The server after the requests of a history. */
  function Served(s: ServerState, hs: seq<Rpc.Handled>): ServerState
    decreases |hs|
  {
    if hs == [] then s else Served(Dispatch(s, hs[0].req).0, hs[1..])
  }

  lemma {:induction false} SerialReplies(s: ServerState, hs: seq<Rpc.Handled>, t: ServerState, k: nat)
    requires Rpc.Serial(Dispatch, s, hs, t) && k < |hs|
    ensures hs[k].reply == Dispatch(Served(s, hs[..k]), hs[k].req).1
    decreases k
  {
    if k > 0 {
      SerialReplies(Dispatch(s, hs[0].req).0, hs[1..], t, k - 1);
      assert hs[..k][1..] == hs[1..][..k - 1] && hs[..k][0] == hs[0];
    }
  }

  /** For every interleaving of callers and every pattern of system calls: the k-th call completed on a
      connection not marked broken got what the handler of its method returned for its own request, the
      server having handled the k requests before it one after the other. */
  lemma CallsReachTheirHandler(answers: seq<Answers>, es: seq<Rpc.Event>, t: Rpc.State<ServerState>)
    requires Rpc.GoodHandler(Dispatch)
    requires Rpc.Runs(Dispatch, Rpc.Start(ServerState(None, answers)), es, t)
    ensures forall k :: 0 <= k < |t.completed| && t.completed[k].clean ==>
              && k < |t.handled|
              && t.completed[k].reply
                 == Dispatch(Served(ServerState(None, answers), t.handled[..k]), t.completed[k].req).1
  {
    var start := ServerState(None, answers);
    Rpc.CallsArePaired(Dispatch, start, es, t);
    forall k | 0 <= k < |t.completed| && t.completed[k].clean
      ensures t.completed[k].reply == Dispatch(Served(start, t.handled[..k]), t.completed[k].req).1
    {
      SerialReplies(start, t.handled, t.session, k);
    }
  }

  /** A call that completes has not met a protocol error. */
  lemma {:induction false} CompletedWithoutError(s: Rpc.State<ServerState>, es: seq<Rpc.Event>,
                                               t: Rpc.State<ServerState>)
    requires Rpc.GoodHandler(Dispatch) && Rpc.Runs(Dispatch, s, es, t)
    requires forall k :: 0 <= k < |s.completed| ==> s.completed[k].reply.protoRc >= 0
    ensures forall k :: 0 <= k < |t.completed| ==> t.completed[k].reply.protoRc >= 0
    decreases |es|
  {
    if es != [] {
      CompletedWithoutError(Rpc.Next(Dispatch, s, es[0]), es[1..], t);
    }
  }

  /** A map, from the bytes the client writes to the response it reads: there is a session, the request
      asks for at most four buffers with proper flags, and what the caller receives is what mapping those
      slots at the server's session comes to. */
  lemma MapEndToEnd(answers: seq<Answers>, es: seq<Rpc.Event>, t: Rpc.State<ServerState>, k: nat,
                    sid: U32, chosen: seq<Slot>)
    requires Rpc.GoodHandler(Dispatch)
    requires Rpc.Runs(Dispatch, Rpc.Start(ServerState(None, answers)), es, t)
    requires k < |t.completed| && t.completed[k].clean
    requires |Serialize(MAP_REQUEST, MapRequest(sid, chosen))| < TWO_31
    requires t.completed[k].req == Request(MAP, Serialize(MAP_REQUEST, MapRequest(sid, chosen)))
    ensures k < |t.handled| && WellFormed(MAP_RESPONSE)
    ensures var before := Served(ServerState(None, answers), t.handled[..k]);
            var s := Touched(before.session, NextAnswers(before));
            var result := Receive(MAP_RESPONSE, t.completed[k].reply);
            s.Some? &&
            match MapEffect(s.value, chosen, NextAnswers(before).maps)
            case Breaks => false
            case Refuses(errno) => result == Refused(errno, Empty(MAP_RESPONSE))
            case Does(_, svas) => result == Done(MapResponse(svas))
  {
    hide ProxyServer.Map, MapEffect, Receive, Serialize, MapRequest;
    MapTablesFit();
    CallsReachTheirHandler(answers, es, t);
    CompletedWithoutError(Rpc.Start(ServerState(None, answers)), es, t);
    var before := Served(ServerState(None, answers), t.handled[..k]);
    MapReplied(Touched(before.session, NextAnswers(before)), sid, chosen, NextAnswers(before).maps);
  }

  lemma MapReplied(s: Option<Session>, sid: U32, chosen: seq<Slot>, d: Driver<seq<U64>>)
    requires |Serialize(MAP_REQUEST, MapRequest(sid, chosen))| < TWO_31
    ensures WellFormed(MAP_RESPONSE)
    ensures var r := ProxyServer.Map(s, Serialize(MAP_REQUEST, MapRequest(sid, chosen)), d).reply;
            r.protoRc >= 0 ==>
              s.Some? &&
              match MapEffect(s.value, chosen, d)
              case Breaks => false
              case Refuses(errno) => Receive(MAP_RESPONSE, r) == Refused(errno, Empty(MAP_RESPONSE))
              case Does(_, svas) => Receive(MAP_RESPONSE, r) == Done(MapResponse(svas))
  {
    MapTablesFit();
    MapRequestArrives(sid, chosen);
    if s.Some? {
      MapServed(s.value, sid, chosen, Serialize(MAP_REQUEST, MapRequest(sid, chosen)), d);
      MapExchange(s.value, sid, chosen, d);
    }
  }

  /** A notify, in the same way: when the call completes, the server had all of its buffers and has taken
      the TCI and their contents. */
  lemma NotifyEndToEnd(answers: seq<Answers>, es: seq<Rpc.Event>, t: Rpc.State<ServerState>, k: nat,
                       memory: bytes, c: ClientSession)
    requires Rpc.GoodHandler(Dispatch)
    requires Rpc.Runs(Dispatch, Rpc.Start(ServerState(None, answers)), es, t)
    requires k < |t.completed| && t.completed[k].clean && SessionInMemory(memory, c)
    requires |Serialize(NOTIFY_REQUEST, NotifyRequest(memory, c))| < TWO_31
    requires t.completed[k].req == Request(NOTIFY, Serialize(NOTIFY_REQUEST, NotifyRequest(memory, c)))
    ensures k < |t.handled|
    ensures var before := Served(ServerState(None, answers), t.handled[..k]);
            var s := Touched(before.session, NextAnswers(before));
            var after := Dispatch(before, t.completed[k].req).0;
            && s.Some?
            && (SameTci(c.tci, s.value.tci) ==>
                  var effect := NotifyEffect(s.value, memory, c, NextAnswers(before).does);
                  && effect.Does? && after.session == Some(effect.session)
                  && t.completed[k].reply.methodRc == effect.value)
  {
    CallsReachTheirHandler(answers, es, t);
    CompletedWithoutError(Rpc.Start(ServerState(None, answers)), es, t);
    var before := Served(ServerState(None, answers), t.handled[..k]);
    NotifyReplied(Touched(before.session, NextAnswers(before)), memory, c, NextAnswers(before).does);
  }

  lemma NotifyReplied(s: Option<Session>, memory: bytes, c: ClientSession, d: Driver<()>)
    requires SessionInMemory(memory, c)
    requires |Serialize(NOTIFY_REQUEST, NotifyRequest(memory, c))| < TWO_31
    ensures var o := ProxyServer.Notify(s, Serialize(NOTIFY_REQUEST, NotifyRequest(memory, c)), d);
            o.reply.protoRc >= 0 ==>
              && s.Some?
              && (SameTci(c.tci, s.value.tci) ==>
                    var effect := NotifyEffect(s.value, memory, c, d);
                    effect.Does? && o == Outcome(Some(effect.session), Reply(0, effect.value, [])))
  {
    NotifyTablesFit();
    NotifyRequestArrives(memory, c);
    if s.Some? && SameTci(c.tci, s.value.tci) {
      NotifyServed(s.value, memory, c, Serialize(NOTIFY_REQUEST, NotifyRequest(memory, c)), d);
    }
  }

  /** An unmap, in the same way: there is a session, the request names no more buffers than there are and
      none of them twice, and what the caller receives is what unmapping comes to there. */
  lemma UnmapEndToEnd(answers: seq<Answers>, es: seq<Rpc.Event>, t: Rpc.State<ServerState>, k: nat,
                      sid: U32, chosen: seq<Slot>)
    requires Rpc.GoodHandler(Dispatch)
    requires Rpc.Runs(Dispatch, Rpc.Start(ServerState(None, answers)), es, t)
    requires k < |t.completed| && t.completed[k].clean
    requires |Serialize(UNMAP_REQUEST, UnmapRequest(sid, chosen))| < TWO_31
    requires t.completed[k].req == Request(UNMAP, Serialize(UNMAP_REQUEST, UnmapRequest(sid, chosen)))
    ensures k < |t.handled| && WellFormed(EMPTY_MESSAGE)
    ensures var before := Served(ServerState(None, answers), t.handled[..k]);
            var s := Touched(before.session, NextAnswers(before));
            var after := Dispatch(before, t.completed[k].req).0;
            var result := Receive(EMPTY_MESSAGE, t.completed[k].reply);
            s.Some? &&
            match UnmapEffect(s.value, chosen, NextAnswers(before).does)
            case Breaks => false
            case Refuses(errno) => after.session == s && result == Refused(errno, Empty(EMPTY_MESSAGE))
            case Does(u, _) => after.session == Some(u) && result == Done(Empty(EMPTY_MESSAGE))
  {
    hide ProxyServer.Unmap, UnmapEffect, Receive, Serialize, UnmapRequest;
    PlainTablesFit();
    CallsReachTheirHandler(answers, es, t);
    CompletedWithoutError(Rpc.Start(ServerState(None, answers)), es, t);
    var before := Served(ServerState(None, answers), t.handled[..k]);
    UnmapReplied(Touched(before.session, NextAnswers(before)), sid, chosen, NextAnswers(before).does);
  }

  lemma UnmapReplied(s: Option<Session>, sid: U32, chosen: seq<Slot>, d: Driver<()>)
    requires |Serialize(UNMAP_REQUEST, UnmapRequest(sid, chosen))| < TWO_31
    ensures WellFormed(EMPTY_MESSAGE)
    ensures var o := ProxyServer.Unmap(s, Serialize(UNMAP_REQUEST, UnmapRequest(sid, chosen)), d);
            o.reply.protoRc >= 0 ==>
              s.Some? &&
              match UnmapEffect(s.value, chosen, d)
              case Breaks => false
              case Refuses(errno) =>
                o.session == s && Receive(EMPTY_MESSAGE, o.reply) == Refused(errno, Empty(EMPTY_MESSAGE))
              case Does(u, _) =>
                o.session == Some(u) && Receive(EMPTY_MESSAGE, o.reply) == Done(Empty(EMPTY_MESSAGE))
  {
    PlainTablesFit();
    if s.Some? {
      UnmapExchange(s.value, sid, chosen, d);
    }
  }

  /** A wait of a slice in range: the session has not been changed, and the caller receives a partial
      time-out or the session's TCI and OUTPUT buffers. */
  lemma WaitEndToEnd(answers: seq<Answers>, es: seq<Rpc.Event>, t: Rpc.State<ServerState>, k: nat,
                     sid: U32, slice: Slice)
    requires Rpc.GoodHandler(Dispatch) && 0 <= slice.timeout <= TIMEOUT_MAX
    requires Rpc.Runs(Dispatch, Rpc.Start(ServerState(None, answers)), es, t)
    requires k < |t.completed| && t.completed[k].clean
    requires t.completed[k].req == Request(WAIT, Serialize(WAIT_REQUEST, WaitRequest(sid, slice)))
    ensures k < |t.handled| && WellFormed(WAIT_RESPONSE)
    ensures var before := Served(ServerState(None, answers), t.handled[..k]);
            var s := Touched(before.session, NextAnswers(before));
            var after := Dispatch(before, t.completed[k].req).0;
            var result := Receive(WAIT_RESPONSE, t.completed[k].reply);
            s.Some? && after.session == s &&
            match WaitEffect(s.value, slice, NextAnswers(before).does)
            case Breaks => false
            case Refuses(errno) => result.Refused? && result.errno == errno
            case Does(_, rc) =>
              result == if rc != 0 then Refused(rc, WaitResponse(s.value)) else Done(WaitResponse(s.value))
  {
    hide WaitNotification, WaitEffect, Receive, Serialize, WaitRequest;
    NotifyTablesFit();
    CallsReachTheirHandler(answers, es, t);
    CompletedWithoutError(Rpc.Start(ServerState(None, answers)), es, t);
    var before := Served(ServerState(None, answers), t.handled[..k]);
    WaitReplied(Touched(before.session, NextAnswers(before)), sid, slice, NextAnswers(before).does);
  }

  lemma WaitReplied(s: Option<Session>, sid: U32, slice: Slice, d: Driver<()>)
    requires 0 <= slice.timeout <= TIMEOUT_MAX
    ensures WellFormed(WAIT_RESPONSE)
    ensures var o := WaitNotification(s, Serialize(WAIT_REQUEST, WaitRequest(sid, slice)), d);
            var result := Receive(WAIT_RESPONSE, o.reply);
            o.reply.protoRc >= 0 ==>
              s.Some? && o.session == s &&
              match WaitEffect(s.value, slice, d)
              case Breaks => false
              case Refuses(errno) => result.Refused? && result.errno == errno
              case Does(_, rc) =>
                result == if rc != 0 then Refused(rc, WaitResponse(s.value)) else Done(WaitResponse(s.value))
  {
    NotifyTablesFit();
    WaitRequestFits(sid, slice);
    if s.Some? {
      WaitExchange(s.value, sid, slice, d);
    }
  }

  /** A close: there is a session, and it is gone exactly if the driver has closed it. */
  lemma CloseEndToEnd(answers: seq<Answers>, es: seq<Rpc.Event>, t: Rpc.State<ServerState>, k: nat, sid: U32)
    requires Rpc.GoodHandler(Dispatch)
    requires Rpc.Runs(Dispatch, Rpc.Start(ServerState(None, answers)), es, t)
    requires k < |t.completed| && t.completed[k].clean
    requires t.completed[k].req == Request(CLOSE_SESSION, Serialize(CLOSE_SESSION_REQUEST, IdRequest(sid)))
    ensures k < |t.handled| && WellFormed(EMPTY_MESSAGE)
    ensures var before := Served(ServerState(None, answers), t.handled[..k]);
            var s := Touched(before.session, NextAnswers(before));
            var after := Dispatch(before, t.completed[k].req).0;
            var result := Receive(EMPTY_MESSAGE, t.completed[k].reply);
            s.Some? &&
            match NextAnswers(before).does
            case Fails(errno) => after.session == s && result == Refused(errno, Empty(EMPTY_MESSAGE))
            case Works(_) => after.session == None && result == Done(Empty(EMPTY_MESSAGE))
  {
    PlainTablesFit();
    CallsReachTheirHandler(answers, es, t);
    CompletedWithoutError(Rpc.Start(ServerState(None, answers)), es, t);
    var before := Served(ServerState(None, answers), t.handled[..k]);
    CloseReplied(Touched(before.session, NextAnswers(before)), sid, NextAnswers(before).does);
  }

  lemma CloseReplied(s: Option<Session>, sid: U32, d: Driver<()>)
    ensures WellFormed(EMPTY_MESSAGE)
    ensures var o := CloseSession(s, Serialize(CLOSE_SESSION_REQUEST, IdRequest(sid)), d);
            o.reply.protoRc >= 0 ==>
              s.Some? &&
              match d
              case Fails(errno) =>
                o.session == s && Receive(EMPTY_MESSAGE, o.reply) == Refused(errno, Empty(EMPTY_MESSAGE))
              case Works(_) => o.session == None && Receive(EMPTY_MESSAGE, o.reply) == Done(Empty(EMPTY_MESSAGE))
  {
    PlainTablesFit();
    if s.Some? {
      CloseExchange(s.value, sid, d);
    }
  }
}
