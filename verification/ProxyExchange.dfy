/**
 One exchange of ProxyCallers.dfy is one exchange of Rpc.dfy: what serving a caller's request does there in
 one step is what the server's handler does to the session and the client makes of the reply that Rpc.dfy
 has carried to it, for notify, map, unmap, wait and close.
 */
module ProxyExchange {
  import opened Wire
  import opened Message
  import opened Canonical
  import opened Schemas
  import opened Framing
  import opened Ioctl
  import opened ProxyServer
  import opened ProxyClient
  import opened ProxyAnswers
  import opened ProxyCallers
  import opened ProxyDispatch
  import Rpc

  /** The request a caller sends. */
  function Sent(s: State, c: nat): Request
    requires s.Live? && c in s.calls && Asked(s.calls[c])
  {
    PlainTablesFit();
    MapTablesFit();
    var id := s.client.id;
    match s.calls[c]
    case Notifying(data, _) => Request(NOTIFY, data)
    case Mapping(chosen) => Request(MAP, Serialize(MAP_REQUEST, MapRequest(id, chosen)))
    case Unmapping(chosen) => Request(UNMAP, Serialize(UNMAP_REQUEST, UnmapRequest(id, chosen)))
    case Waiting(timeout, left) =>
      Request(WAIT, Serialize(WAIT_REQUEST, WaitRequest(id, WaitSlice(timeout, left))))
    case Closing => Request(CLOSE_SESSION, Serialize(CLOSE_SESSION_REQUEST, IdRequest(id)))
  }

  /** What the caller makes of the reply, the server having kept `session`. */
  function Received(s: State, c: nat, session: Option<Session>, reply: Reply): State
    requires s.Live? && c in s.calls && Asked(s.calls[c])
  {
    PlainTablesFit();
    var o := Outcome(session, reply);
    match s.calls[c]
    case Notifying(_, _) =>
      if Receive(EMPTY_MESSAGE, reply).Broken? then Gone(s.mem) else Over(s.(server := session, mutex := None), c)
    case Mapping(_) => MapReply(s, c, o)
    case Unmapping(_) => UnmapReply(s, c, o)
    case Waiting(timeout, left) => WaitReply(s, c, WaitSlice(timeout, left), o)
    case Closing => CloseReply(s, c, o)
  }

  lemma NotifyHandled(s: State, c: nat, a: Answers)
    requires s.Live? && c in s.calls && s.calls[c].Notifying? && |Sent(s, c).data| < TWO_31
    ensures var o := Handle(s.server, Sent(s, c), a);
            ServeNotify(s, c, a.does, false) == Received(s, c, o.session, o.reply)
  {
    PlainTablesFit();
  }

  lemma MapHandled(s: State, c: nat, a: Answers)
    requires s.Live? && c in s.calls && s.calls[c].Mapping? && |Sent(s, c).data| < TWO_31
    ensures var o := Handle(s.server, Sent(s, c), a);
            ServeMap(s, c, a.maps, false) == Received(s, c, o.session, o.reply)
  {
    hide ProxyServer.Map, MapReply, MapRequest, Serialize;
    MapTablesFit();
  }

  lemma UnmapHandled(s: State, c: nat, a: Answers)
    requires s.Live? && c in s.calls && s.calls[c].Unmapping? && |Sent(s, c).data| < TWO_31
    ensures var o := Handle(s.server, Sent(s, c), a);
            ServeUnmap(s, c, a.does, false) == Received(s, c, o.session, o.reply)
  {
    hide ProxyServer.Unmap, UnmapReply, UnmapRequest, Serialize;
    PlainTablesFit();
  }

  lemma WaitHandled(s: State, c: nat, a: Answers)
    requires s.Live? && c in s.calls && s.calls[c].Waiting? && |Sent(s, c).data| < TWO_31
    ensures var o := Handle(s.server, Sent(s, c), a);
            ServeWait(s, c, a.does, false) == Received(s, c, o.session, o.reply)
  {
    hide WaitNotification, WaitReply, WaitRequest, Serialize;
    NotifyTablesFit();
  }

  lemma CloseHandled(s: State, c: nat, a: Answers)
    requires s.Live? && c in s.calls && s.calls[c].Closing? && |Sent(s, c).data| < TWO_31
    ensures var o := Handle(s.server, Sent(s, c), a);
            ServeClose(s, c, a.does, false) == Received(s, c, o.session, o.reply)
  {
    PlainTablesFit();
  }

  /** Serving a caller is having its request handled and receiving the reply. */
  lemma ServeIsHandle(s: State, c: nat, a: Answers)
    requires Enabled(s, Serve(c, a.does, a.maps, false)) && |Sent(s, c).data| < TWO_31
    ensures var o := Handle(s.server, Sent(s, c), a);
            Next(s, Serve(c, a.does, a.maps, false)) == Received(s, c, o.session, o.reply)
  {
    match s.calls[c]
    case Notifying(_, _) => NotifyHandled(s, c, a);
    case Mapping(_) => MapHandled(s, c, a);
    case Unmapping(_) => UnmapHandled(s, c, a);
    case Waiting(_, _) => WaitHandled(s, c, a);
    case Closing => CloseHandled(s, c, a);
  }

  /** For every run of the calls, with every interleaving and every pattern of system calls: if a call that
      has completed on a sound connection carried the request of a caller of ProxyCallers.dfy, at whose
      session the server was by then, then the step there comes to what that call has returned. */
  lemma ServeIsExchange(answers: seq<Answers>, es: seq<Rpc.Event>, t: Rpc.State<ServerState>, k: nat, s: State, c: nat)
    requires Rpc.GoodHandler(Dispatch)
    requires Rpc.Runs(Dispatch, Rpc.Start(ServerState(None, answers)), es, t)
    requires k < |t.completed| && t.completed[k].clean
    requires s.Live? && c in s.calls && Asked(s.calls[c]) && |Sent(s, c).data| < TWO_31
    requires t.completed[k].req == Sent(s, c)
    ensures k < |t.handled|
    ensures var before := Served(ServerState(None, answers), t.handled[..k]);
            var a := NextAnswers(before);
            Enabled(s, Serve(c, a.does, a.maps, false)) && s.server == Touched(before.session, a) ==>
              Next(s, Serve(c, a.does, a.maps, false))
              == Received(s, c, Dispatch(before, Sent(s, c)).0.session, t.completed[k].reply)
  {
    CallsReachTheirHandler(answers, es, t);
    var before := Served(ServerState(None, answers), t.handled[..k]);
    var a := NextAnswers(before);
    if Enabled(s, Serve(c, a.does, a.maps, false)) && s.server == Touched(before.session, a) {
      ServeIsHandle(s, c, a);
    }
  }
}
