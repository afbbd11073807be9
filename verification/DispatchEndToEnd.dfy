/**
 The other methods from the bytes the client writes to the response it reads: opening a session or a trustlet,
 asking for an error or the version, and cancelling. As in ProxyDispatch.dfy each statement holds for every
 interleaving of callers and every pattern of system calls, and is one about the driver's answer.
 */
module DispatchEndToEnd {
  import opened Wire
  import opened Message
  import opened Canonical
  import opened Schemas
  import opened Framing
  import opened Ioctl
  import opened ProxyServer
  import opened ProxyClient
  import opened ProxyMirror
  import opened ProxyAnswers
  import opened ProxyDispatch
  import opened DriverCalls
  import PR = ProxyRuns
  import Rpc

  /** The server before it handled the request of the k-th call. */
  function Handling(answers: seq<Answers>, t: Rpc.State<ServerState>, k: nat): ServerState
    requires k <= |t.handled|
  {
    Served(ServerState(None, answers), t.handled[..k])
  }

  /** Every request is answered by the driver's next answer: the k-th request handled meets the k-th. */
  lemma {:induction false} AnswersInOrder(s: ServerState, hs: seq<Rpc.Handled>)
    ensures NextAnswers(Served(s, hs)) == if |hs| < |s.answers| then s.answers[|hs|] else NO_DRIVER
    decreases |hs|
  {
    if hs != [] {
      AnswersInOrder(Dispatch(s, hs[0].req).0, hs[1..]);
    }
  }

  /** What the trusted application has written by then: the TCI and every buffer, if they are of the right
      sizes, and nothing else of the session. */
  lemma TouchedIs(s: Session, a: Answers)
    ensures var t := Touched(Some(s), a);
            if PR.SameSizes(s, a.tci, a.contents)
            then && t.Some? && t.value.id == s.id && t.value.tci == a.tci && |t.value.buffers| == |s.buffers|
                 && forall j :: 0 <= j < |s.buffers| ==>
                      t.value.buffers[j] == Buffer(s.buffers[j].sva, s.buffers[j].flags, a.contents[j])
            else t == Some(s)
  {
  }

  /** What the two lemmas on calls say of the k-th call. */
  lemma Answered(answers: seq<Answers>, es: seq<Rpc.Event>, t: Rpc.State<ServerState>, k: nat)
    requires Rpc.GoodHandler(Dispatch)
    requires Rpc.Runs(Dispatch, Rpc.Start(ServerState(None, answers)), es, t)
    requires k < |t.completed| && t.completed[k].clean
    ensures k < |t.handled| && t.completed[k].reply.protoRc >= 0
    ensures var before := Handling(answers, t, k);
            var o := Handle(Touched(before.session, NextAnswers(before)), t.completed[k].req, NextAnswers(before));
            && o.reply == t.completed[k].reply
            && o.session == Dispatch(before, t.completed[k].req).0.session
  {
    hide Handle, Touched, Served;
    CallsReachTheirHandler(answers, es, t);
    CompletedWithoutError(Rpc.Start(ServerState(None, answers)), es, t);
  }

  /* ---------- Opening ---------- */

  /** What the client makes of an answer to a request to open. */
  predicate OpenAnswered(d: Driver<U32>, tci: Option<bytes>, after: Option<Session>, result: CallResult)
  {
    match d
    case Fails(errno) => after == None && result.Refused? && result.errno == errno
    case Works(sid) => after == Some(Session(sid, tci, [])) && result == Done(Msg([[Num(sid)]], []))
  }

  lemma OpenReplied(s: Option<Session>, uuid: bytes, isGp: bool, tci: Option<bytes>, login: int, loginData: bytes,
                    d: Driver<U32>)
    requires LoginTypeIsValid(login)
    requires |Serialize(OPEN_SESSION_REQUEST, OpenRequest(uuid, isGp, tci, login, loginData))| < TWO_31
    ensures WellFormed(OPEN_SESSION_RESPONSE)
    ensures var data := Serialize(OPEN_SESSION_REQUEST, OpenRequest(uuid, isGp, tci, login, loginData));
            var o := OpenSession(s, data, d);
            o.reply.protoRc >= 0 ==>
              && s.None? && |uuid| == 16 == |loginData|
              && OpenAnswered(d, tci, o.session, Receive(OPEN_SESSION_RESPONSE, o.reply))
  {
    hide Serialize, ParseFromString;
    OpenTablesFit();
    var request := OpenRequest(uuid, isGp, tci, login, loginData);
    OpenRequestArrives(request, uuid, isGp, tci, login, loginData);
    OpenServed(request, uuid, isGp, tci, login, loginData, Serialize(OPEN_SESSION_REQUEST, request), d);
    if d.Works? {
      IdReceived(d.value);
    }
  }

  /** Opening a session: there was none, and the driver was asked for exactly what the client gave. Either it
      refused, or both ends now know the session by the driver's identifier and the server has the TCI. */
  lemma OpenEndToEnd(answers: seq<Answers>, es: seq<Rpc.Event>, t: Rpc.State<ServerState>, k: nat,
                     uuid: bytes, isGp: bool, tci: Option<bytes>, login: int, loginData: bytes)
    requires Rpc.GoodHandler(Dispatch) && LoginTypeIsValid(login)
    requires Rpc.Runs(Dispatch, Rpc.Start(ServerState(None, answers)), es, t)
    requires k < |t.completed| && t.completed[k].clean
    requires |Serialize(OPEN_SESSION_REQUEST, OpenRequest(uuid, isGp, tci, login, loginData))| < TWO_31
    requires t.completed[k].req
          == Request(0, Serialize(OPEN_SESSION_REQUEST, OpenRequest(uuid, isGp, tci, login, loginData)))
    ensures k < |t.handled| && WellFormed(OPEN_SESSION_RESPONSE)
    ensures var before := Handling(answers, t, k);
            && before.session == None
            && CallOf(None, t.completed[k].req) == Some(OpensSession(uuid, isGp, tci, login, loginData))
            && OpenAnswered(NextAnswers(before).opens, tci, Dispatch(before, t.completed[k].req).0.session,
                            Receive(OPEN_SESSION_RESPONSE, t.completed[k].reply))
  {
    hide Serialize, OpenSession, OpenRequest, Served, Dispatch, CallOf, OpenAnswered;
    OpenTablesFit();
    Answered(answers, es, t, k);
    var before := Handling(answers, t, k);
    OpenReplied(Touched(before.session, NextAnswers(before)), uuid, isGp, tci, login, loginData,
                NextAnswers(before).opens);
    OpenArguments(uuid, isGp, tci, login, loginData);
  }

  lemma TrustletReplied(s: Option<Session>, spid: U32, app: bytes, tci: Option<bytes>, d: Driver<U32>)
    requires |Serialize(OPEN_TRUSTLET_REQUEST, TrustletRequest(spid, app, tci))| < TWO_31
    ensures WellFormed(OPEN_TRUSTLET_RESPONSE)
    ensures var o := OpenTrustlet(s, Serialize(OPEN_TRUSTLET_REQUEST, TrustletRequest(spid, app, tci)), d);
            o.reply.protoRc >= 0 ==>
              s.None? && OpenAnswered(d, tci, o.session, Receive(OPEN_TRUSTLET_RESPONSE, o.reply))
  {
    hide Serialize, ParseFromString;
    OpenTablesFit();
    TrustletRequestArrives(spid, app, tci);
    if d.Works? {
      IdReceived(d.value);
    }
  }

  /** Opening a trustlet, in the same way. */
  lemma TrustletEndToEnd(answers: seq<Answers>, es: seq<Rpc.Event>, t: Rpc.State<ServerState>, k: nat,
                         spid: U32, app: bytes, tci: Option<bytes>)
    requires Rpc.GoodHandler(Dispatch)
    requires Rpc.Runs(Dispatch, Rpc.Start(ServerState(None, answers)), es, t)
    requires k < |t.completed| && t.completed[k].clean
    requires |Serialize(OPEN_TRUSTLET_REQUEST, TrustletRequest(spid, app, tci))| < TWO_31
    requires t.completed[k].req == Request(1, Serialize(OPEN_TRUSTLET_REQUEST, TrustletRequest(spid, app, tci)))
    ensures k < |t.handled| && WellFormed(OPEN_TRUSTLET_RESPONSE)
    ensures var before := Handling(answers, t, k);
            && before.session == None
            && CallOf(None, t.completed[k].req) == Some(OpensTrustlet(spid, app, tci))
            && OpenAnswered(NextAnswers(before).opens, tci, Dispatch(before, t.completed[k].req).0.session,
                            Receive(OPEN_TRUSTLET_RESPONSE, t.completed[k].reply))
  {
    hide Serialize, OpenTrustlet, TrustletRequest, Served, Dispatch, CallOf, OpenAnswered;
    OpenTablesFit();
    Answered(answers, es, t, k);
    var before := Handling(answers, t, k);
    TrustletReplied(Touched(before.session, NextAnswers(before)), spid, app, tci, NextAnswers(before).opens);
    TrustletArguments(spid, app, tci);
  }

  /* ---------- Asking ---------- */

  /** An exit code of the secure side is a signed number. */
  lemma ErrorReceived(code: Int32)
    ensures WellFormed(GET_ERROR_RESPONSE)
    ensures Receive(GET_ERROR_RESPONSE, Respond(None, GET_ERROR_RESPONSE, Msg([[Num(code)]], []), 0).reply)
         == Done(Msg([[Num(code)]], []))
  {
    hide Serialize, ParseFromString, Receive, Respond;
    PlainTablesFit();
    var m := Msg([[Num(code)]], []);
    NumbersFit(GET_ERROR_RESPONSE, m);
    ResponseRead(GET_ERROR_RESPONSE, m);
  }

  lemma ErrorReplied(s: Option<Session>, sid: U32, d: Driver<Int32>)
    ensures WellFormed(GET_ERROR_RESPONSE)
    ensures var o := GetError(s, Serialize(GET_ERROR_REQUEST, IdRequest(sid)), d);
            var result := Receive(GET_ERROR_RESPONSE, o.reply);
            o.session == s &&
            match d
            case Fails(errno) => result.Refused? && result.errno == errno
            case Works(code) => result == Done(Msg([[Num(code)]], []))
  {
    hide Serialize, ParseFromString, Respond;
    PlainTablesFit();
    IdRequestArrives(sid);
    if d.Works? {
      ErrorReceived(d.value);
      ErrorKeeps(s, d.value);
    }
  }

  lemma ErrorKeeps(s: Option<Session>, code: Int32)
    ensures Respond(s, GET_ERROR_RESPONSE, Msg([[Num(code)]], []), 0)
         == Outcome(s, Respond(None, GET_ERROR_RESPONSE, Msg([[Num(code)]], []), 0).reply)
  {
  }

  /** Asking for the error of a session: the client reads the driver's code, and nothing has changed. */
  lemma ErrorEndToEnd(answers: seq<Answers>, es: seq<Rpc.Event>, t: Rpc.State<ServerState>, k: nat, sid: U32)
    requires Rpc.GoodHandler(Dispatch)
    requires Rpc.Runs(Dispatch, Rpc.Start(ServerState(None, answers)), es, t)
    requires k < |t.completed| && t.completed[k].clean
    requires t.completed[k].req == Request(7, Serialize(GET_ERROR_REQUEST, IdRequest(sid)))
    ensures k < |t.handled| && WellFormed(GET_ERROR_RESPONSE)
    ensures var before := Handling(answers, t, k);
            var s := Touched(before.session, NextAnswers(before));
            var result := Receive(GET_ERROR_RESPONSE, t.completed[k].reply);
            && CallOf(s, t.completed[k].req) == Some(AsksError(sid))
            && Dispatch(before, t.completed[k].req).0.session == s
            && match NextAnswers(before).error
               case Fails(errno) => result.Refused? && result.errno == errno
               case Works(code) => result == Done(Msg([[Num(code)]], []))
  {
    hide Serialize, ParseFromString, GetError, IdRequest, Served, Dispatch, CallOf, Receive;
    PlainTablesFit();
    Answered(answers, es, t, k);
    var before := Handling(answers, t, k);
    var s := Touched(before.session, NextAnswers(before));
    ErrorReplied(s, sid, NextAnswers(before).error);
    IdRequestArrives(sid);
    IdArguments(s, sid);
  }

  lemma CancelReplied(s: Option<Session>, sid: U32, d: Driver<()>)
    ensures WellFormed(EMPTY_MESSAGE)
    ensures var o := GpRequestCancellation(s, Serialize(GET_ERROR_REQUEST, IdRequest(sid)), d);
            o == Outcome(s, Reply(0, if d.Fails? then d.errno else 0, []))
  {
    hide Serialize, ParseFromString;
    PlainTablesFit();
    IdRequestArrives(sid);
  }

  /** Cancelling: the client learns whether the driver has passed the request on, and nothing has changed. */
  lemma CancelEndToEnd(answers: seq<Answers>, es: seq<Rpc.Event>, t: Rpc.State<ServerState>, k: nat, sid: U32)
    requires Rpc.GoodHandler(Dispatch)
    requires Rpc.Runs(Dispatch, Rpc.Start(ServerState(None, answers)), es, t)
    requires k < |t.completed| && t.completed[k].clean
    requires t.completed[k].req == Request(27, Serialize(GET_ERROR_REQUEST, IdRequest(sid)))
    ensures k < |t.handled| && WellFormed(EMPTY_MESSAGE)
    ensures var before := Handling(answers, t, k);
            var s := Touched(before.session, NextAnswers(before));
            && CallOf(s, t.completed[k].req) == Some(Cancels(sid))
            && Dispatch(before, t.completed[k].req).0.session == s
            && Receive(EMPTY_MESSAGE, t.completed[k].reply)
               == match NextAnswers(before).does
                  case Fails(errno) => Refused(errno, Empty(EMPTY_MESSAGE))
                  case Works(_) => Done(Empty(EMPTY_MESSAGE))
  {
    hide Serialize, ParseFromString, GpRequestCancellation, IdRequest, Served, Dispatch, CallOf, Receive;
    PlainTablesFit();
    Answered(answers, es, t, k);
    var before := Handling(answers, t, k);
    var s := Touched(before.session, NextAnswers(before));
    CancelReplied(s, sid, NextAnswers(before).does);
    ReceiveNothing(t.completed[k].reply);
    IdRequestArrives(sid);
    IdArguments(s, sid);
  }

  lemma VersionReplied(s: Option<Session>, d: Driver<Version>)
    ensures WellFormed(GET_VERSION_RESPONSE)
    ensures var o := GetVersion(s, [], d);
            var result := Receive(GET_VERSION_RESPONSE, o.reply);
            o.reply.protoRc >= 0 ==>
              o.session == s &&
              match d
              case Fails(errno) => result.Refused? && result.errno == errno
              case Works(v) => result == Done(VersionResponse(v))
  {
    hide Serialize;
    PlainTablesFit();
    VersionTableFits();
    EmptyParses(EMPTY_MESSAGE);
    if d.Works? && |Serialize(GET_VERSION_RESPONSE, VersionResponse(d.value))| < TWO_31 {
      VersionArrives(d.value);
    }
  }

  /** The version: each number under the field of its name, as mc.proto numbers them. */
  lemma VersionEndToEnd(answers: seq<Answers>, es: seq<Rpc.Event>, t: Rpc.State<ServerState>, k: nat)
    requires Rpc.GoodHandler(Dispatch)
    requires Rpc.Runs(Dispatch, Rpc.Start(ServerState(None, answers)), es, t)
    requires k < |t.completed| && t.completed[k].clean
    requires t.completed[k].req == Request(9, [])
    ensures k < |t.handled| && WellFormed(GET_VERSION_RESPONSE)
    ensures var before := Handling(answers, t, k);
            var s := Touched(before.session, NextAnswers(before));
            var result := Receive(GET_VERSION_RESPONSE, t.completed[k].reply);
            && CallOf(s, t.completed[k].req) == Some(AsksVersion)
            && Dispatch(before, t.completed[k].req).0.session == s
            && match NextAnswers(before).version
               case Fails(errno) => result.Refused? && result.errno == errno
               case Works(v) =>
                 result == Done(Msg([[Data(v.productId)], [Num(v.mci)], [Num(v.so)], [Num(v.mclf)], [Num(v.container)],
                                     [Num(v.config)], [Num(v.tlApi)], [Num(v.drApi)], [Num(v.nwd)]], []))
  {
    hide GetVersion, ParseFromString, Served, Dispatch, Receive, CallOf;
    PlainTablesFit();
    VersionTableFits();
    Answered(answers, es, t, k);
    var before := Handling(answers, t, k);
    VersionReplied(Touched(before.session, NextAnswers(before)), NextAnswers(before).version);
    VersionAsked(Touched(before.session, NextAnswers(before)));
  }

  lemma VersionAsked(s: Option<Session>)
    ensures CallOf(s, Request(9, [])) == Some(AsksVersion)
  {
    PlainTablesFit();
    EmptyParses(EMPTY_MESSAGE);
  }

  /* ---------- Anything else ---------- */

  /** No call of a method that the server does not have ever completes. */
  lemma OnlyKnownMethods(answers: seq<Answers>, es: seq<Rpc.Event>, t: Rpc.State<ServerState>, k: nat)
    requires Rpc.GoodHandler(Dispatch)
    requires Rpc.Runs(Dispatch, Rpc.Start(ServerState(None, answers)), es, t)
    requires k < |t.completed| && t.completed[k].clean
    ensures t.completed[k].req.op in {0, 1, 2, 3, 4, 5, 6, 7, 9, 27}
  {
    hide Served, Dispatch;
    Answered(answers, es, t, k);
  }
}
