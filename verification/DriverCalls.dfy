/**
 What the server asks of the driver: for every request the call that its handler makes, with the arguments that
 the client has given, or none. The handler makes a call exactly if its outcome can depend on the driver.
 */
module DriverCalls {
  import opened Wire
  import opened Message
  import opened Canonical
  import opened Schemas
  import opened Framing
  import opened Ioctl
  import opened ProxyServer
  import opened ProxyClient
  import opened ProxyMirror
  import opened ProxyAnswers
  import opened ProxyDispatch

  /** Memory handed to the driver: its length and direction, or its length and secure address. */
  datatype DriverCall =
    | OpensSession(uuid: bytes, isGp: bool, tci: Option<bytes>, login: int, loginData: bytes)
    | OpensTrustlet(spid: int, app: bytes, tci: Option<bytes>)
    | Closes(sid: int)
    | Notifies(sid: int)
    | Waits(sid: int, timeout: int)
    | Maps(sid: int, areas: seq<(int, int)>)
    | Unmaps(sid: int, known: seq<(U64, nat)>)
    | AsksError(sid: int)
    | AsksVersion
    | Cancels(sid: int)

  /* ---------- The calls of the handlers ---------- */

  function OptionalData(m: Msg, i: nat): Option<bytes>
  {
    if Has(m, i) then Some(DataAt(m, i)) else None
  }

  function OpenCall(s: Option<Session>, data: bytes): Option<DriverCall>
  {
    OpenTablesFit();
    match ParseFromString(OPEN_SESSION_REQUEST, data)
    case None => None
    case Some(m) =>
      if s.None? && Has(m, 0) && Has(m, 1) && Has(m, 3) && Has(m, 4) && |DataAt(m, 0)| == 16 == |DataAt(m, 4)|
      then Some(OpensSession(DataAt(m, 0), NumAt(m, 1) != 0, OptionalData(m, 2), NumAt(m, 3), DataAt(m, 4)))
      else None
  }

  function TrustletCall(s: Option<Session>, data: bytes): Option<DriverCall>
  {
    OpenTablesFit();
    match ParseFromString(OPEN_TRUSTLET_REQUEST, data)
    case None => None
    case Some(m) =>
      if s.None? && Has(m, 0) && Has(m, 1)
      then Some(OpensTrustlet(NumAt(m, 0), DataAt(m, 1), OptionalData(m, 2))) else None
  }

  function CloseCall(s: Option<Session>, data: bytes): Option<DriverCall>
  {
    PlainTablesFit();
    match ParseFromString(CLOSE_SESSION_REQUEST, data)
    case None => None
    case Some(m) => if s.Some? && Has(m, 0) then Some(Closes(NumAt(m, 0))) else None
  }

  /** A notify is passed on once the TCI and every buffer has been updated. */
  function NotifyCall(s: Option<Session>, data: bytes): Option<DriverCall>
  {
    NotifyTablesFit();
    match ParseFromString(NOTIFY_REQUEST, data)
    case None => None
    case Some(m) =>
      var vs := NestedAt(m, 2);
      if s.None? || !Has(m, 0) then None
      else if s.value.tci.Some? && (!Has(m, 1) || |DataAt(m, 1)| != |s.value.tci.value|) then None
      else if |vs| > |s.value.buffers| || !Complete(vs) then None
      else if !UpdateAll(s.value.buffers, Patches(vs)).1 then None
      else Some(Notifies(NumAt(m, 0)))
  }

  function WaitCall(s: Option<Session>, data: bytes): Option<DriverCall>
  {
    PlainTablesFit();
    match ParseFromString(WAIT_REQUEST, data)
    case None => None
    case Some(m) =>
      if s.Some? && Has(m, 0) && Has(m, 1) && Has(m, 2) && 0 <= NumAt(m, 1) <= TIMEOUT_MAX
      then Some(Waits(NumAt(m, 0), NumAt(m, 1))) else None
  }

  function Areas(vs: seq<Value>): (r: seq<(int, int)>)
    ensures |r| == |vs|
  {
    seq(|vs|, j requires 0 <= j < |vs| => (NumAt(Sub1(vs[j]), 0), NumAt(Sub1(vs[j]), 1)))
  }

  function MapCall(s: Option<Session>, data: bytes): Option<DriverCall>
  {
    MapTablesFit();
    match ParseFromString(MAP_REQUEST, data)
    case None => None
    case Some(m) =>
      var vs := NestedAt(m, 1);
      if s.Some? && Has(m, 0) && |vs| <= MAP_MAX && MapRecordsOk(vs) then Some(Maps(NumAt(m, 0), Areas(vs))) else None
  }

  /** The buffers as the session lists them. */
  function KnownAreas(bs: seq<Buffer>, svas: seq<U64>): (r: seq<(U64, nat)>)
    requires AllFound(bs, svas)
    ensures |r| == |svas|
  {
    seq(|svas|, j requires 0 <= j < |svas| => (bs[Find(bs, svas[j])].sva, |bs[Find(bs, svas[j])].data|))
  }

  function UnmapCall(s: Option<Session>, data: bytes): Option<DriverCall>
  {
    UnmapTablesFit();
    match ParseFromString(UNMAP_REQUEST, data)
    case None => None
    case Some(m) =>
      var vs := NestedAt(m, 1);
      if s.None? || !Has(m, 0) || |vs| > MAP_MAX || |vs| > |s.value.buffers| then None
      else if exists j :: 0 <= j < |vs| && !Has(Sub1(vs[j]), 0) then None
      else if !AllFound(s.value.buffers, Svas(vs)) then None
      else Some(Unmaps(NumAt(m, 0), KnownAreas(s.value.buffers, Svas(vs))))
  }

  /** The session that a request of get-error or of a cancellation names. */
  function IdOf(data: bytes): Option<int>
  {
    PlainTablesFit();
    match ParseFromString(GET_ERROR_REQUEST, data)
    case None => None
    case Some(m) => if Has(m, 0) then Some(NumAt(m, 0)) else None
  }

  function VersionCall(data: bytes): Option<DriverCall>
  {
    PlainTablesFit();
    if ParseFromString(EMPTY_MESSAGE, data).Some? then Some(AsksVersion) else None
  }

  function CallOf(s: Option<Session>, r: Request): Option<DriverCall>
  {
    match r.op
    case 0 => OpenCall(s, r.data)
    case 1 => TrustletCall(s, r.data)
    case 2 => CloseCall(s, r.data)
    case 3 => NotifyCall(s, r.data)
    case 4 => WaitCall(s, r.data)
    case 5 => MapCall(s, r.data)
    case 6 => UnmapCall(s, r.data)
    case 7 => if IdOf(r.data).Some? then Some(AsksError(IdOf(r.data).value)) else None
    case 9 => VersionCall(r.data)
    case 27 => if IdOf(r.data).Some? then Some(Cancels(IdOf(r.data).value)) else None
    case _ => None
  }

  /* ---------- A call is made exactly if the outcome can depend on the driver ---------- */

  lemma OpensAsk(s: Option<Session>, data: bytes, d: Driver<U32>, e: Driver<U32>)
    ensures OpenCall(s, data).None? ==> OpenSession(s, data, d) == OpenSession(s, data, e)
    ensures OpenCall(s, data).Some? && d.Fails? ==> OpenSession(s, data, d) == MethodError(s, d.errno)
  {
  }

  lemma TrustletsAsk(s: Option<Session>, data: bytes, d: Driver<U32>, e: Driver<U32>)
    ensures TrustletCall(s, data).None? ==> OpenTrustlet(s, data, d) == OpenTrustlet(s, data, e)
    ensures TrustletCall(s, data).Some? && d.Fails? ==> OpenTrustlet(s, data, d) == MethodError(s, d.errno)
  {
  }

  lemma ClosesAsk(s: Option<Session>, data: bytes, d: Driver<()>, e: Driver<()>)
    ensures CloseCall(s, data).None? ==> CloseSession(s, data, d) == CloseSession(s, data, e)
    ensures CloseCall(s, data).Some? && d.Fails? ==> CloseSession(s, data, d) == MethodError(s, d.errno)
  {
  }

  lemma NotifiesAsk(s: Option<Session>, data: bytes, d: Driver<()>, e: Driver<()>)
    ensures NotifyCall(s, data).None? ==> ProxyServer.Notify(s, data, d) == ProxyServer.Notify(s, data, e)
    ensures NotifyCall(s, data).Some? && d.Fails? ==> ProxyServer.Notify(s, data, d).reply == Reply(0, d.errno, [])
  {
  }

  lemma WaitsAsk(s: Option<Session>, data: bytes, d: Driver<()>, e: Driver<()>)
    ensures WaitCall(s, data).None? ==> WaitNotification(s, data, d) == WaitNotification(s, data, e)
    ensures WaitCall(s, data).Some? && d.Fails? ==> WaitNotification(s, data, d).reply.methodRc == d.errno
  {
  }

  lemma MapsAsk(s: Option<Session>, data: bytes, d: Driver<seq<U64>>, e: Driver<seq<U64>>)
    ensures MapCall(s, data).None? ==> ProxyServer.Map(s, data, d) == ProxyServer.Map(s, data, e)
    ensures MapCall(s, data).Some? && d.Fails? ==> ProxyServer.Map(s, data, d) == MethodError(s, d.errno)
  {
  }

  lemma UnmapsAsk(s: Option<Session>, data: bytes, d: Driver<()>, e: Driver<()>)
    ensures UnmapCall(s, data).None? ==> ProxyServer.Unmap(s, data, d) == ProxyServer.Unmap(s, data, e)
    ensures UnmapCall(s, data).Some? && d.Fails? ==> ProxyServer.Unmap(s, data, d) == MethodError(s, d.errno)
  {
  }

  lemma QueriesAsk(s: Option<Session>, data: bytes, a: Answers, b: Answers)
    ensures IdOf(data).None? ==>
              && GetError(s, data, a.error) == GetError(s, data, b.error)
              && GpRequestCancellation(s, data, a.does) == GpRequestCancellation(s, data, b.does)
    ensures IdOf(data).Some? && a.error.Fails? ==> GetError(s, data, a.error) == MethodError(s, a.error.errno)
    ensures IdOf(data).Some? && a.does.Fails? ==>
              GpRequestCancellation(s, data, a.does) == MethodError(s, a.does.errno)
    ensures VersionCall(data).None? ==> GetVersion(s, data, a.version) == GetVersion(s, data, b.version)
    ensures VersionCall(data).Some? && a.version.Fails? ==>
              GetVersion(s, data, a.version) == MethodError(s, a.version.errno)
  {
  }

  /** A driver that fails whatever it is asked. */
  function Failing(errno: Errno): Answers
  {
    Answers(Fails(errno), Fails(errno), Fails(errno), Fails(errno), Fails(errno), None, [])
  }

  /** Where no call is made, the outcome is the same for all drivers; where one is made, the client is told the
      driver's error. */
  lemma AsksTheDriver(s: Option<Session>, r: Request, a: Answers, b: Answers, errno: Errno)
    ensures CallOf(s, r).None? ==> Handle(s, r, a) == Handle(s, r, b)
    ensures CallOf(s, r).Some? ==> Handle(s, r, Failing(errno)).reply.methodRc == errno
  {
    hide OpenSession, OpenTrustlet, CloseSession, ProxyServer.Notify, WaitNotification, ProxyServer.Map;
    hide ProxyServer.Unmap, GetError, GetVersion, GpRequestCancellation;
    hide OpenCall, TrustletCall, CloseCall, NotifyCall, WaitCall, MapCall, UnmapCall, VersionCall, IdOf;
    var f := Failing(errno);
    OpensAsk(s, r.data, a.opens, b.opens);
    OpensAsk(s, r.data, f.opens, b.opens);
    TrustletsAsk(s, r.data, a.opens, b.opens);
    TrustletsAsk(s, r.data, f.opens, b.opens);
    ClosesAsk(s, r.data, a.does, b.does);
    ClosesAsk(s, r.data, f.does, b.does);
    NotifiesAsk(s, r.data, a.does, b.does);
    NotifiesAsk(s, r.data, f.does, b.does);
    WaitsAsk(s, r.data, a.does, b.does);
    WaitsAsk(s, r.data, f.does, b.does);
    MapsAsk(s, r.data, a.maps, b.maps);
    MapsAsk(s, r.data, f.maps, b.maps);
    UnmapsAsk(s, r.data, a.does, b.does);
    UnmapsAsk(s, r.data, f.does, b.does);
    QueriesAsk(s, r.data, a, b);
    QueriesAsk(s, r.data, f, b);
  }

  lemma OpensNeed(s: Session, data: bytes, d: Driver<U32>)
    ensures OpenCall(None, data).Some? ==> OpenSession(Some(s), data, d) == Outcome(Some(s), Reply(-16, 0, []))
    ensures TrustletCall(None, data).Some? ==>
              OpenTrustlet(Some(s), data, d) == Outcome(Some(s), Reply(-16, 0, []))
  {
  }

  lemma ClosesNeed(s: Session, data: bytes, d: Driver<()>)
    ensures CloseCall(Some(s), data).Some? ==> CloseSession(None, data, d) == Outcome(None, Reply(-2, 0, []))
    ensures NotifyCall(Some(s), data).Some? ==> ProxyServer.Notify(None, data, d) == Outcome(None, Reply(-2, 0, []))
    ensures WaitCall(Some(s), data).Some? ==> WaitNotification(None, data, d) == Outcome(None, Reply(-2, 0, []))
  {
  }

  lemma MapsNeed(s: Session, data: bytes, d: Driver<seq<U64>>, e: Driver<()>)
    ensures MapCall(Some(s), data).Some? ==> ProxyServer.Map(None, data, d) == Outcome(None, Reply(-2, 0, []))
    ensures UnmapCall(Some(s), data).Some? ==> ProxyServer.Unmap(None, data, e) == Outcome(None, Reply(-2, 0, []))
  {
  }

  /** A request that would be passed on for some session is refused with ENOENT (2) where there is none, and a
      request to open that would be passed on with EBUSY (16) where there is one; either way nothing changes. */
  lemma NeedsSession(s: Session, r: Request, a: Answers)
    ensures r.op in {2, 3, 4, 5, 6} && CallOf(Some(s), r).Some? ==>
              Handle(None, r, a) == Outcome(None, Reply(-2, 0, []))
    ensures r.op in {0, 1} && CallOf(None, r).Some? ==> Handle(Some(s), r, a) == Outcome(Some(s), Reply(-16, 0, []))
  {
    hide OpenSession, OpenTrustlet, CloseSession, ProxyServer.Notify, WaitNotification, ProxyServer.Map;
    hide ProxyServer.Unmap, GetError, GetVersion, GpRequestCancellation;
    hide OpenCall, TrustletCall, CloseCall, NotifyCall, WaitCall, MapCall, UnmapCall, VersionCall, IdOf;
    OpensNeed(s, r.data, a.opens);
    ClosesNeed(s, r.data, a.does);
    MapsNeed(s, r.data, a.maps, a.does);
  }

  /* ---------- The client's arguments ---------- */

  /** The driver is asked to open what the client asked to open. */
  lemma OpenArguments(uuid: bytes, isGp: bool, tci: Option<bytes>, login: int, loginData: bytes)
    requires LoginTypeIsValid(login)
    requires |Serialize(OPEN_SESSION_REQUEST, OpenRequest(uuid, isGp, tci, login, loginData))| < TWO_31
    ensures var request := Serialize(OPEN_SESSION_REQUEST, OpenRequest(uuid, isGp, tci, login, loginData));
            CallOf(None, Request(OPEN_SESSION, request))
            == if |uuid| == 16 && |loginData| == 16
               then Some(OpensSession(uuid, isGp, tci, login, loginData)) else None
  {
    hide Serialize, ParseFromString;
    OpenTablesFit();
    OpenRequestArrives(OpenRequest(uuid, isGp, tci, login, loginData), uuid, isGp, tci, login, loginData);
  }

  function TrustletRequest(spid: U32, app: bytes, tci: Option<bytes>): (m: Msg)
    ensures Typed(OPEN_TRUSTLET_REQUEST, m)
  {
    Msg([[Num(spid)], [Data(app)], if tci.Some? then [Data(tci.value)] else []], [])
  }

  lemma TrustletRequestArrives(spid: U32, app: bytes, tci: Option<bytes>)
    requires |Serialize(OPEN_TRUSTLET_REQUEST, TrustletRequest(spid, app, tci))| < TWO_31
    ensures WellFormed(OPEN_TRUSTLET_REQUEST)
    ensures ParseFromString(OPEN_TRUSTLET_REQUEST, Serialize(OPEN_TRUSTLET_REQUEST, TrustletRequest(spid, app, tci)))
         == Some(TrustletRequest(spid, app, tci))
  {
    OpenTablesFit();
    FlatArrives(OPEN_TRUSTLET_REQUEST, TrustletRequest(spid, app, tci));
  }

  lemma TrustletArguments(spid: U32, app: bytes, tci: Option<bytes>)
    requires |Serialize(OPEN_TRUSTLET_REQUEST, TrustletRequest(spid, app, tci))| < TWO_31
    ensures var request := Serialize(OPEN_TRUSTLET_REQUEST, TrustletRequest(spid, app, tci));
            CallOf(None, Request(OPEN_TRUSTLET, request)) == Some(OpensTrustlet(spid, app, tci))
  {
    TrustletRequestArrives(spid, app, tci);
  }

  lemma IdRequestArrives(sid: U32)
    ensures WellFormed(CLOSE_SESSION_REQUEST) && WellFormed(GET_ERROR_REQUEST)
    ensures var request := Serialize(CLOSE_SESSION_REQUEST, IdRequest(sid));
            && ParseFromString(CLOSE_SESSION_REQUEST, request) == Some(IdRequest(sid))
            && Serialize(GET_ERROR_REQUEST, IdRequest(sid)) == request
            && ParseFromString(GET_ERROR_REQUEST, request) == Some(IdRequest(sid))
  {
    hide Serialize, ParseFromString;
    PlainTablesFit();
    IdFits(CLOSE_SESSION_REQUEST, sid);
    IdArrives(CLOSE_SESSION_REQUEST, IdRequest(sid), sid);
  }

  /** The requests that only name the session. */
  lemma IdArguments(s: Option<Session>, sid: U32)
    ensures var request := Serialize(CLOSE_SESSION_REQUEST, IdRequest(sid));
            && CallOf(s, Request(CLOSE_SESSION, request)) == (if s.Some? then Some(Closes(sid)) else None)
            && CallOf(s, Request(GET_ERROR, request)) == Some(AsksError(sid))
            && CallOf(s, Request(GP_REQUESTCANCELLATION, request)) == Some(Cancels(sid))
  {
    hide Serialize, ParseFromString;
    IdRequestArrives(sid);
  }

  /** A notify that gets as far as the driver names the client's session. */
  lemma NotifyArguments(s: Session, memory: bytes, c: ClientSession)
    requires SessionInMemory(memory, c) && SameTci(c.tci, s.tci)
    requires |Serialize(NOTIFY_REQUEST, NotifyRequest(memory, c))| < TWO_31
    ensures var request := Serialize(NOTIFY_REQUEST, NotifyRequest(memory, c));
            CallOf(Some(s), Request(NOTIFY, request))
            == if NotifyEffect(s, memory, c, Works(())).Does? then Some(Notifies(c.id)) else None
  {
    hide Serialize, ParseFromString;
    NotifyTablesFit();
    NotifyRequestArrives(memory, c);
    InputRecordsReady(memory, c.buffers, 0);
    assert NestedAt(NotifyRequest(memory, c), 2) == InputRecords(memory, c.buffers);
  }

  /** The driver waits for the client's slice. */
  lemma WaitArguments(s: Session, sid: U32, slice: Slice)
    requires 0 <= slice.timeout <= TIMEOUT_MAX
    ensures CallOf(Some(s), Request(WAIT, Serialize(WAIT_REQUEST, WaitRequest(sid, slice))))
         == Some(Waits(sid, slice.timeout))
  {
    hide Serialize, ParseFromString;
    PlainTablesFit();
    WaitRequestFits(sid, slice);
    WaitRequestArrives(sid, slice);
  }

  /** The driver is asked to map memory of the lengths and directions that the client asked for, in order. */
  lemma MapArguments(s: Session, sid: U32, chosen: seq<Slot>)
    requires |chosen| <= MAP_MAX
    ensures var call := CallOf(Some(s), Request(MAP, Serialize(MAP_REQUEST, MapRequest(sid, chosen))));
            if FlagsOk(chosen)
            then && call.Some? && call.value.Maps? && call.value.sid == sid && |call.value.areas| == |chosen|
                 && forall j :: 0 <= j < |chosen| ==> call.value.areas[j] == (chosen[j].len, chosen[j].flags)
            else call == None
  {
    hide Serialize, ParseFromString;
    MapTablesFit();
    MapRequestFits(sid, chosen);
    MapRequestArrives(sid, chosen);
    assert NestedAt(MapRequest(sid, chosen), 1) == MapRecords(chosen);
    MapRecordsAre(chosen, []);
  }

  /** The driver is asked to unmap, in order, the memory that the session lists first under each address. */
  lemma UnmapArguments(s: Session, sid: U32, chosen: seq<Slot>)
    requires |chosen| <= MAP_MAX && |chosen| <= |s.buffers|
    ensures var call := CallOf(Some(s), Request(UNMAP, Serialize(UNMAP_REQUEST, UnmapRequest(sid, chosen))));
            if AllFound(s.buffers, SlotSvas(chosen))
            then && call.Some? && call.value.Unmaps? && call.value.sid == sid && |call.value.known| == |chosen|
                 && forall j :: 0 <= j < |chosen| ==>
                      var k := Find(s.buffers, chosen[j].sva);
                      k < |s.buffers| && call.value.known[j] == (chosen[j].sva, |s.buffers[k].data|)
            else call == None
  {
    hide Serialize, ParseFromString;
    UnmapTablesFit();
    UnmapRequestFits(sid, chosen);
    UnmapRequestArrives(sid, chosen);
    assert NestedAt(UnmapRequest(sid, chosen), 1) == UnmapRecords(chosen);
    assert Svas(UnmapRecords(chosen)) == SlotSvas(chosen);
    if AllFound(s.buffers, SlotSvas(chosen)) {
      forall j | 0 <= j < |chosen|
        ensures var k := Find(s.buffers, chosen[j].sva);
                && k < |s.buffers|
                && KnownAreas(s.buffers, SlotSvas(chosen))[j] == (chosen[j].sva, |s.buffers[k].data|)
      {
        assert SlotSvas(chosen)[j] == chosen[j].sva;
      }
    }
  }
}
