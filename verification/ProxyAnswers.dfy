/**
 What one exchange of the proxy comes to: for each request that a client builds, what the server does to
 its session and what the client then receives, in terms of buffers and without the bytes in between.
 The requests other than notify and the responses other than wait's are small, so they always fit.
 */
module ProxyAnswers {
  import opened Wire
  import opened Message
  import opened Canonical
  import opened Schemas
  import opened Framing
  import opened Ioctl
  import opened ProxyServer
  import opened ProxyClient
  import opened ProxyMirror

  /* ---------- Sizes ---------- */

  predicate OnlyNumbers(s: Schema)
  {
    forall i :: 0 <= i < |s| ==> !s[i].kind.Bytes? && !s[i].kind.Sub?
  }

  lemma NumberSize(f: Field, vs: seq<Value>)
    requires 1 <= f.num <= 15 && !f.kind.Bytes? && !f.kind.Sub? && OkValues(f, vs)
    ensures |ValuesBytes(f, vs)| <= 11
  {
    if vs != [] {
      assert vs[1..] == [];
      VarintLength(WireNum(f.kind, vs[0].v));
    }
  }

  /** A message of numbers: at most eleven bytes each. */
  lemma {:induction false} NumbersSize(s: Schema, m: Msg, i: nat)
    requires WellFormed(s) && OnlyNumbers(s) && Typed(s, m) && i <= |s|
    ensures |FieldsBytes(s, m.fields, i)| <= 11 * (|s| - i)
    decreases |s| - i
  {
    if i < |s| {
      NumberSize(s[i], m.fields[i]);
      NumbersSize(s, m, i + 1);
    }
  }

  /** Nested messages of numbers. */
  lemma {:induction false} RecordsSize(f: Field, vs: seq<Value>)
    requires 1 <= f.num <= 15 && f.kind.Sub? && WellFormedField(f) && OnlyNumbers(f.kind.schema)
    requires OkValues(f, vs) && NoUnknowns(vs) && |f.kind.schema| <= 2
    ensures |ValuesBytes(f, vs)| <= 33 * |vs|
    decreases |vs|
  {
    if vs != [] {
      NumbersSize(f.kind.schema, vs[0].m, 0);
      VarintLength(|Serialize(f.kind.schema, vs[0].m)|);
      RecordsSize(f, vs[1..]);
    }
  }

  lemma NumbersFit(s: Schema, m: Msg)
    requires WellFormed(s) && OnlyNumbers(s) && Typed(s, m) && m.unknown == [] && |s| <= 3
    ensures |Serialize(s, m)| < TWO_31
  {
    NumbersSize(s, m, 0);
  }

  /** A number and a list of at most four records. */
  lemma RequestFits(s: Schema, m: Msg)
    requires WellFormed(s) && Typed(s, m) && |s| == 2 && m.unknown == []
    requires s[0].kind == UInt32 && s[1].kind.Sub? && OnlyNumbers(s[1].kind.schema) && |s[1].kind.schema| <= 2
    requires NoUnknowns(m.fields[1]) && |m.fields[1]| <= MAP_MAX
    ensures |Serialize(s, m)| < TWO_31
  {
    NumberSize(s[0], m.fields[0]);
    RecordsSize(s[1], m.fields[1]);
    assert FieldsBytes(s, m.fields, 2) == [];
    assert FieldsBytes(s, m.fields, 1) == ValuesBytes(s[1], m.fields[1]) + [];
  }

  lemma ResponseFits(s: Schema, m: Msg)
    requires WellFormed(s) && Typed(s, m) && |s| == 1 && m.unknown == []
    requires s[0].kind.Sub? && OnlyNumbers(s[0].kind.schema) && |s[0].kind.schema| <= 2
    requires NoUnknowns(m.fields[0]) && 1 <= |m.fields[0]| <= MAP_MAX
    ensures 0 < |Serialize(s, m)| < TWO_31
  {
    RecordsSize(s[0], m.fields[0]);
    assert FieldsBytes(s, m.fields, 1) == [];
  }

  lemma MapRequestFits(sid: U32, chosen: seq<Slot>)
    requires |chosen| <= MAP_MAX
    ensures |Serialize(MAP_REQUEST, MapRequest(sid, chosen))| < TWO_31
  {
    MapTablesFit();
    RequestFits(MAP_REQUEST, MapRequest(sid, chosen));
  }

  lemma MapResponseFits(svas: seq<U64>)
    requires 1 <= |svas| <= MAP_MAX
    ensures 0 < |Serialize(MAP_RESPONSE, MapResponse(svas))| < TWO_31
  {
    MapTablesFit();
    ResponseFits(MAP_RESPONSE, MapResponse(svas));
  }

  lemma UnmapRequestFits(sid: U32, chosen: seq<Slot>)
    requires |chosen| <= MAP_MAX
    ensures |Serialize(UNMAP_REQUEST, UnmapRequest(sid, chosen))| < TWO_31
  {
    UnmapTablesFit();
    RequestFits(UNMAP_REQUEST, UnmapRequest(sid, chosen));
  }

  lemma WaitRequestFits(sid: U32, slice: Slice)
    requires 0 <= slice.timeout <= TIMEOUT_MAX
    ensures |Serialize(WAIT_REQUEST, WaitRequest(sid, slice))| < TWO_31
  {
    PlainTablesFit();
    NumbersFit(WAIT_REQUEST, WaitRequest(sid, slice));
  }

  lemma IdFits(s: Schema, sid: U32)
    requires s == [Req(1, UInt32)] && WellFormed(s)
    ensures 0 < |Serialize(s, Msg([[Num(sid)]], []))| < TWO_31
  {
    var m := Msg([[Num(sid)]], []);
    NumbersFit(s, m);
    assert FieldsBytes(s, m.fields, 0) == ValuesBytes(s[0], m.fields[0]) + FieldsBytes(s, m.fields, 1);
  }

  /* ---------- Exchanges ---------- */

  /** What an exchange comes to: the client gives the connection up, the session is as before and the
      client gets an error number, or the session is changed and the client gets a value. */
  datatype Effect<+T> = Breaks | Refuses(errno: nat) | Does(session: Session, value: T)

  lemma ReceiveNothing(r: Reply)
    requires r.protoRc == 0
    ensures WellFormed(EMPTY_MESSAGE)
    ensures Receive(EMPTY_MESSAGE, r)
         == if r.methodRc != 0 then Refused(r.methodRc, Empty(EMPTY_MESSAGE)) else Done(Empty(EMPTY_MESSAGE))
  {
    PlainTablesFit();
  }

  predicate FlagsOk(chosen: seq<Slot>)
  {
    forall j :: 0 <= j < |chosen| ==> 1 <= chosen[j].flags <= 3
  }

  /** The buffers that the server allocates for a mapping. */
  function Allocated(chosen: seq<Slot>, svas: seq<U64>): (r: seq<Buffer>)
    requires |svas| == |chosen|
    ensures |r| == |chosen|
  {
    seq(|chosen|, j requires 0 <= j < |chosen| => Buffer(svas[j], chosen[j].flags, Zeros(chosen[j].len)))
  }

  function MapEffect(s: Session, chosen: seq<Slot>, d: Driver<seq<U64>>): Effect<seq<U64>>
  {
    if |chosen| > MAP_MAX || !FlagsOk(chosen) then Breaks
    else if d.Fails? then Refuses(d.errno)
    else if |chosen| == 0 || |d.value| != |chosen| then Refuses(EINVAL)
    else Does(s.(buffers := s.buffers + Allocated(chosen, d.value)), d.value)
  }

  lemma MapRecordsAre(chosen: seq<Slot>, svas: seq<U64>)
    ensures MapRecordsOk(MapRecords(chosen)) <==> FlagsOk(chosen)
    ensures |svas| == |chosen| && FlagsOk(chosen) ==>
              NewBuffers(MapRecords(chosen), svas) == Allocated(chosen, svas)
  {
    var vs := MapRecords(chosen);
    forall j | 0 <= j < |chosen|
      ensures Has(Sub1(vs[j]), 0) && Has(Sub1(vs[j]), 1)
      ensures NumAt(Sub1(vs[j]), 0) == chosen[j].len && NumAt(Sub1(vs[j]), 1) == chosen[j].flags
    {
    }
  }

  lemma MapServed(s: Session, sid: U32, chosen: seq<Slot>, data: bytes, d: Driver<seq<U64>>)
    requires WellFormed(MAP_REQUEST) && ParseFromString(MAP_REQUEST, data) == Some(MapRequest(sid, chosen))
    ensures var o := ProxyServer.Map(Some(s), data, d);
            match MapEffect(s, chosen, d)
            case Breaks => o.reply.protoRc < 0
            case Refuses(errno) => o == Outcome(Some(s), Reply(0, errno, [])) && errno > 0
            case Does(t, svas) => o == Respond(Some(t), MAP_RESPONSE, MapResponse(svas), 0)
  {
    assert NestedAt(MapRequest(sid, chosen), 1) == MapRecords(chosen);
    MapRecordsAre(chosen, if d.Works? then d.value else []);
  }

  /** A map request of a client, and what it gets back. */
  lemma MapExchange(s: Session, sid: U32, chosen: seq<Slot>, d: Driver<seq<U64>>)
    requires |Serialize(MAP_REQUEST, MapRequest(sid, chosen))| < TWO_31
    ensures WellFormed(MAP_RESPONSE)
    ensures var o := ProxyServer.Map(Some(s), Serialize(MAP_REQUEST, MapRequest(sid, chosen)), d);
            match MapEffect(s, chosen, d)
            case Breaks => Receive(MAP_RESPONSE, o.reply).Broken?
            case Refuses(errno) =>
              o.session == Some(s) && Receive(MAP_RESPONSE, o.reply) == Refused(errno, Empty(MAP_RESPONSE))
            case Does(t, svas) =>
              o.session == Some(t) && Receive(MAP_RESPONSE, o.reply) == Done(MapResponse(svas))
  {
    MapTablesFit();
    MapRequestArrives(sid, chosen);
    MapServed(s, sid, chosen, Serialize(MAP_REQUEST, MapRequest(sid, chosen)), d);
    if MapEffect(s, chosen, d).Does? {
      MapResponseFits(d.value);
      MapResponseArrives(d.value);
    }
  }

  function SlotSvas(slots: seq<Slot>): (r: seq<U64>)
    ensures |r| == |slots|
  {
    seq(|slots|, j requires 0 <= j < |slots| => slots[j].sva)
  }

  function UnmapEffect(s: Session, chosen: seq<Slot>, d: Driver<()>): Effect<()>
  {
    if |chosen| > MAP_MAX || |chosen| > |s.buffers| then Breaks
    else if !AllFound(s.buffers, SlotSvas(chosen)) then Refuses(EINVAL)
    else if d.Fails? then Refuses(d.errno)
    else
      var (rest, found) := RemoveAll(s.buffers, SlotSvas(chosen));
      if found then Does(s.(buffers := rest), ()) else Breaks
  }

  lemma UnmapServed(s: Session, sid: U32, chosen: seq<Slot>, data: bytes, d: Driver<()>)
    requires WellFormed(UNMAP_REQUEST) && ParseFromString(UNMAP_REQUEST, data) == Some(UnmapRequest(sid, chosen))
    ensures var o := ProxyServer.Unmap(Some(s), data, d);
            match UnmapEffect(s, chosen, d)
            case Breaks => o.reply.protoRc < 0
            case Refuses(errno) => o == Outcome(Some(s), Reply(0, errno, [])) && errno > 0
            case Does(t, _) => o == Outcome(Some(t), Reply(0, 0, []))
  {
    assert NestedAt(UnmapRequest(sid, chosen), 1) == UnmapRecords(chosen);
    assert Svas(UnmapRecords(chosen)) == SlotSvas(chosen);
  }

  lemma UnmapExchange(s: Session, sid: U32, chosen: seq<Slot>, d: Driver<()>)
    requires |Serialize(UNMAP_REQUEST, UnmapRequest(sid, chosen))| < TWO_31
    ensures WellFormed(EMPTY_MESSAGE)
    ensures var o := ProxyServer.Unmap(Some(s), Serialize(UNMAP_REQUEST, UnmapRequest(sid, chosen)), d);
            match UnmapEffect(s, chosen, d)
            case Breaks => Receive(EMPTY_MESSAGE, o.reply).Broken?
            case Refuses(errno) =>
              o.session == Some(s) && Receive(EMPTY_MESSAGE, o.reply) == Refused(errno, Empty(EMPTY_MESSAGE))
            case Does(t, _) =>
              o.session == Some(t) && Receive(EMPTY_MESSAGE, o.reply) == Done(Empty(EMPTY_MESSAGE))
  {
    PlainTablesFit();
    UnmapTablesFit();
    UnmapRequestArrives(sid, chosen);
    var data := Serialize(UNMAP_REQUEST, UnmapRequest(sid, chosen));
    UnmapServed(s, sid, chosen, data, d);
    if !UnmapEffect(s, chosen, d).Breaks? {
      ReceiveNothing(ProxyServer.Unmap(Some(s), data, d).reply);
    }
  }

  /** The client's TCI as it is sent. */
  function TciBytes(memory: bytes, c: ClientSession): Option<bytes>
    requires SessionInMemory(memory, c)
  {
    if c.tci.Some? then Some(At(memory, c.tci.value.va, c.tci.value.len)) else None
  }

  /** Whether the driver then accepts the notification or not, the server's memory has been updated. */
  function NotifyEffect(s: Session, memory: bytes, c: ClientSession, d: Driver<()>): Effect<nat>
    requires SessionInMemory(memory, c)
  {
    var patches := Patches(InputRecords(memory, c.buffers));
    var (bs, known) := UpdateAll(s.buffers, patches);
    if |patches| > |s.buffers| || !known then Breaks
    else Does(s.(tci := TciBytes(memory, c), buffers := bs), if d.Fails? then d.errno else 0)
  }

  lemma NotifyServed(s: Session, memory: bytes, c: ClientSession, data: bytes, d: Driver<()>)
    requires SessionInMemory(memory, c) && SameTci(c.tci, s.tci)
    requires WellFormed(NOTIFY_REQUEST) && ParseFromString(NOTIFY_REQUEST, data) == Some(NotifyRequest(memory, c))
    ensures var o := ProxyServer.Notify(Some(s), data, d);
            match NotifyEffect(s, memory, c, d)
            case Breaks => o.reply.protoRc < 0
            case Refuses(_) => false
            case Does(t, rc) => o == Outcome(Some(t), Reply(0, rc, []))
  {
    var vs := InputRecords(memory, c.buffers);
    InputRecordsReady(memory, c.buffers, 0);
    assert NestedAt(NotifyRequest(memory, c), 2) == vs;
    assert s.(tci := s.tci) == s;
  }

  lemma NotifyExchange(s: Session, memory: bytes, c: ClientSession, d: Driver<()>)
    requires SessionInMemory(memory, c) && SameTci(c.tci, s.tci)
    requires |Serialize(NOTIFY_REQUEST, NotifyRequest(memory, c))| < TWO_31
    ensures WellFormed(EMPTY_MESSAGE)
    ensures var o := ProxyServer.Notify(Some(s), Serialize(NOTIFY_REQUEST, NotifyRequest(memory, c)), d);
            match NotifyEffect(s, memory, c, d)
            case Breaks => Receive(EMPTY_MESSAGE, o.reply).Broken?
            case Refuses(_) => false
            case Does(t, rc) => o.session == Some(t) && !Receive(EMPTY_MESSAGE, o.reply).Broken?
  {
    PlainTablesFit();
    NotifyTablesFit();
    NotifyRequestArrives(memory, c);
    var data := Serialize(NOTIFY_REQUEST, NotifyRequest(memory, c));
    NotifyServed(s, memory, c, data, d);
    if !NotifyEffect(s, memory, c, d).Breaks? {
      ReceiveNothing(ProxyServer.Notify(Some(s), data, d).reply);
    }
  }

  /** `Does(_, rc)`: the response with the memory is sent, together with the error number `rc` or 0. */
  function WaitEffect(s: Session, slice: Slice, d: Driver<()>): Effect<nat>
  {
    if d == Fails(ETIME) && slice.partial then Refuses(ETIME)
    else if |Serialize(WAIT_RESPONSE, WaitResponse(s))| >= TWO_31 then Breaks
    else Does(s, if d.Fails? then d.errno else 0)
  }

  /** The range check on the timeout refuses no slice of a client. */
  lemma WaitServed(s: Session, sid: U32, slice: Slice, data: bytes, d: Driver<()>)
    requires 0 <= slice.timeout <= TIMEOUT_MAX
    requires WellFormed(WAIT_REQUEST) && ParseFromString(WAIT_REQUEST, data) == Some(WaitRequest(sid, slice))
    ensures WaitNotification(Some(s), data, d)
         == if d == Fails(ETIME) && slice.partial then MethodError(Some(s), ETIME)
            else Respond(Some(s), WAIT_RESPONSE, WaitResponse(s), if d.Fails? then d.errno else 0)
  {
  }

  lemma EmptyParses(schema: Schema)
    requires WellFormed(schema) && IsInitialized(schema, Empty(schema))
    ensures ParseFromString(schema, []) == Some(Empty(schema))
  {
  }

  /** The client reads the server's response as it was written, even when it has no bytes. */
  lemma ResponseReceived(s: Session, rc: nat)
    ensures WellFormed(WAIT_RESPONSE)
    ensures Receive(WAIT_RESPONSE, Respond(Some(s), WAIT_RESPONSE, WaitResponse(s), rc).reply)
         == if |Serialize(WAIT_RESPONSE, WaitResponse(s))| >= TWO_31 then Broken
            else if rc != 0 then Refused(rc, WaitResponse(s)) else Done(WaitResponse(s))
  {
    NotifyTablesFit();
    var out := Serialize(WAIT_RESPONSE, WaitResponse(s));
    if |out| < TWO_31 {
      WaitResponseArrives(s);
      if |out| == 0 {
        assert out == [];
        EmptyParses(WAIT_RESPONSE);
      }
    }
  }

  lemma TimeOutReceived(s: Option<Session>)
    ensures WellFormed(WAIT_RESPONSE)
    ensures Receive(WAIT_RESPONSE, MethodError(s, ETIME).reply) == Refused(ETIME, Empty(WAIT_RESPONSE))
  {
    NotifyTablesFit();
  }

  lemma WaitExchange(s: Session, sid: U32, slice: Slice, d: Driver<()>)
    requires 0 <= slice.timeout <= TIMEOUT_MAX
    ensures |Serialize(WAIT_REQUEST, WaitRequest(sid, slice))| < TWO_31
    ensures WellFormed(WAIT_RESPONSE)
    ensures var o := WaitNotification(Some(s), Serialize(WAIT_REQUEST, WaitRequest(sid, slice)), d);
            var answer := Receive(WAIT_RESPONSE, o.reply);
            o.session == Some(s) &&
            match WaitEffect(s, slice, d)
            case Breaks => answer.Broken?
            case Refuses(errno) => answer.Refused? && answer.errno == errno
            case Does(_, rc) =>
              answer == if rc != 0 then Refused(rc, WaitResponse(s)) else Done(WaitResponse(s))
  {
    WaitRequestFits(sid, slice);
    WaitRequestArrives(sid, slice);
    WaitServed(s, sid, slice, Serialize(WAIT_REQUEST, WaitRequest(sid, slice)), d);
    TimeOutReceived(Some(s));
    ResponseReceived(s, if d.Fails? then d.errno else 0);
  }

  /** A close request: refused exactly if the driver refuses it. */
  lemma CloseExchange(s: Session, sid: U32, d: Driver<()>)
    ensures |Serialize(CLOSE_SESSION_REQUEST, IdRequest(sid))| < TWO_31
    ensures WellFormed(EMPTY_MESSAGE)
    ensures var o := CloseSession(Some(s), Serialize(CLOSE_SESSION_REQUEST, IdRequest(sid)), d);
            match d
            case Fails(errno) =>
              o.session == Some(s) && Receive(EMPTY_MESSAGE, o.reply) == Refused(errno, Empty(EMPTY_MESSAGE))
            case Works(_) =>
              o.session == None && Receive(EMPTY_MESSAGE, o.reply) == Done(Empty(EMPTY_MESSAGE))
  {
    PlainTablesFit();
    IdFits(CLOSE_SESSION_REQUEST, sid);
    IdArrives(CLOSE_SESSION_REQUEST, IdRequest(sid), sid);
    ReceiveNothing(CloseSession(Some(s), Serialize(CLOSE_SESSION_REQUEST, IdRequest(sid)), d).reply);
  }

  /** An open request is carried out if its uuid and login data have the size of the driver's and the
      driver opens the session. */
  lemma OpenServed(request: Msg, uuid: bytes, isGp: bool, tci: Option<bytes>, login: int, loginData: bytes,
                   data: bytes, d: Driver<U32>)
    requires LoginTypeIsValid(login) && request == OpenRequest(uuid, isGp, tci, login, loginData)
    requires WellFormed(OPEN_SESSION_REQUEST) && ParseFromString(OPEN_SESSION_REQUEST, data) == Some(request)
    ensures var o := OpenSession(None, data, d);
            if |uuid| != 16 || |loginData| != 16 then o == ProtocolError(None, EINVAL)
            else if d.Fails? then o == MethodError(None, d.errno)
            else
              var response := Respond(None, OPEN_SESSION_RESPONSE, Msg([[Num(d.value)]], []), 0);
              o == if response.reply.protoRc < 0 then response
                   else response.(session := Some(Session(d.value, tci, [])))
  {
  }

  lemma IdReceived(sid: U32)
    ensures WellFormed(OPEN_SESSION_RESPONSE)
    ensures var r := Respond(None, OPEN_SESSION_RESPONSE, Msg([[Num(sid)]], []), 0).reply;
            r.protoRc > 0 && Receive(OPEN_SESSION_RESPONSE, r) == Done(Msg([[Num(sid)]], []))
  {
    OpenTablesFit();
    IdFits(OPEN_SESSION_RESPONSE, sid);
    IdArrives(OPEN_SESSION_RESPONSE, Msg([[Num(sid)]], []), sid);
  }

  lemma OpenExchange(uuid: bytes, isGp: bool, tci: Option<bytes>, login: int, loginData: bytes, d: Driver<U32>)
    requires LoginTypeIsValid(login)
    requires |Serialize(OPEN_SESSION_REQUEST, OpenRequest(uuid, isGp, tci, login, loginData))| < TWO_31
    ensures WellFormed(OPEN_SESSION_RESPONSE)
    ensures var data := Serialize(OPEN_SESSION_REQUEST, OpenRequest(uuid, isGp, tci, login, loginData));
            var o := OpenSession(None, data, d);
            if |uuid| == 16 && |loginData| == 16 && d.Works?
            then && o.session == Some(Session(d.value, tci, []))
                 && Receive(OPEN_SESSION_RESPONSE, o.reply) == Done(Msg([[Num(d.value)]], []))
            else !Receive(OPEN_SESSION_RESPONSE, o.reply).Done?
  {
    OpenTablesFit();
    var request := OpenRequest(uuid, isGp, tci, login, loginData);
    OpenRequestArrives(request, uuid, isGp, tci, login, loginData);
    OpenServed(request, uuid, isGp, tci, login, loginData, Serialize(OPEN_SESSION_REQUEST, request), d);
    if d.Works? {
      IdReceived(d.value);
    }
  }
}
