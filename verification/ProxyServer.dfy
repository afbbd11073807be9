/**
 The request handlers of ServerConnection (proxy_server.cpp), as functions of the session, the
 request bytes and what the driver answers.
 */
module ProxyServer {
  import opened Wire
  import opened Message
  import opened Canonical
  import opened Schemas
  import opened Framing
  import opened Ioctl

  const ENOENT := 2
  const EBUSY := 16
  const EINVAL := 22
  const EPIPE := 32
  const ETIME := 62

  const TIMEOUT_MAX := 1000

  /** A buffer of the server's session: memory of its own for what the client mapped. */
  datatype Buffer = Buffer(sva: U64, flags: U32, data: bytes)

  datatype Session = Session(id: U32, tci: Option<bytes>, buffers: seq<Buffer>)

  type Errno = x: int | 0 < x < TWO_31 witness 1

  /** What a driver call comes back with: an error number, or success. */
  datatype Driver<+T> = Fails(errno: Errno) | Works(value: T)

  datatype Outcome = Outcome(session: Option<Session>, reply: Reply)

  predicate Input(flags: nat)
  {
    flags % 2 == 1
  }

  predicate Output(flags: nat)
  {
    flags / 2 % 2 == 1
  }

  /* ---------- Message fields ---------- */

  predicate Has(m: Msg, i: nat)
  {
    i < |m.fields| && m.fields[i] != []
  }

  function NumAt(m: Msg, i: nat): int
  {
    if Has(m, i) && m.fields[i][0].Num? then m.fields[i][0].v else 0
  }

  function DataAt(m: Msg, i: nat): bytes
  {
    if Has(m, i) && m.fields[i][0].Data? then m.fields[i][0].b else []
  }

  /** The nested messages of repeated field `i`. */
  function NestedAt(m: Msg, i: nat): seq<Value>
  {
    if i < |m.fields| then m.fields[i] else []
  }

  function Sub1(v: Value): Msg
  {
    if v.Nested? then v.m else Msg([], [])
  }

  function Record(m: Msg): Value
  {
    Nested(m)
  }

  /* ---------- Replies ---------- */

  function ProtocolError(s: Option<Session>, errno: Errno): Outcome
  {
    Outcome(s, Reply(0 - errno, 0, []))
  }

  function MethodError(s: Option<Session>, errno: Errno): Outcome
  {
    Outcome(s, Reply(0, errno, []))
  }

  /** SerializeToString of a response, which fails beyond the size of an int. */
  function Respond(s: Option<Session>, schema: Schema, m: Msg, methodRc: nat): Outcome
    requires Typed(schema, m)
  {
    var out := Serialize(schema, m);
    if |out| < TWO_31 then Outcome(s, Reply(|out|, methodRc, out))
    else Outcome(s, Reply(-EPIPE, methodRc, []))
  }

  /* ---------- Session buffers ---------- */

  /** The index of the first buffer with this address, or the number of buffers. */
  function Find(bs: seq<Buffer>, sva: U64, i: nat := 0): (k: nat)
    requires i <= |bs|
    ensures i <= k <= |bs|
    ensures k < |bs| ==> bs[k].sva == sva
    ensures forall j :: i <= j < k ==> bs[j].sva != sva
    decreases |bs| - i
  {
    if i == |bs| || bs[i].sva == sva then i else Find(bs, sva, i + 1)
  }

  /** Buffer::update: a text of another length changes nothing. */
  function Updated(b: Buffer, data: bytes): Buffer
  {
    if |data| == |b.data| then b.(data := data) else b
  }

  datatype Patch = Patch(sva: U64, data: bytes)

  /** The loop of `notify` over the buffers of the request, up to one that has no record. */
  function UpdateAll(bs: seq<Buffer>, patches: seq<Patch>): (seq<Buffer>, bool)
    decreases |patches|
  {
    if patches == [] then (bs, true)
    else
      var k := Find(bs, patches[0].sva);
      if k == |bs| then (bs, false)
      else UpdateAll(bs[k := Updated(bs[k], patches[0].data)], patches[1..])
  }

  /** What is left of the buffers when the first one with this address is erased. */
  function Remove(bs: seq<Buffer>, sva: U64): Option<seq<Buffer>>
  {
    var k := Find(bs, sva);
    if k == |bs| then None else Some(bs[..k] + bs[k + 1..])
  }

  /** The loop of `unmap`, up to an address that is not there (any more). */
  function RemoveAll(bs: seq<Buffer>, svas: seq<U64>): (seq<Buffer>, bool)
    decreases |svas|
  {
    if svas == [] then (bs, true)
    else
      match Remove(bs, svas[0])
      case None => (bs, false)
      case Some(rest) => RemoveAll(rest, svas[1..])
  }

  /* ---------- Handlers ---------- */

  function OpenSession(s: Option<Session>, data: bytes, d: Driver<U32>): Outcome
  {
    if s.Some? then ProtocolError(s, EBUSY)
    else
      OpenTablesFit();
      match ParseFromString(OPEN_SESSION_REQUEST, data)
      case None => ProtocolError(s, EPIPE)
      case Some(m) =>
        if !Has(m, 0) || !Has(m, 1) || !Has(m, 3) || !Has(m, 4) then ProtocolError(s, EINVAL)
        else if |DataAt(m, 0)| != 16 then ProtocolError(s, EINVAL)
        else if |DataAt(m, 4)| != 16 then ProtocolError(s, EINVAL)
        else
          match d
          case Fails(errno) => MethodError(s, errno)
          case Works(sid) =>
            var tci := if Has(m, 2) then Some(DataAt(m, 2)) else None;
            var response := Respond(s, OPEN_SESSION_RESPONSE, Msg([[Num(sid)]], []), 0);
            if response.reply.protoRc < 0 then response
            else response.(session := Some(Session(sid, tci, [])))
  }

  function CloseSession(s: Option<Session>, data: bytes, d: Driver<()>): Outcome
  {
    PlainTablesFit();
    match ParseFromString(CLOSE_SESSION_REQUEST, data)
    case None => ProtocolError(s, EPIPE)
    case Some(m) =>
      if !Has(m, 0) then ProtocolError(s, EINVAL)
      else if s.None? then ProtocolError(s, ENOENT)
      else
        match d
        case Fails(errno) => MethodError(s, errno)
        case Works(_) => Outcome(None, Reply(0, 0, []))
  }

  /** Whether every buffer of a notify request carries an address and data. (The fields are
      required, so after ParseFromString this and the other tests for required fields hold.) */
  predicate Complete(vs: seq<Value>)
  {
    forall j :: 0 <= j < |vs| ==> Has(Sub1(vs[j]), 0) && Has(Sub1(vs[j]), 1)
  }

  function Patches(vs: seq<Value>): (r: seq<Patch>)
    ensures |r| == |vs|
  {
    seq(|vs|, j requires 0 <= j < |vs| => AsPatch(vs[j]))
  }

  function AsPatch(v: Value): Patch
  {
    Patch(SvaOf(v), DataAt(Sub1(v), 1))
  }

  function SvaOf(v: Value): U64
  {
    var n := NumAt(Sub1(v), 0);
    if 0 <= n < TWO_64 then n else 0
  }

  /** `notify`: the TCI first, then the buffers, each in the order of the request; the checks are
      made on the way, so a refusal can leave some of them updated. */
  function Notify(s: Option<Session>, data: bytes, d: Driver<()>): Outcome
  {
    NotifyTablesFit();
    match ParseFromString(NOTIFY_REQUEST, data)
    case None => ProtocolError(s, EPIPE)
    case Some(m) =>
      if s.None? then ProtocolError(s, ENOENT)
      else if !Has(m, 0) || (s.value.tci.Some? && !Has(m, 1)) then ProtocolError(s, EINVAL)
      else if s.value.tci.Some? && |DataAt(m, 1)| != |s.value.tci.value| then ProtocolError(s, EINVAL)
      else
        var t := if s.value.tci.Some? then s.value.(tci := Some(DataAt(m, 1))) else s.value;
        var vs := NestedAt(m, 2);
        if |vs| > |t.buffers| then ProtocolError(Some(t), EINVAL)
        else if !Complete(vs) then ProtocolError(Some(t), EINVAL)
        else
          var (bs, known) := UpdateAll(t.buffers, Patches(vs));
          var u := Some(t.(buffers := bs));
          if !known then ProtocolError(u, EPIPE)
          else
            match d
            case Fails(errno) => MethodError(u, errno)
            case Works(_) => Outcome(u, Reply(0, 0, []))
  }

  /** The OUTPUT buffers from index `i` on, as records of the response. */
  function OutputRecords(bs: seq<Buffer>, i: nat := 0): seq<Value>
    requires i <= |bs|
    decreases |bs| - i
  {
    if i == |bs| then []
    else if Output(bs[i].flags)
    then [Record(Msg([[Num(bs[i].sva)], [Data(bs[i].data)]], []))] + OutputRecords(bs, i + 1)
    else OutputRecords(bs, i + 1)
  }

  lemma OutputRecordsTyped(bs: seq<Buffer>, i: nat)
    requires i <= |bs|
    ensures forall j :: 0 <= j < |OutputRecords(bs, i)| ==>
              OkValue(Sub(WAIT_BUFFERS), OutputRecords(bs, i)[j])
    decreases |bs| - i
  {
    if i < |bs| {
      OutputRecordsTyped(bs, i + 1);
    }
  }

  function WaitResponse(s: Session): (m: Msg)
    ensures Typed(WAIT_RESPONSE, m)
  {
    OutputRecordsTyped(s.buffers, 0);
    Msg([if s.tci.Some? then [Data(s.tci.value)] else [], OutputRecords(s.buffers)], [])
  }

  /** `waitNotification`: a partial wait that only timed out sends nothing back; any other error
      still sends the memory. */
  function WaitNotification(s: Option<Session>, data: bytes, d: Driver<()>): Outcome
  {
    PlainTablesFit();
    match ParseFromString(WAIT_REQUEST, data)
    case None => ProtocolError(s, EPIPE)
    case Some(m) =>
      if !Has(m, 0) || !Has(m, 1) || !Has(m, 2) then ProtocolError(s, EINVAL)
      else if NumAt(m, 1) < 0 || NumAt(m, 1) > TIMEOUT_MAX then ProtocolError(s, ENOENT)
      else if s.None? then ProtocolError(s, ENOENT)
      else if d.Fails? && d.errno == ETIME && NumAt(m, 2) == 1 then MethodError(s, ETIME)
      else Respond(s, WAIT_RESPONSE, WaitResponse(s.value), if d.Fails? then d.errno else 0)
  }

  predicate MapRecordsOk(vs: seq<Value>)
  {
    forall j :: 0 <= j < |vs| ==>
      && Has(Sub1(vs[j]), 0) && Has(Sub1(vs[j]), 1)
      && 1 <= NumAt(Sub1(vs[j]), 1) <= 3
  }

  function Zeros(n: int): (b: bytes)
    ensures |b| == if n < 0 then 0 else n
  {
    seq(if n < 0 then 0 else n, _ => 0)
  }

  /** The buffers `map` allocates for the records of a request, with the addresses of the driver. */
  function NewBuffers(vs: seq<Value>, svas: seq<U64>): (r: seq<Buffer>)
    requires |svas| == |vs| && MapRecordsOk(vs)
    ensures |r| == |vs|
  {
    seq(|vs|, j requires 0 <= j < |vs| =>
      Buffer(svas[j], NumAt(Sub1(vs[j]), 1), Zeros(NumAt(Sub1(vs[j]), 0))))
  }

  function SvaRecord(sva: U64): (v: Value)
    ensures OkValue(Sub(MAP_RESPONSE_BUFFERS), v)
  {
    Record(Msg([[Num(sva)]], []))
  }

  function MapResponse(svas: seq<U64>): (m: Msg)
    ensures Typed(MAP_RESPONSE, m)
  {
    Msg([seq(|svas|, j requires 0 <= j < |svas| => SvaRecord(svas[j]))], [])
  }

  /** `map`. The driver answers with one address for each buffer; it refuses an empty set. */
  function Map(s: Option<Session>, data: bytes, d: Driver<seq<U64>>): Outcome
  {
    MapTablesFit();
    match ParseFromString(MAP_REQUEST, data)
    case None => ProtocolError(s, EPIPE)
    case Some(m) =>
      var vs := NestedAt(m, 1);
      if !Has(m, 0) then ProtocolError(s, EINVAL)
      else if s.None? then ProtocolError(s, ENOENT)
      else if |vs| > MAP_MAX then ProtocolError(s, EINVAL)
      else if !MapRecordsOk(vs) then ProtocolError(s, EINVAL)
      else if d.Fails? then MethodError(s, d.errno)
      else if |vs| == 0 || |d.value| != |vs| then MethodError(s, EINVAL)
      else
        var t := s.value.(buffers := s.value.buffers + NewBuffers(vs, d.value));
        Respond(Some(t), MAP_RESPONSE, MapResponse(d.value), 0)
  }

  function Svas(vs: seq<Value>): (r: seq<U64>)
    ensures |r| == |vs|
  {
    seq(|vs|, j requires 0 <= j < |vs| => SvaOf(vs[j]))
  }

  predicate AllFound(bs: seq<Buffer>, svas: seq<U64>)
  {
    forall j :: 0 <= j < |svas| ==> Find(bs, svas[j]) < |bs|
  }

  function Unmap(s: Option<Session>, data: bytes, d: Driver<()>): Outcome
  {
    UnmapTablesFit();
    match ParseFromString(UNMAP_REQUEST, data)
    case None => ProtocolError(s, EPIPE)
    case Some(m) =>
      var vs := NestedAt(m, 1);
      if !Has(m, 0) then ProtocolError(s, EINVAL)
      else if |vs| > MAP_MAX then ProtocolError(s, EINVAL)
      else if s.None? then ProtocolError(s, ENOENT)
      else if |vs| > |s.value.buffers| then ProtocolError(s, EINVAL)
      else if exists j :: 0 <= j < |vs| && !Has(Sub1(vs[j]), 0) then ProtocolError(s, EINVAL)
      else if !AllFound(s.value.buffers, Svas(vs)) then MethodError(s, EINVAL)
      else
        match d
        case Fails(errno) => MethodError(s, errno)
        case Works(_) =>
          var (bs, found) := RemoveAll(s.value.buffers, Svas(vs));
          var u := Some(s.value.(buffers := bs));
          if found then Outcome(u, Reply(0, 0, [])) else ProtocolError(u, EPIPE)
  }
}
