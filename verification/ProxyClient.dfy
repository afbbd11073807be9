/**
 ProxyClient (proxy_client.cpp) on one connection, as functions of both ends: the client builds a
 request message, the server handles its bytes, and the client acts on the reply. That the reply it
 reads is the one the server wrote for this request is what Rpc.dfy proves of an unbroken connection.
 A connection that breaks is deleted by the client, which ends the server's thread and session.
 */
module ProxyClient {
  import opened Wire
  import opened Message
  import opened Canonical
  import opened Schemas
  import opened Framing
  import opened Ioctl
  import opened ProxyServer

  const INFINITE := -1
  const BUFFER_LENGTH_MAX := 0x10_0000

  datatype Range = Range(va: nat, len: U32)

  datatype ClientSession = ClientSession(id: U32, tci: Option<Range>, buffers: seq<Slot>)

  /** The client's memory, and, while there is a connection, the sessions at its two ends. */
  datatype World =
    | Down(mem: bytes)
    | Up(mem: bytes, client: ClientSession, server: Option<Session>)

  /* ---------- The call ---------- */

  datatype CallResult = Broken | Refused(errno: nat, response: Msg) | Done(response: Msg)

  /** What `call` makes of a reply. */
  function Receive(schema: Schema, r: Reply): CallResult
    requires WellFormed(schema)
  {
    if r.protoRc < 0 then Broken
    else
      var response := if r.protoRc > 0 then ParseFromString(schema, r.data) else Some(Empty(schema));
      if response.None? then Broken
      else if r.methodRc != 0 then Refused(r.methodRc, response.value)
      else Done(response.value)
  }

  /** Whether `call` gets its request to the server. */
  predicate Sends(schema: Schema, m: Msg, lost: bool)
    requires Typed(schema, m)
  {
    |Serialize(schema, m)| < TWO_31 && !lost
  }

  /* ---------- Memory ---------- */

  predicate InMemory(mem: bytes, va: nat, len: nat)
  {
    va + len <= |mem|
  }

  function At(mem: bytes, va: nat, len: nat): (b: bytes)
    requires InMemory(mem, va, len)
    ensures |b| == len
  {
    mem[va..va + len]
  }

  function Write(mem: bytes, va: nat, data: bytes): (m: bytes)
    requires InMemory(mem, va, |data|)
    ensures |m| == |mem|
  {
    mem[..va] + data + mem[va + |data|..]
  }

  /* ---------- Slots ---------- */

  function Selected(slots: seq<Slot>): (r: seq<Slot>)
    ensures |r| <= |slots|
    ensures forall j :: 0 <= j < |r| ==> r[j].va != 0 && r[j] in slots
  {
    if slots == [] then []
    else (if slots[0].va != 0 then [slots[0]] else []) + Selected(slots[1..])
  }

  function WithSvas(slots: seq<Slot>, svas: seq<U64>): (r: seq<Slot>)
    requires |slots| == |svas|
    ensures |r| == |slots|
  {
    seq(|slots|, j requires 0 <= j < |slots| => slots[j].(sva := svas[j]))
  }

  function FindSlot(bs: seq<Slot>, sva: U64, i: nat := 0): (k: nat)
    requires i <= |bs|
    ensures i <= k <= |bs|
    ensures k < |bs| ==> bs[k].sva == sva
    ensures forall j :: i <= j < k ==> bs[j].sva != sva
    decreases |bs| - i
  {
    if i == |bs| || bs[i].sva == sva then i else FindSlot(bs, sva, i + 1)
  }

  /** `removeBuffer` for each slot in turn, stopping at one that is not found. */
  function RemoveSlots(bs: seq<Slot>, slots: seq<Slot>): seq<Slot>
    decreases |slots|
  {
    if slots == [] then bs
    else
      var k := FindSlot(bs, slots[0].sva);
      if k == |bs| then bs else RemoveSlots(bs[..k] + bs[k + 1..], slots[1..])
  }

  /* ---------- Requests ---------- */

  function OpenRequest(uuid: bytes, isGp: bool, tci: Option<bytes>, login: int, loginData: bytes): (m: Msg)
    requires LoginTypeIsValid(login)
    ensures Typed(OPEN_SESSION_REQUEST, m)
  {
    Msg([[Data(uuid)], [Num(if isGp then 1 else 0)], if tci.Some? then [Data(tci.value)] else [],
         [Num(login)], [Data(loginData)]], [])
  }

  function IdRequest(sid: U32): Msg
  {
    Msg([[Num(sid)]], [])
  }

  function MapRecords(slots: seq<Slot>): (r: seq<Value>)
    ensures |r| == |slots|
    ensures forall j :: 0 <= j < |r| ==> OkValue(Sub(MAP_REQUEST_BUFFERS), r[j])
  {
    seq(|slots|, j requires 0 <= j < |slots| => MapRecord(slots[j]))
  }

  function MapRecord(slot: Slot): (v: Value)
    ensures OkValue(Sub(MAP_REQUEST_BUFFERS), v)
  {
    Record(Msg([[Num(slot.len)], [Num(slot.flags)]], []))
  }

  function MapRequest(sid: U32, slots: seq<Slot>): (m: Msg)
    ensures Typed(MAP_REQUEST, m)
  {
    Msg([[Num(sid)], MapRecords(slots)], [])
  }

  function UnmapRecords(slots: seq<Slot>): (r: seq<Value>)
    ensures |r| == |slots|
    ensures forall j :: 0 <= j < |r| ==> OkValue(Sub(UNMAP_BUFFERS), r[j])
  {
    seq(|slots|, j requires 0 <= j < |slots| => UnmapRecord(slots[j]))
  }

  function UnmapRecord(slot: Slot): (v: Value)
    ensures OkValue(Sub(UNMAP_BUFFERS), v)
  {
    Record(Msg([[Num(slot.sva)]], []))
  }

  function UnmapRequest(sid: U32, slots: seq<Slot>): (m: Msg)
    ensures Typed(UNMAP_REQUEST, m)
  {
    Msg([[Num(sid)], UnmapRecords(slots)], [])
  }

  predicate BuffersInMemory(mem: bytes, bs: seq<Slot>)
  {
    forall j :: 0 <= j < |bs| ==> InMemory(mem, bs[j].va, bs[j].len)
  }

  /** The contents of the INPUT buffers from index `i` on. */
  function InputRecords(mem: bytes, bs: seq<Slot>, i: nat := 0): (r: seq<Value>)
    requires i <= |bs| && BuffersInMemory(mem, bs)
    ensures |r| <= |bs| - i
    ensures forall j :: 0 <= j < |r| ==> OkValue(Sub(NOTIFY_BUFFERS), r[j])
    decreases |bs| - i
  {
    if i == |bs| then []
    else if Input(bs[i].flags)
    then [Record(Msg([[Num(bs[i].sva)], [Data(At(mem, bs[i].va, bs[i].len))]], []))]
         + InputRecords(mem, bs, i + 1)
    else InputRecords(mem, bs, i + 1)
  }

  predicate SessionInMemory(mem: bytes, c: ClientSession)
  {
    && (c.tci.Some? ==> InMemory(mem, c.tci.value.va, c.tci.value.len))
    && BuffersInMemory(mem, c.buffers)
  }

  function NotifyRequest(mem: bytes, c: ClientSession): (m: Msg)
    requires SessionInMemory(mem, c)
    ensures Typed(NOTIFY_REQUEST, m)
  {
    Msg([[Num(c.id)],
         if c.tci.Some? then [Data(At(mem, c.tci.value.va, c.tci.value.len))] else [],
         InputRecords(mem, c.buffers)], [])
  }

  /* ---------- Waiting in slices ---------- */

  /** One request of the wait loop: the timeout it asks for, whether it is partial, what is left. */
  datatype Slice = Slice(timeout: int, partial: bool, left: int)

  function NextSlice(timeout: int, left: int): Slice
  {
    if timeout < 0 then Slice(TIMEOUT_MAX, true, left)
    else if left > TIMEOUT_MAX then Slice(TIMEOUT_MAX, true, left - TIMEOUT_MAX)
    else Slice(left, false, 0)
  }

  function WaitRequest(sid: U32, s: Slice): (m: Msg)
    requires -TWO_31 <= s.timeout < TWO_31
    ensures Typed(WAIT_REQUEST, m)
  {
    Msg([[Num(sid)], [Num(s.timeout)], [Num(if s.partial then 1 else 0)]], [])
  }

  /** The memory after the buffers of a wait response have been copied one by one, up to the first
      that does not fit a buffer of the session. */
  function CopyBack(mem: bytes, bs: seq<Slot>, patches: seq<Patch>): (r: bytes)
    requires BuffersInMemory(mem, bs)
    ensures |r| == |mem|
    decreases |patches|
  {
    if patches == [] then mem
    else
      var k := FindSlot(bs, patches[0].sva);
      if k == |bs| || |patches[0].data| != bs[k].len then mem
      else CopyBack(Write(mem, bs[k].va, patches[0].data), bs, patches[1..])
  }

  function ApplyResponse(mem: bytes, c: ClientSession, response: Msg): (r: bytes)
    requires SessionInMemory(mem, c)
    ensures |r| == |mem|
  {
    if Has(response, 0) && c.tci.Some? && |DataAt(response, 0)| != c.tci.value.len then mem
    else
      var m := if Has(response, 0) && c.tci.Some?
               then Write(mem, c.tci.value.va, DataAt(response, 0)) else mem;
      CopyBack(m, c.buffers, Patches(NestedAt(response, 1)))
  }

  /** One outcome for each request of the loop: None if the connection breaks. When the outcomes run
      out the client is still waiting and nothing has changed. */
  function WaitLoop(w: World, timeout: int, left: int, ds: seq<Option<Driver<()>>>): (r: World)
    requires w.Up? && SessionInMemory(w.mem, w.client) && left < TWO_31
    requires timeout >= 0 ==> 0 <= left
    decreases |ds|
  {
    if ds == [] then w
    else
      PlainTablesFit();
      NotifyTablesFit();
      var slice := NextSlice(timeout, left);
      var request := WaitRequest(w.client.id, slice);
      if !Sends(WAIT_REQUEST, request, ds[0].None?) then Down(w.mem)
      else
        var o := WaitNotification(w.server, Serialize(WAIT_REQUEST, request), ds[0].value);
        match Receive(WAIT_RESPONSE, o.reply)
        case Broken => Down(w.mem)
        case Done(response) => w.(mem := ApplyResponse(w.mem, w.client, response), server := o.session)
        case Refused(errno, response) =>
          if errno != ETIME || !slice.partial
          then w.(mem := ApplyResponse(w.mem, w.client, response), server := o.session)
          else WaitLoop(w.(server := o.session), timeout, slice.left, ds[1..])
  }

  /* ---------- Operations ---------- */

  function Open(w: World, uuid: bytes, isGp: bool, tci: Range, login: int, loginData: bytes,
                d: Driver<U32>, lost: bool): World
    requires w.Down? && LoginTypeIsValid(login) && InMemory(w.mem, tci.va, tci.len)
  {
    if (tci.va != 0 && tci.len == 0) || (tci.va == 0 && tci.len != 0) then w
    else if tci.len > BUFFER_LENGTH_MAX then w
    else
      OpenTablesFit();
      var given := if tci.va != 0 then Some(At(w.mem, tci.va, tci.len)) else None;
      var request := OpenRequest(uuid, isGp, given, login, loginData);
      if !Sends(OPEN_SESSION_REQUEST, request, lost) then w
      else
        AfterOpen(w, tci, OpenSession(None, Serialize(OPEN_SESSION_REQUEST, request), d))
  }

  function AfterOpen(w: World, tci: Range, o: Outcome): World
  {
    OpenTablesFit();
    match Receive(OPEN_SESSION_RESPONSE, o.reply)
    case Done(response) =>
      if !Has(response, 0) || !(0 <= NumAt(response, 0) < TWO_32) then w
      else Up(w.mem, ClientSession(NumAt(response, 0), if tci.va != 0 then Some(tci) else None, []),
              o.session)
    case _ => w
  }

  function Close(w: World, d: Driver<()>, lost: bool): World
    requires w.Up?
  {
    PlainTablesFit();
    var request := IdRequest(w.client.id);
    if !Sends(CLOSE_SESSION_REQUEST, request, lost) then Down(w.mem)
    else
      var o := CloseSession(w.server, Serialize(CLOSE_SESSION_REQUEST, request), d);
      match Receive(EMPTY_MESSAGE, o.reply)
      case Refused(_, _) => w.(server := o.session)
      case _ => Down(w.mem)
  }

  function Notify(w: World, d: Driver<()>, lost: bool): World
    requires w.Up? && SessionInMemory(w.mem, w.client)
  {
    PlainTablesFit();
    var request := NotifyRequest(w.mem, w.client);
    if !Sends(NOTIFY_REQUEST, request, lost) then Down(w.mem)
    else
      var o := ProxyServer.Notify(w.server, Serialize(NOTIFY_REQUEST, request), d);
      match Receive(EMPTY_MESSAGE, o.reply)
      case Broken => Down(w.mem)
      case _ => w.(server := o.session)
  }

  function Wait(w: World, timeout: int, ds: seq<Option<Driver<()>>>): World
    requires w.Up? && SessionInMemory(w.mem, w.client) && -TWO_31 <= timeout < TWO_31
  {
    WaitLoop(w, timeout, timeout, ds)
  }

  function Map(w: World, slots: seq<Slot>, d: Driver<seq<U64>>, lost: bool): World
    requires w.Up?
  {
    var chosen := Selected(slots);
    if exists j :: 0 <= j < |chosen| && chosen[j].len > BUFFER_LENGTH_MAX then w
    else
      MapTablesFit();
      var request := MapRequest(w.client.id, chosen);
      if !Sends(MAP_REQUEST, request, lost) then Down(w.mem)
      else
        AfterMap(w, chosen, ProxyServer.Map(w.server, Serialize(MAP_REQUEST, request), d))
  }

  function AfterMap(w: World, chosen: seq<Slot>, o: Outcome): World
    requires w.Up?
  {
    MapTablesFit();
    match Receive(MAP_RESPONSE, o.reply)
    case Broken => Down(w.mem)
    case Refused(_, _) => w.(server := o.session)
    case Done(response) =>
      var vs := NestedAt(response, 0);
      if |vs| != |chosen| then w.(server := o.session)
      else if exists j :: 0 <= j < |vs| && !Has(Sub1(vs[j]), 0) then w.(server := o.session)
      else w.(server := o.session,
              client := w.client.(buffers := w.client.buffers + WithSvas(chosen, Svas(vs))))
  }

  function Unmap(w: World, slots: seq<Slot>, d: Driver<()>, lost: bool): World
    requires w.Up?
  {
    var chosen := Selected(slots);
    if exists j :: 0 <= j < |chosen| && chosen[j].sva == 0 then w
    else
      UnmapTablesFit();
      var request := UnmapRequest(w.client.id, chosen);
      if !Sends(UNMAP_REQUEST, request, lost) then Down(w.mem)
      else
        AfterUnmap(w, chosen, ProxyServer.Unmap(w.server, Serialize(UNMAP_REQUEST, request), d))
  }

  function AfterUnmap(w: World, chosen: seq<Slot>, o: Outcome): World
    requires w.Up?
  {
    PlainTablesFit();
    match Receive(EMPTY_MESSAGE, o.reply)
    case Broken => Down(w.mem)
    case Refused(_, _) => w.(server := o.session)
    case Done(_) =>
      w.(server := o.session, client := w.client.(buffers := RemoveSlots(w.client.buffers, chosen)))
  }
}
