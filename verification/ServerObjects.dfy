/**
 The objects at the server's end: the session with its list of buffers, and the connection whose
 handlers parse a request, check it on the way, change the session in place and build a response.
 Each handler is tied to its function in ProxyServer.dfy.
 */
module ServerObjects {
  import opened Wire
  import opened Message
  import opened Canonical
  import opened Schemas
  import opened Framing
  import opened Ioctl
  import opened ProxyServer

  /** Session, as the server uses it. */
  class SessionObject {
    const id: U32
    var tci: Option<bytes>
    var buffers: seq<Buffer>

    function View(): Session
      reads this
    {
      Session(id, tci, buffers)
    }

    constructor (id: U32, tci: Option<bytes>)
      ensures View() == Session(id, tci, [])
    {
      this.id, this.tci, buffers := id, tci, [];
    }

    /** updateTci: of the same length, or not at all. */
    method UpdateTci(data: bytes) returns (ok: bool)
      requires tci.Some?
      modifies `tci
      ensures ok == (|data| == |old(tci).value|)
      ensures tci == if ok then Some(data) else old(tci)
    {
      ok := |data| == |tci.value|;
      if ok {
        tci := Some(data);
      }
    }

    method AddBuffer(b: Buffer)
      modifies `buffers
      ensures buffers == old(buffers) + [b]
    {
      buffers := buffers + [b];
    }

    method FindBuffer(sva: U64) returns (i: nat)
      ensures i == Find(buffers, sva)
    {
      i := 0;
      while i < |buffers| && buffers[i].sva != sva
        invariant i <= |buffers| && Find(buffers, sva) == Find(buffers, sva, i)
      {
        i := i + 1;
      }
    }

    /** Buffer::update. */
    method UpdateBuffer(i: nat, data: bytes)
      requires i < |buffers|
      modifies `buffers
      ensures buffers == old(buffers)[i := Updated(old(buffers)[i], data)]
    {
      if |data| == |buffers[i].data| {
        buffers := buffers[i := buffers[i].(data := data)];
      }
    }

    method RemoveBuffer(sva: U64) returns (ok: bool)
      modifies `buffers
      ensures ok == Remove(old(buffers), sva).Some?
      ensures buffers == if ok then Remove(old(buffers), sva).value else old(buffers)
    {
      var i := FindBuffer(sva);
      ok := i < |buffers|;
      if ok {
        buffers := buffers[..i] + buffers[i + 1..];
      }
    }
  }

  class ServerConnection {
    var session: SessionObject?

    function View(): Option<Session>
      reads this, session
    {
      if session == null then None else Some(session.View())
    }

    constructor ()
      ensures session == null
    {
      session := null;
    }

    method OpenSession(data: bytes, d: Driver<U32>) returns (reply: Reply)
      modifies this
      ensures session != old(session) ==> fresh(session)
      ensures Outcome(View(), reply) == ProxyServer.OpenSession(old(View()), data, d)
    {
      if session != null {
        return Reply(0 - EBUSY, 0, []);
      }
      OpenTablesFit();
      var invalid := Reply(0 - EINVAL, 0, []);
      var parsed := ParseFromString(OPEN_SESSION_REQUEST, data);
      if parsed.None? {
        return Reply(0 - EPIPE, 0, []);
      }
      var m := parsed.value;
      if !Has(m, 0) || !Has(m, 1) || !Has(m, 3) || !Has(m, 4) || |DataAt(m, 0)| != 16 || |DataAt(m, 4)| != 16 {
        return invalid;
      }
      if d.Fails? {
        return Reply(0, d.errno, []);
      }
      var out := Serialize(OPEN_SESSION_RESPONSE, Msg([[Num(d.value)]], []));
      if |out| >= TWO_31 {
        return Reply(0 - EPIPE, 0, []);
      }
      session := new SessionObject(d.value, if Has(m, 2) then Some(DataAt(m, 2)) else None);
      return Reply(|out|, 0, out);
    }

    method CloseSession(data: bytes, d: Driver<()>) returns (reply: Reply)
      modifies this
      ensures session == null || session == old(session)
      ensures Outcome(View(), reply) == ProxyServer.CloseSession(old(View()), data, d)
    {
      PlainTablesFit();
      var invalid := Reply(0 - EINVAL, 0, []);
      var parsed := ParseFromString(CLOSE_SESSION_REQUEST, data);
      if parsed.None? {
        return Reply(0 - EPIPE, 0, []);
      }
      if !Has(parsed.value, 0) {
        return invalid;
      }
      if session == null {
        return Reply(0 - ENOENT, 0, []);
      }
      if d.Fails? {
        return Reply(0, d.errno, []);
      }
      session := null;
      return Reply(0, 0, []);
    }

    /** The loop of `notify`: buffers updated one by one, up to one that is not known. */
    method UpdateBuffers(vs: seq<Value>) returns (ok: bool)
      requires session != null
      modifies session
      ensures session.tci == old(session.tci)
      ensures (session.buffers, ok) == UpdateAll(old(session.buffers), Patches(vs))
    {
      ghost var patches := Patches(vs);
      ghost var all := UpdateAll(session.buffers, patches);
      for i := 0 to |vs|
        invariant session.tci == old(session.tci)
        invariant all == UpdateAll(session.buffers, patches[i..])
      {
        assert patches[i..][0] == AsPatch(vs[i]) && patches[i..][1..] == patches[i + 1..];
        var k := session.FindBuffer(SvaOf(vs[i]));
        if k == |session.buffers| {
          return false;
        }
        session.UpdateBuffer(k, DataAt(Sub1(vs[i]), 1));
      }
      return true;
    }

    /** `notify`. Where it gives up half way, the buffers it has already updated stay so. */
    method Notify(data: bytes, d: Driver<()>) returns (reply: Reply)
      modifies session
      ensures Outcome(View(), reply) == ProxyServer.Notify(old(View()), data, d)
    {
      NotifyTablesFit();
      var invalid := Reply(0 - EINVAL, 0, []);
      var parsed := ParseFromString(NOTIFY_REQUEST, data);
      if parsed.None? {
        return Reply(0 - EPIPE, 0, []);
      }
      var m := parsed.value;
      if session == null {
        return Reply(0 - ENOENT, 0, []);
      }
      if !Has(m, 0) || (session.tci.Some? && !Has(m, 1)) {
        return invalid;
      }
      if session.tci.Some? {
        var fits := session.UpdateTci(DataAt(m, 1));
        if !fits {
          return invalid;
        }
      }
      var vs := NestedAt(m, 2);
      if |vs| > |session.buffers| || !Complete(vs) {
        return invalid;
      }
      var known := UpdateBuffers(vs);
      if !known {
        return Reply(0 - EPIPE, 0, []);
      }
      if d.Fails? {
        return Reply(0, d.errno, []);
      }
      return Reply(0, 0, []);
    }

    /** The loop of `waitNotification` over the buffers. */
    method CollectOutputs() returns (records: seq<Value>)
      requires session != null
      ensures records == OutputRecords(session.buffers)
    {
      records := [];
      ghost var all := OutputRecords(session.buffers);
      for i := 0 to |session.buffers|
        invariant all == records + OutputRecords(session.buffers, i)
      {
        var b := session.buffers[i];
        if Output(b.flags) {
          var v := Record(Msg([[Num(b.sva)], [Data(b.data)]], []));
          SeqAssoc(records, [v], OutputRecords(session.buffers, i + 1));
          records := records + [v];
        }
      }
      assert records + [] == records;
    }

    method WaitNotification(data: bytes, d: Driver<()>) returns (reply: Reply)
      ensures Outcome(View(), reply) == ProxyServer.WaitNotification(View(), data, d)
    {
      PlainTablesFit();
      var invalid := Reply(0 - EINVAL, 0, []);
      var parsed := ParseFromString(WAIT_REQUEST, data);
      if parsed.None? {
        return Reply(0 - EPIPE, 0, []);
      }
      var m := parsed.value;
      if !Has(m, 0) || !Has(m, 1) || !Has(m, 2) {
        return invalid;
      }
      if NumAt(m, 1) < 0 || NumAt(m, 1) > TIMEOUT_MAX || session == null {
        return Reply(0 - ENOENT, 0, []);
      }
      if d.Fails? && d.errno == ETIME && NumAt(m, 2) == 1 {
        return Reply(0, ETIME, []);
      }
      var records := CollectOutputs();
      assert Typed(WAIT_RESPONSE, WaitResponse(session.View()));
      var response := Msg([if session.tci.Some? then [Data(session.tci.value)] else [], records], []);
      var out := Serialize(WAIT_RESPONSE, response);
      var methodRc := if d.Fails? then d.errno else 0;
      if |out| >= TWO_31 {
        return Reply(0 - EPIPE, methodRc, []);
      }
      return Reply(|out|, methodRc, out);
    }

    /** The loop of `map` once the driver has answered: buffers join the session one by one. */
    method AddBuffers(vs: seq<Value>, svas: seq<U64>)
      requires session != null && |svas| == |vs| && MapRecordsOk(vs)
      modifies session
      ensures session.tci == old(session.tci)
      ensures session.buffers == old(session.buffers) + NewBuffers(vs, svas)
    {
      ghost var all := NewBuffers(vs, svas);
      assert old(session.buffers) + all[..0] == old(session.buffers);
      for i := 0 to |vs|
        invariant session.tci == old(session.tci)
        invariant session.buffers == old(session.buffers) + all[..i]
      {
        var b := Buffer(svas[i], NumAt(Sub1(vs[i]), 1), Zeros(NumAt(Sub1(vs[i]), 0)));
        session.AddBuffer(b);
        assert all[..i + 1] == all[..i] + [b];
        SeqAssoc(old(session.buffers), all[..i], [b]);
      }
      assert all[..|vs|] == all;
    }

    method Map(data: bytes, d: Driver<seq<U64>>) returns (reply: Reply)
      modifies session
      ensures Outcome(View(), reply) == ProxyServer.Map(old(View()), data, d)
    {
      MapTablesFit();
      var invalid := Reply(0 - EINVAL, 0, []);
      var parsed := ParseFromString(MAP_REQUEST, data);
      if parsed.None? {
        return Reply(0 - EPIPE, 0, []);
      }
      var m := parsed.value;
      var vs := NestedAt(m, 1);
      if !Has(m, 0) {
        return invalid;
      }
      if session == null {
        return Reply(0 - ENOENT, 0, []);
      }
      if |vs| > MAP_MAX || !MapRecordsOk(vs) {
        return invalid;
      }
      if d.Fails? {
        return Reply(0, d.errno, []);
      }
      if |vs| == 0 || |d.value| != |vs| {
        return Reply(0, EINVAL, []);
      }
      AddBuffers(vs, d.value);
      var out := Serialize(MAP_RESPONSE, MapResponse(d.value));
      if |out| >= TWO_31 {
        return Reply(0 - EPIPE, 0, []);
      }
      return Reply(|out|, 0, out);
    }

    /** The loops of `unmap`: every buffer is looked up before the driver is asked ... */
    method AllKnown(vs: seq<Value>) returns (ok: bool)
      requires session != null
      ensures ok == AllFound(session.buffers, Svas(vs))
    {
      for i := 0 to |vs|
        invariant forall j :: 0 <= j < i ==> Find(session.buffers, Svas(vs)[j]) < |session.buffers|
      {
        var k := session.FindBuffer(SvaOf(vs[i]));
        if k == |session.buffers| {
          assert Find(session.buffers, Svas(vs)[i]) == |session.buffers|;
          return false;
        }
      }
      return true;
    }

    /** ... and removed after it has agreed. */
    method RemoveBuffers(vs: seq<Value>) returns (ok: bool)
      requires session != null
      modifies session
      ensures session.tci == old(session.tci)
      ensures (session.buffers, ok) == RemoveAll(old(session.buffers), Svas(vs))
    {
      ghost var svas := Svas(vs);
      ghost var all := RemoveAll(session.buffers, svas);
      for i := 0 to |vs|
        invariant session.tci == old(session.tci)
        invariant all == RemoveAll(session.buffers, svas[i..])
      {
        assert svas[i..][0] == SvaOf(vs[i]) && svas[i..][1..] == svas[i + 1..];
        var removed := session.RemoveBuffer(SvaOf(vs[i]));
        if !removed {
          return false;
        }
      }
      return true;
    }

    method Unmap(data: bytes, d: Driver<()>) returns (reply: Reply)
      modifies session
      ensures Outcome(View(), reply) == ProxyServer.Unmap(old(View()), data, d)
    {
      UnmapTablesFit();
      var invalid := Reply(0 - EINVAL, 0, []);
      var parsed := ParseFromString(UNMAP_REQUEST, data);
      if parsed.None? {
        return Reply(0 - EPIPE, 0, []);
      }
      var m := parsed.value;
      var vs := NestedAt(m, 1);
      if !Has(m, 0) || |vs| > MAP_MAX {
        return invalid;
      }
      if session == null {
        return Reply(0 - ENOENT, 0, []);
      }
      if |vs| > |session.buffers| || exists j :: 0 <= j < |vs| && !Has(Sub1(vs[j]), 0) {
        return invalid;
      }
      var known := AllKnown(vs);
      if !known {
        return Reply(0, EINVAL, []);
      }
      if d.Fails? {
        return Reply(0, d.errno, []);
      }
      var removed := RemoveBuffers(vs);
      if !removed {
        return Reply(0 - EPIPE, 0, []);
      }
      return Reply(0, 0, []);
    }
  }
}
