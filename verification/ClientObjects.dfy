/**
 The client's end in place: the list of connections, and on each connection the session's buffers,
 the memory of the application, and the operations of ProxyClient. A request is handled by the object
 at the other end; the bytes between them are the business of Transport.dfy and Rpc.dfy. Each
 operation is tied to its function in ProxyClient.dfy.
 */
module ClientObjects {
  import opened Wire
  import opened Message
  import opened Canonical
  import opened Schemas
  import opened Ioctl
  import opened ProxyServer
  import opened ProxyClient
  import opened ServerObjects

  /** What one call of the wait loop comes back with. */
  function WaitAnswer(id: U32, server: Option<Session>, slice: Slice, d: Option<Driver<()>>): CallResult
    requires -TWO_31 <= slice.timeout < TWO_31
  {
    PlainTablesFit();
    NotifyTablesFit();
    var request := WaitRequest(id, slice);
    if !Sends(WAIT_REQUEST, request, d.None?) then Broken
    else
      Receive(WAIT_RESPONSE, ProxyServer.WaitNotification(server, Serialize(WAIT_REQUEST, request), d.value).reply)
  }

  lemma WaitLeavesSession(s: Option<Session>, data: bytes, d: Driver<()>)
    ensures ProxyServer.WaitNotification(s, data, d).session == s
  {
  }

  /** One round of the wait loop, by its answer. */
  lemma WaitRound(w: World, timeout: int, left: int, ds: seq<Option<Driver<()>>>)
    requires w.Up? && SessionInMemory(w.mem, w.client) && left < TWO_31 && ds != []
    requires timeout >= 0 ==> 0 <= left
    ensures var slice := NextSlice(timeout, left);
            var answer := WaitAnswer(w.client.id, w.server, slice, ds[0]);
            WaitLoop(w, timeout, left, ds)
            == if answer.Broken? then Down(w.mem)
               else if answer.Refused? && answer.errno == ETIME && slice.partial
               then WaitLoop(w, timeout, slice.left, ds[1..])
               else w.(mem := ApplyResponse(w.mem, w.client, answer.response))
  {
    var slice := NextSlice(timeout, left);
    if ds[0].Some? {
      WaitLeavesSession(w.server, Serialize(WAIT_REQUEST, WaitRequest(w.client.id, slice)), ds[0].value);
    }
  }

  class ProxyConnection {
    const id: U32
    const tci: Option<Range>
    const mem: array<byte>
    const server: ServerConnection
    var buffers: seq<Slot>
    /** False once the client has deleted the connection. */
    var up: bool

    function Client(): ClientSession
      reads this
    {
      ClientSession(id, tci, buffers)
    }

    function View(): World
      reads this, mem, server, server.session
    {
      if up then Up(mem[..], Client(), server.View()) else Down(mem[..])
    }

    predicate InPlace()
      reads this, mem
    {
      up && SessionInMemory(mem[..], Client())
    }

    constructor (id: U32, tci: Option<Range>, mem: array<byte>, server: ServerConnection)
      ensures this.id == id && this.tci == tci && this.mem == mem && this.server == server && up && buffers == []
    {
      this.id, this.tci, this.mem, this.server := id, tci, mem, server;
      buffers, up := [], true;
    }

    /** The loop of `notify` over the buffers. */
    method CollectInputs() returns (records: seq<Value>)
      requires InPlace()
      ensures records == InputRecords(mem[..], buffers)
    {
      records := [];
      ghost var all := InputRecords(mem[..], buffers);
      for i := 0 to |buffers|
        invariant all == records + InputRecords(mem[..], buffers, i)
      {
        var b := buffers[i];
        if Input(b.flags) {
          var v := Record(Msg([[Num(b.sva)], [Data(mem[..][b.va..b.va + b.len])]], []));
          SeqAssoc(records, [v], InputRecords(mem[..], buffers, i + 1));
          records := records + [v];
        }
      }
      assert records + [] == records;
    }

    method Notify(d: Driver<()>, lost: bool)
      requires InPlace()
      modifies this, server, server.session
      ensures View() == ProxyClient.Notify(old(View()), d, lost)
    {
      PlainTablesFit();
      var records := CollectInputs();
      assert Typed(NOTIFY_REQUEST, NotifyRequest(mem[..], Client()));
      var request := Msg([[Num(id)],
                          if tci.Some? then [Data(mem[..][tci.value.va..tci.value.va + tci.value.len])] else [],
                          records], []);
      var data := Serialize(NOTIFY_REQUEST, request);
      if |data| >= TWO_31 || lost {
        up := false;
        return;
      }
      var reply := server.Notify(data, d);
      if Receive(EMPTY_MESSAGE, reply).Broken? {
        up := false;
      }
    }

    method FindSlotIndex(sva: U64) returns (i: nat)
      ensures i == FindSlot(buffers, sva)
    {
      i := 0;
      while i < |buffers| && buffers[i].sva != sva
        invariant i <= |buffers| && FindSlot(buffers, sva) == FindSlot(buffers, sva, i)
      {
        i := i + 1;
      }
    }

    /** memcpy into the application's memory. */
    method CopyIn(va: nat, data: bytes)
      requires InMemory(mem[..], va, |data|)
      modifies mem
      ensures mem[..] == Write(old(mem[..]), va, data)
    {
      for i := 0 to |data|
        invariant mem[..] == Write(old(mem[..]), va, data[..i])
      {
        assert data[..i + 1] == data[..i] + [data[i]];
        mem[va + i] := data[i];
      }
      assert data[..|data|] == data;
    }

    /** The loop of `waitNotification` over the buffers of the response, up to one that does not fit. */
    method CopyBuffers(vs: seq<Value>)
      requires InPlace()
      modifies mem
      ensures mem[..] == CopyBack(old(mem[..]), buffers, Patches(vs))
    {
      ghost var patches := Patches(vs);
      ghost var all := CopyBack(mem[..], buffers, patches);
      for i := 0 to |vs|
        invariant InPlace() && all == CopyBack(mem[..], buffers, patches[i..])
      {
        assert patches[i..][0] == AsPatch(vs[i]) && patches[i..][1..] == patches[i + 1..];
        var data := DataAt(Sub1(vs[i]), 1);
        var k := FindSlotIndex(SvaOf(vs[i]));
        if k == |buffers| || |data| != buffers[k].len {
          return;
        }
        CopyIn(buffers[k].va, data);
      }
    }

    /** What `waitNotification` does with the response. */
    method UpdateMemory(response: Msg)
      requires InPlace()
      modifies mem
      ensures mem[..] == ApplyResponse(old(mem[..]), Client(), response)
    {
      if Has(response, 0) && tci.Some? {
        if |DataAt(response, 0)| != tci.value.len {
          return;
        }
        CopyIn(tci.value.va, DataAt(response, 0));
      }
      CopyBuffers(NestedAt(response, 1));
    }

    /** One call of the loop: Broken if it does not get through. */
    method AskForNotification(slice: Slice, d: Option<Driver<()>>) returns (answer: CallResult)
      requires -TWO_31 <= slice.timeout < TWO_31
      ensures answer == WaitAnswer(id, server.View(), slice, d)
    {
      PlainTablesFit();
      NotifyTablesFit();
      var data := Serialize(WAIT_REQUEST, WaitRequest(id, slice));
      if |data| >= TWO_31 || d.None? {
        return Broken;
      }
      var reply := server.WaitNotification(data, d.value);
      answer := Receive(WAIT_RESPONSE, reply);
    }

    /** One round of the loop; `ds` are the outcomes from this round on. */
    method WaitOnce(timeout: int, left: int, d: Option<Driver<()>>, ghost ds: seq<Option<Driver<()>>>)
      returns (again: bool, remaining: int)
      requires InPlace() && left < TWO_31 && (timeout >= 0 ==> 0 <= left) && ds != [] && ds[0] == d
      modifies this, mem
      ensures again ==>
                && View() == old(View()) && InPlace() && remaining < TWO_31 && (timeout >= 0 ==> 0 <= remaining)
                && WaitLoop(View(), timeout, left, ds) == WaitLoop(View(), timeout, remaining, ds[1..])
      ensures !again ==> View() == WaitLoop(old(View()), timeout, left, ds)
    {
      WaitRound(View(), timeout, left, ds);
      var slice := NextSlice(timeout, left);
      var answer := AskForNotification(slice, d);
      if answer.Broken? {
        up := false;
        return false, left;
      }
      if answer.Done? || answer.errno != ETIME || !slice.partial {
        UpdateMemory(answer.response);
        return false, left;
      }
      return true, slice.left;
    }

    /** `waitNotification`: slices of at most a second, until one is not answered by a time-out. */
    method Wait(timeout: int, ds: seq<Option<Driver<()>>>)
      requires InPlace() && -TWO_31 <= timeout < TWO_31
      modifies this, mem
      ensures View() == ProxyClient.Wait(old(View()), timeout, ds)
    {
      var left := timeout;
      ghost var w := View();
      ghost var all := WaitLoop(w, timeout, left, ds);
      for i := 0 to |ds|
        invariant View() == w && InPlace() && left < TWO_31 && (timeout >= 0 ==> 0 <= left)
        invariant all == WaitLoop(w, timeout, left, ds[i..])
      {
        assert ds[i..][0] == ds[i] && ds[i..][1..] == ds[i + 1..];
        var again;
        again, left := WaitOnce(timeout, left, ds[i], ds[i..]);
        if !again {
          return;
        }
      }
    }

    /** `map`: the addresses the server gave are filled in, and the buffers join the session. */
    method Map(slots: seq<Slot>, d: Driver<seq<U64>>, lost: bool)
      requires InPlace()
      modifies this, server, server.session
      ensures View() == ProxyClient.Map(old(View()), slots, d, lost)
    {
      var chosen := Selected(slots);
      if exists j :: 0 <= j < |chosen| && chosen[j].len > BUFFER_LENGTH_MAX {
        return;
      }
      MapTablesFit();
      var data := Serialize(MAP_REQUEST, MapRequest(id, chosen));
      if |data| >= TWO_31 || lost {
        up := false;
        return;
      }
      var reply := server.Map(data, d);
      var answer := Receive(MAP_RESPONSE, reply);
      if answer.Broken? {
        up := false;
      } else if answer.Done? {
        var vs := NestedAt(answer.response, 0);
        if |vs| == |chosen| && forall j :: 0 <= j < |vs| ==> Has(Sub1(vs[j]), 0) {
          AddSlots(chosen, Svas(vs));
        }
      }
    }

    /** The loop that adds the buffers. */
    method AddSlots(chosen: seq<Slot>, svas: seq<U64>)
      requires |chosen| == |svas|
      modifies `buffers
      ensures buffers == old(buffers) + WithSvas(chosen, svas)
    {
      ghost var all := WithSvas(chosen, svas);
      assert buffers + all[..0] == buffers;
      for i := 0 to |chosen|
        invariant buffers == old(buffers) + all[..i]
      {
        assert all[..i + 1] == all[..i] + [all[i]];
        SeqAssoc(old(buffers), all[..i], [all[i]]);
        buffers := buffers + [chosen[i].(sva := svas[i])];
      }
      assert all[..|chosen|] == all;
    }

    /** `unmap`. */
    method Unmap(slots: seq<Slot>, d: Driver<()>, lost: bool)
      requires InPlace()
      modifies this, server, server.session
      ensures View() == ProxyClient.Unmap(old(View()), slots, d, lost)
    {
      var chosen := Selected(slots);
      if exists j :: 0 <= j < |chosen| && chosen[j].sva == 0 {
        return;
      }
      UnmapTablesFit();
      PlainTablesFit();
      var data := Serialize(UNMAP_REQUEST, UnmapRequest(id, chosen));
      if |data| >= TWO_31 || lost {
        up := false;
        return;
      }
      var reply := server.Unmap(data, d);
      var answer := Receive(EMPTY_MESSAGE, reply);
      if answer.Broken? {
        up := false;
      } else if answer.Done? {
        RemoveChosen(chosen);
      }
    }

    /** The loop that removes the buffers, up to one that is not found. */
    method RemoveChosen(chosen: seq<Slot>)
      modifies `buffers
      ensures buffers == RemoveSlots(old(buffers), chosen)
    {
      ghost var all := RemoveSlots(buffers, chosen);
      for i := 0 to |chosen|
        invariant all == RemoveSlots(buffers, chosen[i..])
      {
        assert chosen[i..][0] == chosen[i] && chosen[i..][1..] == chosen[i + 1..];
        var k := FindSlotIndex(chosen[i].sva);
        if k == |buffers| {
          return;
        }
        buffers := buffers[..k] + buffers[k + 1..];
      }
    }

    /** `closeSession`: unless it is refused, the connection is deleted. */
    method Close(d: Driver<()>, lost: bool)
      requires up
      modifies this, server
      ensures View() == ProxyClient.Close(old(View()), d, lost)
    {
      PlainTablesFit();
      var data := Serialize(CLOSE_SESSION_REQUEST, IdRequest(id));
      if |data| >= TWO_31 || lost {
        up := false;
        return;
      }
      var reply := server.CloseSession(data, d);
      if !Receive(EMPTY_MESSAGE, reply).Refused? {
        up := false;
      }
    }
  }

  /** The first connection with this session, or how many there are. */
  function IndexOf(cs: seq<ProxyConnection>, id: U32, i: nat := 0): (k: nat)
    requires i <= |cs|
    ensures i <= k <= |cs|
    ensures k < |cs| ==> cs[k].id == id
    ensures forall j :: i <= j < k ==> cs[j].id != id
    decreases |cs| - i
  {
    if i == |cs| || cs[i].id == id then i else IndexOf(cs, id, i + 1)
  }

  class SessionConnectionsList {
    var connections: seq<ProxyConnection>

    constructor ()
      ensures connections == []
    {
      connections := [];
    }

    method FindConnection(id: U32) returns (c: ProxyConnection?)
      ensures c == null <==> forall j :: 0 <= j < |connections| ==> connections[j].id != id
      ensures c != null ==> c in connections && c.id == id && c == connections[IndexOf(connections, id)]
    {
      var i := 0;
      while i < |connections|
        invariant i <= |connections| && IndexOf(connections, id) == IndexOf(connections, id, i)
        invariant forall j :: 0 <= j < i ==> connections[j].id != id
      {
        if connections[i].id == id {
          return connections[i];
        }
        i := i + 1;
      }
      return null;
    }

    method DeleteConnection(id: U32) returns (ok: bool)
      modifies this
      ensures var i := IndexOf(old(connections), id);
              && ok == (i < |old(connections)|)
              && connections == if ok then old(connections)[..i] + old(connections)[i + 1..] else old(connections)
    {
      var i := 0;
      while i < |connections| && connections[i].id != id
        invariant i <= |connections| && IndexOf(connections, id) == IndexOf(connections, id, i)
      {
        i := i + 1;
      }
      ok := i < |connections|;
      if ok {
        connections := connections[..i] + connections[i + 1..];
      }
    }

    method PushBack(c: ProxyConnection)
      modifies this
      ensures connections == old(connections) + [c]
    {
      connections := connections + [c];
    }
  }
}
