/**
 Runs in which operations on one connection get in each other's way: maps whose buffers end up in different
 order at the two ends, a notify that is refused, and a wait that does not copy a buffer.
 */
module RaceExamples {
  import opened Wire
  import opened Message
  import opened Schemas
  import opened Ioctl
  import opened ProxyServer
  import opened ProxyClient
  import opened ProxyMirror
  import opened ProxyAnswers
  import opened ProxyLists
  import opened ProxyCallers
  import opened ProxyOverlap
  import opened ProxyRaces
  import opened ProxySerial

  lemma RunsThrough(s: State, a: seq<Event>, m: State, b: seq<Event>, n: State, c: seq<Event>, t: State)
    requires Runs(s, a, m) && Runs(m, b, n) && Runs(n, c, t)
    ensures Runs(s, a + b + c, t)
  {
    RunsOn(s, a, m, b, n);
    RunsOn(s, a + b, n, c, t);
  }

  /* ---------- Maps that cross ---------- */

  predicate Mappable(mem: bytes, b: Slot)
  {
    b.va != 0 && InMemory(mem, b.va, b.len) && b.len <= BUFFER_LENGTH_MAX && 1 <= b.flags <= 3
  }

  /** The map of one buffer served. */
  predicate OneMapped(s: State, t: State, c: nat, b: Slot, x: U64)
    requires s.Live? && s.server.Some?
  {
    && t.Live? && t.mem == s.mem && t.mutex == s.mutex && t.client == s.client
    && t.calls == s.calls[c := Adding([b.(sva := x)])]
    && t.server == Some(s.server.value.(buffers := s.server.value.buffers + [Buffer(x, b.flags, Zeros(b.len))]))
    && t.history.book.Keys == s.history.book.Keys + {x}
  }

  lemma ServedOneMap(s: State, c: nat, b: Slot, x: U64)
    requires s.Live? && s.server.Some? && c in s.calls && s.calls[c] == Mapping([b]) && 1 <= b.flags <= 3
    ensures OneMapped(s, ServeMap(s, c, Works([x]), false), c, b, x)
  {
    var slots, t := WithSvas([b], [x]), ServeMap(s, c, Works([x]), false);
    MapIs(s, c, Works([x]), false);
    assert slots == [b.(sva := x)];
    assert Allocated([b], [x]) == [Buffer(x, b.flags, Zeros(b.len))];
    BookedOne(s.history.book, slots[0]);
  }

  lemma BookedOne(book: map<U64, Entry>, b: Slot)
    ensures Booked(book, [b]) == book[b.sva := Entry(b.flags, b.len)]
  {
    assert [b][1..] == [];
  }

  lemma ServeOneMap(s: State, c: nat, b: Slot, x: U64) returns (t: State)
    requires s.Live? && s.server.Some? && c in s.calls && s.calls[c] == Mapping([b]) && 1 <= b.flags <= 3
    requires x !in s.history.book
    ensures Runs(s, [Serve(c, Fails(EINVAL), Works([x]), false)], t) && OneMapped(s, t, c, b, x)
  {
    t := ServeMap(s, c, Works([x]), false);
    ServedOneMap(s, c, b, x);
    RunOne(s, Serve(c, Fails(EINVAL), Works([x]), false));
  }

  lemma AddLast(s: State, c: nat)
    requires s.Live? && s.mutex.None? && c in s.calls && s.calls[c].Adding? && |s.calls[c].slots| == 1
    ensures Enabled(s, AddOne(c))
    ensures var t := Next(s, AddOne(c));
            && t.Live? && t.mem == s.mem && t.calls == s.calls - {c} && t.mutex.None? && t.server == s.server
            && t.client == s.client.(buffers := s.client.buffers + [s.calls[c].slots[0]])
  {
  }

  lemma AskBoth(s: State, a: Slot, b: Slot) returns (es: seq<Event>, t: State)
    requires Quiet(s) && Mappable(s.mem, a) && Mappable(s.mem, b)
    ensures Runs(s, es, t) && t == s.(calls := map[0 := Mapping([a]), 1 := Mapping([b])])
  {
    assert Selected([a]) == [a] && Selected([b]) == [b];
    es := [AskMap(0, [a]), AskMap(1, [b])];
    t := Next(Next(s, AskMap(0, [a])), AskMap(1, [b]));
    RunTwo(s, AskMap(0, [a]), AskMap(1, [b]));
  }

  lemma ServeBoth(s: State, a: Slot, b: Slot, x: U64, y: U64) returns (es: seq<Event>, t: State)
    requires s.Live? && s.server.Some? && s.calls == map[0 := Mapping([a]), 1 := Mapping([b])]
    requires 1 <= a.flags <= 3 && 1 <= b.flags <= 3 && x !in s.history.book && y !in s.history.book && x != y
    ensures Runs(s, es, t) && BothAdding(s, t, a, b, x, y)
  {
    var m := ServeOneMap(s, 0, a, x);
    t := ServeOneMap(m, 1, b, y);
    var serveA, serveB := Serve(0, Fails(EINVAL), Works([x]), false), Serve(1, Fails(EINVAL), Works([y]), false);
    RunsOn(s, [serveA], m, [serveB], t);
    es := [serveA] + [serveB];
    BothMapped(s, m, t, a, b, x, y);
  }

  predicate BothAdding(s: State, t: State, a: Slot, b: Slot, x: U64, y: U64)
    requires s.Live? && s.server.Some?
  {
    var bufferA, bufferB := Buffer(x, a.flags, Zeros(a.len)), Buffer(y, b.flags, Zeros(b.len));
    && t.Live? && t.mutex == s.mutex && t.client == s.client
    && t.calls == map[0 := Adding([a.(sva := x)]), 1 := Adding([b.(sva := y)])]
    && t.server == Some(s.server.value.(buffers := s.server.value.buffers + [bufferA, bufferB]))
  }

  lemma BothMapped(s: State, m: State, t: State, a: Slot, b: Slot, x: U64, y: U64)
    requires s.Live? && s.server.Some? && s.calls == map[0 := Mapping([a]), 1 := Mapping([b])]
    requires OneMapped(s, m, 0, a, x) && OneMapped(m, t, 1, b, y)
    ensures BothAdding(s, t, a, b, x, y)
  {
    var bufferA, bufferB := Buffer(x, a.flags, Zeros(a.len)), Buffer(y, b.flags, Zeros(b.len));
    assert s.server.value.buffers + [bufferA] + [bufferB] == s.server.value.buffers + [bufferA, bufferB];
    assert t.calls == map[0 := Adding([a.(sva := x)]), 1 := Adding([b.(sva := y)])];
  }

  lemma AddBoth(s: State, a: Slot, b: Slot) returns (es: seq<Event>, t: State)
    requires s.Live? && s.mutex.None? && s.calls == map[0 := Adding([a]), 1 := Adding([b])]
    ensures Runs(s, es, t) && Quiet(t) && t.server == s.server
    ensures t.client.buffers == s.client.buffers + [b, a]
  {
    AddLast(s, 1);
    var m := Next(s, AddOne(1));
    AddLast(m, 0);
    es, t := [AddOne(1), AddOne(0)], Next(m, AddOne(0));
    RunTwo(s, AddOne(1), AddOne(0));
    assert t.calls == map[];
  }

  /** Two callers have a map served, one after the other, and add their buffers the other way round: with
      no operation under way any more, the lists differ. */
  lemma MapsCross(mem: bytes, client: ClientSession, server: Session, a: Slot, b: Slot, x: U64, y: U64)
    returns (es: seq<Event>, t: State)
    requires Opened(mem, client, server) && Mappable(mem, a) && Mappable(mem, b) && x != y
    ensures Runs(Start(mem, client, server), es, t) && Quiet(t) && t.server.Some?
    ensures SlotSvas(t.client.buffers) == [y, x] && BufferSvas(t.server.value.buffers) == [x, y]
  {
    var s := Start(mem, client, server);
    var asks, s1 := AskBoth(s, a, b);
    var serves, s2 := ServeBoth(s1, a, b, x, y);
    var adds;
    adds, t := AddBoth(s2, a.(sva := x), b.(sva := y));
    RunsThrough(s, asks, s1, serves, s2, adds, t);
    es := asks + serves + adds;
  }

  /* ---------- A notify that is refused ---------- */

  lemma AskOneMap(s: State, b: Slot) returns (es: seq<Event>, t: State)
    requires Quiet(s) && Mappable(s.mem, b)
    ensures es == [AskMap(0, [b])] && Runs(s, es, t) && t == s.(calls := map[0 := Mapping([b])])
  {
    assert Selected([b]) == [b];
    es, t := [AskMap(0, [b])], Next(s, AskMap(0, [b]));
    RunOne(s, AskMap(0, [b]));
    assert s.calls[0 := Mapping([b])] == map[0 := Mapping([b])];
  }

  lemma AddOnly(s: State, b: Slot) returns (es: seq<Event>, t: State)
    requires s.Live? && s.mutex.None? && s.calls == map[0 := Adding([b])]
    ensures es == [AddOne(0)] && Runs(s, es, t) && Quiet(t) && t.mem == s.mem && t.server == s.server
    ensures t.client == s.client.(buffers := s.client.buffers + [b])
  {
    AddLast(s, 0);
    es, t := [AddOne(0)], Next(s, AddOne(0));
    RunOne(s, AddOne(0));
    assert t.calls == map[];
  }

  lemma MapOnly(s: State, b: Slot, x: U64) returns (es: seq<Event>, t: State)
    requires Quiet(s) && s.mutex.None? && s.server.Some? && Mappable(s.mem, b) && x !in s.history.book
    ensures es == [AskMap(0, [b])] + [Serve(0, Fails(EINVAL), Works([x]), false)] + [AddOne(0)]
    ensures Runs(s, es, t) && Quiet(t) && t.mem == s.mem && t.server.Some?
    ensures t.client == s.client.(buffers := s.client.buffers + [b.(sva := x)])
    ensures t.server.value.buffers == s.server.value.buffers + [Buffer(x, b.flags, Zeros(b.len))]
  {
    hide Runs;
    var ask, s1 := AskOneMap(s, b);
    var s2 := ServeOneMap(s1, 0, b, x);
    assert s2.calls == map[0 := Adding([b.(sva := x)])];
    var serve := [Serve(0, Fails(EINVAL), Works([x]), false)];
    var add;
    add, t := AddOnly(s2, b.(sva := x));
    RunsThrough(s, ask, s1, serve, s2, add, t);
    es := ask + serve + add;
  }

  /** From the opening of a session, one buffer is mapped. */
  lemma MapFromStart(mem: bytes, client: ClientSession, server: Session, b: Slot, x: U64)
    returns (es: seq<Event>, t: State)
    requires Opened(mem, client, server) && Mappable(mem, b)
    ensures es == [AskMap(0, [b])] + [Serve(0, Fails(EINVAL), Works([x]), false)] + [AddOne(0)]
    ensures Runs(Start(mem, client, server), es, t) && Quiet(t) && Inv(t) && t.mem == mem
    ensures t.client == client.(buffers := [b.(sva := x)]) && t.server.Some? && x in Kept(t)
  {
    var s := Start(mem, client, server);
    StartInv(mem, client, server);
    es, t := MapOnly(s, b, x);
    InvRuns(s, es, t);
    assert [] + [b.(sva := x)] == [b.(sva := x)];
    assert Buffer(x, b.flags, Zeros(b.len)) in t.server.value.buffers;
  }

  lemma UnmapOne(s: State, c: nat, b: Slot)
    requires s.Live? && s.server.Some? && Ends(s) && c in s.calls && s.calls[c] == Unmapping([b])
    requires b.sva in Kept(s)
    ensures Unmapped(s, ServeUnmap(s, c, Works(()), false), c)
  {
    var bs := s.server.value.buffers;
    assert SlotSvas([b]) == [b.sva] && AsSet([b.sva]) == {b.sva};
    AllFoundIsListed(bs, [b.sva]);
    RemoveAllWhen(bs, [b.sva]);
    NoMoreThanListed(bs, [b.sva]);
    UnmapIs(s, c, Works(()), false);
  }

  /** Both requests have been built. */
  lemma AskNotifyAndUnmap(s: State, b: Slot) returns (es: seq<Event>, t: State)
    requires Quiet(s) && Inv(s) && b.va != 0 && b.sva != 0
    ensures Runs(s, es, t) && Inv(t) && t.Live? && t.client == s.client && t.server == s.server && t.mem == s.mem
    ensures t.calls.Keys == {0, 1} && t.calls[1] == Unmapping([b])
    ensures t.calls[0] == Notifying(Serialize(NOTIFY_REQUEST, NotifyRequest(s.mem, s.client)), s.mem)
    ensures es == [AskNotify(0), AskUnmap(1, [b])]
  {
    QuietMutex(s);
    assert Selected([b]) == [b];
    es := [AskNotify(0), AskUnmap(1, [b])];
    t := Next(Next(s, AskNotify(0)), AskUnmap(1, [b]));
    RunTwo(s, AskNotify(0), AskUnmap(1, [b]));
    InvRuns(s, es, t);
  }

  lemma ServedOutOfTurn(m: State, b: Slot) returns (es: seq<Event>)
    requires Inv(m) && m.Live? && m.server.Some? && m.calls.Keys == {0, 1} && m.calls[1] == Unmapping([b])
    requires m.calls[0].Notifying? && |m.calls[0].data| < TWO_31
    requires b in m.client.buffers && Input(b.flags) && b.sva in Kept(m)
    ensures Runs(m, es, Gone(m.mem))
    ensures es == [Serve(1, Works(()), Fails(EINVAL), false), Serve(0, Works(()), Fails(EINVAL), false)]
  {
    var unmap, u := UnmapServed(m, b);
    var notify := NotifyServed(u, b);
    RunsOn(m, unmap, u, notify, Gone(m.mem));
    es := unmap + notify;
  }

  /** A session is opened and an INPUT buffer mapped. A caller builds a notify with it; before it is served,
      another caller's unmap of that buffer is. The server knows the buffer no longer, and the client gives
      the connection up: nothing has been lost, and the driver has accepted everything. */
  lemma RefusedNotify(mem: bytes, client: ClientSession, server: Session, b: Slot, x: U64)
    returns (maps: seq<Event>, asks: seq<Event>, serves: seq<Event>)
    requires Opened(mem, client, server) && Mappable(mem, b) && Input(b.flags) && x != 0
    requires var mapped := client.(buffers := [b.(sva := x)]);
             SessionInMemory(mem, mapped) && |Serialize(NOTIFY_REQUEST, NotifyRequest(mem, mapped))| < TWO_31
    ensures Runs(Start(mem, client, server), maps + (asks + serves), Gone(mem))
    ensures maps == [AskMap(0, [b])] + [Serve(0, Fails(EINVAL), Works([x]), false)] + [AddOne(0)]
    ensures asks == [AskNotify(0), AskUnmap(1, [b.(sva := x)])]
    ensures serves == [Serve(1, Works(()), Fails(EINVAL), false), Serve(0, Works(()), Fails(EINVAL), false)]
  {
    var t;
    maps, t := MapFromStart(mem, client, server, b, x);
    asks, serves := RefusedFrom(t, b.(sva := x));
    RunsOn(Start(mem, client, server), maps, t, asks + serves, Gone(mem));
  }

  lemma RefusedFrom(s: State, b: Slot) returns (asks: seq<Event>, serves: seq<Event>)
    requires Quiet(s) && Inv(s) && s.server.Some? && b in s.client.buffers && Input(b.flags)
    requires b.va != 0 && b.sva != 0 && b.sva in Kept(s)
    requires |Serialize(NOTIFY_REQUEST, NotifyRequest(s.mem, s.client))| < TWO_31
    ensures Runs(s, asks + serves, Gone(s.mem))
    ensures asks == [AskNotify(0), AskUnmap(1, [b])]
    ensures serves == [Serve(1, Works(()), Fails(EINVAL), false), Serve(0, Works(()), Fails(EINVAL), false)]
  {
    var m;
    asks, m := AskNotifyAndUnmap(s, b);
    serves := ServedOutOfTurn(m, b);
    RunsOn(s, asks, m, serves, Gone(s.mem));
  }

  lemma UnmapRun(m: State, b: Slot) returns (es: seq<Event>, u: State)
    requires m.Live? && m.server.Some? && Ends(m) && 1 in m.calls && m.calls[1] == Unmapping([b])
    requires b.sva in Kept(m)
    ensures es == [Serve(1, Works(()), Fails(EINVAL), false)]
    ensures Runs(m, es, u) && Unmapped(m, u, 1)
  {
    es, u := [Serve(1, Works(()), Fails(EINVAL), false)], ServeUnmap(m, 1, Works(()), false);
    UnmapOne(m, 1, b);
    RunOne(m, Serve(1, Works(()), Fails(EINVAL), false));
  }

  lemma UnmapServed(m: State, b: Slot) returns (es: seq<Event>, u: State)
    requires Inv(m) && m.Live? && m.server.Some? && m.calls.Keys == {0, 1} && m.calls[1] == Unmapping([b])
    requires b.sva in Kept(m)
    ensures es == [Serve(1, Works(()), Fails(EINVAL), false)]
    ensures Runs(m, es, u) && Inv(u) && u.Live? && u.mem == m.mem && u.client == m.client
    ensures 0 in u.calls && u.calls[0] == m.calls[0] && b.sva in u.history.leaving
  {
    es, u := UnmapRun(m, b);
    InvRuns(m, es, u);
    assert SlotSvas([b])[0] == b.sva && b.sva in AsSet(SlotSvas([b]));
  }

  lemma NotifyServed(u: State, b: Slot) returns (es: seq<Event>)
    requires Inv(u) && u.Live? && 0 in u.calls && u.calls[0].Notifying? && |u.calls[0].data| < TWO_31
    requires b in u.client.buffers && Input(b.flags) && b.sva in u.history.leaving
    ensures es == [Serve(0, Works(()), Fails(EINVAL), false)] && Runs(u, es, Gone(u.mem))
  {
    RefusedNow(u, b);
    es := [Serve(0, Works(()), Fails(EINVAL), false)];
    RunOne(u, Serve(0, Works(()), Fails(EINVAL), false));
  }

  lemma RefusedNow(u: State, b: Slot)
    requires Inv(u) && u.Live? && 0 in u.calls && u.calls[0].Notifying? && |u.calls[0].data| < TWO_31
    requires b in u.client.buffers && Input(b.flags)
    requires b.sva in u.history.leaving
    ensures ServeNotify(u, 0, Works(()), false) == Gone(u.mem)
  {
    assert b.sva in Inputs(u.client.buffers) && b.sva in u.history.leaving;
    assert Runs(u, [], u);
    NotifyRefusedWhen(u, [], u, 0, Works(()));
  }

  /* ---------- A wait that does not copy ---------- */

  /** A session is opened; a caller asks to map an OUTPUT buffer and another waits. The map is served, and its
      buffer has not yet been added when the wait is answered with it: the wait cannot copy it. */
  lemma MissedWait(mem: bytes, client: ClientSession, server: Session, b: Slot, x: U64)
    returns (asks: seq<Event>, serves: seq<Event>, t: State)
    requires Opened(mem, client, server) && Mappable(mem, b) && Output(b.flags) && server.tci.None?
    requires var after := server.(buffers := [Buffer(x, b.flags, Zeros(b.len))]);
             |Serialize(WAIT_RESPONSE, WaitResponse(after))| < TWO_31
    ensures Runs(Start(mem, client, server), asks + serves, t) && Enabled(t, CopyOne(1)) && !Fits(t, 1)
    ensures asks == [AskMap(0, [b]), AskWait(1, -1)] && t.calls[1] == Copying(None, [Patch(x, Zeros(b.len))])
    ensures serves == [Serve(0, Fails(EINVAL), Works([x]), false), Serve(1, Works(()), Fails(EINVAL), false)]
  {
    var s := Start(mem, client, server);
    StartInv(mem, client, server);
    var m;
    asks, m := AskMapAndWait(s, b);
    InvRuns(s, asks, m);
    serves, t := MissedFrom(m, b, x);
    RunsOn(s, asks, m, serves, t);
  }

  lemma AskMapAndWait(s: State, b: Slot) returns (es: seq<Event>, t: State)
    requires Quiet(s) && Mappable(s.mem, b)
    ensures es == [AskMap(0, [b]), AskWait(1, -1)] && Runs(s, es, t)
    ensures t == s.(calls := map[0 := Mapping([b]), 1 := Waiting(-1, 0)])
  {
    assert Selected([b]) == [b];
    es, t := [AskMap(0, [b]), AskWait(1, -1)], Next(Next(s, AskMap(0, [b])), AskWait(1, -1));
    RunTwo(s, AskMap(0, [b]), AskWait(1, -1));
  }

  lemma MissedFrom(s: State, b: Slot, x: U64) returns (es: seq<Event>, t: State)
    requires s.Live? && Inv(s) && s.server.Some? && s.server.value.tci.None? && s.server.value.buffers == []
    requires s.mutex.None? && s.calls == map[0 := Mapping([b]), 1 := Waiting(-1, 0)]
    requires 1 <= b.flags <= 3 && Output(b.flags) && x !in s.history.book && x !in Listed(s)
    requires var after := s.server.value.(buffers := [Buffer(x, b.flags, Zeros(b.len))]);
             |Serialize(WAIT_RESPONSE, WaitResponse(after))| < TWO_31
    ensures Runs(s, es, t) && Enabled(t, CopyOne(1)) && !Fits(t, 1)
    ensures t.calls[1] == Copying(None, [Patch(x, Zeros(b.len))])
    ensures es == [Serve(0, Fails(EINVAL), Works([x]), false), Serve(1, Works(()), Fails(EINVAL), false)]
  {
    hide Runs;
    var m := ServeOneMap(s, 0, b, x);
    assert m.server.value.buffers == [Buffer(x, b.flags, Zeros(b.len))];
    var wait;
    wait, t := WaitServed(m, b, x);
    RunsOn(s, [Serve(0, Fails(EINVAL), Works([x]), false)], m, wait, t);
    es := [Serve(0, Fails(EINVAL), Works([x]), false)] + wait;
    NotCopied(t, b, x);
  }

  lemma WaitServed(m: State, b: Slot, x: U64) returns (es: seq<Event>, t: State)
    requires m.Live? && m.server.Some? && m.server.value.tci.None? && SameTci(m.client.tci, None)
    requires m.server.value.buffers == [Buffer(x, b.flags, Zeros(b.len))] && Output(b.flags)
    requires 1 in m.calls && m.calls[1] == Waiting(-1, 0)
    requires |Serialize(WAIT_RESPONSE, WaitResponse(m.server.value))| < TWO_31
    ensures es == [Serve(1, Works(()), Fails(EINVAL), false)] && Runs(m, es, t)
    ensures t == m.(calls := m.calls[1 := Copying(None, [Patch(x, Zeros(b.len))])])
  {
    t := WaitAnsweredBy(m, b, x);
    es := [Serve(1, Works(()), Fails(EINVAL), false)];
    RunOne(m, Serve(1, Works(()), Fails(EINVAL), false));
  }

  lemma NotCopied(t: State, b: Slot, x: U64)
    requires t.Live? && SessionInMemory(t.mem, t.client) && t.mutex.None? && x !in Listed(t)
    requires 1 in t.calls && t.calls[1] == Copying(None, [Patch(x, Zeros(b.len))])
    ensures Enabled(t, CopyOne(1)) && !Fits(t, 1)
  {
    ListedWhen(t.client.buffers, x);
  }

  lemma WaitAnsweredBy(m: State, b: Slot, x: U64) returns (t: State)
    requires m.Live? && m.server.Some? && m.server.value.tci.None? && SameTci(m.client.tci, None)
    requires m.server.value.buffers == [Buffer(x, b.flags, Zeros(b.len))] && Output(b.flags)
    requires 1 in m.calls && m.calls[1] == Waiting(-1, 0)
    requires |Serialize(WAIT_RESPONSE, WaitResponse(m.server.value))| < TWO_31
    ensures t == ServeWait(m, 1, Works(()), false)
    ensures t == m.(calls := m.calls[1 := Copying(None, [Patch(x, Zeros(b.len))])])
  {
    t := ServeWait(m, 1, Works(()), false);
    OnePatch(m.server.value.buffers, x, b);
    WaitIs(m, 1, Works(()), false);
  }

  lemma OnePatch(bs: seq<Buffer>, x: U64, b: Slot)
    requires bs == [Buffer(x, b.flags, Zeros(b.len))] && Output(b.flags)
    ensures Patches(OutputRecords(bs)) == [Patch(x, Zeros(b.len))]
  {
    var v := Record(Msg([[Num(x)], [Data(Zeros(b.len))]], []));
    assert OutputRecords(bs, 1) == [] && OutputRecords(bs, 0) == [v] + [] && [v] + [] == [v];
    assert AsPatch(v) == Patch(x, Zeros(b.len));
  }
}
