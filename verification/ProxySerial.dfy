/**
 Operations that do not overlap. An operation whose steps follow one another without a step of another
 caller in between does what ProxyRuns.dfy says in one step, so the runs there are the runs of
 ProxyCallers.dfy in which nothing overlaps.
 */
module ProxySerial {
  import opened Wire
  import opened Message
  import opened Canonical
  import opened Schemas
  import opened Ioctl
  import opened ProxyServer
  import opened ProxyClient
  import opened ProxyMirror
  import opened ProxyAnswers
  import opened ProxyLists
  import opened ProxyCallers
  import opened ProxyOverlap
  import opened ProxyRaces
  import PR = ProxyRuns

  function View(s: State): World
  {
    match s
    case Gone(mem) => Down(mem)
    case Live(mem, client, server, _, _, _) => Up(mem, client, server)
  }

  lemma {:induction false} RunsOn(s: State, a: seq<Event>, m: State, b: seq<Event>, t: State)
    requires Runs(s, a, m) && Runs(m, b, t)
    ensures Runs(s, a + b, t)
    decreases |a|
  {
    if a == [] {
      assert a + b == b;
    } else {
      RunsOn(Next(s, a[0]), a[1..], m, b, t);
      assert (a + b)[1..] == a[1..] + b;
    }
  }

  lemma RunOne(s: State, e: Event)
    requires Enabled(s, e)
    ensures Runs(s, [e], Next(s, e))
  {
    assert [e][1..] == [];
    assert Runs(Next(s, e), [], Next(s, e));
  }

  lemma RunTwo(s: State, e: Event, f: Event)
    requires Enabled(s, e) && Enabled(Next(s, e), f)
    ensures Runs(s, [e, f], Next(Next(s, e), f))
  {
    RunOne(s, e);
    RunOne(Next(s, e), f);
    RunsOn(s, [e], Next(s, e), [f], Next(Next(s, e), f));
    assert [e] + [f] == [e, f];
  }

  lemma RunServeWait(s: State, c: nat, d: Driver<()>, lost: bool)
    requires s.Live? && c in s.calls && s.calls[c].Waiting?
    ensures Runs(s, [Serve(c, d, Fails(EINVAL), lost)], ServeWait(s, c, d, lost))
  {
    RunOne(s, Serve(c, d, Fails(EINVAL), lost));
  }

  /** A request to close, and its exchange. */
  lemma RunClose(s: State, c: nat, d: Driver<()>, lost: bool)
    requires Quiet(s)
    ensures Runs(s, [AskClose(c), Serve(c, d, Fails(EINVAL), lost)],
                 ServeClose(s.(calls := map[c := Closing]), c, d, lost))
  {
    assert s.calls[c := Closing] == map[c := Closing];
    RunTwo(s, AskClose(c), Serve(c, d, Fails(EINVAL), lost));
  }

  lemma RunMap(s: State, c: nat, slots: seq<Slot>, d: Driver<seq<U64>>, lost: bool)
    requires Quiet(s) && BuffersInMemory(s.mem, Selected(slots)) && (d.Works? ==> New(s.history, d.value))
    requires !PR.TooLong(Selected(slots))
    ensures Runs(s, [AskMap(c, slots), Serve(c, Fails(EINVAL), d, lost)],
                 ServeMap(s.(calls := map[c := Mapping(Selected(slots))]), c, d, lost))
  {
    assert s.calls[c := Mapping(Selected(slots))] == map[c := Mapping(Selected(slots))];
    RunTwo(s, AskMap(c, slots), Serve(c, Fails(EINVAL), d, lost));
  }

  lemma QuietMutex(s: State)
    requires Quiet(s) && Inv(s)
    ensures s.mutex.None? && SessionInMemory(s.mem, s.client)
  {
  }

  lemma NotifyAlone(s: State, c: nat, d: Driver<()>, lost: bool) returns (es: seq<Event>, t: State)
    requires Quiet(s) && Inv(s)
    ensures SessionInMemory(s.mem, s.client)
    ensures Runs(s, es, t) && (t.Gone? || Quiet(t))
    ensures View(t) == ProxyClient.Notify(View(s), d, lost)
  {
    QuietMutex(s);
    var ask, serve := AskNotify(c), Serve(c, d, Fails(EINVAL), lost);
    var m := Next(s, ask);
    t := Next(m, serve);
    es := [ask, serve];
    RunTwo(s, ask, serve);
    assert t.Live? ==> t.calls == map[];
  }

  lemma CloseAlone(s: State, c: nat, d: Driver<()>, lost: bool) returns (es: seq<Event>, t: State)
    requires Quiet(s) && Inv(s)
    ensures Runs(s, es, t) && (t.Gone? || Quiet(t))
    ensures View(t) == ProxyClient.Close(View(s), d, lost)
  {
    t := ServeClose(s.(calls := map[c := Closing]), c, d, lost);
    es := [AskClose(c), Serve(c, d, Fails(EINVAL), lost)];
    RunClose(s, c, d, lost);
    if t.Live? && c in t.calls {
      es, t := ThenDelete(s, es, t, c);
    } else {
      assert t.Live? ==> t.calls == map[];
    }
  }

  lemma ThenDelete(s: State, es: seq<Event>, t: State, c: nat) returns (fs: seq<Event>, u: State)
    requires Runs(s, es, t) && t.Live? && c in t.calls && t.calls[c].Deleting?
    ensures Runs(s, fs, u) && u == Gone(t.mem)
  {
    RunOne(t, Delete(c));
    RunsOn(s, es, t, [Delete(c)], Gone(t.mem));
    fs, u := es + [Delete(c)], Gone(t.mem);
  }

  /** A single caller adds its buffers one after the other. */
  lemma {:induction false} AddAll(s: State, c: nat, slots: seq<Slot>) returns (es: seq<Event>, t: State)
    requires s.Live? && s.calls == map[c := Adding(slots)] && slots != [] && s.mutex.None?
    ensures Runs(s, es, t) && Quiet(t)
    ensures View(t) == Up(s.mem, s.client.(buffers := s.client.buffers + slots), s.server)
    decreases |slots|
  {
    var n := Next(s, AddOne(c));
    RunOne(s, AddOne(c));
    assert s.client.buffers + slots == s.client.buffers + [slots[0]] + slots[1..];
    if |slots| == 1 {
      es, t := [AddOne(c)], n;
      assert t.calls == map[];
    } else {
      assert n.calls == map[c := Adding(slots[1..])];
      es, t := AddAll(n, c, slots[1..]);
      RunsOn(s, [AddOne(c)], n, es, t);
      es := [AddOne(c)] + es;
    }
  }

  lemma {:induction false} RemoveFirst(bs: seq<Slot>, slots: seq<Slot>)
    requires slots != []
    ensures var k := FindSlot(bs, slots[0].sva);
            RemoveSlots(bs, slots) == if k == |bs| then bs else RemoveSlots(bs[..k] + bs[k + 1..], slots[1..])
  {
  }

  lemma {:induction false} TakeOffOnce(s: State, c: nat, slots: seq<Slot>)
    requires s.Live? && s.calls == map[c := Removing(slots)] && slots != []
    ensures var t := TakeOff(s, c);
            && t.Live? && t.mem == s.mem && t.server == s.server && t.mutex == s.mutex
            && RemoveSlots(s.client.buffers, slots)
               == (if t.calls == map[] then t.client.buffers else RemoveSlots(t.client.buffers, slots[1..]))
            && t.client == s.client.(buffers := t.client.buffers)
            && (t.calls == map[] || (t.calls == map[c := Removing(slots[1..])] && slots[1..] != []))
  {
    var t := TakeOff(s, c);
    RemoveFirst(s.client.buffers, slots);
    if FindSlot(s.client.buffers, slots[0].sva) == |s.client.buffers| || slots[1..] == [] {
      assert t.calls == map[];
    }
  }

  /** A single caller takes its buffers off, up to one that is not there. */
  lemma {:induction false} TakeOffAll(s: State, c: nat, slots: seq<Slot>) returns (es: seq<Event>, t: State)
    requires s.Live? && s.calls == map[c := Removing(slots)] && slots != [] && s.mutex.None?
    ensures Runs(s, es, t) && Quiet(t)
    ensures View(t) == Up(s.mem, s.client.(buffers := RemoveSlots(s.client.buffers, slots)), s.server)
    decreases |slots|
  {
    var n := TakeOff(s, c);
    RunOne(s, RemoveOne(c));
    TakeOffOnce(s, c, slots);
    if n.calls == map[] {
      es, t := [RemoveOne(c)], n;
    } else {
      es, t := TakeOffAll(n, c, slots[1..]);
      RunsOn(s, [RemoveOne(c)], n, es, t);
      es := [RemoveOne(c)] + es;
    }
  }

  /** A single caller copies a response back, up to a part that does not fit. */
  lemma {:induction false} CopyAll(s: State, c: nat, patches: seq<Patch>) returns (es: seq<Event>, t: State)
    requires s.Live? && s.calls == map[c := Copying(None, patches)] && patches != [] && s.mutex.None?
    requires SessionInMemory(s.mem, s.client)
    ensures Runs(s, es, t) && Quiet(t)
    ensures View(t) == Up(CopyBack(s.mem, s.client.buffers, patches), s.client, s.server)
    decreases |patches|
  {
    var n := Next(s, CopyOne(c));
    RunOne(s, CopyOne(c));
    if c !in n.calls {
      es, t := [CopyOne(c)], n;
      assert t.calls == map[];
      assert |patches| == 1 ==> patches[1..] == [];
    } else {
      assert n.calls == map[c := Copying(None, patches[1..])];
      es, t := CopyAll(n, c, patches[1..]);
      RunsOn(s, [CopyOne(c)], n, es, t);
      es := [CopyOne(c)] + es;
    }
  }

  lemma MapReplyAlone(s: State, m: State, c: nat, chosen: seq<Slot>, o: Outcome)
    requires Quiet(s) && m == s.(calls := map[c := Mapping(chosen)])
    ensures var t, w := MapReply(m, c, o), AfterMap(View(s), chosen, o);
            if t.Live? && c in t.calls then
              && t.calls[c].Adding? && t.calls == map[c := t.calls[c]] && t.calls[c].slots != [] && t.mutex == s.mutex
              && w == Up(t.mem, t.client.(buffers := t.client.buffers + t.calls[c].slots), t.server)
            else View(t) == w && (t.Gone? || Quiet(t))
  {
    var t := MapReply(m, c, o);
    if t.Live? && c !in t.calls {
      assert t.calls == map[];
      assert t.client.buffers + [] == t.client.buffers;
    }
  }

  lemma ThenAdd(s: State, es: seq<Event>, t: State, c: nat) returns (fs: seq<Event>, u: State)
    requires Runs(s, es, t) && t.Live? && t.mutex.None? && c in t.calls && t.calls == map[c := t.calls[c]]
    requires t.calls[c].Adding? && t.calls[c].slots != []
    ensures Runs(s, fs, u) && Quiet(u)
    ensures View(u) == Up(t.mem, t.client.(buffers := t.client.buffers + t.calls[c].slots), t.server)
  {
    var more;
    more, u := AddAll(t, c, t.calls[c].slots);
    RunsOn(s, es, t, more, u);
    fs := es + more;
  }

  lemma MapAlone(s: State, c: nat, slots: seq<Slot>, d: Driver<seq<U64>>, lost: bool)
    returns (es: seq<Event>, t: State)
    requires Quiet(s) && Inv(s) && BuffersInMemory(s.mem, Selected(slots)) && (d.Works? ==> New(s.history, d.value))
    ensures Runs(s, es, t) && (t.Gone? || Quiet(t))
    ensures View(t) == ProxyClient.Map(View(s), slots, d, lost)
  {
    if PR.TooLong(Selected(slots)) {
      es, t := [AskMap(c, slots)], s;
      RunOne(s, AskMap(c, slots));
    } else {
      var m := s.(calls := map[c := Mapping(Selected(slots))]);
      QuietMutex(s);
      es, t := [AskMap(c, slots), Serve(c, Fails(EINVAL), d, lost)], ServeMap(m, c, d, lost);
      RunMap(s, c, slots, d, lost);
      MapTablesFit();
      var request := MapRequest(s.client.id, Selected(slots));
      if Sends(MAP_REQUEST, request, lost) {
        MapReplyAlone(s, m, c, Selected(slots), ProxyServer.Map(s.server, Serialize(MAP_REQUEST, request), d));
        if t.Live? && c in t.calls {
          es, t := ThenAdd(s, es, t, c);
        }
      }
    }
  }

  lemma UnmapReplyAlone(s: State, m: State, c: nat, chosen: seq<Slot>, o: Outcome)
    requires Quiet(s) && m == s.(calls := map[c := Unmapping(chosen)])
    ensures var t, w := UnmapReply(m, c, o), AfterUnmap(View(s), chosen, o);
            if t.Live? && c in t.calls then
              && t.calls == map[c := Removing(chosen)] && chosen != [] && t.mutex == s.mutex
              && w == Up(t.mem, t.client.(buffers := RemoveSlots(t.client.buffers, chosen)), t.server)
            else View(t) == w && (t.Gone? || Quiet(t))
  {
    var t := UnmapReply(m, c, o);
    if t.Live? && c !in t.calls {
      assert t.calls == map[];
    }
  }

  lemma {:induction false} UnmapAlone(s: State, c: nat, slots: seq<Slot>, d: Driver<()>, lost: bool)
    returns (es: seq<Event>, t: State)
    requires Quiet(s) && Inv(s)
    ensures Runs(s, es, t) && (t.Gone? || Quiet(t))
    ensures View(t) == ProxyClient.Unmap(View(s), slots, d, lost)
  {
    var ask, serve := AskUnmap(c, slots), Serve(c, d, Fails(EINVAL), lost);
    var m := Next(s, ask);
    es, t := [ask], m;
    RunOne(s, ask);
    if m != s {
      QuietMutex(s);
      es, t := [ask, serve], Next(m, serve);
      RunTwo(s, ask, serve);
      UnmapTablesFit();
      var request := UnmapRequest(s.client.id, Selected(slots));
      if Sends(UNMAP_REQUEST, request, lost) {
        UnmapReplyAlone(s, m, c, Selected(slots), ProxyServer.Unmap(s.server, Serialize(UNMAP_REQUEST, request), d));
        if t.Live? && c in t.calls {
          var more, u := TakeOffAll(t, c, Selected(slots));
          RunsOn(s, es, t, more, u);
          es, t := es + more, u;
        }
      }
    }
  }

  /** A single caller copies a whole response back: the TCI, which fits, and the buffers. */
  lemma CopyAlone(s: State, c: nat, tci: Option<bytes>, patches: seq<Patch>) returns (es: seq<Event>, t: State)
    requires s.Live? && s.mutex.None? && SessionInMemory(s.mem, s.client)
    requires s.calls == map[c := Copying(tci, patches)] && (tci.Some? || patches != [])
    requires tci.Some? ==> s.client.tci.Some? && |tci.value| == s.client.tci.value.len
    ensures Runs(s, es, t) && Quiet(t)
    ensures var m := if tci.Some? then Write(s.mem, s.client.tci.value.va, tci.value) else s.mem;
            View(t) == Up(CopyBack(m, s.client.buffers, patches), s.client, s.server)
  {
    if tci.None? {
      es, t := CopyAll(s, c, patches);
    } else {
      var n := Next(s, CopyOne(c));
      RunOne(s, CopyOne(c));
      if patches == [] {
        es, t := [CopyOne(c)], n;
        assert n.calls == map[];
      } else {
        assert n.calls == map[c := Copying(None, patches)];
        es, t := CopyAll(n, c, patches);
        RunsOn(s, [CopyOne(c)], n, es, t);
        es := [CopyOne(c)] + es;
      }
    }
  }

  /** The time left does not matter for an infinite wait. */
  lemma {:induction false} InfiniteWait(w: World, timeout: int, left: int, other: int, ds: seq<Option<Driver<()>>>)
    requires w.Up? && Mirror(w) && timeout < 0 && left < TWO_31 && other < TWO_31
    ensures WaitLoop(w, timeout, left, ds) == WaitLoop(w, timeout, other, ds)
    ensures PR.StillWaiting(timeout, left, ds) == PR.StillWaiting(timeout, other, ds)
    decreases |ds|
  {
    if ds != [] {
      PR.WaitRound(w, timeout, left, ds);
      PR.WaitRound(w, timeout, other, ds);
      InfiniteWait(w, timeout, left, other, ds[1..]);
    }
  }

  /** The last request of a wait has been answered. */
  lemma WaitAnswered(s: State, t: State, c: nat) returns (es: seq<Event>, u: State)
    requires s.Live? && s.server.Some? && Mirror(View(s)) && s.mutex.None? && s.calls.Keys == {c}
    requires t == After(s, c, Copying(s.server.value.tci, Patches(OutputRecords(s.server.value.buffers))))
    ensures Runs(t, es, u) && Quiet(u) && View(u) == PR.AfterWait(View(s))
  {
    var tci, patches := s.server.value.tci, Patches(OutputRecords(s.server.value.buffers));
    if tci.None? && patches == [] {
      es, u := [], t;
      assert t.calls == map[];
    } else {
      assert t.calls == map[c := Copying(tci, patches)];
      es, u := CopyAlone(t, c, tci, patches);
    }
  }

  lemma {:induction false} AskedOnce(s: State, c: nat, timeout: int, left: nat, d: Driver<()>, lost: bool)
    returns (es: seq<Event>, t: State)
    requires s.Live? && s.server.Some? && SameTci(s.client.tci, s.server.value.tci)
    requires s.calls == map[c := Waiting(timeout, left)]
    ensures Runs(s, es, t)
    ensures var slice := WaitSlice(timeout, left);
            var effect := WaitEffect(s.server.value, slice, d);
            if lost || effect.Breaks? then t == Gone(s.mem)
            else if effect.Refuses? then t == s.(calls := map[c := Waiting(timeout, slice.left)])
            else t == After(s, c, Copying(s.server.value.tci, Patches(OutputRecords(s.server.value.buffers))))
  {
    es, t := [Serve(c, d, Fails(EINVAL), lost)], ServeWait(s, c, d, lost);
    RunServeWait(s, c, d, lost);
    WaitIs(s, c, d, lost);
  }

  /** One request of a wait: it is lost, or another has to be made, or the response is copied back. */
  lemma WaitOnce(s: State, c: nat, timeout: int, left: nat, d: Driver<()>, lost: bool)
    returns (es: seq<Event>, t: State)
    requires s.Live? && s.server.Some? && Mirror(View(s)) && s.mutex.None?
    requires s.calls == map[c := Waiting(timeout, left)]
    ensures Runs(s, es, t)
    ensures var slice := WaitSlice(timeout, left);
            var effect := WaitEffect(s.server.value, slice, d);
            if lost || effect.Breaks? then t == Gone(s.mem)
            else if effect.Refuses? then t == s.(calls := map[c := Waiting(timeout, slice.left)])
            else Quiet(t) && View(t) == PR.AfterWait(View(s))
  {
    es, t := AskedOnce(s, c, timeout, left, d, lost);
    if WaitEffect(s.server.value, WaitSlice(timeout, left), d).Does? && !lost {
      es, t := ThenCopy(s, es, t, c);
    }
  }

  lemma ThenCopy(s: State, es: seq<Event>, t: State, c: nat) returns (fs: seq<Event>, u: State)
    requires s.Live? && s.server.Some? && Mirror(View(s)) && s.mutex.None? && s.calls.Keys == {c}
    requires Runs(s, es, t)
    requires t == After(s, c, Copying(s.server.value.tci, Patches(OutputRecords(s.server.value.buffers))))
    ensures Runs(s, fs, u) && Quiet(u) && View(u) == PR.AfterWait(View(s))
  {
    var more;
    more, u := WaitAnswered(s, t, c);
    RunsOn(s, es, t, more, u);
    fs := es + more;
  }

  /** The first round of a wait: it ends the wait, or the wait goes on with the time that is left. */
  lemma {:induction false} FirstRound(s: State, c: nat, timeout: int, left: nat, ds: seq<Option<Driver<()>>>)
    returns (es: seq<Event>, t: State, over: bool)
    requires s.Live? && s.server.Some? && Mirror(View(s)) && s.mutex.None? && ds != []
    requires s.calls == map[c := Waiting(timeout, left)] && left < TWO_31
    ensures Runs(s, es, t)
    ensures var rest := WaitSlice(timeout, left).left;
            if over then View(t) == WaitLoop(View(s), timeout, left, ds) && (t.Gone? || Quiet(t))
            else
              && t == s.(calls := map[c := Waiting(timeout, rest)]) && rest < TWO_31
              && WaitLoop(View(s), timeout, left, ds) == WaitLoop(View(s), timeout, rest, ds[1..])
              && (PR.StillWaiting(timeout, rest, ds[1..]) ==> PR.StillWaiting(timeout, left, ds))
  {
    var d := if ds[0].Some? then ds[0].value else Fails(EINVAL);
    es, t := WaitOnce(s, c, timeout, left, d, ds[0].None?);
    PR.WaitRound(View(s), timeout, left, ds);
    over := !(ds[0].Some? && WaitEffect(s.server.value, WaitSlice(timeout, left), d).Refuses?);
  }

  lemma {:induction false} WaitOn(s: State, c: nat, timeout: int, left: nat, ds: seq<Option<Driver<()>>>)
    returns (es: seq<Event>, t: State)
    requires s.Live? && s.server.Some? && Mirror(View(s)) && s.mutex.None?
    requires s.calls == map[c := Waiting(timeout, left)] && left < TWO_31
    ensures Runs(s, es, t) && View(t) == WaitLoop(View(s), timeout, left, ds)
    ensures t.Gone? || Quiet(t) || PR.StillWaiting(timeout, left, ds)
    decreases |ds|
  {
    if ds == [] {
      es, t := [], s;
    } else {
      var over;
      es, t, over := FirstRound(s, c, timeout, left, ds);
      if !over {
        var more, u := WaitOn(t, c, timeout, WaitSlice(timeout, left).left, ds[1..]);
        RunsOn(s, es, t, more, u);
        es, t := es + more, u;
      }
    }
  }

  lemma WaitAlone(s: State, c: nat, timeout: int, ds: seq<Option<Driver<()>>>) returns (es: seq<Event>, t: State)
    requires Quiet(s) && Inv(s) && s.server.Some? && Mirror(View(s)) && -TWO_31 <= timeout < TWO_31
    ensures Runs(s, es, t)
    ensures t.Gone? || Quiet(t) || PR.StillWaiting(timeout, timeout, ds)
    ensures View(t) == ProxyClient.Wait(View(s), timeout, ds)
  {
    QuietMutex(s);
    var ask := AskWait(c, timeout);
    var m := Next(s, ask);
    RunOne(s, ask);
    var left := if timeout < 0 then 0 else timeout;
    es, t := WaitOn(m, c, timeout, left, ds);
    RunsOn(s, [ask], m, es, t);
    es := [ask] + es;
    if timeout < 0 {
      InfiniteWait(View(s), timeout, left, timeout, ds);
    }
  }

  /* ---------- Runs in which nothing overlaps ---------- */

  /** Events of a connection that is up: addresses new within the session, and waits that end. */
  predicate Alone(s: State, e: PR.Event)
    requires s.Live?
  {
    match e
    case OpenE(_, _, _, _, _, _, _) => false
    case MapE(_, maps, _) => maps.Works? ==> New(s.history, maps.value)
    case WaitE(timeout, answers) => !PR.StillWaiting(timeout, timeout, answers)
    case _ => true
  }

  /** An operation that nothing overlaps does what the atomic one does. */
  lemma StepAlone(s: State, e: PR.Event) returns (es: seq<Event>, t: State)
    requires Quiet(s) && Inv(s) && s.server.Some? && Mirror(View(s)) && PR.Sane(View(s), e) && Alone(s, e)
    ensures Runs(s, es, t) && (t.Gone? || Quiet(t))
    ensures View(t) == PR.Step(View(s), e)
  {
    var c := 0;
    match e {
      case CloseE(d, lost) => es, t := CloseAlone(s, c, d, lost);
      case NotifyE(d, lost) => es, t := NotifyAlone(s, c, d, lost);
      case WaitE(timeout, answers) => es, t := WaitAlone(s, c, timeout, answers);
      case MapE(slots, d, lost) => es, t := MapAlone(s, c, slots, d, lost);
      case UnmapE(slots, d, lost) => es, t := UnmapAlone(s, c, slots, d, lost);
      case AppWrites(memory) =>
        es, t := [AppWrites(memory)], Next(s, AppWrites(memory));
        RunOne(s, AppWrites(memory));
      case TrustletWrites(tci, contents) =>
        es, t := [TrustletWrites(tci, contents)], Next(s, TrustletWrites(tci, contents));
        RunOne(s, TrustletWrites(tci, contents));
      case OpenE(_, _, _, _, _, _, _) =>
    }
  }
}
