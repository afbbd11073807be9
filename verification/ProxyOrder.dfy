/**
 The order of the two lists. The server appends buffers in the order in which maps are served, the client
 in the order in which their callers get round to adding them, and both only ever take buffers out
 otherwise. So each list is what is left of a history: the addresses in the order they were given, and the
 addresses in the order they were added. The lists are the same sequence exactly when the two histories
 agree on what is still listed, and no unmap has missed a buffer.

 Maps that overlap can add in another order than they were served (`RaceExamples.MapsCross`); if each map
 has added its buffers before the next one is served, the histories are the same.
 */
module ProxyOrder {
  import opened Wire
  import opened Message
  import opened Ioctl
  import opened ProxyServer
  import opened ProxyClient
  import opened ProxyMirror
  import opened ProxyAnswers
  import opened ProxyLists
  import opened ProxyCallers
  import opened ProxyOverlap
  import opened ProxyRaces

  /* ---------- What is left of a list ---------- */

  /** The addresses of a list that are in a set. */
  function Only(svas: seq<U64>, kept: set<U64>): seq<U64>
    decreases |svas|
  {
    if svas == [] then []
    else if svas[0] in kept then [svas[0]] + Only(svas[1..], kept)
    else Only(svas[1..], kept)
  }

  lemma {:induction false} OnlyConcat(a: seq<U64>, b: seq<U64>, kept: set<U64>)
    ensures Only(a + b, kept) == Only(a, kept) + Only(b, kept)
    decreases |a|
  {
    if a == [] {
      assert a + b == b;
    } else {
      OnlyConcat(a[1..], b, kept);
      assert (a + b)[1..] == a[1..] + b;
    }
  }

  lemma {:induction false} OnlyAll(svas: seq<U64>, kept: set<U64>)
    requires AsSet(svas) <= kept
    ensures Only(svas, kept) == svas
    decreases |svas|
  {
    if svas != [] {
      RestAsSet(svas);
      OnlyAll(svas[1..], kept);
    }
  }

  lemma {:induction false} OnlySubset(svas: seq<U64>, kept: set<U64>)
    ensures AsSet(Only(svas, kept)) <= AsSet(svas)
    decreases |svas|
  {
    if svas != [] {
      RestAsSet(svas);
      OnlySubset(svas[1..], kept);
    }
  }

  /** Addresses that are not on the list make no difference. */
  lemma {:induction false} OnlySame(svas: seq<U64>, kept: set<U64>, other: set<U64>)
    requires forall x :: x in AsSet(svas) ==> (x in kept <==> x in other)
    ensures Only(svas, kept) == Only(svas, other)
    decreases |svas|
  {
    if svas != [] {
      RestAsSet(svas);
      OnlySame(svas[1..], kept, other);
    }
  }

  lemma {:induction false} OnlyTwice(svas: seq<U64>, kept: set<U64>, fewer: set<U64>)
    requires fewer <= kept
    ensures Only(Only(svas, kept), fewer) == Only(svas, fewer)
    decreases |svas|
  {
    if svas != [] {
      OnlyTwice(svas[1..], kept, fewer);
      if svas[0] in kept {
        assert ([svas[0]] + Only(svas[1..], kept))[1..] == Only(svas[1..], kept);
      }
    }
  }

  /** The next list has nothing that was not on the list before or added to it, in that order. */
  predicate Follows(list: seq<U64>, more: seq<U64>, next: seq<U64>)
  {
    next == Only(list + more, AsSet(next))
  }

  lemma FollowsGrown(list: seq<U64>, more: seq<U64>)
    ensures Follows(list, more, list + more)
  {
    OnlyAll(list + more, AsSet(list + more));
  }

  lemma FollowsSame(list: seq<U64>)
    ensures Follows(list, [], list)
  {
    assert list + [] == list;
    FollowsGrown(list, []);
  }

  /** A list that is what is left of `all` stays so, if what is added is new to it. */
  lemma FollowsAll(list: seq<U64>, all: seq<U64>, more: seq<U64>, next: seq<U64>)
    requires list == Only(all, AsSet(list)) && Follows(list, more, next) && AsSet(more) !! AsSet(all)
    ensures next == Only(all + more, AsSet(next))
  {
    var both := AsSet(list) + AsSet(more);
    OnlyConcat(all, more, both);
    OnlySame(all, AsSet(list), both);
    OnlyAll(more, both);
    assert Only(all + more, both) == list + more;
    OnlySubset(list + more, AsSet(next));
    forall x | x in AsSet(next)
      ensures x in both
    {
      assert x in AsSet(list + more);
    }
    OnlyTwice(all + more, both, AsSet(next));
  }

  lemma SplitSet(svas: seq<U64>, k: nat)
    requires NoRepeat(svas) && k < |svas|
    ensures AsSet(svas[..k] + svas[k + 1..]) == AsSet(svas) - {svas[k]}
  {
    var r := svas[..k] + svas[k + 1..];
    forall x
      ensures x in AsSet(r) <==> x in AsSet(svas) && x != svas[k]
    {
      if x in AsSet(svas) && x != svas[k] {
        var i :| 0 <= i < |svas| && svas[i] == x;
        assert r[if i < k then i else i - 1] == x;
      }
      if x in AsSet(r) {
        var i :| 0 <= i < |r| && r[i] == x;
        assert svas[if i < k then i else i + 1] == x;
      }
    }
  }

  lemma OnlyCons(x: U64, rest: seq<U64>, kept: set<U64>)
    ensures Only([x] + rest, kept) == if x in kept then [x] + Only(rest, kept) else Only(rest, kept)
  {
    assert ([x] + rest)[1..] == rest;
  }

  lemma SplitAt(svas: seq<U64>, k: nat)
    requires k < |svas|
    ensures svas + [] == svas[..k] + ([svas[k]] + svas[k + 1..])
  {
  }

  /** Taking one address out of a list without repetitions. */
  lemma FollowsErased(svas: seq<U64>, k: nat)
    requires NoRepeat(svas) && k < |svas|
    ensures Follows(svas, [], svas[..k] + svas[k + 1..])
  {
    var before, after := svas[..k], svas[k + 1..];
    var kept := AsSet(before + after);
    SplitSet(svas, k);
    SplitAt(svas, k);
    OnlyCons(svas[k], after, kept);
    OnlyConcat(before, [svas[k]] + after, kept);
    OnlyConcat(before, after, kept);
    OnlyAll(before + after, kept);
  }

  lemma {:induction false} FollowsRemoved(bs: seq<Buffer>, svas: seq<U64>)
    requires DistinctBuffers(bs) && RemoveAll(bs, svas).1
    ensures Follows(BufferSvas(bs), [], BufferSvas(RemoveAll(bs, svas).0))
    decreases |svas|
  {
    if svas == [] {
      FollowsSame(BufferSvas(bs));
    } else {
      var k := Find(bs, svas[0]);
      var r := bs[..k] + bs[k + 1..];
      Erased(bs, k);
      AddressesAre(bs);
      assert BufferSvas(r) == BufferSvas(bs)[..k] + BufferSvas(bs)[k + 1..];
      FollowsErased(BufferSvas(bs), k);
      FollowsRemoved(r, svas[1..]);
      FollowsOn(BufferSvas(bs), BufferSvas(r), BufferSvas(RemoveAll(r, svas[1..]).0));
    }
  }

  lemma FollowsOn(list: seq<U64>, next: seq<U64>, last: seq<U64>)
    requires Follows(list, [], next) && Follows(next, [], last)
    ensures Follows(list, [], last)
  {
    assert list + [] == list && next + [] == next;
    FollowsAll(next, list, [], last);
  }

  /* ---------- What is given and what is added ---------- */

  /** The addresses that a served map gives out. */
  function GivenBy(s: State, e: Event): seq<U64>
    requires Enabled(s, e)
  {
    if e.Serve? && s.calls[e.c].Mapping? then Handed(Next(s, e), e.c) else []
  }

  function Handed(t: State, c: nat): seq<U64>
  {
    if t.Live? && c in t.calls && t.calls[c].Adding? then SlotSvas(t.calls[c].slots) else []
  }

  /** The address that a caller adds to the client's list. */
  function AddedBy(s: State, e: Event): seq<U64>
    requires Enabled(s, e)
  {
    if e.AddOne? then [s.calls[e.c].slots[0].sva] else []
  }

  /** In a run: all addresses in the order in which maps were served. */
  ghost function Given(s: State, es: seq<Event>, t: State): seq<U64>
    requires Runs(s, es, t)
    decreases |es|
  {
    if es == [] then [] else GivenBy(s, es[0]) + Given(Next(s, es[0]), es[1..], t)
  }

  /** In a run: all addresses in the order in which they were added to the client's list. */
  ghost function Added(s: State, es: seq<Event>, t: State): seq<U64>
    requires Runs(s, es, t)
    decreases |es|
  {
    if es == [] then [] else AddedBy(s, es[0]) + Added(Next(s, es[0]), es[1..], t)
  }

  /** What is listed at the end was added in the order in which it was given. */
  ghost predicate AddedAsGiven(s: State, es: seq<Event>, t: State)
    requires Runs(s, es, t) && t.Live?
  {
    Only(Added(s, es, t), Listed(t)) == Only(Given(s, es, t), Listed(t))
  }

  /* ---------- One step ---------- */

  function ServerSvas(s: State): seq<U64>
    requires s.Live? && s.server.Some?
  {
    BufferSvas(s.server.value.buffers)
  }

  function ClientSvas(s: State): seq<U64>
    requires s.Live?
  {
    SlotSvas(s.client.buffers)
  }

  /** A step that gives out `given` and adds `added`: what is given is new, and what is added has been
      given before. */
  predicate Moves(s: State, t: State, given: seq<U64>, added: seq<U64>)
    requires s.Live? && t.Live? && s.server.Some? && t.server.Some?
  {
    var h, next := s.history, t.history;
    && Follows(ServerSvas(s), given, ServerSvas(t)) && Follows(ClientSvas(s), added, ClientSvas(t))
    && AsSet(given) !! h.book.Keys && next.book.Keys == h.book.Keys + AsSet(given)
    && AsSet(added) <= h.joining.Keys && next.joining.Keys == h.joining.Keys + AsSet(given) - AsSet(added)
  }

  lemma MovesNothing(s: State, t: State)
    requires s.Live? && t.Live? && s.server.Some? && t.server.Some?
    requires ServerSvas(t) == ServerSvas(s) && ClientSvas(t) == ClientSvas(s)
    requires t.history.book == s.history.book && t.history.joining == s.history.joining
    ensures Moves(s, t, [], [])
  {
    FollowsSame(ServerSvas(s));
    FollowsSame(ClientSvas(s));
  }

  lemma AllocatedSvas(bs: seq<Buffer>, chosen: seq<Slot>, svas: seq<U64>)
    requires |svas| == |chosen|
    ensures BufferSvas(bs + Allocated(chosen, svas)) == BufferSvas(bs) + svas
  {
  }

  lemma MovesMapped(s: State, t: State, c: nat, svas: seq<U64>)
    requires s.Live? && s.server.Some? && c in s.calls && s.calls[c].Mapping? && |svas| == |s.calls[c].chosen|
    requires Mapped(s, t, c, svas) && New(s.history, svas)
    ensures Moves(s, t, svas, []) && Handed(t, c) == svas
  {
    var slots := WithSvas(s.calls[c].chosen, svas);
    WithSvasIs(s.calls[c].chosen, svas);
    BookedKeys(s.history.book, slots);
    FollowsGrown(ServerSvas(s), svas);
    AllocatedSvas(s.server.value.buffers, s.calls[c].chosen, svas);
    FollowsSame(ClientSvas(s));
    NewApart(s.history, svas);
  }

  lemma MovesUnmapped(s: State, t: State, c: nat)
    requires s.Live? && s.server.Some? && c in s.calls && s.calls[c].Unmapping? && Unmapped(s, t, c)
    requires Ends(s) && RemoveAll(s.server.value.buffers, SlotSvas(s.calls[c].chosen)).1
    ensures Moves(s, t, [], [])
  {
    FollowsRemoved(s.server.value.buffers, SlotSvas(s.calls[c].chosen));
    FollowsSame(ClientSvas(s));
  }

  lemma MovesAdded(s: State, c: nat)
    requires s.Live? && s.server.Some? && c in s.calls && s.calls[c].Adding? && s.calls[c].slots != []
    requires s.calls[c].slots[0].sva in s.history.joining
    ensures Moves(s, Add(s, c), [], [s.calls[c].slots[0].sva])
  {
    var x := s.calls[c].slots[0].sva;
    FollowsSame(ServerSvas(s));
    FollowsGrown(ClientSvas(s), [x]);
    assert ClientSvas(Add(s, c)) == ClientSvas(s) + [x];
  }

  lemma ErasedSvas(bs: seq<Slot>, k: nat)
    requires Distinct(bs) && k < |bs|
    ensures Follows(SlotSvas(bs), [], SlotSvas(bs[..k] + bs[k + 1..]))
  {
    assert SlotSvas(bs[..k] + bs[k + 1..]) == SlotSvas(bs)[..k] + SlotSvas(bs)[k + 1..];
    FollowsErased(SlotSvas(bs), k);
  }

  lemma MovesTaken(s: State, c: nat)
    requires s.Live? && s.server.Some? && c in s.calls && s.calls[c].Removing? && s.calls[c].slots != []
    requires Distinct(s.client.buffers)
    ensures Moves(s, TakeOff(s, c), [], [])
  {
    var bs, t := s.client.buffers, TakeOff(s, c);
    var k := FindSlot(bs, s.calls[c].slots[0].sva);
    if k == |bs| {
      MovesNothing(s, t);
    } else {
      ErasedSvas(bs, k);
      FollowsSame(ServerSvas(s));
    }
  }

  lemma MovesServeMap(s: State, c: nat, d: Driver<seq<U64>>, lost: bool)
    requires s.Live? && s.server.Some? && c in s.calls && s.calls[c].Mapping?
    requires d.Works? ==> New(s.history, d.value)
    ensures var t := ServeMap(s, c, d, lost);
            t.Live? ==> t.server.Some? && Moves(s, t, Handed(t, c), [])
  {
    var t := ServeMap(s, c, d, lost);
    MapIs(s, c, d, lost);
    if t == Over(s, c) {
      MovesNothing(s, t);
    } else if t.Live? {
      MovesMapped(s, t, c, d.value);
    }
  }

  lemma MovesServeUnmap(s: State, c: nat, d: Driver<()>, lost: bool)
    requires s.Live? && s.server.Some? && Ends(s) && c in s.calls && s.calls[c].Unmapping?
    ensures var t := ServeUnmap(s, c, d, lost); t.Live? ==> t.server.Some? && Moves(s, t, [], [])
  {
    UnmapIs(s, c, d, lost);
    if !lost {
      match UnmapEffect(s.server.value, s.calls[c].chosen, d)
      case Breaks =>
      case Refuses(_) => MovesNothing(s, Over(s, c));
      case Does(_, _) => MovesUnmapped(s, ServeUnmap(s, c, d, lost), c);
    }
  }

  lemma SameShapeSvas(bs: seq<Buffer>, rs: seq<Buffer>)
    requires SameShape(bs, rs)
    ensures BufferSvas(rs) == BufferSvas(bs)
  {
  }

  lemma MovesServeNotify(s: State, c: nat, d: Driver<()>, lost: bool)
    requires s.Live? && s.server.Some? && InPlace(s) && Ends(s) && c in s.calls && s.calls[c].Notifying?
    ensures var t := ServeNotify(s, c, d, lost); t.Live? ==> t.server.Some? && Moves(s, t, [], [])
  {
    assert CallInMemory(s, c, s.calls[c]);
    NotifyIs(s, c, d, lost);
    var t := ServeNotify(s, c, d, lost);
    if t.Live? {
      UpdateAllShape(s.server.value.buffers, Patches(InputRecords(s.calls[c].memory, s.client.buffers)));
      SameShapeSvas(s.server.value.buffers, t.server.value.buffers);
      MovesNothing(s, t);
    }
  }

  lemma MovesServeWait(s: State, c: nat, d: Driver<()>, lost: bool)
    requires s.Live? && s.server.Some? && Ends(s) && c in s.calls && s.calls[c].Waiting?
    ensures var t := ServeWait(s, c, d, lost); t.Live? ==> t.server.Some? && Moves(s, t, [], [])
  {
    WaitIs(s, c, d, lost);
    if ServeWait(s, c, d, lost).Live? {
      MovesNothing(s, ServeWait(s, c, d, lost));
    }
  }

  lemma MovesServeClose(s: State, c: nat, d: Driver<()>, lost: bool)
    requires s.Live? && s.server.Some? && InPlace(s) && Accounts(s) && c in s.calls && s.calls[c].Closing?
    ensures var t := ServeClose(s, c, d, lost); t.Live? && t.server.Some? ==> Moves(s, t, [], [])
  {
    CloseKeeps(s, c, d, lost);
    if !lost && d.Fails? {
      MovesNothing(s, Over(s, c));
    }
  }

  lemma MovesServe(s: State, c: nat, d: Driver<()>, maps: Driver<seq<U64>>, lost: bool)
    requires Inv(s) && Enabled(s, Serve(c, d, maps, lost)) && s.server.Some?
    ensures var e := Serve(c, d, maps, lost);
            Next(s, e).Live? && Next(s, e).server.Some? ==> Moves(s, Next(s, e), GivenBy(s, e), [])
  {
    match s.calls[c] {
      case Mapping(_) => MovesServeMap(s, c, maps, lost);
      case Unmapping(_) => MovesServeUnmap(s, c, d, lost);
      case Notifying(_, _) => MovesServeNotify(s, c, d, lost);
      case Closing => MovesServeClose(s, c, d, lost);
      case Waiting(_, _) => MovesServeWait(s, c, d, lost);
    }
  }

  lemma {:induction false} CopyKeepsLists(s: State, c: nat)
    requires Enabled(s, CopyOne(c))
    ensures var t := Copy(s, c);
            && t.Live? && t.client == s.client && t.server == s.server && t.history == s.history
            && t.calls - {c} == s.calls - {c} && (c in t.calls ==> t.calls[c].Copying?)
  {
  }

  predicate Asks(e: Event)
  {
    e.AskNotify? || e.AskMap? || e.AskUnmap? || e.AskWait? || e.AskClose?
  }

  lemma AskKeepsLists(s: State, e: Event)
    requires Enabled(s, e) && Asks(e)
    ensures var t := Next(s, e);
            && t.Live? && t.client == s.client && t.server == s.server && t.history == s.history
            && t.calls - {e.c} == s.calls - {e.c} && e.c !in s.calls && (e.c in t.calls ==> !t.calls[e.c].Adding?)
  {
  }

  lemma MovesOther(s: State, e: Event)
    requires Inv(s) && Enabled(s, e) && s.server.Some? && !e.Serve? && !e.AddOne? && !e.RemoveOne? && !e.Delete?
    ensures Moves(s, Next(s, e), [], [])
  {
    var t := Next(s, e);
    if Asks(e) {
      AskKeepsLists(s, e);
    } else if e.CopyOne? {
      CopyKeepsLists(s, e.c);
    } else if e.TrustletWrites? {
      SameShapeSvas(s.server.value.buffers, t.server.value.buffers);
    }
    MovesNothing(s, t);
  }

  lemma MovesStep(s: State, e: Event)
    requires Inv(s) && Enabled(s, e) && s.server.Some?
    ensures var t := Next(s, e);
            t.Live? && t.server.Some? ==> Moves(s, t, GivenBy(s, e), AddedBy(s, e))
  {
    match e {
      case Serve(c, d, maps, lost) => MovesServe(s, c, d, maps, lost);
      case AddOne(c) =>
        FirstOwned(s.history.joining, c, s.calls[c], true);
        MovesAdded(s, c);
      case RemoveOne(c) => MovesTaken(s, c);
      case Delete(_) =>
      case _ => MovesOther(s, e);
    }
  }

  /* ---------- Whole runs ---------- */

  /** The two lists are what is left of the addresses given and added so far. */
  predicate Traced(s: State, given: seq<U64>, added: seq<U64>)
    requires s.Live? && s.server.Some?
  {
    && ServerSvas(s) == Only(given, AsSet(ServerSvas(s))) && ClientSvas(s) == Only(added, AsSet(ClientSvas(s)))
    && AsSet(given) + AsSet(added) <= s.history.book.Keys && AsSet(added) !! s.history.joining.Keys
  }

  lemma ConcatSet(a: seq<U64>, b: seq<U64>)
    ensures AsSet(a + b) == AsSet(a) + AsSet(b)
  {
  }

  lemma TracedStep(s: State, t: State, given: seq<U64>, added: seq<U64>, g: seq<U64>, a: seq<U64>)
    requires s.Live? && t.Live? && s.server.Some? && t.server.Some? && Traced(s, given, added)
    requires Moves(s, t, g, a) && s.history.joining.Keys <= s.history.book.Keys
    ensures Traced(t, given + g, added + a)
  {
    FollowsAll(ServerSvas(s), given, g, ServerSvas(t));
    FollowsAll(ClientSvas(s), added, a, ClientSvas(t));
    ConcatSet(given, g);
    ConcatSet(added, a);
  }

  lemma {:induction false} ClosedStep(s: State, e: Event)
    requires Enabled(s, e) && (s.Gone? || s.server.None?)
    ensures Next(s, e).Gone? || Next(s, e).server.None?
  {
    match e
    case Serve(c, d, maps, lost) => ClosedBreaks(s, c, d, maps, lost);
    case _ =>
  }

  /** A session that has been closed is not opened again on this connection. */
  lemma {:induction false} ClosedStays(s: State, es: seq<Event>, t: State)
    requires Runs(s, es, t) && (s.Gone? || s.server.None?)
    ensures t.Gone? || t.server.None?
    decreases |es|
  {
    if es != [] {
      ClosedStep(s, es[0]);
      ClosedStays(Next(s, es[0]), es[1..], t);
    }
  }

  lemma TracedNext(s: State, e: Event, given: seq<U64>, added: seq<U64>)
    requires Inv(s) && Enabled(s, e) && s.server.Some? && Traced(s, given, added)
    requires Next(s, e).Live? && Next(s, e).server.Some?
    ensures Inv(Next(s, e)) && Traced(Next(s, e), given + GivenBy(s, e), added + AddedBy(s, e))
  {
    InvStep(s, e);
    MovesStep(s, e);
    AllInBook(s);
    TracedStep(s, Next(s, e), given, added, GivenBy(s, e), AddedBy(s, e));
  }

  lemma {:induction false} TracedRuns(s: State, es: seq<Event>, t: State, given: seq<U64>, added: seq<U64>)
    requires Inv(s) && s.Live? && s.server.Some? && Traced(s, given, added)
    requires Runs(s, es, t) && t.Live? && t.server.Some?
    ensures Traced(t, given + Given(s, es, t), added + Added(s, es, t))
    decreases |es|
  {
    if es == [] {
      assert given + [] == given && added + [] == added;
    } else {
      var e, n := es[0], Next(s, es[0]);
      if n.Gone? || n.server.None? {
        ClosedStays(n, es[1..], t);
      } else {
        TracedNext(s, e, given, added);
        TracedRuns(n, es[1..], t, given + GivenBy(s, e), added + AddedBy(s, e));
        SeqAssoc(given, GivenBy(s, e), Given(n, es[1..], t));
        SeqAssoc(added, AddedBy(s, e), Added(n, es[1..], t));
      }
    }
  }

  lemma StartTraced(mem: bytes, client: ClientSession, server: Session)
    requires Opened(mem, client, server)
    ensures Traced(Start(mem, client, server), [], [])
  {
    assert SlotSvas([]) == [] && BufferSvas([]) == [];
  }

  /** At the end of a run the lists are what is left of the two histories. */
  lemma ListsAreLeft(mem: bytes, client: ClientSession, server: Session, es: seq<Event>, t: State)
    requires Opened(mem, client, server) && Runs(Start(mem, client, server), es, t) && t.Live? && t.server.Some?
    ensures var s := Start(mem, client, server);
            && ServerSvas(t) == Only(Given(s, es, t), Kept(t))
            && ClientSvas(t) == Only(Added(s, es, t), Listed(t))
  {
    var s := Start(mem, client, server);
    StartInv(mem, client, server);
    StartTraced(mem, client, server);
    TracedRuns(s, es, t, [], []);
    assert [] + Given(s, es, t) == Given(s, es, t) && [] + Added(s, es, t) == Added(s, es, t);
    AddressesAre(t.server.value.buffers);
  }

  lemma KeptIsListed(mem: bytes, client: ClientSession, server: Session, es: seq<Event>, t: State)
    requires Opened(mem, client, server) && Runs(Start(mem, client, server), es, t)
    requires Quiet(t) && t.server.Some? && NoMiss(Start(mem, client, server), es, t)
    ensures Kept(t) == Listed(t)
  {
    var s := Start(mem, client, server);
    StartInv(mem, client, server);
    InvRuns(s, es, t);
    StrandedRuns(s, es, t);
    NothingPending(t.history.joining, true);
    NothingPending(t.history.leaving, false);
  }

  lemma SameListings(t: State)
    requires t.Live? && t.server.Some? && AllBooked(t)
    ensures ClientListing(t.client.buffers) == ServerListing(t.server.value.buffers) <==> ClientSvas(t) == ServerSvas(t)
  {
    var cb, sb := t.client.buffers, t.server.value.buffers;
    if ClientSvas(t) == ServerSvas(t) {
      assert |cb| == |sb|;
      forall j | 0 <= j < |cb|
        ensures ClientListing(cb)[j] == ServerListing(sb)[j]
      {
        assert SlotSvas(cb)[j] == BufferSvas(sb)[j];
        assert SlotBooked(t.history.book, cb[j]);
      }
    }
    if ClientListing(cb) == ServerListing(sb) {
      assert |cb| == |sb|;
      forall j | 0 <= j < |cb|
        ensures SlotSvas(cb)[j] == BufferSvas(sb)[j]
      {
        assert ClientListing(cb)[j] == ServerListing(sb)[j];
      }
    }
  }

  /** In every run from the opening of a session, whenever no operation is under way and the session is
      open: the lists at the two ends are the same sequence of addresses, flags and lengths if and only if
      no unmap has missed a buffer and what is listed was added in the order in which it was given. */
  lemma ListsInOrderWhen(mem: bytes, client: ClientSession, server: Session, es: seq<Event>, t: State)
    requires Opened(mem, client, server) && Runs(Start(mem, client, server), es, t)
    requires Quiet(t) && t.server.Some?
    ensures ClientListing(t.client.buffers) == ServerListing(t.server.value.buffers)
       <==> NoMiss(Start(mem, client, server), es, t) && AddedAsGiven(Start(mem, client, server), es, t)
  {
    var s := Start(mem, client, server);
    StartInv(mem, client, server);
    InvRuns(s, es, t);
    QuietListsAgree(mem, client, server, es, t);
    ListsAreLeft(mem, client, server, es, t);
    SameListings(t);
    if NoMiss(s, es, t) {
      KeptIsListed(mem, client, server, es, t);
    }
  }

  /* ---------- Maps that do not cross ---------- */

  /** The buffers that the caller `joiner`, if any, is still adding. */
  function Joining(s: State, joiner: Option<nat>): seq<U64>
  {
    if joiner.Some? then Handed(s, joiner.value) else []
  }

  predicate OnlyAdding(s: State, joiner: Option<nat>)
    requires s.Live?
  {
    forall d :: d in s.calls && s.calls[d].Adding? ==> joiner == Some(d)
  }

  predicate NobodyAdds(s: State)
    requires s.Live?
  {
    OnlyAdding(s, None)
  }

  /** No map is served while another is adding its buffers. */
  predicate MapApart(s: State, e: Event)
    requires Enabled(s, e)
  {
    e.Serve? && s.calls[e.c].Mapping? ==> NobodyAdds(s)
  }

  ghost predicate MapsApart(s: State, es: seq<Event>, t: State)
    requires Runs(s, es, t)
    decreases |es|
  {
    es == [] || (MapApart(s, es[0]) && MapsApart(Next(s, es[0]), es[1..], t))
  }

  /** A step that changes nothing for the callers that are adding. */
  ghost predicate SameAdders(s: State, t: State)
    requires s.Live?
  {
    t.Live? ==>
      && (forall d :: Handed(t, d) == Handed(s, d))
      && (forall d :: d in t.calls && t.calls[d].Adding? ==> d in s.calls && s.calls[d].Adding?)
  }

  lemma AddersKept(s: State, t: State, c: nat)
    requires s.Live? && t.Live? && t.calls - {c} == s.calls - {c}
    requires c in s.calls ==> !s.calls[c].Adding?
    requires c in t.calls ==> !t.calls[c].Adding?
    ensures SameAdders(s, t)
  {
    forall d | d != c
      ensures d in t.calls <==> d in s.calls
      ensures d in t.calls ==> t.calls[d] == s.calls[d]
    {
      assert d in t.calls <==> d in t.calls - {c};
      assert d in s.calls <==> d in s.calls - {c};
    }
  }

  lemma AddersUnmap(s: State, c: nat, d: Driver<()>, lost: bool)
    requires s.Live? && s.server.Some? && c in s.calls && s.calls[c].Unmapping?
    ensures SameAdders(s, ServeUnmap(s, c, d, lost))
  {
    hide ServeUnmap, UnmapEffect;
    var t := ServeUnmap(s, c, d, lost);
    UnmapIs(s, c, d, lost);
    if t.Live? {
      assert t.calls - {c} == s.calls - {c};
      AddersKept(s, t, c);
    }
  }

  lemma AddersNotify(s: State, c: nat, d: Driver<()>, lost: bool)
    requires s.Live? && s.server.Some? && InPlace(s) && Ends(s) && c in s.calls && s.calls[c].Notifying?
    ensures SameAdders(s, ServeNotify(s, c, d, lost))
  {
    hide ServeNotify, NotifyEffect;
    var t := ServeNotify(s, c, d, lost);
    assert CallInMemory(s, c, s.calls[c]);
    NotifyIs(s, c, d, lost);
    if t.Live? {
      assert t.calls - {c} == s.calls - {c};
      AddersKept(s, t, c);
    }
  }

  lemma AddersWait(s: State, c: nat, d: Driver<()>, lost: bool)
    requires s.Live? && s.server.Some? && Ends(s) && c in s.calls && s.calls[c].Waiting?
    ensures SameAdders(s, ServeWait(s, c, d, lost))
  {
    hide ServeWait, WaitEffect, OutputRecords;
    var t := ServeWait(s, c, d, lost);
    WaitIs(s, c, d, lost);
    if t.Live? {
      assert t.calls - {c} == s.calls - {c};
      AddersKept(s, t, c);
    }
  }

  lemma AddersClose(s: State, c: nat, d: Driver<()>, lost: bool)
    requires s.Live? && s.server.Some? && InPlace(s) && Accounts(s) && c in s.calls && s.calls[c].Closing?
    ensures SameAdders(s, ServeClose(s, c, d, lost))
  {
    hide ServeClose;
    var t := ServeClose(s, c, d, lost);
    CloseKeeps(s, c, d, lost);
    if t.Live? {
      assert t.calls - {c} == s.calls - {c};
      AddersKept(s, t, c);
    }
  }

  lemma AddersServe(s: State, c: nat, d: Driver<()>, maps: Driver<seq<U64>>, lost: bool)
    requires Inv(s) && Enabled(s, Serve(c, d, maps, lost)) && s.server.Some? && !s.calls[c].Mapping?
    ensures SameAdders(s, Next(s, Serve(c, d, maps, lost)))
  {
    match s.calls[c] {
      case Unmapping(_) => AddersUnmap(s, c, d, lost);
      case Notifying(_, _) => AddersNotify(s, c, d, lost);
      case Closing => AddersClose(s, c, d, lost);
      case Waiting(_, _) => AddersWait(s, c, d, lost);
    }
  }

  lemma AddersRemove(s: State, c: nat)
    requires s.Live? && c in s.calls && s.calls[c].Removing? && s.calls[c].slots != []
    ensures SameAdders(s, TakeOff(s, c))
  {
    var t := TakeOff(s, c);
    assert t.calls - {c} == s.calls - {c};
    AddersKept(s, t, c);
  }

  lemma AddersOther(s: State, e: Event)
    requires Inv(s) && Enabled(s, e) && s.server.Some? && !e.Serve? && !e.AddOne?
    ensures SameAdders(s, Next(s, e))
  {
    if e.CopyOne? {
      CopyKeepsLists(s, e.c);
      AddersKept(s, Next(s, e), e.c);
    } else if Asks(e) {
      AskKeepsLists(s, e);
      AddersKept(s, Next(s, e), e.c);
    } else if e.RemoveOne? {
      AddersRemove(s, e.c);
    }
  }

  lemma AddsFirst(s: State, c: nat)
    requires s.Live? && c in s.calls && s.calls[c].Adding? && s.calls[c].slots != [] && OnlyAdding(s, Some(c))
    ensures OnlyAdding(Add(s, c), Some(c))
    ensures [s.calls[c].slots[0].sva] + Joining(Add(s, c), Some(c)) == Joining(s, Some(c))
  {
    var slots := s.calls[c].slots;
    assert SlotSvas(slots) == [slots[0].sva] + SlotSvas(slots[1..]);
  }

  lemma MapJoins(s: State, c: nat, d: Driver<seq<U64>>, lost: bool)
    requires s.Live? && s.server.Some? && c in s.calls && s.calls[c].Mapping? && NobodyAdds(s)
    ensures var t := ServeMap(s, c, d, lost); t.Live? ==> OnlyAdding(t, Some(c))
  {
    MapIs(s, c, d, lost);
  }

  /** As long as maps do not cross, what is added next is what is being added, and then what is given. */
  lemma JoinStep(s: State, e: Event, joiner: Option<nat>) returns (next: Option<nat>)
    requires Inv(s) && Enabled(s, e) && s.Live? && s.server.Some? && OnlyAdding(s, joiner) && MapApart(s, e)
    ensures var t := Next(s, e);
            t.Live? ==> OnlyAdding(t, next) && AddedBy(s, e) + Joining(t, next) == Joining(s, joiner) + GivenBy(s, e)
  {
    next := joiner;
    if e.AddOne? {
      AddsFirst(s, e.c);
    } else if e.Serve? && s.calls[e.c].Mapping? {
      MapJoins(s, e.c, e.maps, e.lost);
      next := Some(e.c);
      assert Joining(s, joiner) == [];
    } else if e.Serve? {
      AddersServe(s, e.c, e.does, e.maps, e.lost);
    } else {
      AddersOther(s, e);
    }
  }

  lemma {:induction false} JoinRuns(s: State, es: seq<Event>, t: State, joiner: Option<nat>)
    requires Inv(s) && s.Live? && s.server.Some? && OnlyAdding(s, joiner)
    requires Runs(s, es, t) && MapsApart(s, es, t) && Quiet(t) && t.server.Some?
    ensures Added(s, es, t) == Joining(s, joiner) + Given(s, es, t)
    decreases |es|
  {
    if es != [] {
      var e, n := es[0], Next(s, es[0]);
      InvStep(s, e);
      if n.Gone? || n.server.None? {
        ClosedStays(n, es[1..], t);
      } else {
        var next := JoinStep(s, e, joiner);
        JoinRuns(n, es[1..], t, next);
        SeqAssoc(AddedBy(s, e), Joining(n, next), Given(n, es[1..], t));
        SeqAssoc(Joining(s, joiner), GivenBy(s, e), Given(n, es[1..], t));
      }
    }
  }

  /** If no map is served while another is adding its buffers, all buffers are added in the order they were
      given; so the lists are the same sequence, if no unmap has missed a buffer. */
  lemma ListsInOrder(mem: bytes, client: ClientSession, server: Session, es: seq<Event>, t: State)
    requires Opened(mem, client, server) && Runs(Start(mem, client, server), es, t)
    requires Quiet(t) && t.server.Some? && MapsApart(Start(mem, client, server), es, t)
    ensures Added(Start(mem, client, server), es, t) == Given(Start(mem, client, server), es, t)
    ensures ClientListing(t.client.buffers) == ServerListing(t.server.value.buffers)
       <==> NoMiss(Start(mem, client, server), es, t)
  {
    var s := Start(mem, client, server);
    StartInv(mem, client, server);
    JoinRuns(s, es, t, None);
    ListsInOrderWhen(mem, client, server, es, t);
  }
}
