/**
 What overlapping operations on one connection can and cannot do to each other, for every run of any
 number of callers: when a notify is refused, when a wait does not copy a buffer, and in what the lists at
 the two ends agree once no operation is under way.
 */
module ProxyRaces {
  import opened Wire
  import opened Message
  import opened Canonical
  import opened Schemas
  import opened Framing
  import opened Ioctl
  import opened ProxyServer
  import opened ProxyClient
  import opened ProxyMirror
  import opened ProxyAnswers
  import opened ProxyLists
  import ProxyRuns
  import opened ProxyCallers
  import opened ProxyOverlap

  /* ---------- Every step keeps the accounts ---------- */

  /** Without a session the server answers every request with a protocol error. */
  lemma NoSession(data: bytes, d: Driver<()>, maps: Driver<seq<U64>>)
    ensures ProxyServer.Notify(None, data, d).reply.protoRc < 0
    ensures ProxyServer.Unmap(None, data, d).reply.protoRc < 0
    ensures ProxyServer.Map(None, data, maps).reply.protoRc < 0
    ensures WaitNotification(None, data, d).reply.protoRc < 0
    ensures CloseSession(None, data, d).reply.protoRc < 0
  {
  }

  lemma ClosedBreaksLists(s: State, c: nat, d: Driver<()>, maps: Driver<seq<U64>>, lost: bool)
    requires s.Live? && s.server.None? && c in s.calls
    ensures s.calls[c].Notifying? ==> ServeNotify(s, c, d, lost) == Gone(s.mem)
    ensures s.calls[c].Mapping? ==> ServeMap(s, c, maps, lost) == Gone(s.mem)
    ensures s.calls[c].Unmapping? ==> ServeUnmap(s, c, d, lost) == Gone(s.mem)
  {
    match s.calls[c]
    case Notifying(data, _) => NoSession(data, d, maps);
    case Mapping(chosen) => NoSession(Serialize(MAP_REQUEST, MapRequest(s.client.id, chosen)), d, maps);
    case Unmapping(chosen) => NoSession(Serialize(UNMAP_REQUEST, UnmapRequest(s.client.id, chosen)), d, maps);
    case _ =>
  }

  lemma ClosedBreaksOthers(s: State, c: nat, d: Driver<()>, lost: bool)
    requires s.Live? && s.server.None? && c in s.calls
    ensures s.calls[c].Waiting? ==> ServeWait(s, c, d, lost) == Gone(s.mem)
    ensures s.calls[c].Closing? ==> ServeClose(s, c, d, lost) == Gone(s.mem)
  {
    match s.calls[c]
    case Waiting(timeout, left) =>
      NoSession(Serialize(WAIT_REQUEST, WaitRequest(s.client.id, WaitSlice(timeout, left))), d, Fails(EINVAL));
    case Closing => NoSession(Serialize(CLOSE_SESSION_REQUEST, IdRequest(s.client.id)), d, Fails(EINVAL));
    case _ =>
  }

  lemma ClosedBreaks(s: State, c: nat, d: Driver<()>, maps: Driver<seq<U64>>, lost: bool)
    requires Enabled(s, Serve(c, d, maps, lost)) && s.server.None?
    ensures Next(s, Serve(c, d, maps, lost)) == Gone(s.mem)
  {
    ClosedBreaksLists(s, c, d, maps, lost);
    ClosedBreaksOthers(s, c, d, lost);
  }

  lemma ServeKeeps(s: State, c: nat, d: Driver<()>, maps: Driver<seq<U64>>, lost: bool)
    requires Inv(s) && Enabled(s, Serve(c, d, maps, lost))
    ensures Inv(Next(s, Serve(c, d, maps, lost)))
  {
    if s.server.None? {
      ClosedBreaks(s, c, d, maps, lost);
    } else {
      match s.calls[c]
      case Notifying(_, _) => NotifyKeeps(s, c, d, lost);
      case Mapping(_) => MapKeeps(s, c, maps, lost);
      case Unmapping(_) => UnmapKeeps(s, c, d, lost);
      case Waiting(_, _) => WaitKeeps(s, c, d, lost);
      case Closing => CloseKeeps(s, c, d, lost);
    }
  }

  /** An operation begins. */
  lemma AskKeeps(s: State, t: State, c: nat)
    requires s.Live? && t.Live? && Inv(s) && c !in s.calls && c in t.calls
    requires t == s.(mutex := t.mutex, calls := s.calls[c := t.calls[c]])
    requires Asked(t.calls[c]) && CallInMemory(t, c, t.calls[c])
    requires if t.calls[c].Notifying? then s.mutex.None? && t.mutex == Some(c) else t.mutex == s.mutex
    ensures Inv(t)
  {
    forall d | d in t.calls && d != c
      ensures CallInMemory(t, d, t.calls[d])
    {
      assert CallInMemory(s, d, s.calls[d]);
    }
    assert t.calls - {c} == s.calls - {c};
    CallsBooked(s, t, c);
    if s.server.Some? {
      ListsKept(s, t, c);
    }
  }

  lemma AskedKeeps(s: State, e: Event)
    requires Inv(s) && Enabled(s, e)
    requires e.AskNotify? || e.AskMap? || e.AskUnmap? || e.AskWait? || e.AskClose?
    ensures Inv(Next(s, e))
  {
    var t := Next(s, e);
    if t != s {
      AskKeeps(s, t, e.c);
    }
  }

  /** The application and the trusted application write memory. */
  lemma WritesKeep(s: State, e: Event)
    requires Inv(s) && Enabled(s, e) && (e.AppWrites? || e.TrustletWrites?)
    ensures Inv(Next(s, e))
  {
    var t := Next(s, e);
    forall d | d in t.calls
      ensures CallInMemory(t, d, t.calls[d])
    {
      assert CallInMemory(s, d, s.calls[d]);
    }
    if s.server.Some? {
      var free: nat := Unused(s.calls);
      assert t.calls - {free} == s.calls - {free};
      Reshaped(s, t, free);
    } else {
      assert forall d :: d in s.calls ==> CallBooked(s, s.calls[d]);
    }
  }

  lemma SomeUnused(calls: map<nat, Call>)
    ensures exists c: nat :: c !in calls
  {
    if forall c: nat :: c in calls {
      var n := |calls.Keys|;
      Crowded(calls.Keys, n + 1);
    }
  }

  lemma Crowded(cs: set<nat>, n: nat)
    requires forall c: nat :: c < n ==> c in cs
    ensures |cs| >= n
  {
    if n > 0 {
      Crowded(cs - {n - 1}, n - 1);
    }
  }

  ghost function Unused(calls: map<nat, Call>): (c: nat)
    ensures c !in calls
  {
    SomeUnused(calls);
    var c: nat :| c !in calls;
    c
  }

  lemma AddInv(s: State, c: nat)
    requires Inv(s) && Enabled(s, AddOne(c))
    ensures Inv(Add(s, c))
  {
    AddInPlace(s, c);
    AddClientBooked(s, c);
    if s.server.Some? {
      AddKeeps(s, c);
    }
  }

  lemma TakeOffInv(s: State, c: nat)
    requires Inv(s) && Enabled(s, RemoveOne(c))
    ensures Inv(TakeOff(s, c))
  {
    TakeOffInPlace(s, c);
    TakeOffClientBooked(s, c);
    if s.server.Some? {
      TakeOffKeeps(s, c);
    }
  }

  lemma CopyInv(s: State, c: nat)
    requires Inv(s) && Enabled(s, CopyOne(c))
    ensures Inv(Copy(s, c))
  {
    CopyInPlace(s, c);
    CopyClientBooked(s, c);
    if s.server.Some? {
      CopyKeeps(s, c);
    }
  }

  lemma InvStep(s: State, e: Event)
    requires Inv(s) && Enabled(s, e)
    ensures Inv(Next(s, e))
  {
    match e
    case Serve(c, d, maps, lost) => ServeKeeps(s, c, d, maps, lost);
    case AddOne(c) => AddInv(s, c);
    case RemoveOne(c) => TakeOffInv(s, c);
    case CopyOne(c) => CopyInv(s, c);
    case Delete(c) =>
    case AppWrites(_) => WritesKeep(s, e);
    case TrustletWrites(_, _) => WritesKeep(s, e);
    case _ => AskedKeeps(s, e);
  }

  lemma {:induction false} InvRuns(s: State, es: seq<Event>, t: State)
    requires Inv(s) && Runs(s, es, t)
    ensures Inv(t)
    decreases |es|
  {
    if es != [] {
      InvStep(s, es[0]);
      InvRuns(Next(s, es[0]), es[1..], t);
    }
  }

  /** A session that has just been opened. */
  predicate Opened(mem: bytes, client: ClientSession, server: Session)
  {
    && client.buffers == [] && server.buffers == [] && server.id == client.id
    && SameTci(client.tci, server.tci) && SessionInMemory(mem, client)
  }

  lemma StartInv(mem: bytes, client: ClientSession, server: Session)
    requires Opened(mem, client, server)
    ensures Inv(Start(mem, client, server))
  {
  }

  /* ---------- When a notify is refused ---------- */

  /** The addresses of the INPUT buffers on a client's list. */
  function Inputs(bs: seq<Slot>): set<U64>
  {
    set b | b in bs && Input(b.flags) :: b.sva
  }

  /** What a notify sends: a patch for every INPUT buffer, and no other. */
  lemma {:induction false} InputPatchesAre(mem: bytes, bs: seq<Slot>, i: nat)
    requires Distinct(bs) && BuffersInMemory(mem, bs) && i <= |bs|
    ensures var ps := Patches(InputRecords(mem, bs, i));
            && (forall k :: i <= k < |bs| && Input(bs[k].flags) ==>
                  Patch(bs[k].sva, At(mem, bs[k].va, bs[k].len)) in ps)
            && (forall p :: p in ps ==>
                  exists k :: i <= k < |bs| && Input(bs[k].flags)
                           && p == Patch(bs[k].sva, At(mem, bs[k].va, bs[k].len)))
    decreases |bs| - i
  {
    if i < |bs| {
      InputPatchesAre(mem, bs, i + 1);
      if Input(bs[i].flags) {
        InputPatches(mem, bs, i);
      }
    }
  }

  lemma LaterPatches(mem: bytes, bs: seq<Slot>, i: nat)
    requires Distinct(bs) && BuffersInMemory(mem, bs) && i < |bs|
    ensures var ps := Patches(InputRecords(mem, bs, i + 1));
            forall j :: 0 <= j < |ps| ==> ps[j].sva != bs[i].sva
  {
    InputPatchesAre(mem, bs, i + 1);
    var ps := Patches(InputRecords(mem, bs, i + 1));
    forall j | 0 <= j < |ps|
      ensures ps[j].sva != bs[i].sva
    {
      assert ps[j] in ps;
    }
  }

  lemma DistinctCons(p: Patch, ps: seq<Patch>)
    requires DistinctPatches(ps) && forall j :: 0 <= j < |ps| ==> ps[j].sva != p.sva
    ensures DistinctPatches([p] + ps)
  {
  }

  lemma {:induction false} InputPatchesDistinct(mem: bytes, bs: seq<Slot>, i: nat)
    requires Distinct(bs) && BuffersInMemory(mem, bs) && i <= |bs|
    ensures DistinctPatches(Patches(InputRecords(mem, bs, i)))
    decreases |bs| - i
  {
    if i < |bs| {
      InputPatchesDistinct(mem, bs, i + 1);
      if Input(bs[i].flags) {
        InputPatches(mem, bs, i);
        LaterPatches(mem, bs, i);
        DistinctCons(Patch(bs[i].sva, At(mem, bs[i].va, bs[i].len)), Patches(InputRecords(mem, bs, i + 1)));
      }
    }
  }

  lemma PatchAddresses(mem: bytes, bs: seq<Slot>)
    requires Distinct(bs) && BuffersInMemory(mem, bs)
    ensures var ps := Patches(InputRecords(mem, bs));
            forall x :: x in Inputs(bs) <==> exists j :: 0 <= j < |ps| && ps[j].sva == x
  {
    InputPatchesAre(mem, bs, 0);
    var ps := Patches(InputRecords(mem, bs));
    forall x
      ensures x in Inputs(bs) <==> exists j :: 0 <= j < |ps| && ps[j].sva == x
    {
      if x in Inputs(bs) {
        var k :| 0 <= k < |bs| && Input(bs[k].flags) && bs[k].sva == x;
        var j :| 0 <= j < |ps| && ps[j] == Patch(bs[k].sva, At(mem, bs[k].va, bs[k].len));
        assert ps[j].sva == x;
      }
      if exists j :: 0 <= j < |ps| && ps[j].sva == x {
        var j :| 0 <= j < |ps| && ps[j].sva == x;
        assert ps[j] in ps;
      }
    }
  }

  function PatchSvas(ps: seq<Patch>): (r: seq<U64>)
    ensures |r| == |ps|
  {
    seq(|ps|, j requires 0 <= j < |ps| => ps[j].sva)
  }

  /** The server takes the patches exactly if it keeps all of the INPUT buffers; their number is never
      the reason for a refusal. */
  lemma TakenWhenKept(s: Session, mem: bytes, c: ClientSession, d: Driver<()>)
    requires SessionInMemory(mem, c) && Distinct(c.buffers) && DistinctBuffers(s.buffers)
    ensures NotifyEffect(s, mem, c, d).Breaks? <==> !(Inputs(c.buffers) <= Addresses(s.buffers))
  {
    var ps := Patches(InputRecords(mem, c.buffers));
    InputPatchesDistinct(mem, c.buffers, 0);
    PatchAddresses(mem, c.buffers);
    UpdateAllShape(s.buffers, ps);
    if Inputs(c.buffers) <= Addresses(s.buffers) {
      forall x | x in AsSet(PatchSvas(ps))
        ensures x in Addresses(s.buffers)
      {
        var j :| 0 <= j < |ps| && PatchSvas(ps)[j] == x;
        assert ps[j].sva == x;
      }
      NoMoreThanListed(s.buffers, PatchSvas(ps));
    }
  }

  /** An unmap of one of these buffers has been served and has not been finished at the client. */
  predicate BeingUnmapped(h: History, svas: set<U64>)
  {
    exists x :: x in svas && (x in h.leaving || x in h.stranded)
  }

  /** In every run: a notify whose exchange is not lost is refused if and only if the session has been
      closed, or an unmap of one of the INPUT buffers on the client's list has been served and has not
      taken it off the list. */
  lemma NotifyRefusedWhen(start: State, es: seq<Event>, s: State, c: nat, d: Driver<()>)
    requires Inv(start) && Runs(start, es, s)
    requires s.Live? && c in s.calls && s.calls[c].Notifying? && |s.calls[c].data| < TWO_31
    ensures ServeNotify(s, c, d, false).Gone?
       <==> s.server.None? || BeingUnmapped(s.history, Inputs(s.client.buffers))
  {
    InvRuns(start, es, s);
    if s.server.None? {
      ClosedBreaksLists(s, c, d, Fails(EINVAL), false);
    } else {
      assert CallInMemory(s, c, s.calls[c]);
      NotifyIs(s, c, d, false);
      TakenWhenKept(s.server.value, s.calls[c].memory, s.client, d);
      forall x | x in Inputs(s.client.buffers)
        ensures x !in Kept(s) <==> x in s.history.leaving || x in s.history.stranded
      {
        var b :| b in s.client.buffers && b.sva == x;
        var k :| 0 <= k < |s.client.buffers| && s.client.buffers[k] == b;
        assert SlotSvas(s.client.buffers)[k] == x;
        assert x in Listed(s);
      }
    }
  }

  /** The server's memory after a notify built from `memory`: TCI and INPUT buffers of the client's list
      as they were there, all other buffers as before. */
  predicate Notified(s: State, t: State, memory: bytes)
    requires s.Live? && s.server.Some? && SessionInMemory(memory, s.client)
  {
    && t.Live? && t.server.Some? && t.server.value.tci == TciBytes(memory, s.client)
    && SameShape(s.server.value.buffers, t.server.value.buffers)
    && var cb, sb, r := s.client.buffers, s.server.value.buffers, t.server.value.buffers;
       && (forall j, k :: 0 <= j < |cb| && 0 <= k < |sb| && cb[j].sva == sb[k].sva && Input(cb[j].flags) ==>
             r[k].data == At(memory, cb[j].va, cb[j].len))
       && (forall k :: 0 <= k < |sb| && sb[k].sva !in Inputs(cb) ==> r[k] == sb[k])
  }

  /** In every run: a notify that is accepted leaves the server with what the client's memory held when
      the request was built, for the buffers on the client's list. */
  lemma AcceptedNotifyIsCoherent(start: State, es: seq<Event>, s: State, c: nat, d: Driver<()>, lost: bool)
    requires Inv(start) && Runs(start, es, s)
    requires s.Live? && c in s.calls && s.calls[c].Notifying? && ServeNotify(s, c, d, lost).Live?
    ensures s.server.Some? && SessionInMemory(s.calls[c].memory, s.client)
    ensures Notified(s, ServeNotify(s, c, d, lost), s.calls[c].memory)
  {
    InvRuns(start, es, s);
    assert CallInMemory(s, c, s.calls[c]);
    if s.server.None? {
      ClosedBreaksLists(s, c, d, Fails(EINVAL), lost);
    } else {
      NotifyIs(s, c, d, lost);
      PatchesApplied(s, s.calls[c].memory);
    }
  }

  lemma PatchesApplied(s: State, memory: bytes)
    requires s.Live? && s.server.Some? && Ends(s) && AllBooked(s) && SessionInMemory(memory, s.client)
    requires UpdateAll(s.server.value.buffers, Patches(InputRecords(memory, s.client.buffers))).1
    ensures var cb, sb := s.client.buffers, s.server.value.buffers;
            var r := UpdateAll(sb, Patches(InputRecords(memory, cb))).0;
            && SameShape(sb, r)
            && (forall j, k :: 0 <= j < |cb| && 0 <= k < |sb| && cb[j].sva == sb[k].sva && Input(cb[j].flags) ==>
                  r[k].data == At(memory, cb[j].va, cb[j].len))
            && (forall k :: 0 <= k < |sb| && sb[k].sva !in Inputs(cb) ==> r[k] == sb[k])
  {
    var cb, sb := s.client.buffers, s.server.value.buffers;
    var ps := Patches(InputRecords(memory, cb));
    InputPatchesAre(memory, cb, 0);
    InputPatchesDistinct(memory, cb, 0);
    PatchAddresses(memory, cb);
    UpdateAllShape(sb, ps);
    forall j, k | 0 <= j < |cb| && 0 <= k < |sb| && cb[j].sva == sb[k].sva && Input(cb[j].flags)
      ensures UpdateAll(sb, ps).0[k].data == At(memory, cb[j].va, cb[j].len)
    {
      var i :| 0 <= i < |ps| && ps[i] == Patch(cb[j].sva, At(memory, cb[j].va, cb[j].len));
      assert SlotBooked(s.history.book, cb[j]);
      UpdateAllSets(sb, ps, i, k);
    }
    forall k | 0 <= k < |sb| && sb[k].sva !in Inputs(cb)
      ensures UpdateAll(sb, ps).0[k] == sb[k]
    {
      UpdateAllKeeps(sb, ps, k);
    }
  }

  /* ---------- When a wait does not copy ---------- */

  /** In every run, also once the server has closed the session: the TCI of a response always fits, and a
      buffer of a response fits if and only if its address is on the client's list; a list that has it,
      has it with the same length. While the session is open that is so unless the map that gave the
      buffer out has not yet added it, or an unmap has taken it off at both ends since. */
  lemma WaitCopiesWhen(start: State, es: seq<Event>, s: State, c: nat)
    requires Inv(start) && Runs(start, es, s) && Enabled(s, CopyOne(c))
    ensures s.calls[c].tci.Some? ==> Fits(s, c)
    ensures s.calls[c].tci.None? ==>
              var x, h := s.calls[c].patches[0].sva, s.history;
              && (Fits(s, c) <==> x in Listed(s))
              && (s.server.Some? ==>
                    (!Fits(s, c) <==> x in h.joining || x !in Kept(s) + h.leaving.Keys + h.stranded))
  {
    InvRuns(start, es, s);
    assert CallBooked(s, s.calls[c]);
    if s.calls[c].tci.None? {
      var p := s.calls[c].patches[0];
      ListedWhen(s.client.buffers, p.sva);
      var k := FindSlot(s.client.buffers, p.sva);
      if k < |s.client.buffers| {
        assert SlotBooked(s.history.book, s.client.buffers[k]);
      }
    }
  }

  /** Copying a part that fits sets the memory of the TCI or of the buffer with that address and no
      other; a part that does not fit changes nothing and ends the wait. */
  lemma CopySets(s: State, c: nat)
    requires Enabled(s, CopyOne(c))
    ensures var t, call := Copy(s, c), s.calls[c];
            if !Fits(s, c) then t == Over(s, c)
            else if call.tci.Some? then
              t.mem == Write(s.mem, s.client.tci.value.va, call.tci.value)
              && At(t.mem, s.client.tci.value.va, s.client.tci.value.len) == call.tci.value
            else
              exists k :: 0 <= k < |s.client.buffers| && s.client.buffers[k].sva == call.patches[0].sva
                       && s.client.buffers[k].len == |call.patches[0].data|
                       && t.mem == Write(s.mem, s.client.buffers[k].va, call.patches[0].data)
                       && At(t.mem, s.client.buffers[k].va, s.client.buffers[k].len) == call.patches[0].data
  {
    if Fits(s, c) && s.calls[c].tci.Some? {
      WriteAt(s.mem, s.client.tci.value.va, s.calls[c].tci.value);
    } else if Fits(s, c) {
      var k := FindSlot(s.client.buffers, s.calls[c].patches[0].sva);
      WriteAt(s.mem, s.client.buffers[k].va, s.calls[c].patches[0].data);
    }
  }

  /* ---------- The lists when nothing is under way ---------- */

  datatype Listing = Listing(sva: U64, flags: nat, len: nat)

  function ClientListing(bs: seq<Slot>): (r: seq<Listing>)
    ensures |r| == |bs|
  {
    seq(|bs|, j requires 0 <= j < |bs| => Listing(bs[j].sva, bs[j].flags, bs[j].len))
  }

  function ServerListing(bs: seq<Buffer>): (r: seq<Listing>)
    ensures |r| == |bs|
  {
    seq(|bs|, k requires 0 <= k < |bs| => Listing(bs[k].sva, bs[k].flags, |bs[k].data|))
  }

  predicate Once(ls: seq<Listing>)
  {
    forall i, j :: 0 <= i < j < |ls| ==> ls[i] != ls[j]
  }

  lemma {:induction false} OnceCounts(ls: seq<Listing>, x: Listing)
    requires Once(ls)
    ensures multiset(ls)[x] == if x in ls then 1 else 0
    decreases |ls|
  {
    if ls != [] {
      assert ls == [ls[0]] + ls[1..];
      OnceCounts(ls[1..], x);
      forall j | 0 <= j < |ls[1..]|
        ensures ls[1..][j] != ls[0]
      {
        assert ls[1..][j] == ls[j + 1];
      }
    }
  }

  lemma SameElements(a: seq<Listing>, b: seq<Listing>)
    requires Once(a) && Once(b)
    ensures multiset(a) == multiset(b) <==> forall x :: x in a <==> x in b
  {
    forall x
      ensures multiset(a)[x] == (if x in a then 1 else 0) && multiset(b)[x] == (if x in b then 1 else 0)
    {
      OnceCounts(a, x);
      OnceCounts(b, x);
    }
    if multiset(a) == multiset(b) {
      forall x
        ensures x in a <==> x in b
      {
        assert x in multiset(a) <==> x in multiset(b);
      }
    }
  }

  /** What stands for an address on the client's list, and at the server, is what the book says. */
  lemma ListingsAre(s: State)
    requires s.Live? && s.server.Some? && Accounts(s)
    ensures Once(ClientListing(s.client.buffers)) && Once(ServerListing(s.server.value.buffers))
    ensures forall x :: x in ClientListing(s.client.buffers) <==>
              x.sva in Listed(s) && x.sva in s.history.book
              && s.history.book[x.sva].flags == x.flags && s.history.book[x.sva].len == x.len
    ensures forall x :: x in ServerListing(s.server.value.buffers) <==>
              x.sva in Kept(s) && x.sva in s.history.book
              && s.history.book[x.sva].flags == x.flags && s.history.book[x.sva].len == x.len
  {
    var cb, sb := s.client.buffers, s.server.value.buffers;
    forall x
      ensures x in ClientListing(cb) <==>
                x.sva in Listed(s) && x.sva in s.history.book
                && s.history.book[x.sva].flags == x.flags && s.history.book[x.sva].len == x.len
    {
      ClientListingOf(s, x);
    }
    forall x
      ensures x in ServerListing(sb) <==>
                x.sva in Kept(s) && x.sva in s.history.book
                && s.history.book[x.sva].flags == x.flags && s.history.book[x.sva].len == x.len
    {
      ServerListingOf(s, x);
    }
  }

  lemma ClientListingOf(s: State, x: Listing)
    requires s.Live? && SlotsBooked(s.history.book, s.client.buffers)
    ensures x in ClientListing(s.client.buffers) <==>
              x.sva in Listed(s) && x.sva in s.history.book
              && s.history.book[x.sva].flags == x.flags && s.history.book[x.sva].len == x.len
  {
    var cb := s.client.buffers;
    if x in ClientListing(cb) {
      var j :| 0 <= j < |cb| && ClientListing(cb)[j] == x;
      assert SlotBooked(s.history.book, cb[j]) && SlotSvas(cb)[j] == x.sva;
    }
    if x.sva in Listed(s) {
      var j :| 0 <= j < |SlotSvas(cb)| && SlotSvas(cb)[j] == x.sva;
      assert SlotBooked(s.history.book, cb[j]) && ClientListing(cb)[j].sva == x.sva;
    }
  }

  lemma ServerListingOf(s: State, x: Listing)
    requires s.Live? && s.server.Some? && BuffersBooked(s.history.book, s.server.value.buffers)
    ensures x in ServerListing(s.server.value.buffers) <==>
              x.sva in Kept(s) && x.sva in s.history.book
              && s.history.book[x.sva].flags == x.flags && s.history.book[x.sva].len == x.len
  {
    var sb := s.server.value.buffers;
    if x in ServerListing(sb) {
      var k :| 0 <= k < |sb| && ServerListing(sb)[k] == x;
      assert sb[k] in sb;
    }
    if x.sva in Kept(s) {
      var k :| 0 <= k < |sb| && sb[k].sva == x.sva;
      assert ServerListing(sb)[k].sva == x.sva;
    }
  }

  /** The removal of a buffer that is not on the client's list. */
  predicate Misses(s: State, e: Event)
    requires Enabled(s, e)
  {
    e.RemoveOne? && FindSlot(s.client.buffers, s.calls[e.c].slots[0].sva) == |s.client.buffers|
  }

  ghost predicate NoMiss(s: State, es: seq<Event>, t: State)
    requires Runs(s, es, t)
    decreases |es|
  {
    es == [] || (!Misses(s, es[0]) && NoMiss(Next(s, es[0]), es[1..], t))
  }

  /** An unmap misses a buffer exactly if it was served before the map of that buffer had added it. */
  lemma MissesWhen(start: State, es: seq<Event>, s: State, c: nat)
    requires Inv(start) && Runs(start, es, s) && Enabled(s, RemoveOne(c)) && s.server.Some?
    ensures Misses(s, RemoveOne(c)) <==> s.calls[c].slots[0].sva in s.history.joining
  {
    InvRuns(start, es, s);
    FirstOwned(s.history.leaving, c, s.calls[c], false);
    ListedWhen(s.client.buffers, s.calls[c].slots[0].sva);
  }

  predicate SameStranded(s: State, t: State)
    requires s.Live?
  {
    t.Live? ==> t.history.stranded == s.history.stranded
  }

  lemma ListsStrand(s: State, c: nat, d: Driver<()>, maps: Driver<seq<U64>>, lost: bool)
    requires s.Live? && c in s.calls
    ensures s.calls[c].Mapping? ==> SameStranded(s, ServeMap(s, c, maps, lost))
    ensures s.calls[c].Unmapping? ==> SameStranded(s, ServeUnmap(s, c, d, lost))
  {
  }

  lemma WaitStrands(s: State, c: nat, d: Driver<()>, lost: bool)
    requires s.Live? && c in s.calls && s.calls[c].Waiting?
    ensures SameStranded(s, ServeWait(s, c, d, lost))
  {
  }

  lemma OthersStrand(s: State, c: nat, d: Driver<()>, lost: bool)
    requires s.Live? && c in s.calls
    ensures s.calls[c].Notifying? ==> SameStranded(s, ServeNotify(s, c, d, lost))
    ensures s.calls[c].Closing? ==> SameStranded(s, ServeClose(s, c, d, lost))
  {
  }

  /** Only an unmap that misses a buffer strands addresses. */
  lemma StrandedStep(s: State, e: Event)
    requires Enabled(s, e) && Next(s, e).Live?
    ensures s.history.stranded <= Next(s, e).history.stranded
    ensures if Misses(s, e) then Next(s, e).history.stranded != {}
            else Next(s, e).history.stranded == s.history.stranded
  {
    if e.Serve? {
      ListsStrand(s, e.c, e.does, e.maps, e.lost);
      OthersStrand(s, e.c, e.does, e.lost);
      if s.calls[e.c].Waiting? {
        WaitStrands(s, e.c, e.does, e.lost);
      }
    } else if Misses(s, e) {
      FirstAndRest(s.calls[e.c].slots);
      assert s.calls[e.c].slots[0].sva in Next(s, e).history.stranded;
    }
  }

  lemma {:induction false} StrandedRuns(s: State, es: seq<Event>, t: State)
    requires s.Live? && t.Live? && Runs(s, es, t)
    ensures s.history.stranded <= t.history.stranded
    ensures s.history.stranded == {} ==> (t.history.stranded == {} <==> NoMiss(s, es, t))
    decreases |es|
  {
    if es != [] {
      if Next(s, es[0]).Gone? {
        GoneStays(Next(s, es[0]), es[1..], t);
      } else {
        StrandedStep(s, es[0]);
        StrandedRuns(Next(s, es[0]), es[1..], t);
      }
    }
  }

  lemma GoneStays(s: State, es: seq<Event>, t: State)
    requires s.Gone? && Runs(s, es, t)
    ensures t == s
  {
  }

  /** In every run from the opening of a session, whenever no operation is under way and the session is
      open: the lists at the two ends hold the same buffers, with the same flags and lengths, if and only
      if no unmap has missed a buffer. (They can be in different order: `MapsCross`.) */
  lemma QuietListsAgree(mem: bytes, client: ClientSession, server: Session, es: seq<Event>, t: State)
    requires Opened(mem, client, server) && Runs(Start(mem, client, server), es, t)
    requires Quiet(t) && t.server.Some?
    ensures multiset(ClientListing(t.client.buffers)) == multiset(ServerListing(t.server.value.buffers))
       <==> NoMiss(Start(mem, client, server), es, t)
  {
    var start := Start(mem, client, server);
    StartInv(mem, client, server);
    InvRuns(start, es, t);
    StrandedRuns(start, es, t);
    NothingPending(t.history.joining, true);
    NothingPending(t.history.leaving, false);
    ListingsAre(t);
    SameElements(ClientListing(t.client.buffers), ServerListing(t.server.value.buffers));
    AllInBook(t);
    if t.history.stranded != {} {
      var x :| x in t.history.stranded;
      var b := t.history.book[x];
      assert Listing(x, b.flags, b.len) in ClientListing(t.client.buffers);
      assert Listing(x, b.flags, b.len) !in ServerListing(t.server.value.buffers);
    }
  }
}
