/**
 What overlapping operations on one connection keep: every address the server has given out is accounted
 for, at the server, on the client's list, or with the caller that is about to add it or take it off.
 */
module ProxyOverlap {
  import opened Wire
  import opened Message
  import opened Canonical
  import opened Schemas
  import opened Framing
  import opened Ioctl
  import opened ProxyServer
  import opened ProxyClient
  import opened ProxyMirror
  import opened ProxyAnswers
  import opened ProxyLists
  import opened ProxyRuns
  import opened ProxyCallers

  /* ---------- Addresses under way ---------- */

  function Listed(s: State): set<U64>
    requires s.Live?
  {
    AsSet(SlotSvas(s.client.buffers))
  }

  function Kept(s: State): set<U64>
    requires s.Live? && s.server.Some?
  {
    Addresses(s.server.value.buffers)
  }

  /** What the server keeps and what has been or is being unmapped is what the client lists and what is
      being mapped; nothing is in two of these places. */
  predicate Balanced(s: State)
    requires s.Live? && s.server.Some?
  {
    var h := s.history;
    && Kept(s) + h.leaving.Keys + h.stranded == Listed(s) + h.joining.Keys
    && Kept(s) !! h.leaving.Keys && Kept(s) !! h.stranded && h.leaving.Keys !! h.stranded
    && Listed(s) !! h.joining.Keys
  }

  /** The buffers a caller is about to add, or to take off. */
  function Pending(call: Call, adds: bool): seq<Slot>
  {
    if call.Adding? && adds then call.slots
    else if call.Removing? && !adds then call.slots
    else []
  }

  function PendingSet(call: Call, adds: bool): set<U64>
  {
    AsSet(SlotSvas(Pending(call, adds)))
  }

  /** Caller `c` owns just the addresses of its pending buffers. */
  ghost predicate OwnsOne(owners: map<U64, nat>, c: nat, call: Call, adds: bool)
  {
    && NoRepeat(SlotSvas(Pending(call, adds)))
    && forall x :: x in owners && owners[x] == c <==> x in PendingSet(call, adds)
  }

  ghost predicate Owns(owners: map<U64, nat>, calls: map<nat, Call>, adds: bool)
  {
    && (forall c :: c in calls ==> OwnsOne(owners, c, calls[c], adds))
    && (forall x :: x in owners ==> owners[x] in calls)
  }

  predicate SlotBooked(book: map<U64, Entry>, b: Slot)
  {
    b.sva in book && book[b.sva] == Entry(b.flags, b.len)
  }

  predicate SlotsBooked(book: map<U64, Entry>, bs: seq<Slot>)
  {
    forall j :: 0 <= j < |bs| ==> SlotBooked(book, bs[j])
  }

  predicate BuffersBooked(book: map<U64, Entry>, bs: seq<Buffer>)
  {
    forall j :: 0 <= j < |bs| ==>
      bs[j].sva in book && book[bs[j].sva].flags == bs[j].flags && book[bs[j].sva].len == |bs[j].data|
  }

  predicate PatchesBooked(book: map<U64, Entry>, ps: seq<Patch>)
  {
    forall j :: 0 <= j < |ps| ==> ps[j].sva in book && book[ps[j].sva].len == |ps[j].data|
  }

  /** What an operation holds agrees with what the server gave out. */
  predicate CallBooked(s: State, call: Call)
    requires s.Live?
  {
    match call
    case Adding(slots) => slots != [] && SlotsBooked(s.history.book, slots)
    case Removing(slots) => slots != []
    case Copying(tci, patches) =>
      && PatchesBooked(s.history.book, patches)
      && (tci.Some? ==> s.client.tci.Some? && |tci.value| == s.client.tci.value.len)
    case _ => true
  }

  /** The client's half; it still holds once the server has closed the session. */
  predicate ClientBooked(s: State)
    requires s.Live?
  {
    && SlotsBooked(s.history.book, s.client.buffers)
    && forall c :: c in s.calls ==> CallBooked(s, s.calls[c])
  }

  predicate AllBooked(s: State)
    requires s.Live? && s.server.Some?
  {
    ClientBooked(s) && BuffersBooked(s.history.book, s.server.value.buffers)
  }

  predicate Ends(s: State)
    requires s.Live? && s.server.Some?
  {
    && s.server.value.id == s.client.id && SameTci(s.client.tci, s.server.value.tci)
    && Distinct(s.client.buffers) && DistinctBuffers(s.server.value.buffers)
  }

  /* ---------- Memory and the mutex ---------- */

  predicate CallInMemory(s: State, c: nat, call: Call)
    requires s.Live?
  {
    match call
    case Notifying(data, memory) =>
      && s.mutex == Some(c) && |memory| == |s.mem| && SessionInMemory(memory, s.client)
      && data == Serialize(NOTIFY_REQUEST, NotifyRequest(memory, s.client))
    case Mapping(chosen) => BuffersInMemory(s.mem, chosen)
    case Adding(slots) => BuffersInMemory(s.mem, slots)
    case _ => true
  }

  predicate InPlace(s: State)
    requires s.Live?
  {
    && SessionInMemory(s.mem, s.client)
    && (forall c :: c in s.calls ==> CallInMemory(s, c, s.calls[c]))
    && (s.mutex.Some? ==> s.mutex.value in s.calls && s.calls[s.mutex.value].Notifying?)
  }

  ghost predicate Accounts(s: State)
    requires s.Live? && s.server.Some?
  {
    && Ends(s) && Balanced(s) && AllBooked(s)
    && Owns(s.history.joining, s.calls, true) && Owns(s.history.leaving, s.calls, false)
  }

  ghost predicate Inv(s: State)
  {
    s.Live? ==> InPlace(s) && ClientBooked(s) && (s.server.Some? ==> Accounts(s))
  }

  /* ---------- Owners of addresses ---------- */

  /** Nothing changes for the callers other than `c`. */
  ghost predicate SameForOthers(owners: map<U64, nat>, after: map<U64, nat>, c: nat)
  {
    forall x :: (x in owners && owners[x] != c) || (x in after && after[x] != c) ==>
      x in owners && x in after && owners[x] == after[x]
  }

  lemma OthersOwn(owners: map<U64, nat>, after: map<U64, nat>, c: nat, d: nat, call: Call, adds: bool)
    requires SameForOthers(owners, after, c) && OwnsOne(owners, d, call, adds) && d != c
    ensures OwnsOne(after, d, call, adds)
  {
  }

  /** One caller's operation changes, or comes to its end. */
  lemma OwnsStep(owners: map<U64, nat>, after: map<U64, nat>, calls: map<nat, Call>, then_: map<nat, Call>,
                 adds: bool, c: nat)
    requires Owns(owners, calls, adds) && SameForOthers(owners, after, c)
    requires then_ - {c} == calls - {c}
    requires c in then_ ==> OwnsOne(after, c, then_[c], adds)
    requires c !in then_ ==> forall x :: x in after ==> after[x] != c
    ensures Owns(after, then_, adds)
  {
    forall d | d in then_ && d != c
      ensures OwnsOne(after, d, then_[d], adds)
    {
      assert d in then_ - {c} && d in calls - {c} && then_[d] == calls[d];
      OthersOwn(owners, after, c, d, calls[d], adds);
    }
    forall x | x in after
      ensures after[x] in then_
    {
      if after[x] != c {
        assert after[x] in calls - {c};
        assert after[x] in then_ - {c};
      }
    }
  }

  lemma FirstAndRest(slots: seq<Slot>)
    requires slots != []
    ensures AsSet(SlotSvas(slots)) == {slots[0].sva} + AsSet(SlotSvas(slots[1..]))
    ensures NoRepeat(SlotSvas(slots)) ==>
              slots[0].sva !in AsSet(SlotSvas(slots[1..])) && NoRepeat(SlotSvas(slots[1..]))
  {
    assert SlotSvas(slots)[1..] == SlotSvas(slots[1..]);
    RestAsSet(SlotSvas(slots));
  }

  lemma NothingPending(owners: map<U64, nat>, adds: bool)
    requires Owns(owners, map[], adds)
    ensures owners.Keys == {}
  {
  }

  /* ---------- The client's list ---------- */

  lemma ListedWhen(bs: seq<Slot>, sva: U64)
    ensures FindSlot(bs, sva) < |bs| <==> sva in AsSet(SlotSvas(bs))
  {
    if sva in AsSet(SlotSvas(bs)) {
      var k :| 0 <= k < |SlotSvas(bs)| && SlotSvas(bs)[k] == sva;
      assert bs[k].sva == sva;
    }
    if FindSlot(bs, sva) < |bs| {
      assert SlotSvas(bs)[FindSlot(bs, sva)] == sva;
    }
  }

  lemma ListGrows(bs: seq<Slot>, b: Slot)
    requires Distinct(bs) && b.sva !in AsSet(SlotSvas(bs))
    ensures Distinct(bs + [b]) && AsSet(SlotSvas(bs + [b])) == AsSet(SlotSvas(bs)) + {b.sva}
  {
    forall j | 0 <= j < |bs|
      ensures bs[j].sva != b.sva
    {
      assert SlotSvas(bs)[j] == bs[j].sva;
    }
    assert SlotSvas(bs + [b]) == SlotSvas(bs) + [b.sva];
  }

  lemma ListShrinks(bs: seq<Slot>, k: nat)
    requires Distinct(bs) && k < |bs|
    ensures var r := bs[..k] + bs[k + 1..];
            && Distinct(r) && AsSet(SlotSvas(r)) == AsSet(SlotSvas(bs)) - {bs[k].sva}
            && forall b :: b in r ==> b in bs
  {
    var r := bs[..k] + bs[k + 1..];
    forall x
      ensures x in AsSet(SlotSvas(r)) <==> x in AsSet(SlotSvas(bs)) && x != bs[k].sva
    {
      if x in AsSet(SlotSvas(bs)) && x != bs[k].sva {
        var i :| 0 <= i < |SlotSvas(bs)| && SlotSvas(bs)[i] == x;
        assert SlotSvas(r)[if i < k then i else i - 1] == x;
      }
      if x in AsSet(SlotSvas(r)) {
        var i :| 0 <= i < |SlotSvas(r)| && SlotSvas(r)[i] == x;
        assert SlotSvas(bs)[if i < k then i else i + 1] == x;
      }
    }
  }

  /* ---------- Steps of the callers ---------- */

  /** The call of `c` gets on, the others stay. */
  lemma CallsInPlace(s: State, t: State, c: nat)
    requires s.Live? && t.Live? && InPlace(s) && c in s.calls && !s.calls[c].Notifying?
    requires |t.mem| == |s.mem| && t.mutex == s.mutex && t.client.id == s.client.id && t.client.tci == s.client.tci
    requires SessionInMemory(t.mem, t.client)
    requires t.mutex.Some? ==> t.client == s.client
    requires t.calls == s.calls - {c} ||
             (c in t.calls && t.calls == s.calls[c := t.calls[c]] && CallInMemory(t, c, t.calls[c]))
    ensures InPlace(t)
  {
    forall d | d in t.calls && d != c
      ensures CallInMemory(t, d, t.calls[d])
    {
      assert CallInMemory(s, d, s.calls[d]);
    }
  }

  lemma AddInPlace(s: State, c: nat)
    requires s.Live? && InPlace(s) && s.mutex.None? && c in s.calls && s.calls[c].Adding? && s.calls[c].slots != []
    ensures InPlace(Add(s, c))
  {
    assert CallInMemory(s, c, s.calls[c]);
    CallsInPlace(s, Add(s, c), c);
  }

  /** Caller `c` has dealt with the first of its pending buffers. */
  lemma OwnsLess(s: State, t: State, c: nat, adds: bool, owners: map<U64, nat>, x: U64)
    requires s.Live? && t.Live? && c in s.calls && Owns(owners, s.calls, adds) && Pending(s.calls[c], adds) != []
    requires x == Pending(s.calls[c], adds)[0].sva
    requires if |Pending(s.calls[c], adds)| == 1 then t.calls == s.calls - {c}
             else c in t.calls && t.calls == s.calls[c := t.calls[c]]
                  && Pending(t.calls[c], adds) == Pending(s.calls[c], adds)[1..]
    ensures Owns(owners - {x}, t.calls, adds)
  {
    var slots := Pending(s.calls[c], adds);
    assert OwnsOne(owners, c, s.calls[c], adds);
    FirstAndRest(slots);
    if c in t.calls {
      assert OwnsOne(owners - {x}, c, t.calls[c], adds);
    } else {
      assert AsSet(SlotSvas(slots[1..])) == {};
    }
    assert t.calls - {c} == s.calls - {c};
    OwnsStep(owners, owners - {x}, s.calls, t.calls, adds, c);
  }

  /** Caller `c` had nothing pending of this kind and has not now. */
  lemma OwnsSame(s: State, t: State, c: nat, adds: bool, owners: map<U64, nat>)
    requires s.Live? && t.Live? && Owns(owners, s.calls, adds) && t.calls - {c} == s.calls - {c}
    requires c in s.calls ==> Pending(s.calls[c], adds) == []
    requires c in t.calls ==> Pending(t.calls[c], adds) == []
    ensures Owns(owners, t.calls, adds)
  {
    if c in s.calls {
      assert OwnsOne(owners, c, s.calls[c], adds);
    }
    OwnsStep(owners, owners, s.calls, t.calls, adds, c);
  }

  lemma AddOwns(s: State, c: nat)
    requires s.Live? && c in s.calls && s.calls[c].Adding? && s.calls[c].slots != []
    requires Owns(s.history.joining, s.calls, true) && Owns(s.history.leaving, s.calls, false)
    ensures var t := Add(s, c);
            Owns(t.history.joining, t.calls, true) && Owns(t.history.leaving, t.calls, false)
  {
    var t := Add(s, c);
    assert t.calls - {c} == s.calls - {c};
    OwnsLess(s, t, c, true, s.history.joining, s.calls[c].slots[0].sva);
    OwnsSame(s, t, c, false, s.history.leaving);
  }

  /** The operations of the other callers still agree with what was given out. */
  lemma CallsBooked(s: State, t: State, c: nat)
    requires s.Live? && t.Live? && t.client.tci == s.client.tci && t.calls - {c} == s.calls - {c}
    requires forall x :: x in s.history.book ==> x in t.history.book && t.history.book[x] == s.history.book[x]
    requires forall d :: d in s.calls ==> CallBooked(s, s.calls[d])
    requires c in t.calls ==> CallBooked(t, t.calls[c])
    ensures forall d :: d in t.calls ==> CallBooked(t, t.calls[d])
  {
    forall d | d in t.calls && d != c
      ensures CallBooked(t, t.calls[d])
    {
      assert d in t.calls - {c} && d in s.calls - {c};
      assert CallBooked(s, s.calls[d]);
    }
  }

  /** Adding moves an address from those being mapped to the client's list. */
  lemma AddBalance(s: State, t: State, b: Slot)
    requires s.Live? && t.Live? && s.server.Some? && Ends(s) && Balanced(s) && b.sva in s.history.joining
    requires t.server == s.server && t.client == s.client.(buffers := s.client.buffers + [b])
    requires t.history == s.history.(joining := s.history.joining - {b.sva})
    ensures Ends(t) && Balanced(t)
  {
    ListGrows(s.client.buffers, b);
  }

  /** The first pending buffer of a caller. */
  lemma FirstOwned(owners: map<U64, nat>, c: nat, call: Call, adds: bool)
    requires OwnsOne(owners, c, call, adds) && Pending(call, adds) != []
    ensures Pending(call, adds)[0].sva in owners && owners[Pending(call, adds)[0].sva] == c
  {
    FirstAndRest(Pending(call, adds));
    assert Pending(call, adds)[0].sva in PendingSet(call, adds);
  }

  lemma AddClientBooked(s: State, c: nat)
    requires s.Live? && c in s.calls && s.calls[c].Adding? && s.calls[c].slots != [] && ClientBooked(s)
    ensures ClientBooked(Add(s, c))
  {
    assert CallBooked(s, s.calls[c]);
    assert Add(s, c).calls - {c} == s.calls - {c};
    CallsBooked(s, Add(s, c), c);
  }

  lemma {:induction false} AddKeeps(s: State, c: nat)
    requires s.Live? && c in s.calls && s.calls[c].Adding? && s.calls[c].slots != []
    requires s.server.Some? && Accounts(s)
    ensures Accounts(Add(s, c))
  {
    var t := Add(s, c);
    var slots := s.calls[c].slots;
    FirstOwned(s.history.joining, c, s.calls[c], true);
    AddBalance(s, t, slots[0]);
    AddClientBooked(s, c);
    AddOwns(s, c);
  }

  /* ---------- Taking off ---------- */

  lemma TakeOffInPlace(s: State, c: nat)
    requires s.Live? && InPlace(s) && s.mutex.None? && c in s.calls && s.calls[c].Removing? && s.calls[c].slots != []
    ensures InPlace(TakeOff(s, c))
  {
    CallsInPlace(s, TakeOff(s, c), c);
  }

  lemma TakeOffClientBooked(s: State, c: nat)
    requires s.Live? && c in s.calls && s.calls[c].Removing? && s.calls[c].slots != [] && ClientBooked(s)
    ensures ClientBooked(TakeOff(s, c))
  {
    assert TakeOff(s, c).calls - {c} == s.calls - {c};
    CallsBooked(s, TakeOff(s, c), c);
  }

  /** Taking off moves an address from those being unmapped out of the books of both ends. */
  lemma TakeOffBalance(s: State, t: State, k: nat)
    requires s.Live? && t.Live? && s.server.Some? && Ends(s) && Balanced(s) && k < |s.client.buffers|
    requires s.client.buffers[k].sva in s.history.leaving && t.server == s.server
    requires t.client == s.client.(buffers := s.client.buffers[..k] + s.client.buffers[k + 1..])
    requires t.history == s.history.(leaving := s.history.leaving - {s.client.buffers[k].sva})
    ensures Ends(t) && Balanced(t)
  {
    ListShrinks(s.client.buffers, k);
    assert SlotSvas(s.client.buffers)[k] in Listed(s);
  }

  /** An unmap gives up: its addresses are stranded. */
  lemma StrandBalance(s: State, t: State, rest: set<U64>)
    requires s.Live? && t.Live? && s.server.Some? && Ends(s) && Balanced(s) && rest <= s.history.leaving.Keys
    requires t.server == s.server && t.client == s.client
    requires t.history == s.history.(leaving := s.history.leaving - rest, stranded := s.history.stranded + rest)
    ensures Ends(t) && Balanced(t)
  {
  }

  lemma StrandOwns(s: State, t: State, c: nat)
    requires s.Live? && t.Live? && c in s.calls && t.calls == s.calls - {c} && s.calls[c].Removing?
    requires Owns(s.history.leaving, s.calls, false) && Owns(s.history.joining, s.calls, true)
    ensures PendingSet(s.calls[c], false) <= s.history.leaving.Keys
    ensures Owns(s.history.leaving - PendingSet(s.calls[c], false), t.calls, false)
    ensures Owns(s.history.joining, t.calls, true)
  {
    var owners := s.history.leaving;
    assert OwnsOne(owners, c, s.calls[c], false);
    assert t.calls - {c} == s.calls - {c};
    OwnsStep(owners, owners - PendingSet(s.calls[c], false), s.calls, t.calls, false, c);
    OwnsSame(s, t, c, true, s.history.joining);
  }

  lemma FoundOwns(s: State, c: nat)
    requires s.Live? && c in s.calls && s.calls[c].Removing? && s.calls[c].slots != []
    requires Owns(s.history.joining, s.calls, true) && Owns(s.history.leaving, s.calls, false)
    requires FindSlot(s.client.buffers, s.calls[c].slots[0].sva) < |s.client.buffers|
    ensures s.calls[c].slots[0].sva in s.history.leaving
    ensures var t := TakeOff(s, c);
            Owns(t.history.joining, t.calls, true) && Owns(t.history.leaving, t.calls, false)
  {
    var t := TakeOff(s, c);
    assert t.calls - {c} == s.calls - {c};
    FirstOwned(s.history.leaving, c, s.calls[c], false);
    OwnsLess(s, t, c, false, s.history.leaving, s.calls[c].slots[0].sva);
    OwnsSame(s, t, c, true, s.history.joining);
  }

  lemma FoundBalance(s: State, c: nat)
    requires s.Live? && c in s.calls && s.calls[c].Removing? && s.calls[c].slots != [] && s.server.Some?
    requires Ends(s) && Balanced(s) && s.calls[c].slots[0].sva in s.history.leaving
    requires FindSlot(s.client.buffers, s.calls[c].slots[0].sva) < |s.client.buffers|
    ensures Ends(TakeOff(s, c)) && Balanced(TakeOff(s, c))
  {
    TakeOffBalance(s, TakeOff(s, c), FindSlot(s.client.buffers, s.calls[c].slots[0].sva));
  }

  lemma FoundKeeps(s: State, c: nat)
    requires s.Live? && c in s.calls && s.calls[c].Removing? && s.calls[c].slots != []
    requires s.server.Some? && Accounts(s)
    requires FindSlot(s.client.buffers, s.calls[c].slots[0].sva) < |s.client.buffers|
    ensures Accounts(TakeOff(s, c))
  {
    FoundOwns(s, c);
    FoundBalance(s, c);
    TakeOffClientBooked(s, c);
  }

  lemma MissedKeeps(s: State, c: nat)
    requires s.Live? && c in s.calls && s.calls[c].Removing? && s.calls[c].slots != []
    requires s.server.Some? && Accounts(s)
    requires FindSlot(s.client.buffers, s.calls[c].slots[0].sva) == |s.client.buffers|
    ensures Accounts(TakeOff(s, c))
  {
    var t := TakeOff(s, c);
    StrandOwns(s, t, c);
    StrandBalance(s, t, PendingSet(s.calls[c], false));
    TakeOffClientBooked(s, c);
  }

  lemma TakeOffKeeps(s: State, c: nat)
    requires s.Live? && c in s.calls && s.calls[c].Removing? && s.calls[c].slots != []
    requires s.server.Some? && Accounts(s)
    ensures Accounts(TakeOff(s, c))
  {
    if FindSlot(s.client.buffers, s.calls[c].slots[0].sva) < |s.client.buffers| {
      FoundKeeps(s, c);
    } else {
      MissedKeeps(s, c);
    }
  }

  /* ---------- Copying back ---------- */

  lemma CopyInPlace(s: State, c: nat)
    requires s.Live? && InPlace(s) && c in s.calls && s.calls[c].Copying?
    requires s.calls[c].tci.Some? || s.calls[c].patches != []
    ensures InPlace(Copy(s, c))
  {
    CallsInPlace(s, Copy(s, c), c);
  }

  /** A step that changes no list. */
  lemma ListsKept(s: State, t: State, c: nat)
    requires s.Live? && t.Live? && s.server.Some? && Accounts(s)
    requires t.client == s.client && t.server == s.server && t.history == s.history
    requires t.calls - {c} == s.calls - {c}
    requires c in t.calls ==> CallBooked(t, t.calls[c]) && !t.calls[c].Adding? && !t.calls[c].Removing?
    requires c in s.calls ==> !s.calls[c].Adding? && !s.calls[c].Removing?
    ensures Accounts(t)
  {
    CallsBooked(s, t, c);
    OwnsSame(s, t, c, true, s.history.joining);
    OwnsSame(s, t, c, false, s.history.leaving);
  }

  lemma CopyClientBooked(s: State, c: nat)
    requires s.Live? && c in s.calls && s.calls[c].Copying?
    requires s.calls[c].tci.Some? || s.calls[c].patches != []
    requires SessionInMemory(s.mem, s.client) && ClientBooked(s)
    ensures ClientBooked(Copy(s, c))
  {
    assert CallBooked(s, s.calls[c]);
    assert Copy(s, c).calls - {c} == s.calls - {c};
    CallsBooked(s, Copy(s, c), c);
  }

  lemma CopyKeeps(s: State, c: nat)
    requires s.Live? && c in s.calls && s.calls[c].Copying?
    requires s.calls[c].tci.Some? || s.calls[c].patches != []
    requires SessionInMemory(s.mem, s.client) && s.server.Some? && Accounts(s)
    ensures Accounts(Copy(s, c))
  {
    var t := Copy(s, c);
    assert CallBooked(s, s.calls[c]);
    assert t.calls - {c} == s.calls - {c};
    ListsKept(s, t, c);
  }

  /* ---------- Exchanges ---------- */

  /** Everything the server keeps, and everything under way, has been given out. */
  lemma AllInBook(s: State)
    requires s.Live? && s.server.Some? && Accounts(s)
    ensures Listed(s) + s.history.joining.Keys <= s.history.book.Keys
    ensures s.history.leaving.Keys + s.history.stranded + Kept(s) <= s.history.book.Keys
  {
    forall x | x in Listed(s)
      ensures x in s.history.book
    {
      var j :| 0 <= j < |SlotSvas(s.client.buffers)| && SlotSvas(s.client.buffers)[j] == x;
      assert SlotBooked(s.history.book, s.client.buffers[j]);
    }
    forall x | x in s.history.joining
      ensures x in s.history.book
    {
      var c := s.history.joining[x];
      assert OwnsOne(s.history.joining, c, s.calls[c], true) && CallBooked(s, s.calls[c]);
      var slots := s.calls[c].slots;
      var j :| 0 <= j < |SlotSvas(slots)| && SlotSvas(slots)[j] == x;
      assert SlotBooked(s.history.book, slots[j]);
    }
  }

  /** Entering slots in the book leaves the other entries alone. */
  lemma {:induction false} BookedKeys(book: map<U64, Entry>, slots: seq<Slot>)
    ensures Booked(book, slots).Keys == book.Keys + AsSet(SlotSvas(slots))
    decreases |slots|
  {
    if slots != [] {
      FirstAndRest(slots);
      BookedKeys(book[slots[0].sva := Entry(slots[0].flags, slots[0].len)], slots[1..]);
    }
  }

  lemma {:induction false} BookedIs(book: map<U64, Entry>, slots: seq<Slot>)
    ensures forall x :: x in book && x !in AsSet(SlotSvas(slots)) ==>
              x in Booked(book, slots) && Booked(book, slots)[x] == book[x]
    ensures NoRepeat(SlotSvas(slots)) ==> SlotsBooked(Booked(book, slots), slots)
    decreases |slots|
  {
    if slots != [] {
      var next := book[slots[0].sva := Entry(slots[0].flags, slots[0].len)];
      FirstAndRest(slots);
      BookedIs(next, slots[1..]);
      if NoRepeat(SlotSvas(slots)) {
        forall j | 0 <= j < |slots|
          ensures SlotBooked(Booked(book, slots), slots[j])
        {
          if j > 0 {
            assert SlotBooked(Booked(next, slots[1..]), slots[1..][j - 1]);
          }
        }
      }
    }
  }

  lemma WithSvasIs(chosen: seq<Slot>, svas: seq<U64>)
    requires |svas| == |chosen|
    ensures SlotSvas(WithSvas(chosen, svas)) == svas
  {
  }

  /** The server's list with the buffers of a mapping. */
  lemma KeptGrows(bs: seq<Buffer>, chosen: seq<Slot>, svas: seq<U64>)
    requires DistinctBuffers(bs) && |svas| == |chosen| && NoRepeat(svas) && AsSet(svas) !! Addresses(bs)
    ensures DistinctBuffers(bs + Allocated(chosen, svas))
    ensures Addresses(bs + Allocated(chosen, svas)) == Addresses(bs) + AsSet(svas)
  {
    var all := bs + Allocated(chosen, svas);
    AddressesAre(bs);
    AddressesAre(all);
    assert BufferSvas(all) == BufferSvas(bs) + svas;
    forall i, j | 0 <= i < |bs| && 0 <= j < |svas|
      ensures BufferSvas(bs)[i] != svas[j]
    {
      assert BufferSvas(bs)[i] in AsSet(BufferSvas(bs)) && svas[j] in AsSet(svas);
    }
  }

  /** What a served map leaves: the server keeps the new buffers, the caller is about to add them. */
  predicate Mapped(s: State, t: State, c: nat, svas: seq<U64>)
    requires s.Live? && s.server.Some? && c in s.calls && s.calls[c].Mapping? && |svas| == |s.calls[c].chosen|
  {
    var slots := WithSvas(s.calls[c].chosen, svas);
    && t.Live? && t.client == s.client && t.mem == s.mem && t.mutex == s.mutex
    && t.server == Some(s.server.value.(buffers := s.server.value.buffers + Allocated(s.calls[c].chosen, svas)))
    && t.history == s.history.(book := Booked(s.history.book, slots), joining := Owned(s.history.joining, slots, c))
    && t.calls == s.calls[c := Adding(slots)]
  }

  lemma MapReplyIs(s: State, c: nat, d: Driver<seq<U64>>, o: Outcome)
    requires s.Live? && s.server.Some? && c in s.calls && s.calls[c].Mapping? && WellFormed(MAP_RESPONSE)
    requires match MapEffect(s.server.value, s.calls[c].chosen, d)
             case Breaks => Receive(MAP_RESPONSE, o.reply).Broken?
             case Refuses(errno) =>
               o.session == s.server && Receive(MAP_RESPONSE, o.reply) == Refused(errno, Empty(MAP_RESPONSE))
             case Does(t, svas) => o.session == Some(t) && Receive(MAP_RESPONSE, o.reply) == Done(MapResponse(svas))
    ensures var t := MapReply(s, c, o);
            match MapEffect(s.server.value, s.calls[c].chosen, d)
            case Breaks => t == Gone(s.mem)
            case Refuses(_) => t == Over(s, c)
            case Does(_, svas) => |svas| == |s.calls[c].chosen| && Mapped(s, t, c, svas)
  {
    assert s.(server := s.server) == s;
    if MapEffect(s.server.value, s.calls[c].chosen, d).Does? {
      assert Svas(MapResponse(d.value).fields[0]) == d.value;
    }
  }

  lemma MapIs(s: State, c: nat, d: Driver<seq<U64>>, lost: bool)
    requires s.Live? && s.server.Some? && c in s.calls && s.calls[c].Mapping?
    ensures var t := ServeMap(s, c, d, lost);
            if lost || |s.calls[c].chosen| > MAP_MAX || !FlagsOk(s.calls[c].chosen) then t == Gone(s.mem)
            else if d.Works? && 0 < |d.value| == |s.calls[c].chosen| then Mapped(s, t, c, d.value)
            else t == Over(s, c)
  {
    var chosen := s.calls[c].chosen;
    MapTablesFit();
    if |chosen| <= MAP_MAX {
      MapRequestFits(s.client.id, chosen);
    }
    if Sends(MAP_REQUEST, MapRequest(s.client.id, chosen), lost) {
      MapExchange(s.server.value, s.client.id, chosen, d);
      MapReplyIs(s, c, d, ProxyServer.Map(s.server, Serialize(MAP_REQUEST, MapRequest(s.client.id, chosen)), d));
    }
  }

  lemma NewApart(h: History, svas: seq<U64>)
    requires New(h, svas)
    ensures AsSet(svas) !! h.book.Keys
  {
    forall x | x in AsSet(svas)
      ensures x !in h.book
    {
      var j :| 0 <= j < |svas| && svas[j] == x;
    }
  }

  lemma MappedEnds(s: State, t: State, c: nat, svas: seq<U64>)
    requires s.Live? && s.server.Some? && c in s.calls && s.calls[c].Mapping? && |svas| == |s.calls[c].chosen|
    requires Mapped(s, t, c, svas) && Ends(s) && NoRepeat(svas) && AsSet(svas) !! Kept(s)
    ensures Ends(t) && Kept(t) == Kept(s) + AsSet(svas)
    ensures t.history.joining.Keys == s.history.joining.Keys + AsSet(svas)
  {
    WithSvasIs(s.calls[c].chosen, svas);
    KeptGrows(s.server.value.buffers, s.calls[c].chosen, svas);
  }

  /** New addresses join what the server keeps and what is being mapped. */
  lemma BalanceGrows(s: State, t: State, more: set<U64>)
    requires s.Live? && t.Live? && s.server.Some? && t.server.Some? && Balanced(s)
    requires Kept(t) == Kept(s) + more && t.history.joining.Keys == s.history.joining.Keys + more
    requires t.client == s.client && t.history.leaving == s.history.leaving && t.history.stranded == s.history.stranded
    requires more !! Kept(s) + s.history.leaving.Keys + s.history.stranded + Listed(s)
    ensures Balanced(t)
  {
    hide Kept;
  }

  lemma MappedBalance(s: State, t: State, c: nat, svas: seq<U64>)
    requires s.Live? && s.server.Some? && c in s.calls && s.calls[c].Mapping? && |svas| == |s.calls[c].chosen|
    requires Mapped(s, t, c, svas) && Accounts(s) && New(s.history, svas)
    ensures Ends(t) && Balanced(t)
  {
    AllInBook(s);
    NewApart(s.history, svas);
    MappedEnds(s, t, c, svas);
    BalanceGrows(s, t, AsSet(svas));
  }

  lemma MappedBooked(s: State, t: State, c: nat, svas: seq<U64>)
    requires s.Live? && s.server.Some? && c in s.calls && s.calls[c].Mapping? && |svas| == |s.calls[c].chosen|
    requires Mapped(s, t, c, svas) && Accounts(s) && New(s.history, svas) && svas != []
    ensures AllBooked(t)
  {
    var chosen := s.calls[c].chosen;
    var slots := WithSvas(chosen, svas);
    var all := s.server.value.buffers + Allocated(chosen, svas);
    WithSvasIs(chosen, svas);
    BookedIs(s.history.book, slots);
    NewApart(s.history, svas);
    forall j | 0 <= j < |svas|
      ensures t.history.book[svas[j]] == Entry(chosen[j].flags, chosen[j].len) && svas[j] in t.history.book
    {
      assert SlotBooked(t.history.book, slots[j]);
    }
    assert BuffersBooked(t.history.book, all);
    assert SlotsBooked(t.history.book, t.client.buffers);
    assert t.calls - {c} == s.calls - {c};
    CallsBooked(s, t, c);
  }

  lemma MappedOwns(s: State, t: State, c: nat, svas: seq<U64>)
    requires s.Live? && s.server.Some? && c in s.calls && s.calls[c].Mapping? && |svas| == |s.calls[c].chosen|
    requires Mapped(s, t, c, svas) && Accounts(s) && New(s.history, svas)
    ensures Owns(t.history.joining, t.calls, true) && Owns(t.history.leaving, t.calls, false)
  {
    AllInBook(s);
    WithSvasIs(s.calls[c].chosen, svas);
    NewApart(s.history, svas);
    assert OwnsOne(s.history.joining, c, s.calls[c], true);
    assert OwnsOne(t.history.joining, c, t.calls[c], true);
    assert t.calls - {c} == s.calls - {c};
    OwnsStep(s.history.joining, t.history.joining, s.calls, t.calls, true, c);
    OwnsSame(s, t, c, false, s.history.leaving);
  }

  lemma MapKeeps(s: State, c: nat, d: Driver<seq<U64>>, lost: bool)
    requires s.Live? && InPlace(s) && s.server.Some? && Accounts(s) && c in s.calls && s.calls[c].Mapping?
    requires d.Works? ==> New(s.history, d.value)
    ensures Inv(ServeMap(s, c, d, lost))
  {
    var t := ServeMap(s, c, d, lost);
    MapIs(s, c, d, lost);
    if t == Over(s, c) {
      GoesOn(s, t, c);
    } else if t.Live? {
      MappedKeeps(s, t, c, d.value);
    }
  }

  lemma MappedKeeps(s: State, t: State, c: nat, svas: seq<U64>)
    requires s.Live? && InPlace(s) && s.server.Some? && Accounts(s) && c in s.calls && s.calls[c].Mapping?
    requires |svas| == |s.calls[c].chosen| && Mapped(s, t, c, svas) && New(s.history, svas) && svas != []
    ensures Inv(t)
  {
    assert CallInMemory(s, c, s.calls[c]);
    CallsInPlace(s, t, c);
    MappedBalance(s, t, c, svas);
    MappedBooked(s, t, c, svas);
    MappedOwns(s, t, c, svas);
  }

  /** What a served unmap leaves: the server keeps the buffers no longer, the caller is about to take
      them off the client's list. */
  predicate Unmapped(s: State, t: State, c: nat)
    requires s.Live? && s.server.Some? && c in s.calls && s.calls[c].Unmapping?
  {
    var chosen, bs := s.calls[c].chosen, s.server.value.buffers;
    && t.Live? && t.client == s.client && t.mem == s.mem && t.mutex == s.mutex
    && t.server == Some(s.server.value.(buffers := RemoveAll(bs, SlotSvas(chosen)).0))
    && t.history == s.history.(leaving := Owned(s.history.leaving, chosen, c))
    && t.calls == if chosen == [] then s.calls - {c} else s.calls[c := Removing(chosen)]
  }

  lemma UnmapReplyIs(s: State, c: nat, d: Driver<()>, o: Outcome)
    requires s.Live? && s.server.Some? && c in s.calls && s.calls[c].Unmapping? && WellFormed(EMPTY_MESSAGE)
    requires match UnmapEffect(s.server.value, s.calls[c].chosen, d)
             case Breaks => Receive(EMPTY_MESSAGE, o.reply).Broken?
             case Refuses(errno) =>
               o.session == s.server && Receive(EMPTY_MESSAGE, o.reply) == Refused(errno, Empty(EMPTY_MESSAGE))
             case Does(t, _) => o.session == Some(t) && Receive(EMPTY_MESSAGE, o.reply) == Done(Empty(EMPTY_MESSAGE))
    ensures var t := UnmapReply(s, c, o);
            match UnmapEffect(s.server.value, s.calls[c].chosen, d)
            case Breaks => t == Gone(s.mem)
            case Refuses(_) => t == Over(s, c)
            case Does(_, _) => Unmapped(s, t, c)
  {
    assert s.(server := s.server) == s;
  }

  lemma UnmapIs(s: State, c: nat, d: Driver<()>, lost: bool)
    requires s.Live? && s.server.Some? && c in s.calls && s.calls[c].Unmapping?
    ensures var t := ServeUnmap(s, c, d, lost);
            if lost then t == Gone(s.mem)
            else match UnmapEffect(s.server.value, s.calls[c].chosen, d)
                 case Breaks => t == Gone(s.mem)
                 case Refuses(_) => t == Over(s, c)
                 case Does(_, _) => Unmapped(s, t, c)
  {
    var chosen := s.calls[c].chosen;
    UnmapTablesFit();
    PlainTablesFit();
    if |chosen| <= MAP_MAX {
      UnmapRequestFits(s.client.id, chosen);
    }
    if Sends(UNMAP_REQUEST, UnmapRequest(s.client.id, chosen), lost) {
      UnmapExchange(s.server.value, s.client.id, chosen, d);
      UnmapReplyIs(s, c, d,
                   ProxyServer.Unmap(s.server, Serialize(UNMAP_REQUEST, UnmapRequest(s.client.id, chosen)), d));
    }
  }

  lemma UnmappedBalance(s: State, t: State, c: nat)
    requires s.Live? && s.server.Some? && c in s.calls && s.calls[c].Unmapping? && Unmapped(s, t, c)
    requires Accounts(s) && RemoveAll(s.server.value.buffers, SlotSvas(s.calls[c].chosen)).1
    ensures Ends(t) && Balanced(t)
  {
    var svas := SlotSvas(s.calls[c].chosen);
    RemoveAllWhen(s.server.value.buffers, svas);
    assert t.history.leaving.Keys == s.history.leaving.Keys + AsSet(svas);
  }

  lemma {:induction false} FewerBooked(book: map<U64, Entry>, bs: seq<Buffer>, rest: seq<Buffer>)
    requires BuffersBooked(book, bs) && forall b :: b in rest ==> b in bs
    ensures BuffersBooked(book, rest)
  {
    forall j | 0 <= j < |rest|
      ensures rest[j].sva in book
           && book[rest[j].sva].flags == rest[j].flags && book[rest[j].sva].len == |rest[j].data|
    {
      assert rest[j] in bs;
    }
  }

  lemma UnmappedBooked(s: State, t: State, c: nat)
    requires s.Live? && s.server.Some? && c in s.calls && s.calls[c].Unmapping? && Unmapped(s, t, c)
    requires Accounts(s) && RemoveAll(s.server.value.buffers, SlotSvas(s.calls[c].chosen)).1
    ensures AllBooked(t)
  {
    var bs, svas := s.server.value.buffers, SlotSvas(s.calls[c].chosen);
    RemoveAllWhen(bs, svas);
    FewerBooked(s.history.book, bs, RemoveAll(bs, svas).0);
    assert t.calls - {c} == s.calls - {c};
    CallsBooked(s, t, c);
  }

  lemma UnmappedOwns(s: State, t: State, c: nat)
    requires s.Live? && s.server.Some? && c in s.calls && s.calls[c].Unmapping? && Unmapped(s, t, c)
    requires Accounts(s) && RemoveAll(s.server.value.buffers, SlotSvas(s.calls[c].chosen)).1
    ensures Owns(t.history.joining, t.calls, true) && Owns(t.history.leaving, t.calls, false)
  {
    var svas := SlotSvas(s.calls[c].chosen);
    RemoveAllWhen(s.server.value.buffers, svas);
    assert OwnsOne(s.history.leaving, c, s.calls[c], false);
    assert t.calls - {c} == s.calls - {c};
    if c in t.calls {
      assert OwnsOne(t.history.leaving, c, t.calls[c], false);
    } else {
      assert AsSet(svas) == {};
    }
    OwnsStep(s.history.leaving, t.history.leaving, s.calls, t.calls, false, c);
    OwnsSame(s, t, c, true, s.history.joining);
  }

  lemma UnmapKeeps(s: State, c: nat, d: Driver<()>, lost: bool)
    requires s.Live? && InPlace(s) && s.server.Some? && Accounts(s) && c in s.calls && s.calls[c].Unmapping?
    ensures Inv(ServeUnmap(s, c, d, lost))
  {
    var t := ServeUnmap(s, c, d, lost);
    UnmapIs(s, c, d, lost);
    if t == Over(s, c) {
      GoesOn(s, t, c);
    } else if t.Live? {
      CallsInPlace(s, t, c);
      UnmappedBalance(s, t, c);
      UnmappedBooked(s, t, c);
      UnmappedOwns(s, t, c);
    }
  }

  /** The server's buffers with other contents. */
  lemma Reshaped(s: State, t: State, c: nat)
    requires s.Live? && s.server.Some? && Accounts(s) && t.Live? && t.server.Some?
    requires t.client == s.client && t.history == s.history && t.calls - {c} == s.calls - {c}
    requires t.server.value.id == s.server.value.id && SameTci(s.client.tci, t.server.value.tci)
    requires SameShape(s.server.value.buffers, t.server.value.buffers)
    requires c in t.calls ==> CallBooked(t, t.calls[c]) && !t.calls[c].Adding? && !t.calls[c].Removing?
    requires c in s.calls ==> !s.calls[c].Adding? && !s.calls[c].Removing?
    ensures Accounts(t)
  {
    SameAddresses(s.server.value.buffers, t.server.value.buffers);
    CallsBooked(s, t, c);
    OwnsSame(s, t, c, true, s.history.joining);
    OwnsSame(s, t, c, false, s.history.leaving);
  }

  lemma NotifyIs(s: State, c: nat, d: Driver<()>, lost: bool)
    requires s.Live? && s.server.Some? && c in s.calls && s.calls[c].Notifying? && Ends(s)
    requires CallInMemory(s, c, s.calls[c])
    ensures var t := ServeNotify(s, c, d, lost);
            var effect := NotifyEffect(s.server.value, s.calls[c].memory, s.client, d);
            if lost || |s.calls[c].data| >= TWO_31 || effect.Breaks? then t == Gone(s.mem)
            else effect.Does? && t == Over(s.(server := Some(effect.session), mutex := None), c)
  {
    if !lost && |s.calls[c].data| < TWO_31 {
      NotifyExchange(s.server.value, s.calls[c].memory, s.client, d);
    }
  }

  lemma NotifyKeeps(s: State, c: nat, d: Driver<()>, lost: bool)
    requires s.Live? && InPlace(s) && s.server.Some? && Accounts(s) && c in s.calls && s.calls[c].Notifying?
    ensures Inv(ServeNotify(s, c, d, lost))
  {
    assert CallInMemory(s, c, s.calls[c]);
    NotifyIs(s, c, d, lost);
    var t := ServeNotify(s, c, d, lost);
    if t.Live? {
      UpdateAllShape(s.server.value.buffers, Patches(InputRecords(s.calls[c].memory, s.client.buffers)));
      assert t.calls - {c} == s.calls - {c};
      Reshaped(s, t, c);
      forall e | e in t.calls
        ensures CallInMemory(t, e, t.calls[e])
      {
        assert CallInMemory(s, e, s.calls[e]);
      }
    }
  }

  lemma OutputsBooked(book: map<U64, Entry>, bs: seq<Buffer>, i: nat)
    requires BuffersBooked(book, bs) && i <= |bs|
    ensures PatchesBooked(book, Patches(OutputRecords(bs, i)))
    decreases |bs| - i
  {
    if i < |bs| {
      OutputsBooked(book, bs, i + 1);
      if Output(bs[i].flags) {
        var v := Record(Msg([[Num(bs[i].sva)], [Data(bs[i].data)]], []));
        PatchesCons(v, OutputRecords(bs, i + 1));
        assert AsPatch(v) == Patch(bs[i].sva, bs[i].data);
      }
    }
  }

  lemma WaitReplyIs(s: State, c: nat, slice: Slice, d: Driver<()>, o: Outcome)
    requires s.Live? && s.server.Some? && c in s.calls && s.calls[c].Waiting?
    requires SameTci(s.client.tci, s.server.value.tci)
    requires WellFormed(WAIT_RESPONSE) && o.session == s.server && slice.left >= 0
    requires var answer := Receive(WAIT_RESPONSE, o.reply);
             match WaitEffect(s.server.value, slice, d)
             case Breaks => answer.Broken?
             case Refuses(errno) => answer.Refused? && answer.errno == errno
             case Does(_, rc) =>
               answer == if rc != 0 then Refused(rc, WaitResponse(s.server.value))
                         else Done(WaitResponse(s.server.value))
    ensures var t := WaitReply(s, c, slice, o);
            match WaitEffect(s.server.value, slice, d)
            case Breaks => t == Gone(s.mem)
            case Refuses(_) => t == s.(calls := s.calls[c := Waiting(s.calls[c].timeout, slice.left)])
            case Does(_, _) =>
              t == After(s, c, Copying(s.server.value.tci, Patches(OutputRecords(s.server.value.buffers))))
  {
    assert s.(server := s.server) == s;
  }

  lemma WaitIs(s: State, c: nat, d: Driver<()>, lost: bool)
    requires s.Live? && s.server.Some? && c in s.calls && s.calls[c].Waiting?
    requires SameTci(s.client.tci, s.server.value.tci)
    ensures var t := ServeWait(s, c, d, lost);
            var slice := WaitSlice(s.calls[c].timeout, s.calls[c].left);
            var effect := WaitEffect(s.server.value, slice, d);
            if lost || effect.Breaks? then t == Gone(s.mem)
            else if effect.Refuses? then t == s.(calls := s.calls[c := Waiting(s.calls[c].timeout, slice.left)])
            else t == After(s, c, Copying(s.server.value.tci, Patches(OutputRecords(s.server.value.buffers))))
  {
    var slice := WaitSlice(s.calls[c].timeout, s.calls[c].left);
    WaitExchange(s.server.value, s.client.id, slice, d);
    if !lost {
      WaitReplyIs(s, c, slice, d,
                  WaitNotification(s.server, Serialize(WAIT_REQUEST, WaitRequest(s.client.id, slice)), d));
    }
  }

  /** An operation gets on, and nothing else changes. */
  lemma GoesOn(s: State, t: State, c: nat)
    requires s.Live? && InPlace(s) && s.server.Some? && Accounts(s) && c in s.calls
    requires !s.calls[c].Notifying? && !s.calls[c].Adding? && !s.calls[c].Removing?
    requires t == Over(s, c)
          || (t.Live? && c in t.calls && t == s.(calls := s.calls[c := t.calls[c]])
              && (t.calls[c].Waiting? || t.calls[c].Copying?) && CallBooked(t, t.calls[c]))
    ensures Inv(t)
  {
    assert t.calls - {c} == s.calls - {c};
    CallsInPlace(s, t, c);
    ListsKept(s, t, c);
  }

  lemma WaitKeeps(s: State, c: nat, d: Driver<()>, lost: bool)
    requires s.Live? && InPlace(s) && s.server.Some? && Accounts(s) && c in s.calls && s.calls[c].Waiting?
    ensures Inv(ServeWait(s, c, d, lost))
  {
    WaitIs(s, c, d, lost);
    OutputsBooked(s.history.book, s.server.value.buffers, 0);
    if ServeWait(s, c, d, lost).Live? {
      GoesOn(s, ServeWait(s, c, d, lost), c);
    }
  }

  lemma ClosedKeeps(s: State, c: nat)
    requires s.Live? && InPlace(s) && ClientBooked(s) && c in s.calls && s.calls[c].Closing?
    ensures Inv(s.(server := None, calls := s.calls[c := Deleting]))
  {
    var t := s.(server := None, calls := s.calls[c := Deleting]);
    assert t.calls - {c} == s.calls - {c};
    CallsInPlace(s, t, c);
    CallsBooked(s, t, c);
  }

  lemma CloseKeeps(s: State, c: nat, d: Driver<()>, lost: bool)
    requires s.Live? && InPlace(s) && s.server.Some? && Accounts(s) && c in s.calls && s.calls[c].Closing?
    ensures Inv(ServeClose(s, c, d, lost))
    ensures ServeClose(s, c, d, lost)
         == if lost then Gone(s.mem)
            else if d.Fails? then Over(s, c)
            else s.(server := None, calls := s.calls[c := Deleting])
  {
    CloseExchange(s.server.value, s.client.id, d);
    if !lost {
      CloseReplyIs(s, c, d, CloseSession(s.server, Serialize(CLOSE_SESSION_REQUEST, IdRequest(s.client.id)), d));
      if d.Fails? {
        GoesOn(s, Over(s, c), c);
      } else {
        ClosedKeeps(s, c);
      }
    }
  }

  lemma CloseReplyIs(s: State, c: nat, d: Driver<()>, o: Outcome)
    requires s.Live? && s.server.Some? && c in s.calls && s.calls[c].Closing? && WellFormed(EMPTY_MESSAGE)
    requires match d
             case Fails(errno) =>
               o.session == s.server && Receive(EMPTY_MESSAGE, o.reply) == Refused(errno, Empty(EMPTY_MESSAGE))
             case Works(_) => o.session == None && Receive(EMPTY_MESSAGE, o.reply) == Done(Empty(EMPTY_MESSAGE))
    ensures CloseReply(s, c, o)
         == if d.Fails? then Over(s, c) else s.(server := None, calls := s.calls[c := Deleting])
  {
    assert s.(server := s.server) == s;
  }
}
