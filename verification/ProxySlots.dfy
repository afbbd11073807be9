/**
 Mapping and unmapping slot by slot: what becomes of each slot that a caller hands over, in terms of the slots
 themselves. A slot whose address is null is no buffer; every other one is mapped, or unmapped.
 */
module ProxySlots {
  import opened Wire
  import opened Ioctl
  import opened Message
  import opened Schemas
  import opened ProxyServer
  import opened ProxyClient
  import opened ProxyMirror
  import opened ProxyAnswers
  import opened ProxyLists
  import opened ProxyRuns

  /** The slots that are not null, by their indices. */
  function Taken(slots: seq<Slot>, i: nat): set<nat>
    requires i <= |slots|
  {
    set j: nat | j < i && slots[j].va != 0
  }

  /** How many slots before index `i` are not null. */
  function Before(slots: seq<Slot>, i: nat): nat
    requires i <= |slots|
  {
    |Taken(slots, i)|
  }

  lemma BeforeNext(slots: seq<Slot>, i: nat)
    requires i < |slots|
    ensures Before(slots, i + 1) == Before(slots, i) + (if slots[i].va != 0 then 1 else 0)
  {
    assert Taken(slots, i + 1) == Taken(slots, i) + (if slots[i].va != 0 then {i} else {});
  }

  lemma BeforeNothing(slots: seq<Slot>)
    ensures Before(slots, 0) == 0
  {
    assert Taken(slots, 0) == {};
  }

  lemma {:induction false} SelectedConcat(a: seq<Slot>, b: seq<Slot>)
    ensures Selected(a + b) == Selected(a) + Selected(b)
  {
    if a == [] {
      assert a + b == b;
    } else {
      SelectedConcat(a[1..], b);
      assert (a + b)[1..] == a[1..] + b && (a + b)[0] == a[0];
      SeqAssoc(if a[0].va != 0 then [a[0]] else [], Selected(a[1..]), Selected(b));
    }
  }

  lemma {:induction false} SelectedCount(slots: seq<Slot>, i: nat)
    requires i <= |slots|
    ensures |Selected(slots[..i])| == Before(slots, i)
  {
    if i > 0 {
      SelectedCount(slots, i - 1);
      BeforeNext(slots, i - 1);
      SelectedConcat(slots[..i - 1], [slots[i - 1]]);
      assert slots[..i] == slots[..i - 1] + [slots[i - 1]];
    } else {
      BeforeNothing(slots);
    }
  }

  lemma SelectedAt(slots: seq<Slot>, i: nat)
    requires i < |slots| && slots[i].va != 0
    ensures Before(slots, i) < |Selected(slots)| && Selected(slots)[Before(slots, i)] == slots[i]
  {
    SelectedCount(slots, i);
    SelectedConcat(slots[..i], slots[i..]);
    assert slots == slots[..i] + slots[i..];
    assert slots[i..][0] == slots[i];
  }

  /** The slot that has `n` before it. */
  lemma {:induction false} IndexOf(slots: seq<Slot>, n: nat, i: nat) returns (k: nat)
    requires i <= |slots| && n < Before(slots, i)
    ensures k < i && slots[k].va != 0 && Before(slots, k) == n
  {
    hide Taken, Before;
    BeforeNothing(slots);
    BeforeNext(slots, i - 1);
    if n < Before(slots, i - 1) {
      k := IndexOf(slots, n, i - 1);
    } else {
      k := i - 1;
    }
  }

  /** Where a selected slot comes from. */
  lemma SelectedFrom(slots: seq<Slot>, j: nat) returns (i: nat)
    requires j < |Selected(slots)|
    ensures i < |slots| && slots[i].va != 0 && slots[i] == Selected(slots)[j] && Before(slots, i) == j
  {
    hide Taken, Before, Selected;
    SelectedCount(slots, |slots|);
    assert slots[..|slots|] == slots;
    i := IndexOf(slots, j, |slots|);
    SelectedAt(slots, i);
  }

  /** Every slot that is not null is selected, at the place that its predecessors leave it, and there is no
      other place. */
  lemma SelectedAre(slots: seq<Slot>)
    ensures |Selected(slots)| == Before(slots, |slots|)
    ensures forall i: nat :: i < |slots| && slots[i].va != 0 ==>
              Before(slots, i) < |Selected(slots)| && Selected(slots)[Before(slots, i)] == slots[i]
  {
    hide Taken, Before, Selected;
    SelectedCount(slots, |slots|);
    assert slots[..|slots|] == slots;
    forall i: nat | i < |slots| && slots[i].va != 0
      ensures Before(slots, i) < |Selected(slots)| && Selected(slots)[Before(slots, i)] == slots[i]
    {
      SelectedAt(slots, i);
    }
  }

  /* ---------- Mapping ---------- */

  predicate SomeTooLong(slots: seq<Slot>)
  {
    exists i: nat :: i < |slots| && slots[i].va != 0 && slots[i].len > 0x10_0000
  }

  /** A slot whose flags are neither input nor output nor both. */
  predicate SomeUndirected(slots: seq<Slot>)
  {
    exists i: nat :: i < |slots| && slots[i].va != 0 && slots[i].flags !in {1, 2, 3}
  }

  predicate AllZero(b: bytes)
  {
    forall k :: 0 <= k < |b| ==> b[k] == 0
  }

  /** The lists of the two sessions with every slot that is not null at their ends: the client's with the
      slot and its address, the server's with zeroed memory of its length. */
  predicate MappedSlots(slots: seq<Slot>, svas: seq<U64>, w: World, r: World)
    requires w.Up? && w.server.Some? && |svas| == Before(slots, |slots|)
  {
    && r.Up? && r.server.Some? && r.mem == w.mem
    && var cb, sb := r.client.buffers, r.server.value.buffers;
       var c, s := |w.client.buffers|, |w.server.value.buffers|;
       && r.client == w.client.(buffers := cb) && r.server.value == w.server.value.(buffers := sb)
       && |cb| == c + |svas| && cb[..c] == w.client.buffers
       && |sb| == s + |svas| && sb[..s] == w.server.value.buffers
       && forall i: nat :: i < |slots| && slots[i].va != 0 ==>
            var n := Before(slots, i);
            && n < |svas| && cb[c + n] == slots[i].(sva := svas[n])
            && sb[s + n].sva == svas[n] && sb[s + n].flags == slots[i].flags
            && |sb[s + n].data| == slots[i].len && AllZero(sb[s + n].data)
  }

  /** The directions of a buffer: bit 0 of the flags is input, bit 1 output. */
  lemma Directions(flags: nat)
    ensures Input(flags) <==> flags % 4 == 1 || flags % 4 == 3
    ensures Output(flags) <==> flags % 4 == 2 || flags % 4 == 3
  {
  }

  lemma TooLongIs(slots: seq<Slot>)
    ensures TooLong(Selected(slots)) <==> SomeTooLong(slots)
  {
    hide Taken, Before, Selected;
    var chosen := Selected(slots);
    if TooLong(chosen) {
      var j: nat :| j < |chosen| && chosen[j].len > BUFFER_LENGTH_MAX;
      var i := SelectedFrom(slots, j);
    }
    if SomeTooLong(slots) {
      var i: nat :| i < |slots| && slots[i].va != 0 && slots[i].len > 0x10_0000;
      SelectedAt(slots, i);
    }
  }

  lemma UndirectedIs(slots: seq<Slot>)
    ensures FlagsOk(Selected(slots)) <==> !SomeUndirected(slots)
  {
    hide Taken, Before, Selected;
    var chosen := Selected(slots);
    if !FlagsOk(chosen) {
      var j: nat :| j < |chosen| && !(1 <= chosen[j].flags <= 3);
      var i := SelectedFrom(slots, j);
    }
    if SomeUndirected(slots) {
      var i: nat :| i < |slots| && slots[i].va != 0 && slots[i].flags !in {1, 2, 3};
      SelectedAt(slots, i);
    }
  }

  lemma AllocatedAre(chosen: seq<Slot>, svas: seq<U64>, n: nat)
    requires |svas| == |chosen| && n < |chosen|
    ensures var b := Allocated(chosen, svas)[n];
            b.sva == svas[n] && b.flags == chosen[n].flags && |b.data| == chosen[n].len && AllZero(b.data)
  {
  }

  lemma MirrorSizes(w: World)
    requires w.Up? && Mirror(w)
    ensures w.server.Some? && |w.client.buffers| == |w.server.value.buffers|
    ensures Matching(w.client.buffers, w.server.value.buffers) && Distinct(w.client.buffers)
  {
  }

  lemma MappedAre(w: World, slots: seq<Slot>, svas: seq<U64>, r: World)
    requires w.Up? && w.server.Some? && |svas| == |Selected(slots)|
    requires var chosen := Selected(slots);
             r == w.(client := w.client.(buffers := w.client.buffers + WithSvas(chosen, svas)),
                     server := Some(w.server.value.(buffers := w.server.value.buffers + Allocated(chosen, svas))))
    ensures |svas| == Before(slots, |slots|) && MappedSlots(slots, svas, w, r)
  {
    hide Taken, Before, Selected, Allocated, AllZero;
    var chosen := Selected(slots);
    SelectedAre(slots);
    forall i: nat | i < |slots| && slots[i].va != 0
      ensures var n := Before(slots, i);
              && n < |svas| && WithSvas(chosen, svas)[n] == slots[i].(sva := svas[n])
              && var b := Allocated(chosen, svas)[n];
                 && b.sva == svas[n] && b.flags == slots[i].flags && |b.data| == slots[i].len && AllZero(b.data)
    {
      AllocatedAre(chosen, svas, Before(slots, i));
    }
  }

  /** The caller's buffers, where it gives any. */
  predicate SlotsInMemory(mem: bytes, slots: seq<Slot>)
  {
    forall i: nat :: i < |slots| && slots[i].va != 0 ==> InMemory(mem, slots[i].va, slots[i].len)
  }

  lemma ChosenInMemory(mem: bytes, slots: seq<Slot>)
    requires SlotsInMemory(mem, slots)
    ensures BuffersInMemory(mem, Selected(slots))
  {
    hide Taken, Before, Selected;
    forall j | 0 <= j < |Selected(slots)|
      ensures InMemory(mem, Selected(slots)[j].va, Selected(slots)[j].len)
    {
      var i := SelectedFrom(slots, j);
    }
  }

  /** A map of any slots, over any driver: refused by the client for a slot that is too long; given up for a
      loss, more than four buffers or a slot without direction; else carried out for every slot that is not
      null, at both ends, if the driver has an address for each; and otherwise without effect. */
  lemma MapPerSlot(w: World, slots: seq<Slot>, d: Driver<seq<U64>>, lost: bool)
    requires w.Up? && Mirror(w) && SlotsInMemory(w.mem, slots)
    requires d.Works? ==> FreshSvas(w.client.buffers, d.value)
    ensures var r := ProxyClient.Map(w, slots, d, lost);
            var n := Before(slots, |slots|);
            && Mirror(r)
            && if SomeTooLong(slots) then r == w
               else if lost || n > 4 || SomeUndirected(slots) then r == Down(w.mem)
               else if d.Works? && 0 < |d.value| == n then MappedSlots(slots, d.value, w, r)
               else r == w
  {
    hide ProxyClient.Map, Mirror, TooLong, Allocated, WithSvas, FlagsOk, MappedSlots;
    hide SomeTooLong, SomeUndirected, Before, Taken, Selected;
    var chosen := Selected(slots);
    MirrorSizes(w);
    ChosenInMemory(w.mem, slots);
    MapKeepsMirror(w, slots, d, lost);
    TooLongIs(slots);
    UndirectedIs(slots);
    SelectedCount(slots, |slots|);
    assert slots[..|slots|] == slots;
    if !SomeTooLong(slots) && !MapGivesUp(chosen, lost) && d.Works? && 0 < |d.value| == |chosen| {
      MappedAre(w, slots, d.value, ProxyClient.Map(w, slots, d, lost));
    }
  }

  /** An answer with more or fewer addresses than were asked for is not used: the client's list stays. */
  lemma WrongAnswer(w: World, chosen: seq<Slot>, svas: seq<U64>, o: Outcome)
    requires w.Up? && |svas| != |chosen| && WellFormed(MAP_RESPONSE)
    requires Receive(MAP_RESPONSE, o.reply) == Done(MapResponse(svas))
    ensures AfterMap(w, chosen, o) == w.(server := o.session)
  {
  }

  /* ---------- Unmapping ---------- */

  predicate SomeUnaddressed(slots: seq<Slot>)
  {
    exists i: nat :: i < |slots| && slots[i].va != 0 && slots[i].sva == 0
  }

  predicate Lists(bs: seq<Slot>, sva: U64)
  {
    exists k: nat :: k < |bs| && bs[k].sva == sva
  }

  /** A slot that names no buffer of the session. */
  predicate SomeUnmapped(slots: seq<Slot>, bs: seq<Slot>)
  {
    exists i: nat :: i < |slots| && slots[i].va != 0 && !Lists(bs, slots[i].sva)
  }

  predicate SomeNamedTwice(slots: seq<Slot>)
  {
    exists i: nat, j: nat :: i < j < |slots| && slots[i].va != 0 && slots[j].va != 0 && slots[i].sva == slots[j].sva
  }

  /** The secure addresses of the slots that are not null. */
  function Named(slots: seq<Slot>): set<U64>
  {
    set i: nat | i < |slots| && slots[i].va != 0 :: slots[i].sva
  }

  /** The buffers with other addresses, in order. */
  function Kept(bs: seq<Slot>, named: set<U64>): seq<Slot>
  {
    if bs == [] then [] else (if bs[0].sva in named then [] else [bs[0]]) + Kept(bs[1..], named)
  }

  lemma {:induction false} KeptAll(bs: seq<Slot>, named: set<U64>)
    requires forall k :: 0 <= k < |bs| ==> bs[k].sva !in named
    ensures Kept(bs, named) == bs
  {
    if bs != [] {
      KeptAll(bs[1..], named);
    }
  }

  lemma {:induction false} KeptConcat(a: seq<Slot>, b: seq<Slot>, named: set<U64>)
    ensures Kept(a + b, named) == Kept(a, named) + Kept(b, named)
  {
    if a == [] {
      assert a + b == b;
    } else {
      KeptConcat(a[1..], b, named);
      assert (a + b)[1..] == a[1..] + b && (a + b)[0] == a[0];
      SeqAssoc(if a[0].sva in named then [] else [a[0]], Kept(a[1..], named), Kept(b, named));
    }
  }

  /** Keeping less in two steps. */
  lemma {:induction false} KeptTwice(bs: seq<Slot>, sva: U64, named: set<U64>)
    ensures Kept(Kept(bs, {sva}), named) == Kept(bs, named + {sva})
  {
    if bs != [] {
      KeptTwice(bs[1..], sva, named);
      KeptConcat(if bs[0].sva == sva then [] else [bs[0]], Kept(bs[1..], {sva}), named);
      assert bs[0].sva != sva ==> Kept([bs[0]], named) == if bs[0].sva in named then [] else [bs[0]];
    }
  }

  /** One buffer erased. */
  lemma {:induction false} KeptOne(bs: seq<Slot>, k: nat)
    requires Distinct(bs) && k < |bs|
    ensures Kept(bs, {bs[k].sva}) == bs[..k] + bs[k + 1..]
  {
    if k == 0 {
      KeptAll(bs[1..], {bs[k].sva});
    } else {
      KeptOne(bs[1..], k - 1);
      assert bs[..k] + bs[k + 1..] == [bs[0]] + (bs[1..][..k - 1] + bs[1..][k..]);
    }
  }

  lemma ErasedSlot(bs: seq<Slot>, k: nat, sva: U64)
    requires Distinct(bs) && k < |bs|
    ensures Distinct(bs[..k] + bs[k + 1..])
    ensures Lists(bs, sva) && sva != bs[k].sva ==> Lists(bs[..k] + bs[k + 1..], sva)
  {
    var less := bs[..k] + bs[k + 1..];
    if Lists(bs, sva) && sva != bs[k].sva {
      var m: nat :| m < |bs| && bs[m].sva == sva;
      assert less[if m < k then m else m - 1] == bs[m];
    }
  }

  function SvaSet(chosen: seq<Slot>): set<U64>
  {
    set x | x in chosen :: x.sva
  }

  lemma SvaSetRest(chosen: seq<Slot>)
    requires chosen != []
    ensures SvaSet(chosen) == SvaSet(chosen[1..]) + {chosen[0].sva}
  {
    assert chosen == [chosen[0]] + chosen[1..];
  }

  /** Removing slots that are all there keeps exactly the other buffers. */
  lemma {:induction false} RemoveSlotsKeeps(bs: seq<Slot>, chosen: seq<Slot>)
    requires Distinct(bs)
    requires forall j :: 0 <= j < |chosen| ==> Lists(bs, chosen[j].sva)
    requires forall i, j :: 0 <= i < j < |chosen| ==> chosen[i].sva != chosen[j].sva
    ensures RemoveSlots(bs, chosen) == Kept(bs, SvaSet(chosen))
    decreases |chosen|
  {
    hide Distinct, Kept, SvaSet;
    if chosen == [] {
      NothingNamed(bs);
    } else {
      var k := FindSlot(bs, chosen[0].sva);
      assert k < |bs| by {
        assert Lists(bs, chosen[0].sva);
      }
      var less := bs[..k] + bs[k + 1..];
      forall j | 0 <= j < |chosen[1..]|
        ensures Lists(less, chosen[1..][j].sva)
      {
        ErasedSlot(bs, k, chosen[1 + j].sva);
      }
      ErasedSlot(bs, k, 0);
      RemoveSlotsKeeps(less, chosen[1..]);
      KeptOne(bs, k);
      KeptTwice(bs, chosen[0].sva, SvaSet(chosen[1..]));
      SvaSetRest(chosen);
    }
  }

  lemma NothingNamed(bs: seq<Slot>)
    ensures Kept(bs, SvaSet([])) == bs
  {
    KeptAll(bs, SvaSet([]));
  }

  lemma NamedIs(slots: seq<Slot>)
    ensures Named(slots) == SvaSet(Selected(slots))
  {
    hide Taken, Before, Selected;
    var chosen := Selected(slots);
    var svas := SvaSet(chosen);
    forall a | a in svas
      ensures a in Named(slots)
    {
      var j: nat :| j < |chosen| && chosen[j].sva == a;
      var i := SelectedFrom(slots, j);
    }
    forall a | a in Named(slots)
      ensures a in svas
    {
      var i: nat :| i < |slots| && slots[i].va != 0 && slots[i].sva == a;
      SelectedAt(slots, i);
    }
  }

  lemma UnaddressedIs(slots: seq<Slot>)
    ensures Unaddressed(Selected(slots)) <==> SomeUnaddressed(slots)
  {
    hide Taken, Before, Selected;
    var chosen := Selected(slots);
    if Unaddressed(chosen) {
      var j: nat :| j < |chosen| && chosen[j].sva == 0;
      var i := SelectedFrom(slots, j);
    }
    if SomeUnaddressed(slots) {
      var i: nat :| i < |slots| && slots[i].va != 0 && slots[i].sva == 0;
      SelectedAt(slots, i);
    }
  }

  lemma BeforeGrows(slots: seq<Slot>, i: nat, j: nat)
    requires i < j <= |slots| && slots[i].va != 0
    ensures Before(slots, i) < Before(slots, j)
    decreases j - i
  {
    BeforeNext(slots, j - 1);
    if i < j - 1 {
      BeforeGrows(slots, i, j - 1);
    }
  }

  lemma NamedTwiceIs(slots: seq<Slot>)
    ensures NoRepeat(SlotSvas(Selected(slots))) <==> !SomeNamedTwice(slots)
  {
    hide Taken, Before, Selected;
    var svas := SlotSvas(Selected(slots));
    if SomeNamedTwice(slots) {
      var i: nat, j: nat :| i < j < |slots| && slots[i].va != 0 && slots[j].va != 0 && slots[i].sva == slots[j].sva;
      BeforeGrows(slots, i, j);
      SelectedAt(slots, i);
      SelectedAt(slots, j);
      assert svas[Before(slots, i)] == svas[Before(slots, j)];
    } else {
      forall m: nat, n: nat | m < n < |svas|
        ensures svas[m] != svas[n]
      {
        var i := SelectedFrom(slots, m);
        var j := SelectedFrom(slots, n);
        if j < i {
          BeforeGrows(slots, j, i);
        }
        assert svas[m] == slots[i].sva && svas[n] == slots[j].sva;
      }
    }
  }

  lemma UnmappedIs(slots: seq<Slot>, cb: seq<Slot>, sb: seq<Buffer>)
    requires Matching(cb, sb)
    ensures AllFound(sb, SlotSvas(Selected(slots))) <==> !SomeUnmapped(slots, cb)
  {
    hide Taken, Before, Selected;
    var svas := SlotSvas(Selected(slots));
    if SomeUnmapped(slots, cb) {
      var i: nat :| i < |slots| && slots[i].va != 0 && !Lists(cb, slots[i].sva);
      SelectedAt(slots, i);
      assert Find(sb, svas[Before(slots, i)]) == |sb|;
    } else {
      forall j: nat | j < |svas|
        ensures Find(sb, svas[j]) < |sb|
      {
        var i := SelectedFrom(slots, j);
        var k: nat :| k < |cb| && cb[k].sva == slots[i].sva;
        assert sb[k].sva == svas[j];
      }
    }
  }

  lemma ChosenAreMapped(slots: seq<Slot>, bs: seq<Slot>)
    requires !SomeUnmapped(slots, bs) && !SomeNamedTwice(slots)
    ensures var chosen := Selected(slots);
            && (forall j :: 0 <= j < |chosen| ==> Lists(bs, chosen[j].sva))
            && (forall i, j :: 0 <= i < j < |chosen| ==> chosen[i].sva != chosen[j].sva)
  {
    hide Taken, Before, Selected, SomeNamedTwice;
    NamedTwiceIs(slots);
    var chosen := Selected(slots);
    forall j | 0 <= j < |chosen|
      ensures Lists(bs, chosen[j].sva)
    {
      var i := SelectedFrom(slots, j);
    }
    assert forall j :: 0 <= j < |chosen| ==> SlotSvas(chosen)[j] == chosen[j].sva;
  }

  /** The client's list once the request has been carried out. */
  lemma ChosenRemoved(slots: seq<Slot>, bs: seq<Slot>)
    requires Distinct(bs) && !SomeUnmapped(slots, bs) && !SomeNamedTwice(slots)
    ensures RemoveSlots(bs, Selected(slots)) == Kept(bs, Named(slots))
  {
    hide SomeUnmapped, SomeNamedTwice, Distinct, Named, Kept, RemoveSlots;
    ChosenAreMapped(slots, bs);
    NamedIs(slots);
    RemoveSlotsKeeps(bs, Selected(slots));
  }

  /** The server's list is left with buffers that it had. */
  lemma ServerKeeps(cb: seq<Slot>, sb: seq<Buffer>, svas: seq<U64>)
    requires Matching(cb, sb) && Distinct(cb) && AllFound(sb, svas) && NoRepeat(svas)
    ensures forall b :: b in RemoveAll(sb, svas).0 ==> b in sb
  {
    assert DistinctBuffers(sb) by {
      assert forall i :: 0 <= i < |cb| ==> sb[i].sva == cb[i].sva;
    }
    AllFoundIsListed(sb, svas);
    RemoveAllWhen(sb, svas);
  }

  /** An unmap of any slots, over any driver: refused by the client for a slot without an address; given up for
      a loss, more buffers than a request may name or the session has, or one of them named twice; without
      effect if a slot names no buffer or the driver refuses; and else every buffer that a slot names is gone
      from both sessions, and the others are there in their order. */
  lemma UnmapPerSlot(w: World, slots: seq<Slot>, d: Driver<()>, lost: bool)
    requires w.Up? && Mirror(w)
    ensures var r := ProxyClient.Unmap(w, slots, d, lost);
            var n := Before(slots, |slots|);
            && Mirror(r)
            && if SomeUnaddressed(slots) then r == w
               else if lost || n > 4 || n > |w.client.buffers| then r == Down(w.mem)
               else if SomeUnmapped(slots, w.client.buffers) || d.Fails? then r == w
               else if SomeNamedTwice(slots) then r == Down(w.mem)
               else
                 && r.Up? && r.mem == w.mem
                 && r.client == w.client.(buffers := Kept(w.client.buffers, Named(slots)))
                 && r.server.Some? && r.server.value == w.server.value.(buffers := r.server.value.buffers)
                 && forall b :: b in r.server.value.buffers ==> b in w.server.value.buffers
  {
    hide ProxyClient.Unmap, RemoveAll, RemoveSlots, AllFound, NoRepeat, SlotSvas, Unaddressed, Distinct, Matching;
    hide Mirror, SomeUnaddressed, SomeUnmapped, SomeNamedTwice, Before, Taken, Kept, Named, Selected;
    MirrorSizes(w);
    UnmapKeepsMirror(w, slots, d, lost);
    SelectedCount(slots, |slots|);
    assert slots[..|slots|] == slots;
    UnaddressedIs(slots);
    NamedTwiceIs(slots);
    UnmappedIs(slots, w.client.buffers, w.server.value.buffers);
    if !SomeUnmapped(slots, w.client.buffers) && !SomeNamedTwice(slots) {
      ChosenRemoved(slots, w.client.buffers);
      ServerKeeps(w.client.buffers, w.server.value.buffers, SlotSvas(Selected(slots)));
    }
  }
}
