/**
 Unmapping any slots from a session that has just had buffers mapped: what it takes of the buffers the
 session had before, and what of the new ones. A slot is taken by its virtual address as soon as some
 descriptor has its secure address and length, so a stale slot can take another buffer than the one it was
 made for.
 */
module Unwinding {
  import opened Wire
  import opened Ioctl
  import opened Driver
  import MT = MapTransaction

  /** The descriptors of a session: those it had before a mapping, and those the mapping has added. */
  datatype Held = Held(had: seq<Desc>, added: seq<Desc>)

  function Without(bs: seq<Desc>, j: nat): (r: seq<Desc>)
    requires j < |bs|
    ensures |r| == |bs| - 1
  {
    bs[..j] + bs[j + 1..]
  }

  /** Unmapping the slot takes a descriptor away. */
  predicate Takes(p: Held, slot: Slot)
  {
    slot.va != 0 && !MT.Harmless(p.had + p.added, slot)
  }

  /** What unmapping one slot leaves. */
  function Take(p: Held, slot: Slot): Held
  {
    var i, j := VaIndex(p.had, slot.va), VaIndex(p.added, slot.va);
    if !Takes(p, slot) then p
    else if i < |p.had| then p.(had := Without(p.had, i))
    else if j < |p.added| then p.(added := Without(p.added, j))
    else p
  }

  function TakeAll(p: Held, slots: seq<Slot>): Held
    decreases |slots|
  {
    if slots == [] then p else TakeAll(Take(p, slots[0]), slots[1..])
  }

  /** No slot, when its turn comes, takes a descriptor that the session had before. */
  predicate Spares(p: Held, slots: seq<Slot>)
    decreases |slots|
  {
    slots == []
    || (!(Takes(p, slots[0]) && VaIndex(p.had, slots[0].va) < |p.had|) && Spares(Take(p, slots[0]), slots[1..]))
  }

  /** The new descriptors have virtual addresses of their own. */
  predicate Apart(p: Held)
  {
    && (forall j :: 0 <= j < |p.added| ==> MT.NewVa(p.had, p.added[j].va))
    && (forall i, j :: 0 <= i < j < |p.added| ==> p.added[i].va != p.added[j].va)
  }

  lemma TakeApart(p: Held, slot: Slot)
    requires Apart(p)
    ensures Apart(Take(p, slot))
  {
  }

  lemma {:induction false} SparesWhen(p: Held, slots: seq<Slot>)
    ensures |TakeAll(p, slots).had| <= |p.had|
    ensures Spares(p, slots) ==> TakeAll(p, slots).had == p.had
    ensures !Spares(p, slots) ==> |TakeAll(p, slots).had| < |p.had|
    decreases |slots|
  {
    if slots != [] {
      SparesWhen(Take(p, slots[0]), slots[1..]);
    }
  }

  lemma {:induction false} AddedBefore(p: Held, slots: seq<Slot>)
    ensures forall b :: b in TakeAll(p, slots).added ==> b in p.added
    ensures forall b :: b in TakeAll(p, slots).had ==> b in p.had
    decreases |slots|
  {
    if slots != [] {
      AddedBefore(Take(p, slots[0]), slots[1..]);
    }
  }

  /** Empty slots at the end make no difference. */
  lemma {:induction false} EmptySlots(p: Held, slots: seq<Slot>)
    requires forall j :: 0 <= j < |slots| ==> slots[j].va == 0
    ensures TakeAll(p, slots) == p
    decreases |slots|
  {
    if slots != [] {
      EmptySlots(p, slots[1..]);
    }
  }

  lemma {:induction false} TakeConcat(p: Held, a: seq<Slot>, b: seq<Slot>)
    ensures TakeAll(p, a + b) == TakeAll(TakeAll(p, a), b)
    decreases |a|
  {
    if a == [] {
      assert a + b == b;
    } else {
      assert (a + b)[1..] == a[1..] + b;
      TakeConcat(Take(p, a[0]), a[1..], b);
    }
  }

  /* ---------- Every new descriptor has a slot ---------- */

  predicate NamedBy(b: Desc, slots: seq<Slot>)
  {
    exists j :: 0 <= j < |slots| && MT.Names(slots[j], b)
  }

  lemma NamesTakes(p: Held, slot: Slot, j: nat)
    requires Apart(p) && j < |p.added| && MT.Names(slot, p.added[j]) && slot.va != 0 && p.added[j].sva != 0
    ensures Take(p, slot) == p.(added := Without(p.added, j))
  {
    var all := p.had + p.added;
    assert all[|p.had| + j] == p.added[j];
    assert VaIndex(all, slot.va) <= |p.had| + j;
    assert HandleIndex(all, slot.sva % TWO_32, slot.len) <= |p.had| + j;
    assert VaIndex(p.had, slot.va) == |p.had| && VaIndex(p.added, slot.va) == j;
  }

  lemma NamedGone(p: Held, slot: Slot, b: Desc)
    requires Apart(p) && b in p.added && b.va != 0 && b.sva != 0
    ensures MT.Names(slot, b) ==> b !in Take(p, slot).added
  {
    var j :| 0 <= j < |p.added| && p.added[j] == b;
    if MT.Names(slot, b) {
      NamesTakes(p, slot, j);
      var next := Take(p, slot).added;
      forall i | 0 <= i < |next|
        ensures next[i].va != b.va
      {
        assert next[i] == p.added[if i < j then i else i + 1];
      }
    }
  }

  lemma StillNamed(p: Held, slots: seq<Slot>)
    requires slots != [] && Apart(p)
    requires forall b :: b in p.added ==> b.va != 0 && b.sva != 0 && NamedBy(b, slots)
    ensures forall b :: b in Take(p, slots[0]).added ==> NamedBy(b, slots[1..])
  {
    var next := Take(p, slots[0]).added;
    forall b | b in next
      ensures NamedBy(b, slots[1..])
    {
      assert b in p.added;
      var m :| 0 <= m < |slots| && MT.Names(slots[m], b);
      NamedGone(p, slots[0], b);
      assert slots[1..][m - 1] == slots[m];
    }
  }

  lemma FirstIn(a: seq<Desc>, b: seq<Desc>)
    ensures b != [] ==> b[0] in b && b[0] in a + b
  {
    if b != [] {
      assert (a + b)[|a|] == b[0];
    }
  }

  /** If every new descriptor is named by a slot, none is left. */
  lemma {:induction false} AllTaken(p: Held, slots: seq<Slot>)
    requires Apart(p) && forall b :: b in p.added ==> b.va != 0 && b.sva != 0 && NamedBy(b, slots)
    ensures TakeAll(p, slots).added == []
    decreases |slots|
  {
    if slots == [] {
      FirstIn([], p.added);
    } else {
      TakeApart(p, slots[0]);
      StillNamed(p, slots);
      AllTaken(Take(p, slots[0]), slots[1..]);
    }
  }

  /* ---------- What the device does ---------- */

  lemma {:induction false} VaConcat(a: seq<Desc>, b: seq<Desc>, va: nat, i: nat)
    requires i <= |a|
    ensures VaIndex(a + b, va, i) == if VaIndex(a, va, i) < |a| then VaIndex(a, va, i) else |a| + VaIndex(b, va)
    decreases |a| - i
  {
    if i < |a| {
      assert (a + b)[i] == a[i];
      if a[i].va != va {
        VaConcat(a, b, va, i + 1);
      }
    } else {
      VaBehind(a, b, va, 0);
    }
  }

  lemma {:induction false} VaBehind(a: seq<Desc>, b: seq<Desc>, va: nat, i: nat)
    requires i <= |b|
    ensures VaIndex(a + b, va, |a| + i) == |a| + VaIndex(b, va, i)
    decreases |b| - i
  {
    if i < |b| {
      assert (a + b)[|a| + i] == b[i];
      if b[i].va != va {
        VaBehind(a, b, va, i + 1);
      }
    }
  }

  lemma WithoutConcat(a: seq<Desc>, b: seq<Desc>, i: nat)
    requires i < |a| + |b|
    ensures Without(a + b, i) == if i < |a| then Without(a, i) + b else a + Without(b, i - |a|)
  {
    if i < |a| {
      assert (a + b)[..i] == a[..i] && (a + b)[i + 1..] == a[i + 1..] + b;
    } else {
      assert (a + b)[..i] == a + b[..i - |a|] && (a + b)[i + 1..] == b[i - |a| + 1..];
    }
  }

  /** The descriptor taken is the first with the slot's virtual address. */
  lemma TakeIsErase(p: Held, slot: Slot)
    requires Takes(p, slot)
    ensures var all, next := p.had + p.added, Take(p, slot);
            VaIndex(all, slot.va) < |all| && next.had + next.added == Without(all, VaIndex(all, slot.va))
  {
    VaConcat(p.had, p.added, slot.va, 0);
    WithoutConcat(p.had, p.added, VaIndex(p.had + p.added, slot.va));
  }

  predicate Shows(d: Dev, k: nat, sid: U32, p: Held)
  {
    k == SessionIndex(d.sessions, sid) < |d.sessions| && d.sessions[k].bufs == p.had + p.added
  }

  lemma UnmapTakes(d: Dev, k: nat, sid: U32, p: Held, slot: Slot, a: Daemon)
    requires Shows(d, k, sid, p) && slot.va != 0 && a.Accepts?
    ensures Shows(UnmapOne(d, sid, slot.va, slot.sva, slot.len, a).0, k, sid, Take(p, slot))
  {
    var r := UnmapOne(d, sid, slot.va, slot.sva, slot.len, a).0;
    if Takes(p, slot) {
      TakeIsErase(p, slot);
      MT.SameIndex(d.sessions, r.sessions, sid, 0);
    } else {
      MT.FailingSlot(d, k, sid, slot, a);
    }
  }

  /** The session's list after unmapping. */
  lemma {:induction false} UnmapTakesAll(s: UnmapState, k: nat, sid: U32, p: Held, slots: seq<Slot>, i: nat,
                                         answers: seq<Daemon>)
    requires Shows(s.dev, k, sid, p) && i <= |slots| == |answers|
    requires forall j :: 0 <= j < |answers| ==> answers[j].Accepts?
    ensures Shows(UnmapSlots(s, sid, slots, i, answers).dev, k, sid, TakeAll(p, slots[i..]))
    decreases |slots| - i
  {
    if i < |slots| {
      var t := UnmapStep(s, sid, slots[i], answers[i]);
      if slots[i].va != 0 {
        UnmapTakes(s.dev, k, sid, p, slots[i], answers[i]);
      }
      assert slots[i..][0] == slots[i] && slots[i..][1..] == slots[i + 1..];
      UnmapTakesAll(t, k, sid, Take(p, slots[i]), slots, i + 1, answers);
    }
  }

  lemma HandlesErased(bs: seq<Desc>, j: nat)
    requires j < |bs| && forall a, b :: 0 <= a < b < |bs| ==> bs[a].handle != bs[b].handle
    ensures MT.Handles(Without(bs, j)) == MT.Handles(bs) - {bs[j].handle}
  {
    var r := Without(bs, j);
    forall h
      ensures h in MT.Handles(r) <==> h in MT.Handles(bs) && h != bs[j].handle
    {
      if h in MT.Handles(bs) && h != bs[j].handle {
        var i :| 0 <= i < |bs| && bs[i].handle == h;
        assert r[if i < j then i else i - 1].handle == h;
      }
      if h in MT.Handles(r) {
        var i :| 0 <= i < |r| && r[i].handle == h;
        assert bs[if i < j then i else i + 1].handle == h;
      }
    }
  }

  lemma AddedErased(d: Dev, k: nat, bs: seq<Desc>, j: nat)
    requires k < |d.sessions| && MT.Removable(d, k, bs) && j < |bs|
    ensures MT.Removable(d, k, Without(bs, j))
    ensures var rest := Without(bs, j);
            Release(WithBufs(MT.Added(d, k, bs), k, d.sessions[k].bufs + rest), bs[j].handle) == MT.Added(d, k, rest)
  {
    var dev, rest, bufs := MT.Added(d, k, bs), Without(bs, j), d.sessions[k].bufs;
    HandlesErased(bs, j);
    assert bs[j].handle in MT.Handles(bs);
    assert dev.live - {bs[j].handle} == d.live + MT.Handles(rest);
    assert dev.sessions[k := dev.sessions[k].(bufs := bufs + rest)]
        == d.sessions[k := d.sessions[k].(bufs := bufs + rest)];
  }

  /** Taking a new descriptor gives its handle back. */
  lemma TakeAdded(d: Dev, k: nat, sid: U32, bs: seq<Desc>, slot: Slot, a: Daemon)
    requires k == SessionIndex(d.sessions, sid) < |d.sessions| && MT.Removable(d, k, bs)
    requires slot.va != 0 && a.Accepts?
    requires var p := Held(d.sessions[k].bufs, bs);
             Takes(p, slot) && VaIndex(p.had, slot.va) == |p.had|
    ensures var next := Take(Held(d.sessions[k].bufs, bs), slot);
            && next.had == d.sessions[k].bufs && MT.Removable(d, k, next.added)
            && UnmapOne(MT.Added(d, k, bs), sid, slot.va, slot.sva, slot.len, a).0 == MT.Added(d, k, next.added)
  {
    var p := Held(d.sessions[k].bufs, bs);
    var dev, next, j := MT.Added(d, k, bs), Take(p, slot), VaIndex(bs, slot.va);
    TakeIsErase(p, slot);
    VaConcat(p.had, bs, slot.va, 0);
    MT.SameIndex(d.sessions, dev.sessions, sid, 0);
    AddedErased(d, k, bs, j);
  }

  /** Unmapping that spares what the session had gives back the handles of what it takes, and no other. */
  lemma {:induction false} SparedUnmap(d: Dev, s: UnmapState, k: nat, sid: U32, bs: seq<Desc>, slots: seq<Slot>,
                                       i: nat, answers: seq<Daemon>)
    requires k == SessionIndex(d.sessions, sid) < |d.sessions| && MT.Removable(d, k, bs)
    requires s.dev == MT.Added(d, k, bs) && i <= |slots| == |answers|
    requires forall j :: 0 <= j < |answers| ==> answers[j].Accepts?
    requires Spares(Held(d.sessions[k].bufs, bs), slots[i..])
    ensures UnmapSlots(s, sid, slots, i, answers).dev
         == MT.Added(d, k, TakeAll(Held(d.sessions[k].bufs, bs), slots[i..]).added)
    decreases |slots| - i
  {
    if i < |slots| {
      var p, t := Held(d.sessions[k].bufs, bs), UnmapStep(s, sid, slots[i], answers[i]);
      assert slots[i..][0] == slots[i] && slots[i..][1..] == slots[i + 1..];
      MT.SameIndex(d.sessions, s.dev.sessions, sid, 0);
      if Takes(p, slots[i]) {
        TakeAdded(d, k, sid, bs, slots[i], answers[i]);
      } else if slots[i].va != 0 {
        MT.FailingSlot(s.dev, k, sid, slots[i], answers[i]);
      }
      SparedUnmap(d, t, k, sid, Take(p, slots[i]).added, slots, i + 1, answers);
    }
  }

  /** Unmapping any slots after a mapping brings the device back to what it was before the mapping if and
      only if no slot, when its turn comes, takes a descriptor the session had before, and none of the new
      descriptors is left. */
  lemma RestoredWhen(d: Dev, k: nat, sid: U32, bs: seq<Desc>, slots: seq<Slot>, answers: seq<Daemon>)
    requires k == SessionIndex(d.sessions, sid) < |d.sessions| && MT.Removable(d, k, bs) && |slots| == |answers|
    requires forall j :: 0 <= j < |answers| ==> answers[j].Accepts?
    requires Apart(Held(d.sessions[k].bufs, bs))
    ensures var p := Held(d.sessions[k].bufs, bs);
            Unmap(MT.Added(d, k, bs), sid, slots, answers).0 == d
            <==> Spares(p, slots) && TakeAll(p, slots).added == []
  {
    var p, s := Held(d.sessions[k].bufs, bs), UnmapState(MT.Added(d, k, bs), false, false);
    var after, last := UnmapSlots(s, sid, slots, 0, answers).dev, TakeAll(p, slots);
    assert slots[0..] == slots;
    MT.SameIndex(d.sessions, s.dev.sessions, sid, 0);
    UnmapTakesAll(s, k, sid, p, slots, 0, answers);
    SparesWhen(p, slots);
    if Spares(p, slots) {
      SparedUnmap(d, s, k, sid, bs, slots, 0, answers);
      MT.AddedNothing(d, k);
    }
    if after == d {
      AddedBefore(p, slots);
      NoneNew(p, last);
    }
  }

  lemma NoneNew(p: Held, last: Held)
    requires Apart(p) && last.had + last.added == p.had
    requires forall b :: b in last.added ==> b in p.added
    ensures last == Held(p.had, [])
  {
    FirstIn(last.had, last.added);
    assert last.had + [] == last.had;
  }
}
