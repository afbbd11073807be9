/**
 What every operation of the device does, in every case: the new device written out, and the result. The handles
 an operation lets go of are named; with the balance of Handles.dfy the kernel refuses to release none of them.
 */
module Effects {
  import opened Wire
  import opened Ioctl
  import opened Driver
  import opened Handles

  /** No session with this identifier, or the first one at `k`. */
  predicate NoSession(d: Dev, sid: U32)
  {
    forall j :: 0 <= j < |d.sessions| ==> d.sessions[j].id != sid
  }

  predicate SessionAt(d: Dev, sid: U32, k: nat)
  {
    k < |d.sessions| && d.sessions[k].id == sid && forall j :: 0 <= j < k ==> d.sessions[j].id != sid
  }

  predicate NoVa(bs: seq<Desc>, va: nat)
  {
    forall j :: 0 <= j < |bs| ==> bs[j].va != va
  }

  predicate VaAt(bs: seq<Desc>, va: nat, j: nat)
  {
    j < |bs| && bs[j].va == va && forall i :: 0 <= i < j ==> bs[i].va != va
  }

  predicate NoWsm(d: Dev, va: nat)
  {
    forall j :: 0 <= j < |d.wsms| ==> d.wsms[j].va != va
  }

  predicate WsmAt(d: Dev, va: nat, j: nat)
  {
    j < |d.wsms| && d.wsms[j].va == va && forall i :: 0 <= i < j ==> d.wsms[i].va != va
  }

  lemma {:induction false} FoundSession(ss: seq<Sess>, sid: U32, k: nat, i: nat)
    requires i <= k < |ss| && ss[k].id == sid && forall j :: i <= j < k ==> ss[j].id != sid
    ensures SessionIndex(ss, sid, i) == k
    decreases k - i
  {
    if i < k {
      FoundSession(ss, sid, k, i + 1);
    }
  }

  lemma {:induction false} FoundVa(bs: seq<Desc>, va: nat, k: nat, i: nat)
    requires i <= k < |bs| && bs[k].va == va && forall j :: i <= j < k ==> bs[j].va != va
    ensures VaIndex(bs, va, i) == k
    decreases k - i
  {
    if i < k {
      FoundVa(bs, va, k, i + 1);
    }
  }

  lemma {:induction false} FoundWsm(ws: seq<Wsm>, va: nat, k: nat, i: nat)
    requires i <= k < |ws| && ws[k].va == va && forall j :: i <= j < k ==> ws[j].va != va
    ensures WsmIndex(ws, va, i) == k
    decreases k - i
  {
    if i < k {
      FoundWsm(ws, va, k, i + 1);
    }
  }

  lemma {:induction false} MissedWsm(ws: seq<Wsm>, va: nat, i: nat)
    requires i <= |ws| && forall j :: i <= j < |ws| ==> ws[j].va != va
    ensures WsmIndex(ws, va, i) == |ws|
    decreases |ws| - i
  {
    if i < |ws| {
      MissedWsm(ws, va, i + 1);
    }
  }

  /* ---------- Closing ---------- */

  function HandlesOf(bs: seq<Desc>): set<nat>
  {
    set b | b in bs :: b.handle
  }

  lemma {:induction false} ReleaseBufsLive(d: Dev, bs: seq<Desc>)
    ensures ReleaseBufs(d, bs).live == d.live - HandlesOf(bs)
    decreases |bs|
  {
    if bs != [] {
      ReleaseBufsLive(Release(d, bs[0].handle), bs[1..]);
      assert bs == [bs[0]] + bs[1..];
      assert HandlesOf(bs) == {bs[0].handle} + HandlesOf(bs[1..]);
    }
  }

  /** An accepted close deletes the first session of that identifier and releases the handles of its
      descriptors; every other session, and every WSM, is as before. Any other close changes nothing. */
  lemma CloseEffect(d: Dev, leaked: set<nat>, sid: U32, a: Daemon, k: nat)
    requires Conserved(d, leaked)
    ensures NoSession(d, sid) ==> Perform(d, CloseOp(sid, a)) == (d, UnknownSession)
    ensures SessionAt(d, sid, k) ==>
              Perform(d, CloseOp(sid, a))
              == match a
                 case Silent => (d, SocketError)
                 case Rejects => (d, DaemonError)
                 case Accepts(_) =>
                   (Dev(d.live - HandlesOf(d.sessions[k].bufs), d.sessions[..k] + d.sessions[k + 1..], d.wsms,
                        d.refused), McOk)
  {
    if SessionAt(d, sid, k) {
      FoundSession(d.sessions, sid, k, 0);
      DeleteSessionKeeps(d, leaked, k);
      ReleaseBufsLive(d, d.sessions[k].bufs);
    }
  }

  /* ---------- Opening ---------- */

  /** Opening a session. A TCI longer than a megabyte, or than the WSM it is to lie in, or one at null that is
      not empty, is refused. One that lies in a WSM, or is empty, needs no buffer of its own. Any other is
      registered first, and becomes the only descriptor of the session. */
  lemma OpenEffect(d: Dev, tci: nat, size: U32, kernel: Option<nat>, id: Option<U32>, j: nat)
    ensures var after := Perform(d, OpenOp(tci, size, kernel, id));
            var plain := if id.None? then (d, DaemonError)
                         else (Dev(d.live, d.sessions + [Sess(id.value, [])], d.wsms, d.refused), McOk);
            && (size > 0x10_0000 ==> after == (d, InvalidLength))
            && (size <= 0x10_0000 && tci == 0 ==> after == if size != 0 then (d, InvalidLength) else plain)
            && (size <= 0x10_0000 && tci != 0 && WsmAt(d, tci, j) ==>
                  after == if d.wsms[j].len < size then (d, InvalidLength) else plain)
            && (size == 0 && tci != 0 && NoWsm(d, tci) ==> after == plain)
            && (0 < size <= 0x10_0000 && tci != 0 && NoWsm(d, tci) ==>
                  after == if kernel.None? then (d, KernelError)
                           else if id.None? then
                             (Dev(d.live + {kernel.value}, d.sessions, d.wsms, d.refused), DaemonError)
                           else
                             (Dev(d.live + {kernel.value},
                                  d.sessions + [Sess(id.value, [Desc(tci, 0, size, kernel.value)])], d.wsms,
                                  d.refused), McOk))
  {
    if WsmAt(d, tci, j) {
      FoundWsm(d.wsms, tci, j, 0);
    }
    if NoWsm(d, tci) {
      MissedWsm(d.wsms, tci, 0);
    }
  }

  /* ---------- Mapping and unmapping ---------- */

  /** The device with other descriptors for session `k`. */
  function Changed(d: Dev, k: nat, bs: seq<Desc>, live: set<nat>): Dev
    requires k < |d.sessions|
  {
    Dev(live, d.sessions[..k] + [Sess(d.sessions[k].id, bs)] + d.sessions[k + 1..], d.wsms, d.refused)
  }

  lemma ChangedIs(d: Dev, k: nat, bs: seq<Desc>, live: set<nat>)
    requires k < |d.sessions|
    ensures WithBufs(d, k, bs).(live := live) == Changed(d, k, bs, live)
  {
    assert d.sessions[k := d.sessions[k].(bufs := bs)] == Changed(d, k, bs, live).sessions;
  }

  /** Mapping a buffer adds one descriptor at the end of the session's list: with the daemon's address if it
      accepts, and without one if it does not answer. If it rejects the buffer, nothing is left of it. */
  lemma MapEffect(d: Dev, sid: U32, va: nat, size: U32, a: MapAnswer, k: nat)
    requires a.Registered? ==> a.handle !in d.live
    ensures var after := Perform(d, MapOp(sid, va, size, a));
            && (va == 0 ==> after == (d, NullPointer))
            && (va != 0 && NoSession(d, sid) ==> after == (d, UnknownSession))
            && (va != 0 && SessionAt(d, sid, k) ==>
                  var bs := d.sessions[k].bufs;
                  after
                  == if !NoVa(bs, va) then (d, AlreadyMapped)
                     else match a
                          case KernelRefuses => (d, KernelError)
                          case Registered(h, Rejects) => (d, DaemonError)
                          case Registered(h, Silent) =>
                            (Changed(d, k, bs + [Desc(va, 0, size, h)], d.live + {h}), SocketError)
                          case Registered(h, Accepts(sva)) =>
                            (Changed(d, k, bs + [Desc(va, sva, size, h)], d.live + {h}), McOk))
  {
    if va != 0 && SessionAt(d, sid, k) {
      FoundSession(d.sessions, sid, k, 0);
      if a.Registered? {
        var bs := d.sessions[k].bufs;
        var sva := if a.daemon.Accepts? then a.daemon.sva else 0;
        ChangedIs(d, k, bs + [Desc(va, sva, size, a.handle)], d.live + {a.handle});
        if NoVa(bs, va) && a.daemon.Rejects? {
          MT.AddRemove(d, k, Desc(va, 0, size, a.handle));
        }
      }
    }
  }

  predicate HasMapping(bs: seq<Desc>, sva: int, size: U32)
  {
    exists j: nat :: j < |bs| && bs[j].sva == sva && bs[j].len == size
  }

  lemma {:induction false} MappingIs(bs: seq<Desc>, sva: U32, size: U32, i: nat)
    requires i <= |bs|
    ensures HandleIndex(bs, sva, size, i) < |bs|
       <==> exists j: nat :: i <= j < |bs| && bs[j].sva == sva && bs[j].len == size
    decreases |bs| - i
  {
    if i < |bs| {
      MappingIs(bs, sva, size, i + 1);
    }
  }

  /** Unmapping a buffer: the session must have a descriptor of that secure address and length, and the daemon
      must accept; then the first descriptor of the virtual address goes, with its handle, if there is one. */
  lemma UnmapEffect(d: Dev, leaked: set<nat>, sid: U32, va: nat, sva: U64, size: U32, a: Daemon, k: nat, j: nat)
    requires Conserved(d, leaked)
    ensures var after := Perform(d, UnmapOp(sid, va, sva, size, a));
            && (va == 0 || sva % 0x1_0000_0000 == 0 ==> after == (d, NullPointer))
            && (va != 0 && sva % 0x1_0000_0000 != 0 && NoSession(d, sid) ==> after == (d, UnknownSession))
            && (va != 0 && sva % 0x1_0000_0000 != 0 && SessionAt(d, sid, k) ==>
                  var bs := d.sessions[k].bufs;
                  if !HasMapping(bs, sva % 0x1_0000_0000, size) then after == (d, NotFound)
                  else match a
                       case Silent => after == (d, SocketError)
                       case Rejects => after == (d, DaemonError)
                       case Accepts(_) =>
                         && (NoVa(bs, va) ==> after == (d, NotFound))
                         && (VaAt(bs, va, j) ==>
                               after == (Changed(d, k, bs[..j] + bs[j + 1..], d.live - {bs[j].handle}), McOk)))
  {
    if va != 0 && sva % TWO_32 != 0 && SessionAt(d, sid, k) {
      var bs := d.sessions[k].bufs;
      FoundSession(d.sessions, sid, k, 0);
      MappingIs(bs, sva % TWO_32, size, 0);
      RemoveEffect(d, leaked, k, va, j);
    }
  }

  lemma RemoveEffect(d: Dev, leaked: set<nat>, k: nat, va: nat, j: nat)
    requires Conserved(d, leaked) && k < |d.sessions|
    ensures var bs := d.sessions[k].bufs;
            && (NoVa(bs, va) ==> RemoveBuf(d, k, va) == (d, NotFound))
            && (VaAt(bs, va, j) ==>
                  RemoveBuf(d, k, va) == (Changed(d, k, bs[..j] + bs[j + 1..], d.live - {bs[j].handle}), McOk))
  {
    var bs := d.sessions[k].bufs;
    if VaAt(bs, va, j) {
      FoundVa(bs, va, j, 0);
      RemoveBufKeeps(d, leaked, k, va);
      ChangedIs(d, k, bs[..j] + bs[j + 1..], d.live - {bs[j].handle});
    }
  }

  /* ---------- World-shared memory ---------- */

  lemma MallocEffect(d: Dev, size: U32, wsm: Option<(nat, nat)>)
    ensures Perform(d, MallocOp(size, wsm))
         == if size == 0 then (d, InvalidLength)
            else match wsm
                 case None => (d, KernelError)
                 case Some((h, va)) =>
                   (Dev(d.live + {h}, d.sessions, d.wsms + [Wsm(va, size, h)], d.refused), McOk)
  {
  }

  /** Freeing: the first WSM of the address goes, with its handle. */
  lemma FreeEffect(d: Dev, leaked: set<nat>, va: nat, j: nat)
    requires Conserved(d, leaked)
    ensures va == 0 || NoWsm(d, va) ==> Perform(d, FreeOp(va)) == (d, NotFound)
    ensures va != 0 && WsmAt(d, va, j) ==>
              Perform(d, FreeOp(va))
              == (Dev(d.live - {d.wsms[j].handle}, d.sessions, d.wsms[..j] + d.wsms[j + 1..], d.refused), McOk)
  {
    if NoWsm(d, va) {
      MissedWsm(d.wsms, va, 0);
    }
    if va != 0 && WsmAt(d, va, j) {
      FoundWsm(d.wsms, va, j, 0);
      FreeOneKeeps(d, leaked, j);
    }
  }

  /* ---------- Several slots ---------- */

  /** The device when the slots before `i` have been unmapped. */
  function UnmappedTo(d: Dev, sid: U32, slots: seq<Slot>, answers: seq<Daemon>, i: nat): Dev
    requires i <= |slots| == |answers|
  {
    if i == 0 then d
    else
      var before := UnmappedTo(d, sid, slots, answers, i - 1);
      var slot := slots[i - 1];
      if slot.va == 0 then before
      else Perform(before, UnmapOp(sid, slot.va, slot.sva, slot.len, answers[i - 1])).0
  }

  /** What came of the slot at `i`. */
  function SlotResult(d: Dev, sid: U32, slots: seq<Slot>, answers: seq<Daemon>, i: nat): McResult
    requires i < |slots| == |answers|
  {
    Perform(UnmappedTo(d, sid, slots, answers, i),
            UnmapOp(sid, slots[i].va, slots[i].sva, slots[i].len, answers[i])).1
  }

  predicate SomeSlot(slots: seq<Slot>, n: nat)
    requires n <= |slots|
  {
    exists i: nat :: i < n && slots[i].va != 0
  }

  predicate SomeFailed(d: Dev, sid: U32, slots: seq<Slot>, answers: seq<Daemon>, n: nat)
    requires n <= |slots| == |answers|
  {
    exists i: nat :: i < n && slots[i].va != 0 && SlotResult(d, sid, slots, answers, i) != McOk
  }

  predicate SomeTaken(d: Dev, sid: U32, slots: seq<Slot>, answers: seq<Daemon>, n: nat)
    requires n <= |slots| == |answers|
  {
    exists i: nat :: i < n && slots[i].va != 0 && SlotResult(d, sid, slots, answers, i) == McOk
  }

  /** Where the loop is, before slot `n`. */
  predicate Reached(d: Dev, sid: U32, slots: seq<Slot>, answers: seq<Daemon>, n: nat, u: UnmapState)
    requires n <= |slots| == |answers|
  {
    && u.dev == UnmappedTo(d, sid, slots, answers, n)
    && u.failed == SomeFailed(d, sid, slots, answers, n) && u.unmapped == SomeTaken(d, sid, slots, answers, n)
  }

  lemma ReachedNext(d: Dev, sid: U32, slots: seq<Slot>, answers: seq<Daemon>, n: nat, u: UnmapState)
    requires n < |slots| == |answers| && Reached(d, sid, slots, answers, n, u)
    ensures Reached(d, sid, slots, answers, n + 1, UnmapStep(u, sid, slots[n], answers[n]))
  {
    hide UnmapOne;
    var slot := slots[n];
    if slot.va != 0 {
      var result := SlotResult(d, sid, slots, answers, n);
      assert SomeFailed(d, sid, slots, answers, n + 1) == (SomeFailed(d, sid, slots, answers, n) || result != McOk);
      assert SomeTaken(d, sid, slots, answers, n + 1) == (SomeTaken(d, sid, slots, answers, n) || result == McOk);
    }
  }

  lemma {:induction false} UnmapLoop(d: Dev, sid: U32, slots: seq<Slot>, answers: seq<Daemon>, n: nat, u: UnmapState)
    requires n <= |slots| == |answers| && Reached(d, sid, slots, answers, n, u)
    ensures Reached(d, sid, slots, answers, |slots|, UnmapSlots(u, sid, slots, n, answers))
    decreases |slots| - n
  {
    if n < |slots| {
      ReachedNext(d, sid, slots, answers, n, u);
      UnmapLoop(d, sid, slots, answers, n + 1, UnmapStep(u, sid, slots[n], answers[n]));
    }
  }

  /** Unmapping a set of slots goes through all of them, whatever comes of each, and succeeds if and only if
      there is one and none has failed. */
  lemma UnmapSetEffect(d: Dev, sid: U32, slots: seq<Slot>, answers: seq<Daemon>)
    requires |slots| == |answers|
    ensures Driver.Unmap(d, sid, slots, answers)
         == (UnmappedTo(d, sid, slots, answers, |slots|),
             SomeSlot(slots, |slots|) && !SomeFailed(d, sid, slots, answers, |slots|))
  {
    var u := UnmapState(d, false, false);
    assert Reached(d, sid, slots, answers, 0, u);
    UnmapLoop(d, sid, slots, answers, 0, u);
  }
}
