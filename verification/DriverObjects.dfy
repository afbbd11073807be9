/**
 The objects of the client library: the kernel module, sessions with their list of bulk buffer
 descriptors, the device with its sessions and WSMs, and DriverClient on top. Each method is tied to
 the function of Driver.dfy that says what it does to the abstract device.
 */
module DriverObjects {
  import opened Wire
  import opened Ioctl
  import opened Driver

  /** CMcKMod: an oracle for new handles that knows which ones it has given out. */
  class Kernel {
    var live: set<nat>
    var refused: nat

    constructor ()
      ensures live == {} && refused == 0
    {
      live, refused := {}, 0;
    }

    method RegisterWsmL2(handle: nat)
      modifies `live
      ensures live == old(live) + {handle}
    {
      live := live + {handle};
    }

    /** unregisterWsmL2, and free for a WSM. */
    method Unregister(handle: nat) returns (ok: bool)
      modifies this
      ensures ok == (handle in old(live))
      ensures forall ss, ws :: Dev(live, ss, ws, refused) == Release(Dev(old(live), ss, ws, old(refused)), handle)
    {
      ok := handle in live;
      if ok {
        live := live - {handle};
      } else {
        refused := refused + 1;
      }
    }
  }

  class Session {
    const id: U32
    const kernel: Kernel
    var bufs: seq<Desc>

    ghost function View(): Sess
      reads this
    {
      Sess(id, bufs)
    }

    constructor (id: U32, kernel: Kernel)
      ensures this.id == id && this.kernel == kernel && bufs == []
    {
      this.id, this.kernel, bufs := id, kernel, [];
    }

    method FindVa(va: nat) returns (i: nat)
      ensures i == VaIndex(bufs, va)
    {
      i := 0;
      while i < |bufs| && bufs[i].va != va
        invariant i <= |bufs| && VaIndex(bufs, va) == VaIndex(bufs, va, i)
      {
        i := i + 1;
      }
    }

    /** addBulkBuf: one address only once; the kernel's answer decides the rest. */
    method AddBulkBuf(va: nat, len: U32, a: MapAnswer) returns (result: McResult)
      modifies this, kernel
      ensures kernel.refused == old(kernel.refused)
      ensures result == if VaIndex(old(bufs), va) < |old(bufs)| then AlreadyMapped
                        else if a.KernelRefuses? then KernelError else McOk
      ensures if result == McOk
              then bufs == old(bufs) + [Desc(va, 0, len, a.handle)] && kernel.live == old(kernel.live) + {a.handle}
              else bufs == old(bufs) && kernel.live == old(kernel.live)
    {
      var i := FindVa(va);
      if i < |bufs| {
        return AlreadyMapped;
      }
      match a {
        case KernelRefuses =>
          return KernelError;
        case Registered(handle, _) =>
          kernel.RegisterWsmL2(handle);
          bufs := bufs + [Desc(va, 0, len, handle)];
          return McOk;
      }
    }

    /** Whether getBufHandle finds a handle. */
    method HasBufHandle(sva: U32, len: U32) returns (found: bool)
      ensures found == (HandleIndex(bufs, sva, len) < |bufs|)
    {
      var i := 0;
      while i < |bufs| && !(bufs[i].sva == sva && bufs[i].len == len)
        invariant i <= |bufs| && HandleIndex(bufs, sva, len) == HandleIndex(bufs, sva, len, i)
      {
        i := i + 1;
      }
      found := i < |bufs|;
    }

    method RemoveBulkBuf(va: nat) returns (result: McResult)
      modifies this, kernel
      ensures forall d: Dev, k: nat ::
                k < |d.sessions| && d.sessions[k] == Sess(id, old(bufs)) && d.live == old(kernel.live)
                && d.refused == old(kernel.refused) ==>
                  RemoveBuf(d, k, va)
                  == (WithBufs(d, k, bufs).(live := kernel.live, refused := kernel.refused), result)
    {
      var i := FindVa(va);
      if i == |bufs| {
        assert forall d: Dev, k: nat :: k < |d.sessions| && d.sessions[k] == Sess(id, bufs) ==>
                 WithBufs(d, k, bufs).sessions == d.sessions;
        return NotFound;
      }
      var handle := bufs[i].handle;
      bufs := bufs[..i] + bufs[i + 1..];
      var ok := kernel.Unregister(handle);
      result := if ok then McOk else KernelError;
    }

    /** The destructor. */
    method Delete(ghost d: Dev)
      requires d.live == kernel.live && d.refused == kernel.refused
      modifies kernel
      ensures kernel.live == ReleaseBufs(d, bufs).live && kernel.refused == ReleaseBufs(d, bufs).refused
    {
      ghost var e := d;
      for i := 0 to |bufs|
        invariant e.live == kernel.live && e.refused == kernel.refused
        invariant ReleaseBufs(d, bufs) == ReleaseBufs(e, bufs[i..])
      {
        assert bufs[i..][0] == bufs[i] && bufs[i..][1..] == bufs[i + 1..];
        var _ := kernel.Unregister(bufs[i].handle);
        e := Release(e, bufs[i].handle);
      }
    }
  }

  ghost function Views(ss: seq<Session>): (r: seq<Sess>)
    reads ss
    ensures |r| == |ss| && forall i :: 0 <= i < |ss| ==> r[i] == ss[i].View()
  {
    seq(|ss|, i requires 0 <= i < |ss| reads ss => ss[i].View())
  }

  /** The secure address of the newest descriptor filled in. */
  function WithAddress(d: Dev, k: nat, sva: U32): Dev
    requires k < |d.sessions| && d.sessions[k].bufs != []
  {
    var bs := d.sessions[k].bufs;
    WithBufs(d, k, bs[|bs| - 1 := bs[|bs| - 1].(sva := sva)])
  }

  lemma AddressFilledIn(d: Dev, k: nat, b: Desc, sva: U32)
    requires k < |d.sessions|
    ensures WithAddress(AddBuf(d, k, b), k, sva) == AddBuf(d, k, b.(sva := sva))
  {
    var bs := d.sessions[k].bufs;
    assert (bs + [b])[|bs| := b.(sva := sva)] == bs + [b.(sva := sva)];
    assert WithAddress(AddBuf(d, k, b), k, sva).sessions == AddBuf(d, k, b.(sva := sva)).sessions;
  }

  lemma ViewsErase(ss: seq<Session>, k: nat)
    requires k < |ss|
    ensures Views(ss[..k] + ss[k + 1..]) == Views(ss)[..k] + Views(ss)[k + 1..]
  {
    var less := ss[..k] + ss[k + 1..];
    var views := Views(ss)[..k] + Views(ss)[k + 1..];
    forall i | 0 <= i < |less|
      ensures Views(less)[i] == views[i]
    {
      assert Views(less)[i] == less[i].View();
      if i < k {
        assert less[i] == ss[i];
      } else {
        assert less[i] == ss[i + 1];
      }
    }
  }

  class Device {
    const kernel: Kernel
    var sessions: seq<Session>
    var wsms: seq<Wsm>

    ghost predicate Valid()
      reads this, sessions
    {
      && (forall i :: 0 <= i < |sessions| ==> sessions[i].kernel == kernel)
      && (forall i, j :: 0 <= i < j < |sessions| ==> sessions[i] != sessions[j])
    }

    ghost function View(): Dev
      reads this, sessions, kernel
    {
      Dev(kernel.live, Views(sessions), wsms, kernel.refused)
    }

    constructor ()
      ensures Valid() && View() == Dev({}, [], [], 0)
    {
      kernel := new Kernel();
      sessions, wsms := [], [];
    }

    /** resolveSessionId: the index of the session, or how many there are. */
    method ResolveSessionId(sid: U32) returns (k: nat)
      ensures k == SessionIndex(Views(sessions), sid)
    {
      k := 0;
      while k < |sessions| && sessions[k].id != sid
        invariant k <= |sessions| && SessionIndex(Views(sessions), sid) == SessionIndex(Views(sessions), sid, k)
      {
        k := k + 1;
      }
    }

    /** Only the descriptors of session `k` and the kernel have changed. */
    twostate lemma OneSessionChanged(k: nat)
      requires old(Valid()) && Valid() && k < |sessions| && sessions == old(sessions) && wsms == old(wsms)
      requires forall i :: 0 <= i < |sessions| && i != k ==> sessions[i].bufs == old(sessions[i].bufs)
      ensures View() == WithBufs(old(View()), k, sessions[k].bufs).(live := kernel.live, refused := kernel.refused)
    {
      assert Views(sessions) == WithBufs(old(View()), k, sessions[k].bufs).sessions;
    }

    /** mcMap_. */
    method McMap(sid: U32, va: nat, len: U32, a: MapAnswer) returns (result: McResult, sva: U32)
      requires Valid()
      modifies this, kernel, sessions
      ensures Valid() && sessions == old(sessions)
      ensures (View(), result) == MapOne(old(View()), sid, va, len, a)
      ensures result == McOk ==> a.Registered? && a.daemon.Accepts? && sva == a.daemon.sva
    {
      sva := 0;
      if va == 0 {
        return NullPointer, sva;
      }
      var k := ResolveSessionId(sid);
      if k == |sessions| {
        return UnknownSession, sva;
      }
      ghost var d := View();
      result := sessions[k].AddBulkBuf(va, len, a);
      OneSessionChanged(k);
      if result != McOk {
        SameBufs(d, k);
        return;
      }
      assert View() == AddBuf(d, k, Desc(va, 0, len, a.handle));
      result, sva := AskDaemon(k, va, a.daemon);
      if a.daemon.Accepts? {
        AddressFilledIn(d, k, Desc(va, 0, len, a.handle), sva);
      }
    }

    /** removeBulkBuf on session `k`. */
    method RemoveFrom(k: nat, va: nat) returns (result: McResult)
      requires Valid() && k < |sessions|
      modifies this, kernel, sessions
      ensures Valid() && sessions == old(sessions)
      ensures (View(), result) == RemoveBuf(old(View()), k, va)
    {
      ghost var d := View();
      result := sessions[k].RemoveBulkBuf(va);
      OneSessionChanged(k);
      assert View() == RemoveBuf(d, k, va).0;
    }

    /** The second half of mcMap_, with the buffer at the end of the list of session `k`. */
    method AskDaemon(k: nat, va: nat, daemon: Daemon) returns (result: McResult, sva: U32)
      requires Valid() && k < |sessions| && sessions[k].bufs != []
      modifies this, kernel, sessions
      ensures Valid() && sessions == old(sessions)
      ensures match daemon
              case Silent => result == SocketError && View() == old(View())
              case Rejects => result == DaemonError && View() == RemoveBuf(old(View()), k, va).0
              case Accepts(address) =>
                result == McOk && sva == address && View() == WithAddress(old(View()), k, address)
    {
      sva := 0;
      var session := sessions[k];
      match daemon {
        case Silent =>
          result := SocketError;
        case Rejects =>
          var _ := RemoveFrom(k, va);
          result := DaemonError;
        case Accepts(address) =>
          var last := |session.bufs| - 1;
          session.bufs := session.bufs[last := session.bufs[last].(sva := address)];
          OneSessionChanged(k);
          result, sva := McOk, address;
      }
    }

    /** mcUnmap_. */
    method McUnmap(sid: U32, va: nat, sva: U64, len: U32, a: Daemon) returns (result: McResult)
      requires Valid()
      modifies this, kernel, sessions
      ensures Valid() && sessions == old(sessions)
      ensures (View(), result) == UnmapOne(old(View()), sid, va, sva, len, a)
    {
      if va == 0 || sva % TWO_32 == 0 {
        return NullPointer;
      }
      var k := ResolveSessionId(sid);
      if k == |sessions| {
        return UnknownSession;
      }
      var session := sessions[k];
      var found := session.HasBufHandle(sva % TWO_32, len);
      if !found {
        return NotFound;
      }
      match a {
        case Silent =>
          return SocketError;
        case Rejects =>
          return DaemonError;
        case Accepts(_) =>
          result := RemoveFrom(k, va);
      }
    }

    /** mcMallocWsm_. */
    method McMallocWsm(len: U32, a: Option<(nat, nat)>) returns (result: McResult)
      requires Valid()
      modifies this, kernel
      ensures Valid() && (View(), result) == MallocWsm(old(View()), len, a)
    {
      if len == 0 {
        return InvalidLength;
      }
      match a {
        case None =>
          return KernelError;
        case Some(w) =>
          kernel.RegisterWsmL2(w.0);
          wsms := wsms + [Wsm(w.1, len, w.0)];
          return McOk;
      }
    }

    /** mcFreeWsm_: find the WSM, free it, and forget it if the kernel has. */
    method McFreeWsm(va: nat) returns (result: McResult)
      requires Valid()
      modifies this, kernel
      ensures Valid() && (View(), result) == FreeWsm(old(View()), va)
    {
      if va == 0 {
        return NotFound;
      }
      var j := 0;
      while j < |wsms| && wsms[j].va != va
        invariant j <= |wsms| && WsmIndex(wsms, va) == WsmIndex(wsms, va, j)
      {
        j := j + 1;
      }
      if j == |wsms| {
        return NotFound;
      }
      var ok := kernel.Unregister(wsms[j].handle);
      if !ok {
        return KernelError;
      }
      wsms := wsms[..j] + wsms[j + 1..];
      return McOk;
    }

    /** removeSession, with the destructor of the session. */
    method DeleteAt(k: nat)
      requires Valid() && k < |sessions|
      modifies this, kernel
      ensures Valid() && View() == DeleteSession(old(View()), k)
      ensures sessions == old(sessions)[..k] + old(sessions)[k + 1..]
    {
      ghost var d := View();
      sessions[k].Delete(d);
      ViewsErase(sessions, k);
      ghost var views := Views(sessions[..k] + sessions[k + 1..]);
      assert views == d.sessions[..k] + d.sessions[k + 1..];
      sessions := sessions[..k] + sessions[k + 1..];
      assert Views(sessions) == views;
    }

    /** mcCloseSession_. */
    method McCloseSession(sid: U32, a: Daemon) returns (result: McResult)
      requires Valid()
      modifies this, kernel
      ensures Valid() && (View(), result) == CloseSession(old(View()), sid, a)
    {
      var k := ResolveSessionId(sid);
      if k == |sessions| {
        return UnknownSession;
      }
      match a {
        case Silent =>
          return SocketError;
        case Rejects =>
          return DaemonError;
        case Accepts(_) =>
          DeleteAt(k);
          return McOk;
      }
    }

    /** The destructor of the device. */
    method Delete()
      requires Valid()
      modifies this, kernel
      ensures Valid() && View() == Destroy(old(View()))
    {
      while sessions != []
        invariant Valid() && DeleteSessions(View()) == DeleteSessions(old(View()))
        decreases |sessions|
      {
        DeleteAt(0);
      }
      while wsms != []
        invariant Valid() && sessions == [] && FreeWsms(View()) == Destroy(old(View()))
        decreases |wsms|
      {
        var _ := kernel.Unregister(wsms[0].handle);
        wsms := wsms[1..];
      }
    }
  }

  class DriverClient {
    const device: Device

    constructor (device: Device)
      ensures this.device == device
    {
      this.device := device;
    }

    /** DriverClient::map, over the four slots in place. */
    method Map(sid: U32, bufs: array<Slot>, answers: seq<MapAnswer>, unwinding: seq<Daemon>) returns (ok: bool)
      requires device.Valid() && bufs.Length == MAP_MAX == |answers| == |unwinding|
      modifies bufs, device, device.kernel, device.sessions
      ensures device.Valid()
      ensures (device.View(), bufs[..], ok) == Driver.Map(old(device.View()), sid, old(bufs[..]), answers, unwinding)
    {
      var failed, mapped := false, false;
      ghost var m := MapState(device.View(), bufs[..], failed, mapped);
      ghost var all := MapSlots(m, sid, 0, answers);
      for i := 0 to MAP_MAX
        invariant device.Valid() && device.sessions == old(device.sessions)
        invariant m == MapState(device.View(), bufs[..], failed, mapped)
        invariant all == MapSlots(m, sid, i, answers)
      {
        ghost var before := m;
        if bufs[i].va != 0 {
          if failed {
            bufs[i] := bufs[i].(va := 0);
          } else {
            var result, sva := device.McMap(sid, bufs[i].va, bufs[i].len, answers[i]);
            if result != McOk {
              failed := true;
            } else {
              mapped := true;
              bufs[i] := bufs[i].(sva := sva);
            }
          }
        }
        m := MapState(device.View(), bufs[..], failed, mapped);
        assert m == MapStep(before, sid, i, answers[i]);
      }
      if !failed {
        return mapped;
      }
      if mapped {
        var _ := Unmap(sid, bufs, unwinding);
      }
      return false;
    }

    /** DriverClient::unmap. */
    method Unmap(sid: U32, bufs: array<Slot>, answers: seq<Daemon>) returns (ok: bool)
      requires device.Valid() && bufs.Length == MAP_MAX == |answers|
      modifies device, device.kernel, device.sessions
      ensures device.Valid()
      ensures (device.View(), ok) == Driver.Unmap(old(device.View()), sid, bufs[..], answers)
    {
      var failed, unmapped := false, false;
      ghost var slots := bufs[..];
      ghost var all := UnmapSlots(UnmapState(device.View(), false, false), sid, slots, 0, answers);
      for i := 0 to MAP_MAX
        invariant device.Valid() && device.sessions == old(device.sessions)
        invariant all == UnmapSlots(UnmapState(device.View(), failed, unmapped), sid, slots, i, answers)
      {
        if bufs[i].va != 0 {
          var result := device.McUnmap(sid, bufs[i].va, bufs[i].sva, bufs[i].len, answers[i]);
          if result != McOk {
            failed := true;
          } else {
            unmapped := true;
          }
        }
      }
      return !failed && unmapped;
    }
  }
}
