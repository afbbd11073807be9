/**
 The client library's device (ClientLib.cpp, Session.cpp, Device.cpp) on values: the kernel's live
 handles, the sessions with their bulk buffer descriptors, and the WSM list. What the kernel and the
 daemon answer are parameters.
 */
module Driver {
  import opened Wire
  import opened Ioctl

  datatype Desc = Desc(va: nat, sva: U32, len: U32, handle: nat)

  datatype Sess = Sess(id: U32, bufs: seq<Desc>)

  datatype Wsm = Wsm(va: nat, len: U32, handle: nat)

  /** `refused` counts the kernel's refusals to release a handle it does not hold. */
  datatype Dev = Dev(live: set<nat>, sessions: seq<Sess>, wsms: seq<Wsm>, refused: nat)

  datatype McResult =
    | McOk
    | NullPointer
    | UnknownSession
    | AlreadyMapped
    | KernelError
    | SocketError
    | DaemonError
    | NotFound
    | InvalidLength

  /** The daemon's reply to a mapping: none (the socket fails), a refusal, or a secure address. */
  datatype Daemon = Silent | Rejects | Accepts(sva: U32)

  /** The kernel's reply to a registration and, if it gave a handle, the daemon's. */
  datatype MapAnswer = KernelRefuses | Registered(handle: nat, daemon: Daemon)

  /* ---------- Look-ups ---------- */

  /** resolveSessionId. */
  function SessionIndex(ss: seq<Sess>, id: U32, i: nat := 0): (k: nat)
    requires i <= |ss|
    ensures i <= k <= |ss|
    ensures k < |ss| ==> ss[k].id == id
    ensures forall j :: i <= j < k ==> ss[j].id != id
    decreases |ss| - i
  {
    if i == |ss| || ss[i].id == id then i else SessionIndex(ss, id, i + 1)
  }

  /** The descriptor with this virtual address. */
  function VaIndex(bs: seq<Desc>, va: nat, i: nat := 0): (k: nat)
    requires i <= |bs|
    ensures i <= k <= |bs|
    ensures k < |bs| ==> bs[k].va == va
    ensures forall j :: i <= j < k ==> bs[j].va != va
    decreases |bs| - i
  {
    if i == |bs| || bs[i].va == va then i else VaIndex(bs, va, i + 1)
  }

  /** getBufHandle looks for the secure address and the length. It returns the handle, or 0 when there
      is none; the kernel does not hand out 0. */
  function HandleIndex(bs: seq<Desc>, sva: U32, len: U32, i: nat := 0): (k: nat)
    requires i <= |bs|
    ensures i <= k <= |bs|
    ensures k < |bs| ==> bs[k].sva == sva && bs[k].len == len
    ensures forall j :: i <= j < k ==> !(bs[j].sva == sva && bs[j].len == len)
    decreases |bs| - i
  {
    if i == |bs| || (bs[i].sva == sva && bs[i].len == len) then i else HandleIndex(bs, sva, len, i + 1)
  }

  function WsmIndex(ws: seq<Wsm>, va: nat, i: nat := 0): (k: nat)
    requires i <= |ws|
    ensures i <= k <= |ws|
    ensures k < |ws| ==> ws[k].va == va
    decreases |ws| - i
  {
    if i == |ws| || ws[i].va == va then i else WsmIndex(ws, va, i + 1)
  }

  /* ---------- Sessions ---------- */

  function WithBufs(d: Dev, k: nat, bs: seq<Desc>): Dev
    requires k < |d.sessions|
  {
    d.(sessions := d.sessions[k := d.sessions[k].(bufs := bs)])
  }

  lemma SameBufs(d: Dev, k: nat)
    requires k < |d.sessions|
    ensures WithBufs(d, k, d.sessions[k].bufs) == d
  {
    assert d.sessions[k := d.sessions[k]] == d.sessions;
  }

  /** addBulkBuf of a buffer the kernel has given a handle for. */
  function AddBuf(d: Dev, k: nat, b: Desc): (r: Dev)
    requires k < |d.sessions|
    ensures |r.sessions| == |d.sessions|
  {
    WithBufs(d, k, d.sessions[k].bufs + [b]).(live := d.live + {b.handle})
  }

  /** unregisterWsmL2 and free: the kernel lets go of a handle it holds. */
  function Release(d: Dev, handle: nat): Dev
  {
    if handle in d.live then d.(live := d.live - {handle}) else d.(refused := d.refused + 1)
  }

  /** removeBulkBuf: erase the descriptor, then unregister its handle. */
  function RemoveBuf(d: Dev, k: nat, va: nat): (Dev, McResult)
    requires k < |d.sessions|
  {
    var bs := d.sessions[k].bufs;
    var j := VaIndex(bs, va);
    if j == |bs| then (d, NotFound)
    else
      (Release(WithBufs(d, k, bs[..j] + bs[j + 1..]), bs[j].handle),
       if bs[j].handle in d.live then McOk else KernelError)
  }

  /** mcMap_. When the daemon cannot be reached the descriptor stays, without a secure address. */
  function MapOne(d: Dev, sid: U32, va: nat, len: U32, a: MapAnswer): (Dev, McResult)
  {
    var k := SessionIndex(d.sessions, sid);
    if va == 0 then (d, NullPointer)
    else if k == |d.sessions| then (d, UnknownSession)
    else if VaIndex(d.sessions[k].bufs, va) < |d.sessions[k].bufs| then (d, AlreadyMapped)
    else
      match a
      case KernelRefuses => (d, KernelError)
      case Registered(handle, daemon) =>
        match daemon
        case Silent => (AddBuf(d, k, Desc(va, 0, len, handle)), SocketError)
        case Rejects => (RemoveBuf(AddBuf(d, k, Desc(va, 0, len, handle)), k, va).0, DaemonError)
        case Accepts(sva) => (AddBuf(d, k, Desc(va, sva, len, handle)), McOk)
  }

  /** mcUnmap_. The buffer is looked up by secure address and length, and removed by address. */
  function UnmapOne(d: Dev, sid: U32, va: nat, sva: U64, len: U32, a: Daemon): (Dev, McResult)
  {
    var k := SessionIndex(d.sessions, sid);
    if va == 0 then (d, NullPointer)
    else if sva % TWO_32 == 0 then (d, NullPointer)
    else if k == |d.sessions| then (d, UnknownSession)
    else if HandleIndex(d.sessions[k].bufs, sva % TWO_32, len) == |d.sessions[k].bufs| then (d, NotFound)
    else
      match a
      case Silent => (d, SocketError)
      case Rejects => (d, DaemonError)
      case Accepts(_) => RemoveBuf(d, k, va)
  }

  /* ---------- WSMs, opening and closing ---------- */

  /** allocateContiguousWsm; the kernel answers with a handle and an address. */
  function MallocWsm(d: Dev, len: U32, kernel: Option<(nat, nat)>): (Dev, McResult)
  {
    if len == 0 then (d, InvalidLength)
    else
      match kernel
      case None => (d, KernelError)
      case Some(w) => (d.(live := d.live + {w.0}, wsms := d.wsms + [Wsm(w.1, len, w.0)]), McOk)
  }

  /** mcFreeWsm_: the entry goes only if the kernel has freed the memory. */
  function FreeWsm(d: Dev, va: nat): (Dev, McResult)
  {
    var j := WsmIndex(d.wsms, va);
    if va == 0 || j == |d.wsms| then (d, NotFound)
    else if d.wsms[j].handle !in d.live then (Release(d, d.wsms[j].handle), KernelError)
    else (Release(d, d.wsms[j].handle).(wsms := d.wsms[..j] + d.wsms[j + 1..]), McOk)
  }

  const MC_MAX_TCI_LEN := 0x10_0000

  /** Whether mcOpenSession_ registers the TCI as a bulk buffer of its own. */
  predicate TciNeedsBuffer(d: Dev, tci: nat, len: U32)
  {
    len <= MC_MAX_TCI_LEN && tci != 0 && WsmIndex(d.wsms, tci) == |d.wsms| && len != 0
  }

  /** Whether it refuses a TCI that is not contained in a WSM and cannot be registered. */
  predicate TciRefused(d: Dev, tci: nat, len: U32)
  {
    var j := WsmIndex(d.wsms, tci);
    || len > MC_MAX_TCI_LEN
    || (if tci == 0 || j == |d.wsms| then tci == 0 && len != 0 else d.wsms[j].len < len)
  }

  /** mcOpenSession_. `daemon` is the identifier of the session once it is open and its notification
      channel connected. If not, the descriptor of a registered TCI is deleted, but its handle is not
      unregistered. */
  function OpenSession(d: Dev, tci: nat, len: U32, kernel: Option<nat>, daemon: Option<U32>): (Dev, McResult)
  {
    if TciRefused(d, tci, len) then (d, InvalidLength)
    else if !TciNeedsBuffer(d, tci, len) then
      (match daemon
       case None => (d, DaemonError)
       case Some(id) => (d.(sessions := d.sessions + [Sess(id, [])]), McOk))
    else
      match kernel
      case None => (d, KernelError)
      case Some(h) =>
        match daemon
        case None => (d.(live := d.live + {h}), DaemonError)
        case Some(id) =>
          (d.(live := d.live + {h}, sessions := d.sessions + [Sess(id, [Desc(tci, 0, len, h)])]), McOk)
  }

  /** The destructor of a session unregisters what is still mapped. */
  function ReleaseBufs(d: Dev, bs: seq<Desc>): (r: Dev)
    ensures r.sessions == d.sessions && r.wsms == d.wsms
    decreases |bs|
  {
    if bs == [] then d else ReleaseBufs(Release(d, bs[0].handle), bs[1..])
  }

  function DeleteSession(d: Dev, k: nat): (r: Dev)
    requires k < |d.sessions|
    ensures r.sessions == d.sessions[..k] + d.sessions[k + 1..] && r.wsms == d.wsms
  {
    ReleaseBufs(d, d.sessions[k].bufs).(sessions := d.sessions[..k] + d.sessions[k + 1..])
  }

  /** mcCloseSession_. */
  function CloseSession(d: Dev, sid: U32, a: Daemon): (Dev, McResult)
  {
    var k := SessionIndex(d.sessions, sid);
    if k == |d.sessions| then (d, UnknownSession)
    else
      match a
      case Silent => (d, SocketError)
      case Rejects => (d, DaemonError)
      case Accepts(_) => (DeleteSession(d, k), McOk)
  }

  /** The destructor of the device: first its sessions, then its WSMs. */
  function DeleteSessions(d: Dev): (r: Dev)
    ensures r.sessions == [] && r.wsms == d.wsms
    decreases |d.sessions|
  {
    if d.sessions == [] then d else DeleteSessions(DeleteSession(d, 0))
  }

  function FreeWsms(d: Dev): (r: Dev)
    ensures r.sessions == d.sessions && r.wsms == []
    decreases |d.wsms|
  {
    if d.wsms == [] then d
    else FreeWsms(Release(d, d.wsms[0].handle).(wsms := d.wsms[1..]))
  }

  function Destroy(d: Dev): (r: Dev)
    ensures r.sessions == [] && r.wsms == []
  {
    FreeWsms(DeleteSessions(d))
  }

  /* ---------- DriverClient::map and unmap ---------- */

  datatype MapState = MapState(dev: Dev, slots: seq<Slot>, failed: bool, mapped: bool)

  /** One round of the loop over the slots. */
  function MapStep(s: MapState, sid: U32, i: nat, a: MapAnswer): (r: MapState)
    requires i < |s.slots|
    ensures |r.slots| == |s.slots|
  {
    var slot := s.slots[i];
    if slot.va == 0 then s
    else if s.failed then s.(slots := s.slots[i := slot.(va := 0)])
    else
      var (dev, result) := MapOne(s.dev, sid, slot.va, slot.len, a);
      if result != McOk then s.(dev := dev, failed := true)
      else s.(dev := dev, mapped := true, slots := s.slots[i := slot.(sva := a.daemon.sva)])
  }

  function MapSlots(s: MapState, sid: U32, i: nat, answers: seq<MapAnswer>): (r: MapState)
    requires i <= |s.slots| == |answers|
    ensures |r.slots| == |s.slots|
    decreases |s.slots| - i
  {
    if i == |s.slots| then s else MapSlots(MapStep(s, sid, i, answers[i]), sid, i + 1, answers)
  }

  datatype UnmapState = UnmapState(dev: Dev, failed: bool, unmapped: bool)

  function UnmapStep(s: UnmapState, sid: U32, slot: Slot, a: Daemon): UnmapState
  {
    if slot.va == 0 then s
    else
      var (dev, result) := UnmapOne(s.dev, sid, slot.va, slot.sva, slot.len, a);
      if result != McOk then s.(dev := dev, failed := true) else s.(dev := dev, unmapped := true)
  }

  function UnmapSlots(s: UnmapState, sid: U32, slots: seq<Slot>, i: nat, answers: seq<Daemon>): UnmapState
    requires i <= |slots| == |answers|
    decreases |slots| - i
  {
    if i == |slots| then s
    else UnmapSlots(UnmapStep(s, sid, slots[i], answers[i]), sid, slots, i + 1, answers)
  }

  /** DriverClient::unmap: keeps going after an error; an empty set is an error. */
  function Unmap(d: Dev, sid: U32, slots: seq<Slot>, answers: seq<Daemon>): (Dev, bool)
    requires |answers| == |slots|
  {
    var u := UnmapSlots(UnmapState(d, false, false), sid, slots, 0, answers);
    (u.dev, !u.failed && u.unmapped)
  }

  /** DriverClient::map, unwinding through unmap; the slots come back as the loop left them. */
  function Map(d: Dev, sid: U32, slots: seq<Slot>, answers: seq<MapAnswer>, unwinding: seq<Daemon>):
    (r: (Dev, seq<Slot>, bool))
    requires |answers| == |unwinding| == |slots|
    ensures |r.1| == |slots|
  {
    var m := MapSlots(MapState(d, slots, false, false), sid, 0, answers);
    if !m.failed then (m.dev, m.slots, m.mapped)
    else if !m.mapped then (m.dev, m.slots, false)
    else (Unmap(m.dev, sid, m.slots, unwinding).0, m.slots, false)
  }
}
