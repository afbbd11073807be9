/**
 Runs of the proxy: opening, mapping, unmapping, notifying, waiting and closing in any order, with
 the application writing its memory and the trusted application writing the server's in between.
 The driver's answers and broken connections are part of a run.
 */
module ProxyRuns {
  import opened Wire
  import opened Message
  import opened Canonical
  import opened Schemas
  import opened Framing
  import opened Ioctl
  import opened ProxyServer
  import opened ProxyClient
  import opened ProxyMirror
  import opened ProxyAnswers
  import opened ProxyLists

  datatype Event =
    | OpenE(uuid: bytes, isGp: bool, area: Range, login: int, loginData: bytes, opens: Driver<U32>, lost: bool)
    | CloseE(does: Driver<()>, lost: bool)
    | NotifyE(does: Driver<()>, lost: bool)
    | WaitE(timeout: int, answers: seq<Option<Driver<()>>>)
    | MapE(slots: seq<Slot>, maps: Driver<seq<U64>>, lost: bool)
    | UnmapE(slots: seq<Slot>, does: Driver<()>, lost: bool)
    | AppWrites(memory: bytes)
    | TrustletWrites(tci: Option<bytes>, contents: seq<bytes>)

  /** The trusted application changing the server's buffers, which keep their sizes. */
  predicate SameSizes(s: Session, tci: Option<bytes>, contents: seq<bytes>)
  {
    && (tci.Some? <==> s.tci.Some?) && (tci.Some? ==> |tci.value| == |s.tci.value|)
    && |contents| == |s.buffers|
    && forall j :: 0 <= j < |contents| ==> |contents[j]| == |s.buffers[j].data|
  }

  function TrustletWrite(s: Session, tci: Option<bytes>, contents: seq<bytes>): Session
    requires SameSizes(s, tci, contents)
  {
    s.(tci := tci, buffers := seq(|contents|, j requires 0 <= j < |contents| =>
                                    s.buffers[j].(data := contents[j])))
  }

  /** What the model asks of the environment: valid pointers, a driver that answers a mapping with
      addresses the session does not have yet, and shared memory of constant size. */
  predicate Sane(w: World, e: Event)
  {
    (w.Up? ==> SessionInMemory(w.mem, w.client)) &&
    match e
    case OpenE(_, _, tci, login, _, _, _) =>
      w.Down? && LoginTypeIsValid(login) && InMemory(w.mem, tci.va, tci.len)
    case MapE(slots, maps, _) =>
      w.Up? && BuffersInMemory(w.mem, Selected(slots))
      && (maps.Works? ==> FreshSvas(w.client.buffers, maps.value))
    case WaitE(timeout, _) => w.Up? && -TWO_31 <= timeout < TWO_31
    case AppWrites(memory) => |memory| == |w.mem|
    case TrustletWrites(tci, contents) =>
      w.Up? && w.server.Some? && SameSizes(w.server.value, tci, contents)
    case _ => w.Up?
  }

  predicate FreshSvas(bs: seq<Slot>, svas: seq<U64>)
  {
    && (forall i, j :: 0 <= i < j < |svas| ==> svas[i] != svas[j])
    && (forall i, j :: 0 <= i < |svas| && 0 <= j < |bs| ==> svas[i] != bs[j].sva)
  }

  function Step(w: World, e: Event): World
    requires Sane(w, e)
  {
    match e
    case OpenE(uuid, isGp, tci, login, loginData, d, lost) => Open(w, uuid, isGp, tci, login, loginData, d, lost)
    case CloseE(d, lost) => Close(w, d, lost)
    case NotifyE(d, lost) => ProxyClient.Notify(w, d, lost)
    case WaitE(timeout, answers) => Wait(w, timeout, answers)
    case MapE(slots, d, lost) => ProxyClient.Map(w, slots, d, lost)
    case UnmapE(slots, d, lost) => ProxyClient.Unmap(w, slots, d, lost)
    case AppWrites(memory) => w.(mem := memory)
    case TrustletWrites(tci, contents) =>
      w.(server := Some(TrustletWrite(w.server.value, tci, contents)))
  }

  /* ---------- When a connection comes up, and when the client gives it up ---------- */

  predicate ConsistentTci(tci: Range)
  {
    (tci.va != 0 <==> tci.len != 0) && tci.len <= BUFFER_LENGTH_MAX
  }

  function Given(mem: bytes, tci: Range): Option<bytes>
    requires InMemory(mem, tci.va, tci.len)
  {
    if tci.va != 0 then Some(At(mem, tci.va, tci.len)) else None
  }

  predicate Opens(w: World, uuid: bytes, isGp: bool, tci: Range, login: int, loginData: bytes,
                  d: Driver<U32>, lost: bool)
    requires LoginTypeIsValid(login) && InMemory(w.mem, tci.va, tci.len)
  {
    && ConsistentTci(tci) && !lost && |uuid| == 16 && |loginData| == 16 && d.Works?
    && |Serialize(OPEN_SESSION_REQUEST, OpenRequest(uuid, isGp, Given(w.mem, tci), login, loginData))| < TWO_31
  }

  predicate TooLong(chosen: seq<Slot>)
  {
    exists j :: 0 <= j < |chosen| && chosen[j].len > BUFFER_LENGTH_MAX
  }

  predicate Unaddressed(chosen: seq<Slot>)
  {
    exists j :: 0 <= j < |chosen| && chosen[j].sva == 0
  }

  predicate MapGivesUp(chosen: seq<Slot>, lost: bool)
  {
    !TooLong(chosen) && (lost || |chosen| > MAP_MAX || !FlagsOk(chosen))
  }

  /** Naming more buffers than there are, or one of them twice. */
  predicate UnmapGivesUp(bs: seq<Buffer>, chosen: seq<Slot>, d: Driver<()>, lost: bool)
  {
    && !Unaddressed(chosen)
    && (|| lost || |chosen| > MAP_MAX || |chosen| > |bs|
        || (AllFound(bs, SlotSvas(chosen)) && d.Works? && !NoRepeat(SlotSvas(chosen))))
  }

  /** A call is lost before the wait is over, or the response that ends it is too large. */
  predicate WaitGivesUp(s: Session, timeout: int, left: int, ds: seq<Option<Driver<()>>>)
    decreases |ds|
  {
    ds != [] &&
    (|| ds[0].None?
     || match WaitEffect(s, NextSlice(timeout, left), ds[0].value)
        case Breaks => true
        case Refuses(_) => WaitGivesUp(s, timeout, NextSlice(timeout, left).left, ds[1..])
        case Does(_, _) => false)
  }

  predicate GivesUp(w: World, e: Event)
    requires w.Up? && Mirror(w) && Sane(w, e)
  {
    match e
    case CloseE(d, lost) => lost || d.Works?
    case NotifyE(_, lost) => !Sends(NOTIFY_REQUEST, NotifyRequest(w.mem, w.client), lost)
    case WaitE(timeout, answers) => WaitGivesUp(w.server.value, timeout, timeout, answers)
    case MapE(slots, _, lost) => MapGivesUp(Selected(slots), lost)
    case UnmapE(slots, d, lost) => UnmapGivesUp(w.server.value.buffers, Selected(slots), d, lost)
    case _ => false
  }

  /* ---------- Every operation keeps the mirror ---------- */

  lemma OpenAnswered(w: World, tci: Range, given: Option<bytes>, sizes: bool, d: Driver<U32>, o: Outcome)
    requires w.Down? && WellFormed(OPEN_SESSION_RESPONSE)
    requires if sizes && d.Works?
             then && o.session == Some(Session(d.value, given, []))
                  && Receive(OPEN_SESSION_RESPONSE, o.reply) == Done(Msg([[Num(d.value)]], []))
             else !Receive(OPEN_SESSION_RESPONSE, o.reply).Done?
    ensures AfterOpen(w, tci, o)
         == if sizes && d.Works?
            then Up(w.mem, ClientSession(d.value, if tci.va != 0 then Some(tci) else None, []),
                    Some(Session(d.value, given, [])))
            else w
  {
  }

  lemma OpenSent(w: World, uuid: bytes, isGp: bool, tci: Range, given: Option<bytes>, login: int,
                 loginData: bytes, d: Driver<U32>)
    requires w.Down? && LoginTypeIsValid(login)
    requires |Serialize(OPEN_SESSION_REQUEST, OpenRequest(uuid, isGp, given, login, loginData))| < TWO_31
    ensures var data := Serialize(OPEN_SESSION_REQUEST, OpenRequest(uuid, isGp, given, login, loginData));
            AfterOpen(w, tci, OpenSession(None, data, d))
            == if |uuid| == 16 && |loginData| == 16 && d.Works?
               then Up(w.mem, ClientSession(d.value, if tci.va != 0 then Some(tci) else None, []),
                       Some(Session(d.value, given, [])))
               else w
  {
    OpenExchange(uuid, isGp, given, login, loginData, d);
    var data := Serialize(OPEN_SESSION_REQUEST, OpenRequest(uuid, isGp, given, login, loginData));
    OpenAnswered(w, tci, given, |uuid| == 16 && |loginData| == 16, d, OpenSession(None, data, d));
  }

  lemma OpenIsSent(w: World, uuid: bytes, isGp: bool, tci: Range, login: int, loginData: bytes,
                   d: Driver<U32>, lost: bool)
    requires w.Down? && LoginTypeIsValid(login) && InMemory(w.mem, tci.va, tci.len)
    ensures var request := OpenRequest(uuid, isGp, Given(w.mem, tci), login, loginData);
            Open(w, uuid, isGp, tci, login, loginData, d, lost)
            == if ConsistentTci(tci) && Sends(OPEN_SESSION_REQUEST, request, lost)
               then AfterOpen(w, tci, OpenSession(None, Serialize(OPEN_SESSION_REQUEST, request), d))
               else w
  {
    OpenTablesFit();
  }

  /** A connection comes up exactly when the driver opens a session for arguments of the right sizes;
      then both ends have the same session and TCI. */
  lemma OpenKeepsMirror(w: World, uuid: bytes, isGp: bool, tci: Range, login: int, loginData: bytes,
                        d: Driver<U32>, lost: bool)
    requires w.Down? && LoginTypeIsValid(login) && InMemory(w.mem, tci.va, tci.len)
    ensures Open(w, uuid, isGp, tci, login, loginData, d, lost)
         == if Opens(w, uuid, isGp, tci, login, loginData, d, lost)
            then Up(w.mem, ClientSession(d.value, if tci.va != 0 then Some(tci) else None, []),
                    Some(Session(d.value, Given(w.mem, tci), [])))
            else w
    ensures Mirror(Open(w, uuid, isGp, tci, login, loginData, d, lost))
  {
    OpenIsSent(w, uuid, isGp, tci, login, loginData, d, lost);
    OpenTablesFit();
    var given := Given(w.mem, tci);
    if ConsistentTci(tci) && Sends(OPEN_SESSION_REQUEST, OpenRequest(uuid, isGp, given, login, loginData), lost) {
      OpenSent(w, uuid, isGp, tci, given, login, loginData, d);
      if d.Works? {
        OpenedMirror(w.mem, tci, d.value);
      }
    }
  }

  lemma OpenedMirror(mem: bytes, tci: Range, sid: U32)
    requires InMemory(mem, tci.va, tci.len)
    ensures Mirror(Up(mem, ClientSession(sid, if tci.va != 0 then Some(tci) else None, []),
                      Some(Session(sid, Given(mem, tci), []))))
  {
  }

  /** A close that the driver refuses changes nothing; any other takes the connection down. */
  lemma CloseKeepsMirror(w: World, d: Driver<()>, lost: bool)
    requires w.Up? && Mirror(w)
    ensures Close(w, d, lost) == if lost || d.Works? then Down(w.mem) else w
  {
    PlainTablesFit();
    CloseExchange(w.server.value, w.client.id, d);
  }

  lemma NotifiedPatches(w: World)
    requires w.Up? && Mirror(w)
    ensures |Patches(InputRecords(w.mem, w.client.buffers))| <= |w.server.value.buffers|
    ensures var r := UpdateAll(w.server.value.buffers, Patches(InputRecords(w.mem, w.client.buffers)));
            r.1 && Notified(w.mem, w.client.buffers, w.server.value.buffers, 0, r.0)
  {
    UpdateAllNotifies(w.mem, w.client.buffers, w.server.value.buffers, 0);
  }

  /** A notify is never refused for a protocol reason: not for the TCI's size, nor for the number
      of buffers, nor for an address the server does not know. Whether the driver then accepts it or
      not, the server's TCI and INPUT buffers equal the client's and its other buffers are as before;
      both sides stay in place. */
  lemma NotifyIsCoherent(w: World, d: Driver<()>, lost: bool)
    requires w.Up? && Mirror(w)
    ensures var r := ProxyClient.Notify(w, d, lost);
            if !Sends(NOTIFY_REQUEST, NotifyRequest(w.mem, w.client), lost) then r == Down(w.mem)
            else
              && r.Up? && r.client == w.client && r.mem == w.mem && Mirror(r)
              && (w.client.tci.Some? ==>
                    r.server.value.tci == Some(At(w.mem, w.client.tci.value.va, w.client.tci.value.len)))
              && Notified(w.mem, w.client.buffers, w.server.value.buffers, 0, r.server.value.buffers)
  {
    PlainTablesFit();
    if Sends(NOTIFY_REQUEST, NotifyRequest(w.mem, w.client), lost) {
      NotifyExchange(w.server.value, w.mem, w.client, d);
      NotifiedPatches(w);
    }
  }

  lemma MapAnswered(w: World, chosen: seq<Slot>, d: Driver<seq<U64>>, o: Outcome)
    requires w.Up? && w.server.Some? && WellFormed(MAP_RESPONSE)
    requires match MapEffect(w.server.value, chosen, d)
             case Breaks => Receive(MAP_RESPONSE, o.reply).Broken?
             case Refuses(errno) =>
               o.session == w.server && Receive(MAP_RESPONSE, o.reply) == Refused(errno, Empty(MAP_RESPONSE))
             case Does(t, svas) =>
               o.session == Some(t) && Receive(MAP_RESPONSE, o.reply) == Done(MapResponse(svas))
    ensures match MapEffect(w.server.value, chosen, d)
            case Breaks => AfterMap(w, chosen, o) == Down(w.mem)
            case Refuses(_) => AfterMap(w, chosen, o) == w
            case Does(t, svas) =>
              && |svas| == |chosen|
              && AfterMap(w, chosen, o)
                 == w.(client := w.client.(buffers := w.client.buffers + WithSvas(chosen, svas)), server := Some(t))
  {
    if MapEffect(w.server.value, chosen, d).Does? {
      assert Svas(MapResponse(d.value).fields[0]) == d.value;
    }
  }

  /** A map is carried out at both ends or at none, and the connection is given up exactly for a loss,
      more than four buffers, or flags that are not a direction. */
  lemma MapKeepsMirror(w: World, slots: seq<Slot>, d: Driver<seq<U64>>, lost: bool)
    requires w.Up? && Mirror(w) && BuffersInMemory(w.mem, Selected(slots))
    requires d.Works? ==> FreshSvas(w.client.buffers, d.value)
    ensures Mirror(ProxyClient.Map(w, slots, d, lost))
    ensures var chosen := Selected(slots);
            ProxyClient.Map(w, slots, d, lost)
            == if TooLong(chosen) then w
               else if MapGivesUp(chosen, lost) then Down(w.mem)
               else if d.Works? && 0 < |d.value| == |chosen| then
                 w.(client := w.client.(buffers := w.client.buffers + WithSvas(chosen, d.value)),
                    server := Some(w.server.value.(buffers := w.server.value.buffers + Allocated(chosen, d.value))))
               else w
  {
    var chosen := Selected(slots);
    MapTablesFit();
    if !TooLong(chosen) && Sends(MAP_REQUEST, MapRequest(w.client.id, chosen), lost) {
      MapExchange(w.server.value, w.client.id, chosen, d);
      MapAnswered(w, chosen, d, ProxyServer.Map(w.server, Serialize(MAP_REQUEST, MapRequest(w.client.id, chosen)), d));
      if MapEffect(w.server.value, chosen, d).Does? {
        MappedAlike(w.mem, w.client.buffers, w.server.value.buffers, chosen, d.value);
      }
    }
    if |chosen| <= MAP_MAX {
      MapRequestFits(w.client.id, chosen);
    }
  }

  lemma MappedAlike(mem: bytes, cb: seq<Slot>, sb: seq<Buffer>, chosen: seq<Slot>, svas: seq<U64>)
    requires Matching(cb, sb) && Distinct(cb) && FreshSvas(cb, svas) && |svas| == |chosen|
    requires BuffersInMemory(mem, cb) && BuffersInMemory(mem, chosen)
    ensures Matching(cb + WithSvas(chosen, svas), sb + Allocated(chosen, svas))
    ensures Distinct(cb + WithSvas(chosen, svas)) && BuffersInMemory(mem, cb + WithSvas(chosen, svas))
  {
  }

  lemma UnmapAnswered(w: World, chosen: seq<Slot>, d: Driver<()>, o: Outcome)
    requires w.Up? && w.server.Some? && WellFormed(EMPTY_MESSAGE)
    requires match UnmapEffect(w.server.value, chosen, d)
             case Breaks => Receive(EMPTY_MESSAGE, o.reply).Broken?
             case Refuses(errno) =>
               o.session == w.server && Receive(EMPTY_MESSAGE, o.reply) == Refused(errno, Empty(EMPTY_MESSAGE))
             case Does(t, _) =>
               o.session == Some(t) && Receive(EMPTY_MESSAGE, o.reply) == Done(Empty(EMPTY_MESSAGE))
    ensures AfterUnmap(w, chosen, o)
         == match UnmapEffect(w.server.value, chosen, d)
            case Breaks => Down(w.mem)
            case Refuses(_) => w
            case Does(t, _) =>
              w.(client := w.client.(buffers := RemoveSlots(w.client.buffers, chosen)), server := Some(t))
  {
  }

  lemma UnmapByEffect(w: World, slots: seq<Slot>, d: Driver<()>, lost: bool)
    requires w.Up? && w.server.Some?
    ensures var chosen := Selected(slots);
            ProxyClient.Unmap(w, slots, d, lost)
            == if Unaddressed(chosen) then w
               else if lost then Down(w.mem)
               else match UnmapEffect(w.server.value, chosen, d)
                    case Breaks => Down(w.mem)
                    case Refuses(_) => w
                    case Does(t, _) =>
                      w.(client := w.client.(buffers := RemoveSlots(w.client.buffers, chosen)), server := Some(t))
  {
    var chosen := Selected(slots);
    UnmapTablesFit();
    if |chosen| <= MAP_MAX {
      UnmapRequestFits(w.client.id, chosen);
    }
    if Sends(UNMAP_REQUEST, UnmapRequest(w.client.id, chosen), lost) {
      UnmapExchange(w.server.value, w.client.id, chosen, d);
      UnmapAnswered(w, chosen, d,
                    ProxyServer.Unmap(w.server, Serialize(UNMAP_REQUEST, UnmapRequest(w.client.id, chosen)), d));
    }
  }

  /** An unmap is carried out at both ends or at none, and the connection is given up exactly for a
      loss or a request that names too many buffers or one of them twice. */
  lemma UnmapKeepsMirror(w: World, slots: seq<Slot>, d: Driver<()>, lost: bool)
    requires w.Up? && Mirror(w)
    ensures Mirror(ProxyClient.Unmap(w, slots, d, lost))
    ensures var chosen, bs := Selected(slots), w.server.value.buffers;
            ProxyClient.Unmap(w, slots, d, lost)
            == if Unaddressed(chosen) then w
               else if UnmapGivesUp(bs, chosen, d, lost) then Down(w.mem)
               else if AllFound(bs, SlotSvas(chosen)) && d.Works? then
                 w.(client := w.client.(buffers := RemoveSlots(w.client.buffers, chosen)),
                    server := Some(w.server.value.(buffers := RemoveAll(bs, SlotSvas(chosen)).0)))
               else w
  {
    var chosen := Selected(slots);
    UnmapByEffect(w, slots, d, lost);
    UnmapEffectIs(w, chosen, d, lost);
    if UnmapEffect(w.server.value, chosen, d).Does? {
      UnmappedMirror(w, chosen);
    }
  }

  lemma UnmappedMirror(w: World, chosen: seq<Slot>)
    requires w.Up? && Mirror(w) && RemoveAll(w.server.value.buffers, SlotSvas(chosen)).1
    ensures var rest := RemoveAll(w.server.value.buffers, SlotSvas(chosen)).0;
            Mirror(w.(client := w.client.(buffers := RemoveSlots(w.client.buffers, chosen)),
                      server := Some(w.server.value.(buffers := rest))))
  {
    assert Svas(UnmapRecords(chosen)) == SlotSvas(chosen);
    RemoveKeepsMatching(w.mem, w.client.buffers, w.server.value.buffers, chosen);
  }

  lemma UnmapEffectIs(w: World, chosen: seq<Slot>, d: Driver<()>, lost: bool)
    requires w.Up? && Mirror(w)
    ensures var s, bs := w.server.value, w.server.value.buffers;
            && (!Unaddressed(chosen) ==>
                  (lost || UnmapEffect(s, chosen, d).Breaks? <==> UnmapGivesUp(bs, chosen, d, lost)))
            && (UnmapEffect(s, chosen, d).Does? ==>
                  && AllFound(bs, SlotSvas(chosen)) && d.Works? && RemoveAll(bs, SlotSvas(chosen)).1
                  && UnmapEffect(s, chosen, d).session == s.(buffers := RemoveAll(bs, SlotSvas(chosen)).0))
            && (UnmapEffect(s, chosen, d).Refuses? ==> !(AllFound(bs, SlotSvas(chosen)) && d.Works?))
  {
    RemovedWhen(w, chosen);
  }

  lemma RemovedWhen(w: World, chosen: seq<Slot>)
    requires w.Up? && Mirror(w)
    ensures var bs := w.server.value.buffers;
            AllFound(bs, SlotSvas(chosen)) ==>
              (RemoveAll(bs, SlotSvas(chosen)).1 <==> NoRepeat(SlotSvas(chosen)))
  {
    AllFoundIsListed(w.server.value.buffers, SlotSvas(chosen));
    RemoveAllWhen(w.server.value.buffers, SlotSvas(chosen));
  }

  /* ---------- Waiting ---------- */

  /** Every answer so far was the time-out of a partial wait. */
  predicate StillWaiting(timeout: int, left: int, ds: seq<Option<Driver<()>>>)
    decreases |ds|
  {
    ds == []
    || (ds[0] == Some(Fails(ETIME)) && NextSlice(timeout, left).partial
        && StillWaiting(timeout, NextSlice(timeout, left).left, ds[1..]))
  }

  /** The server's range check refuses no slice, for any timeout of the caller. */
  lemma SliceInRange(timeout: int, left: int)
    requires timeout >= 0 ==> 0 <= left
    ensures 0 <= NextSlice(timeout, left).timeout <= TIMEOUT_MAX
    ensures timeout >= 0 ==> 0 <= NextSlice(timeout, left).left <= left
  {
  }

  function AfterWait(w: World): World
    requires w.Up? && Mirror(w)
  {
    w.(mem := ApplyResponse(w.mem, w.client, WaitResponse(w.server.value)))
  }

  /** One round of the loop. */
  lemma WaitRound(w: World, timeout: int, left: int, ds: seq<Option<Driver<()>>>)
    requires w.Up? && Mirror(w) && left < TWO_31 && (timeout >= 0 ==> 0 <= left) && ds != []
    ensures var slice := NextSlice(timeout, left);
            WaitLoop(w, timeout, left, ds)
            == if ds[0].None? then Down(w.mem)
               else match WaitEffect(w.server.value, slice, ds[0].value)
                    case Breaks => Down(w.mem)
                    case Refuses(_) => WaitLoop(w, timeout, slice.left, ds[1..])
                    case Does(_, _) => AfterWait(w)
  {
    var slice := NextSlice(timeout, left);
    SliceInRange(timeout, left);
    WaitRequestFits(w.client.id, slice);
    if ds[0].Some? {
      WaitExchange(w.server.value, w.client.id, slice, ds[0].value);
      assert w.(server := w.server) == w;
    }
  }

  /** Whatever the slices and the driver's answers, a wait changes neither session. It is still going
      on exactly while all answers were partial time-outs; once it ends, successfully or not, the
      response has been copied back; and the connection is given up exactly when a call is lost or that
      response is too large to be sent. */
  lemma {:induction false} WaitLoopEnds(w: World, timeout: int, left: int, ds: seq<Option<Driver<()>>>)
    requires w.Up? && Mirror(w) && left < TWO_31 && (timeout >= 0 ==> 0 <= left)
    ensures WaitLoop(w, timeout, left, ds)
         == if WaitGivesUp(w.server.value, timeout, left, ds) then Down(w.mem)
            else if StillWaiting(timeout, left, ds) then w
            else AfterWait(w)
    decreases |ds|
  {
    if ds != [] {
      WaitRound(w, timeout, left, ds);
      SliceInRange(timeout, left);
      if ds[0].Some? && WaitEffect(w.server.value, NextSlice(timeout, left), ds[0].value).Refuses? {
        WaitLoopEnds(w, timeout, NextSlice(timeout, left).left, ds[1..]);
      }
    }
  }

  /** The TCI lies apart from the OUTPUT buffers. */
  predicate TciApart(c: ClientSession)
  {
    c.tci.Some? ==>
      forall j :: 0 <= j < |c.buffers| && Output(c.buffers[j].flags) ==>
        || c.tci.value.va + c.tci.value.len <= c.buffers[j].va
        || c.buffers[j].va + c.buffers[j].len <= c.tci.value.va
  }

  predicate InTci(c: ClientSession, a: nat)
  {
    c.tci.Some? && c.tci.value.va <= a < c.tci.value.va + c.tci.value.len
  }

  /** After a wait that returns buffers: the client's TCI and OUTPUT buffers equal the server's
      (where they do not overlap in the client's memory), and no other memory has changed, so
      buffers for INPUT only are as before. */
  lemma WaitIsCoherent(w: World)
    requires w.Up? && Mirror(w)
    ensures var r := AfterWait(w);
            && Mirror(r)
            && (forall a :: 0 <= a < |w.mem| && !InTci(w.client, a) && !InOutput(w.client.buffers, 0, a) ==>
                  r.mem[a] == w.mem[a])
            && (DisjointOutputs(w.client.buffers) ==>
                  forall j :: 0 <= j < |w.client.buffers| && Output(w.client.buffers[j].flags) ==>
                    At(r.mem, w.client.buffers[j].va, w.client.buffers[j].len) == w.server.value.buffers[j].data)
            && (TciApart(w.client) && w.client.tci.Some? ==>
                  Some(At(r.mem, w.client.tci.value.va, w.client.tci.value.len)) == w.server.value.tci)
  {
    var c, s := w.client, w.server.value;
    var m := if c.tci.Some? then Write(w.mem, c.tci.value.va, s.tci.value) else w.mem;
    if c.tci.Some? {
      WriteAt(w.mem, c.tci.value.va, s.tci.value);
    }
    CopyBackFrame(m, c.buffers, s.buffers);
    if DisjointOutputs(c.buffers) {
      forall j: nat | j < |c.buffers| && Output(c.buffers[j].flags)
        ensures At(AfterWait(w).mem, c.buffers[j].va, c.buffers[j].len) == s.buffers[j].data
      {
        CopyBackCopies(m, c.buffers, s.buffers, j);
      }
    }
    if c.tci.Some? && TciApart(c) {
      TciKept(w, m, AfterWait(w).mem);
    }
  }

  lemma TciKept(w: World, m: bytes, r: bytes)
    requires w.Up? && Mirror(w) && w.client.tci.Some? && TciApart(w.client) && |m| == |r| == |w.mem|
    requires m == Write(w.mem, w.client.tci.value.va, w.server.value.tci.value)
    requires forall a :: 0 <= a < |m| && !InOutput(w.client.buffers, 0, a) ==> r[a] == m[a]
    ensures At(r, w.client.tci.value.va, w.client.tci.value.len) == w.server.value.tci.value
  {
    var t := w.client.tci.value;
    WriteAt(w.mem, t.va, w.server.value.tci.value);
    forall a | t.va <= a < t.va + t.len
      ensures r[a] == m[a]
    {
      assert !InOutput(w.client.buffers, 0, a);
    }
    assert At(r, t.va, t.len) == At(m, t.va, t.len);
  }

  /* ---------- Runs ---------- */

  lemma StepKeepsMirror(w: World, e: Event)
    requires Mirror(w) && Sane(w, e)
    ensures Mirror(Step(w, e))
    ensures w.Up? ==> (Step(w, e).Down? <==> GivesUp(w, e))
  {
    match e
    case OpenE(uuid, isGp, tci, login, loginData, d, lost) =>
      OpenKeepsMirror(w, uuid, isGp, tci, login, loginData, d, lost);
    case CloseE(d, lost) => CloseKeepsMirror(w, d, lost);
    case NotifyE(d, lost) => NotifyIsCoherent(w, d, lost);
    case WaitE(timeout, answers) =>
      WaitLoopEnds(w, timeout, timeout, answers);
      WaitIsCoherent(w);
    case MapE(slots, d, lost) => MapKeepsMirror(w, slots, d, lost);
    case UnmapE(slots, d, lost) => UnmapKeepsMirror(w, slots, d, lost);
    case AppWrites(memory) =>
    case TrustletWrites(tci, contents) =>
  }

  ghost predicate Runs(w: World, es: seq<Event>, t: World)
    decreases |es|
  {
    if es == [] then t == w else Sane(w, es[0]) && Runs(Step(w, es[0]), es[1..], t)
  }

  lemma {:induction false} RunsKeepMirror(w: World, es: seq<Event>, t: World)
    requires Mirror(w) && Runs(w, es, t)
    ensures Mirror(t)
    decreases |es|
  {
    if es != [] {
      StepKeepsMirror(w, es[0]);
      RunsKeepMirror(Step(w, es[0]), es[1..], t);
    }
  }

  /** In every state of every run with a connection, the two sessions list the same buffers; and the
      next operation takes the connection down exactly in the cases of `GivesUp`. */
  lemma EveryRunMirrors(mem: bytes, es: seq<Event>, t: World)
    requires Runs(Down(mem), es, t)
    ensures Mirror(t)
    ensures t.Up? ==> forall e :: Sane(t, e) ==> (Step(t, e).Down? <==> GivesUp(t, e))
  {
    RunsKeepMirror(Down(mem), es, t);
    if t.Up? {
      forall e | Sane(t, e)
        ensures Step(t, e).Down? <==> GivesUp(t, e)
      {
        StepKeepsMirror(t, e);
      }
    }
  }

  /** In every reachable state a notify that gets through is accepted by the server, which then has
      the client's TCI and INPUT buffers; and a wait that ends brings the TCI and OUTPUT buffers
      back, unless one of its calls was lost or the response is too large. */
  lemma EveryRunIsCoherent(mem: bytes, es: seq<Event>, w: World, d: Driver<()>)
    requires Runs(Down(mem), es, w) && w.Up?
    ensures Mirror(w)
    ensures Sends(NOTIFY_REQUEST, NotifyRequest(w.mem, w.client), false) ==>
              var r := ProxyClient.Notify(w, d, false);
              && r.Up? && Mirror(r)
              && (w.client.tci.Some? ==>
                    r.server.value.tci == Some(At(w.mem, w.client.tci.value.va, w.client.tci.value.len)))
              && Notified(w.mem, w.client.buffers, w.server.value.buffers, 0, r.server.value.buffers)
    ensures forall timeout: int, answers ::
              -TWO_31 <= timeout < TWO_31 && !StillWaiting(timeout, timeout, answers) ==>
                Wait(w, timeout, answers)
                == if WaitGivesUp(w.server.value, timeout, timeout, answers) then Down(w.mem) else AfterWait(w)
  {
    RunsKeepMirror(Down(mem), es, w);
    NotifyIsCoherent(w, d, false);
    forall timeout: int, answers | -TWO_31 <= timeout < TWO_31 && !StillWaiting(timeout, timeout, answers)
      ensures Wait(w, timeout, answers)
           == if WaitGivesUp(w.server.value, timeout, timeout, answers) then Down(w.mem) else AfterWait(w)
    {
      WaitLoopEnds(w, timeout, timeout, answers);
    }
  }
}
