/**
 Several callers on one connection (proxy_client.cpp): each operation of a session builds its request,
 waits for the connection, has it served, and then updates memory and the list of buffers on its own. In
 between, other callers' operations go on. That the exchanges themselves are served one after the other,
 each caller getting the reply to its own request, is what Rpc.dfy proves; here an exchange is one step
 (`ProxyExchange.ServeIsExchange`).

 `buffers_mutex_` guards the client's list: adding, removing and copying take it for one buffer at a time,
 while `notify` holds it from building its request until the call is over. A caller that finds the
 connection broken deletes it for all (`Gone`).

 `history` records which addresses the server has given out and where they are under way; nothing depends
 on it.
 */
module ProxyCallers {
  import opened Wire
  import opened Message
  import opened Canonical
  import opened Schemas
  import opened Framing
  import opened Ioctl
  import opened ProxyServer
  import opened ProxyClient
  import opened ProxyAnswers
  import opened ProxyLists
  import opened ProxyRuns

  /** Where an operation is. `Notifying` holds the bytes of its request and the memory it was built from;
      `left` of `Waiting` is the time left, if the wait is not infinite. */
  datatype Call =
    | Notifying(data: bytes, memory: bytes)
    | Mapping(chosen: seq<Slot>)
    | Adding(slots: seq<Slot>)
    | Unmapping(chosen: seq<Slot>)
    | Removing(slots: seq<Slot>)
    | Waiting(timeout: int, left: nat)
    | Copying(tci: Option<bytes>, patches: seq<Patch>)
    | Closing
    | Deleting

  datatype Entry = Entry(flags: U32, len: U32)

  /** For every address the server has given out: what it stands for; the caller that has yet to add it to
      the client's list; the caller whose unmap has been served and who has yet to take it off that list;
      and the addresses that an unmap has failed to take off. */
  datatype History = History(
    book: map<U64, Entry>,
    joining: map<U64, nat>,
    leaving: map<U64, nat>,
    stranded: set<U64>)

  datatype State =
    | Gone(mem: bytes)
    | Live(mem: bytes, client: ClientSession, server: Option<Session>, calls: map<nat, Call>,
           mutex: Option<nat>, history: History)

  datatype Event =
    | AskNotify(c: nat)
    | AskMap(c: nat, slots: seq<Slot>)
    | AskUnmap(c: nat, slots: seq<Slot>)
    | AskWait(c: nat, timeout: int)
    | AskClose(c: nat)
    | Serve(c: nat, does: Driver<()>, maps: Driver<seq<U64>>, lost: bool)
    | AddOne(c: nat)
    | RemoveOne(c: nat)
    | CopyOne(c: nat)
    | Delete(c: nat)
    | AppWrites(memory: bytes)
    | TrustletWrites(tci: Option<bytes>, contents: seq<bytes>)

  function Start(mem: bytes, client: ClientSession, server: Session): State
  {
    Live(mem, client, Some(server), map[], None, History(map[], map[], map[], {}))
  }

  predicate Asked(call: Call)
  {
    call.Notifying? || call.Mapping? || call.Unmapping? || call.Waiting? || call.Closing?
  }

  /** Secure addresses are new within a session. */
  predicate New(h: History, svas: seq<U64>)
  {
    NoRepeat(svas) && forall j :: 0 <= j < |svas| ==> svas[j] !in h.book
  }

  /** When a step can happen; of the environment: valid pointers, new addresses, and shared memory of
      constant size. */
  predicate Enabled(s: State, e: Event)
  {
    s.Live? &&
    match e
    case AskNotify(c) => c !in s.calls && s.mutex.None? && SessionInMemory(s.mem, s.client)
    case AskMap(c, slots) => c !in s.calls && BuffersInMemory(s.mem, Selected(slots))
    case AskUnmap(c, slots) => c !in s.calls
    case AskWait(c, timeout) => c !in s.calls && -TWO_31 <= timeout < TWO_31
    case AskClose(c) => c !in s.calls
    case Serve(c, _, maps, _) =>
      c in s.calls && Asked(s.calls[c]) && (maps.Works? ==> New(s.history, maps.value))
    case AddOne(c) => c in s.calls && s.calls[c].Adding? && s.calls[c].slots != [] && s.mutex.None?
    case RemoveOne(c) => c in s.calls && s.calls[c].Removing? && s.calls[c].slots != [] && s.mutex.None?
    case CopyOne(c) =>
      && c in s.calls && s.calls[c].Copying? && SessionInMemory(s.mem, s.client)
      && (s.calls[c].tci.Some? || (s.calls[c].patches != [] && s.mutex.None?))
    case Delete(c) => c in s.calls && s.calls[c].Deleting?
    case AppWrites(memory) => |memory| == |s.mem|
    case TrustletWrites(tci, contents) => s.server.Some? && SameSizes(s.server.value, tci, contents)
  }

  /** An operation with nothing left to do is over. */
  function After(s: State, c: nat, call: Call): State
    requires s.Live?
  {
    var over := match call
                case Adding(slots) => slots == []
                case Removing(slots) => slots == []
                case Copying(tci, patches) => tci.None? && patches == []
                case _ => false;
    if over then Over(s, c) else s.(calls := s.calls[c := call])
  }

  function Over(s: State, c: nat): State
    requires s.Live?
  {
    s.(calls := s.calls - {c})
  }

  /* ---------- History ---------- */

  function Booked(book: map<U64, Entry>, slots: seq<Slot>): map<U64, Entry>
    decreases |slots|
  {
    if slots == [] then book
    else Booked(book[slots[0].sva := Entry(slots[0].flags, slots[0].len)], slots[1..])
  }

  function Owned(owners: map<U64, nat>, slots: seq<Slot>, c: nat): map<U64, nat>
  {
    owners + map x | x in AsSet(SlotSvas(slots)) :: c
  }

  /* ---------- Exchanges ---------- */

  function ServeNotify(s: State, c: nat, d: Driver<()>, lost: bool): State
    requires s.Live? && c in s.calls && s.calls[c].Notifying?
  {
    PlainTablesFit();
    var data := s.calls[c].data;
    if |data| >= TWO_31 || lost then Gone(s.mem)
    else
      var o := ProxyServer.Notify(s.server, data, d);
      if Receive(EMPTY_MESSAGE, o.reply).Broken? then Gone(s.mem)
      else Over(s.(server := o.session, mutex := None), c)
  }

  /** The addresses of the response are filled in, and the slots are ready to be added. */
  function ServeMap(s: State, c: nat, d: Driver<seq<U64>>, lost: bool): State
    requires s.Live? && c in s.calls && s.calls[c].Mapping?
  {
    MapTablesFit();
    var chosen := s.calls[c].chosen;
    if !Sends(MAP_REQUEST, MapRequest(s.client.id, chosen), lost) then Gone(s.mem)
    else MapReply(s, c, ProxyServer.Map(s.server, Serialize(MAP_REQUEST, MapRequest(s.client.id, chosen)), d))
  }

  function MapReply(s: State, c: nat, o: Outcome): State
    requires s.Live? && c in s.calls && s.calls[c].Mapping?
  {
    MapTablesFit();
    var chosen := s.calls[c].chosen;
    match Receive(MAP_RESPONSE, o.reply)
    case Broken => Gone(s.mem)
    case Refused(_, _) => Over(s.(server := o.session), c)
    case Done(response) =>
      var vs := NestedAt(response, 0);
      if |vs| != |chosen| || exists j :: 0 <= j < |vs| && !Has(Sub1(vs[j]), 0)
      then Over(s.(server := o.session), c)
      else
        var slots, h := WithSvas(chosen, Svas(vs)), s.history;
        After(s.(server := o.session,
                 history := h.(book := Booked(h.book, slots), joining := Owned(h.joining, slots, c))),
              c, Adding(slots))
  }

  function ServeUnmap(s: State, c: nat, d: Driver<()>, lost: bool): State
    requires s.Live? && c in s.calls && s.calls[c].Unmapping?
  {
    PlainTablesFit();
    var chosen := s.calls[c].chosen;
    if !Sends(UNMAP_REQUEST, UnmapRequest(s.client.id, chosen), lost) then Gone(s.mem)
    else UnmapReply(s, c, ProxyServer.Unmap(s.server, Serialize(UNMAP_REQUEST, UnmapRequest(s.client.id, chosen)), d))
  }

  function UnmapReply(s: State, c: nat, o: Outcome): State
    requires s.Live? && c in s.calls && s.calls[c].Unmapping?
  {
    PlainTablesFit();
    var chosen := s.calls[c].chosen;
    match Receive(EMPTY_MESSAGE, o.reply)
    case Broken => Gone(s.mem)
    case Refused(_, _) => Over(s.(server := o.session), c)
    case Done(_) =>
      After(s.(server := o.session, history := s.history.(leaving := Owned(s.history.leaving, chosen, c))),
            c, Removing(chosen))
  }

  function WaitSlice(timeout: int, left: nat): (r: Slice)
    ensures 0 <= r.timeout <= TIMEOUT_MAX && r.left >= 0
  {
    SliceInRange(timeout, left);
    NextSlice(timeout, left)
  }

  function ServeWait(s: State, c: nat, d: Driver<()>, lost: bool): State
    requires s.Live? && c in s.calls && s.calls[c].Waiting?
  {
    NotifyTablesFit();
    var slice := WaitSlice(s.calls[c].timeout, s.calls[c].left);
    var request := WaitRequest(s.client.id, slice);
    if !Sends(WAIT_REQUEST, request, lost) then Gone(s.mem)
    else WaitReply(s, c, slice, WaitNotification(s.server, Serialize(WAIT_REQUEST, request), d))
  }

  function WaitReply(s: State, c: nat, slice: Slice, o: Outcome): State
    requires s.Live? && c in s.calls && s.calls[c].Waiting? && slice.left >= 0
  {
    NotifyTablesFit();
    var answer := Receive(WAIT_RESPONSE, o.reply);
    if answer.Broken? then Gone(s.mem)
    else if answer.Refused? && answer.errno == ETIME && slice.partial
    then After(s.(server := o.session), c, Waiting(s.calls[c].timeout, slice.left))
    else
      var tci := if Has(answer.response, 0) && s.client.tci.Some? then Some(DataAt(answer.response, 0)) else None;
      After(s.(server := o.session), c, Copying(tci, Patches(NestedAt(answer.response, 1))))
  }

  /** Once the server has closed the session, the client deletes the connection. */
  function ServeClose(s: State, c: nat, d: Driver<()>, lost: bool): State
    requires s.Live? && c in s.calls && s.calls[c].Closing?
  {
    PlainTablesFit();
    if !Sends(CLOSE_SESSION_REQUEST, IdRequest(s.client.id), lost) then Gone(s.mem)
    else CloseReply(s, c, CloseSession(s.server, Serialize(CLOSE_SESSION_REQUEST, IdRequest(s.client.id)), d))
  }

  function CloseReply(s: State, c: nat, o: Outcome): State
    requires s.Live? && c in s.calls && s.calls[c].Closing?
  {
    PlainTablesFit();
    match Receive(EMPTY_MESSAGE, o.reply)
    case Broken => Gone(s.mem)
    case Refused(_, _) => Over(s.(server := o.session), c)
    case Done(_) => After(s.(server := o.session), c, Deleting)
  }

  /* ---------- What callers do on their own ---------- */

  function Add(s: State, c: nat): State
    requires s.Live? && c in s.calls && s.calls[c].Adding? && s.calls[c].slots != []
  {
    var slots := s.calls[c].slots;
    After(s.(client := s.client.(buffers := s.client.buffers + [slots[0]]),
             history := s.history.(joining := s.history.joining - {slots[0].sva})),
          c, Adding(slots[1..]))
  }

  /** An unmap that does not find its buffer ends there; what it has not taken off the list stays. */
  function TakeOff(s: State, c: nat): State
    requires s.Live? && c in s.calls && s.calls[c].Removing? && s.calls[c].slots != []
  {
    var slots, h := s.calls[c].slots, s.history;
    var k := FindSlot(s.client.buffers, slots[0].sva);
    if k == |s.client.buffers| then
      var rest := AsSet(SlotSvas(slots));
      Over(s.(history := h.(leaving := h.leaving - rest, stranded := h.stranded + rest)), c)
    else
      After(s.(client := s.client.(buffers := s.client.buffers[..k] + s.client.buffers[k + 1..]),
               history := h.(leaving := h.leaving - {slots[0].sva})),
            c, Removing(slots[1..]))
  }

  /** Whether a part of a wait's response fits the session as it is now. */
  predicate Fits(s: State, c: nat)
    requires s.Live? && c in s.calls && s.calls[c].Copying? && (s.calls[c].tci.Some? || s.calls[c].patches != [])
  {
    var call := s.calls[c];
    if call.tci.Some? then s.client.tci.Some? && |call.tci.value| == s.client.tci.value.len
    else
      var k := FindSlot(s.client.buffers, call.patches[0].sva);
      k < |s.client.buffers| && |call.patches[0].data| == s.client.buffers[k].len
  }

  /** The TCI first, then buffer after buffer; a wait ends at the first that does not fit. */
  function Copy(s: State, c: nat): State
    requires s.Live? && c in s.calls && s.calls[c].Copying? && (s.calls[c].tci.Some? || s.calls[c].patches != [])
    requires SessionInMemory(s.mem, s.client)
  {
    var call := s.calls[c];
    if !Fits(s, c) then Over(s, c)
    else if call.tci.Some? then
      After(s.(mem := Write(s.mem, s.client.tci.value.va, call.tci.value)), c, call.(tci := None))
    else
      var k := FindSlot(s.client.buffers, call.patches[0].sva);
      After(s.(mem := Write(s.mem, s.client.buffers[k].va, call.patches[0].data)),
            c, Copying(None, call.patches[1..]))
  }

  function Next(s: State, e: Event): State
    requires Enabled(s, e)
  {
    match e
    case AskNotify(c) =>
      s.(mutex := Some(c),
         calls := s.calls[c := Notifying(Serialize(NOTIFY_REQUEST, NotifyRequest(s.mem, s.client)), s.mem)])
    case AskMap(c, slots) =>
      if TooLong(Selected(slots)) then s else s.(calls := s.calls[c := Mapping(Selected(slots))])
    case AskUnmap(c, slots) =>
      if Unaddressed(Selected(slots)) then s else s.(calls := s.calls[c := Unmapping(Selected(slots))])
    case AskWait(c, timeout) => s.(calls := s.calls[c := Waiting(timeout, if timeout < 0 then 0 else timeout)])
    case AskClose(c) => s.(calls := s.calls[c := Closing])
    case Serve(c, d, maps, lost) =>
      (match s.calls[c]
       case Notifying(_, _) => ServeNotify(s, c, d, lost)
       case Mapping(_) => ServeMap(s, c, maps, lost)
       case Unmapping(_) => ServeUnmap(s, c, d, lost)
       case Waiting(_, _) => ServeWait(s, c, d, lost)
       case Closing => ServeClose(s, c, d, lost))
    case AddOne(c) => Add(s, c)
    case RemoveOne(c) => TakeOff(s, c)
    case CopyOne(c) => Copy(s, c)
    case Delete(c) => Gone(s.mem)
    case AppWrites(memory) => s.(mem := memory)
    case TrustletWrites(tci, contents) => s.(server := Some(TrustletWrite(s.server.value, tci, contents)))
  }

  ghost predicate Runs(s: State, es: seq<Event>, t: State)
    decreases |es|
  {
    if es == [] then t == s else Enabled(s, es[0]) && Runs(Next(s, es[0]), es[1..], t)
  }

  /** No operation is under way. */
  predicate Quiet(s: State)
  {
    s.Live? && s.calls == map[]
  }
}
