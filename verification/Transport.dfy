/**
 The loops that move bytes: send_all and recv_all over a socket whose system calls may be short,
 interrupted or failing, `call` at the client's end, and the connection thread at the server's.
 */
module Transport {
  import opened Wire
  import opened Message
  import opened Canonical
  import opened Framing
  import opened Rpc
  import PC = ProxyClient

  /** What a call of send or recv comes back with. */
  datatype Sys = Count(n: nat) | Closed | Eintr | Failed

  /** A call that has moved bytes, or one that a signal has interrupted. */
  predicate GoesOn(r: Sys)
  {
    r.Count? || r.Eintr?
  }

  /** How many calls will move bytes before one closes or fails. */
  function Ahead(script: seq<Sys>): nat
  {
    if script == [] || !GoesOn(script[0]) then 0 else (if script[0].Count? then 1 else 0) + Ahead(script[1..])
  }

  /** Of a script `before`, the part in front of `after` has been used up. */
  function Used(before: seq<Sys>, after: seq<Sys>): seq<Sys>
    requires |after| <= |before|
  {
    before[..|before| - |after|]
  }

  predicate Consumed(before: seq<Sys>, after: seq<Sys>)
  {
    |after| <= |before| && before == Used(before, after) + after
  }

  predicate AllGoOn(script: seq<Sys>)
  {
    forall i :: 0 <= i < |script| ==> GoesOn(script[i])
  }

  /** The only ways for a loop to give up: the last call it made has closed or failed, or there was none
      left to make. Every call before went on. */
  predicate GaveUp(before: seq<Sys>, after: seq<Sys>)
    requires |after| <= |before|
  {
    var used := Used(before, after);
    if AllGoOn(used) then after == [] else AllGoOn(used[..|used| - 1])
  }

  /** Every call so far went on, and at most `moved` of them were needed for what has been moved. */
  predicate Went(start: seq<Sys>, now: seq<Sys>, moved: nat)
  {
    Consumed(start, now) && AllGoOn(Used(start, now)) && Ahead(start) <= moved + Ahead(now)
  }

  lemma NothingYet(script: seq<Sys>)
    ensures Went(script, script, 0)
  {
    assert script == [] + script;
  }

  lemma WentOn(start: seq<Sys>, r: Sys, now: seq<Sys>, moved: nat, more: nat)
    requires Went(start, [r] + now, moved) && GoesOn(r) && (r.Count? ==> more > 0)
    ensures Went(start, now, moved + more) && |now| < |start|
  {
    var before := [r] + now;
    assert before[1..] == now;
    assert Used(start, now) == Used(start, before) + [r];
  }

  lemma GivenUp(start: seq<Sys>, before: seq<Sys>, now: seq<Sys>, moved: nat)
    requires Went(start, before, moved)
    requires if before == [] then now == [] else before == [before[0]] + now && !GoesOn(before[0])
    ensures Consumed(start, now) && GaveUp(start, now) && Ahead(start) <= moved
  {
    if before != [] {
      var used := Used(start, now);
      assert used == Used(start, before) + [before[0]];
      assert used[..|used| - 1] == Used(start, before) && used[|used| - 1] == before[0];
    }
  }

  lemma WentAll(start: seq<Sys>, now: seq<Sys>, moved: nat)
    requires Went(start, now, moved)
    ensures Consumed(start, now) && AllGoOn(Used(start, now)) && Ahead(start) <= moved + Ahead(now)
  {
  }

  lemma DryNow(start: seq<Sys>, r: Sys, now: seq<Sys>, moved: nat)
    requires Went(start, [r] + now, moved) && r.Count?
    ensures Consumed(start, now) && RunDry(Used(start, now))
  {
    assert Used(start, now) == Used(start, [r] + now) + [r];
  }

  /** The last call found nothing to receive, and every call before went on. */
  predicate RunDry(used: seq<Sys>)
  {
    used != [] && used[|used| - 1].Count? && AllGoOn(used)
  }

  lemma PieceSent(before: bytes, buffer: bytes, count: nat, n: nat)
    requires count + n <= |buffer|
    ensures before + buffer[..count] + buffer[count..][..n] == before + buffer[..count + n]
  {
    assert buffer[..count] + buffer[count..][..n] == buffer[..count + n];
    SeqAssoc(before, buffer[..count], buffer[count..][..n]);
  }

  /** One end of a connection: what has been sent, what is there to be received, and how the system
      calls to come will end. */
  class Socket {
    var sent: bytes
    var incoming: bytes
    var script: seq<Sys>

    constructor (incoming: bytes, script: seq<Sys>)
      ensures sent == [] && this.incoming == incoming && this.script == script
    {
      this.sent, this.incoming, this.script := [], incoming, script;
    }

    method NextResult() returns (r: Sys)
      modifies `script
      ensures old(script) != [] ==> old(script) == [r] + script
      ensures old(script) == [] ==> script == [] && r == Failed
    {
      if script == [] {
        return Failed;
      }
      r := script[0];
      script := script[1..];
    }

    /** send: of a buffer that is not empty at least one byte is taken, if any. */
    method SendSome(buffer: bytes) returns (r: Sys)
      requires buffer != []
      modifies this
      ensures incoming == old(incoming)
      ensures if old(script) == [] then script == [] && r == Failed
              else old(script) == [old(script)[0]] + script && (r.Count? <==> old(script)[0].Count?)
                   && (!r.Count? ==> r == old(script)[0])
      ensures r.Count? ==> 0 < r.n <= |buffer| && sent == old(sent) + buffer[..r.n]
      ensures !r.Count? ==> sent == old(sent)
    {
      r := NextResult();
      if r.Count? {
        r := Count(if r.n == 0 then 1 else if r.n > |buffer| then |buffer| else r.n);
        sent := sent + buffer[..r.n];
      }
    }

    /** recv: never more than is wanted or there; nothing there is a failure. */
    method ReceiveSome(wanted: nat) returns (r: Sys, data: bytes)
      requires wanted > 0
      modifies this
      ensures sent == old(sent)
      ensures if old(script) == [] then script == [] && r == Failed
              else
                && old(script) == [old(script)[0]] + script
                && (r.Count? <==> old(script)[0].Count? && old(incoming) != [])
                && (!r.Count? ==> r == if old(script)[0].Count? then Failed else old(script)[0])
      ensures r.Count? ==> 0 < |data| <= wanted && old(incoming) == data + incoming
      ensures !r.Count? ==> data == [] && incoming == old(incoming)
    {
      data := [];
      r := NextResult();
      if r.Count? {
        if incoming == [] {
          return Failed, [];
        }
        var most := if wanted < |incoming| then wanted else |incoming|;
        var n := if r.n == 0 then 1 else if r.n > most then most else r.n;
        data, incoming := incoming[..n], incoming[n..];
      }
    }

    /** send_all: it gives up only for a call that closes or fails, and short or interrupted calls do not
        count. */
    method SendAll(buffer: bytes) returns (ok: bool)
      modifies this
      ensures incoming == old(incoming) && Consumed(old(script), script)
      ensures old(sent) <= sent <= old(sent) + buffer
      ensures ok ==> sent == old(sent) + buffer && AllGoOn(Used(old(script), script))
      ensures !ok ==> GaveUp(old(script), script) && |sent| < |old(sent)| + |buffer|
      ensures if ok then Ahead(old(script)) <= |buffer| + Ahead(script) else Ahead(old(script)) < |buffer|
    {
      hide Went, Ahead, GaveUp;
      var count := 0;
      assert old(sent) + buffer[..0] == old(sent);
      NothingYet(script);
      while count < |buffer|
        invariant count <= |buffer| && sent == old(sent) + buffer[..count]
        invariant incoming == old(incoming) && Went(old(script), script, count)
        decreases |script|, |buffer| - count
      {
        ghost var before := script;
        var rc := SendSome(buffer[count..]);
        match rc {
          case Count(n) =>
            WentOn(old(script), before[0], script, count, n);
            PieceSent(old(sent), buffer, count, n);
            count := count + n;
          case Eintr =>
            WentOn(old(script), before[0], script, count, 0);
          case _ =>
            GivenUp(old(script), before, script, count);
            return false;
        }
      }
      WentAll(old(script), script, |buffer|);
      assert buffer[..count] == buffer;
      return true;
    }

    /** recv_all: it gives up only for a call that closes or fails, or when the stream has run dry. */
    method ReceiveAll(length: nat) returns (ok: bool, data: bytes)
      modifies this
      ensures sent == old(sent) && Consumed(old(script), script)
      ensures old(incoming) == data + incoming && |data| <= length && (ok <==> |data| == length)
      ensures ok ==> AllGoOn(Used(old(script), script))
      ensures !ok ==> GaveUp(old(script), script) || (incoming == [] && RunDry(Used(old(script), script)))
      ensures if ok then Ahead(old(script)) <= length + Ahead(script)
              else Ahead(old(script)) < length || |old(incoming)| < length
      ensures ok && length > 0 ==> |script| < |old(script)|
    {
      hide Went, Ahead, GaveUp, RunDry;
      data := [];
      NothingYet(script);
      while |data| < length
        invariant sent == old(sent) && Went(old(script), script, |data|)
        invariant |data| <= length && old(incoming) == data + incoming
        invariant data != [] ==> |script| < |old(script)|
        decreases |script|
      {
        ghost var before := script;
        var rc, more := ReceiveSome(length - |data|);
        match rc {
          case Count(_) =>
            WentOn(old(script), before[0], script, |data|, |more|);
            SeqAssoc(data, more, incoming);
            data := data + more;
          case Eintr =>
            WentOn(old(script), before[0], script, |data|, 0);
          case Closed =>
            GivenUp(old(script), before, script, |data|);
            return false, data;
          case Failed =>
            if before != [] && before[0].Count? {
              DryNow(old(script), before[0], script, |data|);
            } else {
              GivenUp(old(script), before, script, |data|);
            }
            return false, data;
        }
      }
      WentAll(old(script), script, length);
      return true, data;
    }
  }

  /* ---------- The client's end ---------- */

  /** ClientConnection: `call` and the flag it leaves when the exchange fails. */
  class ClientConnection {
    const socket: Socket
    var broken: bool

    constructor (socket: Socket)
      ensures this.socket == socket && !broken
    {
      this.socket, broken := socket, false;
    }

    /** The first half of `call`. */
    method SendRequest(op: nat, request: bytes) returns (ok: bool)
      requires op < 0x1_0000 && |request| < TWO_31
      modifies socket
      ensures socket.incoming == old(socket.incoming)
      ensures old(socket.sent) <= socket.sent <= old(socket.sent) + RequestFrame(Request(op, request))
      ensures ok ==> socket.sent == old(socket.sent) + RequestFrame(Request(op, request))
      ensures if ok then Ahead(old(socket.script)) <= REQUEST_HEADER + |request| + Ahead(socket.script)
              else Ahead(old(socket.script)) < REQUEST_HEADER + |request|
    {
      hide Ahead, GaveUp;
      var header := RequestHeader(op, |request|);
      SeqAssoc(socket.sent, header, request);
      ok := socket.SendAll(header);
      if ok {
        ok := socket.SendAll(request);
      }
    }

    /** The second half: a whole reply that is there is received, if only enough calls go through. */
    method ReceiveReply(schema: Schema) returns (result: PC.CallResult, ghost got: bytes)
      requires WellFormed(schema)
      modifies socket
      ensures socket.sent == old(socket.sent) && old(socket.incoming) == got + socket.incoming
      ensures !result.Broken? ==>
                && |got| >= RESPONSE_HEADER && |got| == ReplyNeed(got) && GoodHeader(got)
                && result == PC.Receive(schema, DecodeReply(got))
      ensures forall op: nat, r: Reply ::
                Awaits(op, r, old(socket.incoming)) && |ReplyFrame(op, r)| <= Ahead(old(socket.script)) ==>
                  result == PC.Receive(schema, r) && got == ReplyFrame(op, r)
    {
      hide Ahead, GaveUp, RunDry, PC.Receive, ReplyFrame;
      ghost var stream := socket.incoming;
      var received, head := socket.ReceiveAll(RESPONSE_HEADER);
      got := head;
      forall op: nat, r: Reply | Awaits(op, r, stream) && |ReplyFrame(op, r)| <= Ahead(old(socket.script))
        ensures received && ReplyRead(op, r, head, socket.incoming)
      {
        FrameFits(op, r, stream);
        HeadRead(op, r, head, socket.incoming);
      }
      if !received || !GoodHeader(head) || HeaderProtoRc(head) < 0 {
        forall op: nat, r: Reply | Awaits(op, r, stream) && |ReplyFrame(op, r)| <= Ahead(old(socket.script))
          ensures PC.Receive(schema, r) == PC.Broken && head == ReplyFrame(op, r)
        {
          RefusalRead(schema, op, r, head, socket.incoming);
        }
        return PC.Broken, got;
      }
      var data: bytes := [];
      ghost var behind := socket.incoming;
      assert head + data == got by {
        assert head + [] == head;
      }
      if HeaderProtoRc(head) != 0 {
        received, data := socket.ReceiveAll(HeaderProtoRc(head));
        SeqAssoc(head, data, socket.incoming);
        got := head + data;
        if !received {
          forall op: nat, r: Reply | Awaits(op, r, stream) && |ReplyFrame(op, r)| <= Ahead(old(socket.script))
            ensures false
          {
            assert ReplyRead(op, r, head, behind);
            FrameFits(op, r, stream);
          }
          return PC.Broken, got;
        }
      }
      forall op: nat, r: Reply | Awaits(op, r, stream) && |ReplyFrame(op, r)| <= Ahead(old(socket.script))
        ensures r == Reply(HeaderProtoRc(head), HeaderMethodRc(head), data) && got == ReplyFrame(op, r)
      {
        assert ReplyRead(op, r, head, behind);
        DataRead(op, r, head, data, socket.incoming);
        ReplyIs(op, r, head, data, behind);
      }
      HeaderOfFrame(head, data);
      result := PC.Receive(schema, Reply(HeaderProtoRc(head), HeaderMethodRc(head), data));
    }

    /** Sends the frame of one request and receives the frame of one reply, no less and no more; any
        failure on the way marks the connection. `request` is what SerializeToString has returned. However
        the calls are cut short or interrupted, if enough of them go through before one closes or fails, then
        the request is sent and a reply that is there received. */
    method Call(op: nat, request: Option<bytes>, schema: Schema) returns (result: PC.CallResult, ghost got: bytes)
      requires WellFormed(schema) && op < 0x1_0000 && (request.Some? ==> |request.value| < TWO_31)
      modifies this, socket
      ensures broken == (old(broken) || result.Broken?)
      ensures old(socket.incoming) == got + socket.incoming
      ensures old(socket.sent) <= socket.sent
      ensures request.Some? ==> socket.sent <= old(socket.sent) + RequestFrame(Request(op, request.value))
      ensures !result.Broken? ==>
                && request.Some? && socket.sent == old(socket.sent) + RequestFrame(Request(op, request.value))
                && |got| >= RESPONSE_HEADER && |got| == ReplyNeed(got) && GoodHeader(got)
                && result == PC.Receive(schema, DecodeReply(got))
      ensures forall o: nat, r: Reply ::
                && request.Some? && Awaits(o, r, old(socket.incoming))
                && REQUEST_HEADER + |request.value| + |ReplyFrame(o, r)| <= Ahead(old(socket.script)) ==>
                  && socket.sent == old(socket.sent) + RequestFrame(Request(op, request.value))
                  && result == PC.Receive(schema, r) && got == ReplyFrame(o, r)
    {
      hide Ahead, PC.Receive, RequestFrame, ReplyFrame;
      got := [];
      if request.None? {
        broken := true;
        return PC.Broken, [];
      }
      var ok := SendRequest(op, request.value);
      if !ok {
        broken := true;
        return PC.Broken, [];
      }
      result, got := ReceiveReply(schema);
      if result.Broken? {
        broken := true;
      }
    }
  }

  /** The stream starts with the frame of this reply. */
  predicate Awaits(op: nat, r: Reply, stream: bytes)
  {
    op < 0x1_0000 && ValidReply(r) && ReplyFrame(op, r) <= stream
  }

  /** The header of a reply has been read, and its data is next. */
  predicate ReplyRead(op: nat, r: Reply, head: bytes, stream: bytes)
    requires op < 0x1_0000 && ValidReply(r)
  {
    && |head| == RESPONSE_HEADER && GoodHeader(head) && HeaderProtoRc(head) == r.protoRc
    && HeaderMethodRc(head) == r.methodRc && r.data <= stream && ReplyFrame(op, r) == head + r.data
  }

  lemma FrameFits(op: nat, r: Reply, stream: bytes)
    requires Awaits(op, r, stream)
    ensures RESPONSE_HEADER + |r.data| == |ReplyFrame(op, r)| <= |stream|
  {
  }

  lemma HeadRead(op: nat, r: Reply, head: bytes, stream: bytes)
    requires |head| == RESPONSE_HEADER && Awaits(op, r, head + stream)
    ensures ReplyRead(op, r, head, stream)
  {
    var frame := ReplyFrame(op, r);
    assert head == (head + stream)[..16] == frame[..16] == ResponseHeader(op, r.protoRc, r.methodRc);
    assert head[..16] == head;
    ResponseHeaderFields(op, r, head);
    assert frame == head + r.data;
    assert r.data == frame[16..] <= (head + stream)[16..] == stream;
  }

  lemma RefusalRead(schema: Schema, op: nat, r: Reply, head: bytes, stream: bytes)
    requires WellFormed(schema) && op < 0x1_0000 && ValidReply(r) && ReplyRead(op, r, head, stream)
    requires HeaderProtoRc(head) < 0
    ensures PC.Receive(schema, r) == PC.Broken && head == ReplyFrame(op, r)
  {
    assert head + [] == head;
  }

  lemma DataRead(op: nat, r: Reply, head: bytes, data: bytes, stream: bytes)
    requires op < 0x1_0000 && ValidReply(r) && ReplyRead(op, r, head, data + stream)
    requires |data| == HeaderProtoRc(head)
    ensures data == r.data
  {
    assert data == (data + stream)[..|data|] == r.data;
  }

  lemma ReplyIs(op: nat, r: Reply, head: bytes, data: bytes, stream: bytes)
    requires op < 0x1_0000 && ValidReply(r) && ReplyRead(op, r, head, stream)
    requires data == r.data
    ensures r == Reply(HeaderProtoRc(head), HeaderMethodRc(head), data) && ReplyFrame(op, r) == head + data
  {
  }

  /** A header reads the same with data behind it. */
  lemma HeaderOfFrame(head: bytes, data: bytes)
    requires |head| == RESPONSE_HEADER && GoodHeader(head) && HeaderProtoRc(head) >= 0
    requires |data| == HeaderProtoRc(head)
    ensures var got := head + data;
            && GoodHeader(got) && ReplyNeed(got) == |got|
            && DecodeReply(got) == Reply(HeaderProtoRc(head), HeaderMethodRc(head), data)
  {
    var got := head + data;
    assert got[..4] == head[..4] && got[4..6] == head[4..6] && got[6..8] == head[6..8];
    assert got[8..12] == head[8..12] && got[12..16] == head[12..16];
    assert got[RESPONSE_HEADER..] == data;
  }

  /* ---------- The server's end ---------- */

  function RequestFrames(hs: seq<Handled>): bytes
    decreases |hs|
  {
    if hs == [] then [] else RequestFrames(hs[..|hs| - 1]) + RequestFrame(hs[|hs| - 1].req)
  }

  predicate ValidReplies(hs: seq<Handled>)
  {
    forall k :: 0 <= k < |hs| ==> ValidReply(hs[k].reply)
  }

  function ReplyFrames(hs: seq<Handled>): bytes
    requires ValidReplies(hs)
    decreases |hs|
  {
    if hs == [] then [] else ReplyFrames(hs[..|hs| - 1]) + ReplyFrame(hs[|hs| - 1].req.op, hs[|hs| - 1].reply)
  }

  lemma {:induction false} LeUnLe(b: bytes)
    ensures Le(UnLe(b), |b|) == b
    ensures UnLe(b) < Power256(|b|)
  {
    if b != [] {
      LeUnLe(b[1..]);
      assert b == [b[0]] + b[1..];
    }
  }

  /** Every accepted header is the header of what it says. */
  lemma RequestRead(head: bytes, data: bytes)
    requires |head| == REQUEST_HEADER && GoodHeader(head) && |data| == HeaderLength(head)
    ensures HeaderMethod(head) < 0x1_0000 && |data| < TWO_32
    ensures RequestFrame(Request(HeaderMethod(head), data)) == head + data
  {
    LeUnLe(head[4..6]);
    LeUnLe(head[6..8]);
    LeUnLe(head[8..12]);
    assert Power256(2) == 256 * Power256(1) && Power256(1) == 256 * Power256(0);
    assert Power256(4) == 256 * Power256(3) && Power256(3) == 256 * Power256(2);
    assert head == head[..4] + head[4..6] + head[6..8] + head[8..12];
  }

  /** Why the thread has come to its end after handling `hs`, with `left` of the stream not handled: the
      driver is no longer open, or too few calls have gone through for the replies or for a whole request that
      is there. */
  ghost predicate Ended(hs: seq<Handled>, left: bytes, open: seq<bool>, ahead: nat)
    requires ValidReplies(hs)
  {
    var moved := |RequestFrames(hs)| + |ReplyFrames(hs)|;
    || (hs != [] && (|hs| > |open| || !open[|hs| - 1]))
    || ahead < moved
    || forall r: Request :: Asks(r, left) ==> ahead < moved + |RequestFrame(r)|
  }

  /** The stream starts with the frame of this request. */
  predicate Asks(r: Request, stream: bytes)
  {
    ValidRequest(r) && RequestFrame(r) <= stream
  }

  lemma FramesMore(hs: seq<Handled>, h: Handled)
    requires ValidReplies(hs) && ValidReply(h.reply)
    ensures ValidReplies(hs + [h])
    ensures RequestFrames(hs + [h]) == RequestFrames(hs) + RequestFrame(h.req)
    ensures ReplyFrames(hs + [h]) == ReplyFrames(hs) + ReplyFrame(h.req.op, h.reply)
  {
    assert (hs + [h])[..|hs|] == hs;
  }

  /** The loop of connectionThread, with `h` for the dispatch to a method and `open` for whether the
      driver is still open after each. Each round takes exactly the frame of one request from the
      stream, handles it, and sends exactly the frame of its reply; only the last round may break off,
      and then what it has sent is part of its reply. It goes on as long as the driver is open, requests are
      there, and calls go through. */
  method ConnectionThread<S(!new)>(socket: Socket, h: (S, Request) -> (S, Reply), start: S, open: seq<bool>)
    returns (session: S, ghost hs: seq<Handled>, ghost rest: bytes, ghost partial: bytes)
    requires GoodHandler(h)
    modifies socket
    ensures Serial(h, start, hs, session) && ValidReplies(hs)
    ensures old(socket.incoming) == RequestFrames(hs) + rest + socket.incoming
    ensures (socket.sent == old(socket.sent) + ReplyFrames(hs) && partial == [])
         || (hs != [] && rest == [] && partial <= ReplyFrame(hs[|hs| - 1].req.op, hs[|hs| - 1].reply)
             && socket.sent == old(socket.sent) + ReplyFrames(hs[..|hs| - 1]) + partial)
    ensures Ended(hs, rest + socket.incoming, open, Ahead(old(socket.script)))
  {
    hide Ahead, RequestFrame, ReplyFrame, RequestFrames, ReplyFrames, Serial, Asks;
    session, hs, rest, partial := start, [], [], [];
    var round := 0;
    NoFrames(h, start);
    assert old(socket.incoming) == [] + [] + socket.incoming;
    assert old(socket.sent) + [] == old(socket.sent);
    while true
      invariant Serial(h, start, hs, session) && ValidReplies(hs) && rest == [] && partial == []
      invariant round == |hs| && (hs != [] ==> |hs| <= |open| && open[|hs| - 1])
      invariant old(socket.incoming) == RequestFrames(hs) + socket.incoming
      invariant socket.sent == old(socket.sent) + ReplyFrames(hs)
      invariant Ahead(old(socket.script)) <= |RequestFrames(hs)| + |ReplyFrames(hs)| + Ahead(socket.script)
      decreases |socket.script|
    {
      ghost var stream := socket.incoming;
      var req: Option<Request>;
      ghost var got: bytes;
      req, got := ReceiveRequest(socket);
      SeqAssoc(RequestFrames(hs), got, socket.incoming);
      if req.None? {
        rest := got;
        return;
      }
      ghost var before := hs;
      var (next, reply) := h(session, req.value);
      assert ValidReply(h(session, req.value).1);
      SerialExtend(h, start, hs, session, req.value);
      FramesMore(hs, Handled(req.value, reply));
      hs := hs + [Handled(req.value, reply)];
      assert hs[..|hs| - 1] == before;
      session := next;
      ghost var sentBefore := socket.sent;
      SeqAssoc(old(socket.sent), ReplyFrames(before), ReplyFrame(req.value.op, reply));
      var ok := SendReply(socket, req.value.op, reply);
      assert RequestFrames(hs) + [] == RequestFrames(hs);
      if !ok {
        partial := socket.sent[|sentBefore|..];
        assert socket.sent == sentBefore + partial;
        PrefixOfFrame(sentBefore, ReplyFrame(req.value.op, reply), socket.sent);
        return;
      }
      round := round + 1;
      if round > |open| || !open[round - 1] {
        return;
      }
    }
  }

  lemma NoFrames<S(!new)>(h: (S, Request) -> (S, Reply), start: S)
    requires GoodHandler(h)
    ensures Serial(h, start, [], start) && ValidReplies([]) && RequestFrames([]) == [] && ReplyFrames([]) == []
  {
  }

  /** The header of a reply, and its data if there is any. */
  method SendReply(socket: Socket, op: nat, reply: Reply) returns (ok: bool)
    requires ValidReply(reply)
    modifies socket
    ensures socket.incoming == old(socket.incoming) && |socket.script| <= |old(socket.script)|
    ensures old(socket.sent) <= socket.sent <= old(socket.sent) + ReplyFrame(op, reply)
    ensures ok ==> socket.sent == old(socket.sent) + ReplyFrame(op, reply)
    ensures if ok then Ahead(old(socket.script)) <= |ReplyFrame(op, reply)| + Ahead(socket.script)
            else Ahead(old(socket.script)) < |ReplyFrame(op, reply)|
  {
    hide Ahead, GaveUp;
    var header := ResponseHeader(op, reply.protoRc, reply.methodRc);
    SeqAssoc(socket.sent, header, reply.data);
    ok := socket.SendAll(header);
    if ok && reply.protoRc > 0 {
      ok := socket.SendAll(reply.data);
    }
    assert reply.protoRc <= 0 ==> header + reply.data == header;
  }

  lemma PrefixOfFrame(before: bytes, frame: bytes, sent: bytes)
    requires before <= sent <= before + frame
    ensures sent[|before|..] <= frame
  {
    assert (before + frame)[|before|..] == frame;
  }

  /** The header of a request has been read, and its data is next. */
  predicate RequestBegun(r: Request, head: bytes, stream: bytes)
  {
    && |head| == REQUEST_HEADER && GoodHeader(head) && HeaderMethod(head) == r.op
    && HeaderLength(head) == |r.data| && r.data <= stream && RequestFrame(r) == head + r.data
  }

  lemma RequestFits(r: Request, stream: bytes)
    requires Asks(r, stream)
    ensures REQUEST_HEADER + |r.data| == |RequestFrame(r)| <= |stream|
  {
  }

  lemma RequestHead(r: Request, head: bytes, stream: bytes)
    requires |head| == REQUEST_HEADER && Asks(r, head + stream)
    ensures RequestBegun(r, head, stream)
  {
    var frame := RequestFrame(r);
    assert head == (head + stream)[..12] == frame[..12] == RequestHeader(r.op, |r.data|);
    assert head[..12] == head;
    RequestHeaderFields(r, head);
    assert frame == head + r.data;
    assert r.data == frame[12..] <= (head + stream)[12..] == stream;
  }

  lemma RequestIs(r: Request, head: bytes, data: bytes, stream: bytes)
    requires RequestBegun(r, head, data + stream) && |data| == HeaderLength(head)
    ensures r == Request(HeaderMethod(head), data)
  {
    assert data == (data + stream)[..|data|] == r.data;
  }

  /** Header, checks, and as much data as the header says. A whole request that is there is received, if only
      enough calls go through. */
  method ReceiveRequest(socket: Socket) returns (req: Option<Request>, ghost got: bytes)
    modifies socket
    ensures socket.sent == old(socket.sent) && old(socket.incoming) == got + socket.incoming
    ensures req.Some? ==>
              && got == RequestFrame(req.value) && |socket.script| < |old(socket.script)|
              && Ahead(old(socket.script)) <= |got| + Ahead(socket.script)
    ensures |socket.script| <= |old(socket.script)|
    ensures forall r: Request ::
              Asks(r, old(socket.incoming)) && |RequestFrame(r)| <= Ahead(old(socket.script)) ==> req == Some(r)
  {
    hide Ahead, GaveUp, RunDry, RequestFrame;
    ghost var stream := socket.incoming;
    var ok, head := socket.ReceiveAll(REQUEST_HEADER);
    got := head;
    forall r: Request | Asks(r, stream) && |RequestFrame(r)| <= Ahead(old(socket.script))
      ensures ok && RequestBegun(r, head, socket.incoming)
    {
      RequestFits(r, stream);
      RequestHead(r, head, socket.incoming);
    }
    if !ok || !GoodHeader(head) {
      return None, got;
    }
    ghost var behind := socket.incoming;
    var data;
    ok, data := socket.ReceiveAll(HeaderLength(head));
    SeqAssoc(head, data, socket.incoming);
    got := head + data;
    forall r: Request | Asks(r, stream) && |RequestFrame(r)| <= Ahead(old(socket.script))
      ensures ok && r == Request(HeaderMethod(head), data)
    {
      assert RequestBegun(r, head, behind);
      RequestFits(r, stream);
      RequestIs(r, head, data, socket.incoming);
    }
    if !ok {
      return None, got;
    }
    RequestRead(head, data);
    return Some(Request(HeaderMethod(head), data)), got;
  }
}
