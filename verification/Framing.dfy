/**
 The headers around the messages of the proxy (proxy_common.h) and the loops that move them.

 Both headers are sent as the C structures lie in memory, little-endian: magic, version, method, and
 then the length of the data, or the two result codes. (The diagram in proxy_common.h draws method
 before version; the structures have version first.)
 */
module Framing {
  import opened Wire

  const MAGIC: bytes := [0x54, 0x37, 0x65, 0x33]  // "T7e3"
  const VERSION := 1
  const REQUEST_HEADER := 12
  const RESPONSE_HEADER := 16

  datatype Request = Request(op: nat, data: bytes)

  /** What the server sends back: a negative `protoRc` is a protocol error, any other is the length
      of the data. */
  datatype Reply = Reply(protoRc: int, methodRc: nat, data: bytes)

  predicate ValidRequest(r: Request)
  {
    r.op < 0x1_0000 && |r.data| < TWO_32
  }

  predicate ValidReply(r: Reply)
  {
    && -TWO_31 <= r.protoRc < TWO_31 && r.methodRc < TWO_32
    && |r.data| == if r.protoRc > 0 then r.protoRc else 0
  }

  /* ---------- Little-endian numbers ---------- */

  function Le(n: nat, width: nat): (b: bytes)
    ensures |b| == width
  {
    if width == 0 then [] else [n % 256] + Le(n / 256, width - 1)
  }

  function UnLe(b: bytes): nat
  {
    if b == [] then 0 else b[0] + 256 * UnLe(b[1..])
  }

  function Power256(k: nat): nat
  {
    if k == 0 then 1 else 256 * Power256(k - 1)
  }

  lemma {:induction false} LeRoundTrip(n: nat, width: nat)
    requires n < Power256(width)
    ensures UnLe(Le(n, width)) == n
  {
    if width > 0 {
      LeRoundTrip(n / 256, width - 1);
    }
  }

  lemma Le16(n: nat)
    requires n < 0x1_0000
    ensures UnLe(Le(n, 2)) == n
  {
    assert Power256(2) == 256 * Power256(1) && Power256(1) == 256 * Power256(0);
    LeRoundTrip(n, 2);
  }

  lemma Le32(n: nat)
    requires n < TWO_32
    ensures UnLe(Le(n, 4)) == n
  {
    assert Power256(4) == 256 * Power256(3) && Power256(3) == 256 * Power256(2);
    assert Power256(2) == 256 * Power256(1) && Power256(1) == 256 * Power256(0);
    LeRoundTrip(n, 4);
  }

  /* ---------- Headers ---------- */

  function RequestHeader(op: nat, length: nat): (b: bytes)
    ensures |b| == REQUEST_HEADER
  {
    MAGIC + Le(VERSION, 2) + Le(op, 2) + Le(length, 4)
  }

  function RequestFrame(r: Request): bytes
  {
    RequestHeader(r.op, |r.data|) + r.data
  }

  function ToUnsigned(v: int): (n: nat)
    requires -TWO_31 <= v < TWO_31
    ensures n < TWO_32
  {
    if v < 0 then v + TWO_32 else v
  }

  function ResponseHeader(op: nat, protoRc: int, methodRc: nat): (b: bytes)
    requires -TWO_31 <= protoRc < TWO_31
    ensures |b| == RESPONSE_HEADER
  {
    MAGIC + Le(VERSION, 2) + Le(op, 2) + Le(ToUnsigned(protoRc), 4) + Le(methodRc, 4)
  }

  function ReplyFrame(op: nat, r: Reply): bytes
    requires ValidReply(r)
  {
    ResponseHeader(op, r.protoRc, r.methodRc) + r.data
  }

  predicate GoodHeader(h: bytes)
    requires |h| >= 8
  {
    h[..4] == MAGIC && UnLe(h[4..6]) == VERSION
  }

  function HeaderMethod(h: bytes): nat
    requires |h| >= 8
  {
    UnLe(h[6..8])
  }

  function HeaderLength(h: bytes): nat
    requires |h| >= REQUEST_HEADER
  {
    UnLe(h[8..12])
  }

  function HeaderProtoRc(h: bytes): int
    requires |h| >= RESPONSE_HEADER
  {
    AsInt32(UnLe(h[8..12]))
  }

  function HeaderMethodRc(h: bytes): nat
    requires |h| >= RESPONSE_HEADER
  {
    UnLe(h[12..16])
  }

  /** How many bytes the server wants before it handles a request, given what it has: the header
      first, then as many as the header says. A header it does not accept makes it want no more. */
  function RequestNeed(got: bytes): nat
  {
    if |got| < REQUEST_HEADER then REQUEST_HEADER
    else if !GoodHeader(got) then REQUEST_HEADER
    else REQUEST_HEADER + HeaderLength(got)
  }

  function ReplyNeed(got: bytes): nat
  {
    if |got| < RESPONSE_HEADER then RESPONSE_HEADER
    else if !GoodHeader(got) || HeaderProtoRc(got) <= 0 then RESPONSE_HEADER
    else RESPONSE_HEADER + HeaderProtoRc(got)
  }

  lemma RequestHeaderFields(r: Request, b: bytes)
    requires ValidRequest(r) && |b| >= REQUEST_HEADER && b[..12] == RequestHeader(r.op, |r.data|)
    ensures GoodHeader(b) && HeaderMethod(b) == r.op && HeaderLength(b) == |r.data|
  {
    var h := RequestHeader(r.op, |r.data|);
    assert b[..4] == h[..4] == MAGIC;
    assert b[4..6] == h[4..6] == Le(VERSION, 2);
    assert b[6..8] == h[6..8] == Le(r.op, 2);
    assert b[8..12] == h[8..12] == Le(|r.data|, 4);
    Le16(VERSION);
    Le16(r.op);
    Le32(|r.data|);
  }

  lemma ResponseHeaderFields(op: nat, r: Reply, b: bytes)
    requires ValidReply(r) && op < 0x1_0000 && |b| >= RESPONSE_HEADER
    requires b[..16] == ResponseHeader(op, r.protoRc, r.methodRc)
    ensures GoodHeader(b) && HeaderMethod(b) == op
    ensures HeaderProtoRc(b) == r.protoRc && HeaderMethodRc(b) == r.methodRc
  {
    var h := ResponseHeader(op, r.protoRc, r.methodRc);
    assert b[..4] == h[..4] == MAGIC;
    assert b[4..6] == h[4..6] == Le(VERSION, 2);
    assert b[6..8] == h[6..8] == Le(op, 2);
    assert b[8..12] == h[8..12] == Le(ToUnsigned(r.protoRc), 4);
    assert b[12..16] == h[12..16] == Le(r.methodRc, 4);
    Le16(VERSION);
    Le16(op);
    Le32(ToUnsigned(r.protoRc));
    Le32(r.methodRc);
  }

  /** A server that has received part of a request wants exactly what is missing, so it neither
      handles the request early nor reads into a following one. */
  lemma RequestPrefix(r: Request, got: bytes)
    requires ValidRequest(r) && got <= RequestFrame(r)
    ensures |got| <= RequestNeed(got) <= |RequestFrame(r)|
    ensures |got| == RequestNeed(got) <==> got == RequestFrame(r)
    ensures got == RequestFrame(r) ==>
              GoodHeader(got) && HeaderMethod(got) == r.op && got[REQUEST_HEADER..] == r.data
  {
    if |got| >= REQUEST_HEADER {
      assert got[..12] == RequestFrame(r)[..12] == RequestHeader(r.op, |r.data|);
      RequestHeaderFields(r, got);
    }
  }

  lemma ReplyPrefix(op: nat, r: Reply, got: bytes)
    requires ValidReply(r) && op < 0x1_0000 && got <= ReplyFrame(op, r)
    ensures |got| <= ReplyNeed(got) <= |ReplyFrame(op, r)|
    ensures |got| == ReplyNeed(got) <==> got == ReplyFrame(op, r)
    ensures got == ReplyFrame(op, r) ==>
              && GoodHeader(got) && HeaderProtoRc(got) == r.protoRc
              && HeaderMethodRc(got) == r.methodRc && got[RESPONSE_HEADER..] == r.data
  {
    if |got| >= RESPONSE_HEADER {
      assert got[..16] == ReplyFrame(op, r)[..16] == ResponseHeader(op, r.protoRc, r.methodRc);
      ResponseHeaderFields(op, r, got);
    }
  }
}
