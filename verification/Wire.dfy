/**
 The primitives of the Protocol Buffers wire format that the generated codec calls:
 Base 128 varints, zig-zag integers, tags, and records of fields the reader does not know.
 They are defined from the Protocol Buffers Encoding specification, sections
 "Base 128 Varints", "Signed Integers" and "Length-Delimited Records".
 */
module Wire {

  type byte = x: int | 0 <= x < 256

  type bytes = seq<byte>

  type U32 = x: int | 0 <= x < TWO_32

  type U64 = x: int | 0 <= x < TWO_64

  datatype Option<+T> = None | Some(value: T)

  /** What a read leaves: the value and the bytes not yet consumed. */
  datatype Read<+T> = Read(value: T, rest: bytes)

  const TWO_31 := 0x8000_0000
  const TWO_32 := 0x1_0000_0000
  const TWO_64 := 0x1_0000_0000_0000_0000

  /* ---------- Base 128 varints ---------- */

  function Varint(n: nat): (b: bytes)
    ensures |b| >= 1
  {
    if n < 128 then [n] else [128 + n % 128] + Varint(n / 128)
  }

  /** Reads a varint of which `used` bytes have been consumed; at most ten are allowed. */
  function ReadVarint(b: bytes, used: nat := 0): (r: Option<Read<nat>>)
    ensures r.Some? ==> |r.value.rest| < |b|
    decreases |b|
  {
    if used >= 10 || b == [] then None
    else if b[0] < 128 then Some(Read(b[0], b[1..]))
    else
      match ReadVarint(b[1..], used + 1)
      case None => None
      case Some(r) => Some(Read(b[0] - 128 + 128 * r.value, r.rest))
  }

  /** The size tables of the library: one byte for every seven bits. */
  function VarintSize(n: nat): nat
  {
    if n < 0x80 then 1
    else if n < 0x4000 then 2
    else if n < 0x20_0000 then 3
    else if n < 0x1000_0000 then 4
    else if n < 0x8_0000_0000 then 5
    else if n < 0x400_0000_0000 then 6
    else if n < 0x2_0000_0000_0000 then 7
    else if n < 0x100_0000_0000_0000 then 8
    else if n < 0x8000_0000_0000_0000 then 9
    else 10
  }

  lemma VarintLength(n: nat)
    requires n < TWO_64
    ensures |Varint(n)| == VarintSize(n)
  {
    if n >= 128 {
      VarintLength(n / 128);
    }
  }

  /** A written varint reads back, whatever follows it. */
  lemma {:induction false} VarintRoundTrip(n: nat, t: bytes, used: nat)
    requires used + |Varint(n)| <= 10
    ensures ReadVarint(Varint(n) + t, used) == Some(Read(n, t))
  {
    var b := Varint(n) + t;
    if n < 128 {
      assert b[1..] == t;
    } else {
      VarintRoundTrip(n / 128, t, used + 1);
      assert b[1..] == Varint(n / 128) + t;
    }
  }

  lemma Varint64RoundTrip(n: nat, t: bytes)
    requires n < TWO_64
    ensures ReadVarint(Varint(n) + t) == Some(Read(n, t))
  {
    VarintLength(n);
    VarintRoundTrip(n, t, 0);
  }

  /** Reading does not look past the varint. */
  lemma {:induction false} VarintPrefix(b: bytes, t: bytes, used: nat)
    requires ReadVarint(b, used).Some?
    ensures ReadVarint(b + t, used)
         == Some(Read(ReadVarint(b, used).value.value, ReadVarint(b, used).value.rest + t))
    decreases |b|
  {
    if b[0] < 128 {
      assert (b + t)[1..] == b[1..] + t;
    } else {
      VarintPrefix(b[1..], t, used + 1);
      assert (b + t)[1..] == b[1..] + t;
    }
  }

  /* ---------- Signed integers ---------- */

  function ZigZag(v: int): nat
  {
    if v >= 0 then 2 * v else -2 * v - 1
  }

  function UnZigZag(n: nat): int
  {
    if n % 2 == 0 then n / 2 else -((n + 1) / 2)
  }

  lemma ZigZagRoundTrip(v: int)
    ensures UnZigZag(ZigZag(v)) == v
    ensures -TWO_31 <= v < TWO_31 ==> ZigZag(v) < TWO_32
  {
  }

  function AsInt32(n: nat): (v: int)
    ensures -TWO_31 <= v < TWO_31
  {
    var w := n % TWO_32;
    if w < TWO_31 then w else w - TWO_32
  }

  /* ---------- Tags ---------- */

  function MakeTag(num: nat, wire: nat): nat
    requires wire < 8
  {
    8 * num + wire
  }

  /** ReadTag: a varint cut to 32 bits; None stands for the library's 0, "no tag". */
  function ReadTag(b: bytes): (r: Option<Read<nat>>)
    ensures r.Some? ==> 0 < r.value.value < TWO_32
    ensures r.Some? ==> |r.value.rest| < |b|
  {
    match ReadVarint(b)
    case None => None
    case Some(r) => if r.value % TWO_32 == 0 then None else Some(Read(r.value % TWO_32, r.rest))
  }

  lemma TagOf(b: bytes, tag: nat, t: bytes)
    requires ReadVarint(b) == Some(Read(tag, t)) && 0 < tag < TWO_32
    ensures ReadTag(b) == Some(Read(tag, t))
  {
  }

  lemma TagRoundTrip(tag: nat, t: bytes)
    requires 0 < tag < TWO_32
    ensures ReadTag(Varint(tag) + t) == Some(Read(tag, t))
  {
    Varint64RoundTrip(tag, t);
    TagOf(Varint(tag) + t, tag, t);
  }

  lemma TagPrefix(b: bytes, t: bytes)
    requires ReadTag(b).Some?
    ensures ReadTag(b + t) == Some(Read(ReadTag(b).value.value, ReadTag(b).value.rest + t))
  {
    VarintPrefix(b, t, 0);
  }

  /** ReadString of a length-delimited payload: a 32-bit length that must be non-negative as an
      int and present in full. */
  function ReadBlock(b: bytes): (r: Option<Read<bytes>>)
    ensures r.Some? ==> |r.value.rest| + |r.value.value| < |b|
  {
    match ReadVarint(b)
    case None => None
    case Some(r) =>
      var len := r.value % TWO_32;
      if len < TWO_31 && len <= |r.rest| then Some(Read(r.rest[..len], r.rest[len..])) else None
  }

  function Block(b: bytes): bytes
  {
    Varint(|b|) + b
  }

  lemma BlockRoundTrip(b: bytes, t: bytes)
    requires |b| < TWO_31
    ensures ReadBlock(Block(b) + t) == Some(Read(b, t))
  {
    Varint64RoundTrip(|b|, b + t);
    assert Block(b) + t == Varint(|b|) + (b + t);
    assert (b + t)[..|b|] == b;
    assert (b + t)[|b|..] == t;
  }

  lemma BlockPrefix(b: bytes, t: bytes)
    requires ReadBlock(b).Some?
    ensures ReadBlock(b + t) == Some(Read(ReadBlock(b).value.value, ReadBlock(b).value.rest + t))
  {
    VarintPrefix(b, t, 0);
    var r := ReadVarint(b).value;
    var len := r.value % TWO_32;
    assert (r.rest + t)[..len] == r.rest[..len];
    assert (r.rest + t)[len..] == r.rest[len..] + t;
  }

  /* ---------- Records of unknown fields ---------- */

  /** A record the reader has no field for, as SkipField copies it to the unknown bytes. */
  datatype Rec = Rec(num: nat, payload: Payload)

  datatype Payload =
    | VarintP(n: nat)
    | Fixed64P(data: bytes)
    | BlockP(data: bytes)
    | GroupP(recs: seq<Rec>)
    | Fixed32P(data: bytes)

  function WireType(p: Payload): (w: nat)
    ensures w < 8
  {
    match p
    case VarintP(_) => 0
    case Fixed64P(_) => 1
    case BlockP(_) => 2
    case GroupP(_) => 3
    case Fixed32P(_) => 5
  }

  function RecTag(r: Rec): nat
  {
    MakeTag(r.num, WireType(r.payload))
  }

  function PayloadBytes(num: nat, p: Payload): bytes
    decreases p, 0
  {
    match p
    case VarintP(n) => Varint(n)
    case Fixed64P(d) => d
    case BlockP(d) => Block(d)
    case GroupP(recs) => RecsBytes(recs) + Varint(MakeTag(num, 4))
    case Fixed32P(d) => d
  }

  function RecBytes(r: Rec): bytes
    decreases r, 0
  {
    Varint(RecTag(r)) + PayloadBytes(r.num, r.payload)
  }

  function RecsBytes(rs: seq<Rec>): bytes
    decreases rs, 1
  {
    if rs == [] then [] else RecBytes(rs[0]) + RecsBytes(rs[1..])
  }

  predicate ValidRec(r: Rec)
    decreases r, 0
  {
    && 0 < RecTag(r) && r.num < 0x2000_0000
    && match r.payload
       case VarintP(n) => n < TWO_64
       case Fixed64P(d) => |d| == 8
       case BlockP(d) => |d| < TWO_31
       case GroupP(recs) => ValidRecs(recs)
       case Fixed32P(d) => |d| == 4
  }

  predicate ValidRecs(rs: seq<Rec>)
    decreases rs, 1
  {
    rs == [] || (ValidRec(rs[0]) && ValidRecs(rs[1..]))
  }

  /** SkipField, after the tag has been read. */
  function SkipField(tag: nat, b: bytes): (r: Option<Read<Rec>>)
    requires 0 < tag < TWO_32
    ensures r.Some? ==> RecTag(r.value.value) == tag && ValidRec(r.value.value)
    ensures r.Some? ==> |r.value.rest| <= |b|
    decreases |b|, 1
  {
    var num, wire := tag / 8, tag % 8;
    match wire
    case 0 =>
      (match ReadVarint(b)
       case None => None
       case Some(r) => Some(Read(Rec(num, VarintP(r.value % TWO_64)), r.rest)))
    case 1 => if |b| < 8 then None else Some(Read(Rec(num, Fixed64P(b[..8])), b[8..]))
    case 2 =>
      (match ReadBlock(b)
       case None => None
       case Some(r) => Some(Read(Rec(num, BlockP(r.value)), r.rest)))
    case 3 =>
      (match SkipGroup(num, b)
       case None => None
       case Some(r) => Some(Read(Rec(num, GroupP(r.value)), r.rest)))
    case 5 => if |b| < 4 then None else Some(Read(Rec(num, Fixed32P(b[..4])), b[4..]))
    case _ => None
  }

  /** SkipMessage of a group: records up to the end tag of the same field number. */
  function SkipGroup(num: nat, b: bytes): (r: Option<Read<seq<Rec>>>)
    requires num < 0x2000_0000
    ensures r.Some? ==> ValidRecs(r.value.value)
    ensures r.Some? ==> |r.value.rest| <= |b|
    decreases |b|, 0
  {
    match ReadTag(b)
    case None => None
    case Some(t) =>
      if t.value % 8 == 4 then
        if t.value / 8 == num then Some(Read([], t.rest)) else None
      else
        match SkipField(t.value, t.rest)
        case None => None
        case Some(f) =>
          match SkipGroup(num, f.rest)
          case None => None
          case Some(g) => Some(Read([f.value] + g.value, g.rest))
  }

  /** A copied record is read back as itself, whatever follows it: first its tag ... */
  lemma RecTagRoundTrip(r: Rec, t: bytes)
    requires ValidRec(r)
    ensures ReadTag(RecBytes(r) + t) == Some(Read(RecTag(r), PayloadBytes(r.num, r.payload) + t))
  {
    var p := PayloadBytes(r.num, r.payload);
    assert RecBytes(r) + t == Varint(RecTag(r)) + (p + t);
    TagRoundTrip(RecTag(r), p + t);
  }

  /** ... then its payload. */
  lemma {:induction false} RecRoundTrip(r: Rec, t: bytes)
    requires ValidRec(r)
    ensures SkipField(RecTag(r), PayloadBytes(r.num, r.payload) + t) == Some(Read(r, t))
    decreases r, 0
  {
    var p := PayloadBytes(r.num, r.payload);
    assert RecTag(r) / 8 == r.num && RecTag(r) % 8 == WireType(r.payload);
    match r.payload
    case VarintP(n) => Varint64RoundTrip(n, t);
    case Fixed64P(d) => assert (p + t)[..8] == d && (p + t)[8..] == t;
    case BlockP(d) => BlockRoundTrip(d, t);
    case GroupP(recs) => GroupRoundTrip(r.num, recs, t);
    case Fixed32P(d) => assert (p + t)[..4] == d && (p + t)[4..] == t;
  }

  lemma GroupEnds(num: nat, t: bytes)
    requires num < 0x2000_0000
    ensures SkipGroup(num, Varint(MakeTag(num, 4)) + t) == Some(Read([], t))
  {
    TagRoundTrip(MakeTag(num, 4), t);
  }

  lemma {:induction false} GroupRoundTrip(num: nat, rs: seq<Rec>, t: bytes)
    requires num < 0x2000_0000 && ValidRecs(rs)
    ensures SkipGroup(num, RecsBytes(rs) + Varint(MakeTag(num, 4)) + t) == Some(Read(rs, t))
    decreases rs, 1
  {
    var end := Varint(MakeTag(num, 4));
    if rs == [] {
      assert RecsBytes(rs) + end + t == end + t;
      GroupEnds(num, t);
    } else {
      var tail := RecsBytes(rs[1..]) + end + t;
      SeqAssoc(RecBytes(rs[0]), RecsBytes(rs[1..]), end);
      SeqAssoc(RecBytes(rs[0]), RecsBytes(rs[1..]) + end, t);
      RecTagRoundTrip(rs[0], tail);
      RecRoundTrip(rs[0], tail);
      GroupRoundTrip(num, rs[1..], t);
      assert RecTag(rs[0]) % 8 == WireType(rs[0].payload);
      assert rs == [rs[0]] + rs[1..];
    }
  }

  /** Skipping does not look past the record. */
  lemma {:induction false} SkipFieldPrefix(tag: nat, b: bytes, t: bytes)
    requires 0 < tag < TWO_32 && SkipField(tag, b).Some?
    ensures SkipField(tag, b + t)
         == Some(Read(SkipField(tag, b).value.value, SkipField(tag, b).value.rest + t))
    decreases |b|, 1
  {
    match tag % 8
    case 0 => VarintPrefix(b, t, 0);
    case 1 => assert (b + t)[..8] == b[..8] && (b + t)[8..] == b[8..] + t;
    case 2 => BlockPrefix(b, t);
    case 3 => SkipGroupPrefix(tag / 8, b, t);
    case 5 => assert (b + t)[..4] == b[..4] && (b + t)[4..] == b[4..] + t;
    case _ =>
  }

  lemma {:induction false} SkipGroupPrefix(num: nat, b: bytes, t: bytes)
    requires num < 0x2000_0000 && SkipGroup(num, b).Some?
    ensures SkipGroup(num, b + t)
         == Some(Read(SkipGroup(num, b).value.value, SkipGroup(num, b).value.rest + t))
    decreases |b|, 0
  {
    TagPrefix(b, t);
    var tag := ReadTag(b).value;
    if tag.value % 8 != 4 {
      SkipFieldPrefix(tag.value, tag.rest, t);
      SkipGroupPrefix(num, SkipField(tag.value, tag.rest).value.rest, t);
    }
  }

  lemma SeqAssoc<T>(a: seq<T>, b: seq<T>, c: seq<T>)
    ensures (a + b) + c == a + (b + c)
  {
  }

  lemma {:induction false} RecsBytesConcat(a: seq<Rec>, b: seq<Rec>)
    ensures RecsBytes(a + b) == RecsBytes(a) + RecsBytes(b)
  {
    if a == [] {
      assert a + b == b;
    } else {
      RecsBytesConcat(a[1..], b);
      assert (a + b)[1..] == a[1..] + b;
      SeqAssoc(RecBytes(a[0]), RecsBytes(a[1..]), RecsBytes(b));
    }
  }

  lemma {:induction false} ValidRecsConcat(a: seq<Rec>, b: seq<Rec>)
    ensures ValidRecs(a + b) <==> ValidRecs(a) && ValidRecs(b)
  {
    if a == [] {
      assert a + b == b;
    } else {
      ValidRecsConcat(a[1..], b);
      assert (a + b)[1..] == a[1..] + b;
    }
  }
}
