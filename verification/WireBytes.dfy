/**
 The bytes of the messages: the tag of every kind of field, and whole requests written out.
 */
module WireBytes {
  import opened Wire
  import opened Message
  import opened FastParser
  import opened Canonical
  import opened ParserConcat
  import opened Schemas
  import opened Framing
  import opened Ioctl
  import opened ProxyServer
  import opened ProxyClient

  /** A tag is the field's number and below it, in three bits, its wire type: 0 for a varint, and 2 for
      anything with a length (Protocol Buffers Encoding specification, section "Message Structure"). */
  lemma TagsAre(f: Field)
    ensures FieldTag(f) == 8 * f.num + match f.kind
                                       case UInt32 => 0
                                       case UInt64 => 0
                                       case SInt32 => 0
                                       case Bool => 0
                                       case Login => 0
                                       case Bytes => 2
                                       case Sub(_) => 2
  {
  }

  lemma NumberBytes(f: Field, n: int)
    requires !f.kind.Bytes? && !f.kind.Sub? && OkValue(f.kind, Num(n)) && 1 <= f.num <= 15
    ensures ValuesBytes(f, [Num(n)]) == [8 * f.num] + Varint(if f.kind.SInt32? then ZigZag(n) else n)
  {
    TagsAre(f);
    assert ValuesBytes(f, [Num(n)]) == Varint(FieldTag(f)) + ValueBytes(f.kind, Num(n)) + [];
  }

  /** A number of a field, and the fields behind it. */
  lemma NumberFirst(s: Schema, fs: seq<seq<Value>>, i: nat, n: int)
    requires i < |s| == |fs| && forall j :: 0 <= j < |s| ==> OkValues(s[j], fs[j])
    requires !s[i].kind.Bytes? && !s[i].kind.Sub? && OkValue(s[i].kind, Num(n)) && 1 <= s[i].num <= 15
    requires fs[i] == [Num(n)]
    ensures FieldsBytes(s, fs, i)
         == [8 * s[i].num] + Varint(if s[i].kind.SInt32? then ZigZag(n) else n) + FieldsBytes(s, fs, i + 1)
  {
    hide ValuesBytes, Varint, OkValues;
    NumberBytes(s[i], n);
  }

  lemma NoFieldsLeft(s: Schema, fs: seq<seq<Value>>)
    requires |s| == |fs| && forall j :: 0 <= j < |s| ==> OkValues(s[j], fs[j])
    ensures FieldsBytes(s, fs, |s|) == []
  {
  }

  /** A wait for one slice: the session, the time-out as a zig-zag number, and whether it is partial. */
  lemma WaitRequestBytes(sid: U32, slice: Slice)
    requires 0 <= slice.timeout <= TIMEOUT_MAX
    ensures Serialize(WAIT_REQUEST, WaitRequest(sid, slice))
         == [8] + Varint(sid) + ([16] + Varint(2 * slice.timeout) + [24, if slice.partial then 1 else 0])
  {
    hide FieldsBytes, Varint;
    var m := WaitRequest(sid, slice);
    NumberFirst(WAIT_REQUEST, m.fields, 0, sid);
    NumberFirst(WAIT_REQUEST, m.fields, 1, slice.timeout);
    NumberFirst(WAIT_REQUEST, m.fields, 2, if slice.partial then 1 else 0);
    NoFieldsLeft(WAIT_REQUEST, m.fields);
    OneByte(if slice.partial then 1 else 0);
  }

  lemma OneByte(n: nat)
    requires n < 128
    ensures Varint(n) == [n]
  {
  }

  lemma TwoBytes(n: nat)
    requires 128 <= n < 128 * 128
    ensures Varint(n) == [128 + n % 128, n / 128]
  {
  }

  /** A wait of a whole second on session 5, to be followed by more. */
  lemma WaitExample()
    ensures Serialize(WAIT_REQUEST, WaitRequest(5, Slice(1000, true, 1))) == [8, 5, 16, 208, 15, 24, 1]
  {
    WaitRequestBytes(5, Slice(1000, true, 1));
    OneByte(5);
    TwoBytes(2000);
  }

  /** One buffer to be mapped, as a record: its length and its direction. */
  lemma MapRecordBytes(slot: Slot)
    ensures MapRecord(slot).Nested? && Typed(MAP_REQUEST_BUFFERS, MapRecord(slot).m)
    ensures Serialize(MAP_REQUEST_BUFFERS, MapRecord(slot).m) == [8] + Varint(slot.len) + ([16] + Varint(slot.flags))
  {
    hide FieldsBytes, Varint;
    var m := MapRecord(slot).m;
    NumberFirst(MAP_REQUEST_BUFFERS, m.fields, 0, slot.len);
    NumberFirst(MAP_REQUEST_BUFFERS, m.fields, 1, slot.flags);
    NoFieldsLeft(MAP_REQUEST_BUFFERS, m.fields);
  }

  /** A request to map: the session, and each buffer behind its length in bytes. */
  lemma MapRequestBytes(sid: U32, slots: seq<Slot>)
    ensures Serialize(MAP_REQUEST, MapRequest(sid, slots)) == [8] + Varint(sid) + RecordBytes(slots)
  {
    hide FieldsBytes, Varint;
    var m := MapRequest(sid, slots);
    NumberFirst(MAP_REQUEST, m.fields, 0, sid);
    RecordsLast(m.fields);
    RecordsBytes(slots);
  }

  function RecordBytes(slots: seq<Slot>): bytes
  {
    if slots == [] then []
    else
      var record := [8] + Varint(slots[0].len) + ([16] + Varint(slots[0].flags));
      [18] + (Varint(|record|) + record) + RecordBytes(slots[1..])
  }

  lemma RecordsLast(fs: seq<seq<Value>>)
    requires |fs| == 2 && forall j :: 0 <= j < 2 ==> OkValues(MAP_REQUEST[j], fs[j])
    ensures FieldsBytes(MAP_REQUEST, fs, 1) == ValuesBytes(MAP_REQUEST[1], fs[1])
  {
    NoFieldsLeft(MAP_REQUEST, fs);
  }

  lemma {:induction false} RecordsBytes(slots: seq<Slot>)
    ensures OkValues(MAP_REQUEST[1], MapRecords(slots))
    ensures ValuesBytes(MAP_REQUEST[1], MapRecords(slots)) == RecordBytes(slots)
  {
    if slots != [] {
      TagsAre(MAP_REQUEST[1]);
      MapRecordBytes(slots[0]);
      assert MapRecords(slots)[1..] == MapRecords(slots[1..]);
      RecordsBytes(slots[1..]);
    }
  }

  /** Session 5, and one buffer of 300 bytes for input and output. */
  lemma MapExample(va: nat)
    ensures Serialize(MAP_REQUEST, MapRequest(5, [Slot(va, 300, 0, 3)])) == [8, 5, 18, 5, 8, 172, 2, 16, 3]
  {
    var slots := [Slot(va, 300, 0, 3)];
    MapRequestBytes(5, slots);
    OneByte(5);
    OneByte(3);
    TwoBytes(300);
    assert slots[1..] == [];
  }

  /* ---------- Frames ---------- */

  /** A request of method 5 with one byte of data, as it lies in the stream ... */
  lemma RequestFrameExample()
    ensures RequestFrame(Request(5, [9])) == [0x54, 0x37, 0x65, 0x33, 1, 0, 5, 0, 1, 0, 0, 0, 9]
  {
    hide Le;
    LittleEndian(1);
    LittleEndian(5);
  }

  /** ... and a reply to it that refuses with error 22. */
  lemma ReplyFrameExample()
    ensures ReplyFrame(5, Reply(-22, 0, []))
         == [0x54, 0x37, 0x65, 0x33, 1, 0, 5, 0, 0xEA, 0xFF, 0xFF, 0xFF, 0, 0, 0, 0]
  {
    hide Le;
    LittleEndian(1);
    LittleEndian(5);
    LittleEndian(0);
    LittleEndian(TWO_32 - 22);
  }

  lemma LeNext(n: nat, width: nat)
    ensures Le(n, width + 1) == [n % 256] + Le(n / 256, width)
    ensures Le(n, 0) == []
  {
  }

  lemma LittleEndian(n: nat)
    ensures Le(n, 2) == [n % 256, n / 256 % 256]
    ensures Le(n, 4) == [n % 256, n / 256 % 256, n / 256 / 256 % 256, n / 256 / 256 / 256 % 256]
  {
    hide Le;
    LeNext(n, 3);
    LeNext(n / 256, 2);
    LeNext(n / 256 / 256, 1);
    LeNext(n / 256 / 256 / 256, 0);
    LeNext(n, 1);
    LeNext(n / 256, 0);
  }

  /* ---------- What reading refuses and cuts ---------- */

  /** A varint of more than ten bytes is not read. */
  lemma {:induction false} LongVarintRefused(b: bytes, used: nat)
    requires used <= 10 && |b| >= 10 - used && forall k :: 0 <= k < 10 - used ==> b[k] >= 128
    ensures ReadVarint(b, used) == None
    decreases 10 - used
  {
    if used < 10 {
      LongVarintRefused(b[1..], used + 1);
    }
  }

  /** Numbers are cut to the width of their field: bits above it do not matter ... */
  lemma DecodeCuts(k: Kind, n: nat)
    requires !k.Bytes? && !k.Sub?
    ensures k.UInt32? || k.SInt32? || k.Login? ==> Decode(k, n) == Decode(k, n % TWO_32)
    ensures k.UInt64? || k.Bool? ==> Decode(k, n) == Decode(k, n % TWO_64)
  {
  }

  /** ... and those within it do. */
  lemma DecodeKeeps(k: Kind, n: nat)
    requires !k.Bytes? && !k.Sub?
    ensures (k.UInt32? && n < TWO_32) || (k.UInt64? && n < TWO_64) ==> Decode(k, n) == n
    ensures k.Bool? && 0 < n < TWO_64 ==> Decode(k, n) == 1
    ensures k.Login? && n < TWO_32 ==> Decode(k, n) == if n < TWO_31 then n else n - TWO_32
  {
  }

  /** Every required field of a message, and of the records nested in it, has a value. */
  predicate Filled(s: Schema, m: Msg)
    requires |m.fields| == |s|
  {
    && (forall i :: 0 <= i < |s| && s[i].required ==> m.fields[i] != [])
    && (forall i, j :: 0 <= i < |s| && s[i].kind.Sub? && 0 <= j < |m.fields[i]| ==>
          FilledRecord(s[i].kind.schema, m.fields[i][j]))
  }

  predicate FilledRecord(s: Schema, v: Value)
  {
    && v.Nested? && |v.m.fields| == |s|
    && forall i :: 0 <= i < |s| && s[i].required ==> v.m.fields[i] != []
  }

  /** Bytes are accepted as a message of the file exactly if they can be read to their end and no required field
      is missing, in the message or in a record nested in it. */
  lemma AcceptedWhen(s: Schema, b: bytes)
    requires WellFormed(s) && forall i :: 0 <= i < |s| && s[i].kind.Sub? ==> Flat(s[i].kind.schema)
    ensures ParseFromString(s, b)
         == match FastFrom(s, b, Empty(s))
            case Failure => None
            case Success(m, atEnd) => if atEnd && Filled(s, m) then Some(m) else None
  {
    var p := FastFrom(s, b, Empty(s));
    if p.Success? {
      FastTyped(s, b);
      FilledIsInitialized(s, p.m);
    }
  }

  lemma FilledIsInitialized(s: Schema, m: Msg)
    requires Typed(s, m) && forall i :: 0 <= i < |s| && s[i].kind.Sub? ==> Flat(s[i].kind.schema)
    ensures IsInitialized(s, m) <==> Filled(s, m)
  {
    forall i | 0 <= i < |s| && s[i].kind.Sub?
      ensures AllAreInitialized(s[i], m.fields[i])
         <==> forall j :: 0 <= j < |m.fields[i]| ==> FilledRecord(s[i].kind.schema, m.fields[i][j])
    {
      RecordsFilled(s[i], m.fields[i]);
    }
  }

  lemma RecordsFilled(f: Field, vs: seq<Value>)
    requires f.kind.Sub? && Flat(f.kind.schema) && OkValues(f, vs)
    ensures AllAreInitialized(f, vs) <==> forall j :: 0 <= j < |vs| ==> FilledRecord(f.kind.schema, vs[j])
  {
    forall j | 0 <= j < |vs|
      ensures OkValue(f.kind, vs[j]) && |vs[j].m.fields| == |f.kind.schema|
      ensures IsInitialized(f.kind.schema, vs[j].m) <==> FilledRecord(f.kind.schema, vs[j])
    {
      assert OkValue(f.kind, vs[j]);
      FlatFilled(f.kind.schema, vs[j].m);
    }
  }

  lemma FlatFilled(s: Schema, m: Msg)
    requires Flat(s) && Typed(s, m)
    ensures IsInitialized(s, m) <==> FilledRecord(s, Nested(m))
  {
  }

  /* ---------- Two messages one behind the other ---------- */

  /** What two messages come to: of a field with one value the last one given, of nested records all of them in
      order, and all unknown bytes. */
  predicate IsBoth(s: Schema, m: Msg, n: Msg, r: Msg)
    requires |m.fields| == |n.fields| == |s|
  {
    && |r.fields| == |s| && r.unknown == m.unknown + n.unknown
    && forall i :: 0 <= i < |s| ==>
         if s[i].kind.Sub? then r.fields[i] == m.fields[i] + n.fields[i]
         else if n.fields[i] != [] then r.fields[i] == n.fields[i]
         else r.fields[i] == m.fields[i]
  }

  lemma MergeIsBoth(s: Schema, m: Msg, n: Msg)
    requires |m.fields| == |n.fields| == |s|
    ensures IsBoth(s, m, n, Merge(s, m, n))
  {
  }

  lemma BothFilled(s: Schema, m: Msg, n: Msg, r: Msg)
    requires |m.fields| == |n.fields| == |s| && Filled(s, m) && Filled(s, n) && IsBoth(s, m, n, r)
    ensures Filled(s, r)
  {
    forall i, j | 0 <= i < |s| && s[i].kind.Sub? && 0 <= j < |r.fields[i]|
      ensures FilledRecord(s[i].kind.schema, r.fields[i][j])
    {
      if j < |m.fields[i]| {
        assert r.fields[i][j] == m.fields[i][j];
      } else {
        assert r.fields[i][j] == n.fields[i][j - |m.fields[i]|];
      }
    }
  }

  /** Of two messages of an enum-free table that are accepted, one behind the other is accepted as both. */
  lemma BothAccepted(s: Schema, a: bytes, b: bytes)
    requires WellFormed(s) && NoLogin(s) && forall i :: 0 <= i < |s| && s[i].kind.Sub? ==> Flat(s[i].kind.schema)
    requires ParseFromString(s, a).Some? && ParseFromString(s, b).Some?
    ensures var m, n := ParseFromString(s, a).value, ParseFromString(s, b).value;
            var r := ParseFromString(s, a + b);
            r.Some? && IsBoth(s, m, n, r.value)
  {
    hide FastFrom, Filled, IsBoth, Merge, ParseFromString;
    AcceptedWhen(s, a);
    AcceptedWhen(s, b);
    AcceptedWhen(s, a + b);
    ParseIsHomomorphism(s, a, b);
    var m, n := ParseFromString(s, a).value, ParseFromString(s, b).value;
    MergeIsBoth(s, m, n);
    BothFilled(s, m, n, Merge(s, m, n));
  }
}
