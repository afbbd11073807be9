/**
 The generated message classes of mc.pb.cpp, driven by a field table.

 Every class in that file is the same template filled in with the fields of one message: fields in
 ascending number, scalars with a has-bit, at most one repeated nested message, which comes last.
 A `Schema` is that table (the tables themselves are in Schemas.dfy) and a `Msg` is the value of
 one message object: for each field the values it holds (none or one for a scalar, so the has-bit
 is whether the sequence is empty), and the bytes kept for unknown fields.

 `Plain` is the simple reading loop: read a tag, switch on the field, repeat. The loop with
 expected tags and jumps that the file really contains is in FastParser.dfy.
 */
module Message {
  import opened Wire

  datatype Kind = UInt32 | UInt64 | SInt32 | Bool | Login | Bytes | Sub(schema: seq<Field>)

  datatype Field = Field(num: nat, required: bool, kind: Kind)

  type Schema = seq<Field>

  datatype Value = Num(v: int) | Data(b: bytes) | Nested(m: Msg)

  datatype Msg = Msg(fields: seq<seq<Value>>, unknown: bytes)

  /** The enumerators of LoginType; 3 is not one of them. */
  predicate LoginTypeIsValid(value: int)
  {
    value == 0 || value == 1 || value == 2 || value == 4 || value == 5 || value == 6
  }

  function FieldTag(f: Field): nat
  {
    MakeTag(f.num, if f.kind.Bytes? || f.kind.Sub? then 2 else 0)
  }

  /** What the template assumes of a table. Only OpenSessionRequest has an enum field, one that is
      required, and no nested message has any. */
  predicate WellFormed(s: Schema)
    decreases s
  {
    && (forall i :: 0 <= i < |s| ==> 1 <= s[i].num <= 15)
    && (forall i, j :: 0 <= i < j < |s| ==> s[i].num < s[j].num)
    && (forall i :: 0 <= i < |s| && s[i].kind.Sub? ==> i == |s| - 1 && WellFormedField(s[i]))
    && (forall i :: 0 <= i < |s| && s[i].kind.Login? ==> s[i].required)
    && (forall i, j :: 0 <= i < j < |s| && s[i].kind.Login? ==> !s[j].kind.Login?)
  }

  predicate WellFormedField(f: Field)
    decreases f
  {
    f.kind.Sub? ==> NoLogin(f.kind.schema) && WellFormed(f.kind.schema)
  }

  predicate NoLogin(s: Schema)
  {
    forall i :: 0 <= i < |s| ==> !s[i].kind.Login?
  }

  predicate OkValue(k: Kind, v: Value)
    decreases k
  {
    match k
    case UInt32 => v.Num? && 0 <= v.v < TWO_32
    case UInt64 => v.Num? && 0 <= v.v < TWO_64
    case SInt32 => v.Num? && -TWO_31 <= v.v < TWO_31
    case Bool => v.Num? && 0 <= v.v <= 1
    case Login => v.Num? && LoginTypeIsValid(v.v)
    case Bytes => v.Data?
    case Sub(s) => v.Nested? && Typed(s, v.m)
  }

  predicate OkValues(f: Field, vs: seq<Value>)
    decreases f
  {
    && (f.kind.Sub? || |vs| <= 1)
    && forall j :: 0 <= j < |vs| ==> OkValue(f.kind, vs[j])
  }

  /** The values the setters and parsers of a message class can leave in an object. */
  predicate Typed(s: Schema, m: Msg)
    decreases s
  {
    && |m.fields| == |s|
    && forall i :: 0 <= i < |s| ==> OkValues(s[i], m.fields[i])
  }

  function Empty(s: Schema): Msg
  {
    Msg(seq(|s|, _ => []), [])
  }

  /** IsInitialized: required fields present, here and in every nested message. */
  predicate IsInitialized(s: Schema, m: Msg)
    requires Typed(s, m)
    decreases s
  {
    && (forall i :: 0 <= i < |s| && s[i].required ==> m.fields[i] != [])
    && (forall i :: 0 <= i < |s| && s[i].kind.Sub? ==> AllAreInitialized(s[i], m.fields[i]))
  }

  predicate AllAreInitialized(f: Field, vs: seq<Value>)
    requires f.kind.Sub? && OkValues(f, vs)
    decreases f
  {
    forall j :: 0 <= j < |vs| ==> OkValue(f.kind, vs[j]) && IsInitialized(f.kind.schema, vs[j].m)
  }

  /* ---------- Writing ---------- */

  function ValueBytes(k: Kind, v: Value): bytes
    requires OkValue(k, v)
    decreases k, 0
  {
    match k
    case Bytes => Block(v.b)
    case Sub(s) => Block(Serialize(s, v.m))
    case _ => Varint(WireNum(k, v.v))
  }

  function WireNum(k: Kind, v: int): (n: nat)
    requires !k.Bytes? && !k.Sub? && OkValue(k, Num(v))
    ensures n < TWO_64
  {
    if k.SInt32? then ZigZag(v) else v
  }

  function ValuesBytes(f: Field, vs: seq<Value>): bytes
    requires OkValues(f, vs)
    decreases f, |vs|
  {
    if vs == [] then []
    else Varint(FieldTag(f)) + ValueBytes(f.kind, vs[0]) + ValuesBytes(f, vs[1..])
  }

  function FieldsBytes(s: Schema, fs: seq<seq<Value>>, i: nat): bytes
    requires i <= |s| == |fs| && forall j :: 0 <= j < |s| ==> OkValues(s[j], fs[j])
    decreases s, |s| - i
  {
    if i == |s| then [] else ValuesBytes(s[i], fs[i]) + FieldsBytes(s, fs, i + 1)
  }

  /** What SerializeWithCachedSizes writes. */
  function Serialize(s: Schema, m: Msg): bytes
    requires Typed(s, m)
    decreases s, |s| + 1
  {
    FieldsBytes(s, m.fields, 0) + m.unknown
  }

  /* ---------- Reading ---------- */

  datatype Parse = Failure | Success(m: Msg, atEnd: bool)

  /** One record as the reader files it: a value of field `i`, or a copy for the unknown bytes. */
  datatype Item = Known(i: nat, v: Value) | Foreign(r: Rec)

  function FieldOf(s: Schema, tag: nat, i: nat := 0): (k: nat)
    requires i <= |s|
    ensures i <= k <= |s|
    ensures k < |s| ==> FieldTag(s[k]) == tag
    ensures k == |s| ==> forall j :: i <= j < |s| ==> FieldTag(s[j]) != tag
    decreases |s| - i
  {
    if i == |s| || FieldTag(s[i]) == tag then i else FieldOf(s, tag, i + 1)
  }

  /** ReadPrimitive, ReadBytes and ReadMessageNoVirtual. A nested message must use up its block. */
  function ReadValue(k: Kind, b: bytes): (r: Option<Read<Value>>)
    ensures r.Some? ==> |r.value.rest| < |b|
    decreases |b|, 1
  {
    match k
    case Bytes =>
      (match ReadBlock(b)
       case None => None
       case Some(r) => Some(Read(Data(r.value), r.rest)))
    case Sub(s) =>
      (match ReadBlock(b)
       case None => None
       case Some(r) =>
         match Plain(s, r.value, Empty(s))
         case Failure => None
         case Success(m, atEnd) => if atEnd then Some(Read(Nested(m), r.rest)) else None)
    case _ =>
      match ReadVarint(b)
      case None => None
      case Some(r) => Some(Read(Num(Decode(k, r.value)), r.rest))
  }

  /** The value of a varint field, cut to the width of its type. */
  function Decode(k: Kind, n: nat): int
    requires !k.Bytes? && !k.Sub?
  {
    match k
    case UInt32 => n % TWO_32
    case UInt64 => n % TWO_64
    case SInt32 => UnZigZag(n % TWO_32)
    case Bool => if n % TWO_64 != 0 then 1 else 0
    case Login => AsInt32(n)
  }

  /** An enum value that is not an enumerator goes to the unknown bytes, with its own tag. */
  function FileValue(s: Schema, i: nat, v: Value): Item
    requires i < |s| && (s[i].kind.Login? ==> v.Num?)
  {
    if s[i].kind.Login? && !LoginTypeIsValid(v.v)
    then Foreign(Rec(s[i].num, VarintP(v.v % TWO_32)))
    else Known(i, v)
  }

  function ReadRecord(s: Schema, tag: nat, b: bytes): (r: Option<Read<Item>>)
    requires 0 < tag < TWO_32
    ensures r.Some? ==> |r.value.rest| <= |b|
    ensures r.Some? && r.value.value.Known? ==> r.value.value.i < |s|
    decreases |b|, 2
  {
    var i := FieldOf(s, tag);
    if i < |s| then
      match ReadValue(s[i].kind, b)
      case None => None
      case Some(v) => Some(Read(FileValue(s, i, v.value), v.rest))
    else
      match SkipField(tag, b)
      case None => None
      case Some(r) => Some(Read(Foreign(r.value), r.rest))
  }

  /** Last one wins for a scalar, appending for a repeated field. */
  function Combine(f: Field, a: seq<Value>, b: seq<Value>): seq<Value>
  {
    if f.kind.Sub? then a + b else if b == [] then a else b
  }

  function Put(s: Schema, m: Msg, i: nat, vs: seq<Value>): (r: Msg)
    requires i < |s| == |m.fields|
    ensures |r.fields| == |s|
  {
    m.(fields := m.fields[i := Combine(s[i], m.fields[i], vs)])
  }

  function Apply(s: Schema, m: Msg, item: Item): (r: Msg)
    requires |m.fields| == |s| && (item.Known? ==> item.i < |s|)
    ensures |r.fields| == |s|
  {
    match item
    case Known(i, v) => Put(s, m, i, [v])
    case Foreign(r) => m.(unknown := m.unknown + RecBytes(r))
  }

  /** The simple loop. It stops in the middle (`!atEnd`) at a zero, unreadable or end-group tag. */
  function Plain(s: Schema, b: bytes, m: Msg): (r: Parse)
    requires |m.fields| == |s|
    ensures r.Success? ==> |r.m.fields| == |s|
    decreases |b|, 0
  {
    if b == [] then Success(m, true)
    else
      match ReadTag(b)
      case None => Success(m, false)
      case Some(t) =>
        if t.value % 8 == 4 then Success(m, false)
        else
          match ReadRecord(s, t.value, t.rest)
          case None => Failure
          case Some(r) => Plain(s, r.rest, Apply(s, m, r.value))
  }

  /** MergeFrom. */
  function Merge(s: Schema, a: Msg, b: Msg): (r: Msg)
    requires |a.fields| == |b.fields| == |s|
    ensures |r.fields| == |s|
  {
    Msg(seq(|s|, i requires 0 <= i < |s| => Combine(s[i], a.fields[i], b.fields[i])),
        a.unknown + b.unknown)
  }

  /* ---------- Parsing a concatenation ---------- */

  lemma ReadValuePrefix(k: Kind, b: bytes, t: bytes)
    requires ReadValue(k, b).Some?
    ensures ReadValue(k, b + t)
         == Some(Read(ReadValue(k, b).value.value, ReadValue(k, b).value.rest + t))
  {
    if k.Bytes? || k.Sub? {
      BlockPrefix(b, t);
    } else {
      VarintPrefix(b, t, 0);
    }
  }

  lemma ReadRecordPrefix(s: Schema, tag: nat, b: bytes, t: bytes)
    requires 0 < tag < TWO_32 && ReadRecord(s, tag, b).Some?
    ensures ReadRecord(s, tag, b + t)
         == Some(Read(ReadRecord(s, tag, b).value.value, ReadRecord(s, tag, b).value.rest + t))
  {
    var i := FieldOf(s, tag);
    if i < |s| {
      ReadValuePrefix(s[i].kind, b, t);
    } else {
      SkipFieldPrefix(tag, b, t);
    }
  }

  /** Reading `a` to its end and going on with `b` is reading `a + b`. */
  lemma {:induction false} PlainConcat(s: Schema, a: bytes, b: bytes, m: Msg)
    requires |m.fields| == |s|
    requires Plain(s, a, m).Success? && Plain(s, a, m).atEnd
    ensures Plain(s, a + b, m) == Plain(s, b, Plain(s, a, m).m)
    decreases |a|
  {
    if a == [] {
      assert a + b == b;
    } else {
      TagPrefix(a, b);
      var t := ReadTag(a).value;
      ReadRecordPrefix(s, t.value, t.rest, b);
      var r := ReadRecord(s, t.value, t.rest).value;
      PlainConcat(s, r.rest, b, Apply(s, m, r.value));
    }
  }

  function MergeInto(s: Schema, m: Msg, p: Parse): Parse
    requires |m.fields| == |s| && (p.Success? ==> |p.m.fields| == |s|)
  {
    match p
    case Failure => Failure
    case Success(x, atEnd) => Success(Merge(s, m, x), atEnd)
  }

  lemma ApplyMerge(s: Schema, m: Msg, x: Msg, item: Item)
    requires |m.fields| == |x.fields| == |s| && (item.Known? ==> item.i < |s|)
    ensures Apply(s, Merge(s, m, x), item) == Merge(s, m, Apply(s, x, item))
  {
    var l, r := Apply(s, Merge(s, m, x), item), Merge(s, m, Apply(s, x, item));
    match item
    case Known(i, v) =>
      var a, b := m.fields[i], x.fields[i];
      assert (a + b) + [v] == a + (b + [v]);
      assert l.fields == r.fields;
    case Foreign(rec) =>
      SeqAssoc(m.unknown, x.unknown, RecBytes(rec));
      assert l.fields == r.fields;
  }

  /** Reading into a message that already holds `m` is reading into `x` and merging afterwards. */
  lemma {:induction false} PlainMerge(s: Schema, b: bytes, m: Msg, x: Msg)
    requires |m.fields| == |x.fields| == |s|
    ensures Plain(s, b, Merge(s, m, x)) == MergeInto(s, m, Plain(s, b, x))
    decreases |b|
  {
    if b != [] && ReadTag(b).Some? && ReadTag(b).value.value % 8 != 4 {
      var t := ReadTag(b).value;
      var r := ReadRecord(s, t.value, t.rest);
      if r.Some? {
        ApplyMerge(s, m, x, r.value.value);
        PlainMerge(s, r.value.rest, m, Apply(s, x, r.value.value));
      }
    }
  }

  lemma MergeEmpty(s: Schema, m: Msg)
    requires |m.fields| == |s|
    ensures Merge(s, m, Empty(s)) == m
    ensures Merge(s, Empty(s), m) == m
  {
    forall i | 0 <= i < |s|
      ensures Combine(s[i], m.fields[i], []) == m.fields[i] == Combine(s[i], [], m.fields[i])
    {
      assert m.fields[i] + [] == m.fields[i] && [] + m.fields[i] == m.fields[i];
    }
    assert Merge(s, m, Empty(s)).fields == m.fields;
    assert Merge(s, Empty(s), m).fields == m.fields;
    assert m.unknown + [] == m.unknown && [] + m.unknown == m.unknown;
  }

  /** The simple loop is a homomorphism from concatenation to MergeFrom. */
  lemma PlainConcatIsMerge(s: Schema, a: bytes, b: bytes)
    requires Plain(s, a, Empty(s)).Success? && Plain(s, a, Empty(s)).atEnd
    ensures Plain(s, a + b, Empty(s))
         == MergeInto(s, Plain(s, a, Empty(s)).m, Plain(s, b, Empty(s)))
  {
    var m := Plain(s, a, Empty(s)).m;
    PlainConcat(s, a, b, Empty(s));
    MergeEmpty(s, m);
    PlainMerge(s, b, m, Empty(s));
  }

  /* ---------- Round trip ---------- */

  /** A record that a reader of `s` does not take for one of its fields. */
  predicate ForeignRec(s: Schema, r: Rec)
  {
    && ValidRec(r)
    && var i := FieldOf(s, RecTag(r));
       i == |s| || (s[i].kind.Login? && r.payload.VarintP? && r.payload.n < TWO_32
                    && !LoginTypeIsValid(AsInt32(r.payload.n)))
  }

  predicate ForeignRecs(s: Schema, rs: seq<Rec>)
  {
    forall k :: 0 <= k < |rs| ==> ForeignRec(s, rs[k])
  }

  ghost predicate WholeForeign(s: Schema, u: bytes)
  {
    exists rs: seq<Rec> :: ForeignRecs(s, rs) && u == RecsBytes(rs)
  }

  /** Unknown bytes are whole foreign records, here and in every nested message. */
  ghost predicate Whole(s: Schema, m: Msg)
    requires Typed(s, m)
    decreases s
  {
    && WholeForeign(s, m.unknown)
    && (forall i :: 0 <= i < |s| ==> WholeValues(s[i], m.fields[i]))
  }

  ghost predicate WholeValues(f: Field, vs: seq<Value>)
    requires OkValues(f, vs)
    decreases f
  {
    f.kind.Sub? ==>
      forall j :: 0 <= j < |vs| ==> OkValue(f.kind, vs[j]) && Whole(f.kind.schema, vs[j].m)
  }

  lemma FieldOfOwnTag(s: Schema, i: nat, k: nat)
    requires WellFormed(s) && k <= i < |s|
    ensures FieldOf(s, FieldTag(s[i]), k) == i
    decreases i - k
  {
    if k < i {
      assert s[k].num < s[i].num;
      FieldOfOwnTag(s, i, k + 1);
    }
  }

  lemma NumRoundTrip(k: Kind, v: Value, t: bytes)
    requires !k.Bytes? && !k.Sub? && OkValue(k, v)
    ensures ReadValue(k, ValueBytes(k, v) + t) == Some(Read(v, t))
  {
    Varint64RoundTrip(WireNum(k, v.v), t);
    DecodeWireNum(k, v.v);
  }

  lemma DecodeWireNum(k: Kind, v: int)
    requires !k.Bytes? && !k.Sub? && OkValue(k, Num(v))
    ensures Decode(k, WireNum(k, v)) == v
  {
    ZigZagRoundTrip(v);
  }

  lemma {:induction false} ValueRoundTrip(f: Field, v: Value, t: bytes)
    requires WellFormedField(f) && OkValue(f.kind, v)
    requires f.kind.Sub? ==> Whole(f.kind.schema, v.m)
    requires |ValueBytes(f.kind, v)| < TWO_31
    ensures ReadValue(f.kind, ValueBytes(f.kind, v) + t) == Some(Read(v, t))
    decreases f, 0
  {
    match f.kind
    case Bytes => BlockRoundTrip(v.b, t);
    case Sub(s) =>
      BlockRoundTrip(Serialize(s, v.m), t);
      RoundTrip(s, v.m);
    case _ => NumRoundTrip(f.kind, v, t);
  }

  /** The record of a value is read as that value of its field. */
  lemma {:induction false} OneValueRead(s: Schema, i: nat, v: Value, t: bytes)
    requires WellFormed(s) && i < |s| && OkValue(s[i].kind, v)
    requires s[i].kind.Sub? ==> Whole(s[i].kind.schema, v.m)
    requires |ValueBytes(s[i].kind, v)| < TWO_31
    ensures 0 < FieldTag(s[i]) < TWO_32 && FieldTag(s[i]) % 8 != 4
    ensures ReadRecord(s, FieldTag(s[i]), ValueBytes(s[i].kind, v) + t) == Some(Read(Known(i, v), t))
    decreases s[i], 1
  {
    FieldOfOwnTag(s, i, 0);
    ValueRoundTrip(s[i], v, t);
  }

  lemma {:induction false} OneValueRoundTrip(s: Schema, i: nat, v: Value, t: bytes, m: Msg)
    requires WellFormed(s) && i < |s| == |m.fields| && OkValue(s[i].kind, v)
    requires s[i].kind.Sub? ==> Whole(s[i].kind.schema, v.m)
    requires |ValueBytes(s[i].kind, v)| < TWO_31
    ensures Plain(s, Varint(FieldTag(s[i])) + ValueBytes(s[i].kind, v) + t, m)
         == Plain(s, t, Put(s, m, i, [v]))
    decreases s[i], 2
  {
    var f := s[i];
    OneValueRead(s, i, v, t);
    SeqAssoc(Varint(FieldTag(f)), ValueBytes(f.kind, v), t);
    TagRoundTrip(FieldTag(f), ValueBytes(f.kind, v) + t);
  }

  lemma {:induction false} ValuesRoundTrip(s: Schema, i: nat, vs: seq<Value>, t: bytes, m: Msg)
    requires WellFormed(s) && i < |s| == |m.fields| && OkValues(s[i], vs)
    requires WholeValues(s[i], vs)
    requires |ValuesBytes(s[i], vs)| < TWO_31
    ensures Plain(s, ValuesBytes(s[i], vs) + t, m) == Plain(s, t, Put(s, m, i, vs))
    decreases s[i], |vs| + 3
  {
    var f := s[i];
    if vs == [] {
      assert m.fields[i] + [] == m.fields[i];
      assert Put(s, m, i, vs).fields == m.fields;
      assert ValuesBytes(f, vs) + t == t;
    } else {
      var tail := ValuesBytes(f, vs[1..]) + t;
      SeqAssoc(Varint(FieldTag(f)) + ValueBytes(f.kind, vs[0]), ValuesBytes(f, vs[1..]), t);
      OneValueRoundTrip(s, i, vs[0], tail, m);
      ValuesRoundTrip(s, i, vs[1..], t, Put(s, m, i, [vs[0]]));
      PutTwice(s, m, i, vs);
    }
  }

  lemma PutTwice(s: Schema, m: Msg, i: nat, vs: seq<Value>)
    requires i < |s| == |m.fields| && OkValues(s[i], vs) && vs != []
    ensures Put(s, Put(s, m, i, [vs[0]]), i, vs[1..]) == Put(s, m, i, vs)
  {
    assert [vs[0]] + vs[1..] == vs;
    SeqAssoc(m.fields[i], [vs[0]], vs[1..]);
    assert Combine(s[i], Combine(s[i], m.fields[i], [vs[0]]), vs[1..]) == Combine(s[i], m.fields[i], vs);
    assert Put(s, Put(s, m, i, [vs[0]]), i, vs[1..]).fields == Put(s, m, i, vs).fields;
  }

  /** The message with the fields from `i` on taken from `fs` as well. */
  function PutFrom(s: Schema, m: Msg, fs: seq<seq<Value>>, i: nat): (r: Msg)
    requires i <= |s| == |m.fields| == |fs|
    ensures |r.fields| == |s|
    decreases |s| - i
  {
    if i == |s| then m else PutFrom(s, Put(s, m, i, fs[i]), fs, i + 1)
  }

  lemma {:induction false} FieldsRoundTrip(s: Schema, x: Msg, i: nat, t: bytes, m: Msg)
    requires WellFormed(s) && Typed(s, x) && Whole(s, x) && i <= |s| == |m.fields|
    requires |FieldsBytes(s, x.fields, i)| < TWO_31
    ensures Plain(s, FieldsBytes(s, x.fields, i) + t, m) == Plain(s, t, PutFrom(s, m, x.fields, i))
    decreases s, |s| - i
  {
    if i == |s| {
      assert FieldsBytes(s, x.fields, i) + t == t;
    } else {
      SeqAssoc(ValuesBytes(s[i], x.fields[i]), FieldsBytes(s, x.fields, i + 1), t);
      ValuesRoundTrip(s, i, x.fields[i], FieldsBytes(s, x.fields, i + 1) + t, m);
      FieldsRoundTrip(s, x, i + 1, t, Put(s, m, i, x.fields[i]));
    }
  }

  lemma {:induction false} ForeignRoundTrip(s: Schema, rs: seq<Rec>, m: Msg)
    requires WellFormed(s) && |m.fields| == |s| && ForeignRecs(s, rs)
    ensures Plain(s, RecsBytes(rs), m) == Success(m.(unknown := m.unknown + RecsBytes(rs)), true)
    decreases rs
  {
    if rs == [] {
      assert m.unknown + [] == m.unknown;
    } else {
      var t := RecsBytes(rs[1..]);
      ForeignRecRead(s, rs[0], t);
      ForeignRoundTrip(s, rs[1..], m.(unknown := m.unknown + RecBytes(rs[0])));
      SeqAssoc(m.unknown, RecBytes(rs[0]), t);
    }
  }

  lemma {:induction false} ForeignRecRead(s: Schema, r: Rec, t: bytes)
    requires WellFormed(s) && ForeignRec(s, r)
    ensures var tag := ReadTag(RecBytes(r) + t);
            && tag.Some? && tag.value.value == RecTag(r) && RecTag(r) % 8 != 4
            && ReadRecord(s, RecTag(r), tag.value.rest) == Some(Read(Foreign(r), t))
  {
    RecTagRoundTrip(r, t);
    RecRoundTrip(r, t);
    var i := FieldOf(s, RecTag(r));
    if i < |s| {
      assert r.num == s[i].num;
      Varint64RoundTrip(r.payload.n, t);
    }
  }

  lemma {:induction false} PutFromEmpty(s: Schema, m: Msg, fs: seq<seq<Value>>, i: nat)
    requires i <= |s| == |m.fields| == |fs|
    requires forall j :: i <= j < |s| ==> m.fields[j] == []
    ensures PutFrom(s, m, fs, i) == m.(fields := m.fields[..i] + fs[i..])
    decreases |s| - i
  {
    if i == |s| {
      assert m.fields[..i] + fs[i..] == m.fields;
    } else {
      var n := Put(s, m, i, fs[i]);
      PutFromEmpty(s, n, fs, i + 1);
      assert Combine(s[i], m.fields[i], fs[i]) == fs[i];
      assert n.fields[..i + 1] + fs[i + 1..] == m.fields[..i] + fs[i..];
    }
  }

  /** Reading back what was written gives back the message: has-bits, values, the order of nested
      messages and the unknown bytes. */
  lemma {:induction false} RoundTrip(s: Schema, m: Msg)
    requires WellFormed(s) && Typed(s, m) && Whole(s, m)
    requires |Serialize(s, m)| < TWO_31
    ensures Plain(s, Serialize(s, m), Empty(s)) == Success(m, true)
    decreases s, |s| + 1
  {
    var e := Empty(s);
    FieldsRoundTrip(s, m, 0, m.unknown, e);
    PutFromEmpty(s, e, m.fields, 0);
    assert e.fields[..0] + m.fields[0..] == m.fields;
    var rs: seq<Rec> :| ForeignRecs(s, rs) && m.unknown == RecsBytes(rs);
    ForeignRoundTrip(s, rs, Msg(m.fields, []));
    assert [] + m.unknown == m.unknown;
  }
}
