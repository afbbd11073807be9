/**
 When writing a parsed message and parsing it again gives the message back.

 A bad enum that the jumps reach is filed under the tag of another field, so what is written is not what
 was read: the copied record is taken for a value of that field the next time, or it cannot be read at
 all. Either way its bytes are no longer among the unknown ones, so the message cannot be the same. For
 every other accepted input it is.
 */
module NormalForm {
  import opened Wire
  import opened Message
  import opened FastParser
  import opened Canonical

  /* ---------- Copied records are never longer than what was read ---------- */

  lemma {:induction false} VarintMonotone(n: nat, m: nat)
    requires n <= m
    ensures |Varint(n)| <= |Varint(m)|
  {
    if n >= 128 {
      VarintMonotone(n / 128, m / 128);
    }
  }

  lemma {:induction false} VarintIsShortest(b: bytes, used: nat)
    requires ReadVarint(b, used).Some?
    ensures |Varint(ReadVarint(b, used).value.value)| + |ReadVarint(b, used).value.rest| <= |b|
    decreases |b|
  {
    if b[0] >= 128 {
      VarintIsShortest(b[1..], used + 1);
      var r := ReadVarint(b[1..], used + 1).value.value;
      assert (b[0] - 128 + 128 * r) / 128 == r;
    }
  }

  lemma CutVarintIsShortest(b: bytes, modulus: nat)
    requires ReadVarint(b).Some? && modulus > 0
    ensures |Varint(ReadVarint(b).value.value % modulus)| + |ReadVarint(b).value.rest| <= |b|
  {
    VarintIsShortest(b, 0);
    var n := ReadVarint(b).value.value;
    VarintMonotone(n % modulus, n);
  }

  lemma BlockIsShortest(b: bytes)
    requires ReadBlock(b).Some?
    ensures |Block(ReadBlock(b).value.value)| + |ReadBlock(b).value.rest| <= |b|
  {
    CutVarintIsShortest(b, TWO_32);
  }

  lemma {:induction false} SkipShrinks(tag: nat, b: bytes)
    requires 0 < tag < TWO_32 && SkipField(tag, b).Some?
    ensures var r := SkipField(tag, b).value;
            |PayloadBytes(r.value.num, r.value.payload)| + |r.rest| <= |b|
    decreases |b|, 1
  {
    match tag % 8
    case 0 => CutVarintIsShortest(b, TWO_64);
    case 2 => BlockIsShortest(b);
    case 3 => GroupShrinks(tag / 8, b);
    case _ =>
  }

  lemma {:induction false} GroupShrinks(num: nat, b: bytes)
    requires num < 0x2000_0000 && SkipGroup(num, b).Some?
    ensures var r := SkipGroup(num, b).value;
            |RecsBytes(r.value)| + |Varint(MakeTag(num, 4))| + |r.rest| <= |b|
    decreases |b|, 0
  {
    CutVarintIsShortest(b, TWO_32);
    var t := ReadTag(b).value;
    if t.value % 8 != 4 {
      SkipShrinks(t.value, t.rest);
      var f := SkipField(t.value, t.rest).value;
      GroupShrinks(num, f.rest);
      var g := SkipGroup(num, f.rest).value;
      assert ([f.value] + g.value)[1..] == g.value;
    }
  }

  lemma RecordShrinks(s: Schema, tag: nat, b: bytes)
    requires 0 < tag < TWO_32 && ReadRecord(s, tag, b).Some? && ReadRecord(s, tag, b).value.value.Foreign?
    requires WellFormed(s)
    ensures var r := ReadRecord(s, tag, b).value;
            |RecBytes(r.value.r)| + |r.rest| <= |Varint(tag)| + |b|
  {
    var i := FieldOf(s, tag);
    if i < |s| {
      CutVarintIsShortest(b, TWO_32);
      var n := ReadVarint(b).value.value;
      assert AsInt32(n) % TWO_32 == n % TWO_32;
      assert RecTag(ReadRecord(s, tag, b).value.value.r) == tag;
    } else {
      SkipShrinks(tag, b);
    }
  }

  /** Reading adds no more unknown bytes than it reads. */
  lemma {:induction false} UnknownGrows(s: Schema, b: bytes, m: Msg)
    requires WellFormed(s) && |m.fields| == |s| && Plain(s, b, m).Success?
    ensures |Plain(s, b, m).m.unknown| <= |m.unknown| + |b|
    decreases |b|
  {
    if b != [] && ReadTag(b).Some? && ReadTag(b).value.value % 8 != 4 {
      CutVarintIsShortest(b, TWO_32);
      var t := ReadTag(b).value;
      var r := ReadRecord(s, t.value, t.rest).value;
      if r.value.Foreign? {
        RecordShrinks(s, t.value, t.rest);
      }
      UnknownGrows(s, r.rest, Apply(s, m, r.value));
    }
  }

  /* ---------- Records filed under the tag of another field ---------- */

  /** Unknown bytes in which, behind whole foreign records, there stands a tag that the reader takes
      for that of a field which is not the enum. */
  ghost predicate Stale(s: Schema, u: bytes)
  {
    exists rs: seq<Rec>, first: nat, tail: bytes :: StaleAt(s, u, rs, first, tail)
  }

  predicate StaleAt(s: Schema, u: bytes, rs: seq<Rec>, first: nat, tail: bytes)
  {
    && ForeignRecs(s, rs) && first < |s| && !s[first].kind.Login? && FieldTag(s[first]) < 128
    && u == RecsBytes(rs) + ([FieldTag(s[first])] + tail)
  }

  lemma StaleStays(s: Schema, u: bytes, w: bytes)
    requires Stale(s, u) && u <= w
    ensures Stale(s, w)
  {
    var rs: seq<Rec>, first: nat, tail: bytes :| StaleAt(s, u, rs, first, tail);
    var more := w[|u|..];
    assert w == u + more;
    SeqAssoc(RecsBytes(rs), [FieldTag(s[first])] + tail, more);
    SeqAssoc([FieldTag(s[first])], tail, more);
    assert StaleAt(s, w, rs, first, tail + more);
  }

  lemma StaleFiled(s: Schema, m: Msg, i: nat, first: nat, v: Value)
    requires WellFormed(s) && first < i < |s| == |m.fields| && WholeForeign(s, m.unknown)
    requires BadEnum(s[i].kind, v)
    ensures Stale(s, FastFile(s, m, i, FieldTag(s[first]), v).unknown)
  {
    TagIsOneByte(s, first);
    var rs: seq<Rec> :| ForeignRecs(s, rs) && m.unknown == RecsBytes(rs);
    assert StaleAt(s, FastFile(s, m, i, FieldTag(s[first]), v).unknown, rs, first, Varint(v.v % TWO_32));
  }

  /** A value filed under its own tag keeps the unknown bytes whole. */
  lemma OwnTagWhole(s: Schema, m: Msg, i: nat, v: Value)
    requires WellFormed(s) && i < |s| == |m.fields| && WholeForeign(s, m.unknown)
    requires s[i].kind.Login? ==> v.Num? && AsInt32(v.v % TWO_32) == v.v
    ensures WholeForeign(s, FastFile(s, m, i, FieldTag(s[i]), v).unknown)
  {
    OwnTagFiles(s, m, i, v);
    if BadEnum(s[i].kind, v) {
      var r := Rec(s[i].num, VarintP(v.v % TWO_32));
      FieldOfOwnTag(s, i, 0);
      assert RecTag(r) == FieldTag(s[i]);
      WholeForeignGrows(s, m.unknown, r);
    }
  }

  lemma SkippedWhole(s: Schema, tag: nat, b: bytes, m: Msg)
    requires 0 < tag < TWO_32 && FieldOf(s, tag) == |s| == |m.fields| && SkipField(tag, b).Some?
    requires WholeForeign(s, m.unknown)
    ensures WholeForeign(s, Apply(s, m, Foreign(SkipField(tag, b).value.value)).unknown)
  {
    WholeForeignGrows(s, m.unknown, SkipField(tag, b).value.value);
  }

  /** A reader that jumps to a bad enum leaves a stale record behind. */
  lemma {:induction false} FromStales(s: Schema, b: bytes, m: Msg, prev: Option<nat>)
    requires WellFormed(s) && |m.fields| == |s| && WholeForeign(s, m.unknown)
    requires JumpsToBadEnum(s, b, prev) && FastFrom(s, b, m).Success?
    requires prev.Some? ==> prev.value < |s| && JumpTarget(s, prev.value, b) == |s|
    ensures Stale(s, FastFrom(s, b, m).m.unknown)
    decreases |b|, 1
  {
    var t := ReadTag(b).value;
    var i := FieldOf(s, t.value);
    if i < |s| {
      FieldStales(s, i, i, t.rest, m);
    } else {
      var r := SkipField(t.value, t.rest).value;
      SkippedWhole(s, t.value, t.rest, m);
      FromStales(s, r.rest, Apply(s, m, Foreign(r.value)), None);
    }
  }

  lemma {:induction false} FieldStales(s: Schema, i: nat, first: nat, b: bytes, m: Msg)
    requires WellFormed(s) && first <= i < |s| == |m.fields| && WholeForeign(s, m.unknown)
    requires FastField(s, i, FieldTag(s[first]), b, m).Success? && ReadValue(s[i].kind, b).Some?
    requires || (BadValueAt(s[i].kind, b) && first < i)
             || JumpsToBadEnum(s, ReadValue(s[i].kind, b).value.rest, Some(i))
    ensures Stale(s, FastField(s, i, FieldTag(s[first]), b, m).m.unknown)
    decreases |b|, 3
  {
    var tag := FieldTag(s[first]);
    TagIsOneByte(s, first);
    FastValueIsReadValue(s[i], b);
    ReadValueOk(s[i], b);
    var v := ReadValue(s[i].kind, b).value;
    var n := FastFile(s, m, i, tag, v.value);
    if BadEnum(s[i].kind, v.value) && first < i {
      StaleFiled(s, m, i, first, v.value);
      RestShape(s, i, tag, v.rest, n, n);
      StaleStays(s, n.unknown, FastRest(s, i, tag, v.rest, n).m.unknown);
    } else {
      OwnTagWhole(s, m, i, v.value);
      var j := JumpTarget(s, i, v.rest);
      if j < |s| {
        JumpReadsTag(s, i, v.rest);
        FastValueIsReadValue(s[j], v.rest[1..]);
        FieldStales(s, j, first, v.rest[1..], n);
      } else {
        FromStales(s, v.rest, n, Some(i));
      }
    }
  }

  /* ---------- Reading them again ---------- */

  /** Behind foreign records, which are copied as they are, reading goes on where they end. */
  lemma {:induction false} ForeignPrefix(s: Schema, rs: seq<Rec>, t: bytes, m: Msg)
    requires WellFormed(s) && |m.fields| == |s| && ForeignRecs(s, rs)
    ensures Plain(s, RecsBytes(rs) + t, m) == Plain(s, t, m.(unknown := m.unknown + RecsBytes(rs)))
    decreases |rs|
  {
    if rs == [] {
      assert RecsBytes(rs) + t == t && m.unknown + [] == m.unknown;
    } else {
      var tail := RecsBytes(rs[1..]) + t;
      SeqAssoc(RecBytes(rs[0]), RecsBytes(rs[1..]), t);
      ForeignRecRead(s, rs[0], tail);
      ForeignPrefix(s, rs[1..], t, m.(unknown := m.unknown + RecBytes(rs[0])));
      SeqAssoc(m.unknown, RecBytes(rs[0]), RecsBytes(rs[1..]));
    }
  }

  /** A record that starts with the tag of a field adds nothing to the unknown bytes. */
  lemma FieldCopiesNothing(s: Schema, i: nat, b: bytes, m: Msg)
    requires WellFormed(s) && i < |s| == |m.fields| && !s[i].kind.Login? && NextIs(b, FieldTag(s[i]))
    ensures Plain(s, b, m).Success? ==> |Plain(s, b, m).m.unknown| < |m.unknown| + |b|
  {
    TagIsOneByte(s, i);
    OneByteTag(b, FieldTag(s[i]));
    var v := ReadValue(s[i].kind, b[1..]);
    assert ReadRecord(s, FieldTag(s[i]), b[1..])
        == if v.Some? then Some(Read(Known(i, v.value.value), v.value.rest)) else None;
    if v.Some? && Plain(s, b, m).Success? {
      UnknownGrows(s, v.value.rest, Apply(s, m, Known(i, v.value.value)));
    }
  }

  /** A stale record is read as a value of the field, or not at all: fewer bytes are copied. */
  lemma StaleConsumed(s: Schema, u: bytes, m: Msg)
    requires WellFormed(s) && |m.fields| == |s| && m.unknown == [] && Stale(s, u)
    ensures Plain(s, u, m).Success? ==> |Plain(s, u, m).m.unknown| < |u|
  {
    var rs: seq<Rec>, first: nat, tail: bytes :| StaleAt(s, u, rs, first, tail);
    var rest: bytes := [FieldTag(s[first])] + tail;
    ForeignPrefix(s, rs, rest, m);
    FieldCopiesNothing(s, first, rest, m.(unknown := m.unknown + RecsBytes(rs)));
  }

  /** A message with a stale record does not come back when it is written and read. */
  lemma StaleIsLost(s: Schema, m: Msg)
    requires WellFormed(s) && Typed(s, m) && Stale(s, m.unknown)
    requires Whole(s, m.(unknown := [])) && |Serialize(s, m)| < TWO_31
    ensures ParseFromString(s, Serialize(s, m)) != Some(m)
  {
    var clean := m.(unknown := []);
    assert FieldsBytes(s, clean.fields, 0) == FieldsBytes(s, m.fields, 0);
    FieldsRoundTrip(s, clean, 0, m.unknown, Empty(s));
    var e := PutFrom(s, Empty(s), m.fields, 0);
    PutFromEmpty(s, Empty(s), m.fields, 0);
    StaleConsumed(s, m.unknown, e);
    FromShape(s, Serialize(s, m), Empty(s), Empty(s));
  }

  lemma CleanWhole(s: Schema, m: Msg, n: Msg)
    requires Typed(s, m) && Whole(s, m) && n.fields == m.fields && n.unknown == []
    ensures Typed(s, n) && Whole(s, n)
  {
    assert ForeignRecs(s, []) && RecsBytes([]) == n.unknown;
  }

  /** An accepted input is in normal form, that is, its message comes back when it has been written and
      is parsed again, if and only if no jump of the parser reaches a bad enum. */
  lemma ParseIsCanonical(s: Schema, b: bytes)
    requires WellFormed(s) && ParseFromString(s, b).Some?
    requires |Serialize(s, ParseFromString(s, b).value)| < TWO_31
    ensures ParseFromString(s, Serialize(s, ParseFromString(s, b).value)) == ParseFromString(s, b)
       <==> !JumpsToBadEnum(s, b, None)
  {
    var m := ParseFromString(s, b).value;
    EmptyOk(s);
    FastRefinesPlain(s, b);
    PlainOk(s, b, Empty(s));
    if JumpsToBadEnum(s, b, None) {
      FromStales(s, b, Empty(s), None);
      CleanWhole(s, Plain(s, b, Empty(s)).m, m.(unknown := []));
      StaleIsLost(s, m);
    } else {
      ParseSerialize(s, m);
    }
  }
}
