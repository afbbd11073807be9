/**
 The one case in which the jumps of the parsing loop matter, on concrete bytes: inputs that
 OpenSessionRequest accepts and, once it has written them out again, refuses or reads differently; and
 two inputs that are not read as their concatenation is.
 */
module JumpExample {
  import opened Wire
  import opened Message
  import opened FastParser
  import opened Canonical
  import opened ParserConcat
  import opened Schemas

  /** One round of the loops at a record with a one-byte tag. */
  lemma KnownStep(s: Schema, i: nat, b: bytes, m: Msg)
    requires WellFormed(s) && i < |s| == |m.fields| && NextIs(b, FieldTag(s[i]))
    requires ReadValue(s[i].kind, b[1..]).Some?
    ensures var r := ReadValue(s[i].kind, b[1..]).value;
            && Plain(s, b, m) == Plain(s, r.rest, Apply(s, m, FileValue(s, i, r.value)))
            && FastFrom(s, b, m) == FastField(s, i, FieldTag(s[i]), b[1..], m)
  {
    TagIsOneByte(s, i);
    OneByteTag(b, FieldTag(s[i]));
  }

  lemma EmptyBytesField(f: Field, b: bytes)
    requires f.kind.Bytes? && NextIs(b, 0)
    ensures FastValue(f.kind, b) == ReadValue(f.kind, b) == Some(Read(Data([]), b[1..]))
  {
    assert ReadVarint(b) == Some(Read(0, b[1..]));
  }

  lemma SmallNumField(f: Field, b: bytes, v: nat)
    requires (f.kind.Login? || f.kind.Bool?) && NextIs(b, v) && v < 128 && (f.kind.Bool? ==> v <= 1)
    ensures FastValue(f.kind, b) == ReadValue(f.kind, b) == Some(Read(Num(v), b[1..]))
  {
  }

  /** A jump from behind field `i` to field `i + 1`. */
  lemma JumpStep(s: Schema, i: nat, tag: nat, b: bytes, m: Msg)
    requires WellFormed(s) && i + 1 < |s| == |m.fields| && FastValue(s[i].kind, b).Some?
    requires NextIs(FastValue(s[i].kind, b).value.rest, FieldTag(s[i + 1]))
    ensures var r := FastValue(s[i].kind, b).value;
            FastField(s, i, tag, b, m)
            == FastField(s, i + 1, tag, r.rest[1..], FastFile(s, m, i, tag, r.value))
  {
  }

  /** No jump from behind field `i`. */
  lemma LoopStep(s: Schema, i: nat, tag: nat, b: bytes, m: Msg)
    requires WellFormed(s) && i < |s| == |m.fields| && FastValue(s[i].kind, b).Some?
    requires JumpTarget(s, i, FastValue(s[i].kind, b).value.rest) == |s|
    ensures var r := FastValue(s[i].kind, b).value;
            FastField(s, i, tag, b, m) == FastFrom(s, r.rest, FastFile(s, m, i, tag, r.value))
  {
  }

  /** The fields of OpenSessionRequest, by what the input below needs to know of them. */
  predicate OpenShape(s: Schema)
  {
    && WellFormed(s) && |s| == 5
    && s[0].kind.Bytes? && FieldTag(s[0]) == 10
    && s[1].kind.Bool? && FieldTag(s[1]) == 16
    && s[2].kind.Bytes? && FieldTag(s[2]) == 26
    && s[3].kind.Login? && FieldTag(s[3]) == 32
    && s[4].kind.Bytes? && FieldTag(s[4]) == 42
  }

  lemma OpenHasShape()
    ensures OpenShape(OPEN_SESSION_REQUEST)
  {
    OpenTablesFit();
  }

  /** The bad value with its own tag before it, as the simple loop reads it ... */
  lemma BadValuePlain(s: Schema, b: bytes, n: Msg)
    requires OpenShape(s) && NextIs(b, 32) && NextIs(b[1..], 3) && |b| == 2 && |n.fields| == |s|
    ensures Plain(s, b, n) == Success(n.(unknown := n.unknown + [32, 3]), true)
  {
    SmallNumField(s[3], b[1..], 3);
    KnownStep(s, 3, b, n);
    assert b[1..][1..] == [];
    OwnTagFiles(s, n, 3, Num(3));
    BadValueFiled(s, 32, n);
    PlainEnds(s, n.(unknown := n.unknown + [32, 3]));
  }

  lemma PlainEnds(s: Schema, m: Msg)
    requires |m.fields| == |s|
    ensures Plain(s, [], m) == Success(m, true)
  {
  }

  lemma BadValueFiled(s: Schema, tag: nat, n: Msg)
    requires OpenShape(s) && tag < 128 && |n.fields| == |s|
    ensures FastFile(s, n, 3, tag, Num(3)) == n.(unknown := n.unknown + [tag, 3])
  {
    TwoBytes(tag);
  }

  /** ... and without it, as the real loop does, having jumped. */
  lemma BadValueFast(s: Schema, b: bytes, tag: nat, n: Msg)
    requires OpenShape(s) && NextIs(b, 3) && |b| == 1 && tag < 128 && |n.fields| == |s|
    ensures FastField(s, 3, tag, b, n) == Success(n.(unknown := n.unknown + [tag, 3]), true)
  {
    assert b[1..] == [];
    SmallNumField(s[3], b, 3);
    BadValueFiled(s, tag, n);
    LoopStep(s, 3, tag, b, n);
  }

  /** An empty tci, in both loops. */
  lemma TciExample(s: Schema, b: bytes, m: Msg)
    requires OpenShape(s) && NextIs(b, 26) && NextIs(b[1..], 0) && NextIs(b[2..], 32) && |m.fields| == |s|
    ensures var n := Put(s, m, 2, [Data([])]);
            && Plain(s, b, m) == Plain(s, b[2..], n)
            && FastFrom(s, b, m) == FastField(s, 3, 26, b[3..], n)
  {
    assert b[1..][1..] == b[2..] && b[2..][1..] == b[3..];
    EmptyBytesField(s[2], b[1..]);
    KnownStep(s, 2, b, m);
    JumpStep(s, 2, 26, b[1..], m);
  }

  /** The simple loop keeps the bad value 3 as the record (32, 3) of field 4; the real one, having
      jumped from the tci, files it under the tag of tci, 26. */
  lemma StaleTagExample(s: Schema, b: bytes, m: Msg)
    requires OpenShape(s) && b == [26, 0, 32, 3] && |m.fields| == |s|
    ensures var n := Put(s, m, 2, [Data([])]);
            && Plain(s, b, m) == Success(n.(unknown := m.unknown + [32, 3]), true)
            && FastFrom(s, b, m) == Success(n.(unknown := m.unknown + [26, 3]), true)
  {
    var n := Put(s, m, 2, [Data([])]);
    assert b[1..] == [0, 32, 3] && b[2..] == [32, 3] && b[3..] == [3] && b[2..][1..] == [3];
    TciExample(s, b, m);
    BadValuePlain(s, b[2..], n);
    BadValueFast(s, b[3..], 26, n);
  }

  /** A bad enum of value 3 as it is filed under a tag. */
  lemma TwoBytes(tag: nat)
    requires tag < 128
    ensures Varint(tag) + Varint(3) == [tag, 3]
  {
  }

  /** The required fields, one behind the other, take the real loop to the rest of the input. */
  lemma UuidExample(s: Schema, b: bytes, m: Msg)
    requires OpenShape(s) && |m.fields| == 5
    requires |b| > 4 && b[0] == 10 && b[1] == 0 && b[2] == 16 && b[3] == 1 && b[4] == 32
    ensures FastFrom(s, b, m) == FastFrom(s, b[4..], m.(fields := m.fields[0 := [Data([])]][1 := [Num(1)]]))
  {
    var m1 := FastFile(s, m, 0, 10, Data([]));
    assert b[1..][1..][1..] == b[3..] && b[3..][1..] == b[4..];
    EmptyBytesField(s[0], b[1..]);
    SmallNumField(s[1], b[3..], 1);
    KnownStep(s, 0, b, m);
    JumpStep(s, 0, 10, b[1..], m);
    LoopStep(s, 1, 10, b[3..], m1);
  }

  lemma LoginExample(s: Schema, b: bytes, m: Msg)
    requires OpenShape(s) && |m.fields| == 5
    requires |b| > 4 && b[0] == 32 && b[1] == 0 && b[2] == 42 && b[3] == 0
    ensures FastFrom(s, b, m) == FastFrom(s, b[4..], m.(fields := m.fields[3 := [Num(0)]][4 := [Data([])]]))
  {
    var m1 := FastFile(s, m, 3, 32, Num(0));
    assert b[1..][1..][1..] == b[3..] && b[3..][1..] == b[4..];
    SmallNumField(s[3], b[1..], 0);
    EmptyBytesField(s[4], b[3..]);
    KnownStep(s, 3, b, m);
    JumpStep(s, 3, 32, b[1..], m);
    LoopStep(s, 4, 32, b[3..], m1);
  }

  /** An empty uuid, is_gp_uuid, login_type PUBLIC, empty login_data; then an empty tci and, right
      behind it, a second login_type whose value 3 is not an enumerator. */
  const JUMPING_INPUT: bytes := [10, 0, 16, 1, 32, 0, 42, 0, 26, 0, 32, 3]

  /** The message `JUMPING_INPUT` is read into. */
  predicate JumpedMessage(m: Msg)
  {
    && |m.fields| == 5 && m.unknown == [26, 3]
    && m.fields[0] == [Data([])] && m.fields[1] == [Num(1)] && m.fields[2] == [Data([])]
    && m.fields[3] == [Num(0)] && m.fields[4] == [Data([])]
  }

  lemma JumpingInputRead(s: Schema, b: bytes, m: Msg)
    requires OpenShape(s) && b == JUMPING_INPUT && JumpedMessage(m)
    ensures FastFrom(s, b, Empty(s)) == Success(m, true)
  {
    var m0 := Empty(s);
    UuidExample(s, b, m0);
    var m1 := m0.(fields := m0.fields[0 := [Data([])]][1 := [Num(1)]]);
    LoginExample(s, b[4..], m1);
    var rest := b[4..][4..];
    assert rest == [26, 0, 32, 3];
    var m2 := m1.(fields := m1.fields[3 := [Num(0)]][4 := [Data([])]]);
    StaleTagExample(s, rest, m2);
    assert Put(s, m2, 2, [Data([])]).fields == m.fields;
  }

  lemma WrittenBadEnumRefused(s: Schema, m: Msg)
    requires s == OPEN_SESSION_REQUEST && WellFormed(s) && Typed(s, m) && m.unknown == [26, 3]
    requires |FieldsBytes(s, m.fields, 0)| < TWO_31
    ensures ParseFromString(s, Serialize(s, m)) == None
  {
    FieldsReadBack(s, m);
    TruncatedBytes(s, m.unknown, m.(unknown := []));
    FastRefinesPlain(s, Serialize(s, m));
  }

  lemma TruncatedBytes(s: Schema, b: bytes, m: Msg)
    requires s == OPEN_SESSION_REQUEST && WellFormed(s) && b == [26, 3] && |m.fields| == |s|
    ensures Plain(s, b, m) == Failure
  {
    TagIsOneByte(s, 2);
    OneByteTag(b, 26);
    assert ReadVarint(b[1..]) == Some(Read(3, []));
    assert ReadValue(s[2].kind, b[1..]) == None;
    assert ReadRecord(s, 26, b[1..]) == None;
  }

  lemma ShortValue(k: Kind, v: Value)
    requires OkValue(k, v) && !k.Sub? && !k.SInt32?
    requires v == Data([]) || (v.Num? && 0 <= v.v < 128)
    ensures |ValueBytes(k, v)| == 1
  {
  }

  /** Fields with at most one value each, every value an empty string or a small number. */
  lemma {:induction false} ShortFields(s: Schema, m: Msg, i: nat)
    requires WellFormed(s) && Typed(s, m) && i <= |s|
    requires forall j :: 0 <= j < |s| ==> !s[j].kind.Sub? && !s[j].kind.SInt32?
    requires forall j :: 0 <= j < |s| && m.fields[j] != [] ==>
               m.fields[j][0] == Data([]) || (m.fields[j][0].Num? && 0 <= m.fields[j][0].v < 128)
    ensures |FieldsBytes(s, m.fields, i)| <= 2 * (|s| - i)
    decreases |s| - i
  {
    if i < |s| {
      ShortFields(s, m, i + 1);
      TagIsOneByte(s, i);
      if m.fields[i] != [] {
        assert ValuesBytes(s[i], m.fields[i][1..]) == [];
        assert OkValues(s[i], m.fields[i]);
        ShortValue(s[i].kind, m.fields[i][0]);
      }
    }
  }

  lemma JumpedMessageTyped(s: Schema, m: Msg)
    requires s == OPEN_SESSION_REQUEST && JumpedMessage(m)
    ensures Typed(s, m) && IsInitialized(s, m)
  {
    forall i | 0 <= i < |s|
      ensures OkValues(s[i], m.fields[i]) && m.fields[i] != []
    {
      if i == 0 {
      } else if i == 1 {
      } else if i == 2 {
      } else if i == 3 {
      } else {
        assert i == 4;
      }
    }
  }

  lemma JumpedMessageShort(s: Schema, m: Msg)
    requires s == OPEN_SESSION_REQUEST && WellFormed(s) && JumpedMessage(m) && Typed(s, m)
    ensures |FieldsBytes(s, m.fields, 0)| < TWO_31
  {
    forall j | 0 <= j < |s|
      ensures m.fields[j][0] == Data([]) || (m.fields[j][0].Num? && 0 <= m.fields[j][0].v < 128)
    {
      assert j == 0 || j == 1 || j == 2 || j == 3 || j == 4;
    }
    ShortFields(s, m, 0);
  }

  /** The consequence: an input that is accepted, with all required fields present, and whose
      message is refused once it has been written out again. */
  lemma BadEnumBreaksNormalForm(s: Schema, b: bytes, m: Msg)
    requires s == OPEN_SESSION_REQUEST && b == JUMPING_INPUT && JumpedMessage(m)
    ensures WellFormed(s) && Typed(s, m)
    ensures ParseFromString(s, b) == Some(m)
    ensures ParseFromString(s, Serialize(s, m)) == None
  {
    OpenHasShape();
    JumpingInputRead(s, b, m);
    JumpedMessageTyped(s, m);
    JumpedMessageShort(s, m);
    WrittenBadEnumRefused(s, m);
  }

  /* ---------- Over the seam of two inputs ---------- */

  lemma TciAlone(s: Schema, a: bytes, m: Msg)
    requires OpenShape(s) && a == [26, 0] && |m.fields| == |s|
    ensures FastFrom(s, a, m) == Success(Put(s, m, 2, [Data([])]), true)
  {
    assert a[1..] == [0] && a[1..][1..] == [];
    EmptyBytesField(s[2], a[1..]);
    KnownStep(s, 2, a, m);
    LoopStep(s, 2, 26, a[1..], m);
  }

  lemma BadValueAlone(s: Schema, b: bytes, m: Msg)
    requires OpenShape(s) && b == [32, 3] && |m.fields| == |s|
    ensures FastFrom(s, b, m) == Success(m.(unknown := m.unknown + [32, 3]), true)
  {
    assert b[1..] == [3];
    SmallNumField(s[3], b[1..], 3);
    KnownStep(s, 3, b, m);
    BadValueFast(s, b[1..], 32, m);
  }

  /** A tci, and behind it a bad login_type: read as one input the value is filed under 26, read one
      after the other and merged it is filed under its own tag. */
  lemma SeamExample(s: Schema, a: bytes, b: bytes)
    requires s == OPEN_SESSION_REQUEST && a == [26, 0] && b == [32, 3]
    ensures FastFrom(s, a, Empty(s)).Success? && FastFrom(s, a, Empty(s)).atEnd && ChainsOverSeam(s, a, b)
    ensures FastFrom(s, a + b, Empty(s)).Success? && FastFrom(s, a + b, Empty(s)).m.unknown == [26, 3]
    ensures var p := MergeInto(s, FastFrom(s, a, Empty(s)).m, FastFrom(s, b, Empty(s)));
            p.Success? && p.m.unknown == [32, 3]
  {
    OpenHasShape();
    var e := Empty(s);
    TciAlone(s, a, e);
    BadValueAlone(s, b, e);
    assert a + b == [26, 0, 32, 3];
    StaleTagExample(s, a + b, e);
    assert [] + [26, 3] == [26, 3] && [] + [32, 3] == [32, 3];
    ParseConcatIsMerge(s, a, b);
  }

  /* ---------- A value that changes ---------- */

  /** An empty uuid, login_type PUBLIC, empty login_data; then is_gp_uuid false, an empty tci and a
      second login_type, 3, each right behind the one before. */
  const CHANGING_INPUT: bytes := [10, 0, 32, 0, 42, 0, 16, 0, 26, 0, 32, 3]

  /** The messages it is read into, and after it has been written and read again. */
  predicate ChangedMessage(m: Msg, gp: int, unknown: bytes)
  {
    && |m.fields| == 5 && m.unknown == unknown
    && m.fields[0] == [Data([])] && m.fields[1] == [Num(gp)] && m.fields[2] == [Data([])]
    && m.fields[3] == [Num(0)] && m.fields[4] == [Data([])]
  }

  lemma UuidAlone(s: Schema, b: bytes, m: Msg)
    requires OpenShape(s) && |m.fields| == 5 && |b| > 2 && b[0] == 10 && b[1] == 0 && b[2] == 32
    ensures FastFrom(s, b, m) == FastFrom(s, b[2..], m.(fields := m.fields[0 := [Data([])]]))
  {
    assert b[1..][1..] == b[2..];
    EmptyBytesField(s[0], b[1..]);
    KnownStep(s, 0, b, m);
    LoopStep(s, 0, 10, b[1..], m);
  }

  /** is_gp_uuid false, a jump to the empty tci, a jump to the bad login_type. */
  lemma TwoJumps(s: Schema, b: bytes, m: Msg)
    requires OpenShape(s) && |m.fields| == 5 && b == [16, 0, 26, 0, 32, 3] && m.unknown == []
    ensures FastFrom(s, b, m)
         == Success(m.(fields := m.fields[1 := [Num(0)]][2 := [Data([])]], unknown := [16, 3]), true)
  {
    var m1 := m.(fields := m.fields[1 := [Num(0)]]);
    var m2 := m1.(fields := m1.fields[2 := [Data([])]]);
    assert b[1..] == [0, 26, 0, 32, 3] && b[1..][1..] == [26, 0, 32, 3];
    SmallNumField(s[1], b[1..], 0);
    KnownStep(s, 1, b, m);
    JumpStep(s, 1, 16, b[1..], m);
    var c := b[1..][1..][1..];
    assert c == [0, 32, 3] && c[1..] == [32, 3] && c[1..][1..] == [3];
    EmptyBytesField(s[2], c);
    JumpStep(s, 2, 16, c, m1);
    BadValueFast(s, [3], 16, m2);
    assert m2.unknown + [16, 3] == [16, 3];
  }

  lemma ChangingInputRead(s: Schema, b: bytes, m: Msg)
    requires OpenShape(s) && b == CHANGING_INPUT && ChangedMessage(m, 0, [16, 3])
    ensures FastFrom(s, b, Empty(s)) == Success(m, true)
  {
    var e := Empty(s);
    UuidAlone(s, b, e);
    var m1 := e.(fields := e.fields[0 := [Data([])]]);
    LoginExample(s, b[2..], m1);
    var m2 := m1.(fields := m1.fields[3 := [Num(0)]][4 := [Data([])]]);
    assert b[2..][4..] == [16, 0, 26, 0, 32, 3];
    TwoJumps(s, b[2..][4..], m2);
    assert m2.fields[1 := [Num(0)]][2 := [Data([])]] == m.fields;
  }

  lemma ChangedTyped(s: Schema, m: Msg, gp: int)
    requires s == OPEN_SESSION_REQUEST && ChangedMessage(m, gp, m.unknown) && 0 <= gp <= 1
    ensures Typed(s, m) && IsInitialized(s, m)
    ensures WellFormed(s) ==> |FieldsBytes(s, m.fields, 0)| < TWO_31
  {
    forall i | 0 <= i < |s|
      ensures OkValues(s[i], m.fields[i]) && m.fields[i] != []
      ensures m.fields[i][0] == Data([]) || (m.fields[i][0].Num? && 0 <= m.fields[i][0].v < 128)
    {
      assert i == 0 || i == 1 || i == 2 || i == 3 || i == 4;
    }
    if WellFormed(s) {
      ShortFields(s, m, 0);
    }
  }

  /** The record [16, 3] is read as is_gp_uuid true. */
  lemma StaleGp(s: Schema, u: bytes, m: Msg)
    requires OpenShape(s) && u == [16, 3] && |m.fields| == |s|
    ensures Plain(s, u, m) == Success(Put(s, m, 1, [Num(1)]), true)
  {
    assert u[1..] == [3] && u[1..][1..] == [];
    assert ReadVarint(u[1..]) == Some(Read(3, []));
    KnownStep(s, 1, u, m);
  }

  /** The fields of a written message are read back, whatever the unknown bytes behind them. */
  lemma FieldsReadBack(s: Schema, m: Msg)
    requires s == OPEN_SESSION_REQUEST && WellFormed(s) && Typed(s, m)
    requires |FieldsBytes(s, m.fields, 0)| < TWO_31
    ensures Plain(s, Serialize(s, m), Empty(s)) == Plain(s, m.unknown, m.(unknown := []))
  {
    var clean := m.(unknown := []);
    assert Typed(s, clean) && FieldsBytes(s, clean.fields, 0) == FieldsBytes(s, m.fields, 0);
    assert ForeignRecs(s, []) && RecsBytes([]) == clean.unknown;
    assert Whole(s, clean);
    FieldsRoundTrip(s, clean, 0, m.unknown, Empty(s));
    PutFromEmpty(s, Empty(s), m.fields, 0);
    assert PutFrom(s, Empty(s), m.fields, 0) == clean;
  }

  /** An accepted input whose message, once written out, is read back as a different one: is_gp_uuid has
      turned from false to true. */
  lemma BadEnumChangesValue(s: Schema, b: bytes, m: Msg, n: Msg)
    requires s == OPEN_SESSION_REQUEST && b == CHANGING_INPUT
    requires ChangedMessage(m, 0, [16, 3]) && ChangedMessage(n, 1, [])
    ensures WellFormed(s) && Typed(s, m)
    ensures ParseFromString(s, b) == Some(m)
    ensures ParseFromString(s, Serialize(s, m)) == Some(n)
  {
    OpenHasShape();
    ChangingInputRead(s, b, m);
    ChangedTyped(s, m, 0);
    ChangedTyped(s, n, 1);
    FieldsReadBack(s, m);
    var e := m.(unknown := []);
    StaleGp(s, m.unknown, e);
    assert Put(s, e, 1, [Num(1)]).fields == n.fields;
    FromShape(s, Serialize(s, m), Empty(s), Empty(s));
  }
}
