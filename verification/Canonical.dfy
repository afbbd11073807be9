/**
 ParseFromString and SerializeToString as inverses.

 The simple reader puts every input it accepts into a normal form: writing the message and reading
 it again gives the same message, and copied foreign records come out whole. The reader with jumps
 gives every initialized message back that has been written; which inputs it puts into normal form is
 the subject of NormalForm.dfy.
 */
module Canonical {
  import opened Wire
  import opened Message
  import opened FastParser

  /* ---------- What a reader builds is well typed and whole ---------- */

  lemma DecodeOk(k: Kind, n: nat)
    requires !k.Bytes? && !k.Sub?
    ensures BadEnum(k, Num(Decode(k, n))) || OkValue(k, Num(Decode(k, n)))
    ensures k.Login? ==> AsInt32(Decode(k, n) % TWO_32) == Decode(k, n)
  {
  }

  lemma {:induction false} ReadValueOk(f: Field, b: bytes)
    requires WellFormedField(f) && ReadValue(f.kind, b).Some?
    ensures var v := ReadValue(f.kind, b).value.value;
            && (OkValue(f.kind, v) || BadEnum(f.kind, v))
            && (f.kind.Sub? ==> OkValue(f.kind, v) && Whole(f.kind.schema, v.m))
            && (f.kind.Login? ==> v.Num? && AsInt32(v.v % TWO_32) == v.v)
    decreases |b|, 1
  {
    if f.kind.Sub? {
      EmptyOk(f.kind.schema);
      PlainOk(f.kind.schema, ReadBlock(b).value.value, Empty(f.kind.schema));
    } else if !f.kind.Bytes? {
      DecodeOk(f.kind, ReadVarint(b).value.value);
    }
  }

  lemma EmptyOk(s: Schema)
    ensures Typed(s, Empty(s)) && Whole(s, Empty(s))
  {
    assert ForeignRecs(s, []) && RecsBytes([]) == [];
  }

  lemma WholeForeignGrows(s: Schema, u: bytes, r: Rec)
    requires WholeForeign(s, u) && ForeignRec(s, r)
    ensures WholeForeign(s, u + RecBytes(r))
  {
    var rs: seq<Rec> :| ForeignRecs(s, rs) && u == RecsBytes(rs);
    RecsBytesConcat(rs, [r]);
    assert RecsBytes([r]) == RecBytes(r) + RecsBytes([]);
    assert ForeignRecs(s, rs + [r]) && u + RecBytes(r) == RecsBytes(rs + [r]);
  }

  lemma PutOk(s: Schema, m: Msg, i: nat, v: Value)
    requires Typed(s, m) && Whole(s, m) && i < |s| && OkValue(s[i].kind, v)
    requires s[i].kind.Sub? ==> Whole(s[i].kind.schema, v.m)
    ensures Typed(s, Put(s, m, i, [v])) && Whole(s, Put(s, m, i, [v]))
  {
    var p := Put(s, m, i, [v]);
    assert OkValues(s[i], m.fields[i]) && WholeValues(s[i], m.fields[i]);
    assert OkValues(s[i], p.fields[i]) && WholeValues(s[i], p.fields[i]);
    forall j | 0 <= j < |s| && j != i
      ensures OkValues(s[j], p.fields[j]) && WholeValues(s[j], p.fields[j])
    {
      assert p.fields[j] == m.fields[j];
    }
  }

  lemma ApplyOk(s: Schema, m: Msg, i: nat, v: Value)
    requires WellFormed(s) && Typed(s, m) && Whole(s, m) && i < |s|
    requires OkValue(s[i].kind, v) || BadEnum(s[i].kind, v)
    requires s[i].kind.Sub? ==> OkValue(s[i].kind, v) && Whole(s[i].kind.schema, v.m)
    requires s[i].kind.Login? ==> v.Num? && AsInt32(v.v % TWO_32) == v.v
    ensures Typed(s, Apply(s, m, FileValue(s, i, v))) && Whole(s, Apply(s, m, FileValue(s, i, v)))
  {
    if BadEnum(s[i].kind, v) {
      var r := Rec(s[i].num, VarintP(v.v % TWO_32));
      FieldOfOwnTag(s, i, 0);
      assert RecTag(r) == FieldTag(s[i]);
      WholeForeignGrows(s, m.unknown, r);
    } else {
      PutOk(s, m, i, v);
    }
  }

  /** Every message a reader accepts is well typed and keeps foreign records whole. */
  lemma {:induction false} PlainOk(s: Schema, b: bytes, m: Msg)
    requires WellFormed(s) && Typed(s, m) && Whole(s, m) && Plain(s, b, m).Success?
    ensures Typed(s, Plain(s, b, m).m) && Whole(s, Plain(s, b, m).m)
    decreases |b|, 0
  {
    if b != [] && ReadTag(b).Some? && ReadTag(b).value.value % 8 != 4 {
      var t := ReadTag(b).value;
      var i := FieldOf(s, t.value);
      var r := ReadRecord(s, t.value, t.rest).value;
      if i < |s| {
        ReadValueOk(s[i], t.rest);
        ApplyOk(s, m, i, ReadValue(s[i].kind, t.rest).value.value);
      } else {
        WholeForeignGrows(s, m.unknown, r.value.r);
      }
      PlainOk(s, r.rest, Apply(s, m, r.value));
    }
  }

  lemma FastTyped(s: Schema, b: bytes)
    requires WellFormed(s) && FastFrom(s, b, Empty(s)).Success?
    ensures Typed(s, FastFrom(s, b, Empty(s)).m)
  {
    EmptyOk(s);
    FastRefinesPlain(s, b);
    PlainOk(s, b, Empty(s));
    assert Typed(s, Plain(s, b, Empty(s)).m);
  }

  /** ParseFromString: clear, merge from the stream, require every required field and the end of
      the input. */
  function ParseFromString(s: Schema, b: bytes): (r: Option<Msg>)
    requires WellFormed(s)
    ensures r.Some? ==> Typed(s, r.value) && IsInitialized(s, r.value)
  {
    var p := FastFrom(s, b, Empty(s));
    if p.Failure? || !p.atEnd then None
    else
      FastTyped(s, b);
      if IsInitialized(s, p.m) then Some(p.m) else None
  }

  /** Normal form: what the simple reader accepts, it accepts again once written out, and builds the
      same message. */
  lemma PlainIsCanonical(s: Schema, b: bytes)
    requires WellFormed(s) && Plain(s, b, Empty(s)).Success?
    ensures var m := Plain(s, b, Empty(s)).m;
            && Typed(s, m)
            && (|Serialize(s, m)| < TWO_31 ==> Plain(s, Serialize(s, m), Empty(s)) == Success(m, true))
  {
    EmptyOk(s);
    PlainOk(s, b, Empty(s));
    var m := Plain(s, b, Empty(s)).m;
    if |Serialize(s, m)| < TWO_31 {
      RoundTrip(s, m);
    }
  }

  /* ---------- The reader with jumps on written messages ---------- */

  /** The last field with a value among those before `i`, or what came before. */
  function LastField(s: Schema, m: Msg, i: nat): (r: Option<nat>)
    requires i <= |s| == |m.fields|
    ensures r.Some? ==> r.value < i && m.fields[r.value] != []
    ensures forall j :: 0 <= j < i && m.fields[j] != [] ==> r.Some? && j <= r.value
    decreases i
  {
    if i == 0 then None
    else if m.fields[i - 1] != [] then Some(i - 1)
    else LastField(s, m, i - 1)
  }

  lemma {:induction false} ValuesJumpFree(s: Schema, i: nat, vs: seq<Value>, t: bytes, prev: Option<nat>)
    requires WellFormed(s) && i < |s| && OkValues(s[i], vs) && WholeValues(s[i], vs)
    requires |ValuesBytes(s[i], vs)| < TWO_31
    ensures JumpsToBadEnum(s, ValuesBytes(s[i], vs) + t, prev)
         == JumpsToBadEnum(s, t, if vs == [] then prev else Some(i))
    decreases |vs|
  {
    var f := s[i];
    if vs == [] {
      assert ValuesBytes(f, vs) + t == t;
    } else {
      var tail := ValuesBytes(f, vs[1..]) + t;
      SeqAssoc(Varint(FieldTag(f)) + ValueBytes(f.kind, vs[0]), ValuesBytes(f, vs[1..]), t);
      OneValueJumpFree(s, i, vs[0], tail, prev);
      ValuesJumpFree(s, i, vs[1..], t, Some(i));
    }
  }

  lemma OneValueJumpFree(s: Schema, i: nat, v: Value, t: bytes, prev: Option<nat>)
    requires WellFormed(s) && i < |s| && OkValue(s[i].kind, v)
    requires s[i].kind.Sub? ==> Whole(s[i].kind.schema, v.m)
    requires |ValueBytes(s[i].kind, v)| < TWO_31
    ensures JumpsToBadEnum(s, Varint(FieldTag(s[i])) + ValueBytes(s[i].kind, v) + t, prev)
         == JumpsToBadEnum(s, t, Some(i))
  {
    var f := s[i];
    OneValueRead(s, i, v, t);
    SeqAssoc(Varint(FieldTag(f)), ValueBytes(f.kind, v), t);
    TagRoundTrip(FieldTag(f), ValueBytes(f.kind, v) + t);
    FieldOfOwnTag(s, i, 0);
  }

  /** The values of field `i` and then the rest: reading on behind them. */
  lemma FieldJumpFree(s: Schema, m: Msg, i: nat, t: bytes)
    requires WellFormed(s) && Typed(s, m) && Whole(s, m) && i < |s|
    requires |FieldsBytes(s, m.fields, i)| < TWO_31
    ensures |FieldsBytes(s, m.fields, i + 1)| < TWO_31
    ensures JumpsToBadEnum(s, FieldsBytes(s, m.fields, i) + t, LastField(s, m, i))
         == JumpsToBadEnum(s, FieldsBytes(s, m.fields, i + 1) + t, LastField(s, m, i + 1))
  {
    var rest := FieldsBytes(s, m.fields, i + 1) + t;
    SeqAssoc(ValuesBytes(s[i], m.fields[i]), FieldsBytes(s, m.fields, i + 1), t);
    ValuesJumpFree(s, i, m.fields[i], rest, LastField(s, m, i));
  }

  lemma {:induction false} FieldsJumpFree(s: Schema, m: Msg, i: nat, t: bytes, jumps: bool)
    requires WellFormed(s) && Typed(s, m) && Whole(s, m) && i <= |s|
    requires |FieldsBytes(s, m.fields, i)| < TWO_31
    requires JumpsToBadEnum(s, FieldsBytes(s, m.fields, i) + t, LastField(s, m, i)) == jumps
    ensures JumpsToBadEnum(s, t, LastField(s, m, |s|)) == jumps
    decreases |s| - i
  {
    if i == |s| {
      NoFieldsLeft(s, m, t);
    } else {
      FieldJumpFree(s, m, i, t);
      FieldsJumpFree(s, m, i + 1, t, jumps);
    }
  }

  lemma NoFieldsLeft(s: Schema, m: Msg, t: bytes)
    requires Typed(s, m)
    ensures FieldsBytes(s, m.fields, |s|) + t == t
  {
    assert FieldsBytes(s, m.fields, |s|) == [];
  }

  lemma {:induction false} ForeignJumpFree(s: Schema, rs: seq<Rec>, prev: Option<nat>)
    requires WellFormed(s) && ForeignRecs(s, rs)
    requires prev.Some? && prev.value + 1 < |s| ==> !s[prev.value + 1].kind.Login?
    ensures !JumpsToBadEnum(s, RecsBytes(rs), prev)
    decreases |rs|
  {
    if rs != [] {
      ForeignRecRead(s, rs[0], RecsBytes(rs[1..]));
      var i := FieldOf(s, RecTag(rs[0]));
      ForeignJumpFree(s, rs[1..], if i < |s| then Some(i) else None);
    }
  }

  /** Writing an initialized message and parsing it, jumps and all, gives the message back. */
  lemma ParseSerialize(s: Schema, m: Msg)
    requires WellFormed(s) && Typed(s, m) && Whole(s, m) && IsInitialized(s, m)
    requires |Serialize(s, m)| < TWO_31
    ensures ParseFromString(s, Serialize(s, m)) == Some(m)
  {
    FieldsJumpFree(s, m, 0, m.unknown, JumpsToBadEnum(s, Serialize(s, m), None));
    var last := LastField(s, m, |s|);
    var rs: seq<Rec> :| ForeignRecs(s, rs) && m.unknown == RecsBytes(rs);
    ForeignJumpFree(s, rs, last);
    FastAgrees(s, Serialize(s, m), Empty(s), None);
    RoundTrip(s, m);
  }
}
