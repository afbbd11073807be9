/**
 The loop that MergePartialFromCodedStream really is: after field `i` it peeks for the one-byte tag
 of the field expected next and, when it is there, jumps straight to the code that reads that field
 (`goto parse_...`) without updating the variable `tag`. After the last field it peeks for the end.

 `FastFrom` is the top of the loop and `FastField` the label of a field. The theorems compare them
 with `Message.Plain`. They differ in exactly one case: an enum value that is not an enumerator,
 reached by a jump, is filed in the unknown bytes under the tag of the field the jumps started from.
 */
module FastParser {
  import opened Wire
  import opened Message

  predicate NextIs(b: bytes, tag: nat)
  {
    b != [] && b[0] == tag
  }

  /** The label the code jumps to after field `i`, if any: a repeated field expects itself first. */
  function JumpTarget(s: Schema, i: nat, b: bytes): (j: nat)
    requires i < |s|
    ensures j <= |s|
    ensures j < |s| ==> NextIs(b, FieldTag(s[j])) && (j == i + 1 || (j == i && s[i].kind.Sub?))
  {
    if s[i].kind.Sub? && NextIs(b, FieldTag(s[i])) then i
    else if i + 1 < |s| && NextIs(b, FieldTag(s[i + 1])) then i + 1
    else |s|
  }

  function FastValue(k: Kind, b: bytes): (r: Option<Read<Value>>)
    ensures r.Some? ==> |r.value.rest| < |b|
    decreases |b|, 0
  {
    if k.Sub? then
      match ReadBlock(b)
      case None => None
      case Some(r) =>
        match FastFrom(k.schema, r.value, Empty(k.schema))
        case Failure => None
        case Success(m, atEnd) => if atEnd then Some(Read(Nested(m), r.rest)) else None
    else ReadValue(k, b)
  }

  predicate BadEnum(k: Kind, v: Value)
  {
    k.Login? && v.Num? && !LoginTypeIsValid(v.v)
  }

  /** Files a value; a bad enum goes out under whatever `tag` holds at this point. */
  function FastFile(s: Schema, m: Msg, i: nat, tag: nat, v: Value): (r: Msg)
    requires i < |s| == |m.fields|
    ensures |r.fields| == |s|
  {
    if BadEnum(s[i].kind, v)
    then m.(unknown := m.unknown + (Varint(tag) + Varint(v.v % TWO_32)))
    else Put(s, m, i, [v])
  }

  function FastField(s: Schema, i: nat, tag: nat, b: bytes, m: Msg): (r: Parse)
    requires i < |s| == |m.fields|
    ensures r.Success? ==> |r.m.fields| == |s|
    decreases |b|, 3
  {
    match FastValue(s[i].kind, b)
    case None => Failure
    case Some(v) =>
      FastRest(s, i, tag, v.rest, FastFile(s, m, i, tag, v.value))
  }

  /** Behind the value of field `i`: ExpectTag and jump, ExpectAtEnd and stop, or loop. */
  function FastRest(s: Schema, i: nat, tag: nat, b: bytes, m: Msg): (r: Parse)
    requires i < |s| == |m.fields|
    ensures r.Success? ==> |r.m.fields| == |s|
    decreases |b|, 2
  {
    var j := JumpTarget(s, i, b);
    if j < |s| then FastField(s, j, tag, b[1..], m)
    else if i == |s| - 1 && b == [] then Success(m, true)
    else FastFrom(s, b, m)
  }

  function FastFrom(s: Schema, b: bytes, m: Msg): (r: Parse)
    requires |m.fields| == |s|
    ensures r.Success? ==> |r.m.fields| == |s|
    decreases |b|, 1
  {
    match ReadTag(b)
    case None => Success(m, b == [])
    case Some(t) =>
      if t.value % 8 == 4 then Success(m, false)
      else
        var i := FieldOf(s, t.value);
        if i < |s| then FastField(s, i, t.value, t.rest, m)
        else
          match SkipField(t.value, t.rest)
          case None => Failure
          case Some(r) => FastFrom(s, r.rest, Apply(s, m, Foreign(r.value)))
  }

  /* ---------- When the jumps are harmless ---------- */

  /** Somewhere in the records of `b` a bad enum, with its tag in one byte, stands right behind a
      record of the field before it. `prev` is the field read just before `b`. */
  predicate JumpsToBadEnum(s: Schema, b: bytes, prev: Option<nat>)
    decreases |b|
  {
    match ReadTag(b)
    case None => false
    case Some(t) =>
      t.value % 8 != 4 &&
      match ReadRecord(s, t.value, t.rest)
      case None => false
      case Some(r) =>
        var i := FieldOf(s, t.value);
        || (prev.Some? && i < |s| && prev.value + 1 == i && b[0] == t.value && r.value.Foreign?)
        || JumpsToBadEnum(s, r.rest, if i < |s| then Some(i) else None)
  }

  lemma OneByteTag(b: bytes, tag: nat)
    requires 0 < tag < 128 && NextIs(b, tag)
    ensures ReadTag(b) == Some(Read(tag, b[1..]))
  {
  }

  lemma TagIsOneByte(s: Schema, i: nat)
    requires WellFormed(s) && i < |s|
    ensures 8 <= FieldTag(s[i]) < 128 && FieldTag(s[i]) % 8 != 4
    ensures FieldOf(s, FieldTag(s[i])) == i
  {
    FieldOfOwnTag(s, i, 0);
  }

  /** A jump reads the same tag the top of the loop would have read. */
  lemma JumpReadsTag(s: Schema, i: nat, b: bytes)
    requires WellFormed(s) && i < |s| && JumpTarget(s, i, b) < |s|
    ensures var j := JumpTarget(s, i, b);
            && ReadTag(b) == Some(Read(FieldTag(s[j]), b[1..]))
            && FieldTag(s[j]) % 8 != 4 && FieldOf(s, FieldTag(s[j])) == j
  {
    var j := JumpTarget(s, i, b);
    TagIsOneByte(s, j);
    OneByteTag(b, FieldTag(s[j]));
  }

  /** A schema without enums never jumps to a bad one. */
  lemma {:induction false} NoLoginNoJump(s: Schema, b: bytes, prev: Option<nat>)
    requires NoLogin(s)
    ensures !JumpsToBadEnum(s, b, prev)
    decreases |b|
  {
    if ReadTag(b).Some? {
      var t := ReadTag(b).value;
      var r := ReadRecord(s, t.value, t.rest);
      if r.Some? {
        var i := FieldOf(s, t.value);
        NoLoginNoJump(s, r.value.rest, if i < |s| then Some(i) else None);
      }
    }
  }

  lemma FastValueIsReadValue(f: Field, b: bytes)
    requires WellFormedField(f)
    ensures FastValue(f.kind, b) == ReadValue(f.kind, b)
    decreases |b|, 0
  {
    if f.kind.Sub? && ReadBlock(b).Some? {
      var block := ReadBlock(b).value.value;
      NoLoginNoJump(f.kind.schema, block, None);
      FastAgrees(f.kind.schema, block, Empty(f.kind.schema), None);
    }
  }

  lemma OwnTagFiles(s: Schema, m: Msg, i: nat, v: Value)
    requires WellFormed(s) && i < |s| == |m.fields| && (s[i].kind.Login? ==> v.Num?)
    ensures FastFile(s, m, i, FieldTag(s[i]), v) == Apply(s, m, FileValue(s, i, v))
  {
    if BadEnum(s[i].kind, v) {
      var r := Rec(s[i].num, VarintP(v.v % TWO_32));
      assert RecTag(r) == FieldTag(s[i]);
      assert PayloadBytes(r.num, r.payload) == Varint(v.v % TWO_32);
    }
  }

  /** What the top of the loop would do at the record of field `i` whose tag has been read. */
  function PlainField(s: Schema, i: nat, b: bytes, m: Msg): Parse
    requires WellFormed(s) && i < |s| == |m.fields|
  {
    match ReadValue(s[i].kind, b)
    case None => Failure
    case Some(v) => Plain(s, v.rest, Apply(s, m, FileValue(s, i, v.value)))
  }

  predicate BadValueAt(k: Kind, b: bytes)
  {
    ReadValue(k, b).Some? && BadEnum(k, ReadValue(k, b).value.value)
  }

  /** The jumping loop does what the simple one does, unless it jumps to a bad enum. */
  lemma {:induction false} FastAgrees(s: Schema, b: bytes, m: Msg, prev: Option<nat>)
    requires WellFormed(s) && |m.fields| == |s| && !JumpsToBadEnum(s, b, prev)
    ensures FastFrom(s, b, m) == Plain(s, b, m)
    decreases |b|, 1
  {
    if ReadTag(b).Some? && ReadTag(b).value.value % 8 != 4 {
      var t := ReadTag(b).value;
      var i := FieldOf(s, t.value);
      if i < |s| {
        FieldAgrees(s, i, t.value, t.rest, m);
      } else if SkipField(t.value, t.rest).Some? {
        var r := SkipField(t.value, t.rest).value;
        FastAgrees(s, r.rest, Apply(s, m, Foreign(r.value)), None);
      }
    }
  }

  lemma {:induction false} FieldAgrees(s: Schema, i: nat, tag: nat, b: bytes, m: Msg)
    requires WellFormed(s) && i < |s| == |m.fields|
    requires BadValueAt(s[i].kind, b) ==> tag == FieldTag(s[i])
    requires ReadValue(s[i].kind, b).Some? ==>
               !JumpsToBadEnum(s, ReadValue(s[i].kind, b).value.rest, Some(i))
    ensures FastField(s, i, tag, b, m) == PlainField(s, i, b, m)
    decreases |b|, 3
  {
    FastValueIsReadValue(s[i], b);
    if ReadValue(s[i].kind, b).Some? {
      var v := ReadValue(s[i].kind, b).value;
      OwnTagFiles(s, m, i, v.value);
      var n := FastFile(s, m, i, tag, v.value);
      var j := JumpTarget(s, i, v.rest);
      if j < |s| {
        JumpReadsTag(s, i, v.rest);
        FieldAgrees(s, j, tag, v.rest[1..], n);
      } else {
        FastAgrees(s, v.rest, n, Some(i));
      }
    }
  }

  /* ---------- When they are not ---------- */

  /** Both readers fail, or both stop at the same place with the same fields, each having only
      added to the unknown bytes it started with, and both as many bytes. */
  predicate SameButUnknown(p: Parse, u: bytes, q: Parse, w: bytes)
  {
    || (p.Failure? && q.Failure?)
    || (p.Success? && q.Success? && p.atEnd == q.atEnd && p.m.fields == q.m.fields
        && u <= p.m.unknown && w <= q.m.unknown && |p.m.unknown| - |u| == |q.m.unknown| - |w|)
  }

  /** A value is filed in as many bytes by both readers: all tags of fields take one byte. */
  lemma SameLengthFiled(s: Schema, i: nat, tag: nat, m: Msg, n: Msg, v: Value)
    requires WellFormed(s) && m.fields == n.fields && i < |s| == |m.fields| && tag < 128
    requires s[i].kind.Login? ==> v.Num?
    ensures var p, q := FastFile(s, m, i, tag, v), Apply(s, n, FileValue(s, i, v));
            && p.fields == q.fields && m.unknown <= p.unknown && n.unknown <= q.unknown
            && |p.unknown| - |m.unknown| == |q.unknown| - |n.unknown|
  {
    OwnTagFiles(s, n, i, v);
    TagIsOneByte(s, i);
  }

  lemma {:induction false} FromShape(s: Schema, b: bytes, m: Msg, n: Msg)
    requires WellFormed(s) && m.fields == n.fields && |m.fields| == |s|
    ensures SameButUnknown(FastFrom(s, b, m), m.unknown, Plain(s, b, n), n.unknown)
    decreases |b|, 1
  {
    if ReadTag(b).Some? && ReadTag(b).value.value % 8 != 4 {
      var t := ReadTag(b).value;
      var i := FieldOf(s, t.value);
      if i < |s| {
        TagIsOneByte(s, i);
        FieldShape(s, i, t.value, t.rest, m, n);
      } else if SkipField(t.value, t.rest).Some? {
        var r := SkipField(t.value, t.rest).value;
        var item := Foreign(r.value);
        FromShape(s, r.rest, Apply(s, m, item), Apply(s, n, item));
      }
    }
  }

  lemma {:induction false} FieldShape(s: Schema, i: nat, tag: nat, b: bytes, m: Msg, n: Msg)
    requires WellFormed(s) && m.fields == n.fields && i < |s| == |m.fields| && tag < 128
    ensures SameButUnknown(FastField(s, i, tag, b, m), m.unknown, PlainField(s, i, b, n), n.unknown)
    decreases |b|, 3
  {
    FastValueIsReadValue(s[i], b);
    if ReadValue(s[i].kind, b).Some? {
      var v := ReadValue(s[i].kind, b).value;
      SameLengthFiled(s, i, tag, m, n, v.value);
      RestShape(s, i, tag, v.rest, FastFile(s, m, i, tag, v.value),
                Apply(s, n, FileValue(s, i, v.value)));
    }
  }

  /** The same, from behind the value of field `i`. */
  lemma {:induction false} RestShape(s: Schema, i: nat, tag: nat, b: bytes, m: Msg, n: Msg)
    requires WellFormed(s) && m.fields == n.fields && i < |s| == |m.fields| && tag < 128
    ensures SameButUnknown(FastRest(s, i, tag, b, m), m.unknown, Plain(s, b, n), n.unknown)
    decreases |b|, 2
  {
    if JumpTarget(s, i, b) < |s| {
      JumpReadsTag(s, i, b);
      FieldShape(s, JumpTarget(s, i, b), tag, b[1..], m, n);
    } else {
      FromShape(s, b, m, n);
    }
  }

  /** Diverging unknown bytes stay diverged. */
  lemma PrefixesDiffer(u: bytes, w: bytes, p: bytes, q: bytes)
    requires u <= p && w <= q
    requires exists k :: 0 <= k < |u| && k < |w| && u[k] != w[k]
    ensures p != q
  {
    var k :| 0 <= k < |u| && k < |w| && u[k] != w[k];
    assert p[k] == u[k] && q[k] == w[k];
  }

  /** Jumping to a bad enum does change the message that is built. */
  lemma {:induction false} FastDiffers(s: Schema, b: bytes, m: Msg, prev: Option<nat>)
    requires WellFormed(s) && |m.fields| == |s|
    requires JumpsToBadEnum(s, b, prev) && Plain(s, b, m).Success?
    requires prev.Some? ==> prev.value < |s| && JumpTarget(s, prev.value, b) == |s|
    ensures FastFrom(s, b, m) != Plain(s, b, m)
    decreases |b|, 1
  {
    var t := ReadTag(b).value;
    var i := FieldOf(s, t.value);
    if i < |s| {
      FieldDiffers(s, i, i, t.rest, m);
    } else {
      var r := SkipField(t.value, t.rest).value;
      FastDiffers(s, r.rest, Apply(s, m, Foreign(r.value)), None);
    }
  }

  lemma {:induction false} FieldDiffers(s: Schema, i: nat, first: nat, b: bytes, m: Msg)
    requires WellFormed(s) && first <= i < |s| == |m.fields|
    requires PlainField(s, i, b, m).Success?
    requires || (BadValueAt(s[i].kind, b) && first < i)
             || JumpsToBadEnum(s, ReadValue(s[i].kind, b).value.rest, Some(i))
    ensures FastField(s, i, FieldTag(s[first]), b, m) != PlainField(s, i, b, m)
    decreases |b|, 3
  {
    var tag := FieldTag(s[first]);
    FastValueIsReadValue(s[i], b);
    var v := ReadValue(s[i].kind, b).value;
    var n := FastFile(s, m, i, tag, v.value);
    OwnTagFiles(s, m, i, v.value);
    if BadValueAt(s[i].kind, b) && first < i {
      TagIsOneByte(s, first);
      var p := Apply(s, m, FileValue(s, i, v.value));
      BadEnumDiverges(s, i, first, m, v.value);
      RestShape(s, i, tag, v.rest, n, p);
      PrefixesDiffer(n.unknown, p.unknown, FastRest(s, i, tag, v.rest, n).m.unknown,
                     Plain(s, v.rest, p).m.unknown);
    } else {
      var j := JumpTarget(s, i, v.rest);
      if j < |s| {
        JumpReadsTag(s, i, v.rest);
        FieldDiffers(s, j, first, v.rest[1..], n);
      } else {
        FastDiffers(s, v.rest, n, Some(i));
      }
    }
  }

  lemma BadEnumDiverges(s: Schema, i: nat, first: nat, m: Msg, v: Value)
    requires WellFormed(s) && first < i < |s| == |m.fields| && BadEnum(s[i].kind, v)
    ensures var n, p := FastFile(s, m, i, FieldTag(s[first]), v), FastFile(s, m, i, FieldTag(s[i]), v);
            && n.fields == p.fields
            && exists k :: 0 <= k < |n.unknown| && k < |p.unknown| && n.unknown[k] != p.unknown[k]
  {
    TagIsOneByte(s, first);
    TagIsOneByte(s, i);
    var n, p := FastFile(s, m, i, FieldTag(s[first]), v), FastFile(s, m, i, FieldTag(s[i]), v);
    assert n.unknown[|m.unknown|] == FieldTag(s[first]);
    assert p.unknown[|m.unknown|] == FieldTag(s[i]);
    assert FieldOf(s, FieldTag(s[first])) == first;
  }

  /** The two readers agree on an input exactly when it is refused by both or does not jump to a
      bad enum; refusal never depends on the reader. */
  lemma FastRefinesPlain(s: Schema, b: bytes)
    requires WellFormed(s)
    ensures FastFrom(s, b, Empty(s)) == Plain(s, b, Empty(s))
       <==> Plain(s, b, Empty(s)).Failure? || !JumpsToBadEnum(s, b, None)
    ensures FastFrom(s, b, Empty(s)).Failure? <==> Plain(s, b, Empty(s)).Failure?
    ensures Plain(s, b, Empty(s)).Success? ==>
              && FastFrom(s, b, Empty(s)).atEnd == Plain(s, b, Empty(s)).atEnd
              && FastFrom(s, b, Empty(s)).m.fields == Plain(s, b, Empty(s)).m.fields
  {
    var e := Empty(s);
    FromShape(s, b, e, e);
    if !JumpsToBadEnum(s, b, None) {
      FastAgrees(s, b, e, None);
    } else if Plain(s, b, e).Success? {
      FastDiffers(s, b, e, None);
    }
  }

  /** Every message of the file but OpenSessionRequest is read exactly as by the simple loop. */
  lemma FastIsPlainWithoutEnums(s: Schema, b: bytes)
    requires WellFormed(s) && NoLogin(s)
    ensures FastFrom(s, b, Empty(s)) == Plain(s, b, Empty(s))
  {
    NoLoginNoJump(s, b, None);
    FastAgrees(s, b, Empty(s), None);
  }
}
