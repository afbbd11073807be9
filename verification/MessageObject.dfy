/**
 The message classes as objects: their parsing loop, writer, size and merge methods, each tied to
 the function that specifies it.
 */
module MessageObject {
  import opened Wire
  import opened Message
  import opened FastParser
  import opened Canonical

  /** The reader of a byte array. `atEnd` is what ConsumedEntireMessage reports. */
  class CodedInputStream {
    var rest: bytes
    var atEnd: bool

    constructor (b: bytes)
      ensures rest == b && !atEnd
    {
      rest, atEnd := b, false;
    }

    /** 0 stands for no tag: end of input or an unreadable one. */
    method ReadTag() returns (tag: nat)
      modifies this
      ensures match Wire.ReadTag(old(rest))
              case None => tag == 0 && rest == old(rest) && atEnd == (old(atEnd) || rest == [])
              case Some(t) => tag == t.value && rest == t.rest && atEnd == old(atEnd)
    {
      match Wire.ReadTag(rest)
      case None =>
        tag := 0;
        atEnd := atEnd || rest == [];
      case Some(t) =>
        tag, rest := t.value, t.rest;
    }

    method ExpectTag(tag: nat) returns (ok: bool)
      modifies `rest
      ensures ok == NextIs(old(rest), tag)
      ensures rest == if ok then old(rest)[1..] else old(rest)
    {
      ok := NextIs(rest, tag);
      if ok {
        rest := rest[1..];
      }
    }

    method ExpectAtEnd() returns (ok: bool)
      modifies `atEnd
      ensures ok == (rest == []) && atEnd == (old(atEnd) || ok)
    {
      ok := rest == [];
      atEnd := atEnd || ok;
    }

    method SkipField(tag: nat) returns (ok: bool, copy: bytes)
      requires 0 < tag < TWO_32
      modifies `rest
      ensures match Wire.SkipField(tag, old(rest))
              case None => !ok
              case Some(r) => ok && copy == RecBytes(r.value) && rest == r.rest
    {
      copy := [];
      match Wire.SkipField(tag, rest)
      case None => ok := false;
      case Some(r) => ok, copy, rest := true, RecBytes(r.value), r.rest;
    }

    method ReadScalar(k: Kind) returns (ok: bool, v: Value)
      requires !k.Sub?
      modifies `rest
      ensures match ReadValue(k, old(rest))
              case None => !ok
              case Some(r) => ok && v == r.value && rest == r.rest
    {
      v := Num(0);
      match ReadValue(k, rest)
      case None => ok := false;
      case Some(r) => ok, v, rest := true, r.value, r.rest;
    }
  }

  class CodedOutputStream {
    var written: bytes

    constructor ()
      ensures written == []
    {
      written := [];
    }

    method Write(b: bytes)
      modifies this
      ensures written == old(written) + b
    {
      written := written + b;
    }
  }

  class MessageLite {
    const schema: Schema
    var fields: seq<seq<Value>>
    var unknown: bytes

    ghost predicate Valid()
      reads this
    {
      WellFormed(schema) && Typed(schema, Contents())
    }

    function Contents(): Msg
      reads this
    {
      Msg(fields, unknown)
    }

    constructor (s: Schema)
      requires WellFormed(s)
      ensures schema == s && Contents() == Empty(s)
    {
      schema := s;
      fields, unknown := Empty(s).fields, [];
    }

    method Clear()
      modifies this
      ensures Contents() == Empty(schema)
    {
      fields, unknown := Empty(schema).fields, [];
    }

    /** Reads the value at a label. A nested message is read by an object of its own, from a stream
        limited to its block. */
    method ReadFieldValue(i: nat, input: CodedInputStream) returns (ok: bool, v: Value)
      requires WellFormed(schema) && i < |schema|
      modifies input`rest
      ensures match FastValue(schema[i].kind, old(input.rest))
              case None => !ok
              case Some(r) => ok && v == r.value && input.rest == r.rest
      decreases |input.rest|, 0
    {
      var k := schema[i].kind;
      if !k.Sub? {
        ok, v := input.ReadScalar(k);
        return;
      }
      v := Num(0);
      var block := ReadBlock(input.rest);
      if block.None? {
        return false, v;
      }
      assert WellFormedField(schema[i]);
      var nested := new MessageLite(k.schema);
      var limited := new CodedInputStream(block.value.value);
      ok := nested.MergePartialFromCodedStream(limited);
      ok := ok && limited.atEnd;
      v := Nested(nested.Contents());
      input.rest := block.value.rest;
    }

    /** Sets or appends the value; a bad enum goes to the unknown bytes under `tag`. */
    method FileFieldValue(i: nat, tag: nat, v: Value)
      requires i < |schema| == |fields|
      modifies this
      ensures Contents() == FastFile(schema, old(Contents()), i, tag, v)
    {
      if BadEnum(schema[i].kind, v) {
        unknown := unknown + (Varint(tag) + Varint(v.v % TWO_32));
      } else if schema[i].kind.Sub? {
        fields := fields[i := fields[i] + [v]];
      } else {
        fields := fields[i := [v]];
      }
    }

    /** The ExpectTag and ExpectAtEnd tests behind field `i`. */
    method ExpectNext(i: nat, input: CodedInputStream) returns (target: nat, end: bool)
      requires i < |schema|
      modifies input
      ensures target == JumpTarget(schema, i, old(input.rest))
      ensures input.rest == if target < |schema| then old(input.rest)[1..] else old(input.rest)
      ensures end == (target == |schema| && i == |schema| - 1 && input.rest == [])
      ensures input.atEnd == (old(input.atEnd) || end)
    {
      target, end := |schema|, false;
      if schema[i].kind.Sub? {
        var again := input.ExpectTag(FieldTag(schema[i]));
        if again {
          target := i;
        }
      }
      if target == |schema| && i + 1 < |schema| {
        var follows := input.ExpectTag(FieldTag(schema[i + 1]));
        if follows {
          target := i + 1;
        }
      }
      if target == |schema| && i == |schema| - 1 {
        end := input.ExpectAtEnd();
      }
    }

    /** The parsing loop; `next` is the field whose code the loop is about to jump to, or
        `|schema|` for the top of the loop. */
    method MergePartialFromCodedStream(input: CodedInputStream) returns (ok: bool)
      requires WellFormed(schema) && |fields| == |schema| && !input.atEnd
      modifies this, input
      ensures |fields| == |schema|
      ensures match FastFrom(schema, old(input.rest), old(Contents()))
              case Failure => !ok
              case Success(m, atEnd) => ok && Contents() == m && input.atEnd == atEnd
      decreases |input.rest|, 1
    {
      ghost var result := FastFrom(schema, input.rest, Contents());
      var next: nat, tag: nat := |schema|, 0;
      while true
        invariant |fields| == |schema| && next <= |schema| && !input.atEnd
        invariant next < |schema| ==> |input.rest| < |old(input.rest)|
        invariant |input.rest| <= |old(input.rest)|
        invariant result == if next < |schema|
                            then FastField(schema, next, tag, input.rest, Contents())
                            else FastFrom(schema, input.rest, Contents())
        decreases |input.rest|, next
      {
        if next == |schema| {
          tag := input.ReadTag();
          if tag == 0 || tag % 8 == 4 {
            return true;
          }
          next := FieldOf(schema, tag);
          if next == |schema| {
            var skipped, copy := input.SkipField(tag);
            if !skipped {
              return false;
            }
            unknown := unknown + copy;
            continue;
          }
        }
        assert result == FastField(schema, next, tag, input.rest, Contents());
        var read, v := ReadFieldValue(next, input);
        if !read {
          return false;
        }
        FileFieldValue(next, tag, v);
        assert result == FastRest(schema, next, tag, input.rest, Contents());
        var target, end := ExpectNext(next, input);
        if end {
          return true;
        }
        next := target;
      }
    }

    method ParseFromString(data: bytes) returns (ok: bool)
      requires WellFormed(schema)
      modifies this
      ensures match Canonical.ParseFromString(schema, data)
              case None => !ok
              case Some(m) => ok && Contents() == m && Valid()
    {
      Clear();
      var input := new CodedInputStream(data);
      ok := MergePartialFromCodedStream(input);
      ok := ok && input.atEnd;
      if ok {
        FastTyped(schema, data);
        ok := IsInitialized(schema, Contents());
      }
    }

    method MergeFrom(from: MessageLite)
      requires Valid() && from.Valid() && from.schema == schema && from != this
      modifies this
      ensures Contents() == Merge(schema, old(Contents()), from.Contents())
    {
      for i := 0 to |schema|
        invariant |fields| == |schema| && unknown == old(unknown)
        invariant forall j :: 0 <= j < i ==>
                    fields[j] == Combine(schema[j], old(fields)[j], from.fields[j])
        invariant forall j :: i <= j < |schema| ==> fields[j] == old(fields)[j]
      {
        if schema[i].kind.Sub? {
          fields := fields[i := fields[i] + from.fields[i]];
        } else if from.fields[i] != [] {
          fields := fields[i := from.fields[i]];
        }
      }
      unknown := unknown + from.unknown;
      assert fields == Merge(schema, old(Contents()), from.Contents()).fields;
    }

    method SerializeWithCachedSizes(output: CodedOutputStream)
      requires Valid()
      modifies output
      ensures output.written == old(output.written) + Serialize(schema, Contents())
    {
      WriteMessage(schema, Contents(), output);
    }

    method GetByteSize() returns (size: nat)
      requires Valid() && |Serialize(schema, Contents())| < TWO_31
      ensures size == |Serialize(schema, Contents())|
    {
      size := ByteSize(schema, Contents());
    }
  }

  /** The writer of one message: its fields in order, the nested messages each behind its length,
      then the unknown bytes as they are. */
  method WriteMessage(s: Schema, m: Msg, output: CodedOutputStream)
    requires WellFormed(s) && Typed(s, m)
    modifies output
    ensures output.written == old(output.written) + Serialize(s, m)
    decreases s, 0
  {
    ghost var all := old(output.written) + Serialize(s, m);
    SeqAssoc(output.written, FieldsBytes(s, m.fields, 0), m.unknown);
    for i := 0 to |s|
      invariant all == output.written + FieldsBytes(s, m.fields, i) + m.unknown
    {
      ghost var before := output.written;
      SeqAssoc(before, ValuesBytes(s[i], m.fields[i]), FieldsBytes(s, m.fields, i + 1));
      assert WellFormedField(s[i]);
      WriteValues(s[i], m.fields[i], output);
    }
    assert all == output.written + m.unknown;
    output.Write(m.unknown);
  }

  method WriteValues(f: Field, vs: seq<Value>, output: CodedOutputStream)
    requires WellFormedField(f) && OkValues(f, vs)
    modifies output
    ensures output.written == old(output.written) + ValuesBytes(f, vs)
    decreases f, 1
  {
    ghost var all := old(output.written) + ValuesBytes(f, vs);
    for j := 0 to |vs|
      invariant OkValues(f, vs[j..])
      invariant all == output.written + ValuesBytes(f, vs[j..])
    {
      assert vs[j..][1..] == vs[j + 1..] && vs[j..][0] == vs[j];
      SeqAssoc(output.written, Varint(FieldTag(f)) + ValueBytes(f.kind, vs[j]), ValuesBytes(f, vs[j + 1..]));
      WriteValue(f, vs[j], output);
    }
  }

  /** A tag and a value; a nested message goes behind its length. */
  method WriteValue(f: Field, v: Value, output: CodedOutputStream)
    requires WellFormedField(f) && OkValue(f.kind, v)
    modifies output
    ensures output.written == old(output.written) + (Varint(FieldTag(f)) + ValueBytes(f.kind, v))
    decreases f, 0
  {
    SeqAssoc(output.written, Varint(FieldTag(f)), ValueBytes(f.kind, v));
    output.Write(Varint(FieldTag(f)));
    match f.kind {
      case Sub(s) =>
        ghost var size := Varint(|Serialize(s, v.m)|);
        SeqAssoc(output.written, size, Serialize(s, v.m));
        var nested := new CodedOutputStream();
        WriteMessage(s, v.m, nested);
        assert [] + Serialize(s, v.m) == Serialize(s, v.m);
        output.Write(Varint(|nested.written|));
        output.Write(nested.written);
      case _ =>
        output.Write(ValueBytes(f.kind, v));
    }
  }

  /* ---------- ByteSize ---------- */

  lemma FieldBytesLength(s: Schema, i: nat)
    requires WellFormed(s) && i < |s|
    ensures |Varint(FieldTag(s[i]))| == 1
  {
    TagIsOneByte(s, i);
  }

  /** ByteSize adds up sizes without writing anything; it is the length of what would be written. */
  method ByteSize(s: Schema, m: Msg) returns (total: nat)
    requires WellFormed(s) && Typed(s, m) && |Serialize(s, m)| < TWO_31
    ensures total == |Serialize(s, m)|
    decreases s, 0
  {
    total := 0;
    for i := 0 to |s|
      invariant total + |FieldsBytes(s, m.fields, i)| + |m.unknown| == |Serialize(s, m)|
    {
      assert WellFormedField(s[i]);
      FieldBytesLength(s, i);
      var n := ValuesSize(s[i], m.fields[i]);
      total := total + n;
    }
    total := total + |m.unknown|;
  }

  method ValuesSize(f: Field, vs: seq<Value>) returns (total: nat)
    requires WellFormedField(f) && OkValues(f, vs) && |Varint(FieldTag(f))| == 1
    requires |ValuesBytes(f, vs)| < TWO_31
    ensures total == |ValuesBytes(f, vs)|
    decreases f, 0
  {
    total := 1 * |vs|;
    for j := 0 to |vs|
      invariant OkValues(f, vs[j..])
      invariant total + |ValuesBytes(f, vs[j..])| == |vs| - j + |ValuesBytes(f, vs)|
      invariant |ValuesBytes(f, vs[j..])| <= |ValuesBytes(f, vs)|
    {
      assert vs[j..][1..] == vs[j + 1..] && vs[j..][0] == vs[j];
      assert |ValuesBytes(f, vs[j..])| == 1 + |ValueBytes(f.kind, vs[j])| + |ValuesBytes(f, vs[j + 1..])|;
      match f.kind {
        case Sub(s) =>
          var n := ByteSize(s, vs[j].m);
          VarintLength(n);
          total := total + VarintSize(n) + n;
        case Bytes =>
          VarintLength(|vs[j].b|);
          total := total + VarintSize(|vs[j].b|) + |vs[j].b|;
        case Bool =>
          VarintLength(vs[j].v);
          total := total + 1;
        case _ =>
          VarintLength(WireNum(f.kind, vs[j].v));
          total := total + VarintSize(WireNum(f.kind, vs[j].v));
      }
    }
  }
}
