/**
 Parsing a concatenation with the loop that jumps.

 The simple loop is a homomorphism from concatenation to MergeFrom (`Message.PlainConcatIsMerge`). The
 real loop looks ahead: a run of jumps that starts in the last record of `a` goes on in `a + b`, so a
 bad enum it reaches in `b` is filed under a tag of `a`. That is the only way in which reading `a + b`
 differs from reading the parts and merging them.
 */
module ParserConcat {
  import opened Wire
  import opened Message
  import opened FastParser

  /** The field of the last record of `b`, if it is one of the schema's; `prev` is the field read just
      before `b`. */
  function LastRead(s: Schema, b: bytes, prev: Option<nat>): (r: Option<nat>)
    decreases |b|
  {
    match ReadTag(b)
    case None => prev
    case Some(t) =>
      match ReadRecord(s, t.value, t.rest)
      case None => prev
      case Some(r) =>
        var i := FieldOf(s, t.value);
        LastRead(s, r.rest, if i < |s| then Some(i) else None)
  }

  /** The run of jumps that starts behind field `i` reaches a bad enum in `b`. */
  predicate ChainsToBadEnum(s: Schema, i: nat, b: bytes)
    requires i < |s|
    decreases |b|, 0
  {
    var j := JumpTarget(s, i, b);
    j < |s| && BadChain(s, j, b[1..])
  }

  /** The value of field `i` in front of `b` is a bad enum, or one that the jumps from there reach is. */
  predicate BadChain(s: Schema, i: nat, b: bytes)
    requires i < |s|
    decreases |b|, 1
  {
    && ReadValue(s[i].kind, b).Some?
    && var v := ReadValue(s[i].kind, b).value;
       BadEnum(s[i].kind, v.value) || ChainsToBadEnum(s, i, v.rest)
  }

  /** A run of jumps that starts in the last record of `a` reaches a bad enum in `b`. */
  predicate ChainsOverSeam(s: Schema, a: bytes, b: bytes)
  {
    var last := LastRead(s, a, None);
    last.Some? && last.value < |s| && ChainsToBadEnum(s, last.value, b)
  }

  /* ---------- Reading into a message that holds values ---------- */

  lemma FileMerge(s: Schema, m: Msg, x: Msg, i: nat, tag: nat, v: Value)
    requires i < |s| == |m.fields| == |x.fields|
    ensures FastFile(s, Merge(s, m, x), i, tag, v) == Merge(s, m, FastFile(s, x, i, tag, v))
  {
    if BadEnum(s[i].kind, v) {
      SeqAssoc(m.unknown, x.unknown, Varint(tag) + Varint(v.v % TWO_32));
      assert FastFile(s, Merge(s, m, x), i, tag, v).fields == Merge(s, m, FastFile(s, x, i, tag, v)).fields;
    } else {
      ApplyMerge(s, m, x, Known(i, v));
    }
  }

  lemma {:induction false} FromMerge(s: Schema, b: bytes, m: Msg, x: Msg)
    requires |m.fields| == |x.fields| == |s|
    ensures FastFrom(s, b, Merge(s, m, x)) == MergeInto(s, m, FastFrom(s, b, x))
    decreases |b|, 1
  {
    if ReadTag(b).Some? && ReadTag(b).value.value % 8 != 4 {
      var t := ReadTag(b).value;
      var i := FieldOf(s, t.value);
      if i < |s| {
        FieldMerge(s, i, t.value, t.rest, m, x);
      } else if SkipField(t.value, t.rest).Some? {
        var r := SkipField(t.value, t.rest).value;
        ApplyMerge(s, m, x, Foreign(r.value));
        FromMerge(s, r.rest, m, Apply(s, x, Foreign(r.value)));
      }
    }
  }

  lemma {:induction false} FieldMerge(s: Schema, i: nat, tag: nat, b: bytes, m: Msg, x: Msg)
    requires i < |s| == |m.fields| == |x.fields|
    ensures FastField(s, i, tag, b, Merge(s, m, x)) == MergeInto(s, m, FastField(s, i, tag, b, x))
    decreases |b|, 3
  {
    if FastValue(s[i].kind, b).Some? {
      var v := FastValue(s[i].kind, b).value;
      FileMerge(s, m, x, i, tag, v.value);
      var y := FastFile(s, x, i, tag, v.value);
      var j := JumpTarget(s, i, v.rest);
      if j < |s| {
        FieldMerge(s, j, tag, v.rest[1..], m, y);
      } else {
        FromMerge(s, v.rest, m, y);
      }
    }
  }

  /* ---------- Crossing the seam ---------- */

  lemma FastValuePrefix(f: Field, b: bytes, t: bytes)
    requires WellFormedField(f) && FastValue(f.kind, b).Some?
    ensures FastValue(f.kind, b + t)
         == Some(Read(FastValue(f.kind, b).value.value, FastValue(f.kind, b).value.rest + t))
  {
    FastValueIsReadValue(f, b);
    FastValueIsReadValue(f, b + t);
    ReadValuePrefix(f.kind, b, t);
  }

  /** What is left to do when `a` has been read: from the top of the loop, or from behind field `last`
      with the tag of field `first` still in the variable. */
  function Resume(s: Schema, last: Option<nat>, first: nat, b: bytes, m: Msg): Parse
    requires |m.fields| == |s| && (last.Some? ==> first <= last.value < |s|)
  {
    match last
    case None => FastFrom(s, b, m)
    case Some(i) => FastRest(s, i, FieldTag(s[first]), b, m)
  }

  /** Reading `a + b` is reading `a` to its end and going on where the loop then is. */
  lemma {:induction false} FromConcat(s: Schema, a: bytes, b: bytes, m: Msg) returns (first: nat)
    requires WellFormed(s) && |m.fields| == |s|
    requires FastFrom(s, a, m).Success? && FastFrom(s, a, m).atEnd
    ensures var last := LastRead(s, a, None);
            && (last.Some? ==> first <= last.value < |s|)
            && FastFrom(s, a + b, m) == Resume(s, last, first, b, FastFrom(s, a, m).m)
    decreases |a|, 1
  {
    first := 0;
    if a == [] {
      assert a + b == b;
    } else {
      TagPrefix(a, b);
      var t := ReadTag(a).value;
      var i := FieldOf(s, t.value);
      if i < |s| {
        FastValueIsReadValue(s[i], t.rest);
        first := FieldConcat(s, i, i, t.rest, b, m);
      } else {
        SkipFieldPrefix(t.value, t.rest, b);
        var r := SkipField(t.value, t.rest).value;
        first := FromConcat(s, r.rest, b, Apply(s, m, Foreign(r.value)));
      }
    }
  }

  lemma {:induction false} FieldConcat(s: Schema, i: nat, start: nat, a: bytes, b: bytes, m: Msg)
    returns (first: nat)
    requires WellFormed(s) && start <= i < |s| == |m.fields|
    requires var r := FastField(s, i, FieldTag(s[start]), a, m); r.Success? && r.atEnd
    requires ReadValue(s[i].kind, a).Some?
    ensures var last := LastRead(s, ReadValue(s[i].kind, a).value.rest, Some(i));
            && (last.Some? ==> first <= last.value < |s|)
            && FastField(s, i, FieldTag(s[start]), a + b, m)
               == Resume(s, last, first, b, FastField(s, i, FieldTag(s[start]), a, m).m)
    decreases |a|, 3
  {
    var tag := FieldTag(s[start]);
    FastValueIsReadValue(s[i], a);
    FastValuePrefix(s[i], a, b);
    var v := FastValue(s[i].kind, a).value;
    first := RestConcat(s, i, start, v.rest, b, FastFile(s, m, i, tag, v.value));
  }

  lemma {:induction false} RestConcat(s: Schema, i: nat, start: nat, a: bytes, b: bytes, m: Msg)
    returns (first: nat)
    requires WellFormed(s) && start <= i < |s| == |m.fields|
    requires var r := FastRest(s, i, FieldTag(s[start]), a, m); r.Success? && r.atEnd
    ensures var last := LastRead(s, a, Some(i));
            && (last.Some? ==> first <= last.value < |s|)
            && FastRest(s, i, FieldTag(s[start]), a + b, m)
               == Resume(s, last, first, b, FastRest(s, i, FieldTag(s[start]), a, m).m)
    decreases |a|, 2
  {
    first := start;
    if a == [] {
      assert a + b == b;
    } else {
      var j := JumpTarget(s, i, a);
      assert (a + b)[0] == a[0] && JumpTarget(s, i, a + b) == j;
      if j < |s| {
        JumpReadsTag(s, i, a);
        FastValueIsReadValue(s[j], a[1..]);
        assert (a + b)[1..] == a[1..] + b;
        first := FieldConcat(s, j, start, a[1..], b, m);
      } else {
        first := FromConcat(s, a, b, m);
        LastReadForgets(s, a, Some(i), m);
      }
    }
  }

  /** What an input with a record in it ends with does not depend on what came before it. */
  lemma LastReadForgets(s: Schema, a: bytes, prev: Option<nat>, m: Msg)
    requires WellFormed(s) && |m.fields| == |s| && a != []
    requires FastFrom(s, a, m).Success? && FastFrom(s, a, m).atEnd
    ensures LastRead(s, a, prev) == LastRead(s, a, None)
  {
    var t := ReadTag(a).value;
    if FieldOf(s, t.value) < |s| {
      FastValueIsReadValue(s[FieldOf(s, t.value)], t.rest);
    }
  }

  /* ---------- What the tag in the variable is good for ---------- */

  /** Two readers behind field `i` that hold different tags build the same message exactly when the
      input is refused or the jumps do not reach a bad enum. */
  lemma {:induction false} TagMatters(s: Schema, i: nat, first: nat, second: nat, b: bytes, m: Msg)
    requires WellFormed(s) && i < |s| == |m.fields| && first < |s| && second < |s| && first != second
    ensures FastField(s, i, FieldTag(s[first]), b, m) == FastField(s, i, FieldTag(s[second]), b, m)
       <==> || FastField(s, i, FieldTag(s[second]), b, m).Failure?
            || !BadChain(s, i, b)
    decreases |b|, 3
  {
    FastValueIsReadValue(s[i], b);
    TagIsOneByte(s, first);
    TagIsOneByte(s, second);
    FieldShape(s, i, FieldTag(s[first]), b, m, m);
    FieldShape(s, i, FieldTag(s[second]), b, m, m);
    if ReadValue(s[i].kind, b).Some? {
      var v := ReadValue(s[i].kind, b).value;
      var x := FastFile(s, m, i, FieldTag(s[first]), v.value);
      var y := FastFile(s, m, i, FieldTag(s[second]), v.value);
      if BadEnum(s[i].kind, v.value) {
        if FastRest(s, i, FieldTag(s[second]), v.rest, y).Success? {
          StaleTagsDiverge(s, i, first, second, m, v.value);
          RestShape(s, i, FieldTag(s[first]), v.rest, x, x);
          RestShape(s, i, FieldTag(s[second]), v.rest, y, y);
          RestShape(s, i, FieldTag(s[first]), v.rest, x, y);
          PrefixesDiffer(x.unknown, y.unknown, FastRest(s, i, FieldTag(s[first]), v.rest, x).m.unknown,
                         FastRest(s, i, FieldTag(s[second]), v.rest, y).m.unknown);
        }
      } else {
        var j := JumpTarget(s, i, v.rest);
        if j < |s| {
          TagMatters(s, j, first, second, v.rest[1..], x);
        }
      }
    }
  }

  lemma StaleTagsDiverge(s: Schema, i: nat, first: nat, second: nat, m: Msg, v: Value)
    requires WellFormed(s) && i < |s| == |m.fields| && first < |s| && second < |s| && first != second
    requires BadEnum(s[i].kind, v)
    ensures var x, y := FastFile(s, m, i, FieldTag(s[first]), v), FastFile(s, m, i, FieldTag(s[second]), v);
            && x.fields == y.fields
            && exists k :: 0 <= k < |x.unknown| && k < |y.unknown| && x.unknown[k] != y.unknown[k]
  {
    TagIsOneByte(s, first);
    TagIsOneByte(s, second);
    var x, y := FastFile(s, m, i, FieldTag(s[first]), v), FastFile(s, m, i, FieldTag(s[second]), v);
    assert x.unknown[|m.unknown|] == FieldTag(s[first]);
    assert y.unknown[|m.unknown|] == FieldTag(s[second]);
  }

  /** Behind field `i`: going on with an old tag and starting afresh agree exactly when the input is
      refused or no run of jumps reaches a bad enum. */
  lemma ResumeMatters(s: Schema, i: nat, first: nat, b: bytes, m: Msg)
    requires WellFormed(s) && first <= i < |s| == |m.fields|
    ensures FastRest(s, i, FieldTag(s[first]), b, m) == FastFrom(s, b, m)
       <==> FastFrom(s, b, m).Failure? || !ChainsToBadEnum(s, i, b)
  {
    var j := JumpTarget(s, i, b);
    if j < |s| {
      JumpReadsTag(s, i, b);
      if j != first {
        TagMatters(s, j, first, j, b[1..], m);
      } else {
        RepeatedHasNoChain(s, j, b[1..]);
      }
    }
  }

  /** The repeated field is the last one: no enum comes behind it. */
  lemma {:induction false} RepeatedHasNoChain(s: Schema, i: nat, b: bytes)
    requires WellFormed(s) && i < |s| && s[i].kind.Sub?
    ensures !BadChain(s, i, b)
    decreases |b|
  {
    if ReadValue(s[i].kind, b).Some? {
      var rest := ReadValue(s[i].kind, b).value.rest;
      if JumpTarget(s, i, rest) < |s| {
        RepeatedHasNoChain(s, i, rest[1..]);
      }
    }
  }

  /* ---------- Main results ---------- */

  /** For the parser of the file: reading `a + b` is MergeFrom of the two readings if and only if `b` is
      refused or no run of jumps from the last record of `a` reaches a bad enum in `b`. */
  lemma ParseConcatIsMerge(s: Schema, a: bytes, b: bytes)
    requires WellFormed(s) && FastFrom(s, a, Empty(s)).Success? && FastFrom(s, a, Empty(s)).atEnd
    ensures FastFrom(s, a + b, Empty(s))
            == MergeInto(s, FastFrom(s, a, Empty(s)).m, FastFrom(s, b, Empty(s)))
       <==> FastFrom(s, b, Empty(s)).Failure? || !ChainsOverSeam(s, a, b)
  {
    var m := FastFrom(s, a, Empty(s)).m;
    var first := FromConcat(s, a, b, Empty(s));
    MergeEmpty(s, m);
    FromMerge(s, b, m, Empty(s));
    var last := LastRead(s, a, None);
    if last.Some? {
      ResumeMatters(s, last.value, first, b, m);
    }
  }

  /** A schema without enums has no bad ones to jump to: every message but OpenSessionRequest. */
  lemma {:induction false} NoLoginNoChain(s: Schema, i: nat, b: bytes)
    requires NoLogin(s) && i < |s|
    ensures !ChainsToBadEnum(s, i, b)
    decreases |b|
  {
    var j := JumpTarget(s, i, b);
    if j < |s| && ReadValue(s[j].kind, b[1..]).Some? {
      NoLoginNoChain(s, j, ReadValue(s[j].kind, b[1..]).value.rest);
    }
  }

  lemma ParseIsHomomorphism(s: Schema, a: bytes, b: bytes)
    requires WellFormed(s) && NoLogin(s) && FastFrom(s, a, Empty(s)).Success? && FastFrom(s, a, Empty(s)).atEnd
    ensures FastFrom(s, a + b, Empty(s))
         == MergeInto(s, FastFrom(s, a, Empty(s)).m, FastFrom(s, b, Empty(s)))
  {
    ParseConcatIsMerge(s, a, b);
    var last := LastRead(s, a, None);
    if last.Some? && last.value < |s| {
      NoLoginNoChain(s, last.value, b);
    }
  }
}
