/**
 GP operations (tee_client_api.cpp): what setting an operation up writes into the TCI and maps, and
 what unwinding it reads from there and unmaps. Constants are those of the GlobalPlatform TEE Client
 API Specification v1.0, section 4.4.
 */
module GpOperation {
  import opened Wire
  import opened Ioctl

  const PARAMETERS := 4

  const NONE: bv4 := 0x0
  const VALUE_INPUT: bv4 := 0x1
  const VALUE_OUTPUT: bv4 := 0x2
  const VALUE_INOUT: bv4 := 0x3
  const TEMP_INPUT: bv4 := 0x5
  const TEMP_OUTPUT: bv4 := 0x6
  const TEMP_INOUT: bv4 := 0x7
  const WHOLE: bv4 := 0xC
  const PARTIAL_INPUT: bv4 := 0xD
  const PARTIAL_OUTPUT: bv4 := 0xE
  const PARTIAL_INOUT: bv4 := 0xF

  const MEM_INPUT: bv4 := 1
  const MEM_OUTPUT: bv4 := 2
  const MEM_INOUT: bv4 := 3

  const SUCCESS: U32 := 0
  const ERROR_GENERIC: U32 := 0xFFFF_0000
  const ERROR_BAD_PARAMETERS: U32 := 0xFFFF_0006
  const ERROR_BAD_STATE: U32 := 0xFFFF_0007
  const ERROR_COMMUNICATION: U32 := 0xFFFF_000E

  const ORIGIN_API: U32 := 1
  const ORIGIN_COMMS: U32 := 2
  const ORIGIN_TRUSTED_APP: U32 := 4

  /** A 32-bit word as its eight nibbles, lowest first: all shifts here are by multiples of four. */
  type Word = w: seq<bv4> | |w| == 8 witness [0, 0, 0, 0, 0, 0, 0, 0]

  /** The uint8_t `paramType`. */
  datatype Byte = Byte(low: bv4, high: bv4)

  function Zero(): Word { [0, 0, 0, 0, 0, 0, 0, 0] }

  function Small(n: bv4): Word { [n, 0, 0, 0, 0, 0, 0, 0] }

  /** TEEC_SharedMemory. */
  datatype Shared = Shared(buffer: U64, size: U64, flags: Word)

  /** One parameter as the caller gives it; which fields count depends on its type. `size` is that of
      the temporary or of the registered memory reference. */
  datatype Ext = Ext(a: U32, b: U32, buffer: U64, size: U64, parent: Shared, offset: U64)

  /** _TEEC_ParameterInternal, a union: `a` is value.a and memref.sVirtualAddr, `b` is value.b and
      memref.sVirtualLen. */
  datatype Param = Param(a: U32, b: U32, outputSize: U32)

  datatype Operation = Operation(types: Word, params: seq<Ext>)

  /* ---------- Types ---------- */

  /** _TEEC_GET_PARAM_TYPE. */
  function ParamType(types: Word, i: nat): bv4
    requires i < PARAMETERS
  {
    types[i]
  }

  predicate IsTemp(t: bv4)
  {
    t == TEMP_INPUT || t == TEMP_OUTPUT || t == TEMP_INOUT
  }

  predicate IsPartial(t: bv4)
  {
    t == PARTIAL_INPUT || t == PARTIAL_OUTPUT || t == PARTIAL_INOUT
  }

  predicate IsMemref(t: bv4)
  {
    IsTemp(t) || t == WHOLE || IsPartial(t)
  }

  predicate IsValueOrNone(t: bv4)
  {
    t == NONE || t == VALUE_INPUT || t == VALUE_OUTPUT || t == VALUE_INOUT
  }

  /** The checks that end the loop with a bad parameter. The sum wraps around as a size_t. */
  predicate Refused(t: bv4, e: Ext)
  {
    || (!IsValueOrNone(t) && !IsMemref(t))
    || (IsPartial(t)
        && (|| (e.parent.flags[0] & MEM_INOUT == MEM_INPUT && t == PARTIAL_OUTPUT)
            || (e.parent.flags[0] & MEM_INOUT == MEM_OUTPUT && t == PARTIAL_INPUT)
            || (e.offset + e.size) % TWO_64 > e.parent.size))
  }

  /** The type as the secure side is told: that a reference is whole or partial is not transmitted.
      The parent's flags are cut to 8 bits. */
  function Translate(t: bv4, e: Ext): Byte
  {
    if t == WHOLE then Byte(e.parent.flags[0] | 4, e.parent.flags[1])
    else Byte(if IsPartial(t) then t & TEMP_INOUT else t, 0)
  }

  predicate ValidOp(op: Operation)
  {
    |op.params| == PARAMETERS
  }

  function TypeAt(op: Operation, i: nat): bv4
    requires i < PARAMETERS
  {
    ParamType(op.types, i)
  }

  predicate RefusedAt(op: Operation, i: nat)
    requires ValidOp(op) && i < PARAMETERS
  {
    Refused(TypeAt(op, i), op.params[i])
  }

  predicate Accepted(op: Operation)
    requires ValidOp(op)
  {
    forall i: nat :: i < PARAMETERS ==> !RefusedAt(op, i)
  }

  function TranslatedAt(op: Operation, i: nat): Byte
    requires ValidOp(op) && i < PARAMETERS
  {
    Translate(TypeAt(op, i), op.params[i])
  }

  function Translations(op: Operation, n: nat): (r: seq<Byte>)
    requires ValidOp(op) && n <= PARAMETERS
    ensures |r| == n
  {
    seq(n, i requires 0 <= i < n => TranslatedAt(op, i))
  }

  /** `word |= t << 4 * i`. */
  function OrInto(word: Word, t: Byte, i: nat): Word
    requires i < PARAMETERS
  {
    word[i := word[i] | t.low][i + 1 := word[i + 1] | t.high]
  }

  /** The word the loop has built from the first `n` types. */
  function TypesWord(ts: seq<Byte>): Word
    requires |ts| <= PARAMETERS
  {
    if ts == [] then Zero()
    else OrInto(TypesWord(ts[..|ts| - 1]), ts[|ts| - 1], |ts| - 1)
  }

  lemma OrZero(x: bv4)
    ensures 0 | x == x && x | 0 == x
  {
  }

  /** What is in the word: in each nibble the low half of its own type, and whatever the type before
      it has spilled. */
  lemma {:induction false} WordNibbles(ts: seq<Byte>, i: nat)
    requires |ts| <= PARAMETERS && i < 8
    ensures TypesWord(ts)[i]
         == (if i < |ts| then ts[i].low else 0) | (if 0 < i <= |ts| then ts[i - 1].high else 0)
  {
    OrZero(0);
    if ts != [] {
      var last := ts[|ts| - 1];
      WordNibbles(ts[..|ts| - 1], i);
      OrZero(last.low);
      OrZero(last.high);
    }
  }

  /** Every nibble of the TCI's word decodes to the translation of the caller's type exactly when no
      translation spills out of its nibble. */
  lemma TypesDecode(op: Operation)
    requires ValidOp(op)
    ensures var w := TypesWord(Translations(op, PARAMETERS));
            (forall i: nat :: i < PARAMETERS ==> Byte(ParamType(w, i), 0) == TranslatedAt(op, i))
            <==> forall i: nat :: i < PARAMETERS ==> TranslatedAt(op, i).high == 0
  {
    var ts := Translations(op, PARAMETERS);
    var w := TypesWord(ts);
    if forall i: nat :: i < PARAMETERS ==> TranslatedAt(op, i).high == 0 {
      forall i: nat | i < PARAMETERS
        ensures Byte(ParamType(w, i), 0) == TranslatedAt(op, i)
      {
        WordNibbles(ts, i);
        OrZero(ts[i].low);
        assert i > 0 ==> ts[i - 1] == TranslatedAt(op, i - 1);
      }
    }
  }

  /** Only the flags of a whole reference can spill, and only if they are none of the specification's. */
  lemma Spills(t: bv4, e: Ext)
    ensures Translate(t, e).high == 0 <==> t != WHOLE || e.parent.flags[1] == 0
  {
  }

  /** For whole memory with flags as registered (input, output or both) the secure side is told a
      temporary reference of the same direction. */
  lemma WholeReadsAsTemp(e: Ext)
    requires e.parent.flags in {Small(MEM_INPUT), Small(MEM_OUTPUT), Small(MEM_INOUT)}
    ensures Translate(WHOLE, e)
         == Byte(if e.parent.flags == Small(MEM_INPUT) then TEMP_INPUT
                 else if e.parent.flags == Small(MEM_OUTPUT) then TEMP_OUTPUT else TEMP_INOUT, 0)
  {
  }

  /* ---------- Slots ---------- */

  /** The address both directions compute. */
  function VaOf(t: bv4, e: Ext): U64
  {
    if t == WHOLE then e.parent.buffer
    else if IsPartial(t) then (e.parent.buffer + e.offset) % TWO_64
    else e.buffer
  }

  function SizeOf(t: bv4, e: Ext): U64
  {
    if t == WHOLE then e.parent.size else e.size
  }

  /** Whether the loop asks for a slot: memory of a size that is not zero, a temporary one not at null. */
  predicate Wanted(t: bv4, e: Ext)
  {
    IsMemref(t) && SizeOf(t, e) != 0 && (IsTemp(t) ==> e.buffer != 0)
  }

  function FlagsOf(t: bv4, e: Ext): U32
  {
    (if t == WHOLE then e.parent.flags[0] & MEM_INOUT else t & MEM_INOUT) as int
  }

  function SlotOf(t: bv4, e: Ext): Slot
  {
    Slot(VaOf(t, e), SizeOf(t, e) % TWO_32, 0, FlagsOf(t, e))
  }

  predicate WantedAt(op: Operation, i: nat)
    requires ValidOp(op) && i < PARAMETERS
  {
    Wanted(TypeAt(op, i), op.params[i])
  }

  function SlotAt(op: Operation, i: nat): Slot
    requires ValidOp(op) && i < PARAMETERS
  {
    SlotOf(TypeAt(op, i), op.params[i])
  }

  /** The compacted slots of the first `n` parameters. */
  function Slots(op: Operation, n: nat): (r: seq<Slot>)
    requires ValidOp(op) && n <= PARAMETERS
    ensures |r| <= n
  {
    if n == 0 then [] else Slots(op, n - 1) + (if WantedAt(op, n - 1) then [SlotAt(op, n - 1)] else [])
  }

  function Null(): Slot { Slot(0, 0, 0, 0) }

  /** What is handed to the client: the slots, then empty ones. */
  function Padded(s: seq<Slot>): (r: seq<Slot>)
    requires |s| <= MAP_MAX
    ensures |r| == MAP_MAX && s <= r
    ensures forall j :: |s| <= j < MAP_MAX ==> r[j] == Null()
  {
    seq(MAP_MAX, j requires 0 <= j < MAP_MAX => if j < |s| then s[j] else Null())
  }

  /** Whether parameter `i` comes out mapped: its slot is not at null. */
  predicate MappedAt(op: Operation, i: nat)
    requires ValidOp(op) && i < PARAMETERS
  {
    WantedAt(op, i) && SlotAt(op, i).va != 0
  }

  /** The internal parameter after the loop and a mapping that gave the slots the addresses `svas`. */
  function ParamAfter(op: Operation, i: nat, p: Param, svas: seq<U64>): Param
    requires ValidOp(op) && i < PARAMETERS && |svas| == MAP_MAX
  {
    var t := TypeAt(op, i);
    if t == VALUE_INPUT || t == VALUE_INOUT then p.(a := op.params[i].a, b := op.params[i].b)
    else if MappedAt(op, i) then p.(a := svas[|Slots(op, i)|] % TWO_32, b := SlotAt(op, i).len)
    else p
  }

  predicate ValidParams(ps: seq<Param>)
  {
    |ps| == PARAMETERS
  }

  function ParamsAfter(op: Operation, ps: seq<Param>, svas: seq<U64>): (r: seq<Param>)
    requires ValidOp(op) && ValidParams(ps) && |svas| == MAP_MAX
    ensures ValidParams(r)
  {
    seq(PARAMETERS, i requires 0 <= i < PARAMETERS => ParamAfter(op, i, ps[i], svas))
  }

  /** Whether unwinding lets go of parameter `i`. */
  predicate UnwoundAt(op: Operation, ps: seq<Param>, i: nat)
    requires ValidOp(op) && ValidParams(ps) && i < PARAMETERS
  {
    IsMemref(TypeAt(op, i)) && ps[i].b > 0
  }

  function UnwoundSlot(op: Operation, ps: seq<Param>, i: nat): Slot
    requires ValidOp(op) && ValidParams(ps) && i < PARAMETERS
  {
    Slot(VaOf(TypeAt(op, i), op.params[i]), ps[i].b, ps[i].a, 0)
  }

  function Unwound(op: Operation, ps: seq<Param>, n: nat): (r: seq<Slot>)
    requires ValidOp(op) && ValidParams(ps) && n <= PARAMETERS
    ensures |r| <= n
  {
    if n == 0 then []
    else Unwound(op, ps, n - 1) + (if UnwoundAt(op, ps, n - 1) then [UnwoundSlot(op, ps, n - 1)] else [])
  }

  function MappedSlot(op: Operation, svas: seq<U64>, i: nat): Slot
    requires ValidOp(op) && i < PARAMETERS && |svas| == MAP_MAX
  {
    Slot(SlotAt(op, i).va, SlotAt(op, i).len, svas[|Slots(op, i)|] % TWO_32, 0)
  }

  /** What setting up has mapped, in the form unwinding should ask for it. */
  function Mapped(op: Operation, svas: seq<U64>, n: nat): (r: seq<Slot>)
    requires ValidOp(op) && n <= PARAMETERS && |svas| == MAP_MAX
    ensures |r| <= n
  {
    if n == 0 then []
    else
      Mapped(op, svas, n - 1)
      + (if MappedAt(op, n - 1) then [MappedSlot(op, svas, n - 1)] else [])
  }

  /** A reply that keeps the mapped addresses and lengths. */
  predicate KeepsMappings(op: Operation, ps: seq<Param>, reply: seq<Param>)
    requires ValidOp(op) && ValidParams(ps) && ValidParams(reply)
  {
    forall i: nat :: i < PARAMETERS && IsMemref(TypeAt(op, i)) ==> reply[i].a == ps[i].a && reply[i].b == ps[i].b
  }

  /** When unwinding the first `n` parameters is exact: what is mapped has a length, and what is not
      mapped has none left in the TCI from before. */
  predicate Exact(op: Operation, ps: seq<Param>, n: nat)
    requires ValidOp(op) && ValidParams(ps) && n <= PARAMETERS
  {
    forall i: nat :: i < n && IsMemref(TypeAt(op, i)) ==>
      if MappedAt(op, i) then SlotAt(op, i).len != 0 else ps[i].b == 0
  }

  /** No parameter that is not mapped has a length left over from an earlier operation. */
  predicate NothingLeft(op: Operation, ps: seq<Param>)
    requires ValidOp(op) && ValidParams(ps)
  {
    forall i: nat :: i < PARAMETERS && IsMemref(TypeAt(op, i)) && !MappedAt(op, i) ==> ps[i].b == 0
  }

  /** No mapped parameter has lost its length to the cut to 32 bits. */
  predicate NothingLost(op: Operation)
    requires ValidOp(op)
  {
    forall i: nat :: i < PARAMETERS && MappedAt(op, i) ==> SlotAt(op, i).len != 0
  }

  predicate HasEmpty(s: seq<Slot>)
  {
    exists j :: 0 <= j < |s| && s[j].len == 0
  }

  /** One parameter: unwinding takes it for mapped if it finds a length, be it new or left over. */
  lemma UnwoundWhen(op: Operation, ps: seq<Param>, svas: seq<U64>, reply: seq<Param>, i: nat)
    requires ValidOp(op) && ValidParams(ps) && ValidParams(reply) && i < PARAMETERS && |svas| == MAP_MAX
    requires KeepsMappings(op, ParamsAfter(op, ps, svas), reply)
    ensures UnwoundAt(op, reply, i)
       <==> IsMemref(TypeAt(op, i)) && (if MappedAt(op, i) then SlotAt(op, i).len != 0 else ps[i].b != 0)
    ensures UnwoundAt(op, reply, i) ==> UnwoundSlot(op, reply, i).len != 0
    ensures UnwoundAt(op, reply, i) && MappedAt(op, i) ==> UnwoundSlot(op, reply, i) == MappedSlot(op, svas, i)
  {
    assert ParamsAfter(op, ps, svas)[i] == ParamAfter(op, i, ps[i], svas);
  }

  /** Unwinding reads from the TCI what setting up has written there. */
  lemma {:induction false} UnwoundIsMapped(op: Operation, ps: seq<Param>, svas: seq<U64>, reply: seq<Param>, n: nat)
    requires ValidOp(op) && ValidParams(ps) && ValidParams(reply) && n <= PARAMETERS && |svas| == MAP_MAX
    requires KeepsMappings(op, ParamsAfter(op, ps, svas), reply) && Exact(op, ps, n)
    ensures Unwound(op, reply, n) == Mapped(op, svas, n)
  {
    if n > 0 {
      UnwoundIsMapped(op, ps, svas, reply, n - 1);
      UnwoundWhen(op, ps, svas, reply, n - 1);
    }
  }

  lemma EmptyGrows(s: seq<Slot>, x: Slot)
    ensures HasEmpty(s + [x]) <==> HasEmpty(s) || x.len == 0
  {
    assert forall j :: 0 <= j < |s| ==> (s + [x])[j] == s[j];
    assert (s + [x])[|s|] == x;
  }

  lemma {:induction false} UnwoundFull(op: Operation, ps: seq<Param>, svas: seq<U64>, reply: seq<Param>, n: nat)
    requires ValidOp(op) && ValidParams(ps) && ValidParams(reply) && n <= PARAMETERS && |svas| == MAP_MAX
    requires KeepsMappings(op, ParamsAfter(op, ps, svas), reply)
    ensures !HasEmpty(Unwound(op, reply, n))
  {
    if n > 0 {
      UnwoundFull(op, ps, svas, reply, n - 1);
      UnwoundWhen(op, ps, svas, reply, n - 1);
      if UnwoundAt(op, reply, n - 1) {
        EmptyGrows(Unwound(op, reply, n - 1), UnwoundSlot(op, reply, n - 1));
      } else {
        assert Unwound(op, reply, n) == Unwound(op, reply, n - 1);
      }
    }
  }

  lemma {:induction false} EmptyMapped(op: Operation, svas: seq<U64>, n: nat, i: nat)
    requires ValidOp(op) && i < n <= PARAMETERS && |svas| == MAP_MAX && MappedAt(op, i) && SlotAt(op, i).len == 0
    ensures HasEmpty(Mapped(op, svas, n))
  {
    if i < n - 1 {
      EmptyMapped(op, svas, n - 1, i);
    }
    if MappedAt(op, n - 1) {
      EmptyGrows(Mapped(op, svas, n - 1), MappedSlot(op, svas, n - 1));
    } else {
      assert Mapped(op, svas, n) == Mapped(op, svas, n - 1);
    }
  }

  /** If a mapped parameter has lost its length, unwinding finds no slot like it; if one has a length
      left over, unwinding finds too many. */
  lemma {:induction false} UnwoundCounts(op: Operation, ps: seq<Param>, svas: seq<U64>, reply: seq<Param>, n: nat)
    requires ValidOp(op) && ValidParams(ps) && ValidParams(reply) && n <= PARAMETERS && |svas| == MAP_MAX
    requires KeepsMappings(op, ParamsAfter(op, ps, svas), reply)
    requires forall i: nat :: i < n && MappedAt(op, i) ==> SlotAt(op, i).len != 0
    ensures |Unwound(op, reply, n)| >= |Mapped(op, svas, n)|
    ensures !Exact(op, ps, n) ==> |Unwound(op, reply, n)| > |Mapped(op, svas, n)|
  {
    if n > 0 {
      UnwoundCounts(op, ps, svas, reply, n - 1);
      UnwoundWhen(op, ps, svas, reply, n - 1);
    }
  }

  /** With no length lost, every mapping is handed back, with whatever was left over in between. */
  lemma {:induction false} MappedInUnwound(op: Operation, ps: seq<Param>, svas: seq<U64>, reply: seq<Param>, n: nat)
    requires ValidOp(op) && ValidParams(ps) && ValidParams(reply) && n <= PARAMETERS && |svas| == MAP_MAX
    requires KeepsMappings(op, ParamsAfter(op, ps, svas), reply) && NothingLost(op)
    ensures forall x :: x in Mapped(op, svas, n) ==> x in Unwound(op, reply, n)
  {
    if n > 0 {
      MappedInUnwound(op, ps, svas, reply, n - 1);
      UnwoundWhen(op, ps, svas, reply, n - 1);
    }
  }

  /** With no length left over, all that can go wrong is that a mapped parameter has lost its length; then
      fewer slots are handed back than were mapped. */
  lemma {:induction false} UnwoundLess(op: Operation, ps: seq<Param>, svas: seq<U64>, reply: seq<Param>, n: nat)
    requires ValidOp(op) && ValidParams(ps) && ValidParams(reply) && n <= PARAMETERS && |svas| == MAP_MAX
    requires KeepsMappings(op, ParamsAfter(op, ps, svas), reply) && NothingLeft(op, ps)
    ensures |Unwound(op, reply, n)| <= |Mapped(op, svas, n)|
    ensures !Exact(op, ps, n) ==> |Unwound(op, reply, n)| < |Mapped(op, svas, n)|
  {
    if n > 0 {
      UnwoundLess(op, ps, svas, reply, n - 1);
      UnwoundWhen(op, ps, svas, reply, n - 1);
    }
  }

  /** The sanity checks of unwinding: the reply names an origin, and an error comes from the trusted
      application. */
  predicate Answered(returnOrigin: U32, returnStatus: U32)
  {
    returnOrigin != 0 && (returnOrigin == ORIGIN_TRUSTED_APP || returnStatus == SUCCESS)
  }

  /** What unwinding hands back: nothing, if the reply does not pass the checks. */
  function HandedBack(op: Operation, reply: seq<Param>, returnOrigin: U32, returnStatus: U32): (r: seq<Slot>)
    requires ValidOp(op) && ValidParams(reply)
    ensures |r| <= PARAMETERS
  {
    if Answered(returnOrigin, returnStatus) then Unwound(op, reply, PARAMETERS) else []
  }

  lemma {:induction false} MappedNone(op: Operation, svas: seq<U64>, n: nat)
    requires ValidOp(op) && n <= PARAMETERS && |svas| == MAP_MAX
    ensures Mapped(op, svas, n) == [] <==> forall i: nat :: i < n ==> !MappedAt(op, i)
  {
    if n > 0 {
      MappedNone(op, svas, n - 1);
    }
  }

  /** For any TCI, any operation and any reply that keeps the mappings: unwinding asks for exactly the
      slots that were mapped, in the same order, if and only if the reply passes the checks and the
      operation is `Exact`, or it does not pass and nothing was mapped. */
  lemma SetupUnwind(op: Operation, ps: seq<Param>, svas: seq<U64>, reply: seq<Param>,
                    returnOrigin: U32, returnStatus: U32)
    requires ValidOp(op) && ValidParams(ps) && ValidParams(reply) && |svas| == MAP_MAX
    requires KeepsMappings(op, ParamsAfter(op, ps, svas), reply)
    ensures HandedBack(op, reply, returnOrigin, returnStatus) == Mapped(op, svas, PARAMETERS)
       <==> if Answered(returnOrigin, returnStatus) then Exact(op, ps, PARAMETERS)
            else forall i: nat :: i < PARAMETERS ==> !MappedAt(op, i)
  {
    if !Answered(returnOrigin, returnStatus) {
      MappedNone(op, svas, PARAMETERS);
    } else if Exact(op, ps, PARAMETERS) {
      UnwoundIsMapped(op, ps, svas, reply, PARAMETERS);
    } else {
      UnwoundFull(op, ps, svas, reply, PARAMETERS);
      if i: nat :| i < PARAMETERS && MappedAt(op, i) && SlotAt(op, i).len == 0 {
        EmptyMapped(op, svas, PARAMETERS, i);
      } else {
        UnwoundCounts(op, ps, svas, reply, PARAMETERS);
      }
    }
  }

  /** On a zeroed operation block all that can go wrong is a size whose low 32 bits are zero. */
  lemma ZeroedIsExact(op: Operation, ps: seq<Param>)
    requires ValidOp(op) && ValidParams(ps) && forall i: nat :: i < PARAMETERS ==> ps[i] == Param(0, 0, 0)
    ensures Exact(op, ps, PARAMETERS)
       <==> forall i: nat :: i < PARAMETERS && MappedAt(op, i) ==> SizeOf(TypeAt(op, i), op.params[i]) % TWO_32 != 0
  {
    if !Exact(op, ps, PARAMETERS) {
      var i: nat :| i < PARAMETERS && IsMemref(TypeAt(op, i))
        && !(if MappedAt(op, i) then SlotAt(op, i).len != 0 else ps[i].b == 0);
      assert MappedAt(op, i);
    }
  }

  /** A second operation on the same TCI, with a memory reference of size zero where the first had
      mapped one: once it has been answered, the first one's mapping is asked to be removed again. */
  lemma StaleMappingUnwound(op: Operation, ps: seq<Param>, svas: seq<U64>, returnOrigin: U32, returnStatus: U32)
    requires ValidOp(op) && ValidParams(ps) && |svas| == MAP_MAX
    requires op.types == Small(TEMP_INPUT) && op.params[0].size == 0 && ps[0].b == 16
    ensures Slots(op, PARAMETERS) == []
    ensures HandedBack(op, ParamsAfter(op, ps, svas), returnOrigin, returnStatus)
         == if Answered(returnOrigin, returnStatus) then [Slot(op.params[0].buffer, 16, ps[0].a, 0)] else []
  {
    assert TypeAt(op, 0) == 5 && TypeAt(op, 1) == 0 && TypeAt(op, 2) == 0 && TypeAt(op, 3) == 0;
    var after := ParamsAfter(op, ps, svas);
    assert after[0] == ps[0];
    assert Slots(op, 1) == [] && Slots(op, 2) == [] && Slots(op, 3) == [];
    assert Unwound(op, after, 1) == [UnwoundSlot(op, after, 0)];
    assert Unwound(op, after, 2) == Unwound(op, after, 1) && Unwound(op, after, 3) == Unwound(op, after, 2);
  }
}
