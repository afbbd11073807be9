/**
 A GP operation parameter by parameter, with the types and directions of the GlobalPlatform TEE Client API
 Specification v1.0, section 4.4, as numbers: what is refused, what memory is asked for, what the secure side is told,
 and what the caller gets back.
 */
module GpFields {
  import opened Wire
  import opened Ioctl
  import opened GpOperation
  import opened GpObjects

  /** Input 1, output 2, both 3. */
  predicate IsDirection(n: int)
  {
    1 <= n <= 3
  }

  /** The type of a temporary reference (5, 6, 7) or a partial one (13, 14, 15) of a direction. */
  function TempType(direction: int): int
    requires IsDirection(direction)
  {
    4 + direction
  }

  function PartialType(direction: int): int
    requires IsDirection(direction)
  {
    12 + direction
  }

  /** The flags of a parent that are a direction and nothing else. */
  predicate HasDirection(flags: Word, direction: int)
    requires IsDirection(direction)
  {
    flags[0] as int == direction && forall k :: 1 <= k < 8 ==> flags[k] == 0
  }

  /** Types that are not in the specification are refused, values and temporary and whole references never; a
      partial one is refused if it is to be written and its parent is for input only, or the other way round, or
      if it ends behind its parent. */
  lemma Refusals(t: bv4, e: Ext, parent: int)
    requires IsDirection(parent) && HasDirection(e.parent.flags, parent)
    ensures (t as int) in {4, 8, 9, 10, 11} ==> Refused(t, e)
    ensures (t as int) in {0, 1, 2, 3, 5, 6, 7, 12} ==> !Refused(t, e)
    ensures t as int == 13 ==> (Refused(t, e) <==> parent == 2 || (e.offset + e.size) % TWO_64 > e.parent.size)
    ensures t as int == 14 ==> (Refused(t, e) <==> parent == 1 || (e.offset + e.size) % TWO_64 > e.parent.size)
    ensures t as int == 15 ==> (Refused(t, e) <==> (e.offset + e.size) % TWO_64 > e.parent.size)
  {
  }

  /** The memory asked for: a temporary buffer if there is one, the whole parent, or the part of it; each with
      its direction, and nothing of size zero. */
  lemma MemoryAskedFor(t: bv4, e: Ext, direction: int)
    requires IsDirection(direction)
    ensures (t as int) in {0, 1, 2, 3} ==> !Wanted(t, e)
    ensures t as int == TempType(direction) ==>
              && (Wanted(t, e) <==> e.buffer != 0 && e.size != 0)
              && SlotOf(t, e) == Slot(e.buffer, e.size % TWO_32, 0, direction)
    ensures t as int == PartialType(direction) ==>
              && (Wanted(t, e) <==> e.size != 0)
              && SlotOf(t, e) == Slot((e.parent.buffer + e.offset) % TWO_64, e.size % TWO_32, 0, direction)
    ensures t as int == 12 && HasDirection(e.parent.flags, direction) ==>
              && (Wanted(t, e) <==> e.parent.size != 0)
              && SlotOf(t, e) == Slot(e.parent.buffer, e.parent.size % TWO_32, 0, direction)
  {
  }

  /** What the secure side is told: values and temporary references as they are, and a partial or whole one as a
      temporary one of its direction. */
  lemma TypesTold(t: bv4, e: Ext, direction: int)
    requires IsDirection(direction)
    ensures (t as int) in {0, 1, 2, 3, 5, 6, 7} ==> Translate(t, e) == Byte(t, 0)
    ensures t as int == PartialType(direction) || (t as int == 12 && HasDirection(e.parent.flags, direction)) ==>
              Translate(t, e).low as int == TempType(direction) && Translate(t, e).high == 0
  {
  }

  /* ---------- What the caller gets back ---------- */

  /** The reply is taken for one if it names its origin, and either that is the trusted application (4) or the
      status is success (0). */
  lemma AnsweredWhen(origin: U32, status: U32)
    ensures Answered(origin, status) <==> origin == 4 || (origin != 0 && status == 0)
  {
  }

  /** After an answered unwind that copies: output values are the secure side's; the size of memory that it could
      write is the one it has set; and all else is as the caller gave it. */
  lemma GivenBack(op: Operation, ps: seq<Param>, i: nat)
    requires ValidOp(op) && ValidParams(ps) && i < PARAMETERS
    ensures HandsOver(op.types[i], op.params[i], ps[i], Returned(op, ps)[i])
  {
  }

  /** A value that goes in and out and that the secure side leaves alone comes back as it was, whatever else the
      operation has and whatever its memory is mapped to. */
  lemma ValueRoundTrip(op: Operation, ps: seq<Param>, svas: seq<U64>, reply: seq<Param>, i: nat)
    requires ValidOp(op) && ValidParams(ps) && ValidParams(reply) && |svas| == MAP_MAX && i < PARAMETERS
    requires op.types[i] as int == 3
    requires reply[i] == ParamsAfter(op, ps, svas)[i]
    ensures reply[i].a == op.params[i].a && reply[i].b == op.params[i].b
    ensures Returned(op, reply)[i] == op.params[i]
  {
    GivenBack(op, reply, i);
  }

  /** A value that only goes in reaches the secure side, and is not changed by what it writes there. */
  lemma InputArrives(op: Operation, ps: seq<Param>, svas: seq<U64>, reply: seq<Param>, i: nat)
    requires ValidOp(op) && ValidParams(ps) && ValidParams(reply) && |svas| == MAP_MAX && i < PARAMETERS
    requires op.types[i] as int == 1
    ensures var p := ParamsAfter(op, ps, svas)[i];
            p.a == op.params[i].a && p.b == op.params[i].b && p.outputSize == ps[i].outputSize
    ensures Returned(op, reply)[i] == op.params[i]
  {
    GivenBack(op, reply, i);
  }
}
