/**
 Setting up and unwinding a GP operation in place: the TCI page shared with the secure side and the
 caller's operation are objects; the two methods are tied to the functions of GpOperation.dfy.
 */
module GpObjects {
  import opened Wire
  import opened Ioctl
  import opened GpOperation

  class Tci {
    const params: array<Param>
    var types: Word
    var ready: bool
    var returnOrigin: U32
    var returnStatus: U32

    predicate Valid()
    {
      params.Length == PARAMETERS
    }

    /** A zeroed page. */
    constructor ()
      ensures Valid() && fresh(params) && params[..] == seq(PARAMETERS, _ => Param(0, 0, 0))
      ensures types == Zero() && !ready && returnOrigin == 0 && returnStatus == 0
    {
      params := new Param[PARAMETERS](_ => Param(0, 0, 0));
      types, ready, returnOrigin, returnStatus := Zero(), false, 0, 0;
    }

    /** The sanity checks of unwinding. */
    predicate Answered()
      reads this
    {
      GpOperation.Answered(returnOrigin, returnStatus)
    }
  }

  /** TEEC_Operation. */
  class ClientOperation {
    var types: Word
    const params: array<Ext>
    var started: nat

    predicate Valid()
    {
      params.Length == PARAMETERS
    }

    function View(): (op: Operation)
      requires Valid()
      reads this, params
      ensures ValidOp(op)
    {
      Operation(types, params[..])
    }

    constructor (types: Word, initial: seq<Ext>)
      requires |initial| == PARAMETERS
      ensures Valid() && fresh(params) && View() == Operation(types, initial)
    {
      this.types, started := types, 0;
      params := new Ext[PARAMETERS](i requires 0 <= i < |initial| => initial[i]);
    }
  }

  /** The internal parameter once the loop of setting up has passed it. */
  function ValueIn(op: Operation, i: nat, p: Param): Param
    requires ValidOp(op) && i < PARAMETERS
  {
    var t := TypeAt(op, i);
    if t == VALUE_INPUT || t == VALUE_INOUT then p.(a := op.params[i].a, b := op.params[i].b) else p
  }

  /** The slots of different parameters are different. */
  lemma {:induction false} SlotsGrow(op: Operation, i: nat, n: nat)
    requires ValidOp(op) && i < n <= PARAMETERS && WantedAt(op, i)
    ensures |Slots(op, i)| < |Slots(op, n)| && Slots(op, n)[|Slots(op, i)|] == SlotAt(op, i)
  {
    if i < n - 1 {
      SlotsGrow(op, i, n - 1);
    }
  }

  predicate Refuses(op: Operation, n: nat)
    requires ValidOp(op) && n <= PARAMETERS
  {
    exists i: nat :: i < n && RefusedAt(op, i)
  }

  /** A position belongs to one parameter. */
  lemma SamePosition(op: Operation, i: nat, k: nat)
    requires ValidOp(op) && i < PARAMETERS && k < PARAMETERS && WantedAt(op, i) && WantedAt(op, k)
    requires |Slots(op, i)| == |Slots(op, k)|
    ensures i == k
  {
    if i < k {
      SlotsGrow(op, i, k);
    } else if k < i {
      SlotsGrow(op, k, i);
    }
  }

  /** The slots of the first `i` parameters, each with the parameter it belongs to. */
  ghost predicate Collected(op: Operation, i: nat, bufs: seq<Slot>, owners: seq<nat>)
    requires ValidOp(op) && i <= PARAMETERS
  {
    && bufs == Slots(op, i) && |owners| == |bufs|
    && forall j :: 0 <= j < |owners| ==> owners[j] < i && WantedAt(op, owners[j]) && |Slots(op, owners[j])| == j
  }

  lemma CollectMore(op: Operation, i: nat, bufs: seq<Slot>, owners: seq<nat>)
    requires ValidOp(op) && i < PARAMETERS && Collected(op, i, bufs, owners)
    ensures if WantedAt(op, i) then Collected(op, i + 1, bufs + [SlotAt(op, i)], owners + [i])
            else Collected(op, i + 1, bufs, owners)
  {
    if WantedAt(op, i) {
      var more := owners + [i];
      assert more[|owners|] == i;
      assert forall j :: 0 <= j < |owners| ==> more[j] == owners[j];
    }
  }

  /** One round of the first loop: the value is copied, or the slot and its owner noted. */
  method CollectOne(tci: Tci, operation: ClientOperation, i: nat, bufs: array<Slot>, owners: array<nat>, n: nat)
    returns (m: nat, ok: bool)
    requires tci.Valid() && operation.Valid() && bufs.Length == MAP_MAX == owners.Length && n <= i < PARAMETERS
    modifies tci`types, tci.params, bufs, owners
    ensures ok == !RefusedAt(operation.View(), i)
    ensures tci.params[..] == if ok then old(tci.params[..])[i := ValueIn(operation.View(), i, old(tci.params[i]))]
                              else old(tci.params[..])
    ensures ok ==> tci.types == OrInto(old(tci.types), TranslatedAt(operation.View(), i), i)
    ensures ok ==> m == n + (if WantedAt(operation.View(), i) then 1 else 0)
    ensures ok && WantedAt(operation.View(), i) ==>
              bufs[..m] == old(bufs[..n]) + [SlotAt(operation.View(), i)] && owners[..m] == old(owners[..n]) + [i]
    ensures ok && !WantedAt(operation.View(), i) ==>
              bufs[..m] == old(bufs[..n]) && owners[..m] == old(owners[..n])
  {
    var t := ParamType(operation.types, i);
    var e := operation.params[i];
    m, ok := n, !Refused(t, e);
    if ok {
      if t == VALUE_INPUT || t == VALUE_INOUT {
        tci.params[i] := tci.params[i].(a := e.a, b := e.b);
      } else if Wanted(t, e) {
        bufs[n], owners[n] := SlotOf(t, e), i;
        m := n + 1;
      }
      tci.types := OrInto(tci.types, Translate(t, e), i);
    }
  }

  /** The internal parameters after the first `n` rounds. */
  predicate CopiedUpTo(op: Operation, before: seq<Param>, now: seq<Param>, n: nat)
    requires ValidOp(op) && n <= PARAMETERS
  {
    && ValidParams(before) && ValidParams(now)
    && (forall k: nat :: k < n ==> now[k] == ValueIn(op, k, before[k]))
    && (forall k: nat :: n <= k < PARAMETERS ==> now[k] == before[k])
  }

  lemma CopiedMore(op: Operation, before: seq<Param>, now: seq<Param>, n: nat)
    requires ValidOp(op) && n < PARAMETERS && CopiedUpTo(op, before, now, n)
    ensures CopiedUpTo(op, before, now[n := ValueIn(op, n, now[n])], n + 1)
  {
  }

  lemma TranslationsGrow(op: Operation, i: nat)
    requires ValidOp(op) && i < PARAMETERS
    ensures TypesWord(Translations(op, i + 1)) == OrInto(TypesWord(Translations(op, i)), TranslatedAt(op, i), i)
  {
    assert Translations(op, i + 1)[..i] == Translations(op, i);
  }

  /** The first loop. */
  method CollectSlots(tci: Tci, operation: ClientOperation, bufs: array<Slot>, owners: array<nat>)
    returns (n: nat, ok: bool, ghost done: nat)
    requires tci.Valid() && operation.Valid() && bufs.Length == MAP_MAX == owners.Length && tci.types == Zero()
    modifies tci`types, tci.params, bufs, owners
    ensures ok == Accepted(operation.View())
    ensures ok ==> done == PARAMETERS
    ensures done <= PARAMETERS && CopiedUpTo(operation.View(), old(tci.params[..]), tci.params[..], done)
    ensures ok ==>
              && tci.types == TypesWord(Translations(operation.View(), PARAMETERS))
              && n <= MAP_MAX && Collected(operation.View(), PARAMETERS, bufs[..n], owners[..n])
  {
    hide Translate, OrInto, Refused, ValueIn, Collected, CopiedUpTo, Refuses, TypesWord, Translations;
    ghost var op := operation.View();
    ghost var before := tci.params[..];
    n, done := 0, 0;
    NothingCollected(op, before);
    assert bufs[..0] == [] && owners[..0] == [];
    for i := 0 to PARAMETERS
      invariant done == i
      invariant n <= i && Collected(op, i, bufs[..n], owners[..n]) && tci.types == TypesWord(Translations(op, i))
      invariant !Refuses(op, i)
      invariant CopiedUpTo(op, before, tci.params[..], i)
    {
      CopiedMore(op, before, tci.params[..], i);
      CollectMore(op, i, bufs[..n], owners[..n]);
      TranslationsGrow(op, i);
      RefusesMore(op, i);
      n, ok := CollectOne(tci, operation, i, bufs, owners, n);
      if !ok {
        return;
      }
      done := i + 1;
    }
    RefusesNone(op);
    ok := true;
  }

  lemma NothingCollected(op: Operation, before: seq<Param>)
    requires ValidOp(op) && ValidParams(before)
    ensures Collected(op, 0, [], []) && TypesWord(Translations(op, 0)) == Zero()
    ensures CopiedUpTo(op, before, before, 0) && !Refuses(op, 0)
  {
  }

  lemma RefusesMore(op: Operation, i: nat)
    requires ValidOp(op) && i < PARAMETERS && !Refuses(op, i)
    ensures Refuses(op, i + 1) <==> RefusedAt(op, i)
    ensures RefusedAt(op, i) ==> !Accepted(op)
  {
  }

  lemma RefusesNone(op: Operation)
    requires ValidOp(op) && !Refuses(op, PARAMETERS)
    ensures Accepted(op)
  {
  }

  /** The internal parameter once the first `j` slots have their addresses. */
  function Filled(op: Operation, i: nat, p: Param, svas: seq<U64>, j: nat): Param
    requires ValidOp(op) && i < PARAMETERS && |svas| == MAP_MAX
  {
    if MappedAt(op, i) && |Slots(op, i)| < j then ParamAfter(op, i, p, svas) else ValueIn(op, i, p)
  }

  /** Slot `j` belongs to parameter `i`, and only that one changes. */
  lemma FilledNext(op: Operation, i: nat, k: nat, p: Param, svas: seq<U64>, j: nat)
    requires ValidOp(op) && i < PARAMETERS && k < PARAMETERS && |svas| == MAP_MAX
    requires WantedAt(op, i) && |Slots(op, i)| == j < MAP_MAX
    ensures Filled(op, k, p, svas, j + 1)
         == if k == i && SlotAt(op, i).va != 0
            then ValueIn(op, i, p).(a := svas[j] % TWO_32, b := SlotAt(op, i).len)
            else Filled(op, k, p, svas, j)
  {
    if WantedAt(op, k) && |Slots(op, k)| == j {
      SamePosition(op, i, k);
    }
  }

  /** Filling in what the client has mapped. */
  method FillAddresses(tci: Tci, ghost op: Operation, ghost before: seq<Param>, bufs: array<Slot>, owners: array<nat>,
                       n: nat, svas: seq<U64>)
    requires tci.Valid() && bufs.Length == MAP_MAX == owners.Length == |svas| && ValidOp(op) && ValidParams(before)
    requires n <= MAP_MAX && forall j :: n <= j < MAP_MAX ==> bufs[j].va == 0
    requires Collected(op, PARAMETERS, bufs[..n], owners[..n])
    requires forall i: nat :: i < PARAMETERS ==> tci.params[i] == ValueIn(op, i, before[i])
    modifies tci.params
    ensures tci.params[..] == ParamsAfter(op, before, svas)
  {
    for j := 0 to MAP_MAX
      invariant forall k: nat :: k < PARAMETERS ==> tci.params[k] == Filled(op, k, before[k], svas, j)
    {
      if j < n {
        ghost var i := owners[..n][j];
        SlotsGrow(op, i, PARAMETERS);
        assert bufs[j] == bufs[..n][j] == SlotAt(op, i);
        forall k: nat | k < PARAMETERS {
          FilledNext(op, i, k, before[k], svas, j);
        }
      } else {
        forall k: nat | k < PARAMETERS
          ensures Filled(op, k, before[k], svas, j + 1) == Filled(op, k, before[k], svas, j)
        {
          if WantedAt(op, k) {
            SlotsGrow(op, k, PARAMETERS);
          }
        }
      }
      if bufs[j].va != 0 {
        tci.params[owners[j]] := tci.params[owners[j]].(a := svas[j] % TWO_32, b := bufs[j].len);
      }
    }
    forall i: nat | i < PARAMETERS
      ensures tci.params[i] == ParamAfter(op, i, before[i], svas)
    {
      if WantedAt(op, i) {
        SlotsGrow(op, i, PARAMETERS);
      }
    }
  }

  /** The slots that are left are marked as empty. */
  method Pad(bufs: array<Slot>, n: nat)
    requires bufs.Length == MAP_MAX && n <= MAP_MAX
    modifies bufs
    ensures bufs[..] == Padded(old(bufs[..n])) && bufs[..n] == old(bufs[..n])
    ensures forall j :: n <= j < MAP_MAX ==> bufs[j].va == 0
  {
    for j := n to MAP_MAX
      invariant bufs[..n] == old(bufs[..n])
      invariant forall k :: n <= k < j ==> bufs[k] == Null()
    {
      bufs[j] := Null();
    }
    assert bufs[..] == Padded(old(bufs[..n])) by {
      assert forall k :: 0 <= k < n ==> bufs[k] == bufs[..n][k];
    }
  }

  /** _TEEC_SetupOperation. `answer` is what the client answers if it is asked to map: nothing, or the
      secure addresses. `asked` are the slots it is given, `unwound` those a failure hands back. */
  method SetupOperation(tci: Tci, operation: ClientOperation, answer: Option<seq<U64>>)
    returns (result: U32, origin: Option<U32>, asked: Option<seq<Slot>>, unwound: Option<seq<Slot>>)
    requires tci.Valid() && operation.Valid() && (answer.Some? ==> |answer.value| == MAP_MAX)
    modifies tci, tci.params, operation`started, operation.params
    ensures operation.View() == old(operation.View())
    ensures asked == if Accepted(operation.View()) && Slots(operation.View(), PARAMETERS) != []
                     then Some(Padded(Slots(operation.View(), PARAMETERS))) else None
    ensures result == if !Accepted(operation.View()) then ERROR_BAD_PARAMETERS
                      else if asked.Some? && answer.None? then ERROR_GENERIC else SUCCESS
    ensures origin == if result == ERROR_BAD_PARAMETERS then Some(ORIGIN_API)
                      else if result == ERROR_GENERIC then Some(ORIGIN_COMMS) else None
    ensures tci.returnOrigin == old(tci.returnOrigin)
    ensures result == SUCCESS ==>
              && unwound == None && tci.ready && tci.returnStatus == ERROR_BAD_STATE
              && tci.types == TypesWord(Translations(operation.View(), PARAMETERS))
              && tci.params[..] == ParamsAfter(operation.View(), old(tci.params[..]),
                                               if answer.Some? then answer.value else seq(MAP_MAX, _ => 0))
    ensures result != SUCCESS ==>
              && tci.types == Zero() && tci.ready == old(tci.ready)
              && tci.params[..] == seq(PARAMETERS, _ => Param(0, 0, 0))
              && unwound == if old(tci.Answered())
                               && Unwound(operation.View(), old(tci.params[..]), PARAMETERS) != []
                            then Some(Padded(Unwound(operation.View(), old(tci.params[..]), PARAMETERS))) else None
  {
    hide Translations, TypesWord, RefusedAt;
    ghost var op := operation.View();
    ghost var before := tci.params[..];
    tci.types := Zero();
    operation.started := 1;
    var bufs := new Slot[MAP_MAX](_ => Null());
    var owners := new nat[MAP_MAX](_ => 0);
    var n, ok, done := CollectSlots(tci, operation, bufs, owners);
    result, asked, unwound := if ok then SUCCESS else ERROR_BAD_PARAMETERS, None, None;
    origin := if ok then None else Some(ORIGIN_API);
    if ok && n > 0 {
      Pad(bufs, n);
      asked := Some(bufs[..]);
      match answer {
        case None =>
          result, origin := ERROR_GENERIC, Some(ORIGIN_COMMS);
        case Some(svas) =>
          FillAddresses(tci, op, before, bufs, owners, n, svas);
      }
    }
    if result != SUCCESS {
      UnwoundSame(op, before, tci.params[..], PARAMETERS);
      var _, _, asking := UnwindOperation(tci, operation, false);
      unwound := asking;
      ZeroBlock(tci);
      return;
    }
    if n == 0 {
      assert Slots(op, PARAMETERS) == [];
      NothingToFill(op, before, tci.params[..], if answer.Some? then answer.value else seq(MAP_MAX, _ => 0));
    }
    tci.returnStatus := ERROR_BAD_STATE;
    tci.ready := true;
  }

  lemma NothingToFill(op: Operation, before: seq<Param>, now: seq<Param>, svas: seq<U64>)
    requires ValidOp(op) && Slots(op, PARAMETERS) == [] && |svas| == MAP_MAX
    requires CopiedUpTo(op, before, now, PARAMETERS)
    ensures now == ParamsAfter(op, before, svas)
  {
    NothingMapped(op);
  }

  lemma NothingMapped(op: Operation)
    requires ValidOp(op) && Slots(op, PARAMETERS) == []
    ensures forall i: nat :: i < PARAMETERS ==> !MappedAt(op, i)
  {
    forall i: nat | i < PARAMETERS
      ensures !WantedAt(op, i)
    {
      if WantedAt(op, i) {
        SlotsGrow(op, i, PARAMETERS);
        assert false;
      }
    }
  }

  /** Copying values in does not touch what unwinding looks at. */
  lemma {:induction false} UnwoundSame(op: Operation, ps: seq<Param>, qs: seq<Param>, n: nat)
    requires ValidOp(op) && ValidParams(ps) && ValidParams(qs) && n <= PARAMETERS
    requires forall i: nat :: i < PARAMETERS ==> qs[i] == ps[i] || qs[i] == ValueIn(op, i, ps[i])
    ensures Unwound(op, qs, n) == Unwound(op, ps, n)
  {
    if n > 0 {
      UnwoundSame(op, ps, qs, n - 1);
    }
  }

  method ZeroBlock(tci: Tci)
    requires tci.Valid()
    modifies tci`types, tci.params
    ensures tci.types == Zero() && tci.params[..] == seq(PARAMETERS, _ => Param(0, 0, 0))
  {
    tci.types := Zero();
    for i := 0 to PARAMETERS
      invariant forall k :: 0 <= k < i ==> tci.params[k] == Param(0, 0, 0)
      modifies tci.params
    {
      tci.params[i] := Param(0, 0, 0);
    }
  }

  /** What the caller gets back of a parameter. */
  function CopiedBack(t: bv4, e: Ext, p: Param): (r: Ext)
    ensures VaOf(t, r) == VaOf(t, e)
  {
    if t == VALUE_OUTPUT || t == VALUE_INOUT then e.(a := p.a, b := p.b)
    else if t == TEMP_OUTPUT || t == TEMP_INOUT || t == PARTIAL_OUTPUT || t == PARTIAL_INOUT
            || (t == WHOLE && e.parent.flags != Small(MEM_INPUT)) then e.(size := p.outputSize)
    else e
  }

  /** What it is to hand parameter `e` of type `t` back as `r`, field by field, `p` being what the secure side
      has made of it: values with output (2, 3), memory with output (6, 7, 14, 15), whole memory (12) unless it
      is for input only, and everything else. */
  predicate HandsOver(t: bv4, e: Ext, p: Param, r: Ext)
  {
    if (t as int) in {2, 3} then r.a == p.a && r.b == p.b && r.size == e.size && SameMemory(e, r)
    else if (t as int) in {6, 7, 14, 15} || (t as int == 12 && !InputOnly(e.parent.flags))
    then r.a == e.a && r.b == e.b && r.size == p.outputSize && SameMemory(e, r)
    else r == e
  }

  predicate SameMemory(e: Ext, r: Ext)
  {
    r.buffer == e.buffer && r.parent == e.parent && r.offset == e.offset
  }

  predicate InputOnly(flags: Word)
  {
    flags[0] == 1 && forall k :: 1 <= k < 8 ==> flags[k] == 0
  }

  lemma CopiedHandsOver(t: bv4, e: Ext, p: Param)
    ensures HandsOver(t, e, p, CopiedBack(t, e, p))
  {
  }

  function Returned(op: Operation, ps: seq<Param>): (r: seq<Ext>)
    requires ValidOp(op) && ValidParams(ps)
    ensures |r| == PARAMETERS
  {
    seq(PARAMETERS, i requires 0 <= i < PARAMETERS => CopiedBack(TypeAt(op, i), op.params[i], ps[i]))
  }

  /** _TEEC_UnwindOperation. `asked` are the slots the client is asked to unmap, if it is asked. */
  method UnwindOperation(tci: Tci, operation: ClientOperation, copyValues: bool)
    returns (result: U32, origin: U32, asked: Option<seq<Slot>>)
    requires tci.Valid() && operation.Valid()
    modifies operation`started, operation.params
    ensures operation.types == old(operation.types)
    ensures !tci.Answered() ==>
              && result == ERROR_COMMUNICATION && origin == ORIGIN_COMMS && asked == None
              && operation.View() == old(operation.View())
    ensures tci.Answered() ==>
              && result == tci.returnStatus && origin == tci.returnOrigin
              && operation.params[..] == (if copyValues then Returned(old(operation.View()), tci.params[..])
                                          else old(operation.params[..]))
              && var slots := Unwound(old(operation.View()), tci.params[..], PARAMETERS);
                 asked == if slots == [] then None else Some(Padded(slots))
    ensures tci.Answered() && copyValues ==>
              forall i: nat :: i < PARAMETERS ==>
                HandsOver(operation.types[i], old(operation.params[..])[i], tci.params[i], operation.params[i])
  {
    ghost var op := operation.View();
    ghost var ps := tci.params[..];
    operation.started := 2;
    asked := None;
    if tci.returnOrigin == 0 || (tci.returnOrigin != ORIGIN_TRUSTED_APP && tci.returnStatus != SUCCESS) {
      return ERROR_COMMUNICATION, ORIGIN_COMMS, None;
    }
    origin := tci.returnOrigin;
    var bufs := new Slot[MAP_MAX](_ => Null());
    var n := 0;
    for i := 0 to PARAMETERS
      invariant n <= i && bufs[..n] == Unwound(op, ps, i) && operation.types == op.types
      invariant forall k: nat :: k < i ==>
                  operation.params[k] == if copyValues then CopiedBack(TypeAt(op, k), op.params[k], ps[k])
                                         else op.params[k]
      invariant forall k: nat :: i <= k < PARAMETERS ==> operation.params[k] == op.params[k]
    {
      n := UnwindOne(tci, operation, i, copyValues, bufs, n, op);
    }
    if n > 0 {
      Pad(bufs, n);
      asked := Some(bufs[..]);
    }
    forall i: nat | i < PARAMETERS {
      CopiedHandsOver(op.types[i], op.params[i], ps[i]);
    }
    return tci.returnStatus, origin, asked;
  }

  /** One round of the loop of unwinding: what the secure side has returned, and the slot. */
  method UnwindOne(tci: Tci, operation: ClientOperation, i: nat, copyValues: bool, bufs: array<Slot>, n: nat,
                   ghost op: Operation)
    returns (m: nat)
    requires tci.Valid() && operation.Valid() && bufs.Length == MAP_MAX && n <= i < PARAMETERS
    requires ValidOp(op) && operation.types == op.types && operation.params[i] == op.params[i]
    modifies operation.params, bufs
    ensures forall k: nat :: k < PARAMETERS && k != i ==> operation.params[k] == old(operation.params[k])
    ensures operation.params[i] == if copyValues then CopiedBack(TypeAt(op, i), op.params[i], tci.params[i])
                                   else op.params[i]
    ensures m == n + (if UnwoundAt(op, tci.params[..], i) then 1 else 0)
    ensures bufs[..m] == old(bufs[..n])
                         + (if UnwoundAt(op, tci.params[..], i) then [UnwoundSlot(op, tci.params[..], i)] else [])
  {
    var t := ParamType(operation.types, i);
    var p := tci.params[i];
    if copyValues {
      operation.params[i] := CopiedBack(t, operation.params[i], p);
    }
    m := n;
    if IsMemref(t) && p.b > 0 {
      bufs[n] := Slot(VaOf(t, operation.params[i]), p.b, p.a, 0);
      m := n + 1;
    }
  }
}
