/**
 A GP operation over the client of the driver: setting it up maps its memory references through
 DriverClient::map, and unwinding it takes exactly those mappings back.
 */
module GpTransaction {
  import opened Wire
  import opened Ioctl
  import opened Driver
  import MT = MapTransaction
  import GP = GpOperation
  import opened Unwinding

  /** The slots that setting up fills in name the descriptors the driver has added. */
  lemma {:induction false} MappedNames(op: GP.Operation, slots: seq<Slot>, answers: seq<MapAnswer>, svas: seq<U64>,
                                       n: nat)
    requires GP.ValidOp(op) && n <= GP.PARAMETERS && |slots| == |answers| == |svas| == MAP_MAX
    requires GP.Slots(op, n) <= slots
    requires forall j :: 0 <= j < |GP.Slots(op, n)| && slots[j].va != 0 ==> svas[j] == MT.SvaOf(answers[j])
    ensures MT.AllName(GP.Mapped(op, svas, n), MT.Chosen(slots, answers, 0, |GP.Slots(op, n)|))
  {
    if n > 0 {
      var before := GP.Slots(op, n - 1);
      MappedNames(op, slots, answers, svas, n - 1);
      if GP.WantedAt(op, n - 1) {
        MT.ChosenLast(slots, answers, 0, |before|);
        assert slots[|before|] == GP.Slots(op, n)[|before|] == GP.SlotAt(op, n - 1);
      }
    }
  }

  lemma {:induction false} ChosenPadding(slots: seq<Slot>, answers: seq<MapAnswer>, m: nat, f: nat)
    requires m <= f <= |slots| == |answers| && forall j :: m <= j < f ==> slots[j].va == 0
    ensures MT.Chosen(slots, answers, 0, f) == MT.Chosen(slots, answers, 0, m)
    decreases f
  {
    if m < f {
      ChosenPadding(slots, answers, m, f - 1);
      MT.ChosenLast(slots, answers, 0, f - 1);
    }
  }

  lemma {:induction false} MappedNotNull(op: GP.Operation, svas: seq<U64>, n: nat)
    requires GP.ValidOp(op) && n <= GP.PARAMETERS && |svas| == MAP_MAX
    ensures forall j :: 0 <= j < |GP.Mapped(op, svas, n)| ==> GP.Mapped(op, svas, n)[j].va != 0
  {
    if n > 0 {
      MappedNotNull(op, svas, n - 1);
    }
  }

  lemma {:induction false} GivenPadded(s: seq<Slot>, i: nat)
    requires |s| <= MAP_MAX && i <= MAP_MAX && forall j :: 0 <= j < |s| ==> s[j].va != 0
    ensures MT.Given(GP.Padded(s), i, MAP_MAX) == if i < |s| then s[i..] else []
    decreases MAP_MAX - i
  {
    if i < MAP_MAX {
      GivenPadded(s, i + 1);
      if i < |s| {
        assert GP.Padded(s)[i] == s[i];
        assert s[i..] == [s[i]] + s[i + 1..];
        assert i + 1 == |s| ==> s[i + 1..] == [];
      }
    }
  }

  /** The addresses the client hands back. */
  function SvasOf(slots: seq<Slot>): (r: seq<U64>)
    ensures |r| == |slots|
  {
    seq(|slots|, j requires 0 <= j < |slots| => slots[j].sva)
  }

  /** From the device with everything mapped, unwinding goes back to the device before. */
  lemma UnwindRestores(d: Dev, k: nat, sid: U32, op: GP.Operation, ps: seq<GP.Param>, slots: seq<Slot>,
                       answers: seq<MapAnswer>, svas: seq<U64>, reply: seq<GP.Param>, accepts: seq<Daemon>,
                       bs: seq<Desc>)
    requires k == SessionIndex(d.sessions, sid) < |d.sessions|
    requires GP.ValidOp(op) && GP.ValidParams(ps) && GP.ValidParams(reply)
    requires |answers| == |svas| == |accepts| == MAP_MAX && slots == GP.Padded(GP.Slots(op, GP.PARAMETERS))
    requires forall j :: 0 <= j < |accepts| ==> accepts[j].Accepts?
    requires bs == MT.Chosen(slots, answers, 0, MAP_MAX) && MT.Removable(d, k, bs)
    requires forall j :: 0 <= j < MAP_MAX && slots[j].va != 0 ==> svas[j] == MT.SvaOf(answers[j])
    requires GP.Exact(op, ps, GP.PARAMETERS) && GP.KeepsMappings(op, GP.ParamsAfter(op, ps, svas), reply)
    ensures Unmap(MT.Added(d, k, bs), sid, GP.Padded(GP.Unwound(op, reply, GP.PARAMETERS)), accepts).0 == d
  {
    var unwound := GP.Mapped(op, svas, GP.PARAMETERS);
    GP.UnwoundIsMapped(op, ps, svas, reply, GP.PARAMETERS);
    MappedNames(op, slots, answers, svas, GP.PARAMETERS);
    ChosenPadding(slots, answers, |GP.Slots(op, GP.PARAMETERS)|, MAP_MAX);
    MappedNotNull(op, svas, GP.PARAMETERS);
    GivenPadded(unwound, 0);
    assert unwound[0..] == unwound;
    assert MT.AllName(MT.Given(GP.Padded(unwound), 0, MAP_MAX), bs);
    MT.TakenBack(d, k, sid, bs, GP.Padded(unwound), 0, MAP_MAX, accepts, UnmapState(MT.Added(d, k, bs), false, false));
  }

  lemma MappedByDriver(d: Dev, k: nat, sid: U32, slots: seq<Slot>, answers: seq<MapAnswer>, unwinding: seq<Daemon>)
    requires k == SessionIndex(d.sessions, sid) < |d.sessions| && |slots| == |answers| == |unwinding|
    requires MT.SaneAnswers(d, k, answers) && MT.FailsAt(d.sessions[k].bufs, slots, answers, 0) == |slots|
    ensures var mapped := Map(d, sid, slots, answers, unwinding);
            && mapped.0 == MT.Added(d, k, MT.Chosen(slots, answers, 0, |slots|))
            && forall j :: 0 <= j < |slots| && slots[j].va != 0 ==> mapped.1[j].sva == MT.SvaOf(answers[j])
    ensures MT.Removable(d, k, MT.Chosen(slots, answers, 0, |slots|))
  {
    var bs := d.sessions[k].bufs;
    MT.FailsAtMeans(bs, slots, answers, 0);
    MT.AddedNothing(d, k);
    assert bs + [] == bs;
    assert MT.Progress(slots, answers, 0) == slots;
    MT.MapShape(d, k, sid, slots, answers, 0, |slots|);
    MT.ChosenRemovable(d, k, slots, answers, |slots|);
  }

  /** The device once unwinding has handed its slots back to the driver, if there are any. */
  function AfterUnwinding(d: Dev, sid: U32, asked: seq<Slot>, accepts: seq<Daemon>): Dev
    requires |asked| <= MAP_MAX == |accepts|
  {
    if asked == [] then d else Unmap(d, sid, GP.Padded(asked), accepts).0
  }

  lemma AddedChanges(d: Dev, k: nat, bs: seq<Desc>)
    requires k < |d.sessions|
    ensures MT.Added(d, k, bs) == d <==> bs == []
  {
    if bs == [] {
      MT.AddedNothing(d, k);
    } else {
      assert |MT.Added(d, k, bs).sessions[k].bufs| == |d.sessions[k].bufs| + |bs|;
    }
  }

  /** Something is mapped by the driver exactly if some parameter comes out mapped. */
  lemma MappedWhen(op: GP.Operation, slots: seq<Slot>, answers: seq<MapAnswer>)
    requires GP.ValidOp(op) && slots == GP.Padded(GP.Slots(op, GP.PARAMETERS)) && |answers| == MAP_MAX
    ensures MT.Chosen(slots, answers, 0, MAP_MAX) == [] <==> forall i: nat :: i < GP.PARAMETERS ==> !GP.MappedAt(op, i)
  {
    var svas := seq(MAP_MAX, j requires 0 <= j < MAP_MAX => MT.SvaOf(answers[j]));
    MappedNames(op, slots, answers, svas, GP.PARAMETERS);
    ChosenPadding(slots, answers, |GP.Slots(op, GP.PARAMETERS)|, MAP_MAX);
    GP.MappedNone(op, svas, GP.PARAMETERS);
  }

  lemma {:induction false} MappedCount(op: GP.Operation, slots: seq<Slot>, answers: seq<MapAnswer>, svas: seq<U64>)
    requires GP.ValidOp(op) && slots == GP.Padded(GP.Slots(op, GP.PARAMETERS)) && |answers| == |svas| == MAP_MAX
    requires forall j :: 0 <= j < MAP_MAX && slots[j].va != 0 ==> svas[j] == MT.SvaOf(answers[j])
    ensures |GP.Mapped(op, svas, GP.PARAMETERS)| == |MT.Chosen(slots, answers, 0, MAP_MAX)|
  {
    MappedNames(op, slots, answers, svas, GP.PARAMETERS);
    ChosenPadding(slots, answers, |GP.Slots(op, GP.PARAMETERS)|, MAP_MAX);
  }

  lemma {:induction false} GivenAtMost(asked: seq<Slot>, i: nat)
    requires |asked| <= MAP_MAX && i <= MAP_MAX
    ensures |MT.Given(GP.Padded(asked), i, MAP_MAX)| <= if i < |asked| then |asked| - i else 0
    decreases MAP_MAX - i
  {
    if i < MAP_MAX {
      GivenAtMost(asked, i + 1);
    }
  }

  /** Handing back fewer slots than were mapped leaves some of them mapped. */
  lemma {:induction false} TooFewHandedBack(d: Dev, k: nat, sid: U32, bs: seq<Desc>, asked: seq<Slot>,
                                         accepts: seq<Daemon>)
    requires k == SessionIndex(d.sessions, sid) < |d.sessions| && |asked| < |bs| && |asked| <= MAP_MAX == |accepts|
    requires forall j :: 0 <= j < |accepts| ==> accepts[j].Accepts?
    ensures AfterUnwinding(MT.Added(d, k, bs), sid, asked, accepts) != d
  {
    var mapped := MT.Added(d, k, bs);
    assert |mapped.sessions[k].bufs| == |d.sessions[k].bufs| + |bs|;
    MT.SameIndex(d.sessions, mapped.sessions, sid, 0);
    MT.UnmapShrinks(UnmapState(mapped, false, false), k, sid, GP.Padded(asked), 0, accepts);
    GivenAtMost(asked, 0);
  }

  /** With nothing mapped, handing slots back changes nothing exactly if none of them is one of the
      session's. */
  lemma {:induction false} HandedBackOnly(d: Dev, k: nat, sid: U32, asked: seq<Slot>, accepts: seq<Daemon>)
    requires k == SessionIndex(d.sessions, sid) < |d.sessions| && |asked| <= MAP_MAX == |accepts|
    requires forall j :: 0 <= j < |accepts| ==> accepts[j].Accepts?
    ensures AfterUnwinding(d, sid, asked, accepts) == d <==> MT.AllHarmless(d.sessions[k].bufs, asked, 0)
  {
    MT.UnmapHarmless(UnmapState(d, false, false), k, sid, GP.Padded(asked), 0, accepts);
    var bufs := d.sessions[k].bufs;
    assert MT.AllHarmless(bufs, GP.Padded(asked), 0) <==> MT.AllHarmless(bufs, asked, 0) by {
      assert forall j :: 0 <= j < |asked| ==> GP.Padded(asked)[j] == asked[j];
    }
  }

  lemma ApartPrepend(had: seq<Desc>, b: Desc, rest: seq<Desc>)
    requires Apart(Held(had, rest)) && MT.NewVa(had, b.va) && forall j :: 0 <= j < |rest| ==> rest[j].va != b.va
    ensures Apart(Held(had, [b] + rest))
  {
    assert forall j :: 0 < j <= |rest| ==> ([b] + rest)[j] == rest[j - 1];
  }

  lemma {:induction false} ChosenApart(d: Dev, k: nat, slots: seq<Slot>, answers: seq<MapAnswer>, i: nat, f: nat)
    requires k < |d.sessions| && i <= f <= |slots| == |answers| && MT.UpTo(d, k, slots, answers, f)
    ensures Apart(Held(d.sessions[k].bufs, MT.Chosen(slots, answers, i, f)))
    decreases f - i
  {
    if i < f {
      ChosenApart(d, k, slots, answers, i + 1, f);
      var rest := MT.Chosen(slots, answers, i + 1, f);
      if slots[i].va != 0 {
        forall j | 0 <= j < |rest|
          ensures rest[j].va != slots[i].va
        {
          var m := MT.ChosenFrom(slots, answers, i + 1, f, j);
        }
        ApartPrepend(d.sessions[k].bufs, MT.DescOf(slots[i], answers[i]), rest);
      } else {
        assert [] + rest == rest;
      }
    }
  }

  lemma ChosenReal(d: Dev, k: nat, slots: seq<Slot>, answers: seq<MapAnswer>, f: nat)
    requires k < |d.sessions| && f <= |slots| == |answers| && MT.UpTo(d, k, slots, answers, f)
    ensures forall b :: b in MT.Chosen(slots, answers, 0, f) ==> b.va != 0 && b.sva != 0
  {
    var bs := MT.Chosen(slots, answers, 0, f);
    forall j | 0 <= j < |bs|
      ensures bs[j].va != 0 && bs[j].sva != 0
    {
      var m := MT.ChosenFrom(slots, answers, 0, f, j);
    }
  }

  /** The empty slots behind those handed back make no difference. */
  lemma PaddedSpares(p: Held, asked: seq<Slot>)
    requires |asked| <= MAP_MAX
    ensures TakeAll(p, GP.Padded(asked)) == TakeAll(p, asked)
    ensures Spares(p, GP.Padded(asked)) <==> Spares(p, asked)
  {
    var nulls := GP.Padded(asked)[|asked|..];
    assert GP.Padded(asked) == asked + nulls;
    TakeConcat(p, asked, nulls);
    EmptySlots(TakeAll(p, asked), nulls);
    SparesWhen(p, asked);
    SparesWhen(p, GP.Padded(asked));
  }

  lemma UnwindingRestores(d: Dev, k: nat, sid: U32, bs: seq<Desc>, asked: seq<Slot>, accepts: seq<Daemon>)
    requires k == SessionIndex(d.sessions, sid) < |d.sessions| && MT.Removable(d, k, bs)
    requires Apart(Held(d.sessions[k].bufs, bs)) && |asked| <= MAP_MAX == |accepts|
    requires forall j :: 0 <= j < |accepts| ==> accepts[j].Accepts?
    ensures var p := Held(d.sessions[k].bufs, bs);
            AfterUnwinding(MT.Added(d, k, bs), sid, asked, accepts) == d
            <==> Spares(p, asked) && TakeAll(p, asked).added == []
  {
    AddedChanges(d, k, bs);
    RestoredWhen(d, k, sid, bs, GP.Padded(asked), accepts);
    PaddedSpares(Held(d.sessions[k].bufs, bs), asked);
  }

  lemma AllNamed(mapped: seq<Slot>, bs: seq<Desc>, asked: seq<Slot>)
    requires MT.AllName(mapped, bs) && forall x :: x in mapped ==> x in asked
    ensures forall b :: b in bs ==> NamedBy(b, asked)
  {
    forall b | b in bs
      ensures NamedBy(b, asked)
    {
      var j :| 0 <= j < |bs| && bs[j] == b;
      assert mapped[j] in mapped;
      var m :| 0 <= m < |asked| && asked[m] == mapped[j];
      assert MT.Names(asked[m], b);
    }
  }

  /** With no length lost, nothing of what was mapped is left, whatever else is handed back. */
  lemma NothingLostTakesAll(op: GP.Operation, ps: seq<GP.Param>, slots: seq<Slot>, answers: seq<MapAnswer>,
                            svas: seq<U64>, reply: seq<GP.Param>, p: Held)
    requires GP.ValidOp(op) && GP.ValidParams(ps) && GP.ValidParams(reply) && GP.NothingLost(op)
    requires slots == GP.Padded(GP.Slots(op, GP.PARAMETERS)) && |answers| == |svas| == MAP_MAX
    requires forall j :: 0 <= j < MAP_MAX && slots[j].va != 0 ==> svas[j] == MT.SvaOf(answers[j])
    requires GP.KeepsMappings(op, GP.ParamsAfter(op, ps, svas), reply)
    requires Apart(p) && p.added == MT.Chosen(slots, answers, 0, MAP_MAX)
    requires forall b :: b in p.added ==> b.va != 0 && b.sva != 0
    ensures TakeAll(p, GP.Unwound(op, reply, GP.PARAMETERS)).added == []
  {
    var asked, mapped := GP.Unwound(op, reply, GP.PARAMETERS), GP.Mapped(op, svas, GP.PARAMETERS);
    MappedNames(op, slots, answers, svas, GP.PARAMETERS);
    ChosenPadding(slots, answers, |GP.Slots(op, GP.PARAMETERS)|, MAP_MAX);
    GP.MappedInUnwound(op, ps, svas, reply, GP.PARAMETERS);
    AllNamed(mapped, p.added, asked);
    AllTaken(p, asked);
  }

  lemma AnsweredRestores(d: Dev, k: nat, sid: U32, op: GP.Operation, ps: seq<GP.Param>, slots: seq<Slot>,
                         answers: seq<MapAnswer>, svas: seq<U64>, reply: seq<GP.Param>, accepts: seq<Daemon>)
    requires k == SessionIndex(d.sessions, sid) < |d.sessions|
    requires GP.ValidOp(op) && GP.ValidParams(ps) && GP.ValidParams(reply)
    requires |answers| == |svas| == |accepts| == MAP_MAX && slots == GP.Padded(GP.Slots(op, GP.PARAMETERS))
    requires MT.SaneAnswers(d, k, answers) && MT.FailsAt(d.sessions[k].bufs, slots, answers, 0) == MAP_MAX
    requires forall j :: 0 <= j < |accepts| ==> accepts[j].Accepts?
    requires forall j :: 0 <= j < MAP_MAX && slots[j].va != 0 ==> svas[j] == MT.SvaOf(answers[j])
    requires GP.KeepsMappings(op, GP.ParamsAfter(op, ps, svas), reply)
    ensures var bs, asked := MT.Chosen(slots, answers, 0, MAP_MAX), GP.Unwound(op, reply, GP.PARAMETERS);
            var p := Held(d.sessions[k].bufs, bs);
            && (AfterUnwinding(MT.Added(d, k, bs), sid, asked, accepts) == d
                <==> Spares(p, asked) && TakeAll(p, asked).added == [])
            && (GP.NothingLost(op) ==> TakeAll(p, asked).added == [])
  {
    var bs := MT.Chosen(slots, answers, 0, MAP_MAX);
    MT.FailsAtMeans(d.sessions[k].bufs, slots, answers, 0);
    MT.ChosenRemovable(d, k, slots, answers, MAP_MAX);
    ChosenApart(d, k, slots, answers, 0, MAP_MAX);
    ChosenReal(d, k, slots, answers, MAP_MAX);
    UnwindingRestores(d, k, sid, bs, GP.Unwound(op, reply, GP.PARAMETERS), accepts);
    if GP.NothingLost(op) {
      NothingLostTakesAll(op, ps, slots, answers, svas, reply, Held(d.sessions[k].bufs, bs));
    }
  }

  /** Setting up through the driver and a reply that keeps the mappings. If the reply does not pass the
      checks of unwinding, everything mapped stays mapped. If it passes, the session's descriptors and the
      kernel's handles are as before if and only if no slot handed back, when its turn comes, takes a
      mapping the session had before, and none of the new ones is left. New ones are left only if a length
      was lost. So the operation restores the device when it is exact; only then, if no length was left
      over from an earlier operation; and if nothing was mapped, when none of the mappings left over is
      one of the session's. */
  lemma OperationRestoresDevice(d: Dev, k: nat, sid: U32, op: GP.Operation, ps: seq<GP.Param>, slots: seq<Slot>,
                                answers: seq<MapAnswer>, unwinding: seq<Daemon>, reply: seq<GP.Param>,
                                returnOrigin: U32, returnStatus: U32, accepts: seq<Daemon>)
    requires k == SessionIndex(d.sessions, sid) < |d.sessions|
    requires GP.ValidOp(op) && GP.ValidParams(ps) && GP.ValidParams(reply)
    requires slots == GP.Padded(GP.Slots(op, GP.PARAMETERS))
    requires |answers| == |unwinding| == |accepts| == MAP_MAX && MT.SaneAnswers(d, k, answers)
    requires forall j :: 0 <= j < |accepts| ==> accepts[j].Accepts?
    requires MT.FailsAt(d.sessions[k].bufs, slots, answers, 0) == MAP_MAX
    requires GP.KeepsMappings(op, GP.ParamsAfter(op, ps, SvasOf(Map(d, sid, slots, answers, unwinding).1)), reply)
    ensures var mapped := Map(d, sid, slots, answers, unwinding).0;
            var after := AfterUnwinding(mapped, sid, GP.HandedBack(op, reply, returnOrigin, returnStatus), accepts);
            if GP.Answered(returnOrigin, returnStatus) then
              && (GP.Exact(op, ps, GP.PARAMETERS) ==> after == d)
              && (GP.NothingLeft(op, ps) ==> (after == d <==> GP.Exact(op, ps, GP.PARAMETERS)))
              && var p, asked := Held(d.sessions[k].bufs, MT.Chosen(slots, answers, 0, MAP_MAX)),
                                 GP.Unwound(op, reply, GP.PARAMETERS);
              && (after == d <==> Spares(p, asked) && TakeAll(p, asked).added == [])
              && (GP.NothingLost(op) ==> (after == d <==> Spares(p, asked)))
              && ((forall i: nat :: i < GP.PARAMETERS ==> !GP.MappedAt(op, i)) ==>
                    (after == d <==> MT.AllHarmless(d.sessions[k].bufs, asked, 0)))
            else after == mapped && (after == d <==> forall i: nat :: i < GP.PARAMETERS ==> !GP.MappedAt(op, i))
  {
    var mapped := Map(d, sid, slots, answers, unwinding);
    var bs := MT.Chosen(slots, answers, 0, MAP_MAX);
    MappedByDriver(d, k, sid, slots, answers, unwinding);
    MappedWhen(op, slots, answers);
    AddedChanges(d, k, bs);
    if GP.Answered(returnOrigin, returnStatus) {
      var svas := SvasOf(mapped.1);
      if GP.Exact(op, ps, GP.PARAMETERS) {
        UnwindRestores(d, k, sid, op, ps, slots, answers, svas, reply, accepts, bs);
        GP.UnwoundIsMapped(op, ps, svas, reply, GP.PARAMETERS);
        GP.MappedNone(op, svas, GP.PARAMETERS);
      } else if GP.NothingLeft(op, ps) {
        GP.UnwoundLess(op, ps, svas, reply, GP.PARAMETERS);
        MappedCount(op, slots, answers, svas);
        TooFewHandedBack(d, k, sid, bs, GP.Unwound(op, reply, GP.PARAMETERS), accepts);
      }
      HandedBackOnly(d, k, sid, GP.Unwound(op, reply, GP.PARAMETERS), accepts);
      AnsweredRestores(d, k, sid, op, ps, slots, answers, svas, reply, accepts);
    }
  }

  lemma {:induction false} SlotsClean(op: GP.Operation, n: nat)
    requires GP.ValidOp(op) && n <= GP.PARAMETERS
    ensures forall j :: 0 <= j < |GP.Slots(op, n)| ==> GP.Slots(op, n)[j].sva == 0
  {
    if n > 0 {
      SlotsClean(op, n - 1);
    }
  }

  /** Setting up an operation that is refused, or whose mapping fails: what is then unwound is what the TCI
      held before. The device is as before if and only if none of the mappings found there is one of the
      session's. */
  lemma {:induction false} FailedSetupRestoresDevice(d: Dev, k: nat, sid: U32, op: GP.Operation, ps: seq<GP.Param>,
                                  slots: seq<Slot>, answers: seq<MapAnswer>, unwinding: seq<Daemon>,
                                  returnOrigin: U32, returnStatus: U32, accepts: seq<Daemon>)
    requires k == SessionIndex(d.sessions, sid) < |d.sessions| && GP.ValidOp(op) && GP.ValidParams(ps)
    requires slots == GP.Padded(GP.Slots(op, GP.PARAMETERS))
    requires |answers| == |unwinding| == |accepts| == MAP_MAX && MT.SaneAnswers(d, k, answers)
    requires forall j :: 0 <= j < MAP_MAX ==> accepts[j].Accepts? && unwinding[j].Accepts?
    requires GP.Accepted(op) ==> MT.FailsAt(d.sessions[k].bufs, slots, answers, 0) < MAP_MAX
    ensures var asked := GP.HandedBack(op, ps, returnOrigin, returnStatus);
            var before := if GP.Accepted(op) then Map(d, sid, slots, answers, unwinding).0 else d;
            AfterUnwinding(before, sid, asked, accepts) == d <==> MT.AllHarmless(d.sessions[k].bufs, asked, 0)
  {
    var asked := GP.HandedBack(op, ps, returnOrigin, returnStatus);
    if GP.Accepted(op) {
      SlotsClean(op, GP.PARAMETERS);
      assert forall j :: 0 <= j < MAP_MAX ==> slots[j].sva == 0;
      MT.MapAllOrNothing(d, k, sid, slots, answers, unwinding);
    }
    HandedBackOnly(d, k, sid, asked, accepts);
  }
}
