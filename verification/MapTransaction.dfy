/**
 DriverClient::map is all or nothing, except for what unwinding does with the slot that failed.
 */
module MapTransaction {
  import opened Wire
  import opened Ioctl
  import opened Driver

  predicate Accepted(a: MapAnswer)
  {
    a.Registered? && a.daemon.Accepts?
  }

  function SvaOf(a: MapAnswer): U32
  {
    if Accepted(a) then a.daemon.sva else 0
  }

  /** The descriptor an accepted slot gets. */
  function DescOf(slot: Slot, a: MapAnswer): Desc
  {
    Desc(slot.va, SvaOf(a), slot.len, if a.Registered? then a.handle else 0)
  }

  /** The descriptors of the non-null slots from `i` up to `f`, in slot order. */
  function Chosen(slots: seq<Slot>, answers: seq<MapAnswer>, i: nat, f: nat): seq<Desc>
    requires i <= f <= |slots| == |answers|
    decreases f - i
  {
    if i == f then []
    else (if slots[i].va != 0 then [DescOf(slots[i], answers[i])] else []) + Chosen(slots, answers, i + 1, f)
  }

  function Handles(bs: seq<Desc>): set<nat>
  {
    set j | 0 <= j < |bs| :: bs[j].handle
  }

  /** The device with descriptors added at the end of session `k`. */
  function Added(d: Dev, k: nat, bs: seq<Desc>): Dev
    requires k < |d.sessions|
  {
    WithBufs(d, k, d.sessions[k].bufs + bs).(live := d.live + Handles(bs))
  }

  /** What is asked of the environment: the daemon answers; handles are new; secure addresses are
      not zero, distinct, and new to the session. */
  predicate SaneAnswers(d: Dev, k: nat, answers: seq<MapAnswer>)
    requires k < |d.sessions|
  {
    && (forall j :: 0 <= j < |answers| && answers[j].Registered? ==>
          answers[j].handle !in d.live && !answers[j].daemon.Silent?)
    && (forall j :: 0 <= j < |answers| && Accepted(answers[j]) ==> answers[j].daemon.sva != 0)
    && (forall i, j :: 0 <= i < j < |answers| && answers[i].Registered? && answers[j].Registered? ==>
          answers[i].handle != answers[j].handle)
    && (forall i, j :: 0 <= i < |answers| && Accepted(answers[i]) && 0 <= j < |d.sessions[k].bufs| ==>
          answers[i].daemon.sva != d.sessions[k].bufs[j].sva)
    && (forall i, j :: 0 <= i < j < |answers| && Accepted(answers[i]) && Accepted(answers[j]) ==>
          answers[i].daemon.sva != answers[j].daemon.sva)
  }

  predicate DistinctVas(bs: seq<Desc>)
  {
    forall i, j :: 0 <= i < j < |bs| ==> bs[i].va != bs[j].va
  }

  /** The slots once the loop has failed at `f` (or succeeded, if `f` is their number): addresses
      filled in before it, the failing slot as it was, the later ones cleared. */
  function Marked(slots: seq<Slot>, answers: seq<MapAnswer>, f: nat): (r: seq<Slot>)
    requires f <= |slots| == |answers|
    ensures |r| == |slots|
  {
    seq(|slots|, j requires 0 <= j < |slots| =>
      if j < f then (if slots[j].va != 0 then slots[j].(sva := SvaOf(answers[j])) else slots[j])
      else if j == f then slots[j] else slots[j].(va := 0))
  }

  lemma {:induction false} ChosenLast(slots: seq<Slot>, answers: seq<MapAnswer>, i: nat, f: nat)
    requires i <= f < |slots| == |answers|
    ensures Chosen(slots, answers, i, f + 1)
         == Chosen(slots, answers, i, f) + (if slots[f].va != 0 then [DescOf(slots[f], answers[f])] else [])
    decreases f - i
  {
    var first := if slots[i].va != 0 then [DescOf(slots[i], answers[i])] else [];
    var last := if slots[f].va != 0 then [DescOf(slots[f], answers[f])] else [];
    if i < f {
      ChosenLast(slots, answers, i + 1, f);
      SeqAssoc(first, Chosen(slots, answers, i + 1, f), last);
    } else {
      assert Chosen(slots, answers, i + 1, f + 1) == [];
      assert first + [] == [] + first;
    }
  }

  /** Every chosen descriptor comes from a slot. */
  lemma {:induction false} ChosenFrom(slots: seq<Slot>, answers: seq<MapAnswer>, i: nat, f: nat, m: nat)
    returns (j: nat)
    requires i <= f <= |slots| == |answers|
    requires m < |Chosen(slots, answers, i, f)|
    ensures i <= j < f && slots[j].va != 0
    ensures Chosen(slots, answers, i, f)[m] == DescOf(slots[j], answers[j])
    decreases f - i
  {
    if slots[i].va != 0 && m == 0 {
      j := i;
    } else {
      j := ChosenFrom(slots, answers, i + 1, f, if slots[i].va != 0 then m - 1 else m);
    }
  }

  /* ---------- Mapping ---------- */

  lemma HandlesConcat(a: seq<Desc>, b: seq<Desc>)
    ensures Handles(a + b) == Handles(a) + Handles(b)
  {
    var c := a + b;
    forall h | h in Handles(a) + Handles(b)
      ensures h in Handles(c)
    {
      if h in Handles(a) {
        var j :| 0 <= j < |a| && a[j].handle == h;
        assert c[j].handle == h;
      } else {
        var j :| 0 <= j < |b| && b[j].handle == h;
        assert c[|a| + j].handle == h;
      }
    }
  }

  lemma AddedNothing(d: Dev, k: nat)
    requires k < |d.sessions|
    ensures Added(d, k, []) == d
  {
    assert d.sessions[k].bufs + [] == d.sessions[k].bufs;
    assert d.sessions[k := d.sessions[k]] == d.sessions;
  }

  /** One more descriptor. */
  lemma AddedMore(d: Dev, k: nat, bs: seq<Desc>, b: Desc)
    requires k < |d.sessions|
    ensures AddBuf(Added(d, k, bs), k, b) == Added(d, k, bs + [b])
  {
    SeqAssoc(d.sessions[k].bufs, bs, [b]);
    HandlesConcat(bs, [b]);
    assert [b][0].handle in Handles([b]);
    assert Handles([b]) == {b.handle};
    assert AddBuf(Added(d, k, bs), k, b).sessions == Added(d, k, bs + [b]).sessions;
  }

  /** Adding a descriptor with a new address and handle and removing it changes nothing. */
  lemma AddRemove(d: Dev, k: nat, b: Desc)
    requires k < |d.sessions| && b.handle !in d.live
    requires VaIndex(d.sessions[k].bufs, b.va) == |d.sessions[k].bufs|
    ensures RemoveBuf(AddBuf(d, k, b), k, b.va) == (d, McOk)
  {
    var bs := d.sessions[k].bufs;
    var more := bs + [b];
    assert forall j :: 0 <= j < |bs| ==> more[j] == bs[j];
    assert more[|bs|].va == b.va;
    assert VaIndex(more, b.va) == |bs|;
    assert more[..|bs|] + more[|bs| + 1..] == bs;
    assert AddBuf(d, k, b).sessions[k := AddBuf(d, k, b).sessions[k].(bufs := bs)] == d.sessions;
  }

  /** The slot at which the loop fails, or the number of slots. */
  function FailsAt(bs: seq<Desc>, slots: seq<Slot>, answers: seq<MapAnswer>, i: nat): (f: nat)
    requires i <= |slots| == |answers|
    ensures i <= f <= |slots|
    decreases |slots| - i
  {
    if i == |slots| then i
    else if slots[i].va == 0 then FailsAt(bs, slots, answers, i + 1)
    else if VaIndex(bs, slots[i].va) < |bs| || !Accepted(answers[i]) then i
    else FailsAt(bs + [DescOf(slots[i], answers[i])], slots, answers, i + 1)
  }

  /** A failed loop only clears the slots that are left. */
  lemma {:induction false} AfterFailure(s: MapState, sid: U32, i: nat, answers: seq<MapAnswer>)
    requires i <= |s.slots| == |answers| && s.failed
    ensures var r := MapSlots(s, sid, i, answers);
            && r.dev == s.dev && r.failed && r.mapped == s.mapped
            && r.slots[..i] == s.slots[..i]
            && forall j :: i <= j < |s.slots| ==> r.slots[j] == s.slots[j].(va := 0)
    decreases |s.slots| - i
  {
    if i < |s.slots| {
      var n := MapStep(s, sid, i, answers[i]);
      AfterFailure(n, sid, i + 1, answers);
      var r := MapSlots(s, sid, i, answers);
      assert r.slots[..i] == r.slots[..i + 1][..i] == n.slots[..i + 1][..i] == s.slots[..i];
      assert r.slots[i] == r.slots[..i + 1][i] == n.slots[i];
    }
  }

  /** The loop up to its end: it has added the accepted slots before the failing one, and nothing
      else. */
  lemma {:induction false} MapShape(d: Dev, k: nat, sid: U32, slots: seq<Slot>, answers: seq<MapAnswer>, i: nat, f: nat)
    requires k == SessionIndex(d.sessions, sid) < |d.sessions| && i <= f <= |slots| == |answers|
    requires SaneAnswers(d, k, answers)
    requires f == FailsAt(d.sessions[k].bufs + Chosen(slots, answers, 0, i), slots, answers, i)
    requires forall j :: 0 <= j < i && slots[j].va != 0 ==> answers[j].Registered?
    ensures var before := Chosen(slots, answers, 0, i);
            var s := MapState(Added(d, k, before), Progress(slots, answers, i), false, before != []);
            var after := Chosen(slots, answers, 0, f);
            MapSlots(s, sid, i, answers)
            == MapState(Added(d, k, after), Marked(slots, answers, f), f < |slots|, after != [])
    decreases |slots| - i
  {
    var before := Chosen(slots, answers, 0, i);
    var s := MapState(Added(d, k, before), Progress(slots, answers, i), false, before != []);
    if i == |slots| {
      assert Progress(slots, answers, i) == Marked(slots, answers, i);
    } else {
      ChosenLast(slots, answers, 0, i);
      var slot := slots[i];
      var bs := d.sessions[k].bufs + before;
      AddedSession(d, k, sid, before);
      var n := MapStep(s, sid, i, answers[i]);
      if f == i {
        StepFails(d, k, sid, slots, answers, i, before);
        AfterFailure(n, sid, i + 1, answers);
        var r := MapSlots(n, sid, i + 1, answers);
        assert r.slots == Marked(slots, answers, i) by {
          assert forall j :: 0 <= j <= i ==> r.slots[j] == r.slots[..i + 1][j] == n.slots[..i + 1][j];
        }
      } else {
        var more := Chosen(slots, answers, 0, i + 1);
        assert d.sessions[k].bufs + more == bs + (if slot.va != 0 then [DescOf(slot, answers[i])] else []);
        StepSucceeds(d, k, sid, slots, answers, i, before);
        MapShape(d, k, sid, slots, answers, i + 1, f);
      }
    }
  }

  /** The slots with addresses filled in before `i`. */
  function Progress(slots: seq<Slot>, answers: seq<MapAnswer>, i: nat): (r: seq<Slot>)
    requires i <= |slots| == |answers|
    ensures |r| == |slots|
  {
    seq(|slots|, j requires 0 <= j < |slots| =>
      if j < i && slots[j].va != 0 then slots[j].(sva := SvaOf(answers[j])) else slots[j])
  }

  lemma AddedSession(d: Dev, k: nat, sid: U32, bs: seq<Desc>)
    requires k == SessionIndex(d.sessions, sid) < |d.sessions|
    ensures SessionIndex(Added(d, k, bs).sessions, sid) == k
    ensures Added(d, k, bs).sessions[k].bufs == d.sessions[k].bufs + bs
  {
    var ss := Added(d, k, bs).sessions;
    assert forall j :: 0 <= j < |ss| ==> ss[j].id == d.sessions[j].id;
  }

  lemma HandleIsNew(d: Dev, k: nat, slots: seq<Slot>, answers: seq<MapAnswer>, i: nat, f: nat)
    requires k < |d.sessions| && i <= f < |slots| == |answers| && SaneAnswers(d, k, answers)
    requires answers[f].Registered?
    requires forall j :: i <= j < f && slots[j].va != 0 ==> answers[j].Registered?
    ensures answers[f].handle !in d.live + Handles(Chosen(slots, answers, i, f))
  {
    var bs := Chosen(slots, answers, i, f);
    if answers[f].handle in Handles(bs) {
      var m :| 0 <= m < |bs| && bs[m].handle == answers[f].handle;
      var j := ChosenFrom(slots, answers, i, f, m);
      assert false;
    }
  }

  lemma StepFails(d: Dev, k: nat, sid: U32, slots: seq<Slot>, answers: seq<MapAnswer>, i: nat, before: seq<Desc>)
    requires k == SessionIndex(d.sessions, sid) < |d.sessions| && i < |slots| == |answers|
    requires SaneAnswers(d, k, answers) && before == Chosen(slots, answers, 0, i)
    requires slots[i].va != 0
    requires || VaIndex(d.sessions[k].bufs + before, slots[i].va) < |d.sessions[k].bufs + before|
             || !Accepted(answers[i])
    requires forall j :: 0 <= j < i && slots[j].va != 0 ==> answers[j].Registered?
    ensures var s := MapState(Added(d, k, before), Progress(slots, answers, i), false, before != []);
            MapStep(s, sid, i, answers[i]) == s.(failed := true)
  {
    AddedSession(d, k, sid, before);
    var dev := Added(d, k, before);
    var bs := d.sessions[k].bufs + before;
    if VaIndex(bs, slots[i].va) == |bs| && answers[i].Registered? {
      HandleIsNew(d, k, slots, answers, 0, i);
      AddRemove(dev, k, Desc(slots[i].va, 0, slots[i].len, answers[i].handle));
    }
  }

  lemma StepSucceeds(d: Dev, k: nat, sid: U32, slots: seq<Slot>, answers: seq<MapAnswer>, i: nat, before: seq<Desc>)
    requires k == SessionIndex(d.sessions, sid) < |d.sessions| && i < |slots| == |answers|
    requires before == Chosen(slots, answers, 0, i)
    requires slots[i].va != 0 ==>
               && VaIndex(d.sessions[k].bufs + before, slots[i].va) == |d.sessions[k].bufs + before|
               && Accepted(answers[i])
    ensures var s := MapState(Added(d, k, before), Progress(slots, answers, i), false, before != []);
            var more := Chosen(slots, answers, 0, i + 1);
            MapStep(s, sid, i, answers[i])
            == MapState(Added(d, k, more), Progress(slots, answers, i + 1), false, more != [])
  {
    AddedSession(d, k, sid, before);
    ChosenLast(slots, answers, 0, i);
    if slots[i].va != 0 {
      AddedMore(d, k, before, DescOf(slots[i], answers[i]));
      var p := Progress(slots, answers, i);
      assert p[i := p[i].(sva := SvaOf(answers[i]))] == Progress(slots, answers, i + 1);
    } else {
      assert Progress(slots, answers, i) == Progress(slots, answers, i + 1);
      assert before + [] == before;
    }
  }

  /* ---------- Unwinding ---------- */

  predicate NewVa(bs: seq<Desc>, va: nat)
  {
    forall j :: 0 <= j < |bs| ==> bs[j].va != va
  }

  /** Slots before the failing one were accepted, at addresses that were not mapped yet. */
  lemma {:induction false} FailsAtMeans(bs: seq<Desc>, slots: seq<Slot>, answers: seq<MapAnswer>, i: nat)
    requires i <= |slots| == |answers|
    ensures var f := FailsAt(bs, slots, answers, i);
            && (forall j :: i <= j < f && slots[j].va != 0 ==> Accepted(answers[j]) && NewVa(bs, slots[j].va))
            && (forall j, m :: i <= j < m < f && slots[j].va != 0 ==> slots[j].va != slots[m].va)
            && (f < |slots| ==> slots[f].va != 0)
    decreases |slots| - i
  {
    if i < |slots| && slots[i].va != 0 && VaIndex(bs, slots[i].va) == |bs| && Accepted(answers[i]) {
      var more := bs + [DescOf(slots[i], answers[i])];
      FailsAtMeans(more, slots, answers, i + 1);
      var f := FailsAt(bs, slots, answers, i);
      forall j | i < j < f && slots[j].va != 0
        ensures slots[j].va != slots[i].va && NewVa(bs, slots[j].va)
      {
        assert more[|bs|].va == slots[i].va;
        assert forall m :: 0 <= m < |bs| ==> more[m] == bs[m];
      }
    } else if i < |slots| && slots[i].va == 0 {
      FailsAtMeans(bs, slots, answers, i + 1);
    }
  }

  predicate UpTo(d: Dev, k: nat, slots: seq<Slot>, answers: seq<MapAnswer>, f: nat)
    requires k < |d.sessions| && f <= |slots| == |answers|
  {
    && SaneAnswers(d, k, answers)
    && (forall j :: 0 <= j < f && slots[j].va != 0 ==>
          Accepted(answers[j]) && NewVa(d.sessions[k].bufs, slots[j].va))
    && (forall j, m :: 0 <= j < m < f && slots[j].va != 0 ==> slots[j].va != slots[m].va)
  }

  /** Unmapping the first of the added descriptors. */
  lemma UnmapFirst(d: Dev, k: nat, sid: U32, b: Desc, rest: seq<Desc>, a: Daemon)
    requires k == SessionIndex(d.sessions, sid) < |d.sessions| && NewVa(d.sessions[k].bufs, b.va)
    requires b.va != 0 && b.sva != 0 && a.Accepts?
    requires b.handle !in d.live && b.handle !in Handles(rest)
    ensures UnmapOne(Added(d, k, [b] + rest), sid, b.va, b.sva, b.len, a) == (Added(d, k, rest), McOk)
  {
    var dev := Added(d, k, [b] + rest);
    AddedSession(d, k, sid, [b] + rest);
    var bs := d.sessions[k].bufs;
    FoundBehind(bs, b, rest);
    RemoveFirst(d, k, b, rest);
  }

  lemma FoundBehind(bs: seq<Desc>, b: Desc, rest: seq<Desc>)
    requires NewVa(bs, b.va)
    ensures VaIndex(bs + ([b] + rest), b.va) == |bs|
    ensures HandleIndex(bs + ([b] + rest), b.sva, b.len) < |bs + ([b] + rest)|
  {
    var all := bs + ([b] + rest);
    assert all[|bs|] == b;
    assert forall j :: 0 <= j < |bs| ==> all[j] == bs[j];
  }

  lemma {:induction false} RemoveFirst(d: Dev, k: nat, b: Desc, rest: seq<Desc>)
    requires k < |d.sessions| && VaIndex(d.sessions[k].bufs + ([b] + rest), b.va) == |d.sessions[k].bufs|
    requires b.handle !in d.live && b.handle !in Handles(rest)
    ensures RemoveBuf(Added(d, k, [b] + rest), k, b.va) == (Added(d, k, rest), McOk)
  {
    var dev := Added(d, k, [b] + rest);
    var bs := d.sessions[k].bufs;
    var all := bs + ([b] + rest);
    assert all[|bs|] == b;
    assert all[..|bs|] + all[|bs| + 1..] == bs + rest;
    HandlesConcat([b], rest);
    assert [b][0].handle in Handles([b]);
    assert Handles([b]) == {b.handle};
    assert dev.live - {b.handle} == d.live + Handles(rest);
    assert dev.sessions[k := dev.sessions[k].(bufs := bs + rest)] == Added(d, k, rest).sessions;
  }

  /** The slots from `i` up to `f` that are not empty. */
  function Given(slots: seq<Slot>, i: nat, f: nat): seq<Slot>
    requires i <= f <= |slots|
    decreases f - i
  {
    if i == f then [] else (if slots[i].va != 0 then [slots[i]] else []) + Given(slots, i + 1, f)
  }

  predicate Names(slot: Slot, b: Desc)
  {
    slot.va == b.va && slot.sva == b.sva && slot.len == b.len
  }

  predicate AllName(slots: seq<Slot>, bs: seq<Desc>)
  {
    |slots| == |bs| && forall j :: 0 <= j < |bs| ==> Names(slots[j], bs[j])
  }

  /** Descriptors that can be taken back from the front. */
  predicate Removable(d: Dev, k: nat, bs: seq<Desc>)
    requires k < |d.sessions|
  {
    && (forall j :: 0 <= j < |bs| ==>
          NewVa(d.sessions[k].bufs, bs[j].va) && bs[j].sva != 0 && bs[j].handle !in d.live)
    && (forall i, j :: 0 <= i < j < |bs| ==> bs[i].handle != bs[j].handle)
  }

  lemma NotAmong(d: Dev, k: nat, bs: seq<Desc>)
    requires k < |d.sessions| && bs != [] && Removable(d, k, bs)
    ensures bs[0].handle !in Handles(bs[1..]) && Removable(d, k, bs[1..])
    ensures NewVa(d.sessions[k].bufs, bs[0].va) && bs[0].sva != 0 && bs[0].handle !in d.live
  {
  }

  /** Unmapping slots that name the added descriptors in order, with empty slots anywhere between,
      takes all of them back. */
  lemma {:induction false} TakenBack(d: Dev, k: nat, sid: U32, bs: seq<Desc>, slots: seq<Slot>, i: nat, f: nat,
                                     answers: seq<Daemon>, s: UnmapState)
    requires k == SessionIndex(d.sessions, sid) < |d.sessions| && i <= f <= |slots| == |answers|
    requires AllName(Given(slots, i, f), bs) && Removable(d, k, bs) && s.dev == Added(d, k, bs)
    requires forall j :: 0 <= j < f ==> answers[j].Accepts?
    ensures UnmapSlots(s, sid, slots, i, answers)
         == UnmapSlots(UnmapState(d, s.failed, s.unmapped || bs != []), sid, slots, f, answers)
    decreases f - i
  {
    hide UnmapOne, Removable, Added, NewVa;
    if i == f {
      AddedNothing(d, k);
    } else if slots[i].va == 0 {
      assert Given(slots, i, f) == Given(slots, i + 1, f);
      TakenBack(d, k, sid, bs, slots, i + 1, f, answers, s);
    } else {
      var rest := bs[1..];
      assert bs == [bs[0]] + rest;
      assert Given(slots, i, f)[0] == slots[i] && Given(slots, i, f)[1..] == Given(slots, i + 1, f);
      assert Names(slots[i], bs[0]);
      NotAmong(d, k, bs);
      UnmapFirst(d, k, sid, bs[0], rest, answers[i]);
      TakenBack(d, k, sid, rest, slots, i + 1, f, answers, UnmapStep(s, sid, slots[i], answers[i]));
    }
  }

  lemma NamesCons(x: Slot, b: Desc, slots: seq<Slot>, bs: seq<Desc>)
    requires AllName(slots, bs) && Names(x, b)
    ensures AllName([x] + slots, [b] + bs)
  {
  }

  /** The marked slots name the descriptors that were added. */
  lemma {:induction false} MarkedNames(slots: seq<Slot>, answers: seq<MapAnswer>, i: nat, f: nat)
    requires i <= f <= |slots| == |answers|
    ensures AllName(Given(Marked(slots, answers, f), i, f), Chosen(slots, answers, i, f))
    decreases f - i
  {
    if i < f {
      MarkedNames(slots, answers, i + 1, f);
      var marked := Marked(slots, answers, f);
      var later, added := Given(marked, i + 1, f), Chosen(slots, answers, i + 1, f);
      assert marked[i].va == slots[i].va;
      if slots[i].va != 0 {
        NamesCons(marked[i], DescOf(slots[i], answers[i]), later, added);
      } else {
        assert [] + later == later && [] + added == added;
      }
    }
  }

  lemma ChosenRemovable(d: Dev, k: nat, slots: seq<Slot>, answers: seq<MapAnswer>, f: nat)
    requires k < |d.sessions| && f <= |slots| == |answers| && UpTo(d, k, slots, answers, f)
    ensures Removable(d, k, Chosen(slots, answers, 0, f))
  {
    ChosenRemovableFrom(d, k, slots, answers, 0, f);
  }

  lemma RemovablePrepend(d: Dev, k: nat, b: Desc, rest: seq<Desc>)
    requires k < |d.sessions| && Removable(d, k, rest)
    requires NewVa(d.sessions[k].bufs, b.va) && b.sva != 0 && b.handle !in d.live
    requires forall j :: 0 <= j < |rest| ==> rest[j].handle != b.handle
    ensures Removable(d, k, [b] + rest)
  {
    var bs := [b] + rest;
    assert forall j :: 0 < j < |bs| ==> bs[j] == rest[j - 1];
  }

  lemma {:induction false} ChosenRemovableFrom(d: Dev, k: nat, slots: seq<Slot>, answers: seq<MapAnswer>,
                                               i: nat, f: nat)
    requires k < |d.sessions| && i <= f <= |slots| == |answers| && UpTo(d, k, slots, answers, f)
    ensures Removable(d, k, Chosen(slots, answers, i, f))
    decreases f - i
  {
    if i < f {
      ChosenRemovableFrom(d, k, slots, answers, i + 1, f);
      var rest := Chosen(slots, answers, i + 1, f);
      if slots[i].va != 0 {
        var b := DescOf(slots[i], answers[i]);
        assert Accepted(answers[i]);
        forall j | 0 <= j < |rest|
          ensures rest[j].handle != b.handle
        {
          var m := ChosenFrom(slots, answers, i + 1, f, j);
        }
        RemovablePrepend(d, k, b, rest);
      } else {
        assert [] + rest == rest;
      }
    }
  }

  lemma {:induction false} NothingLeft(s: UnmapState, sid: U32, slots: seq<Slot>, i: nat, unwinding: seq<Daemon>)
    requires i <= |slots| == |unwinding| && forall j :: i <= j < |slots| ==> slots[j].va == 0
    ensures UnmapSlots(s, sid, slots, i, unwinding) == s
    decreases |slots| - i
  {
    if i < |slots| {
      NothingLeft(s, sid, slots, i + 1, unwinding);
    }
  }

  /** Whether unwinding leaves the session alone at the slot that failed: it must not carry the
      secure address and length of a mapped buffer while its own address is mapped too. */
  predicate Harmless(bs: seq<Desc>, slot: Slot)
  {
    || slot.sva % TWO_32 == 0
    || HandleIndex(bs, slot.sva % TWO_32, slot.len) == |bs|
    || VaIndex(bs, slot.va) == |bs|
  }

  lemma FailingSlot(d: Dev, k: nat, sid: U32, slot: Slot, a: Daemon)
    requires k == SessionIndex(d.sessions, sid) < |d.sessions| && slot.va != 0 && a.Accepts?
    ensures UnmapOne(d, sid, slot.va, slot.sva, slot.len, a).0 == d <==> Harmless(d.sessions[k].bufs, slot)
  {
    var bs := d.sessions[k].bufs;
    var j := VaIndex(bs, slot.va);
    if !Harmless(bs, slot) {
      assert |RemoveBuf(d, k, slot.va).0.sessions[k].bufs| == |bs| - 1;
    }
  }

  /** With a daemon that answers and accepts the unmapping of what it has mapped: mapping that
      succeeds appends exactly the non-null slots, in slot order. Mapping that fails leaves session
      and kernel handles exactly as they were if and only if nothing had been mapped yet or the slot
      that failed is harmless; if it is not, the session loses the buffer that was mapped at the address
      of that slot, and nothing else. */
  lemma MapAllOrNothing(d: Dev, k: nat, sid: U32, slots: seq<Slot>, answers: seq<MapAnswer>, unwinding: seq<Daemon>)
    requires k == SessionIndex(d.sessions, sid) < |d.sessions| && |slots| == |answers| == |unwinding|
    requires SaneAnswers(d, k, answers) && forall j :: 0 <= j < |unwinding| ==> unwinding[j].Accepts?
    ensures var f := FailsAt(d.sessions[k].bufs, slots, answers, 0);
            var (dev, marked, ok) := Map(d, sid, slots, answers, unwinding);
            && (f == |slots| ==>
                  && dev == Added(d, k, Chosen(slots, answers, 0, f))
                  && marked == Marked(slots, answers, f)
                  && (ok <==> exists j :: 0 <= j < |slots| && slots[j].va != 0))
            && (f < |slots| ==>
                  && !ok
                  && (dev == d <==>
                        Chosen(slots, answers, 0, f) == [] || Harmless(d.sessions[k].bufs, slots[f]))
                  && (dev != d ==> dev == RemoveBuf(d, k, slots[f].va).0))
  {
    var bs := d.sessions[k].bufs;
    var f := FailsAt(bs, slots, answers, 0);
    FailsAtMeans(bs, slots, answers, 0);
    AddedNothing(d, k);
    assert bs + [] == bs;
    assert Progress(slots, answers, 0) == slots;
    MapShape(d, k, sid, slots, answers, 0, f);
    var chosen := Chosen(slots, answers, 0, f);
    if f == |slots| {
      ChosenNothing(slots, answers, 0, f);
    } else if chosen == [] {
    } else {
      Unwound(d, k, sid, slots, answers, unwinding, f, slots[f], Added(d, k, chosen));
      FailingSlot(d, k, sid, slots[f], unwinding[f]);
    }
  }

  lemma {:induction false} ChosenNothing(slots: seq<Slot>, answers: seq<MapAnswer>, i: nat, f: nat)
    requires i <= f <= |slots| == |answers|
    ensures Chosen(slots, answers, i, f) == [] <==> forall j :: i <= j < f ==> slots[j].va == 0
    decreases f - i
  {
    if i < f {
      ChosenNothing(slots, answers, i + 1, f);
    }
  }

  /** From the failing slot on, only that slot is left to unmap. */
  lemma OnlyFailing(t: UnmapState, sid: U32, slots: seq<Slot>, answers: seq<MapAnswer>, unwinding: seq<Daemon>, f: nat)
    requires f < |slots| == |answers| == |unwinding| && slots[f].va != 0
    ensures UnmapSlots(t, sid, Marked(slots, answers, f), f, unwinding).dev
         == UnmapOne(t.dev, sid, slots[f].va, slots[f].sva, slots[f].len, unwinding[f]).0
  {
    var marked := Marked(slots, answers, f);
    NothingLeft(UnmapStep(t, sid, marked[f], unwinding[f]), sid, marked, f + 1, unwinding);
  }

  lemma Unwound(d: Dev, k: nat, sid: U32, slots: seq<Slot>, answers: seq<MapAnswer>, unwinding: seq<Daemon>,
                f: nat, slot: Slot, dev: Dev)
    requires k == SessionIndex(d.sessions, sid) < |d.sessions| && f < |slots| == |answers| == |unwinding|
    requires UpTo(d, k, slots, answers, f) && forall j :: 0 <= j < |unwinding| ==> unwinding[j].Accepts?
    requires dev == Added(d, k, Chosen(slots, answers, 0, f)) && slot == slots[f] && slot.va != 0
    ensures Unmap(dev, sid, Marked(slots, answers, f), unwinding).0
         == UnmapOne(d, sid, slot.va, slot.sva, slot.len, unwinding[f]).0
  {
    ChosenRemovable(d, k, slots, answers, f);
    MarkedNames(slots, answers, 0, f);
    TakenBack(d, k, sid, Chosen(slots, answers, 0, f), Marked(slots, answers, f), 0, f, unwinding,
              UnmapState(dev, false, false));
    OnlyFailing(UnmapState(d, false, Chosen(slots, answers, 0, f) != []), sid, slots, answers, unwinding, f);
  }

  /* ---------- Unmapping slots from elsewhere ---------- */

  lemma UnmapOneShrinks(d: Dev, k: nat, sid: U32, slot: Slot, a: Daemon)
    requires k == SessionIndex(d.sessions, sid) < |d.sessions| && a.Accepts? && slot.va != 0
    ensures var r := UnmapOne(d, sid, slot.va, slot.sva, slot.len, a).0;
            && |r.sessions| == |d.sessions| && k == SessionIndex(r.sessions, sid)
            && |r.sessions[k].bufs| <= |d.sessions[k].bufs| <= |r.sessions[k].bufs| + 1
            && (!Harmless(d.sessions[k].bufs, slot) ==> |r.sessions[k].bufs| < |d.sessions[k].bufs|)
  {
    FailingSlot(d, k, sid, slot, a);
    var r := UnmapOne(d, sid, slot.va, slot.sva, slot.len, a).0;
    if r != d {
      SameIndex(d.sessions, r.sessions, sid, 0);
    }
  }

  lemma SameIndex(ss: seq<Sess>, ts: seq<Sess>, sid: U32, i: nat)
    requires |ss| == |ts| && i <= |ss| && forall j :: 0 <= j < |ss| ==> ts[j].id == ss[j].id
    ensures SessionIndex(ts, sid, i) == SessionIndex(ss, sid, i)
    decreases |ss| - i
  {
    if i < |ss| && ss[i].id != sid {
      SameIndex(ss, ts, sid, i + 1);
    }
  }

  /** Unmapping takes away at most one descriptor for every slot that is not empty. */
  lemma {:induction false} UnmapShrinks(s: UnmapState, k: nat, sid: U32, slots: seq<Slot>, i: nat, answers: seq<Daemon>)
    requires k == SessionIndex(s.dev.sessions, sid) < |s.dev.sessions| && i <= |slots| == |answers|
    requires forall j :: 0 <= j < |answers| ==> answers[j].Accepts?
    ensures var r := UnmapSlots(s, sid, slots, i, answers).dev;
            && |r.sessions| == |s.dev.sessions| && |r.sessions[k].bufs| <= |s.dev.sessions[k].bufs|
            && |s.dev.sessions[k].bufs| <= |r.sessions[k].bufs| + |Given(slots, i, |slots|)|
    decreases |slots| - i
  {
    if i < |slots| {
      if slots[i].va != 0 {
        UnmapOneShrinks(s.dev, k, sid, slots[i], answers[i]);
      }
      UnmapShrinks(UnmapStep(s, sid, slots[i], answers[i]), k, sid, slots, i + 1, answers);
    }
  }

  predicate AllHarmless(bs: seq<Desc>, slots: seq<Slot>, i: nat)
  {
    forall j :: i <= j < |slots| ==> slots[j].va == 0 || Harmless(bs, slots[j])
  }

  /** Unmapping any slots changes nothing exactly if each of them is empty or harmless. */
  lemma {:induction false} UnmapHarmless(s: UnmapState, k: nat, sid: U32, slots: seq<Slot>, i: nat,
                                       answers: seq<Daemon>)
    requires k == SessionIndex(s.dev.sessions, sid) < |s.dev.sessions| && i <= |slots| == |answers|
    requires forall j :: 0 <= j < |answers| ==> answers[j].Accepts?
    ensures UnmapSlots(s, sid, slots, i, answers).dev == s.dev <==> AllHarmless(s.dev.sessions[k].bufs, slots, i)
    decreases |slots| - i
  {
    if i < |slots| {
      var t := UnmapStep(s, sid, slots[i], answers[i]);
      if slots[i].va == 0 {
        UnmapHarmless(t, k, sid, slots, i + 1, answers);
      } else {
        FailingSlot(s.dev, k, sid, slots[i], answers[i]);
        UnmapOneShrinks(s.dev, k, sid, slots[i], answers[i]);
        if Harmless(s.dev.sessions[k].bufs, slots[i]) {
          assert t.dev == s.dev;
          UnmapHarmless(t, k, sid, slots, i + 1, answers);
        } else {
          UnmapShrinks(t, k, sid, slots, i + 1, answers);
        }
      }
    }
  }

  /* ---------- Slots that come in clean, and one that does not ---------- */

  /** The secure address of a slot comes from its caller, none of which sets it. If it is 0 in every slot,
      mapping is all or nothing. */
  lemma CleanSlotsAllOrNothing(d: Dev, k: nat, sid: U32, slots: seq<Slot>, answers: seq<MapAnswer>,
                               unwinding: seq<Daemon>)
    requires k == SessionIndex(d.sessions, sid) < |d.sessions| && |slots| == |answers| == |unwinding|
    requires SaneAnswers(d, k, answers) && forall j :: 0 <= j < |unwinding| ==> unwinding[j].Accepts?
    requires forall j :: 0 <= j < |slots| ==> slots[j].sva == 0
    ensures var (dev, _, ok) := Map(d, sid, slots, answers, unwinding);
            !ok ==> dev == d
  {
    MapAllOrNothing(d, k, sid, slots, answers, unwinding);
    var f := FailsAt(d.sessions[k].bufs, slots, answers, 0);
    if f == |slots| {
      ChosenNothing(slots, answers, 0, f);
      AddedNothing(d, k);
    }
  }

  /** A buffer is mapped at `a`. Mapping a new buffer at `b` together with one at `a` fails, as `a` is in
      use; and if the slot of `a` happens to hold the secure address and the length of the buffer there,
      that buffer is gone afterwards. */
  lemma StaleSlotLosesMapping(d: Dev, sid: U32, a: nat, b: nat, sva: U32, len: U32, h: nat, g: nat, t: U32)
    requires a != 0 && b != 0 && a != b && sva != 0 && t != 0 && t != sva && g != h && h in d.live && g !in d.live
    requires d.sessions == [Sess(sid, [Desc(a, sva, len, h)])]
    ensures var slots := [Slot(b, len, 0, 3), Slot(a, len, sva, 3)];
            var answers := [Registered(g, Accepts(t)), KernelRefuses];
            var (dev, _, ok) := Map(d, sid, slots, answers, [Accepts(0), Accepts(0)]);
            !ok && dev.sessions == [Sess(sid, [])] && dev.live == d.live - {h}
  {
    var slots := [Slot(b, len, 0, 3), Slot(a, len, sva, 3)];
    var answers := [Registered(g, Accepts(t)), KernelRefuses];
    var bs := d.sessions[0].bufs;
    assert bs == [Desc(a, sva, len, h)];
    FailsAtSecond(bs, slots, answers);
    ChosenNothing(slots, answers, 0, 1);
    assert VaIndex(bs, a) == 0 && HandleIndex(bs, sva, len) == 0;
    MapAllOrNothing(d, 0, sid, slots, answers, [Accepts(0), Accepts(0)]);
    assert bs[..0] + bs[1..] == [];
    assert d.sessions[0 := d.sessions[0].(bufs := [])] == [Sess(sid, [])];
  }

  lemma FailsAtSecond(bs: seq<Desc>, slots: seq<Slot>, answers: seq<MapAnswer>)
    requires |slots| == |answers| == 2 && |bs| == 1 && slots[0].va != 0 && slots[1].va == bs[0].va != slots[0].va
    requires slots[1].va != 0 && Accepted(answers[0])
    ensures FailsAt(bs, slots, answers, 0) == 1
  {
    var more := bs + [DescOf(slots[0], answers[0])];
    assert more[0] == bs[0];
  }
}
