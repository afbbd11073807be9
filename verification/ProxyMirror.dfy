/**
 What every operation of the proxy keeps: the client's session and the server's are mirrors of each
 other, buffer by buffer, whichever calls failed on the way.
 */
module ProxyMirror {
  import opened Wire
  import opened Message
  import opened Canonical
  import opened Schemas
  import opened Framing
  import opened Ioctl
  import opened ProxyServer
  import opened ProxyClient

  /** Same number of buffers with, one by one, the same address, length and flags. */
  predicate Matching(cb: seq<Slot>, sb: seq<Buffer>)
  {
    && |cb| == |sb|
    && forall i :: 0 <= i < |cb| ==>
         cb[i].sva == sb[i].sva && cb[i].flags == sb[i].flags && cb[i].len == |sb[i].data|
  }

  predicate Distinct(cb: seq<Slot>)
  {
    forall i, j :: 0 <= i < j < |cb| ==> cb[i].sva != cb[j].sva
  }

  predicate SameTci(c: Option<Range>, s: Option<bytes>)
  {
    (c.Some? <==> s.Some?) && (c.Some? ==> c.value.len == |s.value|)
  }

  predicate Mirror(w: World)
  {
    w.Up? ==>
      && w.server.Some? && w.server.value.id == w.client.id
      && SameTci(w.client.tci, w.server.value.tci)
      && Matching(w.client.buffers, w.server.value.buffers)
      && Distinct(w.client.buffers)
      && SessionInMemory(w.mem, w.client)
  }

  /* ---------- Messages arrive as they were sent ---------- */

  predicate NoUnknown(s: Schema, m: Msg)
    requires Typed(s, m)
  {
    && m.unknown == []
    && forall i :: 0 <= i < |s| && s[i].kind.Sub? ==>
         Flat(s[i].kind.schema) && NoUnknowns(m.fields[i])
  }

  predicate NoUnknowns(vs: seq<Value>)
  {
    forall j :: 0 <= j < |vs| ==> vs[j].Nested? && vs[j].m.unknown == []
  }

  lemma NothingIsWhole(s: Schema)
    ensures WholeForeign(s, [])
  {
    assert ForeignRecs(s, []) && RecsBytes([]) == [];
  }

  lemma FlatWhole(s: Schema, m: Msg)
    requires Typed(s, m) && Flat(s) && m.unknown == []
    ensures Whole(s, m)
  {
    NothingIsWhole(s);
  }

  lemma Arrives(s: Schema, m: Msg)
    requires WellFormed(s) && Typed(s, m) && NoUnknown(s, m) && IsInitialized(s, m)
    requires |Serialize(s, m)| < TWO_31
    ensures ParseFromString(s, Serialize(s, m)) == Some(m)
  {
    NothingIsWhole(s);
    forall i | 0 <= i < |s|
      ensures WholeValues(s[i], m.fields[i])
    {
      if s[i].kind.Sub? {
        forall j | 0 <= j < |m.fields[i]|
          ensures OkValue(s[i].kind, m.fields[i][j]) && Whole(s[i].kind.schema, m.fields[i][j].m)
        {
          assert OkValues(s[i], m.fields[i]);
          FlatWhole(s[i].kind.schema, m.fields[i][j].m);
        }
      }
    }
    ParseSerialize(s, m);
  }

  lemma FlatArrives(s: Schema, m: Msg)
    requires WellFormed(s) && Flat(s) && Typed(s, m) && m.unknown == [] && IsInitialized(s, m)
    requires |Serialize(s, m)| < TWO_31
    ensures ParseFromString(s, Serialize(s, m)) == Some(m)
  {
    Arrives(s, m);
  }

  /** The nested records of a message, for the messages whose only nested field is `i`. */
  lemma NestedArrives(s: Schema, i: nat, m: Msg)
    requires WellFormed(s) && Typed(s, m) && i == |s| - 1 && s[i].kind.Sub? && Flat(s[i].kind.schema)
    requires forall k :: 0 <= k < i ==> s[k].required ==> m.fields[k] != []
    requires !s[i].required && m.unknown == [] && NoUnknowns(m.fields[i])
    requires forall j :: 0 <= j < |m.fields[i]| ==>
               OkValue(s[i].kind, m.fields[i][j]) && IsInitialized(s[i].kind.schema, m.fields[i][j].m)
    requires |Serialize(s, m)| < TWO_31
    ensures ParseFromString(s, Serialize(s, m)) == Some(m)
  {
    assert AllAreInitialized(s[i], m.fields[i]);
    Arrives(s, m);
  }

  lemma OpenRequestArrives(m: Msg, uuid: bytes, isGp: bool, tci: Option<bytes>, login: int, loginData: bytes)
    requires LoginTypeIsValid(login) && m == OpenRequest(uuid, isGp, tci, login, loginData)
    requires |Serialize(OPEN_SESSION_REQUEST, m)| < TWO_31
    ensures WellFormed(OPEN_SESSION_REQUEST)
    ensures ParseFromString(OPEN_SESSION_REQUEST, Serialize(OPEN_SESSION_REQUEST, m)) == Some(m)
  {
    OpenTablesFit();
    assert !OPEN_SESSION_REQUEST[2].required;
    assert NoUnknown(OPEN_SESSION_REQUEST, m);
    assert IsInitialized(OPEN_SESSION_REQUEST, m);
    Arrives(OPEN_SESSION_REQUEST, m);
  }

  /** Messages of one number: the id of a session, or the address of a buffer. */
  lemma IdArrives(s: Schema, m: Msg, n: int)
    requires s == [Req(1, UInt32)] && 0 <= n < TWO_32 && m == Msg([[Num(n)]], []) && WellFormed(s)
    requires Typed(s, m) && |Serialize(s, m)| < TWO_31
    ensures ParseFromString(s, Serialize(s, m)) == Some(m)
  {
    FlatArrives(s, m);
  }

  lemma WaitRequestArrives(sid: U32, slice: Slice)
    requires -TWO_31 <= slice.timeout < TWO_31
    requires |Serialize(WAIT_REQUEST, WaitRequest(sid, slice))| < TWO_31
    ensures WellFormed(WAIT_REQUEST)
    ensures ParseFromString(WAIT_REQUEST, Serialize(WAIT_REQUEST, WaitRequest(sid, slice)))
         == Some(WaitRequest(sid, slice))
  {
    PlainTablesFit();
    FlatArrives(WAIT_REQUEST, WaitRequest(sid, slice));
  }

  lemma InputRecordsReady(mem: bytes, bs: seq<Slot>, i: nat)
    requires i <= |bs| && BuffersInMemory(mem, bs)
    ensures NoUnknowns(InputRecords(mem, bs, i))
    ensures forall j :: 0 <= j < |InputRecords(mem, bs, i)| ==>
              IsInitialized(NOTIFY_BUFFERS, InputRecords(mem, bs, i)[j].m)
    ensures Complete(InputRecords(mem, bs, i))
    decreases |bs| - i
  {
    if i < |bs| {
      InputRecordsReady(mem, bs, i + 1);
    }
  }

  lemma NotifyRequestArrives(mem: bytes, c: ClientSession)
    requires SessionInMemory(mem, c)
    requires |Serialize(NOTIFY_REQUEST, NotifyRequest(mem, c))| < TWO_31
    ensures WellFormed(NOTIFY_REQUEST)
    ensures ParseFromString(NOTIFY_REQUEST, Serialize(NOTIFY_REQUEST, NotifyRequest(mem, c)))
         == Some(NotifyRequest(mem, c))
  {
    NotifyTablesFit();
    InputRecordsReady(mem, c.buffers, 0);
    NestedArrives(NOTIFY_REQUEST, 2, NotifyRequest(mem, c));
  }

  lemma OutputRecordsReady(bs: seq<Buffer>, i: nat)
    requires i <= |bs|
    ensures forall j :: 0 <= j < |OutputRecords(bs, i)| ==>
              && OkValue(Sub(WAIT_BUFFERS), OutputRecords(bs, i)[j])
              && IsInitialized(WAIT_BUFFERS, OutputRecords(bs, i)[j].m)
    ensures NoUnknowns(OutputRecords(bs, i))
    decreases |bs| - i
  {
    if i < |bs| {
      OutputRecordsReady(bs, i + 1);
    }
  }

  lemma WaitResponseArrives(s: Session)
    requires |Serialize(WAIT_RESPONSE, WaitResponse(s))| < TWO_31
    ensures WellFormed(WAIT_RESPONSE)
    ensures ParseFromString(WAIT_RESPONSE, Serialize(WAIT_RESPONSE, WaitResponse(s)))
         == Some(WaitResponse(s))
  {
    NotifyTablesFit();
    OutputRecordsReady(s.buffers, 0);
    NestedArrives(WAIT_RESPONSE, 1, WaitResponse(s));
  }

  lemma MapRequestArrives(sid: U32, slots: seq<Slot>)
    requires |Serialize(MAP_REQUEST, MapRequest(sid, slots))| < TWO_31
    ensures WellFormed(MAP_REQUEST)
    ensures ParseFromString(MAP_REQUEST, Serialize(MAP_REQUEST, MapRequest(sid, slots)))
         == Some(MapRequest(sid, slots))
  {
    MapTablesFit();
    NestedArrives(MAP_REQUEST, 1, MapRequest(sid, slots));
  }

  lemma MapResponseArrives(svas: seq<U64>)
    requires |Serialize(MAP_RESPONSE, MapResponse(svas))| < TWO_31
    ensures WellFormed(MAP_RESPONSE)
    ensures ParseFromString(MAP_RESPONSE, Serialize(MAP_RESPONSE, MapResponse(svas)))
         == Some(MapResponse(svas))
  {
    MapTablesFit();
    NestedArrives(MAP_RESPONSE, 0, MapResponse(svas));
  }

  lemma UnmapRequestArrives(sid: U32, slots: seq<Slot>)
    requires |Serialize(UNMAP_REQUEST, UnmapRequest(sid, slots))| < TWO_31
    ensures WellFormed(UNMAP_REQUEST)
    ensures ParseFromString(UNMAP_REQUEST, Serialize(UNMAP_REQUEST, UnmapRequest(sid, slots)))
         == Some(UnmapRequest(sid, slots))
  {
    UnmapTablesFit();
    NestedArrives(UNMAP_REQUEST, 1, UnmapRequest(sid, slots));
  }

  /* ---------- Copies of memory ---------- */

  lemma FindOwn(bs: seq<Buffer>, i: nat, k: nat)
    requires k <= i < |bs|
    requires forall a, b :: 0 <= a < b < |bs| ==> bs[a].sva != bs[b].sva
    ensures Find(bs, bs[i].sva, k) == i
    decreases i - k
  {
    if k < i {
      FindOwn(bs, i, k + 1);
    }
  }

  lemma FindOwnSlot(bs: seq<Slot>, i: nat, k: nat)
    requires k <= i < |bs| && Distinct(bs)
    ensures FindSlot(bs, bs[i].sva, k) == i
    decreases i - k
  {
    if k < i {
      FindOwnSlot(bs, i, k + 1);
    }
  }

  lemma PatchesCons(v: Value, vs: seq<Value>)
    ensures Patches([v] + vs) == [AsPatch(v)] + Patches(vs)
  {
  }

  lemma UpdateAllCons(bs: seq<Buffer>, p: Patch, ps: seq<Patch>)
    ensures var k := Find(bs, p.sva);
            UpdateAll(bs, [p] + ps)
            == if k == |bs| then (bs, false) else UpdateAll(bs[k := Updated(bs[k], p.data)], ps)
  {
    assert ([p] + ps)[1..] == ps;
  }

  /** The server's buffers after `notify`: INPUT ones hold what the client's held, the others what
      they held before. */
  predicate Notified(mem: bytes, cb: seq<Slot>, sb: seq<Buffer>, i: nat, r: seq<Buffer>)
    requires |cb| == |sb| && BuffersInMemory(mem, cb)
  {
    && Matching(cb, r)
    && forall j :: 0 <= j < |sb| ==>
         r[j].data == if i <= j && Input(cb[j].flags) then At(mem, cb[j].va, cb[j].len) else sb[j].data
  }

  /** One INPUT buffer updated, and then the others. */
  lemma NotifiedNext(mem: bytes, cb: seq<Slot>, sb: seq<Buffer>, i: nat, next: seq<Buffer>, r: seq<Buffer>)
    requires Matching(cb, sb) && BuffersInMemory(mem, cb) && i < |cb| == |next|
    requires Notified(mem, cb, next, i + 1, r)
    requires forall j :: 0 <= j < |sb| && j != i ==> next[j] == sb[j]
    requires next[i].data == if Input(cb[i].flags) then At(mem, cb[i].va, cb[i].len) else sb[i].data
    ensures Notified(mem, cb, sb, i, r)
  {
  }

  /** An INPUT buffer comes first among the patches from its index on. */
  lemma InputPatches(mem: bytes, cb: seq<Slot>, i: nat)
    requires i < |cb| && BuffersInMemory(mem, cb) && Input(cb[i].flags)
    ensures Patches(InputRecords(mem, cb, i))
         == [Patch(cb[i].sva, At(mem, cb[i].va, cb[i].len))] + Patches(InputRecords(mem, cb, i + 1))
  {
    var v := Record(Msg([[Num(cb[i].sva)], [Data(At(mem, cb[i].va, cb[i].len))]], []));
    PatchesCons(v, InputRecords(mem, cb, i + 1));
  }

  /** An INPUT buffer is found and updated before the others. */
  lemma UpdatesFirst(mem: bytes, cb: seq<Slot>, sb: seq<Buffer>, i: nat)
    requires Matching(cb, sb) && Distinct(cb) && BuffersInMemory(mem, cb) && i < |cb| && Input(cb[i].flags)
    ensures var next := sb[i := Updated(sb[i], At(mem, cb[i].va, cb[i].len))];
            && Matching(cb, next)
            && UpdateAll(sb, Patches(InputRecords(mem, cb, i)))
               == UpdateAll(next, Patches(InputRecords(mem, cb, i + 1)))
  {
    InputPatches(mem, cb, i);
    FindOwn(sb, i, 0);
    UpdateAllCons(sb, Patch(cb[i].sva, At(mem, cb[i].va, cb[i].len)), Patches(InputRecords(mem, cb, i + 1)));
  }

  lemma {:induction false} UpdateAllNotifies(mem: bytes, cb: seq<Slot>, sb: seq<Buffer>, i: nat)
    requires Matching(cb, sb) && Distinct(cb) && BuffersInMemory(mem, cb) && i <= |cb|
    ensures var r := UpdateAll(sb, Patches(InputRecords(mem, cb, i)));
            r.1 && Notified(mem, cb, sb, i, r.0)
    decreases |cb| - i
  {
    if i < |cb| {
      if Input(cb[i].flags) {
        var next := sb[i := Updated(sb[i], At(mem, cb[i].va, cb[i].len))];
        UpdatesFirst(mem, cb, sb, i);
        UpdateAllNotifies(mem, cb, next, i + 1);
        NotifiedNext(mem, cb, sb, i, next, UpdateAll(next, Patches(InputRecords(mem, cb, i + 1))).0);
      } else {
        UpdateAllNotifies(mem, cb, sb, i + 1);
        NotifiedNext(mem, cb, sb, i, sb, UpdateAll(sb, Patches(InputRecords(mem, cb, i + 1))).0);
      }
    }
  }

  /** Whether an address lies in one of the OUTPUT buffers from index `i` on. */
  predicate InOutput(cb: seq<Slot>, i: nat, a: nat)
  {
    exists j :: i <= j < |cb| && Output(cb[j].flags) && cb[j].va <= a < cb[j].va + cb[j].len
  }

  predicate DisjointOutputs(cb: seq<Slot>)
  {
    forall i, j :: 0 <= i < j < |cb| && Output(cb[i].flags) && Output(cb[j].flags) ==>
      cb[i].va + cb[i].len <= cb[j].va || cb[j].va + cb[j].len <= cb[i].va
  }

  lemma WriteAt(mem: bytes, va: nat, data: bytes)
    requires InMemory(mem, va, |data|)
    ensures At(Write(mem, va, data), va, |data|) == data
    ensures forall a :: 0 <= a < |mem| && !(va <= a < va + |data|) ==> Write(mem, va, data)[a] == mem[a]
  {
  }

  /** The last OUTPUT buffer from index `i` on that covers an address, or the number of buffers. */
  function LastOutput(cb: seq<Slot>, i: nat, a: nat): (j: nat)
    requires i <= |cb|
    ensures i <= j <= |cb|
    ensures j < |cb| ==> Output(cb[j].flags) && cb[j].va <= a < cb[j].va + cb[j].len
    decreases |cb| - i
  {
    if i == |cb| then i
    else
      var j := LastOutput(cb, i + 1, a);
      if j < |cb| then j
      else if Output(cb[i].flags) && cb[i].va <= a < cb[i].va + cb[i].len then i
      else |cb|
  }

  lemma WriteByte(mem: bytes, va: nat, data: bytes, a: nat)
    requires InMemory(mem, va, |data|) && a < |mem|
    ensures Write(mem, va, data)[a] == if va <= a < va + |data| then data[a - va] else mem[a]
  {
  }

  /** The first of the OUTPUT buffers from index `i` on is copied, then the others. */
  lemma CopyBackOne(mem: bytes, cb: seq<Slot>, sb: seq<Buffer>, i: nat)
    requires Matching(cb, sb) && Distinct(cb) && BuffersInMemory(mem, cb) && i < |cb| && Output(sb[i].flags)
    ensures CopyBack(mem, cb, Patches(OutputRecords(sb, i)))
         == CopyBack(Write(mem, cb[i].va, sb[i].data), cb, Patches(OutputRecords(sb, i + 1)))
  {
    var v := Record(Msg([[Num(sb[i].sva)], [Data(sb[i].data)]], []));
    PatchesCons(v, OutputRecords(sb, i + 1));
    assert AsPatch(v) == Patch(sb[i].sva, sb[i].data);
    FindOwnSlot(cb, i, 0);
  }

  lemma LastOutputIs(cb: seq<Slot>, i: nat, a: nat)
    requires i <= |cb|
    ensures var j := LastOutput(cb, i, a);
            if j < |cb| then !InOutput(cb, j + 1, a) else !InOutput(cb, i, a)
    decreases |cb| - i
  {
    if i < |cb| {
      LastOutputIs(cb, i + 1, a);
    }
  }

  /** The byte that copying the buffers from index `i` on leaves at an address. */
  function CopiedByte(mem: bytes, cb: seq<Slot>, sb: seq<Buffer>, i: nat, a: nat): byte
    requires Matching(cb, sb) && i <= |cb| && a < |mem|
  {
    var j := LastOutput(cb, i, a);
    if j < |cb| then sb[j].data[a - cb[j].va] else mem[a]
  }

  lemma CopiedByteStep(mem: bytes, cb: seq<Slot>, sb: seq<Buffer>, i: nat, a: nat)
    requires Matching(cb, sb) && BuffersInMemory(mem, cb) && i < |cb| && a < |mem|
    ensures CopiedByte(mem, cb, sb, i, a)
         == CopiedByte(if Output(cb[i].flags) then Write(mem, cb[i].va, sb[i].data) else mem, cb, sb, i + 1, a)
  {
    if Output(cb[i].flags) {
      WriteByte(mem, cb[i].va, sb[i].data, a);
    }
  }

  /** Copying back writes each address of the OUTPUT buffers from the last one that covers it, and no
      other. */
  lemma {:induction false} CopyBackBytes(mem: bytes, cb: seq<Slot>, sb: seq<Buffer>, i: nat, a: nat)
    requires Matching(cb, sb) && Distinct(cb) && BuffersInMemory(mem, cb) && i <= |cb| && a < |mem|
    ensures CopyBack(mem, cb, Patches(OutputRecords(sb, i)))[a] == CopiedByte(mem, cb, sb, i, a)
    decreases |cb| - i
  {
    if i < |cb| {
      CopiedByteStep(mem, cb, sb, i, a);
      if Output(cb[i].flags) {
        CopyBackOne(mem, cb, sb, i);
        CopyBackBytes(Write(mem, cb[i].va, sb[i].data), cb, sb, i + 1, a);
      } else {
        CopyBackBytes(mem, cb, sb, i + 1, a);
      }
    }
  }

  lemma CopyBackFrame(mem: bytes, cb: seq<Slot>, sb: seq<Buffer>)
    requires Matching(cb, sb) && Distinct(cb) && BuffersInMemory(mem, cb)
    ensures var r := CopyBack(mem, cb, Patches(OutputRecords(sb)));
            forall a :: 0 <= a < |mem| && !InOutput(cb, 0, a) ==> r[a] == mem[a]
  {
    forall a: nat | a < |mem| && !InOutput(cb, 0, a)
      ensures CopyBack(mem, cb, Patches(OutputRecords(sb)))[a] == mem[a]
    {
      LastOutputIs(cb, 0, a);
      CopyBackBytes(mem, cb, sb, 0, a);
    }
  }

  /** At each of its addresses, the last OUTPUT buffer that covers it has the same byte as buffer `j`. */
  predicate Undisturbed(cb: seq<Slot>, sb: seq<Buffer>, j: nat)
    requires Matching(cb, sb) && j < |cb|
  {
    forall x :: 0 <= x < |sb[j].data| ==> SameAt(cb, sb, j, x)
  }

  predicate SameAt(cb: seq<Slot>, sb: seq<Buffer>, j: nat, x: nat)
    requires Matching(cb, sb) && j < |cb| && x < |sb[j].data|
  {
    var a := cb[j].va + x;
    var k := LastOutput(cb, 0, a);
    k < |cb| && sb[k].data[a - cb[k].va] == sb[j].data[x]
  }

  lemma {:induction false} CopiedAt(mem: bytes, cb: seq<Slot>, sb: seq<Buffer>, j: nat, x: nat)
    requires Matching(cb, sb) && Distinct(cb) && BuffersInMemory(mem, cb) && j < |cb| && Output(cb[j].flags)
    requires x < |sb[j].data|
    ensures At(CopyBack(mem, cb, Patches(OutputRecords(sb))), cb[j].va, cb[j].len)[x] == sb[j].data[x]
       <==> SameAt(cb, sb, j, x)
  {
    CopyBackBytes(mem, cb, sb, 0, cb[j].va + x);
    LastOutputIs(cb, 0, cb[j].va + x);
    assert InOutput(cb, 0, cb[j].va + x);
  }

  lemma {:induction false} DisjointIsLast(cb: seq<Slot>, sb: seq<Buffer>, j: nat, x: nat)
    requires Matching(cb, sb) && DisjointOutputs(cb) && j < |cb| && Output(cb[j].flags) && x < |sb[j].data|
    ensures SameAt(cb, sb, j, x)
  {
    LastOutputIs(cb, 0, cb[j].va + x);
    assert InOutput(cb, 0, cb[j].va + x);
  }

  /** An OUTPUT buffer is left with the server's contents exactly when no later one that overlaps it has
      other bytes; without overlaps always. */
  lemma {:induction false} CopyBackCopies(mem: bytes, cb: seq<Slot>, sb: seq<Buffer>, j: nat)
    requires Matching(cb, sb) && Distinct(cb) && BuffersInMemory(mem, cb) && j < |cb| && Output(cb[j].flags)
    ensures At(CopyBack(mem, cb, Patches(OutputRecords(sb))), cb[j].va, cb[j].len) == sb[j].data
       <==> Undisturbed(cb, sb, j)
    ensures DisjointOutputs(cb) ==> Undisturbed(cb, sb, j)
  {
    forall x: nat | x < |sb[j].data|
      ensures At(CopyBack(mem, cb, Patches(OutputRecords(sb))), cb[j].va, cb[j].len)[x] == sb[j].data[x]
         <==> SameAt(cb, sb, j, x)
      ensures DisjointOutputs(cb) ==> SameAt(cb, sb, j, x)
    {
      CopiedAt(mem, cb, sb, j, x);
      if DisjointOutputs(cb) {
        DisjointIsLast(cb, sb, j, x);
      }
    }
  }

  /* ---------- Removal ---------- */

  lemma SameFind(cb: seq<Slot>, sb: seq<Buffer>, sva: U64, i: nat)
    requires Matching(cb, sb) && i <= |cb|
    ensures FindSlot(cb, sva, i) == Find(sb, sva, i)
    decreases |cb| - i
  {
    if i < |cb| && cb[i].sva != sva {
      SameFind(cb, sb, sva, i + 1);
    }
  }

  lemma EraseAlike(mem: bytes, cb: seq<Slot>, sb: seq<Buffer>, k: nat)
    requires Matching(cb, sb) && Distinct(cb) && BuffersInMemory(mem, cb) && k < |cb|
    ensures var cr := cb[..k] + cb[k + 1..];
            Matching(cr, sb[..k] + sb[k + 1..]) && Distinct(cr) && BuffersInMemory(mem, cr)
  {
  }

  /** Removing the same addresses on both sides keeps the sides alike. */
  lemma {:induction false} RemoveKeepsMatching(mem: bytes, cb: seq<Slot>, sb: seq<Buffer>, slots: seq<Slot>)
    requires Matching(cb, sb) && Distinct(cb) && BuffersInMemory(mem, cb)
    requires RemoveAll(sb, Svas(UnmapRecords(slots))).1
    ensures var r := RemoveSlots(cb, slots);
            && Matching(r, RemoveAll(sb, Svas(UnmapRecords(slots))).0)
            && Distinct(r) && BuffersInMemory(mem, r)
    decreases |slots|
  {
    if slots != [] {
      var svas := Svas(UnmapRecords(slots));
      assert svas[0] == slots[0].sva;
      assert svas[1..] == Svas(UnmapRecords(slots[1..]));
      SameFind(cb, sb, slots[0].sva, 0);
      var k := Find(sb, slots[0].sva);
      assert k < |sb|;
      EraseAlike(mem, cb, sb, k);
      RemoveKeepsMatching(mem, cb[..k] + cb[k + 1..], sb[..k] + sb[k + 1..], slots[1..]);
    }
  }
}
