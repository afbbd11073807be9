/**
 Handle conservation: over every run of the device's operations the kernel's live handles are the
 disjoint union of the handles in the WSM list, those in the sessions' descriptor lists, and those
 that failed opens have left behind; nothing is released twice, and destroying the device releases
 exactly what it still owns.
 */
module Handles {
  import opened Wire
  import opened Ioctl
  import opened Driver
  import MT = MapTransaction

  datatype Op =
    | MallocOp(size: U32, wsm: Option<(nat, nat)>)
    | FreeOp(va: nat)
    | OpenOp(tci: nat, size: U32, kernel: Option<nat>, id: Option<U32>)
    | CloseOp(sid: U32, answer: Daemon)
    | MapOp(sid: U32, va: nat, size: U32, registered: MapAnswer)
    | UnmapOp(sid: U32, va: nat, sva: U64, size: U32, answer: Daemon)

  function Perform(d: Dev, op: Op): (Dev, McResult)
  {
    match op
    case MallocOp(size, wsm) => MallocWsm(d, size, wsm)
    case FreeOp(va) => FreeWsm(d, va)
    case OpenOp(tci, size, kernel, id) => OpenSession(d, tci, size, kernel, id)
    case CloseOp(sid, answer) => CloseSession(d, sid, answer)
    case MapOp(sid, va, size, registered) => MapOne(d, sid, va, size, registered)
    case UnmapOp(sid, va, sva, size, answer) => UnmapOne(d, sid, va, sva, size, answer)
  }

  /** The handle the kernel offers, if the operation gets as far as asking for one. */
  function Offered(op: Op): Option<nat>
  {
    match op
    case MallocOp(_, Some(w)) => Some(w.0)
    case OpenOp(_, _, Some(h), _) => Some(h)
    case MapOp(_, _, _, Registered(h, _)) => Some(h)
    case _ => None
  }

  /** The kernel never offers a handle that is live. */
  predicate FreshHandle(d: Dev, op: Op)
  {
    Offered(op).Some? ==> Offered(op).value !in d.live
  }

  /** The handle an operation leaves without an owner: only opening a session on a TCI that had to be
      registered, when the daemon then fails. */
  function Leak(d: Dev, op: Op): set<nat>
  {
    if op.OpenOp? && TciNeedsBuffer(d, op.tci, op.size) && op.kernel.Some? && op.id.None?
    then {op.kernel.value} else {}
  }

  /* ---------- Ownership ---------- */

  function BufHandles(bs: seq<Desc>): multiset<nat>
  {
    if bs == [] then multiset{} else multiset{bs[0].handle} + BufHandles(bs[1..])
  }

  function SessionHandles(ss: seq<Sess>): multiset<nat>
  {
    if ss == [] then multiset{} else BufHandles(ss[0].bufs) + SessionHandles(ss[1..])
  }

  function WsmHandles(ws: seq<Wsm>): multiset<nat>
  {
    if ws == [] then multiset{} else multiset{ws[0].handle} + WsmHandles(ws[1..])
  }

  function Owned(d: Dev): multiset<nat>
  {
    SessionHandles(d.sessions) + WsmHandles(d.wsms)
  }

  /** The kernel's handles are owned by exactly one list entry or are among the leaked ones. As the
      right-hand side has no handle twice, neither has the left: the union is disjoint. */
  predicate Conserved(d: Dev, leaked: set<nat>)
  {
    Owned(d) + multiset(leaked) == multiset(d.live)
  }

  predicate VasDistinct(d: Dev)
  {
    forall k :: 0 <= k < |d.sessions| ==> MT.DistinctVas(d.sessions[k].bufs)
  }

  /* ---------- Multisets ---------- */

  lemma Assoc(a: multiset<nat>, b: multiset<nat>, c: multiset<nat>)
    ensures (a + b) + c == a + (b + c)
  {
  }

  lemma Swap(a: multiset<nat>, b: multiset<nat>, c: multiset<nat>)
    ensures a + (b + c) == b + (a + c)
  {
  }

  lemma Neutral(a: multiset<nat>)
    ensures a + multiset{} == a && multiset{} + a == a
  {
  }

  /** Growing both sides of the balance by the same handles keeps it ... */
  lemma Grow(own: multiset<nat>, more: multiset<nat>, x: multiset<nat>, leaked: multiset<nat>, live: multiset<nat>)
    requires own + leaked == live && more == x + own
    ensures more + leaked == x + live
  {
    Assoc(x, own, leaked);
  }

  /** ... and so does shrinking both. */
  lemma Shrink(own: multiset<nat>, x: multiset<nat>, less: multiset<nat>, leaked: multiset<nat>,
               live: multiset<nat>, fewer: multiset<nat>)
    requires own + leaked == live && own == x + less && live == x + fewer
    ensures less + leaked == fewer
  {
    Assoc(x, less, leaked);
    forall h: nat
      ensures (less + leaked)[h] == fewer[h]
    {
      assert (x + (less + leaked))[h] == x[h] + (less + leaked)[h];
      assert (x + fewer)[h] == x[h] + fewer[h];
    }
  }

  lemma AddToSet(s: set<nat>, h: nat)
    requires h !in s
    ensures multiset(s + {h}) == multiset{h} + multiset(s)
  {
  }

  lemma RemoveFromSet(s: set<nat>, h: nat)
    requires h in s
    ensures multiset(s) == multiset{h} + multiset(s - {h})
  {
  }

  /* ---------- Lists of owners ---------- */

  /** The entry at `k` set apart. */
  lemma {:induction false} SplitBufs(bs: seq<Desc>, k: nat)
    requires k < |bs|
    ensures BufHandles(bs) == multiset{bs[k].handle} + BufHandles(bs[..k] + bs[k + 1..])
  {
    var rest := bs[..k] + bs[k + 1..];
    if k == 0 {
      assert rest == bs[1..];
    } else {
      SplitBufs(bs[1..], k - 1);
      assert rest[1..] == bs[1..][..k - 1] + bs[1..][k..];
      Swap(multiset{bs[0].handle}, multiset{bs[k].handle}, BufHandles(rest[1..]));
    }
  }

  lemma {:induction false} SplitSessions(ss: seq<Sess>, k: nat)
    requires k < |ss|
    ensures SessionHandles(ss) == BufHandles(ss[k].bufs) + SessionHandles(ss[..k] + ss[k + 1..])
  {
    var rest := ss[..k] + ss[k + 1..];
    if k == 0 {
      assert rest == ss[1..];
    } else {
      SplitSessions(ss[1..], k - 1);
      assert rest[1..] == ss[1..][..k - 1] + ss[1..][k..];
      Swap(BufHandles(ss[0].bufs), BufHandles(ss[k].bufs), SessionHandles(rest[1..]));
    }
  }

  lemma {:induction false} SplitWsms(ws: seq<Wsm>, k: nat)
    requires k < |ws|
    ensures WsmHandles(ws) == multiset{ws[k].handle} + WsmHandles(ws[..k] + ws[k + 1..])
  {
    var rest := ws[..k] + ws[k + 1..];
    if k == 0 {
      assert rest == ws[1..];
    } else {
      SplitWsms(ws[1..], k - 1);
      assert rest[1..] == ws[1..][..k - 1] + ws[1..][k..];
      Swap(multiset{ws[0].handle}, multiset{ws[k].handle}, WsmHandles(rest[1..]));
    }
  }

  /** What the device owns apart from one session. */
  function OwnedBeside(d: Dev, k: nat): multiset<nat>
    requires k < |d.sessions|
  {
    SessionHandles(d.sessions[..k] + d.sessions[k + 1..]) + WsmHandles(d.wsms)
  }

  lemma OwnedBySession(d: Dev, k: nat)
    requires k < |d.sessions|
    ensures Owned(d) == BufHandles(d.sessions[k].bufs) + OwnedBeside(d, k)
  {
    SplitSessions(d.sessions, k);
    Assoc(BufHandles(d.sessions[k].bufs), SessionHandles(d.sessions[..k] + d.sessions[k + 1..]), WsmHandles(d.wsms));
  }

  lemma OwnedWithBufs(d: Dev, k: nat, bs: seq<Desc>)
    requires k < |d.sessions|
    ensures Owned(WithBufs(d, k, bs)) == BufHandles(bs) + OwnedBeside(d, k)
  {
    var e := WithBufs(d, k, bs);
    OwnedBySession(e, k);
    assert e.sessions[..k] + e.sessions[k + 1..] == d.sessions[..k] + d.sessions[k + 1..];
  }

  /** One session's list longer, or shorter, by one entry. */
  lemma OneMoreBuf(d: Dev, k: nat, less: seq<Desc>, more: seq<Desc>, h: nat)
    requires k < |d.sessions| && BufHandles(more) == multiset{h} + BufHandles(less)
    ensures Owned(WithBufs(d, k, more)) == multiset{h} + Owned(WithBufs(d, k, less))
  {
    OwnedWithBufs(d, k, less);
    OwnedWithBufs(d, k, more);
    Assoc(multiset{h}, BufHandles(less), OwnedBeside(d, k));
  }

  lemma LastBuf(bs: seq<Desc>, b: Desc)
    ensures BufHandles(bs + [b]) == multiset{b.handle} + BufHandles(bs)
  {
    SplitBufs(bs + [b], |bs|);
    assert (bs + [b])[..|bs|] + (bs + [b])[|bs| + 1..] == bs;
  }

  lemma LastWsm(ws: seq<Wsm>, w: Wsm)
    ensures WsmHandles(ws + [w]) == multiset{w.handle} + WsmHandles(ws)
  {
    SplitWsms(ws + [w], |ws|);
    assert (ws + [w])[..|ws|] + (ws + [w])[|ws| + 1..] == ws;
  }

  lemma LastSession(ss: seq<Sess>, x: Sess)
    ensures SessionHandles(ss + [x]) == BufHandles(x.bufs) + SessionHandles(ss)
  {
    SplitSessions(ss + [x], |ss|);
    assert (ss + [x])[..|ss|] + (ss + [x])[|ss| + 1..] == ss;
  }

  /* ---------- What each operation keeps ---------- */

  lemma OwnedIsLive(d: Dev, leaked: set<nat>, x: multiset<nat>, rest: multiset<nat>, h: nat)
    requires Conserved(d, leaked) && Owned(d) == x + rest && h in x
    ensures h in d.live
  {
    assert h in Owned(d) + multiset(leaked);
    assert h in multiset(d.live);
  }

  lemma AddBufKeeps(d: Dev, leaked: set<nat>, k: nat, b: Desc)
    requires Conserved(d, leaked) && k < |d.sessions| && b.handle !in d.live
    ensures Conserved(AddBuf(d, k, b), leaked) && AddBuf(d, k, b).refused == d.refused
  {
    var bs := d.sessions[k].bufs;
    LastBuf(bs, b);
    SameBufs(d, k);
    OneMoreBuf(d, k, bs, bs + [b], b.handle);
    AddToSet(d.live, b.handle);
    Grow(Owned(d), Owned(WithBufs(d, k, bs + [b])), multiset{b.handle}, multiset(leaked), multiset(d.live));
  }

  /** The balance when an owned handle is released and its entry erased. */
  lemma ReleaseOwned(d: Dev, leaked: set<nat>, h: nat, less: multiset<nat>)
    requires Conserved(d, leaked) && Owned(d) == multiset{h} + less
    ensures h in d.live && less + multiset(leaked) == multiset(d.live - {h})
  {
    assert h in multiset{h};
    OwnedIsLive(d, leaked, multiset{h}, less, h);
    RemoveFromSet(d.live, h);
    Shrink(Owned(d), multiset{h}, less, multiset(leaked), multiset(d.live), multiset(d.live - {h}));
  }

  lemma RemoveBufKeeps(d: Dev, leaked: set<nat>, k: nat, va: nat)
    requires Conserved(d, leaked) && k < |d.sessions|
    ensures var (e, result) := RemoveBuf(d, k, va);
            && Conserved(e, leaked) && e.refused == d.refused
            && (result == McOk <==> VaIndex(d.sessions[k].bufs, va) < |d.sessions[k].bufs|)
  {
    var bs := d.sessions[k].bufs;
    var j := VaIndex(bs, va);
    if j < |bs| {
      var less := bs[..j] + bs[j + 1..];
      SplitBufs(bs, j);
      SameBufs(d, k);
      OneMoreBuf(d, k, less, bs, bs[j].handle);
      ReleaseOwned(d, leaked, bs[j].handle, Owned(WithBufs(d, k, less)));
    }
  }

  /** Releasing descriptors that are all owned. */
  lemma {:induction false} ReleaseBufsKeeps(d: Dev, bs: seq<Desc>, others: multiset<nat>)
    requires BufHandles(bs) + others == multiset(d.live)
    ensures var e := ReleaseBufs(d, bs);
            others == multiset(e.live) && e.refused == d.refused
    decreases |bs|
  {
    if bs == [] {
      Neutral(others);
    } else {
      var h := bs[0].handle;
      assert h in multiset{h} + BufHandles(bs[1..]) + others;
      assert h in multiset(d.live);
      RemoveFromSet(d.live, h);
      Shrink(BufHandles(bs), multiset{h}, BufHandles(bs[1..]), others, multiset(d.live), multiset(d.live - {h}));
      ReleaseBufsKeeps(Release(d, h), bs[1..], others);
    }
  }

  lemma DeleteSessionKeeps(d: Dev, leaked: set<nat>, k: nat)
    requires Conserved(d, leaked) && k < |d.sessions|
    ensures Conserved(DeleteSession(d, k), leaked) && DeleteSession(d, k).refused == d.refused
  {
    OwnedBySession(d, k);
    Assoc(BufHandles(d.sessions[k].bufs), OwnedBeside(d, k), multiset(leaked));
    ReleaseBufsKeeps(d, d.sessions[k].bufs, OwnedBeside(d, k) + multiset(leaked));
  }

  lemma MallocKeeps(d: Dev, leaked: set<nat>, size: U32, h: nat, va: nat)
    requires Conserved(d, leaked) && h !in d.live && size != 0
    ensures Conserved(MallocWsm(d, size, Some((h, va))).0, leaked)
  {
    var w := Wsm(va, size, h);
    LastWsm(d.wsms, w);
    Swap(SessionHandles(d.sessions), multiset{h}, WsmHandles(d.wsms));
    AddToSet(d.live, h);
    Grow(Owned(d), Owned(d.(wsms := d.wsms + [w])), multiset{h}, multiset(leaked), multiset(d.live));
  }

  lemma FreeKeeps(d: Dev, leaked: set<nat>, va: nat)
    requires Conserved(d, leaked)
    ensures var (e, result) := FreeWsm(d, va);
            && Conserved(e, leaked) && e.refused == d.refused
            && (result == McOk <==> va != 0 && WsmIndex(d.wsms, va) < |d.wsms|)
  {
    var j := WsmIndex(d.wsms, va);
    if j < |d.wsms| {
      FreeOneKeeps(d, leaked, j);
    }
  }

  lemma FreeOneKeeps(d: Dev, leaked: set<nat>, j: nat)
    requires Conserved(d, leaked) && j < |d.wsms|
    ensures var h := d.wsms[j].handle;
            h in d.live && Conserved(Release(d, h).(wsms := d.wsms[..j] + d.wsms[j + 1..]), leaked)
  {
    var h := d.wsms[j].handle;
    var less := d.wsms[..j] + d.wsms[j + 1..];
    SplitWsms(d.wsms, j);
    Swap(SessionHandles(d.sessions), multiset{h}, WsmHandles(less));
    ReleaseOwned(d, leaked, h, SessionHandles(d.sessions) + WsmHandles(less));
  }

  lemma OpenKeeps(d: Dev, leaked: set<nat>, op: Op)
    requires Conserved(d, leaked) && op.OpenOp? && FreshHandle(d, op)
    ensures Conserved(Perform(d, op).0, leaked + Leak(d, op))
  {
    assert leaked + {} == leaked;
    if !TciRefused(d, op.tci, op.size) {
      if !TciNeedsBuffer(d, op.tci, op.size) {
        if op.id.Some? {
          LastSession(d.sessions, Sess(op.id.value, []));
          Neutral(SessionHandles(d.sessions));
        }
      } else if op.kernel.Some? {
        var h := op.kernel.value;
        AddToSet(d.live, h);
        if op.id.Some? {
          OpenedOnBuffer(d, leaked, op.id.value, Desc(op.tci, 0, op.size, h));
        } else {
          LeakedHandle(d, leaked, h);
        }
      }
    }
  }

  lemma OpenedOnBuffer(d: Dev, leaked: set<nat>, id: U32, b: Desc)
    requires Conserved(d, leaked) && b.handle !in d.live
    ensures Conserved(d.(live := d.live + {b.handle}, sessions := d.sessions + [Sess(id, [b])]), leaked)
  {
    LastSession(d.sessions, Sess(id, [b]));
    assert [b][1..] == [];
    Neutral(multiset{b.handle});
    Assoc(multiset{b.handle}, SessionHandles(d.sessions), WsmHandles(d.wsms));
    AddToSet(d.live, b.handle);
    Grow(Owned(d), Owned(d.(sessions := d.sessions + [Sess(id, [b])])), multiset{b.handle}, multiset(leaked),
         multiset(d.live));
  }

  lemma LeakedHandle(d: Dev, leaked: set<nat>, h: nat)
    requires Conserved(d, leaked) && h !in d.live
    ensures Conserved(d.(live := d.live + {h}), leaked + {h})
  {
    assert h !in multiset(d.live);
    assert h !in multiset(leaked);
    AddToSet(leaked, h);
    AddToSet(d.live, h);
    Swap(Owned(d), multiset{h}, multiset(leaked));
  }

  lemma MapKeeps(d: Dev, leaked: set<nat>, sid: U32, va: nat, size: U32, a: MapAnswer)
    requires Conserved(d, leaked) && (a.Registered? ==> a.handle !in d.live)
    ensures Conserved(MapOne(d, sid, va, size, a).0, leaked)
    ensures MapOne(d, sid, va, size, a).0.refused == d.refused
  {
    var k := SessionIndex(d.sessions, sid);
    if va != 0 && k < |d.sessions| && VaIndex(d.sessions[k].bufs, va) == |d.sessions[k].bufs| && a.Registered? {
      match a.daemon
      case Silent => AddBufKeeps(d, leaked, k, Desc(va, 0, size, a.handle));
      case Rejects => MT.AddRemove(d, k, Desc(va, 0, size, a.handle));
      case Accepts(sva) => AddBufKeeps(d, leaked, k, Desc(va, sva, size, a.handle));
    }
  }

  lemma UnmapRemoves(d: Dev, sid: U32, va: nat, sva: U64, size: U32, a: Daemon)
    ensures var k := SessionIndex(d.sessions, sid);
            var e := UnmapOne(d, sid, va, sva, size, a).0;
            e == d || (k < |d.sessions| && e == RemoveBuf(d, k, va).0)
  {
  }

  lemma UnmapKeeps(d: Dev, leaked: set<nat>, sid: U32, va: nat, sva: U64, size: U32, a: Daemon)
    requires Conserved(d, leaked)
    ensures Conserved(UnmapOne(d, sid, va, sva, size, a).0, leaked)
    ensures UnmapOne(d, sid, va, sva, size, a).0.refused == d.refused
  {
    var e := UnmapOne(d, sid, va, sva, size, a).0;
    UnmapRemoves(d, sid, va, sva, size, a);
    if e != d {
      RemoveBufKeeps(d, leaked, SessionIndex(d.sessions, sid), va);
      assert Conserved(e, leaked) && e.refused == d.refused;
    }
  }

  lemma MallocOpKeeps(d: Dev, leaked: set<nat>, op: Op)
    requires Conserved(d, leaked) && FreshHandle(d, op) && op.MallocOp?
    ensures Conserved(Perform(d, op).0, leaked) && Perform(d, op).0.refused == d.refused
  {
    if op.size != 0 && op.wsm.Some? {
      MallocKeeps(d, leaked, op.size, op.wsm.value.0, op.wsm.value.1);
    }
  }

  lemma CloseDeletes(d: Dev, sid: U32, a: Daemon)
    ensures var k := SessionIndex(d.sessions, sid);
            var e := CloseSession(d, sid, a).0;
            e == d || (k < |d.sessions| && e == DeleteSession(d, k))
  {
  }

  lemma CloseKeeps(d: Dev, leaked: set<nat>, sid: U32, a: Daemon)
    requires Conserved(d, leaked)
    ensures Conserved(CloseSession(d, sid, a).0, leaked) && CloseSession(d, sid, a).0.refused == d.refused
  {
    CloseDeletes(d, sid, a);
    if CloseSession(d, sid, a).0 != d {
      DeleteSessionKeeps(d, leaked, SessionIndex(d.sessions, sid));
    }
  }

  lemma OpenRefusesNothing(d: Dev, op: Op)
    requires op.OpenOp?
    ensures Perform(d, op).0.refused == d.refused
  {
  }

  /** Every operation, successful or not, keeps the balance and asks the kernel to release nothing
      it does not hold. */
  lemma OpConserves(d: Dev, leaked: set<nat>, op: Op)
    requires Conserved(d, leaked) && FreshHandle(d, op)
    ensures Conserved(Perform(d, op).0, leaked + Leak(d, op))
    ensures Perform(d, op).0.refused == d.refused
  {
    if op.OpenOp? {
      OpenKeeps(d, leaked, op);
      OpenRefusesNothing(d, op);
    } else {
      assert leaked + Leak(d, op) == leaked;
      match op
      case MallocOp(_, _) => MallocOpKeeps(d, leaked, op);
      case FreeOp(va) => FreeKeeps(d, leaked, va);
      case CloseOp(sid, answer) => CloseKeeps(d, leaked, sid, answer);
      case MapOp(sid, va, size, registered) => MapKeeps(d, leaked, sid, va, size, registered);
      case UnmapOp(sid, va, sva, size, answer) => UnmapKeeps(d, leaked, sid, va, sva, size, answer);
    }
  }

  /* ---------- Virtual addresses ---------- */

  lemma AddKeepsVas(d: Dev, k: nat, b: Desc)
    requires VasDistinct(d) && k < |d.sessions| && VaIndex(d.sessions[k].bufs, b.va) == |d.sessions[k].bufs|
    ensures VasDistinct(AddBuf(d, k, b))
  {
  }

  lemma RemoveKeepsVas(d: Dev, k: nat, va: nat)
    requires VasDistinct(d) && k < |d.sessions|
    ensures VasDistinct(RemoveBuf(d, k, va).0)
  {
  }

  /** No operation puts a virtual address into a session twice. */
  lemma OpKeepsVas(d: Dev, op: Op)
    requires VasDistinct(d)
    ensures VasDistinct(Perform(d, op).0)
  {
    match op
    case MallocOp(_, _) =>
    case FreeOp(_) =>
    case OpenOp(_, _, _, _) =>
    case CloseOp(_, _) =>
    case MapOp(sid, va, size, registered) =>
      var k := SessionIndex(d.sessions, sid);
      if k < |d.sessions| && VaIndex(d.sessions[k].bufs, va) == |d.sessions[k].bufs| && registered.Registered? {
        var b := Desc(va, 0, size, registered.handle);
        AddKeepsVas(d, k, b);
        RemoveKeepsVas(AddBuf(d, k, b), k, va);
        if registered.daemon.Accepts? {
          AddKeepsVas(d, k, b.(sva := registered.daemon.sva));
        }
      }
    case UnmapOp(sid, va, _, _, _) =>
      var k := SessionIndex(d.sessions, sid);
      if k < |d.sessions| {
        RemoveKeepsVas(d, k, va);
      }
  }

  /* ---------- Runs ---------- */

  function Run(d: Dev, ops: seq<Op>): Dev
    decreases |ops|
  {
    if ops == [] then d else Run(Perform(d, ops[0]).0, ops[1..])
  }

  predicate FreshRun(d: Dev, ops: seq<Op>)
    decreases |ops|
  {
    ops == [] || (FreshHandle(d, ops[0]) && FreshRun(Perform(d, ops[0]).0, ops[1..]))
  }

  function Leaks(d: Dev, ops: seq<Op>): set<nat>
    decreases |ops|
  {
    if ops == [] then {} else Leak(d, ops[0]) + Leaks(Perform(d, ops[0]).0, ops[1..])
  }

  lemma {:induction false} EveryRunConserves(d: Dev, leaked: set<nat>, ops: seq<Op>)
    requires Conserved(d, leaked) && VasDistinct(d) && FreshRun(d, ops)
    ensures Conserved(Run(d, ops), leaked + Leaks(d, ops))
    ensures VasDistinct(Run(d, ops)) && Run(d, ops).refused == d.refused
    decreases |ops|
  {
    if ops == [] {
      assert leaked + {} == leaked;
    } else {
      OpConserves(d, leaked, ops[0]);
      OpKeepsVas(d, ops[0]);
      var e := Perform(d, ops[0]).0;
      EveryRunConserves(e, leaked + Leak(d, ops[0]), ops[1..]);
      assert (leaked + Leak(d, ops[0])) + Leaks(e, ops[1..]) == leaked + Leaks(d, ops);
    }
  }

  lemma {:induction false} DeleteSessionsKeeps(d: Dev, leaked: set<nat>)
    requires Conserved(d, leaked)
    ensures Conserved(DeleteSessions(d), leaked) && DeleteSessions(d).refused == d.refused
    decreases |d.sessions|
  {
    if d.sessions != [] {
      DeleteSessionKeeps(d, leaked, 0);
      DeleteSessionsKeeps(DeleteSession(d, 0), leaked);
    }
  }

  lemma {:induction false} FreeWsmsKeeps(d: Dev, leaked: set<nat>)
    requires Conserved(d, leaked)
    ensures Conserved(FreeWsms(d), leaked) && FreeWsms(d).refused == d.refused
    decreases |d.wsms|
  {
    if d.wsms != [] {
      FreeOneKeeps(d, leaked, 0);
      assert d.wsms[..0] + d.wsms[1..] == d.wsms[1..];
      FreeWsmsKeeps(Release(d, d.wsms[0].handle).(wsms := d.wsms[1..]), leaked);
    }
  }

  /** Destroying the device releases each handle it owns exactly once and no other. */
  lemma DestroyReleasesTheRest(d: Dev, leaked: set<nat>)
    requires Conserved(d, leaked)
    ensures Destroy(d) == Dev(leaked, [], [], d.refused)
  {
    DeleteSessionsKeeps(d, leaked);
    FreeWsmsKeeps(DeleteSessions(d), leaked);
    var e := Destroy(d);
    assert multiset(leaked) == multiset(e.live);
    assert forall h :: h in leaked <==> h in multiset(leaked);
    assert forall h :: h in e.live <==> h in multiset(e.live);
  }

  /** From opening a device to destroying it, whatever happens in between: the kernel refuses no
      release, and what stays live is exactly what failed opens have leaked. */
  lemma DeviceLifeTime(d: Dev, ops: seq<Op>)
    requires d == Dev({}, [], [], 0) && FreshRun(d, ops)
    ensures Conserved(Run(d, ops), Leaks(d, ops)) && VasDistinct(Run(d, ops))
    ensures Destroy(Run(d, ops)) == Dev(Leaks(d, ops), [], [], 0)
  {
    EveryRunConserves(d, {}, ops);
    assert {} + Leaks(d, ops) == Leaks(d, ops);
    DestroyReleasesTheRest(Run(d, ops), Leaks(d, ops));
  }
}
