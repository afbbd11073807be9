/**
 The server's list of buffers as a set of addresses: what looking up, updating and removing come to when
 no address is listed twice.
 */
module ProxyLists {
  import opened Wire
  import opened Ioctl
  import opened ProxyServer
  import opened ProxyClient

  function Addresses(bs: seq<Buffer>): set<U64>
  {
    set b | b in bs :: b.sva
  }

  predicate DistinctBuffers(bs: seq<Buffer>)
  {
    forall i, j :: 0 <= i < j < |bs| ==> bs[i].sva != bs[j].sva
  }

  predicate NoRepeat(svas: seq<U64>)
  {
    forall i, j :: 0 <= i < j < |svas| ==> svas[i] != svas[j]
  }

  function AsSet(svas: seq<U64>): set<U64>
  {
    set x | x in svas
  }

  function BufferSvas(bs: seq<Buffer>): (r: seq<U64>)
    ensures |r| == |bs|
  {
    seq(|bs|, k requires 0 <= k < |bs| => bs[k].sva)
  }

  lemma AddressesAre(bs: seq<Buffer>)
    ensures AsSet(BufferSvas(bs)) == Addresses(bs)
    ensures NoRepeat(BufferSvas(bs)) <==> DistinctBuffers(bs)
  {
    forall x
      ensures x in AsSet(BufferSvas(bs)) <==> x in Addresses(bs)
    {
      if x in Addresses(bs) {
        var k :| 0 <= k < |bs| && bs[k].sva == x;
        assert BufferSvas(bs)[k] == x;
      }
    }
    if NoRepeat(BufferSvas(bs)) {
      forall i, j | 0 <= i < j < |bs|
        ensures bs[i].sva != bs[j].sva
      {
        assert BufferSvas(bs)[i] != BufferSvas(bs)[j];
      }
    }
  }

  lemma FoundIsListed(bs: seq<Buffer>, sva: U64)
    ensures Find(bs, sva) < |bs| <==> sva in Addresses(bs)
  {
    if sva in Addresses(bs) {
      var b :| b in bs && b.sva == sva;
    }
  }

  /* ---------- Updating ---------- */

  /** The same buffers, up to their contents. */
  predicate SameShape(bs: seq<Buffer>, rs: seq<Buffer>)
  {
    && |rs| == |bs|
    && forall k :: 0 <= k < |bs| ==>
         rs[k].sva == bs[k].sva && rs[k].flags == bs[k].flags && |rs[k].data| == |bs[k].data|
  }

  lemma SameAddresses(bs: seq<Buffer>, rs: seq<Buffer>)
    requires SameShape(bs, rs)
    ensures Addresses(rs) == Addresses(bs)
    ensures DistinctBuffers(bs) ==> DistinctBuffers(rs)
  {
    forall x
      ensures x in Addresses(bs) <==> x in Addresses(rs)
    {
      if x in Addresses(bs) {
        var k :| 0 <= k < |bs| && bs[k].sva == x;
        assert rs[k] in rs;
      }
      if x in Addresses(rs) {
        var k :| 0 <= k < |rs| && rs[k].sva == x;
        assert bs[k] in bs;
      }
    }
  }

  lemma ShapeSteps(a: seq<Buffer>, b: seq<Buffer>, c: seq<Buffer>)
    requires SameShape(a, b) && SameShape(b, c)
    ensures SameShape(a, c)
  {
  }

  /** The loop of `notify` gets through exactly if every address is listed, and changes contents only. */
  lemma {:induction false} UpdateAllShape(bs: seq<Buffer>, ps: seq<Patch>)
    ensures SameShape(bs, UpdateAll(bs, ps).0)
    ensures UpdateAll(bs, ps).1 <==> forall j :: 0 <= j < |ps| ==> ps[j].sva in Addresses(bs)
    decreases |ps|
  {
    if ps != [] {
      FoundIsListed(bs, ps[0].sva);
      var k := Find(bs, ps[0].sva);
      if k < |bs| {
        var next := bs[k := Updated(bs[k], ps[0].data)];
        assert SameShape(bs, next);
        SameAddresses(bs, next);
        UpdateAllShape(next, ps[1..]);
        ShapeSteps(bs, next, UpdateAll(next, ps[1..]).0);
        assert forall j :: 1 <= j < |ps| ==> ps[j] == ps[1..][j - 1];
        assert (forall j :: 0 <= j < |ps[1..]| ==> ps[1..][j].sva in Addresses(bs)) ==>
               (forall j :: 1 <= j < |ps| ==> ps[j].sva in Addresses(bs));
      }
    }
  }

  /** A buffer that no patch names keeps its contents. */
  lemma {:induction false} UpdateAllKeeps(bs: seq<Buffer>, ps: seq<Patch>, k: nat)
    requires k < |bs| && forall j :: 0 <= j < |ps| ==> ps[j].sva != bs[k].sva
    ensures |UpdateAll(bs, ps).0| == |bs| && UpdateAll(bs, ps).0[k] == bs[k]
    decreases |ps|
  {
    if ps != [] {
      var i := Find(bs, ps[0].sva);
      if i < |bs| {
        UpdateAllKeeps(bs[i := Updated(bs[i], ps[0].data)], ps[1..], k);
      }
    }
  }

  predicate DistinctPatches(ps: seq<Patch>)
  {
    forall i, j :: 0 <= i < j < |ps| ==> ps[i].sva != ps[j].sva
  }

  lemma FindIs(bs: seq<Buffer>, k: nat, i: nat)
    requires DistinctBuffers(bs) && i <= k < |bs|
    ensures Find(bs, bs[k].sva, i) == k
    decreases k - i
  {
    if i < k {
      FindIs(bs, k, i + 1);
    }
  }

  /** A buffer that a patch of its length names gets the patch's contents. */
  lemma {:induction false} UpdateAllSets(bs: seq<Buffer>, ps: seq<Patch>, j: nat, k: nat)
    requires DistinctBuffers(bs) && DistinctPatches(ps) && j < |ps| && k < |bs|
    requires ps[j].sva == bs[k].sva && |ps[j].data| == |bs[k].data| && UpdateAll(bs, ps).1
    ensures |UpdateAll(bs, ps).0| == |bs| && UpdateAll(bs, ps).0[k] == bs[k].(data := ps[j].data)
    decreases |ps|
  {
    var i := Find(bs, ps[0].sva);
    var next := bs[i := Updated(bs[i], ps[0].data)];
    assert SameShape(bs, next);
    SameAddresses(bs, next);
    if j == 0 {
      FindIs(bs, k, 0);
      UpdateAllKeeps(next, ps[1..], k);
    } else {
      assert next[k] == bs[k] by {
        assert ps[0].sva != ps[j].sva;
      }
      UpdateAllSets(next, ps[1..], j - 1, k);
    }
  }

  /* ---------- Removing ---------- */

  lemma Erased(bs: seq<Buffer>, k: nat)
    requires DistinctBuffers(bs) && k < |bs|
    ensures var r := bs[..k] + bs[k + 1..];
            && DistinctBuffers(r) && Addresses(r) == Addresses(bs) - {bs[k].sva}
            && forall b :: b in r ==> b in bs
  {
    var r := bs[..k] + bs[k + 1..];
    forall x
      ensures x in Addresses(r) <==> x in Addresses(bs) && x != bs[k].sva
    {
      if x in Addresses(bs) && x != bs[k].sva {
        var i :| 0 <= i < |bs| && bs[i].sva == x;
        assert r[if i < k then i else i - 1] == bs[i];
      }
    }
  }

  /** The loop of `unmap` gets through exactly if every address is listed and none is named twice. */
  lemma {:induction false} RemoveAllWhen(bs: seq<Buffer>, svas: seq<U64>)
    requires DistinctBuffers(bs)
    ensures RemoveAll(bs, svas).1 <==> NoRepeat(svas) && AsSet(svas) <= Addresses(bs)
    ensures RemoveAll(bs, svas).1 ==>
              var r := RemoveAll(bs, svas).0;
              && DistinctBuffers(r) && Addresses(r) == Addresses(bs) - AsSet(svas)
              && forall b :: b in r ==> b in bs
    decreases |svas|
  {
    if svas != [] {
      FoundIsListed(bs, svas[0]);
      assert svas[0] in AsSet(svas);
      var k := Find(bs, svas[0]);
      if k < |bs| {
        var r := bs[..k] + bs[k + 1..];
        Erased(bs, k);
        RemoveAllWhen(r, svas[1..]);
        RestAsSet(svas);
      }
    }
  }

  lemma RestAsSet(svas: seq<U64>)
    requires svas != []
    ensures AsSet(svas) == {svas[0]} + AsSet(svas[1..])
    ensures NoRepeat(svas) <==> svas[0] !in AsSet(svas[1..]) && NoRepeat(svas[1..])
  {
    assert svas == [svas[0]] + svas[1..];
    if svas[0] !in AsSet(svas[1..]) && NoRepeat(svas[1..]) {
      forall i, j | 0 <= i < j < |svas|
        ensures svas[i] != svas[j]
      {
        assert svas[j] == svas[1..][j - 1];
        assert i > 0 ==> svas[i] == svas[1..][i - 1];
      }
    }
  }

  lemma AllFoundIsListed(bs: seq<Buffer>, svas: seq<U64>)
    ensures AllFound(bs, svas) <==> AsSet(svas) <= Addresses(bs)
  {
    forall j | 0 <= j < |svas|
      ensures Find(bs, svas[j]) < |bs| <==> svas[j] in Addresses(bs)
    {
      FoundIsListed(bs, svas[j]);
    }
    if AsSet(svas) <= Addresses(bs) {
      forall j | 0 <= j < |svas|
        ensures Find(bs, svas[j]) < |bs|
      {
        assert svas[j] in AsSet(svas);
      }
    }
  }

  /* ---------- Counting ---------- */

  lemma {:induction false} DistinctCount(svas: seq<U64>)
    requires NoRepeat(svas)
    ensures |AsSet(svas)| == |svas|
    decreases |svas|
  {
    if svas != [] {
      RestAsSet(svas);
      DistinctCount(svas[1..]);
    }
  }

  /** Distinct addresses that are all listed are no more than there are buffers. */
  lemma NoMoreThanListed(bs: seq<Buffer>, svas: seq<U64>)
    requires NoRepeat(svas) && AsSet(svas) <= Addresses(bs) && DistinctBuffers(bs)
    ensures |svas| <= |bs|
  {
    DistinctCount(svas);
    DistinctCount(BufferSvas(bs));
    AddressesAre(bs);
    SubsetSize(AsSet(svas), Addresses(bs));
  }

  lemma SubsetSize(a: set<U64>, b: set<U64>)
    requires a <= b
    ensures |a| <= |b|
  {
    assert b == a + (b - a);
  }
}
