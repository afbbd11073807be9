/**
 The array in which mc_client_api.cpp remembers world shared memory, so that closing the device can
 free what is left. It refines a multiset of (address, length); its capacity follows its largest
 size; and the loop of mcCloseDevice empties it, but releases none of the blocks.
 */
module WsmTable {
  import opened Wire

  datatype MapLen = MapLen(wsm: nat, len: U32)

  /* ---------- The table on values ---------- */

  function Find(s: seq<MapLen>, wsm: nat, i: nat := 0): (k: nat)
    requires i <= |s|
    ensures i <= k <= |s|
    ensures k < |s| ==> s[k].wsm == wsm
    ensures forall j :: i <= j < k ==> s[j].wsm != wsm
    decreases |s| - i
  {
    if i == |s| || s[i].wsm == wsm then i else Find(s, wsm, i + 1)
  }

  /** wsms_remove: the last entry takes the place of the removed one. */
  function Remove(s: seq<MapLen>, wsm: nat): (r: seq<MapLen>)
    ensures |r| <= |s|
  {
    var i := Find(s, wsm);
    if i == |s| then s else s[i := s[|s| - 1]][..|s| - 1]
  }

  /** wsms_len: 0 when the address is not there. */
  function Len(s: seq<MapLen>, wsm: nat): U32
  {
    var i := Find(s, wsm);
    if i == |s| then 0 else s[i].len
  }

  /** mcFreeWsm: looks the length up, asks the client to free the block, and forgets it if it has.
      The second part of the result is what the client was asked to free and has freed. */
  function FreeWsm(s: seq<MapLen>, wsm: nat, accepted: bool): (r: (seq<MapLen>, seq<MapLen>))
    ensures |r.0| <= |s|
  {
    var len := Len(s, wsm);
    if len == 0 || !accepted then (s, []) else (Remove(s, wsm), [MapLen(wsm, len)])
  }

  /** The loop of mcCloseDevice: what it leaves and what it has freed. The client's answer to the
      call made when `k` entries are left is `answers[k]`. */
  function Drain(s: seq<MapLen>, answers: seq<bool>): (r: (seq<MapLen>, seq<MapLen>))
    requires |s| <= |answers|
    decreases |s|
  {
    if s == [] || s[|s| - 1].wsm == 0 then (if s == [] then [] else s[..|s| - 1], [])
    else
      var popped := s[..|s| - 1];
      var (after, freed) := FreeWsm(popped, s[|s| - 1].wsm, answers[|popped|]);
      var (left, more) := Drain(after, answers);
      (left, freed + more)
  }

  predicate NoNull(s: seq<MapLen>)
  {
    forall k :: 0 <= k < |s| ==> s[k].wsm != 0
  }

  predicate Distinct(s: seq<MapLen>)
  {
    forall i, j :: 0 <= i < j < |s| ==> s[i].wsm != s[j].wsm
  }

  lemma Cancel(a: multiset<MapLen>, b: multiset<MapLen>, x: MapLen)
    requires a + multiset{x} == b + multiset{x}
    ensures a == b
  {
    forall y: MapLen
      ensures a[y] == b[y]
    {
      assert (a + multiset{x})[y] == a[y] + multiset{x}[y];
      assert (b + multiset{x})[y] == b[y] + multiset{x}[y];
    }
  }

  /** Removing with the last entry is removing from the multiset. */
  lemma {:induction false} RemoveFromMultiset(s: seq<MapLen>, wsm: nat)
    ensures var i := Find(s, wsm);
            multiset(Remove(s, wsm)) == if i == |s| then multiset(s) else multiset(s) - multiset{s[i]}
    ensures NoNull(s) ==> NoNull(Remove(s, wsm))
  {
    if Find(s, wsm) < |s| {
      LastMoved(s, Find(s, wsm));
    }
  }

  lemma {:induction false} LastMoved(s: seq<MapLen>, i: nat)
    requires i < |s|
    ensures multiset(s[i := s[|s| - 1]][..|s| - 1]) == multiset(s) - multiset{s[i]}
  {
    var last := s[|s| - 1];
    var moved := s[i := last];
    assert moved == moved[..|s| - 1] + [last];
    assert multiset(moved) == multiset(s) - multiset{s[i]} + multiset{last};
    assert multiset(moved) == multiset(moved[..|s| - 1]) + multiset{last};
    Cancel(multiset(moved[..|s| - 1]), multiset(s) - multiset{s[i]}, last);
  }

  lemma {:induction false} FindFirst(s: seq<MapLen>, wsm: nat, k: nat, i: nat)
    requires i <= k < |s| && s[k].wsm == wsm && forall j :: i <= j < k ==> s[j].wsm != wsm
    ensures Find(s, wsm, i) == k
    decreases k - i
  {
    if i < k {
      FindFirst(s, wsm, k, i + 1);
    }
  }

  /** Freeing an address that is listed, if its block is not empty and the client agrees, takes its first entry
      out of the table and that block, by its length, from the client; and nothing else happens in any case. */
  lemma FreeEffect(s: seq<MapLen>, wsm: nat, accepted: bool, k: nat)
    ensures (forall j :: 0 <= j < |s| ==> s[j].wsm != wsm) ==> FreeWsm(s, wsm, accepted) == (s, [])
    ensures k < |s| && s[k].wsm == wsm && (forall j :: 0 <= j < k ==> s[j].wsm != wsm) ==>
              var (left, freed) := FreeWsm(s, wsm, accepted);
              if s[k].len != 0 && accepted
              then multiset(left) == multiset(s) - multiset{s[k]} && freed == [s[k]]
              else left == s && freed == []
  {
    if k < |s| && s[k].wsm == wsm && forall j :: 0 <= j < k ==> s[j].wsm != wsm {
      FindFirst(s, wsm, k, 0);
      RemoveFromMultiset(s, wsm);
    }
  }

  /** The loop ends with an empty table. */
  lemma {:induction false} DrainEmpties(s: seq<MapLen>, answers: seq<bool>)
    requires |s| <= |answers| && NoNull(s)
    ensures Drain(s, answers).0 == []
    decreases |s|
  {
    if s != [] {
      var popped := s[..|s| - 1];
      RemoveFromMultiset(popped, s[|s| - 1].wsm);
      DrainEmpties(FreeWsm(popped, s[|s| - 1].wsm, answers[|popped|]).0, answers);
    }
  }

  /** It releases nothing: an entry is gone from the table before its length is looked up. Only an
      address listed twice would be freed. */
  lemma {:induction false} DrainReleasesOnlyDuplicates(s: seq<MapLen>, answers: seq<bool>)
    requires |s| <= |answers| && NoNull(s)
    requires forall k :: 0 <= k < |s| ==> s[k].len != 0
    requires forall k :: 0 <= k < |answers| ==> answers[k]
    ensures Drain(s, answers).1 == [] <==> Distinct(s)
    decreases |s|
  {
    if s != [] {
      var popped, last := s[..|s| - 1], s[|s| - 1];
      var i := Find(popped, last.wsm);
      if i == |popped| {
        DrainReleasesOnlyDuplicates(popped, answers);
        assert forall k :: 0 <= k < |popped| ==> popped[k] == s[k];
      } else {
        assert s[i].wsm == last.wsm;
      }
    }
  }

  /** Whatever the client answers, blocks with addresses of their own are never freed. */
  lemma {:induction false} DistinctNeverFreed(s: seq<MapLen>, answers: seq<bool>)
    requires |s| <= |answers| && Distinct(s)
    ensures Drain(s, answers).1 == []
    decreases |s|
  {
    if s != [] && s[|s| - 1].wsm != 0 {
      DistinctNeverFreed(s[..|s| - 1], answers);
    }
  }

  /* ---------- Capacities ---------- */

  function Pow2(k: nat): nat
  {
    if k == 0 then 1 else 2 * Pow2(k - 1)
  }

  ghost predicate IsCapacity(c: nat)
  {
    c == 0 || exists k: nat :: c == 16 * Pow2(k)
  }

  lemma NextCapacity(c: nat)
    requires IsCapacity(c)
    ensures IsCapacity(if c == 0 then 16 else 2 * c)
  {
    if c == 0 {
      assert 16 == 16 * Pow2(0);
    } else {
      var k: nat :| c == 16 * Pow2(k);
      assert 2 * c == 16 * Pow2(k + 1);
    }
  }

  /* ---------- The table in place ---------- */

  class Table {
    var wsms: array<MapLen>
    var length: nat
    /** The largest number of entries so far. */
    ghost var peak: nat

    ghost predicate Valid()
      reads this
    {
      && length <= wsms.Length && length <= peak
      && IsCapacity(wsms.Length)
      && (wsms.Length <= 16 || wsms.Length <= 2 * peak)
    }

    ghost function Entries(): seq<MapLen>
      reads this, wsms
      requires Valid()
    {
      wsms[..length]
    }

    constructor ()
      ensures Valid() && Entries() == [] && fresh(wsms) && peak == 0
    {
      wsms := new MapLen[0];
      length, peak := 0, 0;
    }

    /** wsms_add; `memory` is whether realloc succeeds, should it be called. */
    method Add(wsm: nat, len: U32, memory: bool) returns (ok: bool)
      requires Valid()
      modifies this, wsms
      ensures Valid() && (wsms == old(wsms) || fresh(wsms))
      ensures ok == (memory || old(length) < old(wsms.Length))
      ensures Entries() == if ok then old(Entries()) + [MapLen(wsm, len)] else old(Entries())
      ensures peak == if ok && length > old(peak) then length else old(peak)
    {
      if length == wsms.Length {
        if !memory {
          return false;
        }
        NextCapacity(wsms.Length);
        Grow(if wsms.Length == 0 then 16 else 2 * wsms.Length);
      }
      wsms[length] := MapLen(wsm, len);
      length := length + 1;
      if length > peak {
        peak := length;
      }
      return true;
    }

    /** realloc. */
    method Grow(capacity: nat)
      requires length == wsms.Length < capacity
      modifies `wsms
      ensures fresh(wsms) && wsms.Length == capacity && wsms[..length] == old(wsms[..length])
    {
      var bigger := new MapLen[capacity];
      for i := 0 to length
        invariant wsms == old(wsms)
        invariant forall j :: 0 <= j < i ==> bigger[j] == old(wsms[j])
      {
        bigger[i] := wsms[i];
      }
      wsms := bigger;
    }

    method FindEntry(wsm: nat) returns (i: nat)
      requires Valid()
      ensures i == Find(Entries(), wsm)
    {
      i := 0;
      while i < length && wsms[i].wsm != wsm
        invariant i <= length && Find(Entries(), wsm) == Find(Entries(), wsm, i)
      {
        i := i + 1;
      }
    }

    method RemoveEntry(wsm: nat) returns (ok: bool)
      requires Valid()
      modifies this, wsms
      ensures Valid() && wsms == old(wsms) && peak == old(peak)
      ensures ok == (Find(old(Entries()), wsm) < |old(Entries())|)
      ensures Entries() == Remove(old(Entries()), wsm)
    {
      var i := FindEntry(wsm);
      if i == length {
        return false;
      }
      length := length - 1;
      wsms[i] := wsms[length];
      return true;
    }

    method LenOf(wsm: nat) returns (len: U32)
      requires Valid()
      ensures len == Len(Entries(), wsm)
    {
      var i := FindEntry(wsm);
      len := if i == length then 0 else wsms[i].len;
    }

    method RemoveLast() returns (last: MapLen)
      requires Valid()
      modifies `length
      ensures Valid()
      ensures var s := old(Entries());
              if s == [] then last == MapLen(0, 0) && Entries() == []
              else last == s[|s| - 1] && Entries() == s[..|s| - 1]
    {
      if length > 0 {
        length := length - 1;
        last := wsms[length];
      } else {
        last := MapLen(0, 0);
      }
    }

    method McFreeWsm(wsm: nat, accepted: bool) returns (freed: seq<MapLen>)
      requires Valid()
      modifies this, wsms
      ensures Valid() && wsms == old(wsms) && peak == old(peak)
      ensures (Entries(), freed) == FreeWsm(old(Entries()), wsm, accepted)
    {
      freed := [];
      var len := LenOf(wsm);
      if len != 0 && accepted {
        var _ := RemoveEntry(wsm);
        freed := [MapLen(wsm, len)];
      }
    }

    /** The loop of mcCloseDevice. */
    method FreeRemaining(answers: seq<bool>) returns (freed: seq<MapLen>)
      requires Valid() && |answers| >= length
      modifies this, wsms
      ensures Valid() && wsms == old(wsms) && peak == old(peak)
      ensures (Entries(), freed) == Drain(old(Entries()), answers)
    {
      freed := [];
      while true
        invariant Valid() && wsms == old(wsms) && peak == old(peak) && |answers| >= length
        invariant Drain(old(Entries()), answers).0 == Drain(Entries(), answers).0
        invariant Drain(old(Entries()), answers).1 == freed + Drain(Entries(), answers).1
        decreases length
      {
        ghost var before := Entries();
        var last := RemoveLast();
        if last.wsm == 0 {
          assert freed + [] == freed;
          return;
        }
        var more := McFreeWsm(last.wsm, answers[length]);
        SeqAssoc(freed, more, Drain(Entries(), answers).1);
        freed := freed + more;
      }
    }
  }
}
