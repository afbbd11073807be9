/**
 Assembling the blob of a service: length information, trustlet, and the three containers behind one
 another, and how the recorded lengths cut it apart again.
 */
module RegistryBlob {
  import opened Wire
  import opened Framing
  import opened RegistryPaths
  import opened RegistryStore

  const MAX_TL_SIZE := 1024 * 1024
  const HEADER_SIZE := 76
  const LEN_INFO_SIZE := 32
  const MC_TLBLOBLEN_MAGIC: U32 := 0x7672_746C
  /** "MCLF", read as a little endian word. */
  const MC_SERVICE_HEADER_MAGIC_BE: U32 := 0x464C_434D
  const SERVICE_TYPE_DRIVER := 1
  const SERVICE_TYPE_SP_TRUSTLET := 2
  const SERVICE_TYPE_SYSTEM_TRUSTLET := 3

  function Word(b: bytes, at: nat): (w: nat)
    requires at + 4 <= |b|
  {
    UnLe(b[at..at + 4])
  }

  /** Fields of mclfHeaderV2_t. */
  function ServiceType(trustlet: bytes): nat
    requires |trustlet| >= HEADER_SIZE
  {
    Word(trustlet, 16)
  }

  function UuidOf(trustlet: bytes): Uuid
    requires |trustlet| >= HEADER_SIZE
  {
    trustlet[24..40]
  }

  predicate TakenAsIs(trustlet: bytes)
    requires |trustlet| >= HEADER_SIZE
  {
    ServiceType(trustlet) == SERVICE_TYPE_DRIVER || ServiceType(trustlet) == SERVICE_TYPE_SYSTEM_TRUSTLET
  }

  /* ---------- The containers ---------- */

  function RootPart(fs: Fs): (McResult, bytes) { ReadCont(fs, RootKey, ROOT_CONT_SIZE) }

  function SpPart(fs: Fs, spid: U32): (McResult, bytes) { ReadCont(fs, SpKey(spid), SP_CONT_SIZE) }

  /** What the trustlet container may take. The size of the length information is added where it should
      be subtracted. */
  function TlSpace(fs: Fs, spid: U32): nat
  {
    3 * MAX_SO_CONT_SIZE + 2 * LEN_INFO_SIZE - |RootPart(fs).1| - |SpPart(fs, spid).1|
  }

  function TlPart(fs: Fs, spid: U32, uuid: Uuid): (McResult, bytes)
  {
    ReadCont(fs, TlKey(uuid, spid), TlSpace(fs, spid))
  }

  predicate AllRead(fs: Fs, spid: U32, uuid: Uuid)
  {
    RootPart(fs).0 == McOk && SpPart(fs, spid).0 == McOk && TlPart(fs, spid, uuid).0 == McOk
  }

  /** What lies behind the trustlet. */
  function Containers(fs: Fs, spid: U32, uuid: Uuid): bytes
  {
    RootPart(fs).1 + SpPart(fs, spid).1 + TlPart(fs, spid, uuid).1
  }

  /** The containers stay inside the allocation. */
  predicate Fits(fs: Fs, spid: U32, uuid: Uuid)
  {
    |Containers(fs, spid, uuid)| <= 3 * MAX_SO_CONT_SIZE
  }

  lemma ReadLength(fs: Fs, k: Key, size: nat)
    ensures |ReadCont(fs, k, size).1| <= size
    ensures ReadCont(fs, k, size).0 == McOk ==>
              KeyPath(k) in fs.files && |ReadCont(fs, k, size).1| == Min(size, |fs.files[KeyPath(k)]|)
  {
  }

  /** They do exactly when the trustlet container's file is no longer than what is really left. */
  lemma FitsWhen(fs: Fs, spid: U32, uuid: Uuid)
    requires AllRead(fs, spid, uuid)
    ensures Fits(fs, spid, uuid)
       <==> |RootPart(fs).1| + |SpPart(fs, spid).1| + |fs.files[KeyPath(TlKey(uuid, spid))]| <= 3 * MAX_SO_CONT_SIZE
  {
    ReadLength(fs, TlKey(uuid, spid), TlSpace(fs, spid));
  }

  /** Containers of at most 512 bytes each always do, and the last one is read whole. */
  lemma SmallContainersFit(fs: Fs, spid: U32, uuid: Uuid)
    requires AllRead(fs, spid, uuid) && |fs.files[KeyPath(TlKey(uuid, spid))]| <= MAX_SO_CONT_SIZE
    ensures Fits(fs, spid, uuid) && TlPart(fs, spid, uuid).1 == fs.files[KeyPath(TlKey(uuid, spid))]
  {
    ReadLength(fs, RootKey, ROOT_CONT_SIZE);
    ReadLength(fs, SpKey(spid), SP_CONT_SIZE);
    ReadLength(fs, TlKey(uuid, spid), TlSpace(fs, spid));
    var f := fs.files[KeyPath(TlKey(uuid, spid))];
    assert f[..|f|] == f;
  }

  /** The largest container that can be stored does not fit. */
  lemma LargestContainerDoesNotFit(fs: Fs, spid: U32, uuid: Uuid)
    requires AllRead(fs, spid, uuid) && |fs.files[KeyPath(TlKey(uuid, spid))]| == 3 * MAX_SO_CONT_SIZE
    ensures !Fits(fs, spid, uuid)
  {
    FitsWhen(fs, spid, uuid);
  }

  /* ---------- The blob ---------- */

  /** The part of mcBlobLenInfo_t that is filled in. */
  function LenInfo(root: nat, sp: nat, tl: nat): (b: bytes)
    ensures |b| == 16
  {
    Le(MC_TLBLOBLEN_MAGIC, 4) + Le(root, 4) + Le(sp, 4) + Le(tl, 4)
  }

  /** The object as it should be: `value` up to its length. */
  predicate IsBlob(value: bytes, fs: Fs, spid: U32, trustlet: bytes)
    requires |trustlet| >= HEADER_SIZE
  {
    var uuid := UuidOf(trustlet);
    && |value| == LEN_INFO_SIZE + |trustlet| + |Containers(fs, spid, uuid)|
    && value[..16] == LenInfo(|RootPart(fs).1|, |SpPart(fs, spid).1|, |TlPart(fs, spid, uuid).1|)
    && value[LEN_INFO_SIZE..] == trustlet + Containers(fs, spid, uuid)
  }

  /** How a reader cuts the value apart: three lengths, counted from the end. */
  function Cut(value: bytes): (r: Option<(bytes, bytes, bytes, bytes)>)
  {
    if |value| < LEN_INFO_SIZE || Word(value, 0) != MC_TLBLOBLEN_MAGIC then None
    else
      var root, sp, tl := Word(value, 4), Word(value, 8), Word(value, 12);
      if root + sp + tl > |value| - LEN_INFO_SIZE then None
      else
        var at := |value| - root - sp - tl;
        Some((value[LEN_INFO_SIZE..at], value[at..at + root], value[at + root..at + root + sp],
              value[at + root + sp..]))
  }

  lemma FourWords(a: bytes, b: bytes, c: bytes, d: bytes, value: bytes)
    requires |a| == |b| == |c| == |d| == 4 && |value| >= 16 && value[..16] == a + b + c + d
    ensures value[0..4] == a && value[4..8] == b && value[8..12] == c && value[12..16] == d
  {
    var v := value[..16];
    assert v[0..4] == a && v[4..8] == b && v[8..12] == c && v[12..16] == d;
    assert forall i :: 0 <= i < 16 ==> value[i] == v[i];
  }

  lemma LenInfoReads(value: bytes, root: nat, sp: nat, tl: nat)
    requires root < TWO_32 && sp < TWO_32 && tl < TWO_32 && |value| >= 16 && value[..16] == LenInfo(root, sp, tl)
    ensures Word(value, 0) == MC_TLBLOBLEN_MAGIC && Word(value, 4) == root && Word(value, 8) == sp
    ensures Word(value, 12) == tl
  {
    FourWords(Le(MC_TLBLOBLEN_MAGIC, 4), Le(root, 4), Le(sp, 4), Le(tl, 4), value);
    Le32(MC_TLBLOBLEN_MAGIC);
    Le32(root);
    Le32(sp);
    Le32(tl);
  }

  lemma CutParts(value: bytes, b: bytes, r: bytes, s: bytes, t: bytes)
    requires |r| < TWO_32 && |s| < TWO_32 && |t| < TWO_32
    requires |value| >= LEN_INFO_SIZE && value[LEN_INFO_SIZE..] == b + (r + s + t)
    requires value[..16] == LenInfo(|r|, |s|, |t|)
    ensures Cut(value) == Some((b, r, s, t))
  {
    LenInfoReads(value, |r|, |s|, |t|);
    PartsOf(value, b, r, s, t);
  }

  /** Cutting by the recorded sizes gives every part back. */
  lemma BlobCutsBack(value: bytes, fs: Fs, spid: U32, trustlet: bytes)
    requires |trustlet| >= HEADER_SIZE && IsBlob(value, fs, spid, trustlet)
    ensures Cut(value)
         == Some((trustlet, RootPart(fs).1, SpPart(fs, spid).1, TlPart(fs, spid, UuidOf(trustlet)).1))
  {
    ReadLength(fs, RootKey, ROOT_CONT_SIZE);
    ReadLength(fs, SpKey(spid), SP_CONT_SIZE);
    ReadLength(fs, TlKey(UuidOf(trustlet), spid), TlSpace(fs, spid));
    CutParts(value, trustlet, RootPart(fs).1, SpPart(fs, spid).1, TlPart(fs, spid, UuidOf(trustlet)).1);
  }

  lemma PartsOf(value: bytes, b: bytes, r: bytes, s: bytes, t: bytes)
    requires |value| >= LEN_INFO_SIZE && value[LEN_INFO_SIZE..] == b + (r + s + t)
    ensures var at := |value| - |r| - |s| - |t|;
            && at == LEN_INFO_SIZE + |b|
            && value[LEN_INFO_SIZE..at] == b && value[at..at + |r|] == r
            && value[at + |r|..at + |r| + |s|] == s && value[at + |r| + |s|..] == t
  {
    var w := value[LEN_INFO_SIZE..];
    assert forall i :: 0 <= i < |w| ==> value[LEN_INFO_SIZE + i] == w[i];
    assert w[..|b|] == b && w[|b|..|b| + |r|] == r;
    assert w[|b| + |r|..|b| + |r| + |s|] == s && w[|b| + |r| + |s|..] == t;
  }

  /** After any sequence of stores in which the last of each kind is not empty and at most 512 bytes:
      the blob takes the values that were stored, the first two cut to the size of their structures. */
  lemma BlobOfStoredContainers(fs: Fs, ops: seq<StoreOp>, spid: U32, uuid: Uuid, root: bytes, sp: bytes, tl: bytes)
    requires spid != 0 && 0 < |root| <= MAX_SO_CONT_SIZE && 0 < |sp| <= MAX_SO_CONT_SIZE && 0 < |tl| <= MAX_SO_CONT_SIZE
    requires LastStored(fs.denied, RootKey, ops) == Some(root) && KeyPath(RootKey) !in fs.denied
    requires LastStored(fs.denied, SpKey(spid), ops) == Some(sp) && KeyPath(SpKey(spid)) !in fs.denied
    requires LastStored(fs.denied, TlKey(uuid, spid), ops) == Some(tl) && KeyPath(TlKey(uuid, spid)) !in fs.denied
    ensures var e := Stores(fs, ops);
            && AllRead(e, spid, uuid) && Fits(e, spid, uuid)
            && RootPart(e).1 == root[..Min(ROOT_CONT_SIZE, |root|)]
            && SpPart(e, spid).1 == sp[..Min(SP_CONT_SIZE, |sp|)]
            && TlPart(e, spid, uuid).1 == tl
  {
    var e := Stores(fs, ops);
    ReadAfterStores(fs, ops, RootKey, ROOT_CONT_SIZE);
    ReadAfterStores(fs, ops, SpKey(spid), SP_CONT_SIZE);
    ReadLength(e, RootKey, ROOT_CONT_SIZE);
    ReadLength(e, SpKey(spid), SP_CONT_SIZE);
    ReadAfterStores(fs, ops, TlKey(uuid, spid), TlSpace(e, spid));
    ReadLastStored(fs, ops, TlKey(uuid, spid));
    SmallContainersFit(e, spid, uuid);
  }
}
