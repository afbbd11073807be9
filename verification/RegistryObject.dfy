/**
 The registry as an object over the file system: storing, reading and cleaning up change the files in
 place, and the blob of a service is put together in a buffer behind a moving position.
 */
module RegistryObject {
  import opened Wire
  import opened Framing
  import opened RegistryPaths
  import opened RegistryStore
  import opened RegistryBlob

  class Registry {
    var fs: Fs

    constructor (fs: Fs)
      ensures this.fs == fs
    {
      this.fs := fs;
    }

    method StoreContainer(k: Key, so: Option<bytes>) returns (result: McResult)
      modifies this
      ensures (fs, result) == Store(old(fs), k, so)
    {
      if so.None? || |so.value| > 3 * MAX_SO_CONT_SIZE || (k.SpKey? && k.spid == 0) {
        return InvalidParameter;
      }
      if KeyPath(k) in fs.denied {
        return InvalidDeviceFile;
      }
      fs := fs.(files := fs.files[KeyPath(k) := so.value]);
      return McOk;
    }

    method RemoveFile(path: string) returns (removed: bool)
      modifies this
      ensures (fs, removed) == Remove(old(fs), path)
    {
      removed := path in fs.files && path !in fs.denied;
      if removed {
        fs := fs.(files := fs.files - {path});
      }
    }

    /** opendir, remove for every entry, rmdir. */
    method RemoveDirectory(dir: string) returns (ok: bool)
      modifies this
      ensures (fs, ok) == RemoveDir(old(fs), dir)
    {
      if dir !in fs.dirs || dir in fs.denied {
        return true;
      }
      fs := fs.(files := fs.files - ListedFiles(fs, dir));
      ok := NothingBelow(fs.files.Keys, dir);
      if ok {
        fs := fs.(dirs := fs.dirs - {dir});
      }
    }

    /** mcRegistryCleanupTrustlet. */
    method McCleanupTrustlet(uuid: Uuid, spid: U32) returns (result: McResult)
      modifies this
      ensures (fs, result) == CleanupTrustlet(old(fs), uuid, spid)
    {
      var emptied := RemoveDirectory(TlDataPath(uuid));
      if !emptied {
        return Unknown;
      }
      if TlBinPath(uuid) in fs.files {
        var _ := RemoveFile(TlBinPath(uuid));
      } else {
        fs := RemoveGpFiles(fs, uuid, spid);
      }
      var removed := RemoveFile(KeyPath(TlKey(uuid, spid)));
      return if removed then McOk else Unknown;
    }

    /** One child of a provider's container. */
    method CleanupChild(cont: bytes, spid: U32, i: nat) returns (result: McResult)
      requires |cont| == SP_CONT_SIZE && i < CHILDREN
      modifies this
      ensures CleanupTrustlets(old(fs), cont, spid, i)
           == if result != McOk then (fs, result) else CleanupTrustlets(fs, cont, spid, i + 1)
    {
      result := McOk;
      if !IsFree(ChildUuid(cont, i)) {
        result := McCleanupTrustlet(ChildUuid(cont, i), spid);
      }
    }

    /** The loop of mcRegistryCleanupSp. */
    method CleanupChildren(cont: bytes, spid: U32) returns (result: McResult)
      requires |cont| == SP_CONT_SIZE
      modifies this
      ensures (fs, result) == CleanupTrustlets(old(fs), cont, spid, 0)
    {
      result := McOk;
      var i := 0;
      ghost var all := CleanupTrustlets(fs, cont, spid, 0);
      while i < CHILDREN && result == McOk
        invariant i <= CHILDREN
        invariant all == if result == McOk then CleanupTrustlets(fs, cont, spid, i) else (fs, result)
      {
        result := CleanupChild(cont, spid, i);
        i := i + 1;
      }
    }

    /** mcRegistryCleanupSp. */
    method McCleanupSp(spid: U32) returns (result: McResult)
      modifies this
      ensures (fs, result) == CleanupSp(old(fs), spid)
    {
      var (read, cont) := ReadCont(fs, SpKey(spid), SP_CONT_SIZE);
      if read != McOk || |cont| != SP_CONT_SIZE {
        return read;
      }
      result := CleanupChildren(cont, spid);
      if result != McOk {
        return;
      }
      var emptied := RemoveDirectory(SpDataPath(spid));
      if !emptied {
        return Unknown;
      }
      var removed := RemoveFile(KeyPath(SpKey(spid)));
      return if removed then McOk else Unknown;
    }

    /** One child of the root container. */
    method CleanupProvider(cont: bytes, i: nat) returns (result: McResult)
      requires |cont| == ROOT_CONT_SIZE && i < CHILDREN
      modifies this
      ensures CleanupSps(old(fs), cont, i) == if result != McOk then (fs, result) else CleanupSps(fs, cont, i + 1)
    {
      result := McOk;
      if ChildSpid(cont, i) != MC_SPID_FREE {
        result := McCleanupSp(ChildSpid(cont, i));
      }
      SpsUnfold(old(fs), cont, i, (fs, result));
    }

    /** The loop of mcRegistryCleanupRoot. */
    method CleanupProviders(cont: bytes) returns (result: McResult)
      requires |cont| == ROOT_CONT_SIZE
      modifies this
      ensures (fs, result) == CleanupSps(old(fs), cont, 0)
    {
      result := McOk;
      var i := 0;
      ghost var all := CleanupSps(fs, cont, 0);
      while i < CHILDREN && result == McOk
        invariant i <= CHILDREN
        invariant all == if result == McOk then CleanupSps(fs, cont, i) else (fs, result)
      {
        result := CleanupProvider(cont, i);
        i := i + 1;
      }
    }

    /** mcRegistryCleanupRoot. */
    method McCleanupRoot() returns (result: McResult)
      modifies this
      ensures (fs, result) == CleanupRoot(old(fs))
    {
      var (read, cont) := ReadCont(fs, RootKey, ROOT_CONT_SIZE);
      if read != McOk || |cont| != ROOT_CONT_SIZE {
        return read;
      }
      result := CleanupProviders(cont);
      if result != McOk {
        return;
      }
      var removed := RemoveFile(KeyPath(RootKey));
      return if removed then McOk else Unknown;
    }
  }

  /** memcpy, or fread of what is there, to a position in the buffer. */
  method Put(value: array<byte>, at: nat, data: bytes)
    requires at + |data| <= value.Length
    modifies value
    ensures value[..at] == old(value[..at])
    ensures value[at..at + |data|] == data
  {
    for i := 0 to |data|
      invariant value[..at] == old(value[..at])
      invariant value[at..at + i] == data[..i]
    {
      value[at + i] := data[i];
      assert value[at..at + i + 1] == value[at..at + i] + [data[i]];
      assert data[..i + 1] == data[..i] + [data[i]];
    }
    assert data[..|data|] == data;
  }

  /** Appending behind position `at` of the part that starts at `start`. */
  method Append(value: array<byte>, start: nat, at: nat, data: bytes) returns (p: nat)
    requires start <= at && at + |data| <= value.Length
    modifies value
    ensures p == at + |data| && value[..start] == old(value[..start])
    ensures value[start..p] == old(value[start..at]) + data
  {
    Put(value, at, data);
    p := at + |data|;
    assert value[..start] == value[..at][..start];
    assert old(value[..start]) == old(value[..at])[..start];
    assert value[start..at] == value[..at][start..];
    assert old(value[start..at]) == old(value[..at])[start..];
    assert value[start..p] == value[start..at] + value[at..p];
  }

  /** What becomes of a request for a blob. `OutOfBounds` stands for the inputs on which the code, which
      checks neither, reads past the end of the trustlet or writes past the end of its allocation. */
  datatype BlobResult = Refused | Loaded | OutOfBounds

  /** Too long, or without the magic word. */
  predicate NotATrustlet(trustlet: bytes)
  {
    |trustlet| > MAX_TL_SIZE || (|trustlet| >= 4 && Word(trustlet, 0) != MC_SERVICE_HEADER_MAGIC_BE)
  }

  /** What assembling comes to: sizes and magic are right, and if containers are to be appended, they can
      be read and fit. */
  function BlobOutcome(fs: Fs, spid: U32, trustlet: bytes): BlobResult
  {
    if NotATrustlet(trustlet) then Refused
    else if |trustlet| < HEADER_SIZE then OutOfBounds
    else if TakenAsIs(trustlet) then Loaded
    else if ServiceType(trustlet) != SERVICE_TYPE_SP_TRUSTLET then Refused
    else ContainersOutcome(fs, spid, UuidOf(trustlet))
  }

  function ContainersOutcome(fs: Fs, spid: U32, uuid: Uuid): BlobResult
  {
    if !AllRead(fs, spid, uuid) then Refused else if Fits(fs, spid, uuid) then Loaded else OutOfBounds
  }

  /** mcRegistryMemGetServiceBlob. The bytes the code leaves as malloc has returned them are arbitrary
      here too. */
  method MemGetServiceBlob(registry: Registry, spid: U32, trustlet: bytes)
    returns (result: BlobResult, len: nat, tlStartOffset: nat, value: array<byte>)
    ensures result == BlobOutcome(registry.fs, spid, trustlet)
    ensures fresh(value) && len <= value.Length
    ensures result.Loaded? && TakenAsIs(trustlet) ==> tlStartOffset == 0 && value[..len] == trustlet
    ensures result.Loaded? && !TakenAsIs(trustlet) ==>
              tlStartOffset == LEN_INFO_SIZE && IsBlob(value[..len], registry.fs, spid, trustlet)
  {
    result, len, tlStartOffset := Refused, 0, 0;
    value := new byte[0];
    if |trustlet| > MAX_TL_SIZE {
      return;
    }
    if |trustlet| < 4 {
      result := OutOfBounds;
      return;
    }
    if Word(trustlet, 0) != MC_SERVICE_HEADER_MAGIC_BE {
      return;
    }
    if |trustlet| < HEADER_SIZE {
      result := OutOfBounds;
      return;
    }
    if TakenAsIs(trustlet) {
      len := |trustlet|;
      value := new byte[len];
      Put(value, 0, trustlet);
      assert value[..len] == value[0..0 + |trustlet|];
      result := Loaded;
    } else if ServiceType(trustlet) == SERVICE_TYPE_SP_TRUSTLET {
      result, len, value := AppendContainers(registry.fs, spid, trustlet);
      tlStartOffset := LEN_INFO_SIZE;
    }
  }

  /** The part for service provider trustlets, with its moving position `p`. Root and provider container
      always fit. */
  method AppendContainers(fs: Fs, spid: U32, trustlet: bytes) returns (result: BlobResult, len: nat, value: array<byte>)
    requires |trustlet| >= HEADER_SIZE
    ensures result == ContainersOutcome(fs, spid, UuidOf(trustlet))
    ensures fresh(value) && len <= value.Length
    ensures result.Loaded? ==> IsBlob(value[..len], fs, spid, trustlet)
  {
    result, len := Refused, 0;
    value := new byte[LEN_INFO_SIZE + |trustlet| + 3 * MAX_SO_CONT_SIZE];
    var uuid := UuidOf(trustlet);
    var p := LEN_INFO_SIZE;
    assert value[LEN_INFO_SIZE..p] == [];
    p := Append(value, LEN_INFO_SIZE, p, trustlet);
    assert value[LEN_INFO_SIZE..p] == trustlet;
    var (rootRead, root) := RootPart(fs);
    if rootRead != McOk {
      return;
    }
    ReadLength(fs, RootKey, ROOT_CONT_SIZE);
    p := Append(value, LEN_INFO_SIZE, p, root);
    var (spRead, sp) := SpPart(fs, spid);
    if spRead != McOk {
      return;
    }
    ReadLength(fs, SpKey(spid), SP_CONT_SIZE);
    p := Append(value, LEN_INFO_SIZE, p, sp);
    var (tlRead, tl) := TlPart(fs, spid, uuid);
    if tlRead != McOk {
      return;
    }
    if p + |tl| > value.Length {
      result := OutOfBounds;
      return;
    }
    len := FinishBlob(value, p, trustlet, root, sp, tl);
    result := Loaded;
  }

  /** The last container and the length information. */
  method FinishBlob(value: array<byte>, at: nat, trustlet: bytes, root: bytes, sp: bytes, tl: bytes) returns (len: nat)
    requires LEN_INFO_SIZE <= at && at + |tl| <= value.Length
    requires value[LEN_INFO_SIZE..at] == trustlet + root + sp
    modifies value
    ensures len == at + |tl|
    ensures value[..len][..16] == LenInfo(|root|, |sp|, |tl|)
    ensures value[..len][LEN_INFO_SIZE..] == trustlet + (root + sp + tl)
  {
    len := Append(value, LEN_INFO_SIZE, at, tl);
    SeqAssoc(trustlet, root, sp);
    SeqAssoc(trustlet, root + sp, tl);
    assert value[LEN_INFO_SIZE..len] == trustlet + (root + sp + tl);
    WriteLenInfo(value, |root|, |sp|, |tl|);
    assert value[..len][LEN_INFO_SIZE..] == value[LEN_INFO_SIZE..len];
    assert value[..len][..16] == value[..16];
  }

  /** The fields of the length information; the source fills each in once it is known. */
  method WriteLenInfo(value: array<byte>, root: nat, sp: nat, tl: nat)
    requires value.Length >= LEN_INFO_SIZE
    modifies value
    ensures value[..16] == LenInfo(root, sp, tl)
    ensures forall i :: 16 <= i < value.Length ==> value[i] == old(value[i])
  {
    var info := LenInfo(root, sp, tl);
    for i := 0 to 16
      invariant value[..i] == info[..i]
      invariant forall k :: 16 <= k < value.Length ==> value[k] == old(value[k])
    {
      value[i] := info[i];
      assert value[..i + 1] == value[..i] + [info[i]];
      assert info[..i + 1] == info[..i] + [info[i]];
    }
    assert info[..16] == info;
  }
}
