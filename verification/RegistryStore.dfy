/**
 The containers of the registry in the file system: storing, reading, and cleaning up a trustlet, a
 service provider, or everything.
 */
module RegistryStore {
  import opened Wire
  import opened RegistryPaths

  const MAX_SO_CONT_SIZE := 512
  const ROOT_CONT_SIZE := 220
  const SP_CONT_SIZE := 396
  const CHILDREN := 16
  /** Where the children start in the two containers, behind their secure object headers. */
  const ROOT_CHILDREN_AT := 76
  const SP_CHILDREN_AT := 60
  const MC_SPID_FREE: U32 := 0xFFFF_FFFF

  datatype McResult = McOk | InvalidParameter | InvalidDeviceFile | Unknown

  /** Files and directories; `denied` is what the system refuses to open, write or remove; `gpFiles`
      are those that deleteSPTA picks for a trustlet. */
  datatype Fs = Fs(files: map<string, bytes>, dirs: set<string>, denied: set<string>,
                   gpFiles: map<(Uuid, U32), set<string>>)

  predicate ValidFs(fs: Fs)
  {
    forall k :: k in fs.gpFiles ==> forall p :: p in fs.gpFiles[k] ==> GpFile(p)
  }

  function Min(a: nat, b: nat): nat { if a < b then a else b }

  /* ---------- Store and read ---------- */

  /** mcRegistryStoreRoot, mcRegistryStoreSp, mcRegistryStoreTrustletCon. */
  predicate Storable(k: Key, so: Option<bytes>)
  {
    so.Some? && |so.value| <= 3 * MAX_SO_CONT_SIZE && (k.SpKey? ==> k.spid != 0)
  }

  function Store(fs: Fs, k: Key, so: Option<bytes>): (Fs, McResult)
  {
    if !Storable(k, so) then (fs, InvalidParameter)
    else if KeyPath(k) in fs.denied then (fs, InvalidDeviceFile)
    else (fs.(files := fs.files[KeyPath(k) := so.value]), McOk)
  }

  /** mcRegistryReadRoot, mcRegistryReadSp, mcRegistryReadTrustletCon into a buffer of `size` bytes. */
  function ReadCont(fs: Fs, k: Key, size: nat): (McResult, bytes)
  {
    if k.SpKey? && k.spid == 0 then (InvalidParameter, [])
    else if KeyPath(k) !in fs.files || KeyPath(k) in fs.denied then (InvalidDeviceFile, [])
    else
      var data := fs.files[KeyPath(k)][..Min(size, |fs.files[KeyPath(k)]|)];
      if data == [] then (InvalidDeviceFile, []) else (McOk, data)
  }

  datatype StoreOp = StoreOp(k: Key, so: Option<bytes>)

  function Stores(fs: Fs, ops: seq<StoreOp>): Fs
    decreases |ops|
  {
    if ops == [] then fs else Stores(Store(fs, ops[0].k, ops[0].so).0, ops[1..])
  }

  /** The value of the last store under a key that was carried out. */
  function LastStored(denied: set<string>, k: Key, ops: seq<StoreOp>): Option<bytes>
    decreases |ops|
  {
    if ops == [] then None
    else
      var last := ops[|ops| - 1];
      if last.k == k && Storable(k, last.so) && KeyPath(k) !in denied then last.so
      else LastStored(denied, k, ops[..|ops| - 1])
  }

  lemma {:induction false} StoresLast(fs: Fs, ops: seq<StoreOp>)
    requires ops != []
    ensures Stores(fs, ops) == Store(Stores(fs, ops[..|ops| - 1]), ops[|ops| - 1].k, ops[|ops| - 1].so).0
    decreases |ops|
  {
    if |ops| > 1 {
      var e := Store(fs, ops[0].k, ops[0].so).0;
      StoresLast(e, ops[1..]);
      assert ops[1..][..|ops| - 2] == ops[..|ops| - 1][1..];
    }
  }

  /** After any sequence of stores, of any kinds and keys, a container reads as the last value stored
      under its own key, cut to the caller's size. An empty one does not read at all. */
  lemma {:induction false} ReadLastStored(fs: Fs, ops: seq<StoreOp>, k: Key)
    ensures var e := Stores(fs, ops);
            && e.denied == fs.denied
            && (match LastStored(fs.denied, k, ops)
                case Some(v) => KeyPath(k) in e.files && e.files[KeyPath(k)] == v
                case None =>
                  && (KeyPath(k) in e.files <==> KeyPath(k) in fs.files)
                  && (KeyPath(k) in fs.files ==> e.files[KeyPath(k)] == fs.files[KeyPath(k)]))
    decreases |ops|
  {
    if ops != [] {
      var before, last := ops[..|ops| - 1], ops[|ops| - 1];
      ReadLastStored(fs, before, k);
      StoresLast(fs, ops);
      if KeyPath(last.k) == KeyPath(k) {
        KeyPathInjective(last.k, k);
      }
    }
  }

  lemma ReadAfterStores(fs: Fs, ops: seq<StoreOp>, k: Key, size: nat)
    requires LastStored(fs.denied, k, ops).Some? && (k.SpKey? ==> k.spid != 0) && KeyPath(k) !in fs.denied
    ensures var v := LastStored(fs.denied, k, ops).value;
            ReadCont(Stores(fs, ops), k, size)
            == if size == 0 || v == [] then (InvalidDeviceFile, []) else (McOk, v[..Min(size, |v|)])
  {
    ReadLastStored(fs, ops, k);
  }

  /* ---------- Clean up ---------- */

  function Remove(fs: Fs, path: string): (Fs, bool)
  {
    if path in fs.files && path !in fs.denied then (fs.(files := fs.files - {path}), true) else (fs, false)
  }

  /** A file of a directory that the loop over its entries removes: not one starting with a dot, and
      not one inside a directory of its own. */
  predicate Listed(path: string, dir: string)
  {
    && Below(path, dir) && |path| > |dir| + 1 && path[|dir| + 1] != '.'
    && NoSlash(path[|dir| + 1..])
  }

  function ListedFiles(fs: Fs, dir: string): set<string>
  {
    set p | p in fs.files.Keys && Listed(p, dir) && p !in fs.denied
  }

  predicate NothingBelow(files: set<string>, dir: string)
  {
    forall p :: p in files ==> !Below(p, dir)
  }

  /** Empties a data directory, if there is one, and removes it. */
  function RemoveDir(fs: Fs, dir: string): (Fs, bool)
  {
    if dir !in fs.dirs || dir in fs.denied then (fs, true)
    else
      var left := fs.files - ListedFiles(fs, dir);
      if NothingBelow(left.Keys, dir) then (fs.(files := left, dirs := fs.dirs - {dir}), true)
      else (fs.(files := left), false)
  }

  function RemoveGpFiles(fs: Fs, uuid: Uuid, spid: U32): Fs
  {
    if (uuid, spid) in fs.gpFiles then fs.(files := fs.files - (fs.gpFiles[(uuid, spid)] - fs.denied)) else fs
  }

  /** The binary of a legacy trustlet, or else the files of a GP one. */
  function RemoveBinary(fs: Fs, uuid: Uuid, spid: U32): Fs
  {
    if TlBinPath(uuid) in fs.files then Remove(fs, TlBinPath(uuid)).0 else RemoveGpFiles(fs, uuid, spid)
  }

  /** mcRegistryCleanupTrustlet. */
  function CleanupTrustlet(fs: Fs, uuid: Uuid, spid: U32): (Fs, McResult)
  {
    var (fs1, emptied) := RemoveDir(fs, TlDataPath(uuid));
    if !emptied then (fs1, Unknown)
    else
      var (fs3, removed) := Remove(RemoveBinary(fs1, uuid, spid), KeyPath(TlKey(uuid, spid)));
      (fs3, if removed then McOk else Unknown)
  }

  /** A container as large as its structure. */
  function ChildSpid(cont: bytes, i: nat): U32
    requires |cont| == ROOT_CONT_SIZE && i < CHILDREN
  {
    var at := ROOT_CHILDREN_AT + 4 * i;
    (cont[at] as int) + 0x100 * (cont[at + 1] as int) + 0x1_0000 * (cont[at + 2] as int)
    + 0x100_0000 * (cont[at + 3] as int)
  }

  function ChildUuid(cont: bytes, i: nat): Uuid
    requires |cont| == SP_CONT_SIZE && i < CHILDREN
  {
    cont[SP_CHILDREN_AT + 16 * i..SP_CHILDREN_AT + 16 * i + 16]
  }

  /** MC_UUID_FREE: all ones. */
  predicate IsFree(uuid: Uuid)
  {
    forall k :: 0 <= k < 16 ==> uuid[k] == 0xFF
  }

  function CleanupTrustlets(fs: Fs, cont: bytes, spid: U32, i: nat): (Fs, McResult)
    requires |cont| == SP_CONT_SIZE && i <= CHILDREN
    decreases CHILDREN - i
  {
    if i == CHILDREN then (fs, McOk)
    else if IsFree(ChildUuid(cont, i)) then CleanupTrustlets(fs, cont, spid, i + 1)
    else
      var (next, result) := CleanupTrustlet(fs, ChildUuid(cont, i), spid);
      if result != McOk then (next, result) else CleanupTrustlets(next, cont, spid, i + 1)
  }

  /** mcRegistryCleanupSp. A container that is too short ends it with the result of reading, OK. */
  function CleanupSp(fs: Fs, spid: U32): (Fs, McResult)
  {
    var (result, cont) := ReadCont(fs, SpKey(spid), SP_CONT_SIZE);
    if result != McOk || |cont| != SP_CONT_SIZE then (fs, result)
    else
      var (fs1, trustlets) := CleanupTrustlets(fs, cont, spid, 0);
      if trustlets != McOk then (fs1, trustlets)
      else
        var (fs2, emptied) := RemoveDir(fs1, SpDataPath(spid));
        if !emptied then (fs2, Unknown)
        else
          var (fs3, removed) := Remove(fs2, KeyPath(SpKey(spid)));
          (fs3, if removed then McOk else Unknown)
  }

  function CleanupSps(fs: Fs, cont: bytes, i: nat): (Fs, McResult)
    requires |cont| == ROOT_CONT_SIZE && i <= CHILDREN
    decreases CHILDREN - i
  {
    if i == CHILDREN then (fs, McOk)
    else if ChildSpid(cont, i) == MC_SPID_FREE then CleanupSps(fs, cont, i + 1)
    else
      var (next, result) := CleanupSp(fs, ChildSpid(cont, i));
      if result != McOk then (next, result) else CleanupSps(next, cont, i + 1)
  }

  lemma {:induction false} SpsUnfold(fs: Fs, cont: bytes, i: nat, first: (Fs, McResult))
    requires |cont| == ROOT_CONT_SIZE && i < CHILDREN
    requires first == if ChildSpid(cont, i) == MC_SPID_FREE then (fs, McOk) else CleanupSp(fs, ChildSpid(cont, i))
    ensures CleanupSps(fs, cont, i) == if first.1 != McOk then first else CleanupSps(first.0, cont, i + 1)
  {
  }

  /** mcRegistryCleanupRoot. */
  function CleanupRoot(fs: Fs): (Fs, McResult)
  {
    var (result, cont) := ReadCont(fs, RootKey, ROOT_CONT_SIZE);
    if result != McOk || |cont| != ROOT_CONT_SIZE then (fs, result)
    else
      var (fs1, sps) := CleanupSps(fs, cont, 0);
      if sps != McOk then (fs1, sps)
      else
        var (fs2, removed) := Remove(fs1, KeyPath(RootKey));
        (fs2, if removed then McOk else Unknown)
  }
}
