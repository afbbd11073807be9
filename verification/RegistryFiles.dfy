/**
 What cleaning up does to every file and directory, not only to containers, and how the containers name their
 children.
 */
module RegistryFiles {
  import opened Wire
  import opened Framing
  import opened RegistryPaths
  import opened RegistryStore
  import opened RegistryCleanup
  import opened RegistryBlob
  import opened RegistryObject

  /* ---------- Children ---------- */

  /** The root container lists sixteen providers as little-endian words behind its header of 76 bytes, a
      provider's container as many uuids behind 60 bytes. */
  lemma ChildrenAre(root: bytes, sp: bytes, i: nat)
    requires |root| == 76 + 16 * 4 + 80 && |sp| == 60 + 16 * 16 + 80 && i < 16
    ensures ChildSpid(root, i) == UnLe(root[76 + 4 * i..80 + 4 * i])
    ensures ChildUuid(sp, i) == sp[60 + 16 * i..76 + 16 * i]
  {
    var w := root[76 + 4 * i..80 + 4 * i];
    assert w[1..][1..] == w[2..] && w[2..][1..] == w[3..] && w[3..][1..] == [];
    assert UnLe(w) == w[0] + 256 * UnLe(w[1..]);
    assert UnLe(w[1..]) == w[1] + 256 * UnLe(w[2..]);
    assert UnLe(w[2..]) == w[2] + 256 * UnLe(w[3..]);
    assert UnLe(w[3..]) == w[3] + 256 * UnLe([]);
  }

  /** A provider written there is read back. */
  lemma SpidRoundTrip(root: bytes, i: nat, spid: U32)
    requires |root| == ROOT_CONT_SIZE && i < 16 && root[76 + 4 * i..80 + 4 * i] == Le(spid, 4)
    ensures ChildSpid(root, i) == spid
  {
    ChildrenAre(root, seq(SP_CONT_SIZE, _ => 0), i);
    Le32(spid);
  }

  /** An entry is free if all its bytes are ones. */
  lemma FreeEntries(root: bytes, sp: bytes, i: nat)
    requires |root| == ROOT_CONT_SIZE && |sp| == SP_CONT_SIZE && i < 16
    ensures ChildSpid(root, i) == MC_SPID_FREE <==> root[76 + 4 * i..80 + 4 * i] == [0xFF, 0xFF, 0xFF, 0xFF]
    ensures IsFree(ChildUuid(sp, i)) <==> sp[60 + 16 * i..76 + 16 * i] == seq(16, _ => 0xFF)
  {
    var w := root[76 + 4 * i..80 + 4 * i];
    assert w == [root[76 + 4 * i], root[77 + 4 * i], root[78 + 4 * i], root[79 + 4 * i]];
    assert ChildUuid(sp, i) == sp[60 + 16 * i..76 + 16 * i];
  }

  /** The entries of a directory that are swept: those with a name that does not start with a dot, and in no
      directory below. */
  lemma ListedWhen(dir: string, name: string)
    ensures Listed(dir + "/" + name, dir)
       <==> name != "" && name[0] != '.' && forall k :: 0 <= k < |name| ==> name[k] != '/'
  {
    var path := dir + "/" + name;
    assert path[..|dir|] == dir && path[|dir|] == '/' && path[|dir| + 1..] == name;
  }

  /** A container is stored if it is given, of at most three times 512 bytes, not of provider 0, and its file can
      be written; then its file holds it and every other file is as before. */
  lemma StoreEffect(fs: Fs, k: Key, so: Option<bytes>)
    ensures var (e, result) := Store(fs, k, so);
            if so.None? || |so.value| > 1536 || k == SpKey(0) then e == fs && result == InvalidParameter
            else if KeyPath(k) in fs.denied then e == fs && result == InvalidDeviceFile
            else
              && result == McOk && e.dirs == fs.dirs && SameSystem(fs, e)
              && e.files.Keys == fs.files.Keys + {KeyPath(k)} && e.files[KeyPath(k)] == so.value
              && forall p :: p in fs.files && p != KeyPath(k) ==> e.files[p] == fs.files[p]
  {
  }

  /** Reading a container: provider 0 has none; a file that is not there, cannot be opened, or is empty does not
      read; and any other reads as far as there is room. */
  lemma ReadEffect(fs: Fs, k: Key, size: nat)
    ensures ReadCont(fs, k, size)
         == if k == SpKey(0) then (InvalidParameter, [])
            else if KeyPath(k) !in fs.files || KeyPath(k) in fs.denied then (InvalidDeviceFile, [])
            else
              var file := fs.files[KeyPath(k)];
              if size == 0 || file == [] then (InvalidDeviceFile, [])
              else (McOk, if size < |file| then file[..size] else file)
  {
    if KeyPath(k) in fs.files {
      var file := fs.files[KeyPath(k)];
      assert file[..|file|] == file;
    }
  }

  /* ---------- Names ---------- */

  /** A number shifted down by `k` hexadecimal digits. */
  function Shifted(v: nat, k: nat): nat
  {
    if k == 0 then v else Shifted(v / 16, k - 1)
  }

  lemma {:induction false} DigitAt(v: nat, n: nat, k: nat)
    requires k < n
    ensures Digits(v, n)[n - 1 - k] == "0123456789ABCDEF"[Shifted(v, k) % 16]
  {
    if k > 0 {
      DigitAt(v / 16, n - 1, k - 1);
    }
  }

  lemma {:induction false} ReversedAt(s: string, k: nat)
    requires k < |s|
    ensures Reversed(s)[k] == s[|s| - 1 - k]
  {
    if k < |s| - 1 {
      ReversedAt(s[1..], k);
    }
  }

  /** An identifier's name is its eight hexadecimal digits in capitals, the lowest one first. */
  lemma WordDigits(v: U32, k: nat)
    requires k < 8
    ensures Uint32ToString(v)[k] == "0123456789ABCDEF"[Shifted(v, k) % 16]
  {
    ReversedAt(Digits(v, 8), k);
    DigitAt(v, 8, k);
  }

  /** A uuid's name is the digits of its bytes in small letters, high half first. */
  lemma {:induction false} ByteDigits(b: bytes, k: nat)
    requires k < |b|
    ensures ByteArrayToString(b)[2 * k] == "0123456789abcdef"[b[k] / 16]
    ensures ByteArrayToString(b)[2 * k + 1] == "0123456789abcdef"[b[k] % 16]
  {
    if k > 0 {
      ByteDigits(b[1..], k - 1);
    }
  }

  /** The files of the containers. */
  lemma PathsAre(spid: U32, uuid: Uuid)
    ensures KeyPath(RootKey) == "/data/app/mcRegistry/00000000.rootcont"
    ensures KeyPath(SpKey(spid)) == "/data/app/mcRegistry/" + (Uint32ToString(spid) + ".spcont")
    ensures KeyPath(TlKey(uuid, spid))
         == "/data/app/mcRegistry/" + (ByteArrayToString(uuid) + "." + Uint32ToString(spid) + ".tlcont")
  {
  }

  /* ---------- The header of a trustlet ---------- */

  lemma Behind(a: bytes, b: bytes, i: nat, j: nat)
    requires i <= j <= |b|
    ensures (a + b)[|a| + i..|a| + j] == b[i..j]
  {
  }

  /** What the registry reads of a trustlet's header, from its fields in the order of mclfHeaderV2_t: a magic word
      and three others, the service type, the number of instances, the uuid, and 36 bytes more. */
  lemma HeaderRoundTrip(magic: U32, words: bytes, service: U32, instances: U32, uuid: Uuid, rest: bytes)
    requires |words| == 12 && |rest| >= 36
    ensures var header := Le(magic, 4) + (words + (Le(service, 4) + (Le(instances, 4) + (uuid + rest))));
            && |header| >= HEADER_SIZE
            && Word(header, 0) == magic && ServiceType(header) == service && UuidOf(header) == uuid
            && (TakenAsIs(header) <==> service == 1 || service == 3)
  {
    hide Le, UnLe;
    var behind := Le(instances, 4) + (uuid + rest);
    var typed := Le(service, 4) + behind;
    var header := Le(magic, 4) + (words + typed);
    assert header[0..4] == Le(magic, 4);
    assert header[16..20] == typed[0..4] == Le(service, 4) by {
      Behind(Le(magic, 4), words + typed, 12, 16);
      Behind(words, typed, 0, 4);
    }
    assert header[24..40] == uuid by {
      Behind(Le(magic, 4), words + typed, 20, 36);
      Behind(words, typed, 8, 24);
      Behind(Le(service, 4), behind, 4, 20);
      Behind(Le(instances, 4), uuid + rest, 0, 16);
      assert (uuid + rest)[0..16] == uuid;
    }
    Le32(magic);
    Le32(service);
  }

  /** What becomes of a request for a blob, by the header: drivers and system trustlets are taken as they are,
      trustlets of a provider if their containers can be read and take no more than 1536 bytes together, and
      nothing else. */
  lemma OutcomeByHeader(fs: Fs, spid: U32, trustlet: bytes)
    requires |trustlet| >= 76
    ensures var uuid := trustlet[24..40];
            BlobOutcome(fs, spid, trustlet)
            == if |trustlet| > 0x10_0000 || trustlet[0..4] != [0x4D, 0x43, 0x4C, 0x46] then Refused
               else if UnLe(trustlet[16..20]) in {1, 3} then Loaded
               else if UnLe(trustlet[16..20]) != 2 || !AllRead(fs, spid, uuid) then Refused
               else if |RootPart(fs).1| + |SpPart(fs, spid).1| + |TlPart(fs, spid, uuid).1| <= 1536 then Loaded
               else OutOfBounds
  {
    MagicIs(trustlet[0..4]);
  }

  /** "MCLF". */
  lemma MagicIs(w: bytes)
    requires |w| == 4
    ensures UnLe(w) == 0x464C_434D <==> w == [0x4D, 0x43, 0x4C, 0x46]
  {
    assert w == [w[0], w[1], w[2], w[3]];
    assert w[1..][1..] == w[2..] && w[2..][1..] == w[3..] && w[3..][1..] == [];
    assert UnLe(w) == w[0] + 256 * UnLe(w[1..]);
    assert UnLe(w[1..]) == w[1] + 256 * UnLe(w[2..]);
    assert UnLe(w[2..]) == w[2] + 256 * UnLe(w[3..]);
    assert UnLe(w[3..]) == w[3] + 256 * UnLe([]);
  }

  /** The last container is read whole as long as the three are no longer than 1600 bytes together, though there
      is only room for 1536. */
  lemma ReadWholeWhen(fs: Fs, spid: U32, uuid: Uuid)
    requires AllRead(fs, spid, uuid)
    ensures var file := fs.files[KeyPath(TlKey(uuid, spid))];
            TlPart(fs, spid, uuid).1 == file <==> |RootPart(fs).1| + |SpPart(fs, spid).1| + |file| <= 1600
  {
    ReadLength(fs, RootKey, ROOT_CONT_SIZE);
    ReadLength(fs, SpKey(spid), SP_CONT_SIZE);
    ReadLength(fs, TlKey(uuid, spid), TlSpace(fs, spid));
    var file := fs.files[KeyPath(TlKey(uuid, spid))];
    assert file[..|file|] == file;
  }

  /* ---------- A trustlet ---------- */

  /** A data directory that is there and can be opened. */
  predicate HasDir(fs: Fs, dir: string)
  {
    dir in fs.dirs && dir !in fs.denied
  }

  /** A file that sweeping a directory removes. */
  predicate Swept(fs: Fs, dir: string, p: string)
  {
    HasDir(fs, dir) && Listed(p, dir) && p !in fs.denied
  }

  /** Something in the directory that sweeping leaves behind. */
  predicate Leftover(fs: Fs, dir: string)
  {
    HasDir(fs, dir) && exists p :: p in fs.files && Below(p, dir) && !Swept(fs, dir, p)
  }

  /** The trustlet's binary, or if there is none the files of a GP one, so far as they can be removed. */
  predicate IsBinary(fs: Fs, uuid: Uuid, spid: U32, p: string)
  {
    && p !in fs.denied
    && if TlBinPath(uuid) in fs.files then p == TlBinPath(uuid)
       else (uuid, spid) in fs.gpFiles && p in fs.gpFiles[(uuid, spid)]
  }

  predicate CanRemove(fs: Fs, p: string)
  {
    p in fs.files && p !in fs.denied
  }

  /** No file has come or changed, and none but those told has gone. */
  predicate Without(fs: Fs, e: Fs, told: string -> bool)
  {
    && e.files.Keys <= fs.files.Keys
    && (forall p :: p in fs.files ==> (p in e.files <==> !told(p)))
    && (forall p :: p in e.files ==> e.files[p] == fs.files[p])
  }

  lemma SweepEffect(fs: Fs, dir: string)
    ensures var (e, emptied) := RemoveDir(fs, dir);
            && SameSystem(fs, e) && emptied == !Leftover(fs, dir)
            && Without(fs, e, p => Swept(fs, dir, p))
            && e.dirs == (if HasDir(fs, dir) && emptied then fs.dirs - {dir} else fs.dirs)
  {
    if HasDir(fs, dir) {
      var left := fs.files - ListedFiles(fs, dir);
      assert forall p :: p in fs.files ==> (p in left <==> !Swept(fs, dir, p));
      if NothingBelow(left.Keys, dir) {
        assert forall p :: p in fs.files && Below(p, dir) ==> Swept(fs, dir, p);
      }
    }
  }

  lemma BinaryEffect(fs: Fs, uuid: Uuid, spid: U32)
    ensures var e := RemoveBinary(fs, uuid, spid);
            SameSystem(fs, e) && e.dirs == fs.dirs && Without(fs, e, p => IsBinary(fs, uuid, spid, p))
  {
  }

  lemma BinaryIsNotData(uuid: Uuid)
    ensures !Below(TlBinPath(uuid), TlDataPath(uuid))
  {
    assert TlBinPath(uuid)[|TlDataPath(uuid)|] == '.';
  }

  /** What cleaning up a trustlet takes away if it gets past the data directory. */
  predicate TakenWith(fs: Fs, uuid: Uuid, spid: U32, p: string)
  {
    || Swept(fs, TlDataPath(uuid), p)
    || IsBinary(fs, uuid, spid, p)
    || (p == KeyPath(TlKey(uuid, spid)) && p !in fs.denied)
  }

  lemma TwoSteps(fs: Fs, mid: Fs, e: Fs, first: string -> bool, second: string -> bool, both: string -> bool)
    requires Without(fs, mid, first) && Without(mid, e, second)
    requires forall p :: both(p) <==> first(p) || second(p)
    ensures Without(fs, e, both)
  {
  }

  lemma RemoveWithout(fs: Fs, path: string)
    ensures var (e, removed) := Remove(fs, path);
            && removed == CanRemove(fs, path) && e.dirs == fs.dirs && SameSystem(fs, e)
            && Without(fs, e, p => p == path && p !in fs.denied)
  {
  }

  /** The binary is the same before and after the data has gone. */
  lemma SameBinary(fs: Fs, fs1: Fs, uuid: Uuid, spid: U32)
    requires SameSystem(fs, fs1) && Without(fs, fs1, p => Swept(fs, TlDataPath(uuid), p))
    ensures forall p :: IsBinary(fs1, uuid, spid, p) == IsBinary(fs, uuid, spid, p)
  {
    BinaryIsNotData(uuid);
    assert TlBinPath(uuid) in fs.files <==> TlBinPath(uuid) in fs1.files;
  }

  lemma DataAndBinary(fs: Fs, uuid: Uuid, spid: U32)
    requires !Leftover(fs, TlDataPath(uuid))
    ensures var dir := TlDataPath(uuid);
            var e := RemoveBinary(RemoveDir(fs, dir).0, uuid, spid);
            && RemoveDir(fs, dir).1 && SameSystem(fs, e)
            && e.dirs == (if HasDir(fs, dir) then fs.dirs - {dir} else fs.dirs)
            && Without(fs, e, p => Swept(fs, dir, p) || IsBinary(fs, uuid, spid, p))
  {
    hide Swept, Leftover, IsBinary, RemoveBinary, RemoveDir, Without;
    var dir := TlDataPath(uuid);
    var fs1 := RemoveDir(fs, dir).0;
    SweepEffect(fs, dir);
    SameBinary(fs, fs1, uuid, spid);
    BinaryEffect(fs1, uuid, spid);
    TwoSteps(fs, fs1, RemoveBinary(fs1, uuid, spid), p => Swept(fs, dir, p), p => IsBinary(fs1, uuid, spid, p),
             p => Swept(fs, dir, p) || IsBinary(fs, uuid, spid, p));
  }

  /** The container is still there by then if it was. */
  lemma ContainerStays(fs: Fs, e: Fs, uuid: Uuid, spid: U32)
    requires ValidFs(fs) && SameSystem(fs, e)
    requires Without(fs, e, p => Swept(fs, TlDataPath(uuid), p) || IsBinary(fs, uuid, spid, p))
    ensures CanRemove(e, KeyPath(TlKey(uuid, spid))) == CanRemove(fs, KeyPath(TlKey(uuid, spid)))
  {
    ContainersApart(TlKey(uuid, spid), uuid, spid);
  }

  /** Cleaning up a trustlet, file by file. If its data directory cannot be emptied, it has lost what could be
      removed from it and nothing else has happened. Otherwise the directory is gone with all its files, and so
      are the binary and the container as far as they can be removed; success is that the container was there
      and has been removed. */
  lemma TrustletFiles(fs: Fs, uuid: Uuid, spid: U32)
    requires ValidFs(fs)
    ensures var (e, result) := CleanupTrustlet(fs, uuid, spid);
            var dir := TlDataPath(uuid);
            if Leftover(fs, dir)
            then result == Unknown && e.dirs == fs.dirs && Without(fs, e, p => Swept(fs, dir, p))
            else
              && e.dirs == (if HasDir(fs, dir) then fs.dirs - {dir} else fs.dirs)
              && Without(fs, e, p => TakenWith(fs, uuid, spid, p))
              && result == if CanRemove(fs, KeyPath(TlKey(uuid, spid))) then McOk else Unknown
  {
    hide Swept, Leftover, IsBinary, RemoveBinary, RemoveDir, Without, Remove, CanRemove;
    var dir, own := TlDataPath(uuid), KeyPath(TlKey(uuid, spid));
    SweepEffect(fs, dir);
    if !Leftover(fs, dir) {
      var fs2 := RemoveBinary(RemoveDir(fs, dir).0, uuid, spid);
      DataAndBinary(fs, uuid, spid);
      RemoveWithout(fs2, own);
      ContainerStays(fs, fs2, uuid, spid);
      TwoSteps(fs, fs2, Remove(fs2, own).0, p => Swept(fs, dir, p) || IsBinary(fs, uuid, spid, p),
               p => p == own && p !in fs2.denied, p => TakenWith(fs, uuid, spid, p));
    }
  }

  /** So a successful clean-up leaves nothing of the trustlet's data. */
  lemma TrustletDataGone(fs: Fs, uuid: Uuid, spid: U32)
    requires ValidFs(fs) && HasDir(fs, TlDataPath(uuid)) && CleanupTrustlet(fs, uuid, spid).1 == McOk
    ensures var e := CleanupTrustlet(fs, uuid, spid).0;
            TlDataPath(uuid) !in e.dirs && forall p :: p in e.files ==> !Below(p, TlDataPath(uuid))
  {
    TrustletFiles(fs, uuid, spid);
  }

  /* ---------- A service provider ---------- */

  /** Cleaning up only takes away. */
  predicate Shrinks(fs: Fs, e: Fs)
  {
    e.files.Keys <= fs.files.Keys && e.dirs <= fs.dirs && SameSystem(fs, e)
  }

  lemma TrustletShrinks(fs: Fs, uuid: Uuid, spid: U32)
    requires ValidFs(fs)
    ensures Shrinks(fs, CleanupTrustlet(fs, uuid, spid).0)
  {
    TrustletFiles(fs, uuid, spid);
    TrustletEffect(fs, uuid, spid, RootKey);
  }

  /** One round of the loop over the trustlets. */
  lemma NextTrustlet(fs: Fs, cont: bytes, spid: U32, i: nat) returns (next: Fs, result: McResult)
    requires |cont| == SP_CONT_SIZE && i < CHILDREN
    ensures (next, result)
         == if IsFree(ChildUuid(cont, i)) then (fs, McOk) else CleanupTrustlet(fs, ChildUuid(cont, i), spid)
    ensures CleanupTrustlets(fs, cont, spid, i)
         == if result != McOk then (next, result) else CleanupTrustlets(next, cont, spid, i + 1)
  {
    hide IsFree, ChildUuid, CleanupTrustlet;
    var after := if IsFree(ChildUuid(cont, i)) then (fs, McOk) else CleanupTrustlet(fs, ChildUuid(cont, i), spid);
    next, result := after.0, after.1;
  }

  lemma {:induction false} TrustletsShrink(fs: Fs, cont: bytes, spid: U32, i: nat)
    requires ValidFs(fs) && |cont| == SP_CONT_SIZE && i <= CHILDREN
    ensures Shrinks(fs, CleanupTrustlets(fs, cont, spid, i).0)
    decreases CHILDREN - i
  {
    hide CleanupTrustlets, CleanupTrustlet, IsFree, ChildUuid, Shrinks, ValidFs;
    ShrinksSelf(fs);
    if i == CHILDREN {
      NoTrustletLeft(fs, cont, spid);
    } else {
      var next, result := NextTrustlet(fs, cont, spid, i);
      TrustletShrinks(fs, ChildUuid(cont, i), spid);
      ShrinksValid(fs, next);
      TrustletsShrink(next, cont, spid, i + 1);
      ShrinksTwice(fs, next, CleanupTrustlets(next, cont, spid, i + 1).0);
    }
  }

  lemma NoTrustletLeft(fs: Fs, cont: bytes, spid: U32)
    requires |cont| == SP_CONT_SIZE
    ensures CleanupTrustlets(fs, cont, spid, CHILDREN) == (fs, McOk)
  {
  }

  lemma ShrinksSelf(fs: Fs)
    ensures Shrinks(fs, fs)
  {
  }

  lemma ShrinksValid(fs: Fs, e: Fs)
    requires ValidFs(fs) && Shrinks(fs, e)
    ensures ValidFs(e)
  {
  }

  lemma ShrinksTwice(a: Fs, b: Fs, c: Fs)
    requires Shrinks(a, b) && Shrinks(b, c)
    ensures Shrinks(a, c)
  {
  }

  /** The directory is gone, and all that was in it. */
  predicate DataGone(e: Fs, dir: string)
  {
    dir !in e.dirs && forall p :: p in e.files ==> !Below(p, dir)
  }

  /** A directory that is gone stays so, and one that is there can still be opened. */
  lemma GoneStays(fs: Fs, e: Fs, dir: string)
    requires Shrinks(fs, e)
    ensures DataGone(fs, dir) ==> DataGone(e, dir)
    ensures dir in e.dirs && HasDir(fs, dir) ==> HasDir(e, dir)
  {
  }

  /** One trustlet: its own directory goes, and another that is there, or gone, is so afterwards. */
  lemma TrustletDirStep(fs: Fs, uuid: Uuid, spid: U32, dir: string)
    requires ValidFs(fs) && (HasDir(fs, dir) || DataGone(fs, dir))
    ensures var (next, result) := CleanupTrustlet(fs, uuid, spid);
            && ValidFs(next) && (HasDir(next, dir) || DataGone(next, dir))
            && (TlDataPath(uuid) == dir && result == McOk ==> DataGone(next, dir))
  {
    var next := CleanupTrustlet(fs, uuid, spid).0;
    TrustletShrinks(fs, uuid, spid);
    GoneStays(fs, next, dir);
    if HasDir(fs, dir) {
      TrustletFiles(fs, uuid, spid);
      if TlDataPath(uuid) == dir && CleanupTrustlet(fs, uuid, spid).1 == McOk {
        TrustletDataGone(fs, uuid, spid);
      }
    }
  }

  /** The trustlets a provider names lose their data one by one. */
  lemma {:induction false} TrustletsDataGone(fs: Fs, cont: bytes, spid: U32, i: nat, j: nat)
    requires ValidFs(fs) && |cont| == SP_CONT_SIZE && i <= j < CHILDREN && !IsFree(ChildUuid(cont, j))
    requires CleanupTrustlets(fs, cont, spid, i).1 == McOk
    requires HasDir(fs, TlDataPath(ChildUuid(cont, j))) || DataGone(fs, TlDataPath(ChildUuid(cont, j)))
    ensures DataGone(CleanupTrustlets(fs, cont, spid, i).0, TlDataPath(ChildUuid(cont, j)))
    decreases CHILDREN - i
  {
    hide DataGone, HasDir, Shrinks, CleanupTrustlet, CleanupTrustlets, IsFree, ChildUuid, ValidFs;
    var dir := TlDataPath(ChildUuid(cont, j));
    var next, result := NextTrustlet(fs, cont, spid, i);
    TrustletDirStep(fs, ChildUuid(cont, i), spid, dir);
    if i == j {
      TrustletsShrink(next, cont, spid, i + 1);
      GoneStays(next, CleanupTrustlets(next, cont, spid, i + 1).0, dir);
    } else {
      TrustletsDataGone(next, cont, spid, i + 1, j);
    }
  }

  /** The provider's own directory is none of theirs. */
  lemma TrustletKeepsDir(fs: Fs, uuid: Uuid, spid: U32)
    requires ValidFs(fs) && SpDataPath(spid) in fs.dirs
    ensures var e := CleanupTrustlet(fs, uuid, spid).0;
            ValidFs(e) && SpDataPath(spid) in e.dirs
  {
    TrustletFiles(fs, uuid, spid);
    TrustletShrinks(fs, uuid, spid);
    assert |SpDataPath(spid)| != |TlDataPath(uuid)|;
  }

  lemma OwnDataGone(fs: Fs, spid: U32)
    requires ValidFs(fs) && SpFull(fs, spid) && CleanupSp(fs, spid).1 == McOk
    requires var fs1 := CleanupTrustlets(fs, ReadCont(fs, SpKey(spid), SP_CONT_SIZE).1, spid, 0).0;
             HasDir(fs1, SpDataPath(spid))
    ensures DataGone(CleanupSp(fs, spid).0, SpDataPath(spid))
  {
    var fs1 := CleanupTrustlets(fs, ReadCont(fs, SpKey(spid), SP_CONT_SIZE).1, spid, 0).0;
    SweepEffect(fs1, SpDataPath(spid));
  }

  lemma {:induction false} TrustletsKeepDir(fs: Fs, cont: bytes, spid: U32, i: nat)
    requires ValidFs(fs) && |cont| == SP_CONT_SIZE && i <= CHILDREN && SpDataPath(spid) in fs.dirs
    ensures SpDataPath(spid) in CleanupTrustlets(fs, cont, spid, i).0.dirs
    decreases CHILDREN - i
  {
    hide CleanupTrustlet, CleanupTrustlets, IsFree, ChildUuid, ValidFs, SpDataPath;
    if i == CHILDREN {
      NoTrustletLeft(fs, cont, spid);
    } else {
      var next, result := NextTrustlet(fs, cont, spid, i);
      TrustletKeepsDir(fs, ChildUuid(cont, i), spid);
      TrustletsKeepDir(next, cont, spid, i + 1);
    }
  }

  /** A successful clean-up of a provider with a container of full size: its data directory is gone with all
      that was in it, and so are those of the trustlets it names. */
  lemma SpDataGone(fs: Fs, spid: U32)
    requires ValidFs(fs) && SpFull(fs, spid) && CleanupSp(fs, spid).1 == McOk
    ensures HasDir(fs, SpDataPath(spid)) ==> DataGone(CleanupSp(fs, spid).0, SpDataPath(spid))
    ensures var cont := ReadCont(fs, SpKey(spid), SP_CONT_SIZE).1;
            forall j: nat ::
              j < CHILDREN && !IsFree(ChildUuid(cont, j)) && HasDir(fs, TlDataPath(ChildUuid(cont, j))) ==>
                DataGone(CleanupSp(fs, spid).0, TlDataPath(ChildUuid(cont, j)))
  {
    var cont := ReadCont(fs, SpKey(spid), SP_CONT_SIZE).1;
    var fs1 := CleanupTrustlets(fs, cont, spid, 0).0;
    TrustletsShrink(fs, cont, spid, 0);
    if HasDir(fs, SpDataPath(spid)) {
      TrustletsKeepDir(fs, cont, spid, 0);
      OwnDataGone(fs, spid);
    }
    forall j: nat | j < CHILDREN && !IsFree(ChildUuid(cont, j)) && HasDir(fs, TlDataPath(ChildUuid(cont, j)))
      ensures DataGone(CleanupSp(fs, spid).0, TlDataPath(ChildUuid(cont, j)))
    {
      TrustletsDataGone(fs, cont, spid, 0, j);
    }
  }
}
