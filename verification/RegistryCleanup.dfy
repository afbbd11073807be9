/**
 What cleaning up removes: exactly the containers reachable from the one that is cleaned up, and no
 other container.
 */
module RegistryCleanup {
  import opened Wire
  import opened RegistryPaths
  import opened RegistryStore

  /** A container is as it was. */
  predicate Same(fs: Fs, e: Fs, k: Key)
  {
    && (KeyPath(k) in e.files <==> KeyPath(k) in fs.files)
    && (KeyPath(k) in fs.files ==> e.files[KeyPath(k)] == fs.files[KeyPath(k)])
  }

  predicate Gone(fs: Fs, k: Key)
  {
    KeyPath(k) !in fs.files
  }

  /** What cleaning up leaves of everything but files and directories. */
  predicate SameSystem(fs: Fs, e: Fs)
  {
    e.denied == fs.denied && e.gpFiles == fs.gpFiles
  }

  /** What a step that is to take `k` with it, if `taken`, has done to that container. */
  predicate Effect(fs: Fs, after: (Fs, McResult), taken: bool, k: Key)
  {
    && SameSystem(fs, after.0)
    && (!taken ==> Same(fs, after.0, k))
    && (after.1 == McOk && taken ==> Gone(after.0, k))
  }

  /** Two steps, the first of them successful. */
  lemma Both(fs: Fs, next: Fs, after: (Fs, McResult), first: bool, second: bool, taken: bool, k: Key)
    requires Effect(fs, (next, McOk), first, k) && Effect(next, after, second, k)
    requires first || second ==> taken
    requires taken ==> first || second || Gone(next, k)
    ensures Effect(fs, after, taken, k)
  {
  }

  /** A step, and if it was successful another. */
  lemma EitherStep(fs: Fs, first: (Fs, McResult), rest: (Fs, McResult), taken: bool, later: bool, k: Key)
    requires Effect(fs, first, taken, k) && (first.1 == McOk ==> Effect(first.0, rest, later, k))
    ensures Effect(fs, if first.1 == McOk then rest else first, taken || later, k)
  {
  }

  lemma RemoveDirKeeps(fs: Fs, dir: string, k: Key)
    requires !Below(KeyPath(k), dir)
    ensures Same(fs, RemoveDir(fs, dir).0, k) && SameSystem(fs, RemoveDir(fs, dir).0)
  {
  }

  lemma RemoveBinaryKeeps(fs: Fs, uuid: Uuid, spid: U32, k: Key)
    requires ValidFs(fs)
    ensures Same(fs, RemoveBinary(fs, uuid, spid), k) && SameSystem(fs, RemoveBinary(fs, uuid, spid))
  {
    ContainersApart(k, uuid, spid);
  }

  lemma RemoveKeeps(fs: Fs, path: string, k: Key)
    requires KeyPath(k) != path
    ensures Same(fs, Remove(fs, path).0, k) && SameSystem(fs, Remove(fs, path).0)
  {
  }

  /** Removing one container. */
  lemma RemoveEffect(fs: Fs, own: Key, k: Key)
    ensures var (e, removed) := Remove(fs, KeyPath(own));
            Effect(fs, (e, if removed then McOk else Unknown), k == own, k)
  {
    if k != own && KeyPath(k) == KeyPath(own) {
      KeyPathInjective(k, own);
    }
  }

  /** Steps before that have left the container alone do not matter. */
  lemma Earlier(fs: Fs, mid: Fs, after: (Fs, McResult), taken: bool, k: Key)
    requires Same(fs, mid, k) && SameSystem(fs, mid) && Effect(mid, after, taken, k)
    ensures Effect(fs, after, taken, k)
  {
  }

  /** Cleaning up a trustlet, successful or not, touches no container but its own. */
  lemma TrustletEffect(fs: Fs, uuid: Uuid, spid: U32, k: Key)
    requires ValidFs(fs)
    ensures Effect(fs, CleanupTrustlet(fs, uuid, spid), k == TlKey(uuid, spid), k)
  {
    ContainersApart(k, uuid, spid);
    var fs1 := RemoveDir(fs, TlDataPath(uuid)).0;
    var fs2 := RemoveBinary(fs1, uuid, spid);
    RemoveDirKeeps(fs, TlDataPath(uuid), k);
    RemoveBinaryKeeps(fs1, uuid, spid, k);
    RemoveEffect(fs2, TlKey(uuid, spid), k);
    if RemoveDir(fs, TlDataPath(uuid)).1 {
      Earlier(fs1, fs2, CleanupTrustlet(fs, uuid, spid), k == TlKey(uuid, spid), k);
      Earlier(fs, fs1, CleanupTrustlet(fs, uuid, spid), k == TlKey(uuid, spid), k);
    }
  }

  predicate AnyFrom(list: seq<bool>, i: nat)
  {
    exists j: nat :: i <= j < |list| && list[j]
  }

  lemma AnyUnfold(list: seq<bool>, i: nat)
    requires i < |list|
    ensures AnyFrom(list, i) == (list[i] || AnyFrom(list, i + 1))
  {
    if AnyFrom(list, i) {
      var j: nat :| i <= j < |list| && list[j];
      assert j == i || AnyFrom(list, i + 1);
    }
  }

  /** For each child of an SP container, whether it is trustlet `k`. */
  function NameList(cont: bytes, spid: U32, k: Key): (r: seq<bool>)
    requires |cont| == SP_CONT_SIZE
    ensures |r| == CHILDREN
  {
    seq(CHILDREN, j requires 0 <= j < CHILDREN =>
      !IsFree(ChildUuid(cont, j)) && k == TlKey(ChildUuid(cont, j), spid))
  }

  /** Whether an SP container names trustlet `k` from child `i` on. */
  predicate NamesTrustlet(cont: bytes, spid: U32, i: nat, k: Key)
    requires |cont| == SP_CONT_SIZE && i <= CHILDREN
  {
    AnyFrom(NameList(cont, spid, k), i)
  }

  lemma {:induction false} TrustletsEffect(fs: Fs, cont: bytes, spid: U32, i: nat, k: Key)
    requires ValidFs(fs) && |cont| == SP_CONT_SIZE && i <= CHILDREN
    ensures Effect(fs, CleanupTrustlets(fs, cont, spid, i), NamesTrustlet(cont, spid, i, k), k)
    decreases CHILDREN - i
  {
    if i < CHILDREN {
      var uuid := ChildUuid(cont, i);
      AnyUnfold(NameList(cont, spid, k), i);
      if IsFree(uuid) {
        TrustletsEffect(fs, cont, spid, i + 1, k);
      } else {
        var first := CleanupTrustlet(fs, uuid, spid);
        TrustletEffect(fs, uuid, spid, k);
        if first.1 == McOk {
          TrustletsEffect(first.0, cont, spid, i + 1, k);
        }
        EitherStep(fs, first, CleanupTrustlets(first.0, cont, spid, i + 1), k == TlKey(uuid, spid),
                   NamesTrustlet(cont, spid, i + 1, k), k);
      }
    }
  }

  /** Whether a service provider's container can be read in full. */
  predicate SpFull(fs: Fs, spid: U32)
  {
    ReadCont(fs, SpKey(spid), SP_CONT_SIZE).0 == McOk && |ReadCont(fs, SpKey(spid), SP_CONT_SIZE).1| == SP_CONT_SIZE
  }

  /** What a service provider takes with it: its container and those of the trustlets it names. */
  predicate TakenBySp(fs: Fs, spid: U32, k: Key)
  {
    && SpFull(fs, spid)
    && (k == SpKey(spid) || NamesTrustlet(ReadCont(fs, SpKey(spid), SP_CONT_SIZE).1, spid, 0, k))
  }

  lemma SpEffect(fs: Fs, spid: U32, k: Key)
    requires ValidFs(fs)
    ensures Effect(fs, CleanupSp(fs, spid), TakenBySp(fs, spid, k), k)
    ensures !SpFull(fs, spid) ==> CleanupSp(fs, spid) == (fs, ReadCont(fs, SpKey(spid), SP_CONT_SIZE).0)
  {
    if SpFull(fs, spid) {
      var cont := ReadCont(fs, SpKey(spid), SP_CONT_SIZE).1;
      var fs1 := CleanupTrustlets(fs, cont, spid, 0).0;
      TrustletsEffect(fs, cont, spid, 0, k);
      ContainersApart(k, seq(16, _ => 0), spid);
      RemoveDirKeeps(fs1, SpDataPath(spid), k);
      var fs2 := RemoveDir(fs1, SpDataPath(spid)).0;
      if k != SpKey(spid) {
        if KeyPath(k) == KeyPath(SpKey(spid)) {
          KeyPathInjective(k, SpKey(spid));
        }
        RemoveKeeps(fs2, KeyPath(SpKey(spid)), k);
      }
    }
  }

  /** After one provider, the others take with them what they would have taken before. */
  lemma NextSp(fs: Fs, spid: U32, next: U32, k: Key)
    requires ValidFs(fs)
    ensures var (e, result) := CleanupSp(fs, spid);
            && (TakenBySp(e, next, k) ==> TakenBySp(fs, next, k))
            && (result == McOk && TakenBySp(fs, next, k) ==> TakenBySp(e, next, k) || Gone(e, k))
  {
    SpEffect(fs, spid, SpKey(next));
    SpEffect(fs, spid, k);
    if next == spid && SpFull(fs, spid) {
      var (e, result) := CleanupSp(fs, spid);
      assert result == McOk ==> Gone(e, SpKey(spid));
      SpKeptWhole(fs, spid);
    }
  }

  /** However far cleaning up a provider gets, its own container is removed or as it was. */
  lemma SpKeptWhole(fs: Fs, spid: U32)
    requires ValidFs(fs)
    ensures var e := CleanupSp(fs, spid).0;
            Gone(e, SpKey(spid)) || Same(fs, e, SpKey(spid))
  {
    if SpFull(fs, spid) {
      var cont := ReadCont(fs, SpKey(spid), SP_CONT_SIZE).1;
      var fs1 := CleanupTrustlets(fs, cont, spid, 0).0;
      TrustletsEffect(fs, cont, spid, 0, SpKey(spid));
      ContainersApart(SpKey(spid), seq(16, _ => 0), spid);
      RemoveDirKeeps(fs1, SpDataPath(spid), SpKey(spid));
    }
  }

  /** For each child of the root container, whether it is a provider that takes `k` with it. */
  function TakenList(fs: Fs, cont: bytes, k: Key): (r: seq<bool>)
    requires |cont| == ROOT_CONT_SIZE
    ensures |r| == CHILDREN
  {
    seq(CHILDREN, j requires 0 <= j < CHILDREN =>
      ChildSpid(cont, j) != MC_SPID_FREE && TakenBySp(fs, ChildSpid(cont, j), k))
  }

  /** Whether the root container names, from child `i` on, a provider that takes `k` with it. */
  predicate TakenBySps(fs: Fs, cont: bytes, i: nat, k: Key)
    requires |cont| == ROOT_CONT_SIZE && i <= CHILDREN
  {
    AnyFrom(TakenList(fs, cont, k), i)
  }

  lemma AnyNext(a: seq<bool>, b: seq<bool>, i: nat, gone: bool)
    requires |a| == |b| && i < |a| && forall j :: 0 <= j < |a| && b[j] ==> a[j]
    ensures a[i] || AnyFrom(b, i + 1) ==> AnyFrom(a, i)
    ensures (forall j :: 0 <= j < |a| && a[j] ==> b[j] || gone) && AnyFrom(a, i) ==> a[i] || AnyFrom(b, i + 1) || gone
  {
    if AnyFrom(b, i + 1) {
      var j: nat :| i + 1 <= j < |b| && b[j];
      assert a[j];
    }
    if AnyFrom(a, i) {
      var j: nat :| i <= j < |a| && a[j];
      assert j == i || (b[j] ==> AnyFrom(b, i + 1));
    }
  }

  /** One provider has been cleaned up: what is still to go, was to go; and if it went well, what was
      to go has gone or is still to go. */
  lemma SpsAfter(fs: Fs, cont: bytes, i: nat, k: Key, after: (Fs, McResult))
    requires ValidFs(fs) && |cont| == ROOT_CONT_SIZE && i < CHILDREN && ChildSpid(cont, i) != MC_SPID_FREE
    requires after == CleanupSp(fs, ChildSpid(cont, i))
    ensures TakenList(fs, cont, k)[i] || TakenBySps(after.0, cont, i + 1, k) ==> TakenBySps(fs, cont, i, k)
    ensures after.1 == McOk && TakenBySps(fs, cont, i, k) ==>
              TakenList(fs, cont, k)[i] || TakenBySps(after.0, cont, i + 1, k) || Gone(after.0, k)
  {
    var a, b := TakenList(fs, cont, k), TakenList(after.0, cont, k);
    forall j: nat | j < CHILDREN
      ensures b[j] ==> a[j]
      ensures after.1 == McOk && a[j] ==> b[j] || Gone(after.0, k)
    {
      NextSp(fs, ChildSpid(cont, i), ChildSpid(cont, j), k);
    }
    AnyNext(a, b, i, Gone(after.0, k));
  }

  lemma {:induction false} SpsEffect(fs: Fs, cont: bytes, i: nat, k: Key)
    requires ValidFs(fs) && |cont| == ROOT_CONT_SIZE && i <= CHILDREN
    ensures Effect(fs, CleanupSps(fs, cont, i), TakenBySps(fs, cont, i, k), k)
    decreases CHILDREN - i
  {
    if i < CHILDREN {
      if ChildSpid(cont, i) == MC_SPID_FREE {
        AnyUnfold(TakenList(fs, cont, k), i);
        SpsEffect(fs, cont, i + 1, k);
      } else {
        var first := CleanupSp(fs, ChildSpid(cont, i));
        SpEffect(fs, ChildSpid(cont, i), k);
        if first.1 == McOk {
          SpsEffect(first.0, cont, i + 1, k);
        }
        SpsStep(fs, cont, i, k, first, CleanupSps(first.0, cont, i + 1));
      }
    }
  }

  lemma SpsStep(fs: Fs, cont: bytes, i: nat, k: Key, first: (Fs, McResult), rest: (Fs, McResult))
    requires ValidFs(fs) && |cont| == ROOT_CONT_SIZE && i < CHILDREN && ChildSpid(cont, i) != MC_SPID_FREE
    requires first == CleanupSp(fs, ChildSpid(cont, i)) && Effect(fs, first, TakenList(fs, cont, k)[i], k)
    requires first.1 == McOk ==> Effect(first.0, rest, TakenBySps(first.0, cont, i + 1, k), k)
    ensures Effect(fs, if first.1 == McOk then rest else first, TakenBySps(fs, cont, i, k), k)
  {
    SpsAfter(fs, cont, i, k, first);
    if first.1 == McOk {
      Both(fs, first.0, rest, TakenList(fs, cont, k)[i], TakenBySps(first.0, cont, i + 1, k),
           TakenBySps(fs, cont, i, k), k);
    }
  }

  predicate RootFull(fs: Fs)
  {
    ReadCont(fs, RootKey, ROOT_CONT_SIZE).0 == McOk && |ReadCont(fs, RootKey, ROOT_CONT_SIZE).1| == ROOT_CONT_SIZE
  }

  /** All that goes with the root container. */
  predicate TakenByRoot(fs: Fs, k: Key)
  {
    && RootFull(fs)
    && (k == RootKey || TakenBySps(fs, ReadCont(fs, RootKey, ROOT_CONT_SIZE).1, 0, k))
  }

  /** Cleaning up the root: if it reports success, every container that goes with the root is gone;
      in any case no other container has changed. A root container that is too short ends it, with
      whatever reading has returned, before anything is removed. */
  lemma RootEffect(fs: Fs, k: Key)
    requires ValidFs(fs)
    ensures Effect(fs, CleanupRoot(fs), TakenByRoot(fs, k), k)
    ensures !RootFull(fs) ==> CleanupRoot(fs) == (fs, ReadCont(fs, RootKey, ROOT_CONT_SIZE).0)
  {
    if RootFull(fs) {
      var cont := ReadCont(fs, RootKey, ROOT_CONT_SIZE).1;
      SpsEffect(fs, cont, 0, k);
      if k != RootKey && KeyPath(k) == KeyPath(RootKey) {
        KeyPathInjective(k, RootKey);
      }
    }
  }

  /* ---------- Providers with short containers ---------- */

  /** The service provider that child `j` of the root container names, if any. */
  predicate NamesProvider(cont: bytes, j: nat)
    requires |cont| == ROOT_CONT_SIZE
  {
    j < CHILDREN && ChildSpid(cont, j) != MC_SPID_FREE
  }

  predicate Readable(fs: Fs, spid: U32)
  {
    ReadCont(fs, SpKey(spid), SP_CONT_SIZE).0 == McOk
  }

  lemma SameRead(fs: Fs, e: Fs, spid: U32)
    requires Same(fs, e, SpKey(spid)) && SameSystem(fs, e)
    ensures ReadCont(e, SpKey(spid), SP_CONT_SIZE) == ReadCont(fs, SpKey(spid), SP_CONT_SIZE)
  {
  }

  lemma ReadableBefore(fs: Fs, spid: U32, other: U32)
    requires ValidFs(fs) && CleanupSp(fs, spid).1 == McOk && Readable(CleanupSp(fs, spid).0, other)
    ensures Readable(fs, other)
  {
    SpEffect(fs, spid, SpKey(other));
    if !TakenBySp(fs, spid, SpKey(other)) {
      SameRead(fs, CleanupSp(fs, spid).0, other);
    }
  }

  lemma {:induction false} OkMeansReadable(fs: Fs, spid: U32)
    requires CleanupSp(fs, spid).1 == McOk
    ensures Readable(fs, spid)
  {
  }

  lemma {:induction false} StaysValid(fs: Fs, spid: U32)
    requires ValidFs(fs)
    ensures ValidFs(CleanupSp(fs, spid).0)
  {
    SpEffect(fs, spid, RootKey);
  }

  lemma {:induction false} OkFirst(fs: Fs, cont: bytes, i: nat, first: (Fs, McResult))
    requires |cont| == ROOT_CONT_SIZE && i < CHILDREN && CleanupSps(fs, cont, i).1 == McOk
    requires first == if ChildSpid(cont, i) == MC_SPID_FREE then (fs, McOk) else CleanupSp(fs, ChildSpid(cont, i))
    ensures first.1 == McOk && CleanupSps(first.0, cont, i + 1).1 == McOk
  {
    SpsUnfold(fs, cont, i, first);
  }

  lemma {:induction false} Cleaned(fs: Fs, spid: U32, other: U32) returns (next: Fs, result: McResult)
    requires ValidFs(fs)
    ensures (next, result) == CleanupSp(fs, spid) && ValidFs(next)
    ensures result == McOk ==> Readable(fs, spid) && (Readable(next, other) ==> Readable(fs, other))
  {
    next, result := CleanupSp(fs, spid).0, CleanupSp(fs, spid).1;
    StaysValid(fs, spid);
    if result == McOk {
      OkMeansReadable(fs, spid);
      if Readable(next, other) {
        ReadableBefore(fs, spid, other);
      }
    }
  }

  /** The loop over the providers goes through from child `i` on. */
  predicate GoesThrough(fs: Fs, cont: bytes, i: nat)
    requires |cont| == ROOT_CONT_SIZE && i <= CHILDREN
  {
    ValidFs(fs) && CleanupSps(fs, cont, i).1 == McOk
  }

  /** A container that is readable later was readable before. */
  predicate ReadableSince(fs: Fs, later: Fs, spid: U32)
  {
    Readable(later, spid) ==> Readable(fs, spid)
  }

  /** One round of the loop over the providers, and a container that is readable after it. */
  lemma GoneThrough(fs: Fs, cont: bytes, i: nat, other: U32) returns (next: Fs)
    requires |cont| == ROOT_CONT_SIZE && i < CHILDREN && GoesThrough(fs, cont, i)
    ensures GoesThrough(next, cont, i + 1) && ReadableSince(fs, next, other)
    ensures ChildSpid(cont, i) != MC_SPID_FREE ==> Readable(fs, ChildSpid(cont, i))
  {
    next := fs;
    if ChildSpid(cont, i) == MC_SPID_FREE {
      OkFirst(fs, cont, i, (fs, McOk));
    } else {
      var result;
      next, result := Cleaned(fs, ChildSpid(cont, i), other);
      OkFirst(fs, cont, i, (next, result));
    }
  }

  lemma SinceBoth(fs: Fs, between: Fs, later: Fs, spid: U32)
    requires ReadableSince(fs, between, spid) && ReadableSince(between, later, spid)
    ensures ReadableSince(fs, later, spid)
  {
  }

  /** The rounds from child `i` to provider `j`. */
  lemma {:induction false} Rounds(fs: Fs, cont: bytes, i: nat, j: nat, spid: U32) returns (next: Fs)
    requires |cont| == ROOT_CONT_SIZE && i <= j < CHILDREN && GoesThrough(fs, cont, i)
    ensures GoesThrough(next, cont, j) && ReadableSince(fs, next, spid)
    decreases j - i
  {
    hide GoesThrough, Readable;
    if i == j {
      next := fs;
    } else {
      var after := GoneThrough(fs, cont, i, spid);
      next := Rounds(after, cont, i + 1, j, spid);
      SinceBoth(fs, after, next, spid);
    }
  }

  /** If the loop over the providers has gone through, their containers could be read before it. */
  lemma {:induction false} NamedReadable(fs: Fs, cont: bytes, j: nat)
    requires |cont| == ROOT_CONT_SIZE && NamesProvider(cont, j) && GoesThrough(fs, cont, 0)
    ensures Readable(fs, ChildSpid(cont, j))
  {
    var before := Rounds(fs, cont, 0, j, ChildSpid(cont, j));
    var after := GoneThrough(before, cont, j, ChildSpid(cont, j));
  }

  /** Success removes the container of a named provider exactly if it was of full size. */
  lemma ProviderGoneWhen(fs: Fs, j: nat)
    requires ValidFs(fs) && RootFull(fs) && CleanupRoot(fs).1 == McOk
    requires NamesProvider(ReadCont(fs, RootKey, ROOT_CONT_SIZE).1, j)
    ensures var spid := ChildSpid(ReadCont(fs, RootKey, ROOT_CONT_SIZE).1, j);
            Gone(CleanupRoot(fs).0, SpKey(spid)) <==> SpFull(fs, spid)
  {
    var cont := ReadCont(fs, RootKey, ROOT_CONT_SIZE).1;
    var spid := ChildSpid(cont, j);
    RootEffect(fs, SpKey(spid));
    NamedReadable(fs, cont, j);
    if SpFull(fs, spid) {
      assert TakenList(fs, cont, SpKey(spid))[j];
    }
  }

  predicate AllFull(fs: Fs)
    requires RootFull(fs)
  {
    var cont := ReadCont(fs, RootKey, ROOT_CONT_SIZE).1;
    forall j: nat :: j < CHILDREN && NamesProvider(cont, j) ==> SpFull(fs, ChildSpid(cont, j))
  }

  /** Success with a root container of full size: the root container is gone, and all other containers
      than those that go with the root are as before. The providers it names are all gone if and only if
      all their containers were of full size, and then every trustlet they name is gone too. */
  lemma RootCleansEverything(fs: Fs)
    requires ValidFs(fs) && RootFull(fs) && CleanupRoot(fs).1 == McOk
    ensures Gone(CleanupRoot(fs).0, RootKey)
    ensures var cont := ReadCont(fs, RootKey, ROOT_CONT_SIZE).1;
            (forall j: nat :: j < CHILDREN && NamesProvider(cont, j) ==>
               Gone(CleanupRoot(fs).0, SpKey(ChildSpid(cont, j)))) <==> AllFull(fs)
    ensures var cont := ReadCont(fs, RootKey, ROOT_CONT_SIZE).1;
            AllFull(fs) ==>
              forall j: nat, k: Key ::
                j < CHILDREN && NamesProvider(cont, j) && TakenBySp(fs, ChildSpid(cont, j), k) ==>
                Gone(CleanupRoot(fs).0, k)
    ensures forall k: Key :: !TakenByRoot(fs, k) ==> Same(fs, CleanupRoot(fs).0, k)
  {
    var cont := ReadCont(fs, RootKey, ROOT_CONT_SIZE).1;
    forall k: Key
      ensures TakenByRoot(fs, k) ==> Gone(CleanupRoot(fs).0, k)
      ensures !TakenByRoot(fs, k) ==> Same(fs, CleanupRoot(fs).0, k)
    {
      RootEffect(fs, k);
    }
    assert TakenByRoot(fs, RootKey);
    forall j: nat, k: Key | j < CHILDREN && NamesProvider(cont, j) && TakenBySp(fs, ChildSpid(cont, j), k)
      ensures TakenByRoot(fs, k)
    {
      assert TakenList(fs, cont, k)[j];
    }
    forall j: nat | j < CHILDREN && NamesProvider(cont, j)
      ensures Gone(CleanupRoot(fs).0, SpKey(ChildSpid(cont, j))) <==> SpFull(fs, ChildSpid(cont, j))
    {
      ProviderGoneWhen(fs, j);
    }
  }

  lemma {:induction false} NobodyElse(fs: Fs, cont: bytes, i: nat)
    requires |cont| == ROOT_CONT_SIZE && i <= CHILDREN
    requires forall j: nat :: i <= j < CHILDREN ==> ChildSpid(cont, j) == MC_SPID_FREE
    ensures CleanupSps(fs, cont, i) == (fs, McOk)
    decreases CHILDREN - i
  {
    if i < CHILDREN {
      NobodyElse(fs, cont, i + 1);
    }
  }

  /** A root container names one provider, whose container is too short: cleaning up reports success, the
      root container is gone, and the provider's container is still there. */
  lemma ShortProviderStays(fs: Fs, cont: bytes, spid: U32)
    requires fs.denied == {} && |cont| == ROOT_CONT_SIZE && spid != 0 && spid != MC_SPID_FREE
    requires KeyPath(RootKey) in fs.files && fs.files[KeyPath(RootKey)] == cont
    requires KeyPath(SpKey(spid)) in fs.files && 0 < |fs.files[KeyPath(SpKey(spid))]| < SP_CONT_SIZE
    requires ChildSpid(cont, 0) == spid
    requires forall j: nat :: 1 <= j < CHILDREN ==> ChildSpid(cont, j) == MC_SPID_FREE
    ensures CleanupRoot(fs).1 == McOk && Gone(CleanupRoot(fs).0, RootKey)
    ensures Same(fs, CleanupRoot(fs).0, SpKey(spid)) && !Gone(CleanupRoot(fs).0, SpKey(spid))
  {
    assert cont[..|cont|] == cont;
    NobodyElse(fs, cont, 1);
    if KeyPath(SpKey(spid)) == KeyPath(RootKey) {
      KeyPathInjective(SpKey(spid), RootKey);
    }
  }
}
