/**
 The keys of the registry and the paths they are stored under (PrivateRegistry.cpp): hexadecimal
 names, an extension for each kind of container, and why no two keys share a path.
 */
module RegistryPaths {
  import opened Wire

  type Uuid = u: bytes | |u| == 16 witness seq(16, _ => 0)

  /** The containers of the registry. */
  datatype Key = RootKey | SpKey(spid: U32) | TlKey(uuid: Uuid, spid: U32)

  const DATA_PATH := "/data/app/mcRegistry"
  const ROOT_FILE_NAME := "00000000.rootcont"
  const SP_CONT_FILE_EXT := ".spcont"
  const TL_CONT_FILE_EXT := ".tlcont"
  const TL_BIN_FILE_EXT := ".tlbin"
  const GP_TA_BIN_FILE_EXT := ".tabin"
  const GP_TA_SPID_FILE_EXT := ".spid"
  const TB_STORAGE := "TbStorage"

  /* ---------- Hexadecimal ---------- */

  function LowerDigit(n: nat): (c: char)
    requires n < 16
    ensures c != '/'
  {
    if n < 10 then '0' + n as char else 'a' + (n - 10) as char
  }

  function UpperDigit(n: nat): (c: char)
    requires n < 16
    ensures c != '/'
  {
    if n < 10 then '0' + n as char else 'A' + (n - 10) as char
  }

  /** byteArrayToString. */
  function ByteArrayToString(b: bytes): (s: string)
    ensures |s| == 2 * |b|
  {
    if b == [] then []
    else [LowerDigit(b[0] / 16), LowerDigit(b[0] % 16)] + ByteArrayToString(b[1..])
  }

  /** The last `n` digits of a number. */
  function Digits(v: nat, n: nat): (s: string)
    ensures |s| == n
  {
    if n == 0 then [] else Digits(v / 16, n - 1) + [UpperDigit(v % 16)]
  }

  function Reversed(s: string): (r: string)
    ensures |r| == |s|
  {
    if s == [] then [] else Reversed(s[1..]) + [s[0]]
  }

  /** uint32ToString: eight digits, last one first. */
  function Uint32ToString(v: U32): (s: string)
    ensures |s| == 8
  {
    Reversed(Digits(v, 8))
  }

  function Pow16(n: nat): nat
  {
    if n == 0 then 1 else 16 * Pow16(n - 1)
  }

  lemma {:induction false} BytesInjective(a: bytes, b: bytes)
    requires ByteArrayToString(a) == ByteArrayToString(b)
    ensures a == b
  {
    var s, t := ByteArrayToString(a), ByteArrayToString(b);
    if a != [] {
      assert s[0] == t[0] && s[1] == t[1];
      assert a[0] == b[0];
      assert s[2..] == ByteArrayToString(a[1..]) && t[2..] == ByteArrayToString(b[1..]);
      BytesInjective(a[1..], b[1..]);
      assert a == [a[0]] + a[1..] && b == [b[0]] + b[1..];
    }
  }

  lemma {:induction false} DigitsInjective(v: nat, w: nat, n: nat)
    requires v < Pow16(n) && w < Pow16(n) && Digits(v, n) == Digits(w, n)
    ensures v == w
  {
    if n > 0 {
      var s, t := Digits(v, n), Digits(w, n);
      assert s[n - 1] == t[n - 1];
      assert s[..n - 1] == Digits(v / 16, n - 1) && t[..n - 1] == Digits(w / 16, n - 1);
      DigitsInjective(v / 16, w / 16, n - 1);
    }
  }

  lemma {:induction false} ReversedInjective(s: string, t: string)
    requires Reversed(s) == Reversed(t)
    ensures s == t
  {
    if s != [] {
      var r, q := Reversed(s), Reversed(t);
      assert r[|s| - 1] == s[0] && q[|t| - 1] == t[0];
      assert r[..|s| - 1] == Reversed(s[1..]) && q[..|t| - 1] == Reversed(t[1..]);
      ReversedInjective(s[1..], t[1..]);
      assert s == [s[0]] + s[1..] && t == [t[0]] + t[1..];
    }
  }

  /** Different identifiers have different names. */
  lemma WordInjective(v: U32, w: U32)
    requires Uint32ToString(v) == Uint32ToString(w)
    ensures v == w
  {
    ReversedInjective(Digits(v, 8), Digits(w, 8));
    assert Pow16(8) == 16 * 16 * 16 * 16 * Pow16(4) == TWO_32;
    DigitsInjective(v, w, 8);
  }

  /* ---------- Paths ---------- */

  function Name(k: Key): string
  {
    match k
    case RootKey => ROOT_FILE_NAME
    case SpKey(spid) => Uint32ToString(spid) + SP_CONT_FILE_EXT
    case TlKey(uuid, spid) => ByteArrayToString(uuid) + "." + Uint32ToString(spid) + TL_CONT_FILE_EXT
  }

  /** What lies in the data directory under a name. */
  function InData(name: string): string
  {
    DATA_PATH + "/" + name
  }

  /** getRootContFilePath, getSpContFilePath, getTlContFilePath. */
  function KeyPath(k: Key): string { InData(Name(k)) }

  /** getSpDataPath, getTlDataPath. */
  function SpDataPath(spid: U32): string { InData(Uint32ToString(spid)) }

  function TlDataPath(uuid: Uuid): string { InData(ByteArrayToString(uuid)) }

  /** getTlBinFilePath for the writable registry. */
  function TlBinPath(uuid: Uuid): string { InData(ByteArrayToString(uuid) + TL_BIN_FILE_EXT) }

  lemma NameLength(k: Key)
    ensures |Name(k)| == match k case RootKey => 17 case SpKey(_) => 15 case TlKey(_, _) => 48
  {
  }

  lemma InDataInjective(a: string, b: string)
    requires InData(a) == InData(b)
    ensures a == b
  {
    assert InData(a)[|DATA_PATH + "/"|..] == a && InData(b)[|DATA_PATH + "/"|..] == b;
  }

  /** Keys do not alias: no two containers, of the same kind or of different kinds, share a file. */
  lemma KeyPathInjective(a: Key, b: Key)
    requires KeyPath(a) == KeyPath(b)
    ensures a == b
  {
    InDataInjective(Name(a), Name(b));
    NameLength(a);
    NameLength(b);
    match a {
      case RootKey =>
      case SpKey(spid) =>
        assert Name(a)[..8] == Uint32ToString(spid) && Name(b)[..8] == Uint32ToString(b.spid);
        WordInjective(spid, b.spid);
      case TlKey(uuid, spid) =>
        TlName(uuid, spid);
        TlName(b.uuid, b.spid);
        BytesInjective(uuid, b.uuid);
        WordInjective(spid, b.spid);
    }
  }

  lemma TlName(uuid: Uuid, spid: U32)
    ensures Name(TlKey(uuid, spid))[..32] == ByteArrayToString(uuid)
    ensures Name(TlKey(uuid, spid))[33..41] == Uint32ToString(spid)
  {
  }

  /* ---------- Other files ---------- */

  predicate NoSlash(s: string)
  {
    forall i :: 0 <= i < |s| ==> s[i] != '/'
  }

  /** Whether a path lies below a directory. */
  predicate Below(path: string, dir: string)
  {
    |path| > |dir| && path[..|dir|] == dir && path[|dir|] == '/'
  }

  predicate EndsWith(s: string, ext: string)
  {
    |s| >= |ext| && s[|s| - |ext|..] == ext
  }

  /** The files deleteSPTA may remove: binaries and identifiers of GP trusted applications, and what
      they have stored. */
  predicate GpFile(path: string)
  {
    EndsWith(path, GP_TA_BIN_FILE_EXT) || EndsWith(path, GP_TA_SPID_FILE_EXT) || Below(path, InData(TB_STORAGE))
  }

  lemma {:induction false} BytesNoSlash(b: bytes)
    ensures NoSlash(ByteArrayToString(b))
  {
    if b != [] {
      BytesNoSlash(b[1..]);
    }
  }

  lemma {:induction false} DigitsNoSlash(v: nat, n: nat)
    ensures NoSlash(Digits(v, n))
  {
    if n > 0 {
      DigitsNoSlash(v / 16, n - 1);
    }
  }

  lemma {:induction false} ReversedNoSlash(s: string)
    requires NoSlash(s)
    ensures NoSlash(Reversed(s))
  {
    if s != [] {
      ReversedNoSlash(s[1..]);
    }
  }

  lemma WordNoSlash(v: U32)
    ensures NoSlash(Uint32ToString(v))
  {
    DigitsNoSlash(v, 8);
    ReversedNoSlash(Digits(v, 8));
  }

  lemma NameNoSlash(k: Key)
    ensures NoSlash(Name(k))
  {
    match k
    case RootKey =>
    case SpKey(spid) => WordNoSlash(spid);
    case TlKey(uuid, spid) =>
      BytesNoSlash(uuid);
      WordNoSlash(spid);
  }

  lemma NotBelow(name: string, dir: string)
    requires NoSlash(name)
    ensures !Below(InData(name), InData(dir))
  {
    if |name| > |dir| {
      assert InData(name)[|InData(dir)|] == name[|dir|];
    }
  }

  lemma NameEndsInT(k: Key)
    ensures KeyPath(k)[|KeyPath(k)| - 1] == 't'
  {
  }

  /** No container is a binary, a file of a GP trusted application, or inside a data directory. */
  lemma ContainersApart(k: Key, uuid: Uuid, spid: U32)
    ensures KeyPath(k) != TlBinPath(uuid) && !GpFile(KeyPath(k))
    ensures !Below(KeyPath(k), TlDataPath(uuid)) && !Below(KeyPath(k), SpDataPath(spid))
  {
    NameNoSlash(k);
    NotBelow(Name(k), ByteArrayToString(uuid));
    NotBelow(Name(k), Uint32ToString(spid));
    NotBelow(Name(k), TB_STORAGE);
    NameEndsInT(k);
    assert TlBinPath(uuid)[|TlBinPath(uuid)| - 1] == 'n';
    NotEnding(KeyPath(k), GP_TA_BIN_FILE_EXT);
    NotEnding(KeyPath(k), GP_TA_SPID_FILE_EXT);
  }

  lemma NotEnding(s: string, ext: string)
    requires |s| > 0 && |ext| > 0 && s[|s| - 1] != ext[|ext| - 1]
    ensures !EndsWith(s, ext)
  {
    if |s| >= |ext| {
      assert s[|s| - |ext|..][|ext| - 1] == s[|s| - 1];
    }
  }
}
