/** Folder manifests: entries, their leaf encoding, the path-sorted Merkle hash, and verification. */
module Manifests {
  import opened Common
  import opened Encoding
  import opened Merkle

  /** Strings (paths, hex digests) are the bytes of their UTF-8 form, the order of the source's sort. */
  type Str = Bytes

  datatype Timestamp = Timestamp(seconds: int, nanos: nat)

  datatype ManifestEntry = ManifestEntry(
    path: Str, size: nat, modifiedAt: Timestamp, contentHash: Str, chunkHashes: seq<Str>, mode: Option<nat>)

  // ---- Leaf encoding ----

  function Zeros(n: nat): (z: Bytes)
    ensures |z| == n
  {
    if n == 0 then [] else [0] + Zeros(n - 1)
  }

  function DecodeOrZero(s: Str): Bytes {
    match HexDecode(s)
    case Some(bs) => bs
    case None => Zeros(32)
  }

  function DecodeAll(hashes: seq<Str>): (r: seq<Bytes>)
    ensures |r| == |hashes| && forall i :: 0 <= i < |r| ==> r[i] == DecodeOrZero(hashes[i])
  {
    seq(|hashes|, i requires 0 <= i < |hashes| => DecodeOrZero(hashes[i]))
  }

  function ModeBits(m: Option<nat>): nat {
    match m
    case Some(v) => v
    case None => 0
  }

  /** `i64::to_le_bytes` is the little-endian form of the value modulo 2^64. */
  function Unsigned64(v: int): nat {
    v % 0x1_0000_0000_0000_0000
  }

  /** Exactly what the source feeds to the hasher for a leaf, field by field. */
  function EncodeEntry(e: ManifestEntry): Bytes {
    e.path + (EncodeLE(e.size, 8) + (DecodeOrZero(e.contentHash) + (EncodeLE(ModeBits(e.mode), 4) + EncodeTail(e))))
  }

  function EncodeTail(e: ManifestEntry): Bytes {
    EncodeLE(Unsigned64(e.modifiedAt.seconds), 8) + Flatten(DecodeAll(e.chunkHashes))
  }

  /** The source's integer widths, and hashes that decode to 32 bytes (or not at all). */
  predicate WellFormed(e: ManifestEntry) {
    && e.size < Pow256(8)
    && ModeBits(e.mode) < Pow256(4)
    && -0x8000_0000_0000_0000 <= e.modifiedAt.seconds < 0x8000_0000_0000_0000
    && |DecodeOrZero(e.contentHash)| == 32
    && forall i :: 0 <= i < |e.chunkHashes| ==> |DecodeOrZero(e.chunkHashes[i])| == 32
  }

  /** What of an entry the leaf hash sees: a missing mode counts as zero, the time is cut to seconds,
      and hex strings count as the bytes they decode to. */
  datatype Canonical = Canonical(path: Str, size: nat, content: Bytes, mode: nat, seconds: int, chunks: seq<Bytes>)

  function Canon(e: ManifestEntry): Canonical {
    Canonical(e.path, e.size, DecodeOrZero(e.contentHash), ModeBits(e.mode), e.modifiedAt.seconds,
      DecodeAll(e.chunkHashes))
  }

  lemma {:induction false} FlattenLength(parts: seq<Bytes>, n: nat)
    requires forall i :: 0 <= i < |parts| ==> |parts[i]| == n
    ensures |Flatten(parts)| == |parts| * n
  {
    if parts != [] {
      FlattenLength(parts[1..], n);
      assert |parts| * n == n + (|parts| - 1) * n;
    }
  }

  lemma {:induction false} FlattenInjective(a: seq<Bytes>, b: seq<Bytes>, n: nat)
    requires n > 0 && Flatten(a) == Flatten(b)
    requires forall i :: 0 <= i < |a| ==> |a[i]| == n
    requires forall i :: 0 <= i < |b| ==> |b[i]| == n
    ensures a == b
    decreases |a|
  {
    if a != [] && b != [] {
      assert Flatten(a)[..n] == a[0] && Flatten(b)[..n] == b[0];
      assert Flatten(a)[n..] == Flatten(a[1..]) && Flatten(b)[n..] == Flatten(b[1..]);
      FlattenInjective(a[1..], b[1..], n);
      assert a == [a[0]] + a[1..] && b == [b[0]] + b[1..];
    }
  }

  lemma EncodedLength(e: ManifestEntry)
    requires WellFormed(e)
    ensures |EncodeEntry(e)| == |e.path| + 52 + 32 * |e.chunkHashes|
  {
    FlattenLength(DecodeAll(e.chunkHashes), 32);
  }

  /** A leaf's bytes, field by field: the path, 8 bytes of size, the 32 of the content hash, 4 of the mode or
      zeros, 8 of the seconds in two's complement, and 32 for each chunk. */
  lemma EncodingLayout(e: ManifestEntry)
    requires WellFormed(e)
    ensures var b, p := EncodeEntry(e), |e.path|;
      && |b| == p + 52 + 32 * |e.chunkHashes| && b[..p] == e.path
      && DecodeLE(b[p..p + 8]) == e.size && b[p + 8..p + 40] == DecodeOrZero(e.contentHash)
      && DecodeLE(b[p + 40..p + 44]) == (if e.mode.Some? then e.mode.value else 0)
      && DecodeLE(b[p + 44..p + 52])
           == e.modifiedAt.seconds + (if e.modifiedAt.seconds >= 0 then 0 else 0x1_0000_0000_0000_0000)
      && b[p + 52..] == Flatten(DecodeAll(e.chunkHashes))
  {
    var content, chunks := DecodeOrZero(e.contentHash), Flatten(DecodeAll(e.chunkHashes));
    var t := Unsigned64(e.modifiedAt.seconds);
    EncodedLength(e);
    FieldsDecode(e);
    FieldSlices(e.path, EncodeLE(e.size, 8), content, EncodeLE(ModeBits(e.mode), 4), EncodeLE(t, 8), chunks);
  }

  lemma FieldsDecode(e: ManifestEntry)
    requires WellFormed(e)
    ensures DecodeLE(EncodeLE(e.size, 8)) == e.size
    ensures DecodeLE(EncodeLE(ModeBits(e.mode), 4)) == if e.mode.Some? then e.mode.value else 0
    ensures DecodeLE(EncodeLE(Unsigned64(e.modifiedAt.seconds), 8))
         == e.modifiedAt.seconds + (if e.modifiedAt.seconds >= 0 then 0 else 0x1_0000_0000_0000_0000)
  {
    Pow256Values();
    DecodeEncodeLE(e.size, 8);
    DecodeEncodeLE(ModeBits(e.mode), 4);
    DecodeEncodeLE(Unsigned64(e.modifiedAt.seconds), 8);
  }

  lemma FieldSlices(path: Bytes, size: Bytes, content: Bytes, mode: Bytes, time: Bytes, chunks: Bytes)
    requires |size| == 8 && |content| == 32 && |mode| == 4 && |time| == 8
    ensures var b, p := path + (size + (content + (mode + (time + chunks)))), |path|;
      && b[..p] == path && b[p..p + 8] == size && b[p + 8..p + 40] == content && b[p + 40..p + 44] == mode
      && b[p + 44..p + 52] == time && b[p + 52..] == chunks
  {
  }

  lemma SplitEqual(a: Bytes, x: Bytes, b: Bytes, y: Bytes)
    requires a + x == b + y && |a| == |b|
    ensures a == b && x == y
  {
    assert a == (a + x)[..|a|] && b == (b + y)[..|b|];
    assert x == (a + x)[|a|..] && y == (b + y)[|b|..];
  }

  lemma TailBinds(e: ManifestEntry, f: ManifestEntry)
    requires WellFormed(e) && WellFormed(f) && EncodeTail(e) == EncodeTail(f)
    ensures e.modifiedAt.seconds == f.modifiedAt.seconds && DecodeAll(e.chunkHashes) == DecodeAll(f.chunkHashes)
  {
    var t, s := Unsigned64(e.modifiedAt.seconds), Unsigned64(f.modifiedAt.seconds);
    SplitEqual(EncodeLE(t, 8), Flatten(DecodeAll(e.chunkHashes)), EncodeLE(s, 8), Flatten(DecodeAll(f.chunkHashes)));
    SecondsBind(e.modifiedAt.seconds, f.modifiedAt.seconds);
    FlattenInjective(DecodeAll(e.chunkHashes), DecodeAll(f.chunkHashes), 32);
  }

  lemma SecondsBind(x: int, y: int)
    requires -0x8000_0000_0000_0000 <= x < 0x8000_0000_0000_0000 && -0x8000_0000_0000_0000 <= y < 0x8000_0000_0000_0000
    requires EncodeLE(Unsigned64(x), 8) == EncodeLE(Unsigned64(y), 8)
    ensures x == y
  {
    Pow256Values();
    EncodeLEInjective(Unsigned64(x), Unsigned64(y), 8);
    WrapInjective(x, y);
  }

  lemma WrapInjective(x: int, y: int)
    requires -0x8000_0000_0000_0000 <= x < 0x8000_0000_0000_0000 && -0x8000_0000_0000_0000 <= y < 0x8000_0000_0000_0000
    requires Unsigned64(x) == Unsigned64(y)
    ensures x == y
  {
  }

  lemma FieldBinds(m: nat, x: Bytes, n: nat, y: Bytes, width: nat)
    requires m < Pow256(width) && n < Pow256(width) && EncodeLE(m, width) + x == EncodeLE(n, width) + y
    ensures m == n && x == y
  {
    SplitEqual(EncodeLE(m, width), x, EncodeLE(n, width), y);
    EncodeLEInjective(m, n, width);
  }

  /** The encoding has no length prefix for the path, so it determines the entry only together with
      the path length; then it determines exactly the canonical entry. */
  lemma EncodingBinds(e: ManifestEntry, f: ManifestEntry)
    requires WellFormed(e) && WellFormed(f)
    ensures EncodeEntry(e) == EncodeEntry(f) && |e.path| == |f.path| <==> Canon(e) == Canon(f)
  {
    if EncodeEntry(e) == EncodeEntry(f) && |e.path| == |f.path| {
      var m, n := EncodeLE(ModeBits(e.mode), 4) + EncodeTail(e), EncodeLE(ModeBits(f.mode), 4) + EncodeTail(f);
      var c, d := DecodeOrZero(e.contentHash), DecodeOrZero(f.contentHash);
      SplitEqual(e.path, EncodeLE(e.size, 8) + (c + m), f.path, EncodeLE(f.size, 8) + (d + n));
      FieldBinds(e.size, c + m, f.size, d + n, 8);
      SplitEqual(c, m, d, n);
      FieldBinds(ModeBits(e.mode), EncodeTail(e), ModeBits(f.mode), EncodeTail(f), 4);
      TailBinds(e, f);
    }
  }

  /** Two different entries one leaf cannot tell apart: an absent mode and mode zero. */
  lemma AbsentModeIsZero(e: ManifestEntry)
    ensures var f, g := e.(mode := None), e.(mode := Some(0)); f != g && EncodeEntry(f) == EncodeEntry(g)
  {
  }

  lemma {:induction false} ZeroLE(width: nat)
    ensures EncodeLE(0, width) == Zeros(width)
  {
    if width > 0 {
      ZeroLE(width - 1);
    }
  }

  lemma {:induction false} ZerosAppend(m: nat, n: nat)
    ensures Zeros(m) + Zeros(n) == Zeros(m + n)
  {
    if m > 0 {
      ZerosAppend(m - 1, n);
      assert Zeros(m) + Zeros(n) == [0] + (Zeros(m - 1) + Zeros(n));
    }
  }

  /** And the path length is needed: an entry with an empty path and one chunk encodes like an entry
      with a path of 32 bytes and none. */
  lemma PathLengthNeeded() returns (e: ManifestEntry, f: ManifestEntry)
    ensures WellFormed(e) && WellFormed(f) && e.path != f.path && EncodeEntry(e) == EncodeEntry(f)
  {
    var bad: Str := [0];
    e := ManifestEntry([], 0, Timestamp(0, 0), bad, [bad], None);
    f := ManifestEntry(Zeros(32), 0, Timestamp(0, 0), bad, [], None);
    Pow256Values();
    ZeroLE(4);
    ZeroLE(8);
    assert DecodeAll(e.chunkHashes) == [Zeros(32)] && DecodeAll(f.chunkHashes) == [];
    FlattenSnoc([], Zeros(32));
    assert [] + [Zeros(32)] == [Zeros(32)];
    assert EncodeTail(e) == Zeros(8) + Zeros(32) && EncodeTail(f) == Zeros(8);
    ZerosAppend(8, 32);
    ZerosAppend(4, 40);
    ZerosAppend(32, 44);
    ZerosAppend(8, 76);
    ZerosAppend(4, 8);
    ZerosAppend(32, 12);
    ZerosAppend(8, 44);
    ZerosAppend(32, 52);
    assert EncodeEntry(e) == Zeros(84);
  }

  // ---- Sorting by path ----

  /** Byte order, as `str` compares. */
  predicate Before(a: Str, b: Str) {
    b != [] && (a == [] || a[0] < b[0] || (a[0] == b[0] && Before(a[1..], b[1..])))
  }

  /** It is decided at the first place where the two differ, or by one being a prefix of the other. */
  lemma {:induction false} BeforeMeans(a: Str, b: Str)
    ensures Before(a, b) <==> exists k: nat :: FirstDiffers(a, b, k) && k < |b| && (k == |a| || a[k] < b[k])
    decreases |a|
  {
    if a != [] && b != [] && a[0] == b[0] {
      BeforeMeans(a[1..], b[1..]);
      assert a == [a[0]] + a[1..] && b == [b[0]] + b[1..];
      if Before(a[1..], b[1..]) {
        var k: nat :| FirstDiffers(a[1..], b[1..], k) && k < |b[1..]| && (k == |a[1..]| || a[1..][k] < b[1..][k]);
        FirstDiffersNext(a, b, k + 1);
      }
      if k: nat :| FirstDiffers(a, b, k) && k < |b| && (k == |a| || a[k] < b[k]) {
        FirstDiffersNext(a, b, k);
      }
    } else if Before(a, b) {
      assert FirstDiffers(a, b, 0);
    }
  }

  /** The first `k` bytes agree, and no more. */
  ghost predicate FirstDiffers(a: Str, b: Str, k: nat) {
    k <= |a| && k <= |b| && a[..k] == b[..k] && (k < |a| && k < |b| ==> a[k] != b[k])
  }

  lemma FirstDiffersNext(a: Str, b: Str, k: nat)
    requires a != [] && b != [] && a[0] == b[0]
    ensures FirstDiffers(a, b, k) <==> k > 0 && FirstDiffers(a[1..], b[1..], k - 1)
  {
    if 0 < k <= |a| && k <= |b| {
      assert a[..k] == [a[0]] + a[1..][..k - 1] && b[..k] == [b[0]] + b[1..][..k - 1];
      assert a[1..][..k - 1] == a[..k][1..] && b[1..][..k - 1] == b[..k][1..];
    }
  }

  lemma {:induction false} BeforeTotal(a: Str, b: Str)
    ensures Before(a, b) || a == b || Before(b, a)
    ensures !(Before(a, b) && Before(b, a)) && !Before(a, a)
    decreases |a|
  {
    if a != [] && b != [] && a[0] == b[0] {
      BeforeTotal(a[1..], b[1..]);
      assert a == [a[0]] + a[1..] && b == [b[0]] + b[1..];
    }
    if a != [] {
      BeforeTotal(a[1..], a[1..]);
    }
  }

  lemma {:induction false} BeforeTransitive(a: Str, b: Str, c: Str)
    requires Before(a, b) && Before(b, c)
    ensures Before(a, c)
    decreases |a|
  {
    if a != [] && a[0] == b[0] == c[0] {
      BeforeTransitive(a[1..], b[1..], c[1..]);
    }
  }

  /** A stable insertion: behind every entry whose path is not after the new one's. */
  function InsertByPath(files: seq<ManifestEntry>, e: ManifestEntry): (r: seq<ManifestEntry>)
    ensures multiset(r) == multiset(files) + multiset{e}
  {
    if files == [] then [e]
    else if Before(e.path, files[|files| - 1].path) then
      var r := InsertByPath(files[..|files| - 1], e) + [files[|files| - 1]];
      assert files == files[..|files| - 1] + [files[|files| - 1]];
      r
    else files + [e]
  }

  /** `sort_by` on the path: stable, entries of equal path keep their order. */
  function SortByPath(files: seq<ManifestEntry>): (r: seq<ManifestEntry>)
    ensures multiset(r) == multiset(files) && |r| == |files|
  {
    if files == [] then []
    else
      assert files == files[..|files| - 1] + [files[|files| - 1]];
      var r := InsertByPath(SortByPath(files[..|files| - 1]), files[|files| - 1]);
      assert |multiset(r)| == |r| && |multiset(files)| == |files|;
      r
  }

  ghost predicate StrictlySorted(files: seq<ManifestEntry>) {
    forall i, j :: 0 <= i < j < |files| ==> Before(files[i].path, files[j].path)
  }

  ghost predicate DistinctPaths(files: seq<ManifestEntry>) {
    forall i, j :: 0 <= i < j < |files| ==> files[i].path != files[j].path
  }

  lemma {:induction false} InsertSorted(files: seq<ManifestEntry>, e: ManifestEntry)
    requires StrictlySorted(files) && forall f :: f in files ==> f.path != e.path
    ensures StrictlySorted(InsertByPath(files, e))
  {
    if files != [] {
      var n := |files| - 1;
      var last := files[n];
      BeforeTotal(e.path, last.path);
      if Before(e.path, last.path) {
        var r := InsertByPath(files[..n], e);
        InsertSorted(files[..n], e);
        forall i | 0 <= i < |r|
          ensures Before(r[i].path, last.path)
        {
          assert r[i] in multiset(r);
          assert r[i] == e || r[i] in files[..n];
        }
      } else {
        forall i | 0 <= i < |files|
          ensures Before(files[i].path, e.path)
        {
          if i < n {
            BeforeTransitive(files[i].path, last.path, e.path);
          }
        }
      }
    }
  }

  lemma {:induction false} SortSorts(files: seq<ManifestEntry>)
    requires DistinctPaths(files)
    ensures StrictlySorted(SortByPath(files))
  {
    if files != [] {
      var n := |files| - 1;
      SortSorts(files[..n]);
      var r := SortByPath(files[..n]);
      forall f | f in r
        ensures f.path != files[n].path
      {
        assert f in multiset(r);
        assert f in files[..n];
      }
      InsertSorted(r, files[n]);
    }
  }

  /** A strictly sorted list is determined by its contents. */
  lemma {:induction false} SortedUnique(a: seq<ManifestEntry>, b: seq<ManifestEntry>)
    requires StrictlySorted(a) && StrictlySorted(b) && multiset(a) == multiset(b)
    ensures a == b
    decreases |a|
  {
    assert |multiset(a)| == |a| && |multiset(b)| == |b|;
    if a != [] {
      SameHead(a, b);
      assert a == [a[0]] + a[1..] && b == [b[0]] + b[1..];
      assert multiset(a[1..]) == multiset(a) - multiset{a[0]};
      SortedUnique(a[1..], b[1..]);
    }
  }

  lemma SameHead(a: seq<ManifestEntry>, b: seq<ManifestEntry>)
    requires StrictlySorted(a) && StrictlySorted(b) && multiset(a) == multiset(b) && a != [] && b != []
    ensures a[0] == b[0]
  {
    assert a[0] in multiset(b) && b[0] in multiset(a);
    var i :| 0 <= i < |b| && b[i] == a[0];
    var j :| 0 <= j < |a| && a[j] == b[0];
    BeforeTotal(a[0].path, b[0].path);
  }

  // ---- The manifest ----

  function Leaves(files: seq<ManifestEntry>): (r: seq<Bytes>)
    ensures |r| == |files| && forall i :: 0 <= i < |r| ==> r[i] == EncodeEntry(files[i])
  {
    seq(|files|, i requires 0 <= i < |files| => EncodeEntry(files[i]))
  }

  function ManifestRoot(h: HashFn, files: seq<ManifestEntry>): Digest {
    ListRoot(h, SortByPath(files))
  }

  /** The root of a list of files in the order they are hashed. */
  function ListRoot(h: HashFn, files: seq<ManifestEntry>): Digest {
    if files == [] then h([]) else Root(h, Hashed(h, Leaves(files)))
  }

  class Manifest {
    const h: HashFn
    var files: seq<ManifestEntry>
    var manifestHash: Option<Str>

    constructor (h: HashFn)
      ensures this.h == h && files == [] && manifestHash == None
    {
      this.h := h;
      files, manifestHash := [], None;
    }

    method AddFile(e: ManifestEntry)
      modifies this`files
      ensures files == old(files) + [e]
    {
      files := files + [e];
    }

    method CalculateHash() returns (root: Digest)
      ensures root == ManifestRoot(h, files)
      ensures files == [] ==> root == h([])
    {
      var sorted := SortByPath(files);
      if sorted == [] {
        return h([]);
      }
      var hashes := Hashed(h, Leaves(sorted));
      root := ComputeRoot(h, hashes);
    }

    method Finalize()
      modifies this`manifestHash
      ensures manifestHash == Some(HexEncode(ManifestRoot(h, files)))
    {
      var root := CalculateHash();
      manifestHash := Some(HexEncode(root));
    }

    /** True exactly when the root of the files is still the one the last `Finalize` recorded. */
    method Verify() returns (ok: bool)
      ensures ok <==> manifestHash == Some(HexEncode(ManifestRoot(h, files)))
    {
      if manifestHash.None? {
        return false;
      }
      var root := CalculateHash();
      return HexEncode(root) == manifestHash.value;
    }
  }

  /** The root does not depend on the order in which files were added. */
  lemma OrderIndependent(h: HashFn, a: seq<ManifestEntry>, b: seq<ManifestEntry>)
    requires DistinctPaths(a) && DistinctPaths(b) && multiset(a) == multiset(b)
    ensures ManifestRoot(h, a) == ManifestRoot(h, b)
  {
    SortSorts(a);
    SortSorts(b);
    SortedUnique(SortByPath(a), SortByPath(b));
  }

  function Canons(files: seq<ManifestEntry>): (r: seq<Canonical>)
    ensures |r| == |files| && forall i :: 0 <= i < |r| ==> r[i] == Canon(files[i])
  {
    seq(|files|, i requires 0 <= i < |files| => Canon(files[i]))
  }

  /** No two entries with paths of different lengths have one encoding. */
  ghost predicate ToldApart(entries: set<ManifestEntry>) {
    forall e, f :: e in entries && f in entries && EncodeEntry(e) == EncodeEntry(f) ==> |e.path| == |f.path|
  }

  ghost predicate Unambiguous(files: seq<ManifestEntry>) {
    ToldApart(set e | e in files)
  }

  /** Which can be seen from path lengths and chunk counts alone, when they add up to equal encoding
      lengths for paths of equal length only. */
  lemma LengthsTellApart(files: seq<ManifestEntry>)
    requires forall e :: e in files ==> WellFormed(e)
    requires forall e, f ::
      (e in files && f in files && |e.path| + 32 * |e.chunkHashes| == |f.path| + 32 * |f.chunkHashes|) ==>
      |e.path| == |f.path|
    ensures Unambiguous(files)
  {
    forall e, f | e in files && f in files && EncodeEntry(e) == EncodeEntry(f)
      ensures |e.path| == |f.path|
    {
      EncodedLength(e);
      EncodedLength(f);
    }
  }

  ghost predicate Sane(files: seq<ManifestEntry>) {
    DistinctPaths(files) && forall e :: e in files ==> WellFormed(e)
  }

  function RootInputs(h: HashFn, files: seq<ManifestEntry>): set<Bytes> {
    {[]} + AllInputs(h, Leaves(SortByPath(files)))
  }

  lemma LeavesBind(a: seq<ManifestEntry>, b: seq<ManifestEntry>)
    requires (forall e :: e in a || e in b ==> WellFormed(e)) && Unambiguous(a + b)
    ensures Leaves(a) == Leaves(b) <==> Canons(a) == Canons(b)
  {
    if |a| == |b| {
      forall i | 0 <= i < |a|
        ensures Leaves(a)[i] == Leaves(b)[i] <==> Canons(a)[i] == Canons(b)[i]
      {
        assert a[i] in a + b && b[i] in a + b;
        EncodingBinds(a[i], b[i]);
      }
      assert Canons(a) == Canons(b) ==> forall i :: 0 <= i < |a| ==> Canons(a)[i] == Canons(b)[i];
    } else {
      assert |Leaves(a)| != |Leaves(b)| && |Canons(a)| != |Canons(b)|;
    }
  }

  lemma LeavesDistinct(files: seq<ManifestEntry>)
    requires Sane(files) && Unambiguous(files)
    ensures NoDuplicates(Leaves(files))
  {
    forall i, j | 0 <= i < j < |files|
      ensures Leaves(files)[i] != Leaves(files)[j]
    {
      assert files[i] in files && files[j] in files;
      EncodingBinds(files[i], files[j]);
    }
  }

  lemma SortedSane(files: seq<ManifestEntry>)
    requires Sane(files)
    ensures Sane(SortByPath(files)) && forall e :: e in SortByPath(files) <==> e in files
  {
    SortSorts(files);
    var s := SortByPath(files);
    forall e
      ensures e in s <==> e in files
    {
      assert e in s <==> e in multiset(s);
    }
    forall i, j | 0 <= i < j < |s|
      ensures s[i].path != s[j].path
    {
      BeforeTotal(s[i].path, s[j].path);
    }
  }

  lemma EmptyRoot(h: HashFn, files: seq<ManifestEntry>)
    requires Hash32(h) && files != [] && forall e :: e in files ==> WellFormed(e)
    requires CollisionFreeOn(h, {[]} + AllInputs(h, Leaves(files)))
    ensures Root(h, Hashed(h, Leaves(files))) != h([])
  {
    assert files[0] in files;
    EncodedLength(files[0]);
    if |files| == 1 {
      assert Leaves(files)[0] in AllInputs(h, Leaves(files));
    } else {
      var _ := RootInput(h, Hashed(h, Leaves(files)));
    }
  }

  /** The leaves of `a`, in path order, are one of the levels above the leaves of `b`. */
  ghost predicate StandsFor(h: HashFn, a: seq<ManifestEntry>, b: seq<ManifestEntry>) {
    IsLevel(h, Leaves(SortByPath(a)), Hashed(h, Leaves(SortByPath(b))))
  }

  /** No manifest stands for one of the same height, nor for one none of whose pairs is among its leaves,
      as when no entry has the 64 bytes of a pair: only one without chunks and with a path of 12 bytes
      does. */
  lemma NoStandIn(h: HashFn, a: seq<ManifestEntry>, b: seq<ManifestEntry>)
    requires Hash32(h) && Sane(a) && Sane(b)
    requires Height(|a|) == Height(|b|) || forall e :: e in a || e in b ==> |e.path| != 12 || e.chunkHashes != []
    ensures !StandsFor(h, a, b) && !StandsFor(h, b, a)
  {
    var p, q := SortByPath(a), SortByPath(b);
    SortedSane(a);
    SortedSane(b);
    if Height(|a|) != Height(|b|) {
      NoneHas64(p);
      NoneHas64(q);
      ApartByLength(h, Leaves(p), Leaves(q));
    }
    ApartNoLevel(h, Leaves(p), Leaves(q));
  }

  lemma NoneHas64(files: seq<ManifestEntry>)
    requires forall e :: e in files ==> WellFormed(e) && (|e.path| != 12 || e.chunkHashes != [])
    ensures forall x :: x in Leaves(files) ==> |x| != 64
  {
    forall i | 0 <= i < |files|
      ensures |Leaves(files)[i]| != 64
    {
      assert files[i] in files;
      EncodedLength(files[i]);
    }
  }

  lemma ListRootBinds(h: HashFn, p: seq<ManifestEntry>, q: seq<ManifestEntry>)
    requires Hash32(h) && NoDuplicates(Leaves(p)) && NoDuplicates(Leaves(q))
    requires forall e :: e in p || e in q ==> WellFormed(e)
    requires CollisionFreeOn(h, {[]} + AllInputs(h, Leaves(p)) + ({[]} + AllInputs(h, Leaves(q))))
    ensures ListRoot(h, p) == ListRoot(h, q) <==>
      Leaves(p) == Leaves(q) || IsLevel(h, Leaves(p), Hashed(h, Leaves(q)))
        || IsLevel(h, Leaves(q), Hashed(h, Leaves(p)))
  {
    if p == [] || q == [] {
      if p != [] {
        EmptyRoot(h, p);
      }
      if q != [] {
        EmptyRoot(h, q);
      }
      EmptyNoLevel(h, Leaves(p), Leaves(q));
    } else {
      RootBinds(h, Leaves(p), Leaves(q));
    }
  }

  lemma EmptyNoLevel(h: HashFn, a: seq<Bytes>, b: seq<Bytes>)
    requires a == [] || b == []
    ensures !IsLevel(h, a, Hashed(h, b)) && !IsLevel(h, b, Hashed(h, a))
  {
    if IsLevel(h, a, Hashed(h, b)) {
      LevelFacts(h, a, Hashed(h, b));
    }
    if IsLevel(h, b, Hashed(h, a)) {
      LevelFacts(h, b, Hashed(h, a));
    }
  }

  /** What the root of a manifest binds: equal roots mean equal path-sorted canonical entries, or that one
      manifest stands for a level of the other. */
  ghost predicate Binds(h: HashFn, a: seq<ManifestEntry>, b: seq<ManifestEntry>) {
    ManifestRoot(h, a) == ManifestRoot(h, b) <==>
      Canons(SortByPath(a)) == Canons(SortByPath(b)) || StandsFor(h, a, b) || StandsFor(h, b, a)
  }

  /** When nothing hashed for the two manifests collides, and no two of their entries share an encoding
      under paths of different lengths, the root binds them, whatever the two numbers of files. */
  lemma ManifestRootBinds(h: HashFn, a: seq<ManifestEntry>, b: seq<ManifestEntry>)
    requires Hash32(h) && Sane(a) && Sane(b) && Unambiguous(a + b)
    requires CollisionFreeOn(h, RootInputs(h, a) + RootInputs(h, b))
    ensures Binds(h, a, b)
  {
    var p, q := SortByPath(a), SortByPath(b);
    SortedSane(a);
    SortedSane(b);
    assert forall e :: e in a + b <==> e in a || e in b;
    assert forall e :: e in p + q <==> e in p || e in q;
    LeavesBind(p, q);
    LeavesDistinct(p);
    LeavesDistinct(q);
    ListRootBinds(h, p, q);
  }

  /** Manifests of these entries, with nothing hashed for them colliding. */
  ghost predicate Drawn(h: HashFn, entries: set<ManifestEntry>, a: seq<ManifestEntry>, b: seq<ManifestEntry>) {
    && Sane(a) && Sane(b) && (forall e :: e in a || e in b ==> e in entries)
    && CollisionFreeOn(h, RootInputs(h, a) + RootInputs(h, b))
  }

  /** And that is exactly when it does: the root binds every two manifests of a set of entries if and only
      if no two of the entries share an encoding under paths of different lengths. */
  lemma RootBindsIff(h: HashFn, entries: set<ManifestEntry>)
    requires Hash32(h) && forall e :: e in entries ==> WellFormed(e) && h(EncodeEntry(e)) != h([])
    ensures (forall a, b :: Drawn(h, entries, a, b) ==> Binds(h, a, b)) <==> ToldApart(entries)
  {
    if ToldApart(entries) {
      forall a, b | Drawn(h, entries, a, b)
        ensures Binds(h, a, b)
      {
        ManifestRootBinds(h, a, b);
      }
    } else {
      var e, f :| e in entries && f in entries && EncodeEntry(e) == EncodeEntry(f) && |e.path| != |f.path|;
      LonesConfused(h, entries, e, f);
    }
  }

  /** Among manifests of one height, whose leaves are never levels of one another, that is binding without
      exception: equal roots if and only if equal entries. */
  lemma SameHeightBindsIff(h: HashFn, entries: set<ManifestEntry>)
    requires Hash32(h) && forall e :: e in entries ==> WellFormed(e) && h(EncodeEntry(e)) != h([])
    ensures (forall a, b :: Drawn(h, entries, a, b) && Height(|a|) == Height(|b|) ==> BindsStrictly(h, a, b)) <==>
      ToldApart(entries)
  {
    if ToldApart(entries) {
      forall a, b | Drawn(h, entries, a, b) && Height(|a|) == Height(|b|)
        ensures BindsStrictly(h, a, b)
      {
        ManifestRootBinds(h, a, b);
        NoStandIn(h, a, b);
      }
    } else {
      var e, f :| e in entries && f in entries && EncodeEntry(e) == EncodeEntry(f) && |e.path| != |f.path|;
      LonesConfused(h, entries, e, f);
      assert Drawn(h, entries, [e], [f]) && Height(|[e]|) == Height(|[f]|);
    }
  }

  ghost predicate BindsStrictly(h: HashFn, a: seq<ManifestEntry>, b: seq<ManifestEntry>) {
    ManifestRoot(h, a) == ManifestRoot(h, b) <==> Canons(SortByPath(a)) == Canons(SortByPath(b))
  }

  lemma LonesConfused(h: HashFn, entries: set<ManifestEntry>, e: ManifestEntry, f: ManifestEntry)
    requires e in entries && f in entries && WellFormed(e) && WellFormed(f) && h(EncodeEntry(e)) != h([])
    requires EncodeEntry(e) == EncodeEntry(f) && |e.path| != |f.path|
    ensures Drawn(h, entries, [e], [f]) && !Binds(h, [e], [f])
  {
    LoneRoot(h, e);
    LoneRoot(h, f);
    assert Canons([e])[0] == Canon(e) && Canons([f])[0] == Canon(f);
    EncodingBinds(e, f);
    assert Leaves([e]) == [EncodeEntry(e)] && Leaves([f]) == [EncodeEntry(e)];
    assert RootInputs(h, [e]) + RootInputs(h, [f]) == {[], EncodeEntry(e)};
  }

  lemma LoneRoot(h: HashFn, e: ManifestEntry)
    ensures SortByPath([e]) == [e] && ManifestRoot(h, [e]) == h(EncodeEntry(e))
  {
    assert SortByPath([e][..0]) == [] && SortByPath([e][1..]) == [];
    assert Leaves([e]) == [EncodeEntry(e)];
    assert Hashed(h, Leaves([e])) == [h(EncodeEntry(e))];
  }

  lemma SortTwo(e: ManifestEntry, f: ManifestEntry)
    requires Before(e.path, f.path)
    ensures SortByPath([e, f]) == [e, f] && SortByPath([f, e]) == [e, f]
  {
    BeforeTotal(e.path, f.path);
    SortOne(e);
    SortOne(f);
    assert [e, f][..1] == [e] && [f, e][..1] == [f];
    assert [f][..0] == [] && InsertByPath([], e) == [e];
  }

  lemma SortOne(e: ManifestEntry)
    ensures SortByPath([e]) == [e]
  {
    assert SortByPath([e][..0]) == [];
  }

  /** Of two files the one with the lesser path is hashed first, whichever was added first. */
  lemma TwoFiles(h: HashFn, e: ManifestEntry, f: ManifestEntry)
    requires Before(e.path, f.path)
    ensures ManifestRoot(h, [e, f]) == ManifestRoot(h, [f, e]) == h(h(EncodeEntry(e)) + h(EncodeEntry(f)))
  {
    SortTwo(e, f);
    assert Hashed(h, Leaves([e, f])) == [h(EncodeEntry(e)), h(EncodeEntry(f))];
    SmallRoots(h, h(EncodeEntry(e)), h(EncodeEntry(f)), []);
  }

  /** The first condition is needed: under every hash function these two manifests, of one file each
      and with different paths, have the same root. */
  lemma RootsConfused(h: HashFn) returns (a: seq<ManifestEntry>, b: seq<ManifestEntry>)
    ensures Sane(a) && Sane(b) && |a| == |b| && !Unambiguous(a + b)
    ensures ManifestRoot(h, a) == ManifestRoot(h, b) && Canons(SortByPath(a)) != Canons(SortByPath(b))
  {
    var e, f := PathLengthNeeded();
    a, b := [e], [f];
    LoneRoot(h, e);
    LoneRoot(h, f);
    assert Canons(a)[0] == Canon(e) && Canons(b)[0] == Canon(f);
    assert e in a + b && f in a + b;
    EncodingBinds(e, f);
  }

  /** Any 64 bytes are the encoding of an entry, with a path of 12 bytes and no chunks. */
  lemma EntryOf(x: Bytes) returns (e: ManifestEntry)
    requires |x| == 64
    ensures WellFormed(e) && EncodeEntry(e) == x && |e.path| == 12 && e.chunkHashes == []
  {
    var size, content, mode, seconds := x[12..20], x[20..52], x[52..56], x[56..64];
    Pow256Values();
    EncodeDecodeLE(size);
    EncodeDecodeLE(mode);
    HexRoundTrip(content);
    var s := SignedSeconds(seconds);
    e := ManifestEntry(x[..12], DecodeLE(size), Timestamp(s, 0), HexEncode(content), [], Some(DecodeLE(mode)));
    assert EncodeTail(e) == seconds;
    FiveParts(x);
  }

  lemma FiveParts(x: Bytes)
    requires |x| == 64
    ensures x == x[..12] + (x[12..20] + (x[20..52] + (x[52..56] + x[56..64])))
  {
  }

  lemma SignedSeconds(b: Bytes) returns (s: int)
    requires |b| == 8
    ensures -0x8000_0000_0000_0000 <= s < 0x8000_0000_0000_0000 && EncodeLE(Unsigned64(s), 8) == b
  {
    Pow256Values();
    EncodeDecodeLE(b);
    var v: int := DecodeLE(b);
    s := if v < 0x8000_0000_0000_0000 then v else v - 0x1_0000_0000_0000_0000;
    Unwrapped(s, v);
  }

  lemma Unwrapped(s: int, v: nat)
    requires v < 0x1_0000_0000_0000_0000 && (s == v || s == v - 0x1_0000_0000_0000_0000)
    ensures Unsigned64(s) == v
  {
  }

  /** Standing for a level does happen: for every manifest of two files or more there is a manifest of one
      file with the same root. */
  lemma LoneFileStandsFor(h: HashFn, b: seq<ManifestEntry>) returns (e: ManifestEntry)
    requires Hash32(h) && |b| >= 2
    ensures Sane([e]) && ManifestRoot(h, [e]) == ManifestRoot(h, b)
  {
    var x := RootInput(h, Hashed(h, Leaves(SortByPath(b))));
    e := EntryOf(x);
    LoneRoot(h, e);
  }
}
