/** The indexing pipeline: chunk a file, store the chunks, record their digests in a manifest entry. */
module Indexers {
  import opened Common
  import opened Encoding
  import opened Merkle
  import opened Manifests
  import opened ManifestDiffs
  import Chunkers
  import CS = ContentStores
  import SR = StoreRuns

  /** A file of the folder walk; `Unreadable` stands for one whose indexing fails with an I/O error. */
  datatype FileInput =
    | File(path: Str, parts: seq<Bytes>, size: nat, modifiedAt: Timestamp, mode: Option<nat>)
    | Unreadable(path: Str)

  function FileChunks(h: HashFn, c: Chunkers.Chunker, bytes: Bytes): seq<Bytes>
    requires c.Valid()
  {
    Chunkers.Datas(c.ChunksFrom(h, bytes, 0))
  }

  /** The digests of a list of chunks, as hex strings. */
  function HexDigests(h: HashFn, ds: seq<Bytes>): (r: seq<Str>)
    ensures |r| == |ds| && forall i :: 0 <= i < |r| ==> r[i] == HexEncode(h(ds[i]))
  {
    seq(|ds|, i requires 0 <= i < |ds| => HexEncode(h(ds[i])))
  }

  /** `calculate_file_hash`: the hash of the concatenated hex digests. */
  function FileHash(h: HashFn, ds: seq<Bytes>): Str {
    HexEncode(h(Flatten(HexDigests(h, ds))))
  }

  function Named(h: HashFn, ds: seq<Bytes>): (r: seq<CS.PendingWrite>)
    ensures |r| == |ds| && forall i :: 0 <= i < |r| ==> r[i] == CS.PendingWrite(h(ds[i]), ds[i])
  {
    seq(|ds|, i requires 0 <= i < |ds| => CS.PendingWrite(h(ds[i]), ds[i]))
  }

  /** Store a list of pieces one by one, stopping at the first that is too large. */
  method StoreAll(s: CS.ContentStore, ds: seq<Bytes>) returns (ok: bool)
    requires s.Valid()
    modifies s`objects, s`temps, s`dedup
    ensures s.Valid() && CS.Shrunk(old(s.temps), s.temps)
    ensures (forall i :: 0 <= i < |ds| ==> |ds[i]| <= CS.MAX_OBJECT_SIZE) ==> ok
    ensures ok ==> s.objects == CS.StoredAll(old(s.objects), Named(s.h, ds))
    ensures old(s.SizesRight()) && NoClashes(s.h, old(s.objects), ds) ==> s.SizesRight()
  {
    var i := 0;
    while i < |ds|
      invariant i <= |ds| && s.Valid() && CS.Shrunk(old(s.temps), s.temps)
      invariant s.objects == CS.StoredAll(old(s.objects), Named(s.h, ds[..i]))
      invariant old(s.SizesRight()) && NoClashes(s.h, old(s.objects), ds) ==> s.SizesRight()
    {
      StoredSoFar(s.h, old(s.objects), ds, i);
      assert Named(s.h, ds[..i + 1]) == Named(s.h, ds[..i]) + [CS.PendingWrite(s.h(ds[i]), ds[i])];
      CS.StoredAllSnoc(old(s.objects), Named(s.h, ds[..i]), CS.PendingWrite(s.h(ds[i]), ds[i]));
      var r := s.Write(ds[i]);
      if r.Err? {
        return false;
      }
      i := i + 1;
    }
    assert ds[..i] == ds;
    ok := true;
  }

  /** No two of the pieces, and no piece and the object already stored under its digest, collide. */
  ghost predicate NoClashes(h: HashFn, objs: CS.Objects, ds: seq<Bytes>) {
    && (forall i :: 0 <= i < |ds| && h(ds[i]) in objs ==> objs[h(ds[i])] == ds[i])
    && (forall i, j :: 0 <= i < j < |ds| && h(ds[i]) == h(ds[j]) ==> ds[i] == ds[j])
  }

  lemma StoredSoFar(h: HashFn, objs: CS.Objects, ds: seq<Bytes>, k: nat)
    requires k < |ds|
    ensures NoClashes(h, objs, ds) ==>
      var after := CS.StoredAll(objs, Named(h, ds[..k])); h(ds[k]) in after ==> after[h(ds[k])] == ds[k]
  {
    CS.StoredAllKeeps(objs, Named(h, ds[..k]));
  }

  /** What was stored under the invariant of whole runs is there, and the invariant holds on. */
  lemma StoredHonestly(h: HashFn, u: set<Bytes>, objs: CS.Objects, ds: seq<Bytes>)
    requires CS.Sound(h, objs) && CollisionFreeOn(h, u)
    requires (forall d :: d in objs ==> objs[d] in u) && forall i :: 0 <= i < |ds| ==> ds[i] in u
    ensures NoClashes(h, objs, ds)
    ensures var after := CS.StoredAll(objs, Named(h, ds));
      && CS.Sound(h, after) && SR.Extends(objs, after) && (forall d :: d in after ==> after[d] in u)
      && forall i :: 0 <= i < |ds| ==> h(ds[i]) in after && after[h(ds[i])] == ds[i]
  {
    SR.StoredAllHonest(h, u, objs, Named(h, ds));
    CS.StoredAllKeeps(objs, Named(h, ds));
    var after := CS.StoredAll(objs, Named(h, ds));
    forall i | 0 <= i < |ds|
      ensures h(ds[i]) in after && after[h(ds[i])] == ds[i]
    {
      assert Named(h, ds)[i] in Named(h, ds);
    }
  }

  /** The chunks of a file: in order they are its bytes, none is empty or larger than allowed. */
  lemma ChunksCutUp(h: HashFn, c: Chunkers.Chunker, bytes: Bytes)
    requires c.Valid()
    ensures var ds := FileChunks(h, c, bytes);
      Flatten(ds) == bytes && forall i :: 0 <= i < |ds| ==> 0 < |ds[i]| <= c.config.maxSize
  {
    var cs := c.ChunksFrom(h, bytes, 0);
    c.Partition(h, bytes, 0);
    c.Contiguous(h, bytes);
    c.ChunkLengths(h, bytes);
    assert bytes[0..] == bytes;
    forall i | 0 <= i < |cs|
      ensures 0 < |cs[i].data| <= c.config.maxSize
    {
      assert c.WellPlaced(h, bytes, cs, i) && c.WellSized(bytes, cs, i);
    }
  }

  /** The recorded digests lead back to `bytes`: each decodes to the name of a stored chunk, and the
      chunks in order are the bytes. */
  ghost predicate Reassembles(h: HashFn, objs: CS.Objects, hashes: seq<Str>, bytes: Bytes) {
    exists ds: seq<Bytes> :: Flatten(ds) == bytes && hashes == HexDigests(h, ds) && AllStored(h, objs, ds)
  }

  ghost predicate AllStored(h: HashFn, objs: CS.Objects, ds: seq<Bytes>) {
    forall i :: 0 <= i < |ds| ==> ds[i] != [] && h(ds[i]) in objs && objs[h(ds[i])] == ds[i]
  }

  /** What `index_file` records about a file. */
  ghost predicate Records(h: HashFn, c: Chunkers.Chunker, f: FileInput, e: ManifestEntry)
    requires c.Valid() && f.File?
  {
    && e.path == f.path && e.size == f.size && e.modifiedAt == f.modifiedAt && e.mode == f.mode
    && e.chunkHashes == HexDigests(h, FileChunks(h, c, Delivered(f.parts)))
    && e.contentHash == FileHash(h, FileChunks(h, c, Delivered(f.parts)))
  }

  /** The content hash of an indexed file is the digest of its chunks' hex digests joined, in lower-case hex;
      and what a manifest leaf decodes are the digests themselves. */
  lemma RecordsHex(h: HashFn, c: Chunkers.Chunker, f: FileInput, e: ManifestEntry)
    requires c.Valid() && f.File? && Records(h, c, f, e)
    ensures e.contentHash == HexEncode(DecodeOrZero(e.contentHash))
    ensures DecodeOrZero(e.contentHash) == h(Flatten(e.chunkHashes))
    ensures var ds := FileChunks(h, c, Delivered(f.parts));
      |e.chunkHashes| == |ds| && forall i :: 0 <= i < |ds| ==>
        e.chunkHashes[i] == HexEncode(h(ds[i])) && DecodeOrZero(e.chunkHashes[i]) == h(ds[i])
  {
    var ds := FileChunks(h, c, Delivered(f.parts));
    HexRoundTrip(h(Flatten(e.chunkHashes)));
    forall i | 0 <= i < |ds|
      ensures e.chunkHashes[i] == HexEncode(h(ds[i])) && DecodeOrZero(e.chunkHashes[i]) == h(ds[i])
    {
      HexRoundTrip(h(ds[i]));
    }
  }

  /** The source's integer widths. */
  predicate InRange(f: FileInput)
    requires f.File?
  {
    f.size < Pow256(8) && ModeBits(f.mode) < Pow256(4)
    && -0x8000_0000_0000_0000 <= f.modifiedAt.seconds < 0x8000_0000_0000_0000
  }

  lemma RecordsWell(h: HashFn, c: Chunkers.Chunker, f: FileInput, e: ManifestEntry)
    requires c.Valid() && f.File? && Records(h, c, f, e) && Hash32(h) && InRange(f)
    ensures WellFormed(e)
  {
    RecordsHex(h, c, f, e);
  }

  method IndexFile(s: CS.ContentStore, c: Chunkers.Chunker, f: FileInput, ghost u: set<Bytes>)
    returns (e: ManifestEntry)
    requires c.Valid() && f.File? && SR.Inv(s, u)
    requires forall d :: d in FileChunks(s.h, c, Delivered(f.parts)) ==> d in u
    modifies s`objects, s`temps, s`dedup
    ensures SR.Inv(s, u) && SR.Extends(old(s.objects), s.objects)
    ensures Records(s.h, c, f, e) && Reassembles(s.h, s.objects, e.chunkHashes, Delivered(f.parts))
    ensures e.contentHash == HexEncode(DecodeOrZero(e.contentHash))
    ensures DecodeOrZero(e.contentHash) == s.h(Flatten(e.chunkHashes))
  {
    var chunks := c.ChunkStream(s.h, f.parts);
    ghost var bytes := Delivered(f.parts);
    var ds := Chunkers.Datas(chunks);
    ChunksCutUp(s.h, c, bytes);
    StoredHonestly(s.h, u, s.objects, ds);
    var _ := StoreAll(s, ds);
    assert AllStored(s.h, s.objects, ds);
    e := ManifestEntry(f.path, f.size, f.modifiedAt, FileHash(s.h, ds), HexDigests(s.h, ds), f.mode);
    RecordsHex(s.h, c, f, e);
  }

  /** Reading hangs on the chunk recorded at `i`, which the cache has no room for. */
  ghost predicate HangsAt(s: CS.ContentStore, hashes: seq<Str>, i: nat)
    reads s, s.cache
  {
    i < |hashes| && HexDecode(hashes[i]).Some? && s.Blocked(HexDecode(hashes[i]).value)
  }

  /** Read the stored chunk of a recorded digest. */
  method ReadNamed(s: CS.ContentStore, hash: Str, ghost data: Bytes) returns (r: Result<Bytes, CS.CasError>)
    requires s.Valid() && hash == HexEncode(s.h(data)) && data != [] && s.h(data) in s.objects
      && s.objects[s.h(data)] == data
    modifies s.cache
    ensures s.Valid() && HexDecode(hash) == Some(s.h(data))
    ensures r == Ok(data) || (r == Err(CS.Stalled) && s.Blocked(s.h(data)))
    ensures old(s.Roomy(s.objects)) ==> r == Ok(data) && s.Roomy(s.objects)
  {
    HexRoundTrip(s.h(data));
    var name := HexDecode(hash);
    r := s.Read(name.value);
  }

  /** Read a recorded file back from the store, chunk by chunk. */
  method ReadBack(s: CS.ContentStore, hashes: seq<Str>, ghost bytes: Bytes) returns (r: Result<Bytes, CS.CasError>)
    requires s.Valid() && CS.Sound(s.h, s.objects) && Reassembles(s.h, s.objects, hashes, bytes)
    modifies s.cache
    ensures s.Valid()
    ensures r == Ok(bytes) || (r == Err(CS.Stalled) && exists i :: HangsAt(s, hashes, i))
    ensures old(s.Roomy(s.objects)) ==> r == Ok(bytes)
  {
    ghost var ds: seq<Bytes> :| Flatten(ds) == bytes && hashes == HexDigests(s.h, ds) && AllStored(s.h, s.objects, ds);
    var data: Bytes := [];
    var i := 0;
    while i < |hashes|
      invariant i <= |hashes| && s.Valid()
      invariant data == Flatten(ds[..i])
      invariant old(s.Roomy(s.objects)) ==> s.Roomy(s.objects)
    {
      var chunk := ReadNamed(s, hashes[i], ds[i]);
      if chunk.Err? {
        assert HangsAt(s, hashes, i);
        return chunk;
      }
      FlattenUpTo(ds, i);
      data := data + chunk.value;
      i := i + 1;
    }
    assert ds[..i] == ds;
    return Ok(data);
  }

  function Readable(files: seq<FileInput>): (r: seq<FileInput>)
    ensures forall f :: f in r ==> f.File? && f in files
  {
    if files == [] then []
    else
      var last := files[|files| - 1];
      var r := Readable(files[..|files| - 1]);
      assert forall f :: f in r ==> f in files;
      if last.File? then r + [last] else r
  }

  /** Every file that can be read, and in order. */
  lemma {:induction false} ReadableAll(files: seq<FileInput>, i: nat)
    requires i < |files| && files[i].File?
    ensures |Readable(files[..i])| < |Readable(files)| && Readable(files)[|Readable(files[..i])|] == files[i]
    decreases |files|
  {
    var n := |files| - 1;
    if i < n {
      ReadableAll(files[..n], i);
      assert files[..n][..i] == files[..i];
    }
  }

  /** The entry records the file, and its chunks in the store reassemble it. */
  ghost predicate Indexed(h: HashFn, c: Chunkers.Chunker, objs: CS.Objects, f: FileInput, e: ManifestEntry)
    requires c.Valid() && f.File?
  {
    Records(h, c, f, e) && Reassembles(h, objs, e.chunkHashes, Delivered(f.parts))
  }

  lemma IndexedLater(h: HashFn, c: Chunkers.Chunker, objs: CS.Objects, objs': CS.Objects, f: FileInput,
                     e: ManifestEntry)
    requires c.Valid() && f.File? && Indexed(h, c, objs, f, e) && SR.Extends(objs, objs')
    ensures Indexed(h, c, objs', f, e)
  {
    ReassemblesLater(h, objs, objs', e.chunkHashes, Delivered(f.parts));
  }

  /** The entries recorded so far, one for each file. */
  ghost predicate AllIndexed(h: HashFn, c: Chunkers.Chunker, objs: CS.Objects, fs: seq<FileInput>,
                             es: seq<ManifestEntry>)
    requires c.Valid() && forall f :: f in fs ==> f.File?
  {
    |es| == |fs| && forall i :: 0 <= i < |es| ==> Indexed(h, c, objs, fs[i], es[i])
  }

  lemma OneMoreIndexed(h: HashFn, c: Chunkers.Chunker, objs: CS.Objects, objs': CS.Objects, fs: seq<FileInput>,
                       es: seq<ManifestEntry>, f: FileInput, e: ManifestEntry)
    requires c.Valid() && f.File? && (forall x :: x in fs ==> x.File?)
    requires AllIndexed(h, c, objs, fs, es) && SR.Extends(objs, objs') && Indexed(h, c, objs', f, e)
    ensures AllIndexed(h, c, objs', fs + [f], es + [e])
  {
    forall i | 0 <= i < |es|
      ensures Indexed(h, c, objs', fs[i], es[i])
    {
      IndexedLater(h, c, objs, objs', fs[i], es[i]);
    }
  }

  /** Index one more file of a folder. */
  method IndexNext(s: CS.ContentStore, c: Chunkers.Chunker, f: FileInput, ghost u: set<Bytes>, ghost fs: seq<FileInput>,
                   ghost es: seq<ManifestEntry>)
    returns (e: ManifestEntry)
    requires c.Valid() && f.File? && SR.Inv(s, u) && (forall x :: x in fs ==> x.File?)
    requires forall d :: d in FileChunks(s.h, c, Delivered(f.parts)) ==> d in u
    requires AllIndexed(s.h, c, s.objects, fs, es)
    modifies s`objects, s`temps, s`dedup
    ensures SR.Inv(s, u) && SR.Extends(old(s.objects), s.objects)
    ensures AllIndexed(s.h, c, s.objects, fs + [f], es + [e])
  {
    ghost var objs := s.objects;
    e := IndexFile(s, c, f, u);
    OneMoreIndexed(s.h, c, objs, s.objects, fs, es, f, e);
  }

  /** Index the files of a folder in walk order; the ones that fail are skipped. */
  method IndexFolder(s: CS.ContentStore, c: Chunkers.Chunker, files: seq<FileInput>, ghost u: set<Bytes>)
    returns (m: Manifest)
    requires c.Valid() && SR.Inv(s, u)
    requires forall f, d :: f in files && f.File? && d in FileChunks(s.h, c, Delivered(f.parts)) ==> d in u
    modifies s`objects, s`temps, s`dedup
    ensures fresh(m) && m.h == s.h && SR.Inv(s, u) && SR.Extends(old(s.objects), s.objects)
    ensures AllIndexed(s.h, c, s.objects, Readable(files), m.files)
    ensures m.manifestHash == Some(HexEncode(ManifestRoot(s.h, m.files)))
    ensures LowerHex(m.files)
    ensures Hash32(s.h) && AllInRange(files) ==> forall e :: e in m.files ==> WellFormed(e)
  {
    m := new Manifest(s.h);
    var k := 0;
    while k < |files|
      invariant k <= |files| && SR.Inv(s, u) && SR.Extends(old(s.objects), s.objects) && fresh(m)
      invariant AllIndexed(s.h, c, s.objects, Readable(files[..k]), m.files)
    {
      assert files[..k + 1][..k] == files[..k];
      var f := files[k];
      k := k + 1;
      if f.File? {
        var e := IndexNext(s, c, f, u, Readable(files[..k - 1]), m.files);
        m.AddFile(e);
      }
    }
    assert files[..k] == files;
    EntriesWell(s.h, c, s.objects, files, m.files);
    m.Finalize();
  }

  ghost predicate AllInRange(files: seq<FileInput>) {
    forall f :: f in files && f.File? ==> InRange(f)
  }

  lemma EntriesWell(h: HashFn, c: Chunkers.Chunker, objs: CS.Objects, files: seq<FileInput>, es: seq<ManifestEntry>)
    requires c.Valid() && AllIndexed(h, c, objs, Readable(files), es)
    ensures LowerHex(es)
    ensures Hash32(h) && AllInRange(files) ==> forall e :: e in es ==> WellFormed(e)
  {
    forall e | e in es
      ensures e.contentHash == HexEncode(DecodeOrZero(e.contentHash))
      ensures Hash32(h) && AllInRange(files) ==> WellFormed(e)
    {
      var i :| 0 <= i < |es| && es[i] == e;
      var f := Readable(files)[i];
      assert f in Readable(files) && Indexed(h, c, objs, f, e);
      RecordsHex(h, c, f, e);
      if Hash32(h) && AllInRange(files) {
        RecordsWell(h, c, f, e);
      }
    }
  }

  lemma ReassemblesLater(h: HashFn, objs: CS.Objects, objs': CS.Objects, hashes: seq<Str>, bytes: Bytes)
    requires Reassembles(h, objs, hashes, bytes) && SR.Extends(objs, objs')
    ensures Reassembles(h, objs', hashes, bytes)
  {
    var ds: seq<Bytes> :| Flatten(ds) == bytes && hashes == HexDigests(h, ds) && AllStored(h, objs, ds);
    assert AllStored(h, objs', ds);
  }

  // ---- The content hash identifies the file ----

  /** Everything hashed for the content hash of a file. */
  function HashedFor(h: HashFn, ds: seq<Bytes>): set<Bytes> {
    (set d | d in ds) + {Flatten(HexDigests(h, ds))}
  }

  lemma FileHashBinds(h: HashFn, a: seq<Bytes>, b: seq<Bytes>)
    requires Hash32(h) && CollisionFreeOn(h, HashedFor(h, a) + HashedFor(h, b))
    ensures FileHash(h, a) == FileHash(h, b) <==> a == b
  {
    if FileHash(h, a) == FileHash(h, b) {
      var x, y := HexDigests(h, a), HexDigests(h, b);
      HexEncodeInjective(h(Flatten(x)), h(Flatten(y)));
      FlattenInjective(x, y, 64);
      forall i | 0 <= i < |a|
        ensures a[i] == b[i]
      {
        assert x[i] == y[i];
        HexEncodeInjective(h(a[i]), h(b[i]));
        assert a[i] in HashedFor(h, a) && b[i] in HashedFor(h, b);
      }
    }
  }

  /** Two files indexed with one configuration have equal content hashes exactly when their bytes are
      equal, as long as nothing hashed for them collides. */
  lemma ContentHashIff(h: HashFn, c: Chunkers.Chunker, x: Bytes, y: Bytes)
    requires c.Valid() && Hash32(h)
    requires CollisionFreeOn(h, HashedFor(h, FileChunks(h, c, x)) + HashedFor(h, FileChunks(h, c, y)))
    ensures FileHash(h, FileChunks(h, c, x)) == FileHash(h, FileChunks(h, c, y)) <==> x == y
  {
    FileHashBinds(h, FileChunks(h, c, x), FileChunks(h, c, y));
    c.Partition(h, x, 0);
    c.Partition(h, y, 0);
    assert x[0..] == x && y[0..] == y;
  }

  /** From two indexings to the diff: a path both manifests have is listed as modified exactly when the
      bytes of its file changed. */
  lemma ModifiedIff(h: HashFn, c: Chunkers.Chunker, f: FileInput, g: FileInput,
                    a: seq<ManifestEntry>, b: seq<ManifestEntry>, e: ManifestEntry, e': ManifestEntry)
    requires c.Valid() && Hash32(h) && f.File? && g.File? && f.path == g.path
    requires DistinctPaths(a) && DistinctPaths(b) && e in a && e' in b
    requires Records(h, c, f, e) && Records(h, c, g, e')
    requires var x, y := Delivered(f.parts), Delivered(g.parts);
      CollisionFreeOn(h, HashedFor(h, FileChunks(h, c, x)) + HashedFor(h, FileChunks(h, c, y)))
    ensures f.path in Modified(TableOf(a), TableOf(b)) <==> Delivered(f.parts) != Delivered(g.parts)
  {
    ContentHashIff(h, c, Delivered(f.parts), Delivered(g.parts));
    TableFinds(a, e);
    TableFinds(b, e');
  }

  // ---- Two folders, their roots and their files ----

  /** The entries of a folder as the pipeline records it: one for each readable file, in order. */
  ghost predicate FolderOf(h: HashFn, c: Chunkers.Chunker, files: seq<FileInput>, es: seq<ManifestEntry>)
    requires c.Valid()
  {
    && |es| == |files| && (forall i :: 0 <= i < |files| ==> files[i].File? && InRange(files[i]))
    && (forall i, j :: 0 <= i < j < |files| ==> files[i].path != files[j].path)
    && forall i :: 0 <= i < |es| ==> Records(h, c, files[i], es[i])
  }

  lemma FolderSane(h: HashFn, c: Chunkers.Chunker, files: seq<FileInput>, es: seq<ManifestEntry>)
    requires c.Valid() && Hash32(h) && FolderOf(h, c, files, es)
    ensures Sane(es) && LowerHex(es)
  {
    forall e | e in es
      ensures WellFormed(e) && e.contentHash == HexEncode(DecodeOrZero(e.contentHash))
    {
      var i :| 0 <= i < |es| && es[i] == e;
      RecordsHex(h, c, files[i], e);
      RecordsWell(h, c, files[i], e);
    }
    forall i, j | 0 <= i < j < |es|
      ensures es[i].path != es[j].path
    {
      assert Records(h, c, files[i], es[i]) && Records(h, c, files[j], es[j]);
    }
  }

  /** Two indexed folders with one manifest hash have an empty diff, unless one stands for a level of the
      other's tree; with trees of equal height they always have. */
  lemma SameHashNoChanges(h: HashFn, c: Chunkers.Chunker, fs: seq<FileInput>, a: seq<ManifestEntry>,
                          gs: seq<FileInput>, b: seq<ManifestEntry>, d: ManifestDiff)
    requires c.Valid() && Hash32(h) && FolderOf(h, c, fs, a) && FolderOf(h, c, gs, b) && Unambiguous(a + b)
    requires CollisionFreeOn(h, RootInputs(h, a) + RootInputs(h, b))
    requires HexEncode(ManifestRoot(h, a)) == HexEncode(ManifestRoot(h, b)) && IsDiff(TableOf(a), TableOf(b), d)
    ensures d.HasChanges() ==> StandsFor(h, a, b) || StandsFor(h, b, a)
    ensures Height(|a|) == Height(|b|) ==> !d.HasChanges()
  {
    FolderSane(h, c, fs, a);
    FolderSane(h, c, gs, b);
    HexEncodeInjective(ManifestRoot(h, a), ManifestRoot(h, b));
    SameRootNoChanges(h, a, b, d);
  }

  /** From the hash of a folder back to the bytes of its files: with trees of equal height, every file of
      the one folder is in the other, under its path and with its bytes. */
  lemma SameHashSameBytes(h: HashFn, c: Chunkers.Chunker, fs: seq<FileInput>, a: seq<ManifestEntry>,
                          gs: seq<FileInput>, b: seq<ManifestEntry>, d: ManifestDiff, i: nat)
    returns (j: nat)
    requires c.Valid() && Hash32(h) && FolderOf(h, c, fs, a) && FolderOf(h, c, gs, b) && Unambiguous(a + b)
    requires CollisionFreeOn(h, RootInputs(h, a) + RootInputs(h, b))
    requires HexEncode(ManifestRoot(h, a)) == HexEncode(ManifestRoot(h, b)) && IsDiff(TableOf(a), TableOf(b), d)
    requires Height(|a|) == Height(|b|) && i < |fs|
    requires forall k :: 0 <= k < |gs| ==>
      CollisionFreeOn(h, HashedFor(h, FileChunks(h, c, Delivered(fs[i].parts)))
                         + HashedFor(h, FileChunks(h, c, Delivered(gs[k].parts))))
    ensures j < |gs| && gs[j].path == fs[i].path && Delivered(gs[j].parts) == Delivered(fs[i].parts)
  {
    SameHashNoChanges(h, c, fs, a, gs, b, d);
    j := Counterpart(h, c, gs, a, b, d, i);
    assert Records(h, c, fs[i], a[i]) && Records(h, c, gs[j], b[j]);
    ContentHashIff(h, c, Delivered(fs[i].parts), Delivered(gs[j].parts));
  }

  lemma Counterpart(h: HashFn, c: Chunkers.Chunker, gs: seq<FileInput>, a: seq<ManifestEntry>, b: seq<ManifestEntry>,
                    d: ManifestDiff, i: nat) returns (j: nat)
    requires c.Valid() && FolderOf(h, c, gs, b) && DistinctPaths(a) && i < |a|
    requires IsDiff(TableOf(a), TableOf(b), d) && !d.HasChanges()
    ensures j < |b| && b[j].path == a[i].path && b[j].contentHash == a[i].contentHash
  {
    NoChangesIff(TableOf(a), TableOf(b), d);
    assert a[i] in a;
    TableFinds(a, a[i]);
    var p := a[i].path;
    assert p in Contents(TableOf(a)) && Contents(TableOf(a))[p] == Contents(TableOf(b))[p];
    assert TableOf(b)[p] in b;
    j :| 0 <= j < |b| && b[j] == TableOf(b)[p];
  }
}
