/** The packfile format: writer, the two readers, and the round trip between them. */
module Packfiles {
  import opened Common
  import opened Encoding

  const U32_MAX: nat := 0xFFFF_FFFF
  const U64: nat := 0x1_0000_0000_0000_0000
  const I64_MAX: nat := 0x7FFF_FFFF_FFFF_FFFF

  const HEADER: nat := 26
  /** Bytes of a table entry; products below write the number itself. */
  const ENTRY: nat := 44
  const FOOTER: nat := 32
  const COUNT_AT: nat := 18

  const VERSION: nat := 1

  /** "LANDRO_PACK_V1" */
  const MAGIC: Bytes := [76, 65, 78, 68, 82, 79, 95, 80, 65, 67, 75, 95, 86, 49]

  datatype PackChunk = PackChunk(hash: Digest, data: Bytes)

  datatype PackEntry = PackEntry(hash: Digest, offset: nat, size: nat)

  datatype PackError =
    | Io
    | BadMagic
    | BadVersion
    | TooSmall
    | TableOutside
    | Corrupt
    | NotFound
    | HashMismatch
    | TooLarge

  type Index = map<Digest, PackEntry>

  datatype Opened = Opened(entries: Index, totalSize: nat)

  // ---- The layout ----

  /** Magic and version, the part of the header before the count. */
  function Prelude(): (b: Bytes)
    ensures |b| == COUNT_AT
  {
    MAGIC + EncodeLE(VERSION, 4)
  }

  function Header(count: nat): (b: Bytes)
    ensures |b| == HEADER
  {
    Prelude() + EncodeLE(count, 8)
  }

  function Data(cs: seq<PackChunk>): Bytes {
    if cs == [] then [] else Data(cs[..|cs| - 1]) + cs[|cs| - 1].data
  }

  /** The entry of each chunk: its digest, and where its bytes are in the file. */
  function EntriesOf(cs: seq<PackChunk>): (es: seq<PackEntry>)
    ensures |es| == |cs|
  {
    if cs == [] then []
    else
      var last := cs[|cs| - 1];
      EntriesOf(cs[..|cs| - 1]) + [PackEntry(last.hash, HEADER + |Data(cs[..|cs| - 1])|, |last.data|)]
  }

  function EntryBytes(e: PackEntry): Bytes {
    e.hash + (EncodeLE(e.offset, 8) + EncodeLE(e.size, 4))
  }

  function Table(es: seq<PackEntry>): Bytes {
    if es == [] then [] else Table(es[..|es| - 1]) + EntryBytes(es[|es| - 1])
  }

  /** The file before it is sealed: the count field still holds the placeholder. */
  function Unsealed(cs: seq<PackChunk>): Bytes {
    Header(0) + Data(cs) + Table(EntriesOf(cs))
  }

  /** The sealed file. Its footer is the hash of the unsealed one, so of a zero count. */
  function PackBytes(h: HashFn, cs: seq<PackChunk>): Bytes {
    Header(|cs|) + Data(cs) + Table(EntriesOf(cs)) + h(Unsealed(cs))
  }

  predicate Packable(cs: seq<PackChunk>) {
    && (forall i :: 0 <= i < |cs| ==> |cs[i].hash| == 32 && |cs[i].data| <= U32_MAX)
    && HEADER + |Data(cs)| + 44 * |cs| + FOOTER <= I64_MAX
  }

  // ---- The index a reader builds ----

  /** A later entry of the same digest replaces an earlier one. */
  function IndexOf(es: seq<PackEntry>): Index {
    if es == [] then map[]
    else
      var last := es[|es| - 1];
      IndexOf(es[..|es| - 1])[last.hash := last]
  }

  function TotalSize(es: seq<PackEntry>): nat {
    if es == [] then 0 else TotalSize(es[..|es| - 1]) + es[|es| - 1].size
  }

  function ParseEntry(b: Bytes): PackEntry
    requires |b| == ENTRY
  {
    PackEntry(b[..32], DecodeLE(b[32..40]), DecodeLE(b[40..44]))
  }

  function ParseTable(f: Bytes, at: nat, n: nat): (es: seq<PackEntry>)
    requires at + 44 * n <= |f|
    ensures |es| == n
  {
    seq(n, i requires 0 <= i < n => ParseEntry(f[at + 44 * i..at + 44 * i + ENTRY]))
  }

  function HeaderCount(f: Bytes): nat
    requires |f| >= HEADER
  {
    DecodeLE(f[COUNT_AT..HEADER])
  }

  /** Where the readers look for the table: unsigned 64-bit arithmetic, which wraps. */
  function TableOffset(f: Bytes): nat
    requires |f| >= HEADER
  {
    (|f| - FOOTER - 44 * HeaderCount(f)) % U64
  }

  predicate HeaderOk(f: Bytes) {
    |f| >= HEADER && f[..14] == MAGIC && DecodeLE(f[14..18]) == VERSION
  }

  // ---- Writing ----

  /** Writing at a position overwrites what is there and extends the file at its end. */
  function Overwrite(f: Bytes, at: nat, b: Bytes): Bytes
    requires at <= |f|
  {
    f[..at] + b + (if at + |b| < |f| then f[at + |b|..] else [])
  }

  lemma OverwriteMiddle(a: Bytes, b: Bytes, c: Bytes, b': Bytes)
    requires |b| == |b'|
    ensures Overwrite((a + b) + c, |a|, b') == (a + b') + c
  {
    var f := (a + b) + c;
    assert f[..|a|] == a && f[|a| + |b|..] == c;
  }

  lemma OverwriteEnd(f: Bytes, b: Bytes)
    ensures Overwrite(f, |f|, b) == f + b
  {
  }

  lemma ChunkAppended(header: Bytes, cs: seq<PackChunk>, c: PackChunk)
    ensures header + Data(cs + [c]) == (header + Data(cs)) + c.data && |Data(cs + [c])| == |Data(cs)| + |c.data|
    ensures EntriesOf(cs + [c]) == EntriesOf(cs) + [PackEntry(c.hash, HEADER + |Data(cs)|, |c.data|)]
  {
    assert (cs + [c])[..|cs|] == cs;
  }

  class PackfileWriter {
    const h: HashFn
    var file: Bytes
    var pos: nat
    var entries: seq<PackEntry>
    var dataOffset: nat
    ghost var chunks: seq<PackChunk>

    ghost predicate Valid()
      reads this
    {
      && file == Header(0) + Data(chunks) && pos == |file|
      && entries == EntriesOf(chunks) && dataOffset == HEADER + |Data(chunks)|
      && forall i :: 0 <= i < |chunks| ==> |chunks[i].data| <= U32_MAX
    }

    constructor (h: HashFn)
      ensures Valid() && this.h == h && chunks == []
    {
      this.h := h;
      file, pos, entries, chunks := [], 0, [], [];
      dataOffset := HEADER;
      new;
      WriteAll(MAGIC);
      WriteAll(EncodeLE(VERSION, 4));
      OverwriteEnd(MAGIC, EncodeLE(VERSION, 4));
      assert file == Prelude() && pos == COUNT_AT;
      WriteAll(EncodeLE(0, 8));
      OverwriteEnd(Prelude(), EncodeLE(0, 8));
      assert file + Data([]) == file;
    }

    method WriteAll(b: Bytes)
      requires pos <= |file|
      modifies this`file, this`pos
      ensures file == Overwrite(old(file), old(pos), b) && pos == old(pos) + |b| <= |file|
    {
      file := Overwrite(file, pos, b);
      pos := pos + |b|;
    }

    method AddChunk(hash: Digest, data: Bytes) returns (ok: bool)
      requires Valid()
      modifies this
      ensures Valid() && (ok <==> |data| <= U32_MAX)
      ensures chunks == if ok then old(chunks) + [PackChunk(hash, data)] else old(chunks)
      ensures !ok ==> file == old(file)
    {
      if |data| > U32_MAX {
        return false;
      }
      OverwriteEnd(file, data);
      WriteAll(data);
      entries := entries + [PackEntry(hash, dataOffset, |data|)];
      dataOffset := dataOffset + |data|;
      ChunkAppended(Header(0), chunks, PackChunk(hash, data));
      chunks := chunks + [PackChunk(hash, data)];
      ok := true;
    }

    /** Write the table, hash everything written so far, append the hash, then patch the count. */
    method Finalize()
      requires Valid()
      modifies this
      ensures file == PackBytes(h, chunks) && chunks == old(chunks)
    {
      WriteTable();
      pos := 0;
      var content := ReadToEnd();
      assert content == file;
      OverwriteEnd(file, h(content));
      WriteAll(h(content));
      pos := COUNT_AT;
      ghost var data, table := Data(chunks), Table(EntriesOf(chunks));
      ghost var body := data + table + h(content);
      SealedShape(Header(0), data, table, h(content));
      SealedShape(Header(|entries|), data, table, h(content));
      OverwriteMiddle(Prelude(), EncodeLE(0, 8), body, EncodeLE(|entries|, 8));
      WriteAll(EncodeLE(|entries|, 8));
    }

    method WriteEntry(e: PackEntry)
      requires pos == |file|
      modifies this`file, this`pos
      ensures file == old(file) + EntryBytes(e) && pos == |file|
    {
      WriteAll(e.hash);
      WriteAll(EncodeLE(e.offset, 8));
      WriteAll(EncodeLE(e.size, 4));
    }

    method WriteTable()
      requires Valid()
      modifies this`file, this`pos
      ensures file == Unsealed(chunks) && pos == |file|
    {
      var i := 0;
      while i < |entries|
        invariant i <= |entries|
        invariant file == Header(0) + Data(chunks) + Table(entries[..i]) && pos == |file|
      {
        var e := entries[i];
        TableSnoc(Header(0) + Data(chunks), entries[..i], e);
        assert entries[..i + 1] == entries[..i] + [e];
        WriteEntry(e);
        i := i + 1;
      }
      assert entries[..i] == entries;
    }

    /** The hashing loop: read from the current position to the end, a buffer at a time. */
    method ReadToEnd() returns (content: Bytes)
      requires pos <= |file|
      modifies this`pos
      ensures content == file[old(pos)..] && pos == |file|
    {
      content := [];
      while pos < |file|
        invariant old(pos) <= pos <= |file| && content == file[old(pos)..pos]
      {
        var n := if |file| - pos < 8192 then |file| - pos else 8192;
        assert file[old(pos)..pos] + file[pos..pos + n] == file[old(pos)..pos + n];
        content := content + file[pos..pos + n];
        pos := pos + n;
      }
      assert file[old(pos)..|file|] == file[old(pos)..];
    }
  }

  lemma TableSnoc(before: Bytes, es: seq<PackEntry>, e: PackEntry)
    ensures before + Table(es + [e]) == (before + Table(es)) + EntryBytes(e)
  {
    assert (es + [e])[..|es|] == es;
  }

  lemma SealedShape(head: Bytes, data: Bytes, table: Bytes, footer: Bytes)
    ensures ((head + data) + table) + footer == head + (data + table + footer)
  {
  }

  // ---- Reading ----

  /** What a reader has after the first `n` entries of a table. */
  function Indexed(f: Bytes, start: nat, n: nat): Opened
    requires start + 44 * n <= |f|
  {
    Opened(IndexOf(ParseTable(f, start, n)), TotalSize(ParseTable(f, start, n)))
  }

  lemma IndexedSnoc(f: Bytes, start: nat, n: nat, at: nat)
    requires at == start + 44 * n && at + ENTRY <= |f|
    ensures var e, o := ParseEntry(f[at..at + ENTRY]), Indexed(f, start, n);
      Indexed(f, start, n + 1) == Opened(o.entries[e.hash := e], o.totalSize + e.size)
  {
    var es := ParseTable(f, start, n + 1);
    assert es[..|es| - 1] == ParseTable(f, start, n);
    assert es[|es| - 1] == ParseEntry(f[at..at + ENTRY]);
  }

  function Parsed(f: Bytes): Opened
    requires |f| >= HEADER && TableOffset(f) + 44 * HeaderCount(f) <= |f|
  {
    Indexed(f, TableOffset(f), HeaderCount(f))
  }

  /** The entry loop of both readers: one entry after another, until one does not fit. Past 2^64 the
      memory-mapped reader's own check wraps, and the slice after it fails instead. */
  method ReadEntries(f: Bytes, start: nat, count: nat) returns (r: Option<Opened>)
    ensures r.Some? <==> count == 0 || start + 44 * count <= |f|
    ensures r.Some? && count == 0 ==> r.value == Opened(map[], 0)
    ensures r.Some? && start + 44 * count <= |f| ==> r.value == Indexed(f, start, count)
  {
    var read := Opened(map[], 0);
    var i, at := 0, start;
    while i < count
      invariant i <= count && at == start + 44 * i && (i > 0 ==> at <= |f|)
      invariant at <= |f| ==> read == Indexed(f, start, i)
      invariant i == 0 ==> read == Opened(map[], 0)
    {
      if at + ENTRY > |f| {
        return None;
      }
      IndexedSnoc(f, start, i, at);
      var e := ParseEntry(f[at..at + ENTRY]);
      read := Opened(read.entries[e.hash := e], read.totalSize + e.size);
      i, at := i + 1, at + ENTRY;
    }
    return Some(read);
  }

  /** The asynchronous reader: sequential reads of the file, each failing at its end, and the footer
      read but not compared. */
  method Open(f: Bytes) returns (r: Result<Opened, PackError>)
    requires |f| <= I64_MAX
    ensures r.Ok? <==> HeaderOk(f) && TableOffset(f) + 44 * HeaderCount(f) + FOOTER <= |f|
    ensures r.Ok? ==> r.value == Parsed(f)
  {
    if |f| < 14 {
      return Err(Io);
    }
    if f[..14] != MAGIC {
      return Err(BadMagic);
    }
    if |f| < 18 {
      return Err(Io);
    }
    if DecodeLE(f[14..18]) != VERSION {
      return Err(BadVersion);
    }
    if |f| < HEADER {
      return Err(Io);
    }
    var count, start := HeaderCount(f), TableOffset(f);
    if start > I64_MAX {
      return Err(Io);
    }
    var read := ReadEntries(f, start, count);
    if read.None? || start + 44 * count + FOOTER > |f| {
      return Err(Io);
    }
    return Ok(read.value);
  }

  /** The memory-mapped reader: the length is checked first, and the footer is not read. */
  method MmapOpen(f: Bytes) returns (r: Result<Opened, PackError>)
    ensures r.Ok? <==> HeaderOk(f) && (HeaderCount(f) == 0 || TableOffset(f) + 44 * HeaderCount(f) <= |f|)
    ensures r.Ok? && HeaderCount(f) > 0 ==> r.value == Parsed(f)
    ensures r.Ok? && HeaderCount(f) == 0 ==> r.value == Opened(map[], 0)
  {
    if |f| < HEADER {
      return Err(TooSmall);
    }
    if f[0..14] != MAGIC {
      return Err(BadMagic);
    }
    if DecodeLE(f[14..18]) != VERSION {
      return Err(BadVersion);
    }
    var read := ReadEntries(f, TableOffset(f), HeaderCount(f));
    if read.None? {
      return Err(TableOutside);
    }
    return Ok(read.value);
  }

  /** Where the table is when there is room for it before the last 32 bytes; and where the readers look when
      there is none, past the end of every file they can open. */
  lemma TableFits(f: Bytes)
    requires 26 <= |f| <= I64_MAX
    ensures var n := DecodeLE(f[18..26]);
      && (44 * n + 32 <= |f| <==> TableOffset(f) + 44 * n + 32 <= |f|)
      && (44 * n + 32 <= |f| ==> TableOffset(f) == |f| - 32 - 44 * n)
      && (n > 0 ==> (44 * n + 32 <= |f| <==> TableOffset(f) + 44 * n <= |f|))
  {
    var x := |f| - 32 - 44 * HeaderCount(f);
    if 0 <= x {
      NoWrap(x);
    } else {
      Wrapped(x);
    }
  }

  /** A negative number comes out above it by at least the whole width. */
  lemma Wrapped(x: int)
    requires x < 0
    ensures x % U64 >= x + U64
  {
    var q := x / U64;
    assert x == U64 * q + x % U64;
    assert q <= -1;
  }

  /** So, in numbers: the asynchronous reader opens a file exactly when it begins with the format's name and
      version 1 and is long enough for its table and footer; the memory-mapped one also without a table. */
  method OpensIff(f: Bytes) returns (direct: Result<Opened, PackError>, mapped: Result<Opened, PackError>)
    requires |f| <= I64_MAX
    ensures direct.Ok? <==> Begins(f) && 44 * DecodeLE(f[18..26]) + 32 <= |f|
    ensures mapped.Ok? <==> Begins(f) && (DecodeLE(f[18..26]) == 0 || 44 * DecodeLE(f[18..26]) + 32 <= |f|)
  {
    direct := Open(f);
    mapped := MmapOpen(f);
    if |f| >= 26 {
      TableFits(f);
    }
  }

  ghost predicate Begins(f: Bytes) {
    |f| >= 26 && f[..14] == [76, 65, 78, 68, 82, 79, 95, 80, 65, 67, 75, 95, 86, 49] && DecodeLE(f[14..18]) == 1
  }

  /** On which files the two readers agree: on every file but those of 26 to 31 bytes with a valid
      header and a zero count, which only the memory-mapped reader accepts. */
  lemma ReadersAgree(f: Bytes)
    requires |f| <= I64_MAX && HeaderOk(f)
    ensures TableOffset(f) + 44 * HeaderCount(f) + FOOTER <= |f|
      <==> (HeaderCount(f) == 0 || TableOffset(f) + 44 * HeaderCount(f) <= |f|) && |f| >= FOOTER
    ensures HeaderCount(f) == 0 && |f| >= FOOTER ==> Parsed(f) == Opened(map[], 0)
  {
    var x := |f| - FOOTER - 44 * HeaderCount(f);
    if 0 <= x {
      NoWrap(x);
    } else if -(U64 as int) <= x {
      assert x % U64 == x + U64 by {
        WrapOnce(x);
      }
    }
  }

  /** Such a file: a header with a zero count, and nothing else. */
  method ReadersDiffer() returns (f: Bytes, direct: Result<Opened, PackError>, mapped: Result<Opened, PackError>)
    ensures |f| == HEADER && direct.Err? && mapped == Ok(Opened(map[], 0))
  {
    f := MAGIC + [1, 0, 0, 0] + [0, 0, 0, 0, 0, 0, 0, 0];
    assert f[..14] == MAGIC && f[14..18] == [1, 0, 0, 0] && f[COUNT_AT..HEADER] == [0, 0, 0, 0, 0, 0, 0, 0];
    ghost var a, b := f[14..18], f[COUNT_AT..HEADER];
    ZerosDecode(a[1..]);
    ZerosDecode(b);
    direct := Open(f);
    mapped := MmapOpen(f);
  }

  lemma {:induction false} ZerosDecode(b: Bytes)
    requires forall i :: 0 <= i < |b| ==> b[i] == 0
    ensures DecodeLE(b) == 0
  {
    if b != [] {
      ZerosDecode(b[1..]);
    }
  }

  lemma NoWrap(x: nat)
    requires x < U64
    ensures x % U64 == x
  {
  }

  lemma WrapOnce(x: int)
    requires -(U64 as int) <= x < 0
    ensures x % U64 == x + U64
  {
  }

  /** The bytes an entry points at; none when it reaches past the end of the file. */
  function BytesAt(f: Bytes, e: PackEntry): Bytes {
    if e.offset + e.size <= |f| then f[e.offset..e.offset + e.size] else []
  }

  /** A digest is readable when its entry lies inside the file and its bytes hash to it. */
  ghost predicate ReadableIn(h: HashFn, f: Bytes, m: Index, d: Digest) {
    d in m && m[d].offset + m[d].size <= |f| && h(BytesAt(f, m[d])) == d
  }

  /** The asynchronous reader seeks, to anywhere a file position can be, and then reads: nothing at all
      for an entry of size zero, wherever it points. */
  ghost predicate ReadableDirect(h: HashFn, f: Bytes, m: Index, d: Digest) {
    && d in m && m[d].offset <= I64_MAX && (m[d].size == 0 || m[d].offset + m[d].size <= |f|)
    && h(BytesAt(f, m[d])) == d
  }

  /** The readers read alike but for entries of size zero past the end of the file, filed under the digest
      of nothing. */
  lemma ReadsAlike(h: HashFn, f: Bytes, m: Index, d: Digest)
    requires |f| <= I64_MAX
    ensures ReadableDirect(h, f, m, d)
      <==> ReadableIn(h, f, m, d) || (d in m && m[d].size == 0 && |f| < m[d].offset <= I64_MAX && h([]) == d)
  {
  }

  method ReadChunk(h: HashFn, f: Bytes, m: Index, d: Digest) returns (r: Result<Bytes, PackError>)
    ensures r.Ok? <==> ReadableDirect(h, f, m, d)
    ensures r.Ok? ==> r.value == BytesAt(f, m[d])
    ensures d !in m <==> r == Err(NotFound)
  {
    if d !in m {
      return Err(NotFound);
    }
    var e := m[d];
    if e.offset > I64_MAX || (e.size > 0 && e.offset + e.size > |f|) {
      return Err(Io);
    }
    var data := if e.size == 0 then [] else f[e.offset..e.offset + e.size];
    return if h(data) == d then Ok(data) else Err(HashMismatch);
  }

  method MmapReadChunk(h: HashFn, f: Bytes, m: Index, d: Digest) returns (r: Result<Bytes, PackError>)
    ensures r.Ok? <==> ReadableIn(h, f, m, d)
    ensures r.Ok? ==> r.value == BytesAt(f, m[d])
    ensures d !in m <==> r == Err(NotFound)
  {
    if d !in m {
      return Err(NotFound);
    }
    var start, end := m[d].offset, m[d].offset + m[d].size;
    if end > |f| {
      return Err(Corrupt);
    }
    var data := f[start..end];
    return if h(data) == d then Ok(data) else Err(HashMismatch);
  }

  // ---- Round trip ----

  lemma ParsesBack(e: PackEntry)
    requires |e.hash| == 32 && e.offset < U64 && e.size <= U32_MAX
    ensures |EntryBytes(e)| == ENTRY && ParseEntry(EntryBytes(e)) == e
  {
    Pow256Values();
    DecodeEncodeLE(e.offset, 8);
    DecodeEncodeLE(e.size, 4);
    var b := EntryBytes(e);
    assert b[..32] == e.hash && b[32..40] == EncodeLE(e.offset, 8) && b[40..44] == EncodeLE(e.size, 4);
  }

  lemma {:induction false} TableAt(es: seq<PackEntry>, i: nat)
    requires i < |es| && forall k :: 0 <= k < |es| ==> |es[k].hash| == 32
    ensures |Table(es)| == 44 * |es|
    ensures Table(es)[44 * i..44 * i + ENTRY] == EntryBytes(es[i])
    decreases |es|
  {
    var n := |es| - 1;
    var front := es[..n];
    if n > 0 {
      TableAt(front, if i < n then i else 0);
    }
    assert |Table(front)| == 44 * n;
    if i < n {
      assert Table(es)[44 * i..44 * i + ENTRY] == Table(front)[44 * i..44 * i + ENTRY];
    }
  }

  /** The entry names the chunk, and its bytes are where the entry says. */
  ghost predicate PointsAt(data: Bytes, e: PackEntry, c: PackChunk) {
    && e.hash == c.hash && e.size == |c.data| && HEADER <= e.offset && e.offset + e.size <= HEADER + |data|
    && data[e.offset - HEADER..e.offset - HEADER + e.size] == c.data
  }

  lemma PointsStill(data: Bytes, more: Bytes, e: PackEntry, c: PackChunk)
    requires PointsAt(data, e, c)
    ensures PointsAt(data + more, e, c)
  {
    var from, to := e.offset - HEADER, e.offset - HEADER + e.size;
    assert (data + more)[from..to] == data[from..to];
  }

  lemma PointsLast(data: Bytes, c: PackChunk)
    ensures PointsAt(data + c.data, PackEntry(c.hash, HEADER + |data|, |c.data|), c)
  {
  }

  /** Where each chunk's bytes are. */
  lemma {:induction false} EntryFacts(cs: seq<PackChunk>, i: nat)
    requires i < |cs|
    ensures PointsAt(Data(cs), EntriesOf(cs)[i], cs[i])
    decreases |cs|
  {
    var n := |cs| - 1;
    if i < n {
      EntryFacts(cs[..n], i);
      PointsStill(Data(cs[..n]), cs[n].data, EntriesOf(cs[..n])[i], cs[i]);
    } else {
      PointsLast(Data(cs[..n]), cs[n]);
    }
  }

  lemma SealedHeader(h: HashFn, cs: seq<PackChunk>)
    requires Packable(cs)
    ensures HeaderOk(PackBytes(h, cs)) && HeaderCount(PackBytes(h, cs)) == |cs|
  {
    SealedShape(Header(|cs|), Data(cs), Table(EntriesOf(cs)), h(Unsealed(cs)));
    HeaderReads(|cs|, Data(cs) + Table(EntriesOf(cs)) + h(Unsealed(cs)));
  }

  lemma HeaderReads(count: nat, rest: Bytes)
    requires count < U64
    ensures HeaderOk(Header(count) + rest) && HeaderCount(Header(count) + rest) == count
  {
    Pow256Values();
    DecodeEncodeLE(VERSION, 4);
    DecodeEncodeLE(count, 8);
    HeaderParts(count, rest);
  }

  lemma HeaderParts(count: nat, rest: Bytes)
    ensures var f := Header(count) + rest;
      f[..14] == MAGIC && f[14..18] == EncodeLE(VERSION, 4) && f[COUNT_AT..HEADER] == EncodeLE(count, 8)
  {
    var f := Header(count) + rest;
    assert f[..HEADER] == Header(count);
    assert f[..14] == Header(count)[..14];
    assert f[14..18] == Header(count)[14..18];
    assert f[COUNT_AT..HEADER] == Header(count)[COUNT_AT..];
  }

  lemma SliceMiddle(a: Bytes, b: Bytes, c: Bytes)
    ensures ((a + b) + c)[|a|..|a| + |b|] == b
  {
  }

  lemma LoneTable(f: Bytes, at: nat, e: PackEntry)
    requires at + ENTRY <= |f| && ParseEntry(f[at..at + ENTRY]) == e
    ensures Indexed(f, at, 1).entries == map[e.hash := e]
  {
    assert ParseTable(f, at, 1) == [e];
    assert IndexOf([e]) == IndexOf([])[e.hash := e];
  }

  lemma LoneHeader(entry: Bytes, footer: Bytes)
    requires |entry| == ENTRY && |footer| == FOOTER
    ensures var f := Header(1) + entry + footer;
      && |f| == HEADER + ENTRY + FOOTER && HeaderOk(f) && HeaderCount(f) == 1 && TableOffset(f) == HEADER
      && f[HEADER..HEADER + ENTRY] == entry
  {
    HeaderReads(1, entry + footer);
    assert Header(1) + entry + footer == Header(1) + (entry + footer);
    SliceMiddle(Header(1), entry, footer);
    NoWrap(HEADER);
  }

  /** A file of one entry and no data, with any footer. */
  lemma LoneEntry(e: PackEntry, footer: Bytes)
    requires |e.hash| == 32 && e.offset < U64 && e.size <= U32_MAX && |footer| == FOOTER
    ensures var f := Header(1) + EntryBytes(e) + footer;
      && |f| == HEADER + ENTRY + FOOTER && HeaderOk(f) && HeaderCount(f) == 1 && TableOffset(f) == HEADER
      && Parsed(f).entries == map[e.hash := e]
  {
    ParsesBack(e);
    LoneHeader(EntryBytes(e), footer);
    LoneTable(Header(1) + EntryBytes(e) + footer, HEADER, e);
  }

  /** Such a file on which the readers read differently: both open it, and find the entry of size zero that
      points past its end and is filed under the digest of nothing. One reads it as empty, one refuses it. */
  method EmptyEntryDiffers(h: HashFn, offset: nat)
    returns (f: Bytes, direct: Result<Bytes, PackError>, mapped: Result<Bytes, PackError>)
    requires |h([])| == 32 && HEADER + ENTRY + FOOTER < offset <= I64_MAX
    ensures |f| == HEADER + ENTRY + FOOTER && HeaderOk(f) && HeaderCount(f) == 1 && TableOffset(f) == HEADER
    ensures Parsed(f).entries == map[h([]) := PackEntry(h([]), offset, 0)]
    ensures direct == Ok([]) && mapped.Err?
  {
    var e := PackEntry(h([]), offset, 0);
    var footer := seq(FOOTER, _ => 0 as byte);
    f := Header(1) + EntryBytes(e) + footer;
    LoneEntry(e, footer);
    var one := Open(f);
    var other := MmapOpen(f);
    direct := ReadChunk(h, f, one.value.entries, h([]));
    mapped := MmapReadChunk(h, f, other.value.entries, h([]));
  }

  lemma EntriesFit(cs: seq<PackChunk>)
    requires Packable(cs)
    ensures forall i :: 0 <= i < |cs| ==>
      |EntriesOf(cs)[i].hash| == 32 && EntriesOf(cs)[i].offset < U64 && EntriesOf(cs)[i].size <= U32_MAX
    ensures |Table(EntriesOf(cs))| == 44 * |cs|
  {
    var es := EntriesOf(cs);
    forall i | 0 <= i < |cs|
      ensures |es[i].hash| == 32 && es[i].offset < U64 && es[i].size <= U32_MAX
    {
      EntryFacts(cs, i);
    }
    if cs != [] {
      TableAt(es, 0);
    }
  }

  lemma DataSlice(head: Bytes, data: Bytes, rest: Bytes, from: nat, to: nat)
    requires from <= to <= |data|
    ensures (head + data + rest)[|head| + from..|head| + to] == data[from..to]
  {
  }

  lemma {:induction false} SealedEntry(cs: seq<PackChunk>, before: Bytes, after: Bytes, i: nat)
    requires Packable(cs) && i < |cs|
    ensures |Table(EntriesOf(cs))| == 44 * |cs|
    ensures var f, at := before + Table(EntriesOf(cs)) + after, |before| + 44 * i;
      at + ENTRY <= |f| && ParseEntry(f[at..at + ENTRY]) == EntriesOf(cs)[i]
  {
    var es := EntriesOf(cs);
    EntriesFit(cs);
    TableAt(es, i);
    ParsesBack(es[i]);
    var f, at := before + Table(es) + after, |before| + 44 * i;
    DataSlice(before, Table(es), after, 44 * i, 44 * i + ENTRY);
  }

  lemma SealedOffset(h: HashFn, cs: seq<PackChunk>)
    requires Packable(cs) && |h(Unsealed(cs))| == FOOTER
    ensures var f := PackBytes(h, cs);
      && |f| == HEADER + |Data(cs)| + 44 * |cs| + FOOTER
      && HeaderOk(f) && HeaderCount(f) == |cs| && TableOffset(f) == HEADER + |Data(cs)|
  {
    SealedHeader(h, cs);
    EntriesFit(cs);
    var f := PackBytes(h, cs);
    assert |f| - FOOTER - 44 * HeaderCount(f) == HEADER + |Data(cs)|;
    NoWrap(HEADER + |Data(cs)|);
  }

  lemma SealedTable(h: HashFn, cs: seq<PackChunk>)
    requires Packable(cs) && |h(Unsealed(cs))| == FOOTER
    ensures var f := PackBytes(h, cs);
      && |f| == HEADER + |Data(cs)| + 44 * |cs| + FOOTER
      && ParseTable(f, HEADER + |Data(cs)|, |cs|) == EntriesOf(cs)
  {
    SealedOffset(h, cs);
    TableParses(cs, Header(|cs|) + Data(cs), h(Unsealed(cs)));
  }

  lemma TableParses(cs: seq<PackChunk>, before: Bytes, after: Bytes)
    requires Packable(cs)
    ensures |Table(EntriesOf(cs))| == 44 * |cs|
    ensures ParseTable(before + Table(EntriesOf(cs)) + after, |before|, |cs|) == EntriesOf(cs)
  {
    EntriesFit(cs);
    var f, es := before + Table(EntriesOf(cs)) + after, EntriesOf(cs);
    forall i | 0 <= i < |es|
      ensures EntryParses(f, |before| + 44 * i, es[i])
    {
      SealedEntry(cs, before, after, i);
    }
    AllParse(f, |before|, es);
  }

  ghost predicate EntryParses(f: Bytes, at: nat, e: PackEntry) {
    at + ENTRY <= |f| && ParseEntry(f[at..at + ENTRY]) == e
  }

  lemma AllParse(f: Bytes, at: nat, es: seq<PackEntry>)
    requires at + 44 * |es| <= |f| && forall i :: 0 <= i < |es| ==> EntryParses(f, at + 44 * i, es[i])
    ensures ParseTable(f, at, |es|) == es
  {
    forall i | 0 <= i < |es|
      ensures ParseTable(f, at, |es|)[i] == es[i]
    {
      assert EntryParses(f, at + 44 * i, es[i]);
    }
  }

  /** The sealed file byte by byte: the format's name, version 1 and the count; then the data. */
  lemma {:induction false} SealedStart(h: HashFn, cs: seq<PackChunk>)
    requires Packable(cs) && |h(Unsealed(cs))| == 32
    ensures var f, n := PackBytes(h, cs), |Data(cs)|;
      && |f| == 58 + n + 44 * |cs|
      && f[..14] == [76, 65, 78, 68, 82, 79, 95, 80, 65, 67, 75, 95, 86, 49] && f[14..18] == [1, 0, 0, 0]
      && f[18..26] == EncodeLE(|cs|, 8) && f[26..26 + n] == Data(cs)
  {
    var table, footer := Table(EntriesOf(cs)), h(Unsealed(cs));
    SealedOffset(h, cs);
    VersionBytes();
    SealedShape(Header(|cs|), Data(cs), table, footer);
    HeaderParts(|cs|, Data(cs) + table + footer);
    SealedData(h, cs, 0, |Data(cs)|);
  }

  /** And last, the hash of everything before it with a count of zero. */
  lemma {:induction false} SealedFooter(h: HashFn, cs: seq<PackChunk>)
    requires Packable(cs) && |h(Unsealed(cs))| == 32
    ensures var f := PackBytes(h, cs);
      |f| >= 58 && f[|f| - 32..] == h(f[..18] + EncodeLE(0, 8) + f[26..|f| - 32])
  {
    var body, footer := Data(cs) + Table(EntriesOf(cs)), h(Unsealed(cs));
    SealedOffset(h, cs);
    SealedShape(Header(|cs|), Data(cs), Table(EntriesOf(cs)), footer);
    assert Unsealed(cs) == Header(0) + body;
    FooterSlices(Prelude(), EncodeLE(|cs|, 8), EncodeLE(0, 8), body, footer);
  }

  lemma FooterSlices(a: Bytes, count: Bytes, zero: Bytes, body: Bytes, footer: Bytes)
    requires |a| == 18 && |count| == |zero| == 8 && |footer| == 32
    ensures var f := (a + count) + (body + footer);
      && f[..18] + zero + f[26..|f| - 32] == (a + zero) + body && f[|f| - 32..] == footer
  {
    var f := (a + count) + (body + footer);
    assert f[..18] == a && f[26..|f| - 32] == body;
  }

  lemma VersionBytes()
    ensures EncodeLE(VERSION, 4) == [1, 0, 0, 0]
  {
    assert EncodeLE(0, 1) == [0] + EncodeLE(0, 0);
    assert EncodeLE(0, 2) == [0] + EncodeLE(0, 1);
    assert EncodeLE(0, 3) == [0] + EncodeLE(0, 2);
  }

  /** Its table has an entry of 44 bytes for each chunk: the digest, where its bytes are, and how many. */
  lemma {:induction false} SealedEntryLayout(h: HashFn, cs: seq<PackChunk>, i: nat)
    requires Packable(cs) && |h(Unsealed(cs))| == 32 && i < |cs|
    ensures var f, at := PackBytes(h, cs), 26 + |Data(cs)| + 44 * i;
      at + 44 <= |f| - 32 && Describes(f, at, cs[i])
  {
    SealedOffset(h, cs);
    SealedAt(h, cs, i);
    SealedBytes(h, cs, i);
    EntryDescribes(PackBytes(h, cs), 26 + |Data(cs)| + 44 * i, EntriesOf(cs)[i], cs[i]);
  }

  lemma {:induction false} SealedAt(h: HashFn, cs: seq<PackChunk>, i: nat)
    requires Packable(cs) && i < |cs|
    ensures EntryParses(PackBytes(h, cs), 26 + |Data(cs)| + 44 * i, EntriesOf(cs)[i])
  {
    SealedEntry(cs, Header(|cs|) + Data(cs), h(Unsealed(cs)), i);
  }

  lemma {:induction false} SealedBytes(h: HashFn, cs: seq<PackChunk>, i: nat)
    requires i < |cs|
    ensures var f, e := PackBytes(h, cs), EntriesOf(cs)[i];
      && e.hash == cs[i].hash && e.size == |cs[i].data|
      && 26 <= e.offset && e.offset + e.size <= |f| && f[e.offset..e.offset + e.size] == cs[i].data
  {
    EntryFacts(cs, i);
    var e := EntriesOf(cs)[i];
    SealedData(h, cs, e.offset - 26, e.offset - 26 + e.size);
  }

  /** The 44 bytes at `at` name the chunk, and say where in the file its bytes are. */
  ghost predicate Describes(f: Bytes, at: nat, c: PackChunk)
    requires at + 44 <= |f|
  {
    var start, size := DecodeLE(f[at + 32..at + 40]), DecodeLE(f[at + 40..at + 44]);
    && f[at..at + 32] == c.hash && size == |c.data|
    && 26 <= start && start + size <= |f| && f[start..start + size] == c.data
  }

  lemma EntryDescribes(f: Bytes, at: nat, e: PackEntry, c: PackChunk)
    requires at + 44 <= |f| && ParseEntry(f[at..at + 44]) == e && e.hash == c.hash && e.size == |c.data|
    requires 26 <= e.offset && e.offset + e.size <= |f| && f[e.offset..e.offset + e.size] == c.data
    ensures Describes(f, at, c)
  {
    NestedSlice(f, at, at + 44, 0, 32);
    NestedSlice(f, at, at + 44, 32, 40);
    NestedSlice(f, at, at + 44, 40, 44);
  }

  lemma NestedSlice(f: Bytes, a: nat, b: nat, i: nat, j: nat)
    requires a <= b <= |f| && i <= j <= b - a
    ensures f[a..b][i..j] == f[a + i..a + j]
  {
    forall k | 0 <= k < j - i
      ensures f[a..b][i..j][k] == f[a + i..a + j][k]
    {
      assert f[a..b][i + k] == f[a + i + k];
    }
  }

  lemma SealedData(h: HashFn, cs: seq<PackChunk>, from: nat, to: nat)
    requires from <= to <= |Data(cs)|
    ensures 26 + to <= |PackBytes(h, cs)| && PackBytes(h, cs)[26 + from..26 + to] == Data(cs)[from..to]
  {
    var rest := Table(EntriesOf(cs)) + h(Unsealed(cs));
    assert PackBytes(h, cs) == Header(|cs|) + Data(cs) + rest;
    DataSlice(Header(|cs|), Data(cs), rest, from, to);
  }

  /** No later chunk has the digest of chunk `i`. */
  ghost predicate IsLast(cs: seq<PackChunk>, i: nat)
    requires i < |cs|
  {
    forall j :: i < j < |cs| ==> cs[j].hash != cs[i].hash
  }

  lemma IndexSnoc(cs: seq<PackChunk>, n: nat)
    requires n + 1 == |cs|
    ensures var e := EntriesOf(cs)[n];
      && e.hash == cs[n].hash && EntriesOf(cs) == EntriesOf(cs[..n]) + [e]
      && IndexOf(EntriesOf(cs)) == IndexOf(EntriesOf(cs[..n]))[cs[n].hash := e]
  {
    assert EntriesOf(cs)[..n] == EntriesOf(cs[..n]);
  }

  lemma {:induction false} LastEntry(es: seq<PackEntry>, i: nat)
    requires i < |es| && forall j :: i < j < |es| ==> es[j].hash != es[i].hash
    ensures es[i].hash in IndexOf(es) && IndexOf(es)[es[i].hash] == es[i]
    decreases |es|
  {
    var n := |es| - 1;
    if i < n {
      LastEntry(es[..n], i);
      assert es[n].hash != es[i].hash;
    }
  }

  lemma IndexedLast(cs: seq<PackChunk>, i: nat)
    requires i < |cs| && IsLast(cs, i)
    ensures var m := IndexOf(EntriesOf(cs)); cs[i].hash in m && m[cs[i].hash] == EntriesOf(cs)[i]
  {
    var es := EntriesOf(cs);
    forall j | i <= j < |cs|
      ensures es[j].hash == cs[j].hash
    {
      EntryFacts(cs, j);
    }
    LastEntry(es, i);
  }

  function Hashes(cs: seq<PackChunk>): (s: set<Digest>)
    ensures forall i :: 0 <= i < |cs| ==> cs[i].hash in s
    ensures forall d :: d in s ==> exists i :: 0 <= i < |cs| && cs[i].hash == d
  {
    if cs == [] then {}
    else
      var front := cs[..|cs| - 1];
      assert forall i :: 0 <= i < |cs| - 1 ==> cs[i] == front[i];
      assert cs[|cs| - 1].hash == cs[|cs| - 1].hash;
      Hashes(front) + {cs[|cs| - 1].hash}
  }

  lemma {:induction false} IndexedKeys(cs: seq<PackChunk>)
    ensures IndexOf(EntriesOf(cs)).Keys == Hashes(cs)
    ensures TotalSize(EntriesOf(cs)) == |Data(cs)|
  {
    if cs != [] {
      IndexedKeys(cs[..|cs| - 1]);
      IndexSnoc(cs, |cs| - 1);
    }
  }

  /** Both readers accept a sealed file, find exactly the digests packed into it, and the entry of a
      digest leads to the bytes of the last chunk packed under it. */
  lemma RoundTrip(h: HashFn, cs: seq<PackChunk>)
    requires Packable(cs) && |h(Unsealed(cs))| == FOOTER
    ensures var f := PackBytes(h, cs);
      && HeaderOk(f) && |f| <= I64_MAX && TableOffset(f) + 44 * HeaderCount(f) + FOOTER == |f|
      && Parsed(f) == Opened(IndexOf(EntriesOf(cs)), |Data(cs)|)
      && Parsed(f).entries.Keys == Hashes(cs)
  {
    SealedOffset(h, cs);
    SealedTable(h, cs);
    IndexedKeys(cs);
  }

  lemma Regroup(a: Bytes, b: Bytes, c: Bytes)
    ensures (a + b) + c == a + (b + c)
  {
  }

  /** The entry of the chunk's digest leads to the chunk's bytes. */
  ghost predicate LeadsTo(f: Bytes, m: Index, c: PackChunk) {
    c.hash in m && m[c.hash].offset + m[c.hash].size <= |f|
    && BytesAt(f, m[c.hash]) == c.data
  }

  lemma {:induction false} PackSlice(h: HashFn, cs: seq<PackChunk>, i: nat)
    requires Packable(cs) && i < |cs|
    ensures var f, e := PackBytes(h, cs), EntriesOf(cs)[i];
      e.offset + e.size <= |f| && f[e.offset..e.offset + e.size] == cs[i].data && e.hash == cs[i].hash
  {
    EntryFacts(cs, i);
    var e := EntriesOf(cs)[i];
    var from := e.offset - HEADER;
    var rest := Table(EntriesOf(cs)) + h(Unsealed(cs));
    DataSlice(Header(|cs|), Data(cs), rest, from, from + e.size);
    Regroup(Header(|cs|) + Data(cs), Table(EntriesOf(cs)), h(Unsealed(cs)));
  }

  lemma {:induction false} ReadsLast(h: HashFn, cs: seq<PackChunk>, i: nat)
    requires Packable(cs) && i < |cs| && IsLast(cs, i)
    ensures LeadsTo(PackBytes(h, cs), IndexOf(EntriesOf(cs)), cs[i])
  {
    IndexedLast(cs, i);
    PackSlice(h, cs, i);
  }

  /** The index has exactly the packed digests, each leading to the chunk packed last under it. */
  ghost predicate Faithful(f: Bytes, m: Index, cs: seq<PackChunk>) {
    |f| <= I64_MAX && m.Keys == Hashes(cs) && forall i :: 0 <= i < |cs| && IsLast(cs, i) ==> LeadsTo(f, m, cs[i])
  }

  lemma AllLead(h: HashFn, cs: seq<PackChunk>)
    requires Packable(cs) && |h(Unsealed(cs))| == FOOTER
    ensures Faithful(PackBytes(h, cs), IndexOf(EntriesOf(cs)), cs)
  {
    IndexedKeys(cs);
    SealedOffset(h, cs);
    forall i | 0 <= i < |cs| && IsLast(cs, i)
      ensures LeadsTo(PackBytes(h, cs), IndexOf(EntriesOf(cs)), cs[i])
    {
      ReadsLast(h, cs, i);
    }
  }

  method WriteChunks(h: HashFn, cs: seq<PackChunk>) returns (w: PackfileWriter)
    requires forall i :: 0 <= i < |cs| ==> |cs[i].data| <= U32_MAX
    ensures fresh(w) && w.Valid() && w.h == h && w.chunks == cs
  {
    w := new PackfileWriter(h);
    var k := 0;
    while k < |cs|
      invariant k <= |cs| && fresh(w) && w.Valid() && w.h == h && w.chunks == cs[..k]
    {
      var _ := w.AddChunk(cs[k].hash, cs[k].data);
      TakeSnoc(cs, k);
      k := k + 1;
    }
    assert cs[..k] == cs;
  }

  /** A digest read from a sealed file: not found when it was never packed, and the bytes of the last
      chunk packed under it when they do hash to it. */
  ghost predicate ReadsAsPacked(h: HashFn, cs: seq<PackChunk>, d: Digest, r: Result<Bytes, PackError>) {
    && (d !in Hashes(cs) <==> r == Err(NotFound))
    && forall i :: 0 <= i < |cs| && IsLast(cs, i) && cs[i].hash == d ==>
         (if h(cs[i].data) == d then r == Ok(cs[i].data) else r.Err?)
  }

  /** In a sealed file no entry reaches past the end, so the two readers read alike. */
  lemma SealedAlike(h: HashFn, f: Bytes, m: Index, cs: seq<PackChunk>, d: Digest)
    requires Faithful(f, m, cs)
    ensures ReadableDirect(h, f, m, d) <==> ReadableIn(h, f, m, d)
  {
    ReadsAlike(h, f, m, d);
    if d in m {
      var i := LastOf(cs, d);
      assert LeadsTo(f, m, cs[i]);
    }
  }

  lemma ReadsFollow(h: HashFn, f: Bytes, m: Index, cs: seq<PackChunk>, d: Digest, r: Result<Bytes, PackError>)
    requires Faithful(f, m, cs)
    requires r.Ok? <==> ReadableIn(h, f, m, d)
    requires r.Ok? ==> r.value == BytesAt(f, m[d])
    requires d !in m <==> r == Err(NotFound)
    ensures ReadsAsPacked(h, cs, d, r)
  {
    forall i | 0 <= i < |cs| && IsLast(cs, i) && cs[i].hash == d
      ensures if h(cs[i].data) == d then r == Ok(cs[i].data) else r.Err?
    {
      assert LeadsTo(f, m, cs[i]);
    }
  }

  lemma {:induction false} LastOf(cs: seq<PackChunk>, d: Digest) returns (i: nat)
    requires d in Hashes(cs)
    ensures i < |cs| && cs[i].hash == d && IsLast(cs, i)
  {
    i := |cs| - 1;
    if cs[i].hash != d {
      var front := cs[..i];
      i := LastOf(front, d);
      assert front[i] == cs[i];
    }
  }

  /** Seal a packfile and open it, as the end of writing does. */
  method SealFile(w: PackfileWriter) returns (f: Bytes, o: Opened)
    requires w.Valid() && Packable(w.chunks) && |w.h(Unsealed(w.chunks))| == FOOTER
    modifies w
    ensures f == PackBytes(w.h, w.chunks) && w.chunks == old(w.chunks)
    ensures Faithful(f, o.entries, w.chunks) && o.totalSize == |Data(w.chunks)|
  {
    w.Finalize();
    f := w.file;
    RoundTrip(w.h, w.chunks);
    AllLead(w.h, w.chunks);
    var r := Open(f);
    o := r.value;
  }

  /** Write any chunks, seal, and open with both readers: they agree, and what they found is faithful. */
  method SealAndOpen(h: HashFn, cs: seq<PackChunk>)
    returns (f: Bytes, direct: Result<Opened, PackError>, mapped: Result<Opened, PackError>)
    requires Packable(cs) && |h(Unsealed(cs))| == FOOTER
    ensures f == PackBytes(h, cs)
    ensures direct.Ok? && mapped == direct && direct.value.totalSize == |Data(cs)|
    ensures Faithful(f, direct.value.entries, cs)
  {
    var w := WriteChunks(h, cs);
    var o;
    f, o := SealFile(w);
    RoundTrip(h, cs);
    ReadersAgree(f);
    direct := Open(f);
    mapped := MmapOpen(f);
    AllLead(h, cs);
  }

  /** And read any digest with both: they agree with each other and with what was packed. */
  method ReadSealed(h: HashFn, cs: seq<PackChunk>, d: Digest)
    returns (read: Result<Bytes, PackError>, readMapped: Result<Bytes, PackError>)
    requires Packable(cs) && |h(Unsealed(cs))| == FOOTER
    ensures ReadsAsPacked(h, cs, d, read) && ReadsAsPacked(h, cs, d, readMapped)
  {
    var f, direct, mapped := SealAndOpen(h, cs);
    var m := direct.value.entries;
    read := ReadChunk(h, f, m, d);
    readMapped := MmapReadChunk(h, f, mapped.value.entries, d);
    SealedAlike(h, f, m, cs, d);
    ReadsFollow(h, f, m, cs, d, read);
    ReadsFollow(h, f, m, cs, d, readMapped);
  }
}
