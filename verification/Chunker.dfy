/** Content-defined chunking with a gear rolling hash. */
module Chunkers {
  import opened Common

  const WINDOW: nat := 48

  /** The absolute limits of `validate`. */
  const MIN_CHUNK_SIZE: nat := 256
  const MAX_CHUNK_SIZE: nat := 16 * 1024 * 1024

  datatype Config = Config(minSize: nat, avgSize: nat, maxSize: nat, maskBits: nat) {
    predicate Valid() {
      && minSize < avgSize < maxSize
      && MIN_CHUNK_SIZE <= minSize
      && maxSize <= MAX_CHUNK_SIZE
      && 1 <= maskBits <= 32
    }
  }

  datatype Chunk = Chunk(data: Bytes, hash: Digest, offset: nat)

  function Min(a: nat, b: nat): nat {
    if a < b then a else b
  }

  /** One byte, by its gear, enters the hash. */
  function Push(hash: bv64, gear: bv64): bv64 {
    hash.RotateLeft(1) + gear
  }

  /** The source's removal of the byte that leaves the window; addition and subtraction wrap. */
  function Drop(hash: bv64, gear: bv64): bv64 {
    hash - gear.RotateLeft(48)
  }

  predicate Masked(hash: bv64, mask: bv64) {
    hash & mask == 0
  }

  /** One byte in and the byte of 48 before out; and what is looked at are the bits of the mask. */
  lemma Rotates(hash: bv64, enters: bv64, leaves: bv64, mask: bv64)
    ensures Push(hash, enters) == hash.RotateLeft(1) + enters
    ensures Drop(hash, leaves) == hash - leaves.RotateLeft(48)
    ensures Masked(hash, mask) <==> hash & mask == 0
  {
  }

  datatype ConfigError = SizesOutOfOrder | MinTooSmall | MaxTooLarge | BadMaskBits

  /** `Chunker::new`: the configuration is checked, and the mask covers its low bits. */
  method NewChunker(config: Config, gear: seq<bv64>) returns (r: Result<Chunker, ConfigError>)
    requires |gear| == 256
    ensures r.Ok? <==>
      && config.minSize < config.avgSize < config.maxSize && 256 <= config.minSize && config.maxSize <= 16777216
      && 1 <= config.maskBits <= 32
    ensures r.Ok? ==> r.value.Valid() && r.value.config == config && r.value.gear == gear
    ensures r.Ok? ==> r.value.mask == (1 << config.maskBits) - 1
  {
    if config.minSize >= config.avgSize || config.avgSize >= config.maxSize {
      return Err(SizesOutOfOrder);
    }
    if config.minSize < MIN_CHUNK_SIZE {
      return Err(MinTooSmall);
    }
    if config.maxSize > MAX_CHUNK_SIZE {
      return Err(MaxTooLarge);
    }
    if config.maskBits == 0 || config.maskBits > 32 {
      return Err(BadMaskBits);
    }
    return Ok(Chunker(config, (1 << config.maskBits) - 1, gear));
  }

  /** The gear table is arbitrary: nothing below depends on its entries. */
  datatype Chunker = Chunker(config: Config, mask: bv64, gear: seq<bv64>) {
    ghost predicate Valid() {
      config.Valid() && |gear| == 256
    }

    /** The rolling hash after `n` bytes scanned from `start`. */
    function Rolling(data: Bytes, start: nat, n: nat): bv64
      requires Valid() && start + n <= |data|
    {
      if n == 0 then 0
      else
        var before := Rolling(data, start, n - 1);
        var kept := if n <= WINDOW then before else Drop(before, gear[data[start + n - 1 - WINDOW]]);
        Push(kept, gear[data[start + n - 1]])
    }

    /** The scan started at `start` accepts a cut right after position `pos`. */
    predicate Hit(data: Bytes, start: nat, pos: nat)
      requires Valid() && start <= pos < |data|
    {
      start + WINDOW <= pos && Masked(Rolling(data, start, pos + 1 - start), mask)
    }

    /** Where the scan from `start` cuts: after its first hit before `limit`, or at `limit`. */
    ghost predicate IsBoundary(data: Bytes, start: nat, limit: nat, cut: nat)
      requires Valid() && start <= limit <= |data|
    {
      && start <= cut <= limit
      && (forall pos :: start <= pos < cut - 1 ==> !Hit(data, start, pos))
      && (cut < limit ==> start < cut && Hit(data, start, cut - 1))
    }

    method FindChunkBoundary(data: Bytes, start: nat, maxPos: nat) returns (cut: nat)
      requires Valid() && start <= |data| && start <= maxPos
      ensures IsBoundary(data, start, Min(maxPos, |data|), cut)
    {
      var limit := Min(maxPos, |data|);
      if start >= |data| || start >= maxPos {
        return limit;
      }
      if start + WINDOW > |data| || start + WINDOW > maxPos {
        return limit;
      }
      var hash: bv64 := 0;
      for i := 0 to WINDOW
        invariant hash == Rolling(data, start, i)
      {
        hash := Push(hash, gear[data[start + i]]);
      }
      for pos := start + WINDOW to limit
        invariant hash == Rolling(data, start, pos - start)
        invariant forall q :: start <= q < pos ==> !Hit(data, start, q)
      {
        hash := Push(Drop(hash, gear[data[pos - WINDOW]]), gear[data[pos]]);
        if Masked(hash, mask) {
          return pos + 1;
        }
      }
      return limit;
    }

    // ---- The cut points as a function of the data ----

    function ScanFrom(data: Bytes, start: nat, pos: nat, limit: nat): (cut: nat)
      requires Valid() && start <= pos <= limit <= |data|
      ensures pos <= cut <= limit
      ensures forall q :: pos <= q < cut - 1 ==> !Hit(data, start, q)
      ensures cut < limit ==> pos < cut && Hit(data, start, cut - 1)
      decreases limit - pos
    {
      if pos == limit then limit
      else if Hit(data, start, pos) then pos + 1
      else ScanFrom(data, start, pos + 1, limit)
    }

    lemma BoundaryUnique(data: Bytes, start: nat, limit: nat, cut: nat)
      requires Valid() && start <= limit <= |data| && IsBoundary(data, start, limit, cut)
      ensures cut == ScanFrom(data, start, start, limit)
    {
    }

    /** The end of the chunk that starts at `start`. */
    function NextCut(data: Bytes, start: nat): (cut: nat)
      requires Valid() && start < |data|
      ensures start < cut <= |data|
    {
      var remaining := |data| - start;
      if remaining <= config.minSize then |data|
      else ScanFrom(data, start + config.minSize, start + config.minSize, Min(start + config.maxSize, |data|))
    }

    /** All chunks from `start` on. */
    function ChunksFrom(h: HashFn, data: Bytes, start: nat): seq<Chunk>
      requires Valid() && start <= |data|
      decreases |data| - start
    {
      if start == |data| then []
      else
        var cut := NextCut(data, start);
        [Chunk(data[start..cut], h(data[start..cut]), start)] + ChunksFrom(h, data, cut)
    }

    /** The body the two chunking loops share: decide where the chunk at `start` ends. */
    method CutAt(data: Bytes, start: nat) returns (end: nat)
      requires Valid() && start < |data|
      ensures end == NextCut(data, start)
    {
      var remaining := |data| - start;
      end := start + Min(config.minSize, remaining);
      if end < |data| && remaining > config.minSize {
        var maxScan := Min(start + config.maxSize, |data|);
        ghost var scanFrom := end;
        end := FindChunkBoundary(data, end, maxScan);
        BoundaryUnique(data, scanFrom, maxScan, end);
      }
    }

    lemma ChunksStep(h: HashFn, data: Bytes, done: seq<Chunk>, start: nat)
      requires Valid() && start < |data|
      ensures var cut := NextCut(data, start);
        (done + [Chunk(data[start..cut], h(data[start..cut]), start)]) + ChunksFrom(h, data, cut)
        == done + ChunksFrom(h, data, start)
    {
    }

    method ChunkBytes(h: HashFn, data: Bytes) returns (chunks: seq<Chunk>)
      requires Valid()
      ensures chunks == ChunksFrom(h, data, 0)
    {
      chunks := [];
      var offset := 0;
      while offset < |data|
        invariant offset <= |data|
        invariant chunks + ChunksFrom(h, data, offset) == ChunksFrom(h, data, 0)
        decreases |data| - offset
      {
        var end := CutAt(data, offset);
        ChunksStep(h, data, chunks, offset);
        chunks := chunks + [Chunk(data[offset..end], h(data[offset..end]), offset)];
        offset := end;
      }
    }

    /** Chunk a stream: collect every read up to the end of the stream, then chunk the buffer. */
    method ChunkStream(h: HashFn, parts: seq<Bytes>) returns (chunks: seq<Chunk>)
      requires Valid()
      ensures chunks == ChunksFrom(h, Delivered(parts), 0)
    {
      var buffer: Bytes := [];
      var rest := parts;
      while rest != [] && rest[0] != []
        invariant buffer + Delivered(rest) == Delivered(parts)
        decreases |rest|
      {
        assert (buffer + rest[0]) + Delivered(rest[1..]) == buffer + Delivered(rest);
        buffer := buffer + rest[0];
        rest := rest[1..];
      }
      assert buffer + Delivered(rest) == buffer;
      chunks := [];
      if buffer == [] {
        return;
      }
      var offset := 0;
      while offset < |buffer|
        invariant offset <= |buffer|
        invariant chunks + ChunksFrom(h, buffer, offset) == ChunksFrom(h, buffer, 0)
        decreases |buffer| - offset
      {
        var end := CutAt(buffer, offset);
        ChunksStep(h, buffer, chunks, offset);
        chunks := chunks + [Chunk(buffer[offset..end], h(buffer[offset..end]), offset)];
        offset := end;
      }
    }

    // ---- What the chunks are ----

    /** Each chunk holds the bytes from its offset to the cut the scan finds there, and the list goes on
        exactly as if chunking had started at the next chunk. */
    lemma {:induction false} ChunkAt(h: HashFn, data: Bytes, start: nat, k: nat)
      requires Valid() && start <= |data| && k < |ChunksFrom(h, data, start)|
      ensures var cs := ChunksFrom(h, data, start);
        var s := cs[k].offset;
        && start <= s < |data|
        && cs[k] == Chunk(data[s..NextCut(data, s)], h(data[s..NextCut(data, s)]), s)
        && (k == 0 ==> s == start)
        && cs[k + 1..] == ChunksFrom(h, data, NextCut(data, s))
        && (if k + 1 < |cs| then cs[k + 1].offset == NextCut(data, s) else NextCut(data, s) == |data|)
      decreases k
    {
      ChunkFirst(h, data, start);
      if k > 0 {
        var cut := NextCut(data, start);
        var cs, rest := ChunksFrom(h, data, start), ChunksFrom(h, data, cut);
        ChunkAt(h, data, cut, k - 1);
        assert cs[k] == rest[k - 1] && cs[k + 1..] == rest[k..];
      }
    }

    lemma ChunkFirst(h: HashFn, data: Bytes, start: nat)
      requires Valid() && start < |data|
      ensures var cs, cut := ChunksFrom(h, data, start), NextCut(data, start);
        && start < cut <= |data|
          && cs == [Chunk(data[start..cut], h(data[start..cut]), start)] + ChunksFrom(h, data, cut)
        && cs[1..] == ChunksFrom(h, data, cut)
        && (if cut < |data| then |cs| > 1 && cs[1].offset == cut else |cs| == 1)
    {
    }

    /** Partition: the chunks together are the data, each hashed on its own bytes. */
    lemma {:induction false} Partition(h: HashFn, data: Bytes, start: nat)
      requires Valid() && start <= |data|
      ensures Flatten(Datas(ChunksFrom(h, data, start))) == data[start..]
      decreases |data| - start
    {
      if start < |data| {
        var cut := NextCut(data, start);
        Partition(h, data, cut);
        var cs, rest := ChunksFrom(h, data, start), ChunksFrom(h, data, cut);
        assert Datas(cs)[1..] == Datas(rest) && Datas(cs)[0] == data[start..cut];
        assert data[start..cut] + data[cut..] == data[start..];
      }
    }

    /** Chunk `i` starts where the one before it ended, ends where the next one starts, and carries the
        hash of its own bytes. */
    ghost predicate WellPlaced(h: HashFn, data: Bytes, cs: seq<Chunk>, i: nat)
      requires i < |cs|
    {
      && cs[i].data != [] && cs[i].hash == h(cs[i].data)
      && cs[i].offset + |cs[i].data| == (if i + 1 < |cs| then cs[i + 1].offset else |data|)
      && (i == 0 ==> cs[i].offset == 0)
    }

    lemma Contiguous(h: HashFn, data: Bytes)
      requires Valid()
      ensures forall i :: 0 <= i < |ChunksFrom(h, data, 0)| ==> WellPlaced(h, data, ChunksFrom(h, data, 0), i)
    {
      var cs := ChunksFrom(h, data, 0);
      forall i | 0 <= i < |cs|
        ensures WellPlaced(h, data, cs, i)
      {
        ChunkAt(h, data, 0, i);
      }
    }

    /** The least length of a chunk that is not the last one. */
    function LeastLength(): nat {
      Min(config.minSize + WINDOW + 1, config.maxSize)
    }

    /** Why a chunk that is not the last one ends where it does: it is exactly `maxSize` long, or it is
        at least `minSize` plus a window plus one and the masked hash at its cut is zero. */
    ghost predicate CutJustified(data: Bytes, start: nat, cut: nat)
      requires Valid() && start < cut <= |data|
    {
      var from := start + config.minSize;
      cut == start + config.maxSize || (from + WINDOW < cut <= start + config.maxSize && Hit(data, from, cut - 1))
    }

    lemma CutBounds(data: Bytes, start: nat)
      requires Valid() && start < |data|
      ensures var cut := NextCut(data, start);
        && cut - start <= config.maxSize
        && (cut < |data| ==> CutJustified(data, start, cut) && LeastLength() <= cut - start)
    {
    }

    /** Chunk `i` is at most `maxSize` long; when another one follows, its end is justified and it has
        at least the least length. */
    ghost predicate WellSized(data: Bytes, cs: seq<Chunk>, i: nat)
      requires Valid() && i < |cs|
    {
      && |cs[i].data| <= config.maxSize
      && (i + 1 < |cs| ==>
            && LeastLength() <= |cs[i].data|
            && 0 < |cs[i].data| <= |data| - cs[i].offset
            && CutJustified(data, cs[i].offset, cs[i].offset + |cs[i].data|))
    }

    lemma ChunkLengths(h: HashFn, data: Bytes)
      requires Valid()
      ensures forall i :: 0 <= i < |ChunksFrom(h, data, 0)| ==> WellSized(data, ChunksFrom(h, data, 0), i)
    {
      var cs := ChunksFrom(h, data, 0);
      forall i | 0 <= i < |cs|
        ensures WellSized(data, cs, i)
      {
        ChunkSized(h, data, i);
      }
    }

    lemma ChunkSized(h: HashFn, data: Bytes, i: nat)
      requires Valid() && i < |ChunksFrom(h, data, 0)|
      ensures WellSized(data, ChunksFrom(h, data, 0), i)
    {
      var cs := ChunksFrom(h, data, 0);
      ChunkAt(h, data, 0, i);
      var s, cut := cs[i].offset, NextCut(data, cs[i].offset);
      CutBounds(data, s);
      assert |cs[i].data| == cut - s;
      if i + 1 < |cs| {
        NextFollows(h, data, i);
      }
    }

    lemma NextFollows(h: HashFn, data: Bytes, i: nat)
      requires Valid() && i + 1 < |ChunksFrom(h, data, 0)|
      ensures ChunksFrom(h, data, 0)[i].offset < |data| && NextCut(data, ChunksFrom(h, data, 0)[i].offset) < |data|
    {
      ChunkAt(h, data, 0, i);
      ChunkAt(h, data, 0, i + 1);
    }

    /** The number of chunks, bounded from both sides. */
    lemma {:induction false} ChunkCount(h: HashFn, data: Bytes, start: nat)
      requires Valid() && start <= |data|
      ensures var n := |ChunksFrom(h, data, start)|;
        && |data| - start <= n * config.maxSize
        && (n > 0 ==> (n - 1) * LeastLength() < |data| - start)
      decreases |data| - start
    {
      if start < |data| {
        var cut := NextCut(data, start);
        CutBounds(data, start);
        ChunkCount(h, data, cut);
        CountStep(|ChunksFrom(h, data, cut)|, config.maxSize, LeastLength());
      }
    }

    static lemma CountStep(n: nat, most: nat, least: nat)
      ensures (n + 1) * most == n * most + most
      ensures n * least == (n - 1) * least + least
    {
    }

    // ---- Locality: chunking only looks forward ----

    static lemma SliceAt(a: Bytes, b: Bytes, i: nat, j: nat, n: nat, k: nat)
      requires i + n <= |a| && j + n <= |b| && a[i..i + n] == b[j..j + n] && k < n
      ensures a[i + k] == b[j + k]
    {
      assert a[i + k] == a[i..i + n][k] && b[j + k] == b[j..j + n][k];
    }

    lemma {:induction false} RollingShift(a: Bytes, b: Bytes, i: nat, j: nat, n: nat)
      requires Valid() && i + n <= |a| && j + n <= |b| && a[i..i + n] == b[j..j + n]
      ensures Rolling(a, i, n) == Rolling(b, j, n)
      decreases n
    {
      if n > 0 {
        SliceAt(a, b, i, j, n, n - 1);
        if n > WINDOW {
          SliceAt(a, b, i, j, n, n - 1 - WINDOW);
        }
        assert a[i..i + n - 1] == a[i..i + n][..n - 1] && b[j..j + n - 1] == b[j..j + n][..n - 1];
        RollingShift(a, b, i, j, n - 1);
        if n > WINDOW {
          RollingLong(a, i, n);
          RollingLong(b, j, n);
        } else {
          RollingShort(a, i, n);
          RollingShort(b, j, n);
        }
      }
    }

    /** The hash of the first bytes rotates and adds; past the window the oldest byte is taken back first. */
    lemma RollingShort(a: Bytes, i: nat, n: nat)
      requires Valid() && 0 < n <= WINDOW && i + n <= |a|
      ensures Rolling(a, i, n) == Push(Rolling(a, i, n - 1), gear[a[i + n - 1]])
    {
    }

    lemma RollingLong(a: Bytes, i: nat, n: nat)
      requires Valid() && WINDOW < n && i + n <= |a|
      ensures Rolling(a, i, n)
        == Push(Drop(Rolling(a, i, n - 1), gear[a[i + n - 1 - 48]]), gear[a[i + n - 1]])
    {
    }

    /** A cut is accepted where 48 bytes have been scanned and the masked bits of the hash are zero. */
    lemma HitMeans(data: Bytes, start: nat, pos: nat)
      requires Valid() && start <= pos < |data|
      ensures Hit(data, start, pos) <==> pos >= start + 48 && Masked(Rolling(data, start, pos + 1 - start), mask)
    {
    }

    lemma HitShift(a: Bytes, b: Bytes, i: nat, j: nat, n: nat)
      requires Valid() && i + n < |a| && j + n < |b| && a[i..i + n + 1] == b[j..j + n + 1]
      ensures Hit(a, i, i + n) == Hit(b, j, j + n)
    {
      RollingShift(a, b, i, j, n + 1);
    }

    /** Two scans over the same bytes stop at the same distance. */
    lemma {:induction false} ScanShift(a: Bytes, b: Bytes, i: nat, j: nat, n: nat, len: nat)
      requires Valid() && n <= len && i + len <= |a| && j + len <= |b| && a[i..i + len] == b[j..j + len]
      ensures ScanFrom(a, i, i + n, i + len) - i == ScanFrom(b, j, j + n, j + len) - j
      decreases len - n
    {
      if n < len {
        assert a[i..i + n + 1] == a[i..i + len][..n + 1] && b[j..j + n + 1] == b[j..j + len][..n + 1];
        HitShift(a, b, i, j, n);
        ScanShift(a, b, i, j, n + 1, len);
      }
    }

    static lemma SliceOfDrop(s: Bytes, i: nat, from: nat, to: nat)
      requires i <= |s| && from <= to <= |s| - i
      ensures s[i..][from..to] == s[i + from..i + to] && s[i..][to..] == s[i + to..]
    {
    }

    static lemma SubSlice(a: Bytes, b: Bytes, i: nat, j: nat, from: nat, to: nat)
      requires i <= |a| && j <= |b| && a[i..] == b[j..] && from <= to <= |a| - i
      ensures |a| - i == |b| - j
      ensures a[i + from..i + to] == b[j + from..j + to]
      ensures a[i + to..] == b[j + to..]
    {
      assert |a[i..]| == |b[j..]|;
      SliceOfDrop(a, i, from, to);
      SliceOfDrop(b, j, from, to);
    }

    lemma ScanShiftDrop(a: Bytes, b: Bytes, i: nat, j: nat, from: nat, to: nat)
      requires Valid() && i <= |a| && j <= |b| && a[i..] == b[j..] && from <= to <= |a| - i
      ensures |a| - i == |b| - j
      ensures ScanFrom(a, i + from, i + from, i + to) - i == ScanFrom(b, j + from, j + from, j + to) - j
    {
      SubSlice(a, b, i, j, from, to);
      ScanShift(a, b, i + from, j + from, 0, to - from);
    }

    lemma NextCutScans(data: Bytes, i: nat, to: nat)
      requires Valid() && i < |data| && |data| - i > config.minSize && to == Min(config.maxSize, |data| - i)
      ensures NextCut(data, i) == ScanFrom(data, i + config.minSize, i + config.minSize, i + to)
    {
    }

    lemma NextCutShift(a: Bytes, b: Bytes, i: nat, j: nat)
      requires Valid() && i < |a| && j < |b| && a[i..] == b[j..]
      ensures NextCut(a, i) - i == NextCut(b, j) - j
    {
      assert |a[i..]| == |b[j..]|;
      if |a| - i > config.minSize {
        var to := Min(config.maxSize, |a| - i);
        NextCutScans(a, i, to);
        NextCutScans(b, j, to);
        ScanShiftDrop(a, b, i, j, config.minSize, to);
      }
    }

    /** Edit locality, forwards: inputs that agree from a boundary of both have the same chunks from
        there on, with the same hashes, shifted by the distance of the two boundaries. */
    lemma {:induction false} SuffixLocality(h: HashFn, a: Bytes, i: nat, b: Bytes, j: nat)
      requires Valid() && i <= |a| && j <= |b| && a[i..] == b[j..]
      ensures Moved(ChunksFrom(h, a, i), ChunksFrom(h, b, j), j - i)
      decreases |a| - i
    {
      assert |a[i..]| == |b[j..]|;
      if i < |a| {
        NextCutShift(a, b, i, j);
        var c, d := NextCut(a, i), NextCut(b, j);
        SubSlice(a, b, i, j, 0, c - i);
        SuffixLocality(h, a, c, b, d);
        MovedCons(ChunksFrom(h, a, i), ChunksFrom(h, b, j), j - i);
      }
    }

    /** The chunks from a boundary on are the chunks of the remaining bytes on their own. */
    lemma ChunksOfRest(h: HashFn, data: Bytes, e: nat)
      requires Valid() && e <= |data|
      ensures Moved(ChunksFrom(h, data[e..], 0), ChunksFrom(h, data, e), e)
    {
      assert data[e..][0..] == data[e..];
      SuffixLocality(h, data[e..], 0, data, e);
    }

    lemma HitPrefix(a: Bytes, b: Bytes, from: nat, pos: nat, p: nat)
      requires Valid() && from <= pos < p <= |a| && p <= |b| && a[..p] == b[..p]
      ensures Hit(a, from, pos) == Hit(b, from, pos)
    {
      assert a[from..pos + 1] == a[..p][from..pos + 1] && b[from..pos + 1] == b[..p][from..pos + 1];
      HitShift(a, b, from, from, pos - from);
    }

    lemma HitsPrefix(a: Bytes, b: Bytes, from: nat, cut: nat, p: nat)
      requires Valid() && from <= cut <= p <= |a| && p <= |b| && a[..p] == b[..p]
      ensures forall pos :: from <= pos < cut ==> Hit(a, from, pos) == Hit(b, from, pos)
    {
      forall pos | from <= pos < cut
        ensures Hit(a, from, pos) == Hit(b, from, pos)
      {
        HitPrefix(a, b, from, pos, p);
      }
    }

    lemma NextCutPrefix(a: Bytes, b: Bytes, start: nat, p: nat)
      requires Valid() && p <= |a| && p <= |b| && a[..p] == b[..p] && start < |a|
      requires NextCut(a, start) < |a| && NextCut(a, start) <= p
      ensures NextCut(b, start) == NextCut(a, start)
    {
      var cut, from := NextCut(a, start), start + config.minSize;
      var limit, limit' := Min(config.maxSize, |a| - start), Min(config.maxSize, |b| - start);
      CutBounds(a, start);
      BoundaryOf(a, start, limit);
      HitsPrefix(a, b, from, cut, p);
      SameBoundary(a, b, from, start + limit, start + limit', cut);
      OnlyBoundary(b, start, limit', cut);
    }

    lemma BoundaryOf(data: Bytes, start: nat, to: nat)
      requires Valid() && start < |data| && |data| - start > config.minSize && to == Min(config.maxSize, |data| - start)
      ensures IsBoundary(data, start + config.minSize, start + to, NextCut(data, start))
    {
      NextCutScans(data, start, to);
    }

    lemma OnlyBoundary(data: Bytes, start: nat, to: nat, cut: nat)
      requires Valid() && start < |data| && |data| - start > config.minSize && to == Min(config.maxSize, |data| - start)
      requires IsBoundary(data, start + config.minSize, start + to, cut)
      ensures NextCut(data, start) == cut
    {
      NextCutScans(data, start, to);
      BoundaryUnique(data, start + config.minSize, start + to, cut);
    }

    /** A boundary before the end of one input is one of any input with the same hits up to it. */
    lemma SameBoundary(a: Bytes, b: Bytes, from: nat, limit: nat, limit': nat, cut: nat)
      requires Valid() && from <= limit <= |a| && from <= limit' <= |b| && IsBoundary(a, from, limit, cut)
      requires cut <= limit' && (cut < limit' ==> cut < limit)
      requires forall pos :: from <= pos < cut ==> Hit(a, from, pos) == Hit(b, from, pos)
      ensures IsBoundary(b, from, limit', cut)
    {
    }

    /** A prefix is cut where the whole is, until the prefix ends. */
    lemma CutOfPrefix(data: Bytes, start: nat, e: nat)
      requires Valid() && start < e <= |data|
      ensures NextCut(data[..e], start) == Min(NextCut(data, start), e)
    {
      if NextCut(data[..e], start) < e {
        NextCutPrefix(data[..e], data, start, e);
      } else if NextCut(data, start) < e {
        NextCutPrefix(data, data[..e], start, e);
      }
    }

    /** Going from cut to cut, `e` is where a chunk ends. */
    predicate Meets(data: Bytes, start: nat, e: nat)
      requires Valid() && e <= |data|
      decreases |data| - start
    {
      if start < e then Meets(data, NextCut(data, start), e) else start == e
    }

    lemma MeetsNext(data: Bytes, start: nat, e: nat)
      requires Valid() && start < e <= |data| && Meets(data, start, e)
      ensures var cut := NextCut(data, start);
        && cut <= e && Meets(data, cut, e) && NextCut(data[..e], start) == cut
        && data[..e][start..cut] == data[start..cut]
    {
      CutOfPrefix(data, start, e);
    }

    lemma DatasFirst(h: HashFn, data: Bytes, start: nat)
      requires Valid() && start < |data|
      ensures var cut := NextCut(data, start);
        Datas(ChunksFrom(h, data, start)) == [data[start..cut]] + Datas(ChunksFrom(h, data, cut))
    {
    }

    static lemma Regroup<T>(x: T, a: seq<T>, b: seq<T>)
      ensures [x] + (a + b) == ([x] + a) + b
    {
    }

    /** Chunking up to a cut and from it on is chunking the whole. */
    lemma {:induction false} SplitAtCut(h: HashFn, data: Bytes, start: nat, e: nat)
      requires Valid() && start <= e <= |data| && Meets(data, start, e)
      ensures Datas(ChunksFrom(h, data, start))
        == Datas(ChunksFrom(h, data[..e], start)) + Datas(ChunksFrom(h, data[e..], 0))
      decreases e - start
    {
      if start == e {
        ChunksOfRest(h, data, e);
      } else {
        var cut := NextCut(data, start);
        MeetsNext(data, start, e);
        SplitAtCut(h, data, cut, e);
        DatasFirst(h, data, start);
        DatasFirst(h, data[..e], start);
        Regroup(data[start..cut], Datas(ChunksFrom(h, data[..e], cut)), Datas(ChunksFrom(h, data[e..], 0)));
      }
    }

    static lemma FlattenFirst(x: Bytes, rest: seq<Bytes>, k: nat)
      requires k <= |rest|
      ensures |Flatten(([x] + rest)[..k + 1])| == |x| + |Flatten(rest[..k])|
    {
      assert ([x] + rest)[..k + 1] == [x] + rest[..k];
    }

    lemma FirstLength(h: HashFn, data: Bytes, start: nat, k: nat)
      requires Valid() && start <= |data| && 0 < k <= |ChunksFrom(h, data, start)|
      ensures start < |data| && k - 1 <= |ChunksFrom(h, data, NextCut(data, start))|
      ensures var cut := NextCut(data, start);
        |Flatten(Datas(ChunksFrom(h, data, start))[..k])|
        == cut - start + |Flatten(Datas(ChunksFrom(h, data, cut))[..k - 1])|
    {
      var cut := NextCut(data, start);
      DatasFirst(h, data, start);
      FlattenFirst(data[start..cut], Datas(ChunksFrom(h, data, cut)), k - 1);
    }

    /** The first chunks of the data together end at a cut. */
    lemma {:induction false} ChunksMeet(h: HashFn, data: Bytes, start: nat, k: nat, e: nat)
      requires Valid() && start <= |data| && k <= |ChunksFrom(h, data, start)|
      requires e == start + |Flatten(Datas(ChunksFrom(h, data, start))[..k])|
      ensures e <= |data| && Meets(data, start, e)
      decreases k
    {
      if k > 0 {
        var cut := NextCut(data, start);
        FirstLength(h, data, start, k);
        ChunksMeet(h, data, cut, k - 1, e);
      }
    }

    /** Cuts before a cut are those of the data up to it. */
    lemma {:induction false} MeetsPrefix(data: Bytes, start: nat, e: nat, p: nat)
      requires Valid() && e <= p <= |data| && start <= p && Meets(data, start, p)
      ensures Meets(data[..p], start, e) <==> Meets(data, start, e)
      decreases p - start
    {
      if start < e {
        CutOfPrefix(data, start, p);
        MeetsPrefix(data, NextCut(data, start), e, p);
      }
    }

    /** Edit locality, backwards: a chunk that is not the last one and lies inside a prefix both inputs
        share is a chunk of both, at the same place in the list and at the same offset. */
    lemma {:induction false} PrefixLocality(h: HashFn, a: Bytes, b: Bytes, start: nat, p: nat, k: nat)
      requires Valid() && start <= p <= |a| && p <= |b| && a[..p] == b[..p]
      requires k < |ChunksFrom(h, a, start)| - 1
      requires ChunksFrom(h, a, start)[k].offset + |ChunksFrom(h, a, start)[k].data| <= p
      ensures k < |ChunksFrom(h, b, start)| && ChunksFrom(h, b, start)[k] == ChunksFrom(h, a, start)[k]
      decreases k
    {
      var cut := NextCut(a, start);
      FirstCutInside(h, a, start, p, k);
      NextCutPrefix(a, b, start, p);
      ChunkFirst(h, a, start);
      ChunkFirst(h, b, start);
      if k > 0 {
        PrefixLocality(h, a, b, cut, p, k - 1);
      } else {
        SamePrefix(a, b, start, cut, p);
      }
    }

    static lemma SamePrefix(a: Bytes, b: Bytes, from: nat, to: nat, p: nat)
      requires from <= to <= p <= |a| && p <= |b| && a[..p] == b[..p]
      ensures a[from..to] == b[from..to]
    {
      assert a[from..to] == a[..p][from..to] && b[from..to] == b[..p][from..to];
    }

    lemma FirstCutInside(h: HashFn, a: Bytes, start: nat, p: nat, k: nat)
      requires Valid() && start <= p <= |a|
      requires k < |ChunksFrom(h, a, start)| - 1
      requires ChunksFrom(h, a, start)[k].offset + |ChunksFrom(h, a, start)[k].data| <= p
      ensures start < |a| && NextCut(a, start) < |a| && NextCut(a, start) <= p
    {
      ChunkFirst(h, a, start);
      if k > 0 {
        ChunkAt(h, a, NextCut(a, start), k - 1);
      }
    }
  }

  function Datas(cs: seq<Chunk>): (ds: seq<Bytes>)
    ensures |ds| == |cs| && forall i :: 0 <= i < |cs| ==> ds[i] == cs[i].data
  {
    seq(|cs|, i requires 0 <= i < |cs| => cs[i].data)
  }

  /** The same chunks with the same hashes, `delta` bytes further on. */
  ghost predicate Moved(cs: seq<Chunk>, ds: seq<Chunk>, delta: int) {
    && |cs| == |ds|
    && forall i :: 0 <= i < |cs| ==>
         cs[i].data == ds[i].data && cs[i].hash == ds[i].hash && ds[i].offset == cs[i].offset + delta
  }

  lemma MovedCons(cs: seq<Chunk>, ds: seq<Chunk>, delta: int)
    requires cs != [] && ds != [] && Moved(cs[1..], ds[1..], delta)
    requires cs[0].data == ds[0].data && cs[0].hash == ds[0].hash && ds[0].offset == cs[0].offset + delta
    ensures Moved(cs, ds, delta)
  {
    forall i | 0 <= i < |cs|
      ensures cs[i].data == ds[i].data && cs[i].hash == ds[i].hash && ds[i].offset == cs[i].offset + delta
    {
      if i > 0 {
        assert cs[i] == cs[1..][i - 1] && ds[i] == ds[1..][i - 1];
      }
    }
  }
}
