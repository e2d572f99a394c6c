/** The content-addressed store: objects on disk, LRU cache, dedup index, batch buffer, streamed and
    resumable writes, recovery and verification. Every operation is proved against one map from
    digest to bytes. */
module ContentStores {
  import opened Common
  import opened ChunkCaches

  const MAX_OBJECT_SIZE: nat := 100 * 1024 * 1024
  const BATCH_MAX_CHUNKS: nat := 100
  const BATCH_MAX_BYTES: nat := 10 * 1024 * 1024

  datatype ObjectRef = ObjectRef(hash: Digest, size: nat)

  /** `Stalled` is no error of the source: it stands for the cache eviction loop that never exits. */
  datatype CasError =
    | ObjectNotFound(hash: Digest)
    | CorruptObject
    | HashMismatch(expected: Digest, actual: Digest)
    | InvalidOperation
    | Io
    | Stalled

  type Outcome = Result<ObjectRef, CasError>

  type Objects = map<Digest, Bytes>

  datatype Chunk = Chunk(data: Bytes, hint: Option<Digest>)

  datatype PendingWrite = PendingWrite(hash: Digest, data: Bytes)

  datatype PartialTransfer = PartialTransfer(id: nat, expected: Option<Digest>, totalSize: Option<nat>, received: nat)

  datatype RecoveryStats = RecoveryStats(recovered: nat, cleaned: nat)

  datatype Report = Report(verified: nat, corrupted: nat, errors: nat) {
    predicate IsHealthy() {
      corrupted == 0 && errors == 0
    }
  }

  // ---- The one map the store refines ----

  /** Storing is first-writer-wins: an existing object is never rewritten. */
  function Stored(objs: Objects, d: Digest, data: Bytes): Objects {
    if d in objs then objs else objs[d := data]
  }

  function StoredAll(objs: Objects, items: seq<PendingWrite>): Objects
    decreases items
  {
    if items == [] then objs else StoredAll(Stored(objs, items[0].hash, items[0].data), items[1..])
  }

  lemma {:induction false} StoredAllKeeps(objs: Objects, items: seq<PendingWrite>)
    ensures forall d :: d in objs ==> d in StoredAll(objs, items) && StoredAll(objs, items)[d] == objs[d]
    ensures forall p :: p in items ==> p.hash in StoredAll(objs, items)
    ensures forall d :: d in StoredAll(objs, items) && d !in objs ==>
              PendingWrite(d, StoredAll(objs, items)[d]) in items
    decreases items
  {
    if items != [] {
      StoredAllKeeps(Stored(objs, items[0].hash, items[0].data), items[1..]);
    }
  }

  function PendingBytes(items: seq<PendingWrite>): nat {
    if items == [] then 0 else PendingBytes(items[..|items| - 1]) + |items[|items| - 1].data|
  }

  /** The buffer is flushed when it is long, large or old. */
  predicate Due(items: seq<PendingWrite>, elapsed: bool) {
    |items| >= BATCH_MAX_CHUNKS || PendingBytes(items) >= BATCH_MAX_BYTES || elapsed
  }

  /** `after` is `before` with some entries removed. */
  ghost predicate Shrunk(before: Objects, after: Objects) {
    forall d :: d in after ==> d in before && after[d] == before[d]
  }

  /** Integrity: every object is named by its own digest. */
  ghost predicate Sound(h: HashFn, objs: Objects) {
    forall d :: d in objs ==> h(objs[d]) == d
  }

  /** The temporary files that recovery promotes: no object has the name yet, and the bytes hash to it. */
  function Promotable(h: HashFn, objs: Objects, temps: Objects): set<Digest> {
    set d | d in temps && d !in objs && h(temps[d]) == d
  }

  function Recovered(h: HashFn, objs: Objects, temps: Objects): Objects {
    (map d | d in Promotable(h, objs, temps) :: temps[d]) + objs
  }

  /** What a read that misses the cache finds on disk. */
  function ReadDisk(h: HashFn, objs: Objects, d: Digest): Result<Bytes, CasError> {
    if d !in objs then Err(ObjectNotFound(d))
    else if objs[d] == [] then Err(CorruptObject)
    else if h(objs[d]) != d then Err(HashMismatch(d, h(objs[d])))
    else Ok(objs[d])
  }

  function ChunkHash(h: HashFn, c: Chunk): Digest {
    match c.hint
    case Some(d) => d
    case None => h(c.data)
  }

  /** The leading chunks of acceptable size: the first oversized one stops the batch. */
  function Accepted(chunks: seq<Chunk>): (r: seq<Chunk>) {
    if chunks == [] || |chunks[0].data| > MAX_OBJECT_SIZE then [] else [chunks[0]] + Accepted(chunks[1..])
  }

  ghost predicate AllAcceptable(chunks: seq<Chunk>, k: nat) {
    k <= |chunks| && forall i :: 0 <= i < k ==> |chunks[i].data| <= MAX_OBJECT_SIZE
  }

  /** The reference a batch gives for a chunk: the one the dedup index knows, or the digest the chunk is
      filed under and its size. */
  function RefOf(h: HashFn, known: map<Digest, ObjectRef>, c: Chunk): ObjectRef {
    var d := ChunkHash(h, c);
    if d in known then known[d] else ObjectRef(d, |c.data|)
  }

  ghost predicate References(h: HashFn, known: map<Digest, ObjectRef>, results: seq<ObjectRef>, chunks: seq<Chunk>) {
    |results| <= |chunks| && forall j :: 0 <= j < |results| ==> results[j] == RefOf(h, known, chunks[j])
  }

  lemma ReferencesSnoc(h: HashFn, known: map<Digest, ObjectRef>, results: seq<ObjectRef>, chunks: seq<Chunk>,
                       ref: ObjectRef)
    requires References(h, known, results, chunks) && AllAcceptable(chunks, |results|)
    requires |results| < |chunks| && ref == RefOf(h, known, chunks[|results|])
    requires |chunks[|results|].data| <= MAX_OBJECT_SIZE
    ensures References(h, known, results + [ref], chunks) && AllAcceptable(chunks, |results| + 1)
  {
  }

  lemma {:induction false} AcceptedPrefix(chunks: seq<Chunk>, k: nat)
    requires AllAcceptable(chunks, k)
    requires k < |chunks| ==> |chunks[k].data| > MAX_OBJECT_SIZE
    ensures Accepted(chunks) == chunks[..k]
    ensures forall i :: 0 <= i < k ==> |chunks[i].data| <= 104857600
    ensures k < |chunks| ==> |chunks[k].data| > 104857600
  {
    if k > 0 {
      AcceptedPrefix(chunks[1..], k - 1);
      assert chunks[..k] == [chunks[0]] + chunks[1..][..k - 1];
    }
  }

  /** The writes a batch adds to the buffer: every accepted chunk the dedup index does not know. */
  function Fresh(h: HashFn, chunks: seq<Chunk>, known: set<Digest>): seq<PendingWrite> {
    if chunks == [] then []
    else
      var c := chunks[|chunks| - 1];
      var rest := Fresh(h, chunks[..|chunks| - 1], known);
      if ChunkHash(h, c) in known then rest else rest + [PendingWrite(ChunkHash(h, c), c.data)]
  }

  lemma BufferGrows(before: seq<PendingWrite>, h: HashFn, chunks: seq<Chunk>, i: nat, known: set<Digest>)
    requires i < |chunks|
    ensures var d := ChunkHash(h, chunks[i]);
      before + Fresh(h, chunks[..i + 1], known)
        == before + Fresh(h, chunks[..i], known) + (if d in known then [] else [PendingWrite(d, chunks[i].data)])
  {
    assert chunks[..i + 1][..i] == chunks[..i];
  }

  class ContentStore {
    const h: HashFn
    const cache: ChunkCache
    var objects: Objects            // objects/<shards>/<digest>
    var temps: Objects              // objects/<shards>/<digest>.tmp, keyed by the name without .tmp
    var scratch: map<nat, Bytes>    // .tmp/<id>.tmp and .tmp/<id>.partial
    var dedup: map<Digest, ObjectRef>
    var pending: seq<PendingWrite>
    var pendingBytes: nat

    ghost predicate Valid()
      reads this, cache
    {
      && cache.Valid()
      && (forall e :: e in cache.entries ==> e.hash in objects && objects[e.hash] == e.data)
      && (forall d :: d in dedup ==> d in objects && dedup[d].hash == d)
      && pendingBytes == PendingBytes(pending)
    }

    ghost predicate SizesRight()
      reads this
    {
      forall d :: d in dedup && d in objects ==> dedup[d].size == |objects[d]|
    }

    /** The stored object of that name, if any, is this very data. */
    ghost predicate NoClash(d: Digest, data: Bytes)
      reads this
    {
      d in objects ==> objects[d] == data
    }

    /** All of `objs` could be cached at once: there are no more objects than entries, and each has
        room beside what is over-counted. */
    ghost predicate Roomy(objs: Objects)
      reads this, cache
    {
      |objs| <= cache.maxChunks && forall d :: d in objs ==> cache.OverCount() + |objs[d]| <= cache.maxSize
    }

    /** Where the source hangs: to cache this object the eviction loop has emptied the cache, and what
        is over-counted still leaves no room. */
    ghost predicate Blocked(d: Digest)
      reads this, cache
    {
      d in objects && cache.entries == [] && cache.OverCount() + |objects[d]| > cache.maxSize
    }

    /** The buffer `items` was being stored and the source hung on caching one of them. */
    ghost predicate StalledAt(before: Objects, items: seq<PendingWrite>, k: nat)
      reads this, cache
    {
      && k < |items| && items[k].hash !in StoredAll(before, items[..k])
      && objects == StoredAll(before, items[..k + 1]) && Blocked(items[k].hash)
    }

    constructor (h: HashFn, objects: Objects, temps: Objects, maxChunks: nat, maxSize: nat)
      requires maxChunks > 0
      ensures Valid() && fresh(cache) && this.h == h
      ensures this.objects == Recovered(h, objects, temps) && this.temps == map[]
      ensures cache.entries == [] && cache.OverCount() == 0
      ensures cache.maxChunks == maxChunks && cache.maxSize == maxSize
      ensures dedup == map[] && pending == []
    {
      this.h := h;
      this.objects, this.temps, this.scratch := objects, temps, map[];
      this.dedup, this.pending, this.pendingBytes := map[], [], 0;
      cache := new ChunkCache(maxChunks, maxSize);
      new;
      var _ := Recover();
    }

    // ---- Writing ----

    /** Create the temporary file, write it, rename it over the final path. */
    method WriteAtomic(d: Digest, data: Bytes)
      modifies this`objects, this`temps
      ensures objects == old(objects)[d := data]
      ensures temps == old(temps) - {d}
    {
      temps := temps[d := []];
      temps := temps[d := temps[d] + data];
      objects := objects[d := temps[d]];
      temps := temps - {d};
      assert objects[d] == data;
      assert temps == old(temps) - {d};
    }

    method Write(data: Bytes) returns (r: Outcome)
      requires Valid()
      modifies this`objects, this`temps, this`dedup
      ensures Valid()
      ensures r.Ok? <==> |data| <= 104857600
      ensures |data| > MAX_OBJECT_SIZE ==> r == Err(InvalidOperation) && objects == old(objects) && dedup == old(dedup)
      ensures |data| <= MAX_OBJECT_SIZE ==> r.Ok? && r.value.hash == h(data)
      ensures |data| <= MAX_OBJECT_SIZE ==> objects == Stored(old(objects), h(data), data)
      ensures r.Ok? && old(SizesRight()) && old(NoClash(h(data), data)) ==> r.value.size == |data| && SizesRight()
      ensures Shrunk(old(temps), temps)
    {
      if |data| > MAX_OBJECT_SIZE {
        return Err(InvalidOperation);
      }
      var d := h(data);
      if d in dedup {
        return Ok(dedup[d]);
      }
      var ref := ObjectRef(d, |data|);
      if d in objects {
        dedup := dedup[d := ref];
        return Ok(ref);
      }
      WriteAtomic(d, data);
      return Ok(ref);
    }

    /** Accumulate a batch and flush it when the buffer is large or old (`elapsed`). */
    method WriteBatch(chunks: seq<Chunk>, elapsed: bool) returns (r: Result<seq<ObjectRef>, CasError>)
      requires Valid()
      modifies this, cache
      ensures Valid()
      ensures var buffered := old(pending) + Fresh(h, Accepted(chunks), old(dedup).Keys);
        && (Accepted(chunks) != chunks ==>
              r == Err(InvalidOperation) && objects == old(objects) && pending == buffered)
        && (Accepted(chunks) == chunks && r.Ok? ==>
              && objects == (if Due(buffered, elapsed) then StoredAll(old(objects), buffered) else old(objects))
              && pending == (if Due(buffered, elapsed) then [] else buffered)
              && |r.value| == |chunks| && References(h, old(dedup), r.value, chunks))
        && (Accepted(chunks) == chunks && r.Err? ==>
              && r == Err(Stalled) && pending == [] && Due(buffered, elapsed)
              && exists k :: StalledAt(old(objects), buffered, k))
        && (old(Roomy(StoredAll(objects, buffered))) ==>
          r != Err(Stalled) && cache.OverCount() == old(cache.OverCount()))
        && (r.Ok? && |buffered| < 100 && PendingBytes(buffered) < 10485760 && !elapsed ==>
          objects == old(objects) && pending == buffered)
      ensures r.Ok? ==> |pending| < 100 && PendingBytes(pending) < 10485760 && (elapsed ==> pending == [])
      ensures old(SizesRight()) ==> SizesRight()
      ensures Shrunk(old(temps), temps) && scratch == old(scratch)
    {
      var ok, results := Accumulate(chunks);
      if !ok {
        return Err(InvalidOperation);
      }
      if |pending| >= BATCH_MAX_CHUNKS || pendingBytes >= BATCH_MAX_BYTES || elapsed {
        ok := FlushInternal();
        if !ok {
          return Err(Stalled);
        }
      }
      return Ok(results);
    }

    /** The loop that fills the buffer; an oversized chunk ends it but keeps what came before. */
    method Accumulate(chunks: seq<Chunk>) returns (ok: bool, results: seq<ObjectRef>)
      requires Valid()
      modifies this`pending, this`pendingBytes
      ensures Valid()
      ensures pending == old(pending) + Fresh(h, Accepted(chunks), dedup.Keys)
      ensures ok <==> Accepted(chunks) == chunks
      ensures ok ==> |results| == |chunks| && References(h, dedup, results, chunks)
    {
      results := [];
      var i := 0;
      while i < |chunks|
        invariant AllAcceptable(chunks, i) && Valid()
        invariant pending == old(pending) + Fresh(h, chunks[..i], dedup.Keys)
        invariant |results| == i && References(h, dedup, results, chunks)
      {
        var c := chunks[i];
        if |c.data| > MAX_OBJECT_SIZE {
          AcceptedPrefix(chunks, i);
          return false, results;
        }
        var ref := AddToBatch(c);
        BufferGrows(old(pending), h, chunks, i, dedup.Keys);
        ReferencesSnoc(h, dedup, results, chunks, ref);
        results := results + [ref];
        i := i + 1;
      }
      AcceptedPrefix(chunks, |chunks|);
      assert chunks[..|chunks|] == chunks;
      ok := true;
    }

    /** Buffer one chunk, under its hint when it has one, unless the dedup index knows it. */
    method AddToBatch(c: Chunk) returns (ref: ObjectRef)
      requires Valid()
      modifies this`pending, this`pendingBytes
      ensures Valid() && ref == RefOf(h, dedup, c)
      ensures pending == old(pending) +
                (if ChunkHash(h, c) in dedup then [] else [PendingWrite(ChunkHash(h, c), c.data)])
    {
      var d := ChunkHash(h, c);
      if d in dedup {
        return dedup[d];
      }
      ghost var before := pending;
      pending := pending + [PendingWrite(d, c.data)];
      assert pending[..|pending| - 1] == before;
      pendingBytes := pendingBytes + |c.data|;
      return ObjectRef(d, |c.data|);
    }

    method FlushBatch() returns (ok: bool)
      requires Valid()
      modifies this, cache
      ensures Valid() && pending == []
      ensures ok ==> objects == StoredAll(old(objects), old(pending))
      ensures !ok ==> exists k :: StalledAt(old(objects), old(pending), k)
      ensures old(Roomy(StoredAll(objects, pending))) ==> ok && cache.OverCount() == old(cache.OverCount())
      ensures old(SizesRight()) ==> SizesRight()
      ensures Shrunk(old(temps), temps) && scratch == old(scratch)
    {
      if pending == [] {
        return true;
      }
      ok := FlushInternal();
    }

    /** Drain the buffer. It hangs only on an object it cannot cache, and never while the cache has
        room for all the store then holds. */
    method FlushInternal() returns (ok: bool)
      requires Valid()
      modifies this, cache
      ensures Valid() && pending == []
      ensures ok ==> objects == StoredAll(old(objects), old(pending))
      ensures !ok ==> exists k :: StalledAt(old(objects), old(pending), k)
      ensures old(Roomy(StoredAll(objects, pending))) ==> ok && cache.OverCount() == old(cache.OverCount())
      ensures old(SizesRight()) ==> SizesRight()
      ensures Shrunk(old(temps), temps) && scratch == old(scratch)
    {
      var items := pending;
      pending, pendingBytes := [], 0;
      var i := 0;
      while i < |items|
        invariant i <= |items| && Valid() && pending == []
        invariant objects == StoredAll(old(objects), items[..i])
        invariant Shrunk(old(temps), temps) && scratch == old(scratch)
        invariant old(SizesRight()) ==> SizesRight()
        invariant |StoredAll(old(objects), items)| <= cache.maxChunks ==> cache.OverCount() == old(cache.OverCount())
      {
        ok := WriteIndividualOptimized(items[i].data, items[i].hash);
        StoredAllStep(old(objects), items, i);
        if !ok {
          assert StalledAt(old(objects), items, i);
          assert items[i].hash in StoredAll(old(objects), items);
          return false;
        }
        i := i + 1;
      }
      assert items[..i] == items;
      return true;
    }

    /** A buffered write: skipped when the object exists, otherwise written, cached and indexed. */
    method WriteIndividualOptimized(data: Bytes, d: Digest) returns (ok: bool)
      requires Valid()
      modifies this`objects, this`temps, this`dedup, cache
      ensures Valid()
      ensures objects == Stored(old(objects), d, data) && Shrunk(old(temps), temps)
      ensures old(SizesRight()) ==> SizesRight()
      ensures ok <==> (d in old(objects) || old(cache.OverCount()) + |data| <= cache.maxSize)
      ensures !ok ==> d !in old(objects) && Blocked(d)
      ensures |objects| <= cache.maxChunks ==> cache.OverCount() == old(cache.OverCount())
      ensures dedup == if ok && d !in old(objects) then old(dedup)[d := ObjectRef(d, |data|)] else old(dedup)
    {
      if d in objects {
        return true;
      }
      WriteAtomic(d, data);
      ok := CacheInsert(d, data);
      if ok {
        dedup := dedup[d := ObjectRef(d, |data|)];
      }
    }

    method CacheInsert(d: Digest, data: Bytes) returns (ok: bool)
      requires cache.Valid()
      requires forall e :: e in cache.entries ==> e.hash in objects && objects[e.hash] == e.data
      requires d in objects && objects[d] == data && !Has(cache.entries, d)
      modifies cache
      ensures cache.Valid()
      ensures forall e :: e in cache.entries ==> e.hash in objects && objects[e.hash] == e.data
      ensures ok <==> old(cache.OverCount()) + |data| <= cache.maxSize
      ensures if ok then Has(cache.entries, d) else Blocked(d)
      ensures |objects| <= cache.maxChunks ==> cache.OverCount() == old(cache.OverCount())
      ensures forall e :: e in cache.entries ==> e == Entry(d, data) || e in old(cache.entries)
      ensures old(|cache.entries|) < cache.maxChunks && old(cache.totalSize) + |data| <= cache.maxSize ==>
        Grown(old(cache.entries), old(cache.totalSize), cache.entries, cache.totalSize, |data|)
    {
      ghost var es, total := cache.entries, cache.totalSize;
      CachedFewer(es, objects, d);
      ok := cache.Insert(d, data);
      if ok {
        ghost var k := EvictCount(es, total, |data|, cache.maxSize);
        InsertedEntries(es, k, cache.maxChunks, Entry(d, data));
        assert cache.entries[|cache.entries| - 1].hash == d;
        if |es| < cache.maxChunks && total + |data| <= cache.maxSize {
          assert es[0..] == es && cache.entries == es + [Entry(d, data)];
          SumSizesSnoc(es, Entry(d, data));
          GrownByOne(es, total, Entry(d, data));
        }
      }
    }

    // ---- Streamed and resumable writes ----

    /** Move a finished scratch file into place, or drop it when the object exists already. */
    method Publish(id: nat) returns (ref: ObjectRef)
      requires Valid() && id in scratch
      modifies this`objects, this`scratch, this`dedup
      ensures Valid()
      ensures var data := old(scratch)[id];
        && ref == ObjectRef(h(data), |data|)
        && objects == Stored(old(objects), h(data), data)
        && dedup == old(dedup)[h(data) := ref]
        && (old(SizesRight()) && old(NoClash(h(data), data)) ==> SizesRight())
      ensures scratch == old(scratch) - {id}
    {
      var data := scratch[id];
      var d := h(data);
      ref := ObjectRef(d, |data|);
      if d !in objects {
        objects := objects[d := data];
      }
      scratch := scratch - {id};
      dedup := dedup[d := ref];
    }

    method WriteStream(parts: seq<Bytes>, expected: Option<Digest>, id: nat) returns (r: Outcome)
      requires Valid() && id !in scratch
      modifies this`objects, this`scratch, this`dedup
      ensures Valid() && scratch == old(scratch)
      ensures var data := Delivered(parts);
        if expected.Some? && expected.value != h(data) then
          r == Err(HashMismatch(expected.value, h(data))) && objects == old(objects) && dedup == old(dedup)
        else
          && r == Ok(ObjectRef(h(data), |data|)) && objects == Stored(old(objects), h(data), data)
          && (old(SizesRight()) && old(NoClash(h(data), data)) ==> SizesRight())
    {
      scratch := scratch[id := []];
      AppendAll(id, parts);
      assert scratch[id] == Delivered(parts);
      var d := h(scratch[id]);
      if expected.Some? && d != expected.value {
        scratch := scratch - {id};
        assert scratch == old(scratch);
        return Err(HashMismatch(expected.value, d));
      }
      var ref := Publish(id);
      assert scratch == old(scratch);
      return Ok(ref);
    }

    /** The read loop: append what each read delivers, until a read delivers nothing. */
    method AppendAll(id: nat, parts: seq<Bytes>)
      requires id in scratch
      modifies this`scratch
      ensures scratch == old(scratch)[id := old(scratch)[id] + Delivered(parts)]
    {
      var rest := parts;
      while rest != [] && rest[0] != []
        invariant scratch.Keys == old(scratch).Keys && id in scratch
        invariant scratch == old(scratch)[id := scratch[id]]
        invariant scratch[id] + Delivered(rest) == old(scratch)[id] + Delivered(parts)
        decreases |rest|
      {
        assert (scratch[id] + rest[0]) + Delivered(rest[1..]) == scratch[id] + Delivered(rest);
        scratch := scratch[id := scratch[id] + rest[0]];
        rest := rest[1..];
      }
      assert scratch[id] + Delivered(rest) == scratch[id];
    }

    method ContinueResumable(p: PartialTransfer, parts: seq<Bytes>, expired: bool)
      returns (r: Result<PartialTransfer, CasError>)
      modifies this`scratch
      ensures r.Ok? <==> !expired && (p.received == 0 || p.id in old(scratch))
      ensures r.Err? ==> scratch == old(scratch)
      ensures r.Ok? ==>
        && scratch == old(scratch)[p.id := (if p.received == 0 then [] else old(scratch)[p.id]) + Delivered(parts)]
        && r.value == p.(received := p.received + |Delivered(parts)|)
    {
      if expired {
        return Err(InvalidOperation);
      }
      if p.received == 0 {
        scratch := scratch[p.id := []];
      } else if p.id !in scratch {
        return Err(Io);
      }
      ghost var start := scratch[p.id];
      AppendAll(p.id, parts);
      // the source counts the bytes as it writes them
      var written := CountBytes(parts);
      return Ok(p.(received := p.received + written));
    }

    static method CountBytes(parts: seq<Bytes>) returns (n: nat)
      ensures n == |Delivered(parts)|
    {
      var rest := parts;
      n := 0;
      while rest != [] && rest[0] != []
        invariant n + |Delivered(rest)| == |Delivered(parts)|
        decreases |rest|
      {
        n := n + |rest[0]|;
        rest := rest[1..];
      }
    }

    method CompleteResumable(p: PartialTransfer, expired: bool) returns (r: Outcome)
      requires Valid()
      modifies this`objects, this`scratch, this`dedup
      ensures Valid()
      ensures r.Err? ==> objects == old(objects) && dedup == old(dedup)
      ensures scratch == old(scratch) - {p.id}
      ensures expired || p.id !in old(scratch) ==> r == Err(InvalidOperation)
      ensures !expired && p.id in old(scratch) ==>
        var data := old(scratch)[p.id];
        if p.expected.Some? && p.expected.value != h(data) then r == Err(HashMismatch(p.expected.value, h(data)))
        else if p.totalSize.Some? && p.totalSize.value != |data| then r == Err(InvalidOperation)
        else
          && r == Ok(ObjectRef(h(data), |data|)) && objects == Stored(old(objects), h(data), data)
          && (old(SizesRight()) && old(NoClash(h(data), data)) ==> SizesRight())
    {
      if expired {
        scratch := scratch - {p.id};
        return Err(InvalidOperation);
      }
      if p.id !in scratch {
        return Err(InvalidOperation);
      }
      var data := scratch[p.id];
      var d := h(data);
      if p.expected.Some? && d != p.expected.value {
        scratch := scratch - {p.id};
        return Err(HashMismatch(p.expected.value, d));
      }
      if p.totalSize.Some? && |data| != p.totalSize.value {
        scratch := scratch - {p.id};
        return Err(InvalidOperation);
      }
      var ref := Publish(p.id);
      return Ok(ref);
    }

    method CancelResumable(p: PartialTransfer)
      modifies this`scratch
      ensures scratch == old(scratch) - {p.id}
    {
      if p.id in scratch {
        scratch := scratch - {p.id};
      }
    }

    /** The maintenance pass over partial files: those past their age go, in whatever order. */
    method CleanupExpired(expired: set<nat>) returns (cleaned: nat)
      modifies this`scratch
      ensures scratch == old(scratch) - expired
      ensures cleaned == |old(scratch).Keys * expired|
    {
      var todo := scratch.Keys * expired;
      cleaned := 0;
      while todo != {}
        invariant todo <= scratch.Keys && todo <= expired
        invariant scratch.Keys == old(scratch).Keys - (old(scratch).Keys * expired - todo)
        invariant forall id :: id in scratch ==> scratch[id] == old(scratch)[id]
        invariant cleaned + |todo| == |old(scratch).Keys * expired|
      {
        var id :| id in todo;
        scratch := scratch - {id};
        todo := todo - {id};
        cleaned := cleaned + 1;
      }
    }

    /** Any number of interruptions: a transfer received in rounds and then completed has the outcome
        of one streamed write of everything the rounds delivered. */
    method ResumableWrite(id: nat, expected: Option<Digest>, totalSize: Option<nat>, rounds: seq<seq<Bytes>>)
      returns (r: Outcome)
      requires Valid() && id !in scratch && rounds != []
      modifies this`objects, this`scratch, this`dedup
      ensures Valid()
      ensures var data := AllDelivered(rounds);
        if expected.Some? && expected.value != h(data) then
          r == Err(HashMismatch(expected.value, h(data))) && objects == old(objects)
        else if totalSize.Some? && totalSize.value != |data| then
          r == Err(InvalidOperation) && objects == old(objects)
        else
          && r == Ok(ObjectRef(h(data), |data|)) && objects == Stored(old(objects), h(data), data)
          && (old(SizesRight()) && old(NoClash(h(data), data)) ==> SizesRight())
      ensures scratch == old(scratch) && (r.Err? ==> dedup == old(dedup))
    {
      var p := PartialTransfer(id, expected, totalSize, 0);
      var i := 0;
      while i < |rounds|
        invariant i <= |rounds| && Valid() && unchanged(`objects) && unchanged(`dedup)
        invariant p == PartialTransfer(id, expected, totalSize, |AllDelivered(rounds[..i])|)
        invariant i > 0 ==> id in scratch && scratch[id] == AllDelivered(rounds[..i])
        invariant scratch - {id} == old(scratch)
      {
        assert rounds[..i + 1][..i] == rounds[..i];
        var c := ContinueResumable(p, rounds[i], false);
        assert c.Ok?;
        p := c.value;
        i := i + 1;
      }
      assert rounds[..i] == rounds;
      r := CompleteResumable(p, false);
    }

    static function AllDelivered(rounds: seq<seq<Bytes>>): Bytes {
      if rounds == [] then [] else AllDelivered(rounds[..|rounds| - 1]) + Delivered(rounds[|rounds| - 1])
    }

    // ---- Reading ----

    method Read(d: Digest) returns (r: Result<Bytes, CasError>)
      requires Valid()
      modifies cache
      ensures Valid()
      ensures Has(old(cache.entries), d) ==> d in objects && r == Ok(objects[d])
      ensures !Has(old(cache.entries), d) ==>
        var disk := ReadDisk(h, objects, d);
        if disk.Err? then r == disk
        else if old(cache.OverCount()) + |disk.value| <= cache.maxSize then r == disk
        else r == Err(Stalled)
      ensures r.Ok? ==> d in objects && r.value == objects[d]
      ensures r.Ok? && !Has(old(cache.entries), d) ==> r.value != [] && h(r.value) == d
      ensures r == Err(ObjectNotFound(d)) <==> !Has(old(cache.entries), d) && d !in objects
      ensures r == Err(CorruptObject) <==> !Has(old(cache.entries), d) && d in objects && objects[d] == []
      ensures r.Err? && r.error.HashMismatch? <==>
        !Has(old(cache.entries), d) && d in objects && objects[d] != [] && h(objects[d]) != d
      ensures r.Err? && r.error.HashMismatch? ==> r == Err(HashMismatch(d, h(objects[d])))
      ensures forall e :: e in cache.entries ==> e in old(cache.entries) || (r.Ok? && e == Entry(d, r.value))
      ensures r.Ok? ==> Has(cache.entries, d)
      ensures r.Err? && r != Err(Stalled) ==>
        cache.entries == old(cache.entries) && cache.totalSize == old(cache.totalSize)
      ensures r == Err(Stalled) ==> Blocked(d) && ReadDisk(h, objects, d).Ok?
      ensures |objects| <= cache.maxChunks ==> cache.OverCount() == old(cache.OverCount())
      ensures r.Ok? && old(|cache.entries|) < cache.maxChunks && old(cache.totalSize) + |r.value| <= cache.maxSize ==>
        Grown(old(cache.entries), old(cache.totalSize), cache.entries, cache.totalSize, |r.value|)
    {
      ghost var es := cache.entries;
      var hit := cache.Get(d);
      assert forall e :: e in cache.entries ==> e in multiset(es);
      SameKeys(es, cache.entries);
      if hit.Some? {
        return Ok(hit.value);
      }
      if d !in objects {
        return Err(ObjectNotFound(d));
      }
      var data := objects[d];
      if data == [] {
        return Err(CorruptObject);
      }
      if h(data) != d {
        return Err(HashMismatch(d, h(data)));
      }
      var ok := CacheInsert(d, data);
      return if ok then Ok(data) else Err(Stalled);
    }

    /** Read what is not cached yet. When the cache has room for all of it, every readable digest is
        cached afterwards, and in any case the last one is. The result is false when a read hangs. */
    method Prefetch(hashes: seq<Digest>) returns (ok: bool)
      requires Valid()
      modifies cache
      ensures Valid()
      ensures !ok ==> exists i :: 0 <= i < |hashes| && Blocked(hashes[i]) && ReadDisk(h, objects, hashes[i]).Ok?
      ensures |objects| <= cache.maxChunks ==> cache.OverCount() == old(cache.OverCount())
      ensures old(Roomy(objects)) ==> ok
      ensures (old(|cache.entries|) + |hashes| <= cache.maxChunks
               && old(cache.totalSize) + Load(objects, hashes) <= cache.maxSize) ==>
        ok && AllCached(hashes)
      ensures ok && hashes != [] && ReadDisk(h, objects, hashes[|hashes| - 1]).Ok? ==>
        Has(cache.entries, hashes[|hashes| - 1])
    {
      ghost var n, total := |cache.entries|, cache.totalSize;
      ghost var room := n + |hashes| <= cache.maxChunks && total + Load(objects, hashes) <= cache.maxSize;
      var i := 0;
      while i < |hashes|
        invariant i <= |hashes| && Valid()
        invariant |objects| <= cache.maxChunks ==> cache.OverCount() == old(cache.OverCount())
        invariant room ==>
          |cache.entries| <= n + i && cache.totalSize <= total + Load(objects, hashes[..i]) && AllCached(hashes[..i])
        invariant i > 0 && ReadDisk(h, objects, hashes[i - 1]).Ok? ==> Has(cache.entries, hashes[i - 1])
      {
        LoadSplit(objects, hashes, i);
        ghost var es := cache.entries;
        ok := PrefetchOne(hashes[i]);
        if !ok {
          return;
        }
        if room {
          CachedSnoc(h, objects, es, cache.entries, hashes, i);
        }
        i := i + 1;
      }
      assert hashes[..i] == hashes;
      ok := true;
    }

    method PrefetchOne(d: Digest) returns (ok: bool)
      requires Valid()
      modifies cache
      ensures Valid()
      ensures if ok then ReadDisk(h, objects, d).Ok? ==> Has(cache.entries, d)
        else Blocked(d) && ReadDisk(h, objects, d).Ok?
      ensures |objects| <= cache.maxChunks ==> cache.OverCount() == old(cache.OverCount())
      ensures ok <== d !in objects || Has(old(cache.entries), d)
        || old(cache.OverCount()) + |objects[d]| <= cache.maxSize
      ensures old(|cache.entries|) < cache.maxChunks && old(cache.totalSize) + Load(objects, [d]) <= cache.maxSize ==>
        ok && Grown(old(cache.entries), old(cache.totalSize), cache.entries, cache.totalSize, Load(objects, [d]))
    {
      LoadOne(objects, d);
      if cache.Contains(d) {
        return true;
      }
      var r := Read(d);
      ok := r != Err(Stalled);
    }

    ghost predicate AllCached(hashes: seq<Digest>)
      reads this, cache
    {
      AllIn(h, objects, cache.entries, hashes)
    }

    method ClearCache()
      requires Valid()
      modifies cache
      ensures Valid() && cache.entries == [] && cache.OverCount() == 0
    {
      cache.Clear();
    }

    // ---- Recovery and verification ----

    /** Walk the temporary files in any order; promote the good ones, remove the others. */
    method Recover() returns (stats: RecoveryStats)
      requires Valid()
      modifies this`objects, this`temps
      ensures Valid()
      ensures objects == Recovered(h, old(objects), old(temps)) && temps == map[]
      ensures stats.recovered == |Promotable(h, old(objects), old(temps))|
      ensures stats.recovered + stats.cleaned == |old(temps)|
    {
      stats := RecoveryStats(0, 0);
      ghost var objs0, temps0 := objects, temps;
      ghost var done: Objects := map[];
      assert Recovered(h, objects, done) == objects;
      MapUnits(temps);
      while temps != map[]
        invariant Valid()
        invariant done.Keys !! temps.Keys && temps0 == done + temps
        invariant objects == Recovered(h, objs0, done)
        invariant stats.recovered == |Promotable(h, objs0, done)|
        invariant stats.recovered + stats.cleaned == |done|
        decreases |temps|
      {
        var d :| d in temps;
        ghost var data := temps[d];
        RecoverOne(h, objs0, done, d, data);
        MoveKey(done, temps, d);
        done := done[d := data];
        stats := RecoverTempFile(d, stats);
      }
      MapUnits(done);
    }

    /** Read every file under the object tree, in any order; a name ending in .tmp is an error. None
        stands for a read that hangs. An object that does not read from disk is counted as corrupted
        unless the cache answered for it, which it can only for what it held before. */
    method VerifyIntegrity() returns (r: Option<Report>)
      requires Valid()
      modifies cache
      ensures Valid()
      ensures r.Some? ==>
        && r.value.verified + r.value.corrupted == |objects| && r.value.errors == |temps|
        && |Missed(h, objects, old(cache.entries))| <= r.value.corrupted <= |Unreadable(h, objects)|
      ensures r.Some? && old(cache.entries) == [] ==>
        (r.value.IsHealthy() <==> temps == map[] && AllRead(h, objects))
      ensures r.None? ==> exists d :: Blocked(d) && ReadDisk(h, objects, d).Ok?
      ensures old(Roomy(objects)) ==> r.Some?
    {
      var report := Report(0, 0, |temps|);
      var todo := objects.Keys;
      TallyNone(h, objects, cache.entries, |temps|);
      while todo != {}
        invariant Valid() && todo <= objects.Keys
        invariant Tally(h, objects, old(cache.entries), todo, report) && report.errors == |temps|
        invariant OnlyReadable(h, objects, old(cache.entries), cache.entries)
        invariant |objects| <= cache.maxChunks ==> cache.OverCount() == old(cache.OverCount())
        decreases |todo|
      {
        var d :| d in todo;
        ghost var es := cache.entries;
        var good := VerifySingle(d, old(cache.entries));
        if good.None? {
          return None;
        }
        TallyOne(h, objects, old(cache.entries), es, todo, report, d, good.value);
        todo := todo - {d};
        report := if good.value then report.(verified := report.verified + 1)
                  else report.(corrupted := report.corrupted + 1);
      }
      TallyAll(h, objects, temps, old(cache.entries), report);
      return Some(report);
    }

    /** One object of a verification that began with the cache holding `es`. */
    method VerifySingle(d: Digest, ghost es: seq<Entry>) returns (good: Option<bool>)
      requires Valid() && d in objects && OnlyReadable(h, objects, es, cache.entries)
      modifies cache
      ensures Valid() && OnlyReadable(h, objects, es, cache.entries)
      ensures good == Some(false) ==> objects[d] == [] || h(objects[d]) != d
      ensures good == Some(true) ==> Has(old(cache.entries), d) || (objects[d] != [] && h(objects[d]) == d)
      ensures good == None ==> Blocked(d) && ReadDisk(h, objects, d).Ok?
      ensures |objects| <= cache.maxChunks ==> cache.OverCount() == old(cache.OverCount())
    {
      var data := Read(d);
      return if data == Err(Stalled) then None else Some(data.Ok?);
    }

    method RecoverTempFile(d: Digest, stats: RecoveryStats) returns (s: RecoveryStats)
      requires Valid() && d in temps
      modifies this`objects, this`temps
      ensures Valid() && temps == old(temps) - {d}
      ensures var promote := d !in old(objects) && h(old(temps)[d]) == d;
        && objects == (if promote then old(objects)[d := old(temps)[d]] else old(objects))
        && s == (if promote then stats.(recovered := stats.recovered + 1) else stats.(cleaned := stats.cleaned + 1))
    {
      if d in objects {
        temps := temps - {d};
        return stats.(cleaned := stats.cleaned + 1);
      }
      var data := temps[d];
      temps := temps - {d};
      if h(data) == d {
        objects := objects[d := data];
        return stats.(recovered := stats.recovered + 1);
      }
      return stats.(cleaned := stats.cleaned + 1);
    }
  }

  // ---- Counting a verification ----

  /** Every object is non-empty and named by the digest of its bytes. */
  ghost predicate AllRead(h: HashFn, objs: Objects) {
    forall d :: d in objs ==> objs[d] != [] && h(objs[d]) == d
  }

  /** The objects that do not read from disk: they are empty, or their bytes are not what their name says. */
  function Unreadable(h: HashFn, objs: Objects): set<Digest> {
    set d | d in objs && (objs[d] == [] || h(objs[d]) != d)
  }

  lemma UnreadableHas(h: HashFn, objs: Objects, d: Digest)
    ensures d in Unreadable(h, objs) <==> d in objs && ReadDisk(h, objs, d).Err?
  {
  }

  /** Those among them that the cache does not answer for. */
  function Missed(h: HashFn, objs: Objects, es: seq<Entry>): set<Digest> {
    set d | d in Unreadable(h, objs) && !Has(es, d)
  }

  ghost predicate Tally(h: HashFn, objs: Objects, es: seq<Entry>, todo: set<Digest>, report: Report) {
    && report.verified + report.corrupted + |todo| == |objs|
    && |Missed(h, objs, es) - todo| <= report.corrupted <= |Unreadable(h, objs) - todo|
  }

  /** The cache has gained nothing unreadable since `es`. */
  ghost predicate OnlyReadable(h: HashFn, objs: Objects, es: seq<Entry>, now: seq<Entry>) {
    forall e :: e in now ==> e in es || ReadDisk(h, objs, e.hash).Ok?
  }

  lemma TallyNone(h: HashFn, objs: Objects, es: seq<Entry>, errors: nat)
    ensures Tally(h, objs, es, objs.Keys, Report(0, 0, errors))
  {
    assert Missed(h, objs, es) - objs.Keys == {} && Unreadable(h, objs) - objs.Keys == {};
    assert |objs.Keys| == |objs|;
  }

  /** A finished tally. Healthy means what it says when nothing was cached: nothing in flight, and every
      object non-empty and named by its digest. */
  lemma TallyAll(h: HashFn, objs: Objects, temps: Objects, es: seq<Entry>, report: Report)
    requires Tally(h, objs, es, {}, report) && report.errors == |temps|
    ensures |Missed(h, objs, es)| <= report.corrupted <= |Unreadable(h, objs)|
    ensures report.verified + report.corrupted == |objs|
    ensures es == [] ==> (report.IsHealthy() <==> temps == map[] && AllRead(h, objs))
  {
    assert Missed(h, objs, es) - {} == Missed(h, objs, es);
    assert Unreadable(h, objs) - {} == Unreadable(h, objs);
    UnreadableNone(h, objs);
  }

  lemma UnreadableNone(h: HashFn, objs: Objects)
    ensures Missed(h, objs, []) == Unreadable(h, objs)
    ensures |Unreadable(h, objs)| == 0 <==> AllRead(h, objs)
  {
    if |Unreadable(h, objs)| == 0 {
      assert Unreadable(h, objs) == {};
      forall d | d in objs
        ensures objs[d] != [] && h(objs[d]) == d
      {
        assert d !in Unreadable(h, objs);
      }
    }
    if AllRead(h, objs) {
      assert Unreadable(h, objs) == {};
    }
  }

  /** Taking `d` off the list brings it into the difference exactly when it is in the set. */
  lemma OneDone(s: set<Digest>, todo: set<Digest>, d: Digest)
    requires d in todo
    ensures |s - (todo - {d})| == |s - todo| + if d in s then 1 else 0
  {
    assert s - (todo - {d}) == (s - todo) + (if d in s then {d} else {});
  }

  lemma TallyOne(h: HashFn, objs: Objects, es: seq<Entry>, now: seq<Entry>, todo: set<Digest>, report: Report,
                 d: Digest, ok: bool)
    requires Tally(h, objs, es, todo, report) && OnlyReadable(h, objs, es, now) && d in todo && d in objs
    requires !ok ==> objs[d] == [] || h(objs[d]) != d
    requires ok ==> Has(now, d) || (objs[d] != [] && h(objs[d]) == d)
    ensures Tally(h, objs, es, todo - {d},
                  if ok then report.(verified := report.verified + 1) else report.(corrupted := report.corrupted + 1))
  {
    OneDone(Missed(h, objs, es), todo, d);
    OneDone(Unreadable(h, objs), todo, d);
    if ok && Has(now, d) {
      var i :| 0 <= i < |now| && now[i].hash == d;
      assert now[i] in now;
      if now[i] in es {
        var j :| 0 <= j < |es| && es[j] == now[i];
        assert Has(es, d);
      }
    }
  }

  // ---- Room in the cache ----

  ghost predicate AllIn(h: HashFn, objs: Objects, es: seq<Entry>, hashes: seq<Digest>) {
    forall i :: 0 <= i < |hashes| && ReadDisk(h, objs, hashes[i]).Ok? ==> Has(es, hashes[i])
  }

  /** Everything cached before is cached still, and the cache grew by at most one entry of that size. */
  ghost predicate Grown(es: seq<Entry>, total: nat, now: seq<Entry>, total': nat, size: nat) {
    |now| <= |es| + 1 && total' <= total + size && KeepsKeys(es, now)
  }

  ghost predicate KeepsKeys(es: seq<Entry>, now: seq<Entry>) {
    forall x :: Has(es, x) ==> Has(now, x)
  }

  lemma SameKeys(es: seq<Entry>, now: seq<Entry>)
    requires multiset(es) == multiset(now)
    ensures KeepsKeys(es, now)
  {
    forall x | Has(es, x)
      ensures Has(now, x)
    {
      var i :| 0 <= i < |es| && es[i].hash == x;
      assert es[i] in multiset(es);
      assert es[i] in now;
      var j :| 0 <= j < |now| && now[j] == es[i];
    }
  }

  lemma GrownByOne(es: seq<Entry>, total: nat, e: Entry)
    ensures Grown(es, total, es + [e], total + |e.data|, |e.data|)
  {
    forall x | Has(es, x)
      ensures Has(es + [e], x)
    {
      var i :| 0 <= i < |es| && es[i].hash == x;
      assert (es + [e])[i].hash == x;
    }
  }

  lemma CachedSnoc(h: HashFn, objs: Objects, es: seq<Entry>, now: seq<Entry>, hashes: seq<Digest>, i: nat)
    requires i < |hashes| && AllIn(h, objs, es, hashes[..i]) && KeepsKeys(es, now)
    requires ReadDisk(h, objs, hashes[i]).Ok? ==> Has(now, hashes[i])
    ensures AllIn(h, objs, now, hashes[..i + 1])
  {
    var done := hashes[..i + 1];
    forall j | 0 <= j < |done| && ReadDisk(h, objs, done[j]).Ok?
      ensures Has(now, done[j])
    {
      if j < i {
        assert hashes[..i][j] == done[j];
      }
    }
  }

  /** Bytes of the objects that a list of digests asks the cache to hold. */
  function Load(objs: Objects, hashes: seq<Digest>): nat {
    if hashes == [] then 0
    else
      var d := hashes[|hashes| - 1];
      Load(objs, hashes[..|hashes| - 1]) + if d in objs then |objs[d]| else 0
  }

  lemma LoadOne(objs: Objects, d: Digest)
    ensures Load(objs, [d]) == if d in objs then |objs[d]| else 0
  {
    assert Load(objs, [d][..0]) == 0;
  }

  lemma {:induction false} LoadSplit(objs: Objects, hashes: seq<Digest>, i: nat)
    requires i < |hashes|
    ensures Load(objs, hashes[..i + 1]) == Load(objs, hashes[..i]) + Load(objs, [hashes[i]])
    ensures Load(objs, hashes[..i + 1]) <= Load(objs, hashes)
    decreases |hashes|
  {
    var n := |hashes| - 1;
    LoadOne(objs, hashes[i]);
    if i < n {
      LoadSplit(objs, hashes[..n], i);
      assert hashes[..n][..i + 1] == hashes[..i + 1] && hashes[..n][..i] == hashes[..i];
    } else {
      assert hashes[..i + 1] == hashes && hashes[..i] == hashes[..n];
    }
  }

  /** A cache of stored objects that lacks one of them has fewer entries than there are objects. */
  lemma CachedFewer(es: seq<Entry>, objs: Objects, d: Digest)
    requires DistinctKeys(es) && !Has(es, d) && d in objs
    requires forall e :: e in es ==> e.hash in objs
    ensures |es| < |objs|
  {
    KeysCount(es);
    forall k | k in Keys(es)
      ensures k in objs && k != d
    {
      var i :| 0 <= i < |es| && es[i].hash == k;
      assert es[i] in es;
    }
    SubsetSize(Keys(es) + {d}, objs.Keys);
  }

  lemma {:induction false} KeysCount(es: seq<Entry>)
    requires DistinctKeys(es)
    ensures |Keys(es)| == |es|
  {
    if es != [] {
      var n := |es| - 1;
      KeysCount(es[..n]);
      assert es == es[..n] + [es[n]];
      assert Keys(es) == Keys(es[..n]) + {es[n].hash};
    }
  }

  function Keys(es: seq<Entry>): set<Digest> {
    set i | 0 <= i < |es| :: es[i].hash
  }

  lemma StoredAllStep(objs: Objects, items: seq<PendingWrite>, i: nat)
    requires i < |items|
    ensures StoredAll(objs, items[..i + 1]) == Stored(StoredAll(objs, items[..i]), items[i].hash, items[i].data)
    ensures |StoredAll(objs, items[..i + 1])| <= |StoredAll(objs, items)|
    ensures forall d :: d in StoredAll(objs, items[..i + 1]) ==>
      d in StoredAll(objs, items) && StoredAll(objs, items)[d] == StoredAll(objs, items[..i + 1])[d]
  {
    StoredAllSnoc(objs, items[..i], items[i]);
    assert items[..i] + [items[i]] == items[..i + 1];
    assert items == items[..i + 1] + items[i + 1..];
    StoredAllAppend(objs, items[..i + 1], items[i + 1..]);
    StoredAllKeeps(StoredAll(objs, items[..i + 1]), items[i + 1..]);
    SubsetSize(StoredAll(objs, items[..i + 1]).Keys, StoredAll(objs, items).Keys);
  }

  // ---- Recovering one file after another ----

  lemma PromotableStep(h: HashFn, objs: Objects, done: Objects, d: Digest, data: Bytes)
    requires d !in done
    ensures d !in Promotable(h, objs, done)
    ensures Promotable(h, objs, done[d := data])
         == Promotable(h, objs, done) + (if d !in objs && h(data) == d then {d} else {})
  {
  }

  lemma RecoverPromotes(h: HashFn, objs: Objects, done: Objects, d: Digest, data: Bytes)
    requires d !in done && d !in objs && h(data) == d
    ensures Recovered(h, objs, done[d := data]) == Recovered(h, objs, done)[d := data]
    ensures |Promotable(h, objs, done[d := data])| == |Promotable(h, objs, done)| + 1
  {
    PromotableStep(h, objs, done, d, data);
    RecoveredAdds(h, objs, done, d, data);
  }

  lemma RecoveredAdds(h: HashFn, objs: Objects, done: Objects, d: Digest, data: Bytes)
    requires d !in done && d !in objs && h(data) == d
    requires Promotable(h, objs, done[d := data]) == Promotable(h, objs, done) + {d}
    ensures Recovered(h, objs, done[d := data]) == Recovered(h, objs, done)[d := data]
  {
    var a, b := Recovered(h, objs, done[d := data]), Recovered(h, objs, done)[d := data];
    assert a.Keys == b.Keys;
    forall x | x in a
      ensures a[x] == b[x]
    {
    }
  }

  lemma RecoverDrops(h: HashFn, objs: Objects, done: Objects, d: Digest, data: Bytes)
    requires d !in done && (d in objs || h(data) != d)
    ensures Recovered(h, objs, done[d := data]) == Recovered(h, objs, done)
    ensures Promotable(h, objs, done[d := data]) == Promotable(h, objs, done)
  {
    PromotableStep(h, objs, done, d, data);
    var a, b := Recovered(h, objs, done[d := data]), Recovered(h, objs, done);
    assert a.Keys == b.Keys;
    forall x | x in a
      ensures a[x] == b[x]
    {
    }
  }

  lemma MapUnits<K, V>(a: map<K, V>)
    ensures a + map[] == a && map[] + a == a
  {
  }

  lemma MoveKey<K, V>(a: map<K, V>, b: map<K, V>, k: K)
    requires a.Keys !! b.Keys && k in b
    ensures a[k := b[k]] + (b - {k}) == a + b
    ensures a[k := b[k]].Keys !! (b - {k}).Keys
  {
  }

  lemma RecoverOne(h: HashFn, objs: Objects, done: Objects, d: Digest, data: Bytes)
    requires d !in done
    ensures d in Recovered(h, objs, done) <==> d in objs
    ensures Recovered(h, objs, done[d := data])
         == if d !in objs && h(data) == d then Recovered(h, objs, done)[d := data] else Recovered(h, objs, done)
    ensures |Promotable(h, objs, done[d := data])|
         == |Promotable(h, objs, done)| + (if d !in objs && h(data) == d then 1 else 0)
  {
    PromotableStep(h, objs, done, d, data);
    if d !in objs && h(data) == d {
      RecoverPromotes(h, objs, done, d, data);
    } else {
      RecoverDrops(h, objs, done, d, data);
    }
  }

  /** A crash during recovery: recovery that stopped after any of the temporary files, run again over the
      others, gives the store that one undisturbed recovery gives. */
  lemma RecoverResumes(h: HashFn, objs: Objects, done: Objects, rest: Objects)
    requires done.Keys !! rest.Keys
    ensures Recovered(h, Recovered(h, objs, done), rest) == Recovered(h, objs, done + rest)
  {
    var once := Recovered(h, objs, done);
    var a, b := Recovered(h, once, rest), Recovered(h, objs, done + rest);
    forall d
      ensures d in a <==> d in b
      ensures d in a && d in b ==> a[d] == b[d]
    {
      RecoveredAt(h, objs, done, d);
      RecoveredAt(h, once, rest, d);
      RecoveredAt(h, objs, done + rest, d);
    }
    assert a.Keys == b.Keys;
  }

  lemma RecoveredAt(h: HashFn, objs: Objects, temps: Objects, d: Digest)
    ensures var after := Recovered(h, objs, temps);
      && (d in after <==> d in objs || (d in temps && h(temps[d]) == d))
      && (d in after ==> after[d] == if d in objs then objs[d] else temps[d])
  {
  }

  lemma {:induction false} StoredAllAppend(objs: Objects, a: seq<PendingWrite>, b: seq<PendingWrite>)
    ensures StoredAll(objs, a + b) == StoredAll(StoredAll(objs, a), b)
    decreases a
  {
    if a == [] {
      assert a + b == b;
    } else {
      assert (a + b)[1..] == a[1..] + b;
      StoredAllAppend(Stored(objs, a[0].hash, a[0].data), a[1..], b);
    }
  }

  lemma StoredAllSnoc(objs: Objects, items: seq<PendingWrite>, p: PendingWrite)
    ensures StoredAll(objs, items + [p]) == Stored(StoredAll(objs, items), p.hash, p.data)
  {
    StoredAllAppend(objs, items, [p]);
    assert StoredAll(StoredAll(objs, items), [p])
      == StoredAll(Stored(StoredAll(objs, items), p.hash, p.data), [p][1..]);
  }

  // ---- Batch hints are trusted ----

  /** Each buffered write that will really create its object is named by its own digest. */
  predicate NewOnesTruthful(h: HashFn, objs: Objects, items: seq<PendingWrite>)
    decreases items
  {
    items == [] ||
    ((items[0].hash in objs || h(items[0].data) == items[0].hash)
      && NewOnesTruthful(h, Stored(objs, items[0].hash, items[0].data), items[1..]))
  }

  /** A flush keeps the store sound exactly when every hint that creates an object is truthful: the
      source takes a caller's digest as it is. */
  lemma {:induction false} FlushSoundIff(h: HashFn, objs: Objects, items: seq<PendingWrite>)
    ensures Sound(h, StoredAll(objs, items)) <==> Sound(h, objs) && NewOnesTruthful(h, objs, items)
    decreases items
  {
    if items != [] {
      var d, data := items[0].hash, items[0].data;
      FlushSoundIff(h, Stored(objs, d, data), items[1..]);
      if Sound(h, Stored(objs, d, data)) {
        assert forall x :: x in objs ==> Stored(objs, d, data)[x] == objs[x];
        assert h(Stored(objs, d, data)[d]) == d;
      }
    }
  }

  /** One batch with a false hint leaves an object whose bytes do not hash to its name. */
  method FalseHintStored(h: HashFn, d: Digest) returns (s: ContentStore)
    requires h([7]) != d
    ensures fresh(s) && fresh(s.cache) && s.Valid() && s.h == h && s.objects == map[d := [7]] && s.temps == map[]
    ensures s.h(s.objects[d]) != d && s.cache.maxChunks == 10 && s.cache.maxSize == 1000
  {
    s := new ContentStore(h, map[], map[], 10, 1000);
    var chunks := [Chunk([7], Some(d))];
    assert chunks[..0] == [] && s.pending == [];
    assert Fresh(h, chunks, {}) == [PendingWrite(d, [7])];
    assert Accepted(chunks) == chunks by { AcceptedPrefix(chunks, 1); }
    var ok, _ := s.Accumulate(chunks);
    assert s.pending == [PendingWrite(d, [7])];
    assert Recovered(h, map[], map[]) == map[];
    ok := s.FlushInternal();
    assert StoredAll(map[], [PendingWrite(d, [7])]) == StoredAll(map[d := [7]], [PendingWrite(d, [7])][1..]);
  }

  lemma OneMisnamed(h: HashFn, d: Digest)
    requires h([7]) != d
    ensures |Unreadable(h, map[d := [7]])| == 1 && |Missed(h, map[d := [7]], [])| == 1
  {
    assert Unreadable(h, map[d := [7]]) == {d} && Missed(h, map[d := [7]], []) == {d};
  }

  /** Once it is no longer cached, a read of it and a verification of the store both find it out. */
  method FalseHintFound(h: HashFn, d: Digest) returns (read: Result<Bytes, CasError>, report: Option<Report>)
    requires h([7]) != d
    ensures read == Err(HashMismatch(d, h([7])))
    ensures report == Some(Report(0, 1, 0)) && !report.value.IsHealthy()
  {
    var s := FalseHintStored(h, d);
    s.ClearCache();
    read, report := Misnamed(s, d);
  }

  method Misnamed(s: ContentStore, d: Digest) returns (read: Result<Bytes, CasError>, report: Option<Report>)
    requires s.Valid() && s.h([7]) != d && s.objects == map[d := [7]] && s.temps == map[]
    requires s.cache.entries == [] && s.cache.OverCount() == 0 && s.cache.maxChunks > 0 && s.cache.maxSize > 0
    modifies s.cache
    ensures read == Err(HashMismatch(d, s.h([7]))) && report == Some(Report(0, 1, 0))
  {
    OneMisnamed(s.h, d);
    assert s.Roomy(s.objects);
    read := s.Read(d);
    report := s.VerifyIntegrity();
    assert |s.objects| == 1 && |s.temps| == 0;
  }
}
