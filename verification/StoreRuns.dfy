/** Whole runs of the content store: any list of operations, in any order, with any number of
    resumable transfers open at once, against one store. */
module StoreRuns {
  import opened Common
  import opened ChunkCaches
  import opened ContentStores

  datatype Op =
    | OpWrite(data: Bytes)
    | OpBatch(chunks: seq<Chunk>, elapsed: bool)
    | OpFlush
    | OpStream(parts: seq<Bytes>, expected: Option<Digest>, id: nat)
    | OpStart(id: nat, expected: Option<Digest>, totalSize: Option<nat>)
    | OpContinue(id: nat, parts: seq<Bytes>, expired: bool)
    | OpComplete(id: nat, expired: bool)
    | OpCancel(id: nat)
    | OpCleanup(aged: set<nat>)
    | OpRead(hash: Digest)
    | OpPrefetch(hashes: seq<Digest>)
    | OpClearCache
    | OpRecover

  datatype Out =
    | Wrote(outcome: Outcome)
    | Continued(ok: bool)
    | Batched(refs: Result<seq<ObjectRef>, CasError>)
    | ReadOut(data: Result<Bytes, CasError>)
    | Done

  // ---- Open transfers ----

  /** A transfer as its caller sees it: everything delivered so far, and whether its file exists. */
  datatype Transfer = Transfer(expected: Option<Digest>, totalSize: Option<nat>, bytes: Bytes, onDisk: bool)

  type Transfers = map<nat, Transfer>

  /** A round is refused when the transfer has expired, or when its file is gone though it had bytes. */
  predicate Accepts(t: Transfer, expired: bool) {
    !expired && (t.bytes == [] || t.onDisk)
  }

  function Opened(m: Transfers, op: Op): Transfers {
    match op
    case OpStart(id, expected, totalSize) => m[id := Transfer(expected, totalSize, [], false)]
    case OpContinue(id, parts, expired) =>
      if id !in m || !Accepts(m[id], expired) then m
      else m[id := m[id].(bytes := m[id].bytes + Delivered(parts), onDisk := true)]
    case OpComplete(id, _) => m - {id}
    case OpCancel(id) => m - {id}
    case OpCleanup(aged) => map id | id in m :: if id in aged then m[id].(onDisk := false) else m[id]
    case _ => m
  }

  /** The transfers open after a list of operations. */
  function OpenAfter(ops: seq<Op>): Transfers {
    if ops == [] then map[] else Opened(OpenAfter(ops[..|ops| - 1]), ops[|ops| - 1])
  }

  predicate IsPut(op: Op) {
    op.OpWrite? || op.OpStream? || op.OpComplete?
  }

  /** The bytes an operation asks the store to persist before it returns. */
  function Put(m: Transfers, op: Op): Option<Bytes> {
    match op
    case OpWrite(data) => Some(data)
    case OpStream(parts, _, _) => Some(Delivered(parts))
    case OpComplete(id, _) => if id in m && m[id].onDisk then Some(m[id].bytes) else None
    case _ => None
  }

  /** The answer to an operation that persists, from its own arguments and what was delivered. */
  function Answer(h: HashFn, m: Transfers, op: Op): Outcome {
    match op
    case OpWrite(data) => if |data| > MAX_OBJECT_SIZE then Err(InvalidOperation) else Ok(ObjectRef(h(data), |data|))
    case OpStream(parts, expected, _) => Checked(h, Delivered(parts), expected, None)
    case OpComplete(id, expired) =>
      if expired || id !in m || !m[id].onDisk then Err(InvalidOperation)
      else Checked(h, m[id].bytes, m[id].expected, m[id].totalSize)
    case _ => Err(InvalidOperation)
  }

  function Checked(h: HashFn, data: Bytes, expected: Option<Digest>, size: Option<nat>): Outcome {
    if expected.Some? && expected.value != h(data) then Err(HashMismatch(expected.value, h(data)))
    else if size.Some? && size.value != |data| then Err(InvalidOperation)
    else Ok(ObjectRef(h(data), |data|))
  }

  /** The answer to a batch whose hints are truthful: refused when a chunk is too large, and otherwise
      the digest and the size of every chunk. */
  function BatchAnswer(h: HashFn, chunks: seq<Chunk>): Result<seq<ObjectRef>, CasError> {
    if Accepted(chunks) != chunks then Err(InvalidOperation)
    else Ok(seq(|chunks|, i requires 0 <= i < |chunks| => ObjectRef(h(chunks[i].data), |chunks[i].data|)))
  }

  // ---- The invariant ----

  /** Everything the operation brings in is in `u`, and the batch hints it carries are truthful. */
  ghost predicate Honest(h: HashFn, u: set<Bytes>, m: Transfers, op: Op) {
    && (Put(m, op).Some? ==> Put(m, op).value in u)
    && (op.OpBatch? ==> forall c :: c in op.chunks ==> c.data in u && ChunkHash(h, c) == h(c.data))
  }

  /** New scratch files have new names, and only open transfers are continued, completed or cancelled. */
  ghost predicate Named(foreign: set<nat>, m: Transfers, op: Op) {
    && (op.OpStream? || op.OpStart? ==> op.id !in foreign && op.id !in m)
    && (op.OpContinue? || op.OpComplete? || op.OpCancel? ==> op.id in m)
  }

  ghost predicate Inv(s: ContentStore, u: set<Bytes>)
    reads s, s.cache
  {
    && s.Valid() && s.SizesRight() && Sound(s.h, s.objects)
    && (forall d :: d in s.objects ==> s.objects[d] in u)
    && (forall d :: d in s.temps ==> s.temps[d] in u)
    && (forall p :: p in s.pending ==> p.data in u && p.hash == s.h(p.data))
    && CollisionFreeOn(s.h, u)
  }

  /** The callers' handles and the scratch files are what the transfers say; other scratch files are
      none of theirs. */
  ghost predicate Tracks(scratch: map<nat, Bytes>, open: map<nat, PartialTransfer>, m: Transfers, foreign: set<nat>) {
    && open.Keys == m.Keys && m.Keys !! foreign && scratch.Keys <= m.Keys + foreign
    && forall id :: id in m ==> TracksOne(scratch, open[id], m[id], id)
  }

  ghost predicate TracksOne(scratch: map<nat, Bytes>, p: PartialTransfer, t: Transfer, id: nat) {
    && p == PartialTransfer(id, t.expected, t.totalSize, |t.bytes|)
    && (id in scratch <==> t.onDisk) && (t.onDisk ==> scratch[id] == t.bytes)
  }

  /** The whole universe of data could be cached at once. */
  ghost predicate Room(s: ContentStore, u: set<Bytes>)
    reads s, s.cache
  {
    |u| <= s.cache.maxChunks && forall x :: x in u ==> s.cache.OverCount() + |x| <= s.cache.maxSize
  }

  ghost predicate Extends(before: Objects, after: Objects) {
    forall d :: d in before ==> d in after && after[d] == before[d]
  }

  /** Stored already, or waiting in the batch buffer. */
  ghost predicate Held(objects: Objects, pending: seq<PendingWrite>, d: Digest) {
    d in objects || exists p :: p in pending && p.hash == d
  }

  ghost predicate AllHeld(objects: Objects, pending: seq<PendingWrite>, h: HashFn, chunks: seq<Chunk>) {
    forall c :: c in chunks ==> Held(objects, pending, h(c.data))
  }

  ghost predicate StoredAs(h: HashFn, objects: Objects, x: Bytes) {
    h(x) in objects && objects[h(x)] == x
  }

  /** An operation that hangs is one that caches: a read or prefetch of a readable object, or a flush of a
      buffer with an item that was not stored before, where the object does not fit the emptied cache. */
  ghost predicate HangsOn(s: ContentStore, op: Op, objs: Objects, pend: seq<PendingWrite>)
    reads s, s.cache
  {
    match op
    case OpRead(d) => s.Blocked(d) && ReadDisk(s.h, s.objects, d).Ok?
    case OpPrefetch(hashes) =>
      exists i :: 0 <= i < |hashes| && s.Blocked(hashes[i]) && ReadDisk(s.h, s.objects, hashes[i]).Ok?
    case OpFlush => exists p :: p in pend && p.hash !in objs && s.Blocked(p.hash)
    case OpBatch(_, _) => exists p :: (p in pend || FromBatch(s.h, op, p)) && p.hash !in objs && s.Blocked(p.hash)
    case _ => false
  }

  /** The buffered write of one of the chunks of a batch. */
  ghost predicate FromBatch(h: HashFn, op: Op, p: PendingWrite) {
    op.OpBatch? && exists c :: c in op.chunks && p == PendingWrite(ChunkHash(h, c), c.data)
  }

  // ---- Facts about lists of buffered writes ----

  lemma {:induction false} AcceptedItems(chunks: seq<Chunk>)
    ensures forall c :: c in Accepted(chunks) ==> c in chunks
  {
    if chunks != [] && |chunks[0].data| <= MAX_OBJECT_SIZE {
      AcceptedItems(chunks[1..]);
    }
  }

  lemma {:induction false} FreshItems(h: HashFn, chunks: seq<Chunk>, known: set<Digest>)
    ensures forall p :: p in Fresh(h, chunks, known) ==>
              exists c :: c in chunks && p == PendingWrite(ChunkHash(h, c), c.data)
    ensures forall c :: c in chunks ==>
              ChunkHash(h, c) in known || PendingWrite(ChunkHash(h, c), c.data) in Fresh(h, chunks, known)
  {
    if chunks != [] {
      var last := chunks[|chunks| - 1];
      FreshItems(h, chunks[..|chunks| - 1], known);
      assert chunks == chunks[..|chunks| - 1] + [last];
    }
  }

  /** Objects named by their digests and taken from `u`. */
  ghost predicate Within(h: HashFn, u: set<Bytes>, objs: Objects) {
    Sound(h, objs) && forall d :: d in objs ==> objs[d] in u
  }

  ghost predicate AllTruthful(h: HashFn, u: set<Bytes>, items: seq<PendingWrite>) {
    forall p :: p in items ==> p.data in u && p.hash == h(p.data)
  }

  /** Storing honest items keeps the store sound and inside the universe. */
  lemma StoredAllHonest(h: HashFn, u: set<Bytes>, objs: Objects, items: seq<PendingWrite>)
    requires Within(h, u, objs) && AllTruthful(h, u, items)
    ensures Within(h, u, StoredAll(objs, items)) && Extends(objs, StoredAll(objs, items))
  {
    StoredAllKeeps(objs, items);
  }

  lemma RecoveredHonest(h: HashFn, u: set<Bytes>, objs: Objects, temps: Objects)
    requires Within(h, u, objs) && forall d :: d in temps ==> temps[d] in u
    ensures Within(h, u, Recovered(h, objs, temps)) && Extends(objs, Recovered(h, objs, temps))
  {
  }

  /** A store within a universe has no more objects than the universe has strings. */
  lemma {:induction false} WithinCount(h: HashFn, u: set<Bytes>, objs: Objects)
    requires Within(h, u, objs)
    ensures |objs| <= |u|
    decreases |objs|
  {
    if objs != map[] {
      var d :| d in objs;
      var rest := objs - {d};
      assert h(objs[d]) == d;
      forall x | x in rest
        ensures rest[x] in u - {objs[d]}
      {
        assert h(objs[x]) == x;
      }
      WithinCount(h, u - {objs[d]}, rest);
      assert objs.Keys == rest.Keys + {d};
    }
  }

  lemma RoomForAll(s: ContentStore, u: set<Bytes>, objs: Objects)
    requires Room(s, u) && Within(s.h, u, objs)
    ensures s.Roomy(objs)
  {
    WithinCount(s.h, u, objs);
  }

  // ---- One operation ----

  /** What one operation guarantees about the store before and after it. */
  ghost predicate Progress(h: HashFn, m: Transfers, op: Op, out: Out, objs: Objects, pend: seq<PendingWrite>,
                           objs': Objects, pend': seq<PendingWrite>) {
    && Extends(objs, objs')
    && (forall d :: Held(objs, pend, d) ==> Held(objs', pend', d))
    && (IsPut(op) ==> out == Wrote(Answer(h, m, op)))
    && (IsPut(op) && Answer(h, m, op).Ok? ==> StoredAs(h, objs', Put(m, op).value))
    && (op.OpContinue? ==> out == Continued(op.id in m && Accepts(m[op.id], op.expired)))
    && (op.OpBatch? ==> out == Batched(BatchAnswer(h, op.chunks)))
    && (op.OpBatch? && Accepted(op.chunks) == op.chunks ==> AllHeld(objs', pend', h, op.chunks))
    && (op.OpFlush? ==> pend' == [])
    && (forall p :: p in pend' ==> p in pend || FromBatch(h, op, p))
    && (op.OpRead? ==>
          && out.ReadOut?
          && (out.data.Ok? ==> op.hash in objs && out.data.value == objs[op.hash])
          && (out.data.Err? ==> op.hash !in objs || objs[op.hash] == []))
  }

  /** One operation. It hangs only where the cache has no room for an object, and never while the
      cache has room for everything. */
  method Step(s: ContentStore, op: Op, open: map<nat, PartialTransfer>, ghost m: Transfers, ghost foreign: set<nat>,
              ghost u: set<Bytes>)
    returns (out: Out, open': map<nat, PartialTransfer>, stalled: bool)
    requires Inv(s, u) && Honest(s.h, u, m, op) && Named(foreign, m, op) && Tracks(s.scratch, open, m, foreign)
    modifies s, s.cache
    ensures Inv(s, u) && Extends(old(s.objects), s.objects)
    ensures !stalled ==> Tracks(s.scratch, open', Opened(m, op), foreign)
    ensures !stalled ==> Progress(s.h, m, op, out, old(s.objects), old(s.pending), s.objects, s.pending)
    ensures stalled ==> HangsOn(s, op, old(s.objects), old(s.pending))
    ensures old(Room(s, u)) ==> !stalled && Room(s, u)
  {
    out, open', stalled := Done, open, false;
    if op.OpWrite? || op.OpStream? || op.OpComplete? {
      out, open' := StepPut(s, op, open, m, foreign, u);
    } else if op.OpStart? || op.OpContinue? || op.OpCancel? || op.OpCleanup? {
      out, open' := StepTransfer(s, op, open, m, foreign, u);
    } else if op.OpBatch? {
      out, stalled := StepBatch(s, op, m, u);
    } else if op.OpFlush? {
      stalled := StepFlush(s, m, u);
    } else {
      out, stalled := StepOther(s, op, m, u);
    }
  }

  /** Single, streamed and completed writes. */
  method StepPut(s: ContentStore, op: Op, open: map<nat, PartialTransfer>, ghost m: Transfers, ghost foreign: set<nat>,
                 ghost u: set<Bytes>)
    returns (out: Out, open': map<nat, PartialTransfer>)
    requires Inv(s, u) && Honest(s.h, u, m, op) && Named(foreign, m, op) && Tracks(s.scratch, open, m, foreign)
      && IsPut(op)
    modifies s`objects, s`temps, s`dedup, s`scratch
    ensures Inv(s, u) && Tracks(s.scratch, open', Opened(m, op), foreign)
    ensures Progress(s.h, m, op, out, old(s.objects), old(s.pending), s.objects, s.pending)
  {
    open' := open;
    if op.OpWrite? {
      assert s.NoClash(s.h(op.data), op.data);
      var r := s.Write(op.data);
      out := Wrote(r);
    } else if op.OpStream? {
      assert s.NoClash(s.h(Delivered(op.parts)), Delivered(op.parts));
      var r := s.WriteStream(op.parts, op.expected, op.id);
      out := Wrote(r);
    } else {
      out, open' := StepComplete(s, op.id, op.expired, open, m, foreign, u);
    }
  }

  method StepComplete(s: ContentStore, id: nat, expired: bool, open: map<nat, PartialTransfer>, ghost m: Transfers,
                      ghost foreign: set<nat>, ghost u: set<Bytes>)
    returns (out: Out, open': map<nat, PartialTransfer>)
    requires Inv(s, u) && Tracks(s.scratch, open, m, foreign) && id in m && (m[id].onDisk ==> m[id].bytes in u)
    modifies s`objects, s`temps, s`dedup, s`scratch
    ensures Inv(s, u) && Tracks(s.scratch, open', m - {id}, foreign)
    ensures Progress(s.h, m, OpComplete(id, expired), out, old(s.objects), old(s.pending), s.objects, s.pending)
  {
    assert TracksOne(s.scratch, open[id], m[id], id);
    ghost var scratch := s.scratch;
    if m[id].onDisk {
      assert s.NoClash(s.h(m[id].bytes), m[id].bytes);
    }
    var r := s.CompleteResumable(open[id], expired);
    out, open' := Wrote(r), open - {id};
    ClosedTracks(scratch, open, m, foreign, id);
  }

  lemma ClosedTracks(scratch: map<nat, Bytes>, open: map<nat, PartialTransfer>, m: Transfers, foreign: set<nat>,
                     id: nat)
    requires Tracks(scratch, open, m, foreign) && id in m
    ensures Tracks(scratch - {id}, open - {id}, m - {id}, foreign)
  {
    forall x | x in m - {id}
      ensures TracksOne(scratch - {id}, (open - {id})[x], (m - {id})[x], x)
    {
      assert TracksOne(scratch, open[x], m[x], x);
    }
  }

  /** Starting, continuing, cancelling and cleaning up transfers touch scratch files only. */
  method StepTransfer(s: ContentStore, op: Op, open: map<nat, PartialTransfer>, ghost m: Transfers,
                      ghost foreign: set<nat>, ghost u: set<Bytes>)
    returns (out: Out, open': map<nat, PartialTransfer>)
    requires Inv(s, u) && Named(foreign, m, op) && Tracks(s.scratch, open, m, foreign)
    requires op.OpStart? || op.OpContinue? || op.OpCancel? || op.OpCleanup?
    modifies s`scratch
    ensures Inv(s, u) && Tracks(s.scratch, open', Opened(m, op), foreign)
    ensures Progress(s.h, m, op, out, old(s.objects), old(s.pending), s.objects, s.pending)
  {
    out := Done;
    if op.OpContinue? {
      out, open' := StepContinue(s, op, open, m, foreign);
    } else {
      open' := StepHandles(s, op, open, m, foreign);
    }
  }

  method StepContinue(s: ContentStore, op: Op, open: map<nat, PartialTransfer>, ghost m: Transfers,
                      ghost foreign: set<nat>)
    returns (out: Out, open': map<nat, PartialTransfer>)
    requires op.OpContinue? && op.id in m && Tracks(s.scratch, open, m, foreign)
    modifies s`scratch
    ensures Tracks(s.scratch, open', Opened(m, op), foreign) && out == Continued(Accepts(m[op.id], op.expired))
  {
    var id := op.id;
    ghost var scratch := s.scratch;
    open' := open;
    assert TracksOne(scratch, open[id], m[id], id);
    var r := s.ContinueResumable(open[id], op.parts, op.expired);
    out := Continued(r.Ok?);
    if r.Ok? {
      open' := open[id := r.value];
      ContinuedTracks(scratch, open, m, foreign, id, m[id].bytes + Delivered(op.parts));
    }
  }

  method StepHandles(s: ContentStore, op: Op, open: map<nat, PartialTransfer>, ghost m: Transfers,
                     ghost foreign: set<nat>)
    returns (open': map<nat, PartialTransfer>)
    requires Named(foreign, m, op) && Tracks(s.scratch, open, m, foreign)
      && (op.OpStart? || op.OpCancel? || op.OpCleanup?)
    modifies s`scratch
    ensures Tracks(s.scratch, open', Opened(m, op), foreign)
  {
    open' := open;
    ghost var scratch := s.scratch;
    match op {
      case OpStart(id, expected, totalSize) =>
        open' := open[id := PartialTransfer(id, expected, totalSize, 0)];
        StartedTracks(scratch, open, m, foreign, id, expected, totalSize);
      case OpCancel(id) =>
        assert TracksOne(scratch, open[id], m[id], id);
        s.CancelResumable(open[id]);
        open' := open - {id};
        ClosedTracks(scratch, open, m, foreign, id);
      case OpCleanup(aged) =>
        var _ := s.CleanupExpired(aged);
        CleanedTracks(scratch, open, m, foreign, aged);
    }
  }

  lemma StartedTracks(scratch: map<nat, Bytes>, open: map<nat, PartialTransfer>, m: Transfers, foreign: set<nat>,
                      id: nat,
                      expected: Option<Digest>, totalSize: Option<nat>)
    requires Tracks(scratch, open, m, foreign) && id !in m && id !in foreign
    ensures Tracks(scratch, open[id := PartialTransfer(id, expected, totalSize, 0)],
                   m[id := Transfer(expected, totalSize, [], false)], foreign)
  {
    var open', m' := open[id := PartialTransfer(id, expected, totalSize, 0)],
      m[id := Transfer(expected, totalSize, [], false)];
    forall x | x in m'
      ensures TracksOne(scratch, open'[x], m'[x], x)
    {
      if x != id {
        assert TracksOne(scratch, open[x], m[x], x);
      }
    }
  }

  lemma ContinuedTracks(scratch: map<nat, Bytes>, open: map<nat, PartialTransfer>, m: Transfers, foreign: set<nat>,
                        id: nat, bytes: Bytes)
    requires Tracks(scratch, open, m, foreign) && id in m
    ensures Tracks(scratch[id := bytes], open[id := open[id].(received := |bytes|)],
                   m[id := m[id].(bytes := bytes, onDisk := true)], foreign)
  {
    var scratch', open', m' := scratch[id := bytes], open[id := open[id].(received := |bytes|)],
                               m[id := m[id].(bytes := bytes, onDisk := true)];
    forall x | x in m'
      ensures TracksOne(scratch', open'[x], m'[x], x)
    {
      assert TracksOne(scratch, open[x], m[x], x);
    }
  }

  lemma CleanedTracks(scratch: map<nat, Bytes>, open: map<nat, PartialTransfer>, m: Transfers, foreign: set<nat>,
                      aged: set<nat>)
    requires Tracks(scratch, open, m, foreign)
    ensures Tracks(scratch - aged, open, Opened(m, OpCleanup(aged)), foreign)
  {
    var m' := Opened(m, OpCleanup(aged));
    forall x | x in m'
      ensures TracksOne(scratch - aged, open[x], m'[x], x)
    {
      assert TracksOne(scratch, open[x], m[x], x);
    }
  }

  method StepFlush(s: ContentStore, ghost m: Transfers, ghost u: set<Bytes>) returns (stalled: bool)
    requires Inv(s, u)
    modifies s, s.cache
    ensures Inv(s, u) && s.scratch == old(s.scratch) && Extends(old(s.objects), s.objects)
    ensures !stalled ==> Progress(s.h, m, OpFlush, Done, old(s.objects), old(s.pending), s.objects, s.pending)
    ensures stalled ==> HangsOn(s, OpFlush, old(s.objects), old(s.pending))
    ensures old(Room(s, u)) ==> !stalled && Room(s, u)
  {
    StoredAllKeeps(s.objects, s.pending);
    StoredAllHonest(s.h, u, s.objects, s.pending);
    ghost var items, objs := s.pending, s.objects;
    if Room(s, u) {
      RoomForAll(s, u, StoredAll(objs, items));
    }
    var ok := s.FlushBatch();
    stalled := !ok;
    if stalled {
      StalledHonest(s, u, objs, items);
    }
  }

  lemma StalledHonest(s: ContentStore, u: set<Bytes>, objs: Objects, items: seq<PendingWrite>)
    requires Within(s.h, u, objs) && AllTruthful(s.h, u, items) && exists k :: s.StalledAt(objs, items, k)
    ensures Within(s.h, u, s.objects) && Extends(objs, s.objects)
    ensures exists p :: p in items && p.hash !in objs && s.Blocked(p.hash)
  {
    var k: nat :| s.StalledAt(objs, items, k);
    StoredAllKeeps(objs, items[..k]);
    StoredAllHonest(s.h, u, objs, items[..k + 1]);
  }

  /** What the dedup index knows of an honest chunk is right. */
  lemma BatchRefs(h: HashFn, u: set<Bytes>, objs: Objects, known: map<Digest, ObjectRef>, chunks: seq<Chunk>,
                  refs: seq<ObjectRef>)
    requires Within(h, u, objs) && CollisionFreeOn(h, u)
    requires forall d :: d in known ==> d in objs && known[d] == ObjectRef(d, |objs[d]|)
    requires forall c :: c in chunks ==> c.data in u && ChunkHash(h, c) == h(c.data)
    requires Accepted(chunks) == chunks && |refs| == |chunks| && References(h, known, refs, chunks)
    ensures BatchAnswer(h, chunks) == Ok(refs)
  {
    forall i | 0 <= i < |chunks|
      ensures refs[i] == ObjectRef(h(chunks[i].data), |chunks[i].data|)
    {
      var c := chunks[i];
      assert c in chunks && refs[i] == RefOf(h, known, c);
      if h(c.data) in known {
        assert h(objs[h(c.data)]) == h(c.data);
      }
    }
    assert BatchAnswer(h, chunks).value == refs;
  }

  /** A batch that did not hang: what was buffered is stored or buffered still. */
  lemma BatchProgress(h: HashFn, m: Transfers, op: Op, objs: Objects, pend: seq<PendingWrite>, known: set<Digest>,
                      objs': Objects, pend': seq<PendingWrite>)
    requires op.OpBatch? && known <= objs.Keys && forall c :: c in op.chunks ==> ChunkHash(h, c) == h(c.data)
    requires var buffered := pend + Fresh(h, Accepted(op.chunks), known);
      || (objs' == objs && pend' == buffered)
      || (objs' == StoredAll(objs, buffered) && pend' == [])
    ensures Progress(h, m, op, Batched(BatchAnswer(h, op.chunks)), objs, pend, objs', pend')
  {
    var fresh' := Fresh(h, Accepted(op.chunks), known);
    AcceptedItems(op.chunks);
    FreshItems(h, Accepted(op.chunks), known);
    StoredAllKeeps(objs, pend + fresh');
    assert forall p :: p in pend + fresh' ==> p in pend || p in fresh';
    forall d | Held(objs, pend, d)
      ensures Held(objs', pend', d)
    {
      if d !in objs {
        var p :| p in pend && p.hash == d;
        assert p in pend + fresh';
      }
    }
    if Accepted(op.chunks) == op.chunks {
      forall c | c in op.chunks
        ensures Held(objs', pend', h(c.data))
      {
        if h(c.data) !in known {
          assert PendingWrite(h(c.data), c.data) in pend + fresh';
        }
      }
    }
  }

  method StepBatch(s: ContentStore, op: Op, ghost m: Transfers, ghost u: set<Bytes>) returns (out: Out, stalled: bool)
    requires Inv(s, u) && op.OpBatch? && Honest(s.h, u, m, op)
    modifies s, s.cache
    ensures Inv(s, u) && s.scratch == old(s.scratch) && Extends(old(s.objects), s.objects)
    ensures !stalled ==> Progress(s.h, m, op, out, old(s.objects), old(s.pending), s.objects, s.pending)
    ensures stalled ==> HangsOn(s, op, old(s.objects), old(s.pending))
    ensures old(Room(s, u)) ==> !stalled && Room(s, u)
  {
    ghost var objs, index, known := s.objects, s.dedup, s.dedup.Keys;
    ghost var buffered := s.pending + Fresh(s.h, Accepted(op.chunks), known);
    AcceptedItems(op.chunks);
    FreshItems(s.h, Accepted(op.chunks), known);
    assert AllTruthful(s.h, u, buffered);
    StoredAllHonest(s.h, u, objs, buffered);
    StoredAllKeeps(objs, buffered);
    if Room(s, u) {
      RoomForAll(s, u, StoredAll(objs, buffered));
    }
    var r := s.WriteBatch(op.chunks, op.elapsed);
    out, stalled := Batched(r), r == Err(Stalled);
    if r.Ok? {
      BatchRefs(s.h, u, objs, index, op.chunks, r.value);
    }
    if !stalled {
      BatchProgress(s.h, m, op, objs, old(s.pending), known, s.objects, s.pending);
    }
    if stalled {
      StalledHonest(s, u, objs, buffered);
      ghost var p :| p in buffered && p.hash !in objs && s.Blocked(p.hash);
      if p !in old(s.pending) {
        assert p in Fresh(s.h, Accepted(op.chunks), known);
      }
    }
  }

  /** Reads, prefetches, clearing the cache and recovery. */
  method StepOther(s: ContentStore, op: Op, ghost m: Transfers, ghost u: set<Bytes>) returns (out: Out, stalled: bool)
    requires Inv(s, u) && (op.OpRead? || op.OpPrefetch? || op.OpClearCache? || op.OpRecover?)
    modifies s`objects, s`temps, s.cache
    ensures Inv(s, u) && Extends(old(s.objects), s.objects)
    ensures !stalled ==> Progress(s.h, m, op, out, old(s.objects), old(s.pending), s.objects, s.pending)
    ensures stalled ==> HangsOn(s, op, old(s.objects), old(s.pending))
    ensures old(Room(s, u)) ==> !stalled && Room(s, u)
  {
    out, stalled := Done, false;
    if op.OpRecover? {
      StepRecover(s, u);
    } else {
      out, stalled := StepCached(s, op, u);
    }
  }

  method StepRecover(s: ContentStore, ghost u: set<Bytes>)
    requires Inv(s, u)
    modifies s`objects, s`temps
    ensures Inv(s, u) && Extends(old(s.objects), s.objects)
  {
    RecoveredHonest(s.h, u, s.objects, s.temps);
    var _ := s.Recover();
  }

  method StepCached(s: ContentStore, op: Op, ghost u: set<Bytes>) returns (out: Out, stalled: bool)
    requires Inv(s, u) && (op.OpRead? || op.OpPrefetch? || op.OpClearCache?)
    modifies s.cache
    ensures Inv(s, u)
    ensures op.OpRead? && !stalled ==>
      out.ReadOut? && (out.data == ReadDisk(s.h, s.objects, op.hash)
                       || (op.hash in s.objects && out.data == Ok(s.objects[op.hash])))
    ensures stalled ==> HangsOn(s, op, old(s.objects), old(s.pending))
    ensures old(Room(s, u)) ==> !stalled && Room(s, u)
  {
    out, stalled := Done, false;
    if Room(s, u) {
      RoomForAll(s, u, s.objects);
    }
    match op {
      case OpRead(d) =>
        var r := s.Read(d);
        out, stalled := ReadOut(r), r == Err(Stalled);
      case OpPrefetch(hashes) =>
        var ok := s.Prefetch(hashes);
        stalled := !ok;
      case OpClearCache =>
        s.ClearCache();
    }
  }

  // ---- Whole runs ----

  /** A batch acknowledged with this chunk in it. */
  ghost predicate BatchHas(op: Op, out: Out, x: Bytes) {
    op.OpBatch? && out.Batched? && out.refs.Ok? && exists c :: c in op.chunks && c.data == x
  }

  ghost predicate PutAt(h: HashFn, ops: seq<Op>, i: nat, x: Bytes)
    requires i < |ops|
  {
    var m := OpenAfter(ops[..i]);
    IsPut(ops[i]) && Answer(h, m, ops[i]).Ok? && Put(m, ops[i]) == Some(x)
  }

  /** By operation `n` the data is durable: a write of it succeeded, or a batch with it was
      acknowledged and a flush came after. */
  ghost predicate Secured(h: HashFn, ops: seq<Op>, outs: seq<Out>, n: nat, x: Bytes)
    requires n <= |outs| <= |ops|
  {
    || (exists i :: 0 <= i < n && PutAt(h, ops, i, x))
    || (exists i, k :: 0 <= i < k < n && BatchHas(ops[i], outs[i], x) && ops[k].OpFlush?)
  }

  ghost predicate AllSecured(h: HashFn, ops: seq<Op>, outs: seq<Out>, objects: Objects)
    requires |outs| <= |ops|
  {
    forall x :: Secured(h, ops, outs, |outs|, x) ==> StoredAs(h, objects, x)
  }

  ghost predicate BatchesHeld(h: HashFn, ops: seq<Op>, outs: seq<Out>, objects: Objects, pending: seq<PendingWrite>)
    requires |outs| <= |ops|
  {
    forall i, x :: 0 <= i < |outs| && BatchHas(ops[i], outs[i], x) ==> Held(objects, pending, h(x))
  }

  /** Reads see writes: once data is durable, every later read of its digest returns exactly it. */
  ghost predicate ReadsSee(h: HashFn, ops: seq<Op>, outs: seq<Out>)
    requires |outs| <= |ops|
  {
    forall j, x :: 0 <= j < |outs| && ops[j] == OpRead(h(x)) && x != [] && Secured(h, ops, outs, j, x) ==>
      outs[j] == ReadOut(Ok(x))
  }

  /** Whatever was stored before the run is read exactly, but for empty objects, which no read returns. */
  ghost predicate ReadsStart(ops: seq<Op>, outs: seq<Out>, start: Objects)
    requires |outs| <= |ops|
  {
    forall j :: 0 <= j < |outs| && ops[j].OpRead? && ops[j].hash in start && start[ops[j].hash] != [] ==>
      outs[j] == ReadOut(Ok(start[ops[j].hash]))
  }

  /** Reads make nothing up: what a read returned has the digest asked for, and is stored. */
  ghost predicate ReadsSound(h: HashFn, ops: seq<Op>, outs: seq<Out>, objects: Objects)
    requires |outs| <= |ops|
  {
    forall j :: 0 <= j < |outs| && ops[j].OpRead? ==>
      outs[j].ReadOut?
        && (outs[j].data.Ok? ==> h(outs[j].data.value) == ops[j].hash && StoredAs(h, objects, outs[j].data.value))
  }

  /** Every answer depends on the operation, and on what was delivered to its transfer, only. */
  ghost predicate Answered(h: HashFn, ops: seq<Op>, outs: seq<Out>)
    requires |outs| <= |ops|
  {
    forall i :: 0 <= i < |outs| ==> AnswersAt(h, OpenAfter(ops[..i]), ops[i], outs[i])
  }

  ghost predicate AnswersAt(h: HashFn, m: Transfers, op: Op, out: Out) {
    && (IsPut(op) ==> out == Wrote(Answer(h, m, op)))
    && (op.OpContinue? ==> out == Continued(op.id in m && Accepts(m[op.id], op.expired)))
    && (op.OpBatch? ==> out == Batched(BatchAnswer(h, op.chunks)))
  }

  ghost predicate AllHonest(h: HashFn, u: set<Bytes>, foreign: set<nat>, ops: seq<Op>) {
    forall i :: 0 <= i < |ops| ==>
      Honest(h, u, OpenAfter(ops[..i]), ops[i]) && Named(foreign, OpenAfter(ops[..i]), ops[i])
  }

  /** Any run: the operations are executed one after another, until one hangs. None does while the
      cache has room for everything. */
  method Run(s: ContentStore, ops: seq<Op>, ghost u: set<Bytes>) returns (outs: seq<Out>, stalled: bool)
    requires Inv(s, u) && AllHonest(s.h, u, s.scratch.Keys, ops)
    modifies s, s.cache
    ensures Inv(s, u) && Extends(old(s.objects), s.objects)
    ensures if stalled
            then |outs| < |ops| && HungAt(s, ops, |outs|, old(s.objects), old(s.pending))
            else |outs| == |ops|
    ensures old(Room(s, u)) ==> !stalled
    ensures Settled(s.h, ops, outs, s.objects) && ReadsStart(ops, outs, old(s.objects))
    ensures !stalled ==> BatchesHeld(s.h, ops, outs, s.objects, s.pending)
    ensures !stalled && ops != [] && ops[|ops| - 1].OpFlush? ==> s.pending == []
  {
    ghost var trace;
    outs, stalled, trace := RunTrace(s, ops, u);
    TraceKept(s.h, u, old(s.scratch).Keys, ops, outs, trace);
    if stalled {
      StillSettled(s.h, ops, outs, trace[|outs|].objects, s.objects);
      Hung(s, ops, |outs|, trace[0], trace[|outs|]);
    }
  }

  /** The loop itself: execute, and note what is stored and buffered after each operation. */
  method RunTrace(s: ContentStore, ops: seq<Op>, ghost u: set<Bytes>)
    returns (outs: seq<Out>, stalled: bool, ghost trace: seq<Point>)
    requires Inv(s, u) && AllHonest(s.h, u, s.scratch.Keys, ops)
    modifies s, s.cache
    ensures Inv(s, u) && IsTrace(s.h, u, ops, outs, trace) && trace[0] == Point(old(s.objects), old(s.pending))
    ensures if stalled
            then |outs| < |ops| && HangsOn(s, ops[|outs|], trace[|outs|].objects, trace[|outs|].pending)
                 && Extends(trace[|outs|].objects, s.objects)
            else |outs| == |ops| && trace[|outs|] == Point(s.objects, s.pending)
    ensures old(Room(s, u)) ==> !stalled
  {
    outs, stalled, trace := [], false, [Point(s.objects, s.pending)];
    ghost var foreign := s.scratch.Keys;
    var open: map<nat, PartialTransfer> := map[];
    var n := 0;
    while n < |ops|
      invariant n == |outs| <= |ops| && Inv(s, u) && IsTrace(s.h, u, ops, outs, trace)
      invariant Tracks(s.scratch, open, OpenAfter(ops[..n]), foreign)
      invariant trace[0] == Point(old(s.objects), old(s.pending)) && trace[n] == Point(s.objects, s.pending)
      invariant old(Room(s, u)) ==> Room(s, u)
    {
      var out;
      out, open, stalled := StepNth(s, ops, n, open, foreign, u);
      if stalled {
        return;
      }
      TraceSnoc(s.h, u, ops, outs, trace, out, Point(s.objects, s.pending));
      outs := outs + [out];
      trace := trace + [Point(s.objects, s.pending)];
      n := n + 1;
    }
  }

  /** Operation `n` of a list. */
  method StepNth(s: ContentStore, ops: seq<Op>, n: nat, open: map<nat, PartialTransfer>, ghost foreign: set<nat>,
                 ghost u: set<Bytes>)
    returns (out: Out, open': map<nat, PartialTransfer>, stalled: bool)
    requires Inv(s, u) && n < |ops| && AllHonest(s.h, u, foreign, ops)
      && Tracks(s.scratch, open, OpenAfter(ops[..n]), foreign)
    modifies s, s.cache
    ensures Inv(s, u)
    ensures !stalled ==> Tracks(s.scratch, open', OpenAfter(ops[..n + 1]), foreign)
    ensures !stalled ==>
      StepAt(s.h, u, OpenAfter(ops[..n]), ops[n], out, Point(old(s.objects), old(s.pending)),
        Point(s.objects, s.pending))
    ensures stalled ==> HangsOn(s, ops[n], old(s.objects), old(s.pending)) && Extends(old(s.objects), s.objects)
    ensures old(Room(s, u)) ==> !stalled && Room(s, u)
  {
    ghost var m := OpenAfter(ops[..n]);
    NextOpen(ops, n);
    out, open', stalled := Step(s, ops[n], open, m, foreign, u);
  }

  lemma Hung(s: ContentStore, ops: seq<Op>, n: nat, first: Point, last: Point)
    requires n < |ops| && Extends(first.objects, last.objects) && Buffered(s.h, ops, n, first.pending, last.pending)
    requires HangsOn(s, ops[n], last.objects, last.pending)
    ensures HungAt(s, ops, n, first.objects, first.pending)
  {
  }

  // ---- Traces ----

  /** What is stored and what is buffered between two operations of a run. */
  datatype Point = Point(objects: Objects, pending: seq<PendingWrite>)

  ghost predicate StepAt(h: HashFn, u: set<Bytes>, m: Transfers, op: Op, out: Out, a: Point, b: Point) {
    Progress(h, m, op, out, a.objects, a.pending, b.objects, b.pending) && Within(h, u, b.objects)
  }

  /** The points of a run, one operation after another. */
  ghost predicate IsTrace(h: HashFn, u: set<Bytes>, ops: seq<Op>, outs: seq<Out>, trace: seq<Point>) {
    && |outs| <= |ops| && |trace| == |outs| + 1 && Within(h, u, trace[0].objects)
    && forall i :: 0 <= i < |outs| ==> StepAt(h, u, OpenAfter(ops[..i]), ops[i], outs[i], trace[i], trace[i + 1])
  }

  lemma TraceSnoc(h: HashFn, u: set<Bytes>, ops: seq<Op>, outs: seq<Out>, trace: seq<Point>, out: Out, next: Point)
    requires IsTrace(h, u, ops, outs, trace) && |outs| < |ops|
    requires StepAt(h, u, OpenAfter(ops[..|outs|]), ops[|outs|], out, trace[|outs|], next)
    ensures IsTrace(h, u, ops, outs + [out], trace + [next])
  {
    var outs', trace' := outs + [out], trace + [next];
    forall i | 0 <= i < |outs'|
      ensures StepAt(h, u, OpenAfter(ops[..i]), ops[i], outs'[i], trace'[i], trace'[i + 1])
    {
      if i < |outs| {
        assert StepAt(h, u, OpenAfter(ops[..i]), ops[i], outs[i], trace[i], trace[i + 1]);
      }
    }
  }

  lemma TraceFront(h: HashFn, u: set<Bytes>, ops: seq<Op>, outs: seq<Out>, trace: seq<Point>)
    requires IsTrace(h, u, ops, outs, trace) && outs != []
    ensures IsTrace(h, u, ops, outs[..|outs| - 1], trace[..|outs|])
  {
    forall i | 0 <= i < |outs| - 1
      ensures StepAt(h, u, OpenAfter(ops[..i]), ops[i], outs[..|outs| - 1][i], trace[..|outs|][i],
        trace[..|outs|][i + 1])
    {
      assert StepAt(h, u, OpenAfter(ops[..i]), ops[i], outs[i], trace[i], trace[i + 1]);
    }
  }

  /** Along every trace, every promise is kept, the store only grows, and what is buffered comes from the
      start or from a batch. */
  lemma TraceKept(h: HashFn, u: set<Bytes>, foreign: set<nat>, ops: seq<Op>, outs: seq<Out>, trace: seq<Point>)
    requires IsTrace(h, u, ops, outs, trace) && AllHonest(h, u, foreign, ops) && CollisionFreeOn(h, u)
    ensures var last := trace[|outs|];
      && Kept(h, ops, outs, last.objects, last.pending) && ReadsStart(ops, outs, trace[0].objects)
      && Extends(trace[0].objects, last.objects) && Buffered(h, ops, |outs|, trace[0].pending, last.pending)
      && (outs != [] && ops[|outs| - 1].OpFlush? ==> last.pending == [])
  {
    TracePromises(h, u, foreign, ops, outs, trace);
    TraceExtends(h, u, ops, outs, trace, |outs|);
    TraceReadsStart(h, u, ops, outs, trace);
    TraceBuffered(h, u, ops, outs, trace);
  }

  lemma {:induction false} TracePromises(h: HashFn, u: set<Bytes>, foreign: set<nat>, ops: seq<Op>, outs: seq<Out>,
                                         trace: seq<Point>)
    requires IsTrace(h, u, ops, outs, trace) && AllHonest(h, u, foreign, ops) && CollisionFreeOn(h, u)
    ensures Kept(h, ops, outs, trace[|outs|].objects, trace[|outs|].pending)
    decreases |outs|
  {
    if outs != [] {
      var n := |outs| - 1;
      TraceFront(h, u, ops, outs, trace);
      TracePromises(h, u, foreign, ops, outs[..n], trace[..n + 1]);
      PromisesNext(h, u, foreign, ops, outs, trace);
    } else {
      KeptAtFirst(h, ops, trace[0]);
    }
  }

  lemma PromisesNext(h: HashFn, u: set<Bytes>, foreign: set<nat>, ops: seq<Op>, outs: seq<Out>, trace: seq<Point>)
    requires IsTrace(h, u, ops, outs, trace) && AllHonest(h, u, foreign, ops) && CollisionFreeOn(h, u) && outs != []
    requires Kept(h, ops, outs[..|outs| - 1], trace[|outs| - 1].objects, trace[|outs| - 1].pending)
    ensures Kept(h, ops, outs, trace[|outs|].objects, trace[|outs|].pending)
  {
    var n := |outs| - 1;
    var a, b := trace[n], trace[n + 1];
    TraceWithin(h, u, ops, outs, trace, n);
    assert StepAt(h, u, OpenAfter(ops[..n]), ops[n], outs[n], a, b);
    KeptGrows(h, u, foreign, ops, outs[..n], outs[n], a.objects, a.pending, b.objects, b.pending);
    TakeSnoc(outs, n);
    assert outs[..n + 1] == outs;
  }

  lemma TraceWithin(h: HashFn, u: set<Bytes>, ops: seq<Op>, outs: seq<Out>, trace: seq<Point>, i: nat)
    requires IsTrace(h, u, ops, outs, trace) && i <= |outs|
    ensures Within(h, u, trace[i].objects)
  {
    if i > 0 {
      assert StepAt(h, u, OpenAfter(ops[..i - 1]), ops[i - 1], outs[i - 1], trace[i - 1], trace[i]);
    }
  }

  lemma {:induction false} TraceExtends(h: HashFn, u: set<Bytes>, ops: seq<Op>, outs: seq<Out>, trace: seq<Point>,
                                        i: nat)
    requires IsTrace(h, u, ops, outs, trace) && i <= |outs|
    ensures Extends(trace[0].objects, trace[i].objects)
  {
    if i > 0 {
      TraceExtends(h, u, ops, outs, trace, i - 1);
      assert StepAt(h, u, OpenAfter(ops[..i - 1]), ops[i - 1], outs[i - 1], trace[i - 1], trace[i]);
    }
  }

  lemma TraceReadsStart(h: HashFn, u: set<Bytes>, ops: seq<Op>, outs: seq<Out>, trace: seq<Point>)
    requires IsTrace(h, u, ops, outs, trace)
    ensures ReadsStart(ops, outs, trace[0].objects)
  {
    forall j | 0 <= j < |outs| && ops[j].OpRead? && ops[j].hash in trace[0].objects
      && trace[0].objects[ops[j].hash] != []
      ensures outs[j] == ReadOut(Ok(trace[0].objects[ops[j].hash]))
    {
      TraceExtends(h, u, ops, outs, trace, j);
      assert StepAt(h, u, OpenAfter(ops[..j]), ops[j], outs[j], trace[j], trace[j + 1]);
    }
  }

  lemma {:induction false} TraceBuffered(h: HashFn, u: set<Bytes>, ops: seq<Op>, outs: seq<Out>, trace: seq<Point>)
    requires IsTrace(h, u, ops, outs, trace)
    ensures Buffered(h, ops, |outs|, trace[0].pending, trace[|outs|].pending)
    ensures outs != [] && ops[|outs| - 1].OpFlush? ==> trace[|outs|].pending == []
    decreases |outs|
  {
    if outs != [] {
      var n := |outs| - 1;
      TraceFront(h, u, ops, outs, trace);
      TraceBuffered(h, u, ops, outs[..n], trace[..n + 1]);
      assert StepAt(h, u, OpenAfter(ops[..n]), ops[n], outs[n], trace[n], trace[n + 1]);
      BufferedNext(h, ops, n, trace[0].pending, trace[n].pending, trace[n + 1].pending);
    }
  }

  lemma KeptAtFirst(h: HashFn, ops: seq<Op>, p: Point)
    ensures Kept(h, ops, [], p.objects, p.pending)
  {
  }

  /** Everything buffered was buffered at the start, or comes from one of the first `n` operations. */
  ghost predicate Buffered(h: HashFn, ops: seq<Op>, n: nat, start: seq<PendingWrite>, pend: seq<PendingWrite>)
    requires n <= |ops|
  {
    forall p :: p in pend ==> p in start || exists i :: 0 <= i < n && FromBatch(h, ops[i], p)
  }

  lemma BufferedNext(h: HashFn, ops: seq<Op>, n: nat, start: seq<PendingWrite>, pend: seq<PendingWrite>,
                     pend': seq<PendingWrite>)
    requires n < |ops| && Buffered(h, ops, n, start, pend)
    requires forall p :: p in pend' ==> p in pend || FromBatch(h, ops[n], p)
    ensures Buffered(h, ops, n + 1, start, pend')
  {
  }

  /** Operation `n` of a run hung: between a store that had kept all it began with, and a buffer filled
      by the operations before, and the store as it is now. */
  ghost predicate HungAt(s: ContentStore, ops: seq<Op>, n: nat, start: Objects, first: seq<PendingWrite>)
    requires n < |ops|
    reads s, s.cache
  {
    exists objs, pend :: Extends(start, objs) && Buffered(s.h, ops, n, first, pend) && HangsOn(s, ops[n], objs, pend)
  }

  lemma NextOpen(ops: seq<Op>, n: nat)
    requires n < |ops|
    ensures OpenAfter(ops[..n + 1]) == Opened(OpenAfter(ops[..n]), ops[n])
  {
    assert ops[..n + 1][..n] == ops[..n];
  }

  /** What is kept even when an operation hangs: all but the promise about chunks still buffered. */
  ghost predicate Settled(h: HashFn, ops: seq<Op>, outs: seq<Out>, objects: Objects)
    requires |outs| <= |ops|
  {
    Answered(h, ops, outs) && AllSecured(h, ops, outs, objects) && ReadsSee(h, ops, outs)
      && ReadsSound(h, ops, outs, objects)
  }

  ghost predicate Kept(h: HashFn, ops: seq<Op>, outs: seq<Out>, objects: Objects, pending: seq<PendingWrite>)
    requires |outs| <= |ops|
  {
    Settled(h, ops, outs, objects) && BatchesHeld(h, ops, outs, objects, pending)
  }

  lemma StillSettled(h: HashFn, ops: seq<Op>, outs: seq<Out>, objs: Objects, objs': Objects)
    requires |outs| <= |ops| && Settled(h, ops, outs, objs) && Extends(objs, objs')
    ensures Settled(h, ops, outs, objs')
  {
  }

  /** What one more operation makes durable. */
  lemma SecuredGrows(h: HashFn, ops: seq<Op>, outs: seq<Out>, out: Out, x: Bytes)
    requires |outs| < |ops| && Secured(h, ops, outs + [out], |outs| + 1, x)
    ensures || Secured(h, ops, outs, |outs|, x) || PutAt(h, ops, |outs|, x)
            || (ops[|outs|].OpFlush? && exists i :: 0 <= i < |outs| && BatchHas(ops[i], outs[i], x))
  {
    if i, k :| 0 <= i < k < |outs| + 1 && BatchHas(ops[i], (outs + [out])[i], x) && ops[k].OpFlush? {
      assert BatchHas(ops[i], outs[i], x);
    }
  }

  lemma SecuredBefore(h: HashFn, ops: seq<Op>, outs: seq<Out>, out: Out, n: nat, x: Bytes)
    requires n <= |outs| < |ops|
    ensures Secured(h, ops, outs + [out], n, x) <==> Secured(h, ops, outs, n, x)
  {
    if i, k :| 0 <= i < k < n && BatchHas(ops[i], (outs + [out])[i], x) && ops[k].OpFlush? {
      assert BatchHas(ops[i], outs[i], x);
    }
    if i, k :| 0 <= i < k < n && BatchHas(ops[i], outs[i], x) && ops[k].OpFlush? {
      assert BatchHas(ops[i], (outs + [out])[i], x);
    }
  }

  lemma AllSecuredGrows(h: HashFn, u: set<Bytes>, foreign: set<nat>, ops: seq<Op>, outs: seq<Out>, out: Out,
                        objs: Objects, pend: seq<PendingWrite>, objs': Objects, pend': seq<PendingWrite>)
    requires |outs| < |ops| && AllHonest(h, u, foreign, ops) && CollisionFreeOn(h, u) && Within(h, u, objs')
    requires AllSecured(h, ops, outs, objs) && BatchesHeld(h, ops, outs, objs, pend)
    requires Progress(h, OpenAfter(ops[..|outs|]), ops[|outs|], out, objs, pend, objs', pend')
    ensures AllSecured(h, ops, outs + [out], objs')
  {
    forall x | Secured(h, ops, outs + [out], |outs| + 1, x)
      ensures StoredAs(h, objs', x)
    {
      SecuredGrows(h, ops, outs, out, x);
      if !Secured(h, ops, outs, |outs|, x) && !PutAt(h, ops, |outs|, x) {
        var i :| 0 <= i < |outs| && BatchHas(ops[i], outs[i], x);
        assert Held(objs, pend, h(x));
        assert Honest(h, u, OpenAfter(ops[..i]), ops[i]);
        assert h(objs'[h(x)]) == h(x);
      }
    }
  }

  lemma BatchesHeldGrows(h: HashFn, u: set<Bytes>, m: Transfers, ops: seq<Op>, outs: seq<Out>, out: Out,
                         objs: Objects, pend: seq<PendingWrite>, objs': Objects, pend': seq<PendingWrite>)
    requires |outs| < |ops| && BatchesHeld(h, ops, outs, objs, pend)
    requires Progress(h, m, ops[|outs|], out, objs, pend, objs', pend')
    ensures BatchesHeld(h, ops, outs + [out], objs', pend')
  {
    var all := outs + [out];
    forall i, x | 0 <= i < |all| && BatchHas(ops[i], all[i], x)
      ensures Held(objs', pend', h(x))
    {
      if i < |outs| {
        assert BatchHas(ops[i], outs[i], x);
      }
    }
  }

  /** One more operation preserves that reads see writes. */
  lemma ReadsSeeGrows(h: HashFn, m: Transfers, ops: seq<Op>, outs: seq<Out>, out: Out,
                      objs: Objects, pend: seq<PendingWrite>, objs': Objects, pend': seq<PendingWrite>)
    requires |outs| < |ops| && AllSecured(h, ops, outs, objs) && ReadsSee(h, ops, outs)
    requires Progress(h, m, ops[|outs|], out, objs, pend, objs', pend')
    ensures ReadsSee(h, ops, outs + [out])
  {
    var all := outs + [out];
    forall j, x | 0 <= j < |all| && ops[j] == OpRead(h(x)) && x != [] && Secured(h, ops, all, j, x)
      ensures all[j] == ReadOut(Ok(x))
    {
      SecuredBefore(h, ops, outs, out, j, x);
    }
  }

  lemma ReadsSoundGrows(h: HashFn, m: Transfers, ops: seq<Op>, outs: seq<Out>, out: Out,
                        objs: Objects, pend: seq<PendingWrite>, objs': Objects, pend': seq<PendingWrite>)
    requires |outs| < |ops| && ReadsSound(h, ops, outs, objs) && Sound(h, objs)
    requires Progress(h, m, ops[|outs|], out, objs, pend, objs', pend')
    ensures ReadsSound(h, ops, outs + [out], objs')
  {
  }

  /** One more operation keeps every promise made so far. */
  lemma KeptGrows(h: HashFn, u: set<Bytes>, foreign: set<nat>, ops: seq<Op>, outs: seq<Out>, out: Out,
                  objs: Objects, pend: seq<PendingWrite>, objs': Objects, pend': seq<PendingWrite>)
    requires |outs| < |ops| && AllHonest(h, u, foreign, ops) && CollisionFreeOn(h, u)
    requires Within(h, u, objs) && Within(h, u, objs')
    requires Kept(h, ops, outs, objs, pend)
    requires Progress(h, OpenAfter(ops[..|outs|]), ops[|outs|], out, objs, pend, objs', pend')
    ensures Kept(h, ops, outs + [out], objs', pend')
  {
    var m := OpenAfter(ops[..|outs|]);
    AllSecuredGrows(h, u, foreign, ops, outs, out, objs, pend, objs', pend');
    BatchesHeldGrows(h, u, m, ops, outs, out, objs, pend, objs', pend');
    ReadsSeeGrows(h, m, ops, outs, out, objs, pend, objs', pend');
    ReadsSoundGrows(h, m, ops, outs, out, objs, pend, objs', pend');
  }
}
