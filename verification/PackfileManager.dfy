/** The packfile manager: chunks wait in memory, move into the current packfile, and are sealed. */
module PackfileManagers {
  import opened Common
  import opened Packfiles

  datatype Pack = Pack(id: nat, chunks: seq<PackChunk>)

  datatype PackStats = PackStats(packs: nat, objects: nat, size: nat)

  /** Every chunk in a sealed pack, in the order the packs were sealed. */
  function Sealed(packs: seq<Pack>): seq<PackChunk> {
    if packs == [] then [] else Sealed(packs[..|packs| - 1]) + packs[|packs| - 1].chunks
  }

  /** The bytes a list of chunks takes in a packfile. */
  function Weight(cs: seq<PackChunk>): nat {
    |Data(cs)| + 44 * |cs|
  }

  lemma {:induction false} WeightAppend(a: seq<PackChunk>, b: seq<PackChunk>)
    ensures Weight(a + b) == Weight(a) + Weight(b)
  {
    if b == [] {
      assert a + b == a;
    } else {
      var n := |b| - 1;
      WeightAppend(a, b[..n]);
      assert (a + b)[..|a + b| - 1] == a + b[..n];
    }
  }

  ghost predicate Honest(h: HashFn, cs: seq<PackChunk>) {
    forall c :: c in cs ==> h(c.data) == c.hash
  }

  /** A chunk fits the format: a 32-byte digest and fewer than 2^32 bytes. */
  predicate Fits(c: PackChunk) {
    |c.hash| == 32 && |c.data| <= U32_MAX
  }

  ghost predicate Typed(cs: seq<PackChunk>) {
    forall i :: 0 <= i < |cs| ==> |cs[i].hash| == 32
  }

  /** None is too large for the writer. */
  ghost predicate AllSmall(cs: seq<PackChunk>) {
    forall i :: 0 <= i < |cs| ==> |cs[i].data| <= U32_MAX
  }

  /** How many chunks a writer takes before it refuses one. */
  function FitCount(cs: seq<PackChunk>): (n: nat)
    ensures n <= |cs| && (n < |cs| ==> |cs[n].data| > U32_MAX)
    ensures forall i :: 0 <= i < n ==> |cs[i].data| <= U32_MAX
  {
    if cs == [] || |cs[0].data| > U32_MAX then 0
    else
      var n := FitCount(cs[1..]);
      assert forall i :: 0 < i < n + 1 ==> cs[i] == cs[1..][i - 1];
      n + 1
  }

  /** The most a packfile's chunks and table can take, file positions being signed. */
  const ROOM: nat := I64_MAX - HEADER - FOOTER

  ghost predicate AllFit(cs: seq<PackChunk>) {
    forall i :: 0 <= i < |cs| ==> Fits(cs[i])
  }

  // ---- The invariants, on values ----

  function Ids(packs: seq<Pack>): set<nat> {
    if packs == [] then {} else Ids(packs[..|packs| - 1]) + {packs[|packs| - 1].id}
  }

  ghost predicate PackOk(files: map<nat, Bytes>, readers: map<nat, Opened>, p: Pack) {
    && p.id in files && p.id in readers
    && Faithful(files[p.id], readers[p.id].entries, p.chunks) && readers[p.id].totalSize == |Data(p.chunks)|
  }

  /** Every reader belongs to one sealed pack, and every sealed pack has its file and its reader. */
  ghost predicate PacksOk(files: map<nat, Bytes>, readers: map<nat, Opened>, packs: seq<Pack>) {
    && readers.Keys == files.Keys == Ids(packs)
    && (forall i :: 0 <= i < |packs| ==> PackOk(files, readers, packs[i]))
    && DistinctIds(packs)
  }

  lemma PacksOkSnoc(files: map<nat, Bytes>, readers: map<nat, Opened>, packs: seq<Pack>,
                                       p: Pack, f: Bytes, o: Opened)
    requires PacksOk(files, readers, packs) && p.id !in files
    requires Faithful(f, o.entries, p.chunks) && o.totalSize == |Data(p.chunks)|
    ensures PacksOk(files[p.id := f], readers[p.id := o], packs + [p])
  {
    var all := packs + [p];
    assert all[..|packs|] == packs;
    forall i | 0 <= i < |all|
      ensures PackOk(files[p.id := f], readers[p.id := o], all[i])
    {
      if i < |packs| {
        assert PackOk(files, readers, packs[i]);
      }
    }
  }

  /** The manager as a value: sealed packs with their files and readers, what waits in memory, what the
      current packfile holds, and a record of everything added and of what a failed flush dropped. */
  datatype State = State(files: map<nat, Bytes>, readers: map<nat, Opened>, packs: seq<Pack>,
                         pending: seq<PackChunk>, writing: seq<PackChunk>, added: seq<PackChunk>, lost: seq<PackChunk>)

  /** Conservation: what was added is pending, in the current packfile, sealed, or was dropped by a failed
      flush; and none was dropped if none was too large. */
  ghost predicate Conserved(s: State) {
    match s
    case State(files, readers, packs, pending, writing, added, lost) =>
      && PacksOk(files, readers, packs) && WaitingFits(pending, writing) && (AllSmall(added) ==> lost == [])
      && multiset(added) == multiset(pending) + multiset(writing) + multiset(Sealed(packs)) + multiset(lost)
  }

  ghost predicate WaitingFits(pending: seq<PackChunk>, writing: seq<PackChunk>) {
    Typed(pending) && AllFit(writing) && Weight(pending) + Weight(writing) <= ROOM
  }

  function Pushed(s: State, c: PackChunk): State {
    s.(pending := s.pending + [c], added := s.added + [c])
  }

  function Appended(s: State, c: PackChunk): State {
    s.(writing := s.writing + [c], added := s.added + [c])
  }

  /** A flush drains the queue, into the current packfile up to the first chunk that is too large; that
      one and all behind it are gone. */
  function Flushed(s: State): State {
    FlushedAt(s, FitCount(s.pending))
  }

  function FlushedAt(s: State, n: nat): State
    requires n <= |s.pending|
  {
    s.(pending := [], writing := s.writing + s.pending[..n], lost := s.lost + s.pending[n..])
  }

  lemma {:induction false} FitCountIs(cs: seq<PackChunk>, n: nat)
    requires n <= |cs| && (n < |cs| ==> |cs[n].data| > U32_MAX)
    requires AllSmall(cs[..n])
    ensures n == FitCount(cs)
  {
    if n > 0 {
      assert cs[..n][0] == cs[0];
      assert cs[..n][1..] == cs[1..][..n - 1];
      FitCountIs(cs[1..], n - 1);
    }
  }

  function SealedAs(s: State, id: nat, f: Bytes, o: Opened): State {
    s.(files := s.files[id := f], readers := s.readers[id := o],
       packs := s.packs + [Pack(id, s.writing)], writing := [])
  }

  /** When the current packfile is to be sealed: it is large enough or full enough. */
  predicate SealDue(cs: seq<PackChunk>, maxPackSize: nat, minChunks: nat) {
    |Data(cs)| >= maxPackSize || |cs| >= minChunks * 10
  }

  /** `b` is `a` with the current packfile sealed under some name when that was due. */
  ghost predicate Rolled(a: State, b: State, due: bool) {
    if due then
      && b.packs != [] && b.packs[..|b.packs| - 1] == a.packs && b.packs[|b.packs| - 1].chunks == a.writing
      && b.writing == [] && b.pending == a.pending && b.added == a.added && b.lost == a.lost
    else b == a
  }

  /** The current packfile is sealed no later and no sooner than when it has reached its size, or ten times
      the least number of chunks. */
  lemma SealsInTime(a: State, b: State, maxPackSize: nat, minChunks: nat)
    requires Rolled(a, b, SealDue(a.writing, maxPackSize, minChunks))
    ensures b.writing == [] || (|Data(b.writing)| < maxPackSize && |b.writing| < 10 * minChunks)
    ensures |Data(a.writing)| < maxPackSize && |a.writing| < 10 * minChunks ==> b == a
    ensures |Data(a.writing)| >= maxPackSize || |a.writing| >= 10 * minChunks ==>
      |b.packs| == |a.packs| + 1 && b.packs[|a.packs|].chunks == a.writing
  {
  }

  /** What waits for the current packfile still fits one file with the chunk. */
  predicate HasRoom(s: State, c: PackChunk) {
    |c.hash| == 32 && Weight(s.pending) + Weight(s.writing) + |c.data| + 44 <= ROOM
  }

  lemma WeightOne(c: PackChunk)
    ensures Weight([c]) == |c.data| + 44
  {
    assert Data([c]) == Data([c][..0]) + c.data;
  }

  lemma PushKeepsOk(s: State, c: PackChunk)
    requires Conserved(s) && HasRoom(s, c)
    ensures Conserved(Pushed(s, c))
  {
    WeightAppend(s.pending, [c]);
    WeightOne(c);
    SmallFront(s.added, c);
  }

  lemma SmallFront(cs: seq<PackChunk>, c: PackChunk)
    ensures AllSmall(cs + [c]) <==> AllSmall(cs) && |c.data| <= U32_MAX
  {
    assert forall i :: 0 <= i < |cs| ==> (cs + [c])[i] == cs[i];
    assert (cs + [c])[|cs|] == c;
  }

  lemma AppendKeepsOk(s: State, c: PackChunk)
    requires Conserved(s) && HasRoom(s, c) && Fits(c)
    ensures Conserved(Appended(s, c))
  {
    WeightAppend(s.writing, [c]);
    WeightOne(c);
    SmallFront(s.added, c);
  }

  /** When nothing added was too large, a flush drops nothing. */
  lemma SmallPending(s: State)
    requires Conserved(s) && AllSmall(s.added)
    ensures FitCount(s.pending) == |s.pending|
  {
    forall i | 0 <= i < |s.pending|
      ensures |s.pending[i].data| <= U32_MAX
    {
      assert s.pending[i] in multiset(s.pending);
      assert s.pending[i] in multiset(s.added);
    }
  }

  lemma FlushKeepsOk(s: State)
    requires Conserved(s)
    ensures Conserved(Flushed(s))
  {
    var n := FitCount(s.pending);
    FlushFits(s.pending, s.writing, n);
    FlushSplits(s.pending, s.writing, Sealed(s.packs), s.lost, n);
    if AllSmall(s.added) {
      SmallPending(s);
    }
  }

  /** When nothing waits, everything is sealed or was dropped. */
  lemma AllSealed(s: State)
    requires Conserved(s) && s.pending == [] && s.writing == []
    ensures multiset(s.added) == multiset(Sealed(s.packs)) + multiset(s.lost)
    ensures s.lost == [] ==> multiset(s.added) == multiset(Sealed(s.packs))
  {
  }

  lemma FlushFits(pending: seq<PackChunk>, writing: seq<PackChunk>, n: nat)
    requires WaitingFits(pending, writing) && n <= |pending| && forall i :: 0 <= i < n ==> |pending[i].data| <= U32_MAX
    ensures WaitingFits([], writing + pending[..n])
  {
    assert pending == pending[..n] + pending[n..];
    WeightAppend(pending[..n], pending[n..]);
    WeightAppend(writing, pending[..n]);
  }

  lemma FlushSplits(pending: seq<PackChunk>, writing: seq<PackChunk>, packed: seq<PackChunk>, lost: seq<PackChunk>,
                    n: nat)
    requires n <= |pending|
    ensures multiset(pending) + multiset(writing) + multiset(packed) + multiset(lost)
      == multiset(pending[..0]) + multiset(writing + pending[..n]) + multiset(packed) + multiset(lost + pending[n..])
  {
    assert pending == pending[..n] + pending[n..];
  }

  lemma WritingPackable(s: State)
    requires Conserved(s)
    ensures Packable(s.writing)
  {
  }

  lemma SealKeepsOk(s: State, id: nat, f: Bytes, o: Opened)
    requires Conserved(s)
    requires PacksOk(s.files[id := f], s.readers[id := o], s.packs + [Pack(id, s.writing)])
    ensures Conserved(SealedAs(s, id, f, o))
  {
    SealedSnoc(s.packs, Pack(id, s.writing));
    assert WaitingFits(s.pending, []);
  }

  lemma SealedSnoc(packs: seq<Pack>, p: Pack)
    ensures Sealed(packs + [p]) == Sealed(packs) + p.chunks
  {
    assert (packs + [p])[..|packs|] == packs;
  }

  // ---- Reading and counting, on values ----

  /** What reading a digest says: nothing exactly when no pending chunk and no sealed pack has it, and
      otherwise an added chunk, or an error that only a chunk filed under a false digest can cause. */
  ghost predicate ReadsBack(h: HashFn, s: State, d: Digest, r: Result<Option<Bytes>, PackError>) {
    && (r == Result.Ok(None) <==> d !in Hashes(s.pending) && d !in Hashes(Sealed(s.packs)))
    && (r.Ok? && r.value.Some? ==> PackChunk(d, r.value.value) in s.added)
    && (r.Err? ==> !Honest(h, s.added))
  }

  /** Queued chunk `i` is the first of that digest. */
  ghost predicate FirstOf(pending: seq<PackChunk>, hash: Digest, i: int) {
    0 <= i < |pending| && pending[i].hash == hash && forall j :: 0 <= j < i ==> pending[j].hash != hash
  }

  ghost predicate NoCollision(h: HashFn, cs: seq<PackChunk>) {
    CollisionFreeOn(h, set c | c in cs :: c.data)
  }

  /** Once nothing waits and nothing was dropped, every chunk ever added reads back with its bytes, and
      nothing else is found. */
  lemma SealedReadsBack(h: HashFn, s: State, d: Digest, r: Result<Option<Bytes>, PackError>)
    requires Conserved(s) && s.pending == [] && s.writing == [] && s.lost == []
    requires Honest(h, s.added) && NoCollision(h, s.added) && ReadsBack(h, s, d, r)
    ensures d !in Hashes(s.added) <==> r == Result.Ok(None)
    ensures forall c :: c in s.added && c.hash == d ==> r == Result.Ok(Some(c.data))
  {
    AllSealed(s);
    SameHashes(s.added, Sealed(s.packs));
    forall c | c in s.added && c.hash == d
      ensures r == Result.Ok(Some(c.data))
    {
      InHashes(s.added, c);
      OneData(h, s.added, c, PackChunk(d, r.value.value));
    }
  }

  /** Two honest chunks of one digest carry the same bytes. */
  lemma OneData(h: HashFn, cs: seq<PackChunk>, a: PackChunk, b: PackChunk)
    requires Honest(h, cs) && NoCollision(h, cs) && a in cs && b in cs && a.hash == b.hash
    ensures a == b
  {
  }

  lemma InHashes(cs: seq<PackChunk>, c: PackChunk)
    requires c in cs
    ensures c.hash in Hashes(cs)
  {
    var i :| 0 <= i < |cs| && cs[i] == c;
  }

  lemma SameHashes(a: seq<PackChunk>, b: seq<PackChunk>)
    requires multiset(a) == multiset(b)
    ensures Hashes(a) == Hashes(b) && |a| == |b|
  {
    HashesWithin(a, b);
    HashesWithin(b, a);
    assert |multiset(a)| == |a| && |multiset(b)| == |b|;
  }

  lemma HashesWithin(a: seq<PackChunk>, b: seq<PackChunk>)
    requires multiset(a) == multiset(b)
    ensures Hashes(a) <= Hashes(b)
  {
    forall d | d in Hashes(a)
      ensures d in Hashes(b)
    {
      var i :| 0 <= i < |a| && a[i].hash == d;
      assert a[i] in multiset(a);
      InHashes(b, a[i]);
    }
  }

  lemma {:induction false} HashesAppend(a: seq<PackChunk>, b: seq<PackChunk>)
    ensures Hashes(a + b) == Hashes(a) + Hashes(b)
  {
    if b == [] {
      assert a + b == a;
    } else {
      var n := |b| - 1;
      assert (a + b)[..|a + b| - 1] == a + b[..n];
      HashesAppend(a, b[..n]);
    }
  }

  lemma {:induction false} PackInSealed(packs: seq<Pack>, i: nat, c: PackChunk)
    requires i < |packs| && c in packs[i].chunks
    ensures c in Sealed(packs)
    decreases |packs|
  {
    var n := |packs| - 1;
    if i < n {
      PackInSealed(packs[..n], i, c);
    }
  }

  lemma {:induction false} SealedInPacks(packs: seq<Pack>, d: Digest)
    ensures d in Hashes(Sealed(packs)) ==> exists i :: 0 <= i < |packs| && d in Hashes(packs[i].chunks)
  {
    if packs != [] {
      var n := |packs| - 1;
      HashesAppend(Sealed(packs[..n]), packs[n].chunks);
      SealedInPacks(packs[..n], d);
      if d in Hashes(Sealed(packs[..n])) {
        var i :| 0 <= i < n && d in Hashes(packs[..n][i].chunks);
        assert d in Hashes(packs[i].chunks);
      }
    }
  }

  lemma {:induction false} IdHasPack(packs: seq<Pack>, id: nat) returns (i: nat)
    requires id in Ids(packs)
    ensures i < |packs| && packs[i].id == id
  {
    i := |packs| - 1;
    if packs[i].id != id {
      i := IdHasPack(packs[..i], id);
    }
  }

  /** Reading a digest from a pack that has it. */
  lemma PackReads(h: HashFn, packs: seq<Pack>, i: nat, d: Digest, r: Result<Bytes, PackError>)
    requires i < |packs| && d in Hashes(packs[i].chunks) && ReadsAsPacked(h, packs[i].chunks, d, r)
    ensures d in Hashes(Sealed(packs))
    ensures r.Ok? ==> PackChunk(d, r.value) in Sealed(packs)
    ensures r.Err? ==> !Honest(h, Sealed(packs))
  {
    var cs := packs[i].chunks;
    var k := LastOf(cs, d);
    PackInSealed(packs, i, cs[k]);
    InHashes(Sealed(packs), cs[k]);
  }

  /** The readers, in whatever order the table gives them: the first that has the digest answers. */
  method ReadReaders(h: HashFn, files: map<nat, Bytes>, readers: map<nat, Opened>, ghost packs: seq<Pack>, hash: Digest)
    returns (r: Result<Option<Bytes>, PackError>)
    requires PacksOk(files, readers, packs)
    ensures r == Result.Ok(None) <==> hash !in Hashes(Sealed(packs))
    ensures r.Ok? && r.value.Some? ==> PackChunk(hash, r.value.value) in Sealed(packs)
    ensures r.Err? ==> !Honest(h, Sealed(packs))
  {
    var remaining := readers.Keys;
    while remaining != {}
      invariant remaining <= readers.Keys
      invariant forall k :: 0 <= k < |packs| && packs[k].id !in remaining ==> hash !in Hashes(packs[k].chunks)
    {
      var id :| id in remaining;
      ghost var k := IdHasPack(packs, id);
      assert PackOk(files, readers, packs[k]);
      if hash in readers[id].entries {
        var found := ReadChunk(h, files[id], readers[id].entries, hash);
        SealedAlike(h, files[id], readers[id].entries, packs[k].chunks, hash);
        ReadsFollow(h, files[id], readers[id].entries, packs[k].chunks, hash, found);
        PackReads(h, packs, k, hash, found);
        return if found.Ok? then Result.Ok(Some(found.value)) else Err(found.error);
      }
      remaining := remaining - {id};
    }
    SealedInPacks(packs, hash);
    r := Result.Ok(None);
  }

  lemma SealedReads(h: HashFn, s: State, d: Digest, r: Result<Option<Bytes>, PackError>)
    requires Conserved(s) && d !in Hashes(s.pending)
    requires r == Result.Ok(None) <==> d !in Hashes(Sealed(s.packs))
    requires r.Ok? && r.value.Some? ==> PackChunk(d, r.value.value) in Sealed(s.packs)
    requires r.Err? ==> !Honest(h, Sealed(s.packs))
    ensures ReadsBack(h, s, d, r)
  {
    forall c | c in Sealed(s.packs)
      ensures c in s.added
    {
      assert c in multiset(Sealed(s.packs));
      assert c in multiset(s.added);
    }
  }

  lemma PendingReads(h: HashFn, s: State, i: nat)
    requires Conserved(s) && i < |s.pending|
    ensures ReadsBack(h, s, s.pending[i].hash, Result.Ok(Some(s.pending[i].data)))
  {
    assert s.pending[i] in multiset(s.pending);
    assert s.pending[i] in multiset(s.added);
  }

  /** How many objects the readers of some of the packs report: digests, not chunks. */
  function Reported(packs: seq<Pack>, ids: set<nat>): nat {
    if packs == [] then 0
    else
      var p := packs[|packs| - 1];
      Reported(packs[..|packs| - 1], ids) + if p.id in ids then |Hashes(p.chunks)| else 0
  }

  function ReportedBytes(packs: seq<Pack>, ids: set<nat>): nat {
    if packs == [] then 0
    else
      var p := packs[|packs| - 1];
      ReportedBytes(packs[..|packs| - 1], ids) + if p.id in ids then |Data(p.chunks)| else 0
  }

  ghost predicate DistinctIds(packs: seq<Pack>) {
    forall i, j :: 0 <= i < j < |packs| ==> packs[i].id != packs[j].id
  }

  lemma {:induction false} ReportedWithout(packs: seq<Pack>, ids: set<nat>, i: nat)
    requires i < |packs| && DistinctIds(packs) && packs[i].id in ids
    ensures Reported(packs, ids) == Reported(packs, ids - {packs[i].id}) + |Hashes(packs[i].chunks)|
    ensures ReportedBytes(packs, ids) == ReportedBytes(packs, ids - {packs[i].id}) + |Data(packs[i].chunks)|
    decreases |packs|
  {
    var n := |packs| - 1;
    if i < n {
      ReportedWithout(packs[..n], ids, i);
    } else {
      ReportedElsewhere(packs[..n], ids, packs[n].id);
    }
  }

  lemma {:induction false} ReportedElsewhere(packs: seq<Pack>, ids: set<nat>, id: nat)
    requires forall k :: 0 <= k < |packs| ==> packs[k].id != id
    ensures Reported(packs, ids) == Reported(packs, ids - {id})
    ensures ReportedBytes(packs, ids) == ReportedBytes(packs, ids - {id})
  {
    if packs != [] {
      ReportedElsewhere(packs[..|packs| - 1], ids, id);
    }
  }

  lemma {:induction false} ReportedNone(packs: seq<Pack>)
    ensures Reported(packs, {}) == 0 && ReportedBytes(packs, {}) == 0
  {
    if packs != [] {
      ReportedNone(packs[..|packs| - 1]);
    }
  }

  lemma {:induction false} ReportedAll(packs: seq<Pack>, ids: set<nat>)
    requires forall k :: 0 <= k < |packs| ==> packs[k].id in ids
    ensures |Hashes(Sealed(packs))| <= Reported(packs, ids) <= |Sealed(packs)|
    ensures ReportedBytes(packs, ids) == |Data(Sealed(packs))|
  {
    if packs != [] {
      var n := |packs| - 1;
      ReportedAll(packs[..n], ids);
      HashesAppend(Sealed(packs[..n]), packs[n].chunks);
      HashesCount(packs[n].chunks);
      UnionCount(Hashes(Sealed(packs[..n])), Hashes(packs[n].chunks));
      DataAppend(Sealed(packs[..n]), packs[n].chunks);
    }
  }

  lemma {:induction false} HashesCount(cs: seq<PackChunk>)
    ensures |Hashes(cs)| <= |cs|
  {
    if cs != [] {
      HashesCount(cs[..|cs| - 1]);
    }
  }

  lemma {:induction false} DataAppend(a: seq<PackChunk>, b: seq<PackChunk>)
    ensures Data(a + b) == Data(a) + Data(b)
  {
    if b == [] {
      assert a + b == a;
    } else {
      var n := |b| - 1;
      assert (a + b)[..|a + b| - 1] == a + b[..n];
      DataAppend(a, b[..n]);
    }
  }

  /** The object count, with what was dropped, lies between the distinct digests added and the chunks
      added; so it is exact when no digest was added twice and nothing was dropped. */
  lemma CountBounds(s: State, objects: nat)
    requires Conserved(s) && objects == |s.pending| + |s.writing| + Reported(s.packs, s.readers.Keys)
    ensures |Hashes(s.added)| <= objects + |s.lost| <= |s.added|
  {
    var waiting := s.pending + s.writing + s.lost;
    ReadersReport(s);
    AddedAre(s);
    SameHashes(s.added, waiting + Sealed(s.packs));
    HashesAppend(waiting, Sealed(s.packs));
    UnionCount(Hashes(waiting), Hashes(Sealed(s.packs)));
    HashesCount(waiting);
  }

  lemma AddedAre(s: State)
    requires Conserved(s)
    ensures multiset(s.added) == multiset(s.pending + s.writing + s.lost + Sealed(s.packs))
  {
  }

  lemma ReadersReport(s: State)
    requires Conserved(s)
    ensures |Hashes(Sealed(s.packs))| <= Reported(s.packs, s.readers.Keys) <= |Sealed(s.packs)|
  {
    assert forall k :: 0 <= k < |s.packs| ==> PackOk(s.files, s.readers, s.packs[k]);
    ReportedAll(s.packs, s.readers.Keys);
  }

  lemma AppendTake(base: seq<PackChunk>, cs: seq<PackChunk>, k: nat)
    requires k < |cs|
    ensures base + cs[..k + 1] == base + cs[..k] + [PackChunk(cs[k].hash, cs[k].data)]
  {
    TakeSnoc(cs, k);
  }

  class PackfileManager {
    const h: HashFn
    const maxPackSize: nat
    const minChunks: nat
    var files: map<nat, Bytes>        // packs/pack-<id>.pack
    var readers: map<nat, Opened>
    var writer: PackfileWriter?
    var writerId: nat
    var pending: seq<PackChunk>
    ghost var packs: seq<Pack>
    ghost var added: seq<PackChunk>
    ghost var lost: seq<PackChunk>

    ghost function Now(): State
      reads this, writer
    {
      State(files, readers, packs, pending, if writer == null then [] else writer.chunks, added, lost)
    }

    ghost predicate WriterOk()
      reads this, writer
    {
      writer != null ==> writer.Valid() && writer.h == h && writerId !in files
    }

    ghost predicate Valid()
      reads this, writer
    {
      Hash32(h) && Conserved(Now()) && WriterOk() && (minChunks > 0 ==> |pending| < minChunks)
    }

    constructor (h: HashFn, maxPackSize: nat, minChunks: nat)
      requires Hash32(h)
      ensures Valid() && added == [] && lost == [] && this.h == h && this.minChunks == minChunks && writer == null
    {
      this.h, this.maxPackSize, this.minChunks := h, maxPackSize, minChunks;
      files, readers, writer, writerId, pending := map[], map[], null, 0, [];
      packs, added, lost := [], [], [];
    }

    /** The clock, in seconds, names a packfile that does not exist yet. */
    ghost predicate FreshId(now: nat)
      reads this
    {
      writer == null ==> now !in files
    }

    method EnsureWriter(now: nat)
      requires WriterOk() && FreshId(now)
      modifies this`writer, this`writerId
      ensures WriterOk() && writer != null && Now() == old(Now())
      ensures if old(writer) == null then fresh(writer) else writer == old(writer)
    {
      if writer == null {
        writer := new PackfileWriter(h);
        writerId := now;
      }
    }

    /** Seal the current packfile when it is large or full enough. */
    method MaybeSeal()
      requires Hash32(h) && Conserved(Now()) && WriterOk() && writer != null
      modifies this`files, this`readers, this`writer, this`packs, writer
      ensures Conserved(Now()) && WriterOk() && (writer == null || writer == old(writer))
      ensures Rolled(old(Now()), Now(), SealDue(old(Now()).writing, maxPackSize, minChunks))
    {
      if |writer.file| - HEADER >= maxPackSize || |writer.entries| >= minChunks * 10 {
        Seal();
      }
    }

    method Seal()
      requires Hash32(h) && Conserved(Now()) && WriterOk() && writer != null
      modifies this`files, this`readers, this`writer, this`packs, writer
      ensures Conserved(Now()) && WriterOk() && writer == null && Rolled(old(Now()), Now(), true)
    {
      ghost var before, id := Now(), writerId;
      WritingPackable(before);
      ghost var file, reader := WriteOut();
      PacksOkSnoc(before.files, before.readers, before.packs, Pack(id, before.writing), file, reader);
      SealKeepsOk(before, id, file, reader);
    }

    method WriteOut() returns (ghost file: Bytes, ghost reader: Opened)
      requires Hash32(h) && WriterOk() && writer != null && Packable(Now().writing)
      modifies this`files, this`readers, this`writer, this`packs, writer
      ensures writer == null && Now() == SealedAs(old(Now()), old(writerId), file, reader)
      ensures Faithful(file, reader.entries, old(Now()).writing) && reader.totalSize == |Data(old(Now()).writing)|
    {
      ghost var chunks := writer.chunks;
      var f, o := SealFile(writer);
      file, reader := f, o;
      writer := null;
      files := files[writerId := f];
      readers := readers[writerId := o];
      packs := packs + [Pack(writerId, chunks)];
    }

    /** Queue a chunk; flush the queue when it is long enough. */
    method AddChunk(hash: Digest, data: Bytes, now: nat) returns (ok: bool)
      requires Valid() && FreshId(now) && HasRoom(Now(), PackChunk(hash, data))
      modifies this, writer
      ensures Valid() && added == old(added) + [PackChunk(hash, data)]
      ensures var s := Pushed(old(Now()), PackChunk(hash, data));
        if |s.pending| < minChunks then ok && Now() == s
        else (ok <==> FitCount(s.pending) == |s.pending|)
             && Rolled(Flushed(s), Now(), ok && SealDue(Flushed(s).writing, maxPackSize, minChunks))
    {
      ghost var c, s := PackChunk(hash, data), Pushed(Now(), PackChunk(hash, data));
      PushKeepsOk(Now(), c);
      pending := pending + [PackChunk(hash, data)];
      added := added + [c];
      assert Now() == s;
      ok := true;
      if |pending| >= minChunks {
        ok := FlushPending(now);
      }
    }

    /** Drain the pending chunks into the current packfile. The queue is empty even when the writer refuses
        a chunk that is too large. */
    method FlushPending(now: nat) returns (ok: bool)
      requires Hash32(h) && Conserved(Now()) && WriterOk() && FreshId(now)
      modifies this`files, this`readers, this`writer, this`writerId, this`packs, this`pending, this`lost, writer
      ensures Conserved(Now()) && WriterOk() && pending == []
      ensures writer == null || writer == old(writer) || fresh(writer)
      ensures ok <==> FitCount(old(pending)) == |old(pending)|
      ensures var s := Flushed(old(Now()));
        if old(pending) == [] then Now() == old(Now())
        else Rolled(s, Now(), ok && SealDue(s.writing, maxPackSize, minChunks))
    {
      if pending == [] {
        return true;
      }
      FlushKeepsOk(Now());
      EnsureWriter(now);
      ok := DrainAndSeal();
    }

    method DrainAndSeal() returns (ok: bool)
      requires Hash32(h) && Conserved(Flushed(Now())) && WriterOk() && writer != null
      modifies this`files, this`readers, this`writer, this`packs, this`pending, this`lost, writer
      ensures Conserved(Now()) && WriterOk() && pending == [] && (writer == null || writer == old(writer))
      ensures ok <==> FitCount(old(pending)) == |old(pending)|
      ensures Rolled(Flushed(old(Now())), Now(), ok && SealDue(Flushed(old(Now())).writing, maxPackSize, minChunks))
    {
      ok := Drain();
      if ok {
        MaybeSeal();
      }
    }

    method Drain() returns (ok: bool)
      requires WriterOk() && writer != null
      modifies this`pending, this`lost, writer
      ensures WriterOk()
      ensures Now() == Flushed(old(Now())) && (ok <==> FitCount(old(pending)) == |old(pending)|)
    {
      ghost var before := Now();
      var chunks := pending;
      pending := [];
      lost := lost + chunks[FitCount(chunks)..];
      var taken := AddAll(writer, chunks);
      FitCountIs(chunks, taken);
      assert Now() == FlushedAt(before, taken);
      ok := taken == |chunks|;
    }

    static method TryOne(w: PackfileWriter, hash: Digest, data: Bytes) returns (ok: bool)
      requires w.Valid()
      modifies w
      ensures w.Valid() && (ok <==> |data| <= U32_MAX)
      ensures w.chunks == if ok then old(w.chunks) + [PackChunk(hash, data)] else old(w.chunks)
    {
      ok := w.AddChunk(hash, data);
    }

    /** The writer takes chunks up to the first that is too large. */
    static method AddAll(w: PackfileWriter, chunks: seq<PackChunk>) returns (taken: nat)
      requires w.Valid()
      modifies w
      ensures taken <= |chunks| && w.Valid() && w.chunks == old(w.chunks) + chunks[..taken]
      ensures (taken < |chunks| ==> |chunks[taken].data| > U32_MAX) && AllSmall(chunks[..taken])
    {
      ghost var base := w.chunks;
      taken := 0;
      while taken < |chunks|
        invariant taken <= |chunks| && w.Valid() && w.chunks == base + chunks[..taken]
        invariant AllSmall(chunks[..taken])
      {
        AppendTake(base, chunks, taken);
        var ok := TryOne(w, chunks[taken].hash, chunks[taken].data);
        if !ok {
          return;
        }
        TakeSnoc(chunks, taken);
        SmallFront(chunks[..taken], chunks[taken]);
        taken := taken + 1;
      }
    }

    /** Put a chunk straight into the current packfile. One that is too large is refused, and nothing
        changes. */
    method StorePacked(hash: Digest, data: Bytes, now: nat) returns (ok: bool)
      requires Valid() && FreshId(now) && HasRoom(Now(), PackChunk(hash, data))
      modifies this, writer
      ensures Valid() && (ok <==> |data| <= U32_MAX)
      ensures var s := if ok then Appended(old(Now()), PackChunk(hash, data)) else old(Now());
        Rolled(s, Now(), ok && SealDue(s.writing, maxPackSize, minChunks))
    {
      ghost var s := if |data| <= U32_MAX then Appended(Now(), PackChunk(hash, data)) else Now();
      EnsureWriter(now);
      ok := AppendChunk(hash, data);
      assert Now() == s;
      if ok {
        MaybeSeal();
      }
    }

    method AppendChunk(hash: Digest, data: Bytes) returns (ok: bool)
      requires Conserved(Now()) && WriterOk() && writer != null && HasRoom(Now(), PackChunk(hash, data))
      modifies this`added, writer
      ensures Conserved(Now()) && WriterOk() && (ok <==> |data| <= U32_MAX)
      ensures Now() == if ok then Appended(old(Now()), PackChunk(hash, data)) else old(Now())
    {
      ghost var before, c := Now(), PackChunk(hash, data);
      ok := writer.AddChunk(hash, data);
      if ok {
        AppendKeepsOk(before, c);
        added := added + [c];
      }
      assert Now() == if ok then Appended(before, c) else before;
    }

    /** After finalizing, everything that was ever added is in a sealed pack, but for what failed flushes
        dropped; and nothing was dropped, now or before, if no chunk was too large. */
    method Finalize(now: nat) returns (ok: bool)
      requires Valid() && FreshId(now)
      modifies this, writer
      ensures Valid() && added == old(added) && pending == []
      ensures ok <==> FitCount(old(pending)) == |old(pending)|
      ensures ok ==> writer == null && multiset(added) == multiset(Sealed(packs)) + multiset(lost)
      ensures AllSmall(added) ==> ok && lost == []
      ensures !ok ==> Now() == Flushed(old(Now()))
    {
      ghost var s := Now();
      if AllSmall(added) {
        SmallPending(s);
      }
      ok := FlushPending(now);
      if ok {
        if writer != null {
          Seal();
        }
        AllSealed(Now());
      }
    }

    /** Pending chunks first, then the readers in whatever order the table gives them. The current
        packfile is not looked at. */
    method ReadPacked(hash: Digest) returns (r: Result<Option<Bytes>, PackError>)
      requires Valid()
      ensures ReadsBack(h, Now(), hash, r)
      ensures forall i :: FirstOf(pending, hash, i) ==> r == Result.Ok(Some(pending[i].data))
    {
      ghost var s := Now();
      var i := FindPending(pending, hash);
      if i < |pending| {
        PendingReads(h, s, i);
        return Result.Ok(Some(pending[i].data));
      }
      r := ReadReaders(h, files, readers, packs, hash);
      SealedReads(h, s, hash, r);
    }

    /** The first queued chunk of that digest. */
    static method FindPending(pending: seq<PackChunk>, hash: Digest) returns (i: nat)
      ensures i <= |pending| && (i < |pending| ==> FirstOf(pending, hash, i))
      ensures i == |pending| ==> hash !in Hashes(pending)
    {
      i := 0;
      while i < |pending|
        invariant i <= |pending| && forall j :: 0 <= j < i ==> pending[j].hash != hash
      {
        if pending[i].hash == hash {
          return;
        }
        i := i + 1;
      }
    }

    /** Statistics: the readers' counts, what is pending, and the current packfile. */
    method Stats() returns (s: PackStats)
      requires Valid()
      ensures |Hashes(added)| <= s.objects + |lost| <= |added|
      ensures |Hashes(added)| == |added| && AllSmall(added) ==> s.objects == |added|
      ensures s.packs == |readers| + if Now().writing != [] then 1 else 0
      ensures s.size == |Data(Sealed(packs))| + |Data(Now().writing)|
    {
      var objects, size := |pending|, 0;
      var remaining := readers.Keys;
      while remaining != {}
        invariant remaining <= readers.Keys
        invariant objects + Reported(packs, remaining) == |pending| + Reported(packs, readers.Keys)
        invariant size + ReportedBytes(packs, remaining) == ReportedBytes(packs, readers.Keys)
      {
        var id :| id in remaining;
        ghost var k := IdHasPack(packs, id);
        assert PackOk(files, readers, packs[k]);
        ReportedWithout(packs, remaining, k);
        objects, size := objects + |readers[id].entries.Keys|, size + readers[id].totalSize;
        remaining := remaining - {id};
      }
      ReportedNone(packs);
      ReportedAll(packs, readers.Keys);
      var total := |readers|;
      if writer != null {
        objects, size := objects + |writer.entries|, size + |writer.file| - HEADER;
        total := if |writer.entries| > 0 then total + 1 else total;
      }
      CountBounds(Now(), objects);
      return PackStats(total, objects, size);
    }
  }
}
