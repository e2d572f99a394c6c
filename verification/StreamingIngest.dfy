/** The orchestrator's rolling-buffer ingest of a file too large to hold in memory. */
module StreamingIngest {
  import opened Common
  import Chunkers
  import Indexers
  import CS = ContentStores

  const READ_SIZE: nat := 1024 * 1024
  const OVERLAP: nat := 256 * 1024

  function Max(a: nat, b: nat): nat {
    if a > b then a else b
  }

  /** The buffer length that triggers processing. */
  function BufferLimit(maxConcurrent: nat): nat {
    maxConcurrent * OVERLAP
  }

  lemma LimitFacts(maxConcurrent: nat)
    ensures BufferLimit(maxConcurrent) == 262144 * maxConcurrent
    ensures if maxConcurrent == 0 then BufferLimit(maxConcurrent) == 0 else BufferLimit(maxConcurrent) >= OVERLAP
  {
  }

  /** The most the buffer holds before a read. */
  function Carried(limit: nat): nat {
    if limit <= OVERLAP then OVERLAP else limit - 1
  }

  /** The reads the loop makes: up to the first that returns nothing. */
  function Reads(parts: seq<Bytes>): seq<Bytes> {
    if parts == [] || parts[0] == [] then [] else [parts[0]] + Reads(parts[1..])
  }

  lemma {:induction false} ReadsUpTo(parts: seq<Bytes>, n: nat)
    requires n <= |parts| && (forall i :: 0 <= i < n ==> parts[i] != []) && (n < |parts| ==> parts[n] == [])
    ensures Reads(parts) == parts[..n]
  {
    if n > 0 {
      ReadsUpTo(parts[1..], n - 1);
      assert parts[..n] == [parts[0]] + parts[1..][..n - 1];
    }
  }

  lemma {:induction false} DeliversReads(parts: seq<Bytes>)
    ensures Delivered(parts) == Flatten(Reads(parts))
  {
    if parts != [] && parts[0] != [] {
      DeliversReads(parts[1..]);
      assert Reads(parts)[1..] == Reads(parts[1..]);
    }
  }

  // ---- The rolling buffer ----

  /** The stretches taken out of the buffer so far, each to be chunked on its own, and what it holds. */
  datatype Rolling = Rolling(done: seq<Bytes>, buffer: Bytes)

  /** A buffer that has reached the limit is taken out, all but the overlap. */
  function Spilled(done: seq<Bytes>, buffer: Bytes, limit: nat): Rolling {
    if |buffer| < limit || |buffer| < OVERLAP then Rolling(done, buffer)
    else Rolling(done + [buffer[..|buffer| - OVERLAP]], buffer[|buffer| - OVERLAP..])
  }

  function Rolled(taken: seq<Bytes>, limit: nat): Rolling {
    if taken == [] then Rolling([], [])
    else
      var r := Rolled(taken[..|taken| - 1], limit);
      Spilled(r.done, r.buffer + taken[|taken| - 1], limit)
  }

  /** All stretches of the file: the last is what the buffer holds at the end. */
  function Stretches(taken: seq<Bytes>, limit: nat): seq<Bytes> {
    Rolled(taken, limit).done + [Rolled(taken, limit).buffer]
  }

  /** The length the buffer carries from one read to the next, and the most it ever has. */
  function Held(taken: seq<Bytes>, limit: nat): nat {
    if taken == [] then 0
    else
      var n := Held(taken[..|taken| - 1], limit) + |taken[|taken| - 1]|;
      if n >= limit then OVERLAP else n
  }

  function PeakOf(taken: seq<Bytes>, limit: nat): nat {
    if taken == [] then 0
    else
      var front := taken[..|taken| - 1];
      Max(PeakOf(front, limit), Held(front, limit) + |taken[|taken| - 1]|)
  }

  /** Without concurrency the source subtracts the overlap from any buffer, which fails on a shorter one. */
  predicate Works(taken: seq<Bytes>, limit: nat) {
    limit >= OVERLAP || taken == [] || |taken[0]| >= OVERLAP
  }

  lemma {:induction false} RolledHeld(taken: seq<Bytes>, limit: nat)
    requires Works(taken, limit)
    ensures |Rolled(taken, limit).buffer| == Held(taken, limit)
    ensures limit < OVERLAP && taken != [] ==> Held(taken, limit) == OVERLAP
  {
    if taken != [] {
      RolledHeld(taken[..|taken| - 1], limit);
    }
  }

  /** The stretches are the file cut up in order. */
  lemma {:induction false} RolledWhole(taken: seq<Bytes>, limit: nat)
    ensures Flatten(Rolled(taken, limit).done) + Rolled(taken, limit).buffer == Flatten(taken)
  {
    if taken != [] {
      var n := |taken| - 1;
      var r := Rolled(taken[..n], limit);
      RolledWhole(taken[..n], limit);
      FlattenUpTo(taken, n);
      assert taken[..n + 1] == taken;
      assert (Flatten(r.done) + r.buffer) + taken[n] == Flatten(r.done) + (r.buffer + taken[n]);
      SpilledWhole(r.done, r.buffer + taken[n], limit);
    }
  }

  lemma SpilledWhole(done: seq<Bytes>, buffer: Bytes, limit: nat)
    ensures var r := Spilled(done, buffer, limit); Flatten(r.done) + r.buffer == Flatten(done) + buffer
  {
    if |buffer| >= limit && |buffer| >= OVERLAP {
      var cut := |buffer| - OVERLAP;
      FlattenSnoc(done, buffer[..cut]);
      assert buffer == buffer[..cut] + buffer[cut..];
    }
  }

  lemma StretchesWhole(taken: seq<Bytes>, limit: nat)
    ensures Flatten(Stretches(taken, limit)) == Flatten(taken)
  {
    RolledWhole(taken, limit);
    FlattenSnoc(Rolled(taken, limit).done, Rolled(taken, limit).buffer);
  }

  // ---- The buffer is bounded ----

  /** Before every read but the first the buffer is below the limit, or holds just the overlap; so it is
      bounded whatever the sizes of the reads. */
  lemma {:induction false} PeakBounded(taken: seq<Bytes>, limit: nat)
    requires forall i :: 0 <= i < |taken| ==> |taken[i]| <= READ_SIZE
    ensures Held(taken, limit) <= Carried(limit)
    ensures PeakOf(taken, limit) <= READ_SIZE + Carried(limit)
  {
    if taken != [] {
      PeakBounded(taken[..|taken| - 1], limit);
    }
  }

  /** The peak is the most the buffer has after any read. */
  lemma {:induction false} PeakCovers(taken: seq<Bytes>, limit: nat, i: nat)
    requires i < |taken|
    ensures Held(taken[..i], limit) + |taken[i]| <= PeakOf(taken, limit)
    decreases |taken|
  {
    var front := taken[..|taken| - 1];
    if i < |front| {
      PeakCovers(front, limit, i);
      assert front[..i] == taken[..i];
    }
  }

  lemma {:induction false} PeakMet(taken: seq<Bytes>, limit: nat) returns (i: nat)
    requires taken != []
    ensures i < |taken| && Held(taken[..i], limit) + |taken[i]| == PeakOf(taken, limit)
    decreases |taken|
  {
    i := |taken| - 1;
    var front := taken[..i];
    if PeakOf(front, limit) > Held(front, limit) + |taken[i]| {
      i := PeakMet(front, limit);
      assert front[..i] == taken[..i];
    }
  }

  /** The bound is reached, by reads that the loop can make. */
  lemma PeakReached(limit: nat) returns (taken: seq<Bytes>)
    ensures forall i :: 0 <= i < |taken| ==> 0 < |taken[i]| <= READ_SIZE
    ensures Works(taken, limit) && PeakOf(taken, limit) == READ_SIZE + Carried(limit)
  {
    var few := FillsUp(limit);
    var full: Bytes := seq(READ_SIZE, _ => 0 as byte);
    taken := few + [full];
    assert taken[..|taken| - 1] == few;
    PeakBounded(few, limit);
  }

  /** Reads of one byte fill the buffer to just below the limit; without much of a limit one read of the
      overlap fills it for good. */
  lemma FillsUp(limit: nat) returns (taken: seq<Bytes>)
    ensures taken != [] && forall i :: 0 <= i < |taken| ==> 0 < |taken[i]| <= READ_SIZE
    ensures Works(taken, limit) && Held(taken, limit) == Carried(limit)
  {
    if limit <= OVERLAP {
      var overlap: Bytes := seq(OVERLAP, _ => 0 as byte);
      taken := [overlap];
      assert taken[..0] == [];
    } else {
      var one: Bytes := [0];
      taken := seq(limit - 1, _ => one);
      SlowReads(taken, limit);
    }
  }

  lemma {:induction false} SlowReads(slow: seq<Bytes>, limit: nat)
    requires |slow| < limit && forall i :: 0 <= i < |slow| ==> |slow[i]| == 1
    ensures Held(slow, limit) == |slow|
  {
    if slow != [] {
      SlowReads(slow[..|slow| - 1], limit);
    }
  }

  /** The same in numbers, for the limit the configuration sets. */
  lemma PeakReachedAt(maxConcurrent: nat) returns (taken: seq<Bytes>)
    ensures forall i :: 0 <= i < |taken| ==> 0 < |taken[i]| <= 1048576
    ensures PeakOf(taken, BufferLimit(maxConcurrent))
         == if maxConcurrent <= 1 then 1310720 else 1048576 + (262144 * maxConcurrent - 1)
  {
    taken := PeakReached(BufferLimit(maxConcurrent));
  }

  /** A read that brings the buffer to 256 KB times the concurrency leaves its last 256 KB there and takes
      out the rest; any other read is just added. */
  lemma SpillsAt(taken: seq<Bytes>, maxConcurrent: nat)
    requires taken != [] && maxConcurrent >= 1
    ensures var n := |taken| - 1;
      var before, after := Rolled(taken[..n], BufferLimit(maxConcurrent)), Rolled(taken, BufferLimit(maxConcurrent));
      var buffer := before.buffer + taken[n];
      if |buffer| < 262144 * maxConcurrent then after == Rolling(before.done, buffer)
      else |after.buffer| == 262144 && after.buffer == buffer[|buffer| - 262144..]
           && after.done == before.done + [buffer[..|buffer| - 262144]]
  {
  }

  // ---- The pieces ----

  /** The chunks of each stretch, one stretch after another. */
  function PiecesOf(h: HashFn, c: Chunkers.Chunker, stretches: seq<Bytes>): seq<Bytes>
    requires c.Valid()
  {
    if stretches == [] then []
    else
      var n := |stretches| - 1;
      PiecesOf(h, c, stretches[..n]) + Indexers.FileChunks(h, c, stretches[n])
  }

  /** Pieces no larger than a chunk may be, none empty, that make up `bytes` in order. */
  ghost predicate CutUp(ds: seq<Bytes>, bytes: Bytes, maxSize: nat) {
    Flatten(ds) == bytes && forall i :: 0 <= i < |ds| ==> 0 < |ds[i]| <= maxSize
  }

  lemma {:induction false} PiecesCutUp(h: HashFn, c: Chunkers.Chunker, stretches: seq<Bytes>)
    requires c.Valid()
    ensures CutUp(PiecesOf(h, c, stretches), Flatten(stretches), c.config.maxSize)
  {
    if stretches != [] {
      var n := |stretches| - 1;
      PiecesCutUp(h, c, stretches[..n]);
      Indexers.ChunksCutUp(h, c, stretches[n]);
      FlattenAppend(PiecesOf(h, c, stretches[..n]), Indexers.FileChunks(h, c, stretches[n]));
      FlattenUpTo(stretches, n);
      assert stretches[..n + 1] == stretches;
    }
  }

  /** A file smaller than the limit is never taken out of the buffer before its end. */
  lemma {:induction false} SmallRolls(taken: seq<Bytes>, limit: nat)
    requires |Flatten(taken)| < limit
    ensures Rolled(taken, limit) == Rolling([], Flatten(taken))
  {
    if taken != [] {
      var n := |taken| - 1;
      FlattenUpTo(taken, n);
      assert taken[..n + 1] == taken;
      SmallRolls(taken[..n], limit);
    }
  }

  lemma SmallWhole(h: HashFn, c: Chunkers.Chunker, taken: seq<Bytes>, limit: nat)
    requires c.Valid() && |Flatten(taken)| < limit
    ensures PiecesOf(h, c, Stretches(taken, limit)) == Indexers.FileChunks(h, c, Flatten(taken))
  {
    var bytes := Flatten(taken);
    SmallRolls(taken, limit);
    assert Stretches(taken, limit) == [bytes];
    assert PiecesOf(h, c, [bytes]) == PiecesOf(h, c, []) + Indexers.FileChunks(h, c, bytes);
  }

  // ---- The overlap does not restore chunk boundaries ----

  /** Stretch `i` starts where a chunk of the whole file starts. */
  ghost predicate StartsAtCut(c: Chunkers.Chunker, stretches: seq<Bytes>, i: nat)
    requires c.Valid() && i <= |stretches| && |Flatten(stretches[..i])| <= |Flatten(stretches)|
  {
    c.Meets(Flatten(stretches), 0, |Flatten(stretches[..i])|)
  }

  lemma SplitFlatten(stretches: seq<Bytes>, i: nat)
    requires i <= |stretches|
    ensures Flatten(stretches) == Flatten(stretches[..i]) + Flatten(stretches[i..])
    ensures |Flatten(stretches[..i])| <= |Flatten(stretches)|
  {
    FlattenAppend(stretches[..i], stretches[i..]);
    assert stretches == stretches[..i] + stretches[i..];
  }

  ghost predicate AllStartAtCuts(c: Chunkers.Chunker, stretches: seq<Bytes>)
    requires c.Valid()
  {
    forall i :: 0 <= i < |stretches| ==>
      |Flatten(stretches[..i])| <= |Flatten(stretches)| && StartsAtCut(c, stretches, i)
  }

  /** The stretches give the chunks of the whole file if and only if each starts at a cut of it. */
  lemma AlikeIff(h: HashFn, c: Chunkers.Chunker, stretches: seq<Bytes>)
    requires c.Valid()
    ensures PiecesOf(h, c, stretches) == Indexers.FileChunks(h, c, Flatten(stretches)) <==> AllStartAtCuts(c, stretches)
  {
    if PiecesOf(h, c, stretches) == Indexers.FileChunks(h, c, Flatten(stretches)) {
      forall i | 0 <= i < |stretches|
        ensures |Flatten(stretches[..i])| <= |Flatten(stretches)| && StartsAtCut(c, stretches, i)
      {
        SplitFlatten(stretches, i);
        AlikeStarts(h, c, stretches, i);
      }
    }
    if AllStartAtCuts(c, stretches) {
      StartsAlike(h, c, stretches);
    }
  }

  lemma {:induction false} PiecesPrefix(h: HashFn, c: Chunkers.Chunker, stretches: seq<Bytes>, i: nat)
    requires c.Valid() && i <= |stretches|
    ensures var k := |PiecesOf(h, c, stretches[..i])|;
      k <= |PiecesOf(h, c, stretches)| && PiecesOf(h, c, stretches)[..k] == PiecesOf(h, c, stretches[..i])
    decreases |stretches|
  {
    if i == |stretches| {
      assert stretches[..i] == stretches;
    } else {
      var front := stretches[..|stretches| - 1];
      PiecesPrefix(h, c, front, i);
      assert front[..i] == stretches[..i];
    }
  }

  lemma AlikeStarts(h: HashFn, c: Chunkers.Chunker, stretches: seq<Bytes>, i: nat)
    requires c.Valid() && i <= |stretches| && |Flatten(stretches[..i])| <= |Flatten(stretches)|
    requires PiecesOf(h, c, stretches) == Indexers.FileChunks(h, c, Flatten(stretches))
    ensures StartsAtCut(c, stretches, i)
  {
    PiecesPrefix(h, c, stretches, i);
    PiecesCutUp(h, c, stretches[..i]);
    c.ChunksMeet(h, Flatten(stretches), 0, |PiecesOf(h, c, stretches[..i])|, |Flatten(stretches[..i])|);
  }

  lemma {:induction false} StartsAlike(h: HashFn, c: Chunkers.Chunker, stretches: seq<Bytes>)
    requires c.Valid() && AllStartAtCuts(c, stretches)
    ensures PiecesOf(h, c, stretches) == Indexers.FileChunks(h, c, Flatten(stretches))
  {
    if stretches != [] {
      var n := |stretches| - 1;
      var front, whole := Flatten(stretches[..n]), Flatten(stretches);
      LastStretch(stretches);
      assert StartsAtCut(c, stretches, n);
      FrontStarts(c, stretches);
      StartsAlike(h, c, stretches[..n]);
      c.SplitAtCut(h, whole, 0, |front|);
    }
  }

  lemma LastStretch(stretches: seq<Bytes>)
    requires stretches != []
    ensures var n := |stretches| - 1;
      var front, whole := Flatten(stretches[..n]), Flatten(stretches);
      whole == front + stretches[n] && whole[..|front|] == front && whole[|front|..] == stretches[n]
  {
    FlattenUpTo(stretches, |stretches| - 1);
    assert stretches[..|stretches|] == stretches;
  }

  lemma FrontStarts(c: Chunkers.Chunker, stretches: seq<Bytes>)
    requires c.Valid() && stretches != [] && AllStartAtCuts(c, stretches)
    ensures AllStartAtCuts(c, stretches[..|stretches| - 1])
  {
    var n := |stretches| - 1;
    var front, whole := stretches[..n], Flatten(stretches);
    LastStretch(stretches);
    assert StartsAtCut(c, stretches, n);
    forall i | 0 <= i < |front|
      ensures |Flatten(front[..i])| <= |Flatten(front)| && StartsAtCut(c, front, i)
    {
      SplitFlatten(front, i);
      assert front[..i] == stretches[..i];
      assert StartsAtCut(c, stretches, i);
      c.MeetsPrefix(whole, 0, |Flatten(front[..i])|, |Flatten(front)|);
    }
  }

  /** The overlap is kept so that no boundary is missed, but what is taken out of the buffer is chunked to
      its end. For every chunker: a file of one byte more than the overlap is stored in other pieces than
      its chunks. */
  lemma OverlapMissesCuts(h: HashFn, c: Chunkers.Chunker, x: Bytes)
    requires c.Valid() && |x| == OVERLAP + 1
    ensures PiecesOf(h, c, Stretches([x], BufferLimit(1))) != Indexers.FileChunks(h, c, Flatten([x]))
  {
    var limit := BufferLimit(1);
    var stretches := Stretches([x], limit);
    assert [x][..0] == [] && [] + x == x;
    assert Rolled([x], limit) == Spilled([], x, limit);
    assert stretches == [x[..1], x[1..]];
    assert stretches[..1] == [x[..1]] && Flatten([x[..1]]) == x[..1];
    StretchesWhole([x], limit);
    AlikeIff(h, c, stretches);
    if AllStartAtCuts(c, stretches) {
      assert StartsAtCut(c, stretches, 1);
      NoCutAtOne(c, Flatten(stretches));
    }
  }

  lemma NoCutAtOne(c: Chunkers.Chunker, data: Bytes)
    requires c.Valid() && |data| > 1
    ensures !c.Meets(data, 0, 1)
  {
    var cut := c.NextCut(data, 0);
    assert cut > 1;
    assert !c.Meets(data, cut, 1);
  }

  // ---- The ingest ----

  /** Ingest a file through the rolling buffer. Whatever the sizes of the reads, the pieces it stores are
      the chunks of the stretches, and so the file cut up in order; the buffer stays bounded; and the only
      failure is the arithmetic underflow of a configuration without concurrency, when the first read is
      shorter than the overlap. */
  method ProcessFileStreaming(s: CS.ContentStore, c: Chunkers.Chunker, parts: seq<Bytes>, maxConcurrent: nat)
    returns (ok: bool, peak: nat, ghost pieces: seq<Bytes>)
    requires c.Valid() && s.Valid()
    requires forall p :: p in parts ==> |p| <= READ_SIZE
    modifies s`objects, s`temps, s`dedup
    ensures s.Valid() && s.objects == CS.StoredAll(old(s.objects), Indexers.Named(s.h, pieces))
    ensures ok <==> Works(Reads(parts), BufferLimit(maxConcurrent))
    ensures ok <==> maxConcurrent >= 1 || Delivered(parts) == [] || |parts[0]| >= OVERLAP
    ensures ok ==> pieces == PiecesOf(s.h, c, Stretches(Reads(parts), BufferLimit(maxConcurrent)))
    ensures ok ==> CutUp(pieces, Delivered(parts), c.config.maxSize)
    ensures maxConcurrent >= 1 && |Delivered(parts)| < 262144 * maxConcurrent ==>
      pieces == Indexers.FileChunks(s.h, c, Delivered(parts))
    ensures !ok ==> pieces == []
    ensures peak == if ok then PeakOf(Reads(parts), BufferLimit(maxConcurrent)) else |parts[0]|
    ensures peak <= if maxConcurrent <= 1 then 1310720 else 1048576 + (262144 * maxConcurrent - 1)
  {
    var limit := BufferLimit(maxConcurrent);
    var buffer: Bytes := [];
    ghost var done: seq<Bytes> := [];
    pieces, peak := [], 0;
    var i := 0;
    LimitFacts(maxConcurrent);
    RollsFirst(s.h, c, parts, limit);
    while i < |parts| && parts[i] != []
      invariant s.Valid() && s.objects == CS.StoredAll(old(s.objects), Indexers.Named(s.h, pieces))
      invariant Rolls(s.h, c, parts, i, limit, Rolling(done, buffer), pieces, peak)
    {
      ghost var r, stored, before := Rolling(done, buffer), pieces, peak;
      buffer := buffer + parts[i];
      peak := Max(peak, |buffer|);
      ok, buffer, done, pieces := Spill(s, c, buffer, limit, old(s.objects), done, pieces);
      if !ok {
        RollsShort(s.h, c, parts, i, limit, r, stored, before);
        return;
      }
      RollsNext(s.h, c, parts, i, limit, r, stored, before, Rolling(done, buffer), pieces);
      i := i + 1;
    }
    RollsEnd(s.h, c, parts, i, limit, Rolling(done, buffer), pieces, peak);
    pieces := StorePieces(s, c, buffer, old(s.objects), done, pieces);
    ok := true;
  }

  /** Where the loop is after `i` reads. */
  ghost predicate Rolls(h: HashFn, c: Chunkers.Chunker, parts: seq<Bytes>, i: nat, limit: nat, r: Rolling,
                        pieces: seq<Bytes>, peak: nat)
    requires c.Valid()
  {
    && i <= |parts| && (forall j :: 0 <= j < i ==> parts[j] != []) && Works(parts[..i], limit)
    && r == Rolled(parts[..i], limit) && pieces == PiecesOf(h, c, r.done) && peak == PeakOf(parts[..i], limit)
  }

  lemma RollsFirst(h: HashFn, c: Chunkers.Chunker, parts: seq<Bytes>, limit: nat)
    requires c.Valid()
    ensures Rolls(h, c, parts, 0, limit, Rolling([], []), [], 0)
  {
  }

  /** One more read: the buffer grows and is spilled, and the peak follows. */
  lemma RollsNext(h: HashFn, c: Chunkers.Chunker, parts: seq<Bytes>, i: nat, limit: nat, r: Rolling, pieces: seq<Bytes>,
                  peak: nat, r': Rolling, pieces': seq<Bytes>)
    requires c.Valid() && Rolls(h, c, parts, i, limit, r, pieces, peak) && i < |parts| && parts[i] != []
    requires limit == 0 || limit >= OVERLAP
    requires var n := |r.buffer| + |parts[i]|; n < limit || n >= OVERLAP
    requires r' == Spilled(r.done, r.buffer + parts[i], limit) && pieces' == PiecesOf(h, c, r'.done)
    ensures Rolls(h, c, parts, i + 1, limit, r', pieces', Max(peak, |r.buffer| + |parts[i]|))
  {
    RolledHeld(parts[..i], limit);
    assert parts[..i + 1][..i] == parts[..i];
  }

  /** Only the first read can be too short to spill, and only without concurrency. */
  lemma RollsShort(h: HashFn, c: Chunkers.Chunker, parts: seq<Bytes>, i: nat, limit: nat, r: Rolling,
                   pieces: seq<Bytes>, peak: nat)
    requires c.Valid() && Rolls(h, c, parts, i, limit, r, pieces, peak) && i < |parts| && parts[i] != []
    requires (limit == 0 || limit >= OVERLAP) && limit <= |r.buffer| + |parts[i]| < OVERLAP
    ensures limit == 0 && i == 0 && r == Rolling([], []) && pieces == [] && peak == 0 && !Works(Reads(parts), limit)
  {
    RolledHeld(parts[..i], limit);
  }

  /** What holds when the reads are over. */
  lemma RollsEnd(h: HashFn, c: Chunkers.Chunker, parts: seq<Bytes>, i: nat, limit: nat, r: Rolling, pieces: seq<Bytes>,
                 peak: nat)
    requires c.Valid() && Rolls(h, c, parts, i, limit, r, pieces, peak) && (i < |parts| ==> parts[i] == [])
    requires forall p :: p in parts ==> |p| <= READ_SIZE
    ensures Works(Reads(parts), limit) && r == Rolled(Reads(parts), limit)
    ensures peak == PeakOf(Reads(parts), limit) && peak <= READ_SIZE + Carried(limit)
    ensures Delivered(parts) == [] || limit >= OVERLAP || |parts[0]| >= OVERLAP
    ensures CutUp(PiecesOf(h, c, Stretches(Reads(parts), limit)), Delivered(parts), c.config.maxSize)
    ensures |Delivered(parts)| < limit ==>
      PiecesOf(h, c, Stretches(Reads(parts), limit)) == Indexers.FileChunks(h, c, Delivered(parts))
  {
    if |Delivered(parts)| < limit {
      DeliversReads(parts);
      SmallWhole(h, c, Reads(parts), limit);
    }
    ReadsUpTo(parts, i);
    DeliversReads(parts);
    StretchesWhole(parts[..i], limit);
    PiecesCutUp(h, c, Stretches(parts[..i], limit));
    PeakBounded(parts[..i], limit);
  }

  /** A buffer that has reached the limit is chunked and stored, all but the overlap it keeps. */
  method Spill(s: CS.ContentStore, c: Chunkers.Chunker, buffer: Bytes, limit: nat, ghost before: CS.Objects,
               ghost done: seq<Bytes>, ghost pieces: seq<Bytes>)
    returns (ok: bool, rest: Bytes, ghost done': seq<Bytes>, ghost pieces': seq<Bytes>)
    requires c.Valid() && s.Valid() && s.objects == CS.StoredAll(before, Indexers.Named(s.h, pieces))
    requires pieces == PiecesOf(s.h, c, done)
    modifies s`objects, s`temps, s`dedup
    ensures s.Valid() && s.objects == CS.StoredAll(before, Indexers.Named(s.h, pieces'))
    ensures pieces' == PiecesOf(s.h, c, done')
    ensures ok <==> |buffer| < limit || |buffer| >= OVERLAP
    ensures Rolling(done', rest) == Spilled(done, buffer, limit)
  {
    ok, rest, done', pieces' := true, buffer, done, pieces;
    if |buffer| >= limit {
      if |buffer| < OVERLAP {
        ok := false;
        return;
      }
      var cut := |buffer| - OVERLAP;
      pieces' := StorePieces(s, c, buffer[..cut], before, done, pieces);
      done', rest := done + [buffer[..cut]], buffer[cut..];
    }
  }

  /** Chunk one stretch of the buffer and store its chunks. */
  method StorePieces(s: CS.ContentStore, c: Chunkers.Chunker, bytes: Bytes, ghost before: CS.Objects,
                     ghost done: seq<Bytes>, ghost pieces: seq<Bytes>)
    returns (ghost pieces': seq<Bytes>)
    requires c.Valid() && s.Valid() && s.objects == CS.StoredAll(before, Indexers.Named(s.h, pieces))
    requires pieces == PiecesOf(s.h, c, done)
    modifies s`objects, s`temps, s`dedup
    ensures s.Valid() && s.objects == CS.StoredAll(before, Indexers.Named(s.h, pieces'))
    ensures pieces' == PiecesOf(s.h, c, done + [bytes])
  {
    var chunks := c.ChunkBytes(s.h, bytes);
    var ds := Chunkers.Datas(chunks);
    Indexers.ChunksCutUp(s.h, c, bytes);
    var _ := Indexers.StoreAll(s, ds);
    pieces' := pieces + ds;
    PiecesAppend(s.h, before, pieces, ds);
    assert (done + [bytes])[..|done|] == done;
  }

  lemma PiecesAppend(h: HashFn, before: CS.Objects, pieces: seq<Bytes>, ds: seq<Bytes>)
    ensures CS.StoredAll(before, Indexers.Named(h, pieces + ds))
         == CS.StoredAll(CS.StoredAll(before, Indexers.Named(h, pieces)), Indexers.Named(h, ds))
  {
    assert Indexers.Named(h, pieces + ds) == Indexers.Named(h, pieces) + Indexers.Named(h, ds);
    CS.StoredAllAppend(before, Indexers.Named(h, pieces), Indexers.Named(h, ds));
  }
}
