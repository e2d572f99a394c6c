/** The in-memory LRU cache of the content store, with its running byte total. */
module ChunkCaches {
  import opened Common

  datatype Entry = Entry(hash: Digest, data: Bytes)

  function SumSizes(es: seq<Entry>): nat {
    if es == [] then 0 else |es[0].data| + SumSizes(es[1..])
  }

  lemma {:induction false} SumSizesSplit(es: seq<Entry>, k: nat)
    requires k <= |es|
    ensures SumSizes(es) == SumSizes(es[..k]) + SumSizes(es[k..])
  {
    if k == 0 {
      assert es[..0] == [] && es[0..] == es;
    } else {
      SumSizesSplit(es[1..], k - 1);
      assert es[1..][..k - 1] == es[..k][1..];
      assert es[1..][k - 1..] == es[k..];
    }
  }

  lemma SumSizesSnoc(es: seq<Entry>, e: Entry)
    ensures SumSizes(es + [e]) == SumSizes(es) + |e.data|
  {
    SumSizesSplit(es + [e], |es|);
    assert (es + [e])[..|es|] == es && (es + [e])[|es|..] == [e];
    assert SumSizes([e]) == |e.data| + SumSizes([e][1..]);
  }

  predicate Has(es: seq<Entry>, hash: Digest) {
    exists i :: 0 <= i < |es| && es[i].hash == hash
  }

  predicate DistinctKeys(es: seq<Entry>) {
    forall i, j :: 0 <= i < j < |es| ==> es[i].hash != es[j].hash
  }

  /** Where `hash` sits in the recency list, or the length when it is absent. */
  function IndexOf(es: seq<Entry>, hash: Digest): (i: nat)
    ensures i <= |es|
    ensures i < |es| ==> es[i].hash == hash
    ensures i == |es| <==> !Has(es, hash)
    ensures forall j :: 0 <= j < i ==> es[j].hash != hash
  {
    if es == [] then 0
    else if es[0].hash == hash then 0
    else
      var k := IndexOf(es[1..], hash);
      assert forall j :: 1 <= j < |es| ==> es[j] == es[1..][j - 1];
      assert Has(es[1..], hash) <==> Has(es, hash) by {
        if Has(es, hash) {
          var i :| 0 <= i < |es| && es[i].hash == hash;
          assert es[1..][i - 1].hash == hash;
        }
      }
      1 + k
  }

  function Without(es: seq<Entry>, i: nat): seq<Entry>
    requires i < |es|
  {
    es[..i] + es[i + 1..]
  }

  lemma SumSizesWithout(es: seq<Entry>, i: nat)
    requires i < |es|
    ensures SumSizes(Without(es, i)) == SumSizes(es) - |es[i].data|
  {
    SumSizesSplit(es, i);
    SumSizesSplit(Without(es, i), i);
    assert Without(es, i)[..i] == es[..i] && Without(es, i)[i..] == es[i + 1..];
    assert es[i..][1..] == es[i + 1..];
  }

  lemma MovedToEnd(es: seq<Entry>, i: nat)
    requires i < |es| && DistinctKeys(es)
    ensures var r := Without(es, i) + [es[i]];
      SumSizes(r) == SumSizes(es) && DistinctKeys(r) && multiset(r) == multiset(es) && |r| == |es|
  {
    SumSizesWithout(es, i);
    SumSizesSnoc(Without(es, i), es[i]);
    assert es == es[..i] + [es[i]] + es[i + 1..];
    DistinctWithout(es, i);
  }

  lemma DistinctWithout(es: seq<Entry>, i: nat)
    requires i < |es| && DistinctKeys(es)
    ensures DistinctKeys(Without(es, i) + [es[i]])
  {
  }

  /** How many least recently used entries the eviction loop removes: the fewest that make room
      for `size` bytes, or all of them when even that does not make room. */
  function EvictCount(es: seq<Entry>, total: nat, size: nat, maxSize: nat): (k: nat)
    requires SumSizes(es) <= total
    ensures k <= |es|
    ensures SumSizes(es[..k]) <= total
    ensures k < |es| ==> total - SumSizes(es[..k]) + size <= maxSize
    ensures k > 0 ==> total - SumSizes(es[..k - 1]) + size > maxSize
  {
    if total + size <= maxSize || es == [] then 0
    else
      var k := EvictCount(es[1..], total - |es[0].data|, size, maxSize);
      assert es[..k + 1][1..] == es[1..][..k];
      assert k > 0 ==> es[..k][1..] == es[1..][..k - 1];
      k + 1
  }

  lemma EvictNext(es: seq<Entry>, k: nat)
    requires k < |es|
    ensures SumSizes(es[..k + 1]) == SumSizes(es[..k]) + |es[k].data|
    ensures SumSizes(es[k..]) == |es[k].data| + SumSizes(es[k + 1..])
    ensures es[k..][1..] == es[k + 1..]
  {
    SumSizesSnoc(es[..k], es[k]);
    assert es[..k + 1] == es[..k] + [es[k]];
  }

  /** The eviction count is the one number that leaves room with no entry to spare, or evicts all. */
  lemma {:induction false} EvictCountIs(es: seq<Entry>, total: nat, size: nat, maxSize: nat, k: nat)
    requires SumSizes(es) <= total && k <= |es|
    requires k < |es| ==> total - SumSizes(es[..k]) + size <= maxSize
    requires k > 0 ==> total - SumSizes(es[..k - 1]) + size > maxSize
    ensures k == EvictCount(es, total, size, maxSize)
  {
    if k > 0 {
      assert es[..k][1..] == es[1..][..k - 1];
      if k > 1 {
        assert es[..k - 1][1..] == es[1..][..k - 2];
      }
      EvictCountIs(es[1..], total - |es[0].data|, size, maxSize, k - 1);
    }
  }

  /** The entries `put` keeps: all but the old value of the key, or all but the oldest of a full list. */
  function Kept(es: seq<Entry>, capacity: nat, hash: Digest): seq<Entry> {
    var i := IndexOf(es, hash);
    if i < |es| then Without(es, i)
    else if |es| == capacity && es != [] then es[1..]
    else es
  }

  /** What `put` drops without subtracting it from the running total. */
  function Displaced(es: seq<Entry>, capacity: nat, hash: Digest): seq<Entry> {
    var i := IndexOf(es, hash);
    if i < |es| then [es[i]]
    else if |es| == capacity && es != [] then [es[0]]
    else []
  }

  lemma KeptSizes(es: seq<Entry>, capacity: nat, hash: Digest)
    ensures SumSizes(Kept(es, capacity, hash)) == SumSizes(es) - SumSizes(Displaced(es, capacity, hash))
    ensures |Kept(es, capacity, hash)| == |es| - |Displaced(es, capacity, hash)|
  {
    var i := IndexOf(es, hash);
    if i < |es| {
      SumSizesWithout(es, i);
      SumSizesSnoc([], es[i]);
      assert [] + [es[i]] == [es[i]];
    } else if |es| == capacity && es != [] {
      SumSizesSnoc([], es[0]);
      assert [] + [es[0]] == [es[0]];
    }
  }

  lemma KeptKeys(es: seq<Entry>, capacity: nat, hash: Digest)
    requires DistinctKeys(es)
    ensures DistinctKeys(Kept(es, capacity, hash))
    ensures forall j :: 0 <= j < |Kept(es, capacity, hash)| ==>
              Kept(es, capacity, hash)[j].hash != hash && Kept(es, capacity, hash)[j] in es
  {
    var i := IndexOf(es, hash);
    var kept := Kept(es, capacity, hash);
    forall j | 0 <= j < |kept|
      ensures kept[j].hash != hash && kept[j] in es
    {
      var j' := if i < |es| then (if j < i then j else j + 1) else if |es| == capacity then j + 1 else j;
      assert kept[j] == es[j'];
    }
  }

  /** After an insertion every entry is the new one, or an old one under another key. */
  lemma InsertedEntries(es: seq<Entry>, k: nat, capacity: nat, e: Entry)
    requires k <= |es| && DistinctKeys(es)
    ensures var r := Kept(es[k..], capacity, e.hash) + [e];
      && |r| <= |es| + 1
      && (|es| < capacity && !Has(es, e.hash) ==> Displaced(es[k..], capacity, e.hash) == [])
      && (forall x :: x in r ==> x == e || (x in es && x.hash != e.hash))
  {
    assert forall i :: 0 <= i < |es[k..]| ==> es[k..][i] == es[k + i];
    KeptSizes(es[k..], capacity, e.hash);
    KeptKeys(es[k..], capacity, e.hash);
  }

  class ChunkCache {
    var entries: seq<Entry>  // least recently used first
    var totalSize: nat
    const maxChunks: nat
    const maxSize: nat

    ghost predicate Valid()
      reads this
    {
      && maxChunks > 0
      && |entries| <= maxChunks
      && DistinctKeys(entries)
      && SumSizes(entries) <= totalSize
    }

    /** Bytes counted in `totalSize` that no cached entry accounts for. */
    ghost function OverCount(): int
      reads this
    {
      totalSize - SumSizes(entries)
    }

    constructor (maxChunks: nat, maxSize: nat)
      requires maxChunks > 0
      ensures Valid() && entries == [] && OverCount() == 0
      ensures this.maxChunks == maxChunks && this.maxSize == maxSize
    {
      this.maxChunks, this.maxSize := maxChunks, maxSize;
      entries, totalSize := [], 0;
    }

    predicate Contains(hash: Digest)
      reads this
    {
      Has(entries, hash)
    }

    /** A hit moves the entry to the most recently used end. */
    method Get(hash: Digest) returns (r: Option<Bytes>)
      requires Valid()
      modifies this
      ensures Valid() && totalSize == old(totalSize) && OverCount() == old(OverCount())
      ensures r.Some? <==> Has(old(entries), hash)
      ensures r.Some? ==> Entry(hash, r.value) in old(entries)
      ensures |entries| == |old(entries)| && multiset(entries) == multiset(old(entries))
      ensures r.Some? ==> entries[|entries| - 1] == Entry(hash, r.value)
      ensures r.None? ==> entries == old(entries)
    {
      var i := IndexOf(entries, hash);
      if i == |entries| {
        return None;
      }
      var e := entries[i];
      MovedToEnd(entries, i);
      entries := Without(entries, i) + [e];
      r := Some(e.data);
    }

    /** The eviction loop: drop the oldest entry while the running total leaves no room. The source
        keeps looping when the cache is empty and there is still no room; that is `!ok` here. */
    method MakeRoom(size: nat) returns (ok: bool)
      requires Valid()
      modifies this
      ensures Valid() && OverCount() == old(OverCount())
      ensures entries == old(entries)[EvictCount(old(entries), old(totalSize), size, maxSize)..]
      ensures ok <==> totalSize + size <= maxSize
      ensures !ok ==> entries == []
    {
      ghost var es, total := entries, totalSize;
      ghost var k := 0;
      while totalSize + size > maxSize && entries != []
        invariant k <= |es| && entries == es[k..] && SumSizes(entries) <= totalSize && DistinctKeys(entries)
        invariant SumSizes(es[..k]) == total - totalSize && OverCount() == old(OverCount())
        invariant k > 0 ==> total - SumSizes(es[..k - 1]) + size > maxSize
        decreases |entries|
      {
        EvictNext(es, k);
        totalSize := totalSize - |entries[0].data|;
        entries := entries[1..];
        k := k + 1;
      }
      EvictCountIs(es, total, size, maxSize, k);
      ok := totalSize + size <= maxSize;
    }

    /** Make room, then put and count. The result is false exactly when the source's loop never
        exits. The over-count grows by precisely what `put` drops behind the counter's back. */
    method Insert(hash: Digest, data: Bytes) returns (ok: bool)
      requires Valid()
      modifies this
      ensures Valid()
      ensures ok <==> old(OverCount()) + |data| <= maxSize
      ensures !ok ==> entries == [] && OverCount() == old(OverCount())
      ensures ok ==>
        var kept := old(entries)[EvictCount(old(entries), old(totalSize), |data|, maxSize)..];
        && entries == Kept(kept, maxChunks, hash) + [Entry(hash, data)]
        && OverCount() == old(OverCount()) + SumSizes(Displaced(kept, maxChunks, hash))
      ensures ok ==> totalSize <= maxSize
    {
      ok := MakeRoom(|data|);
      if ok {
        ghost var kept := Kept(entries, maxChunks, hash);
        KeptSizes(entries, maxChunks, hash);
        KeptKeys(entries, maxChunks, hash);
        SumSizesSnoc(kept, Entry(hash, data));
        entries := Kept(entries, maxChunks, hash) + [Entry(hash, data)];
        totalSize := totalSize + |data|;
      }
    }

    method Clear()
      requires Valid()
      modifies this
      ensures Valid() && entries == [] && totalSize == 0
    {
      entries, totalSize := [], 0;
    }
  }

  /** The over-count is reachable and it does make the eviction loop spin: with room for one chunk
      and ten bytes, two insertions of five bytes leave five bytes counted for nothing, and a third
      insertion of six bytes can then never make room. */
  method OverCountSpins() returns (ok: bool)
    ensures !ok
  {
    var five := [0, 0, 0, 0, 0];
    var c := new ChunkCache(1, 10);
    InsertedEntries([], 0, 1, Entry([1], five));
    ok := c.Insert([1], five);
    assert c.entries == [Entry([1], five)];
    SumSizesSnoc([], Entry([1], five));
    assert [] + [Entry([1], five)] == [Entry([1], five)];
    assert c.totalSize == 5;
    assert EvictCount(c.entries, 5, 5, 10) == 0;
    assert IndexOf(c.entries, [2]) == 1;
    ok := c.Insert([2], five);
    ok := c.Insert([3], [0, 0, 0, 0, 0, 0]);
  }
}
