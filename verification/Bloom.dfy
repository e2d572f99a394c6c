/** The Bloom filter of a manifest summary: exactly which bits are set, and what follows for membership. */
module BloomFilters {
  import opened Common

  /** SipHash of an item under a seed. */
  type ItemHash = (Bytes, nat) -> nat

  /** A filter as it travels in a message. */
  datatype Filter = Filter(bits: seq<bv8>, numBits: nat, numHashes: nat)

  predicate WellSized(f: Filter) {
    f.numBits > 0 && |f.bits| == (f.numBits + 7) / 8
  }

  function Mask(offset: nat): bv8
    requires offset < 8
  {
    1 << offset
  }

  predicate IsSet(bits: seq<bv8>, p: nat) {
    p / 8 < |bits| && bits[p / 8] & Mask(p % 8) != 0
  }

  /** Bit `p` is bit `p % 8` of byte `p / 8`, counted from the low end. */
  lemma BitPlace(bits: seq<bv8>, p: nat)
    requires p / 8 < |bits|
    ensures IsSet(bits, p) <==> bits[p / 8] & (1 << (p % 8)) != 0
  {
  }

  /** The positions of an item under the first `k` seeds. */
  function Positions(h: ItemHash, x: Bytes, m: nat, k: nat): set<nat>
    requires m > 0
  {
    if k == 0 then {} else Positions(h, x, m, k - 1) + {h(x, k - 1) % m}
  }

  function Hits(h: ItemHash, items: seq<Bytes>, m: nat, k: nat): set<nat>
    requires m > 0
  {
    if items == [] then {} else Hits(h, items[..|items| - 1], m, k) + Positions(h, items[|items| - 1], m, k)
  }

  lemma {:induction false} PositionCount(h: ItemHash, x: Bytes, m: nat, k: nat)
    requires m > 0
    ensures |Positions(h, x, m, k)| <= k
  {
    if k > 0 {
      PositionCount(h, x, m, k - 1);
    }
  }

  lemma {:induction false} PositionFacts(h: ItemHash, x: Bytes, m: nat, k: nat, p: nat)
    requires m > 0
    ensures p in Positions(h, x, m, k) <==> exists seed :: 0 <= seed < k && p == h(x, seed) % m
  {
    if k > 0 {
      PositionFacts(h, x, m, k - 1, p);
    }
  }

  lemma {:induction false} HitsCount(h: ItemHash, items: seq<Bytes>, m: nat, k: nat)
    requires m > 0
    ensures |Hits(h, items, m, k)| <= k * |items|
  {
    if items != [] {
      var n := |items| - 1;
      HitsCount(h, items[..n], m, k);
      PositionCount(h, items[n], m, k);
      UnionCount(Hits(h, items[..n], m, k), Positions(h, items[n], m, k));
      OneMore(|Hits(h, items, m, k)|, k, n);
    } else {
      assert |Hits(h, items, m, k)| == 0;
    }
  }

  lemma OneMore(b: nat, k: nat, n: nat)
    requires b <= k * n + k
    ensures b <= k * (n + 1)
  {
  }

  lemma {:induction false} HitsHave(h: ItemHash, items: seq<Bytes>, m: nat, k: nat, p: nat)
    requires m > 0
    ensures p in Hits(h, items, m, k) <==> exists i :: 0 <= i < |items| && p in Positions(h, items[i], m, k)
  {
    if items != [] {
      var n := |items| - 1;
      HitsHave(h, items[..n], m, k, p);
      if p in Hits(h, items[..n], m, k) {
        var i :| 0 <= i < n && p in Positions(h, items[..n][i], m, k);
        assert p in Positions(h, items[i], m, k);
      }
      forall i | 0 <= i < |items| && p in Positions(h, items[i], m, k)
        ensures p in Hits(h, items, m, k)
      {
        if i < n {
          assert items[..n][i] == items[i];
        }
      }
    }
  }

  /** The filter has exactly the bits some item hashes to. */
  ghost predicate Represents(h: ItemHash, f: Filter, items: seq<Bytes>) {
    WellSized(f) && forall p: nat :: p < 8 * |f.bits| ==>
      (IsSet(f.bits, p) <==> p in Hits(h, items, f.numBits, f.numHashes))
  }

  /** A bit is set exactly when some added item hashes to it under some seed. */
  lemma BitsExact(h: ItemHash, f: Filter, items: seq<Bytes>, p: nat)
    requires Represents(h, f, items) && p < 8 * |f.bits|
    ensures IsSet(f.bits, p) <==>
      exists i, seed :: 0 <= i < |items| && 0 <= seed < f.numHashes && p == h(items[i], seed) % f.numBits
  {
    HitsHave(h, items, f.numBits, f.numHashes, p);
    if IsSet(f.bits, p) {
      var i :| 0 <= i < |items| && p in Positions(h, items[i], f.numBits, f.numHashes);
      PositionFacts(h, items[i], f.numBits, f.numHashes, p);
    }
    if i, seed :| 0 <= i < |items| && 0 <= seed < f.numHashes && p == h(items[i], seed) % f.numBits {
      PositionFacts(h, items[i], f.numBits, f.numHashes, p);
    }
  }

  function SetBits(bits: seq<bv8>): set<nat> {
    set p | 0 <= p < 8 * |bits| && IsSet(bits, p)
  }

  /** At most `numHashes` bits are set for each element added. */
  lemma SetBitsBounded(h: ItemHash, f: Filter, items: seq<Bytes>)
    requires Represents(h, f, items)
    ensures |SetBits(f.bits)| <= f.numHashes * |items|
  {
    HitsCount(h, items, f.numBits, f.numHashes);
    assert SetBits(f.bits) <= Hits(h, items, f.numBits, f.numHashes);
    SubsetSize(SetBits(f.bits), Hits(h, items, f.numBits, f.numHashes));
  }

  ghost predicate MayContain(h: ItemHash, f: Filter, x: Bytes)
    requires f.numBits > 0
  {
    forall seed :: 0 <= seed < f.numHashes ==> IsSet(f.bits, h(x, seed) % f.numBits)
  }

  /** Every added item passes: the filter has no false negatives. */
  lemma AddedPasses(h: ItemHash, f: Filter, items: seq<Bytes>, x: Bytes)
    requires Represents(h, f, items) && x in items
    ensures MayContain(h, f, x)
  {
    forall seed | 0 <= seed < f.numHashes
      ensures IsSet(f.bits, h(x, seed) % f.numBits)
    {
      var i :| 0 <= i < |items| && items[i] == x;
      BitsExact(h, f, items, h(x, seed) % f.numBits);
    }
  }

  method Contains(h: ItemHash, f: Filter, x: Bytes) returns (r: bool)
    requires WellSized(f)
    ensures r <==> MayContain(h, f, x)
    ensures r <==> forall seed :: 0 <= seed < f.numHashes ==> IsSet(f.bits, h(x, seed) % f.numBits)
  {
    var i := 0;
    while i < f.numHashes
      invariant i <= f.numHashes
      invariant forall seed :: 0 <= seed < i ==> IsSet(f.bits, h(x, seed) % f.numBits)
    {
      var p := h(x, i) % f.numBits;
      if f.bits[p / 8] & Mask(p % 8) == 0 {
        return false;
      }
      i := i + 1;
    }
    return true;
  }

  lemma MaskBits(w: bv8, i: nat, j: nat)
    requires i < 8 && j < 8
    ensures (w | Mask(i)) & Mask(j) != 0 <==> i == j || w & Mask(j) != 0
  {
    if i == 0 { MaskBit(w, Mask(0), j); }
    else if i == 1 { MaskBit(w, Mask(1), j); }
    else if i == 2 { MaskBit(w, Mask(2), j); }
    else if i == 3 { MaskBit(w, Mask(3), j); }
    else if i == 4 { MaskBit(w, Mask(4), j); }
    else if i == 5 { MaskBit(w, Mask(5), j); }
    else if i == 6 { MaskBit(w, Mask(6), j); }
    else { MaskBit(w, Mask(7), j); }
  }

  lemma MaskBit(w: bv8, m: bv8, j: nat)
    requires j < 8
    ensures (w | m) & Mask(j) != 0 <==> m & Mask(j) != 0 || w & Mask(j) != 0
  {
  }

  lemma SetBit(bits: seq<bv8>, q: nat, p: nat)
    requires q / 8 < |bits|
    ensures IsSet(bits[q / 8 := bits[q / 8] | Mask(q % 8)], p) <==> p == q || IsSet(bits, p)
  {
    if p / 8 == q / 8 {
      MaskBits(bits[q / 8], q % 8, p % 8);
    }
  }

  /** `after` has the bits of `before`, and those at the positions. */
  ghost predicate Marked(before: seq<bv8>, after: seq<bv8>, positions: set<nat>) {
    |after| == |before| && forall p: nat :: p < 8 * |after| ==>
      (IsSet(after, p) <==> IsSet(before, p) || p in positions)
  }

  lemma MarkOne(before: seq<bv8>, was: seq<bv8>, positions: set<nat>, q: nat)
    requires Marked(before, was, positions) && q / 8 < |was|
    ensures Marked(before, was[q / 8 := was[q / 8] | Mask(q % 8)], positions + {q})
  {
    var after := was[q / 8 := was[q / 8] | Mask(q % 8)];
    forall p: nat | p < 8 * |after|
      ensures IsSet(after, p) <==> IsSet(before, p) || p in positions + {q}
    {
      SetBit(was, q, p);
    }
  }

  lemma RepresentsMore(h: ItemHash, f: Filter, g: Filter, items: seq<Bytes>, x: Bytes)
    requires Represents(h, f, items) && g.numBits == f.numBits && g.numHashes == f.numHashes
    requires Marked(f.bits, g.bits, Positions(h, x, f.numBits, f.numHashes))
    ensures Represents(h, g, items + [x])
  {
    assert (items + [x])[..|items|] == items;
  }

  class BloomFilter {
    const h: ItemHash
    const bits: array<bv8>
    const numBits: nat
    const numHashes: nat
    var numElements: nat
    ghost var items: seq<Bytes>

    ghost predicate Valid()
      reads this, bits
    {
      Represents(h, Now(), items) && numElements == |items|
    }

    ghost function Now(): Filter
      reads bits
    {
      Filter(bits[..], numBits, numHashes)
    }

    constructor (h: ItemHash, numBits: nat, numHashes: nat)
      requires numBits > 0
      ensures Valid() && fresh(bits) && items == []
      ensures this.h == h && this.numBits == numBits && this.numHashes == numHashes
    {
      this.h, this.numBits, this.numHashes := h, numBits, numHashes;
      bits := new bv8[(numBits + 7) / 8](_ => 0);
      numElements, items := 0, [];
    }

    method Add(x: Bytes)
      requires Valid()
      modifies this, bits
      ensures Valid() && items == old(items) + [x]
    {
      ghost var before := bits[..];
      SetPositions(x);
      numElements := numElements + 1;
      items := items + [x];
      RepresentsMore(h, Filter(before, numBits, numHashes), Now(), old(items), x);
    }

    method SetPositions(x: Bytes)
      requires WellSized(Now())
      modifies bits
      ensures Marked(old(bits[..]), bits[..], Positions(h, x, numBits, numHashes))
    {
      ghost var before := bits[..];
      var i := 0;
      while i < numHashes
        invariant i <= numHashes && Marked(before, bits[..], Positions(h, x, numBits, i))
      {
        var position := h(x, i) % numBits;
        ghost var was := bits[..];
        bits[position / 8] := bits[position / 8] | Mask(position % 8);
        assert bits[..] == was[position / 8 := was[position / 8] | Mask(position % 8)];
        MarkOne(before, was, Positions(h, x, numBits, i), position);
        i := i + 1;
      }
    }

    method ToFilter() returns (f: Filter)
      requires Valid()
      ensures f == Now() && Represents(h, f, items)
    {
      f := Filter(bits[..], numBits, numHashes);
    }
  }
}
