/** The Merkle tree of a manifest over its leaf digests: computation, and what an equal root implies. */
module Merkle {
  import opened Common

  /** What is hashed for node `i` of the next level: a node and its right neighbour, or a lone last
      node twice. */
  function PairInput(hs: seq<Digest>, i: nat): Bytes
    requires 2 * i < |hs|
  {
    if 2 * i + 1 < |hs| then hs[2 * i] + hs[2 * i + 1] else hs[2 * i] + hs[2 * i]
  }

  function NextLevel(h: HashFn, hs: seq<Digest>): (r: seq<Digest>)
    ensures |r| == (|hs| + 1) / 2
    ensures forall i :: 0 <= i < |r| ==> r[i] == h(PairInput(hs, i))
  {
    seq((|hs| + 1) / 2, i requires 0 <= i < (|hs| + 1) / 2 => h(PairInput(hs, i)))
  }

  method HashPairs(h: HashFn, hashes: seq<Digest>) returns (next: seq<Digest>)
    ensures next == NextLevel(h, hashes)
  {
    next := [];
    var i := 0;
    while i < |hashes|
      invariant i == 2 * |next| && i <= |hashes| + 1
      invariant |next| <= (|hashes| + 1) / 2
      invariant forall k :: 0 <= k < |next| ==> next[k] == h(PairInput(hashes, k))
    {
      var input := hashes[i];
      if i + 1 < |hashes| {
        input := input + hashes[i + 1];
      } else {
        input := input + hashes[i];
      }
      next := next + [h(input)];
      i := i + 2;
    }
  }

  function Root(h: HashFn, hs: seq<Digest>): Digest
    requires hs != []
    decreases |hs|
  {
    if |hs| == 1 then hs[0] else Root(h, NextLevel(h, hs))
  }

  /** The shape of the smallest trees: a lone leaf is the root, two leaves are hashed in order, and a third
      is paired with itself. */
  lemma SmallRoots(h: HashFn, a: Digest, b: Digest, c: Digest)
    ensures Root(h, [a]) == a && Root(h, [a, b]) == h(a + b)
    ensures Root(h, [a, b, c]) == h(h(a + b) + h(c + c))
  {
    var two, three := [h(a + b)], [h(a + b), h(c + c)];
    assert NextLevel(h, [a, b]) == two && NextLevel(h, [a, b, c]) == three;
    assert NextLevel(h, three) == [h(h(a + b) + h(c + c))];
    assert Root(h, [a, b, c]) == Root(h, three) == Root(h, [h(h(a + b) + h(c + c))]);
  }

  method ComputeRoot(h: HashFn, leaves: seq<Digest>) returns (root: Digest)
    requires leaves != []
    ensures root == Root(h, leaves)
  {
    var hashes := leaves;
    while |hashes| > 1
      invariant hashes != [] && Root(h, hashes) == Root(h, leaves)
      decreases |hashes|
    {
      hashes := HashPairs(h, hashes);
    }
    root := hashes[0];
  }

  /** Every string hashed above the leaves. */
  function TreeInputs(h: HashFn, hs: seq<Digest>): set<Bytes>
    decreases |hs|
  {
    if |hs| <= 1 then {}
    else (set i | 0 <= i < (|hs| + 1) / 2 :: PairInput(hs, i)) + TreeInputs(h, NextLevel(h, hs))
  }

  function Height(n: nat): nat {
    if n <= 1 then 0 else 1 + Height((n + 1) / 2)
  }

  ghost predicate Digests32(hs: seq<Digest>) {
    forall i :: 0 <= i < |hs| ==> |hs[i]| == 32
  }

  ghost predicate NoDuplicates<T>(s: seq<T>) {
    forall i, j :: 0 <= i < j < |s| ==> s[i] != s[j]
  }

  lemma PairsEqual(a: seq<Digest>, b: seq<Digest>, i: nat, j: nat)
    requires Digests32(a) && Digests32(b) && 2 * i < |a| && 2 * j < |b|
    requires PairInput(a, i) == PairInput(b, j)
    ensures a[2 * i] == b[2 * j]
    ensures (if 2 * i + 1 < |a| then a[2 * i + 1] else a[2 * i]) == (if 2 * j + 1 < |b| then b[2 * j + 1] else b[2 * j])
  {
    var x, y := PairInput(a, i), PairInput(b, j);
    assert a[2 * i] == x[..32] && b[2 * j] == y[..32];
    assert (if 2 * i + 1 < |a| then a[2 * i + 1] else a[2 * i]) == x[32..];
    assert (if 2 * j + 1 < |b| then b[2 * j + 1] else b[2 * j]) == y[32..];
  }

  lemma PairInputIn(h: HashFn, hs: seq<Digest>, i: nat)
    requires 2 * i < |hs| && |hs| > 1
    ensures PairInput(hs, i) in TreeInputs(h, hs)
  {
    assert i < (|hs| + 1) / 2;
  }

  /** Equal nodes of the two next levels come from equal pairs. */
  lemma NodesEqual(h: HashFn, a: seq<Digest>, b: seq<Digest>, i: nat, j: nat, u: set<Bytes>)
    requires Digests32(a) && Digests32(b) && |a| > 1 && |b| > 1 && 2 * i < |a| && 2 * j < |b|
    requires TreeInputs(h, a) <= u && TreeInputs(h, b) <= u && CollisionFreeOn(h, u)
    requires NextLevel(h, a)[i] == NextLevel(h, b)[j]
    ensures a[2 * i] == b[2 * j]
    ensures (if 2 * i + 1 < |a| then a[2 * i + 1] else a[2 * i]) == (if 2 * j + 1 < |b| then b[2 * j + 1] else b[2 * j])
  {
    PairInputIn(h, a, i);
    PairInputIn(h, b, j);
    PairsEqual(a, b, i, j);
  }

  /** Trees of one height with equal roots have equal leaves, unless one of them repeats a leaf. */
  lemma {:induction false} SameHeightBinds(h: HashFn, a: seq<Digest>, b: seq<Digest>, u: set<Bytes>)
    requires Hash32(h) && Digests32(a) && Digests32(b) && a != [] && b != []
    requires TreeInputs(h, a) <= u && TreeInputs(h, b) <= u && CollisionFreeOn(h, u)
    requires Height(|a|) == Height(|b|) && Root(h, a) == Root(h, b)
    ensures a == b || !NoDuplicates(a) || !NoDuplicates(b)
    decreases |a|
  {
    if |a| > 1 {
      var a', b' := NextLevel(h, a), NextLevel(h, b);
      SameHeightBinds(h, a', b', u);
      if a' == b' {
        EqualLevels(h, a, b, u);
      } else if !NoDuplicates(a') {
        DuplicatesBelow(h, a, u);
      } else {
        DuplicatesBelow(h, b, u);
      }
    }
  }

  lemma DuplicatesBelow(h: HashFn, a: seq<Digest>, u: set<Bytes>)
    requires Digests32(a) && |a| > 1 && TreeInputs(h, a) <= u && CollisionFreeOn(h, u)
    requires !NoDuplicates(NextLevel(h, a))
    ensures !NoDuplicates(a)
  {
    var a' := NextLevel(h, a);
    var i, j :| 0 <= i < j < |a'| && a'[i] == a'[j];
    NodesEqual(h, a, a, i, j, u);
    assert a[2 * i] == a[2 * j];
  }

  lemma EqualLevels(h: HashFn, a: seq<Digest>, b: seq<Digest>, u: set<Bytes>)
    requires Digests32(a) && Digests32(b) && |a| > 1 && |b| > 1
    requires TreeInputs(h, a) <= u && TreeInputs(h, b) <= u && CollisionFreeOn(h, u)
    requires NextLevel(h, a) == NextLevel(h, b)
    ensures a == b || !NoDuplicates(a) || !NoDuplicates(b)
  {
    var m := |NextLevel(h, a)|;
    if |a| == |b| {
      forall k | 0 <= k < |a|
        ensures a[k] == b[k]
      {
        EqualChildren(h, a, b, k, u);
      }
    } else if |a| < |b| {
      LoneLast(h, a, b, u);
    } else {
      LoneLast(h, b, a, u);
    }
  }

  lemma EqualChildren(h: HashFn, a: seq<Digest>, b: seq<Digest>, k: nat, u: set<Bytes>)
    requires Digests32(a) && Digests32(b) && |a| == |b| > 1 && k < |a|
    requires TreeInputs(h, a) <= u && TreeInputs(h, b) <= u && CollisionFreeOn(h, u)
    requires NextLevel(h, a) == NextLevel(h, b)
    ensures a[k] == b[k]
  {
    var i := k / 2;
    NodesEqual(h, a, b, i, i, u);
    assert k == 2 * i || k == 2 * i + 1;
  }

  lemma LoneLast(h: HashFn, a: seq<Digest>, b: seq<Digest>, u: set<Bytes>)
    requires Digests32(a) && Digests32(b) && 1 < |a| < |b|
    requires TreeInputs(h, a) <= u && TreeInputs(h, b) <= u && CollisionFreeOn(h, u)
    requires NextLevel(h, a) == NextLevel(h, b)
    ensures !NoDuplicates(b)
  {
    var m := |NextLevel(h, a)|;
    assert |a| == 2 * m - 1 && |b| == 2 * m;
    NodesEqual(h, a, b, m - 1, m - 1, u);
    assert b[2 * m - 2] == b[2 * m - 1];
  }

  function Hashed(h: HashFn, inputs: seq<Bytes>): (r: seq<Digest>)
    ensures |r| == |inputs| && forall i :: 0 <= i < |r| ==> r[i] == h(inputs[i])
  {
    seq(|inputs|, i requires 0 <= i < |inputs| => h(inputs[i]))
  }

  /** Everything hashed for a tree over these leaf inputs. */
  function AllInputs(h: HashFn, inputs: seq<Bytes>): set<Bytes> {
    (set x | x in inputs) + TreeInputs(h, Hashed(h, inputs))
  }

  /** The root of more than one node is the hash of a pair. */
  lemma {:induction false} RootInput(h: HashFn, hs: seq<Digest>) returns (x: Bytes)
    requires Hash32(h) && Digests32(hs) && |hs| > 1
    ensures x in TreeInputs(h, hs) && Root(h, hs) == h(x) && |x| == 64
    decreases |hs|
  {
    if |hs| == 2 {
      x := PairInput(hs, 0);
      PairInputIn(h, hs, 0);
    } else {
      x := RootInput(h, NextLevel(h, hs));
    }
  }

  /** No leaf input of one tree is hashed as a pair in the other. */
  ghost predicate LeavesApart(h: HashFn, a: seq<Bytes>, b: seq<Bytes>) {
    && (forall x :: x in a ==> x !in TreeInputs(h, Hashed(h, b)))
    && (forall x :: x in b ==> x !in TreeInputs(h, Hashed(h, a)))
  }

  /** Pairs have 64 bytes, so leaf inputs of any other length are apart. */
  lemma {:induction false} PairsHave64(h: HashFn, hs: seq<Digest>)
    requires Hash32(h) && Digests32(hs)
    ensures forall x :: x in TreeInputs(h, hs) ==> |x| == 64
    decreases |hs|
  {
    if |hs| > 1 {
      PairsHave64(h, NextLevel(h, hs));
    }
  }

  lemma ApartByLength(h: HashFn, a: seq<Bytes>, b: seq<Bytes>)
    requires Hash32(h) && forall x :: x in a || x in b ==> |x| != 64
    ensures LeavesApart(h, a, b)
  {
    PairsHave64(h, Hashed(h, a));
    PairsHave64(h, Hashed(h, b));
  }

  /** What is hashed for the level above `hs`. */
  function Pairs(hs: seq<Digest>): (r: seq<Bytes>)
    ensures |r| == (|hs| + 1) / 2 && forall i :: 0 <= i < |r| ==> r[i] == PairInput(hs, i)
  {
    seq((|hs| + 1) / 2, i requires 0 <= i < (|hs| + 1) / 2 => PairInput(hs, i))
  }

  /** The leaf inputs `a` are, in order, all that is hashed for one of the levels above `hs`. */
  ghost predicate IsLevel(h: HashFn, a: seq<Bytes>, hs: seq<Digest>)
    decreases |hs|
  {
    |hs| > 1 && (a == Pairs(hs) || IsLevel(h, a, NextLevel(h, hs)))
  }

  /** Such a list has the root of the whole tree, is lower than it, and has a leaf that is a pair in it. */
  lemma {:induction false} LevelFacts(h: HashFn, a: seq<Bytes>, hs: seq<Digest>)
    requires IsLevel(h, a, hs)
    ensures a != [] && Root(h, Hashed(h, a)) == Root(h, hs)
    ensures Height(|a|) < Height(|hs|) && a[0] in TreeInputs(h, hs)
    decreases |hs|
  {
    var next := NextLevel(h, hs);
    if a == Pairs(hs) {
      assert Hashed(h, a) == next;
      PairInputIn(h, hs, 0);
    } else {
      LevelFacts(h, a, next);
    }
  }

  /** A lower tree with the root of a higher one is one of its levels. */
  lemma {:induction false} LowerIsLevel(h: HashFn, a: seq<Bytes>, hs: seq<Digest>, u: set<Bytes>)
    requires Hash32(h) && Digests32(hs) && a != [] && NoDuplicates(Hashed(h, a)) && NoDuplicates(hs)
    requires (forall i :: 0 <= i < |a| ==> a[i] in u) && TreeInputs(h, Hashed(h, a)) <= u && TreeInputs(h, hs) <= u
    requires CollisionFreeOn(h, u) && Height(|a|) < Height(|hs|) && Root(h, Hashed(h, a)) == Root(h, hs)
    ensures IsLevel(h, a, hs)
    decreases |hs|
  {
    var next := NextLevel(h, hs);
    if !NoDuplicates(next) {
      DuplicatesBelow(h, hs, u);
    } else if Height(|a|) == Height(|next|) {
      SameHeightBinds(h, Hashed(h, a), next, u);
      SameInputs(h, a, hs, u);
    } else {
      LowerIsLevel(h, a, next, u);
    }
  }

  lemma SameInputs(h: HashFn, a: seq<Bytes>, hs: seq<Digest>, u: set<Bytes>)
    requires |hs| > 1 && Hashed(h, a) == NextLevel(h, hs)
    requires (forall i :: 0 <= i < |a| ==> a[i] in u) && TreeInputs(h, hs) <= u && CollisionFreeOn(h, u)
    ensures a == Pairs(hs)
  {
    forall i | 0 <= i < |a|
      ensures a[i] == Pairs(hs)[i]
    {
      assert Hashed(h, a)[i] == NextLevel(h, hs)[i];
      PairInputIn(h, hs, i);
    }
  }

  lemma HashedDistinct(h: HashFn, a: seq<Bytes>, u: set<Bytes>)
    requires NoDuplicates(a) && (forall i :: 0 <= i < |a| ==> a[i] in u) && CollisionFreeOn(h, u)
    ensures NoDuplicates(Hashed(h, a))
  {
  }

  lemma HashedBinds(h: HashFn, a: seq<Bytes>, b: seq<Bytes>, u: set<Bytes>)
    requires Hashed(h, a) == Hashed(h, b) && CollisionFreeOn(h, u)
    requires (forall i :: 0 <= i < |a| ==> a[i] in u) && forall i :: 0 <= i < |b| ==> b[i] in u
    ensures a == b
  {
    forall i | 0 <= i < |a|
      ensures a[i] == b[i]
    {
      assert Hashed(h, a)[i] == Hashed(h, b)[i];
    }
  }

  /** Binding, exactly: among strings without a collision, two lists of distinct leaf inputs have equal
      roots if and only if they are equal or one of them is a level of the other's tree. */
  lemma RootBinds(h: HashFn, a: seq<Bytes>, b: seq<Bytes>)
    requires Hash32(h) && a != [] && b != [] && NoDuplicates(a) && NoDuplicates(b)
    requires CollisionFreeOn(h, AllInputs(h, a) + AllInputs(h, b))
    ensures Root(h, Hashed(h, a)) == Root(h, Hashed(h, b))
      <==> a == b || IsLevel(h, a, Hashed(h, b)) || IsLevel(h, b, Hashed(h, a))
  {
    var u := AllInputs(h, a) + AllInputs(h, b);
    var p, q := Hashed(h, a), Hashed(h, b);
    HashedDistinct(h, a, u);
    HashedDistinct(h, b, u);
    if Root(h, p) == Root(h, q) {
      if Height(|a|) < Height(|b|) {
        LowerIsLevel(h, a, q, u);
      } else if Height(|b|) < Height(|a|) {
        LowerIsLevel(h, b, p, u);
      } else {
        SameHeightBinds(h, p, q, u);
        HashedBinds(h, a, b, u);
      }
    }
    if IsLevel(h, a, q) {
      LevelFacts(h, a, q);
    }
    if IsLevel(h, b, p) {
      LevelFacts(h, b, p);
    }
  }

  /** Trees of one height, and trees whose leaves are no pairs of one another, are determined by their
      roots without exception. */
  lemma ApartNoLevel(h: HashFn, a: seq<Bytes>, b: seq<Bytes>)
    requires Height(|a|) == Height(|b|) || LeavesApart(h, a, b)
    ensures !IsLevel(h, a, Hashed(h, b)) && !IsLevel(h, b, Hashed(h, a))
  {
    if IsLevel(h, a, Hashed(h, b)) {
      LevelFacts(h, a, Hashed(h, b));
    }
    if IsLevel(h, b, Hashed(h, a)) {
      LevelFacts(h, b, Hashed(h, a));
    }
  }

  /** Distinctness is needed: repeating the last of an odd number of leaves, more than one, gives the
      same root. */
  lemma LastLeafRepeated(h: HashFn, hs: seq<Digest>)
    requires |hs| > 1 && |hs| % 2 == 1
    ensures Root(h, hs + [hs[|hs| - 1]]) == Root(h, hs)
  {
    var k := |hs| / 2;
    assert |hs| == 2 * k + 1;
    SameNext(h, hs, k);
    RootAbove(h, hs);
    RootAbove(h, hs + [hs[|hs| - 1]]);
  }

  lemma RootAbove(h: HashFn, hs: seq<Digest>)
    requires |hs| > 1
    ensures Root(h, hs) == Root(h, NextLevel(h, hs))
  {
  }

  lemma SameNext(h: HashFn, hs: seq<Digest>, k: nat)
    requires |hs| == 2 * k + 1
    ensures NextLevel(h, hs + [hs[2 * k]]) == NextLevel(h, hs)
  {
    var p, q := NextLevel(h, hs + [hs[2 * k]]), NextLevel(h, hs);
    forall i | 0 <= i < k + 1
      ensures p[i] == q[i]
    {
      SamePair(hs, k, i);
    }
  }

  lemma SamePair(hs: seq<Digest>, k: nat, i: nat)
    requires |hs| == 2 * k + 1 && i <= k
    ensures PairInput(hs + [hs[2 * k]], i) == PairInput(hs, i)
  {
  }
}
