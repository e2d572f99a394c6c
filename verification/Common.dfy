/** Types shared by every component: bytes, digests, results, and what it means for a hash
    function to have no collision among a given collection of inputs. */
module Common {
  type byte = x: int | 0 <= x < 256

  type Bytes = seq<byte>

  /** BLAKE3 is a parameter of the model: any function from bytes to digests. */
  type Digest = Bytes

  type HashFn = Bytes -> Digest

  datatype Option<+T> = None | Some(value: T)

  datatype Result<+T, +E> = Ok(value: T) | Err(error: E)

  /** No two different strings of `inputs` share a digest. */
  ghost predicate CollisionFreeOn(h: HashFn, inputs: set<Bytes>) {
    forall x, y :: x in inputs && y in inputs && h(x) == h(y) ==> x == y
  }

  /** BLAKE3 digests have 32 bytes. */
  ghost predicate Hash32(h: HashFn) {
    forall x :: |h(x)| == 32
  }

  /** The concatenation of a list of byte strings. */
  function Flatten(parts: seq<Bytes>): Bytes {
    if parts == [] then [] else parts[0] + Flatten(parts[1..])
  }

  lemma {:induction false} FlattenAppend(a: seq<Bytes>, b: seq<Bytes>)
    ensures Flatten(a + b) == Flatten(a) + Flatten(b)
  {
    if a == [] {
      assert a + b == b;
    } else {
      assert (a + b)[1..] == a[1..] + b;
      FlattenAppend(a[1..], b);
    }
  }

  lemma FlattenSnoc(a: seq<Bytes>, x: Bytes)
    ensures Flatten(a + [x]) == Flatten(a) + x
  {
    FlattenAppend(a, [x]);
    assert Flatten([x]) == x + Flatten([x][1..]);
  }

  lemma FlattenUpTo(a: seq<Bytes>, i: nat)
    requires i < |a|
    ensures Flatten(a[..i + 1]) == Flatten(a[..i]) + a[i]
  {
    FlattenSnoc(a[..i], a[i]);
    assert a[..i] + [a[i]] == a[..i + 1];
  }

  /** What an asynchronous reader delivers: reads are taken in order until one returns no bytes,
      which is how the source recognises the end of the stream. */
  function Delivered(parts: seq<Bytes>): Bytes {
    if parts == [] || parts[0] == [] then [] else parts[0] + Delivered(parts[1..])
  }

  lemma TakeSnoc<T>(s: seq<T>, k: nat)
    requires k < |s|
    ensures s[..k + 1] == s[..k] + [s[k]]
  {
  }

  // ---- Sizes of sets ----

  lemma SubsetSize<T>(a: set<T>, b: set<T>)
    requires a <= b
    ensures |a| <= |b|
  {
    assert b == a + (b - a);
  }

  lemma UnionCount<T>(a: set<T>, b: set<T>)
    ensures |a + b| <= |a| + |b|
  {
    assert |a + b| + |a * b| == |a| + |b|;
  }
}
