/** Comparing two manifests: what the diff lists, and what applying it does. */
module ManifestDiffs {
  import opened Common
  import opened Encoding
  import opened Merkle
  import opened Manifests

  type Table = map<Str, ManifestEntry>

  /** The lookup map of the source: a later entry of the same path replaces an earlier one. */
  function TableOf(files: seq<ManifestEntry>): (t: Table)
    ensures forall p :: p in t ==> t[p].path == p && t[p] in files
    ensures forall e :: e in files ==> e.path in t
  {
    if files == [] then map[]
    else
      var e := files[|files| - 1];
      assert files == files[..|files| - 1] + [e];
      TableOf(files[..|files| - 1])[e.path := e]
  }

  /** A folder as the diff sees it: content hash by path. */
  function Contents(t: Table): map<Str, Str> {
    map p | p in t :: t[p].contentHash
  }

  datatype ManifestDiff = ManifestDiff(added: seq<ManifestEntry>, modified: seq<ManifestEntry>,
                                       deleted: seq<ManifestEntry>) {
    predicate HasChanges() {
      added != [] || modified != [] || deleted != []
    }

    function ChangeCount(): nat {
      |added| + |modified| + |deleted|
    }
  }

  function Paths(es: seq<ManifestEntry>): set<Str> {
    set e | e in es :: e.path
  }

  /** `es` lists the entries of `t` at `paths`, each once, in some order. */
  ghost predicate Lists(es: seq<ManifestEntry>, t: Table, paths: set<Str>)
    requires paths <= t.Keys
  {
    DistinctPaths(es) && Paths(es) == paths && forall e :: e in es ==> e.path in paths && e == t[e.path]
  }

  function Added(a: Table, b: Table): set<Str> {
    b.Keys - a.Keys
  }

  function Modified(a: Table, b: Table): set<Str> {
    set p | p in a && p in b && a[p].contentHash != b[p].contentHash
  }

  /** The specification of a diff, whatever order the hash maps were walked in. */
  ghost predicate IsDiff(a: Table, b: Table, d: ManifestDiff) {
    && Lists(d.added, b, Added(a, b))
    && Lists(d.modified, b, Modified(a, b))
    && Lists(d.deleted, a, Added(b, a))
  }

  lemma ListsSnoc(es: seq<ManifestEntry>, t: Table, paths: set<Str>, p: Str)
    requires paths <= t.Keys && Lists(es, t, paths) && p in t && p !in paths && t[p].path == p
    ensures Lists(es + [t[p]], t, paths + {p})
  {
    assert forall e :: e in es + [t[p]] <==> e in es || e == t[p];
    assert forall i :: 0 <= i < |es| ==> es[i].path in Paths(es);
    assert t[p] in es + [t[p]];
    forall q | q in paths + {p}
      ensures q in Paths(es + [t[p]])
    {
      if q in paths {
        var e :| e in es && e.path == q;
        assert e in es + [t[p]];
      }
    }
  }

  method Diff(self: seq<ManifestEntry>, other: seq<ManifestEntry>) returns (d: ManifestDiff)
    ensures IsDiff(TableOf(self), TableOf(other), d)
  {
    var a, b := TableOf(self), TableOf(other);
    var added, modified := ScanOther(a, b);
    var deleted := ScanSelf(a, b);
    d := ManifestDiff(added, modified, deleted);
  }

  /** The loop over the other manifest's map: new and changed files. */
  method ScanOther(a: Table, b: Table) returns (added: seq<ManifestEntry>, modified: seq<ManifestEntry>)
    requires forall p :: p in b ==> b[p].path == p
    ensures Lists(added, b, Added(a, b)) && Lists(modified, b, Modified(a, b))
  {
    added, modified := [], [];
    var todo := b.Keys;
    while todo != {}
      invariant todo <= b.Keys
      invariant Lists(added, b, Added(a, b) - todo) && Lists(modified, b, Modified(a, b) - todo)
      decreases todo
    {
      var p :| p in todo;
      if p !in a {
        ListsSnoc(added, b, Added(a, b) - todo, p);
        assert Added(a, b) - (todo - {p}) == Added(a, b) - todo + {p};
        assert Modified(a, b) - (todo - {p}) == Modified(a, b) - todo;
        added := added + [b[p]];
      } else if a[p].contentHash != b[p].contentHash {
        ListsSnoc(modified, b, Modified(a, b) - todo, p);
        assert Modified(a, b) - (todo - {p}) == Modified(a, b) - todo + {p};
        assert Added(a, b) - (todo - {p}) == Added(a, b) - todo;
        modified := modified + [b[p]];
      } else {
        assert Added(a, b) - (todo - {p}) == Added(a, b) - todo;
        assert Modified(a, b) - (todo - {p}) == Modified(a, b) - todo;
      }
      todo := todo - {p};
    }
    assert Added(a, b) - {} == Added(a, b) && Modified(a, b) - {} == Modified(a, b);
  }

  /** The loop over this manifest's map: removed files. */
  method ScanSelf(a: Table, b: Table) returns (deleted: seq<ManifestEntry>)
    requires forall p :: p in a ==> a[p].path == p
    ensures Lists(deleted, a, Added(b, a))
  {
    deleted := [];
    var todo := a.Keys;
    while todo != {}
      invariant todo <= a.Keys
      invariant Lists(deleted, a, Added(b, a) - todo)
      decreases todo
    {
      var p :| p in todo;
      if p !in b {
        ListsSnoc(deleted, a, Added(b, a) - todo, p);
        assert Added(b, a) - (todo - {p}) == Added(b, a) - todo + {p};
        deleted := deleted + [a[p]];
      } else {
        assert Added(b, a) - (todo - {p}) == Added(b, a) - todo;
      }
      todo := todo - {p};
    }
    assert Added(b, a) - {} == Added(b, a);
  }

  // ---- Applying a diff ----

  function Upsert(m: map<Str, Str>, es: seq<ManifestEntry>): map<Str, Str>
    decreases es
  {
    if es == [] then m else Upsert(m[es[0].path := es[0].contentHash], es[1..])
  }

  /** Remove what was deleted, then write what was added or modified. */
  function Apply(m: map<Str, Str>, d: ManifestDiff): map<Str, Str> {
    Upsert(Upsert(m - Paths(d.deleted), d.added), d.modified)
  }

  lemma ListsTail(es: seq<ManifestEntry>, t: Table, paths: set<Str>)
    requires paths <= t.Keys && Lists(es, t, paths) && es != []
    ensures es[0].path in paths && es[0] == t[es[0].path]
    ensures Lists(es[1..], t, paths - {es[0].path})
  {
    assert es[0] in es;
    assert forall e :: e in es <==> e == es[0] || e in es[1..];
    assert es[0].path !in Paths(es[1..]);
    assert Paths(es[1..]) == paths - {es[0].path};
  }

  lemma {:induction false} UpsertLists(m: map<Str, Str>, es: seq<ManifestEntry>, t: Table, paths: set<Str>)
    requires paths <= t.Keys && Lists(es, t, paths)
    ensures Upsert(m, es).Keys == m.Keys + paths
    ensures forall p :: p in paths ==> Upsert(m, es)[p] == t[p].contentHash
    ensures forall p :: p in m && p !in paths ==> Upsert(m, es)[p] == m[p]
    decreases es
  {
    if es == [] {
      assert paths == {};
    } else {
      ListsTail(es, t, paths);
      UpsertLists(m[es[0].path := es[0].contentHash], es[1..], t, paths - {es[0].path});
    }
  }

  /** Applying the diff of a and b to a gives b. */
  lemma ApplyDiff(a: Table, b: Table, d: ManifestDiff)
    requires IsDiff(a, b, d)
    ensures Apply(Contents(a), d) == Contents(b)
  {
    var m0 := Contents(a) - Paths(d.deleted);
    var m1 := Upsert(m0, d.added);
    var m2 := Upsert(m1, d.modified);
    UpsertLists(m0, d.added, b, Added(a, b));
    UpsertLists(m1, d.modified, b, Modified(a, b));
    assert m2.Keys == b.Keys;
    forall p | p in b
      ensures m2[p] == b[p].contentHash
    {
      if p in a && p !in Modified(a, b) {
        assert m2[p] == m1[p] == m0[p] == a[p].contentHash;
      }
    }
  }

  /** Two diffs in a row have the effect of the direct one. */
  lemma DiffsCompose(a: Table, b: Table, c: Table, ab: ManifestDiff, bc: ManifestDiff, ac: ManifestDiff)
    requires IsDiff(a, b, ab) && IsDiff(b, c, bc) && IsDiff(a, c, ac)
    ensures Apply(Apply(Contents(a), ab), bc) == Apply(Contents(a), ac)
  {
    ApplyDiff(a, b, ab);
    ApplyDiff(b, c, bc);
    ApplyDiff(a, c, ac);
  }

  /** The three lists have no path in common, and swapping the manifests swaps added with deleted,
      entry for entry, and leaves the modified paths. */
  lemma DiffShape(a: Table, b: Table, d: ManifestDiff, r: ManifestDiff)
    requires IsDiff(a, b, d) && IsDiff(b, a, r)
    ensures Paths(d.added) !! Paths(d.modified) !! Paths(d.deleted)
    ensures (set e | e in d.added) == (set e | e in r.deleted)
    ensures (set e | e in d.deleted) == (set e | e in r.added)
    ensures Paths(d.modified) == Paths(r.modified)
  {
    SameLists(d.added, r.deleted, b, Added(a, b));
    SameLists(d.deleted, r.added, a, Added(b, a));
  }

  lemma SameLists(x: seq<ManifestEntry>, y: seq<ManifestEntry>, t: Table, paths: set<Str>)
    requires paths <= t.Keys && Lists(x, t, paths) && Lists(y, t, paths)
    ensures (set e | e in x) == (set e | e in y)
  {
    forall e | e in x
      ensures e in y
    {
      assert e.path in Paths(y);
    }
    forall e | e in y
      ensures e in x
    {
      assert e.path in Paths(x);
    }
  }

  /** No changes are reported exactly when both manifests give the same content to the same paths. */
  lemma NoChangesIff(a: Table, b: Table, d: ManifestDiff)
    requires IsDiff(a, b, d)
    ensures !d.HasChanges() <==> Contents(a) == Contents(b)
    ensures d.ChangeCount() == |Added(a, b)| + |Modified(a, b)| + |Added(b, a)|
  {
    ListsCount(d.added, b, Added(a, b));
    ListsCount(d.modified, b, Modified(a, b));
    ListsCount(d.deleted, a, Added(b, a));
    SameContents(a, b);
    assert d.HasChanges() <==> Added(a, b) != {} || Modified(a, b) != {} || Added(b, a) != {};
  }

  lemma SameContents(a: Table, b: Table)
    ensures Contents(a) == Contents(b) <==> Added(a, b) == {} && Modified(a, b) == {} && Added(b, a) == {}
  {
    assert Contents(a).Keys == a.Keys && Contents(b).Keys == b.Keys;
    if Contents(a) == Contents(b) {
      forall p | p in a && p in b
        ensures p !in Modified(a, b)
      {
        assert a[p].contentHash == Contents(a)[p] == Contents(b)[p];
      }
    }
    if Added(a, b) == {} && Modified(a, b) == {} && Added(b, a) == {} {
      assert a.Keys == b.Keys;
      forall p | p in a
        ensures a[p].contentHash == b[p].contentHash
      {
        assert p !in Modified(a, b);
      }
    }
  }

  lemma {:induction false} ListsCount(es: seq<ManifestEntry>, t: Table, paths: set<Str>)
    requires paths <= t.Keys && Lists(es, t, paths)
    ensures |es| == |paths|
    decreases es
  {
    if es == [] {
      assert paths == {};
    } else {
      ListsTail(es, t, paths);
      ListsCount(es[1..], t, paths - {es[0].path});
    }
  }

  lemma TableFinds(files: seq<ManifestEntry>, e: ManifestEntry)
    requires DistinctPaths(files) && e in files
    ensures e.path in TableOf(files) && TableOf(files)[e.path] == e
  {
    var t := TableOf(files);
    assert t[e.path] in files;
  }

  // ---- The diff and the Merkle root ----

  /** Content hashes as the indexer writes them: lower-case hex. */
  ghost predicate LowerHex(files: seq<ManifestEntry>) {
    forall e :: e in files ==> e.contentHash == HexEncode(DecodeOrZero(e.contentHash))
  }

  lemma CounterpartOf(a: seq<ManifestEntry>, b: seq<ManifestEntry>, e: ManifestEntry) returns (f: ManifestEntry)
    requires Sane(a) && Sane(b) && LowerHex(a) && LowerHex(b) && e in a
    requires Canons(SortByPath(a)) == Canons(SortByPath(b))
    ensures f in b && f.path == e.path && f.contentHash == e.contentHash
  {
    SortedSane(a);
    SortedSane(b);
    var p, q := SortByPath(a), SortByPath(b);
    var i :| 0 <= i < |p| && p[i] == e;
    assert Canons(p)[i] == Canons(q)[i];
    f := q[i];
    assert f in q;
  }

  lemma CanonsGiveContents(a: seq<ManifestEntry>, b: seq<ManifestEntry>)
    requires Sane(a) && Sane(b) && LowerHex(a) && LowerHex(b)
    requires Canons(SortByPath(a)) == Canons(SortByPath(b))
    ensures forall p :: p in TableOf(a) ==> p in TableOf(b) && TableOf(b)[p].contentHash == TableOf(a)[p].contentHash
  {
    forall p | p in TableOf(a)
      ensures p in TableOf(b) && TableOf(b)[p].contentHash == TableOf(a)[p].contentHash
    {
      var f := CounterpartOf(a, b, TableOf(a)[p]);
      TableFinds(b, f);
    }
  }

  lemma CanonsNoChanges(a: seq<ManifestEntry>, b: seq<ManifestEntry>, d: ManifestDiff)
    requires Sane(a) && Sane(b) && LowerHex(a) && LowerHex(b)
    requires Canons(SortByPath(a)) == Canons(SortByPath(b)) && IsDiff(TableOf(a), TableOf(b), d)
    ensures !d.HasChanges()
  {
    CanonsGiveContents(a, b);
    CanonsGiveContents(b, a);
    TablesAgree(TableOf(a), TableOf(b), d);
  }

  lemma TablesAgree(a: Table, b: Table, d: ManifestDiff)
    requires forall p :: p in a ==> p in b && b[p].contentHash == a[p].contentHash
    requires forall p :: p in b ==> p in a
    requires IsDiff(a, b, d)
    ensures !d.HasChanges()
  {
    assert Contents(a) == Contents(b);
    NoChangesIff(a, b, d);
  }

  /** Manifests with equal roots have an empty diff, unless one stands for a level of the other; and then
      their heights differ. */
  lemma SameRootNoChanges(h: HashFn, a: seq<ManifestEntry>, b: seq<ManifestEntry>, d: ManifestDiff)
    requires Hash32(h) && Sane(a) && Sane(b) && Unambiguous(a + b) && LowerHex(a) && LowerHex(b)
    requires CollisionFreeOn(h, RootInputs(h, a) + RootInputs(h, b))
    requires ManifestRoot(h, a) == ManifestRoot(h, b) && IsDiff(TableOf(a), TableOf(b), d)
    ensures d.HasChanges() ==> StandsFor(h, a, b) || StandsFor(h, b, a)
    ensures Height(|a|) == Height(|b|) ==> !d.HasChanges()
  {
    ManifestRootBinds(h, a, b);
    if Canons(SortByPath(a)) == Canons(SortByPath(b)) {
      CanonsNoChanges(a, b, d);
    }
    if Height(|a|) == Height(|b|) {
      NoStandIn(h, a, b);
    }
  }
}
