/** Schema migrations: transactional steps, and the manager that walks a database up or down. */
module Migrations {
  import opened Common

  /** A statement changes the schema, or fails on it. It does not touch the version table. */
  type Statement<!S> = S -> Option<S>

  datatype Migration<!S> = Migration(version: nat, up: seq<Statement<S>>, down: Option<seq<Statement<S>>>)

  type Registry<!S> = map<nat, Migration<S>>

  /** A database: its schema, and the rows of the version table, whose key is the version. */
  datatype Database<S> = Database(schema: S, recorded: set<nat>)

  /** Which steps of a transaction fail for outside reasons, such as a full disk: the statements in
      order, then the version row, then opening or committing the transaction. */
  type Faults = nat -> bool

  function NoFault(step: nat): bool { false }

  function NoFaults(version: nat): Faults { NoFault }

  function Exec<S>(stmts: seq<Statement<S>>, s: S, bad: Faults): Option<S> {
    if stmts == [] then Some(s)
    else
      var n := |stmts| - 1;
      match Exec(stmts[..n], s, bad)
      case None => None
      case Some(t) => if bad(n) then None else stmts[n](t)
  }

  function Reversed<T>(s: seq<T>): (r: seq<T>)
    ensures |r| == |s| && forall i :: 0 <= i < |s| ==> r[i] == s[|s| - 1 - i]
  {
    if s == [] then [] else [s[|s| - 1]] + Reversed(s[..|s| - 1])
  }

  /** What one migration does to a database: everything, with its version row, or nothing. */
  function Stepped<S>(m: Migration<S>, up: bool, db: Database<S>, bad: Faults): Option<Database<S>> {
    if !up && m.down.None? then None
    else
      var stmts := if up then m.up else Reversed(m.down.value);
      var n := |stmts|;
      match Exec(stmts, db.schema, bad)
      case None => None
      case Some(t) =>
        if bad(n) || bad(n + 1) || (up && m.version in db.recorded) then None
        else Some(Database(t, if up then db.recorded + {m.version} else db.recorded - {m.version}))
  }

  datatype Outcome<S> = Outcome(db: Database<S>, ok: bool)

  /** The steps of a list of versions, up to the first that fails. */
  function Walk<S>(reg: Registry<S>, vs: seq<nat>, up: bool, db: Database<S>, fails: nat -> Faults): (r: Outcome<S>)
    requires forall i :: 0 <= i < |vs| ==> vs[i] in reg
  {
    if vs == [] then Outcome(db, true)
    else
      match Stepped(reg[vs[0]], up, db, fails(vs[0]))
      case None => Outcome(db, false)
      case Some(next) => Walk(reg, vs[1..], up, next, fails)
  }

  // ---- Versions in order ----

  lemma {:induction false} HasMax(s: set<nat>)
    requires s != {}
    ensures exists m :: m in s && forall x :: x in s ==> x <= m
  {
    var k :| k in s;
    if higher :| higher in s && higher > k {
      var rest := s - {k};
      assert higher in rest;
      HasMax(rest);
      var m :| m in rest && forall x :: x in rest ==> x <= m;
      assert m >= higher > k;
      assert m in s && forall x :: x in s ==> x == k || x in rest;
    }
  }

  lemma {:induction false} HasMin(s: set<nat>, k: nat, n: nat)
    requires k in s && n <= k && forall x :: x in s ==> n <= x
    ensures exists m :: m in s && forall x :: x in s ==> m <= x
    decreases k - n
  {
    if n !in s {
      HasMin(s, k, n + 1);
    }
  }

  function MaxOf(s: set<nat>): (m: nat)
    requires s != {}
    ensures m in s && forall x :: x in s ==> x <= m
  {
    HasMax(s);
    var m :| m in s && forall x :: x in s ==> x <= m;
    m
  }

  function MinOf(s: set<nat>): (m: nat)
    requires s != {}
    ensures m in s && forall x :: x in s ==> m <= x
  {
    var k :| k in s;
    HasMin(s, k, 0);
    var m :| m in s && forall x :: x in s ==> m <= x;
    m
  }

  function Ascending(s: set<nat>): (vs: seq<nat>)
    ensures forall i :: 0 <= i < |vs| ==> vs[i] in s
  {
    if s == {} then [] else [MinOf(s)] + Ascending(s - {MinOf(s)})
  }

  function Descending(s: set<nat>): (vs: seq<nat>)
    ensures forall i :: 0 <= i < |vs| ==> vs[i] in s
  {
    if s == {} then [] else [MaxOf(s)] + Descending(s - {MaxOf(s)})
  }

  /** The versions upwards, each once. */
  lemma {:induction false} UpInOrder(s: set<nat>)
    ensures forall v :: v in s ==> v in Ascending(s)
    ensures forall i, j :: 0 <= i < j < |Ascending(s)| ==> Ascending(s)[i] < Ascending(s)[j]
  {
    if s != {} {
      var m := MinOf(s);
      UpInOrder(s - {m});
      assert forall v :: v in s ==> v == m || v in s - {m};
    }
  }

  /** And downwards. */
  lemma {:induction false} DownInOrder(s: set<nat>)
    ensures forall v :: v in s ==> v in Descending(s)
    ensures forall i, j :: 0 <= i < j < |Descending(s)| ==> Descending(s)[i] > Descending(s)[j]
  {
    if s != {} {
      var m := MaxOf(s);
      DownInOrder(s - {m});
      assert forall v :: v in s ==> v == m || v in s - {m};
    }
  }

  /** Registered versions above `low` and up to `high`. */
  function Registered<S>(reg: Registry<S>, low: nat, high: nat): set<nat> {
    set v | v in reg.Keys && low < v <= high
  }

  /** The rows of the version table; no rows count as version 0. */
  function Current(recorded: set<nat>): (v: nat)
    ensures recorded == {} ==> v == 0
    ensures recorded != {} ==> v in recorded && forall x :: x in recorded ==> x <= v
  {
    if recorded == {} then 0 else MaxOf(recorded)
  }

  /** A whole attempt at a target version. */
  function Migrated<S>(reg: Registry<S>, target: nat, db: Database<S>, fails: nat -> Faults): Outcome<S> {
    var current := Current(db.recorded);
    if current > target then Walk(reg, Descending(Registered(reg, target, current)), false, db, fails)
    else Walk(reg, Ascending(Registered(reg, current, target)), true, db, fails)
  }

  // ---- The database and the manager ----

  class Connection<S(!new)> {
    var schema: S
    var recorded: set<nat>

    ghost function Now(): Database<S>
      reads this
    {
      Database(schema, recorded)
    }

    constructor (schema: S)
      ensures Now() == Database(schema, {})
    {
      this.schema, recorded := schema, {};
    }

    /** Run a migration, or roll it back, in one transaction: the work is done on a copy. */
    method Perform(m: Migration<S>, up: bool, bad: Faults) returns (ok: bool)
      modifies this
      ensures var next := Stepped(m, up, old(Now()), bad);
        ok == next.Some? && Now() == if ok then next.value else old(Now())
    {
      if !up && m.down.None? {
        return false;
      }
      var stmts := if up then m.up else Reversed(m.down.value);
      var work := schema;
      var i := 0;
      while i < |stmts|
        invariant i <= |stmts| && Exec(stmts[..i], schema, bad) == Some(work)
        invariant Now() == old(Now())
      {
        assert stmts[..i + 1][..i] == stmts[..i];
        var next := if bad(i) then None else stmts[i](work);
        if next.None? {
          ExecFails(stmts, i + 1, schema, bad);
          return false;
        }
        work := next.value;
        i := i + 1;
      }
      assert stmts[..i] == stmts;
      if bad(i) || bad(i + 1) || (up && m.version in recorded) {
        return false;
      }
      schema := work;
      recorded := if up then recorded + {m.version} else recorded - {m.version};
      return true;
    }
  }

  lemma {:induction false} ExecFails<S>(stmts: seq<Statement<S>>, i: nat, s: S, bad: Faults)
    requires i <= |stmts| && Exec(stmts[..i], s, bad) == None
    ensures Exec(stmts, s, bad) == None
    decreases |stmts| - i
  {
    if i < |stmts| {
      assert stmts[..i + 1][..i] == stmts[..i];
      ExecFails(stmts, i + 1, s, bad);
    } else {
      assert stmts[..i] == stmts;
    }
  }

  class MigrationManager<S(!new)> {
    var migrations: Registry<S>
    const target: nat

    /** Migrations are filed under their own versions. */
    ghost predicate Valid()
      reads this
    {
      forall v :: v in migrations ==> migrations[v].version == v
    }

    constructor (target: nat)
      ensures Valid() && migrations == map[] && this.target == target
    {
      migrations, this.target := map[], target;
    }

    method AddMigration(m: Migration<S>)
      requires Valid()
      modifies this
      ensures Valid() && migrations == old(migrations)[m.version := m]
    {
      migrations := migrations[m.version := m];
    }

    /** Accepted are the registries of exactly the versions from 1 up, without gaps, that hold the target. */
    method Validate() returns (ok: bool)
      requires Valid()
      ensures ok ==> Gapless(migrations)
      ensures ok <==> Counts(migrations.Keys, |migrations|) && (migrations == map[] || target in migrations)
    {
      var versions := Ascending(migrations.Keys);
      var expected := 1;
      var i := 0;
      while i < |versions|
        invariant i <= |versions| && expected == i + 1
        invariant forall j :: 0 <= j < i ==> versions[j] == j + 1
      {
        if versions[i] != expected {
          NotCounting(migrations.Keys, i);
          return false;
        }
        expected, i := expected + 1, i + 1;
      }
      CountingUp(migrations.Keys);
      return |migrations| == 0 || target in migrations;
    }

    method Migrate(conn: Connection<S>, fails: nat -> Faults) returns (ok: bool)
      modifies conn
      ensures Outcome(conn.Now(), ok) == Migrated(migrations, target, old(conn.Now()), fails)
    {
      var current := Current(conn.recorded);
      if current == target {
        assert Registered(migrations, current, target) == {};
        return true;
      }
      if current > target {
        ok := MigrateDown(conn, current, target, fails);
      } else {
        ok := MigrateUp(conn, current, target, fails);
      }
    }

    method MigrateUp(conn: Connection<S>, low: nat, high: nat, fails: nat -> Faults) returns (ok: bool)
      modifies conn
      ensures Outcome(conn.Now(), ok)
        == Walk(migrations, Ascending(Registered(migrations, low, high)), true, old(conn.Now()), fails)
    {
      var versions := Ascending(Registered(migrations, low, high));
      var i := 0;
      assert versions[0..] == versions;
      while i < |versions|
        invariant i <= |versions|
        invariant Walk(migrations, versions, true, old(conn.Now()), fails)
          == Walk(migrations, versions[i..], true, conn.Now(), fails)
      {
        var done := conn.Perform(migrations[versions[i]], true, fails(versions[i]));
        if !done {
          return false;
        }
        assert versions[i..][1..] == versions[i + 1..];
        i := i + 1;
      }
      return true;
    }

    method MigrateDown(conn: Connection<S>, high: nat, low: nat, fails: nat -> Faults) returns (ok: bool)
      modifies conn
      ensures Outcome(conn.Now(), ok)
        == Walk(migrations, Descending(Registered(migrations, low, high)), false, old(conn.Now()), fails)
    {
      var versions := Descending(Registered(migrations, low, high));
      var i := 0;
      assert versions[0..] == versions;
      while i < |versions|
        invariant i <= |versions|
        invariant Walk(migrations, versions, false, old(conn.Now()), fails)
          == Walk(migrations, versions[i..], false, conn.Now(), fails)
      {
        var done := conn.Perform(migrations[versions[i]], false, fails(versions[i]));
        if !done {
          return false;
        }
        assert versions[i..][1..] == versions[i + 1..];
        i := i + 1;
      }
      return true;
    }
  }

  // ---- Validated registries ----

  /** The set is the versions from 1 to `k`. */
  ghost predicate Counts(s: set<nat>, k: nat) {
    forall v :: v in s <==> 1 <= v <= k
  }

  lemma {:induction false} AscendingSize(s: set<nat>)
    ensures |Ascending(s)| == |s|
  {
    if s != {} {
      AscendingSize(s - {MinOf(s)});
    }
  }

  lemma {:induction false} PlaceOf(s: set<nat>, v: nat) returns (i: nat)
    requires v in s
    ensures i < |Ascending(s)| && Ascending(s)[i] == v
  {
    var m := MinOf(s);
    i := 0;
    if v != m {
      i := PlaceOf(s - {m}, v);
      i := i + 1;
    }
  }

  lemma CountingUp(s: set<nat>)
    requires forall j :: 0 <= j < |Ascending(s)| ==> Ascending(s)[j] == j + 1
    ensures Counts(s, |s|)
  {
    AscendingSize(s);
    forall v | 1 <= v <= |s|
      ensures v in s
    {
      assert Ascending(s)[v - 1] == v;
    }
    forall v | v in s
      ensures 1 <= v <= |s|
    {
      var i := PlaceOf(s, v);
    }
  }

  lemma NotCounting(s: set<nat>, i: nat)
    requires i < |Ascending(s)| && Ascending(s)[i] != i + 1
    ensures !Counts(s, |s|)
  {
    if Counts(s, |s|) {
      AscendingRange(s, 0, |s|, i);
    }
  }

  lemma {:induction false} AscendingRange(s: set<nat>, low: nat, high: nat, i: nat)
    requires forall v :: v in s <==> low < v <= high
    requires i < |Ascending(s)|
    ensures Ascending(s)[i] == low + 1 + i
  {
    var m := MinOf(s);
    assert low + 1 in s;
    if i > 0 {
      AscendingRange(s - {m}, low + 1, high, i - 1);
    }
  }

  // ---- The ladder of versions ----

  ghost predicate Gapless<S(!new)>(reg: Registry<S>) {
    Counts(reg.Keys, |reg|) && forall v :: v in reg ==> reg[v].version == v
  }

  /** The schema at version `w`: the starting schema after the first `w` migrations, none failing. */
  function Ladder<S(!new)>(reg: Registry<S>, base: S, w: nat): Option<S>
    requires Gapless(reg) && w <= |reg|
  {
    if w == 0 then Some(base)
    else
      match Ladder(reg, base, w - 1)
      case None => None
      case Some(s) => Exec(reg[w].up, s, NoFault)
  }

  /** The database is at version `w`: exactly the versions up to `w` are recorded, and the schema is
      what those migrations make. */
  ghost predicate At<S(!new)>(reg: Registry<S>, base: S, db: Database<S>, w: nat)
    requires Gapless(reg)
  {
    w <= |reg| && Counts(db.recorded, w) && Ladder(reg, base, w) == Some(db.schema)
  }

  /** Each rollback statement undoes the statement at its own place; rollback runs them backwards. */
  ghost predicate Undoes<S(!new)>(m: Migration<S>) {
    && m.down.Some? && |m.down.value| == |m.up|
    && forall i, s :: 0 <= i < |m.up| && m.up[i](s).Some? ==> m.down.value[i](m.up[i](s).value) == Some(s)
  }

  /** Whatever rollbacks there are undo their migrations; a migration need not have one. */
  ghost predicate AllUndo<S(!new)>(reg: Registry<S>) {
    forall v :: v in reg && reg[v].down.Some? ==> Undoes(reg[v])
  }

  /** The versions from `high` down to just above `low` all have a rollback. */
  ghost predicate Reversible<S(!new)>(reg: Registry<S>, low: nat, high: nat) {
    forall v :: v in reg && low < v <= high ==> reg[v].down.Some?
  }

  lemma {:induction false} FaultsOnlyStop<S>(stmts: seq<Statement<S>>, s: S, bad: Faults)
    ensures Exec(stmts, s, bad).Some? ==> Exec(stmts, s, NoFault) == Exec(stmts, s, bad)
  {
    if stmts != [] {
      FaultsOnlyStop(stmts[..|stmts| - 1], s, bad);
    }
  }

  lemma {:induction false} ExecCons<S>(first: Statement<S>, rest: seq<Statement<S>>, s: S)
    ensures Exec([first] + rest, s, NoFault) == if first(s).None? then None else Exec(rest, first(s).value, NoFault)
  {
    if rest == [] {
      assert [first] + rest == [first];
      assert Exec([first][..0], s, NoFault) == Some(s);
    } else {
      var n := |rest| - 1;
      ExecCons(first, rest[..n], s);
      assert ([first] + rest)[..|rest|] == [first] + rest[..n];
    }
  }

  lemma {:induction false} BackwardsUndoes<S(!new)>(up: seq<Statement<S>>, down: seq<Statement<S>>, s: S)
    requires |down| == |up| && Exec(up, s, NoFault).Some?
    requires forall i, x :: 0 <= i < |up| && up[i](x).Some? ==> down[i](up[i](x).value) == Some(x)
    ensures Exec(Reversed(down), Exec(up, s, NoFault).value, NoFault) == Some(s)
  {
    if up != [] {
      var n := |up| - 1;
      var before := Exec(up[..n], s, NoFault).value;
      BackwardsUndoes(up[..n], down[..n], s);
      ExecCons(down[n], Reversed(down[..n]), up[n](before).value);
    }
  }

  lemma StepUp<S(!new)>(reg: Registry<S>, base: S, db: Database<S>, w: nat, bad: Faults)
    requires Gapless(reg) && At(reg, base, db, w) && w < |reg|
    ensures var next := Stepped(reg[w + 1], true, db, bad);
      && (next.Some? ==> At(reg, base, next.value, w + 1))
      && (bad == NoFault ==> (next.Some? <==> Ladder(reg, base, w + 1).Some?))
  {
    assert w + 1 in reg;
    FaultsOnlyStop(reg[w + 1].up, db.schema, bad);
  }

  lemma StepDown<S(!new)>(reg: Registry<S>, base: S, db: Database<S>, w: nat, bad: Faults)
    requires Gapless(reg) && At(reg, base, db, w) && w > 0 && AllUndo(reg)
    ensures var next := Stepped(reg[w], false, db, bad);
      && (next.Some? ==> At(reg, base, next.value, w - 1))
      && (bad == NoFault ==> (next.Some? <==> reg[w].down.Some?))
  {
    var m := reg[w];
    if m.down.Some? {
      FaultsOnlyStop(Reversed(m.down.value), db.schema, bad);
      BackwardsUndoes(m.up, m.down.value, Ladder(reg, base, w - 1).value);
    }
  }

  lemma NextUp<S(!new)>(reg: Registry<S>, w: nat, high: nat)
    requires Gapless(reg) && w <= high <= |reg|
    ensures Ascending(Registered(reg, w, high))
      == if w == high then [] else [w + 1] + Ascending(Registered(reg, w + 1, high))
  {
    var s := Registered(reg, w, high);
    if w < high {
      assert w + 1 in s;
      assert s - {w + 1} == Registered(reg, w + 1, high);
    } else {
      assert s == {};
    }
  }

  lemma NextDown<S(!new)>(reg: Registry<S>, low: nat, w: nat)
    requires Gapless(reg) && low <= w <= |reg|
    ensures Descending(Registered(reg, low, w))
      == if w == low then [] else [w] + Descending(Registered(reg, low, w - 1))
  {
    var s := Registered(reg, low, w);
    if low < w {
      assert w in s;
      assert s - {w} == Registered(reg, low, w - 1);
    } else {
      assert s == {};
    }
  }

  /** Walking a gapless registry is counting. */
  function ClimbFrom<S(!new)>(reg: Registry<S>, db: Database<S>, v: nat, high: nat, fails: nat -> Faults): Outcome<S>
    requires Gapless(reg) && v <= high <= |reg|
    decreases high - v
  {
    if v == high then Outcome(db, true)
    else
      var next := Stepped(reg[v + 1], true, db, fails(v + 1));
      if next.None? then Outcome(db, false) else ClimbFrom(reg, next.value, v + 1, high, fails)
  }

  function DescendFrom<S(!new)>(reg: Registry<S>, db: Database<S>, v: nat, low: nat, fails: nat -> Faults): Outcome<S>
    requires Gapless(reg) && low <= v <= |reg|
    decreases v - low
  {
    if v == low then Outcome(db, true)
    else
      var next := Stepped(reg[v], false, db, fails(v));
      if next.None? then Outcome(db, false) else DescendFrom(reg, next.value, v - 1, low, fails)
  }

  lemma WalkCons<S(!new)>(reg: Registry<S>, v: nat, rest: seq<nat>, up: bool, db: Database<S>,
                                             fails: nat -> Faults)
    requires v in reg && forall i :: 0 <= i < |rest| ==> rest[i] in reg
    ensures var o, next := Walk(reg, [v] + rest, up, db, fails), Stepped(reg[v], up, db, fails(v));
      o == if next.None? then Outcome(db, false) else Walk(reg, rest, up, next.value, fails)
  {
    assert ([v] + rest)[1..] == rest;
  }

  function WalkUp<S>(reg: Registry<S>, db: Database<S>, v: nat, high: nat, fails: nat -> Faults): Outcome<S> {
    Walk(reg, Ascending(Registered(reg, v, high)), true, db, fails)
  }

  function WalkDown<S>(reg: Registry<S>, db: Database<S>, v: nat, low: nat, fails: nat -> Faults): Outcome<S> {
    Walk(reg, Descending(Registered(reg, low, v)), false, db, fails)
  }

  lemma WalkUpStep<S(!new)>(reg: Registry<S>, db: Database<S>, v: nat, high: nat, fails: nat -> Faults)
    requires Gapless(reg) && v < high <= |reg|
    ensures var next := Stepped(reg[v + 1], true, db, fails(v + 1));
      WalkUp(reg, db, v, high, fails)
        == if next.None? then Outcome(db, false) else WalkUp(reg, next.value, v + 1, high, fails)
  {
    NextUp(reg, v, high);
    WalkCons(reg, v + 1, Ascending(Registered(reg, v + 1, high)), true, db, fails);
  }

  lemma WalkDownStep<S(!new)>(reg: Registry<S>, db: Database<S>, v: nat, low: nat, fails: nat -> Faults)
    requires Gapless(reg) && low < v <= |reg|
    ensures var next := Stepped(reg[v], false, db, fails(v));
      WalkDown(reg, db, v, low, fails)
        == if next.None? then Outcome(db, false) else WalkDown(reg, next.value, v - 1, low, fails)
  {
    NextDown(reg, low, v);
    WalkCons(reg, v, Descending(Registered(reg, low, v - 1)), false, db, fails);
  }

  lemma {:induction false} WalkClimbs<S(!new)>(reg: Registry<S>, db: Database<S>, v: nat, high: nat,
                                               fails: nat -> Faults)
    requires Gapless(reg) && v <= high <= |reg|
    ensures WalkUp(reg, db, v, high, fails) == ClimbFrom(reg, db, v, high, fails)
    decreases high - v
  {
    if v == high {
      NextUp(reg, v, high);
    } else {
      WalkUpStep(reg, db, v, high, fails);
      var next := Stepped(reg[v + 1], true, db, fails(v + 1));
      if next.Some? {
        WalkClimbs(reg, next.value, v + 1, high, fails);
      }
    }
  }

  lemma {:induction false} WalkDescends<S(!new)>(reg: Registry<S>, db: Database<S>, v: nat, low: nat,
                                                 fails: nat -> Faults)
    requires Gapless(reg) && low <= v <= |reg|
    ensures WalkDown(reg, db, v, low, fails) == DescendFrom(reg, db, v, low, fails)
    decreases v - low
  {
    if v == low {
      NextDown(reg, low, v);
    } else {
      WalkDownStep(reg, db, v, low, fails);
      var next := Stepped(reg[v], false, db, fails(v));
      if next.Some? {
        WalkDescends(reg, next.value, v - 1, low, fails);
      }
    }
  }

  ghost predicate Quiet(fails: nat -> Faults) {
    forall v :: fails(v) == NoFault
  }

  ghost predicate Climbed<S(!new)>(reg: Registry<S>, base: S, high: nat, fails: nat -> Faults, o: Outcome<S>, w: nat)
    requires Gapless(reg) && w <= high <= |reg|
  {
    && At(reg, base, o.db, w) && (o.ok <==> w == high)
    && (!o.ok ==> Stepped(reg[w + 1], true, o.db, fails(w + 1)) == None)
    && (Quiet(fails) ==> (o.ok <==> Ladder(reg, base, high).Some?))
  }

  ghost predicate Descended<S(!new)>(reg: Registry<S>, base: S, v: nat, low: nat, fails: nat -> Faults, o: Outcome<S>,
                                     w: nat)
    requires Gapless(reg) && low <= w <= |reg|
  {
    && At(reg, base, o.db, w) && (o.ok <==> w == low)
    && (!o.ok ==> Stepped(reg[w], false, o.db, fails(w)) == None)
    && (Quiet(fails) ==> (o.ok <==> Reversible(reg, low, v)))
  }

  /** What a step refuses, whatever the statements do: a migration already recorded, and a rollback that
      does not exist. */
  lemma StepRefuses<S(!new)>(m: Migration<S>, db: Database<S>, bad: Faults)
    ensures m.version in db.recorded ==> Stepped(m, true, db, bad) == None
    ensures m.down.None? ==> Stepped(m, false, db, bad) == None
  {
  }

  /** Migrating up climbs the ladder and stops at the target or just below the migration that failed.
      Without outside faults it reaches the target exactly when the ladder does. */
  lemma {:induction false} ClimbStays<S(!new)>(reg: Registry<S>, base: S, db: Database<S>, v: nat, high: nat,
                                               fails: nat -> Faults)
    returns (w: nat)
    requires Gapless(reg) && At(reg, base, db, v) && v <= high <= |reg|
    ensures v <= w <= high && Climbed(reg, base, high, fails, ClimbFrom(reg, db, v, high, fails), w)
    decreases high - v
  {
    w := v;
    if v < high {
      StepUp(reg, base, db, v, fails(v + 1));
      var next := Stepped(reg[v + 1], true, db, fails(v + 1));
      if next.Some? {
        w := ClimbStays(reg, base, next.value, v + 1, high, fails);
      } else if Quiet(fails) {
        LadderBroken(reg, base, v + 1, high);
      }
    }
  }

  lemma {:induction false} LadderBroken<S(!new)>(reg: Registry<S>, base: S, w: nat, high: nat)
    requires Gapless(reg) && w <= high <= |reg| && Ladder(reg, base, w) == None
    ensures Ladder(reg, base, high) == None
    decreases high - w
  {
    if w < high {
      LadderBroken(reg, base, w + 1, high);
    }
  }

  lemma ReversibleNext<S(!new)>(reg: Registry<S>, low: nat, v: nat)
    requires Gapless(reg) && low < v <= |reg|
    ensures v in reg && (Reversible(reg, low, v) <==> reg[v].down.Some? && Reversible(reg, low, v - 1))
  {
  }

  /** Migrating down comes down the same ladder, when the rollbacks there are undo, and stops at the
      target or at the version that could not be rolled back. Without outside faults it reaches the
      target exactly when every version on the way has a rollback. */
  lemma {:induction false} DescentStays<S(!new)>(reg: Registry<S>, base: S, db: Database<S>, v: nat, low: nat,
                                                 fails: nat -> Faults)
    returns (w: nat)
    requires Gapless(reg) && At(reg, base, db, v) && low <= v && AllUndo(reg)
    ensures low <= w <= v && Descended(reg, base, v, low, fails, DescendFrom(reg, db, v, low, fails), w)
    decreases v - low
  {
    w := v;
    if low < v {
      ReversibleNext(reg, low, v);
      StepDown(reg, base, db, v, fails(v));
      var next := Stepped(reg[v], false, db, fails(v));
      if next.Some? {
        w := DescentStays(reg, base, next.value, v - 1, low, fails);
      }
    }
  }

  lemma CurrentOf(s: set<nat>, w: nat)
    requires Counts(s, w)
    ensures Current(s) == w
  {
    if w > 0 {
      assert w in s;
    }
  }

  lemma AttemptStays<S(!new)>(reg: Registry<S>, base: S, db: Database<S>, v: nat, target: nat, fails: nat -> Faults)
    returns (w: nat)
    requires Gapless(reg) && At(reg, base, db, v) && target <= |reg| && (v <= target || AllUndo(reg))
    ensures v <= w <= target || target <= w <= v
    ensures var o := Migrated(reg, target, db, fails);
      && At(reg, base, o.db, w) && (o.ok <==> w == target)
      && (Quiet(fails) ==>
        (o.ok <==> if v <= target then Ladder(reg, base, target).Some? else Reversible(reg, target, v)))
  {
    CurrentOf(db.recorded, v);
    if v > target {
      WalkDescends(reg, db, v, target, fails);
      w := DescentStays(reg, base, db, v, target, fails);
    } else {
      WalkClimbs(reg, db, v, target, fails);
      w := ClimbStays(reg, base, db, v, target, fails);
    }
  }

  // ---- Whole histories ----

  datatype Attempt = Attempt(target: nat, fails: nat -> Faults)

  function History<S>(reg: Registry<S>, db: Database<S>, attempts: seq<Attempt>): Database<S> {
    if attempts == [] then db
    else
      var n := |attempts| - 1;
      Migrated(reg, attempts[n].target, History(reg, db, attempts[..n]), attempts[n].fails).db
  }

  /** Every run of attempts, up and down, failing anywhere, leaves the database on the ladder; an
      attempt that then succeeds leaves it at its target, whatever went wrong before. */
  lemma {:induction false} HistoryStays<S(!new)>(reg: Registry<S>, base: S, db: Database<S>, v: nat,
                                                 attempts: seq<Attempt>)
    returns (w: nat)
    requires Gapless(reg) && AllUndo(reg) && At(reg, base, db, v)
    requires forall i :: 0 <= i < |attempts| ==> attempts[i].target <= |reg|
    ensures At(reg, base, History(reg, db, attempts), w)
    ensures attempts != [] ==>
      var n := |attempts| - 1;
      Migrated(reg, attempts[n].target, History(reg, db, attempts[..n]), attempts[n].fails).ok <==>
        w == attempts[n].target
  {
    w := v;
    if attempts != [] {
      var n := |attempts| - 1;
      w := HistoryStays(reg, base, db, v, attempts[..n]);
      w := AttemptStays(reg, base, History(reg, db, attempts[..n]), w, attempts[n].target, attempts[n].fails);
    }
  }

  /** Migrating up or down moves the count of recorded versions, whatever the statements do. */
  lemma {:induction false} ClimbCounts<S(!new)>(reg: Registry<S>, db: Database<S>, v: nat, high: nat,
                                                fails: nat -> Faults)
    returns (w: nat)
    requires Gapless(reg) && Counts(db.recorded, v) && v <= high <= |reg|
    ensures v <= w <= high
    ensures var o := ClimbFrom(reg, db, v, high, fails); Counts(o.db.recorded, w) && (o.ok <==> w == high)
    decreases high - v
  {
    w := v;
    if v < high {
      assert v + 1 in reg;
      var next := Stepped(reg[v + 1], true, db, fails(v + 1));
      if next.Some? {
        w := ClimbCounts(reg, next.value, v + 1, high, fails);
      }
    }
  }

  lemma {:induction false} DescentCounts<S(!new)>(reg: Registry<S>, db: Database<S>, v: nat, low: nat,
                                                  fails: nat -> Faults)
    returns (w: nat)
    requires Gapless(reg) && Counts(db.recorded, v) && low <= v <= |reg|
    ensures low <= w <= v
    ensures var o := DescendFrom(reg, db, v, low, fails); Counts(o.db.recorded, w) && (o.ok <==> w == low)
    decreases v - low
  {
    w := v;
    if low < v {
      assert v in reg;
      var next := Stepped(reg[v], false, db, fails(v));
      if next.Some? {
        w := DescentCounts(reg, next.value, v - 1, low, fails);
      }
    }
  }

  lemma AttemptCounts<S(!new)>(reg: Registry<S>, db: Database<S>, v: nat, target: nat, fails: nat -> Faults)
    returns (w: nat)
    requires Gapless(reg) && Counts(db.recorded, v) && v <= |reg| && target <= |reg|
    ensures v <= w <= target || target <= w <= v
    ensures var o := Migrated(reg, target, db, fails); Counts(o.db.recorded, w) && (o.ok <==> w == target)
  {
    CurrentOf(db.recorded, v);
    if v > target {
      WalkDescends(reg, db, v, target, fails);
      w := DescentCounts(reg, db, v, target, fails);
    } else {
      WalkClimbs(reg, db, v, target, fails);
      w := ClimbCounts(reg, db, v, target, fails);
    }
  }

  /** In every run of attempts on a gapless registry the recorded versions stay 1 to `w`: with no
      condition on what any statement does, up or down. */
  lemma {:induction false} HistoryCounts<S(!new)>(reg: Registry<S>, db: Database<S>, v: nat, attempts: seq<Attempt>)
    returns (w: nat)
    requires Gapless(reg) && Counts(db.recorded, v) && v <= |reg|
    requires forall i :: 0 <= i < |attempts| ==> attempts[i].target <= |reg|
    ensures w <= |reg| && Counts(History(reg, db, attempts).recorded, w)
    ensures attempts != [] ==>
      var n := |attempts| - 1;
      Migrated(reg, attempts[n].target, History(reg, db, attempts[..n]), attempts[n].fails).ok <==>
        w == attempts[n].target
  {
    w := v;
    if attempts != [] {
      var n := |attempts| - 1;
      w := HistoryCounts(reg, db, v, attempts[..n]);
      w := AttemptCounts(reg, History(reg, db, attempts[..n]), w, attempts[n].target, attempts[n].fails);
    }
  }

  /** Re-running after failures: once an attempt gets through, the database is the one an undisturbed
      migration makes. */
  lemma RerunReachesSame<S(!new)>(reg: Registry<S>, base: S, db: Database<S>, v: nat,
                                                     attempts: seq<Attempt>, target: nat,
                                                      fails: nat -> Faults)
    requires Gapless(reg) && At(reg, base, db, v) && v <= target <= |reg|
    requires forall i :: 0 <= i < |attempts| ==> attempts[i].target == target
    requires Migrated(reg, target, History(reg, db, attempts), fails).ok
    ensures Migrated(reg, target, db, NoFaults) == Migrated(reg, target, History(reg, db, attempts), fails)
  {
    var w := RetriesClimb(reg, base, db, v, attempts, target);
    var top := AttemptStays(reg, base, History(reg, db, attempts), w, target, fails);
    var calm := AttemptStays(reg, base, db, v, target, NoFaults);
  }

  lemma {:induction false} RetriesClimb<S(!new)>(reg: Registry<S>, base: S, db: Database<S>, v: nat,
                                                 attempts: seq<Attempt>, target: nat)
    returns (w: nat)
    requires Gapless(reg) && At(reg, base, db, v) && v <= target <= |reg|
    requires forall i :: 0 <= i < |attempts| ==> attempts[i].target == target
    ensures v <= w <= target && At(reg, base, History(reg, db, attempts), w)
  {
    w := v;
    if attempts != [] {
      var n := |attempts| - 1;
      w := RetriesClimb(reg, base, db, v, attempts[..n], target);
      w := AttemptStays(reg, base, History(reg, db, attempts[..n]), w, target, attempts[n].fails);
    }
  }

  /** Up and back down, with rollbacks that undo, restores schema and version table. */
  lemma UpThenDownRestores<S(!new)>(reg: Registry<S>, base: S, db: Database<S>, v: nat, target: nat,
                                    fails: nat -> Faults,
                                                        fails': nat -> Faults)
    requires Gapless(reg) && AllUndo(reg) && At(reg, base, db, v) && v <= target <= |reg|
    requires Migrated(reg, v, Migrated(reg, target, db, fails).db, fails').ok
    ensures Migrated(reg, v, Migrated(reg, target, db, fails).db, fails').db == db
  {
    var up := AttemptStays(reg, base, db, v, target, fails);
    var w := AttemptStays(reg, base, Migrated(reg, target, db, fails).db, up, v, fails');
  }
}
