/** The orchestrator's retry and debounce ticks. */
module Orchestrators {
  import opened Common

  datatype Kind = Created | Modified | Deleted | Renamed(source: Bytes, target: Bytes)

  datatype FileEvent = FileEvent(path: Bytes, kind: Kind)

  datatype PendingOperation = PendingOperation(path: Bytes, kind: Kind, retries: nat, lastAttempt: nat)

  datatype FileOperation = Create | Modify | Delete

  /** One file operation to run: what it does, and on which path. */
  datatype Task = Task(path: Bytes, operation: FileOperation)

  /** Thirty seconds, in the nanoseconds of the clock. */
  const RETRY_AFTER: nat := 30_000_000_000

  // ---- Retries ----

  /** What becomes of a pending operation at a tick: given up, left alone, or tried again. */
  function Kept(op: PendingOperation, now: nat, max: nat): seq<PendingOperation> {
    if op.retries >= max then []
    else if now < op.lastAttempt + RETRY_AFTER then [op]
    else [op.(retries := op.retries + 1, lastAttempt := now)]
  }

  function Emitted(op: PendingOperation, now: nat, max: nat): seq<FileEvent> {
    if op.retries < max && now >= op.lastAttempt + RETRY_AFTER then [FileEvent(op.path, op.kind)] else []
  }

  /** The three cases of a tick: out of retries, tried less than thirty seconds ago, or tried again. */
  lemma RetryTick(op: PendingOperation, now: nat, max: nat)
    ensures op.retries >= max ==> Kept(op, now, max) == [] && Emitted(op, now, max) == []
    ensures op.retries < max && now < op.lastAttempt + 30_000_000_000 ==>
      Kept(op, now, max) == [op] && Emitted(op, now, max) == []
    ensures op.retries < max && now >= op.lastAttempt + 30_000_000_000 ==>
      && Kept(op, now, max) == [PendingOperation(op.path, op.kind, op.retries + 1, now)]
      && Emitted(op, now, max) == [FileEvent(op.path, op.kind)]
  {
  }

  function AllKept(ops: seq<PendingOperation>, now: nat, max: nat): seq<PendingOperation> {
    if ops == [] then [] else AllKept(ops[..|ops| - 1], now, max) + Kept(ops[|ops| - 1], now, max)
  }

  function AllEmitted(ops: seq<PendingOperation>, now: nat, max: nat): seq<FileEvent> {
    if ops == [] then [] else AllEmitted(ops[..|ops| - 1], now, max) + Emitted(ops[|ops| - 1], now, max)
  }

  /** How many more times an operation may be tried. */
  function Worth(op: PendingOperation, max: nat): nat {
    if op.retries < max then max - op.retries else 0
  }

  function Budget(ops: seq<PendingOperation>, max: nat): nat {
    if ops == [] then 0 else Budget(ops[..|ops| - 1], max) + Worth(ops[|ops| - 1], max)
  }

  lemma BudgetSnoc(a: seq<PendingOperation>, op: PendingOperation, max: nat)
    ensures Budget(a + [op], max) == Budget(a, max) + Worth(op, max)
  {
    assert (a + [op])[..|a|] == a;
  }

  lemma KeptSpends(a: seq<PendingOperation>, op: PendingOperation, now: nat, max: nat)
    ensures |Emitted(op, now, max)| + Budget(a + Kept(op, now, max), max) == Budget(a, max) + Worth(op, max)
  {
    if op.retries >= max {
      assert a + [] == a;
    } else if now < op.lastAttempt + RETRY_AFTER {
      BudgetSnoc(a, op, max);
    } else {
      BudgetSnoc(a, op.(retries := op.retries + 1, lastAttempt := now), max);
    }
  }

  /** Every event a tick emits is paid for by the budget of the operations: none is emitted twice for
      one retry, and none is lost. */
  lemma {:induction false} TickSpends(ops: seq<PendingOperation>, now: nat, max: nat)
    ensures |AllEmitted(ops, now, max)| + Budget(AllKept(ops, now, max), max) == Budget(ops, max)
  {
    if ops != [] {
      var n := |ops| - 1;
      TickSpends(ops[..n], now, max);
      KeptSpends(AllKept(ops[..n], now, max), ops[n], now, max);
    }
  }

  /** The pending operations after ticks at the given times, and all the events emitted on the way. */
  function AfterTicks(ops: seq<PendingOperation>, times: seq<nat>, max: nat): seq<PendingOperation> {
    if times == [] then ops else AllKept(AfterTicks(ops, times[..|times| - 1], max), times[|times| - 1], max)
  }

  function EmittedOver(ops: seq<PendingOperation>, times: seq<nat>, max: nat): seq<FileEvent> {
    if times == [] then []
    else
      var n := |times| - 1;
      EmittedOver(ops, times[..n], max) + AllEmitted(AfterTicks(ops, times[..n], max), times[n], max)
  }

  /** Over any sequence of ticks the events emitted are exactly the budget spent. */
  lemma {:induction false} RetriesBounded(ops: seq<PendingOperation>, times: seq<nat>, max: nat)
    ensures |EmittedOver(ops, times, max)| + Budget(AfterTicks(ops, times, max), max) == Budget(ops, max)
  {
    if times != [] {
      var n := |times| - 1;
      RetriesBounded(ops, times[..n], max);
      TickSpends(AfterTicks(ops, times[..n], max), times[n], max);
    }
  }

  /** Every operation was last tried by `time` and has been tried at least `tries` times. */
  ghost predicate Tried(ops: seq<PendingOperation>, tries: nat, time: nat) {
    forall i :: 0 <= i < |ops| ==> ops[i].retries >= tries && ops[i].lastAttempt <= time
  }

  lemma {:induction false} DueTickTries(ops: seq<PendingOperation>, tries: nat, time: nat, now: nat, max: nat)
    requires Tried(ops, tries, time) && time + RETRY_AFTER <= now
    ensures Tried(AllKept(ops, now, max), tries + 1, now)
    ensures tries >= max ==> AllKept(ops, now, max) == []
  {
    if ops != [] {
      DueTickTries(ops[..|ops| - 1], tries, time, now, max);
    }
  }

  function LastTick(start: nat, times: seq<nat>): nat {
    if times == [] then start else times[|times| - 1]
  }

  /** Ticks at least thirty seconds apart, the first as long after `start`. */
  ghost predicate Spaced(start: nat, times: seq<nat>) {
    times != [] ==>
      var front := times[..|times| - 1];
      Spaced(start, front) && times[|times| - 1] >= LastTick(start, front) + RETRY_AFTER
  }

  /** Enough ticks, far enough apart, empty the list: one more than the number of retries allowed. */
  lemma {:induction false} SpacedTicksEmpty(ops: seq<PendingOperation>, start: nat, times: seq<nat>, max: nat)
    requires Tried(ops, 0, start) && Spaced(start, times)
    ensures Tried(AfterTicks(ops, times, max), |times|, LastTick(start, times))
    ensures |times| > max ==> AfterTicks(ops, times, max) == []
  {
    if times != [] {
      var n := |times| - 1;
      SpacedTicksEmpty(ops, start, times[..n], max);
      DueTickTries(AfterTicks(ops, times[..n], max), n, LastTick(start, times[..n]), times[n], max);
    }
  }

  /** How many operations were last tried before `time`. */
  function Stale(ops: seq<PendingOperation>, time: nat): nat {
    if ops == [] then 0 else Stale(ops[..|ops| - 1], time) + if ops[|ops| - 1].lastAttempt < time then 1 else 0
  }

  lemma StaleSnoc(a: seq<PendingOperation>, op: PendingOperation, time: nat)
    ensures Stale(a + [op], time) == Stale(a, time) + if op.lastAttempt < time then 1 else 0
  {
    assert (a + [op])[..|a|] == a;
  }

  lemma {:induction false} TickFreshens(ops: seq<PendingOperation>, start: nat, now: nat, max: nat)
    requires start <= now < start + RETRY_AFTER
    ensures |AllEmitted(ops, now, max)| + Stale(AllKept(ops, now, max), start) <= Stale(ops, start) <= |ops|
  {
    if ops != [] {
      var n := |ops| - 1;
      var op, kept := ops[n], AllKept(ops[..n], now, max);
      TickFreshens(ops[..n], start, now, max);
      if op.retries >= max {
        assert kept + [] == kept;
      } else if now < op.lastAttempt + RETRY_AFTER {
        StaleSnoc(kept, op, start);
      } else {
        StaleSnoc(kept, op.(retries := op.retries + 1, lastAttempt := now), start);
      }
    }
  }

  /** However often the ticks come, within thirty seconds no operation is tried twice. */
  lemma {:induction false} OncePerWindow(ops: seq<PendingOperation>, start: nat, times: seq<nat>, max: nat)
    requires forall i :: 0 <= i < |times| ==> start <= times[i] < start + RETRY_AFTER
    ensures |EmittedOver(ops, times, max)| + Stale(AfterTicks(ops, times, max), start) <= Stale(ops, start) <= |ops|
  {
    if times != [] {
      var n := |times| - 1;
      OncePerWindow(ops, start, times[..n], max);
      TickFreshens(AfterTicks(ops, times[..n], max), start, times[n], max);
    } else {
      StaleCount(ops, start);
    }
  }

  lemma {:induction false} StaleCount(ops: seq<PendingOperation>, time: nat)
    ensures Stale(ops, time) <= |ops|
  {
    if ops != [] {
      StaleCount(ops[..|ops| - 1], time);
    }
  }

  // ---- Each operation on its own ----

  /** Every operation is treated as if it were alone: what a tick makes of a list is what it makes of
      its parts. */
  lemma {:induction false} KeptSplits(a: seq<PendingOperation>, b: seq<PendingOperation>, now: nat, max: nat)
    ensures AllKept(a + b, now, max) == AllKept(a, now, max) + AllKept(b, now, max)
  {
    if b == [] {
      assert a + b == a;
    } else {
      var n := |b| - 1;
      assert (a + b)[..|a + b| - 1] == a + b[..n];
      KeptSplits(a, b[..n], now, max);
    }
  }

  lemma {:induction false} EmittedSplits(a: seq<PendingOperation>, b: seq<PendingOperation>, now: nat, max: nat)
    ensures AllEmitted(a + b, now, max) == AllEmitted(a, now, max) + AllEmitted(b, now, max)
  {
    if b == [] {
      assert a + b == a;
    } else {
      var n := |b| - 1;
      assert (a + b)[..|a + b| - 1] == a + b[..n];
      EmittedSplits(a, b[..n], now, max);
    }
  }

  lemma {:induction false} TicksSplit(a: seq<PendingOperation>, b: seq<PendingOperation>, times: seq<nat>, max: nat)
    ensures AfterTicks(a + b, times, max) == AfterTicks(a, times, max) + AfterTicks(b, times, max)
    ensures multiset(EmittedOver(a + b, times, max))
      == multiset(EmittedOver(a, times, max)) + multiset(EmittedOver(b, times, max))
  {
    if times != [] {
      var n := |times| - 1;
      TicksSplit(a, b, times[..n], max);
      KeptSplits(AfterTicks(a, times[..n], max), AfterTicks(b, times[..n], max), times[n], max);
      EmittedSplits(AfterTicks(a, times[..n], max), AfterTicks(b, times[..n], max), times[n], max);
    }
  }

  /** The events each operation gets over the ticks, operation by operation. */
  function EventsOfEach(ops: seq<PendingOperation>, times: seq<nat>, max: nat): seq<seq<FileEvent>> {
    seq(|ops|, i requires 0 <= i < |ops| => EmittedOver([ops[i]], times, max))
  }

  function Pooled(groups: seq<seq<FileEvent>>): multiset<FileEvent> {
    if groups == [] then multiset{} else Pooled(groups[..|groups| - 1]) + multiset(groups[|groups| - 1])
  }

  /** What the ticks emit is the events of each operation together, as often. */
  lemma {:induction false} EventsAreOfEach(ops: seq<PendingOperation>, times: seq<nat>, max: nat)
    ensures multiset(EmittedOver(ops, times, max)) == Pooled(EventsOfEach(ops, times, max))
  {
    if ops == [] {
      NothingEmitted(times, max);
    } else {
      var n := |ops| - 1;
      EventsAreOfEach(ops[..n], times, max);
      TicksSplit(ops[..n], [ops[n]], times, max);
      assert ops == ops[..n] + [ops[n]];
      assert EventsOfEach(ops, times, max)[..n] == EventsOfEach(ops[..n], times, max);
    }
  }

  lemma {:induction false} NothingEmitted(times: seq<nat>, max: nat)
    ensures AfterTicks([], times, max) == [] && EmittedOver([], times, max) == []
  {
    if times != [] {
      NothingEmitted(times[..|times| - 1], max);
    }
  }

  /** Each operation's own events: all for its own path and kind, at most as many as it has retries
      left, exactly as many when the ticks have used it up, and at most one within thirty seconds. */
  lemma EachBounded(ops: seq<PendingOperation>, times: seq<nat>, max: nat, i: nat)
    requires i < |ops|
    ensures var events := EventsOfEach(ops, times, max)[i];
      && (forall e :: e in events ==> e == FileEvent(ops[i].path, ops[i].kind))
      && |events| <= Worth(ops[i], max)
      && (AfterTicks([ops[i]], times, max) == [] ==> |events| == Worth(ops[i], max))
      && (Within(times) ==> |events| <= 1)
  {
    var alone := [ops[i]];
    assert Budget(alone[..0], max) == 0;
    RetriesBounded(alone, times, max);
    OwnEvents(ops[i], times, max);
    if Within(times) && times != [] {
      OncePerWindow(alone, times[0], times, max);
    }
  }

  /** Ticks in order, all less than thirty seconds after the first. */
  ghost predicate Within(times: seq<nat>) {
    forall i :: 0 <= i < |times| ==> times[0] <= times[i] < times[0] + RETRY_AFTER
  }

  /** An operation keeps its path and kind as long as it is pending, so its events are for them. */
  lemma {:induction false} OwnEvents(op: PendingOperation, times: seq<nat>, max: nat)
    ensures var left := AfterTicks([op], times, max);
      |left| <= 1 && forall x :: x in left ==> x.path == op.path && x.kind == op.kind
    ensures forall e :: e in EmittedOver([op], times, max) ==> e == FileEvent(op.path, op.kind)
  {
    if times != [] {
      var n := |times| - 1;
      OwnEvents(op, times[..n], max);
      var left := AfterTicks([op], times[..n], max);
      if left != [] {
        assert left == [left[0]] && left[0] in left;
        assert AllKept(left[..0], times[n], max) == [] && AllEmitted(left[..0], times[n], max) == [];
      }
    }
  }

  // ---- Debouncing ----

  function CreatedBy(e: FileEvent): seq<Bytes> {
    match e.kind
    case Created => [e.path]
    case Renamed(_, target) => [target]
    case _ => []
  }

  function ModifiedBy(e: FileEvent): seq<Bytes> {
    if e.kind.Modified? then [e.path] else []
  }

  function DeletedBy(e: FileEvent): seq<Bytes> {
    match e.kind
    case Deleted => [e.path]
    case Renamed(source, _) => [source]
    case _ => []
  }

  function Creates(es: seq<FileEvent>): seq<Bytes> {
    if es == [] then [] else Creates(es[..|es| - 1]) + CreatedBy(es[|es| - 1])
  }

  function Modifies(es: seq<FileEvent>): seq<Bytes> {
    if es == [] then [] else Modifies(es[..|es| - 1]) + ModifiedBy(es[|es| - 1])
  }

  function Deletes(es: seq<FileEvent>): seq<Bytes> {
    if es == [] then [] else Deletes(es[..|es| - 1]) + DeletedBy(es[|es| - 1])
  }

  function Tasks(paths: seq<Bytes>, operation: FileOperation): (r: seq<Task>)
    ensures |r| == |paths| && forall i :: 0 <= i < |r| ==> r[i] == Task(paths[i], operation)
  {
    seq(|paths|, i requires 0 <= i < |paths| => Task(paths[i], operation))
  }

  /** The operations a window of changes runs: creations, then modifications, then deletions. */
  function Planned(es: seq<FileEvent>): seq<Task> {
    Tasks(Creates(es), Create) + Tasks(Modifies(es), Modify) + Tasks(Deletes(es), Delete)
  }

  /** The operations an event calls for, in order: a rename deletes its source and creates its target. */
  function Asked(e: FileEvent): seq<Task> {
    match e.kind
    case Created => [Task(e.path, Create)]
    case Modified => [Task(e.path, Modify)]
    case Deleted => [Task(e.path, Delete)]
    case Renamed(source, target) => [Task(source, Delete), Task(target, Create)]
  }

  function AllAsked(es: seq<FileEvent>): seq<Task> {
    if es == [] then [] else AllAsked(es[..|es| - 1]) + Asked(es[|es| - 1])
  }

  lemma TasksAppend(a: seq<Bytes>, b: seq<Bytes>, operation: FileOperation)
    ensures Tasks(a + b, operation) == Tasks(a, operation) + Tasks(b, operation)
  {
  }

  lemma RegroupTasks(a: seq<Task>, x: seq<Task>, b: seq<Task>, y: seq<Task>, c: seq<Task>, z: seq<Task>)
    ensures multiset((a + x) + (b + y) + (c + z)) == multiset(a + b + c) + multiset(x + y + z)
  {
  }

  /** Nothing is lost and nothing is made up: the operations run are those the events call for. */
  lemma {:induction false} PlannedIsAsked(es: seq<FileEvent>)
    ensures multiset(Planned(es)) == multiset(AllAsked(es))
  {
    if es != [] {
      var n := |es| - 1;
      var front := es[..n];
      PlannedIsAsked(front);
      PlannedSnoc(front, es, es[n]);
    }
  }

  lemma PlannedSnoc(front: seq<FileEvent>, es: seq<FileEvent>, e: FileEvent)
    requires es != [] && front == es[..|es| - 1] && e == es[|es| - 1]
    ensures multiset(Planned(es)) == multiset(Planned(front)) + multiset(Asked(e))
  {
    var c, m, d := CreatedBy(e), ModifiedBy(e), DeletedBy(e);
    TasksAppend(Creates(front), c, Create);
    TasksAppend(Modifies(front), m, Modify);
    TasksAppend(Deletes(front), d, Delete);
    RegroupTasks(Tasks(Creates(front), Create), Tasks(c, Create), Tasks(Modifies(front), Modify), Tasks(m, Modify),
            Tasks(Deletes(front), Delete), Tasks(d, Delete));
    OneEvent(e);
  }

  lemma OneEvent(e: FileEvent)
    ensures multiset(Tasks(CreatedBy(e), Create) + Tasks(ModifiedBy(e), Modify) + Tasks(DeletedBy(e), Delete))
      == multiset(Asked(e))
  {
    var all := Tasks(CreatedBy(e), Create) + Tasks(ModifiedBy(e), Modify) + Tasks(DeletedBy(e), Delete);
    match e.kind
    case Created => assert all == [Task(e.path, Create)];
    case Modified => assert all == [Task(e.path, Modify)];
    case Deleted => assert all == [Task(e.path, Delete)];
    case Renamed(source, target) => assert all == [Task(target, Create), Task(source, Delete)];
  }

  /** What is done last to a path. */
  function LastOn(tasks: seq<Task>, path: Bytes): Option<FileOperation> {
    if tasks == [] then None
    else if tasks[|tasks| - 1].path == path then Some(tasks[|tasks| - 1].operation)
    else LastOn(tasks[..|tasks| - 1], path)
  }

  lemma {:induction false} LastOnTasks(before: seq<Task>, paths: seq<Bytes>, operation: FileOperation, path: Bytes)
    ensures LastOn(before + Tasks(paths, operation), path)
      == if path in paths then Some(operation) else LastOn(before, path)
  {
    if paths == [] {
      assert before + Tasks(paths, operation) == before;
    } else {
      var n := |paths| - 1;
      var all := before + Tasks(paths, operation);
      assert all[..|all| - 1] == before + Tasks(paths[..n], operation);
      LastOnTasks(before, paths[..n], operation, path);
      assert path in paths <==> path in paths[..n] || path == paths[n];
    }
  }

  /** Within a window the order of changes is not kept: a path that was deleted at any point is dealt
      with last as deleted, one that was modified and not deleted as modified. */
  lemma LastOperation(es: seq<FileEvent>, path: Bytes)
    ensures LastOn(Planned(es), path) ==
      if path in Deletes(es) then Some(Delete)
      else if path in Modifies(es) then Some(Modify)
      else if path in Creates(es) then Some(Create)
      else None
  {
    LastOnTasks(Tasks(Creates(es), Create) + Tasks(Modifies(es), Modify), Deletes(es), Delete, path);
    LastOnTasks(Tasks(Creates(es), Create), Modifies(es), Modify, path);
    LastOnTasks([], Creates(es), Create, path);
    assert [] + Tasks(Creates(es), Create) == Tasks(Creates(es), Create);
  }

  /** In which group an operation runs: creations first, deletions last. */
  function Rank(operation: FileOperation): nat {
    match operation
    case Create => 0
    case Modify => 1
    case Delete => 2
  }

  /** Some change to the path asked for an operation that runs in a later group than `last`. */
  ghost predicate Overtaken(tasks: seq<Task>, path: Bytes, last: FileOperation) {
    exists i :: 0 <= i < |tasks| && tasks[i].path == path && Rank(tasks[i].operation) > Rank(last)
  }

  /** What a window runs last on a path is what its last change asked for exactly when no earlier change
      to it asked for an operation of a higher rank. A rename is a deletion, then a creation. */
  lemma LastKeptIff(es: seq<FileEvent>, path: Bytes)
    ensures LastOn(AllAsked(es), path).None? <==> LastOn(Planned(es), path).None?
    ensures LastOn(AllAsked(es), path).Some? ==>
      (LastOn(Planned(es), path) == LastOn(AllAsked(es), path) <==>
        !Overtaken(AllAsked(es), path, LastOn(AllAsked(es), path).value))
  {
    PlannedTop(es, path);
    LastIsThere(AllAsked(es), path);
    OvertakenIff(AllAsked(es), path, LastOn(AllAsked(es), path), LastOn(Planned(es), path));
  }

  /** What is planned last is what ranks highest among all that was asked for. */
  ghost predicate IsTop(tasks: seq<Task>, path: Bytes, top: Option<FileOperation>) {
    match top
    case Some(operation) =>
      Task(path, operation) in tasks && forall o :: Task(path, o) in tasks ==> Rank(o) <= Rank(operation)
    case None => forall o :: Task(path, o) !in tasks
  }

  lemma PlannedTop(es: seq<FileEvent>, path: Bytes)
    ensures IsTop(AllAsked(es), path, LastOn(Planned(es), path))
  {
    LastOperation(es, path);
    AskedGroups(es, path);
    TopOfThree(AllAsked(es), path, LastOn(Planned(es), path));
  }

  lemma TopOfThree(tasks: seq<Task>, path: Bytes, top: Option<FileOperation>)
    requires top ==
      if Task(path, Delete) in tasks then Some(Delete)
      else if Task(path, Modify) in tasks then Some(Modify)
      else if Task(path, Create) in tasks then Some(Create)
      else None
    ensures IsTop(tasks, path, top)
  {
    forall o | Task(path, o) in tasks
      ensures top.Some? && Rank(o) <= Rank(top.value)
    {
      match o
      case Create =>
      case Modify =>
      case Delete =>
    }
  }

  lemma OvertakenIff(tasks: seq<Task>, path: Bytes, last: Option<FileOperation>, top: Option<FileOperation>)
    requires IsTop(tasks, path, top) && (last.None? <==> top.None?) && (last.Some? ==> Task(path, last.value) in tasks)
    ensures last.Some? ==> (top == last <==> !Overtaken(tasks, path, last.value))
  {
    if last.Some? {
      if top != last {
        var i :| 0 <= i < |tasks| && tasks[i] == Task(path, top.value);
        assert Rank(tasks[i].operation) > Rank(last.value);
      }
      forall i | 0 <= i < |tasks| && tasks[i].path == path
        ensures Rank(tasks[i].operation) <= Rank(top.value)
      {
        assert Task(path, tasks[i].operation) in tasks;
      }
    }
  }

  lemma OneAsked(e: FileEvent, path: Bytes)
    ensures path in CreatedBy(e) <==> Task(path, Create) in Asked(e)
    ensures path in ModifiedBy(e) <==> Task(path, Modify) in Asked(e)
    ensures path in DeletedBy(e) <==> Task(path, Delete) in Asked(e)
  {
  }

  /** The groups hold what the changes asked for. */
  lemma {:induction false} AskedGroups(es: seq<FileEvent>, path: Bytes)
    ensures path in Creates(es) <==> Task(path, Create) in AllAsked(es)
    ensures path in Modifies(es) <==> Task(path, Modify) in AllAsked(es)
    ensures path in Deletes(es) <==> Task(path, Delete) in AllAsked(es)
  {
    if es != [] {
      AskedGroups(es[..|es| - 1], path);
      OneAsked(es[|es| - 1], path);
    }
  }

  lemma {:induction false} LastIsThere(tasks: seq<Task>, path: Bytes)
    ensures match LastOn(tasks, path)
      case Some(operation) => Task(path, operation) in tasks
      case None => forall operation :: Task(path, operation) !in tasks
  {
    if tasks != [] && tasks[|tasks| - 1].path != path {
      LastIsThere(tasks[..|tasks| - 1], path);
      assert tasks == tasks[..|tasks| - 1] + [tasks[|tasks| - 1]];
    }
  }

  /** So for a file deleted and created again within one window, the deletion is run last. */
  lemma RecreatedEndsDeleted(path: Bytes)
    ensures LastOn(Planned([FileEvent(path, Deleted), FileEvent(path, Created)]), path) == Some(Delete)
  {
    var es := [FileEvent(path, Deleted), FileEvent(path, Created)];
    assert es[..1] == [FileEvent(path, Deleted)];
    assert es[..1][..0] == [];
    assert path in Deletes(es[..1]);
    LastOperation(es, path);
  }

  // ---- The actor ----

  function Joined(groups: seq<seq<Bytes>>): seq<Bytes> {
    if groups == [] then [] else Joined(groups[..|groups| - 1]) + groups[|groups| - 1]
  }

  lemma JoinedSnoc(groups: seq<seq<Bytes>>, group: seq<Bytes>)
    ensures Joined(groups + [group]) == Joined(groups) + group
  {
    assert (groups + [group])[..|groups|] == groups;
  }

  lemma OneTaskMore(done: seq<Bytes>, tasks: seq<Bytes>, paths: seq<Bytes>, i: nat)
    requires i < |paths| && done + tasks == paths[..i]
    ensures done + (tasks + [paths[i]]) == paths[..i + 1]
  {
    TakeSnoc(paths, i);
  }

  /** The first `n` groups are as large as allowed. */
  ghost predicate AllFull(groups: seq<seq<Bytes>>, n: int, most: nat)
    requires n <= |groups|
  {
    forall i :: 0 <= i < n ==> |groups[i]| == most
  }

  ghost predicate AllWithin(groups: seq<seq<Bytes>>, most: nat) {
    forall i :: 0 <= i < |groups| ==> 0 < |groups[i]| <= most
  }

  lemma WaveMore(waves: seq<seq<Bytes>>, tasks: seq<Bytes>, most: nat)
    requires AllWithin(waves, most) && AllFull(waves, |waves|, most) && |tasks| == most > 0
    ensures Joined(waves + [tasks]) == Joined(waves) + tasks
    ensures AllWithin(waves + [tasks], most) && AllFull(waves + [tasks], |waves| + 1, most)
  {
    JoinedSnoc(waves, tasks);
  }

  class Orchestrator {
    const maxRetries: nat
    const debounce: nat
    const batchSize: nat
    const maxConcurrent: nat
    var debounceBuffer: seq<FileEvent>
    var pending: seq<PendingOperation>
    var lastDebounce: nat

    constructor (maxRetries: nat, debounce: nat, batchSize: nat, maxConcurrent: nat, pending: seq<PendingOperation>,
                 now: nat)
      ensures debounceBuffer == [] && this.pending == pending && lastDebounce == now
      ensures this.maxRetries == maxRetries && this.debounce == debounce
      ensures this.batchSize == batchSize && this.maxConcurrent == maxConcurrent
    {
      this.maxRetries, this.debounce := maxRetries, debounce;
      this.batchSize, this.maxConcurrent := batchSize, maxConcurrent;
      debounceBuffer, this.pending, lastDebounce := [], pending, now;
    }

    method FilesChanged(events: seq<FileEvent>)
      modifies this`debounceBuffer
      ensures debounceBuffer == old(debounceBuffer) + events
    {
      debounceBuffer := debounceBuffer + events;
    }

    method RetryFailedOperations(now: nat)
      modifies this`debounceBuffer, this`pending
      ensures pending == AllKept(old(pending), now, maxRetries)
      ensures debounceBuffer == old(debounceBuffer) + AllEmitted(old(pending), now, maxRetries)
    {
      var ops := pending;
      pending := [];
      var stillPending := [];
      ghost var buffer := debounceBuffer;
      var i := 0;
      while i < |ops|
        invariant i <= |ops| && stillPending == AllKept(ops[..i], now, maxRetries)
        invariant debounceBuffer == buffer + AllEmitted(ops[..i], now, maxRetries)
      {
        var op := ops[i];
        assert ops[..i + 1][..i] == ops[..i];
        i := i + 1;
        if op.retries >= maxRetries {
          continue;
        }
        if now < op.lastAttempt + RETRY_AFTER {
          stillPending := stillPending + [op];
          continue;
        }
        debounceBuffer := debounceBuffer + [FileEvent(op.path, op.kind)];
        op := op.(retries := op.retries + 1, lastAttempt := now);
        stillPending := stillPending + [op];
      }
      assert ops[..i] == ops;
      pending := stillPending;
    }

    /** The debounce tick: once the window is over, every change is taken and run, batch by batch. */
    method ProcessDebouncedChanges(now: nat) returns (ran: seq<Task>)
      requires batchSize > 0
      modifies this`debounceBuffer, this`lastDebounce
      ensures if old(debounceBuffer) == [] || now < old(lastDebounce) + debounce
        then ran == [] && debounceBuffer == old(debounceBuffer) && lastDebounce == old(lastDebounce)
        else ran == Planned(old(debounceBuffer)) && debounceBuffer == [] && lastDebounce == now
    {
      if debounceBuffer == [] || now < lastDebounce + debounce {
        return [];
      }
      var changes := debounceBuffer;
      debounceBuffer, lastDebounce := [], now;
      var creates, modifies', deletes := [], [], [];
      var i := 0;
      while i < |changes|
        invariant i <= |changes| && creates == Creates(changes[..i])
        invariant modifies' == Modifies(changes[..i]) && deletes == Deletes(changes[..i])
      {
        assert changes[..i + 1][..i] == changes[..i];
        match changes[i].kind {
          case Created => creates := creates + [changes[i].path];
          case Modified => modifies' := modifies' + [changes[i].path];
          case Deleted => deletes := deletes + [changes[i].path];
          case Renamed(source, target) =>
            deletes := deletes + [source];
            creates := creates + [target];
        }
        i := i + 1;
      }
      assert changes[..i] == changes;
      var created, _ := ProcessBatches(creates, Create);
      var modified, _ := ProcessBatches(modifies', Modify);
      var deleted, _ := ProcessBatches(deletes, Delete);
      ran := created + modified + deleted;
    }

    /** The paths in order, in batches as large as configured but for the last. */
    method ProcessBatches(paths: seq<Bytes>, operation: FileOperation)
      returns (ran: seq<Task>, batches: seq<seq<Bytes>>)
      requires batchSize > 0
      ensures ran == Tasks(paths, operation)
      ensures Joined(batches) == paths && AllWithin(batches, batchSize) && AllFull(batches, |batches| - 1, batchSize)
    {
      ran, batches := [], [];
      var i := 0;
      while i < |paths|
        invariant i <= |paths| && ran == Tasks(paths[..i], operation) && Joined(batches) == paths[..i]
        invariant AllWithin(batches, batchSize)
        invariant AllFull(batches, if i < |paths| then |batches| else |batches| - 1, batchSize)
      {
        var next := if i + batchSize < |paths| then i + batchSize else |paths|;
        var waves := ProcessFileBatch(paths[i..next]);
        TasksAppend(paths[..i], paths[i..next], operation);
        assert paths[..next] == paths[..i] + paths[i..next];
        JoinedSnoc(batches, paths[i..next]);
        ran := ran + Tasks(paths[i..next], operation);
        batches := batches + [paths[i..next]];
        i := next;
      }
      assert paths[..i] == paths;
    }

    /** A batch is run in waves, each awaited before the next: every path in one wave, never more at once
        than the configured number, or one when that is zero, and fewer in the last wave only. */
    method ProcessFileBatch(paths: seq<Bytes>) returns (waves: seq<seq<Bytes>>)
      ensures Joined(waves) == paths
      ensures AllWithin(waves, if maxConcurrent > 0 then maxConcurrent else 1)
      ensures AllFull(waves, |waves| - 1, if maxConcurrent > 0 then maxConcurrent else 1)
    {
      waves := [];
      var tasks := [];
      ghost var most := if maxConcurrent > 0 then maxConcurrent else 1;
      var i := 0;
      while i < |paths|
        invariant i <= |paths| && Joined(waves) + tasks == paths[..i]
        invariant AllWithin(waves, most) && AllFull(waves, |waves|, most) && |tasks| < most
      {
        OneTaskMore(Joined(waves), tasks, paths, i);
        tasks := tasks + [paths[i]];
        if |tasks| >= maxConcurrent {
          WaveMore(waves, tasks, most);
          waves := waves + [tasks];
          tasks := [];
        }
        i := i + 1;
      }
      assert paths[..i] == paths;
      if tasks != [] {
        JoinedSnoc(waves, tasks);
        waves := waves + [tasks];
      }
    }
  }
}
