/** How bytes reach the disk, step by step: the temp-file / fsync / rename / fsync-directory protocol of
    `write_atomic`, and the scratch files of streamed and resumable writes, for any number of writers,
    with a crash at any point and recovery afterwards. */
module CrashSafety {
  import opened Common
  import opened ContentStores

  datatype Policy = Always | Batch | Async | Never

  /** Who writes: `write_atomic`, `write_stream`, or a resumable transfer. */
  datatype Writer = Atomic | Streamed | Resumed

  predicate SyncsFile(p: Policy) { p.Always? || p.Batch? }

  /** Whether a writer syncs its bytes before the rename. A resumable transfer never does. */
  predicate SyncsBytes(w: Writer, p: Policy) {
    match w
    case Atomic => SyncsFile(p)
    case Streamed => p.Always?
    case Resumed => false
  }

  /** Whether a writer syncs the directory after the rename. */
  predicate SyncsEntry(w: Writer, p: Policy) { w.Atomic? && p.Always? }

  /** The name a file is written under before the rename: beside the object, or under `.tmp/`. */
  datatype Name = Temp(digest: Digest) | Scratch(digest: Digest)

  function NameFor(w: Writer, d: Digest): Name {
    if w.Atomic? then Temp(d) else Scratch(d)
  }

  /** Where the directory entry of a file is: under its temporary name, or under the object's. */
  datatype Where = Nowhere | AtTemp | AtObject

  /** A file: its bytes as the process sees them, whether they are on the medium, where its entry is
      now, and where a crash may put it back. */
  datatype File = File(content: Bytes, synced: bool, live: Where, maybe: set<Where>)

  /** Start, create the temporary file and write a growing prefix, sync it, rename it, return. */
  datatype Phase = Start | Writing | Ready | Renamed | Returned

  datatype Job = Job(writer: Writer, data: Bytes, phase: Phase)

  /** Objects already durable, files in flight or left over by name, and the running writers. */
  datatype State = State(objects: Objects, files: map<Name, File>, jobs: map<Digest, Job>)

  function CreateTemp(left: Option<File>): File {
    // creating an existing temporary file truncates it; a new entry is not durable yet
    File([], false, AtTemp, (if left.Some? then left.value.maybe else {Nowhere}) + {AtTemp})
  }

  /** One step of a writer. */
  ghost predicate StepOf(p: Policy, j: Job, f: Option<File>, j': Job, f': Option<File>) {
    && j'.data == j.data && j'.writer == j.writer
    && match j.phase
       case Start =>
         j'.phase == Writing && f' == Some(CreateTemp(f))
       case Writing =>
         && f.Some?
         && (|| (exists n :: |f.value.content| <= n <= |j.data| &&
                   f' == Some(f.value.(content := j.data[..n])) && j'.phase == Writing)
             || (f.value.content == j.data && j'.phase == Ready &&
                   f' == Some(f.value.(synced := f.value.synced || SyncsBytes(j.writer, p)))))
       case Ready =>
         && f.Some?
         && f' == Some(f.value.(live := AtObject, maybe := f.value.maybe + {AtObject}))
         && j'.phase == Renamed
       case Renamed =>
         && f.Some?
         && f' == Some(if SyncsEntry(j.writer, p) then f.value.(maybe := {f.value.live}) else f.value)
         && j'.phase == Returned
       case Returned => false
  }

  function FileAt(s: State, n: Name): Option<File> {
    if n in s.files then Some(s.files[n]) else None
  }

  /** The name of the file that the writer of `d` works on. */
  function NameOf(s: State, d: Digest): Name
    requires d in s.jobs
  {
    NameFor(s.jobs[d].writer, d)
  }

  ghost predicate StepBy(p: Policy, s: State, s': State, d: Digest) {
    && d in s.jobs && d in s'.jobs
    && var n := NameOf(s, d);
       && StepOf(p, s.jobs[d], FileAt(s, n), s'.jobs[d], FileAt(s', n))
       && s'.objects == s.objects
       && s'.jobs == s.jobs[d := s'.jobs[d]]
       && n in s'.files && s'.files == s.files[n := s'.files[n]]
  }

  ghost predicate Next(p: Policy, s: State, s': State) {
    exists d :: StepBy(p, s, s', d)
  }

  /** Any disk left by earlier crashes, and any set of writers, one for each digest, none started. A
      write starts only when its object does not exist. Old scratch files are never looked at again,
      and new ones have new names. */
  ghost predicate Init(h: HashFn, s: State) {
    && Sound(h, s.objects)
    && (forall n :: n in s.files ==>
      n.Temp? && s.files[n].synced && s.files[n].live == AtTemp && s.files[n].maybe == {AtTemp})
    && (forall d :: d in s.jobs ==> s.jobs[d].phase == Start && d == h(s.jobs[d].data) && d !in s.objects)
  }

  ghost predicate IsRun(h: HashFn, p: Policy, run: seq<State>) {
    && run != [] && Init(h, run[0])
    && forall i :: 0 < i < |run| ==> Next(p, run[i - 1], run[i])
  }

  /** Every writer syncs its bytes before it renames. */
  ghost predicate AllSync(p: Policy, jobs: map<Digest, Job>) {
    forall d :: d in jobs ==> SyncsBytes(jobs[d].writer, p)
  }

  // ---- The crash ----

  /** What the crash reveals of each file: an entry the medium may hold, and its bytes, which are
      arbitrary when they were never synced. */
  datatype Revealed = Revealed(at: Where, content: Bytes)

  ghost predicate Reveals(s: State, r: map<Name, Revealed>) {
    && r.Keys == s.files.Keys
    && forall n :: n in r ==> r[n].at in s.files[n].maybe && (s.files[n].synced ==> r[n].content == s.files[n].content)
  }

  function Landed(r: map<Name, Revealed>, scratch: bool, at: Where): Objects {
    map n | n in r && n.Scratch? == scratch && r[n].at == at :: n.digest := r[n].content
  }

  function ObjectsAfter(s: State, r: map<Name, Revealed>): Objects {
    s.objects + Landed(r, false, AtObject) + Landed(r, true, AtObject)
  }

  /** The temporary files recovery finds: those beside the objects. */
  function TempsAfter(r: map<Name, Revealed>): Objects {
    Landed(r, false, AtTemp)
  }

  function AfterRecovery(h: HashFn, s: State, r: map<Name, Revealed>): Objects {
    Recovered(h, ObjectsAfter(s, r), TempsAfter(r))
  }

  lemma LandedAt(r: map<Name, Revealed>, scratch: bool, at: Where, d: Digest)
    ensures var n := if scratch then Scratch(d) else Temp(d);
      && (d in Landed(r, scratch, at) <==> n in r && r[n].at == at)
      && (d in Landed(r, scratch, at) ==> Landed(r, scratch, at)[d] == r[n].content)
  {
  }

  // ---- The invariant ----

  ghost predicate FileFits(p: Policy, j: Job, f: Option<File>) {
    match j.phase
    case Start => f.Some? ==> f.value.synced && f.value.live == AtTemp && f.value.maybe == {AtTemp}
    case Writing => f.Some? && f.value.live == AtTemp && AtObject !in f.value.maybe
    case Ready => f.Some? && f.value.live == AtTemp && AtObject !in f.value.maybe && Complete(j, f.value)
    case Renamed => f.Some? && f.value.live == AtObject && AtObject in f.value.maybe && Complete(j, f.value)
    case Returned =>
      && f.Some? && f.value.live == AtObject && AtObject in f.value.maybe && Complete(j, f.value)
      && (SyncsEntry(j.writer, p) ==> f.value.maybe == {AtObject})
  }

  ghost predicate Complete(j: Job, f: File) {
    f.synced && f.content == j.data
  }

  /** A file some writer works on. */
  ghost predicate Owned(s: State, n: Name) {
    n.digest in s.jobs && n == NameOf(s, n.digest)
  }

  /** The file of a writer that syncs is as far as the writer; of the others nothing is known. */
  ghost predicate JobFits(p: Policy, s: State, d: Digest)
    requires d in s.jobs
  {
    SyncsBytes(s.jobs[d].writer, p) ==> FileFits(p, s.jobs[d], FileAt(s, NameOf(s, d)))
  }

  ghost predicate Inv(h: HashFn, p: Policy, s: State) {
    && Sound(h, s.objects)
    && (forall n :: n in s.files && !Owned(s, n) ==> n.Temp? && s.files[n].synced && s.files[n].maybe == {AtTemp})
    && (forall d :: d in s.jobs ==>
          d == h(s.jobs[d].data) && d !in s.objects && JobFits(p, s, d))
  }

  lemma NextKeepsInv(h: HashFn, p: Policy, s: State, s': State)
    requires Inv(h, p, s) && Next(p, s, s')
    ensures Inv(h, p, s') && SameJobs(s, s')
  {
    var d :| StepBy(p, s, s', d);
    var n := NameOf(s, d);
    if SyncsBytes(s.jobs[d].writer, p) {
      StepKeepsFit(p, s.jobs[d], FileAt(s, n), s'.jobs[d], FileAt(s', n));
    }
    forall x | x in s'.jobs
      ensures JobFits(p, s', x)
    {
      if x != d {
        assert FileAt(s', NameOf(s, x)) == FileAt(s, NameOf(s, x));
      }
    }
    forall x | x in s'.files && !Owned(s', x)
      ensures x.Temp? && s'.files[x].synced && s'.files[x].maybe == {AtTemp}
    {
      assert !Owned(s, x);
    }
  }

  /** The objects of before, and the same writers of the same data. */
  ghost predicate SameJobs(s: State, s': State) {
    && s'.objects == s.objects && s'.jobs.Keys == s.jobs.Keys
    && forall d :: d in s.jobs ==> s'.jobs[d].data == s.jobs[d].data && s'.jobs[d].writer == s.jobs[d].writer
  }

  lemma StepKeepsFit(p: Policy, j: Job, f: Option<File>, j': Job, f': Option<File>)
    requires SyncsBytes(j.writer, p) && FileFits(p, j, f) && StepOf(p, j, f, j', f')
    ensures FileFits(p, j', f')
  {
  }

  lemma {:induction false} RunKeepsInv(h: HashFn, p: Policy, run: seq<State>)
    requires IsRun(h, p, run)
    ensures Inv(h, p, run[|run| - 1]) && SameJobs(run[0], run[|run| - 1])
    decreases |run|
  {
    if |run| > 1 {
      var before := run[..|run| - 1];
      RunKeepsInv(h, p, before);
      NextKeepsInv(h, p, before[|before| - 1], run[|run| - 1]);
    }
  }

  // ---- The theorem ----

  /** Crash safety of each writer. Take any run of any mixture of writers, crash at its end in any way, and
      recover. Then nothing that existed is touched, and every object but those of writers that do not
      sync their bytes is named by its digest. */
  lemma EachWriterSafe(h: HashFn, p: Policy, run: seq<State>, r: map<Name, Revealed>, d: Digest)
    requires IsRun(h, p, run) && Reveals(run[|run| - 1], r)
    ensures var after := AfterRecovery(h, run[|run| - 1], r);
      && (d in run[0].objects ==> d in after && after[d] == run[0].objects[d])
      && (d in after ==> d in run[0].objects || Temp(d) in run[0].files || d in run[0].jobs)
      && (d in after && (d in run[0].jobs ==> SyncsBytes(run[0].jobs[d].writer, p)) ==> h(after[d]) == d)
  {
    var s := run[|run| - 1];
    RunKeepsInv(h, p, run);
    RunFiles(p, run);
    CrashKeeps(h, p, s, r);
    AfterHas(h, s, r, d);
  }

  /** Crash safety: when every writer of the run syncs its bytes before it renames, every object is named
      by its digest, before recovery and after, and recovering again changes nothing. */
  lemma CrashSafe(h: HashFn, p: Policy, run: seq<State>, r: map<Name, Revealed>)
    requires IsRun(h, p, run) && AllSync(p, run[0].jobs) && Reveals(run[|run| - 1], r)
    ensures var s := run[|run| - 1];
      var after := AfterRecovery(h, s, r);
      && Sound(h, ObjectsAfter(s, r))
      && Sound(h, after)
      && (forall d :: d in run[0].objects ==> d in after && after[d] == run[0].objects[d])
      && Recovered(h, after, map[]) == after
      && (forall d :: d in after ==> d in run[0].objects || Temp(d) in run[0].files || d in run[0].jobs)
  {
    var s := run[|run| - 1];
    RunKeepsInv(h, p, run);
    CrashKeepsSound(h, p, s, r);
    NothingLeft(h, AfterRecovery(h, s, r));
    forall d
      ensures d in AfterRecovery(h, s, r) ==>
        h(AfterRecovery(h, s, r)[d]) == d && (d in run[0].objects || Temp(d) in run[0].files || d in run[0].jobs)
      ensures d in run[0].objects ==> d in AfterRecovery(h, s, r) && AfterRecovery(h, s, r)[d] == run[0].objects[d]
    {
      EachWriterSafe(h, p, run, r, d);
    }
  }

  lemma NothingLeft(h: HashFn, objs: Objects)
    ensures Recovered(h, objs, map[]) == objs
  {
    assert Promotable(h, objs, map[]) == {};
  }

  lemma CrashKeepsSound(h: HashFn, p: Policy, s: State, r: map<Name, Revealed>)
    requires Inv(h, p, s) && AllSync(p, s.jobs) && Reveals(s, r)
    ensures Sound(h, ObjectsAfter(s, r))
  {
    CrashKeeps(h, p, s, r);
  }

  /** What a crash leaves under objects' names: the old objects, and of a writer that syncs its whole data. */
  lemma CrashKeeps(h: HashFn, p: Policy, s: State, r: map<Name, Revealed>)
    requires Inv(h, p, s) && Reveals(s, r)
    ensures forall d :: d in s.objects ==> d in ObjectsAfter(s, r) && ObjectsAfter(s, r)[d] == s.objects[d]
    ensures forall d :: d in ObjectsAfter(s, r) && d !in s.objects ==>
      d in s.jobs && (SyncsBytes(s.jobs[d].writer, p) ==> ObjectsAfter(s, r)[d] == s.jobs[d].data)
  {
    LandedComplete(h, p, s, r, false);
    LandedComplete(h, p, s, r, true);
  }

  lemma LandedComplete(h: HashFn, p: Policy, s: State, r: map<Name, Revealed>, scratch: bool)
    requires Inv(h, p, s) && Reveals(s, r)
    ensures forall d :: d in Landed(r, scratch, AtObject) ==>
      d in s.jobs && (SyncsBytes(s.jobs[d].writer, p) ==> Landed(r, scratch, AtObject)[d] == s.jobs[d].data)
  {
    forall d | d in Landed(r, scratch, AtObject)
      ensures d in s.jobs && (SyncsBytes(s.jobs[d].writer, p) ==> Landed(r, scratch, AtObject)[d] == s.jobs[d].data)
    {
      var n := if scratch then Scratch(d) else Temp(d);
      LandedAt(r, scratch, AtObject, d);
      assert Owned(s, n);
      assert JobFits(p, s, d);
    }
  }

  /** Which digests have an object after recovery: old ones, files renamed, and temporary files promoted. */
  lemma AfterHas(h: HashFn, s: State, r: map<Name, Revealed>, d: Digest)
    ensures d in ObjectsAfter(s, r) <==>
      d in s.objects || (Temp(d) in r && r[Temp(d)].at == AtObject) || (Scratch(d) in r && r[Scratch(d)].at == AtObject)
    ensures d in AfterRecovery(h, s, r) <==>
      d in ObjectsAfter(s, r) || (Temp(d) in r && r[Temp(d)].at == AtTemp && h(r[Temp(d)].content) == d)
    ensures AfterRecovery(h, s, r).Keys >= ObjectsAfter(s, r).Keys
    ensures d in ObjectsAfter(s, r) ==> AfterRecovery(h, s, r)[d] == ObjectsAfter(s, r)[d]
    ensures d in AfterRecovery(h, s, r) && d !in ObjectsAfter(s, r) ==> AfterRecovery(h, s, r)[d] == r[Temp(d)].content
  {
    LandedAt(r, false, AtObject, d);
    LandedAt(r, true, AtObject, d);
    LandedAt(r, false, AtTemp, d);
  }

  lemma {:induction false} RunFiles(p: Policy, run: seq<State>)
    requires run != [] && forall i :: 0 < i < |run| ==> Next(p, run[i - 1], run[i])
    ensures run[|run| - 1].jobs.Keys == run[0].jobs.Keys
    ensures forall n :: n in run[|run| - 1].files ==> n in run[0].files || n.digest in run[0].jobs
    decreases |run|
  {
    if |run| > 1 {
      RunFiles(p, run[..|run| - 1]);
    }
  }

  /** Each interrupted write of a writer that syncs is all or nothing, whatever others do, as long as what the
      crash left in a temporary file of its name does not collide with its data. */
  lemma AllOrNothing(h: HashFn, p: Policy, run: seq<State>, r: map<Name, Revealed>, d: Digest)
    requires IsRun(h, p, run) && Reveals(run[|run| - 1], r) && d in run[0].jobs && SyncsBytes(run[0].jobs[d].writer, p)
    requires Temp(d) in r ==> CollisionFreeOn(h, {run[0].jobs[d].data, r[Temp(d)].content})
    ensures var after := AfterRecovery(h, run[|run| - 1], r);
      d in after ==> after[d] == run[0].jobs[d].data
  {
    var s := run[|run| - 1];
    RunKeepsInv(h, p, run);
    CrashKeeps(h, p, s, r);
    AfterHas(h, s, r, d);
  }

  /** A `write_atomic` that returned is durable under Always; under Batch it is durable exactly when the
      crash did not lose its directory entry, in whichever of its two places. */
  lemma ReturnedSurvives(h: HashFn, p: Policy, run: seq<State>, r: map<Name, Revealed>, d: Digest)
    requires IsRun(h, p, run) && SyncsFile(p) && Reveals(run[|run| - 1], r)
    requires d in run[|run| - 1].jobs && run[|run| - 1].jobs[d].phase == Returned
      && run[|run| - 1].jobs[d].writer == Atomic
    ensures var s := run[|run| - 1]; var after := AfterRecovery(h, s, r);
      && Temp(d) in r
      && (d in after <==> r[Temp(d)].at != Nowhere)
      && (d in after ==> after[d] == s.jobs[d].data)
      && (p == Always ==> d in after)
  {
    var s := run[|run| - 1];
    RunKeepsInv(h, p, run);
    CrashKeeps(h, p, s, r);
    assert JobFits(p, s, d);
    assert Scratch(d) in r ==> !Owned(s, Scratch(d));
    AfterHas(h, s, r, d);
  }

  /** A streamed write that returned under Always: its directory is never synced, so it is there exactly
      when its new entry survived, or an old temporary file of its name is promoted in its place. */
  lemma StreamSurvives(h: HashFn, run: seq<State>, r: map<Name, Revealed>, d: Digest)
    requires IsRun(h, Always, run) && Reveals(run[|run| - 1], r)
    requires d in run[|run| - 1].jobs && run[|run| - 1].jobs[d].phase == Returned
      && run[|run| - 1].jobs[d].writer == Streamed
    ensures var s := run[|run| - 1]; var after := AfterRecovery(h, s, r);
      && Scratch(d) in r
      && (d in after <==> r[Scratch(d)].at == AtObject || (Temp(d) in r && h(r[Temp(d)].content) == d))
      && (r[Scratch(d)].at == AtObject ==> after[d] == s.jobs[d].data)
  {
    var s := run[|run| - 1];
    RunKeepsInv(h, Always, run);
    CrashKeeps(h, Always, s, r);
    assert JobFits(Always, s, d);
    assert Temp(d) in r ==> !Owned(s, Temp(d));
    AfterHas(h, s, r, d);
  }

  // ---- Which writers are crash safe under which policy ----

  ghost predicate Uses(s: State, writers: set<Writer>) {
    forall d :: d in s.jobs ==> s.jobs[d].writer in writers
  }

  /** A run of writers of these kinds, and what a crash at its end reveals. */
  ghost predicate Crashed(h: HashFn, p: Policy, writers: set<Writer>, run: seq<State>, r: map<Name, Revealed>) {
    IsRun(h, p, run) && Uses(run[0], writers) && Reveals(run[|run| - 1], r)
  }

  /** However writers of these kinds are interleaved and crashed, recovery leaves a sound store. */
  ghost predicate KeepsSound(h: HashFn, p: Policy, writers: set<Writer>) {
    forall run, r :: Crashed(h, p, writers, run, r) ==> Sound(h, AfterRecovery(h, run[|run| - 1], r))
  }

  /** They do exactly when each of them syncs its bytes before it renames. */
  lemma SafeIffSynced(h: HashFn, p: Policy, writers: set<Writer>, data: Bytes, junk: Bytes)
    requires h(junk) != h(data)
    ensures KeepsSound(h, p, writers) <==> forall w :: w in writers ==> SyncsBytes(w, p)
  {
    if forall w :: w in writers ==> SyncsBytes(w, p) {
      forall run, r | Crashed(h, p, writers, run, r)
        ensures Sound(h, AfterRecovery(h, run[|run| - 1], r))
      {
        CrashSafe(h, p, run, r);
      }
    } else {
      var w :| w in writers && !SyncsBytes(w, p);
      var run, r := UnsyncedRenameCorrupts(h, p, w, data, junk);
      assert Crashed(h, p, writers, run, r);
    }
  }

  /** So atomic writes are crash safe under Always and Batch, streamed ones under Always only, and
      resumable ones under no policy. */
  lemma WhoIsSafe(h: HashFn, p: Policy, data: Bytes, junk: Bytes)
    requires h(junk) != h(data)
    ensures KeepsSound(h, p, {Atomic}) <==> p == Always || p == Batch
    ensures KeepsSound(h, p, {Streamed}) <==> p == Always
    ensures !KeepsSound(h, p, {Resumed})
  {
    SafeIffSynced(h, p, {Atomic}, data, junk);
    SafeIffSynced(h, p, {Streamed}, data, junk);
    SafeIffSynced(h, p, {Resumed}, data, junk);
    assert Resumed in {Resumed} && Streamed in {Streamed} && Atomic in {Atomic};
  }

  /** Without a sync the rename can reach the medium before the bytes do, and then a write that returned
      leaves an object whose bytes do not hash to its name. */
  lemma UnsyncedRenameCorrupts(h: HashFn, p: Policy, w: Writer, data: Bytes, junk: Bytes)
    returns (run: seq<State>, r: map<Name, Revealed>)
    requires !SyncsBytes(w, p) && h(junk) != h(data)
    ensures IsRun(h, p, run) && Uses(run[0], {w}) && Reveals(run[|run| - 1], r)
    ensures var s := run[|run| - 1];
      h(data) in s.jobs && s.jobs[h(data)].phase == Returned && !Sound(h, AfterRecovery(h, s, r))
  {
    var s;
    run, s := LoneWrite(h, p, w, data);
    r := map[NameFor(w, h(data)) := Revealed(AtObject, junk)];
    Landing(s, r, NameFor(w, h(data)));
    CorruptAfter(h, s, r, w, h(data));
  }

  lemma Landing(s: State, r: map<Name, Revealed>, n: Name)
    requires s.files.Keys == r.Keys == {n} && r[n].at in s.files[n].maybe
    requires s.files[n].synced ==> r[n].content == s.files[n].content
    ensures Reveals(s, r)
  {
  }

  /** A single writer, alone on an empty disk, up to the rename. */
  lemma LoneTemp(h: HashFn, p: Policy, w: Writer, data: Bytes) returns (run: seq<State>, f: File)
    ensures IsRun(h, p, run) && Uses(run[0], {w})
    ensures run[|run| - 1] == State(map[], map[NameFor(w, h(data)) := f], map[h(data) := Job(w, data, Ready)])
    ensures f == CreateTemp(None).(content := data, synced := SyncsBytes(w, p))
  {
    var d, s := h(data), State(map[], map[], map[]);
    var f1 := CreateTemp(None);
    assert data[..|data|] == data;
    var f2 := f1.(content := data);
    f := f2.(synced := SyncsBytes(w, p));
    run := [State(map[], map[], map[d := Job(w, data, Start)])];
    run, s := Extend(h, p, run, d, Job(w, data, Writing), f1);
    run, s := Extend(h, p, run, d, Job(w, data, Writing), f2);
    run, s := Extend(h, p, run, d, Job(w, data, Ready), f);
  }

  /** And run from start to return. */
  lemma LoneWrite(h: HashFn, p: Policy, w: Writer, data: Bytes) returns (run: seq<State>, s: State)
    ensures IsRun(h, p, run) && Uses(run[0], {w}) && s == run[|run| - 1]
    ensures s.objects == map[] && s.jobs == map[h(data) := Job(w, data, Returned)]
    ensures var n := NameFor(w, h(data));
      s.files.Keys == {n} && s.files[n].synced == SyncsBytes(w, p) && s.files[n].content == data
        && AtObject in s.files[n].maybe && (w != Atomic || p != Always ==> Nowhere in s.files[n].maybe)
  {
    var d, f := h(data), CreateTemp(None);
    run, f := LoneTemp(h, p, w, data);
    var f4 := f.(live := AtObject, maybe := f.maybe + {AtObject});
    var f5 := if SyncsEntry(w, p) then f4.(maybe := {AtObject}) else f4;
    run, s := Extend(h, p, run, d, Job(w, data, Renamed), f4);
    run, s := Extend(h, p, run, d, Job(w, data, Returned), f5);
  }

  /** A directory entry that was never synced can be lost, and then nothing of a write that returned is
      left: any atomic write but under Always, any streamed or resumable one even then. */
  lemma EntryLost(h: HashFn, p: Policy, w: Writer, data: Bytes) returns (run: seq<State>, r: map<Name, Revealed>)
    requires w != Atomic || p != Always
    ensures IsRun(h, p, run) && Uses(run[0], {w}) && Reveals(run[|run| - 1], r)
    ensures var s := run[|run| - 1];
      s.jobs == map[h(data) := Job(w, data, Returned)] && h(data) !in AfterRecovery(h, s, r)
  {
    var s;
    run, s := LoneWrite(h, p, w, data);
    r := map[NameFor(w, h(data)) := Revealed(Nowhere, data)];
    Landing(s, r, NameFor(w, h(data)));
    NothingAfter(h, s, r, w, h(data));
  }

  lemma NothingAfter(h: HashFn, s: State, r: map<Name, Revealed>, w: Writer, d: Digest)
    requires s.objects == map[] && r.Keys == {NameFor(w, d)} && r[NameFor(w, d)].at == Nowhere
    ensures d !in AfterRecovery(h, s, r)
  {
    AfterHas(h, s, r, d);
  }

  /** However writers are interleaved and crashed, what a writer of this kind wrote and returned is there. */
  ghost predicate Durable(h: HashFn, p: Policy, w: Writer) {
    forall run, r, d :: Lasting(h, p, w, run, r, d) ==>
      var s := run[|run| - 1]; d in AfterRecovery(h, s, r) && AfterRecovery(h, s, r)[d] == s.jobs[d].data
  }

  ghost predicate Lasting(h: HashFn, p: Policy, w: Writer, run: seq<State>, r: map<Name, Revealed>, d: Digest) {
    && IsRun(h, p, run) && Reveals(run[|run| - 1], r)
    && d in run[|run| - 1].jobs && run[|run| - 1].jobs[d].phase == Returned && run[|run| - 1].jobs[d].writer == w
  }

  /** Only atomic writes under Always are. */
  lemma DurableIff(h: HashFn, p: Policy, w: Writer, data: Bytes)
    ensures Durable(h, p, w) <==> w == Atomic && p == Always
  {
    if w == Atomic && p == Always {
      forall run, r, d | Lasting(h, p, w, run, r, d)
        ensures var s := run[|run| - 1]; d in AfterRecovery(h, s, r) && AfterRecovery(h, s, r)[d] == s.jobs[d].data
      {
        ReturnedSurvives(h, p, run, r, d);
      }
    } else {
      var run, r := EntryLost(h, p, w, data);
      assert Lasting(h, p, w, run, r, h(data));
    }
  }

  lemma Extend(h: HashFn, p: Policy, run: seq<State>, d: Digest, j: Job, f: File) returns (run': seq<State>, s: State)
    requires IsRun(h, p, run) && d in run[|run| - 1].jobs
    requires StepOf(p, run[|run| - 1].jobs[d], FileAt(run[|run| - 1], NameFor(j.writer, d)), j, Some(f))
    ensures IsRun(h, p, run') && s == With(run[|run| - 1], d, j, f) && run'[|run'| - 1] == s && run'[0] == run[0]
  {
    StepIsNext(p, run[|run| - 1], d, j, f);
    s := With(run[|run| - 1], d, j, f);
    run' := run + [s];
  }

  function With(s: State, d: Digest, j: Job, f: File): State {
    s.(jobs := s.jobs[d := j], files := s.files[NameFor(j.writer, d) := f])
  }

  lemma StepIsNext(p: Policy, s: State, d: Digest, j: Job, f: File)
    requires d in s.jobs && StepOf(p, s.jobs[d], FileAt(s, NameFor(j.writer, d)), j, Some(f))
    ensures Next(p, s, With(s, d, j, f))
  {
    assert FileAt(With(s, d, j, f), NameFor(j.writer, d)) == Some(f);
    assert StepBy(p, s, With(s, d, j, f), d);
  }

  lemma CorruptAfter(h: HashFn, s: State, r: map<Name, Revealed>, w: Writer, d: Digest)
    requires s.objects == map[] && r.Keys == {NameFor(w, d)} && r[NameFor(w, d)].at == AtObject
    requires h(r[NameFor(w, d)].content) != d
    ensures !Sound(h, AfterRecovery(h, s, r))
  {
    LandedAt(r, false, AtObject, d);
    LandedAt(r, true, AtObject, d);
    assert d in ObjectsAfter(s, r) && ObjectsAfter(s, r)[d] == r[NameFor(w, d)].content;
    assert AfterRecovery(h, s, r)[d] == r[NameFor(w, d)].content;
  }

  // ---- Reopening the store ----

  /** Restart after a crash: opening the store recovers it, and a full verification then finds it
      healthy exactly when no empty object is stored. */
  method Restart(h: HashFn, p: Policy, ghost run: seq<State>, ghost r: map<Name, Revealed>,
                 objects: Objects, temps: Objects, maxChunks: nat, maxSize: nat)
    returns (s: ContentStore, report: Option<Report>)
    requires maxChunks > 0 && IsRun(h, p, run) && AllSync(p, run[0].jobs) && Reveals(run[|run| - 1], r)
    requires objects == ObjectsAfter(run[|run| - 1], r) && temps == TempsAfter(r)
    ensures s.Valid() && s.h == h && s.temps == map[]
    ensures s.objects == AfterRecovery(h, run[|run| - 1], r) && Sound(h, s.objects)
    ensures report.Some? ==> (report.value.IsHealthy() <==> forall d :: d in s.objects ==> s.objects[d] != [])
    ensures |s.objects| <= maxChunks && (forall d :: d in s.objects ==> |s.objects[d]| <= maxSize) ==> report.Some?
  {
    CrashSafe(h, p, run, r);
    s := new ContentStore(h, objects, temps, maxChunks, maxSize);
    report := VerifySound(s);
  }

  /** Verifying a store just opened, whose objects are named by their digests. */
  method VerifySound(s: ContentStore) returns (report: Option<Report>)
    requires s.Valid() && Sound(s.h, s.objects) && s.temps == map[] && s.cache.entries == [] && s.cache.OverCount() == 0
    modifies s.cache
    ensures s.Valid()
    ensures report.Some? ==> (report.value.IsHealthy() <==> forall d :: d in s.objects ==> s.objects[d] != [])
    ensures |s.objects| <= s.cache.maxChunks && (forall d :: d in s.objects ==> |s.objects[d]| <= s.cache.maxSize) ==>
      report.Some?
  {
    assert s.Roomy(s.objects)
      <==> |s.objects| <= s.cache.maxChunks && forall d :: d in s.objects ==> |s.objects[d]| <= s.cache.maxSize;
    report := s.VerifyIntegrity();
  }

  /** An empty object is accepted by a write, and makes the verification after it unhealthy. */
  method EmptyObjectUnhealthy(h: HashFn) returns (written: Outcome, report: Option<Report>)
    ensures written == Ok(ObjectRef(h([]), 0)) && report.Some? && !report.value.IsHealthy()
  {
    var s := new ContentStore(h, map[], map[], 1, 1);
    assert Recovered(h, map[], map[]) == map[];
    written := s.Write([]);
    assert s.objects == map[h([]) := []] && s.objects[h([])] == [];
    assert s.temps == map[];
    report := VerifySound(s);
  }
}
