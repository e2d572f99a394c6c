/** The summary-exchange protocol: its handlers, and what holds over whole runs of a network of peers. */
module DiffProtocols {
  import opened Common
  import opened Manifests
  import opened BloomFilters

  /** The item hash, and the number of bits and hashes for an expected number of elements. */
  datatype Setup = Setup(h: ItemHash, bitsFor: nat -> nat, hashesFor: nat -> nat) {
    ghost predicate Valid() {
      forall n :: n > 0 ==> bitsFor(n) > 0
    }
  }

  datatype Summary = Summary(device: nat, root: Str, pathFilter: Filter, hashFilter: Filter, fileCount: nat)

  datatype Message =
    | RequestSummary(path: Str, id: nat)
    | SendSummary(summary: Summary, id: nat)
    | RequestDiffDetails(suspected: seq<Str>, id: nat)
    | SendDiffDetails(details: map<Str, ManifestEntry>, id: nat)
    | RequestChunks(chunks: seq<Str>, id: nat)
    | Acknowledge(id: nat, success: bool)

  datatype Stage =
    | Initializing
    | ExchangingSummaries
    | ComparingManifests
    | RequestingDetails
    | TransferringChunks
    | Completed

  datatype Progress = Progress(stage: Stage, percent: nat, filesCompared: nat, differences: nat)

  datatype Peer = Peer(device: nat, manifests: map<Str, seq<ManifestEntry>>, summaries: map<nat, Summary>,
                       progress: map<nat, Progress>)

  // ---- What each handler does ----

  function PathsOf(files: seq<ManifestEntry>): (r: seq<Bytes>)
    ensures |r| == |files| && forall i :: 0 <= i < |files| ==> r[i] == files[i].path
  {
    seq(|files|, i requires 0 <= i < |files| => files[i].path)
  }

  function HashesOf(files: seq<ManifestEntry>): (r: seq<Bytes>)
    ensures |r| == |files| && forall i :: 0 <= i < |files| ==> r[i] == files[i].contentHash
  {
    seq(|files|, i requires 0 <= i < |files| => files[i].contentHash)
  }

  ghost predicate Summarises(h: ItemHash, files: seq<ManifestEntry>, s: Summary) {
    && Represents(h, s.pathFilter, PathsOf(files)) && Represents(h, s.hashFilter, HashesOf(files))
    && s.fileCount == |files|
  }

  /** The local paths the remote filter rules out, in order. */
  ghost function Suspected(h: ItemHash, files: seq<ManifestEntry>, f: Filter): seq<Str>
    requires f.numBits > 0
  {
    if files == [] then []
    else
      var last := files[|files| - 1].path;
      Suspected(h, files[..|files| - 1], f) + if MayContain(h, f, last) then [] else [last]
  }

  ghost predicate Holds(manifests: map<Str, seq<ManifestEntry>>, e: ManifestEntry) {
    exists root :: root in manifests && e in manifests[root]
  }

  /** Details of the suspected paths that some local manifest has. */
  ghost predicate Details(manifests: map<Str, seq<ManifestEntry>>, suspected: seq<Str>, d: map<Str, ManifestEntry>) {
    && (forall p :: p in d ==> p in suspected && d[p].path == p && Holds(manifests, d[p]))
    && forall e :: Holds(manifests, e) && e.path in suspected ==> e.path in d
  }

  function Compared(pr: map<nat, Progress>, d: nat): map<nat, Progress> {
    if d in pr then pr[d := pr[d].(stage := ComparingManifests, percent := 25)] else pr
  }

  function Found(pr: map<nat, Progress>, d: nat, n: nat): map<nat, Progress> {
    if d in pr then pr[d := pr[d].(differences := n)] else pr
  }

  function Received(pr: map<nat, Progress>, n: nat): map<nat, Progress> {
    map d | d in pr ::
      if pr[d].stage != RequestingDetails then pr[d]
      else pr[d].(stage := TransferringChunks, percent := 75, filesCompared := n)
  }

  function Acknowledged(pr: map<nat, Progress>): map<nat, Progress> {
    map d | d in pr :: if pr[d].stage == Completed then pr[d] else pr[d].(stage := Completed, percent := 100)
  }

  /** A summary whose path filter has inconsistent sizes makes the source panic; it is no message here. */
  predicate Decodable(m: Message) {
    m.SendSummary? ==> WellSized(m.summary.pathFilter)
  }

  /** Handling a message: the new state of the peer, and its reply. */
  ghost predicate Responds(h: ItemHash, p: Peer, m: Message, q: Peer, r: Option<Message>)
    requires Decodable(m)
  {
    match m
    case RequestSummary(path, id) =>
      q == p &&
      if path !in p.manifests then r == Some(Acknowledge(id, false))
      else r.Some? && r.value.SendSummary? && r.value.id == id && Summarises(h, p.manifests[path], r.value.summary)
           && r.value.summary.device == p.device && r.value.summary.root == path
    case SendSummary(s, id) =>
      var pr := Compared(p.progress, s.device);
      var known := p.(summaries := p.summaries[s.device := s], progress := pr);
      if s.root !in p.manifests then q == known && r == None
      else
        var suspected := Suspected(h, p.manifests[s.root], s.pathFilter);
        && q == known.(progress := Found(pr, s.device, |suspected|))
        && r == Some(if suspected != [] then RequestDiffDetails(suspected, id) else Acknowledge(id, true))
    case RequestDiffDetails(suspected, id) =>
      q == p && r.Some? && r.value.SendDiffDetails? && r.value.id == id
        && Details(p.manifests, suspected, r.value.details)
    case SendDiffDetails(details, _) => q == p.(progress := Received(p.progress, |details|)) && r == None
    case RequestChunks(_, id) => q == p && r == Some(Acknowledge(id, true))
    case Acknowledge(_, _) => q == p.(progress := Acknowledged(p.progress)) && r == None
  }

  function Started(p: Peer, remote: nat, root: Str, files: seq<ManifestEntry>): Peer {
    p.(manifests := p.manifests[root := files], progress := p.progress[remote := Progress(Initializing, 0, 0, 0)])
  }

  // ---- The handler ----

  class DiffProtocolHandler {
    const setup: Setup
    const device: nat
    var manifests: map<Str, seq<ManifestEntry>>
    var summaries: map<nat, Summary>
    var progress: map<nat, Progress>

    ghost function Now(): Peer
      reads this
    {
      Peer(device, manifests, summaries, progress)
    }

    constructor (setup: Setup, device: nat)
      ensures Now() == Peer(device, map[], map[], map[]) && this.setup == setup
    {
      this.setup, this.device := setup, device;
      manifests, summaries, progress := map[], map[], map[];
    }

    method StartDiff(remote: nat, path: Str, files: seq<ManifestEntry>, id: nat) returns (m: Message)
      modifies this
      ensures Now() == Started(old(Now()), remote, path, files) && m == RequestSummary(path, id)
      ensures manifests == old(manifests)[path := files] && summaries == old(summaries)
      ensures progress == old(progress)[remote := Progress(Initializing, 0, 0, 0)]
    {
      manifests := manifests[path := files];
      progress := progress[remote := Progress(Initializing, 0, 0, 0)];
      return RequestSummary(path, id);
    }

    method HandleMessage(m: Message) returns (r: Option<Message>)
      requires setup.Valid() && Decodable(m)
      modifies this
      ensures Responds(setup.h, old(Now()), m, Now(), r)
    {
      match m {
        case RequestSummary(path, id) => r := HandleSummaryRequest(path, id);
        case SendSummary(s, id) => r := HandleSummaryResponse(s, id);
        case RequestDiffDetails(suspected, id) => r := HandleDetailsRequest(suspected, id);
        case SendDiffDetails(details, _) =>
          progress := Received(progress, |details|);
          r := None;
        case RequestChunks(_, id) => r := Some(Acknowledge(id, true));
        case Acknowledge(_, _) =>
          progress := Acknowledged(progress);
          r := None;
      }
    }

    method HandleSummaryRequest(path: Str, id: nat) returns (r: Option<Message>)
      requires setup.Valid()
      ensures Responds(setup.h, Now(), RequestSummary(path, id), Now(), r)
    {
      if path !in manifests {
        return Some(Acknowledge(id, false));
      }
      var s := Summarise(manifests[path], path);
      return Some(SendSummary(s, id));
    }

    method Summarise(files: seq<ManifestEntry>, root: Str) returns (s: Summary)
      requires setup.Valid()
      ensures Summarises(setup.h, files, s) && s.device == device && s.root == root
      ensures var n := if |files| > 100 then |files| else 100;
        && s.pathFilter.numBits == s.hashFilter.numBits == setup.bitsFor(n)
        && s.pathFilter.numHashes == s.hashFilter.numHashes == setup.hashesFor(n)
    {
      var n := if |files| > 100 then |files| else 100;
      var paths := new BloomFilter(setup.h, setup.bitsFor(n), setup.hashesFor(n));
      var hashes := new BloomFilter(setup.h, setup.bitsFor(n), setup.hashesFor(n));
      var i := 0;
      while i < |files|
        invariant i <= |files| && fresh(paths) && fresh(hashes) && fresh(paths.bits) && fresh(hashes.bits)
        invariant paths != hashes && paths.bits != hashes.bits && paths.Valid() && hashes.Valid()
        invariant paths.h == hashes.h == setup.h
        invariant paths.items == PathsOf(files[..i]) && hashes.items == HashesOf(files[..i])
      {
        paths.Add(files[i].path);
        hashes.Add(files[i].contentHash);
        i := i + 1;
      }
      assert files[..i] == files;
      var p := paths.ToFilter();
      var c := hashes.ToFilter();
      return Summary(device, root, p, c, |files|);
    }

    method HandleSummaryResponse(s: Summary, id: nat) returns (r: Option<Message>)
      requires Decodable(SendSummary(s, id))
      modifies this
      ensures Responds(setup.h, old(Now()), SendSummary(s, id), Now(), r)
    {
      summaries := summaries[s.device := s];
      progress := Compared(progress, s.device);
      if s.root !in manifests {
        return None;
      }
      var suspected := FindSuspected(setup.h, manifests[s.root], s.pathFilter);
      progress := Found(progress, s.device, |suspected|);
      return Some(if suspected != [] then RequestDiffDetails(suspected, id) else Acknowledge(id, true));
    }

    method HandleDetailsRequest(suspected: seq<Str>, id: nat) returns (r: Option<Message>)
      ensures Responds(setup.h, Now(), RequestDiffDetails(suspected, id), Now(), r)
    {
      var details: map<Str, ManifestEntry> := map[];
      var remaining := manifests.Keys;
      ghost var done: map<Str, seq<ManifestEntry>> := map[];
      while remaining != {}
        invariant remaining <= manifests.Keys && done.Keys == manifests.Keys - remaining
        invariant forall root :: root in done ==> done[root] == manifests[root]
        invariant Details(done, suspected, details)
      {
        var root :| root in remaining;
        details := CollectDetails(done, root, manifests[root], suspected, details);
        done := done[root := manifests[root]];
        remaining := remaining - {root};
      }
      assert done == manifests;
      return Some(SendDiffDetails(details, id));
    }
  }

  method FindSuspected(h: ItemHash, files: seq<ManifestEntry>, f: Filter) returns (suspected: seq<Str>)
    requires WellSized(f)
    ensures suspected == Suspected(h, files, f)
  {
    suspected := [];
    var i := 0;
    while i < |files|
      invariant i <= |files| && suspected == Suspected(h, files[..i], f)
    {
      var may := Contains(h, f, files[i].path);
      if !may {
        suspected := suspected + [files[i].path];
      }
      assert files[..i + 1][..i] == files[..i];
      i := i + 1;
    }
    assert files[..i] == files;
  }

  /** One manifest's entries at the suspected paths, on top of what was collected before. */
  method CollectDetails(ghost done: map<Str, seq<ManifestEntry>>, ghost root: Str, files: seq<ManifestEntry>,
                        suspected: seq<Str>,
                        before: map<Str, ManifestEntry>)
    returns (details: map<Str, ManifestEntry>)
    requires root !in done && Details(done, suspected, before)
    ensures Details(done[root := files], suspected, details)
  {
    details := before;
    DetailsStart(done, root, suspected, details);
    var i := 0;
    while i < |files|
      invariant i <= |files| && Details(done[root := files[..i]], suspected, details)
    {
      DetailsStep(done, root, files[..i], files[i], suspected, details);
      if files[i].path in suspected {
        details := details[files[i].path := files[i]];
      }
      assert files[..i + 1] == files[..i] + [files[i]];
      i := i + 1;
    }
    assert files[..i] == files;
  }

  lemma DetailsStart(done: map<Str, seq<ManifestEntry>>, root: Str, suspected: seq<Str>, d: map<Str, ManifestEntry>)
    requires root !in done && Details(done, suspected, d)
    ensures Details(done[root := []], suspected, d)
  {
    var more := done[root := []];
    forall e
      ensures Holds(more, e) <==> Holds(done, e)
    {
      if Holds(done, e) {
        var r :| r in done && e in done[r];
        assert r in more && e in more[r];
      }
    }
  }

  lemma DetailsStep(done: map<Str, seq<ManifestEntry>>, root: Str, files: seq<ManifestEntry>, e: ManifestEntry,
                                       suspected: seq<Str>, d: map<Str, ManifestEntry>)
    requires root !in done && Details(done[root := files], suspected, d)
    ensures Details(done[root := files + [e]], suspected, if e.path in suspected then d[e.path := e] else d)
  {
    var few, more := done[root := files], done[root := files + [e]];
    forall x
      ensures Holds(more, x) <==> Holds(few, x) || x == e
    {
      HoldsMore(done, root, files, e, x);
    }
  }

  lemma HoldsMore(done: map<Str, seq<ManifestEntry>>, root: Str, files: seq<ManifestEntry>, e: ManifestEntry,
                  x: ManifestEntry)
    ensures Holds(done[root := files + [e]], x) <==> Holds(done[root := files], x) || x == e
  {
    var few, more := done[root := files], done[root := files + [e]];
    if Holds(few, x) {
      var r :| r in few && x in few[r];
      assert r in more && x in more[r];
    }
    if x == e {
      assert root in more && x in more[root];
    }
    if Holds(more, x) && x != e {
      var r :| r in more && x in more[r];
      assert r in few && x in few[r];
    }
  }

  // ---- What suspicion means ----

  lemma {:induction false} SuspectedExact(h: ItemHash, files: seq<ManifestEntry>, f: Filter, p: Str)
    requires f.numBits > 0
    ensures p in Suspected(h, files, f) <==> p in PathsOf(files) && !MayContain(h, f, p)
  {
    if files != [] {
      var n := |files| - 1;
      SuspectedExact(h, files[..n], f, p);
      assert PathsOf(files) == PathsOf(files[..n]) + [files[n].path];
    }
  }

  /** Every suspected path is local, and truly absent from the manifest that was summarised. */
  lemma SuspectedAbsent(h: ItemHash, files: seq<ManifestEntry>, theirs: seq<ManifestEntry>,
                                           f: Filter, p: Str)
    requires Represents(h, f, PathsOf(theirs)) && p in Suspected(h, files, f)
    ensures p in PathsOf(files) && p !in PathsOf(theirs)
  {
    SuspectedExact(h, files, f, p);
    if p in PathsOf(theirs) {
      AddedPasses(h, f, PathsOf(theirs), p);
    }
  }

  /** A peer answers a summary with "no differences" exactly when the path filter lets every local path
      pass; otherwise it asks for the details of exactly those that do not. */
  lemma NoDifferencesIff(h: ItemHash, p: Peer, s: Summary, id: nat, q: Peer, r: Option<Message>)
    requires s.root in p.manifests && Decodable(SendSummary(s, id)) && Responds(h, p, SendSummary(s, id), q, r)
    ensures r == Some(Acknowledge(id, true)) <==>
      forall e :: e in p.manifests[s.root] ==> MayContain(h, s.pathFilter, e.path)
    ensures r.Some? && r.value.RequestDiffDetails? ==> forall x ::
      x in r.value.suspected <==> x in PathsOf(p.manifests[s.root]) && !MayContain(h, s.pathFilter, x)
  {
    var files := p.manifests[s.root];
    var suspected := Suspected(h, files, s.pathFilter);
    forall x
      ensures x in suspected <==> x in PathsOf(files) && !MayContain(h, s.pathFilter, x)
    {
      SuspectedExact(h, files, s.pathFilter, x);
    }
    PathsHave(files);
    if suspected != [] {
      assert suspected[0] in suspected;
    }
  }

  lemma PathsHave(files: seq<ManifestEntry>)
    ensures forall e :: e in files ==> e.path in PathsOf(files)
    ensures forall x :: x in PathsOf(files) ==> exists e :: e in files && e.path == x
  {
    forall e | e in files
      ensures e.path in PathsOf(files)
    {
      var i :| 0 <= i < |files| && files[i] == e;
      assert PathsOf(files)[i] == e.path;
    }
    forall x | x in PathsOf(files)
      ensures exists e :: e in files && e.path == x
    {
      var i :| 0 <= i < |files| && PathsOf(files)[i] == x;
      assert files[i] in files;
    }
  }

  /** In particular a peer with no path that the summarised manifest lacks is told there are none,
      whatever the contents: the hash filter is never asked. */
  lemma SamePathsUnsuspected(h: ItemHash, p: Peer, s: Summary, id: nat, theirs: seq<ManifestEntry>, q: Peer,
                             r: Option<Message>)
    requires s.root in p.manifests && Summarises(h, theirs, s)
    requires forall e :: e in p.manifests[s.root] ==> e.path in PathsOf(theirs)
    requires Responds(h, p, SendSummary(s, id), q, r)
    ensures r == Some(Acknowledge(id, true))
  {
    forall e | e in p.manifests[s.root]
      ensures MayContain(h, s.pathFilter, e.path)
    {
      AddedPasses(h, s.pathFilter, PathsOf(theirs), e.path);
    }
    NoDifferencesIff(h, p, s, id, q, r);
  }

  /** The other answers. A folder that is not there is refused, chunks are only acknowledged, and details
      held by any manifest are given for every suspected path. */
  lemma OtherAnswers(h: ItemHash, p: Peer, m: Message, q: Peer, r: Option<Message>)
    requires Decodable(m) && Responds(h, p, m, q, r)
    ensures m.RequestSummary? && m.path !in p.manifests ==> q == p && r == Some(Acknowledge(m.id, false))
    ensures m.RequestChunks? ==> q == p && r == Some(Acknowledge(m.id, true))
    ensures m.RequestDiffDetails? ==> q == p && r.Some? && r.value.SendDiffDetails? && forall root, e ::
      root in p.manifests && e in p.manifests[root] && e.path in m.suspected ==> e.path in r.value.details
  {
    if m.RequestDiffDetails? {
      forall root, e | root in p.manifests && e in p.manifests[root] && e.path in m.suspected
        ensures e.path in r.value.details
      {
        assert Holds(p.manifests, e);
      }
    }
  }

  /** A summary is noted under its device, and so is how many paths it made suspect. */
  lemma SummaryNoted(h: ItemHash, p: Peer, s: Summary, id: nat, q: Peer, r: Option<Message>)
    requires Decodable(SendSummary(s, id)) && Responds(h, p, SendSummary(s, id), q, r)
    ensures q.summaries == p.summaries[s.device := s] && q.manifests == p.manifests
    ensures q.progress.Keys == p.progress.Keys
    ensures forall d :: d in p.progress && d != s.device ==> q.progress[d] == p.progress[d]
    ensures s.device in p.progress ==>
      q.progress[s.device].stage == ComparingManifests && q.progress[s.device].percent == 25
    ensures s.root !in p.manifests ==> r == None
    ensures s.root in p.manifests && s.device in p.progress ==>
      q.progress[s.device].differences == if r.value.RequestDiffDetails? then |r.value.suspected| else 0
  {
  }

  /** Details move on only a diff that is requesting them, which none ever is. */
  lemma DetailsNoted(h: ItemHash, p: Peer, details: map<Str, ManifestEntry>, id: nat, q: Peer, r: Option<Message>)
    requires Responds(h, p, SendDiffDetails(details, id), q, r)
    ensures r == None && q.manifests == p.manifests && q.summaries == p.summaries && q.progress.Keys == p.progress.Keys
    ensures forall d :: d in p.progress ==>
      q.progress[d] == (if p.progress[d].stage != RequestingDetails then p.progress[d]
                        else Progress(TransferringChunks, 75, |details|, p.progress[d].differences))
    ensures AllInStep(p.progress) ==> q == p
  {
  }

  /** Any acknowledgement, a refusal too, and whoever it is from, marks every diff under way as completed. */
  lemma AnyAckCompletesAll(h: ItemHash, p: Peer, id: nat, success: bool, q: Peer, r: Option<Message>)
    requires Responds(h, p, Acknowledge(id, success), q, r)
    ensures r == None && q.progress.Keys == p.progress.Keys && q.manifests == p.manifests && q.summaries == p.summaries
    ensures forall d :: d in q.progress ==>
      q.progress[d].stage == Completed && (p.progress[d].stage != Completed ==> q.progress[d].percent == 100)
  {
  }

  // ---- A network of peers ----

  datatype Envelope = Envelope(sender: nat, receiver: nat, message: Message)

  datatype Net = Net(peers: seq<Peer>, flight: seq<Envelope>)

  /** A message arrives, in any order, and is handled; or a peer starts a diff with another. */
  datatype Event =
    | Deliver(i: nat, after: Peer, reply: Option<Message>)
    | Start(p: nat, q: nat, root: Str, files: seq<ManifestEntry>, id: nat)

  predicate Addressed(net: Net) {
    forall i :: 0 <= i < |net.flight| ==> net.flight[i].sender < |net.peers| && net.flight[i].receiver < |net.peers|
  }

  ghost predicate Legal(h: ItemHash, net: Net, e: Event)
    requires Addressed(net)
  {
    match e
    case Deliver(i, after, reply) =>
      && i < |net.flight| && Decodable(net.flight[i].message)
      && Responds(h, net.peers[net.flight[i].receiver], net.flight[i].message, after, reply)
    case Start(p, q, _, _, _) => p < |net.peers| && q < |net.peers|
  }

  function Without(es: seq<Envelope>, i: nat): seq<Envelope>
    requires i < |es|
  {
    es[..i] + es[i + 1..]
  }

  function Sent(es: seq<Envelope>, sender: nat, receiver: nat, m: Option<Message>): seq<Envelope> {
    if m.None? then es else es + [Envelope(sender, receiver, m.value)]
  }

  function Next(h: ItemHash, net: Net, e: Event): Net
    requires Addressed(net) && Legal(h, net, e)
  {
    match e
    case Deliver(i, after, reply) =>
      var to, back := net.flight[i].receiver, net.flight[i].sender;
      Net(net.peers[to := after], Sent(Without(net.flight, i), to, back, reply))
    case Start(p, q, root, files, id) =>
      Net(net.peers[p := Started(net.peers[p], q, root, files)], Sent(net.flight, p, q, Some(RequestSummary(root, id))))
  }

  /** The events happened one after another, from the first network to the last. */
  ghost predicate Run(h: ItemHash, first: Net, events: seq<Event>, last: Net) {
    if events == [] then first == last && Addressed(first)
    else
      var n := |events| - 1;
      exists net :: Run(h, first, events[..n], net) && Addressed(net) && Legal(h, net, events[n])
        && last == Next(h, net, events[n])
  }

  // ---- Every network falls silent ----

  function Rank(m: Message): nat {
    match m
    case RequestSummary(_, _) => 4
    case SendSummary(_, _) => 3
    case RequestDiffDetails(_, _) => 2
    case SendDiffDetails(_, _) => 1
    case RequestChunks(_, _) => 2
    case Acknowledge(_, _) => 1
  }

  lemma RepliesRankLower(h: ItemHash, p: Peer, m: Message, q: Peer, r: Option<Message>)
    requires Decodable(m) && Responds(h, p, m, q, r)
    ensures r.Some? ==> Rank(r.value) < Rank(m)
  {
  }

  function Potential(es: seq<Envelope>): nat {
    if es == [] then 0 else Potential(es[..|es| - 1]) + Rank(es[|es| - 1].message)
  }

  lemma {:induction false} PotentialWithout(es: seq<Envelope>, i: nat)
    requires i < |es|
    ensures Potential(es) == Potential(Without(es, i)) + Rank(es[i].message)
    decreases |es|
  {
    var n := |es| - 1;
    if i < n {
      PotentialWithout(es[..n], i);
      assert Without(es, i)[..n - 1] == Without(es[..n], i);
    } else {
      assert Without(es, i) == es[..n];
    }
  }

  lemma PotentialSent(es: seq<Envelope>, a: nat, b: nat, m: Option<Message>)
    ensures Potential(Sent(es, a, b, m)) == Potential(es) + if m.None? then 0 else Rank(m.value)
  {
    if m.Some? {
      assert Sent(es, a, b, m)[..|es|] == es;
    }
  }

  function Deliveries(events: seq<Event>): nat {
    if events == [] then 0 else Deliveries(events[..|events| - 1]) + if events[|events| - 1].Deliver? then 1 else 0
  }

  function Starts(events: seq<Event>): nat {
    if events == [] then 0 else Starts(events[..|events| - 1]) + if events[|events| - 1].Start? then 1 else 0
  }

  lemma EventLowers(h: ItemHash, net: Net, e: Event)
    requires Addressed(net) && Legal(h, net, e)
    ensures var after := Potential(Next(h, net, e).flight);
      if e.Deliver? then after + 1 <= Potential(net.flight) else after == Potential(net.flight) + 4
  {
    match e
    case Deliver(i, after, reply) =>
      var env := net.flight[i];
      RepliesRankLower(h, net.peers[env.receiver], env.message, after, reply);
      PotentialWithout(net.flight, i);
      PotentialSent(Without(net.flight, i), env.receiver, env.sender, reply);
    case Start(p, q, root, files, id) =>
      PotentialSent(net.flight, p, q, Some(RequestSummary(root, id)));
  }

  /** However messages are ordered, a run has at most four deliveries for each diff started, beyond
      what was in flight before: any finite number of diffs leaves the network silent. */
  lemma {:induction false} FallsSilent(h: ItemHash, first: Net, events: seq<Event>, last: Net)
    requires Run(h, first, events, last)
    ensures Deliveries(events) + Potential(last.flight) <= Potential(first.flight) + 4 * Starts(events)
    ensures Deliveries(events) + Starts(events) == |events|
  {
    if events != [] {
      var n := |events| - 1;
      var net :| Run(h, first, events[..n], net) && Addressed(net) && Legal(h, net, events[n])
        && last == Next(h, net, events[n]);
      FallsSilent(h, first, events[..n], net);
      EventLowers(h, net, events[n]);
    }
  }

  // ---- What holds in every run ----

  /** The percentage is a function of the stage, and three stages are never reached. */
  predicate InStep(p: Progress) {
    match p.stage
    case Initializing => p.percent == 0
    case ComparingManifests => p.percent == 25
    case Completed => p.percent == 100
    case _ => false
  }

  ghost predicate AllInStep(pr: map<nat, Progress>) {
    forall d :: d in pr ==> InStep(pr[d])
  }

  lemma HandlingStaysInStep(h: ItemHash, p: Peer, m: Message, q: Peer, r: Option<Message>)
    requires Decodable(m) && Responds(h, p, m, q, r) && AllInStep(p.progress)
    ensures AllInStep(q.progress) && q.device == p.device && q.manifests == p.manifests
  {
  }

  ghost predicate PeersInStep(net: Net) {
    forall i :: 0 <= i < |net.peers| ==> AllInStep(net.peers[i].progress)
  }

  /** In every run, of any peers, folders and manifests: each percentage is the one of its stage, and no
      stage past comparing is reached other than completion. */
  lemma {:induction false} RunInStep(h: ItemHash, first: Net, events: seq<Event>, last: Net)
    requires PeersInStep(first) && Run(h, first, events, last)
    ensures PeersInStep(last)
  {
    if events != [] {
      var n := |events| - 1;
      var net :| Run(h, first, events[..n], net) && Addressed(net) && Legal(h, net, events[n])
        && last == Next(h, net, events[n]);
      RunInStep(h, first, events[..n], net);
      match events[n]
      case Deliver(i, after, reply) =>
        var env := net.flight[i];
        HandlingStaysInStep(h, net.peers[env.receiver], env.message, after, reply);
      case Start(_, _, _, _, _) =>
    }
  }

  // ---- Suspicions are sound in every run ----

  /** Event `k` of the run delivered this message, in this network. */
  ghost predicate DeliveredAt(h: ItemHash, first: Net, events: seq<Event>, k: nat, net: Net, e: Envelope) {
    && k < |events| && Run(h, first, events[..k], net) && events[k].Deliver? && events[k].i < |net.flight|
    && net.flight[events[k].i] == e && e.receiver < |net.peers|
  }

  /** In the run, peer `b` summarised its manifest of a folder, as it was then. */
  ghost predicate Summarised(h: ItemHash, first: Net, events: seq<Event>, b: nat, root: Str,
                             theirs: seq<ManifestEntry>) {
    exists k: nat, net, e ::
      && DeliveredAt(h, first, events, k, net, e)
      && e.receiver == b && e.message.RequestSummary? && e.message.path == root
      && root in net.peers[b].manifests && net.peers[b].manifests[root] == theirs
  }

  /** In the run, peer `a` compared its manifest of a folder, as it was then, with a summary. */
  ghost predicate HasCompared(h: ItemHash, first: Net, events: seq<Event>, a: nat, root: Str,
                              mine: seq<ManifestEntry>) {
    exists k: nat, net, e ::
      && DeliveredAt(h, first, events, k, net, e)
      && e.receiver == a && e.message.SendSummary? && e.message.summary.root == root
      && root in net.peers[a].manifests && net.peers[a].manifests[root] == mine
  }

  /** Of one folder, `a` had all these paths when it compared, and `b` had none of them when it summarised. */
  ghost predicate TrulyMissing(h: ItemHash, first: Net, events: seq<Event>, a: nat, b: nat, paths: set<Str>) {
    exists root, mine, theirs ::
      && HasCompared(h, first, events, a, root, mine) && Summarised(h, first, events, b, root, theirs)
      && Apart(paths, mine, theirs)
  }

  ghost predicate Apart(paths: set<Str>, mine: seq<ManifestEntry>, theirs: seq<ManifestEntry>) {
    forall p :: p in paths ==> p in PathsOf(mine) && p !in PathsOf(theirs)
  }

  function AsSet(paths: seq<Str>): set<Str> {
    set p | p in paths
  }

  /** What a message in flight says was so when it was found out. */
  ghost predicate Grounded(h: ItemHash, first: Net, events: seq<Event>, e: Envelope) {
    match e.message
    case SendSummary(s, _) =>
      exists theirs :: Summarised(h, first, events, e.sender, s.root, theirs) && Summarises(h, theirs, s)
    case RequestDiffDetails(suspected, _) =>
      suspected != [] && TrulyMissing(h, first, events, e.sender, e.receiver, AsSet(suspected))
    case SendDiffDetails(details, _) => TrulyMissing(h, first, events, e.receiver, e.sender, details.Keys)
    case _ => true
  }

  lemma StillDelivered(h: ItemHash, first: Net, events: seq<Event>, n: nat, k: nat, net: Net, e: Envelope)
    requires n <= |events| && DeliveredAt(h, first, events[..n], k, net, e)
    ensures DeliveredAt(h, first, events, k, net, e)
  {
    assert events[..n][..k] == events[..k];
  }

  lemma StillSummarised(h: ItemHash, first: Net, events: seq<Event>, n: nat, b: nat, root: Str,
                        theirs: seq<ManifestEntry>)
    requires n <= |events| && Summarised(h, first, events[..n], b, root, theirs)
    ensures Summarised(h, first, events, b, root, theirs)
  {
    var k: nat, net, e :|
      && DeliveredAt(h, first, events[..n], k, net, e)
      && e.receiver == b && e.message.RequestSummary? && e.message.path == root
      && root in net.peers[b].manifests && net.peers[b].manifests[root] == theirs;
    StillDelivered(h, first, events, n, k, net, e);
  }

  lemma StillCompared(h: ItemHash, first: Net, events: seq<Event>, n: nat, a: nat, root: Str, mine: seq<ManifestEntry>)
    requires n <= |events| && HasCompared(h, first, events[..n], a, root, mine)
    ensures HasCompared(h, first, events, a, root, mine)
  {
    var k: nat, net, e :|
      && DeliveredAt(h, first, events[..n], k, net, e)
      && e.receiver == a && e.message.SendSummary? && e.message.summary.root == root
      && root in net.peers[a].manifests && net.peers[a].manifests[root] == mine;
    StillDelivered(h, first, events, n, k, net, e);
  }

  lemma FoundMissing(h: ItemHash, first: Net, events: seq<Event>, a: nat, b: nat, root: Str, mine: seq<ManifestEntry>,
                     theirs: seq<ManifestEntry>, paths: set<Str>)
    requires HasCompared(h, first, events, a, root, mine) && Summarised(h, first, events, b, root, theirs)
    requires Apart(paths, mine, theirs)
    ensures TrulyMissing(h, first, events, a, b, paths)
  {
  }

  lemma StillMissing(h: ItemHash, first: Net, events: seq<Event>, n: nat, a: nat, b: nat, paths: set<Str>,
                     fewer: set<Str>)
    requires n <= |events| && TrulyMissing(h, first, events[..n], a, b, paths) && fewer <= paths
    ensures TrulyMissing(h, first, events, a, b, fewer)
  {
    var root, mine, theirs :|
      && HasCompared(h, first, events[..n], a, root, mine) && Summarised(h, first, events[..n], b, root, theirs)
      && Apart(paths, mine, theirs);
    StillCompared(h, first, events, n, a, root, mine);
    StillSummarised(h, first, events, n, b, root, theirs);
    FoundMissing(h, first, events, a, b, root, mine, theirs, fewer);
  }

  lemma StillGrounded(h: ItemHash, first: Net, events: seq<Event>, n: nat, e: Envelope)
    requires n <= |events| && Grounded(h, first, events[..n], e)
    ensures Grounded(h, first, events, e)
  {
    match e.message
    case SendSummary(s, _) =>
      var theirs :| Summarised(h, first, events[..n], e.sender, s.root, theirs) && Summarises(h, theirs, s);
      StillSummarised(h, first, events, n, e.sender, s.root, theirs);
    case RequestDiffDetails(suspected, _) =>
      StillMissing(h, first, events, n, e.sender, e.receiver, AsSet(suspected), AsSet(suspected));
    case SendDiffDetails(details, _) =>
      StillMissing(h, first, events, n, e.receiver, e.sender, details.Keys, details.Keys);
    case _ =>
  }

  /** A summary answered with suspicions: they hold of the manifests as compared and as summarised. */
  lemma SuspicionGrounded(h: ItemHash, first: Net, events: seq<Event>, n: nat, net: Net, e: Envelope)
    requires n < |events| && DeliveredAt(h, first, events, n, net, e)
    requires e.message.SendSummary? && Grounded(h, first, events[..n], e)
    requires e.message.summary.root in net.peers[e.receiver].manifests
    ensures var s := e.message.summary;
      var mine := net.peers[e.receiver].manifests[s.root];
      s.pathFilter.numBits > 0
        && TrulyMissing(h, first, events, e.receiver, e.sender, AsSet(Suspected(h, mine, s.pathFilter)))
  {
    var s := e.message.summary;
    var mine := net.peers[e.receiver].manifests[s.root];
    var theirs :| Summarised(h, first, events[..n], e.sender, s.root, theirs) && Summarises(h, theirs, s);
    StillSummarised(h, first, events, n, e.sender, s.root, theirs);
    assert HasCompared(h, first, events, e.receiver, s.root, mine);
    forall p | p in AsSet(Suspected(h, mine, s.pathFilter))
      ensures p in PathsOf(mine) && p !in PathsOf(theirs)
    {
      SuspectedAbsent(h, mine, theirs, s.pathFilter, p);
    }
    assert Apart(AsSet(Suspected(h, mine, s.pathFilter)), mine, theirs);
  }

  lemma ReplyGrounded(h: ItemHash, first: Net, events: seq<Event>, n: nat, net: Net, e: Envelope, q: Peer, r: Message)
    requires n < |events| && DeliveredAt(h, first, events, n, net, e) && Grounded(h, first, events[..n], e)
    requires Decodable(e.message) && Responds(h, net.peers[e.receiver], e.message, q, Some(r))
    ensures Grounded(h, first, events, Envelope(e.receiver, e.sender, r))
  {
    match e.message
    case RequestSummary(root, _) =>
      if r.SendSummary? {
        var theirs := net.peers[e.receiver].manifests[root];
        assert Summarised(h, first, events, e.receiver, root, theirs) && Summarises(h, theirs, r.summary);
      }
    case SendSummary(_, _) => SuspicionGrounded(h, first, events, n, net, e);
    case RequestDiffDetails(suspected, _) =>
      StillMissing(h, first, events, n, e.sender, e.receiver, AsSet(suspected), r.details.Keys);
    case _ =>
  }

  ghost predicate AllGrounded(h: ItemHash, first: Net, events: seq<Event>, flight: seq<Envelope>) {
    forall i :: 0 <= i < |flight| ==> Grounded(h, first, events, flight[i])
  }

  lemma EventGrounded(h: ItemHash, first: Net, events: seq<Event>, net: Net)
    requires events != [] && Run(h, first, events[..|events| - 1], net) && Addressed(net)
    requires Legal(h, net, events[|events| - 1]) && AllGrounded(h, first, events[..|events| - 1], net.flight)
    ensures AllGrounded(h, first, events, Next(h, net, events[|events| - 1]).flight)
  {
    var n := |events| - 1;
    forall j | 0 <= j < |net.flight|
      ensures Grounded(h, first, events, net.flight[j])
    {
      StillGrounded(h, first, events, n, net.flight[j]);
    }
    match events[n]
    case Deliver(i, after, reply) =>
      var e := net.flight[i];
      if reply.Some? {
        ReplyGrounded(h, first, events, n, net, e, after, reply.value);
      }
    case Start(_, _, _, _, _) =>
  }

  /** In every run from a network with no claims in flight, of any peers and changing folders: every
      suspected path in flight was in a manifest of the peer that suspects it when it compared, and not in
      the manifest of that folder that the other peer summarised; and details are only of such paths. */
  lemma {:induction false} RunGrounded(h: ItemHash, first: Net, events: seq<Event>, last: Net)
    requires AllGrounded(h, first, [], first.flight) && Run(h, first, events, last)
    ensures AllGrounded(h, first, events, last.flight)
  {
    if events != [] {
      var n := |events| - 1;
      var net :| Run(h, first, events[..n], net) && Addressed(net) && Legal(h, net, events[n])
        && last == Next(h, net, events[n]);
      RunGrounded(h, first, events[..n], net);
      EventGrounded(h, first, events, net);
    }
  }

  /** Path by path: a suspected path was there on the one side and missing on the other. */
  lemma SuspectWasMissing(h: ItemHash, first: Net, events: seq<Event>, last: Net, i: nat, p: Str)
    returns (root: Str, mine: seq<ManifestEntry>, theirs: seq<ManifestEntry>)
    requires AllGrounded(h, first, [], first.flight) && Run(h, first, events, last)
    requires i < |last.flight| && last.flight[i].message.RequestDiffDetails? && p in last.flight[i].message.suspected
    ensures HasCompared(h, first, events, last.flight[i].sender, root, mine) && p in PathsOf(mine)
    ensures Summarised(h, first, events, last.flight[i].receiver, root, theirs) && p !in PathsOf(theirs)
  {
    RunGrounded(h, first, events, last);
    var e := last.flight[i];
    assert p in AsSet(e.message.suspected) && Grounded(h, first, events, e);
    root, mine, theirs :|
      && HasCompared(h, first, events, e.sender, root, mine) && Summarised(h, first, events, e.receiver, root, theirs)
      && Apart(AsSet(e.message.suspected), mine, theirs);
  }

  // ---- One folder: every details reply is empty ----

  /** Peers that sync one folder, each holding one unchanging manifest of it once it has started. */
  datatype World = World(root: Str, files: seq<seq<ManifestEntry>>)

  ghost predicate PeerOk(w: World, i: nat, p: Peer)
    requires i < |w.files|
  {
    && p.device == i
    && p.manifests.Keys <= {w.root} && (w.root in p.manifests ==> p.manifests[w.root] == w.files[i])
  }

  ghost predicate MessageOk(h: ItemHash, w: World, e: Envelope)
    requires e.sender < |w.files| && e.receiver < |w.files|
  {
    match e.message
    case SendSummary(s, _) => s.root == w.root && Summarises(h, w.files[e.sender], s) && s.device == e.sender
    case RequestDiffDetails(suspected, _) =>
      suspected != [] && forall p :: p in suspected ==>
        p in PathsOf(w.files[e.sender]) && p !in PathsOf(w.files[e.receiver])
    case SendDiffDetails(details, _) => details == map[]
    case _ => true
  }

  ghost predicate NetOk(h: ItemHash, w: World, net: Net) {
    && |net.peers| == |w.files| && Addressed(net)
    && (forall i :: 0 <= i < |net.peers| ==> PeerOk(w, i, net.peers[i]))
    && forall i :: 0 <= i < |net.flight| ==> MessageOk(h, w, net.flight[i])
  }

  ghost predicate OneFolder(w: World, e: Event) {
    e.Start? ==> e.root == w.root && e.p < |w.files| && e.files == w.files[e.p]
  }

  lemma ReplyOk(h: ItemHash, w: World, e: Envelope, p: Peer, q: Peer, r: Option<Message>)
    requires e.sender < |w.files| && e.receiver < |w.files| && Decodable(e.message)
    requires PeerOk(w, e.receiver, p) && MessageOk(h, w, e) && Responds(h, p, e.message, q, r)
    ensures PeerOk(w, e.receiver, q)
    ensures r.Some? ==> MessageOk(h, w, Envelope(e.receiver, e.sender, r.value))
  {
    match e.message
    case SendSummary(s, _) =>
      if w.root in p.manifests {
        var suspected := Suspected(h, w.files[e.receiver], s.pathFilter);
        forall x | x in suspected
          ensures x in PathsOf(w.files[e.receiver]) && x !in PathsOf(w.files[e.sender])
        {
          SuspectedAbsent(h, w.files[e.receiver], w.files[e.sender], s.pathFilter, x);
        }
      }
    case RequestDiffDetails(suspected, _) =>
      NoDetails(w, e.receiver, p, suspected, r.value.details);
    case _ =>
  }

  /** What is suspected of a peer is what the peer does not have, so its details are always empty. */
  lemma NoDetails(w: World, i: nat, p: Peer, suspected: seq<Str>, d: map<Str, ManifestEntry>)
    requires i < |w.files| && PeerOk(w, i, p) && Details(p.manifests, suspected, d)
    requires forall x :: x in suspected ==> x !in PathsOf(w.files[i])
    ensures d == map[]
  {
    forall e | Holds(p.manifests, e)
      ensures e.path in PathsOf(w.files[i])
    {
      var root :| root in p.manifests && e in p.manifests[root];
      var k :| 0 <= k < |w.files[i]| && w.files[i][k] == e;
      assert PathsOf(w.files[i])[k] == e.path;
    }
  }

  lemma EventKeepsOk(h: ItemHash, w: World, net: Net, e: Event)
    requires NetOk(h, w, net) && Legal(h, net, e) && OneFolder(w, e)
    ensures NetOk(h, w, Next(h, net, e))
  {
    match e
    case Deliver(i, after, reply) =>
      var env := net.flight[i];
      ReplyOk(h, w, env, net.peers[env.receiver], after, reply);
    case Start(p, q, root, files, id) =>
  }

  /** In every run of peers syncing one folder: every suspected path is the sender's and truly missing at
      the receiver, and every reply with details is empty. */
  lemma {:induction false} RunKeepsOk(h: ItemHash, w: World, first: Net, events: seq<Event>, last: Net)
    requires NetOk(h, w, first) && Run(h, first, events, last)
    requires forall i :: 0 <= i < |events| ==> OneFolder(w, events[i])
    ensures NetOk(h, w, last)
  {
    if events != [] {
      var n := |events| - 1;
      var net :| Run(h, first, events[..n], net) && Addressed(net) && Legal(h, net, events[n])
        && last == Next(h, net, events[n]);
      RunKeepsOk(h, w, first, events[..n], net);
      EventKeepsOk(h, w, net, events[n]);
    }
  }
}
