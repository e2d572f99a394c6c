/** Connection attempts: the per-peer rate limit, backoff, and peer health. */
module ConnectionLimits {
  import opened Common

  /** Instants are nanoseconds of a clock that never goes back. */
  const SECOND: nat := 1_000_000_000
  const MINUTE: nat := 60_000_000_000

  type Log = seq<nat>

  /** `retain`: what is kept of a log is younger than `age`. */
  function Retained(log: Log, now: nat, age: nat): Log {
    if log == [] then []
    else
      var last := log[|log| - 1];
      Retained(log[..|log| - 1], now, age) + if now < last + age then [last] else []
  }

  /** Those younger than `age`, all of them, in order. */
  lemma {:induction false} RetainedExact(log: Log, now: nat, age: nat)
    ensures forall t :: t in Retained(log, now, age) <==> t in log && now < t + age
    ensures |Retained(log, now, age)| == |set i | 0 <= i < |log| && now < log[i] + age|
  {
    var at := set i | 0 <= i < |log| && now < log[i] + age;
    if log != [] {
      var n := |log| - 1;
      RetainedExact(log[..n], now, age);
      YoungerSnoc(log[..n], log[n], now, age);
      assert log == log[..n] + [log[n]];
    } else {
      assert at == {};
    }
  }

  lemma YoungerSnoc(log: Log, last: nat, now: nat, age: nat)
    ensures |set i | 0 <= i < |log + [last]| && now < (log + [last])[i] + age|
         == |set i | 0 <= i < |log| && now < log[i] + age| + if now < last + age then 1 else 0
  {
    var before, after := set i | 0 <= i < |log| && now < log[i] + age,
                         set i | 0 <= i < |log + [last]| && now < (log + [last])[i] + age;
    assert after == before + if now < last + age then {|log|} else {};
  }

  ghost predicate Sorted(a: Log) {
    forall i, j :: 0 <= i < j < |a| ==> a[i] <= a[j]
  }

  ghost predicate Suffix(log: Log, history: Log) {
    |log| <= |history| && forall i :: 0 <= i < |log| ==> log[i] == history[|history| - |log| + i]
  }

  lemma SuffixSnoc(r: Log, a: Log)
    requires a != [] && Suffix(r, a[..|a| - 1])
    ensures Suffix(r + [a[|a| - 1]], a)
  {
  }

  lemma {:induction false} RetainedSuffix(a: Log, now: nat, age: nat)
    requires Sorted(a)
    ensures var r := Retained(a, now, age);
      && Suffix(r, a)
      && forall i :: 0 <= i < |a| - |r| ==> a[i] + age <= now
  {
    if a != [] {
      var n := |a| - 1;
      RetainedSuffix(a[..n], now, age);
      var r := Retained(a[..n], now, age);
      if a[n] + age <= now {
        NoneRetained(a, now, age);
      } else {
        SuffixSnoc(r, a);
      }
    }
  }

  /** Retaining from a log that lacks only expired attempts is retaining from the whole history. */
  lemma {:induction false} PrunedRetains(a: Log, d: nat, now: nat, age: nat)
    requires d <= |a| && forall i :: 0 <= i < d ==> a[i] + age <= now
    ensures Retained(a[d..], now, age) == Retained(a, now, age)
  {
    if d < |a| {
      var n := |a| - 1;
      PrunedRetains(a[..n], d, now, age);
      assert a[d..][..n - d] == a[..n][d..];
    } else {
      NoneRetained(a, now, age);
    }
  }

  lemma {:induction false} NoneRetained(a: Log, now: nat, age: nat)
    requires forall i :: 0 <= i < |a| ==> a[i] + age <= now
    ensures Retained(a, now, age) == []
  {
    if a != [] {
      NoneRetained(a[..|a| - 1], now, age);
    }
  }

  /** How many attempts fall in the second that starts at `s`. */
  function InSecond(a: Log, s: nat): nat {
    if a == [] then 0 else InSecond(a[..|a| - 1], s) + if s <= a[|a| - 1] < s + SECOND then 1 else 0
  }

  lemma {:induction false} InSecondExact(a: Log, s: nat)
    ensures InSecond(a, s) == |set i | 0 <= i < |a| && s <= a[i] < s + 1_000_000_000|
  {
    var at := set i | 0 <= i < |a| && s <= a[i] < s + 1_000_000_000;
    if a != [] {
      var n := |a| - 1;
      InSecondExact(a[..n], s);
      var before := set i | 0 <= i < n && s <= a[..n][i] < s + 1_000_000_000;
      assert at == before + if s <= a[n] < s + 1_000_000_000 then {n} else {};
    } else {
      assert at == {};
    }
  }

  /** Any two accepted attempts with at least `limit` from one to the other are a second or more apart. */
  ghost predicate Spaced(a: Log, limit: nat) {
    forall i, j :: 0 <= i <= j < |a| && j - i >= limit ==> a[i] + SECOND <= a[j]
  }

  lemma {:induction false} EarlyOnesOut(a: Log, m: nat, s: nat)
    requires m <= |a| && forall i :: 0 <= i < m ==> a[i] < s
    ensures InSecond(a, s) <= |a| - m
  {
    if a != [] {
      EarlyOnesOut(a[..|a| - 1], if m < |a| then m else m - 1, s);
    }
  }

  lemma {:induction false} SpacedBounds(a: Log, limit: nat, s: nat)
    requires Sorted(a) && Spaced(a, limit)
    ensures InSecond(a, s) <= limit
  {
    if a != [] {
      var n := |a| - 1;
      SpacedBounds(a[..n], limit, s);
      if s <= a[n] < s + SECOND && n >= limit {
        assert a[n - limit] + SECOND <= a[n];
        EarlyOnesOut(a, n - limit + 1, s);
      } else if n < limit {
        EarlyOnesOut(a, 0, s);
      }
    }
  }

  /** The log of a peer is the end of its history; what was dropped has expired. */
  ghost predicate Tracks(log: Log, history: Log, clock: nat, limit: nat) {
    && Sorted(history) && Spaced(history, limit)
    && (forall i :: 0 <= i < |history| ==> history[i] <= clock)
    && Suffix(log, history) && forall i :: 0 <= i < |history| - |log| ==> history[i] + SECOND <= clock
  }

  lemma TimePasses(log: Log, history: Log, clock: nat, limit: nat, now: nat)
    requires Tracks(log, history, clock, limit) && clock <= now
    ensures Tracks(log, history, now, limit)
  {
  }

  lemma PruneTracks(log: Log, history: Log, clock: nat, limit: nat, now: nat, age: nat)
    requires Tracks(log, history, clock, limit) && clock <= now && age >= SECOND
    ensures Tracks(Retained(log, now, age), history, now, limit)
    ensures age == SECOND ==> Retained(log, now, age) == Retained(history, now, SECOND)
  {
    var d := |history| - |log|;
    RetainedSuffix(log, now, age);
    ShorterSuffix(log, history, Retained(log, now, age), now);
    assert log == history[d..];
    PrunedRetains(history, d, now, SECOND);
  }

  /** A suffix of the log is one of the history, and what it lacks has expired too. */
  lemma ShorterSuffix(log: Log, history: Log, r: Log, now: nat)
    requires Suffix(log, history) && Suffix(r, log)
    requires forall i :: 0 <= i < |history| - |log| ==> history[i] + SECOND <= now
    requires forall i :: 0 <= i < |log| - |r| ==> log[i] + SECOND <= now
    ensures Suffix(r, history) && forall i :: 0 <= i < |history| - |r| ==> history[i] + SECOND <= now
  {
    var d := |history| - |log|;
    forall i | 0 <= i < |history| - |r|
      ensures history[i] + SECOND <= now
    {
      if i >= d {
        assert history[i] == log[i - d];
      }
    }
  }

  lemma {:induction false} AcceptTracks(log: Log, history: Log, now: nat, limit: nat)
    requires Tracks(log, history, now, limit) && log == Retained(history, now, SECOND) && |log| < limit
    ensures Tracks(log + [now], history + [now], now, limit)
  {
    var a := history + [now];
    assert log + [now] == a[|a| - (|log| + 1)..];
  }

  /** One peer's log at an attempt: drop what expired, then accept if there is room. */
  method Admit(log: Log, ghost history: Log, ghost clock: nat, limit: nat, now: nat) returns (ok: bool, after: Log)
    requires Tracks(log, history, clock, limit) && clock <= now
    ensures ok <==> |Retained(history, now, SECOND)| < limit
    ensures Tracks(after, if ok then history + [now] else history, now, limit)
  {
    PruneTracks(log, history, clock, limit, now, SECOND);
    after := Retained(log, now, SECOND);
    ok := |after| < limit;
    if ok {
      AcceptTracks(after, history, now, limit);
      after := after + [now];
    }
  }

  type Logs = map<Bytes, Log>

  function LogIn(logs: Logs, peer: Bytes): Log {
    if peer in logs then logs[peer] else []
  }

  ghost predicate AllTrack(attempts: Logs, accepted: Logs, clock: nat, limit: nat) {
    forall peer :: Tracks(LogIn(attempts, peer), LogIn(accepted, peer), clock, limit)
  }

  lemma AllTrackUpdate(attempts: Logs, accepted: Logs, clock: nat, limit: nat, now: nat, peer: Bytes, log: Log,
                                           history: Log)
    requires AllTrack(attempts, accepted, clock, limit) && clock <= now && Tracks(log, history, now, limit)
    ensures AllTrack(attempts[peer := log], accepted[peer := history], now, limit)
  {
    var logs, histories := attempts[peer := log], accepted[peer := history];
    forall p
      ensures Tracks(LogIn(logs, p), LogIn(histories, p), now, limit)
    {
      if p != peer {
        TimePasses(LogIn(attempts, p), LogIn(accepted, p), clock, limit, now);
      }
    }
  }

  /** How many attempts are less than a second old. */
  ghost function Lately(a: Log, now: nat): nat {
    |set i | 0 <= i < |a| && now < a[i] + 1_000_000_000|
  }

  class RateLimiter {
    const limit: nat
    var attempts: Logs
    ghost var accepted: Logs   // every accepted attempt, nothing ever dropped
    ghost var clock: nat

    ghost function History(peer: Bytes): Log
      reads this
    {
      LogIn(accepted, peer)
    }

    ghost predicate Valid()
      reads this
    {
      AllTrack(attempts, accepted, clock, limit)
    }

    constructor (limit: nat)
      ensures Valid() && this.limit == limit && accepted == map[] && clock == 0
    {
      this.limit := limit;
      attempts, accepted, clock := map[], map[], 0;
    }

    /** An attempt is accepted exactly when fewer than the limit were accepted within the last second,
        counting the whole history and not just what is left of the log. */
    method CheckRateLimit(peer: Bytes, now: nat) returns (ok: bool)
      requires Valid() && clock <= now
      modifies this
      ensures Valid() && clock == now
      ensures ok <==> |Retained(old(History(peer)), now, SECOND)| < limit
      ensures ok <==> Lately(old(History(peer)), now) < limit
      ensures accepted == old(accepted)[peer := if ok then old(History(peer)) + [now] else old(History(peer))]
    {
      ghost var history := History(peer);
      var log;
      ok, log := Admit(LogIn(attempts, peer), history, clock, limit, now);
      AllTrackUpdate(attempts, accepted, clock, limit, now, peer, log, if ok then history + [now] else history);
      attempts := attempts[peer := log];
      accepted := accepted[peer := if ok then history + [now] else history];
      clock := now;
      RetainedExact(history, now, SECOND);
    }

    /** The clean-up tick: attempts older than a minute go, and so do empty logs. */
    method CleanUp(now: nat)
      requires Valid() && clock <= now
      modifies this`attempts, this`clock
      ensures Valid() && clock == now
    {
      attempts := Cleaned(attempts, accepted, clock, limit, now);
      clock := now;
    }

    /** However attempts and clean-ups interleave, no second holds more accepted attempts of a peer
        than the limit. */
    lemma NeverExceeded(peer: Bytes, s: nat)
      requires Valid()
      ensures InSecond(History(peer), s) <= limit
      ensures |set i | 0 <= i < |History(peer)| && s <= History(peer)[i] < s + 1_000_000_000| <= limit
    {
      InSecondExact(History(peer), s);
      assert Tracks(LogIn(attempts, peer), History(peer), clock, limit);
      SpacedBounds(History(peer), limit, s);
    }
  }

  method Cleaned(attempts: Logs, ghost accepted: Logs, ghost clock: nat, ghost limit: nat, now: nat)
    returns (kept: Logs)
    requires AllTrack(attempts, accepted, clock, limit) && clock <= now
    ensures AllTrack(kept, accepted, now, limit)
    ensures forall p :: LogIn(kept, p) == Retained(LogIn(attempts, p), now, 60_000_000_000)
    ensures forall p :: p in kept ==> kept[p] != []
  {
    kept := map[];
    var remaining := attempts.Keys;
    while remaining != {}
      invariant remaining <= attempts.Keys
      invariant forall p :: if p in remaining then p !in kept
        else LogIn(kept, p) == Retained(LogIn(attempts, p), now, MINUTE)
      invariant forall p :: p in kept ==> kept[p] != []
    {
      var p :| p in remaining;
      var log := Retained(attempts[p], now, MINUTE);
      if log != [] {
        kept := kept[p := log];
      }
      remaining := remaining - {p};
    }
    forall p
      ensures Tracks(LogIn(kept, p), LogIn(accepted, p), now, limit)
    {
      PruneTracks(LogIn(attempts, p), LogIn(accepted, p), clock, limit, now, MINUTE);
    }
  }

  // ---- Backoff and health ----

  const U32_MAX: nat := 0xFFFF_FFFF

  function Pow2(n: nat): (p: nat)
    ensures p > 0
  {
    if n == 0 then 1 else 2 * Pow2(n - 1)
  }

  /** `2u32.saturating_pow`. */
  function SaturatingPow2(n: nat): nat {
    if Pow2(n) <= U32_MAX then Pow2(n) else U32_MAX
  }

  /** The delay before the next attempt, by the number of failures in a row. */
  function Backoff(failures: nat, base: nat, cap: nat): nat {
    if failures == 0 then 0
    else
      var delay := base * SaturatingPow2(failures - 1);
      if delay <= cap then delay else cap
  }

  lemma {:induction false} Pow2Monotone(m: nat, n: nat)
    requires m <= n
    ensures Pow2(m) <= Pow2(n)
    decreases n
  {
    if m < n {
      Pow2Monotone(m, n - 1);
    }
  }

  lemma ScaleMonotone(base: nat, x: nat, y: nat)
    requires x <= y
    ensures base * x <= base * y
  {
  }

  /** No failure, no wait; one failure, the base delay; more failures never wait less, and never more
      than the cap. */
  lemma BackoffMonotone(m: nat, n: nat, base: nat, cap: nat)
    requires m <= n
    ensures Backoff(m, base, cap) <= Backoff(n, base, cap) <= cap
    ensures Backoff(0, base, cap) == 0 && Backoff(1, base, cap) == if base <= cap then base else cap
  {
    assert Pow2(0) == 1;
    if m > 0 {
      Pow2Monotone(m - 1, n - 1);
      ScaleMonotone(base, SaturatingPow2(m - 1), SaturatingPow2(n - 1));
    }
  }

  lemma Pow2Of31()
    ensures Pow2(31) == 0x8000_0000
  {
    assert Pow2(7) == 128;
    assert Pow2(15) == 32768;
    assert Pow2(23) == 0x80_0000;
  }

  lemma Doubled(base: nat, p: nat)
    ensures base * (2 * p) == 2 * (base * p)
  {
  }

  /** Until the cap or the saturation, each failure doubles the wait. */
  lemma BackoffDoubles(n: nat, base: nat, cap: nat)
    requires 0 < n <= 31 && 2 * Backoff(n, base, cap) <= cap
    ensures Backoff(n + 1, base, cap) == 2 * Backoff(n, base, cap)
  {
    Pow2Monotone(n, 31);
    Pow2Of31();
    Doubled(base, Pow2(n - 1));
  }

  /** Failures since the last success. */
  function FailuresInARow(outcomes: seq<bool>): nat {
    if outcomes == [] || outcomes[|outcomes| - 1] then 0 else 1 + FailuresInARow(outcomes[..|outcomes| - 1])
  }

  class PeerConnection {
    const threshold: nat
    var consecutiveFailures: nat
    var isHealthy: bool
    ghost var outcomes: seq<bool>

    /** A peer is healthy exactly while its failures in a row are below a positive threshold. With a
        zero threshold it is healthy until its first failure after a success or the start. */
    ghost predicate Valid()
      reads this
    {
      && consecutiveFailures == FailuresInARow(outcomes)
      && (isHealthy <==> consecutiveFailures < threshold || consecutiveFailures == 0)
    }

    constructor (threshold: nat)
      ensures Valid() && outcomes == [] && this.threshold == threshold
    {
      this.threshold := threshold;
      consecutiveFailures, isHealthy, outcomes := 0, true, [];
    }

    method RecordFailure()
      requires Valid()
      modifies this
      ensures Valid() && outcomes == old(outcomes) + [false]
    {
      consecutiveFailures := consecutiveFailures + 1;
      if consecutiveFailures >= threshold {
        isHealthy := false;
      }
      outcomes := outcomes + [false];
      assert outcomes[..|outcomes| - 1] == old(outcomes);
    }

    method HealthCheck(alive: bool)
      requires Valid()
      modifies this
      ensures Valid() && outcomes == old(outcomes) + [alive]
    {
      if alive {
        consecutiveFailures := 0;
        isHealthy := true;
        outcomes := outcomes + [true];
      } else {
        RecordFailure();
      }
    }
  }
}
