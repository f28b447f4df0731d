/** refresh_with_retry (refresh_coordinator.py): one deadline around many attempts. */
module Retry {
  import opened Basics

  type Generation = string

  // Times are nanoseconds of the monotonic clock.
  const MILLISECOND: nat := 1_000_000
  const FIRST_BACKOFF := 10 * MILLISECOND
  const LAST_BACKOFF := 100 * MILLISECOND

  datatype Error = NoError | SnapshotChangedBeforeRefresh | SnapshotChangedDuringRefresh | OtherError

  /** What one inner refresh reports. */
  datatype Inner =
    | RefreshInProgress
    | RefreshOwnedElsewhere
    | Current(generation: Option<Generation>)
    | Refreshed(generation: Option<Generation>)
    | Failed(error: Error, providerStartupTimeout: bool)
    | RefreshRaised // an interrupt, or an exception out of its finally clause

  /** What the query snapshot behind a foreign owner reports. */
  datatype Snapshot =
    | WaitTimeout
    | Bound(ok: bool, generation: Option<Generation>)
    | SnapshotRaised // any other exception, such as a recovery that is required first

  datatype Attempt = Attempt(generationBefore: Option<Generation>, inner: Inner, snapshot: Option<Snapshot>)

  datatype Result =
    | Own(inner: Inner)
    | CoalescedAfterOwner(generation: Generation)
    | SnapshotWaitTimeout
    | RetryExhausted
    | DeadlineExhausted
    | InvalidMaxAttempts // the ValueError
    | Propagated // an exception of one of the two calls

  // ---------- Specification ----------

  predicate Owned(inner: Inner) {
    inner.RefreshInProgress? || inner.RefreshOwnedElsewhere?
  }

  predicate Racing(inner: Inner) {
    inner.Failed? && (inner.error in {SnapshotChangedBeforeRefresh, SnapshotChangedDuringRefresh} || inner.providerStartupTimeout)
  }

  /** What one attempt settles; None means that it is tried again. */
  function Verdict(a: Attempt): Option<Result> {
    if Owned(a.inner) then
      match a.snapshot
      case Some(Bound(true, Some(g))) => if g != "" && a.generationBefore != Some(g) then Some(CoalescedAfterOwner(g)) else None
      case Some(WaitTimeout) => Some(SnapshotWaitTimeout)
      case Some(SnapshotRaised) => Some(Propagated)
      case _ => None
    else if a.inner.RefreshRaised? then Some(Propagated)
    else if Racing(a.inner) then None
    else Some(Own(a.inner))
  }

  /** What is tried again: a snapshot race, a provider that did not start in time, and
      a foreign owner behind whom no new generation shows. */
  lemma TriedAgain(a: Attempt)
    requires a.inner.RefreshInProgress? || a.inner.RefreshOwnedElsewhere? ==> a.snapshot.Some?
    ensures Verdict(a) == None <==>
      match a.inner
      case Failed(error, timeout) => timeout || error == SnapshotChangedBeforeRefresh || error == SnapshotChangedDuringRefresh
      case RefreshInProgress | RefreshOwnedElsewhere =>
        (match a.snapshot.value
         case Bound(ok, Some(g)) => !ok || g == "" || a.generationBefore == Some(g)
         case Bound(_, None) => true
         case WaitTimeout | SnapshotRaised => false)
      case Current(_) | Refreshed(_) | RefreshRaised => false
  {
  }

  /** What the two calls report, in the order of the calls. */
  datatype Report = OfRefresh(inner: Inner) | OfSnapshot(snapshot: Snapshot)

  /** The calls of one attempt: a snapshot follows a refresh exactly behind a foreign owner. */
  function Reports(a: Attempt): seq<Report> {
    [OfRefresh(a.inner)] + if a.snapshot.Some? then [OfSnapshot(a.snapshot.value)] else []
  }

  function AllReports(log: seq<Attempt>): seq<Report> {
    if log == [] then [] else AllReports(log[..|log| - 1]) + Reports(log[|log| - 1])
  }

  predicate Asked(a: Attempt) {
    a.snapshot.Some? <==> Owned(a.inner)
  }

  /** Between two moments the calls of `log` were made, and no others. */
  ghost predicate Logged(log: seq<Attempt>, before: seq<Report>, after: seq<Report>) {
    after == before + AllReports(log) && forall i | 0 <= i < |log| :: Asked(log[i])
  }

  lemma LoggedMore(log: seq<Attempt>, a: Attempt, before: seq<Report>)
    requires Logged(log, before, before + AllReports(log)) && Asked(a)
    ensures Logged(log + [a], before, before + AllReports(log) + Reports(a))
  {
    assert (log + [a])[..|log|] == log;
  }

  /** The backoff before retry number `i + 1`: 10, 20, 40, 80, 100, 100, ... milliseconds. */
  function Backoff(i: nat): (b: nat)
    ensures FIRST_BACKOFF <= b <= LAST_BACKOFF
  {
    if i == 0 then FIRST_BACKOFF else if 2 * Backoff(i - 1) < LAST_BACKOFF then 2 * Backoff(i - 1) else LAST_BACKOFF
  }

  /** The time that `n` complete backoffs take. */
  function TotalBackoff(n: nat): nat {
    if n == 0 then 0 else TotalBackoff(n - 1) + Backoff(n - 1)
  }

  lemma {:induction false} BackoffSchedule(i: nat)
    ensures Backoff(i) == if i < 4 then FIRST_BACKOFF * [1, 2, 4, 8][i] else LAST_BACKOFF
  {
    if i > 0 {
      BackoffSchedule(i - 1);
    }
  }

  /** Attempts that a deadline leaves room for: n retries cost at least 150 ms for
      the first four and 100 ms for each one after that. */
  lemma {:induction false} TotalBackoffClosed(n: nat)
    ensures TotalBackoff(n) == if n <= 4 then FIRST_BACKOFF * [0, 1, 3, 7, 15][n] else 15 * FIRST_BACKOFF + (n - 4) * LAST_BACKOFF
  {
    if n > 0 {
      TotalBackoffClosed(n - 1);
      BackoffSchedule(n - 1);
    }
  }

  /** The sleep that a wait beginning at time `at` asks for. */
  function Delay(backoff: nat, deadline: int, at: int): nat {
    if deadline <= at then 0 else if backoff < deadline - at then backoff else deadline - at
  }

  // ---------- The environment ----------

  /** One call: the time it was given, and the clock when it began and when it ended. */
  datatype Call = Call(timeout: int, entered: int, left: int)

  /** The clock, the coordinator and everybody else: any behaviour is possible. */
  class Environment {
    var now: int
    var status: Option<Generation>

    /** What the coordinator's calls have reported so far. */
    ghost var reports: seq<Report>
    ghost var calls: seq<Call>

    method Monotonic() returns (t: int)
      modifies this`now, this`status
      ensures t == now && now >= old(now)
    {
      var later: nat :| true;
      now := now + later;
      status := *;
      t := now;
    }

    /** time.sleep waits at least as long as it is asked to. */
    method Sleep(delay: nat)
      modifies this`now, this`status
      ensures now >= old(now) + delay
    {
      var later: nat :| true;
      now := now + delay + later;
      status := *;
    }

    method Refresh(remaining: int) returns (inner: Inner)
      modifies this
      ensures now >= old(now) && reports == old(reports) + [OfRefresh(inner)]
      ensures calls == old(calls) + [Call(remaining, old(now), now)]
    {
      var later: nat :| true;
      calls := calls + [Call(remaining, now, now + later)];
      now := now + later;
      status := *;
      inner := *;
      reports := reports + [OfRefresh(inner)];
    }

    method QuerySnapshot(remaining: int) returns (snapshot: Snapshot)
      modifies this
      ensures now >= old(now) && reports == old(reports) + [OfSnapshot(snapshot)]
      ensures calls == old(calls) + [Call(remaining, old(now), now)]
    {
      var later: nat :| true;
      calls := calls + [Call(remaining, now, now + later)];
      now := now + later;
      status := *;
      snapshot := *;
      reports := reports + [OfSnapshot(snapshot)];
    }
  }

  // ---------- The loop ----------

  /** A sleep that was asked for when the clock showed `at`. */
  datatype Nap = Nap(at: int, delay: nat)

  /** A call is given no more than what was left when the call before it ended, but
      at least one millisecond, and all that is left when it begins but for a
      fraction of one. */
  ghost predicate Allotted(calls: seq<Call>, limit: int, i: nat)
    requires 0 < i < |calls|
  {
    && calls[i].timeout >= 1
    && (calls[i].timeout > 1 ==> calls[i - 1].left + calls[i].timeout * MILLISECOND <= limit)
    && limit < calls[i].entered + (calls[i].timeout + 1) * MILLISECOND
  }

  /** The first call is given the whole time, every later one what is left of it. */
  ghost predicate Rationed(before: seq<Call>, calls: seq<Call>, timeoutMs: int, limit: int) {
    && before <= calls
    && (|calls| > |before| ==> calls[|before|].timeout == timeoutMs)
    && forall i {:trigger Allotted(calls, limit, i)} | |before| < i < |calls| :: Allotted(calls, limit, i)
  }

  ghost predicate Past(calls: seq<Call>, now: int) {
    calls == [] || calls[|calls| - 1].left <= now
  }

  lemma RationedMore(before: seq<Call>, calls: seq<Call>, call: Call, timeoutMs: int, limit: int)
    requires Rationed(before, calls, timeoutMs, limit)
    requires if calls == before then call.timeout == timeoutMs else Allotted(calls + [call], limit, |calls|)
    ensures Rationed(before, calls + [call], timeoutMs, limit)
  {
    var more := calls + [call];
    forall i | |before| < i < |more| ensures Allotted(more, limit, i) {
      assert i < |calls| ==> Allotted(calls, limit, i);
    }
  }

  method Remaining(env: Environment, deadline: int) returns (remaining: int)
    modifies env`now, env`status
    ensures env.now >= old(env.now) && remaining >= 1
    ensures remaining > 1 ==> old(env.now) + remaining * MILLISECOND <= deadline
    ensures deadline < env.now + (remaining + 1) * MILLISECOND
  {
    var t := env.Monotonic();
    remaining := if deadline - t < MILLISECOND then 1 else (deadline - t) / MILLISECOND;
  }

  /** One round: a refresh and, behind a foreign owner, a wait for its snapshot. */
  method TryOnce(env: Environment, limit: int, timeoutMs: int, first: bool, ghost before: seq<Call>)
    returns (a: Attempt, verdict: Option<Result>)
    requires Rationed(before, env.calls, timeoutMs, limit)
    requires if first then env.calls == before else env.calls != before && Past(env.calls, env.now)
    modifies env
    ensures Rationed(before, env.calls, timeoutMs, limit) && Past(env.calls, env.now) && |env.calls| > |old(env.calls)|
    ensures env.now >= old(env.now) && verdict == Verdict(a)
    ensures a.generationBefore == old(env.status) && Asked(a) && env.reports == old(env.reports) + Reports(a)
  {
    var generation := env.status;
    var remaining := timeoutMs;
    if !first {
      remaining := Remaining(env, limit);
    }
    ghost var calls := env.calls;
    var inner := env.Refresh(remaining);
    RationedMore(before, calls, env.calls[|calls|], timeoutMs, limit);
    a := Attempt(generation, inner, None);
    verdict := None;
    if Owned(inner) {
      remaining := Remaining(env, limit);
      calls := env.calls;
      var snapshot := env.QuerySnapshot(remaining);
      RationedMore(before, calls, env.calls[|calls|], timeoutMs, limit);
      a := a.(snapshot := Some(snapshot));
      match snapshot {
        case WaitTimeout =>
          verdict := Some(SnapshotWaitTimeout);
        case Bound(ok, published) =>
          if ok && published.Some? && published.value != "" && published != generation {
            verdict := Some(CoalescedAfterOwner(published.value));
          }
        case SnapshotRaised =>
          verdict := Some(Propagated);
      }
    } else if inner.RefreshRaised? {
      verdict := Some(Propagated);
    } else if !Racing(inner) {
      verdict := Some(Own(inner));
    }
  }

  /** Every sleep was asked for with the backoff of its turn, cut at the deadline. */
  ghost predicate Scheduled(naps: seq<Nap>, deadline: int) {
    forall i {:trigger OnTime(naps, deadline, i)} | 0 <= i < |naps| :: OnTime(naps, deadline, i)
  }

  ghost predicate OnTime(naps: seq<Nap>, deadline: int, i: nat)
    requires i < |naps|
  {
    && naps[i].delay == Delay(Backoff(i), deadline, naps[i].at)
    && (naps[i].delay > 0 ==> naps[i].at + naps[i].delay <= deadline)
  }

  /** wait_before_retry */
  method WaitBeforeRetry(env: Environment, backoff: nat, deadline: int) returns (nap: Nap)
    modifies env`now, env`status
    ensures nap.at >= old(env.now) && nap.delay == Delay(backoff, deadline, nap.at)
    ensures env.now >= nap.at + nap.delay
  {
    var at := env.Monotonic();
    nap := Nap(at, Delay(backoff, deadline, at));
    if nap.delay > 0 {
      env.Sleep(nap.delay);
    }
  }

  predicate MayTry(attempts: nat, maxAttempts: Option<int>) {
    maxAttempts.None? || attempts < maxAttempts.value
  }

  /** The schedule after `attempts` rounds, seen at clock reading `t`: another
      round may start only when every wait so far was a whole backoff. */
  ghost predicate Paced(started: int, limit: int, attempts: nat, maxAttempts: Option<int>, naps: seq<Nap>, t: int) {
    && |naps| <= attempts && Scheduled(naps, limit) && (maxAttempts.Some? ==> |naps| < maxAttempts.value)
    && (t < limit && MayTry(attempts, maxAttempts) ==> |naps| == attempts && started + TotalBackoff(attempts) <= t)
  }

  /** The clock after a round that settled nothing, and the wait before the next. */
  method Pause(env: Environment, started: int, limit: int, attempts: nat, maxAttempts: Option<int>, backoff: nat,
               ghost naps: seq<Nap>, ghost before: int)
    returns (t: int, backoff': nat, ghost naps': seq<Nap>)
    requires attempts > 0 && (maxAttempts.Some? ==> attempts <= maxAttempts.value)
    requires |naps| == attempts - 1 && backoff == Backoff(|naps|) && Scheduled(naps, limit)
    requires started + TotalBackoff(attempts - 1) <= before <= env.now
    modifies env`now, env`status
    ensures before <= t <= env.now && old(env.now) <= env.now && backoff' == Backoff(|naps'|)
    ensures Paced(started, limit, attempts, maxAttempts, naps', t)
    ensures maxAttempts.None? && before < limit ==> before < t || limit <= t
  {
    naps', backoff' := naps, backoff;
    t := env.Monotonic();
    if MayTry(attempts, maxAttempts) && t < limit {
      var nap := WaitBeforeRetry(env, backoff, limit);
      naps' := naps + [nap];
      assert forall i | 0 <= i < |naps| :: OnTime(naps, limit, i) ==> OnTime(naps', limit, i);
      backoff' := if 2 * backoff < LAST_BACKOFF then 2 * backoff else LAST_BACKOFF;
    }
    t := env.Monotonic();
  }

  /** The loop of refresh_with_retry, for a limit that was accepted. */
  method RetryLoop(env: Environment, timeoutMs: int, maxAttempts: Option<int>)
    returns (result: Result, attempts: nat, ghost log: seq<Attempt>, ghost naps: seq<Nap>, ghost deadline: int)
    requires maxAttempts.Some? ==> maxAttempts.value >= 1
    modifies env
    ensures Rationed(old(env.calls), env.calls, timeoutMs, deadline)
    ensures attempts == |log| && (maxAttempts.Some? ==> attempts <= maxAttempts.value)
    ensures Logged(log, old(env.reports), env.reports)
    ensures forall i | 0 <= i < |log| - 1 :: Verdict(log[i]) == None
    ensures if log != [] && Verdict(log[|log| - 1]) != None then Verdict(log[|log| - 1]) == Some(result)
            else result == if log != [] && maxAttempts == Some(attempts) then RetryExhausted else DeadlineExhausted
    ensures attempts > 1 ==> TotalBackoff(attempts - 1) < timeoutMs * MILLISECOND
    ensures |naps| <= attempts && Scheduled(naps, deadline) && (maxAttempts.Some? ==> |naps| < maxAttempts.value)
    ensures old(env.now) <= deadline - timeoutMs * MILLISECOND <= env.now
    ensures result.DeadlineExhausted? ==> env.now >= deadline
  {
    ghost var calls := env.calls;
    var started := env.Monotonic();
    var limit := started + timeoutMs * MILLISECOND;
    deadline := limit;
    attempts, log, naps := 0, [], [];
    var backoff := FIRST_BACKOFF;
    var t := env.Monotonic();
    while t < limit && MayTry(attempts, maxAttempts)
      invariant t <= env.now && attempts == |log| && (maxAttempts.Some? ==> attempts <= maxAttempts.value)
      invariant Logged(log, old(env.reports), env.reports)
      invariant forall i | 0 <= i < |log| :: Verdict(log[i]) == None
      invariant backoff == Backoff(|naps|) && Paced(started, limit, attempts, maxAttempts, naps, t)
      invariant attempts > 1 ==> started + TotalBackoff(attempts - 1) < limit
      invariant old(env.now) <= started <= env.now
      invariant Rationed(calls, env.calls, timeoutMs, limit)
      invariant if attempts == 0 then env.calls == calls else env.calls != calls && Past(env.calls, env.now)
      decreases if maxAttempts.Some? then maxAttempts.value - attempts else if t < limit then limit - t else 0
    {
      var a, verdict := TryOnce(env, limit, timeoutMs, attempts == 0, calls);
      LoggedMore(log, a, old(env.reports));
      attempts, log := attempts + 1, log + [a];
      if verdict.Some? {
        return verdict.value, attempts, log, naps, deadline;
      }
      t, backoff, naps := Pause(env, started, limit, attempts, maxAttempts, backoff, naps, t);
    }
    result := if maxAttempts.Some? && attempts >= maxAttempts.value then RetryExhausted else DeadlineExhausted;
  }

  /** Terminates for every sequence of outcomes.  `log` records the attempts made
      and `naps` the sleeps between them. */
  method RefreshWithRetry(env: Environment, timeoutMs: int, maxAttempts: Option<int>)
    returns (result: Result, attempts: nat, ghost log: seq<Attempt>, ghost naps: seq<Nap>, ghost deadline: int)
    modifies env
    ensures result.InvalidMaxAttempts? <==> maxAttempts.Some? && maxAttempts.value < 1
    ensures result.InvalidMaxAttempts? ==> attempts == 0 && log == [] && naps == [] && env.now == old(env.now)
    // The log holds what the calls reported, and nothing else.
    ensures Logged(log, old(env.reports), env.reports)
    // Only the last attempt can settle the call, and its verdict is the result.
    ensures attempts == |log| && forall i | 0 <= i < |log| - 1 :: Verdict(log[i]) == None
    ensures !result.InvalidMaxAttempts? ==>
      if log != [] && Verdict(log[|log| - 1]) != None then Verdict(log[|log| - 1]) == Some(result)
      else result == if log != [] && maxAttempts == Some(attempts) then RetryExhausted else DeadlineExhausted
    // Attempts and sleeps stay within the deadline, and calls are given what is left of it.
    ensures Rationed(old(env.calls), env.calls, timeoutMs, deadline)
    ensures maxAttempts.Some? && maxAttempts.value >= 1 ==> attempts <= maxAttempts.value
    ensures attempts > 1 ==> TotalBackoff(attempts - 1) < timeoutMs * MILLISECOND
    ensures |naps| <= attempts && Scheduled(naps, deadline)
    ensures maxAttempts.Some? && maxAttempts.value >= 1 ==> |naps| < maxAttempts.value
    ensures !result.InvalidMaxAttempts? ==> old(env.now) <= deadline - timeoutMs * MILLISECOND <= env.now
    ensures result.DeadlineExhausted? ==> env.now >= deadline
  {
    if maxAttempts.Some? && maxAttempts.value < 1 {
      result, attempts, log, naps, deadline := InvalidMaxAttempts, 0, [], [], env.now;
    } else {
      result, attempts, log, naps, deadline := RetryLoop(env, timeoutMs, maxAttempts);
    }
  }
}
