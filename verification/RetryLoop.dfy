/**
 Running one check with retries, against a clock that only ever moves forward.

 A check attempt takes an arbitrary time and yields an arbitrary list of results; the rate limiter answers
 arbitrarily; a sleep may overrun, and may be cut short when the context ends.
 */
module RetryLoop {
  import opened Common
  import opened RetryPolicies
  import opened Sequences

  datatype RetryData = RetryData(attempts: nat, elapsed: int, policy: RetryPolicy)

  datatype CheckResult = CheckResult(
    name: string, pass: bool, invalid: bool, error: string, message: string, rateLimited: bool,
    retries: Option<RetryData>)

  type Results = seq<CheckResult>

  /** How a checker is driven; `single` tells whether it can run a single check at all. */
  datatype Checker = Checker(single: bool, retriesInternally: bool)

  class Clock {
    var now: int

    constructor ()
    {
      now := 0;
    }

    /** Reads the time, an arbitrary while after the last reading. */
    method Read() returns (t: int)
      modifies this
      ensures old(now) <= now == t
    {
      var passed :| passed >= 0;
      now := now + passed;
      t := now;
    }

    /** Sleeps for at least `delay`, unless the context ends first. A delay that is not positive does nothing. */
    method Sleep(delay: int) returns (cancelled: bool)
      modifies this
      ensures now >= old(now)
      ensures delay <= 0 ==> !cancelled && now == old(now)
      ensures !cancelled ==> now >= old(now) + delay
    {
      if delay <= 0 {
        return false;
      }
      var passed :| passed >= 0;
      cancelled := *;
      now := now + passed + if cancelled then 0 else delay;
    }
  }

  /** The limiter's token bucket is not modelled: any sequence of answers is possible. */
  method Allow() returns (allowed: bool)
  {
    allowed := *;
  }

  // ---------------------------------------------------------------- one attempt

  /** What is kept of a result: all of it, but a rate-limited one has failed, is not invalid and has an error. */
  predicate KeptAs(r: CheckResult, kept: CheckResult) {
    if r.rateLimited then
      && kept.name == r.name && kept.message == r.message && kept.rateLimited && kept.retries == r.retries
      && !kept.pass && !kept.invalid
      && kept.error == if r.error != "" then r.error else "secret lookup repeatedly rate limited"
    else kept == r
  }

  /** A rate-limited result that is recorded rather than skipped becomes an ordinary failure. */
  function Recorded(r: CheckResult): (kept: CheckResult)
    ensures KeptAs(r, kept)
  {
    if !r.rateLimited then r
    else
      var error := if r.error == "" then "secret lookup repeatedly rate limited" else r.error;
      r.(invalid := false, pass := false, error := error)
  }

  /**
   `out` is what remains of `produced` at the ascending positions `kept`; only rate-limited results may be missing.
   */
  ghost predicate KeptInOrder(produced: Results, kept: seq<nat>, out: Results) {
    && |out| == |kept| <= |produced|
    && (forall i, j :: 0 <= i < j < |kept| ==> kept[i] < kept[j])
    && (forall i :: 0 <= i < |kept| ==> kept[i] < |produced| && KeptAs(produced[kept[i]], out[i]))
    && (forall p :: 0 <= p < |produced| && !produced[p].rateLimited ==> p in kept)
  }

  /** A rate-limited result may be left out; any result may be kept. */
  lemma OneMoreResult(produced: Results, i: nat, kept: seq<nat>, out: Results)
    requires i < |produced| && KeptInOrder(produced[..i], kept, out)
    ensures produced[i].rateLimited ==> KeptInOrder(produced[..i + 1], kept, out)
    ensures KeptInOrder(produced[..i + 1], kept + [i], out + [Recorded(produced[i])])
  {
    var longer := kept + [i];
    assert forall p :: p in kept ==> p in longer;
    assert longer[|kept|] == i;
  }

  method FilterRateLimited(produced: Results) returns (skipped: nat, out: Results, ghost kept: seq<nat>)
    ensures skipped + |out| == |produced|
    ensures KeptInOrder(produced, kept, out)
  {
    skipped, out, kept := 0, [], [];
    for i := 0 to |produced|
      invariant skipped + |out| == i
      invariant forall k :: k in kept ==> k < i
      invariant KeptInOrder(produced[..i], kept, out)
    {
      var result := produced[i];
      var allowed := false;
      if result.rateLimited {
        allowed := Allow();
      }
      OneMoreResult(produced, i, kept, out);
      if allowed {
        skipped := skipped + 1;
      } else {
        out := out + [Recorded(result)];
        kept := kept + [i];
      }
    }
    assert produced[..|produced|] == produced;
  }

  /** Something failed before anything was invalid. */
  ghost predicate Retryable(results: Results) {
    exists i :: 0 <= i < |results| && !results[i].pass && forall j :: 0 <= j <= i ==> !results[j].invalid
  }

  method ShouldRetryResults(results: Results) returns (retry: bool)
    ensures retry <==> Retryable(results)
  {
    for i := 0 to |results|
      invariant forall j :: 0 <= j < i ==> !results[j].invalid && results[j].pass
    {
      if results[i].invalid {
        return false;
      }
      if !results[i].pass {
        assert !results[i].pass && forall j :: 0 <= j <= i ==> !results[j].invalid;
        return true;
      }
    }
    retry := false;
  }

  function InvalidResult(error: string): CheckResult {
    CheckResult("", false, true, error, "", false, None)
  }

  /** One attempt, the `n`-th of this run of the check: what the check produces, less what is skipped. */
  method RunCheckAttempt(clock: Clock, checker: Checker, produce: nat -> Results, n: nat)
    returns (results: Results, skipped: nat)
    modifies clock
    ensures clock.now >= old(clock.now)
    ensures AttemptYields(checker, produce(n), results, skipped)
  {
    if !checker.single {
      return [InvalidResult("checker does not implement SingleCheckRunner")], 0;
    }
    var _ := clock.Read();
    ghost var kept;
    skipped, results, kept := FilterRateLimited(produce(n));
  }

  ghost predicate AttemptYields(checker: Checker, produced: Results, results: Results, skipped: nat) {
    if !checker.single then |results| == 1 && results[0].invalid && !results[0].pass && skipped == 0
    else
      && skipped + |results| == |produced|
      && exists kept :: KeptInOrder(produced, kept, results)
  }

  // ---------------------------------------------------------------- attempts and pauses in time

  /**
   One attempt in time: its start, the reading that decides whether another may follow, the reading that the pause is
   computed from, the pause, and its end. The last three are meaningful when another attempt followed.
   */
  datatype Timing = Timing(started: int, decidedAt: int, intervalAt: int, pause: int, wokeAt: int)

  /** After attempt `k` there was budget left, and the pause that the policy asks for ended no later than `next`. */
  ghost predicate Continued(t: Timing, k: nat, policy: RetryPolicy, start: int, next: int) {
    && policy.CanRetry(k + 1, t.decidedAt - start)
    && t.pause == policy.NextInterval(t.intervalAt - start)
    && t.decidedAt <= t.intervalAt <= t.wokeAt <= next && t.intervalAt + t.pause <= t.wokeAt
  }

  ghost predicate Begun(t: Timing, start: int) {
    start <= t.started <= t.decidedAt
  }

  /** Attempts as a policy allows them: all but the last were continued, each before the next one started. */
  ghost predicate Spaced(times: seq<Timing>, policy: RetryPolicy, start: int) {
    && (forall k {:trigger Begun(times[k], start)} :: 0 <= k < |times| ==> Begun(times[k], start))
    && (forall k {:trigger ContinuedAt(times, k, policy, start)} :: 0 <= k < |times| - 1 ==>
         ContinuedAt(times, k, policy, start))
  }

  ghost predicate ContinuedAt(times: seq<Timing>, k: nat, policy: RetryPolicy, start: int)
    requires k < |times| - 1
  {
    Continued(times[k], k, policy, start, times[k + 1].started)
  }

  /** The last attempt was continued too, by the time `now`. */
  ghost predicate AllContinued(times: seq<Timing>, policy: RetryPolicy, start: int, now: int) {
    && Spaced(times, policy, start)
    && (times != [] ==> Continued(times[|times| - 1], |times| - 1, policy, start, now))
  }

  lemma SpacedStep(times: seq<Timing>, t: Timing, policy: RetryPolicy, start: int)
    requires AllContinued(times, policy, start, t.started) && Begun(t, start)
    ensures Spaced(times + [t], policy, start)
  {
    var longer := times + [t];
    forall k | 0 <= k < |longer|
      ensures Begun(longer[k], start)
    {
      assert k < |times| ==> Begun(times[k], start);
    }
    forall k | 0 <= k < |longer| - 1
      ensures ContinuedAt(longer, k, policy, start)
    {
      assert k < |times| - 1 ==> ContinuedAt(times, k, policy, start);
    }
  }

  lemma SpacedPrefix(times: seq<Timing>, n: nat, policy: RetryPolicy, start: int)
    requires n <= |times| && Spaced(times, policy, start)
    ensures Spaced(times[..n], policy, start)
  {
    var front := times[..n];
    forall k | 0 <= k < n
      ensures Begun(front[k], start)
    {
      assert Begun(times[k], start);
    }
    forall k | 0 <= k < n - 1
      ensures ContinuedAt(front, k, policy, start)
    {
      assert ContinuedAt(times, k, policy, start);
    }
  }

  /** Before the deadline, every pause has been a whole interval. */
  ghost predicate IntervalsElapsed(policy: RetryPolicy, retries: nat, elapsed: int) {
    policy.timeout > 0 ==> retries * policy.interval <= elapsed || elapsed >= policy.timeout
  }

  lemma NextPauseElapses(policy: RetryPolicy, retries: nat, elapsed: int, woken: int)
    requires policy.Sound() && policy.timeout > 0 && policy.RetryEnabled()
    requires IntervalsElapsed(policy, retries, elapsed)
    requires woken >= elapsed + policy.NextInterval(elapsed) && woken >= elapsed
    ensures IntervalsElapsed(policy, retries + 1, woken)
  {
    assert (retries + 1) * policy.interval == retries * policy.interval + policy.interval;
  }

  lemma {:induction false} ElapsedAt(times: seq<Timing>, policy: RetryPolicy, start: int, k: nat)
    requires policy.Sound() && Spaced(times, policy, start) && k < |times|
    ensures IntervalsElapsed(policy, k, times[k].started - start)
  {
    assert Begun(times[k], start);
    if k > 0 {
      ElapsedAt(times, policy, start, k - 1);
      var t := times[k - 1];
      assert ContinuedAt(times, k - 1, policy, start) && Begun(t, start);
      if policy.timeout > 0 {
        NextPauseElapses(policy, k - 1, t.intervalAt - start, times[k].started - start);
      }
    }
  }

  lemma BudgetHolds(policy: RetryPolicy, attempts: nat, elapsed: int)
    requires policy.Sound() && attempts >= 1
    requires policy.CanRetry(attempts, elapsed) && IntervalsElapsed(policy, attempts - 1, elapsed)
    ensures attempts < policy.AttemptBound()
  {
    if policy.timeout > 0 {
      assert (attempts - 1) * policy.interval < policy.timeout;
    }
  }

  /** Attempts that were all continued are fewer than the policy's budgets allow. */
  lemma BudgetLeft(times: seq<Timing>, policy: RetryPolicy, start: int, now: int)
    requires policy.Sound() && AllContinued(times, policy, start, now)
    ensures |times| < policy.AttemptBound()
  {
    if times != [] {
      var k := |times| - 1;
      ElapsedAt(times, policy, start, k);
      assert Begun(times[k], start);
      BudgetHolds(policy, |times|, times[k].decidedAt - start);
    }
  }

  /** However spaced, attempts stay within the bound that the policy alone determines. */
  lemma SpacedIsBounded(times: seq<Timing>, policy: RetryPolicy, start: int)
    requires policy.Sound() && Spaced(times, policy, start)
    ensures |times| <= policy.AttemptBound()
  {
    if times != [] {
      var k := |times| - 1;
      SpacedPrefix(times, k, policy, start);
      assert k > 0 ==> ContinuedAt(times, k - 1, policy, start);
      BudgetLeft(times[..k], policy, start, times[k].started);
    }
  }

  function PausesOf(times: seq<Timing>): (pauses: seq<int>)
    ensures |pauses| == |times| && forall k :: 0 <= k < |times| ==> pauses[k] == times[k].pause
  {
    seq(|times|, k requires 0 <= k < |times| => times[k].pause)
  }

  lemma {:induction false} PausesAddUp(times: seq<Timing>)
    ensures SumsTo(PausesOf(times), TotalPause(times))
  {
    if times == [] {
      assert PausesOf(times) == [];
      NothingSummed();
    } else {
      var last := |times| - 1;
      PausesAddUp(times[..last]);
      OneMoreSummed(PausesOf(times[..last]), TotalPause(times[..last]), times[last].pause);
      assert PausesOf(times) == PausesOf(times[..last]) + [times[last].pause];
    }
  }

  function TotalPause(times: seq<Timing>): int {
    if times == [] then 0 else TotalPause(times[..|times| - 1]) + times[|times| - 1].pause
  }

  lemma {:induction false} PausesFit(times: seq<Timing>, policy: RetryPolicy, start: int)
    requires policy.Sound() && policy.timeout > 0 && |times| >= 1 && Spaced(times, policy, start)
    ensures 0 <= TotalPause(times[..|times| - 1]) <= policy.timeout
    ensures start + TotalPause(times[..|times| - 1]) <= times[|times| - 1].started
  {
    var k := |times| - 1;
    assert Begun(times[k], start);
    if k > 0 {
      var front := times[..k];
      SpacedPrefix(times, k, policy, start);
      PausesFit(front, policy, start);
      assert ContinuedAt(times, k - 1, policy, start) && Begun(times[k - 1], start);
      assert front[..k - 1] == times[..k - 1];
    }
  }

  /** However much the clock and the sleeps overrun, the pauses asked for never add up to more than the timeout. */
  lemma {:induction false} PausesWithinTimeout(times: seq<Timing>, policy: RetryPolicy, start: int, total: int)
    requires policy.Sound() && policy.timeout > 0 && |times| >= 1 && Spaced(times, policy, start)
    requires SumsTo(PausesOf(times[..|times| - 1]), total)
    ensures total <= policy.timeout && start + total <= times[|times| - 1].started
  {
    var front := times[..|times| - 1];
    PausesFit(times, policy, start);
    PausesAddUp(front);
    OneTotal(PausesOf(front), total, TotalPause(front));
  }

  /**
   Only the last attempt may start at or after the deadline. With a timer that never overruns, no pause
   reaches beyond it.
   */
  lemma DeadlineRespected(times: seq<Timing>, policy: RetryPolicy, start: int, k: nat)
    requires policy.Sound() && policy.timeout > 0 && k < |times| - 1 && Spaced(times, policy, start)
    ensures times[k].started < start + policy.timeout
    ensures times[k].pause > 0 && times[k].wokeAt == times[k].intervalAt + times[k].pause
        ==> times[k].wokeAt <= start + policy.timeout
  {
    assert ContinuedAt(times, k, policy, start) && Begun(times[k], start);
  }

  // ---------------------------------------------------------------- retrying in terms of settings

  /** Nothing in the settings stands against another attempt, and some setting asks for it. */
  predicate MayRetryBy(maxRetries: Option<int>, timeout: int, attempts: nat, elapsed: int) {
    && (maxRetries.Some? ==> attempts <= maxRetries.value)
    && (timeout > 0 ==> elapsed < timeout)
    && ((maxRetries.Some? && maxRetries.value > 0) || timeout > 0)
  }

  /** No retries are asked for, or all of them have been made, or the time for them is over. */
  predicate SpentBy(maxRetries: Option<int>, timeout: int, attempts: nat, elapsed: int) {
    || ((maxRetries.None? || maxRetries.value == 0) && timeout == 0)
    || (maxRetries.Some? && attempts == maxRetries.value + 1)
    || (timeout > 0 && elapsed >= timeout)
  }

  /** The pause is the interval, cut short by the time that is left. */
  predicate PauseFits(interval: int, timeout: int, elapsed: int, pause: int) {
    if timeout == 0 then pause == interval
    else if elapsed >= timeout then pause == 0
    else pause == if interval <= timeout - elapsed then interval else timeout - elapsed
  }

  lemma SpentInFields(times: seq<Timing>, policy: RetryPolicy, start: int)
    requires policy.Sound() && !policy.disabled && times != [] && Spaced(times, policy, start)
    requires BudgetEnded(times[|times| - 1], |times|, policy, start)
    ensures SpentBy(policy.maxRetries, policy.timeout, |times|, times[|times| - 1].decidedAt - start)
  {
    if |times| > 1 {
      assert ContinuedAt(times, |times| - 2, policy, start);
    }
  }

  lemma ContinuedInFields(t: Timing, k: nat, policy: RetryPolicy, start: int, next: int)
    requires policy.Sound() && Continued(t, k, policy, start, next)
    ensures MayRetryBy(policy.maxRetries, policy.timeout, k + 1, t.decidedAt - start)
    ensures PauseFits(policy.interval, policy.timeout, t.intervalAt - start, t.pause)
  {
  }

  // ---------------------------------------------------------------- the loop

  /** What happened in one turn of the loop. */
  datatype Round = Round(time: Timing, results: Results, skipped: nat)

  datatype Ending =
    | InternalRetries      // the checker handles retries itself: one attempt, no policy
    | InvalidRetries       // the settings were rejected: no attempt
    | RetriesDisabled      // one attempt
    | EndedInDelay         // the context ended before the first attempt
    | NothingToRetry
    | BudgetSpent
    | EndedInPause         // the context ended during a pause between attempts

  function SkipsOf(rounds: seq<Round>): (skips: seq<int>)
    ensures |skips| == |rounds| && forall k :: 0 <= k < |rounds| ==> skips[k] == rounds[k].skipped
  {
    seq(|rounds|, k requires 0 <= k < |rounds| => rounds[k].skipped)
  }

  lemma {:induction false} SkipsAddUp(rounds: seq<Round>)
    ensures SumsTo(SkipsOf(rounds), TotalSkipped(rounds))
  {
    if rounds == [] {
      assert SkipsOf(rounds) == [];
      NothingSummed();
    } else {
      var last := |rounds| - 1;
      SkipsAddUp(rounds[..last]);
      OneMoreSummed(SkipsOf(rounds[..last]), TotalSkipped(rounds[..last]), rounds[last].skipped);
      assert SkipsOf(rounds) == SkipsOf(rounds[..last]) + [rounds[last].skipped];
    }
  }

  function TotalSkipped(rounds: seq<Round>): nat {
    if rounds == [] then 0 else TotalSkipped(rounds[..|rounds| - 1]) + rounds[|rounds| - 1].skipped
  }

  function Timings(rounds: seq<Round>): seq<Timing> {
    seq(|rounds|, k requires 0 <= k < |rounds| => rounds[k].time)
  }

  /** The results of all rounds are those of the check, and those of all rounds before `failed` call for a retry. */
  ghost predicate Yielded(rounds: seq<Round>, checker: Checker, produce: nat -> Results, failed: int) {
    && (forall k :: 0 <= k < |rounds| ==> AttemptYields(checker, produce(k), rounds[k].results, rounds[k].skipped))
    && (forall k :: 0 <= k < |rounds| && k < failed ==> Retryable(rounds[k].results))
  }

  /** A complete record of a loop: all rounds but the last were retried as the policy says. */
  ghost predicate IsRecord(rounds: seq<Round>, policy: RetryPolicy, start: int, checker: Checker,
                           produce: nat -> Results)
  {
    Spaced(Timings(rounds), policy, start) && Yielded(rounds, checker, produce, |rounds| - 1)
  }

  /** A record whose last round was retried too, by the time `now`. */
  ghost predicate AllRetried(rounds: seq<Round>, policy: RetryPolicy, start: int, checker: Checker,
                             produce: nat -> Results, now: int)
  {
    AllContinued(Timings(rounds), policy, start, now) && Yielded(rounds, checker, produce, |rounds|)
  }

  lemma {:induction false} RecordStep(rounds: seq<Round>, r: Round, policy: RetryPolicy, start: int, checker: Checker,
                                      produce: nat -> Results)
    requires AllRetried(rounds, policy, start, checker, produce, r.time.started)
    requires Begun(r.time, start) && AttemptYields(checker, produce(|rounds|), r.results, r.skipped)
    ensures IsRecord(rounds + [r], policy, start, checker, produce)
    ensures TotalSkipped(rounds + [r]) == TotalSkipped(rounds) + r.skipped
  {
    assert (rounds + [r])[..|rounds|] == rounds;
    assert Timings(rounds + [r]) == Timings(rounds) + [r.time];
    SpacedStep(Timings(rounds), r.time, policy, start);
  }

  /** Retry data is attached to every result, except after a single attempt without any settings. */
  function AddRetryData(results: Results, data: RetryData): (r: Results)
    ensures |r| == |results|
    ensures forall i :: 0 <= i < |r| ==>
      r[i] == if data.policy.configured || data.attempts != 1 then results[i].(retries := Some(data)) else results[i]
  {
    if !data.policy.configured && data.attempts == 1 then results
    else seq(|results|, i requires 0 <= i < |results| => results[i].(retries := Some(data)))
  }

  /** The rounds of a loop, why it ended and when it began. */
  datatype History = History(start: int, rounds: seq<Round>, ending: Ending)

  ghost predicate LoopEnded(h: History, policy: RetryPolicy, results: Results, skipped: nat) {
    && |h.rounds| >= 1
    && var last := h.rounds[|h.rounds| - 1];
    && SumsTo(SkipsOf(h.rounds), skipped)
    && Carries(results, last.results, |h.rounds|, policy)
    && MayEnd(h.ending, last, |h.rounds|, policy, h.start)
  }

  /** The results are those of the last attempt, with the retry data attached. */
  ghost predicate Carries(results: Results, last: Results, attempts: nat, policy: RetryPolicy) {
    exists elapsed :: results == AddRetryData(last, RetryData(attempts, elapsed, policy))
  }

  /** How a loop may end after its `attempts`-th round. */
  ghost predicate MayEnd(ending: Ending, last: Round, attempts: nat, policy: RetryPolicy, start: int) {
    match ending
    case NothingToRetry => !Retryable(last.results)
    case BudgetSpent => Retryable(last.results) && BudgetEnded(last.time, attempts, policy, start)
    case EndedInPause => Retryable(last.results) && PauseBroken(last.time, attempts, policy, start)
    case _ => false
  }

  ghost predicate BudgetEnded(t: Timing, attempts: nat, policy: RetryPolicy, start: int) {
    !policy.CanRetry(attempts, t.decidedAt - start)
  }

  /** There was budget left, and a pause had to be made that the context did not outlast. */
  ghost predicate PauseBroken(t: Timing, attempts: nat, policy: RetryPolicy, start: int) {
    policy.CanRetry(attempts, t.decidedAt - start) && t.pause == policy.NextInterval(t.intervalAt - start) > 0
  }

  /** The last results with the retry data attached. */
  method EndLoop(clock: Clock, policy: RetryPolicy, last: Round, attempts: nat, start: int, ending: Ending,
                 ghost rounds: seq<Round>)
    returns (results: Results, ghost history: History)
    requires |rounds| == attempts >= 1 && rounds[attempts - 1] == last && MayEnd(ending, last, attempts, policy, start)
    modifies clock
    ensures clock.now >= old(clock.now) && history.start == start && history.rounds == rounds
    ensures LoopEnded(history, policy, results, TotalSkipped(rounds))
  {
    var endedAt := clock.Read();
    results := AddRetryData(last.results, RetryData(attempts, endedAt - start, policy));
    history := History(start, rounds, ending);
    assert Carries(results, last.results, attempts, policy);
    SkipsAddUp(rounds);
  }

  method RetryUntilDone(clock: Clock, checker: Checker, policy: RetryPolicy, produce: nat -> Results)
    returns (results: Results, skipped: nat, ghost history: History)
    requires policy.Sound()
    modifies clock
    ensures clock.now >= old(clock.now)
    ensures old(clock.now) <= history.start
    ensures IsRecord(history.rounds, policy, history.start, checker, produce)
    ensures LoopEnded(history, policy, results, skipped)
    ensures |history.rounds| <= policy.AttemptBound()
  {
    var start := clock.Read();
    var attempts := 0;
    var skippedTotal := 0;
    ghost var rounds: seq<Round> := [];
    BudgetLeft([], policy, start, clock.now);
    while true
      invariant old(clock.now) <= start <= clock.now && attempts == |rounds| < policy.AttemptBound()
      invariant AllRetried(rounds, policy, start, checker, produce, clock.now)
      invariant skippedTotal == TotalSkipped(rounds)
      decreases policy.AttemptBound() - attempts
    {
      attempts := attempts + 1;
      var round, decision := RunRound(clock, checker, policy, produce, attempts, start);
      skippedTotal := skippedTotal + round.skipped;
      RecordStep(rounds, round, policy, start, checker, produce);
      rounds := rounds + [round];
      if decision.Some? {
        skipped := skippedTotal;
        results, history := EndLoop(clock, policy, round, attempts, start, decision.value, rounds);
        SpacedIsBounded(Timings(rounds), policy, start);
        return;
      }
      BudgetLeft(Timings(rounds), policy, start, clock.now);
    }
  }

  /** One turn of the loop: an attempt, the decision, and the pause before the next turn if there is one. */
  method RunRound(clock: Clock, checker: Checker, policy: RetryPolicy, produce: nat -> Results, attempts: nat,
                  start: int)
    returns (round: Round, decision: Option<Ending>)
    requires policy.Sound() && attempts >= 1 && start <= clock.now
    modifies clock
    ensures clock.now >= old(clock.now) == round.time.started
    ensures Begun(round.time, start) && AttemptYields(checker, produce(attempts - 1), round.results, round.skipped)
    ensures decision.Some? ==> MayEnd(decision.value, round, attempts, policy, start)
    ensures decision.None? ==> Retryable(round.results) && Continued(round.time, attempts - 1, policy, start, clock.now)
  {
    var started := clock.now;
    var results, skipped := RunCheckAttempt(clock, checker, produce, attempts - 1);
    round := Round(Timing(started, clock.now, clock.now, 0, clock.now), results, skipped);
    var retry := ShouldRetryResults(results);
    if !retry {
      return round, Some(NothingToRetry);
    }
    var time, next := PauseForRetry(clock, policy, attempts, start, started);
    round := round.(time := time);
    decision := match next case Again => None case Spent => Some(BudgetSpent) case Cancelled => Some(EndedInPause);
    assert |results| > 0;  // so the cancellation error never replaces the results
  }

  datatype Next = Again | Spent | Cancelled

  /** After a failed attempt: whether there is budget for another one, and the pause before it. */
  method PauseForRetry(clock: Clock, policy: RetryPolicy, attempts: nat, start: int, started: int)
    returns (time: Timing, next: Next)
    requires attempts >= 1 && start <= started <= clock.now
    modifies clock
    ensures clock.now >= old(clock.now) && Begun(time, start) && time.started == started
    ensures next.Spent? ==> BudgetEnded(time, attempts, policy, start)
    ensures next.Cancelled? ==> PauseBroken(time, attempts, policy, start)
    ensures next.Again? ==> Continued(time, attempts - 1, policy, start, clock.now)
  {
    var decidedAt := clock.Read();
    time := Timing(started, decidedAt, decidedAt, 0, decidedAt);
    if !policy.CanRetry(attempts, decidedAt - start) {
      return time, Spent;
    }
    var intervalAt := clock.Read();
    var pause := policy.NextInterval(intervalAt - start);
    var cancelled := clock.Sleep(pause);
    time := Timing(started, decidedAt, intervalAt, pause, clock.now);
    next := if cancelled then Cancelled else Again;
  }

  /** The most attempts of a check, computed from how its checker is driven and from the settings alone. */
  ghost function CheckBound(checker: Checker, defaults: Option<CheckRetries>, override: Option<CheckRetries>): nat {
    if checker.retriesInternally then 1 else SettingsBound(defaults, override)
  }

  /** The loop ran, as the merged policy says, after its initial delay. */
  ghost predicate Looped(h: History, results: Results, skipped: nat, checker: Checker, defaults: Option<CheckRetries>,
                         override: Option<CheckRetries>, produce: nat -> Results, began: int)
  {
    exists policy :: MergedPolicy(policy, defaults, override)
                     && IsRecord(h.rounds, policy, h.start, checker, produce)
                     && LoopEnded(h, policy, results, skipped)
                     && began + policy.delay <= h.start
  }

  ghost predicate Delayed(defaults: Option<CheckRetries>, override: Option<CheckRetries>) {
    exists policy :: MergedPolicy(policy, defaults, override) && policy.delay > 0
  }

  /**
   What running a check comes to, from `began` on. It ends for one of seven reasons: the checker retries internally, the
   settings are rejected, retries are disabled, or else the context ends in an initial delay, if there is one, or the
   loop ends.
   */
  ghost predicate CheckRan(h: History, results: Results, skipped: nat, checker: Checker, defaults: Option<CheckRetries>,
                           override: Option<CheckRetries>, produce: nat -> Results, began: int)
  {
    && |h.rounds| <= CheckBound(checker, defaults, override)
    && (h.ending.InternalRetries? <==> checker.retriesInternally)
    && (h.ending.InvalidRetries? <==> !checker.retriesInternally && !AcceptedTogether(defaults, override))
    && (h.ending.RetriesDisabled?
        <==> !checker.retriesInternally && AcceptedTogether(defaults, override) && DisabledTogether(defaults, override))
    && match h.ending
       case InternalRetries | RetriesDisabled => |h.rounds| == 1 && AttemptYields(checker, produce(0), results, skipped)
       case InvalidRetries => RanNothing(h, results, skipped)
       case EndedInDelay => RanNothing(h, results, skipped) && Delayed(defaults, override)
       case NothingToRetry | BudgetSpent | EndedInPause =>
         Looped(h, results, skipped, checker, defaults, override, produce, began)
  }

  ghost predicate RanNothing(h: History, results: Results, skipped: nat) {
    h.rounds == [] && skipped == 0 && |results| == 1 && results[0].invalid && !results[0].pass
  }

  /** The loop ran, and it did not end because the context was over. */
  predicate LoopEnding(ending: Ending) {
    ending.NothingToRetry? || ending.BudgetSpent? || ending.EndedInPause?
  }

  /** A round was followed by the pause, and if the context lasted by another round, as both levels' settings say. */
  ghost predicate RetriedBy(h: History, k: nat, defaults: Option<CheckRetries>, override: Option<CheckRetries>)
    requires k < |h.rounds|
  {
    var t := h.rounds[k].time;
    && MayRetryBy(MaxRetriesOf(defaults, override), TimeoutOf(defaults, override), k + 1, t.decidedAt - h.start)
    && PauseFits(IntervalOf(defaults, override), TimeoutOf(defaults, override), t.intervalAt - h.start, t.pause)
  }

  /** Why the loop went on and why it ended, in terms of the settings of both levels. */
  ghost predicate InSettings(h: History, defaults: Option<CheckRetries>, override: Option<CheckRetries>) {
    LoopEnding(h.ending) ==>
      && |h.rounds| >= 1
      && (forall k {:trigger RetriedBy(h, k, defaults, override)} :: 0 <= k < |h.rounds| - 1 ==>
           RetriedBy(h, k, defaults, override))
      && (h.ending.BudgetSpent? ==>
           SpentBy(MaxRetriesOf(defaults, override), TimeoutOf(defaults, override), |h.rounds|,
                   h.rounds[|h.rounds| - 1].time.decidedAt - h.start))
      && (h.ending.EndedInPause? ==> RetriedBy(h, |h.rounds| - 1, defaults, override))
  }

  lemma RoundsInSettings(h: History, k: nat, policy: RetryPolicy, defaults: Option<CheckRetries>,
                         override: Option<CheckRetries>)
    requires MergedPolicy(policy, defaults, override) && k < |h.rounds|
    requires policy.CanRetry(k + 1, h.rounds[k].time.decidedAt - h.start)
    requires h.rounds[k].time.pause == policy.NextInterval(h.rounds[k].time.intervalAt - h.start)
    ensures RetriedBy(h, k, defaults, override)
  {
    MergedInFields(policy, defaults, override);
  }

  lemma {:induction false} LoopedInSettings(h: History, results: Results, skipped: nat, policy: RetryPolicy,
                                            defaults: Option<CheckRetries>, override: Option<CheckRetries>,
                                            checker: Checker, produce: nat -> Results)
    requires MergedPolicy(policy, defaults, override) && IsRecord(h.rounds, policy, h.start, checker, produce)
    requires LoopEnded(h, policy, results, skipped)
    ensures InSettings(h, defaults, override)
  {
    var times, last := Timings(h.rounds), |h.rounds| - 1;
    MergedInFields(policy, defaults, override);
    forall k {:trigger RetriedBy(h, k, defaults, override)} | 0 <= k < last
      ensures RetriedBy(h, k, defaults, override)
    {
      assert ContinuedAt(times, k, policy, h.start);
      RoundsInSettings(h, k, policy, defaults, override);
    }
    if h.ending.BudgetSpent? {
      SpentInFields(times, policy, h.start);
    }
    if h.ending.EndedInPause? {
      RoundsInSettings(h, last, policy, defaults, override);
    }
  }

  lemma {:induction false} RanInSettings(h: History, results: Results, skipped: nat, checker: Checker,
                                         defaults: Option<CheckRetries>, override: Option<CheckRetries>,
                                         produce: nat -> Results, began: int)
    requires CheckRan(h, results, skipped, checker, defaults, override, produce, began)
    ensures InSettings(h, defaults, override)
  {
    if LoopEnding(h.ending) {
      var policy :| MergedPolicy(policy, defaults, override)
                    && IsRecord(h.rounds, policy, h.start, checker, produce)
                    && LoopEnded(h, policy, results, skipped)
                    && began + policy.delay <= h.start;
      LoopedInSettings(h, results, skipped, policy, defaults, override, checker, produce);
    }
  }

  /** The check fails at once and in earnest. */
  predicate Fails(produced: Results) {
    produced != [] && !produced[0].pass && !produced[0].invalid && !produced[0].rateLimited
  }

  lemma {:induction false} FailureIsRetryable(checker: Checker, produced: Results, results: Results, skipped: nat)
    requires checker.single && Fails(produced) && AttemptYields(checker, produced, results, skipped)
    ensures Retryable(results) && !results[0].pass
  {
    var kept :| KeptInOrder(produced, kept, results);
    FirstStays(produced, kept, results);
  }

  /** A first result that is not rate-limited comes first again. */
  lemma FirstStays(produced: Results, kept: seq<nat>, out: Results)
    requires produced != [] && !produced[0].rateLimited && KeptInOrder(produced, kept, out)
    ensures out != [] && out[0] == produced[0]
  {
    assert 0 in kept;
    var i: nat :| i < |kept| && kept[i] == 0;
    assert kept[0] == 0;
  }

  /** With a number of retries set and no timeout, what is spent is that number. */
  lemma SpentExactly(h: History, defaults: Option<CheckRetries>, override: Option<CheckRetries>, n: int)
    requires InSettings(h, defaults, override) && h.ending.BudgetSpent?
    requires MaxRetriesOf(defaults, override) == Some(n) && TimeoutOf(defaults, override) == 0
    ensures |h.rounds| == n + 1 || n < 0
  {
    if |h.rounds| > 1 {
      assert RetriedBy(h, |h.rounds| - 2, defaults, override);
    }
  }

  /** A loop around a check that fails whenever it runs ends only with its budget, or with the context. */
  lemma {:induction false} FailureSpends(h: History, results: Results, skipped: nat, policy: RetryPolicy,
                                         checker: Checker, produce: nat -> Results)
    requires IsRecord(h.rounds, policy, h.start, checker, produce) && LoopEnded(h, policy, results, skipped)
    requires checker.single && !h.ending.EndedInPause? && forall k :: Fails(produce(k))
    ensures h.ending.BudgetSpent?
  {
    var last := |h.rounds| - 1;
    FailureIsRetryable(checker, produce(last), h.rounds[last].results, h.rounds[last].skipped);
  }

  /**
   A check that fails whenever it runs, with a number of retries set and no timeout, is run that many times more than
   once, as long as its context lasts.
   */
  lemma {:induction false} RetriesExactly(h: History, results: Results, skipped: nat, checker: Checker,
                                          defaults: Option<CheckRetries>, override: Option<CheckRetries>,
                                          produce: nat -> Results, began: int, n: nat)
    requires CheckRan(h, results, skipped, checker, defaults, override, produce, began)
    requires checker.single && LoopEnding(h.ending) && !h.ending.EndedInPause?
    requires MaxRetriesOf(defaults, override) == Some(n) && TimeoutOf(defaults, override) == 0
    requires forall k :: Fails(produce(k))
    ensures h.ending.BudgetSpent? && |h.rounds| == n + 1
  {
    RanInSettings(h, results, skipped, checker, defaults, override, produce, began);
    var policy :| MergedPolicy(policy, defaults, override)
                  && IsRecord(h.rounds, policy, h.start, checker, produce)
                  && LoopEnded(h, policy, results, skipped)
                  && began + policy.delay <= h.start;
    FailureSpends(h, results, skipped, policy, checker, produce);
    SpentExactly(h, defaults, override, n);
  }

  /** However its run ends, a check that fails whenever it runs has failed. */
  lemma {:induction false} FailingCheckFails(h: History, results: Results, skipped: nat, checker: Checker,
                                             defaults: Option<CheckRetries>, override: Option<CheckRetries>,
                                             produce: nat -> Results, began: int)
    requires CheckRan(h, results, skipped, checker, defaults, override, produce, began)
    requires checker.single && forall k :: Fails(produce(k))
    ensures results != [] && !results[0].pass
  {
    if h.ending.InternalRetries? || h.ending.RetriesDisabled? {
      FailureIsRetryable(checker, produce(0), results, skipped);
    } else if LoopEnding(h.ending) {
      var policy :| MergedPolicy(policy, defaults, override)
                    && IsRecord(h.rounds, policy, h.start, checker, produce)
                    && LoopEnded(h, policy, results, skipped)
                    && began + policy.delay <= h.start;
      var last := |h.rounds| - 1;
      FailureIsRetryable(checker, produce(last), h.rounds[last].results, h.rounds[last].skipped);
    }
  }

  /**
   A check with its retries, from the two levels of settings to the final results. Whatever the check and
   the clock do, it ends, and the number of attempts stays within the bound of the merged policy.
   */
  method RunCheckWithRetries(clock: Clock, checker: Checker, defaults: Option<CheckRetries>,
                             override: Option<CheckRetries>, produce: nat -> Results)
    returns (results: Results, skipped: nat, ghost history: History)
    modifies clock
    ensures clock.now >= old(clock.now)
    ensures CheckRan(history, results, skipped, checker, defaults, override, produce, old(clock.now))
    ensures InSettings(history, defaults, override)
  {
    ghost var began := clock.now;
    results, skipped, history := RunMerged(clock, checker, defaults, override, produce);
    RanInSettings(history, results, skipped, checker, defaults, override, produce, began);
  }

  method RunMerged(clock: Clock, checker: Checker, defaults: Option<CheckRetries>,
                   override: Option<CheckRetries>, produce: nat -> Results)
    returns (results: Results, skipped: nat, ghost history: History)
    modifies clock
    ensures clock.now >= old(clock.now)
    ensures CheckRan(history, results, skipped, checker, defaults, override, produce, old(clock.now))
  {
    if checker.retriesInternally {
      ghost var started := clock.now;
      results, skipped := RunCheckAttempt(clock, checker, produce, 0);
      history := History(started, [Round(Timing(started, clock.now, clock.now, 0, clock.now), results, skipped)],
                         InternalRetries);
      return;
    }
    var merged := MergeCheckRetries(defaults, override);
    var accepted := NewRetryPolicy(merged);
    if accepted.Err? {
      return [InvalidResult("invalid retries")], 0, History(clock.now, [], InvalidRetries);
    }
    var policy := accepted.value;
    if policy.disabled {
      ghost var started := clock.now;
      results, skipped := RunCheckAttempt(clock, checker, produce, 0);
      history := History(started, [Round(Timing(started, clock.now, clock.now, 0, clock.now), results, skipped)],
                         RetriesDisabled);
      return;
    }
    assert MergedPolicy(policy, defaults, override);
    if policy.delay > 0 {
      var cancelled := clock.Sleep(policy.delay);
      if cancelled {
        return [InvalidResult("context ended")], 0, History(clock.now, [], EndedInDelay);
      }
    }
    results, skipped, history := RetryUntilDone(clock, checker, policy, produce);
  }
}
