/**
 The retry loop of a kubernetesResource check. Its policy governs the embedded canaries: each of them is run
 as a whole until all of its results pass, and each run drives every embedded check with that
 check's own retries, so the two levels of retrying multiply.
 */
module KubernetesRetry {
  import opened Common
  import opened RetryPolicies
  import opened RetryLoop
  import opened Sequences

  datatype EmbeddedCheck = EmbeddedCheck(checker: Checker, retries: Option<CheckRetries>)

  /** An embedded canary: its enabled checks in the order they run, and whether its templates expand. */
  datatype EmbeddedCanary = EmbeddedCanary(checks: seq<EmbeddedCheck>, retries: Option<CheckRetries>, templates: bool)

  /** What attempt `n` of check `check` yields in run `run` of a canary. */
  type Producer = (nat, nat, nat) -> Results

  function AttemptsOf(produce: Producer, run: nat, check: nat): nat -> Results {
    (n: nat) => produce(run, check, n)
  }

  // ---------------------------------------------------------------- one run of an embedded canary

  /** One embedded check within a run, from `began` on: what it came to and how. */
  datatype CheckRun = CheckRun(began: int, results: Results, skipped: nat, history: History)

  /** The check ran with its retries, under the canary's settings and its own. */
  ghost predicate RanCheck(c: CheckRun, canary: EmbeddedCanary, check: nat, produce: Producer, run: nat)
    requires check < |canary.checks|
  {
    CheckRan(c.history, c.results, c.skipped, canary.checks[check].checker, canary.retries,
             canary.checks[check].retries,
             AttemptsOf(produce, run, check), c.began)
  }

  /** The first checks of the canary ran, each after the one before. */
  ghost predicate RanChecks(ran: seq<CheckRun>, canary: EmbeddedCanary, produce: Producer, run: nat) {
    && |ran| <= |canary.checks|
    && (forall i {:trigger RanCheck(ran[i], canary, i, produce, run)} :: 0 <= i < |ran| ==>
      RanCheck(ran[i], canary, i, produce, run))
    && (forall i, j :: 0 <= i < j < |ran| ==> ran[i].began <= ran[j].began)
  }

  /** The results of all checks in the order in which they ran. */
  function AllResults(ran: seq<CheckRun>): Results {
    if ran == [] then [] else AllResults(ran[..|ran| - 1]) + ran[|ran| - 1].results
  }

  function ResultsOf(ran: seq<CheckRun>): (parts: seq<Results>)
    ensures |parts| == |ran| && forall i :: 0 <= i < |ran| ==> parts[i] == ran[i].results
  {
    seq(|ran|, i requires 0 <= i < |ran| => ran[i].results)
  }

  lemma {:induction false} AllResultsJoin(ran: seq<CheckRun>)
    ensures Concatenated(ResultsOf(ran), AllResults(ran))
  {
    if ran == [] {
      assert ResultsOf(ran) == [];
      NothingConcatenated<CheckResult>();
    } else {
      var last := |ran| - 1;
      AllResultsJoin(ran[..last]);
      OneMoreConcatenated(ResultsOf(ran[..last]), AllResults(ran[..last]), ran[last].results);
      assert ResultsOf(ran) == ResultsOf(ran[..last]) + [ran[last].results];
    }
  }

  /**
   One run of an embedded canary: every check runs with its retries, and the results are those of the checks in order.
   It fails as a whole when the disabled checks cannot be looked up, and then nothing runs.
   */
  method RunChecksNoPersistence(clock: Clock, canary: EmbeddedCanary, produce: Producer, run: nat, lookupFails: bool)
    returns (results: Option<Results>, ghost ran: seq<CheckRun>)
    modifies clock
    ensures clock.now >= old(clock.now)
    ensures results == if lookupFails then None else Some(AllResults(ran))
    ensures results.Some? ==> Concatenated(ResultsOf(ran), results.value)
    ensures RanChecks(ran, canary, produce, run)
    ensures |ran| == if lookupFails then 0 else |canary.checks|
  {
    ran := [];
    if lookupFails {
      return None, ran;
    }
    var all: Results := [];
    for i := 0 to |canary.checks|
      invariant clock.now >= old(clock.now) && |ran| == i
      invariant RanChecks(ran, canary, produce, run) && all == AllResults(ran)
      invariant forall j :: 0 <= j < i ==> ran[j].began <= clock.now
    {
      var check := canary.checks[i];
      ghost var began, history := clock.now, History(0, [], InternalRetries);
      var filtered, skipped;
      filtered, skipped, history :=
        RunCheckWithRetries(clock, check.checker, canary.retries, check.retries, AttemptsOf(produce, run, i));
      all := all + filtered;
      ran := ran + [CheckRun(began, filtered, skipped, history)];
      assert ran[..i] == ran[..|ran| - 1];
    }
    results := Some(all);
    AllResultsJoin(ran);
  }

  ghost predicate AllPass(results: Results) {
    forall i :: 0 <= i < |results| ==> results[i].pass
  }

  method FirstFailure(results: Results) returns (failed: bool)
    ensures failed <==> !AllPass(results)
  {
    for i := 0 to |results|
      invariant forall j :: 0 <= j < i ==> results[j].pass
    {
      if !results[i].pass {
        return true;
      }
    }
    failed := false;
  }

  // ---------------------------------------------------------------- running until it passes

  /** One turn of the loop: when, whether the lookup failed, and the checks that ran. */
  datatype Turn = Turn(time: Timing, lookupFailed: bool, ran: seq<CheckRun>)

  /** Unlike in the loop around a single check, an invalid result counts like any other failure. */
  ghost predicate Failed(turn: Turn) {
    turn.lookupFailed || SomeFails(turn.ran)
  }

  ghost predicate SomeFails(ran: seq<CheckRun>) {
    exists i, j :: 0 <= i < |ran| && 0 <= j < |ran[i].results| && !ran[i].results[j].pass
  }

  /** That is so exactly if not all of the results together pass. */
  lemma FailMeans(ran: seq<CheckRun>)
    ensures SomeFails(ran) <==> !AllPass(AllResults(ran))
  {
    var all, parts := AllResults(ran), ResultsOf(ran);
    AllResultsJoin(ran);
    PartsHold(parts, all);
    if i, j :| 0 <= i < |ran| && 0 <= j < |ran[i].results| && !ran[i].results[j].pass {
      assert parts[i][j] in all;
    }
    if !AllPass(all) {
      var k :| 0 <= k < |all| && !all[k].pass;
      assert all[k] in all;
      var i, j :| 0 <= i < |parts| && 0 <= j < |parts[i]| && parts[i][j] == all[k];
      assert !ran[i].results[j].pass;
    }
  }

  /** What a run came to: its results, and whether something in it failed. */
  method Judge(results: Option<Results>, ghost ran: seq<CheckRun>) returns (last: Results, failed: bool)
    requires if results.None? then ran == [] else results.value == AllResults(ran)
    ensures last == AllResults(ran) && (failed <==> results.None? || SomeFails(ran))
  {
    FailMeans(ran);
    last, failed := [], true;
    if results.Some? {
      last := results.value;
      failed := FirstFailure(last);
    }
  }

  /** Turn `k`, counted from 0, ran every check of the canary, unless the lookup failed. */
  ghost predicate Ran(turn: Turn, k: nat, canary: EmbeddedCanary, produce: Producer, lookupFails: nat -> bool) {
    && turn.lookupFailed == lookupFails(k)
    && RanChecks(turn.ran, canary, produce, k)
    && |turn.ran| == if turn.lookupFailed then 0 else |canary.checks|
  }

  function Timings(turns: seq<Turn>): seq<Timing> {
    seq(|turns|, k requires 0 <= k < |turns| => turns[k].time)
  }

  /** All turns ran the canary, and those before `failed` failed. */
  ghost predicate TurnsRan(turns: seq<Turn>, canary: EmbeddedCanary, produce: Producer, lookupFails: nat -> bool,
                           failed: int)
  {
    && (forall k {:trigger Ran(turns[k], k, canary, produce, lookupFails)} :: 0 <= k < |turns| ==>
      Ran(turns[k], k, canary, produce, lookupFails))
    && (forall k {:trigger Failed(turns[k])} :: 0 <= k < |turns| && k < failed ==> Failed(turns[k]))
  }

  /** A complete record of the loop: all turns but the last failed and were repeated as the policy says. */
  ghost predicate IsRecord(turns: seq<Turn>, policy: RetryPolicy, start: int, canary: EmbeddedCanary, produce: Producer,
                           lookupFails: nat -> bool)
  {
    Spaced(Timings(turns), policy, start) && TurnsRan(turns, canary, produce, lookupFails, |turns| - 1)
  }

  lemma {:induction false} RecordStep(turns: seq<Turn>, turn: Turn, policy: RetryPolicy, start: int,
                                      canary: EmbeddedCanary, produce: Producer, lookupFails: nat -> bool)
    requires AllContinued(Timings(turns), policy, start, turn.time.started) && Begun(turn.time, start)
    requires TurnsRan(turns, canary, produce, lookupFails, |turns|) && Ran(turn, |turns|, canary, produce, lookupFails)
    ensures IsRecord(turns + [turn], policy, start, canary, produce, lookupFails)
    ensures Timings(turns + [turn]) == Timings(turns) + [turn.time]
  {
    assert Timings(turns + [turn]) == Timings(turns) + [turn.time];
    SpacedStep(Timings(turns), turn.time, policy, start);
  }

  datatype Outcome =
    | Succeeded(display: map<string, string>)
    | InvalidPolicy
    | TemplatingFailed
    | DelayCancelled
    | ChecksFailed
    | PauseCancelled

  /** How the loop may end after its last turn. */
  ghost predicate MayEnd(outcome: Outcome, last: Turn, attempts: nat, policy: RetryPolicy, start: int) {
    match outcome
    case Succeeded(_) => !Failed(last)
    case ChecksFailed => Failed(last) && BudgetEnded(last.time, attempts, policy, start)
    case PauseCancelled => Failed(last) && PauseBroken(last.time, attempts, policy, start)
    case _ => false
  }

  /**
   What the loop around an embedded canary came to: a record of turns from `start` on, and an ending that fits the last.
   */
  ghost predicate CanaryRan(turns: seq<Turn>, outcome: Outcome, policy: RetryPolicy, start: int, canary: EmbeddedCanary,
                            produce: Producer, lookupFails: nat -> bool)
  {
    && |turns| >= 1
    && IsRecord(turns, policy, start, canary, produce, lookupFails)
    && MayEnd(outcome, turns[|turns| - 1], |turns|, policy, start)
  }

  /**
   Runs one embedded canary until it passes, with the pauses and budgets of the policy: it is run again exactly as long
   as it fails, there is budget, and the context lasts.
   */
  method RunUntilPassing(clock: Clock, policy: RetryPolicy, canary: EmbeddedCanary, produce: Producer,
                         lookupFails: nat -> bool)
    returns (outcome: Outcome, last: Results, ghost start: int, ghost turns: seq<Turn>)
    requires policy.Sound()
    modifies clock
    ensures clock.now >= old(clock.now) && old(clock.now) <= start
    ensures CanaryRan(turns, outcome, policy, start, canary, produce, lookupFails)
    ensures TurnsInSettings(turns, outcome, policy, start)
    ensures last == AllResults(turns[|turns| - 1].ran) && Concatenated(ResultsOf(turns[|turns| - 1].ran), last)
  {
    outcome, last, start, turns := RunInTurns(clock, policy, canary, produce, lookupFails);
    AllResultsJoin(turns[|turns| - 1].ran);
    RanInSettings(turns, outcome, policy, start, canary, produce, lookupFails);
  }

  method RunInTurns(clock: Clock, policy: RetryPolicy, canary: EmbeddedCanary, produce: Producer,
                    lookupFails: nat -> bool)
    returns (outcome: Outcome, last: Results, ghost start: int, ghost turns: seq<Turn>)
    requires policy.Sound()
    modifies clock
    ensures clock.now >= old(clock.now) && old(clock.now) <= start
    ensures CanaryRan(turns, outcome, policy, start, canary, produce, lookupFails)
    ensures last == AllResults(turns[|turns| - 1].ran)
  {
    var startedAt := clock.Read();
    start, turns := startedAt, [];
    var attempts := 0;
    BudgetLeft([], policy, start, clock.now);
    while true
      invariant old(clock.now) <= start == startedAt <= clock.now && attempts == |turns| < policy.AttemptBound()
      invariant AllContinued(Timings(turns), policy, start, clock.now)
      invariant TurnsRan(turns, canary, produce, lookupFails, |turns|)
      decreases policy.AttemptBound() - attempts
    {
      var began := clock.now;
      var results;
      ghost var ran;
      results, ran := RunChecksNoPersistence(clock, canary, produce, attempts, lookupFails(attempts));
      attempts := attempts + 1;
      var failed;
      last, failed := Judge(results, ran);
      var time, next := Timing(began, clock.now, clock.now, 0, clock.now), Spent;
      if failed {
        time, next := PauseForRetry(clock, policy, attempts, startedAt, began);
      }
      RecordStep(turns, Turn(time, results.None?, ran), policy, start, canary, produce, lookupFails);
      turns := turns + [Turn(time, results.None?, ran)];
      if !failed {
        return Succeeded(map[]), last, start, turns;
      }
      if next.Spent? {
        return ChecksFailed, last, start, turns;
      }
      if next.Cancelled? {
        return PauseCancelled, last, start, turns;
      }
      BudgetLeft(Timings(turns), policy, start, clock.now);
    }
  }

  // ---------------------------------------------------------------- how often each embedded check is executed

  ghost function EmbeddedBound(canary: EmbeddedCanary, check: nat): nat
    requires check < |canary.checks|
  {
    CheckBound(canary.checks[check].checker, canary.retries, canary.checks[check].retries)
  }

  /** The attempts of one embedded check in each turn. */
  ghost function ExecutionsOf(turns: seq<Turn>, check: nat): (numbers: seq<int>)
    ensures |numbers| == |turns|
    ensures forall k :: 0 <= k < |turns| ==>
      numbers[k] == if check < |turns[k].ran| then |turns[k].ran[check].history.rounds| else 0
  {
    seq(|turns|, k requires 0 <= k < |turns| =>
      if check < |turns[k].ran| then |turns[k].ran[check].history.rounds| else 0)
  }

  lemma ExecutionsInTurn(turn: Turn, k: nat, canary: EmbeddedCanary, produce: Producer, lookupFails: nat -> bool,
                         check: nat)
    requires check < |canary.checks| && Ran(turn, k, canary, produce, lookupFails)
    ensures check < |turn.ran| ==> |turn.ran[check].history.rounds| <= EmbeddedBound(canary, check)
  {
    assert check < |turn.ran| ==> RanCheck(turn.ran[check], canary, check, produce, k);
  }

  lemma Multiples(n: nat, m: nat, bound: nat)
    requires n <= m
    ensures n * bound <= m * bound && (n + 1) * bound == n * bound + bound
  {
  }

  /** A sum of numbers none of which is above a bound. */
  lemma {:induction false} SumsWithin(numbers: seq<int>, total: int, sums: seq<int>, n: nat, bound: nat)
    requires SumsAt(numbers, total, sums) && n <= |numbers| && forall k :: 0 <= k < |numbers| ==> numbers[k] <= bound
    ensures sums[n] <= n * bound
  {
    if n > 0 {
      SumsWithin(numbers, total, sums, n - 1, bound);
      assert numbers[n - 1] <= bound;
      Multiples(n - 1, n, bound);
    }
  }

  /**
   Each embedded check is executed at most as often as the outer policy allows turns, times what its own settings allow.
   */
  lemma {:induction false} ExecutionsMultiply(turns: seq<Turn>, policy: RetryPolicy, start: int, canary: EmbeddedCanary,
                                              produce: Producer, lookupFails: nat -> bool, check: nat, total: int)
    requires policy.Sound() && check < |canary.checks| && IsRecord(turns, policy, start, canary, produce, lookupFails)
    requires SumsTo(ExecutionsOf(turns, check), total)
    ensures |turns| <= policy.AttemptBound()
    ensures total <= policy.AttemptBound() * EmbeddedBound(canary, check)
  {
    var numbers, bound := ExecutionsOf(turns, check), EmbeddedBound(canary, check);
    SpacedIsBounded(Timings(turns), policy, start);
    forall k | 0 <= k < |numbers|
      ensures numbers[k] <= bound
    {
      assert Ran(turns[k], k, canary, produce, lookupFails);
      ExecutionsInTurn(turns[k], k, canary, produce, lookupFails, check);
    }
    var sums :| SumsAt(numbers, total, sums);
    SumsWithin(numbers, total, sums, |numbers|, bound);
    Multiples(|turns|, policy.AttemptBound(), bound);
  }

  /** The pauses between the turns of a canary respect the timeout, and only its last turn may start after it. */
  lemma {:induction false} TurnsWithinTimeout(turns: seq<Turn>, policy: RetryPolicy, start: int, canary: EmbeddedCanary,
                                              produce: Producer, lookupFails: nat -> bool, k: nat, total: int)
    requires policy.Sound() && policy.timeout > 0 && k < |turns| - 1
    requires IsRecord(turns, policy, start, canary, produce, lookupFails)
    requires SumsTo(PausesOf(Timings(turns)[..|turns| - 1]), total)
    ensures turns[k].time.started < start + policy.timeout
    ensures turns[k].time.pause > 0 && turns[k].time.wokeAt == turns[k].time.intervalAt + turns[k].time.pause
        ==> turns[k].time.wokeAt <= start + policy.timeout
    ensures total <= policy.timeout
  {
    DeadlineRespected(Timings(turns), policy, start, k);
    PausesWithinTimeout(Timings(turns), policy, start, total);
  }

  // ---------------------------------------------------------------- repeating in terms of settings

  /** The turn was followed by the pause, and if the context lasted by another turn, as the policy's settings say. */
  ghost predicate RepeatedBy(turns: seq<Turn>, k: nat, policy: RetryPolicy, start: int)
    requires k < |turns|
  {
    && !policy.disabled
    && MayRetryBy(policy.maxRetries, policy.timeout, k + 1, turns[k].time.decidedAt - start)
    && PauseFits(policy.interval, policy.timeout, turns[k].time.intervalAt - start, turns[k].time.pause)
  }

  /** Why a canary was run again and why no more, in terms of the settings of the policy. */
  ghost predicate TurnsInSettings(turns: seq<Turn>, outcome: Outcome, policy: RetryPolicy, start: int) {
    && |turns| >= 1
    && (forall k {:trigger RepeatedBy(turns, k, policy, start)} :: 0 <= k < |turns| - 1 ==>
         RepeatedBy(turns, k, policy, start))
    && (outcome.ChecksFailed? ==>
         policy.disabled
         || SpentBy(policy.maxRetries, policy.timeout, |turns|, turns[|turns| - 1].time.decidedAt - start))
    && (outcome.PauseCancelled? ==> RepeatedBy(turns, |turns| - 1, policy, start))
  }

  lemma {:induction false} RanInSettings(turns: seq<Turn>, outcome: Outcome, policy: RetryPolicy, start: int,
                                         canary: EmbeddedCanary, produce: Producer, lookupFails: nat -> bool)
    requires policy.Sound() && CanaryRan(turns, outcome, policy, start, canary, produce, lookupFails)
    ensures TurnsInSettings(turns, outcome, policy, start)
  {
    var times := Timings(turns);
    forall k {:trigger RepeatedBy(turns, k, policy, start)} | 0 <= k < |turns| - 1
      ensures RepeatedBy(turns, k, policy, start)
    {
      assert ContinuedAt(times, k, policy, start);
    }
    if outcome.ChecksFailed? && !policy.disabled {
      SpentInFields(times, policy, start);
    }
  }

  lemma TurnsSpent(turns: seq<Turn>, outcome: Outcome, policy: RetryPolicy, start: int, n: nat)
    requires TurnsInSettings(turns, outcome, policy, start) && outcome.ChecksFailed? && !policy.disabled
    requires policy.maxRetries == Some(n) && policy.timeout == 0
    ensures |turns| == n + 1
  {
    if |turns| > 1 {
      assert RepeatedBy(turns, |turns| - 2, policy, start);
    }
  }

  /** The check fails in this run of the canary, however often it is attempted. */
  ghost predicate FailsAlways(produce: Producer, k: nat, check: nat) {
    forall n :: Fails(produce(k, check, n))
  }

  /** A check that fails whenever it runs fails its canary, whatever the check's own retries are. */
  lemma {:induction false} FailsItsCanary(turn: Turn, k: nat, canary: EmbeddedCanary, produce: Producer,
                                          lookupFails: nat -> bool, check: nat)
    requires Ran(turn, k, canary, produce, lookupFails) && check < |canary.checks|
    requires canary.checks[check].checker.single && FailsAlways(produce, k, check)
    ensures Failed(turn)
  {
    if !turn.lookupFailed {
      var c := turn.ran[check];
      assert RanCheck(c, canary, check, produce, k);
      FailingCheckFails(c.history, c.results, c.skipped, canary.checks[check].checker, canary.retries,
                        canary.checks[check].retries, AttemptsOf(produce, k, check), c.began);
    }
  }

  /**
   With a number of retries set and no timeout, a canary with a check that fails whenever it runs is run that many times
   more than once and then fails, as long as its context lasts.
   */
  lemma {:induction false} TurnsExactly(turns: seq<Turn>, outcome: Outcome, policy: RetryPolicy, start: int, n: nat,
                                        canary: EmbeddedCanary, produce: Producer, lookupFails: nat -> bool,
                                        check: nat)
    requires policy.Sound() && CanaryRan(turns, outcome, policy, start, canary, produce, lookupFails)
    requires !outcome.PauseCancelled? && !policy.disabled && policy.maxRetries == Some(n) && policy.timeout == 0
    requires check < |canary.checks| && canary.checks[check].checker.single
    requires forall k {:trigger FailsAlways(produce, k, check)} :: FailsAlways(produce, k, check)
    ensures outcome.ChecksFailed? && |turns| == n + 1
  {
    var last := |turns| - 1;
    assert Ran(turns[last], last, canary, produce, lookupFails);
    assert FailsAlways(produce, last, check);
    FailsItsCanary(turns[last], last, canary, produce, lookupFails, check);
    RanInSettings(turns, outcome, policy, start, canary, produce, lookupFails);
    TurnsSpent(turns, outcome, policy, start, n);
  }

  // ---------------------------------------------------------------- all embedded canaries

  /** The messages shown for the checks of a list of results; a later result of the same name wins. */
  function Display(shown: map<string, string>, results: Results): map<string, string> {
    if results == [] then shown
    else Display(shown, results[..|results| - 1])[results[|results| - 1].name := results[|results| - 1].message]
  }

  method AddDisplay(shown: map<string, string>, results: Results) returns (display: map<string, string>)
    ensures display == Display(shown, results)
  {
    display := shown;
    for i := 0 to |results|
      invariant display == Display(shown, results[..i])
    {
      assert results[..i + 1][..i] == results[..i];
      display := display[results[i].name := results[i].message];
    }
    assert results[..|results|] == results;
  }

  /** The last result of its name. */
  ghost predicate LastOfName(results: Results, k: nat) {
    k < |results| && forall m {:trigger results[m]} :: k < m < |results| ==> results[m].name != results[k].name
  }

  /** Exactly the names of results are shown, each with the message of the last result of that name. */
  ghost predicate ShowsMessages(results: Results, display: map<string, string>) {
    && (forall name :: name in display ==> exists k :: 0 <= k < |results| && results[k].name == name)
    && (forall k {:trigger LastOfName(results, k)} :: 0 <= k < |results| && LastOfName(results, k) ==>
         results[k].name in display && display[results[k].name] == results[k].message)
  }

  lemma StillLast(results: Results, r: CheckResult, k: nat)
    requires k < |results| && LastOfName(results + [r], k)
    ensures LastOfName(results, k) && results[k].name != r.name
  {
    var longer := results + [r];
    assert longer[|results|] == r && longer[k] == results[k];
    forall m {:trigger results[m]} | k < m < |results|
      ensures results[m].name != results[k].name
    {
      assert longer[m] == results[m];
    }
  }

  lemma NamesNext(results: Results, display: map<string, string>, r: CheckResult, name: string)
    requires name in display ==> exists k :: 0 <= k < |results| && results[k].name == name
    requires name in display || name == r.name
    ensures exists k :: 0 <= k < |results + [r]| && (results + [r])[k].name == name
  {
    var longer := results + [r];
    if name in display {
      var k :| 0 <= k < |results| && results[k].name == name;
      assert longer[k].name == name;
    } else {
      assert longer[|results|].name == name;
    }
  }

  lemma ShowsNext(results: Results, display: map<string, string>, r: CheckResult)
    requires ShowsMessages(results, display)
    ensures ShowsMessages(results + [r], display[r.name := r.message])
  {
    var longer, display' := results + [r], display[r.name := r.message];
    forall name | name in display'
      ensures exists k :: 0 <= k < |longer| && longer[k].name == name
    {
      NamesNext(results, display, r, name);
    }
    forall k {:trigger LastOfName(longer, k)} | 0 <= k < |longer| && LastOfName(longer, k)
      ensures longer[k].name in display' && display'[longer[k].name] == longer[k].message
    {
      if k < |results| {
        StillLast(results, r, k);
      }
    }
  }

  lemma {:induction false} DisplayMeans(results: Results)
    ensures ShowsMessages(results, Display(map[], results))
  {
    if results != [] {
      var last := |results| - 1;
      DisplayMeans(results[..last]);
      ShowsNext(results[..last], Display(map[], results[..last]), results[last]);
      SplitLast(results);
    }
  }

  /** The display is made of the results of all checks of all canaries in their last turns, one after the other. */
  ghost predicate Displays(runs: seq<CanaryRun>, display: map<string, string>) {
    exists parts: seq<Results>, shown: Results ::
      |parts| == |runs| && Concatenated(parts, shown) && ShowsMessages(shown, display) && LastParts(runs, parts)
  }

  /** For each canary the results of the checks in its last turn, one after the other. */
  ghost predicate LastParts(runs: seq<CanaryRun>, parts: seq<Results>)
    requires |parts| == |runs|
  {
    forall c {:trigger parts[c]} :: 0 <= c < |runs| ==>
      if runs[c].turns == [] then parts[c] == []
      else Concatenated(ResultsOf(runs[c].turns[|runs[c].turns| - 1].ran), parts[c])
  }

  lemma LastPartsNext(runs: seq<CanaryRun>, parts: seq<Results>, run: CanaryRun, part: Results)
    requires |parts| == |runs| && LastParts(runs, parts)
    requires if run.turns == [] then part == []
             else Concatenated(ResultsOf(run.turns[|run.turns| - 1].ran), part)
    ensures LastParts(runs + [run], parts + [part])
  {
    var runs', parts' := runs + [run], parts + [part];
    forall c {:trigger parts'[c]} | 0 <= c < |runs'|
      ensures if runs'[c].turns == [] then parts'[c] == []
              else Concatenated(ResultsOf(runs'[c].turns[|runs'[c].turns| - 1].ran), parts'[c])
    {
      assert c < |runs| ==> parts'[c] == parts[c] && runs'[c] == runs[c];
    }
  }

  lemma {:induction false} LastResultsJoin(runs: seq<CanaryRun>) returns (parts: seq<Results>)
    ensures |parts| == |runs| && Concatenated(parts, LastResults(runs)) && LastParts(runs, parts)
  {
    if runs == [] {
      parts := [];
      NothingConcatenated<CheckResult>();
    } else {
      var last := |runs| - 1;
      var before := LastResultsJoin(runs[..last]);
      var turns := runs[last].turns;
      var part := if turns == [] then [] else AllResults(turns[|turns| - 1].ran);
      if turns != [] {
        AllResultsJoin(turns[|turns| - 1].ran);
      }
      parts := before + [part];
      OneMoreConcatenated(before, LastResults(runs[..last]), part);
      LastPartsNext(runs[..last], before, runs[last], part);
      SplitLast(runs);
    }
  }

  lemma LastResultsShown(runs: seq<CanaryRun>)
    ensures Displays(runs, Display(map[], LastResults(runs)))
  {
    var parts := LastResultsJoin(runs);
    DisplayMeans(LastResults(runs));
  }

  /** The loop around one embedded canary, as it went. */
  datatype CanaryRun = CanaryRun(began: int, start: int, turns: seq<Turn>, outcome: Outcome)

  /** The canary was run as the outer policy says, after the policy's delay. */
  ghost predicate RanCanary(c: CanaryRun, policy: RetryPolicy, canary: EmbeddedCanary, produce: Producer,
                            lookupFails: nat -> bool)
  {
    && canary.templates
    && CanaryRan(c.turns, c.outcome, policy, c.start, canary, produce, lookupFails)
    && (!policy.disabled ==> c.began + policy.delay <= c.start)
  }

  function LookupOf(lookupFails: (nat, nat) -> bool, canary: nat): nat -> bool {
    (run: nat) => lookupFails(canary, run)
  }

  ghost predicate Passed(run: CanaryRun) {
    run.outcome.Succeeded?
  }

  /** The first canaries were run, and all but the last of these passed. */
  ghost predicate RanCanaries(runs: seq<CanaryRun>, policy: RetryPolicy, canaries: seq<EmbeddedCanary>,
                              produce: nat -> Producer, lookupFails: (nat, nat) -> bool)
  {
    && |runs| <= |canaries|
    && (runs != [] ==>
      var last := |runs| - 1;
      && RanCanaries(runs[..last], policy, canaries, produce, lookupFails)
      && (last > 0 ==> Passed(runs[last - 1]))
      && RanCanary(runs[last], policy, canaries[last], produce(last), LookupOf(lookupFails, last)))
  }

  lemma {:induction false} RanCanaryAt(runs: seq<CanaryRun>, policy: RetryPolicy, canaries: seq<EmbeddedCanary>,
                                       produce: nat -> Producer, lookupFails: (nat, nat) -> bool, c: nat)
    requires c < |runs| && RanCanaries(runs, policy, canaries, produce, lookupFails)
    ensures RanCanary(runs[c], policy, canaries[c], produce(c), LookupOf(lookupFails, c))
    ensures c < |runs| - 1 ==> Passed(runs[c])
  {
    if c < |runs| - 1 {
      RanCanaryAt(runs[..|runs| - 1], policy, canaries, produce, lookupFails, c);
    }
  }

  /** A canary that passed did so in a turn in which every one of its checks ran and every result passed. */
  lemma PassedMeansAllRan(run: CanaryRun, policy: RetryPolicy, canary: EmbeddedCanary, produce: Producer,
                          lookupFails: nat -> bool)
    requires RanCanary(run, policy, canary, produce, lookupFails) && Passed(run)
    ensures var k := |run.turns| - 1;
      && k >= 0 && !lookupFails(k) && |run.turns[k].ran| == |canary.checks|
      && (forall i, j :: 0 <= i < |canary.checks| && 0 <= j < |run.turns[k].ran[i].results| ==>
           run.turns[k].ran[i].results[j].pass)
      && forall i :: 0 <= i < |canary.checks| ==> RanCheck(run.turns[k].ran[i], canary, i, produce, k)
  {
    var k := |run.turns| - 1;
    assert Ran(run.turns[k], k, canary, produce, lookupFails);
  }

  /** The results of the last turns of all canaries. */
  ghost function LastResults(runs: seq<CanaryRun>): Results {
    if runs == [] then []
    else
      var turns := runs[|runs| - 1].turns;
      LastResults(runs[..|runs| - 1]) + if turns == [] then [] else AllResults(turns[|turns| - 1].ran)
  }

  /** A sound policy that the two levels of settings stand for, also when retries are disabled. */
  ghost predicate OuterPolicy(policy: RetryPolicy, defaults: Option<CheckRetries>, override: Option<CheckRetries>) {
    && policy.Sound() && AcceptedTogether(defaults, override)
    && policy.AttemptBound() == SettingsBound(defaults, override)
    && if policy.disabled then DisabledTogether(defaults, override) else MergedPolicy(policy, defaults, override)
  }

  /** Where and why it ended: with the canary after the last that passed, or with none left. */
  ghost predicate EmbeddedEnded(outcome: Outcome, runs: seq<CanaryRun>, policy: RetryPolicy,
                                canaries: seq<EmbeddedCanary>)
  {
    match outcome
    case Succeeded(display) =>
      |runs| == |canaries| && (runs != [] ==> Passed(runs[|runs| - 1])) && display == Display(map[], LastResults(runs))
    case InvalidPolicy => runs == []
    case TemplatingFailed =>
      |runs| < |canaries| && !canaries[|runs|].templates && (runs != [] ==> Passed(runs[|runs| - 1]))
    case DelayCancelled =>
      && |runs| < |canaries| && canaries[|runs|].templates && (runs != [] ==> Passed(runs[|runs| - 1]))
      && !policy.disabled && policy.delay > 0
    case ChecksFailed => runs != [] && runs[|runs| - 1].outcome.ChecksFailed?
    case PauseCancelled => runs != [] && runs[|runs| - 1].outcome.PauseCancelled?
  }

  /** What one canary came to: it could not be templated, or its delay was broken off, or else its loop ran. */
  ghost predicate CanaryEnded(outcome: Outcome, display: map<string, string>, display': map<string, string>,
                              run: Option<CanaryRun>, policy: RetryPolicy, canary: EmbeddedCanary, produce: Producer,
                              lookupFails: nat -> bool)
  {
    match run
    case None =>
      if canary.templates then outcome.DelayCancelled? && !policy.disabled && policy.delay > 0
      else outcome.TemplatingFailed?
    case Some(c) =>
      && RanCanary(c, policy, canary, produce, lookupFails) && c.outcome == outcome
      && (outcome.Succeeded? ==> display' == Display(display, AllResults(c.turns[|c.turns| - 1].ran)))
  }

  /** One canary: its templates, the delay, and the loop; on success its messages are added to the display. */
  method RunCanary(clock: Clock, policy: RetryPolicy, canary: EmbeddedCanary, produce: Producer,
                   lookupFails: nat -> bool, display: map<string, string>)
    returns (outcome: Outcome, display': map<string, string>, ghost run: Option<CanaryRun>)
    requires policy.Sound()
    modifies clock
    ensures CanaryEnded(outcome, display, display', run, policy, canary, produce, lookupFails)
  {
    run, display' := None, display;
    if !canary.templates {
      return TemplatingFailed, display', run;
    }
    ghost var began := clock.now;
    if !policy.disabled && policy.delay > 0 {
      var cancelled := clock.Sleep(policy.delay);
      if cancelled {
        return DelayCancelled, display', run;
      }
    }
    var last;
    ghost var start, turns;
    outcome, last, start, turns := RunUntilPassing(clock, policy, canary, produce, lookupFails);
    run := Some(CanaryRun(began, start, turns, outcome));
    if outcome.Succeeded? {
      display' := AddDisplay(display, last);
    }
  }

  /** One more canary, after those before it have passed. */
  lemma RanNext(runs: seq<CanaryRun>, c: CanaryRun, policy: RetryPolicy, canaries: seq<EmbeddedCanary>,
                produce: nat -> Producer, lookupFails: (nat, nat) -> bool)
    requires |runs| < |canaries| && RanCanaries(runs, policy, canaries, produce, lookupFails)
    requires runs != [] ==> Passed(runs[|runs| - 1])
    requires RanCanary(c, policy, canaries[|runs|], produce(|runs|), LookupOf(lookupFails, |runs|))
    ensures RanCanaries(runs + [c], policy, canaries, produce, lookupFails)
  {
    assert (runs + [c])[..|runs|] == runs;
  }

  lemma DisplayNext(runs: seq<CanaryRun>, c: CanaryRun)
    requires c.turns != []
    ensures Display(map[], LastResults(runs + [c]))
         == Display(Display(map[], LastResults(runs)), AllResults(c.turns[|c.turns| - 1].ran))
  {
    assert (runs + [c])[..|runs|] == runs;
    DisplayAppends(map[], LastResults(runs), AllResults(c.turns[|c.turns| - 1].ran));
  }

  /**
   The embedded part of a kubernetesResource check. The canaries are run one after the other, each until all results of
   all its checks pass, and it ends with the first one that cannot be brought to pass.
   */
  method RunEmbedded(clock: Clock, defaults: Option<CheckRetries>, override: Option<CheckRetries>,
                     canaries: seq<EmbeddedCanary>, produce: nat -> Producer, lookupFails: (nat, nat) -> bool)
    returns (outcome: Outcome, ghost policy: RetryPolicy, ghost runs: seq<CanaryRun>)
    modifies clock
    ensures outcome.InvalidPolicy? <==> !AcceptedTogether(defaults, override)
    ensures !outcome.InvalidPolicy? ==> OuterPolicy(policy, defaults, override)
    ensures RanCanaries(runs, policy, canaries, produce, lookupFails)
    ensures EmbeddedEnded(outcome, runs, policy, canaries)
    ensures outcome.Succeeded? ==>
      AllPassed(runs, policy, canaries, produce, lookupFails) && Displays(runs, outcome.display)
  {
    runs, policy := [], RetryPolicy(false, false, 0, 0, 0, None);
    var merged := MergeCheckRetries(defaults, override);
    var accepted := NewRetryPolicy(merged);
    if accepted.Err? {
      return InvalidPolicy, policy, runs;
    }
    var outer := accepted.value;
    policy := outer;
    assert !outer.disabled ==> MergedPolicy(outer, defaults, override);
    outcome, runs := RunCanaries(clock, outer, canaries, produce, lookupFails);
    if outcome.Succeeded? {
      SuccessMeansAllPassed(runs, policy, canaries, produce, lookupFails);
      LastResultsShown(runs);
    }
  }

  /** Every canary was run, after the delay, until a turn in which all of its results passed. */
  ghost predicate AllPassed(runs: seq<CanaryRun>, policy: RetryPolicy, canaries: seq<EmbeddedCanary>,
                            produce: nat -> Producer, lookupFails: (nat, nat) -> bool)
  {
    && |runs| == |canaries|
    && forall c {:trigger RanAndPassed(runs[c], policy, canaries[c], produce(c), LookupOf(lookupFails, c))} ::
      0 <= c < |runs| ==> RanAndPassed(runs[c], policy, canaries[c], produce(c), LookupOf(lookupFails, c))
  }

  ghost predicate RanAndPassed(run: CanaryRun, policy: RetryPolicy, canary: EmbeddedCanary, produce: Producer,
                               lookupFails: nat -> bool)
  {
    RanCanary(run, policy, canary, produce, lookupFails) && Passed(run)
  }

  lemma {:induction false} SuccessMeansAllPassed(runs: seq<CanaryRun>, policy: RetryPolicy,
                                                 canaries: seq<EmbeddedCanary>, produce: nat -> Producer,
                                                 lookupFails: (nat, nat) -> bool)
    requires RanCanaries(runs, policy, canaries, produce, lookupFails)
    requires |runs| == |canaries| && (runs != [] ==> Passed(runs[|runs| - 1]))
    ensures AllPassed(runs, policy, canaries, produce, lookupFails)
  {
    forall c | 0 <= c < |runs|
      ensures RanAndPassed(runs[c], policy, canaries[c], produce(c), LookupOf(lookupFails, c))
    {
      RanCanaryAt(runs, policy, canaries, produce, lookupFails, c);
    }
  }

  /** All canaries run so far have passed, and these are the messages. */
  ghost predicate SoFar(runs: seq<CanaryRun>, display: map<string, string>, policy: RetryPolicy,
                        canaries: seq<EmbeddedCanary>, produce: nat -> Producer, lookupFails: (nat, nat) -> bool)
  {
    && RanCanaries(runs, policy, canaries, produce, lookupFails) && (runs != [] ==> Passed(runs[|runs| - 1]))
    && display == Display(map[], LastResults(runs))
  }

  /** The next canary has passed too, or it has all ended there. */
  ghost predicate NextEnded(outcome: Outcome, runs: seq<CanaryRun>, n: nat, display: map<string, string>,
                            policy: RetryPolicy, canaries: seq<EmbeddedCanary>, produce: nat -> Producer,
                            lookupFails: (nat, nat) -> bool)
  {
    if outcome.Succeeded? then |runs| == n && SoFar(runs, display, policy, canaries, produce, lookupFails)
    else
      && !outcome.InvalidPolicy? && RanCanaries(runs, policy, canaries, produce, lookupFails)
      && EmbeddedEnded(outcome, runs, policy, canaries)
  }

  lemma {:induction false} NextPassed(runs: seq<CanaryRun>, display: map<string, string>, policy: RetryPolicy,
                                      canaries: seq<EmbeddedCanary>, produce: nat -> Producer,
                                      lookupFails: (nat, nat) -> bool, run: CanaryRun)
    requires |runs| < |canaries| && SoFar(runs, display, policy, canaries, produce, lookupFails)
    requires RanCanary(run, policy, canaries[|runs|], produce(|runs|), LookupOf(lookupFails, |runs|)) && Passed(run)
    ensures SoFar(runs + [run], Display(display, AllResults(run.turns[|run.turns| - 1].ran)), policy, canaries, produce,
                  lookupFails)
  {
    RanNext(runs, run, policy, canaries, produce, lookupFails);
    DisplayNext(runs, run);
  }

  /** The canary whose loop did not succeed is the last one. */
  lemma LastEnds(runs: seq<CanaryRun>, run: CanaryRun, policy: RetryPolicy, canaries: seq<EmbeddedCanary>)
    requires run.outcome.ChecksFailed? || run.outcome.PauseCancelled?
    ensures EmbeddedEnded(run.outcome, runs + [run], policy, canaries)
  {
  }

  function WithRun(runs: seq<CanaryRun>, run: Option<CanaryRun>): seq<CanaryRun> {
    if run.Some? then runs + [run.value] else runs
  }

  lemma NextMissing(outcome: Outcome, display: map<string, string>, display': map<string, string>,
                    run: Option<CanaryRun>, policy: RetryPolicy, canaries: seq<EmbeddedCanary>,
                    produce: nat -> Producer, lookupFails: (nat, nat) -> bool, runs: seq<CanaryRun>)
    requires |runs| < |canaries| && SoFar(runs, display, policy, canaries, produce, lookupFails) && run.None?
    requires CanaryEnded(outcome, display, display', run, policy, canaries[|runs|], produce(|runs|),
                         LookupOf(lookupFails, |runs|))
    ensures NextEnded(outcome, WithRun(runs, run), |runs| + 1, display', policy, canaries, produce, lookupFails)
  {
  }

  lemma {:induction false} NextFailed(outcome: Outcome, display: map<string, string>, display': map<string, string>,
                                      run: Option<CanaryRun>, policy: RetryPolicy, canaries: seq<EmbeddedCanary>,
                                      produce: nat -> Producer, lookupFails: (nat, nat) -> bool, runs: seq<CanaryRun>)
    requires |runs| < |canaries| && SoFar(runs, display, policy, canaries, produce, lookupFails) && run.Some?
    requires CanaryEnded(outcome, display, display', run, policy, canaries[|runs|], produce(|runs|),
                         LookupOf(lookupFails, |runs|))
    ensures !outcome.Succeeded? ==>
      NextEnded(outcome, WithRun(runs, run), |runs| + 1, display', policy, canaries, produce, lookupFails)
  {
    if !outcome.Succeeded? {
      RanNext(runs, run.value, policy, canaries, produce, lookupFails);
      LastEnds(runs, run.value, policy, canaries);
    }
  }

  lemma {:induction false} NextSucceeded(outcome: Outcome, display: map<string, string>,
                                         display': map<string, string>, run: Option<CanaryRun>, policy: RetryPolicy,
                                         canaries: seq<EmbeddedCanary>, produce: nat -> Producer,
                                         lookupFails: (nat, nat) -> bool, runs: seq<CanaryRun>)
    requires |runs| < |canaries| && SoFar(runs, display, policy, canaries, produce, lookupFails) && run.Some?
    requires CanaryEnded(outcome, display, display', run, policy, canaries[|runs|], produce(|runs|),
                         LookupOf(lookupFails, |runs|))
    ensures outcome.Succeeded? ==>
      NextEnded(outcome, WithRun(runs, run), |runs| + 1, display', policy, canaries, produce, lookupFails)
  {
    if outcome.Succeeded? {
      NextPassed(runs, display, policy, canaries, produce, lookupFails, run.value);
    }
  }

  /** What the next canary came to, on top of those before it. */
  lemma {:induction false} NextIs(outcome: Outcome, display: map<string, string>, display': map<string, string>,
                                  run: Option<CanaryRun>, policy: RetryPolicy, canaries: seq<EmbeddedCanary>,
                                  produce: nat -> Producer, lookupFails: (nat, nat) -> bool, runs: seq<CanaryRun>)
    requires |runs| < |canaries| && SoFar(runs, display, policy, canaries, produce, lookupFails)
    requires CanaryEnded(outcome, display, display', run, policy, canaries[|runs|], produce(|runs|),
                         LookupOf(lookupFails, |runs|))
    ensures NextEnded(outcome, WithRun(runs, run), |runs| + 1, display', policy, canaries, produce, lookupFails)
  {
    if run.None? {
      NextMissing(outcome, display, display', run, policy, canaries, produce, lookupFails, runs);
    } else {
      NextSucceeded(outcome, display, display', run, policy, canaries, produce, lookupFails, runs);
      NextFailed(outcome, display, display', run, policy, canaries, produce, lookupFails, runs);
    }
  }

  /** The next canary, when all before it have passed. */
  method RunNext(clock: Clock, policy: RetryPolicy, canaries: seq<EmbeddedCanary>, c: nat, produce: nat -> Producer,
                 lookupFails: (nat, nat) -> bool, display: map<string, string>, ghost runs: seq<CanaryRun>)
    returns (outcome: Outcome, display': map<string, string>, ghost runs': seq<CanaryRun>)
    requires policy.Sound() && |runs| == c < |canaries| && SoFar(runs, display, policy, canaries, produce, lookupFails)
    modifies clock
    ensures NextEnded(outcome, runs', c + 1, display', policy, canaries, produce, lookupFails)
  {
    ghost var run;
    outcome, display', run := RunCanary(clock, policy, canaries[c], produce(c), LookupOf(lookupFails, c), display);
    NextIs(outcome, display, display', run, policy, canaries, produce, lookupFails, runs);
    runs' := WithRun(runs, run);
  }

  method RunCanaries(clock: Clock, policy: RetryPolicy, canaries: seq<EmbeddedCanary>, produce: nat -> Producer,
                     lookupFails: (nat, nat) -> bool)
    returns (outcome: Outcome, ghost runs: seq<CanaryRun>)
    requires policy.Sound()
    modifies clock
    ensures !outcome.InvalidPolicy?
    ensures RanCanaries(runs, policy, canaries, produce, lookupFails)
    ensures EmbeddedEnded(outcome, runs, policy, canaries)
  {
    runs := [];
    var display: map<string, string> := map[];
    for c := 0 to |canaries|
      invariant |runs| == c && SoFar(runs, display, policy, canaries, produce, lookupFails)
    {
      outcome, display, runs := RunNext(clock, policy, canaries, c, produce, lookupFails, display, runs);
      if !outcome.Succeeded? {
        return;
      }
    }
    outcome := Succeeded(display);
  }

  lemma {:induction false} DisplayAppends(shown: map<string, string>, a: Results, b: Results)
    ensures Display(shown, a + b) == Display(Display(shown, a), b)
  {
    if b == [] {
      assert a + b == a;
    } else {
      assert (a + b)[..|a + b| - 1] == a + b[..|b| - 1];
      DisplayAppends(shown, a, b[..|b| - 1]);
    }
  }
}
