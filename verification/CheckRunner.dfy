/**
 One run of a canary's checks: in dependency order when any check declares `dependsOn`,
 otherwise grouped by checker type.

 What one check does (with all its retries) is the parameter `attempt`: its result may depend on the
 check, on the outputs it can see, and, through its last argument, on anything that differs
 from one execution to the next.
 */
module CheckRunner {
  import opened Common
  import opened DependencySort
  import opened Sequences

  datatype CheckResult = CheckResult(pass: bool, detail: string)
  datatype Attempt = Attempt(results: seq<CheckResult>, skipped: nat)
  type Outputs = map<string, CheckResult>
  type Attempter = (Check, Outputs, nat) -> Attempt

  /** One execution of a check and the outputs that were visible to it. */
  datatype Execution = Execution(check: Check, visible: Outputs, results: seq<CheckResult>, skipped: nat)

  datatype DeletionLookup = StillLive | Deleted | LookupFailed

  datatype JunitTest = JunitTest(passed: bool, detail: string)

  /** What a run reports: its results, or all of them as the tests of one result. */
  datatype Report =
    | Each(results: seq<CheckResult>)
    | Combined(pass: bool, tests: seq<JunitTest>, passed: int, failed: int)

  datatype RunOutcome =
    | Completed(report: Report, skipped: nat)
    | CanaryDeleted
    | DisabledChecksUnknown
    | CanaryUnknown
    | SortFailed(reason: SortOutcome)

  /** The context of a run; `environment` is what templates see under "outputs". */
  class Context {
    var outputs: Outputs
    var environment: Outputs

    constructor ()
      ensures outputs == map[] && environment == map[]
    {
      outputs := map[];
      environment := map[];
    }

    method SetOutput(name: string, result: CheckResult)
      modifies this`outputs
      ensures outputs == old(outputs)[name := result]
    {
      outputs := outputs[name := result];
    }
  }

  // ---------------------------------------------------------------- which checks a run covers

  predicate IsRunnable(c: Check, registry: seq<string>, disabled: set<string>) {
    c.kind in registry && c.kind !in disabled
  }

  function Runnable(checks: seq<Check>, registry: seq<string>, disabled: set<string>): (r: seq<Check>)
    ensures forall c :: c in r <==> c in checks && IsRunnable(c, registry, disabled)
  {
    if checks == [] then []
    else
      var first := if IsRunnable(checks[0], registry, disabled) then [checks[0]] else [];
      first + Runnable(checks[1..], registry, disabled)
  }

  lemma {:induction false} RunnableSnoc(checks: seq<Check>, c: Check, registry: seq<string>, disabled: set<string>)
    ensures Runnable(checks + [c], registry, disabled)
         == Runnable(checks, registry, disabled) + if IsRunnable(c, registry, disabled) then [c] else []
  {
    if checks == [] {
      assert checks + [c] == [c];
    } else {
      assert (checks + [c])[1..] == checks[1..] + [c];
      RunnableSnoc(checks[1..], c, registry, disabled);
    }
  }

  lemma {:induction false} RunnableCount(checks: seq<Check>, registry: seq<string>, disabled: set<string>, c: Check)
    ensures multiset(Runnable(checks, registry, disabled))[c]
         == if IsRunnable(c, registry, disabled) then multiset(checks)[c] else 0
  {
    if checks != [] {
      assert checks == [checks[0]] + checks[1..];
      RunnableCount(checks[1..], registry, disabled, c);
    }
  }

  lemma RunnablePermutation(a: seq<Check>, b: seq<Check>, registry: seq<string>, disabled: set<string>)
    requires multiset(a) == multiset(b)
    ensures multiset(Runnable(a, registry, disabled)) == multiset(Runnable(b, registry, disabled))
  {
    forall c
      ensures multiset(Runnable(a, registry, disabled))[c] == multiset(Runnable(b, registry, disabled))[c]
    {
      RunnableCount(a, registry, disabled, c);
      RunnableCount(b, registry, disabled, c);
    }
  }

  function OfType(checks: seq<Check>, kind: string): seq<Check> {
    Runnable(checks, [kind], {})
  }

  /** Checks grouped by type, in the order of the checker registry. */
  function Grouped(checks: seq<Check>, registry: seq<string>, disabled: set<string>): seq<Check> {
    if registry == [] then []
    else
      var kind := registry[|registry| - 1];
      Grouped(checks, registry[..|registry| - 1], disabled) + if kind in disabled then [] else OfType(checks, kind)
  }

  /** Grouping loses and repeats nothing, provided that no type is registered twice. */
  lemma {:induction false} GroupedIsRunnable(checks: seq<Check>, registry: seq<string>, disabled: set<string>)
    requires Distinct(registry)
    ensures multiset(Grouped(checks, registry, disabled)) == multiset(Runnable(checks, registry, disabled))
  {
    forall c
      ensures multiset(Grouped(checks, registry, disabled))[c] == multiset(Runnable(checks, registry, disabled))[c]
    {
      GroupedCount(checks, registry, disabled, c);
      RunnableCount(checks, registry, disabled, c);
    }
  }

  lemma {:induction false} GroupedCount(checks: seq<Check>, registry: seq<string>, disabled: set<string>, c: Check)
    requires Distinct(registry)
    ensures multiset(Grouped(checks, registry, disabled))[c]
         == if IsRunnable(c, registry, disabled) then multiset(checks)[c] else 0
  {
    if registry != [] {
      var front, kind := registry[..|registry| - 1], registry[|registry| - 1];
      GroupedCount(checks, front, disabled, c);
      RunnableCount(checks, [kind], {}, c);
      assert registry == front + [kind];
    }
  }

  // ---------------------------------------------------------------- what a run publishes

  /** Publishing after an execution: a named check whose first result passed. */
  predicate Publishes(e: Execution) {
    e.check.name != "" && e.results != [] && e.results[0].pass
  }

  function Published(initial: Outputs, trace: seq<Execution>): Outputs {
    if trace == [] then initial
    else
      var before := Published(initial, trace[..|trace| - 1]);
      var e := trace[|trace| - 1];
      if Publishes(e) then before[e.check.name := e.results[0]] else before
  }

  /** The results of every execution. */
  function ResultsOf(trace: seq<Execution>): (all: seq<seq<CheckResult>>)
    ensures |all| == |trace| && forall t :: 0 <= t < |trace| ==> all[t] == trace[t].results
  {
    seq(|trace|, t requires 0 <= t < |trace| => trace[t].results)
  }

  function SkipsOf(trace: seq<Execution>): (all: seq<int>)
    ensures |all| == |trace| && forall t :: 0 <= t < |trace| ==> all[t] == trace[t].skipped
  {
    seq(|trace|, t requires 0 <= t < |trace| => trace[t].skipped)
  }

  function Executed(trace: seq<Execution>): (checks: seq<Check>)
    ensures |checks| == |trace|
    ensures forall t :: 0 <= t < |trace| ==> checks[t] == trace[t].check
  {
    seq(|trace|, t requires 0 <= t < |trace| => trace[t].check)
  }

  /**
   The outputs are exactly the first results of the executions of a named check whose first result passed, under the
   names of their checks.
   */
  ghost predicate AllPublished(outputs: Outputs, trace: seq<Execution>) {
    && (forall t {:trigger trace[t]} ::
         0 <= t < |trace| && trace[t].check.name != "" && trace[t].results != [] && trace[t].results[0].pass ==>
           trace[t].check.name in outputs && outputs[trace[t].check.name] == trace[t].results[0])
    && forall name :: name in outputs ==>
         exists t :: 0 <= t < |trace| && trace[t].check.name == name != "" && trace[t].results != []
                     && trace[t].results[0].pass
  }

  /** When no name is executed twice, later executions overwrite nothing that earlier ones have published. */
  lemma {:induction false} PublishedExactly(trace: seq<Execution>)
    requires UniqueNames(Executed(trace))
    ensures AllPublished(Published(map[], trace), trace)
  {
    if trace != [] {
      var front := trace[..|trace| - 1];
      forall i, j | 0 <= i < j < |front| && Executed(front)[i].name != ""
        ensures Executed(front)[i].name != Executed(front)[j].name
      {
        assert Executed(trace)[i] == Executed(front)[i] && Executed(trace)[j] == Executed(front)[j];
      }
      PublishedExactly(front);
      PublishedSnoc(front, trace[|front|]);
      assert trace == front + [trace[|front|]];
    }
  }

  lemma {:induction false} PublishedSnoc(front: seq<Execution>, e: Execution)
    requires AllPublished(Published(map[], front), front)
    requires forall t :: 0 <= t < |front| && front[t].check.name != "" ==> front[t].check.name != e.check.name
    ensures AllPublished(Published(map[], front + [e]), front + [e])
  {
    var trace, before := front + [e], Published(map[], front);
    assert trace[..|front|] == front && trace[|front|] == e;
    var outputs := Published(map[], trace);
    assert outputs == if Publishes(e) then before[e.check.name := e.results[0]] else before;
    forall t {:trigger trace[t]}
      | 0 <= t < |trace| && trace[t].check.name != "" && trace[t].results != [] && trace[t].results[0].pass
      ensures trace[t].check.name in outputs && outputs[trace[t].check.name] == trace[t].results[0]
    {
      if t < |front| {
        assert trace[t] == front[t];
      }
    }
    forall name | name in outputs
      ensures exists t :: 0 <= t < |trace| && trace[t].check.name == name != "" && trace[t].results != []
                          && trace[t].results[0].pass
    {
      if name !in before {
        assert trace[|front|].check.name == name;
      } else {
        var t :| 0 <= t < |front| && front[t].check.name == name != "" && front[t].results != []
                 && front[t].results[0].pass;
        assert trace[t] == front[t];
      }
    }
  }

  lemma {:induction false} NamedOnce(checks: seq<Check>, c: Check)
    requires UniqueNames(checks) && c.name != ""
    ensures multiset(checks)[c] <= 1
  {
    if checks != [] {
      assert checks == [checks[0]] + checks[1..];
      NamedOnce(checks[1..], c);
      assert checks[0] == c ==> c !in checks[1..];
    }
  }

  lemma RepeatedTwice(checks: seq<Check>, i: nat, j: nat)
    requires i < j < |checks| && checks[i] == checks[j]
    ensures multiset(checks)[checks[i]] >= 2
  {
    assert checks == checks[..j] + [checks[j]] + checks[j + 1..];
    assert checks[i] in checks[..j];
  }

  /** A run that covers what it should, each check once, repeats no name. */
  lemma NamesStayUnique(covered: seq<Check>, checks: seq<Check>, registry: seq<string>, disabled: set<string>)
    requires UniqueNames(checks) && multiset(covered) == multiset(Runnable(checks, registry, disabled))
    ensures UniqueNames(covered)
  {
    forall i, j | 0 <= i < j < |covered| && covered[i].name != ""
      ensures covered[i].name != covered[j].name
    {
      if covered[i].name == covered[j].name {
        assert covered[i] in multiset(covered) && covered[j] in multiset(covered);
        SameNameSameCheck(checks, covered[i], covered[j]);
        RepeatedTwice(covered, i, j);
        RunnableCount(checks, registry, disabled, covered[i]);
        NamedOnce(checks, covered[i]);
      }
    }
  }

  /** The execution produced what its check produces as the n-th execution under what it could see. */
  predicate Performed(e: Execution, attempt: Attempter, n: nat) {
    attempt(e.check, e.visible, n) == Attempt(e.results, e.skipped)
  }

  ghost predicate Faithful(trace: seq<Execution>, attempt: Attempter) {
    forall t :: 0 <= t < |trace| ==> Performed(trace[t], attempt, t)
  }

  /** In a dependency-ordered run every execution sees exactly what was published before it. */
  ghost predicate SeesPublished(trace: seq<Execution>) {
    forall t :: 0 <= t < |trace| ==> trace[t].visible == Published(map[], trace[..t])
  }

  /** Whatever a check depends on, if the run covers it at all, has been executed before the check. */
  ghost predicate DependenciesExecutedFirst(trace: seq<Execution>, covered: seq<Check>) {
    forall t, d | 0 <= t < |trace| && d in trace[t].check.dependsOn && d in Names(covered) ::
      ExecutedBefore(trace, t, d)
  }

  ghost predicate ExecutedBefore(trace: seq<Execution>, t: nat, name: string)
    requires t <= |trace|
  {
    exists s :: 0 <= s < t && trace[s].check.name == name
  }

  // ---------------------------------------------------------------- the run

  method HasDependencies(checks: seq<Check>) returns (any: bool)
    ensures any <==> exists c :: c in checks && c.dependsOn != []
  {
    for i := 0 to |checks|
      invariant forall j :: 0 <= j < i ==> checks[j].dependsOn == []
    {
      if |checks[i].dependsOn| > 0 {
        return true;
      }
    }
    any := false;
  }

  /** The position of the first registered checker of a type. */
  method GetCheckerForType(registry: seq<string>, kind: string) returns (checker: Option<nat>)
    ensures checker.None? <==> kind !in registry
    ensures checker.Some? ==> checker.value < |registry| && registry[checker.value] == kind
                              && kind !in registry[..checker.value]
  {
    for i := 0 to |registry|
      invariant kind !in registry[..i]
    {
      if registry[i] == kind {
        return Some(i);
      }
    }
    checker := None;
  }

  method ChecksOfType(checks: seq<Check>, kind: string) returns (filtered: seq<Check>)
    ensures filtered == OfType(checks, kind)
  {
    filtered := [];
    for i := 0 to |checks|
      invariant filtered == OfType(checks[..i], kind)
    {
      RunnableSnoc(checks[..i], checks[i], [kind], {});
      TakeNext(checks, i);
      if checks[i].kind == kind {
        filtered := filtered + [checks[i]];
      }
    }
    assert checks[..|checks|] == checks;
  }

  /** Bookkeeping shared by both branches: `results` and `skipped` are those of the executions so far. */
  ghost predicate Accounts(trace: seq<Execution>, attempt: Attempter, results: seq<CheckResult>, skipped: nat) {
    Faithful(trace, attempt) && Concatenated(ResultsOf(trace), results) && SumsTo(SkipsOf(trace), skipped)
  }

  lemma AccountsStep(trace: seq<Execution>, e: Execution, attempt: Attempter, results: seq<CheckResult>, skipped: nat)
    requires Accounts(trace, attempt, results, skipped)
    requires Performed(e, attempt, |trace|)
    ensures Accounts(trace + [e], attempt, results + e.results, skipped + e.skipped)
    ensures Executed(trace + [e]) == Executed(trace) + [e.check]
  {
    assert ResultsOf(trace + [e]) == ResultsOf(trace) + [e.results];
    assert SkipsOf(trace + [e]) == SkipsOf(trace) + [e.skipped];
    OneMoreConcatenated(ResultsOf(trace), results, e.results);
    OneMoreSummed(SkipsOf(trace), skipped, e.skipped);
    assert Executed(trace + [e]) == Executed(trace) + [e.check];
  }

  lemma NothingYet(attempt: Attempter)
    ensures Accounts([], attempt, [], 0)
  {
    assert ResultsOf([]) == [] && SkipsOf([]) == [];
    NothingConcatenated<CheckResult>();
    NothingSummed();
  }

  /** What has been executed so far, and what that has published. */
  ghost predicate Recorded(ctx: Context, attempt: Attempter, results: seq<CheckResult>, skipped: nat,
                           trace: seq<Execution>)
    reads ctx
  {
    && Accounts(trace, attempt, results, skipped)
    && SeesPublished(trace) && ctx.outputs == Published(map[], trace)
    && (ctx.outputs == map[] ==> ctx.environment == map[])
  }

  /**
   Executes one more check: it sees what has been published, and if it has a name and passes it is published itself.
   */
  method RunNext(ctx: Context, check: Check, attempt: Attempter, executions: nat, resultsBefore: seq<CheckResult>,
                 skippedBefore: nat, ghost before: seq<Execution>)
    returns (results: seq<CheckResult>, skipped: nat, ghost trace: seq<Execution>)
    requires Recorded(ctx, attempt, resultsBefore, skippedBefore, before) && executions == |before|
    modifies ctx
    ensures Recorded(ctx, attempt, results, skipped, trace)
    ensures Executed(trace) == Executed(before) + [check]
  {
    if |ctx.outputs| > 0 {
      ctx.environment := ctx.outputs;
    }
    assert ctx.environment == ctx.outputs;
    var own;
    ghost var e;
    own, results, skipped, e := Execute(ctx, check, attempt, executions, resultsBefore, skippedBefore, before);
    trace := before + [e];
    PublishNext(ctx, check, own, before, e);
  }

  /** One execution in the environment as it is. */
  method Execute(ctx: Context, check: Check, attempt: Attempter, executions: nat, resultsBefore: seq<CheckResult>,
                 skippedBefore: nat, ghost before: seq<Execution>)
    returns (own: seq<CheckResult>, results: seq<CheckResult>, skipped: nat, ghost e: Execution)
    requires Accounts(before, attempt, resultsBefore, skippedBefore) && executions == |before|
    ensures e.check == check && e.visible == ctx.environment && e.results == own
    ensures Accounts(before + [e], attempt, results, skipped) && Executed(before + [e]) == Executed(before) + [check]
  {
    var a := attempt(check, ctx.environment, executions);
    own, results, skipped := a.results, resultsBefore + a.results, skippedBefore + a.skipped;
    e := Execution(check, ctx.environment, a.results, a.skipped);
    AccountsStep(before, e, attempt, resultsBefore, skippedBefore);
  }

  /** An execution publishes the first result of a check with a name, if it passed. */
  method PublishNext(ctx: Context, check: Check, results: seq<CheckResult>, ghost before: seq<Execution>,
                     ghost e: Execution)
    requires ctx.outputs == Published(map[], before) == e.visible && SeesPublished(before)
    requires e.check == check && e.results == results
    modifies ctx`outputs
    ensures SeesPublished(before + [e]) && ctx.outputs == Published(map[], before + [e])
    ensures ctx.outputs == map[] ==> old(ctx.outputs) == map[]
  {
    PublishStep(before, e);
    if check.name != "" && |results| > 0 && results[0].pass {
      ctx.SetOutput(check.name, results[0]);
    }
  }

  method RunInOrder(ctx: Context, order: seq<Check>, registry: seq<string>, disabled: set<string>, attempt: Attempter)
    returns (results: seq<CheckResult>, skipped: nat, ghost trace: seq<Execution>)
    requires ctx.outputs == ctx.environment == map[]
    modifies ctx
    ensures Accounts(trace, attempt, results, skipped)
    ensures Executed(trace) == Runnable(order, registry, disabled)
    ensures SeesPublished(trace) && ctx.outputs == Published(map[], trace)
  {
    results, skipped, trace := [], 0, [];
    NothingYet(attempt);
    var executions := 0;
    for i := 0 to |order|
      invariant Recorded(ctx, attempt, results, skipped, trace) && executions == |trace|
      invariant Executed(trace) == Runnable(order[..i], registry, disabled)
    {
      var check := order[i];
      RunnableSnoc(order[..i], check, registry, disabled);
      TakeNext(order, i);
      if check.kind !in disabled {
        var checker := GetCheckerForType(registry, check.kind);
        if checker.Some? {
          results, skipped, trace := RunNext(ctx, check, attempt, executions, results, skipped, trace);
          executions := executions + 1;
        }
      }
    }
    assert order[..|order|] == order;
  }

  lemma PublishStep(trace: seq<Execution>, e: Execution)
    requires SeesPublished(trace) && e.visible == Published(map[], trace)
    ensures SeesPublished(trace + [e])
    ensures Published(map[], trace + [e])
         == var before := Published(map[], trace); if Publishes(e) then before[e.check.name := e.results[0]] else before
  {
    var longer := trace + [e];
    assert longer[..|trace|] == trace;
    forall t | 0 <= t < |longer|
      ensures longer[t].visible == Published(map[], longer[..t])
    {
      if t < |trace| {
        assert longer[..t] == trace[..t];
      }
    }
  }

  /**
   Runs a list of checks one after the other, adding to what has been run before. No output is
   published here, so all of them see the same environment.
   */
  method RunAll(ctx: Context, checks: seq<Check>, attempt: Attempter, executedBefore: nat,
                resultsBefore: seq<CheckResult>, skippedBefore: nat, ghost before: seq<Execution>)
    returns (results: seq<CheckResult>, skipped: nat, ghost trace: seq<Execution>)
    requires executedBefore == |before| && Accounts(before, attempt, resultsBefore, skippedBefore)
    requires forall t :: 0 <= t < |before| ==> before[t].visible == ctx.environment
    ensures Accounts(trace, attempt, results, skipped)
    ensures Executed(trace) == Executed(before) + checks
    ensures forall t :: 0 <= t < |trace| ==> trace[t].visible == ctx.environment
  {
    results, skipped, trace := resultsBefore, skippedBefore, before;
    for k := 0 to |checks|
      invariant |trace| == executedBefore + k
      invariant Accounts(trace, attempt, results, skipped)
      invariant Executed(trace) == Executed(before) + checks[..k]
      invariant forall t :: 0 <= t < |trace| ==> trace[t].visible == ctx.environment
    {
      var a := attempt(checks[k], ctx.environment, executedBefore + k);
      ghost var e := Execution(checks[k], ctx.environment, a.results, a.skipped);
      AccountsStep(trace, e, attempt, results, skipped);
      trace := trace + [e];
      results, skipped := results + a.results, skipped + a.skipped;
      TakeNext(checks, k);
    }
    assert checks[..|checks|] == checks;
  }

  lemma GroupedNext(checks: seq<Check>, registry: seq<string>, i: nat, disabled: set<string>)
    requires i < |registry|
    ensures Grouped(checks, registry[..i + 1], disabled)
         == Grouped(checks, registry[..i], disabled)
            + if registry[i] in disabled then [] else OfType(checks, registry[i])
    ensures registry[i] in disabled ==>
      Grouped(checks, registry[..i + 1], disabled) == Grouped(checks, registry[..i], disabled)
  {
    assert registry[..i + 1][..i] == registry[..i];
  }

  /** Runs checks grouped by type. */
  method RunGrouped(ctx: Context, checks: seq<Check>, registry: seq<string>, disabled: set<string>, attempt: Attempter)
    returns (results: seq<CheckResult>, skipped: nat, ghost trace: seq<Execution>)
    ensures Accounts(trace, attempt, results, skipped)
    ensures Executed(trace) == Grouped(checks, registry, disabled)
    ensures forall t :: 0 <= t < |trace| ==> trace[t].visible == ctx.environment
  {
    results, skipped, trace := [], 0, [];
    NothingYet(attempt);
    var executions := 0;
    for i := 0 to |registry|
      invariant Accounts(trace, attempt, results, skipped) && executions == |trace|
      invariant Executed(trace) == Grouped(checks, registry[..i], disabled)
      invariant forall t :: 0 <= t < |trace| ==> trace[t].visible == ctx.environment
    {
      var kind := registry[i];
      GroupedNext(checks, registry, i, disabled);
      if kind !in disabled {
        var ofType := ChecksOfType(checks, kind);
        results, skipped, trace := RunAll(ctx, ofType, attempt, executions, results, skipped, trace);
        executions := executions + |ofType|;
      }
    }
    assert registry[..|registry|] == registry;
  }

  // ---------------------------------------------------------------- what a run reports

  const JunitResultMode := "junit"

  /** In JUnit mode a run reports one result, which passes if all of them do and holds each of them as a test. */
  ghost predicate Reports(resultMode: string, results: seq<CheckResult>, report: Report) {
    if resultMode != JunitResultMode then report == Each(results)
    else
      && report.Combined? && |report.tests| == |results|
      && (forall k :: 0 <= k < |results| ==> report.tests[k] == JunitTest(results[k].pass, results[k].detail))
      && report.failed == |set k | 0 <= k < |results| && !results[k].pass|
      && report.passed == |set k | 0 <= k < |results| && results[k].pass|
      && (report.pass <==> forall r :: r in results ==> r.pass)
  }

  ghost function Places(results: seq<CheckResult>, n: nat, pass: bool): set<int>
    requires n <= |results|
  {
    set k | 0 <= k < n && results[k].pass == pass
  }

  lemma NextPlace(results: seq<CheckResult>, n: nat, pass: bool)
    requires n < |results|
    ensures |Places(results, n + 1, pass)| == |Places(results, n, pass)| + if results[n].pass == pass then 1 else 0
  {
    var before, after := Places(results, n, pass), Places(results, n + 1, pass);
    assert n !in before;
    if results[n].pass == pass {
      assert after == before + {n};
    } else {
      assert after == before;
    }
  }

  lemma AllPlaces(results: seq<CheckResult>)
    ensures Places(results, |results|, true) == set k | 0 <= k < |results| && results[k].pass
    ensures Places(results, |results|, false) == set k | 0 <= k < |results| && !results[k].pass
    ensures Places(results, 0, true) == Places(results, 0, false) == {}
    ensures |Places(results, |results|, false)| == 0 <==> forall r :: r in results ==> r.pass
  {
    if k :| 0 <= k < |results| && !results[k].pass {
      assert k in Places(results, |results|, false) && results[k] in results;
    } else {
      assert Places(results, |results|, false) == {};
    }
  }

  method ProcessResults(resultMode: string, results: seq<CheckResult>) returns (report: Report)
    ensures Reports(resultMode, results, report)
  {
    if resultMode != JunitResultMode {
      return Each(results);
    }
    var tests: seq<JunitTest> := [];
    var passed, failed := 0, 0;
    AllPlaces(results);
    for k := 0 to |results|
      invariant |tests| == k && forall j :: 0 <= j < k ==> tests[j] == JunitTest(results[j].pass, results[j].detail)
      invariant passed == |Places(results, k, true)| && failed == |Places(results, k, false)|
    {
      NextPlace(results, k, true);
      NextPlace(results, k, false);
      if results[k].pass {
        passed := passed + 1;
      } else {
        failed := failed + 1;
      }
      tests := tests + [JunitTest(results[k].pass, results[k].detail)];
    }
    report := Combined(failed == 0, tests, passed, failed);
  }

  // ---------------------------------------------------------------- a whole run

  /** Every check with an enabled, registered type was executed as often as it is in the list, and no others. */
  ghost predicate Covers(executed: seq<Check>, checks: seq<Check>, registry: seq<string>, disabled: set<string>) {
    forall c {:trigger multiset(executed)[c]} ::
      multiset(executed)[c] == if c.kind in registry && c.kind !in disabled then multiset(checks)[c] else 0
  }

  /** Each execution saw exactly what the ones before it had published. */
  ghost predicate SeesAllPublished(trace: seq<Execution>) {
    forall t {:trigger trace[t]} :: 0 <= t < |trace| ==> AllPublished(trace[t].visible, trace[..t])
  }

  /**
   The run has executed what it covers, each check seeing what was published before it, and published what it should.
   */
  ghost predicate RanInOrder(ctx: Context, trace: seq<Execution>, checks: seq<Check>, registry: seq<string>,
                             disabled: set<string>)
    reads ctx
  {
    && multiset(Executed(trace)) == multiset(Runnable(checks, registry, disabled))
    && Covers(Executed(trace), checks, registry, disabled)
    && UniqueNames(Executed(trace)) && SeesAllPublished(trace) && AllPublished(ctx.outputs, trace)
  }

  /** The positions at which there is a check of the type. */
  function TypePicks(checks: seq<Check>, kind: string): seq<Option<Check>> {
    seq(|checks|, i requires 0 <= i < |checks| => if checks[i].kind == kind then Some(checks[i]) else None)
  }

  /** Type after type in the order of the registry, each with its checks in input order unless it is disabled. */
  ghost predicate TypeAfterType(executed: seq<Check>, checks: seq<Check>, registry: seq<string>, disabled: set<string>)
  {
    exists groups: seq<seq<Check>> :: GroupedAs(executed, groups, checks, registry, disabled)
  }

  ghost predicate GroupedAs(executed: seq<Check>, groups: seq<seq<Check>>, checks: seq<Check>, registry: seq<string>,
                            disabled: set<string>)
  {
    && |groups| == |registry| && Concatenated(groups, executed)
    && forall i {:trigger groups[i]} :: 0 <= i < |registry| ==>
      if registry[i] in disabled then groups[i] == [] else Picked(TypePicks(checks, registry[i]), groups[i])
  }

  lemma {:induction false} OfTypePicks(checks: seq<Check>, kind: string)
    ensures Picked(TypePicks(checks, kind), OfType(checks, kind))
  {
    if checks == [] {
      assert TypePicks(checks, kind) == [];
      NothingPicked<Check>();
    } else {
      var last := |checks| - 1;
      OfTypePicks(checks[..last], kind);
      SplitLast(checks);
      RunnableSnoc(checks[..last], checks[last], [kind], {});
      var pick := if checks[last].kind == kind then Some(checks[last]) else None;
      OneMorePicked(TypePicks(checks[..last], kind), OfType(checks[..last], kind), pick);
      TypePicksNext(checks, kind, pick);
    }
  }

  lemma TypePicksNext(checks: seq<Check>, kind: string, pick: Option<Check>)
    requires checks != [] && var last := checks[|checks| - 1]; pick == if last.kind == kind then Some(last) else None
    ensures TypePicks(checks, kind) == TypePicks(checks[..|checks| - 1], kind) + [pick]
  {
  }

  lemma {:induction false} GroupedTypeAfterType(checks: seq<Check>, registry: seq<string>, disabled: set<string>)
    ensures TypeAfterType(Grouped(checks, registry, disabled), checks, registry, disabled)
  {
    if registry == [] {
      NothingConcatenated<Check>();
      assert GroupedAs([], [], checks, registry, disabled);
    } else {
      var last := |registry| - 1;
      var front, kind := registry[..last], registry[last];
      GroupedTypeAfterType(checks, front, disabled);
      var groups :| GroupedAs(Grouped(checks, front, disabled), groups, checks, front, disabled);
      var group := if kind in disabled then [] else OfType(checks, kind);
      OfTypePicks(checks, kind);
      OneMoreGroup(Grouped(checks, front, disabled), groups, group, checks, front, kind, disabled);
      SplitLast(registry);
    }
  }

  lemma OneMoreGroup(executed: seq<Check>, groups: seq<seq<Check>>, group: seq<Check>, checks: seq<Check>,
                     registry: seq<string>, kind: string, disabled: set<string>)
    requires GroupedAs(executed, groups, checks, registry, disabled)
    requires if kind in disabled then group == [] else Picked(TypePicks(checks, kind), group)
    ensures GroupedAs(executed + group, groups + [group], checks, registry + [kind], disabled)
  {
    OneMoreConcatenated(groups, executed, group);
    var all, kinds := groups + [group], registry + [kind];
    forall i {:trigger all[i]} | 0 <= i < |kinds|
      ensures if kinds[i] in disabled then all[i] == [] else Picked(TypePicks(checks, kinds[i]), all[i])
    {
      if i < |registry| {
        assert all[i] == groups[i] && kinds[i] == registry[i];
      }
    }
  }

  lemma CoversRunnable(executed: seq<Check>, checks: seq<Check>, registry: seq<string>, disabled: set<string>)
    requires multiset(executed) == multiset(Runnable(checks, registry, disabled))
    ensures Covers(executed, checks, registry, disabled)
  {
    forall c {:trigger multiset(executed)[c]}
      ensures multiset(executed)[c] == if c.kind in registry && c.kind !in disabled then multiset(checks)[c] else 0
    {
      RunnableCount(checks, registry, disabled, c);
    }
  }

  lemma SeenIsPublished(trace: seq<Execution>)
    requires SeesPublished(trace) && UniqueNames(Executed(trace))
    ensures SeesAllPublished(trace)
  {
    forall t {:trigger trace[t]} | 0 <= t < |trace|
      ensures AllPublished(trace[t].visible, trace[..t])
    {
      forall i, j | 0 <= i < j < t && Executed(trace[..t])[i].name != ""
        ensures Executed(trace[..t])[i].name != Executed(trace[..t])[j].name
      {
        assert Executed(trace)[i] == Executed(trace[..t])[i] && Executed(trace)[j] == Executed(trace[..t])[j];
      }
      PublishedExactly(trace[..t]);
    }
  }

  /** The run has executed what it covers by type; a type that is registered once is covered once. */
  ghost predicate RanByType(ctx: Context, trace: seq<Execution>, checks: seq<Check>, registry: seq<string>,
                            disabled: set<string>)
    reads ctx
  {
    && Executed(trace) == Grouped(checks, registry, disabled)
    && TypeAfterType(Executed(trace), checks, registry, disabled)
    && (Distinct(registry) ==> Covers(Executed(trace), checks, registry, disabled))
    && ctx.outputs == map[] && forall t :: 0 <= t < |trace| ==> trace[t].visible == map[]
  }

  ghost predicate AnyDependencies(checks: seq<Check>) {
    exists c :: c in checks && c.dependsOn != []
  }

  /** The branch for checks with dependencies. */
  method RunSorted(ctx: Context, checks: seq<Check>, registry: seq<string>, disabled: set<string>, attempt: Attempter)
    returns (sorted: SortOutcome, results: seq<CheckResult>, skipped: nat, ghost trace: seq<Execution>)
    requires ctx.outputs == ctx.environment == map[]
    modifies ctx
    ensures sorted.Sorted? <==> ValidInput(checks) && !HasCycle(checks)
    ensures !sorted.Sorted? ==> trace == [] && ctx.outputs == map[]
    ensures sorted.DuplicateName? <==> !UniqueNames(checks)
    ensures sorted.CircularDependency? <==> ValidInput(checks) && HasCycle(checks)
    ensures sorted.Sorted? ==>
      && Accounts(trace, attempt, results, skipped)
      && DependenciesExecutedFirst(trace, Runnable(checks, registry, disabled))
      && RanInOrder(ctx, trace, checks, registry, disabled)
  {
    results, skipped, trace := [], 0, [];
    sorted := SortByDependency(checks);
    if sorted.Sorted? {
      results, skipped, trace := RunInOrder(ctx, sorted.order, registry, disabled, attempt);
      RunnablePermutation(sorted.order, checks, registry, disabled);
      OrderCarriesOver(sorted.order, trace, checks, registry, disabled);
      NamesStayUnique(Executed(trace), checks, registry, disabled);
      CoversRunnable(Executed(trace), checks, registry, disabled);
      SeenIsPublished(trace);
      PublishedExactly(trace);
    }
  }

  /**
   A whole run. Whichever branch is taken, each check with an enabled, registered type is executed exactly
   once, the results are those of the executions in order, and the skip counts add up. In the
   dependency branch a check runs after everything it depends on that the run covers, and sees what that published.
   */
  method RunChecks(ctx: Context, checks: seq<Check>, registry: seq<string>, disabledChecks: Option<set<string>>,
                   deletion: DeletionLookup, resultMode: string, attempt: Attempter)
    returns (outcome: RunOutcome, ghost trace: seq<Execution>, ghost results: seq<CheckResult>)
    requires ctx.outputs == ctx.environment == map[]
    modifies ctx
    ensures outcome.DisabledChecksUnknown? <==> disabledChecks.None?
    ensures outcome.CanaryUnknown? <==> disabledChecks.Some? && deletion.LookupFailed?
    ensures outcome.CanaryDeleted? <==> disabledChecks.Some? && deletion.Deleted?
    ensures outcome.SortFailed? <==> disabledChecks.Some? && deletion.StillLive? && AnyDependencies(checks)
                                     && (!ValidInput(checks) || HasCycle(checks))
    ensures outcome.SortFailed? ==>
      && !outcome.reason.Sorted? && (outcome.reason.DuplicateName? <==> !UniqueNames(checks))
      && (outcome.reason.CircularDependency? <==> ValidInput(checks))
    ensures !outcome.Completed? ==> trace == [] && ctx.outputs == map[]
    ensures outcome.Completed? ==>
      && Accounts(trace, attempt, results, outcome.skipped) && Reports(resultMode, results, outcome.report)
      && DependenciesExecutedFirst(trace, Runnable(checks, registry, disabledChecks.value))
      && if AnyDependencies(checks) then RanInOrder(ctx, trace, checks, registry, disabledChecks.value)
         else RanByType(ctx, trace, checks, registry, disabledChecks.value)
  {
    trace, results := [], [];
    if disabledChecks.None? {
      return DisabledChecksUnknown, trace, results;
    }
    if deletion.LookupFailed? {
      return CanaryUnknown, trace, results;
    }
    if deletion.Deleted? {
      return CanaryDeleted, trace, results;
    }
    var disabled := disabledChecks.value;
    var all, skipped;
    var ordered := HasDependencies(checks);
    if ordered {
      var sorted;
      sorted, all, skipped, trace := RunSorted(ctx, checks, registry, disabled, attempt);
      if !sorted.Sorted? {
        return SortFailed(sorted), trace, results;
      }
    } else {
      all, skipped, trace := RunGrouped(ctx, checks, registry, disabled, attempt);
      if Distinct(registry) {
        GroupedIsRunnable(checks, registry, disabled);
        CoversRunnable(Executed(trace), checks, registry, disabled);
      }
      GroupedTypeAfterType(checks, registry, disabled);
      GroupedMembers(checks, registry, disabled);
    }
    results := all;
    var report := ProcessResults(resultMode, all);
    outcome := Completed(report, skipped);
  }

  lemma {:induction false} GroupedMembers(checks: seq<Check>, registry: seq<string>, disabled: set<string>)
    ensures forall c :: c in Grouped(checks, registry, disabled) ==> c in checks
  {
    if registry != [] {
      GroupedMembers(checks, registry[..|registry| - 1], disabled);
    }
  }

  /** Dropping the checks a run does not cover keeps dependencies first among those it does. */
  lemma OrderCarriesOver(order: seq<Check>, trace: seq<Execution>, checks: seq<Check>, registry: seq<string>,
                         disabled: set<string>)
    requires SortedFrom(checks, order) && UniqueNames(checks)
    requires Executed(trace) == Runnable(order, registry, disabled)
    ensures DependenciesExecutedFirst(trace, Runnable(checks, registry, disabled))
  {
    forall t, d | 0 <= t < |trace| && d in trace[t].check.dependsOn && d in Names(Runnable(checks, registry, disabled))
      ensures ExecutedBefore(trace, t, d)
    {
      var s := RunnableKeepsOrder(checks, order, registry, disabled, t, d);
      assert trace[s].check.name == d;
    }
  }

  lemma RunnableKeepsOrder(checks: seq<Check>, order: seq<Check>, registry: seq<string>, disabled: set<string>, t: nat,
                           d: string)
    returns (s: nat)
    requires SortedFrom(checks, order) && UniqueNames(checks)
    requires t < |Runnable(order, registry, disabled)|
    requires d in Runnable(order, registry, disabled)[t].dependsOn
    requires d in Names(Runnable(checks, registry, disabled))
    ensures s < t && Runnable(order, registry, disabled)[s].name == d
  {
    var covered := Runnable(order, registry, disabled);
    var i := PositionIn(order, registry, disabled, t);
    assert PlacedBefore(order, i, d);
    var j :| 0 <= j < i && order[j].name == d;
    assert order[j] in multiset(checks);
    var c :| c in Runnable(checks, registry, disabled) && c.name == d;
    SameNameSameCheck(checks, c, order[j]);
    assert order[j] in order[..i] && order[j] in covered[..t];
    s :| 0 <= s < t && covered[..t][s] == order[j];
  }

  /** Where the t-th covered check stands in the order; the covered checks before it are those placed before it. */
  lemma {:induction false} PositionIn(order: seq<Check>, registry: seq<string>, disabled: set<string>, t: nat)
    returns (i: nat)
    requires t < |Runnable(order, registry, disabled)|
    ensures i < |order| && order[i] == Runnable(order, registry, disabled)[t]
    ensures Runnable(order[..i], registry, disabled) == Runnable(order, registry, disabled)[..t]
  {
    var front, last := order[..|order| - 1], order[|order| - 1];
    assert order == front + [last];
    RunnableSnoc(front, last, registry, disabled);
    if t < |Runnable(front, registry, disabled)| {
      i := PositionIn(front, registry, disabled, t);
      assert order[..i] == front[..i];
    } else {
      i := |front|;
    }
  }
}
