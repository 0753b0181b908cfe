/**
 Ordering a canary's checks by `dependsOn`.

 The queue of ready checks is seeded by iterating a Go map, so its initial order is arbitrary;
 every statement below holds for every such order.
 */
module DependencySort {
  import opened Common
  import opened Sequences

  /** A check as the runner sees it; `spec` stands for everything else in its definition. */
  datatype Check = Check(name: string, kind: string, dependsOn: seq<string>, spec: string)

  datatype SortOutcome =
    | Sorted(order: seq<Check>)
    | DuplicateName(name: string)
    | UnnamedWithDependencies
    | UnknownDependency(check: string, dependency: string)
    | CircularDependency

  // ---------------------------------------------------------------- what a valid input is

  function Names(checks: seq<Check>): set<string> {
    set c | c in checks && c.name != "" :: c.name
  }

  ghost predicate UniqueNames(checks: seq<Check>) {
    forall i, j :: 0 <= i < j < |checks| && checks[i].name != "" ==> checks[i].name != checks[j].name
  }

  /** The check may take part in an ordering: its dependencies are known, and it has none if it has no name. */
  predicate WellFormed(c: Check, known: set<string>) {
    && (c.name == "" ==> c.dependsOn == [])
    && forall k :: 0 <= k < |c.dependsOn| ==> c.dependsOn[k] in known
  }

  ghost predicate ValidInput(checks: seq<Check>) {
    && UniqueNames(checks)
    && forall c :: c in checks ==> WellFormed(c, Names(checks))
  }

  /** A check has this name. */
  ghost predicate SomeCheckIs(checks: seq<Check>, name: string) {
    name != "" && exists j :: 0 <= j < |checks| && checks[j].name == name
  }

  lemma NamesAre(checks: seq<Check>, name: string)
    ensures name in Names(checks) <==> SomeCheckIs(checks, name)
  {
  }

  /** Where no name is used twice, input is valid if checks depend on names of checks only, and unnamed ones on none. */
  lemma ValidInFields(checks: seq<Check>)
    requires UniqueNames(checks)
    ensures ValidInput(checks) <==>
      && (forall c :: c in checks && c.name == "" ==> c.dependsOn == [])
      && forall c, d :: c in checks && d in c.dependsOn ==> SomeCheckIs(checks, d)
  {
    forall c, d | c in checks && d in c.dependsOn
      ensures d in Names(checks) <==> SomeCheckIs(checks, d)
    {
      NamesAre(checks, d);
    }
  }

  // ---------------------------------------------------------------- the dependency graph

  ghost predicate DependsOn(checks: seq<Check>, a: string, b: string) {
    exists c :: c in checks && c.name == a && b in c.dependsOn
  }

  ghost predicate IsPath(checks: seq<Check>, path: seq<string>) {
    forall i :: 0 <= i < |path| - 1 ==> DependsOn(checks, path[i], path[i + 1])
  }

  ghost predicate IsCycle(checks: seq<Check>, path: seq<string>) {
    && |path| >= 2
    && path[0] == path[|path| - 1]
    && IsPath(checks, path)
  }

  ghost predicate HasCycle(checks: seq<Check>) {
    exists path :: IsCycle(checks, path)
  }

  /** Every dependency of a check is the name of a check placed before it. */
  ghost predicate DependenciesFirst(order: seq<Check>) {
    forall i, d :: 0 <= i < |order| && d in order[i].dependsOn ==> PlacedBefore(order, i, d)
  }

  ghost predicate PlacedBefore(order: seq<Check>, i: nat, name: string)
    requires i <= |order|
  {
    exists j :: 0 <= j < i && order[j].name == name
  }

  function Unnamed(checks: seq<Check>): seq<Check> {
    if checks == [] then []
    else (if checks[0].name == "" then [checks[0]] else []) + Unnamed(checks[1..])
  }

  function Named(checks: seq<Check>): (r: seq<Check>)
    ensures forall c :: c in r <==> c in checks && c.name != ""
  {
    if checks == [] then []
    else (if checks[0].name != "" then [checks[0]] else []) + Named(checks[1..])
  }

  lemma {:induction false} UnnamedSnoc(checks: seq<Check>, c: Check)
    ensures Unnamed(checks + [c]) == Unnamed(checks) + if c.name == "" then [c] else []
  {
    if checks == [] {
      assert checks + [c] == [c];
    } else {
      assert (checks + [c])[1..] == checks[1..] + [c];
      UnnamedSnoc(checks[1..], c);
    }
  }

  /** Which checks have no name. */
  function WithoutName(checks: seq<Check>): (picks: seq<Option<Check>>)
    ensures |picks| == |checks|
    ensures forall i :: 0 <= i < |checks| ==> picks[i] == if checks[i].name == "" then Some(checks[i]) else None
  {
    seq(|checks|, i requires 0 <= i < |checks| => if checks[i].name == "" then Some(checks[i]) else None)
  }

  lemma {:induction false} UnnamedPicked(checks: seq<Check>)
    ensures Picked(WithoutName(checks), Unnamed(checks))
  {
    if checks == [] {
      NothingPicked<Check>();
      assert WithoutName(checks) == [];
    } else {
      var before, last := checks[..|checks| - 1], checks[|checks| - 1];
      UnnamedPicked(before);
      UnnamedSnoc(before, last);
      SplitLast(checks);
      var pick := if last.name == "" then Some(last) else None;
      OneMorePicked(WithoutName(before), Unnamed(before), pick);
      assert WithoutName(checks) == WithoutName(before) + [pick];
    }
  }

  lemma {:induction false} SplitByName(checks: seq<Check>)
    ensures multiset(checks) == multiset(Unnamed(checks)) + multiset(Named(checks))
  {
    if checks != [] {
      assert checks == [checks[0]] + checks[1..];
      SplitByName(checks[1..]);
    }
  }

  lemma {:induction false} NamedDistinct(checks: seq<Check>)
    requires UniqueNames(checks)
    ensures Distinct(Named(checks))
  {
    if checks != [] {
      NamedDistinct(checks[1..]);
      forall c | c in Named(checks[1..])
        ensures c != checks[0] || checks[0].name == ""
      {
        var j :| 0 <= j < |checks[1..]| && checks[1..][j] == c;
        assert checks[j + 1] == c;
      }
    }
  }

  // ---------------------------------------------------------------- a stuck sort means a cycle

  /** `n` depends on some name of the set. */
  ghost predicate WaitsIn(checks: seq<Check>, names: set<string>, n: string) {
    exists d :: d in names && DependsOn(checks, n, d)
  }

  /**
   From any name in a set where every name depends on another name of the set, walk along
   dependencies until a name repeats; the pigeonhole principle says that it must.
   */
  lemma {:induction false} StuckSetHasCycle(checks: seq<Check>, stuck: set<string>, path: seq<string>)
    requires forall n {:trigger WaitsIn(checks, stuck, n)} :: n in stuck ==> WaitsIn(checks, stuck, n)
    requires path != [] && IsPath(checks, path) && Distinct(path)
    requires forall n :: n in path ==> n in stuck
    ensures HasCycle(checks)
    decreases |stuck| - |path|
  {
    var last := path[|path| - 1];
    assert last in path;
    assert WaitsIn(checks, stuck, last);
    var next :| next in stuck && DependsOn(checks, last, next);
    var longer := path + [next];
    assert IsPath(checks, longer);
    if next in path {
      var k :| 0 <= k < |path| && path[k] == next;
      assert IsCycle(checks, longer[k..]);
    } else {
      PathFits(longer, stuck);
      StuckSetHasCycle(checks, stuck, longer);
    }
  }

  lemma PathFits(path: seq<string>, names: set<string>)
    requires Distinct(path) && forall n :: n in path ==> n in names
    ensures |path| <= |names|
  {
    DistinctCardinality(path);
    assert ToSet(path) <= names;
    SubsetCardinality(ToSet(path), names);
  }

  /** An order that puts dependencies first and holds every named check leaves no room for a cycle. */
  lemma OrderedMeansAcyclic(checks: seq<Check>, order: seq<Check>)
    requires UniqueNames(checks) && DependenciesFirst(order)
    requires forall c :: c in checks && c.name != "" <==> c in order
    requires forall c :: c in checks && c.name == "" ==> c.dependsOn == []
    ensures !HasCycle(checks)
  {
    forall path | IsCycle(checks, path)
      ensures false
    {
      assert DependsOn(checks, path[0], path[1]);
      var c :| c in checks && c.name == path[0] && path[1] in c.dependsOn;
      var i :| 0 <= i < |order| && order[i] == c;
      PositionDescends(checks, order, path, i);
    }
  }

  /** Going round a cycle moves ever earlier in the order, for ever. */
  lemma {:induction false} PositionDescends(checks: seq<Check>, order: seq<Check>, path: seq<string>, i: nat)
    requires UniqueNames(checks) && DependenciesFirst(order)
    requires forall c :: c in checks && c.name != "" <==> c in order
    requires IsCycle(checks, path) && i < |order| && order[i].name == path[0]
    ensures false
    decreases i
  {
    assert DependsOn(checks, path[0], path[1]);
    var c :| c in checks && c.name == path[0] && path[1] in c.dependsOn;
    assert order[i] in checks;
    SameNameSameCheck(checks, c, order[i]);
    assert PlacedBefore(order, i, path[1]);
    var j :| 0 <= j < i && order[j].name == path[1];
    var turned := path[1..] + [path[1]];
    forall k | 0 <= k < |turned| - 1
      ensures DependsOn(checks, turned[k], turned[k + 1])
    {
      if k + 2 < |path| {
        assert DependsOn(checks, path[k + 1], path[k + 2]);
      }
    }
    PositionDescends(checks, order, turned, j);
  }

  lemma SameNameSameCheck(checks: seq<Check>, a: Check, b: Check)
    requires UniqueNames(checks) && a in checks && b in checks && a.name == b.name != ""
    ensures a == b
  {
  }

  // ---------------------------------------------------------------- in-degrees

  /** How many entries of a dependency list, repeats included, name a check not yet placed. */
  function Unmet(deps: seq<string>, placed: set<string>): (n: nat)
    ensures n == 0 <==> forall d :: d in deps ==> d in placed
  {
    if deps == [] then 0
    else Unmet(deps[..|deps| - 1], placed) + if deps[|deps| - 1] in placed then 0 else 1
  }

  /** Unmet entries when `name` has just been placed, counting only the first `k` entries as updated. */
  function PartlyUpdated(deps: seq<string>, placed: set<string>, name: string, k: nat): nat
    requires k <= |deps|
  {
    Unmet(deps[..k], placed + {name}) + Unmet(deps[k..], placed)
  }

  lemma {:induction false} UnmetHead(deps: seq<string>, placed: set<string>)
    requires deps != []
    ensures Unmet(deps, placed) == (if deps[0] in placed then 0 else 1) + Unmet(deps[1..], placed)
  {
    if |deps| > 1 {
      var front := deps[..|deps| - 1];
      UnmetHead(front, placed);
      assert front[1..] == deps[1..][..|deps| - 2];
    }
  }

  lemma PartlyUpdatedStep(deps: seq<string>, placed: set<string>, name: string, k: nat)
    requires k < |deps| && name !in placed
    ensures PartlyUpdated(deps, placed, name, k)
         == PartlyUpdated(deps, placed, name, k + 1) + if deps[k] == name then 1 else 0
  {
    UnmetHead(deps[k..], placed);
    assert deps[k..][1..] == deps[k + 1..];
    assert deps[..k + 1][..k] == deps[..k];
  }

  lemma {:induction false} UnmetOfNothing(deps: seq<string>)
    ensures Unmet(deps, {}) == |deps|
  {
    if deps != [] {
      UnmetOfNothing(deps[..|deps| - 1]);
    }
  }

  /** `checkMap` files every named check under its name. */
  ghost predicate Files(checkMap: map<string, Check>, checks: seq<Check>) {
    && (forall n :: n in checkMap ==> checkMap[n] in checks && checkMap[n].name == n != "")
    && (forall c :: c in checks && c.name != "" ==> c.name in checkMap && checkMap[c.name] == c)
  }

  method BuildCheckMap(checks: seq<Check>) returns (checkMap: map<string, Check>, duplicate: Option<string>)
    ensures duplicate.None? <==> UniqueNames(checks)
    ensures duplicate.None? ==> Files(checkMap, checks)
    ensures duplicate.Some? ==> exists i, j :: 0 <= i < j < |checks| && UniqueNames(checks[..j])
                                  && checks[i].name == checks[j].name == duplicate.value != ""
  {
    checkMap := map[];
    for i := 0 to |checks|
      invariant UniqueNames(checks[..i]) && Files(checkMap, checks[..i])
    {
      var name := checks[i].name;
      if name != "" {
        if name in checkMap {
          var k :| 0 <= k < i && checks[k] == checkMap[name];
          assert UniqueNames(checks[..i]) && 0 <= k < i && checks[k].name == checks[i].name == name;
          return checkMap, Some(name);
        }
        checkMap := checkMap[name := checks[i]];
      }
      assert checks[..i + 1] == checks[..i] + [checks[i]];
    }
    assert checks[..|checks|] == checks;
    duplicate := None;
  }

  /**
   Counts dependency entries per name, or reports the first offence in input order: an unnamed check
   with dependencies, or the first entry of the first check that names no check.
   */
  method CountInDegrees(checks: seq<Check>, checkMap: map<string, Check>)
    returns (inDegree: map<string, nat>, failure: Option<SortOutcome>)
    requires UniqueNames(checks) && Files(checkMap, checks)
    ensures failure.None? <==> forall c :: c in checks ==> WellFormed(c, Names(checks))
    ensures failure.Some? ==> exists i :: FirstOffence(checks, i, failure.value)
    ensures failure.None? ==> inDegree.Keys == checkMap.Keys
    ensures failure.None? ==> forall n :: n in inDegree ==> inDegree[n] == |checkMap[n].dependsOn|
  {
    inDegree := map n | n in checkMap :: 0;
    assert checkMap.Keys == Names(checks);
    ghost var counted: set<string> := {};
    for i := 0 to |checks|
      invariant counted == Names(checks[..i])
      invariant forall j :: 0 <= j < i ==> WellFormed(checks[j], checkMap.Keys)
      invariant inDegree == Counts(checkMap, counted)
    {
      var c := checks[i];
      NamesSnoc(checks, i);
      if c.name == "" && |c.dependsOn| > 0 {
        assert FirstOffence(checks, i, UnnamedWithDependencies) && !WellFormed(c, checkMap.Keys);
        return inDegree, Some(UnnamedWithDependencies);
      }
      var unknown;
      inDegree, unknown := CountEntries(c, checkMap, inDegree);
      if unknown.Some? {
        var found := UnknownDependency(c.name, unknown.value);
        IllFormed(c, checkMap.Keys, unknown.value);
        assert FirstOffence(checks, i, found);
        return inDegree, Some(found);
      }
      if c.name != "" {
        CountsStep(checkMap, counted, c);
        counted := counted + {c.name};
      }
    }
    assert checks[..|checks|] == checks;
    failure := None;
  }

  lemma IllFormed(c: Check, known: set<string>, d: string)
    requires UnknownFirst(c.dependsOn, known, d)
    ensures !WellFormed(c, known)
  {
  }

  ghost function Counts(checkMap: map<string, Check>, counted: set<string>): map<string, nat> {
    map n | n in checkMap :: if n in counted then |checkMap[n].dependsOn| else 0
  }

  lemma CountsStep(checkMap: map<string, Check>, counted: set<string>, c: Check)
    requires c.name in checkMap && checkMap[c.name] == c
    ensures Counts(checkMap, counted + {c.name}) == Counts(checkMap, counted)[c.name := |c.dependsOn|]
  {
  }

  /** The inner loop of the count: one increment per entry of one check, stopping at an unknown name. */
  method CountEntries(c: Check, checkMap: map<string, Check>, inDegree: map<string, nat>)
    returns (inDegree': map<string, nat>, unknown: Option<string>)
    requires c.name == "" ==> c.dependsOn == []
    requires c.name != "" ==> c.name in inDegree && inDegree[c.name] == 0
    ensures unknown.None? <==> forall k :: 0 <= k < |c.dependsOn| ==> c.dependsOn[k] in checkMap.Keys
    ensures unknown.Some? ==> UnknownFirst(c.dependsOn, checkMap.Keys, unknown.value)
    ensures unknown.None? ==> inDegree' == if c.name == "" then inDegree else inDegree[c.name := |c.dependsOn|]
  {
    inDegree' := inDegree;
    for k := 0 to |c.dependsOn|
      invariant forall m :: 0 <= m < k ==> c.dependsOn[m] in checkMap.Keys
      invariant inDegree' == if k == 0 then inDegree else inDegree[c.name := k]
    {
      if c.dependsOn[k] !in checkMap {
        return inDegree', Some(c.dependsOn[k]);
      }
      inDegree' := inDegree'[c.name := inDegree'[c.name] + 1];
    }
    unknown := None;
  }

  /** Everything before check `i` is well formed, and `found` names what is wrong with check `i`. */
  ghost predicate FirstOffence(checks: seq<Check>, i: nat, found: SortOutcome) {
    && i < |checks|
    && (forall j :: 0 <= j < i ==> WellFormed(checks[j], Names(checks)))
    && (found == UnnamedWithDependencies
        ==> checks[i].name == "" && checks[i].dependsOn != [])
    && (found.UnknownDependency?
        ==> checks[i].name == found.check != "" && UnknownFirst(checks[i].dependsOn, Names(checks), found.dependency))
    && (found.UnnamedWithDependencies? || found.UnknownDependency?)
  }

  /** So the check has no name but dependencies, or depends on what is not the name of a check. */
  lemma OffenceInFields(checks: seq<Check>, i: nat, found: SortOutcome)
    requires FirstOffence(checks, i, found)
    ensures found.UnnamedWithDependencies? ==> checks[i].name == "" && checks[i].dependsOn != []
    ensures found.UnknownDependency? ==>
      checks[i].name == found.check != "" && found.dependency in checks[i].dependsOn
      && !SomeCheckIs(checks, found.dependency)
    ensures forall j :: 0 <= j < i && checks[j].name == "" ==> checks[j].dependsOn == []
    ensures forall j, d :: 0 <= j < i && d in checks[j].dependsOn ==> SomeCheckIs(checks, d)
  {
    forall d
      ensures d in Names(checks) <==> SomeCheckIs(checks, d)
    {
      NamesAre(checks, d);
    }
  }

  ghost predicate UnknownFirst(deps: seq<string>, known: set<string>, d: string) {
    exists k :: 0 <= k < |deps| && deps[k] == d && d !in known && forall m :: 0 <= m < k ==> deps[m] in known
  }

  /** Iterating the in-degree map visits its keys in an arbitrary order. */
  method SeedQueue(inDegree: map<string, nat>) returns (queue: seq<string>)
    ensures Distinct(queue)
    ensures forall n :: n in queue <==> n in inDegree && inDegree[n] == 0
  {
    queue := [];
    var rest := inDegree.Keys;
    while rest != {}
      invariant rest <= inDegree.Keys && Distinct(queue)
      invariant forall n :: n in queue <==> n in inDegree && n !in rest && inDegree[n] == 0
    {
      var name :| name in rest;
      if inDegree[name] == 0 {
        queue := queue + [name];
      }
      rest := rest - {name};
    }
  }

  method CollectUnnamed(checks: seq<Check>) returns (unnamed: seq<Check>)
    ensures unnamed == Unnamed(checks)
  {
    unnamed := [];
    for i := 0 to |checks|
      invariant unnamed == Unnamed(checks[..i])
    {
      UnnamedSnoc(checks[..i], checks[i]);
      TakeNext(checks, i);
      if checks[i].name == "" {
        unnamed := unnamed + [checks[i]];
      }
    }
    assert checks[..|checks|] == checks;
  }

  /** Lowers one check's in-degree for each of its entries naming the placed check; queues it on reaching zero. */
  method ReleaseOne(c: Check, name: string, ghost placed: set<string>, degree: nat, queue: seq<string>)
    returns (degree': nat, queue': seq<string>)
    requires name !in placed && degree == Unmet(c.dependsOn, placed)
    ensures degree' == Unmet(c.dependsOn, placed + {name})
    ensures queue' == queue + if degree > 0 && degree' == 0 then [c.name] else []
  {
    degree', queue' := degree, queue;
    assert c.dependsOn[0..] == c.dependsOn;
    for k := 0 to |c.dependsOn|
      invariant degree' == PartlyUpdated(c.dependsOn, placed, name, k)
      invariant degree' <= degree
      invariant queue' == queue + if degree > 0 && degree' == 0 then [c.name] else []
    {
      PartlyUpdatedStep(c.dependsOn, placed, name, k);
      if c.dependsOn[k] == name {
        degree' := degree' - 1;
        if degree' == 0 {
          queue' := queue' + [c.name];
        }
      }
    }
    assert c.dependsOn[..|c.dependsOn|] == c.dependsOn;
  }

  /** The in-degree of every name is its number of unmet dependency entries. */
  ghost predicate DegreesAgree(inDegree: map<string, nat>, checkMap: map<string, Check>, placed: set<string>) {
    inDegree == Degrees(checkMap, placed)
  }

  ghost predicate Ready(n: string, checkMap: map<string, Check>, placed: set<string>) {
    n in checkMap && n !in placed && Unmet(checkMap[n].dependsOn, placed) == 0
  }

  /** The queue holds, once each, exactly the names that are ready and not yet placed. */
  ghost predicate QueueAgrees(queue: seq<string>, checkMap: map<string, Check>, placed: set<string>) {
    && Distinct(queue)
    && forall n {:trigger n in queue} :: n in queue <==> Ready(n, checkMap, placed)
  }

  /** The dependencies of a placed check are placed. */
  ghost predicate Settled(checkMap: map<string, Check>, placed: set<string>) {
    forall n :: n in placed ==> n in checkMap && Unmet(checkMap[n].dependsOn, placed) == 0
  }

  /** Midway through releasing: the names in `updated` already count the newly placed check as met. */
  ghost predicate Releasing(inDegree: map<string, nat>, queue: seq<string>, before: map<string, nat>,
                            after: map<string, nat>, updated: set<string>, placed: set<string>)
  {
    && inDegree.Keys == before.Keys == after.Keys
    && (forall n {:trigger inDegree[n]} :: n in inDegree ==>
         inDegree[n] == if n in updated then after[n] else before[n])
    && Distinct(queue)
    && forall n {:trigger n in queue} :: n in queue <==> n in inDegree && n !in placed && inDegree[n] == 0
  }

  /** One check's share of the release; `after` is the final degree of every name. */
  method ReleaseCheck(c: Check, name: string, ghost placed: set<string>, ghost before: map<string, nat>,
                      ghost after: map<string, nat>, ghost updated: set<string>, inDegree: map<string, nat>,
                      queue: seq<string>)
    returns (inDegree': map<string, nat>, queue': seq<string>)
    requires c.name in before && c.name in after && c.name !in updated && name !in placed
    requires before[c.name] == Unmet(c.dependsOn, placed) && after[c.name] == Unmet(c.dependsOn, placed + {name})
    requires before[c.name] > 0 ==> c.name !in placed + {name}
    requires Releasing(inDegree, queue, before, after, updated, placed + {name})
    ensures Releasing(inDegree', queue', before, after, updated + {c.name}, placed + {name})
  {
    var degree := inDegree[c.name];
    var degree';
    degree', queue' := ReleaseOne(c, name, placed, degree, queue);
    inDegree' := inDegree[c.name := degree'];
    assert degree > 0 ==> c.name !in queue;
  }

  method Release(checks: seq<Check>, ghost checkMap: map<string, Check>, name: string, ghost placed: set<string>,
                 inDegree: map<string, nat>, queue: seq<string>)
    returns (inDegree': map<string, nat>, queue': seq<string>)
    requires UniqueNames(checks) && Files(checkMap, checks)
    requires Settled(checkMap, placed) && DegreesAgree(inDegree, checkMap, placed)
    requires QueueAgrees([name] + queue, checkMap, placed)
    ensures DegreesAgree(inDegree', checkMap, placed + {name})
    ensures QueueAgrees(queue', checkMap, placed + {name})
  {
    inDegree', queue' := inDegree, queue;
    ghost var updated: set<string> := {};
    ghost var before, after := Degrees(checkMap, placed), Degrees(checkMap, placed + {name});
    QueueTail(name, queue, checkMap, placed);
    for i := 0 to |checks|
      invariant updated == Names(checks[..i])
      invariant Releasing(inDegree', queue', before, after, updated, placed + {name})
    {
      var c := checks[i];
      NamesSnoc(checks, i);
      if c.name != "" {
        inDegree', queue' := ReleaseCheck(c, name, placed, before, after, updated, inDegree', queue');
        updated := updated + {c.name};
      }
    }
    assert checks[..|checks|] == checks;
    AllReleased(inDegree', queue', checkMap, placed, name);
  }

  lemma AllReleased(inDegree: map<string, nat>, queue: seq<string>, checkMap: map<string, Check>, placed: set<string>,
                    name: string)
    requires Releasing(inDegree, queue, Degrees(checkMap, placed), Degrees(checkMap, placed + {name}), checkMap.Keys,
                       placed + {name})
    ensures DegreesAgree(inDegree, checkMap, placed + {name})
    ensures QueueAgrees(queue, checkMap, placed + {name})
  {
  }

  lemma NamesSnoc(checks: seq<Check>, i: nat)
    requires i < |checks|
    ensures Names(checks[..i + 1]) == Names(checks[..i]) + if checks[i].name == "" then {} else {checks[i].name}
    ensures UniqueNames(checks) && checks[i].name != "" ==> checks[i].name !in Names(checks[..i])
  {
  }

  ghost function Degrees(checkMap: map<string, Check>, placed: set<string>): map<string, nat> {
    map n | n in checkMap :: Unmet(checkMap[n].dependsOn, placed)
  }

  lemma QueueTail(name: string, queue: seq<string>, checkMap: map<string, Check>, placed: set<string>)
    requires QueueAgrees([name] + queue, checkMap, placed)
    ensures Ready(name, checkMap, placed) && Distinct(queue)
    ensures forall n {:trigger n in queue} :: n in queue <==> n != name && Ready(n, checkMap, placed)
  {
    var whole := [name] + queue;
    assert queue == whole[1..] && name in whole;
    forall n {:trigger n in queue}
      ensures n in queue <==> n != name && Ready(n, checkMap, placed)
    {
      assert n in whole <==> n == name || n in queue;
    }
  }

  /** What holds of the checks placed so far. */
  ghost predicate PlacedAgrees(sorted: seq<Check>, checkMap: map<string, Check>, placed: set<string>) {
    && Settled(checkMap, placed)
    && |sorted| == |placed|
    && Distinct(sorted)
    && DependenciesFirst(sorted)
    && (forall c :: c in sorted <==> c.name in placed && c == checkMap[c.name])
  }

  lemma PlaceNext(sorted: seq<Check>, checkMap: map<string, Check>, placed: set<string>, name: string)
    requires forall n :: n in checkMap ==> checkMap[n].name == n
    requires PlacedAgrees(sorted, checkMap, placed)
    requires Ready(name, checkMap, placed)
    ensures PlacedAgrees(sorted + [checkMap[name]], checkMap, placed + {name})
  {
    var longer := sorted + [checkMap[name]];
    assert Settled(checkMap, placed + {name});
    forall i, d | 0 <= i < |longer| && d in longer[i].dependsOn
      ensures PlacedBefore(longer, i, d)
    {
      if i < |sorted| {
        assert d in sorted[i].dependsOn && PlacedBefore(sorted, i, d);
        var j :| 0 <= j < i && sorted[j].name == d;
        assert longer[j].name == d;
      } else {
        assert checkMap[d] in sorted;
        var j :| 0 <= j < |sorted| && sorted[j] == checkMap[d];
        assert longer[j].name == d;
      }
    }
  }

  /** With the queue empty and names left over, every name left over waits for another one. */
  lemma StuckMeansCycle(checks: seq<Check>, checkMap: map<string, Check>, placed: set<string>)
    requires Files(checkMap, checks)
    requires forall n :: n in checkMap ==> WellFormed(checkMap[n], checkMap.Keys)
    requires QueueAgrees([], checkMap, placed) && placed <= checkMap.Keys && placed != checkMap.Keys
    ensures HasCycle(checks)
  {
    var stuck := checkMap.Keys - placed;
    forall n {:trigger WaitsIn(checks, stuck, n)} | n in stuck
      ensures WaitsIn(checks, stuck, n)
    {
      assert n !in [] && !Ready(n, checkMap, placed);
      var d :| d in checkMap[n].dependsOn && d !in placed;
      assert DependsOn(checks, n, d);
    }
    assert stuck != {} by {
      assert forall n :: n in checkMap.Keys && n !in placed ==> n in stuck;
    }
    var start :| start in stuck;
    StuckSetHasCycle(checks, stuck, [start]);
  }

  /** The queue is worked off: checks are placed until none is ready. */
  method PlaceReady(checks: seq<Check>, checkMap: map<string, Check>, degrees: map<string, nat>, seeded: seq<string>)
    returns (sorted: seq<Check>, ghost placed: set<string>)
    requires UniqueNames(checks) && Files(checkMap, checks)
    requires DegreesAgree(degrees, checkMap, {}) && QueueAgrees(seeded, checkMap, {})
    ensures QueueAgrees([], checkMap, placed) && PlacedAgrees(sorted, checkMap, placed)
  {
    var inDegree, queue := degrees, seeded;
    var visited: set<string> := {};
    sorted, placed := [], {};
    while |queue| > 0
      invariant visited == placed
      invariant DegreesAgree(inDegree, checkMap, placed)
      invariant QueueAgrees(queue, checkMap, placed)
      invariant PlacedAgrees(sorted, checkMap, placed)
      decreases checkMap.Keys - placed
    {
      var name := queue[0];
      assert queue == [name] + queue[1..];
      queue := queue[1..];
      QueueTail(name, queue, checkMap, placed);
      assert name !in visited;  // the test below never skips an entry
      if name !in visited {
        visited := visited + {name};
        PlaceNext(sorted, checkMap, placed, name);
        sorted := sorted + [checkMap[name]];
        inDegree, queue := Release(checks, checkMap, name, placed, inDegree, queue);
        placed := placed + {name};
      }
    }
  }

  /**
   The whole sort. A cycle is reported exactly when the input is otherwise valid and its dependency
   graph has one. On success the result is a permutation of the input: the unnamed checks first, in input
   order, then every named check after all of its dependencies.
   */
  method SortByDependency(checks: seq<Check>) returns (outcome: SortOutcome)
    ensures outcome.DuplicateName? <==> !UniqueNames(checks)
    ensures outcome.DuplicateName? ==> exists i, j :: 0 <= i < j < |checks| && UniqueNames(checks[..j])
                                         && checks[i].name == checks[j].name == outcome.name != ""
    ensures outcome.UnnamedWithDependencies? || outcome.UnknownDependency?
       <==> UniqueNames(checks) && !ValidInput(checks)
    ensures outcome.UnnamedWithDependencies? || outcome.UnknownDependency?
        ==> exists i :: FirstOffence(checks, i, outcome)
    ensures outcome.CircularDependency? <==> ValidInput(checks) && HasCycle(checks)
    ensures outcome.Sorted? ==> SortedFrom(checks, outcome.order)
  {
    var checkMap, duplicate := BuildCheckMap(checks);
    if duplicate.Some? {
      return DuplicateName(duplicate.value);
    }
    var inDegree, failure := CountInDegrees(checks, checkMap);
    if failure.Some? {
      return failure.value;
    }
    forall n | n in inDegree
      ensures inDegree[n] == Unmet(checkMap[n].dependsOn, {})
    {
      UnmetOfNothing(checkMap[n].dependsOn);
    }
    var queue := SeedQueue(inDegree);
    var unnamed := CollectUnnamed(checks);
    var sorted;
    ghost var placed;
    sorted, placed := PlaceReady(checks, checkMap, inDegree, queue);
    PlacingEnds(checks, checkMap, sorted, placed);
    if |sorted| != |checkMap| {
      return CircularDependency;
    }
    outcome := Sorted(unnamed + sorted);
  }

  /** When no check is ready, either all are placed, or there is a cycle among those that are not. */
  lemma PlacingEnds(checks: seq<Check>, checkMap: map<string, Check>, sorted: seq<Check>, placed: set<string>)
    requires ValidInput(checks) && Files(checkMap, checks)
    requires QueueAgrees([], checkMap, placed) && PlacedAgrees(sorted, checkMap, placed)
    ensures |sorted| != |checkMap| <==> HasCycle(checks)
    ensures |sorted| == |checkMap| ==> SortedFrom(checks, Unnamed(checks) + sorted)
  {
    if |sorted| != |checkMap| {
      StuckMeansCycle(checks, checkMap, placed);
    } else {
      SubsetCardinality(placed, checkMap.Keys);
      OrderedMeansAcyclic(checks, sorted);
      AllPlaced(checks, sorted);
    }
  }

  ghost predicate UnnamedInOrder(checks: seq<Check>) {
    Picked(WithoutName(checks), Unnamed(checks))
  }

  /** What a successful sort promises. */
  ghost predicate SortedFrom(checks: seq<Check>, order: seq<Check>) {
    && multiset(order) == multiset(checks)
    && UnnamedInOrder(checks) && Unnamed(checks) <= order
    && (forall i :: |Unnamed(checks)| <= i < |order| ==> order[i].name != "")
    && DependenciesFirst(order)
  }

  lemma AllPlaced(checks: seq<Check>, sorted: seq<Check>)
    requires UniqueNames(checks) && Distinct(sorted) && DependenciesFirst(sorted)
    requires forall c :: c in checks && c.name != "" <==> c in sorted
    requires forall c :: c in checks && c.name == "" ==> c.dependsOn == []
    ensures SortedFrom(checks, Unnamed(checks) + sorted)
  {
    SplitByName(checks);
    NamedDistinct(checks);
    DistinctPermutation(sorted, Named(checks));
    UnnamedFirst(checks, sorted);
    UnnamedPicked(checks);
  }

  /** Checks without names have no dependencies, so they can come before all others. */
  lemma UnnamedFirst(checks: seq<Check>, sorted: seq<Check>)
    requires DependenciesFirst(sorted) && forall c :: c in checks && c.name == "" ==> c.dependsOn == []
    ensures DependenciesFirst(Unnamed(checks) + sorted)
  {
    var unnamed := Unnamed(checks);
    var order := unnamed + sorted;
    forall i, d | 0 <= i < |order| && d in order[i].dependsOn
      ensures PlacedBefore(order, i, d)
    {
      if i < |unnamed| {
        UnnamedMembers(checks, i);
      } else {
        assert PlacedBefore(sorted, i - |unnamed|, d);
        var j :| 0 <= j < i - |unnamed| && sorted[j].name == d;
        assert order[|unnamed| + j].name == d;
      }
    }
  }

  lemma {:induction false} UnnamedMembers(checks: seq<Check>, i: nat)
    requires i < |Unnamed(checks)|
    ensures Unnamed(checks)[i] in checks && Unnamed(checks)[i].name == ""
  {
    if checks[0].name != "" {
      UnnamedMembers(checks[1..], i);
    } else if i > 0 {
      UnnamedMembers(checks[1..], i - 1);
    }
  }
}
