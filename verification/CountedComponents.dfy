/**
 What the counts of a tree count: components by their status, and checks by their result.
 */
module CountedComponents {
  import opened Common
  import opened Components
  import opened Summaries

  /**
   The counts of a set of components. A component with a list of checks and no list of children counts by its checks;
   any other counts by its status if it has no children, and does not count at all if it has some.
   */
  ghost predicate CountsAre(s: set<Component>, n: Summary)
    reads s`components, s`hasComponents
  {
    && n.healthy
       == |set x | x in s && !(x.checks.Some? && !x.hasComponents) && x.components == [] && x.status == Healthy|
          + |set x, k | x in s && x.checks.Some? && !x.hasComponents && 0 <= k < |x.checks.value| && x.checks.value[k]
                 :: (x, k)|
    && n.unhealthy
       == |set x | x in s && !(x.checks.Some? && !x.hasComponents) && x.components == [] && x.status == Unhealthy|
          + |set x, k | x in s && x.checks.Some? && !x.hasComponents && 0 <= k < |x.checks.value| && !x.checks.value[k]
                 :: (x, k)|
    && n.warning
       == |set x | x in s && !(x.checks.Some? && !x.hasComponents) && x.components == [] && x.status == Warning|
    && n.info
       == |set x | x in s && !(x.checks.Some? && !x.hasComponents) && x.components == [] && x.status == Info|
  }

  // ---------------------------------------------------------------- one component more

  ghost function ByStatus(s: set<Component>, status: Status): set<Component>
    reads s`components, s`hasComponents
  {
    set x | x in s && !(x.checks.Some? && !x.hasComponents) && x.components == [] && x.status == status
  }

  ghost function ByCheck(s: set<Component>, pass: bool): set<(Component, int)>
    reads s`components, s`hasComponents
  {
    set x, k | x in s && x.checks.Some? && !x.hasComponents && 0 <= k < |x.checks.value| && x.checks.value[k] == pass
      :: (x, k)
  }

  ghost function FirstChecks(c: Component, n: nat, pass: bool): set<(Component, int)>
    requires c.checks.Some? && n <= |c.checks.value|
  {
    set k | 0 <= k < n && c.checks.value[k] == pass :: (c, k)
  }

  lemma CheckCounted(c: Component, n: nat, pass: bool)
    requires c.checks.Some? && n < |c.checks.value| && c.checks.value[n] == pass
    ensures FirstChecks(c, n + 1, pass) == FirstChecks(c, n, pass) + {(c, n)} && (c, n) !in FirstChecks(c, n, pass)
  {
  }

  lemma CheckIgnored(c: Component, n: nat, pass: bool)
    requires c.checks.Some? && n < |c.checks.value| && c.checks.value[n] != pass
    ensures FirstChecks(c, n + 1, pass) == FirstChecks(c, n, pass)
  {
  }

  lemma NextCheck(c: Component, n: nat, pass: bool)
    requires c.checks.Some? && n < |c.checks.value|
    ensures |FirstChecks(c, n + 1, pass)| == |FirstChecks(c, n, pass)| + if c.checks.value[n] == pass then 1 else 0
  {
    if c.checks.value[n] == pass {
      CheckCounted(c, n, pass);
    } else {
      CheckIgnored(c, n, pass);
    }
  }

  /** The counts of the first checks. */
  ghost function UpTo(checks: seq<bool>, n: nat): Summary
    requires n <= |checks|
  {
    if n == 0 then ZERO
    else Add(UpTo(checks, n - 1), if checks[n - 1] then Summary(1, 0, 0, 0) else Summary(0, 1, 0, 0))
  }

  lemma {:induction false} UpToAll(checks: seq<bool>, n: nat)
    requires n <= |checks|
    ensures UpTo(checks, n) == CheckCounts(checks[..n])
  {
    if n > 0 {
      UpToAll(checks, n - 1);
      assert checks[..n][..n - 1] == checks[..n - 1];
    }
  }

  lemma {:induction false} PassedByPlace(c: Component, n: nat)
    requires c.checks.Some? && n <= |c.checks.value|
    ensures |FirstChecks(c, n, true)| == UpTo(c.checks.value, n).healthy
  {
    if n == 0 {
      assert FirstChecks(c, 0, true) == {};
    } else {
      PassedByPlace(c, n - 1);
      NextCheck(c, n - 1, true);
    }
  }

  lemma {:induction false} FailedByPlace(c: Component, n: nat)
    requires c.checks.Some? && n <= |c.checks.value|
    ensures |FirstChecks(c, n, false)| == UpTo(c.checks.value, n).unhealthy
    ensures UpTo(c.checks.value, n).warning == UpTo(c.checks.value, n).info == 0
  {
    if n == 0 {
      assert FirstChecks(c, 0, false) == {};
    } else {
      FailedByPlace(c, n - 1);
      NextCheck(c, n - 1, false);
    }
  }

  lemma StatusNext(s: set<Component>, c: Component, status: Status)
    requires c !in s
    ensures |ByStatus(s + {c}, status)| == |ByStatus(s, status)| + |ByStatus({c}, status)|
  {
    assert ByStatus(s + {c}, status) == ByStatus(s, status) + ByStatus({c}, status);
    assert ByStatus(s, status) !! ByStatus({c}, status);
  }

  lemma StatusOfOne(c: Component, status: Status)
    ensures |ByStatus({c}, status)|
         == if !(c.checks.Some? && !c.hasComponents) && c.components == [] && c.status == status then 1 else 0
  {
    if !(c.checks.Some? && !c.hasComponents) && c.components == [] && c.status == status {
      assert ByStatus({c}, status) == {c};
    } else {
      assert ByStatus({c}, status) == {};
    }
  }

  lemma CheckNext(s: set<Component>, c: Component, pass: bool)
    requires c !in s
    ensures |ByCheck(s + {c}, pass)| == |ByCheck(s, pass)| + |ByCheck({c}, pass)|
  {
    assert ByCheck(s + {c}, pass) == ByCheck(s, pass) + ByCheck({c}, pass);
    assert ByCheck(s, pass) !! ByCheck({c}, pass);
  }

  lemma AllChecks(c: Component, pass: bool)
    requires c.checks.Some? && !c.hasComponents
    ensures ByCheck({c}, pass) == FirstChecks(c, |c.checks.value|, pass)
  {
  }

  lemma NoChecks(c: Component, pass: bool)
    requires !(c.checks.Some? && !c.hasComponents)
    ensures ByCheck({c}, pass) == {}
  {
  }

  lemma ChecksOfOne(c: Component)
    ensures Summary(|ByCheck({c}, true)|, |ByCheck({c}, false)|, 0, 0)
         == if c.checks.Some? && !c.hasComponents then CheckCounts(c.checks.value) else ZERO
  {
    if c.checks.Some? && !c.hasComponents {
      var n := |c.checks.value|;
      PassedByPlace(c, n);
      FailedByPlace(c, n);
      UpToAll(c.checks.value, n);
      assert c.checks.value[..n] == c.checks.value;
      AllChecks(c, true);
      AllChecks(c, false);
    } else {
      NoChecks(c, true);
      NoChecks(c, false);
    }
  }

  ghost function CountsOf(s: set<Component>): Summary
    reads s`components, s`hasComponents
  {
    Summary(|ByStatus(s, Healthy)| + |ByCheck(s, true)|, |ByStatus(s, Unhealthy)| + |ByCheck(s, false)|,
            |ByStatus(s, Warning)|, |ByStatus(s, Info)|)
  }

  lemma CountsOfMeans(s: set<Component>)
    ensures CountsAre(s, CountsOf(s))
  {
    assert ByCheck(s, true)
        == set x, k | x in s && x.checks.Some? && !x.hasComponents && 0 <= k < |x.checks.value| && x.checks.value[k]
             :: (x, k);
    assert ByCheck(s, false)
        == set x, k | x in s && x.checks.Some? && !x.hasComponents && 0 <= k < |x.checks.value| && !x.checks.value[k]
             :: (x, k);
  }

  lemma CountsOfOne(c: Component)
    ensures CountsOf({c}) == Contribution(c)
  {
    StatusOfOne(c, Healthy);
    StatusOfOne(c, Unhealthy);
    StatusOfOne(c, Warning);
    StatusOfOne(c, Info);
    ChecksOfOne(c);
  }

  lemma CountsNext(s: set<Component>, c: Component)
    requires c !in s
    ensures CountsOf(s + {c}) == Add(CountsOf(s), CountsOf({c}))
  {
    StatusNext(s, c, Healthy);
    StatusNext(s, c, Unhealthy);
    StatusNext(s, c, Warning);
    StatusNext(s, c, Info);
    CheckNext(s, c, true);
    CheckNext(s, c, false);
  }

  /** Each contribution taken once makes the counts of the set. */
  lemma {:induction false} ContributionsCount(order: seq<Component>, u: set<Component>)
    requires Distinct(order) && forall x :: x in order ==> x in u
    ensures Sum(Contributions(order, u)) == CountsOf(ToSet(order))
  {
    if order == [] {
      assert ToSet(order) == {};
      CountsOfNone();
    } else {
      var last := |order| - 1;
      ContributionsCount(order[..last], u);
      LastOne(order);
      CountsNext(ToSet(order[..last]), order[last]);
      CountsOfOne(order[last]);
    }
  }

  lemma LastOne(order: seq<Component>)
    requires order != [] && Distinct(order)
    ensures var last := |order| - 1;
      ToSet(order) == ToSet(order[..last]) + {order[last]} && order[last] !in ToSet(order[..last])
  {
  }

  lemma CountsOfNone()
    ensures CountsOf({}) == ZERO
  {
    assert ByStatus({}, Healthy) == {} && ByStatus({}, Unhealthy) == {};
    assert ByStatus({}, Warning) == {} && ByStatus({}, Info) == {};
    assert ByCheck({}, true) == {} && ByCheck({}, false) == {};
  }
}
