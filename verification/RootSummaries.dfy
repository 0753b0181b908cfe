/**
 The summary that a topology's root is given, and what its status then says about the tree.
 */
module RootSummaries {
  import opened Common
  import opened Components
  import opened CountedComponents
  import opened Walks
  import opened Summaries

  function GetStatus(s: Summary): Status {
    if s.healthy > 0 && s.unhealthy > 0 then Warning
    else if s.unhealthy > 0 then Unhealthy
    else if s.warning > 0 then Warning
    else if s.healthy > 0 then Healthy
    else Info
  }

  lemma {:induction false} InBelowThem(list: seq<Component>, below: BelowMap, x: Component)
    requires forall t :: t in list ==> t in below
    ensures x in BelowThem(list, below) <==> exists i :: 0 <= i < |list| && x in below[list[i]]
  {
    if list != [] {
      var k := |list| - 1;
      InBelowThem(list[..k], below, x);
      assert forall i :: 0 <= i < k ==> list[..k][i] == list[i];
    }
  }

  lemma MemberBelow(u: set<Component>, pm: ParentMap, rank: map<Component, nat>, below: BelowMap, t: Component,
                    x: Component)
    requires Represents(u, pm) && Ranked(u, rank) && t in u
    requires below == BelowOf(u, rank)
    ensures t in below && (x in below[t] <==> BelowOne(pm, t.components, x))
  {
    ListsSubtrees(t.components, u, pm, rank, rank[t], x);
  }

  /** What hangs below the children of the root: everything but the root and those children. */
  lemma DeeperDown(u: set<Component>, pm: ParentMap, root: Component, rank: map<Component, nat>, below: BelowMap,
                   x: Component)
    requires IsTree(u, pm, root) && Ranked(u, rank) && x in u && forall t :: t in root.components ==> t in below
    requires forall t :: t in root.components ==> (x in below[t] <==> BelowOne(pm, t.components, x))
    ensures x in BelowThem(root.components, below) <==> x in pm && pm[x] != root
  {
    var tops := root.components;
    InBelowThem(tops, below, x);
    if i :| 0 <= i < |tops| && x in below[tops[i]] {
      NotATop(u, pm, root, rank, tops[i], x);
    }
    if x in pm && pm[x] != root {
      Deep(u, pm, root, x);
    }
  }

  lemma Deep(u: set<Component>, pm: ParentMap, root: Component, x: Component)
    requires IsTree(u, pm, root) && x in pm && pm[x] != root
    ensures exists i :: 0 <= i < |root.components| && BelowOne(pm, root.components[i].components, x)
  {
    BelowParts(u, pm, root, x);
    var i :| 0 <= i < |root.components| && Rooted(pm, root.components[i], x);
    BelowParts(u, pm, root.components[i], x);
  }

  lemma NotATop(u: set<Component>, pm: ParentMap, root: Component, rank: map<Component, nat>, t: Component,
                x: Component)
    requires IsTree(u, pm, root) && Ranked(u, rank) && t in root.components && BelowOne(pm, t.components, x)
    ensures x in pm && pm[x] != root
  {
    var i :| 0 <= i < |t.components| && Rooted(pm, t.components[i], x);
    var y := t.components[i];
    var n: nat :| Above(pm, y, x, n);
    assert pm[y] == t && pm[t] == root;
    if n > 0 && pm[x] == root {
      RankAbove(u, pm, rank, y, root, n - 1);
    }
  }

  lemma BelowInside(c: Component, u: set<Component>, reports: Reports, below: BelowMap)
    requires Planned(u, reports, below) && c in u
    ensures c in reports && c in below && below[c] <= u
    ensures forall x :: x in c.components ==> x in u && x in reports && x in below
  {
    assert PlannedAt(c, u, reports, below);
  }

  /** The components two levels or more below the root. */
  ghost function Deeper(pm: ParentMap, root: Component): set<Component> {
    set x | x in pm && pm[x] != root
  }

  /** What summarizing the root's list of children covers. */
  lemma RootCovers(u: set<Component>, pm: ParentMap, root: Component, rank: map<Component, nat>, reports: Reports,
                   below: BelowMap)
    requires IsTree(u, pm, root) && Ranked(u, rank) && Planned(u, reports, below)
    requires below == BelowOf(u, rank)
    ensures forall x :: x in root.components ==> x in u && x in reports && x in below
    ensures forall x :: x in u ==> (x in BelowThem(root.components, below) <==> x in Deeper(pm, root))
  {
    BelowInside(root, u, reports, below);
    forall x | x in u
      ensures x in BelowThem(root.components, below) <==> x in Deeper(pm, root)
    {
      BelowRootsChildren(u, pm, root, rank, below, x);
    }
  }

  lemma BelowRootsChildren(u: set<Component>, pm: ParentMap, root: Component, rank: map<Component, nat>,
                           below: BelowMap, x: Component)
    requires IsTree(u, pm, root) && Ranked(u, rank) && x in u
    requires below == BelowOf(u, rank)
    requires forall t :: t in root.components ==> t in u && t in below
    ensures x in BelowThem(root.components, below) <==> x in pm && pm[x] != root
  {
    forall t | t in root.components
      ensures x in below[t] <==> BelowOne(pm, t.components, x)
    {
      MemberBelow(u, pm, rank, below, t, x);
    }
    DeeperDown(u, pm, root, rank, below, x);
  }

  /** The root's report when it has children: the sum of theirs. */
  lemma RootReport(u: set<Component>, root: Component, reports: Reports, below: BelowMap)
    requires root in u && root.components != [] && Planned(u, reports, below)
    requires forall x :: x in root.components ==> x in reports
    ensures root in reports && reports[root] == SumOf(root.components, reports)
  {
    assert PlannedAt(root, u, reports, below);
    PlannedLeaf(root, u, reports, below);
  }

  /** The root gets the sum over its children when it has any, and the status that follows from its summary. */
  method AssignSummary(root: Component, ghost u: set<Component>, ghost pm: ParentMap, ghost rank: map<Component, nat>,
                       ghost reports: Reports, ghost below: BelowMap)
    returns (status: Status)
    requires Ranked(u, rank) && Planned(u, reports, below) && root in u && root !in pm && pm.Keys <= u
    requires forall x :: x in root.components ==> x in u && x in reports && x in below
    requires forall x :: x in u ==> (x in BelowThem(root.components, below) <==> x in Deeper(pm, root))
    modifies u`summary
    ensures root in reports && pm.Keys <= reports.Keys
    ensures root.summary == if root.components == [] then old(root.summary) else reports[root]
    ensures forall x {:trigger x.summary} :: x in pm ==>
      x.summary == if x in Deeper(pm, root) then reports[x] else old(x.summary)
    ensures status == GetStatus(root.summary)
  {
    assert forall c :: c in u ==> PlannedAt(c, u, reports, below);
    if |root.components| > 0 {
      RootReport(u, root, reports, below);
      var s := SummarizeList(root.components, u, rank, reports, below);
      root.summary := s;
    }
    status := GetStatus(root.summary);
  }

  method SummarizeTree(root: Component, ghost u: set<Component>, ghost pm: ParentMap, ghost rank: map<Component, nat>)
    returns (status: Status, ghost reports: Reports)
    requires IsTree(u, pm, root) && Ranked(u, rank) && ListsKept(u)
    modifies u`summary
    ensures reports == old(ReportsOf(u, rank))
    ensures root.summary == if root.components == [] then old(root.summary) else reports[root]
    ensures forall x {:trigger x.summary} :: x in pm ==>
      x.summary == if x in Deeper(pm, root) then reports[x] else old(x.summary)
    ensures status == GetStatus(root.summary)
  {
    ghost var below;
    reports, below := PlanExists(u, rank);
    RootCovers(u, pm, root, rank, reports, below);
    status := AssignSummary(root, u, pm, rank, reports, below);
  }

  /**
   The summary and status of a topology's root, where `reports` are the counts of every component's own tree. The root
   gets the counts of the whole tree, and everything two levels or more below it the counts of its own tree; the root's
   children are counted but keep the summary that they had.
   */
  method SummarizeRoot(root: Component, ghost u: set<Component>, ghost pm: ParentMap, ghost rank: map<Component, nat>)
    returns (status: Status, ghost reports: Reports)
    requires IsTree(u, pm, root) && Ranked(u, rank) && ListsKept(u)
    modifies u`summary
    ensures reports == old(ReportsOf(u, rank))
    ensures root.summary == if root.components == [] then old(root.summary) else reports[root]
    ensures root.components != [] ==> root.summary == CountsOf(u) && StatusFits(status, u)
    ensures forall x {:trigger x.summary} :: x in pm ==>
      x.summary == if x in Deeper(pm, root) then reports[x] else old(x.summary)
    ensures status == GetStatus(root.summary)
  {
    ghost var counts := CountsOf(u);
    TreeCounted(u, pm, root, rank);
    assert ReportsOf(u, rank)[root] == counts;
    status, reports := SummarizeTree(root, u, pm, rank);
    assert CountsOf(u) == counts;
    StatusOfCounts(u);
  }

  /** The root's counts are what all components contribute, each taken once. */
  lemma EverythingCountedOnce(u: set<Component>, pm: ParentMap, root: Component, rank: map<Component, nat>)
    requires IsTree(u, pm, root) && Ranked(u, rank)
    ensures var order := TreeOrder(root, u, rank);
      && Distinct(order) && ToSet(order) == u && (forall x :: x in order ==> x in u)
      && TreeCounts(root, u, rank) == Sum(Contributions(order, u))
  {
    WholeTree(u, pm, root, rank);
    ListedInside(root.components, u, rank, rank[root]);
    SingleTotal(root, Preorder(root.components, u, rank, rank[root]), u);
  }

  // ---------------------------------------------------------------- what the status says

  ghost predicate NonNegative(s: Summary) {
    s.healthy >= 0 && s.unhealthy >= 0 && s.warning >= 0 && s.info >= 0
  }

  /** A sum of counts is above zero exactly where one of them is. */
  lemma {:induction false} SumSigns(counts: seq<Summary>)
    requires forall i :: 0 <= i < |counts| ==> NonNegative(counts[i])
    ensures NonNegative(Sum(counts))
    ensures Sum(counts).healthy > 0 <==> exists i :: 0 <= i < |counts| && counts[i].healthy > 0
    ensures Sum(counts).unhealthy > 0 <==> exists i :: 0 <= i < |counts| && counts[i].unhealthy > 0
    ensures Sum(counts).warning > 0 <==> exists i :: 0 <= i < |counts| && counts[i].warning > 0
  {
    if counts != [] {
      var k := |counts| - 1;
      SumSigns(counts[..k]);
      assert forall i :: 0 <= i < k ==> counts[..k][i] == counts[i];
    }
  }

  lemma {:induction false} CheckSigns(checks: seq<bool>)
    ensures NonNegative(CheckCounts(checks)) && CheckCounts(checks).warning == CheckCounts(checks).info == 0
    ensures CheckCounts(checks).healthy > 0 <==> true in checks
    ensures CheckCounts(checks).unhealthy > 0 <==> false in checks
  {
    if checks != [] {
      CheckSigns(checks[..|checks| - 1]);
      SplitLast(checks);
    }
  }

  /** Some check of the component has passed, or it does not count by checks, has no children and is healthy. */
  ghost predicate HealthyPart(x: Component)
    reads x`components, x`hasComponents
  {
    if x.checks.Some? && !x.hasComponents then true in x.checks.value else x.components == [] && x.status == Healthy
  }

  ghost predicate UnhealthyPart(x: Component)
    reads x`components, x`hasComponents
  {
    if x.checks.Some? && !x.hasComponents then false in x.checks.value else x.components == [] && x.status == Unhealthy
  }

  ghost predicate WarningPart(x: Component)
    reads x`components, x`hasComponents
  {
    !(x.checks.Some? && !x.hasComponents) && x.components == [] && x.status == Warning
  }

  ghost predicate SomeHealthy(s: set<Component>)
    reads s`components, s`hasComponents
  {
    exists x {:trigger HealthyPart(x)} :: x in s && HealthyPart(x)
  }

  ghost predicate SomeUnhealthy(s: set<Component>)
    reads s`components, s`hasComponents
  {
    exists x {:trigger UnhealthyPart(x)} :: x in s && UnhealthyPart(x)
  }

  ghost predicate SomeWarning(s: set<Component>)
    reads s`components, s`hasComponents
  {
    exists x {:trigger WarningPart(x)} :: x in s && WarningPart(x)
  }

  /** What a status says about the components that were counted. */
  ghost predicate StatusFits(status: Status, s: set<Component>)
    reads s`components, s`hasComponents
  {
    && (status == Unhealthy <==> SomeUnhealthy(s) && !SomeHealthy(s))
    && (status == Warning <==> (SomeUnhealthy(s) && SomeHealthy(s)) || (SomeWarning(s) && !SomeUnhealthy(s)))
    && (status == Healthy <==> SomeHealthy(s) && !SomeUnhealthy(s) && !SomeWarning(s))
    && (status == Info <==> !SomeHealthy(s) && !SomeUnhealthy(s) && !SomeWarning(s))
  }

  ghost predicate SignsAre(n: Summary, healthy: bool, unhealthy: bool, warning: bool) {
    NonNegative(n) && (n.healthy > 0 <==> healthy) && (n.unhealthy > 0 <==> unhealthy) && (n.warning > 0 <==> warning)
  }

  lemma ChecksSign(c: Component, counts: Summary)
    requires c.checks.Some? && !c.hasComponents && counts == CheckCounts(c.checks.value)
    ensures SignsAre(counts, HealthyPart(c), UnhealthyPart(c), WarningPart(c))
  {
    CheckSigns(c.checks.value);
  }

  lemma StatusSigns(c: Component)
    requires !(c.checks.Some? && !c.hasComponents)
    ensures SignsAre(Contribution(c), HealthyPart(c), UnhealthyPart(c), WarningPart(c))
  {
  }

  lemma ContributionSigns(c: Component)
    ensures SignsAre(Contribution(c), HealthyPart(c), UnhealthyPart(c), WarningPart(c))
  {
    if c.checks.Some? && !c.hasComponents {
      ChecksSign(c, Contribution(c));
    } else {
      StatusSigns(c);
    }
  }

  /** The signs of the summed contributions of listed components. */
  lemma ListedSigns(order: seq<Component>, u: set<Component>)
    requires forall x :: x in order ==> x in u
    ensures SignsAre(Sum(Contributions(order, u)), SomeHealthy(ToSet(order)), SomeUnhealthy(ToSet(order)),
                     SomeWarning(ToSet(order)))
  {
    var counts := Contributions(order, u);
    forall i {:trigger counts[i]} | 0 <= i < |counts|
      ensures SignsAre(counts[i], HealthyPart(order[i]), UnhealthyPart(order[i]), WarningPart(order[i]))
    {
      ContributionSigns(order[i]);
    }
    SumSigns(counts);
    ByMember(order, counts);
  }

  lemma StatusBySigns(n: Summary, s: set<Component>)
    requires SignsAre(n, SomeHealthy(s), SomeUnhealthy(s), SomeWarning(s))
    ensures StatusFits(GetStatus(n), s)
  {
  }

  /** The status of a tree in terms of the components and checks in it. */
  lemma StatusOfTree(c: Component, u: set<Component>, rank: map<Component, nat>)
    requires Ranked(u, rank) && c in u
    ensures StatusFits(GetStatus(TreeCounts(c, u, rank)), ToSet(TreeOrder(c, u, rank)))
  {
    var order := TreeOrder(c, u, rank);
    ListedInside(c.components, u, rank, rank[c]);
    SingleTotal(c, Preorder(c.components, u, rank, rank[c]), u);
    ListedSigns(order, u);
    StatusBySigns(TreeCounts(c, u, rank), ToSet(order));
  }

  /** Some contribution in the sequence is that of some listed component. */
  lemma ByMember(order: seq<Component>, counts: seq<Summary>)
    requires |counts| == |order|
    requires forall i {:trigger counts[i]} :: 0 <= i < |order| ==>
      SignsAre(counts[i], HealthyPart(order[i]), UnhealthyPart(order[i]), WarningPart(order[i]))
    ensures SomeHealthy(ToSet(order)) <==> exists i :: 0 <= i < |counts| && counts[i].healthy > 0
    ensures SomeUnhealthy(ToSet(order)) <==> exists i :: 0 <= i < |counts| && counts[i].unhealthy > 0
    ensures SomeWarning(ToSet(order)) <==> exists i :: 0 <= i < |counts| && counts[i].warning > 0
  {
    if x :| x in ToSet(order) && HealthyPart(x) {
      var i :| 0 <= i < |order| && order[i] == x;
      assert counts[i].healthy > 0;
    }
    if x :| x in ToSet(order) && UnhealthyPart(x) {
      var i :| 0 <= i < |order| && order[i] == x;
      assert counts[i].unhealthy > 0;
    }
    if x :| x in ToSet(order) && WarningPart(x) {
      var i :| 0 <= i < |order| && order[i] == x;
      assert counts[i].warning > 0;
    }
    forall i | 0 <= i < |counts|
      ensures counts[i].healthy > 0 ==> SomeHealthy(ToSet(order))
      ensures counts[i].unhealthy > 0 ==> SomeUnhealthy(ToSet(order))
      ensures counts[i].warning > 0 ==> SomeWarning(ToSet(order))
    {
      assert order[i] in ToSet(order);
    }
  }

  lemma TreeCounted(u: set<Component>, pm: ParentMap, root: Component, rank: map<Component, nat>)
    requires IsTree(u, pm, root) && Ranked(u, rank)
    ensures TreeCounts(root, u, rank) == CountsOf(u)
  {
    EverythingCountedOnce(u, pm, root, rank);
    ContributionsCount(TreeOrder(root, u, rank), u);
  }

  /** What the status of counted components says about them. */
  lemma StatusOfCounts(s: set<Component>)
    ensures StatusFits(GetStatus(CountsOf(s)), s)
  {
    CountSigns(s);
  }

  lemma CountSigns(s: set<Component>)
    ensures SignsAre(CountsOf(s), SomeHealthy(s), SomeUnhealthy(s), SomeWarning(s))
  {
    CountedOnes(s, Healthy, true);
    if x :| x in s && HealthyPart(x) {
      assert Counted(x, Healthy, true);
    }
    if x :| x in s && Counted(x, Healthy, true) {
      assert HealthyPart(x);
    }
    CountedOnes(s, Unhealthy, false);
    if x :| x in s && UnhealthyPart(x) {
      assert Counted(x, Unhealthy, false);
    }
    if x :| x in s && Counted(x, Unhealthy, false) {
      assert UnhealthyPart(x);
    }
    WarningOnes(s);
  }

  lemma WarningOnes(s: set<Component>)
    ensures |ByStatus(s, Warning)| > 0 <==> SomeWarning(s)
  {
    if x :| x in s && WarningPart(x) {
      assert x in ByStatus(s, Warning);
    }
    if x :| x in ByStatus(s, Warning) {
      assert WarningPart(x);
    }
  }

  lemma CountedOnes(s: set<Component>, status: Status, pass: bool)
    ensures |ByStatus(s, status)| + |ByCheck(s, pass)| > 0 <==>
      exists x {:trigger Counted(x, status, pass)} :: x in s && Counted(x, status, pass)
  {
    if x :| x in s && Counted(x, status, pass) {
      if x.checks.Some? && !x.hasComponents {
        var k :| 0 <= k < |x.checks.value| && x.checks.value[k] == pass;
        assert (x, k) in ByCheck(s, pass);
      } else {
        assert x in ByStatus(s, status);
      }
    }
    if x :| x in ByStatus(s, status) {
      assert Counted(x, status, pass);
    } else if p :| p in ByCheck(s, pass) {
      assert p.0 in s && Counted(p.0, status, pass);
    }
  }

  ghost predicate Counted(x: Component, status: Status, pass: bool)
    reads x`components, x`hasComponents
  {
    if x.checks.Some? && !x.hasComponents then pass in x.checks.value else x.components == [] && x.status == status
  }

  /** The counts of a tree count the components and checks in it. */
  lemma TreeCountsAre(c: Component, u: set<Component>, pm: ParentMap, rank: map<Component, nat>)
    requires Represents(u, pm) && Ranked(u, rank) && c in u
    ensures CountsAre(ToSet(TreeOrder(c, u, rank)), TreeCounts(c, u, rank))
  {
    var order := TreeOrder(c, u, rank);
    ListedInside(c.components, u, rank, rank[c]);
    SingleTotal(c, Preorder(c.components, u, rank, rank[c]), u);
    TreeListedOnce(c, u, pm, rank);
    ContributionsCount(order, u);
    CountsOfMeans(ToSet(order));
  }
}
