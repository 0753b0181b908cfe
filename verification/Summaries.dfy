/**
 Status counts of a tree, computed from the leaves up and remembered in every component below the top.
 */
module Summaries {
  import opened Components
  import opened Walks

  function Add(a: Summary, b: Summary): Summary {
    Summary(a.healthy + b.healthy, a.unhealthy + b.unhealthy, a.warning + b.warning, a.info + b.info)
  }

  const ZERO := Summary(0, 0, 0, 0)

  function CountOf(status: Status): Summary {
    match status
    case Healthy => Summary(1, 0, 0, 0)
    case Unhealthy => Summary(0, 1, 0, 0)
    case Warning => Summary(0, 0, 1, 0)
    case Info => Summary(0, 0, 0, 1)
    case OtherStatus => ZERO
  }

  /** A check is healthy or not; there is nothing between. */
  function CheckCounts(checks: seq<bool>): Summary {
    if checks == [] then ZERO
    else
      var last := |checks| - 1;
      Add(CheckCounts(checks[..last]), if checks[last] then Summary(1, 0, 0, 0) else Summary(0, 1, 0, 0))
  }

  /**
   What one component by itself adds to the counts: its checks, when it has a list of them and no list of children, or
   else its status, when it has no children. Components with children add nothing of their own.
   */
  function Contribution(c: Component): Summary
    reads c`components, c`hasComponents
  {
    if c.checks.Some? && !c.hasComponents then CheckCounts(c.checks.value)
    else if c.components == [] then CountOf(c.status)
    else ZERO
  }

  function Sum(counts: seq<Summary>): Summary {
    if counts == [] then ZERO else Add(Sum(counts[..|counts| - 1]), counts[|counts| - 1])
  }

  lemma {:induction false} SumJoins(a: seq<Summary>, b: seq<Summary>)
    ensures Sum(a + b) == Add(Sum(a), Sum(b))
  {
    if b == [] {
      assert a + b == a;
    } else {
      var k := |b| - 1;
      var ab := a + b;
      assert ab[..|ab| - 1] == a + b[..k] && ab[|ab| - 1] == b[k];
      SumJoins(a, b[..k]);
      AddAssociates(Sum(a), Sum(b[..k]), b[k]);
    }
  }

  lemma AddAssociates(a: Summary, b: Summary, c: Summary)
    ensures Add(Add(a, b), c) == Add(a, Add(b, c))
  {
  }

  /** What each of the listed components contributes. */
  ghost function Contributions(order: seq<Component>, u: set<Component>): (counts: seq<Summary>)
    requires forall x :: x in order ==> x in u
    reads u`components, u`hasComponents
    ensures |counts| == |order| && forall i :: 0 <= i < |order| ==> counts[i] == Contribution(order[i])
  {
    if order == [] then [] else Contributions(order[..|order| - 1], u) + [Contribution(order[|order| - 1])]
  }

  lemma TotalJoins(a: seq<Component>, b: seq<Component>, u: set<Component>)
    requires forall x :: x in a + b ==> x in u
    ensures (forall x :: x in a ==> x in u) && (forall x :: x in b ==> x in u)
    ensures Sum(Contributions(a + b, u)) == Add(Sum(Contributions(a, u)), Sum(Contributions(b, u)))
  {
    assert forall x :: x in a || x in b ==> x in a + b;
    assert Contributions(a + b, u) == Contributions(a, u) + Contributions(b, u);
    SumJoins(Contributions(a, u), Contributions(b, u));
  }

  lemma {:induction false} ListedInside(list: seq<Component>, u: set<Component>, rank: map<Component, nat>, bound: nat)
    requires Ranked(u, rank) && Rankable(list, u, rank, bound)
    ensures forall x :: x in Preorder(list, u, rank, bound) ==> x in u
    decreases bound, |list|
  {
    if list != [] {
      var last := list[|list| - 1];
      ListedInside(list[..|list| - 1], u, rank, bound);
      ListedInside(last.components, u, rank, rank[last]);
    }
  }

  /** The counts of a forest: all contributions of the components in its listing. */
  ghost function Counts(list: seq<Component>, u: set<Component>, rank: map<Component, nat>, bound: nat): Summary
    requires Ranked(u, rank) && Rankable(list, u, rank, bound)
    reads u`components, u`hasComponents
  {
    ListedInside(list, u, rank, bound);
    Sum(Contributions(Preorder(list, u, rank, bound), u))
  }

  /** The counts of one tree. */
  ghost function TreeCounts(c: Component, u: set<Component>, rank: map<Component, nat>): Summary
    requires Ranked(u, rank) && c in u
    reads u`components, u`hasComponents
  {
    Add(Contribution(c), Counts(c.components, u, rank, rank[c]))
  }

  lemma SingleTotal(c: Component, below: seq<Component>, u: set<Component>)
    requires c in u && forall x :: x in below ==> x in u
    ensures forall x :: x in [c] + below ==> x in u
    ensures Sum(Contributions([c] + below, u)) == Add(Contribution(c), Sum(Contributions(below, u)))
  {
    TotalJoins([c], below, u);
    assert Contributions([c], u) == [Contribution(c)];
    SumOne(Contribution(c));
  }

  lemma SumOne(count: Summary)
    ensures Sum([count]) == count
  {
  }

  lemma CountsSnoc(list: seq<Component>, i: nat, u: set<Component>, rank: map<Component, nat>, bound: nat)
    requires Ranked(u, rank) && Rankable(list, u, rank, bound) && i < |list|
    ensures Counts(list[..i + 1], u, rank, bound)
         == Add(Counts(list[..i], u, rank, bound), TreeCounts(list[i], u, rank))
  {
    var c := list[i];
    var before, below := Preorder(list[..i], u, rank, bound), Preorder(c.components, u, rank, rank[c]);
    ListedInside(list[..i], u, rank, bound);
    ListedInside(c.components, u, rank, rank[c]);
    PreorderSnoc(list, i, u, rank, bound);
    SingleTotal(c, below, u);
    TotalJoins(before, [c] + below, u);
  }

  // ---------------------------------------------------------------- the traversal

  /** What every component is to report. */
  type Reports = map<Component, Summary>

  ghost function SumOf(list: seq<Component>, reports: Reports): Summary
    requires forall x :: x in list ==> x in reports
  {
    if list == [] then ZERO else Add(SumOf(list[..|list| - 1], reports), reports[list[|list| - 1]])
  }

  /** One component's report is its own contribution and the reports of its children. */
  ghost predicate PlannedAt(c: Component, u: set<Component>, reports: Reports, below: BelowMap)
    reads c`components, c`hasComponents
  {
    && c in reports && c in below && below[c] <= u
    && (forall x :: x in c.components ==> x in u && x in reports && x in below)
    && reports[c] == Add(Contribution(c), SumOf(c.components, reports))
    && below[c] == BelowAll(c.components, below)
    && (c.hasComponents || c.components == [])
  }

  ghost predicate Planned(u: set<Component>, reports: Reports, below: BelowMap)
    reads u`components, u`hasComponents
  {
    forall c :: c in u ==> PlannedAt(c, u, reports, below)
  }

  ghost predicate Remembered(order: set<Component>, u: set<Component>, reports: Reports)
    reads u`summary
  {
    order <= u && order <= reports.Keys && forall x {:trigger x.summary} :: x in order ==> x.summary == reports[x]
  }

  /** Nothing outside the set has a different summary than before. */
  twostate predicate OthersUntouched(u: set<Component>, order: set<Component>)
    reads u`summary
  {
    forall x {:trigger x.summary} :: x in u && x !in order ==> x.summary == old(x.summary)
  }

  lemma PlanSnoc(list: seq<Component>, i: nat, reports: Reports, below: BelowMap)
    requires i < |list| && forall x :: x in list ==> x in reports && x in below
    ensures SumOf(list[..i + 1], reports) == Add(SumOf(list[..i], reports), reports[list[i]])
    ensures BelowAll(list[..i + 1], below) == BelowAll(list[..i], below) + ({list[i]} + below[list[i]])
  {
    assert list[..i + 1][..i] == list[..i];
  }

  lemma PlannedLeaf(c: Component, u: set<Component>, reports: Reports, below: BelowMap)
    requires PlannedAt(c, u, reports, below)
    ensures c.components == [] ==> reports[c] == Contribution(c) && below[c] == {}
    ensures c.components != [] ==> reports[c] == SumOf(c.components, reports)
  {
  }

  method CountChecks(checks: seq<bool>) returns (s: Summary)
    ensures s == CheckCounts(checks)
  {
    s := ZERO;
    for i := 0 to |checks|
      invariant s == CheckCounts(checks[..i])
    {
      assert checks[..i + 1][..i] == checks[..i];
      if checks[i] {
        s := s.(healthy := s.healthy + 1);
      } else {
        s := s.(unhealthy := s.unhealthy + 1);
      }
    }
    assert checks[..|checks|] == checks;
  }

  method CountStatus(status: Status) returns (s: Summary)
    ensures s == CountOf(status)
  {
    s := ZERO;
    match status
    case Healthy => s := s.(healthy := s.healthy + 1);
    case Unhealthy => s := s.(unhealthy := s.unhealthy + 1);
    case Warning => s := s.(warning := s.warning + 1);
    case Info => s := s.(info := s.info + 1);
    case OtherStatus =>
  }

  /** A component reports its counts, and afterwards every component below it, and no other, has been given its own. */
  method Summarize(c: Component, ghost u: set<Component>, ghost rank: map<Component, nat>,
                   ghost reports: Reports, ghost below: BelowMap)
    returns (s: Summary)
    requires Ranked(u, rank) && c in u && Planned(u, reports, below) && c in reports && c in below
    modifies u`summary
    ensures s == reports[c] && Remembered(below[c], u, reports) && OthersUntouched(u, below[c])
    decreases rank[c], 1
  {
    s := ZERO;
    assert PlannedAt(c, u, reports, below);
    PlannedLeaf(c, u, reports, below);
    if c.checks.Some? && !c.hasComponents {
      s := CountChecks(c.checks.value);
      return;
    }
    if c.components == [] {
      s := CountStatus(c.status);
      return;
    }
    s := SummarizeAll(c, u, rank, reports, below);
  }

  /** The sum over the children. */
  method SummarizeAll(c: Component, ghost u: set<Component>, ghost rank: map<Component, nat>,
                      ghost reports: Reports, ghost below: BelowMap)
    returns (s: Summary)
    requires Ranked(u, rank) && c in u && Planned(u, reports, below) && PlannedAt(c, u, reports, below)
    modifies u`summary
    ensures s == SumOf(c.components, reports) && Remembered(below[c], u, reports) && OthersUntouched(u, below[c])
    decreases rank[c], 0
  {
    var list := c.components;
    assert PlannedAt(c, u, reports, below);
    s := ZERO;
    ghost var done: set<Component> := {};
    for i := 0 to |list|
      invariant s == SumOf(list[..i], reports) && done == BelowAll(list[..i], below)
      invariant Remembered(done, u, reports) && OthersUntouched(u, done)
    {
      PlanSnoc(list, i, reports, below);
      var own := SummarizeChild(list[i], done, u, rank, reports, below);
      s, done := Add(s, own), done + ({list[i]} + below[list[i]]);
    }
    assert list[..|list|] == list;
  }

  /** A child is summarized twice: once for the sum and once for what it is given to remember. */
  method SummarizeTwice(child: Component, ghost u: set<Component>, ghost rank: map<Component, nat>,
                        ghost reports: Reports, ghost below: BelowMap)
    returns (s: Summary)
    requires Ranked(u, rank) && child in u && Planned(u, reports, below) && child in reports && child in below
    modifies u`summary
    ensures s == reports[child]
    ensures Remembered({child} + below[child], u, reports) && OthersUntouched(u, {child} + below[child])
    decreases rank[child], 2
  {
    s := Summarize(child, u, rank, reports, below);
    var again := Summarize(child, u, rank, reports, below);
    SetSummary(child, again, below[child], u, reports);
  }

  method SetSummary(child: Component, own: Summary, ghost order: set<Component>, ghost u: set<Component>,
                    ghost reports: Reports)
    requires child in u && child in reports && own == reports[child] && Remembered(order, u, reports)
    modifies child`summary
    ensures Remembered({child} + order, u, reports) && OthersUntouched(u, {child})
  {
    child.summary := own;
  }

  /** One more child, on top of what is remembered already. */
  method SummarizeChild(child: Component, ghost done: set<Component>, ghost u: set<Component>,
                        ghost rank: map<Component, nat>, ghost reports: Reports, ghost below: BelowMap)
    returns (s: Summary)
    requires Ranked(u, rank) && child in u && Planned(u, reports, below) && Remembered(done, u, reports)
    requires child in reports && child in below
    modifies u`summary
    ensures s == reports[child] && OthersUntouched(u, {child} + below[child])
    ensures Remembered(done + ({child} + below[child]), u, reports)
    decreases rank[child], 3
  {
    s := SummarizeTwice(child, u, rank, reports, below);
    forall x | x in done && x !in {child} + below[child]
      ensures x.summary == reports[x]
    {
      assert x.summary == old(x.summary);
    }
  }

  // ---------------------------------------------------------------- reports are the sums over the listing

  /** The counts of every component's tree. */
  ghost function ReportsOf(u: set<Component>, rank: map<Component, nat>): Reports
    requires Ranked(u, rank)
    reads u`components, u`hasComponents
  {
    map c | c in u :: TreeCounts(c, u, rank)
  }

  lemma {:induction false} ReportsAdd(list: seq<Component>, u: set<Component>, rank: map<Component, nat>, bound: nat,
                                      reports: Reports)
    requires Ranked(u, rank) && Rankable(list, u, rank, bound)
    requires reports == ReportsOf(u, rank)
    ensures SumOf(list, reports) == Counts(list, u, rank, bound)
  {
    if list != [] {
      var k := |list| - 1;
      ReportsAdd(list[..k], u, rank, bound, reports);
      CountsSnoc(list, k, u, rank, bound);
      assert list[..k + 1] == list;
    }
  }

  lemma PlanFits(c: Component, u: set<Component>, rank: map<Component, nat>, reports: Reports, below: BelowMap)
    requires Ranked(u, rank) && ListsKept(u) && c in u
    requires reports == ReportsOf(u, rank)
    requires below == BelowOf(u, rank)
    ensures PlannedAt(c, u, reports, below)
  {
    ReportsAdd(c.components, u, rank, rank[c], reports);
    BelowAdd(c.components, u, rank, rank[c], below);
    ListedInside(c.components, u, rank, rank[c]);
  }

  /** Nothing else can: reports that add up at every component are the sums over the listings. */
  lemma {:induction false} ReportsAreCounts(c: Component, u: set<Component>, rank: map<Component, nat>,
                                            reports: Reports, below: BelowMap)
    requires Ranked(u, rank) && Planned(u, reports, below) && c in u
    ensures c in reports && reports[c] == TreeCounts(c, u, rank)
    decreases rank[c], |c.components| + 1
  {
    assert PlannedAt(c, u, reports, below);
    ReportsSum(c, c.components, u, rank, reports, below);
  }

  lemma {:induction false} ReportsSum(c: Component, list: seq<Component>, u: set<Component>, rank: map<Component, nat>,
                                      reports: Reports, below: BelowMap)
    requires Ranked(u, rank) && Planned(u, reports, below) && c in u
    requires forall x :: x in list ==> x in c.components && x in u && x in reports
    ensures SumOf(list, reports) == Counts(list, u, rank, rank[c])
    decreases rank[c], |list|
  {
    if list != [] {
      var k := |list| - 1;
      ReportsSum(c, list[..k], u, rank, reports, below);
      ReportsAreCounts(list[k], u, rank, reports, below);
      CountsSnoc(list, k, u, rank, rank[c]);
      assert list[..k + 1] == list;
    }
  }

  /** Sums over listings can serve as reports. */
  lemma PlanExists(u: set<Component>, rank: map<Component, nat>) returns (reports: Reports, below: BelowMap)
    requires Ranked(u, rank) && ListsKept(u)
    ensures Planned(u, reports, below)
    ensures reports == ReportsOf(u, rank) && below == BelowOf(u, rank)
  {
    reports, below := ReportsOf(u, rank), BelowOf(u, rank);
    forall c | c in u
      ensures PlannedAt(c, u, reports, below)
    {
      PlanFits(c, u, rank, reports, below);
    }
  }

  /** All that hangs below the listed components, which are not themselves counted in. */
  ghost function BelowThem(list: seq<Component>, below: BelowMap): set<Component>
    requires forall x :: x in list ==> x in below
  {
    if list == [] then {} else BelowThem(list[..|list| - 1], below) + below[list[|list| - 1]]
  }

  lemma BelowThemSnoc(list: seq<Component>, i: nat, reports: Reports, below: BelowMap)
    requires i < |list| && forall x :: x in list ==> x in reports && x in below
    ensures SumOf(list[..i + 1], reports) == Add(SumOf(list[..i], reports), reports[list[i]])
    ensures BelowThem(list[..i + 1], below) == BelowThem(list[..i], below) + below[list[i]]
  {
    assert list[..i + 1][..i] == list[..i];
  }

  /** A list of components is summarized one after the other, without giving them their own counts. */
  method SummarizeList(list: seq<Component>, ghost u: set<Component>, ghost rank: map<Component, nat>,
                       ghost reports: Reports, ghost below: BelowMap)
    returns (s: Summary)
    requires Ranked(u, rank) && Planned(u, reports, below) && forall x :: x in list ==>
      x in u && x in reports && x in below
    modifies u`summary
    ensures s == SumOf(list, reports)
    ensures Remembered(BelowThem(list, below), u, reports) && OthersUntouched(u, BelowThem(list, below))
  {
    s := ZERO;
    ghost var done: set<Component> := {};
    for i := 0 to |list|
      invariant s == SumOf(list[..i], reports) && done == BelowThem(list[..i], below)
      invariant Remembered(done, u, reports) && OthersUntouched(u, done)
    {
      BelowThemSnoc(list, i, reports, below);
      var own := SummarizeOne(list[i], done, u, rank, reports, below);
      s, done := Add(s, own), done + below[list[i]];
    }
    assert list[..|list|] == list;
  }

  method SummarizeOne(c: Component, ghost done: set<Component>, ghost u: set<Component>,
                      ghost rank: map<Component, nat>, ghost reports: Reports, ghost below: BelowMap)
    returns (s: Summary)
    requires Ranked(u, rank) && c in u && Planned(u, reports, below) && Remembered(done, u, reports)
    requires c in reports && c in below
    modifies u`summary
    ensures s == reports[c] && OthersUntouched(u, below[c]) && Remembered(done + below[c], u, reports)
  {
    s := Summarize(c, u, rank, reports, below);
    forall x | x in done && x !in below[c]
      ensures x.summary == reports[x]
    {
      assert x.summary == old(x.summary);
    }
  }
}
