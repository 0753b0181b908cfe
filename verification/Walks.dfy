/**
 Listing a forest of components in preorder: a component before its children, and subtrees one after the other.
 */
module Walks {
  import opened Common
  import opened Components

  /** Components of `u` from which a traversal can start; all below them rank under `bound`. */
  ghost predicate Rankable(list: seq<Component>, u: set<Component>, rank: map<Component, nat>, bound: nat) {
    forall x :: x in list ==> x in u && x in rank && rank[x] < bound
  }

  /** The preorder of the trees whose tops are listed. */
  ghost function Preorder(list: seq<Component>, u: set<Component>, rank: map<Component, nat>,
                          bound: nat): seq<Component>
    requires Ranked(u, rank) && Rankable(list, u, rank, bound)
    reads u`components
    decreases bound, |list|
  {
    if list == [] then []
    else
      var last := list[|list| - 1];
      Preorder(list[..|list| - 1], u, rank, bound) + [last] + Preorder(last.components, u, rank, rank[last])
  }

  /** The preorder of one tree. */
  ghost function TreeOrder(c: Component, u: set<Component>, rank: map<Component, nat>): seq<Component>
    requires Ranked(u, rank) && c in u
    reads u`components
  {
    [c] + Preorder(c.components, u, rank, rank[c])
  }

  lemma PreorderSnoc(list: seq<Component>, i: nat, u: set<Component>, rank: map<Component, nat>, bound: nat)
    requires Ranked(u, rank) && Rankable(list, u, rank, bound) && i < |list|
    ensures Preorder(list[..i + 1], u, rank, bound) == Preorder(list[..i], u, rank, bound) + TreeOrder(list[i], u, rank)
  {
    assert list[..i + 1][..i] == list[..i];
  }

  lemma PreorderNext(list: seq<Component>, i: nat, u: set<Component>, rank: map<Component, nat>, bound: nat)
    requires Ranked(u, rank) && Rankable(list, u, rank, bound) && i < |list|
    ensures Preorder(list[..i + 1], u, rank, bound)
         == Preorder(list[..i], u, rank, bound) + [list[i]] + Preorder(list[i].components, u, rank, rank[list[i]])
    ensures list[i].components == [] ==>
      Preorder(list[..i + 1], u, rank, bound) == Preorder(list[..i], u, rank, bound) + [list[i]]
  {
    assert list[..i + 1][..i] == list[..i];
  }

  /** The listing of a forest, by appending one tree after the other. */
  method Walk(list: seq<Component>, ghost u: set<Component>, ghost rank: map<Component, nat>, ghost bound: nat)
    returns (comps: seq<Component>)
    requires Ranked(u, rank) && Rankable(list, u, rank, bound)
    ensures comps == Preorder(list, u, rank, bound)
    decreases bound
  {
    comps := [];
    for i := 0 to |list|
      invariant comps == Preorder(list[..i], u, rank, bound)
    {
      PreorderNext(list, i, u, rank, bound);
      var c := list[i];
      comps := comps + [c];
      if c.components != [] {
        var below := Walk(c.components, u, rank, rank[c]);
        comps := comps + below;
      }
    }
    assert list[..|list|] == list;
  }

  // ---------------------------------------------------------------- the listing and the tree

  lemma {:induction false} RankAbove(u: set<Component>, pm: ParentMap, rank: map<Component, nat>, a: Component,
                                     x: Component, n: nat)
    requires Represents(u, pm) && Ranked(u, rank) && a in u && x in u && Above(pm, a, x, n)
    ensures rank[x] + n <= rank[a]
  {
    if n > 0 {
      assert x in pm[x].components;
      RankAbove(u, pm, rank, a, pm[x], n - 1);
    }
  }

  /** The component hangs below one of those listed. */
  ghost predicate BelowOne(pm: ParentMap, list: seq<Component>, x: Component) {
    exists i :: 0 <= i < |list| && Rooted(pm, list[i], x)
  }

  /** What hangs below a component is that component and what hangs below its children. */
  lemma BelowParts(u: set<Component>, pm: ParentMap, c: Component, x: Component)
    requires Represents(u, pm) && c in u
    ensures Rooted(pm, c, x) <==> x == c || BelowOne(pm, c.components, x)
  {
    if x == c {
      assert Above(pm, c, x, 0);
    } else if Rooted(pm, c, x) {
      var n: nat :| Above(pm, c, x, n);
      LastStep(pm, c, x, n);
      var y :| y in pm && pm[y] == c && Above(pm, y, x, n - 1);
      assert y in c.components;
      var i :| 0 <= i < |c.components| && c.components[i] == y;
      assert Rooted(pm, c.components[i], x);
    } else if BelowOne(pm, c.components, x) {
      var i :| 0 <= i < |c.components| && Rooted(pm, c.components[i], x);
      var y := c.components[i];
      var n: nat :| Above(pm, y, x, n);
      assert Above(pm, c, pm[y], 0);
      assert Above(pm, c, y, 1);
      AboveJoin(pm, y, c, x, n, 1);
      assert Rooted(pm, c, x);
    }
  }

  lemma {:induction false} LastStep(pm: ParentMap, c: Component, x: Component, n: nat)
    requires Above(pm, c, x, n) && n > 0
    ensures exists y :: y in pm && pm[y] == c && Above(pm, y, x, n - 1)
  {
    if n == 1 {
      assert pm[x] == c && Above(pm, x, x, 0);
    } else {
      LastStep(pm, c, pm[x], n - 1);
      var y :| y in pm && pm[y] == c && Above(pm, y, pm[x], n - 2);
      assert Above(pm, y, x, n - 1);
    }
  }

  lemma BelowSnoc(pm: ParentMap, front: seq<Component>, last: Component, x: Component)
    ensures BelowOne(pm, front + [last], x) <==> BelowOne(pm, front, x) || Rooted(pm, last, x)
  {
    var list := front + [last];
    if BelowOne(pm, front, x) {
      var i :| 0 <= i < |front| && Rooted(pm, front[i], x);
      assert Rooted(pm, list[i], x);
    }
    if Rooted(pm, last, x) {
      assert Rooted(pm, list[|front|], x);
    }
  }

  /** The listing holds what hangs below the components it starts from, and nothing else. */
  lemma {:induction false} ListsSubtrees(list: seq<Component>, u: set<Component>, pm: ParentMap,
                                         rank: map<Component, nat>, bound: nat, x: Component)
    requires Represents(u, pm) && Ranked(u, rank) && Rankable(list, u, rank, bound)
    ensures x in Preorder(list, u, rank, bound) <==> BelowOne(pm, list, x)
    decreases bound, |list|
  {
    if list != [] {
      var front, last := list[..|list| - 1], list[|list| - 1];
      assert front + [last] == list;
      ListsSubtrees(front, u, pm, rank, bound, x);
      ListsSubtrees(last.components, u, pm, rank, rank[last], x);
      BelowParts(u, pm, last, x);
      BelowSnoc(pm, front, last, x);
    }
  }

  /** None of the components is inside the tree of another. */
  ghost predicate Apart(pm: ParentMap, list: seq<Component>) {
    forall i, j {:trigger list[i], list[j]} :: 0 <= i < |list| && 0 <= j < |list| && i != j ==>
      !Rooted(pm, list[i], list[j])
  }

  /** Different children of one component are apart. */
  lemma SiblingsApart(u: set<Component>, pm: ParentMap, rank: map<Component, nat>, c: Component)
    requires Represents(u, pm) && Ranked(u, rank) && c in u
    ensures Apart(pm, c.components)
  {
    var list := c.components;
    forall i, j | 0 <= i < |list| && 0 <= j < |list| && i != j
      ensures !Rooted(pm, list[i], list[j])
    {
      if Rooted(pm, list[i], list[j]) {
        var n: nat :| Above(pm, list[i], list[j], n);
        assert n > 0 && pm[list[j]] == c;
        RankAbove(u, pm, rank, list[i], c, n - 1);
      }
    }
  }

  /** Trees that are apart have nothing in common. */
  lemma NothingShared(pm: ParentMap, list: seq<Component>, i: nat, j: nat, x: Component)
    requires Apart(pm, list) && i < |list| && j < |list| && Rooted(pm, list[i], x) && Rooted(pm, list[j], x)
    ensures i == j
  {
    var n: nat :| Above(pm, list[i], x, n);
    var m: nat :| Above(pm, list[j], x, m);
    if n <= m {
      AboveSplit(pm, list[i], list[j], x, n, m);
      assert Rooted(pm, list[j], list[i]);
    } else {
      AboveSplit(pm, list[j], list[i], x, m, n);
      assert Rooted(pm, list[i], list[j]);
    }
  }

  lemma DistinctJoin<T>(a: seq<T>, b: seq<T>)
    requires Distinct(a) && Distinct(b) && forall x :: x in a ==> x !in b
    ensures Distinct(a + b)
  {
    var both := a + b;
    forall i, j | 0 <= i < j < |both|
      ensures both[i] != both[j]
    {
      if i < |a| <= j {
        assert both[i] in a && both[j] in b;
      }
    }
  }

  /** The listing of trees that are apart has no repetitions. */
  lemma {:induction false} ListsOnce(list: seq<Component>, u: set<Component>, pm: ParentMap, rank: map<Component, nat>,
                                     bound: nat)
    requires Represents(u, pm) && Ranked(u, rank) && Rankable(list, u, rank, bound) && Apart(pm, list)
    ensures Distinct(Preorder(list, u, rank, bound))
    decreases bound, |list|
  {
    if list != [] {
      var k := |list| - 1;
      var front, last := list[..k], list[k];
      var before, below := Preorder(front, u, rank, bound), Preorder(last.components, u, rank, rank[last]);
      ListsOnce(front, u, pm, rank, bound);
      SiblingsApart(u, pm, rank, last);
      ListsOnce(last.components, u, pm, rank, rank[last]);
      TopNotBelow(u, pm, rank, last);
      DistinctJoin([last], below);
      forall x | x in before
        ensures x !in [last] + below
      {
        ListsSubtrees(front, u, pm, rank, bound, x);
        var i :| 0 <= i < |front| && Rooted(pm, front[i], x);
        if x in [last] + below {
          ListsSubtrees(last.components, u, pm, rank, rank[last], x);
          BelowParts(u, pm, last, x);
          NothingShared(pm, list, i, k, x);
        }
      }
      DistinctJoin(before, [last] + below);
      assert before + [last] + below == before + ([last] + below);
    }
  }

  lemma TopNotBelow(u: set<Component>, pm: ParentMap, rank: map<Component, nat>, c: Component)
    requires Represents(u, pm) && Ranked(u, rank) && c in u
    ensures c !in Preorder(c.components, u, rank, rank[c])
  {
    ListsSubtrees(c.components, u, pm, rank, rank[c], c);
    if i :| 0 <= i < |c.components| && Rooted(pm, c.components[i], c) {
      var n: nat :| Above(pm, c.components[i], c, n);
      RankAbove(u, pm, rank, c.components[i], c, n);
    }
  }

  /** The listing of the tree below any component has no repetitions. */
  lemma TreeListedOnce(c: Component, u: set<Component>, pm: ParentMap, rank: map<Component, nat>)
    requires Represents(u, pm) && Ranked(u, rank) && c in u
    ensures Distinct(TreeOrder(c, u, rank))
  {
    SiblingsApart(u, pm, rank, c);
    ListsOnce(c.components, u, pm, rank, rank[c]);
    TopNotBelow(u, pm, rank, c);
    DistinctJoin([c], Preorder(c.components, u, rank, rank[c]));
  }

  /** What is listed below an earlier sibling comes before what is listed below a later one. */
  lemma {:induction false} SiblingsInOrder(list: seq<Component>, u: set<Component>, rank: map<Component, nat>,
                                           bound: nat, i: nat, j: nat, x: Component, y: Component)
    returns (m: nat, n: nat)
    requires Ranked(u, rank) && Rankable(list, u, rank, bound) && i < j < |list|
    requires x in TreeOrder(list[i], u, rank) && y in TreeOrder(list[j], u, rank)
    ensures var order := Preorder(list, u, rank, bound); m < n < |order| && order[m] == x && order[n] == y
  {
    var last := |list| - 1;
    var front, tree := Preorder(list[..last], u, rank, bound), TreeOrder(list[last], u, rank);
    PreorderSnoc(list, last, u, rank, bound);
    assert list[..last + 1] == list;
    if j < last {
      m, n := SiblingsInOrder(list[..last], u, rank, bound, i, j, x, y);
    } else {
      ListsTree(list[..last], u, rank, bound, i, x);
      m :| 0 <= m < |front| && front[m] == x;
      var k :| 0 <= k < |tree| && tree[k] == y;
      n := |front| + k;
    }
  }

  lemma {:induction false} ListsTree(list: seq<Component>, u: set<Component>, rank: map<Component, nat>, bound: nat,
                                     i: nat, x: Component)
    requires Ranked(u, rank) && Rankable(list, u, rank, bound) && i < |list| && x in TreeOrder(list[i], u, rank)
    ensures x in Preorder(list, u, rank, bound)
  {
    var last := |list| - 1;
    PreorderSnoc(list, last, u, rank, bound);
    assert list[..last + 1] == list;
    if i < last {
      ListsTree(list[..last], u, rank, bound, i, x);
    }
  }

  /** The listing of a tree: every component that hangs together with the root, exactly once, the root first. */
  lemma WholeTree(u: set<Component>, pm: ParentMap, root: Component, rank: map<Component, nat>)
    requires IsTree(u, pm, root) && Ranked(u, rank)
    ensures var order := TreeOrder(root, u, rank);
      Distinct(order) && ToSet(order) == u && order[0] == root
  {
    var below := Preorder(root.components, u, rank, rank[root]);
    SiblingsApart(u, pm, rank, root);
    ListsOnce(root.components, u, pm, rank, rank[root]);
    TopNotBelow(u, pm, rank, root);
    DistinctJoin([root], below);
    forall x
      ensures x in u <==> x in [root] + below
    {
      InTree(u, pm, root, rank, x);
    }
    assert ToSet([root] + below) == u;
  }

  lemma InTree(u: set<Component>, pm: ParentMap, root: Component, rank: map<Component, nat>, x: Component)
    requires IsTree(u, pm, root) && Ranked(u, rank)
    ensures x in u <==> x in TreeOrder(root, u, rank)
  {
    ListsSubtrees(root.components, u, pm, rank, rank[root], x);
    BelowParts(u, pm, root, x);
    if Rooted(pm, root, x) {
      var n: nat :| Above(pm, root, x, n);
      assert n > 0 ==> x in pm;
    }
  }

  /** A component is listed before its children. */
  lemma {:induction false} ParentFirst(list: seq<Component>, u: set<Component>, rank: map<Component, nat>, bound: nat,
                                       k: nat, x: Component)
    requires Ranked(u, rank) && Rankable(list, u, rank, bound) && k < |Preorder(list, u, rank, bound)|
    requires Preorder(list, u, rank, bound)[k] in u && x in Preorder(list, u, rank, bound)[k].components
    ensures x in Preorder(list, u, rank, bound)[k + 1..]
    decreases bound, |list|
  {
    var front, last := list[..|list| - 1], list[|list| - 1];
    var before, below := Preorder(front, u, rank, bound), Preorder(last.components, u, rank, rank[last]);
    var all := before + [last] + below;
    if k < |before| {
      ParentFirst(front, u, rank, bound, k, x);
      var j :| 0 <= j < |before[k + 1..]| && before[k + 1..][j] == x;
      assert all[k + 1..][j] == x;
    } else if k == |before| {
      assert all[k + 1..] == below;
      TopsListed(last.components, u, rank, rank[last], x);
    } else {
      ParentFirst(last.components, u, rank, rank[last], k - |before| - 1, x);
      assert all[k + 1..] == below[k - |before|..];
    }
  }

  lemma {:induction false} TopsListed(list: seq<Component>, u: set<Component>, rank: map<Component, nat>, bound: nat,
                                      x: Component)
    requires Ranked(u, rank) && Rankable(list, u, rank, bound) && x in list
    ensures x in Preorder(list, u, rank, bound)
  {
    var front, last := list[..|list| - 1], list[|list| - 1];
    assert list == front + [last];
    if x != last {
      TopsListed(front, u, rank, bound, x);
    }
  }

  // ---------------------------------------------------------------- what is below what, as sets

  /** For every component, what hangs below it. */
  type BelowMap = map<Component, set<Component>>

  ghost function BelowAll(list: seq<Component>, below: BelowMap): set<Component>
    requires forall x :: x in list ==> x in below
  {
    if list == [] then {} else BelowAll(list[..|list| - 1], below) + {list[|list| - 1]} + below[list[|list| - 1]]
  }

  /** What is listed below every component. */
  ghost function BelowOf(u: set<Component>, rank: map<Component, nat>): BelowMap
    requires Ranked(u, rank)
    reads u`components
  {
    map c | c in u :: ToSet(Preorder(c.components, u, rank, rank[c]))
  }

  lemma ToSetJoins(a: seq<Component>, c: Component, b: seq<Component>)
    ensures ToSet(a + ([c] + b)) == ToSet(a) + {c} + ToSet(b)
  {
  }

  lemma {:induction false} BelowAdd(list: seq<Component>, u: set<Component>, rank: map<Component, nat>, bound: nat,
                                    below: BelowMap)
    requires Ranked(u, rank) && Rankable(list, u, rank, bound)
    requires below == BelowOf(u, rank)
    ensures BelowAll(list, below) == ToSet(Preorder(list, u, rank, bound))
  {
    if list != [] {
      var k := |list| - 1;
      BelowAdd(list[..k], u, rank, bound, below);
      PreorderSnoc(list, k, u, rank, bound);
      assert list[..k + 1] == list;
      ToSetJoins(Preorder(list[..k], u, rank, bound), list[k], Preorder(list[k].components, u, rank, rank[list[k]]));
    }
  }
}
