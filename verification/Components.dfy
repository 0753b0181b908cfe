/**
 Components of a topology: objects that hold their children and are rearranged in place.

 The shape of a set of components is described by its parent map, which sends a child to the
 component whose list it is in.
 */
module Components {
  import opened Common

  type Uuid = nat

  datatype ParentLookup = ParentLookup(name: string, kind: string, namespace: string, externalId: string)

  datatype Status = Healthy | Unhealthy | Warning | Info | OtherStatus

  /** The status counts of a summary. */
  datatype Summary = Summary(healthy: int, unhealthy: int, warning: int, info: int)

  class Component {
    const name: string
    const kind: string
    const namespace: string
    const externalId: string
    /** Whether each check attached to the component is healthy; none when there is no list at all. */
    const checks: Option<seq<bool>>
    const status: Status
    var components: seq<Component>
    /** A list of children that has never been assigned differs from an empty one. */
    var hasComponents: bool
    var parentLookup: Option<ParentLookup>
    var summary: Summary
    var id: Uuid
    var topologyId: Uuid
    var parentId: Option<Uuid>
    var path: seq<Uuid>

    constructor (name: string, kind: string, namespace: string, externalId: string, checks: Option<seq<bool>>,
                 status: Status, parentLookup: Option<ParentLookup>)
      ensures components == [] && !hasComponents && this.parentLookup == parentLookup
      ensures this.name == name && this.kind == kind && this.namespace == namespace && this.externalId == externalId
      ensures this.checks == checks && this.status == status
      ensures parentId == None && path == []
    {
      this.name, this.kind, this.namespace, this.externalId := name, kind, namespace, externalId;
      this.checks, this.status, this.parentLookup := checks, status, parentLookup;
      components, hasComponents, summary := [], false, Summary(0, 0, 0, 0);
      id, topologyId, parentId, path := 0, 0, None, [];
    }
  }

  type ParentMap = map<Component, Component>

  // ---------------------------------------------------------------- lists and the parent map

  /** The list holds, once each, exactly the children that the map gives to `p`. */
  ghost predicate Mirrors(list: seq<Component>, pm: ParentMap, p: Component) {
    && (forall i, j :: 0 <= i < j < |list| ==> list[i] != list[j])
    && (forall x :: x in list ==> x in pm && pm[x] == p)
    && (forall x :: x in pm && pm[x] == p ==> x in list)
  }

  /** The lists of all components in `u` are as the parent map says; in particular no component is in two lists. */
  ghost predicate Represents(u: set<Component>, pm: ParentMap)
    reads u`components
  {
    && (forall x :: x in pm ==> x in u && pm[x] in u)
    && (forall p {:trigger p.components} :: p in u ==> Mirrors(p.components, pm, p))
  }

  /** A component without a list of children has no children. */
  ghost predicate ListsKept(u: set<Component>)
    reads u`components, u`hasComponents
  {
    forall c :: c in u && !c.hasComponents ==> c.components == []
  }

  /** Components in the set have a list exactly when they have children: an empty list is none at all. */
  ghost predicate ListsTidy(s: set<Component>)
    reads s`components, s`hasComponents
  {
    forall c :: c in s ==> (c.hasComponents <==> c.components != [])
  }

  // ---------------------------------------------------------------- reaching the root

  /** `top` is reached from `x` by going up `n` times. */
  ghost predicate Above(pm: ParentMap, top: Component, x: Component, n: nat) {
    if n == 0 then x == top else x in pm && Above(pm, top, pm[x], n - 1)
  }

  ghost predicate Rooted(pm: ParentMap, root: Component, x: Component) {
    exists n: nat :: Above(pm, root, x, n)
  }

  /** All of `u` hangs together as one tree below `root`. */
  ghost predicate IsTree(u: set<Component>, pm: ParentMap, root: Component)
    reads u`components
  {
    && root in u && root !in pm
    && Represents(u, pm)
    && forall x :: x in u ==> Rooted(pm, root, x)
  }

  lemma {:induction false} AboveUnique(pm: ParentMap, root: Component, x: Component, n: nat, m: nat)
    requires root !in pm && Above(pm, root, x, n) && Above(pm, root, x, m)
    ensures n == m
  {
    if n > 0 && m > 0 {
      AboveUnique(pm, root, pm[x], n - 1, m - 1);
    }
  }

  lemma {:induction false} AboveSplit(pm: ParentMap, a: Component, b: Component, x: Component, n: nat, m: nat)
    requires Above(pm, a, x, n) && Above(pm, b, x, m) && n <= m
    ensures Above(pm, b, a, m - n)
  {
    if n > 0 {
      AboveSplit(pm, a, b, pm[x], n - 1, m - 1);
    }
  }

  lemma {:induction false} AboveJoin(pm: ParentMap, a: Component, b: Component, x: Component, n: nat, m: nat)
    requires Above(pm, a, x, n) && Above(pm, b, a, m)
    ensures Above(pm, b, x, n + m)
  {
    if n > 0 {
      AboveJoin(pm, a, b, pm[x], n - 1, m);
    }
  }

  /** The number of steps from a component up to the root. */
  ghost function Depth(pm: ParentMap, root: Component, x: Component): nat
    requires Rooted(pm, root, x)
  {
    var n: nat :| Above(pm, root, x, n);
    n
  }

  lemma ChildDepth(pm: ParentMap, root: Component, x: Component)
    requires root !in pm && x in pm && Rooted(pm, root, pm[x])
    ensures Rooted(pm, root, x) && Depth(pm, root, x) == Depth(pm, root, pm[x]) + 1
  {
    var n := Depth(pm, root, pm[x]);
    assert Above(pm, root, x, n + 1);
    AboveUnique(pm, root, x, n + 1, Depth(pm, root, x));
  }

  // ---------------------------------------------------------------- ranks

  /** Children have smaller ranks, so that recursion over the lists ends. */
  ghost predicate Ranked(u: set<Component>, rank: map<Component, nat>)
    reads u`components
  {
    && (forall p :: p in u ==> p in rank)
    && forall p {:trigger p.components} :: p in u ==> forall x :: x in p.components ==> x in u && rank[x] < rank[p]
  }

  lemma {:induction false} DepthBound(s: set<Component>, pm: ParentMap, root: Component) returns (bound: nat)
    requires forall x :: x in s ==> Rooted(pm, root, x)
    ensures forall x :: x in s ==> Depth(pm, root, x) <= bound
  {
    if s == {} {
      bound := 0;
    } else {
      var y :| y in s;
      bound := DepthBound(s - {y}, pm, root);
      bound := if Depth(pm, root, y) <= bound then bound else Depth(pm, root, y);
    }
  }

  /** The components that still hang below the root. */
  ghost function RootedPart(u: set<Component>, pm: ParentMap, root: Component): set<Component> {
    set x | x in u && Rooted(pm, root, x)
  }

  /** What hangs below the root can be ranked, whatever else there is. */
  lemma RankExists(u: set<Component>, pm: ParentMap, root: Component) returns (rank: map<Component, nat>)
    requires root !in pm && Represents(u, pm)
    ensures Ranked(RootedPart(u, pm, root), rank)
  {
    var part := RootedPart(u, pm, root);
    var bound := DepthBound(part, pm, root);
    rank := map x | x in part :: bound - Depth(pm, root, x);
    forall p, x | p in part && x in p.components
      ensures x in part && rank[x] < rank[p]
    {
      ChildDepth(pm, root, x);
    }
  }
}
