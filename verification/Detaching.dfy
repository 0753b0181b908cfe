/**
 The first loop of a scan: children whose parent lookup resolves leave one component's list for others.
 */
module Detaching {
  import opened Common
  import opened Components
  import opened Layouts
  import opened Moves
  import opened ParentReferences

  /** The components whose parent lookup resolves, with what it resolves to. */
  ghost function Targets(u: set<Component>, refs: ParentRefs): TargetMap
    reads u`parentLookup
  {
    map x | x in u && x.parentLookup.Some? && LookupParent(refs, x.parentLookup.value).Some? ::
      LookupParent(refs, x.parentLookup.value).value
  }

  ghost function ListsOf(u: set<Component>): (lists: ListMap)
    reads u`components
    ensures lists.Keys == u
  {
    map x | x in u :: x.components
  }

  ghost function LayoutOf(u: set<Component>, refs: ParentRefs): Layout
    reads u`components, u`parentLookup
  {
    Layout(ListsOf(u), Targets(u, refs))
  }

  // ---------------------------------------------------------------- detaching one component's children

  ghost predicate ListsFine(u: set<Component>, tidy: set<Component>)
    reads u`components, u`hasComponents, tidy`components, tidy`hasComponents
  {
    ListsKept(u) && ListsTidy(tidy)
  }

  lemma MirrorsAfter(list: seq<Component>, list': seq<Component>, pm: ParentMap, m: Move, p: Component)
    requires m.child in pm && pm[m.child] == m.from && Mirrors(list, pm, p)
    requires list' == if p == m.to && p != m.from then list + [m.child] else list
    requires p != m.from
    ensures Mirrors(list', ApplyMove(pm, m), p)
  {
  }

  lemma MirrorsLess(children: seq<Component>, rest: seq<Component>, pm: ParentMap, m: Move)
    requires rest != [] && m.child == rest[0]
    requires Mirrors(children + rest, pm, m.from)
    ensures Mirrors(children + rest[1..], ApplyMove(pm, m), m.from)
  {
    var list, list' := children + rest, children + rest[1..];
    var gap := |children|;
    assert list[gap] == m.child;
    forall i | 0 <= i < |list'|
      ensures list'[i] == list[if i < gap then i else i + 1] != m.child
    {
    }
    forall x | x in list && x != m.child
      ensures x in list'
    {
      var i :| 0 <= i < |list| && list[i] == x;
      assert list'[if i < gap then i else i - 1] == x;
    }
  }

  /** A child whose lookup is cleared will not be moved again. */
  method ClearLookup(child: Component, ghost refs: ParentRefs, ghost u: set<Component>)
    requires child in u
    modifies child`parentLookup
    ensures Targets(u, refs) == old(Targets(u, refs)) - {child}
  {
    child.parentLookup := None;
  }

  /** The child is appended to its new parent's list, also when that is the list it is being taken from. */
  method AppendChild(child: Component, target: Component, ghost u: set<Component>, ghost pm: ParentMap,
                     ghost c: Component, ghost tidy: set<Component>)
    requires ListsFine(u, tidy) && target in u && child in pm && pm[child] == c
    requires forall p {:trigger p.components} :: p in u && p != c ==> Mirrors(p.components, pm, p)
    modifies target`components, target`hasComponents
    ensures forall p {:trigger p.components} ::
      p in u && p != c ==> Mirrors(p.components, ApplyMove(pm, Move(child, c, target)), p)
    ensures ListsFine(u, tidy) && ListsOf(u) == Joined(old(ListsOf(u)), child, target)
  {
    ghost var m := Move(child, c, target);
    forall p | p in u && p != c
      ensures Mirrors(if p == target then p.components + [child] else p.components, ApplyMove(pm, m), p)
    {
      MirrorsAfter(p.components, if p == target then p.components + [child] else p.components, pm, m, p);
    }
    target.components := target.components + [child];
    target.hasComponents := true;
  }

  /** Outside component `c`, whose list is being rebuilt, all lists are as the parent map says. */
  ghost predicate RepresentsBut(u: set<Component>, pm: ParentMap, c: Component)
    reads u`components
  {
    && (forall x :: x in pm ==> x in u && pm[x] in u)
    && (forall p {:trigger p.components} :: p in u && p != c ==> Mirrors(p.components, pm, p))
  }

  lemma SingleMove(pm: ParentMap, m: Move)
    ensures ApplyMoves(pm, [m]) == ApplyMove(pm, m) && Moved([m]) == {m.child}
  {
    assert [m][..0] == [] && [] + [m] == [m];
    MovedSnoc([], m);
  }

  method MoveFirst(c: Component, ghost children: seq<Component>, rest: seq<Component>, target: Component,
                   ghost refs: ParentRefs, ghost u: set<Component>, ghost pm: ParentMap, ghost tidy: set<Component>)
    returns (ghost moved: seq<Move>)
    requires ListsFine(u, tidy) && c in u && target in u && rest != []
    requires RepresentsBut(u, pm, c) && Mirrors(children + rest, pm, c) && rest[0] in pm && pm[rest[0]] == c
    modifies u`components, u`hasComponents, u`parentLookup
    ensures moved == [Move(rest[0], c, target)]
    ensures Targets(u, refs) == old(Targets(u, refs)) - Moved(moved)
    ensures RepresentsBut(u, ApplyMoves(pm, moved), c) && Mirrors(children + rest[1..], ApplyMoves(pm, moved), c)
    ensures ListsFine(u, tidy) && ListsOf(u) == Joined(old(ListsOf(u)), rest[0], target)
  {
    ghost var move := Move(rest[0], c, target);
    moved := [move];
    SingleMove(pm, move);
    MirrorsLess(children, rest, pm, move);
    AppendChild(rest[0], target, u, pm, c, tidy);
    ClearLookup(rest[0], refs, u);
  }

  /** The next child of `c`: it is moved if its lookup resolves, and otherwise kept. */
  method PlaceChild(c: Component, children: seq<Component>, rest: seq<Component>, refs: ParentRefs,
                    ghost u: set<Component>, ghost pm: ParentMap, ghost tidy: set<Component>)
    returns (children': seq<Component>, ghost moved: seq<Move>)
    requires ListsFine(u, tidy) && c in u && refs.Values <= u && rest != []
    requires RepresentsBut(u, pm, c) && Mirrors(children + rest, pm, c)
    modifies u`components, u`hasComponents, u`parentLookup
    ensures moved
         == if rest[0] in old(Targets(u, refs)) then [Move(rest[0], c, old(Targets(u, refs))[rest[0]])] else []
    ensures children' == children + if rest[0] in old(Targets(u, refs)) then [] else [rest[0]]
    ensures Targets(u, refs) == old(Targets(u, refs)) - Moved(moved)
    ensures RepresentsBut(u, ApplyMoves(pm, moved), c) && Mirrors(children' + rest[1..], ApplyMoves(pm, moved), c)
    ensures ListsFine(u, tidy)
    ensures ListsOf(u) == if rest[0] in old(Targets(u, refs))
                          then Joined(old(ListsOf(u)), rest[0], old(Targets(u, refs))[rest[0]]) else old(ListsOf(u))
  {
    var child := rest[0];
    assert (children + rest)[|children|] == child;
    var found: Option<Component> := None;
    if child.parentLookup.Some? {
      found := LookupParent(refs, child.parentLookup.value);
    }
    assert child in Targets(u, refs) <==> found.Some?;
    if found.Some? {
      moved := MoveFirst(c, children, rest, found.value, refs, u, pm, tidy);
      children' := children;
    } else {
      moved := [];
      assert children + [child] + rest[1..] == children + rest;
      children' := children + [child];
    }
  }

  /** The next child in the list has not been moved by the moves before it. */
  lemma NextChild(list: seq<Component>, i: nat, targets: TargetMap, c: Component)
    requires i < |list| && forall i, j :: 0 <= i < j < |list| ==> list[i] != list[j]
    ensures list[i] !in Moved(MovesOf(list[..i], targets, c))
    ensures MovesOf(list[..i + 1], targets, c)
         == MovesOf(list[..i], targets, c) + if list[i] in targets then [Move(list[i], c, targets[list[i]])] else []
    ensures Kept(list[..i + 1], targets) == Kept(list[..i], targets) + if list[i] in targets then [] else [list[i]]
    ensures list[i..][0] == list[i] && list[i..][1..] == list[i + 1..]
  {
    assert list[..i + 1][..i] == list[..i];
    MovesOfSnoc(list, i, targets, c);
    assert forall j :: 0 <= j < i ==> list[j] != list[i];
  }

  /** The first `i` children of `c` have been placed by `moves`; `children` are those of them that stay. */
  ghost predicate Placed(u: set<Component>, pm: ParentMap, c: Component, list: seq<Component>, i: nat,
                         targets: TargetMap, children: seq<Component>, moves: seq<Move>)
    requires i <= |list|
    reads u`components
  {
    && moves == MovesOf(list[..i], targets, c) && children == Kept(list[..i], targets)
    && RepresentsBut(u, ApplyMoves(pm, moves), c)
    && Mirrors(children + list[i..], ApplyMoves(pm, moves), c)
  }

  /** One round of the first loop. */
  method DetachNext(c: Component, list: seq<Component>, i: nat, children: seq<Component>, refs: ParentRefs,
                    ghost u: set<Component>, ghost pm: ParentMap, ghost targets: TargetMap, ghost moves: seq<Move>,
                    ghost tidy: set<Component>, ghost lists: ListMap)
    returns (children': seq<Component>, ghost moves': seq<Move>)
    requires ListsFine(u, tidy) && c in u && refs.Values <= u && i < |list|
    requires forall i, j :: 0 <= i < j < |list| ==> list[i] != list[j]
    requires Placed(u, pm, c, list, i, targets, children, moves)
    requires Targets(u, refs) == targets - Moved(moves) && ListsOf(u) == Filled(lists, list[..i], targets)
    modifies u`components, u`hasComponents, u`parentLookup
    ensures Placed(u, pm, c, list, i + 1, targets, children', moves')
    ensures Targets(u, refs) == targets - Moved(moves') && ListsOf(u) == Filled(lists, list[..i + 1], targets)
    ensures ListsFine(u, tidy)
  {
    NextChild(list, i, targets, c);
    FilledNext(lists, list, i, targets);
    ghost var moved;
    children', moved := PlaceChild(c, children, list[i..], refs, u, ApplyMoves(pm, moves), tidy);
    MovesExtend(pm, targets, moves, moved);
    moves' := moves + moved;
  }

  /**
   The first loop: children whose lookup resolves are appended to their new parent's list, the others stay. Each
   child moves once, to what its lookup resolves to, and will not move again.
   */
  method DetachResolved(c: Component, refs: ParentRefs, ghost u: set<Component>, ghost pm: ParentMap,
                        ghost tidy: set<Component>)
    returns (ghost moves: seq<Move>)
    requires ListsFine(u, tidy) && c in u && refs.Values <= u && Represents(u, pm)
    modifies u`components, u`hasComponents, u`parentLookup
    ensures moves == MovesOf(old(c.components), old(Targets(u, refs)), c)
    ensures LayoutOf(u, refs) == Detached(old(LayoutOf(u, refs)), c)
    ensures Represents(u, ApplyMoves(pm, moves))
    ensures ListsKept(u) && ListsTidy(tidy + {c})
  {
    var list := c.components;
    var children: seq<Component> := [];
    moves := [];
    ghost var targets, lists := Targets(u, refs), ListsOf(u);
    FilledByNone(lists, targets);
    Ends(list, children);
    for i := 0 to |list|
      invariant Placed(u, pm, c, list, i, targets, children, moves)
      invariant Targets(u, refs) == targets - Moved(moves) && ListsOf(u) == Filled(lists, list[..i], targets)
      invariant ListsFine(u, tidy)
    {
      children, moves := DetachNext(c, list, i, children, refs, u, pm, targets, moves, tidy, lists);
    }
    Ends(list, children);
    SetChildren(c, children, refs, u, ApplyMoves(pm, moves), tidy);
  }

  lemma Ends(list: seq<Component>, children: seq<Component>)
    ensures list[..0] == [] && [] + list[0..] == list && list[..|list|] == list && children + list[|list|..] == children
  {
  }

  method SetChildren(c: Component, children: seq<Component>, ghost refs: ParentRefs, ghost u: set<Component>,
                     ghost pm: ParentMap, ghost tidy: set<Component>)
    requires ListsFine(u, tidy) && c in u && RepresentsBut(u, pm, c) && Mirrors(children, pm, c)
    modifies c`components, c`hasComponents
    ensures Represents(u, pm) && ListsOf(u) == old(ListsOf(u))[c := children]
    ensures Targets(u, refs) == old(Targets(u, refs))
    ensures ListsKept(u) && ListsTidy(tidy + {c})
  {
    c.components := children;
    c.hasComponents := |children| > 0;
    assert forall x :: x in u ==>
      x.parentLookup == old(x.parentLookup) && (x != c ==> x.components == old(x.components));
  }
}
