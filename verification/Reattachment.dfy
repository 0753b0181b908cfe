/**
 The whole step that gives components their parents: index the tree, then traverse and move.
 */
module Reattachment {
  import opened Common
  import opened Components
  import opened Detaching
  import opened HonouredLookups
  import opened Layouts
  import opened Moves
  import opened ParentReferences
  import opened Reparenting
  import opened Scans
  import opened Walks

  /** The parents that lookups ask for: the last component in the listing that answers to the lookup's key. */
  ghost function Wanted(u: set<Component>, order: seq<Component>): TargetMap
    reads u`parentLookup
  {
    map x | x in u && x.parentLookup.Some? && LastNamed(order, LookupKey(x.parentLookup.value)).Some? ::
      LastNamed(order, LookupKey(x.parentLookup.value)).value
  }

  lemma TargetsAreWanted(u: set<Component>, refs: ParentRefs, order: seq<Component>)
    requires Entered(map[], refs, order)
    ensures Targets(u, refs) == Wanted(u, order) && refs.Values <= ToSet(order)
  {
    forall x | x in u && x.parentLookup.Some?
      ensures LookupParent(refs, x.parentLookup.value) == LastNamed(order, LookupKey(x.parentLookup.value))
    {
      LookupFindsLast(refs, order, x.parentLookup.value);
    }
    LookupFindsLast(refs, order, ParentLookup("", "", "", ""));
  }

  /** Every lookup's target is the one that it names in the listing, read in fields. */
  ghost predicate NamedInFields(lookups: map<Component, Option<ParentLookup>>, order: seq<Component>,
                                targets: TargetMap)
  {
    forall x {:trigger Named(lookups, order, targets, x)} :: x in lookups.Keys + targets.Keys ==>
      Named(lookups, order, targets, x)
  }

  ghost predicate Named(lookups: map<Component, Option<ParentLookup>>, order: seq<Component>, targets: TargetMap,
                        x: Component)
  {
    && x in lookups
    && match lookups[x]
       case None => x !in targets
       case Some(lookup) => ResolvesTo(order, lookup, if x in targets then Some(targets[x]) else None)
  }

  ghost function LookupsOf(u: set<Component>): map<Component, Option<ParentLookup>>
    reads u`parentLookup
  {
    map x | x in u :: x.parentLookup
  }

  /** The layout was that of these components: their lists, and what their lookups name in the listing of the tree. */
  twostate predicate LaidOut(u: set<Component>, root: Component, rank: map<Component, nat>, new s: Layout)
    requires old(Ranked(u, rank)) && root in u
    reads u`components, u`parentLookup
  {
    && s == old(Layout(ListsOf(u), Wanted(u, TreeOrder(root, u, rank))))
    && NamedInFields(old(LookupsOf(u)), old(TreeOrder(root, u, rank)), s.targets)
  }

  lemma WantedInFields(u: set<Component>, order: seq<Component>)
    ensures NamedInFields(LookupsOf(u), order, Wanted(u, order))
  {
    forall x | x in u && x.parentLookup.Some?
      ensures var target := if x in Wanted(u, order) then Some(Wanted(u, order)[x]) else None;
        ResolvesTo(order, x.parentLookup.value, target)
    {
      LookupInFields(order, x.parentLookup.value);
    }
  }

  /** The index of the whole tree, in which every lookup finds what it names. */
  method IndexTree(root: Component, ghost u: set<Component>, ghost pm: ParentMap, ghost rank: map<Component, nat>)
    returns (refs: ParentRefs, ghost s: Layout)
    requires IsTree(u, pm, root) && Ranked(u, rank)
    ensures s == Layout(ListsOf(u), Wanted(u, TreeOrder(root, u, rank)))
    ensures NamedInFields(LookupsOf(u), TreeOrder(root, u, rank), s.targets)
    ensures Entered(map[], refs, TreeOrder(root, u, rank))
    ensures refs.Values <= u && LayoutOf(u, refs) == s && s.targets.Values <= u
  {
    ghost var order := TreeOrder(root, u, rank);
    s := Layout(ListsOf(u), Wanted(u, order));
    WantedInFields(u, order);
    WholeTree(u, pm, root, rank);
    refs := PopulateParentRefMap(root, map[], u, rank);
    TargetsAreWanted(u, refs, order);
  }

  /**
   Starting from one tree, exactly the children of scanned components whose lookup resolves are moved, once each and to
   what the lookup resolves to. Which components are scanned, which lookups are honoured, where all components end up
   and in which order they are listed follows from the lists and lookups at the start. Everything is still attached to
   the root exactly when each move went to a new parent that was not inside the subtree of the moved child at that
   moment, and that is so exactly when the parents that the honoured lookups ask for make one tree.
   */
  method UpdateParents(root: Component, ghost u: set<Component>, ghost pm: ParentMap, ghost rank: map<Component, nat>)
    returns (ghost s: Layout, ghost moves: seq<Move>, ghost scanned: set<Component>)
    requires IsTree(u, pm, root) && Ranked(u, rank) && ListsKept(u)
    modifies u`components, u`hasComponents, u`parentLookup
    ensures LaidOut(u, root, rank, s)
    ensures TreeTraversed(pm, root, s, scanned, moves) && scanned <= u
    ensures ApplyMoves(pm, moves) == SettledParents(pm, s, root) && root !in SettledParents(pm, s, root)
    ensures Represents(u, SettledParents(pm, s, root)) && ListsOf(u) == After(Prescribed(s, root), s).lists
    ensures IsTree(u, SettledParents(pm, s, root), root) <==> AllProper(pm, moves)
    ensures AllProper(pm, moves) <==> AskForTree(u, pm, s.targets, HonouredOnes(pm, s, root), root)
    ensures Wanted(u, old(TreeOrder(root, u, rank))) == s.targets - Moved(moves)
    ensures ListsKept(u) && ListsTidy(scanned)
  {
    ghost var order := TreeOrder(root, u, rank);
    var refs;
    refs, s := IndexTree(root, u, pm, rank);
    ghost var scan;
    moves, scanned, scan := ChangeComponentParents(root, refs, u, root, pm, {});
    TargetsAreWanted(u, refs, order);
    assert {} + scanned == scanned;
    SettledAsPrescribed(u, pm, root, s, scan, scanned, moves);
  }

  /** What the end of a traversal of a whole tree means. */
  lemma SettledAsPrescribed(u: set<Component>, pm: ParentMap, root: Component, s: Layout, scan: Scan,
                            scanned: set<Component>, moves: seq<Move>)
    requires Traversed(pm, root, s, scan, scanned, moves) && scan.top == root && scanned <= u && s.lists.Keys == u
    requires root !in pm && pm.Keys <= u && s.targets.Values <= u && forall x :: x in u ==> Rooted(pm, root, x)
    ensures scan == Prescribed(s, root) && TreeTraversed(pm, root, s, scanned, moves)
    ensures ApplyMoves(pm, moves) == SettledParents(pm, s, root)
    ensures (forall x :: x in u ==> Rooted(ApplyMoves(pm, moves), root, x)) <==> AllProper(pm, moves)
    ensures AllProper(pm, moves) <==> AskForTree(u, pm, s.targets, HonouredOnes(pm, s, root), root)
  {
    SameTraversal(pm, root, s, scan, scanned, moves, scan, scanned, moves);
    EndsUp(pm, root, s, scanned, moves);
    NothingLostExactly(u, pm, root, s, scanned, moves);
    MovesInside(u, pm, s.targets, scanned, moves);
    Conserved(u, pm, root, moves);
  }

  lemma MovesInside(u: set<Component>, pm: ParentMap, targets: TargetMap, scanned: set<Component>, moves: seq<Move>)
    requires MovesExactly(pm, targets, scanned, moves) && pm.Keys <= u && targets.Values <= u
    ensures forall k {:trigger moves[k]} :: 0 <= k < |moves| ==> moves[k].child in u && moves[k].to in u
  {
  }

  // ---------------------------------------------------------------- where components end up

  /**
   A child of a scanned component whose lookup resolves ends up under the component that it resolves to, but a child
   that asks for the parent it already has ends up under none.
   */
  lemma Settled(pm: ParentMap, targets: TargetMap, scanned: set<Component>, moves: seq<Move>, x: Component)
    requires MovesExactly(pm, targets, scanned, moves) && x in pm && pm[x] in scanned && x in targets
    ensures var pm' := ApplyMoves(pm, moves);
      if targets[x] == pm[x] then x !in pm' else x in pm' && pm'[x] == targets[x]
  {
    var k :| 0 <= k < |moves| && moves[k].child == x;
    assert AskedFor(pm, targets, scanned, moves[k]);
    MovedOnce(pm, moves, k);
  }

  /** Every other component stays where it is. */
  lemma Unmoved(pm: ParentMap, targets: TargetMap, scanned: set<Component>, moves: seq<Move>, x: Component)
    requires MovesExactly(pm, targets, scanned, moves) && (x in pm && x in targets ==> pm[x] !in scanned)
    ensures x in ApplyMoves(pm, moves) <==> x in pm
    ensures x in pm ==> ApplyMoves(pm, moves)[x] == pm[x]
  {
    OthersStay(pm, targets, scanned, moves, x);
  }

  /** A component that asks for the parent it has is lost, and what hangs below it with it. */
  lemma {:induction false} LostBelow(pm: ParentMap, root: Component, targets: TargetMap, scanned: set<Component>,
                                     moves: seq<Move>, x: Component, y: Component, n: nat)
    requires MovesExactly(pm, targets, scanned, moves) && x in pm && pm[x] in scanned && x in targets
    requires targets[x] == pm[x]
    requires x != root && root !in pm && Above(ApplyMoves(pm, moves), x, y, n)
    ensures !Rooted(ApplyMoves(pm, moves), root, y)
  {
    var pm' := ApplyMoves(pm, moves);
    Settled(pm, targets, scanned, moves, x);
    forall m: nat | Above(pm', root, y, m)
      ensures false
    {
      if n <= m {
        AboveSplit(pm', x, root, y, n, m);
      } else {
        AboveSplit(pm', root, x, y, m, n);
        RootUnmoved(pm, root, targets, scanned, moves);
      }
    }
  }

  lemma RootUnmoved(pm: ParentMap, root: Component, targets: TargetMap, scanned: set<Component>, moves: seq<Move>)
    requires MovesExactly(pm, targets, scanned, moves) && root !in pm
    ensures root !in ApplyMoves(pm, moves)
  {
    Unmoved(pm, targets, scanned, moves, root);
  }

  // ---------------------------------------------------------------- a condition on the lookups alone

  /**
   There is an order in which every component comes after its parent and after the one that its lookup resolves to.
   */
  ghost predicate Ordered(u: set<Component>, pm: ParentMap, targets: TargetMap, level: map<Component, nat>) {
    && u <= level.Keys && pm.Keys <= u && pm.Values <= u && targets.Values <= u
    && (forall x :: x in pm ==> level[pm[x]] < level[x])
    && (forall x :: x in targets && x in pm ==> level[targets[x]] < level[x])
  }

  ghost predicate Leveled(u: set<Component>, pm: ParentMap, level: map<Component, nat>) {
    && u <= level.Keys
    && (forall x :: x in pm ==> x in u && pm[x] in u && level[pm[x]] < level[x])
  }

  lemma {:induction false} StaysLeveled(u: set<Component>, pm: ParentMap, targets: TargetMap,
                                        level: map<Component, nat>, scanned: set<Component>, moves: seq<Move>)
    requires Ordered(u, pm, targets, level)
    requires forall k :: 0 <= k < |moves| ==> AskedFor(pm, targets, scanned, moves[k])
    ensures Leveled(u, ApplyMoves(pm, moves), level)
  {
    if moves != [] {
      var last := |moves| - 1;
      assert forall k :: 0 <= k < last ==> moves[..last][k] == moves[k];
      StaysLeveled(u, pm, targets, level, scanned, moves[..last]);
      assert AskedFor(pm, targets, scanned, moves[last]);
    }
  }

  lemma {:induction false} LevelAbove(u: set<Component>, pm: ParentMap, level: map<Component, nat>, a: Component,
                                      x: Component, n: nat)
    requires Leveled(u, pm, level) && a in u && x in u && Above(pm, a, x, n)
    ensures level[a] <= level[x]
  {
    if n > 0 {
      LevelAbove(u, pm, level, a, pm[x], n - 1);
    }
  }

  /**
   If parents and lookups together admit such an order, and no component asks for the parent that it already has, every
   move is proper whatever the traversal has done before it, and so nothing is lost.
   */
  lemma OrderedLookupsAreProper(u: set<Component>, pm: ParentMap, targets: TargetMap, level: map<Component, nat>,
                                scanned: set<Component>, moves: seq<Move>)
    requires Ordered(u, pm, targets, level) && MovesExactly(pm, targets, scanned, moves)
    requires forall x :: x in targets && x in pm ==> targets[x] != pm[x]
    ensures AllProper(pm, moves)
  {
    forall k {:trigger moves[k]} | 0 <= k < |moves|
      ensures Proper(ApplyMoves(pm, moves[..k]), moves[k])
    {
      assert forall i :: 0 <= i < k ==> moves[..k][i] == moves[i];
      StaysLeveled(u, pm, targets, level, scanned, moves[..k]);
      var m := moves[k];
      assert AskedFor(pm, targets, scanned, m);
      forall n: nat
        ensures !Above(ApplyMoves(pm, moves[..k]), m.child, m.to, n)
      {
        if Above(ApplyMoves(pm, moves[..k]), m.child, m.to, n) {
          LevelAbove(u, ApplyMoves(pm, moves[..k]), level, m.child, m.to, n);
        }
      }
    }
  }

  // ---------------------------------------------------------------- what is left attached

  ghost function AttachedMap(u: set<Component>, pm: ParentMap, root: Component): ParentMap {
    map x | x in pm && x in RootedPart(u, pm, root) :: pm[x]
  }

  /** Whatever was lost, the components that still hang below the root form one tree. */
  lemma AttachedPartIsTree(u: set<Component>, pm: ParentMap, root: Component)
    requires root in u && root !in pm && Represents(u, pm)
    ensures IsTree(RootedPart(u, pm, root), AttachedMap(u, pm, root), root)
  {
    var part := RootedPart(u, pm, root);
    var pm' := AttachedMap(u, pm, root);
    assert Above(pm, root, root, 0);
    forall x | x in pm && (x in part || pm[x] in part)
      ensures x in part && pm[x] in part
    {
      ParentAttached(pm, root, x);
    }
    forall x | x in part
      ensures Rooted(pm', root, x)
    {
      var n: nat :| Above(pm, root, x, n);
      AboveInPart(pm, pm', root, x, n);
    }
    forall p {:trigger p.components} | p in part
      ensures Mirrors(p.components, pm', p)
    {
      assert Mirrors(p.components, pm, p);
    }
  }

  lemma ParentAttached(pm: ParentMap, root: Component, x: Component)
    requires root !in pm && x in pm
    ensures Rooted(pm, root, x) <==> Rooted(pm, root, pm[x])
  {
    if Rooted(pm, root, x) {
      var n: nat :| Above(pm, root, x, n);
      assert n > 0 && Above(pm, root, pm[x], n - 1);
    } else if Rooted(pm, root, pm[x]) {
      var n: nat :| Above(pm, root, pm[x], n);
      assert Above(pm, root, x, n + 1);
    }
  }

  lemma {:induction false} AboveInPart(pm: ParentMap, pm': ParentMap, root: Component, x: Component, n: nat)
    requires root !in pm && Above(pm, root, x, n)
    requires forall y :: y in pm && Rooted(pm, root, y) ==> y in pm' && pm'[y] == pm[y]
    ensures Rooted(pm', root, x)
  {
    if n == 0 {
      assert Above(pm', root, x, 0);
    } else {
      AboveInPart(pm, pm', root, pm[x], n - 1);
      var k: nat :| Above(pm', root, pm[x], k);
      assert Above(pm', root, x, k + 1);
    }
  }
}
