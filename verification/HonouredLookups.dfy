/**
 Which lookups a traversal honours, and where all components end up. It never gets below a component that was moved to a
 parent scanned before the one it left, so lookups there are ignored; all others are honoured. All of this is stated
 over the order that the lists and lookups prescribe before anything is moved.
 */
module HonouredLookups {
  import opened Components
  import opened Layouts
  import opened Moves
  import opened Scans

  /** The lookup resolves to a component that is scanned later than the parent: the traversal meets this one again. */
  ghost predicate GoesAhead(pm: ParentMap, targets: TargetMap, order: seq<Component>, a: Component)
    requires a in pm && a in targets
  {
    Later(order, pm[a], targets[a])
  }

  /** No component from `x` upwards was moved out of the traversal's way. */
  ghost predicate WayOpen(pm: ParentMap, targets: TargetMap, order: seq<Component>, x: Component) {
    forall a, n: nat {:trigger Above(pm, a, x, n)} :: Above(pm, a, x, n) && a in pm && a in targets ==>
      GoesAhead(pm, targets, order, a)
  }

  /** A component is scanned if its parent is, but one whose lookup resolves only if that goes ahead in the order. */
  lemma ScannedStep(pm: ParentMap, root: Component, s: Layout, scanned: set<Component>, moves: seq<Move>, y: Component)
    requires TreeTraversed(pm, root, s, scanned, moves) && root !in pm && y in pm
    ensures y in scanned <==>
      if y in s.targets then GoesAhead(pm, s.targets, ScanOrder(s, root), y) else pm[y] in scanned
  {
    LaterMembers(ScanOrder(s, root), pm[y], if y in s.targets then s.targets[y] else y);
    if pm[y] in scanned && y in s.targets {
      var k :| 0 <= k < |moves| && moves[k].child == y;
      assert AskedFor(pm, s.targets, scanned, moves[k]);
    } else {
      OthersStay(pm, s.targets, scanned, moves, y);
    }
  }

  lemma WayUp(pm: ParentMap, targets: TargetMap, order: seq<Component>, x: Component)
    requires x in pm
    ensures WayOpen(pm, targets, order, x) <==>
      WayOpen(pm, targets, order, pm[x]) && (x in targets ==> GoesAhead(pm, targets, order, x))
  {
    if WayOpen(pm, targets, order, x) {
      assert Above(pm, x, x, 0);
      forall a, n: nat {:trigger Above(pm, a, pm[x], n)} | Above(pm, a, pm[x], n) && a in pm && a in targets
        ensures GoesAhead(pm, targets, order, a)
      {
        assert Above(pm, a, x, n + 1);
      }
    } else {
      var a, n: nat :| Above(pm, a, x, n) && a in pm && a in targets && !GoesAhead(pm, targets, order, a);
      assert n > 0 ==> Above(pm, a, pm[x], n - 1);
    }
  }

  /** What is scanned: the components from which on upwards every resolving lookup goes ahead. */
  lemma {:induction false} ScannedExactly(pm: ParentMap, root: Component, s: Layout, scanned: set<Component>,
                                          moves: seq<Move>, y: Component, n: nat)
    requires TreeTraversed(pm, root, s, scanned, moves) && root !in pm && Above(pm, root, y, n)
    ensures y in scanned <==> WayOpen(pm, s.targets, ScanOrder(s, root), y)
  {
    if n == 0 {
      forall a, m: nat {:trigger Above(pm, a, y, m)} | Above(pm, a, y, m) && a in pm
        ensures false
      {
      }
    } else {
      ScannedStep(pm, root, s, scanned, moves, y);
      ScannedExactly(pm, root, s, scanned, moves, pm[y], n - 1);
      WayUp(pm, s.targets, ScanOrder(s, root), y);
      LaterMembers(ScanOrder(s, root), pm[y], if y in s.targets then s.targets[y] else y);
    }
  }

  lemma ParentAbove(pm: ParentMap, root: Component, x: Component) returns (n: nat)
    requires x in pm && root !in pm && Rooted(pm, root, x)
    ensures Above(pm, root, pm[x], n)
  {
    var m: nat :| Above(pm, root, x, m);
    n := m - 1;
  }

  lemma MovedIfScanned(pm: ParentMap, targets: TargetMap, scanned: set<Component>, moves: seq<Move>, x: Component)
    requires MovesExactly(pm, targets, scanned, moves)
    ensures x in Moved(moves) <==> x in pm && x in targets && pm[x] in scanned
  {
    if !(x in pm && x in targets && pm[x] in scanned) {
      OthersStay(pm, targets, scanned, moves, x);
    }
  }

  /** The lookup resolves, and from the parent upwards the way is open. */
  ghost predicate IsHonoured(pm: ParentMap, s: Layout, root: Component, x: Component) {
    x in pm && x in s.targets && WayOpen(pm, s.targets, ScanOrder(s, root), pm[x])
  }

  /** These are the lookups that are honoured. */
  lemma Honoured(pm: ParentMap, root: Component, s: Layout, scanned: set<Component>, moves: seq<Move>, x: Component)
    requires TreeTraversed(pm, root, s, scanned, moves) && root !in pm && (x in pm ==> Rooted(pm, root, x))
    ensures x in Moved(moves) <==> IsHonoured(pm, s, root, x)
  {
    MovedIfScanned(pm, s.targets, scanned, moves, x);
    if x in pm {
      var n := ParentAbove(pm, root, x);
      ScannedExactly(pm, root, s, scanned, moves, pm[x], n);
    }
  }

  /** Every lookup in the tree that resolves is honoured. */
  ghost predicate AllHonoured(pm: ParentMap, targets: TargetMap, moves: seq<Move>) {
    forall x :: x in pm && x in targets ==> x in Moved(moves)
  }

  /**
   Whenever one component with a lookup that resolves hangs below another such, the lookup of the upper one goes ahead.
   */
  ghost predicate UpperGoAhead(pm: ParentMap, targets: TargetMap, order: seq<Component>) {
    forall x, a, n: nat {:trigger Above(pm, a, pm[x], n)} ::
      x in pm && x in targets && a in pm && a in targets && Above(pm, a, pm[x], n) ==> GoesAhead(pm, targets, order, a)
  }

  /** Every lookup in a tree is honoured exactly if that is so in the prescribed order. */
  lemma HonouredExactly(pm: ParentMap, root: Component, s: Layout, scanned: set<Component>, moves: seq<Move>)
    requires TreeTraversed(pm, root, s, scanned, moves) && root !in pm && forall x :: x in pm ==> Rooted(pm, root, x)
    ensures AllHonoured(pm, s.targets, moves) <==> UpperGoAhead(pm, s.targets, ScanOrder(s, root))
  {
    forall x | x in pm && x in s.targets
      ensures x in Moved(moves) <==> WayOpen(pm, s.targets, ScanOrder(s, root), pm[x])
    {
      Honoured(pm, root, s, scanned, moves, x);
    }
  }

  /** No component with a lookup that resolves hangs below another such. */
  ghost predicate Flat(pm: ParentMap, targets: TargetMap) {
    forall x, a, n: nat {:trigger Above(pm, a, pm[x], n)} ::
      x in pm && x in targets && a in pm && a in targets ==> !Above(pm, a, pm[x], n)
  }

  /** Then every lookup is honoured, whatever the order. */
  lemma FlatLookupsHonoured(pm: ParentMap, root: Component, s: Layout, scanned: set<Component>, moves: seq<Move>)
    requires TreeTraversed(pm, root, s, scanned, moves) && root !in pm && forall x :: x in pm ==> Rooted(pm, root, x)
    requires Flat(pm, s.targets)
    ensures AllHonoured(pm, s.targets, moves)
  {
    HonouredExactly(pm, root, s, scanned, moves);
  }

  /** The components with an honoured lookup, determined by parents, lists and lookups before anything has moved. */
  ghost function HonouredOnes(pm: ParentMap, s: Layout, root: Component): set<Component> {
    set x | x in pm && IsHonoured(pm, s, root, x)
  }

  lemma HonouredAreMoved(pm: ParentMap, root: Component, s: Layout, scanned: set<Component>, moves: seq<Move>)
    requires TreeTraversed(pm, root, s, scanned, moves) && root !in pm && forall x :: x in pm ==> Rooted(pm, root, x)
    ensures Moved(moves) == HonouredOnes(pm, s, root)
  {
    forall x
      ensures x in Moved(moves) <==> x in HonouredOnes(pm, s, root)
    {
      Honoured(pm, root, s, scanned, moves, x);
    }
  }

  // ---------------------------------------------------------------- where components end up

  /** The parents that honoured lookups ask for; all other components keep theirs. */
  ghost function AskedParents(pm: ParentMap, targets: TargetMap, honoured: set<Component>): ParentMap {
    map x | x in pm :: if x in honoured && x in targets then targets[x] else pm[x]
  }

  /** An honoured lookup names the parent which the component has already. */
  ghost predicate AsksInVain(pm: ParentMap, targets: TargetMap, honoured: set<Component>, x: Component) {
    x in honoured && x in pm && x in targets && targets[x] == pm[x]
  }

  /** The parents that components end up with: those asked for, but none for one that asks for the parent it has. */
  ghost function FinalParents(pm: ParentMap, targets: TargetMap, honoured: set<Component>): ParentMap {
    map x | x in pm && !AsksInVain(pm, targets, honoured, x) :: AskedParents(pm, targets, honoured)[x]
  }

  /** The same for the lookups that a traversal from the root honours. */
  ghost function SettledParents(pm: ParentMap, s: Layout, root: Component): ParentMap {
    FinalParents(pm, s.targets, HonouredOnes(pm, s, root))
  }

  lemma MovedEndUp(pm: ParentMap, targets: TargetMap, scanned: set<Component>, moves: seq<Move>)
    requires MovesExactly(pm, targets, scanned, moves)
    ensures ApplyMoves(pm, moves) == FinalParents(pm, targets, Moved(moves))
  {
    var pm', final := ApplyMoves(pm, moves), FinalParents(pm, targets, Moved(moves));
    forall x | x in pm'.Keys + final.Keys
      ensures x in pm' && x in final && pm'[x] == final[x]
    {
      EndsUpOne(pm, targets, scanned, moves, x);
    }
  }

  lemma EndsUpOne(pm: ParentMap, targets: TargetMap, scanned: set<Component>, moves: seq<Move>, x: Component)
    requires MovesExactly(pm, targets, scanned, moves)
    ensures var pm' := ApplyMoves(pm, moves);
      if x in Moved(moves) then
        x in pm && x in targets && if targets[x] == pm[x] then x !in pm' else x in pm' && pm'[x] == targets[x]
      else (x in pm' <==> x in pm) && (x in pm ==> pm'[x] == pm[x])
  {
    if x in Moved(moves) {
      var k :| 0 <= k < |moves| && moves[k].child == x;
      assert AskedFor(pm, targets, scanned, moves[k]);
      MovedOnce(pm, moves, k);
    } else {
      MovesElsewhere(pm, moves, x);
    }
  }

  /** Where each component ends up is determined by parents, lists and lookups before anything has moved. */
  lemma EndsUp(pm: ParentMap, root: Component, s: Layout, scanned: set<Component>, moves: seq<Move>)
    requires TreeTraversed(pm, root, s, scanned, moves) && root !in pm && forall x :: x in pm ==> Rooted(pm, root, x)
    ensures ApplyMoves(pm, moves) == SettledParents(pm, s, root)
  {
    HonouredAreMoved(pm, root, s, scanned, moves);
    MovedEndUp(pm, s.targets, scanned, moves);
  }

  // ---------------------------------------------------------------- when nothing is lost

  /** Nobody asks for the parent it has, and the parents asked for hang together as one tree. */
  ghost predicate AskForTree(u: set<Component>, pm: ParentMap, targets: TargetMap, honoured: set<Component>,
                             root: Component)
  {
    && (forall x :: x in honoured ==> !AsksInVain(pm, targets, honoured, x))
    && (forall x :: x in u ==> Rooted(AskedParents(pm, targets, honoured), root, x))
  }

  /** Everything stays attached exactly if the parents that honoured lookups ask for make one tree. */
  lemma NothingLostExactly(u: set<Component>, pm: ParentMap, root: Component, s: Layout, scanned: set<Component>,
                           moves: seq<Move>)
    requires TreeTraversed(pm, root, s, scanned, moves) && root !in pm && pm.Keys <= u && s.targets.Values <= u
    requires forall x :: x in u ==> Rooted(pm, root, x)
    ensures AllProper(pm, moves) <==> AskForTree(u, pm, s.targets, HonouredOnes(pm, s, root), root)
  {
    HonouredAreMoved(pm, root, s, scanned, moves);
    MovedLoseNothing(u, pm, root, s.targets, scanned, moves);
  }

  lemma MovedLoseNothing(u: set<Component>, pm: ParentMap, root: Component, targets: TargetMap, scanned: set<Component>,
                         moves: seq<Move>)
    requires MovesExactly(pm, targets, scanned, moves) && LegalTrace(pm, root, moves)
    requires root !in pm && pm.Keys <= u && targets.Values <= u && forall x :: x in u ==> Rooted(pm, root, x)
    ensures AllProper(pm, moves) <==> AskForTree(u, pm, targets, Moved(moves), root)
  {
    forall k {:trigger moves[k]} | 0 <= k < |moves|
      ensures moves[k].child in u && moves[k].to in u
    {
      assert AskedFor(pm, targets, scanned, moves[k]);
    }
    Conserved(u, pm, root, moves);
    MovedEndUp(pm, targets, scanned, moves);
    FinalIsTree(u, pm, root, targets, Moved(moves));
  }

  lemma FinalIsTree(u: set<Component>, pm: ParentMap, root: Component, targets: TargetMap, honoured: set<Component>)
    requires root !in pm && pm.Keys <= u
    ensures (forall x :: x in u ==> Rooted(FinalParents(pm, targets, honoured), root, x))
       <==> AskForTree(u, pm, targets, honoured, root)
  {
    if x :| x in honoured && AsksInVain(pm, targets, honoured, x) {
      OnlyRootIsTop(FinalParents(pm, targets, honoured), root, x);
    } else {
      assert FinalParents(pm, targets, honoured) == AskedParents(pm, targets, honoured);
    }
  }

  /** Only the root itself hangs below the root without having a parent. */
  lemma OnlyRootIsTop(pm: ParentMap, root: Component, x: Component)
    requires x !in pm && x != root
    ensures !Rooted(pm, root, x)
  {
  }

  /** If upper lookups go ahead, parents and lookups alone tell whether anything is lost. */
  lemma AllHonouredLoseNothing(u: set<Component>, pm: ParentMap, root: Component, s: Layout, scanned: set<Component>,
                               moves: seq<Move>)
    requires TreeTraversed(pm, root, s, scanned, moves) && root !in pm && pm.Keys <= u && s.targets.Values <= u
    requires forall x :: x in u ==> Rooted(pm, root, x)
    requires UpperGoAhead(pm, s.targets, ScanOrder(s, root))
    ensures AllProper(pm, moves) <==> AskForTree(u, pm, s.targets, pm.Keys * s.targets.Keys, root)
  {
    HonouredExactly(pm, root, s, scanned, moves);
    AllAreMoved(pm, s.targets, scanned, moves);
    MovedLoseNothing(u, pm, root, s.targets, scanned, moves);
  }

  lemma AllAreMoved(pm: ParentMap, targets: TargetMap, scanned: set<Component>, moves: seq<Move>)
    requires MovesExactly(pm, targets, scanned, moves) && AllHonoured(pm, targets, moves)
    ensures Moved(moves) == pm.Keys * targets.Keys
  {
    forall x
      ensures x in Moved(moves) <==> x in pm.Keys * targets.Keys
    {
      MovedIfScanned(pm, targets, scanned, moves, x);
    }
  }

  /** In particular if no component with a lookup that resolves hangs below another such. */
  lemma FlatLookupsLoseNothing(u: set<Component>, pm: ParentMap, root: Component, s: Layout, scanned: set<Component>,
                               moves: seq<Move>)
    requires TreeTraversed(pm, root, s, scanned, moves) && root !in pm && pm.Keys <= u && s.targets.Values <= u
    requires (forall x :: x in u ==> Rooted(pm, root, x)) && Flat(pm, s.targets)
    ensures AllProper(pm, moves) <==> AskForTree(u, pm, s.targets, pm.Keys * s.targets.Keys, root)
  {
    AllHonouredLoseNothing(u, pm, root, s, scanned, moves);
  }
}
