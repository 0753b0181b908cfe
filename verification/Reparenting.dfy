/**
 Giving components the parents that their lookups name, while the tree is being traversed.
 */
module Reparenting {
  import opened Components
  import opened Detaching
  import opened Layouts
  import opened Moves
  import opened ParentReferences
  import opened Scans

  /** The first loop, and what it leaves for the second. */
  method ScanOne(c: Component, refs: ParentRefs, ghost u: set<Component>, ghost root: Component, ghost pm: ParentMap,
                 ghost scanned: set<Component>)
    returns (ghost moves: seq<Move>)
    requires c in u && refs.Values <= u && Scanning(u, pm, root, scanned) && Ready(pm, root, scanned, c)
    requires ListsKept(u) && ListsTidy(scanned)
    modifies u`components, u`hasComponents, u`parentLookup
    ensures Traversing(pm, root, old(LayoutOf(u, refs)), Scan(c, []), {c}, moves, c.components)
    ensures LayoutOf(u, refs) == Detached(old(LayoutOf(u, refs)), c)
    ensures c.components == ListAt(Detached(old(LayoutOf(u, refs)), c), c)
    ensures Pending(ApplyMoves(pm, moves), c, scanned + {c}, c.components)
    ensures Scanning(u, ApplyMoves(pm, moves), root, scanned + {c})
    ensures Targets(u, refs) == old(Targets(u, refs)) - Moved(moves)
    ensures ListsKept(u) && ListsTidy(scanned + {c})
  {
    ghost var s := LayoutOf(u, refs);
    moves := DetachResolved(c, refs, u, pm, scanned);
    assert ListsOf(u)[c] == c.components;
    OneDone(pm, root, s, scanned, c, c.components, moves);
  }

  /**
   Scanning a component: its children are moved to where their lookups say, then the children that it has left, and in
   turn theirs, are scanned. Nothing that was scanned before is scanned again, so this ends although lists grow. The
   traversal, its moves and the lists afterwards are those that the lists and lookups at the start prescribe.
   */
  method ChangeComponentParents(c: Component, refs: ParentRefs, ghost u: set<Component>, ghost root: Component,
                                ghost pm: ParentMap, ghost scanned: set<Component>)
    returns (ghost moves: seq<Move>, ghost batch: set<Component>, ghost scan: Scan)
    requires c in u && refs.Values <= u && Scanning(u, pm, root, scanned) && Ready(pm, root, scanned, c)
    requires ListsKept(u) && ListsTidy(scanned)
    modifies u`components, u`hasComponents, u`parentLookup
    ensures scanned !! batch && scan.top == c
    ensures Traversed(pm, root, old(LayoutOf(u, refs)), scan, batch, moves)
    ensures LayoutOf(u, refs) == After(scan, old(LayoutOf(u, refs)))
    ensures Scanning(u, ApplyMoves(pm, moves), root, scanned + batch)
    ensures Targets(u, refs) == old(Targets(u, refs)) - Moved(moves)
    ensures ListsKept(u) && ListsTidy(scanned + batch)
    decreases u - scanned, 0
  {
    ghost var s := LayoutOf(u, refs);
    moves := ScanOne(c, refs, u, root, pm, scanned);
    batch, scan := {c}, Scan(c, []);
    var kept := c.components;
    WholeList(kept);
    for i := 0 to |kept|
      invariant scanned !! batch && c in batch && scan.top == c && Tops(scan.kids) == kept[..i]
      invariant Traversing(pm, root, s, scan, batch, moves, kept[i..])
      invariant LayoutOf(u, refs) == AfterAll(scan.kids, Detached(s, c))
      invariant Pending(ApplyMoves(pm, moves), c, scanned + batch, kept[i..])
      invariant Scanning(u, ApplyMoves(pm, moves), root, scanned + batch)
      invariant Targets(u, refs) == s.targets - Moved(moves)
      invariant ListsKept(u) && ListsTidy(scanned + batch)
    {
      moves, batch, scan := ScanNext(c, kept[i..], refs, u, root, pm, s, scanned, batch, moves, scan);
      SplitNext(kept, i);
    }
  }

  lemma WholeList(list: seq<Component>)
    ensures list[0..] == list && list[..0] == Tops([]) && list[..|list|] == list && list[|list|..] == []
  {
  }

  lemma SplitNext(list: seq<Component>, i: nat)
    requires i < |list|
    ensures list[i..][0] == list[i] && list[i..][1..] == list[i + 1..] && list[..i + 1] == list[..i] + [list[i]]
  {
  }

  lemma BeforeNext(c: Component, rest: seq<Component>, u: set<Component>, root: Component, pm: ParentMap,
                   scanned: set<Component>)
    requires rest != [] && Pending(pm, c, scanned, rest) && c in scanned && Scanning(u, pm, root, scanned)
    ensures rest[0] in u && Ready(pm, root, scanned, rest[0]) && Frontier(pm, scanned)
  {
  }

  lemma AfterNext(u: set<Component>, refs: ParentRefs, root: Component, pm: ParentMap, targets: TargetMap,
                  scanned: set<Component>, batch: set<Component>, moves: seq<Move>, next: set<Component>,
                  more: seq<Move>)
    requires Scanning(u, ApplyMoves(ApplyMoves(pm, moves), more), root, scanned + batch + next)
    requires Targets(u, refs) == targets - Moved(moves) - Moved(more)
    requires ListsTidy(scanned + batch + next)
    ensures Scanning(u, ApplyMoves(pm, moves + more), root, scanned + (batch + next))
    ensures Targets(u, refs) == targets - Moved(moves + more)
    ensures ListsTidy(scanned + (batch + next))
  {
    assert scanned + batch + next == scanned + (batch + next);
    MovesExtend(pm, targets, moves, more);
  }

  /** One round of the second loop. */
  method ScanNext(c: Component, rest: seq<Component>, refs: ParentRefs, ghost u: set<Component>, ghost root: Component,
                  ghost pm: ParentMap, ghost s: Layout, ghost scanned: set<Component>, ghost batch: set<Component>,
                  ghost moves: seq<Move>, ghost scan: Scan)
    returns (ghost moves': seq<Move>, ghost batch': set<Component>, ghost scan': Scan)
    requires rest != [] && refs.Values <= u && scanned !! batch && c in batch && scan.top == c
    requires Traversing(pm, root, s, scan, batch, moves, rest)
    requires LayoutOf(u, refs) == AfterAll(scan.kids, Detached(s, c))
    requires Pending(ApplyMoves(pm, moves), c, scanned + batch, rest)
    requires Scanning(u, ApplyMoves(pm, moves), root, scanned + batch)
    requires Targets(u, refs) == s.targets - Moved(moves)
    requires ListsKept(u) && ListsTidy(scanned + batch)
    modifies u`components, u`hasComponents, u`parentLookup
    ensures scanned !! batch' && c in batch' && scan'.top == c && Tops(scan'.kids) == Tops(scan.kids) + [rest[0]]
    ensures Traversing(pm, root, s, scan', batch', moves', rest[1..])
    ensures LayoutOf(u, refs) == AfterAll(scan'.kids, Detached(s, c))
    ensures Pending(ApplyMoves(pm, moves'), c, scanned + batch', rest[1..])
    ensures Scanning(u, ApplyMoves(pm, moves'), root, scanned + batch')
    ensures Targets(u, refs) == s.targets - Moved(moves')
    ensures ListsKept(u) && ListsTidy(scanned + batch')
    decreases u - (scanned + batch), 1
  {
    ghost var now := LayoutOf(u, refs);
    BeforeNext(c, rest, u, root, ApplyMoves(pm, moves), scanned + batch);
    ghost var more, next, kid := ChangeComponentParents(rest[0], refs, u, root, ApplyMoves(pm, moves), scanned + batch);
    KidTraversed(pm, root, s, scan, batch, moves, rest, scanned + batch, now, next, more, kid);
    AfterNext(u, refs, root, pm, s.targets, scanned, batch, moves, next, more);
    moves', batch', scan' := moves + more, batch + next, Scan(c, scan.kids + [kid]);
  }
}
