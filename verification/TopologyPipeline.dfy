/**
 A topology's job from the tree that the lookups gave to the rows in the table: parents, saving and deleting.
 The summary in between changes neither trees nor rows; it is dealt with in RootSummaries.
 */
module TopologyPipeline {
  import opened Components
  import opened ComponentRows
  import opened ComponentTable
  import opened HonouredLookups
  import opened Layouts
  import opened Moves
  import opened Reattachment
  import opened Scans
  import opened TopologyRun
  import opened Walks

  /** What giving components their parents came to: the lists and lookups that were there, and the moves made. */
  datatype Rearranged = Rearranged(layout: Layout, moves: seq<Move>, scanned: set<Component>)

  /** What still hangs below the root, determined by lists and lookups. */
  ghost function StillAttached(u: set<Component>, pm: ParentMap, s: Layout, root: Component): set<Component> {
    RootedPart(u, SettledParents(pm, s, root), root)
  }

  /**
   The moves are those that lists and lookups prescribe, and nothing is lost exactly if honoured lookups ask for a tree.
   */
  ghost predicate RearrangedFrom(r: Rearranged, u: set<Component>, pm: ParentMap, root: Component) {
    && TreeTraversed(pm, root, r.layout, r.scanned, r.moves)
    && (StillAttached(u, pm, r.layout, root) == u <==> AllProper(pm, r.moves))
    && (AllProper(pm, r.moves) <==> AskForTree(u, pm, r.layout.targets, HonouredOnes(pm, r.layout, root), root))
  }

  lemma AllAttached(u: set<Component>, pm: ParentMap, root: Component)
    requires root in u && root !in pm && Represents(u, pm)
    ensures RootedPart(u, pm, root) == u <==> IsTree(u, pm, root)
  {
    if RootedPart(u, pm, root) == u {
      forall x | x in u
        ensures Rooted(pm, root, x)
      {
        assert x in RootedPart(u, pm, root);
      }
    }
  }

  lemma OneTopForest(u: set<Component>, pm: ParentMap, root: Component)
    requires IsTree(u, pm, root)
    ensures IsForest(u, pm, [root])
  {
    forall x | x in u
      ensures BelowOne(pm, [root], x)
    {
      assert Rooted(pm, [root][0], x);
    }
  }

  /** Giving parents, and the tree that is left. */
  method GiveParents(root: Component, ghost u: set<Component>, ghost pm: ParentMap, ghost rank: map<Component, nat>)
    returns (ghost r: Rearranged, ghost attached: set<Component>, ghost pm': ParentMap,
             ghost rank': map<Component, nat>)
    requires IsTree(u, pm, root) && Ranked(u, rank) && ListsKept(u)
    modifies u`components, u`hasComponents, u`parentLookup
    ensures LaidOut(u, root, rank, r.layout) && RearrangedFrom(r, u, pm, root)
    ensures attached == StillAttached(u, pm, r.layout, root)
    ensures pm' == AttachedMap(u, SettledParents(pm, r.layout, root), root)
    ensures attached <= u && IsTree(attached, pm', root) && Ranked(attached, rank')
  {
    ghost var s, moves, scanned := UpdateParents(root, u, pm, rank);
    AllAttached(u, SettledParents(pm, s, root), root);
    AttachedPartIsTree(u, SettledParents(pm, s, root), root);
    rank' := RankExists(u, SettledParents(pm, s, root), root);
    r, attached := Rearranged(s, moves, scanned), StillAttached(u, pm, s, root);
    pm' := AttachedMap(u, SettledParents(pm, s, root), root);
  }

  /** The same, and nothing stands in the way of saving what is left if nothing did before. */
  method GiveParentsFreely(root: Component, ghost u: set<Component>, ghost pm: ParentMap,
                           ghost rank: map<Component, nat>, ghost refused: SaveFaults)
    returns (ghost r: Rearranged, ghost attached: set<Component>, ghost pm': ParentMap,
             ghost rank': map<Component, nat>)
    requires IsTree(u, pm, root) && Ranked(u, rank) && ListsKept(u)
    modifies u`components, u`hasComponents, u`parentLookup
    ensures LaidOut(u, root, rank, r.layout) && RearrangedFrom(r, u, pm, root)
    ensures attached == StillAttached(u, pm, r.layout, root)
    ensures pm' == AttachedMap(u, SettledParents(pm, r.layout, root), root)
    ensures attached <= u && IsTree(attached, pm', root) && Ranked(attached, rank')
    ensures old(Unhindered(u, refused)) ==> Unhindered(attached, refused)
  {
    r, attached, pm', rank' := GiveParents(root, u, pm, rank);
    assert old(Unhindered(u, refused)) ==> Unhindered(attached, refused);
  }

  /** The run for a single tree. */
  method RunTree(table: Table, root: Component, topologyId: Uuid, lookupFailed: bool, batchSize: nat,
                 faults: RunFaults, ghost u: set<Component>, ghost pm: ParentMap, ghost rank: map<Component, nat>)
    returns (outcome: Outcome, ghost ids: Ids)
    requires IsTree(u, pm, root) && Ranked(u, rank) && Fresh(root) && Valid(table.rows) && batchSize > 0
    modifies table`rows, u`id, u`topologyId, u`parentId, u`path
    ensures Valid(table.rows) && Preserved(old(table.rows), table.rows, topologyId)
    ensures outcome != PersistFailed ==> ids.Keys == u && AllRecorded(table.rows, ids, pm, topologyId)
    ensures outcome == Completed ==>
      LiveIds(table.rows, topologyId) == ids.Values + if lookupFailed then LiveIds(old(table.rows), topologyId) else {}
    ensures old(Unhindered(u, faults.refused)) && faults.DeletingWorks() ==> outcome == Completed
  {
    OneTopForest(u, pm, root);
    outcome, ids := Run(table, [root], topologyId, lookupFailed, batchSize, faults, u, pm, rank);
  }

  /**
   The whole job. A component keeps a live row exactly if it is still attached after parents have been given, and rows
   are linked as the components then are; both follow from the lists and lookups at the start. All components keep their
   rows exactly if the honoured lookups ask for one tree. With nothing failing the live rows of the topology are these.
   */
  method RunTopology(table: Table, root: Component, topologyId: Uuid, lookupFailed: bool, batchSize: nat,
                     faults: RunFaults, ghost u: set<Component>, ghost pm: ParentMap, ghost rank: map<Component, nat>)
    returns (outcome: Outcome, ghost r: Rearranged, ghost attached: set<Component>, ghost pm': ParentMap,
             ghost ids: Ids)
    requires IsTree(u, pm, root) && Ranked(u, rank) && ListsKept(u) && Fresh(root)
    requires Valid(table.rows) && batchSize > 0
    modifies table`rows, u`components, u`hasComponents, u`parentLookup, u`id, u`topologyId, u`parentId, u`path
    ensures Valid(table.rows) && Preserved(old(table.rows), table.rows, topologyId)
    ensures LaidOut(u, root, rank, r.layout) && RearrangedFrom(r, u, pm, root)
    ensures attached == StillAttached(u, pm, r.layout, root)
    ensures pm' == AttachedMap(u, SettledParents(pm, r.layout, root), root)
    ensures outcome != PersistFailed ==> ids.Keys == attached && AllRecorded(table.rows, ids, pm', topologyId)
    ensures outcome == Completed ==>
      LiveIds(table.rows, topologyId) == ids.Values + if lookupFailed then LiveIds(old(table.rows), topologyId) else {}
    ensures old(Unhindered(u, faults.refused)) && faults.DeletingWorks() ==> outcome == Completed
  {
    ghost var rank';
    r, attached, pm', rank' := GiveParentsFreely(root, u, pm, rank, faults.refused);
    outcome, ids := RunTree(table, root, topologyId, lookupFailed, batchSize, faults, attached, pm', rank');
  }
}
