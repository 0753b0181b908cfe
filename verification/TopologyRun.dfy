/**
 One run of a topology's job against the components table: save the trees that were found, then delete what is stale.
 */
module TopologyRun {
  import opened Common
  import opened Components
  import opened ComponentRows
  import opened ComponentTable
  import opened Walks

  // ---------------------------------------------------------------- the forest being saved

  /** Trees split over their children without overlap. */
  lemma ShapeExists(u: set<Component>, pm: ParentMap, rank: map<Component, nat>)
    requires Represents(u, pm) && Ranked(u, rank)
    ensures Shaped(u, pm, BelowOf(u, rank))
  {
    var below := BelowOf(u, rank);
    forall c | c in u
      ensures ShapedAt(c, u, pm, below)
    {
      SiblingsApart(u, pm, rank, c);
      BelowAdd(c.components, u, rank, rank[c], below);
      TopNotBelow(u, pm, rank, c);
      BelowWithin(c, u, pm, rank);
      ApartIsPlanted(c.components, u, pm, rank, rank[c], below);
    }
  }

  lemma BelowWithin(c: Component, u: set<Component>, pm: ParentMap, rank: map<Component, nat>)
    requires Represents(u, pm) && Ranked(u, rank) && c in u
    ensures ToSet(Preorder(c.components, u, rank, rank[c])) <= u
  {
    forall x | x in Preorder(c.components, u, rank, rank[c])
      ensures x in u
    {
      ListsSubtrees(c.components, u, pm, rank, rank[c], x);
      var i :| 0 <= i < |c.components| && Rooted(pm, c.components[i], x);
      var n: nat :| Above(pm, c.components[i], x, n);
    }
  }

  /** A component is in a listed tree exactly when it hangs below its top. */
  lemma InTreeOf(t: Component, u: set<Component>, pm: ParentMap, rank: map<Component, nat>, x: Component)
    requires Represents(u, pm) && Ranked(u, rank) && t in u
    ensures x in {t} + BelowOf(u, rank)[t] <==> Rooted(pm, t, x)
  {
    ListsSubtrees(t.components, u, pm, rank, rank[t], x);
    BelowParts(u, pm, t, x);
  }

  lemma ApartIsPlanted(list: seq<Component>, u: set<Component>, pm: ParentMap, rank: map<Component, nat>, bound: nat,
                       below: BelowMap)
    requires Represents(u, pm) && Ranked(u, rank) && Rankable(list, u, rank, bound) && Apart(pm, list)
    requires below == BelowOf(u, rank)
    ensures Planted(list, below)
  {
    forall i | 0 <= i < |list|
      ensures BelowAll(list[..i], below) !! ({list[i]} + below[list[i]])
    {
      BelowAdd(list[..i], u, rank, bound, below);
      forall x | x in BelowAll(list[..i], below)
        ensures x !in {list[i]} + below[list[i]]
      {
        ListsSubtrees(list[..i], u, pm, rank, bound, x);
        var j :| 0 <= j < i && Rooted(pm, list[..i][j], x);
        InTreeOf(list[i], u, pm, rank, x);
        if Rooted(pm, list[i], x) {
          NothingShared(pm, list, i, j, x);
        }
      }
    }
  }

  /** Different tops are apart. */
  lemma TopsApart(pm: ParentMap, tops: seq<Component>)
    requires Distinct(tops) && forall x :: x in tops ==> x !in pm
    ensures Apart(pm, tops)
  {
  }

  // ---------------------------------------------------------------- saving the results

  /** The component has a live row in the topology, below that of its parent, or at the top if it has none. */
  ghost predicate Recorded(rows: Rows, ids: Ids, pm: ParentMap, topologyId: Uuid, x: Component) {
    && HasRow(rows, ids, topologyId, x)
    && if x in pm then Linked(rows, ids, pm, x) else rows[ids[x]].parentId == None
  }

  ghost predicate AllRecorded(rows: Rows, ids: Ids, pm: ParentMap, topologyId: Uuid) {
    forall x {:trigger Recorded(rows, ids, pm, topologyId, x)} :: x in ids ==> Recorded(rows, ids, pm, topologyId, x)
  }

  /** One more tree has been saved. */
  lemma TopSaved(rows: Rows, rows': Rows, ids: Ids, more: Ids, pm: ParentMap, topologyId: Uuid, top: Component,
                 deeper: set<Component>)
    requires AllRecorded(rows, ids, pm, topologyId) && Extends(rows, rows', more.Values, topologyId)
    requires ids.Keys !! more.Keys
    requires more.Keys == {top} + deeper && top !in pm && HasRow(rows', more, topologyId, top)
    requires rows'[more[top]].parentId == None && Saved(rows', more, pm, topologyId, deeper)
    ensures AllRecorded(rows', ids + more, pm, topologyId)
  {
    var all := ids + more;
    forall x | x in all
      ensures Recorded(rows', all, pm, topologyId, x)
    {
      if x in ids {
        assert Recorded(rows, ids, pm, topologyId, x);
      } else if x in deeper {
        assert HasRow(rows', more, topologyId, x) && Linked(rows', more, pm, x);
      }
    }
  }

  /** Since the table was `start`, the components in `done` have been saved. */
  ghost predicate Progressed(rows: Rows, start: Rows, done: set<Component>, compIDs: seq<Uuid>, ids: Ids, pm: ParentMap,
                             topologyId: Uuid)
  {
    && Valid(rows) && Extends(start, rows, ids.Values, topologyId)
    && ids.Keys == done && ToSet(compIDs) == ids.Values
    && AllRecorded(rows, ids, pm, topologyId)
  }

  /** A top component, not yet saved, has neither parent nor path. */
  ghost predicate Fresh(top: Component)
    reads top
  {
    top.parentId == None && top.path == []
  }

  /** One result is saved in the topology. */
  method PersistResult(table: Table, top: Component, topologyId: Uuid, compIDs: seq<Uuid>, ghost ids: Ids,
                       ghost start: Rows, ghost done: set<Component>, ghost u: set<Component>, ghost pm: ParentMap,
                       ghost rank: map<Component, nat>, ghost below: BelowMap, refused: SaveFaults)
    returns (ok: bool, compIDs': seq<Uuid>, ghost ids': Ids, ghost saved: set<Uuid>)
    requires Shaped(u, pm, below) && Ranked(u, rank) && top in u && top in below && top !in below[top]
    requires top !in pm && Fresh(top) && done !! ({top} + below[top])
    requires Progressed(table.rows, start, done, compIDs, ids, pm, topologyId)
    modifies table`rows, top`id, top`topologyId
    modifies below[top]`id, below[top]`topologyId, below[top]`parentId, below[top]`path
    ensures Valid(table.rows) && Extends(start, table.rows, saved, topologyId)
    ensures ok ==> saved == ids'.Values
    ensures ok ==> Progressed(table.rows, start, done + ({top} + below[top]), compIDs', ids', pm, topologyId)
    ensures old(Unhindered({top} + below[top], refused)) ==> ok
  {
    ghost var before := table.rows;
    top.topologyId := topologyId;
    var more: seq<Uuid>;
    ghost var moreIds, added;
    ok, more, moreIds, added := table.PersistComponent(top, u, pm, rank, below, refused);
    ExtendsTwice(start, before, table.rows, ids.Values, added, topologyId);
    compIDs', ids', saved := compIDs, ids, ids.Values + added;
    if ok {
      TopSaved(before, table.rows, ids, moreIds, pm, topologyId, top, below[top]);
      IdsJoin(compIDs, more, ids, moreIds);
      compIDs', ids' := compIDs + more, ids + moreIds;
    }
  }

  /** What is known about the next result when those before it have been saved. */
  lemma NextTop(tops: seq<Component>, i: nat, below: BelowMap)
    requires i < |tops| && (forall x :: x in tops ==> x in below) && Planted(tops, below)
    ensures BelowAll(tops[..i + 1], below) == BelowAll(tops[..i], below) + ({tops[i]} + below[tops[i]])
    ensures BelowAll(tops[..i], below) !! ({tops[i]} + below[tops[i]])
    ensures forall x :: x in tops[i + 1..] ==> x !in {tops[i]} + below[tops[i]]
  {
    OneMoreTree(tops, i, below);
    forall j | i < j < |tops|
      ensures tops[j] !in {tops[i]} + below[tops[i]]
    {
      OneMoreTree(tops, j, below);
      PrefixBelow(tops[..j], i + 1, below);
      assert tops[..j][..i + 1] == tops[..i + 1];
    }
  }

  /** One more result, when the top components that are left are apart from its tree. */
  method PersistNextResult(table: Table, top: Component, topologyId: Uuid, compIDs: seq<Uuid>, ghost ids: Ids,
                           ghost start: Rows, ghost done: set<Component>, ghost left: seq<Component>,
                           ghost u: set<Component>, ghost pm: ParentMap, ghost rank: map<Component, nat>,
                           ghost below: BelowMap, refused: SaveFaults)
    returns (ok: bool, compIDs': seq<Uuid>, ghost ids': Ids, ghost saved: set<Uuid>)
    requires Shaped(u, pm, below) && Ranked(u, rank) && top in u && top in below && top !in below[top]
    requires top !in pm && Fresh(top) && {top} + below[top] <= u - done
    requires forall x :: x in left ==> x in u && x !in {top} + below[top] && Fresh(x)
    requires Progressed(table.rows, start, done, compIDs, ids, pm, topologyId)
    modifies table`rows, u`id, u`topologyId, u`parentId, u`path
    ensures Valid(table.rows) && Extends(start, table.rows, saved, topologyId)
    ensures ok ==> saved == ids'.Values
    ensures ok ==> Progressed(table.rows, start, done + ({top} + below[top]), compIDs', ids', pm, topologyId)
    ensures forall x :: x in left ==> Fresh(x)
    ensures old(Unhindered(u - done, refused)) ==> ok && Unhindered(u - (done + ({top} + below[top])), refused)
  {
    ok, compIDs', ids', saved := PersistResult(table, top, topologyId, compIDs, ids, start, done, u, pm, rank, below,
                                               refused);
  }

  /** All results are saved one after the other, until one fails. */
  method PersistResults(table: Table, tops: seq<Component>, topologyId: Uuid, ghost u: set<Component>,
                        ghost pm: ParentMap, ghost rank: map<Component, nat>, ghost below: BelowMap,
                        refused: SaveFaults)
    returns (ok: bool, compIDs: seq<Uuid>, ghost ids: Ids, ghost saved: set<Uuid>)
    requires Shaped(u, pm, below) && Ranked(u, rank) && Valid(table.rows)
    requires forall x :: x in tops ==> x in u && x in below && x !in below[x] && x !in pm && Fresh(x)
    requires Planted(tops, below)
    modifies table`rows, u`id, u`topologyId, u`parentId, u`path
    ensures Valid(table.rows) && Extends(old(table.rows), table.rows, saved, topologyId)
    ensures ok ==> saved == ids.Values
    ensures ok ==> Progressed(table.rows, old(table.rows), BelowAll(tops, below), compIDs, ids, pm, topologyId)
    ensures old(Unhindered(u, refused)) ==> ok
  {
    ok, compIDs, ids, saved := true, [], map[], {};
    ghost var done: set<Component> := {};
    assert u - done == u;
    for i := 0 to |tops|
      invariant ok && saved == ids.Values && done == BelowAll(tops[..i], below)
      invariant forall x :: x in tops[i..] ==> Fresh(x)
      invariant Progressed(table.rows, old(table.rows), done, compIDs, ids, pm, topologyId)
      invariant old(Unhindered(u, refused)) ==> Unhindered(u - done, refused)
    {
      NextTop(tops, i, below);
      TopShaped(tops[i], u, pm, below);
      ok, compIDs, ids, saved := PersistNextResult(table, tops[i], topologyId, compIDs, ids, old(table.rows), done,
                                                   tops[i + 1..], u, pm, rank, below, refused);
      if !ok {
        return;
      }
      done := done + ({tops[i]} + below[tops[i]]);
    }
    assert tops[..|tops|] == tops;
  }

  lemma TopShaped(top: Component, u: set<Component>, pm: ParentMap, below: BelowMap)
    requires Shaped(u, pm, below) && top in u
    ensures top in below && below[top] <= u
  {
  }

  // ---------------------------------------------------------------- deleting what is stale

  /** The live rows of a topology. */
  ghost function LiveIds(rows: Rows, topologyId: Uuid): set<Uuid> {
    set i | i in rows && rows[i].live && rows[i].topologyId == topologyId
  }

  method GetActiveComponentsIDsOfTopology(table: Table, topologyId: Uuid) returns (compIDs: seq<Uuid>)
    ensures ToSet(compIDs) == LiveIds(table.rows, topologyId)
  {
    compIDs := [];
    var rest := table.rows.Keys;
    while rest != {}
      invariant rest <= table.rows.Keys
      invariant forall i :: i in compIDs <==> i in LiveIds(table.rows, topologyId) && i !in rest
      decreases rest
    {
      var i :| i in rest;
      rest := rest - {i};
      if table.rows[i].live && table.rows[i].topologyId == topologyId {
        compIDs := compIDs + [i];
      }
    }
  }

  /** The ids contain, with every row, its parent. */
  ghost predicate ParentClosed(rows: Rows, ids: set<Uuid>) {
    ids <= rows.Keys && forall i {:trigger rows[i].parentId} :: i in ids && rows[i].parentId.Some? ==>
      rows[i].parentId.value in ids
  }

  /** So they contain all that is in the paths of their rows. */
  lemma {:induction false} PathInside(rows: Rows, ids: set<Uuid>, i: Uuid)
    requires Valid(rows) && ParentClosed(rows, ids) && i in ids
    ensures i in rows && forall a :: a in rows[i].path ==> a in ids
    decreases |rows[i].path|
  {
    ParentPath(rows, i);
    if rows[i].parentId.Some? {
      PathInside(rows, ids, rows[i].parentId.value);
    }
  }

  lemma RecordedIsClosed(rows: Rows, ids: Ids, pm: ParentMap, topologyId: Uuid)
    requires AllRecorded(rows, ids, pm, topologyId)
    ensures ParentClosed(rows, ids.Values)
  {
    forall i | i in ids.Values
      ensures i in rows && (rows[i].parentId.Some? ==> rows[i].parentId.value in ids.Values)
    {
      var x :| x in ids && ids[x] == i;
      assert Recorded(rows, ids, pm, topologyId, x);
    }
  }

  /**
   Deleting stale rows of one topology, with any part of the cascade: the kept rows survive because their ancestors are
   kept too, and rows of other topologies are not touched.
   */
  lemma OnlyStaleGone(rows: Rows, rows': Rows, topologyId: Uuid, kept: set<Uuid>, gone: set<Uuid>)
    requires Valid(rows) && ParentClosed(rows, kept) && kept <= LiveIds(rows, topologyId)
    requires gone <= LiveIds(rows, topologyId) - kept && Deletes(rows, rows', gone)
    ensures forall i :: i in rows && (i in kept || rows[i].topologyId != topologyId) ==> rows'[i] == rows[i]
    ensures kept <= LiveIds(rows', topologyId) <= LiveIds(rows, topologyId) - gone
  {
    forall i | i in rows && (i in kept || rows[i].topologyId != topologyId)
      ensures rows'[i] == rows[i]
    {
      if Hit(rows, gone, i) {
        HitsNothingElse(rows, topologyId, kept, gone, i);
      }
    }
  }

  lemma HitsNothingElse(rows: Rows, topologyId: Uuid, kept: set<Uuid>, gone: set<Uuid>, i: Uuid)
    requires Valid(rows) && ParentClosed(rows, kept) && kept <= LiveIds(rows, topologyId)
    requires gone <= LiveIds(rows, topologyId) - kept && i in rows && (i in kept || rows[i].topologyId != topologyId)
    ensures !Hit(rows, gone, i)
  {
    forall a | a in gone
      ensures a !in rows[i].path
    {
      PathIsAncestry(rows, a, i);
      if i in kept {
        PathInside(rows, kept, i);
      }
    }
  }

  // ---------------------------------------------------------------- the run

  /** All components hang below the tops, which have no parents. */
  ghost predicate IsForest(u: set<Component>, pm: ParentMap, tops: seq<Component>)
    reads u`components
  {
    && Represents(u, pm)
    && Distinct(tops) && (forall x :: x in tops ==> x in u && x !in pm)
    && forall x :: x in u ==> BelowOne(pm, tops, x)
  }

  /** What the database fails at during a run. */
  datatype RunFaults = RunFaults(refused: SaveFaults, readFails: bool, deleting: DeleteFaults) {
    ghost predicate DeletingWorks() {
      !readFails && forall k :: !deleting.fails(k) && !deleting.laterFails(k)
    }
  }

  datatype Outcome = PersistFailed | DeleteFailed | Completed

  /** No row disappears or changes, except for being live or not. */
  ghost predicate IdentitiesKept(rows: Rows, rows': Rows) {
    rows.Keys <= rows'.Keys && forall i :: i in rows ==> rows'[i] == rows[i].(live := rows'[i].live)
  }

  /** Rows keep their identity, and those of other topologies keep everything. */
  ghost predicate Preserved(rows: Rows, rows': Rows, topologyId: Uuid) {
    && IdentitiesKept(rows, rows')
    && (forall i :: i in rows && rows[i].topologyId != topologyId ==> rows'[i] == rows[i])
    && (forall i :: i in rows' && i !in rows ==> rows'[i].topologyId == topologyId)
  }

  lemma ForestPlan(u: set<Component>, pm: ParentMap, rank: map<Component, nat>, tops: seq<Component>)
    returns (below: BelowMap)
    requires IsForest(u, pm, tops) && Ranked(u, rank)
    ensures Shaped(u, pm, below)
    ensures forall x :: x in tops ==> x in below && x !in below[x]
    ensures Planted(tops, below) && BelowAll(tops, below) == u
  {
    below := BelowOf(u, rank);
    ShapeExists(u, pm, rank);
    forall x | x in tops
      ensures x !in below[x]
    {
      assert ShapedAt(x, u, pm, below);
    }
    TopsApart(pm, tops);
    var bound := RankBound(u, rank);
    ApartIsPlanted(tops, u, pm, rank, bound, below);
    BelowAdd(tops, u, rank, bound, below);
    ListedInTops(u, pm, rank, tops, bound);
  }

  lemma ListedInTops(u: set<Component>, pm: ParentMap, rank: map<Component, nat>, tops: seq<Component>, bound: nat)
    requires IsForest(u, pm, tops) && Ranked(u, rank) && Rankable(tops, u, rank, bound)
    ensures ToSet(Preorder(tops, u, rank, bound)) == u
  {
    forall x | x in u
      ensures x in Preorder(tops, u, rank, bound)
    {
      ListsSubtrees(tops, u, pm, rank, bound, x);
    }
    forall x | x in Preorder(tops, u, rank, bound)
      ensures x in u
    {
      ListsSubtrees(tops, u, pm, rank, bound, x);
      var i :| 0 <= i < |tops| && Rooted(pm, tops[i], x);
      var n: nat :| Above(pm, tops[i], x, n);
    }
  }

  lemma {:induction false} RankBound(s: set<Component>, rank: map<Component, nat>) returns (bound: nat)
    requires s <= rank.Keys
    ensures forall x :: x in s ==> rank[x] < bound
  {
    if s == {} {
      bound := 0;
    } else {
      var y :| y in s;
      bound := RankBound(s - {y}, rank);
      bound := if rank[y] < bound then bound else rank[y] + 1;
    }
  }

  /** Stale rows are deleted unless a lookup failed or there are none. */
  method DeleteStale(table: Table, topologyId: Uuid, compIDs: seq<Uuid>, skipDeletion: bool, batchSize: nat,
                     readFails: bool, faults: DeleteFaults)
    returns (ok: bool)
    requires Valid(table.rows) && batchSize > 0
    requires ParentClosed(table.rows, ToSet(compIDs)) && ToSet(compIDs) <= LiveIds(table.rows, topologyId)
    modifies table`rows
    ensures Valid(table.rows) && Preserved(old(table.rows), table.rows, topologyId)
    ensures table.rows.Keys == old(table.rows).Keys
    ensures forall i :: i in compIDs ==> table.rows[i] == old(table.rows)[i]
    ensures !readFails && (forall k :: !faults.fails(k) && !faults.laterFails(k)) ==> ok
    ensures ok ==>
      LiveIds(table.rows, topologyId) == if skipDeletion then old(LiveIds(table.rows, topologyId)) else ToSet(compIDs)
  {
    ghost var rows := table.rows;
    ghost var kept := ToSet(compIDs);
    if readFails {
      return false;
    }
    ok := true;
    var dbCompsIDs := GetActiveComponentsIDsOfTopology(table, topologyId);
    var deleteCompIDs := SetDifference(dbCompsIDs, compIDs);
    assert ToSet(deleteCompIDs) == LiveIds(rows, topologyId) - kept;
    if |deleteCompIDs| != 0 && !skipDeletion {
      ok := table.DeleteComponentsWithIDsInBatches(deleteCompIDs, batchSize, faults);
      ghost var k :| 0 <= k <= |deleteCompIDs| && Deletes(rows, table.rows, ToSet(deleteCompIDs[..k]));
      assert ToSet(deleteCompIDs[..k]) <= ToSet(deleteCompIDs);
      OnlyStaleGone(rows, table.rows, topologyId, kept, ToSet(deleteCompIDs[..k]));
      if ok {
        OnlyStaleGone(rows, table.rows, topologyId, kept, ToSet(deleteCompIDs));
      }
    } else if |deleteCompIDs| == 0 {
      assert ToSet(deleteCompIDs) == {};
    }
  }

  /** Saving, whether it gets through or not, preserves rows and loses none. */
  lemma SavingPreserves(rows: Rows, rows': Rows, saved: set<Uuid>, topologyId: Uuid)
    requires Extends(rows, rows', saved, topologyId)
    requires forall i :: i in saved && i in rows ==> rows[i].topologyId == topologyId
    ensures Preserved(rows, rows', topologyId)
    ensures LiveIds(rows', topologyId) == LiveIds(rows, topologyId) + saved
  {
  }

  lemma SavedWithin(rows: Rows, rows': Rows, saved: set<Uuid>, topologyId: Uuid)
    requires Extends(rows, rows', saved, topologyId)
    ensures forall i :: i in saved && i in rows ==> rows[i].topologyId == topologyId
  {
  }

  lemma RecordedStays(rows: Rows, rows': Rows, ids: Ids, pm: ParentMap, topologyId: Uuid)
    requires AllRecorded(rows, ids, pm, topologyId)
    requires forall i :: i in ids.Values ==> i in rows' && i in rows && rows'[i] == rows[i]
    ensures AllRecorded(rows', ids, pm, topologyId)
  {
    forall x | x in ids
      ensures Recorded(rows', ids, pm, topologyId, x)
    {
      assert Recorded(rows, ids, pm, topologyId, x) && ids[x] in ids.Values;
    }
  }

  lemma RecordedIsLive(rows: Rows, ids: Ids, pm: ParentMap, topologyId: Uuid)
    requires AllRecorded(rows, ids, pm, topologyId)
    ensures ids.Values <= LiveIds(rows, topologyId)
  {
    forall i | i in ids.Values
      ensures i in LiveIds(rows, topologyId)
    {
      var x :| x in ids && ids[x] == i;
      assert Recorded(rows, ids, pm, topologyId, x);
    }
  }

  /**
   A run against any well-formed table. Unless saving fails, every component of the trees has a live row that hangs
   below its parent's row. If nothing fails the live rows of the topology are exactly those of the components, or, when
   a lookup failed, those and the ones that were live before. Whatever fails, the table stays well-formed, rows keep
   their identity, and nothing changes in other topologies; before deletion starts nothing has been lost.
   */
  method Run(table: Table, tops: seq<Component>, topologyId: Uuid, skipDeletion: bool, batchSize: nat,
             faults: RunFaults, ghost u: set<Component>, ghost pm: ParentMap, ghost rank: map<Component, nat>)
    returns (outcome: Outcome, ghost ids: Ids)
    requires Valid(table.rows) && batchSize > 0
    requires IsForest(u, pm, tops) && Ranked(u, rank) && forall x :: x in tops ==> Fresh(x)
    modifies table`rows, u`id, u`topologyId, u`parentId, u`path
    ensures Valid(table.rows) && Preserved(old(table.rows), table.rows, topologyId)
    ensures old(Unhindered(u, faults.refused)) ==> outcome != PersistFailed
    ensures old(Unhindered(u, faults.refused)) && faults.DeletingWorks() ==> outcome == Completed
    ensures outcome == PersistFailed ==> old(LiveIds(table.rows, topologyId)) <= LiveIds(table.rows, topologyId)
    ensures outcome != PersistFailed ==> ids.Keys == u && AllRecorded(table.rows, ids, pm, topologyId)
    ensures outcome == Completed ==>
      LiveIds(table.rows, topologyId) == ids.Values + if skipDeletion then old(LiveIds(table.rows, topologyId)) else {}
  {
    ghost var below := ForestPlan(u, pm, rank, tops);
    ghost var before := table.rows;
    var ok, compIDs;
    ghost var saved;
    ok, compIDs, ids, saved := PersistResults(table, tops, topologyId, u, pm, rank, below, faults.refused);
    ghost var between := table.rows;
    SavedWithin(before, between, saved, topologyId);
    SavingPreserves(before, between, saved, topologyId);
    if !ok {
      return PersistFailed, ids;
    }
    RecordedIsClosed(between, ids, pm, topologyId);
    RecordedIsLive(between, ids, pm, topologyId);
    ok := DeleteStale(table, topologyId, compIDs, skipDeletion, batchSize, faults.readFails, faults.deleting);
    RecordedStays(between, table.rows, ids, pm, topologyId);
    outcome := if ok then Completed else DeleteFailed;
  }
}
