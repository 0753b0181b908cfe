/**
 What a completed run means for names: the live rows of the topology, read from the top down, spell out the tree.
 */
module TopologyMirror {
  import opened Components
  import opened ComponentRows
  import opened ComponentTable
  import opened TopologyRun

  datatype Named = Named(name: string, kind: string)

  /** Names and types from the outermost ancestor of a row to the row itself. */
  ghost function RowChain(rows: Rows, i: Uuid): (chain: seq<Named>)
    requires Valid(rows) && i in rows
    ensures chain != []
    decreases |rows[i].path|
  {
    ParentPath(rows, i);
    var own := [Named(rows[i].name, rows[i].kind)];
    if rows[i].parentId.None? then own else RowChain(rows, rows[i].parentId.value) + own
  }

  /** Names and types from the top of a tree to the component that is `n` steps below it. */
  ghost function TreeChain(pm: ParentMap, top: Component, x: Component, n: nat): seq<Named>
    requires Above(pm, top, x, n)
  {
    if n == 0 then [Named(x.name, x.kind)] else TreeChain(pm, top, pm[x], n - 1) + [Named(x.name, x.kind)]
  }

  lemma SnocInjective<T>(a: seq<T>, x: T, b: seq<T>, y: T)
    requires a + [x] == b + [y]
    ensures a == b && x == y
  {
    assert |a + [x]| == |b + [y]| && (a + [x])[|a|] == x && (b + [y])[|b|] == y;
    assert (a + [x])[..|a|] == a && (b + [y])[..|b|] == b;
  }

  /** Within one topology no two rows have the same chain. */
  lemma {:induction false} ChainDeterminesRow(rows: Rows, i: Uuid, j: Uuid)
    requires Valid(rows) && i in rows && j in rows && rows[i].topologyId == rows[j].topologyId
    requires RowChain(rows, i) == RowChain(rows, j)
    ensures i == j
    decreases |rows[i].path|
  {
    ParentPath(rows, i);
    ParentPath(rows, j);
    var x, y := Named(rows[i].name, rows[i].kind), Named(rows[j].name, rows[j].kind);
    var a := if rows[i].parentId.None? then [] else RowChain(rows, rows[i].parentId.value);
    var b := if rows[j].parentId.None? then [] else RowChain(rows, rows[j].parentId.value);
    assert RowChain(rows, i) == a + [x] && RowChain(rows, j) == b + [y];
    SnocInjective(a, x, b, y);
    if rows[i].parentId.Some? {
      ChainDeterminesRow(rows, rows[i].parentId.value, rows[j].parentId.value);
    }
    assert KeyOf(rows[i]) == KeyOf(rows[j]);
  }

  /** A component and its row are spelled alike. */
  lemma {:induction false} SpelledAlike(rows: Rows, ids: Ids, pm: ParentMap, topologyId: Uuid, top: Component,
                                        x: Component, n: nat)
    requires Valid(rows) && AllRecorded(rows, ids, pm, topologyId) && x in ids && top !in pm && Above(pm, top, x, n)
    ensures ids[x] in rows && RowChain(rows, ids[x]) == TreeChain(pm, top, x, n)
    decreases n
  {
    assert Recorded(rows, ids, pm, topologyId, x);
    if n > 0 {
      SpelledAlike(rows, ids, pm, topologyId, top, pm[x], n - 1);
    }
  }

  /** The chains of the live rows of a topology. */
  ghost function LiveChains(rows: Rows, topologyId: Uuid): set<seq<Named>>
    requires Valid(rows)
  {
    set i | i in LiveIds(rows, topologyId) :: RowChain(rows, i)
  }

  /** The component's chain, whatever top it hangs below. */
  ghost predicate HasChain(pm: ParentMap, tops: seq<Component>, x: Component, chain: seq<Named>) {
    exists k, n: nat :: 0 <= k < |tops| && Above(pm, tops[k], x, n) && TreeChain(pm, tops[k], x, n) == chain
  }

  /**
   When a run has completed, a chain of names and types is that of a live row exactly when it is that of a component.
   The rows that were there before play no part in this.
   */
  lemma LiveRowsSpellTheTrees(u: set<Component>, pm: ParentMap, tops: seq<Component>, rows: Rows, ids: Ids,
                              topologyId: Uuid, chain: seq<Named>)
    requires IsForest(u, pm, tops) && Valid(rows) && ids.Keys == u && AllRecorded(rows, ids, pm, topologyId)
    requires LiveIds(rows, topologyId) == ids.Values
    ensures chain in LiveChains(rows, topologyId) <==> exists x :: x in u && HasChain(pm, tops, x, chain)
  {
    if chain in LiveChains(rows, topologyId) {
      var i :| i in LiveIds(rows, topologyId) && RowChain(rows, i) == chain;
      var x :| x in ids && ids[x] == i;
      var k :| 0 <= k < |tops| && Rooted(pm, tops[k], x);
      var n: nat :| Above(pm, tops[k], x, n);
      SpelledAlike(rows, ids, pm, topologyId, tops[k], x, n);
      assert HasChain(pm, tops, x, chain);
    }
    if x :| x in u && HasChain(pm, tops, x, chain) {
      var k, n: nat :| 0 <= k < |tops| && Above(pm, tops[k], x, n) && TreeChain(pm, tops[k], x, n) == chain;
      SpelledAlike(rows, ids, pm, topologyId, tops[k], x, n);
      assert ids[x] in ids.Values;
    }
  }

  /**
   Two runs, started from any tables, that completed with the same trees leave the same chains live; if the second table
   is a later state of the first, every component has the same id in both.
   */
  lemma RunsAgree(u: set<Component>, pm: ParentMap, tops: seq<Component>, rows: Rows, ids: Ids, rows': Rows, ids': Ids,
                  topologyId: Uuid)
    requires IsForest(u, pm, tops)
    requires Valid(rows) && ids.Keys == u && AllRecorded(rows, ids, pm, topologyId)
    requires LiveIds(rows, topologyId) == ids.Values
    requires Valid(rows') && ids'.Keys == u && AllRecorded(rows', ids', pm, topologyId)
    requires LiveIds(rows', topologyId) == ids'.Values
    ensures LiveChains(rows, topologyId) == LiveChains(rows', topologyId)
    ensures IdentitiesKept(rows, rows') ==> ids == ids'
  {
    forall chain
      ensures chain in LiveChains(rows, topologyId) <==> chain in LiveChains(rows', topologyId)
    {
      LiveRowsSpellTheTrees(u, pm, tops, rows, ids, topologyId, chain);
      LiveRowsSpellTheTrees(u, pm, tops, rows', ids', topologyId, chain);
    }
    if IdentitiesKept(rows, rows') {
      SameIds(u, pm, tops, rows, ids, rows', ids', topologyId);
    }
  }

  lemma SameIds(u: set<Component>, pm: ParentMap, tops: seq<Component>, rows: Rows, ids: Ids, rows': Rows, ids': Ids,
                topologyId: Uuid)
    requires IsForest(u, pm, tops) && ids.Keys == u && ids'.Keys == u && Valid(rows') && IdentitiesKept(rows, rows')
    requires AllRecorded(rows, ids, pm, topologyId) && AllRecorded(rows', ids', pm, topologyId)
    ensures ids == ids'
  {
    forall x | x in u
      ensures ids[x] == ids'[x]
    {
      var k :| 0 <= k < |tops| && Rooted(pm, tops[k], x);
      var n: nat :| Above(pm, tops[k], x, n);
      IdStays(rows, ids, rows', ids', pm, topologyId, tops[k], x, n);
    }
  }

  /** As long as rows are preserved, a component finds the row that it had. */
  lemma {:induction false} IdStays(rows: Rows, ids: Ids, rows': Rows, ids': Ids, pm: ParentMap, topologyId: Uuid,
                                   top: Component, x: Component, n: nat)
    requires Valid(rows') && IdentitiesKept(rows, rows') && x in ids && x in ids'
    requires AllRecorded(rows, ids, pm, topologyId) && AllRecorded(rows', ids', pm, topologyId)
    requires top !in pm && Above(pm, top, x, n)
    ensures ids[x] == ids'[x]
    decreases n
  {
    assert Recorded(rows, ids, pm, topologyId, x) && Recorded(rows', ids', pm, topologyId, x);
    if n > 0 {
      IdStays(rows, ids, rows', ids', pm, topologyId, top, pm[x], n - 1);
    }
    assert KeyOf(rows'[ids[x]]) == KeyOf(rows'[ids'[x]]);
  }

  // ---------------------------------------------------------------- over any history

  /** Tables, each left by a run for some topology from the one before, whatever came of that run. */
  ghost predicate IsHistory(tables: seq<Rows>, topologies: seq<Uuid>) {
    && |tables| == |topologies| + 1
    && forall k {:trigger topologies[k]} :: 0 <= k < |topologies| ==> Preserved(tables[k], tables[k + 1], topologies[k])
  }

  lemma KeptTwice(a: Rows, b: Rows, c: Rows)
    requires IdentitiesKept(a, b) && IdentitiesKept(b, c)
    ensures IdentitiesKept(a, c)
  {
  }

  lemma {:induction false} KeptThroughout(tables: seq<Rows>, topologies: seq<Uuid>, i: nat, j: nat)
    requires IsHistory(tables, topologies) && i <= j < |tables|
    ensures IdentitiesKept(tables[i], tables[j])
  {
    if i < j {
      KeptThroughout(tables, topologies, i, j - 1);
      assert Preserved(tables[j - 1], tables[j], topologies[j - 1]);
      KeptTwice(tables[i], tables[j - 1], tables[j]);
    }
  }

  /**
   If two runs for a topology, with any runs for this and for other topologies in between, have recorded the same trees,
   then every component has the same id after both.
   */
  lemma IdsOutliveRuns(tables: seq<Rows>, topologies: seq<Uuid>, i: nat, j: nat, u: set<Component>, pm: ParentMap,
                       tops: seq<Component>, ids: Ids, ids': Ids, topologyId: Uuid)
    requires IsHistory(tables, topologies) && i <= j < |tables| && Valid(tables[j])
    requires IsForest(u, pm, tops) && ids.Keys == u && ids'.Keys == u
    requires AllRecorded(tables[i], ids, pm, topologyId) && AllRecorded(tables[j], ids', pm, topologyId)
    ensures ids == ids'
  {
    KeptThroughout(tables, topologies, i, j);
    SameIds(u, pm, tops, tables[i], ids, tables[j], ids', topologyId);
  }
}
