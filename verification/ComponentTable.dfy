/**
 Saving a tree of components to the table, parents before children, and deleting components with all that hangs below
 them.
 */
module ComponentTable {
  import opened Common
  import opened Components
  import opened ComponentRows
  import opened Walks

  // ---------------------------------------------------------------- the tree being saved

  /** What hangs below a component, split over its children without overlap. */
  ghost predicate ShapedAt(c: Component, u: set<Component>, pm: ParentMap, below: BelowMap)
    reads c`components
  {
    && c in below && below[c] <= u && c !in below[c]
    && (forall x :: x in c.components ==> x in u && x in below && x in pm && pm[x] == c)
    && below[c] == BelowAll(c.components, below)
    && Planted(c.components, below)
  }

  ghost predicate Shaped(u: set<Component>, pm: ParentMap, below: BelowMap)
    reads u`components
  {
    forall c :: c in u ==> ShapedAt(c, u, pm, below)
  }

  /** The listed trees do not overlap. */
  ghost predicate Planted(list: seq<Component>, below: BelowMap)
    requires forall x :: x in list ==> x in below
  {
    forall i {:trigger list[i]} :: 0 <= i < |list| ==> BelowAll(list[..i], below) !! ({list[i]} + below[list[i]])
  }

  // ---------------------------------------------------------------- what has been saved

  /** The ids that components have been given. */
  type Ids = map<Component, Uuid>

  /** The component has a live row of its name and type in the topology. */
  ghost predicate HasRow(rows: Rows, ids: Ids, topologyId: Uuid, x: Component) {
    && x in ids && ids[x] in rows && rows[ids[x]].live
    && rows[ids[x]].topologyId == topologyId && rows[ids[x]].name == x.name && rows[ids[x]].kind == x.kind
  }

  /** Its row is a child of the row of its parent. */
  ghost predicate Linked(rows: Rows, ids: Ids, pm: ParentMap, x: Component)
    requires x in ids && ids[x] in rows
  {
    x in pm && pm[x] in ids && rows[ids[x]].parentId == Some(ids[pm[x]])
  }

  /** All components in the set have rows that are linked as the tree is. */
  ghost predicate Saved(rows: Rows, ids: Ids, pm: ParentMap, topologyId: Uuid, s: set<Component>) {
    forall x {:trigger HasRow(rows, ids, topologyId, x)} :: x in s ==>
      HasRow(rows, ids, topologyId, x) && Linked(rows, ids, pm, x)
  }

  lemma SavedStays(rows: Rows, rows': Rows, ids: Ids, more: Ids, pm: ParentMap, topologyId: Uuid, s: set<Component>,
                   saved: set<Uuid>)
    requires Saved(rows, ids, pm, topologyId, s) && Extends(rows, rows', saved, topologyId) && ids.Keys !! more.Keys
    ensures Saved(rows', ids + more, pm, topologyId, s)
  {
    forall x | x in s
      ensures HasRow(rows', ids + more, topologyId, x) && Linked(rows', ids + more, pm, x)
    {
      assert HasRow(rows, ids, topologyId, x) && Linked(rows, ids, pm, x);
    }
  }

  lemma SavedBelow(rows: Rows, ids: Ids, more: Ids, pm: ParentMap, topologyId: Uuid, s: set<Component>)
    requires Saved(rows, more, pm, topologyId, s)
    ensures Saved(rows, ids + more, pm, topologyId, s)
  {
    forall x | x in s
      ensures HasRow(rows, ids + more, topologyId, x) && Linked(rows, ids + more, pm, x)
    {
      assert HasRow(rows, more, topologyId, x) && Linked(rows, more, pm, x);
    }
  }

  lemma ValuesJoin(ids: Ids, more: Ids)
    requires ids.Keys !! more.Keys
    ensures (ids + more).Values == ids.Values + more.Values
  {
  }

  lemma IdsJoin(persisted: seq<Uuid>, more: seq<Uuid>, ids: Ids, moreIds: Ids)
    requires ToSet(persisted) == ids.Values && ToSet(more) == moreIds.Values && ids.Keys !! moreIds.Keys
    ensures ToSet(persisted + more) == (ids + moreIds).Values == ids.Values + moreIds.Values
  {
    ValuesJoin(ids, moreIds);
    assert ToSet(persisted + more) == ToSet(persisted) + ToSet(more);
  }

  /** One more child with everything below it has been saved. */
  lemma ChildSaved(rows: Rows, rows': Rows, ids: Ids, more: Ids, pm: ParentMap, topologyId: Uuid, done: set<Component>,
                   c: Component, child: Component, deeper: set<Component>)
    requires Saved(rows, ids, pm, topologyId, done) && Extends(rows, rows', more.Values, topologyId)
    requires ids.Keys !! more.Keys
    requires c in ids && child in pm && pm[child] == c && child in more && HasRow(rows', more, topologyId, child)
    requires rows'[more[child]].parentId == Some(ids[c])
    requires Saved(rows', more, pm, topologyId, deeper)
    ensures Saved(rows', ids + more, pm, topologyId, done + ({child} + deeper))
  {
    SavedStays(rows, rows', ids, more, pm, topologyId, done, more.Values);
    SavedBelow(rows', ids, more, pm, topologyId, deeper);
    assert HasRow(rows', ids + more, topologyId, child) && Linked(rows', ids + more, pm, child);
  }

  lemma OneMoreTree(list: seq<Component>, i: nat, below: BelowMap)
    requires i < |list| && (forall x :: x in list ==> x in below) && Planted(list, below)
    ensures BelowAll(list[..i + 1], below) == BelowAll(list[..i], below) + ({list[i]} + below[list[i]])
    ensures BelowAll(list[..i], below) !! ({list[i]} + below[list[i]])
  {
    assert list[..i + 1][..i] == list[..i];
  }

  lemma {:induction false} PrefixBelow(list: seq<Component>, i: nat, below: BelowMap)
    requires i <= |list| && forall x :: x in list ==> x in below
    ensures BelowAll(list[..i], below) <= BelowAll(list, below)
    decreases |list| - i
  {
    if i < |list| {
      assert list[..i + 1][..i] == list[..i];
      PrefixBelow(list, i + 1, below);
    } else {
      assert list[..i] == list;
    }
  }

  /** The next child and all below it, on top of what is below the children before it. */
  ghost predicate NextTree(child: Component, c: Component, done: set<Component>, done': set<Component>,
                           u: set<Component>, pm: ParentMap, below: BelowMap)
  {
    && c in below && child in u && child in below && child in pm && pm[child] == c
    && c !in {child} + below[child] && done' == done + ({child} + below[child])
    && done !! ({child} + below[child]) && {child} + below[child] <= below[c] - done
  }

  /** What is below the first children of a component, for any number of them. */
  ghost predicate Layered(c: Component, list: seq<Component>, layers: seq<set<Component>>, u: set<Component>,
                          pm: ParentMap, below: BelowMap)
  {
    && c in below && |layers| == |list| + 1 && layers[0] == {} && layers[|list|] == below[c]
    && forall i {:trigger LayerAt(i, c, list, layers, u, pm, below)} :: 0 <= i < |list| ==>
      LayerAt(i, c, list, layers, u, pm, below)
  }

  ghost predicate LayerAt(i: nat, c: Component, list: seq<Component>, layers: seq<set<Component>>, u: set<Component>,
                          pm: ParentMap, below: BelowMap)
    requires i < |list| && |layers| == |list| + 1
  {
    NextTree(list[i], c, layers[i], layers[i + 1], u, pm, below)
  }

  lemma NextTreeFits(c: Component, i: nat, u: set<Component>, pm: ParentMap, below: BelowMap)
    requires ShapedAt(c, u, pm, below) && i < |c.components|
    ensures NextTree(c.components[i], c, BelowAll(c.components[..i], below), BelowAll(c.components[..i + 1], below),
                     u, pm, below)
  {
    OneMoreTree(c.components, i, below);
    PrefixBelow(c.components, i + 1, below);
  }

  lemma LayersExist(c: Component, u: set<Component>, pm: ParentMap, below: BelowMap)
    returns (layers: seq<set<Component>>)
    requires Shaped(u, pm, below) && c in u
    ensures Layered(c, c.components, layers, u, pm, below)
  {
    var list := c.components;
    assert ShapedAt(c, u, pm, below);
    layers := seq(|list| + 1, i requires 0 <= i <= |list| => BelowAll(list[..i], below));
    assert list[..|list|] == list;
    forall i | 0 <= i < |list|
      ensures LayerAt(i, c, list, layers, u, pm, below)
    {
      NextTreeFits(c, i, u, pm, below);
    }
  }

  /** Components carry the ids that they have been given. */
  ghost predicate Held(ids: Ids)
    reads ids.Keys`id
  {
    forall x :: x in ids ==> x.id == ids[x]
  }

  /** Which components the database refuses to save. */
  type SaveFaults = Component -> bool

  ghost predicate NoneRefused(s: set<Component>, refused: SaveFaults) {
    forall x :: x in s ==> !refused(x)
  }

  /** Nothing stands in the way of saving these components: none is refused, and none comes with an id of its own. */
  ghost predicate Unhindered(s: set<Component>, refused: SaveFaults)
    reads s`id
  {
    forall x :: x in s ==> !refused(x) && x.id == 0
  }

  class Table {
    var rows: Rows

    constructor (rows: Rows)
      ensures this.rows == rows
    {
      this.rows := rows;
    }

    /** The component's parent is in the table, and its path is that of the parent followed by the parent. */
    ghost predicate Placed(c: Component)
      reads this, c
    {
      PathAgrees(rows, c.topologyId, c.parentId, c.path)
    }

    ghost predicate HasKey(c: Component)
      reads this`rows, c
    {
      exists i :: i in rows && KeyOf(rows[i]) == Key(c.topologyId, c.parentId, c.name, c.kind)
    }

    /** The row that has the component's key, live or not. */
    method FindExisting(c: Component) returns (existing: Option<Uuid>)
      ensures existing.None? <==> !HasKey(c)
      ensures existing.Some? ==>
        existing.value in rows && KeyOf(rows[existing.value]) == Key(c.topologyId, c.parentId, c.name, c.kind)
    {
      if i :| i in rows && KeyOf(rows[i]) == Key(c.topologyId, c.parentId, c.name, c.kind) {
        existing := Some(i);
      } else {
        existing := None;
      }
    }

    /**
     The component's own row: the one with its key is updated and revived, or else a new one is created. A path that is
     not set is not written. Apart from the database refusing, this fails only for a new row under an id already taken.
     */
    method SaveRow(c: Component, refused: SaveFaults) returns (ok: bool)
      requires Valid(rows) && Placed(c)
      modifies this`rows, c`id
      ensures ok <==> !refused(c) && (old(HasKey(c)) || old(c.id) == 0 || old(c.id) !in old(rows))
      ensures Valid(rows) && Extends(old(rows), rows, if ok then {c.id} else {}, c.topologyId)
      ensures ok ==> c.id in rows && rows[c.id] == Row(c.topologyId, c.parentId, c.name, c.kind, c.path, true)
    {
      var existing := FindExisting(c);
      if existing.Some? {
        c.id := existing.value;
        if refused(c) {
          return false;
        }
        var row := rows[c.id];
        assert RowAgrees(rows, c.id);
        Revived(rows, c.id);
        rows := rows[c.id := row.(path := if c.path == [] then row.path else c.path, live := true)];
      } else {
        var id := c.id;
        if id == 0 {
          ghost var unused := UnusedExists(rows.Keys);
          id :| id !in rows && id != 0;
        }
        if refused(c) || id in rows {
          return false;
        }
        c.id := id;
        var row := Row(c.topologyId, c.parentId, c.name, c.kind, c.path, true);
        Added(rows, id, row);
        rows := rows[id := row];
      }
      ok := true;
    }

    /** The component has just been saved as it is. */
    ghost predicate Stored(c: Component)
      reads this`rows, c
    {
      c.id in rows && rows[c.id] == Row(c.topologyId, c.parentId, c.name, c.kind, c.path, true)
    }

    /**
     A component and everything below it. Unless something fails, every component gets a live row whose parent is the
     row of its own parent, the ids returned are those of all these rows, and all other rows stay as they were.
     */
    method PersistComponent(c: Component, ghost u: set<Component>, ghost pm: ParentMap, ghost rank: map<Component, nat>,
                            ghost below: BelowMap, refused: SaveFaults)
      returns (ok: bool, persisted: seq<Uuid>, ghost ids: Ids, ghost saved: set<Uuid>)
      requires Shaped(u, pm, below) && Ranked(u, rank) && c in u && c in below && c !in below[c]
      requires Valid(rows) && Placed(c)
      modifies this`rows, c`id, below[c]`id, below[c]`topologyId, below[c]`parentId, below[c]`path
      ensures Valid(rows) && Extends(old(rows), rows, saved, c.topologyId)
      ensures ok ==> ids.Keys == {c} + below[c] && saved == ids.Values && ToSet(persisted) == ids.Values
      ensures ok ==> Held(ids) && Stored(c)
      ensures ok ==> Saved(rows, ids, pm, c.topologyId, below[c])
      ensures old(Unhindered({c} + below[c], refused)) ==> ok
      ensures ok ==> NoneRefused({c} + below[c], refused)
      decreases rank[c], 3
    {
      persisted, ids, saved := [], map[], {};
      ok := SaveRow(c, refused);
      if ok {
        persisted, ids := [c.id], map[c := c.id];
        assert ids.Values == {c.id} by {
          assert ids[c] in ids.Values;
        }
        ok, persisted, ids, saved := PersistChildren(c, persisted, ids, old(rows), u, pm, rank, below, refused);
      }
    }

    /** Since the table was `start`, the component and those below it in `done` have been saved. */
    ghost predicate Progress(start: Rows, c: Component, done: set<Component>, persisted: seq<Uuid>, ids: Ids,
                             pm: ParentMap, refused: SaveFaults)
      reads this`rows, c, ids.Keys`id
    {
      && NoneRefused({c} + done, refused)
      && Valid(rows) && Stored(c) && Held(ids) && Extends(start, rows, ids.Values, c.topologyId)
      && ids.Keys == {c} + done && ToSet(persisted) == ids.Values
      && Saved(rows, ids, pm, c.topologyId, done)
    }

    /** The components below one that has been saved. */
    method PersistChildren(c: Component, own: seq<Uuid>, ghost ownIds: Ids, ghost start: Rows, ghost u: set<Component>,
                           ghost pm: ParentMap, ghost rank: map<Component, nat>, ghost below: BelowMap,
                           refused: SaveFaults)
      returns (ok: bool, persisted: seq<Uuid>, ghost ids: Ids, ghost saved: set<Uuid>)
      requires Shaped(u, pm, below) && Ranked(u, rank) && c in u && c in below && c !in below[c]
      requires Progress(start, c, {}, own, ownIds, pm, refused)
      modifies this`rows, below[c]`id, below[c]`topologyId, below[c]`parentId, below[c]`path
      ensures Valid(rows) && Extends(start, rows, saved, c.topologyId)
      ensures ok ==> Progress(start, c, below[c], persisted, ids, pm, refused) && saved == ids.Values
      ensures old(Unhindered(below[c], refused)) ==> ok
      decreases rank[c], 2
    {
      ghost var layers := LayersExist(c, u, pm, below);
      assert below[c] - layers[0] == below[c];
      ok, persisted, ids, saved := PersistList(c, c.components, layers, own, ownIds, start, u, pm, rank, below,
                                               refused);
    }

    method PersistList(c: Component, list: seq<Component>, ghost layers: seq<set<Component>>, own: seq<Uuid>,
                       ghost ownIds: Ids, ghost start: Rows, ghost u: set<Component>, ghost pm: ParentMap,
                       ghost rank: map<Component, nat>, ghost below: BelowMap, refused: SaveFaults)
      returns (ok: bool, persisted: seq<Uuid>, ghost ids: Ids, ghost saved: set<Uuid>)
      requires Shaped(u, pm, below) && Ranked(u, rank) && c in u && list == c.components
      requires Layered(c, list, layers, u, pm, below)
      requires Progress(start, c, layers[0], own, ownIds, pm, refused)
      modifies this`rows, below[c]`id, below[c]`topologyId, below[c]`parentId, below[c]`path
      ensures Valid(rows) && Extends(start, rows, saved, c.topologyId)
      ensures ok ==> Progress(start, c, layers[|list|], persisted, ids, pm, refused) && saved == ids.Values
      ensures old(Unhindered(below[c] - layers[0], refused)) ==> ok
      decreases rank[c], 1
    {
      ok, persisted, ids, saved := true, own, ownIds, ownIds.Values;
      ghost var free := Unhindered(below[c] - layers[0], refused);
      for i := 0 to |list|
        invariant ok && saved == ids.Values
        invariant Progress(start, c, layers[i], persisted, ids, pm, refused)
        invariant free ==> Unhindered(below[c] - layers[i], refused)
      {
        ok, persisted, ids, saved := PersistAt(i, c, list, layers, persisted, ids, start, u, pm, rank, below, refused);
        if !ok {
          return;
        }
      }
    }

    /** The next child, whose tree lies within what is left below its parent. */
    method PersistAt(i: nat, c: Component, list: seq<Component>, ghost layers: seq<set<Component>>,
                     persisted: seq<Uuid>, ghost ids: Ids, ghost start: Rows, ghost u: set<Component>,
                     ghost pm: ParentMap, ghost rank: map<Component, nat>, ghost below: BelowMap, refused: SaveFaults)
      returns (ok: bool, persisted': seq<Uuid>, ghost ids': Ids, ghost saved: set<Uuid>)
      requires Shaped(u, pm, below) && Ranked(u, rank) && c in u && list == c.components
      requires i < |list| && Layered(c, list, layers, u, pm, below)
      requires Progress(start, c, layers[i], persisted, ids, pm, refused)
      modifies this`rows, below[c]`id, below[c]`topologyId, below[c]`parentId, below[c]`path
      ensures Valid(rows) && Extends(start, rows, saved, c.topologyId)
      ensures ok ==> saved == ids'.Values && Progress(start, c, layers[i + 1], persisted', ids', pm, refused)
      ensures old(Unhindered(below[c] - layers[i], refused)) ==> ok && Unhindered(below[c] - layers[i + 1], refused)
      decreases rank[c], 0
    {
      assert LayerAt(i, c, list, layers, u, pm, below);
      ok, persisted', ids', saved := PersistNext(list[i], c, layers[i], persisted, ids, start, u, pm, rank, below,
                                                 refused);
    }

    /** One more child on top of what has been saved. */
    method PersistNext(child: Component, c: Component, ghost done: set<Component>, persisted: seq<Uuid>, ghost ids: Ids,
                       ghost start: Rows, ghost u: set<Component>, ghost pm: ParentMap, ghost rank: map<Component, nat>,
                       ghost below: BelowMap, refused: SaveFaults)
      returns (ok: bool, persisted': seq<Uuid>, ghost ids': Ids, ghost saved: set<Uuid>)
      requires Shaped(u, pm, below) && Ranked(u, rank) && child in u && child in below
      requires child in pm && pm[child] == c && c !in {child} + below[child] && done !! ({child} + below[child])
      requires Progress(start, c, done, persisted, ids, pm, refused)
      modifies this`rows, ({child} + below[child])`id, ({child} + below[child])`topologyId
      modifies ({child} + below[child])`parentId, ({child} + below[child])`path
      ensures Valid(rows) && Extends(start, rows, saved, c.topologyId)
      ensures ok ==> Progress(start, c, done + ({child} + below[child]), persisted', ids', pm, refused)
      ensures ok ==> saved == ids'.Values
      ensures old(Unhindered({child} + below[child], refused)) ==> ok
      decreases rank[child], 5
    {
      ghost var before := rows;
      var childIds: seq<Uuid>;
      ghost var more, added;
      ok, childIds, more, added := PersistChild(child, c, u, pm, rank, below, refused);
      ExtendsTwice(start, before, rows, ids.Values, added, c.topologyId);
      persisted', ids', saved := persisted, ids, ids.Values + added;
      if ok {
        ChildSaved(before, rows, ids, more, pm, c.topologyId, done, c, child, below[child]);
        IdsJoin(persisted, childIds, ids, more);
        persisted', ids' := persisted + childIds, ids + more;
        assert Held(ids') && ids'.Keys == {c} + (done + ({child} + below[child]));
      }
    }

    /** A child is given its parent's topology, id and path before it is saved. */
    method PersistChild(child: Component, c: Component, ghost u: set<Component>, ghost pm: ParentMap,
                        ghost rank: map<Component, nat>, ghost below: BelowMap, refused: SaveFaults)
      returns (ok: bool, persisted: seq<Uuid>, ghost ids: Ids, ghost saved: set<Uuid>)
      requires Shaped(u, pm, below) && Ranked(u, rank) && child in u && child in below && c !in {child} + below[child]
      requires Valid(rows) && Stored(c)
      modifies this`rows, ({child} + below[child])`id, ({child} + below[child])`topologyId
      modifies ({child} + below[child])`parentId, ({child} + below[child])`path
      ensures Valid(rows) && Extends(old(rows), rows, saved, c.topologyId) && Stored(c)
      ensures ok ==> ids.Keys == {child} + below[child] && saved == ids.Values && ToSet(persisted) == ids.Values
      ensures ok ==> Held(ids) && HasRow(rows, ids, c.topologyId, child) && rows[ids[child]].parentId == Some(c.id)
      ensures ok ==> Saved(rows, ids, pm, c.topologyId, below[child])
      ensures old(Unhindered({child} + below[child], refused)) ==> ok
      ensures ok ==> NoneRefused({child} + below[child], refused)
      decreases rank[child], 4
    {
      assert ShapedAt(child, u, pm, below);
      child.topologyId := c.topologyId;
      if c.path != [] {
        child.path := c.path + [c.id];
      } else {
        child.path := [c.id];
      }
      child.parentId := Some(c.id);
      ok, persisted, ids, saved := PersistComponent(child, u, pm, rank, below, refused);
    }

    // ---------------------------------------------------------------- deleting

    /** Every row that has the id in its path. */
    method DeleteComponentChildren(id: Uuid, fails: bool) returns (ok: bool)
      modifies this`rows
      ensures ok == !fails
      ensures rows == if ok then Marked(old(rows), id) else old(rows)
    {
      ok := !fails;
      if ok {
        rows := Marked(rows, id);
      }
    }

    /**
     The rows named, and then what hangs below each of them. The statements that follow the first one, for
     relationships, can fail too, when the rows named are gone already; failures below a single row are only logged.
     */
    method DeleteComponentsWithIDs(ids: seq<Uuid>, fails: bool, laterFails: bool, childrenFail: Uuid -> bool)
      returns (ok: bool)
      requires Valid(rows)
      modifies this`rows
      ensures Valid(rows) && ok == (!fails && !laterFails)
      ensures if fails then rows == old(rows) else Deletes(old(rows), rows, ToSet(ids))
      ensures ok && (forall id :: id in ids ==> !childrenFail(id)) ==> Cascades(old(rows), rows, ToSet(ids))
    {
      if fails {
        return false;
      }
      NamedGone(rows, ids);
      rows := Without(rows, ids);
      DeletesKeepValid(old(rows), rows, ToSet(ids));
      if laterFails {
        return false;
      }
      for k := 0 to |ids|
        invariant Deletes(old(rows), rows, ToSet(ids))
        invariant (forall id :: id in ids ==> !childrenFail(id)) ==> NoneBelow(rows, ids, k)
      {
        MarkedToo(old(rows), rows, ids, k);
        var done := DeleteComponentChildren(ids[k], childrenFail(ids[k]));
      }
      AllGone(old(rows), rows, ids);
      DeletesKeepValid(old(rows), rows, ToSet(ids));
      ok := true;
    }

    /** The same in batches. */
    method DeleteComponentsWithIDsInBatches(ids: seq<Uuid>, batchSize: nat, faults: DeleteFaults) returns (ok: bool)
      requires Valid(rows) && batchSize > 0
      modifies this`rows
      ensures Valid(rows)
      ensures (forall k :: !faults.fails(k) && !faults.laterFails(k)) ==> ok
      ensures ok ==> Deletes(old(rows), rows, ToSet(ids))
      ensures ok && (forall id :: id in ids ==> !faults.childrenFail(id)) ==> Cascades(old(rows), rows, ToSet(ids))
      ensures exists k :: 0 <= k <= |ids| && Deletes(old(rows), rows, ToSet(ids[..k]))
    {
      ok := true;
      var from, batch := 0, 0;
      NoneDeleted(rows);
      assert ToSet(ids[..0]) == {};
      while from < |ids|
        invariant 0 <= from <= |ids| && ok && Valid(rows)
        invariant Deletes(old(rows), rows, ToSet(ids[..from]))
        invariant (forall id :: id in ids ==> !faults.childrenFail(id)) ==>
          Cascades(old(rows), rows, ToSet(ids[..from]))
      {
        var to := if from + batchSize < |ids| then from + batchSize else |ids|;
        ghost var before := rows;
        BatchJoins(ids, from, to);
        ok := DeleteComponentsWithIDs(ids[from..to], faults.fails(batch), faults.laterFails(batch),
                                      faults.childrenFail);
        if !faults.fails(batch) {
          DeletesTwice(old(rows), before, rows, ToSet(ids[..from]), ToSet(ids[from..to]));
        }
        if !ok {
          return;
        }
        from, batch := to, batch + 1;
      }
      assert ids[..|ids|] == ids;
    }
  }

  lemma BatchJoins(ids: seq<Uuid>, from: nat, to: nat)
    requires from <= to <= |ids|
    ensures ToSet(ids[..to]) == ToSet(ids[..from]) + ToSet(ids[from..to])
    ensures forall id :: id in ids[from..to] ==> id in ids
  {
    assert ids[..to] == ids[..from] + ids[from..to];
  }

  /** What goes wrong while deleting: by batch its first statement or a later one, and by id the children's. */
  datatype DeleteFaults = DeleteFaults(fails: nat -> bool, laterFails: nat -> bool, childrenFail: Uuid -> bool)

  function Without(rows: Rows, ids: seq<Uuid>): Rows {
    map i | i in rows :: if i in ids then rows[i].(live := false) else rows[i]
  }

  lemma NoneDeleted(rows: Rows)
    ensures Cascades(rows, rows, {})
  {
  }

  lemma NamedGone(rows: Rows, ids: seq<Uuid>)
    ensures Deletes(rows, Without(rows, ids), ToSet(ids))
  {
  }

  /** No live row is below one of the first `k` ids. */
  ghost predicate NoneBelow(rows: Rows, ids: seq<Uuid>, k: nat)
    requires k <= |ids|
  {
    forall i, j :: i in rows && rows[i].live && 0 <= j < k ==> ids[j] !in rows[i].path
  }

  lemma MarkedToo(rows: Rows, rows1: Rows, ids: seq<Uuid>, k: nat)
    requires Deletes(rows, rows1, ToSet(ids)) && k < |ids|
    ensures Deletes(rows, Marked(rows1, ids[k]), ToSet(ids))
    ensures NoneBelow(rows1, ids, k) ==> NoneBelow(Marked(rows1, ids[k]), ids, k + 1)
  {
  }

  lemma AllGone(rows: Rows, rows1: Rows, ids: seq<Uuid>)
    requires Deletes(rows, rows1, ToSet(ids))
    ensures NoneBelow(rows1, ids, |ids|) ==> Cascades(rows, rows1, ToSet(ids))
  {
  }

  /** All rows that have the id in their path are gone. */
  function Marked(rows: Rows, id: Uuid): Rows {
    map i | i in rows :: if id in rows[i].path then rows[i].(live := false) else rows[i]
  }

  lemma Revived(rows: Rows, id: Uuid)
    requires Valid(rows) && id in rows
    ensures var rows' := rows[id := rows[id].(live := true)];
      Valid(rows') && Extends(rows, rows', {id}, rows[id].topologyId)
  {
    var rows' := rows[id := rows[id].(live := true)];
    forall i | i in rows'
      ensures RowAgrees(rows', i)
    {
      assert RowAgrees(rows, i);
    }
    forall i, j | i in rows' && j in rows' && KeyOf(rows'[i]) == KeyOf(rows'[j])
      ensures i == j
    {
      assert KeyOf(rows[i]) == KeyOf(rows[j]);
    }
  }

  lemma Added(rows: Rows, id: Uuid, row: Row)
    requires Valid(rows) && id !in rows && id != 0 && row.live
    requires PathAgrees(rows, row.topologyId, row.parentId, row.path)
    requires forall i :: i in rows ==> KeyOf(rows[i]) != KeyOf(row)
    ensures Valid(rows[id := row]) && Extends(rows, rows[id := row], {id}, row.topologyId)
  {
    var rows' := rows[id := row];
    forall i | i in rows'
      ensures RowAgrees(rows', i)
    {
      assert i != id ==> RowAgrees(rows, i);
    }
    forall i, j | i in rows' && j in rows' && KeyOf(rows'[i]) == KeyOf(rows'[j])
      ensures i == j
    {
      assert i != id && j != id ==> KeyOf(rows[i]) == KeyOf(rows[j]);
    }
  }
}
