/**
 The rows of the components table: every row carries the ids of all its ancestors, the outermost first.
 */
module ComponentRows {
  import opened Common
  import opened Components

  datatype Row = Row(topologyId: Uuid, parentId: Option<Uuid>, name: string, kind: string, path: seq<Uuid>, live: bool)

  type Rows = map<Uuid, Row>

  /** What identifies a component across runs. */
  datatype Key = Key(topologyId: Uuid, parentId: Option<Uuid>, name: string, kind: string)

  function KeyOf(row: Row): Key {
    Key(row.topologyId, row.parentId, row.name, row.kind)
  }

  ghost predicate UniqueKeys(rows: Rows) {
    forall i, j {:trigger KeyOf(rows[i]), KeyOf(rows[j])} ::
      i in rows && j in rows && KeyOf(rows[i]) == KeyOf(rows[j]) ==> i == j
  }

  /** A row's path is its parent's path followed by its parent. */
  ghost predicate PathAgrees(rows: Rows, topologyId: Uuid, parentId: Option<Uuid>, path: seq<Uuid>) {
    match parentId
    case None => path == []
    case Some(p) => p in rows && rows[p].topologyId == topologyId && path == rows[p].path + [p]
  }

  ghost predicate RowAgrees(rows: Rows, i: Uuid)
    requires i in rows
  {
    PathAgrees(rows, rows[i].topologyId, rows[i].parentId, rows[i].path)
  }

  ghost predicate Valid(rows: Rows) {
    && 0 !in rows
    && UniqueKeys(rows)
    && forall i {:trigger RowAgrees(rows, i)} :: i in rows ==> RowAgrees(rows, i)
  }

  // ---------------------------------------------------------------- the path and the parents

  /** `a` is reached from `i` by going up to the parent `n` times. */
  ghost predicate AncestorBy(rows: Rows, a: Uuid, i: Uuid, n: nat)
    decreases n
  {
    i in rows && if n == 0 then i == a else rows[i].parentId.Some? && AncestorBy(rows, a, rows[i].parentId.value, n - 1)
  }

  /** A row with a parent: its path is one longer than that of the parent. */
  lemma ParentPath(rows: Rows, i: Uuid)
    requires Valid(rows) && i in rows
    ensures rows[i].parentId.None? ==> rows[i].path == []
    ensures rows[i].parentId.Some? ==> var p := rows[i].parentId.value;
      p in rows && rows[p].topologyId == rows[i].topologyId && rows[i].path == rows[p].path + [p]
  {
    assert RowAgrees(rows, i);
  }

  /** The path is in the order of the ancestors: entry `k` is reached by going up from the row to depth `k`. */
  lemma {:induction false} PathInOrder(rows: Rows, i: Uuid, k: nat, a: Uuid, n: nat)
    requires Valid(rows) && i in rows && k < |rows[i].path| && a == rows[i].path[k] && n == |rows[i].path| - k
    ensures AncestorBy(rows, a, i, n)
    decreases n
  {
    ParentPath(rows, i);
    var p := rows[i].parentId.value;
    if k == |rows[p].path| {
      assert AncestorBy(rows, p, p, 0);
    } else {
      PathInOrder(rows, p, k, a, n - 1);
    }
  }

  /** Whatever is reached by going up is in the path, at its depth. */
  lemma {:induction false} AncestorInPath(rows: Rows, a: Uuid, i: Uuid, n: nat)
    requires Valid(rows) && n > 0 && AncestorBy(rows, a, i, n)
    ensures i in rows && n <= |rows[i].path| && rows[i].path[|rows[i].path| - n] == a
    ensures a in rows && rows[a].topologyId == rows[i].topologyId
    decreases n
  {
    ParentPath(rows, i);
    var p := rows[i].parentId.value;
    if n == 1 {
      assert AncestorBy(rows, a, p, 0);
    } else {
      AncestorInPath(rows, a, p, n - 1);
    }
  }

  ghost predicate IsAncestor(rows: Rows, a: Uuid, i: Uuid) {
    exists n: nat :: n > 0 && AncestorBy(rows, a, i, n)
  }

  /** The path of a row names exactly the rows that are reached from it by going up, all of them in its topology. */
  lemma PathIsAncestry(rows: Rows, a: Uuid, i: Uuid)
    requires Valid(rows) && i in rows
    ensures a in rows[i].path <==> IsAncestor(rows, a, i)
    ensures a in rows[i].path ==> a in rows && rows[a].topologyId == rows[i].topologyId
  {
    if a in rows[i].path {
      var k :| 0 <= k < |rows[i].path| && rows[i].path[k] == a;
      var n := |rows[i].path| - k;
      PathInOrder(rows, i, k, a, n);
      AncestorInPath(rows, a, i, n);
    }
    if IsAncestor(rows, a, i) {
      var n: nat :| n > 0 && AncestorBy(rows, a, i, n);
      AncestorInPath(rows, a, i, n);
    }
  }

  // ---------------------------------------------------------------- saving

  /** Rows of one topology are added or revived: those in `saved` are there and live, all others are as before. */
  ghost predicate Extends(rows: Rows, rows': Rows, saved: set<Uuid>, topologyId: Uuid) {
    && rows.Keys <= rows'.Keys && rows'.Keys <= rows.Keys + saved && saved <= rows'.Keys
    && (forall i :: i in saved ==> rows'[i].live && rows'[i].topologyId == topologyId)
    && (forall i :: i in rows ==> rows'[i] == rows[i].(live := rows'[i].live))
    && (forall i :: i in rows && i !in saved ==> rows'[i] == rows[i])
  }

  lemma ExtendsTwice(rows: Rows, rows1: Rows, rows2: Rows, a: set<Uuid>, b: set<Uuid>, topologyId: Uuid)
    requires Extends(rows, rows1, a, topologyId) && Extends(rows1, rows2, b, topologyId)
    ensures Extends(rows, rows2, a + b, topologyId)
  {
  }

  // ---------------------------------------------------------------- deleting

  /** The row or one of its ancestors is in the set. */
  ghost predicate Hit(rows: Rows, ids: set<Uuid>, i: Uuid)
    requires i in rows
  {
    i in ids || exists a :: a in ids && a in rows[i].path
  }

  /** Rows in the set are gone, and no row is gone that is not hit. Nothing but liveness changes. */
  ghost predicate Deletes(rows: Rows, rows': Rows, ids: set<Uuid>) {
    && rows'.Keys == rows.Keys
    && (forall i :: i in rows ==> rows'[i] == rows[i].(live := rows'[i].live))
    && (forall i :: i in rows && rows'[i].live ==> rows[i].live && i !in ids)
    && (forall i :: i in rows && rows[i].live && !rows'[i].live ==> Hit(rows, ids, i))
  }

  /** In addition every row that is hit is gone. */
  ghost predicate Cascades(rows: Rows, rows': Rows, ids: set<Uuid>) {
    && Deletes(rows, rows', ids)
    && forall i :: i in rows && rows'[i].live ==> !Hit(rows, ids, i)
  }

  lemma DeletesTwice(rows: Rows, rows1: Rows, rows2: Rows, a: set<Uuid>, b: set<Uuid>)
    requires Deletes(rows, rows1, a) && Deletes(rows1, rows2, b)
    ensures Deletes(rows, rows2, a + b)
    ensures Cascades(rows, rows1, a) && Cascades(rows1, rows2, b) ==> Cascades(rows, rows2, a + b)
  {
  }

  lemma DeletesKeepValid(rows: Rows, rows': Rows, ids: set<Uuid>)
    requires Valid(rows) && Deletes(rows, rows', ids)
    ensures Valid(rows')
  {
    forall i | i in rows'
      ensures RowAgrees(rows', i)
    {
      assert RowAgrees(rows, i);
    }
    forall i, j | i in rows' && j in rows' && KeyOf(rows'[i]) == KeyOf(rows'[j])
      ensures i == j
    {
      assert KeyOf(rows[i]) == KeyOf(rows[j]);
    }
  }

  /** With the whole cascade, exactly the named rows and everything below them by parent are gone. */
  lemma CascadeTakesSubtrees(rows: Rows, rows': Rows, ids: set<Uuid>, i: Uuid)
    requires Valid(rows) && Cascades(rows, rows', ids) && i in rows
    ensures rows'[i].live <==> rows[i].live && i !in ids && forall a :: a in ids ==> !IsAncestor(rows, a, i)
  {
    forall a | a in ids
      ensures a in rows[i].path <==> IsAncestor(rows, a, i)
    {
      PathIsAncestry(rows, a, i);
    }
  }
}
