/**
 What a traversal that moves children on its way has done, in terms of the parent map and of the order in which it goes.
 */
module Scans {
  import opened Common
  import opened Components
  import opened Layouts
  import opened Moves

  /** The parent of a scanned component has been scanned too. */
  ghost predicate Frontier(pm: ParentMap, scanned: set<Component>) {
    forall x :: x in pm && x in scanned ==> pm[x] in scanned
  }

  ghost predicate AllRooted(pm: ParentMap, root: Component, s: set<Component>) {
    forall x :: x in s ==> Rooted(pm, root, x)
  }

  /** The move is the one that the child's lookup asks for, and its parent has been scanned. */
  ghost predicate AskedFor(pm: ParentMap, targets: TargetMap, scanned: set<Component>, m: Move) {
    m.child in pm && m.child in targets && pm[m.child] in scanned && m == Move(m.child, pm[m.child], targets[m.child])
  }

  /** Exactly the children of scanned components whose lookup resolves are moved, once each. */
  ghost predicate MovesExactly(pm: ParentMap, targets: TargetMap, scanned: set<Component>, moves: seq<Move>) {
    && (forall i, j :: 0 <= i < j < |moves| ==> moves[i].child != moves[j].child)
    && (forall k :: 0 <= k < |moves| ==> AskedFor(pm, targets, scanned, moves[k]))
    && (forall x :: x in pm && x in targets && pm[x] in scanned ==> x in Moved(moves))
  }

  lemma MovesCompose(pm: ParentMap, targets: TargetMap, a: set<Component>, b: set<Component>, first: seq<Move>,
                     second: seq<Move>)
    requires a !! b && MovesExactly(pm, targets, a, first)
    requires MovesExactly(ApplyMoves(pm, first), targets - Moved(first), b, second)
    ensures MovesExactly(pm, targets, a + b, first + second)
  {
    var both := first + second;
    MovedAppends(first, second);
    forall k | 0 <= k < |both|
      ensures AskedFor(pm, targets, a + b, both[k])
    {
      if k < |first| {
        assert AskedFor(pm, targets, a, first[k]);
      } else {
        var m := second[k - |first|];
        assert AskedFor(ApplyMoves(pm, first), targets - Moved(first), b, m);
        MovesElsewhere(pm, first, m.child);
      }
    }
    forall i, j | 0 <= i < j < |both|
      ensures both[i].child != both[j].child
    {
      if i < |first| <= j {
        assert AskedFor(ApplyMoves(pm, first), targets - Moved(first), b, second[j - |first|]);
        assert first[i].child in Moved(first);
      }
    }
    forall x | x in pm && x in targets && pm[x] in a + b
      ensures x in Moved(both)
    {
      if x !in Moved(first) {
        MovesElsewhere(pm, first, x);
      }
    }
  }

  /** Components whose parents have been scanned stay attached while only others are moved. */
  lemma {:induction false} ScannedStayRooted(pm: ParentMap, pm': ParentMap, root: Component, scanned: set<Component>,
                                             x: Component, n: nat)
    requires Frontier(pm, scanned) && x in scanned && Above(pm, root, x, n)
    requires forall y :: y in scanned ==> (y in pm <==> y in pm') && (y in pm ==> pm'[y] == pm[y])
    ensures Rooted(pm', root, x)
  {
    if n == 0 {
      assert Above(pm', root, x, 0);
    } else {
      ScannedStayRooted(pm, pm', root, scanned, pm[x], n - 1);
      var k: nat :| Above(pm', root, pm[x], k);
      assert Above(pm', root, x, k + 1);
    }
  }

  lemma AllStayRooted(pm: ParentMap, root: Component, scanned: set<Component>, moves: seq<Move>)
    requires Frontier(pm, scanned) && AllRooted(pm, root, scanned) && scanned !! Moved(moves)
    ensures Frontier(ApplyMoves(pm, moves), scanned) && AllRooted(ApplyMoves(pm, moves), root, scanned)
  {
    var pm' := ApplyMoves(pm, moves);
    forall y | y in scanned
      ensures (y in pm <==> y in pm') && (y in pm ==> pm'[y] == pm[y])
    {
      MovesElsewhere(pm, moves, y);
    }
    forall x | x in scanned
      ensures Rooted(pm', root, x)
    {
      var n: nat :| Above(pm, root, x, n);
      ScannedStayRooted(pm, pm', root, scanned, x, n);
    }
  }

  /** The moves of one component's children are what scanning just that component asks for. */
  lemma ScanningOne(list: seq<Component>, pm: ParentMap, targets: TargetMap, c: Component)
    requires Mirrors(list, pm, c)
    ensures MovesExactly(pm, targets, {c}, MovesOf(list, targets, c))
  {
    var moves := MovesOf(list, targets, c);
    forall k | 0 <= k < |moves|
      ensures AskedFor(pm, targets, {c}, moves[k])
    {
      assert moves[k].child in Moved(moves);
    }
    MovesOfDistinct(list, targets, c);
  }

  lemma {:induction false} MovesOfDistinct(list: seq<Component>, targets: TargetMap, c: Component)
    requires forall i, j :: 0 <= i < j < |list| ==> list[i] != list[j]
    ensures var moves := MovesOf(list, targets, c); forall i, j :: 0 <= i < j < |moves| ==>
      moves[i].child != moves[j].child
  {
    if list != [] {
      var last := |list| - 1;
      MovesOfDistinct(list[..last], targets, c);
      var before := MovesOf(list[..last], targets, c);
      forall i | 0 <= i < |before|
        ensures before[i].child != list[last]
      {
        assert before[i].child in Moved(before);
      }
      MovesOfSnoc(list, last, targets, c);
      assert list[..last + 1] == list;
    }
  }

  /** Moves out of an attached component are legal one after the other. */
  lemma ScanIsLegal(pm: ParentMap, targets: TargetMap, root: Component, scanned: set<Component>, c: Component,
                    moves: seq<Move>)
    requires c in scanned && Frontier(pm, scanned) && AllRooted(pm, root, scanned) && scanned !! Moved(moves)
    requires MovesExactly(pm, targets, {c}, moves)
    ensures LegalTrace(pm, root, moves)
  {
    forall k {:trigger moves[k]} | 0 <= k < |moves|
      ensures Legal(ApplyMoves(pm, moves[..k]), root, moves[k])
    {
      var before := moves[..k];
      assert Moved(before) <= Moved(moves) by {
        assert moves == before + moves[k..];
        MovedAppends(before, moves[k..]);
      }
      AllStayRooted(pm, root, scanned, before);
      assert AskedFor(pm, targets, {c}, moves[k]);
      MovesElsewhere(pm, before, moves[k].child);
    }
  }

  /** The state between two scans: lists and parent map agree, and what has been scanned hangs below the root. */
  ghost predicate Scanning(u: set<Component>, pm: ParentMap, root: Component, scanned: set<Component>)
    reads u`components
  {
    Represents(u, pm) && root !in pm && scanned <= u && Frontier(pm, scanned) && AllRooted(pm, root, scanned)
  }

  /** The component is not scanned yet, but its parent is, unless it is the root. */
  ghost predicate Ready(pm: ParentMap, root: Component, scanned: set<Component>, c: Component) {
    c !in scanned && if c == root then c !in pm else c in pm && pm[c] in scanned
  }

  /** The components in `batch` other than `c` are below others in it. */
  ghost predicate Under(pm: ParentMap, c: Component, batch: set<Component>) {
    forall x :: x in batch && x != c ==> x in pm && pm[x] in batch
  }

  /** Children of components in `batch` belong to it too, except for those that were moved and for those in `rest`. */
  ghost predicate Covered(pm: ParentMap, batch: set<Component>, moved: set<Component>, rest: seq<Component>) {
    forall x :: x in pm && pm[x] in batch ==> x in batch || x in moved || x in rest
  }

  /**
   What scanning `c`, and with it the components in `batch`, has done by the time that the children in `rest` are left.
   */
  ghost predicate Scanned(pm: ParentMap, root: Component, targets: TargetMap, c: Component, batch: set<Component>,
                          moves: seq<Move>, rest: seq<Component>)
  {
    && c in batch
    && MovesExactly(pm, targets, batch, moves)
    && LegalTrace(pm, root, moves)
    && Under(ApplyMoves(pm, moves), c, batch)
    && Covered(ApplyMoves(pm, moves), batch, Moved(moves), rest)
  }

  /** The children of `c` that are left to scan. */
  ghost predicate Pending(pm: ParentMap, c: Component, scanned: set<Component>, rest: seq<Component>) {
    && (forall i, j :: 0 <= i < j < |rest| ==> rest[i] != rest[j])
    && (forall x :: x in rest ==> x !in scanned && x in pm && pm[x] == c)
  }

  /** Children of components that were not scanned, and those whose lookup does not resolve, stay where they are. */
  lemma OthersStay(pm: ParentMap, targets: TargetMap, batch: set<Component>, moves: seq<Move>, x: Component)
    requires MovesExactly(pm, targets, batch, moves) && (x in pm && x in targets ==> pm[x] !in batch)
    ensures x !in Moved(moves)
    ensures x in ApplyMoves(pm, moves) <==> x in pm
    ensures x in pm ==> ApplyMoves(pm, moves)[x] == pm[x]
  {
    forall k | 0 <= k < |moves|
      ensures moves[k].child != x
    {
      assert AskedFor(pm, targets, batch, moves[k]);
    }
    MovesElsewhere(pm, moves, x);
  }

  /** Scanning just `c` leaves its remaining children. */
  lemma OneScanned(pm: ParentMap, root: Component, targets: TargetMap, scanned: set<Component>, c: Component,
                   list: seq<Component>, moves: seq<Move>)
    requires root !in pm && Frontier(pm, scanned) && AllRooted(pm, root, scanned) && Ready(pm, root, scanned, c)
    requires Mirrors(list, pm, c) && moves == MovesOf(list, targets, c)
    ensures MovesExactly(pm, targets, {c}, moves) && LegalTrace(pm, root, moves)
    ensures root !in ApplyMoves(pm, moves)
    ensures Frontier(ApplyMoves(pm, moves), scanned + {c}) && AllRooted(ApplyMoves(pm, moves), root, scanned + {c})
    ensures Frontier(ApplyMoves(pm, moves), scanned) && (c !in ApplyMoves(pm, moves) || ApplyMoves(pm, moves)[c] != c)
  {
    ScanningOne(list, pm, targets, c);
    assert Rooted(pm, root, c) by {
      if c == root {
        assert Above(pm, root, c, 0);
      } else {
        var n: nat :| Above(pm, root, pm[c], n);
        assert Above(pm, root, c, n + 1);
      }
    }
    forall x | x in scanned + {c}
      ensures x !in Moved(moves)
    {
      OthersStay(pm, targets, {c}, moves, x);
    }
    OthersStay(pm, targets, {c}, moves, c);
    ScanIsLegal(pm, targets, root, scanned + {c}, c, moves);
    AllStayRooted(pm, root, scanned + {c}, moves);
    RootStays(pm, root, moves);
    AllStayRooted(pm, root, scanned, moves);
  }

  /** The children that are left after one component has been scanned. */
  lemma RestIsPending(pm: ParentMap, scanned: set<Component>, c: Component, kept: seq<Component>)
    requires Mirrors(kept, pm, c) && Frontier(pm, scanned + {c}) && c !in scanned && (c !in pm || pm[c] != c)
    requires Frontier(pm, scanned)
    ensures Pending(pm, c, scanned + {c}, kept)
    ensures Covered(pm, {c}, {}, kept)
  {
  }

  /**
   Where things are after another scan: children of scanned components have stayed, and nothing else has arrived
   unmoved.
   */
  ghost predicate StayedApart(pm: ParentMap, pm': ParentMap, scanned: set<Component>, moved: set<Component>) {
    && (forall x :: x in pm && pm[x] in scanned ==> x !in moved && x in pm' && pm'[x] == pm[x])
    && (forall x :: x in pm' && x !in moved ==> x in pm && pm[x] == pm'[x])
  }

  lemma ScansApart(pm: ParentMap, targets: TargetMap, scanned: set<Component>, batch: set<Component>, moves: seq<Move>)
    requires MovesExactly(pm, targets, batch, moves) && scanned !! batch
    ensures StayedApart(pm, ApplyMoves(pm, moves), scanned, Moved(moves))
  {
    var pm' := ApplyMoves(pm, moves);
    forall x | x in pm && pm[x] in scanned
      ensures x !in Moved(moves) && x in pm' && pm'[x] == pm[x]
    {
      OthersStay(pm, targets, batch, moves, x);
    }
    forall x | x in pm' && x !in Moved(moves)
      ensures x in pm && pm[x] == pm'[x]
    {
      MovesElsewhere(pm, moves, x);
    }
  }

  lemma CoveredAfter(pm: ParentMap, pm': ParentMap, scanned: set<Component>, batch: set<Component>,
                     batch': set<Component>, moved: set<Component>, moved': set<Component>, rest: seq<Component>)
    requires StayedApart(pm, pm', scanned, moved') && batch <= scanned && rest != []
    requires Covered(pm, batch, moved, rest) && Covered(pm', batch', moved', []) && rest[0] in batch'
    ensures Covered(pm', batch + batch', moved + moved', rest[1..])
  {
  }

  lemma PendingAfter(pm: ParentMap, pm': ParentMap, scanned: set<Component>, c: Component, batch': set<Component>,
                     moved': set<Component>, rest: seq<Component>)
    requires StayedApart(pm, pm', scanned, moved') && c in scanned && scanned !! batch'
    requires rest != [] && Pending(pm, c, scanned, rest) && Under(pm', rest[0], batch')
    ensures Pending(pm', c, scanned + batch', rest[1..])
  {
  }

  lemma UnderAfter(pm: ParentMap, pm': ParentMap, scanned: set<Component>, c: Component, batch: set<Component>,
                   batch': set<Component>, moved': set<Component>, x: Component)
    requires StayedApart(pm, pm', scanned, moved') && c in batch && batch <= scanned
    requires Under(pm, c, batch) && Under(pm', x, batch') && x in pm && pm[x] == c
    ensures Under(pm', c, batch + batch')
  {
  }

  /** The bookkeeping of one more child scanned. */
  lemma ChildScanned(pm: ParentMap, root: Component, targets: TargetMap, c: Component, batch: set<Component>,
                     moves: seq<Move>, rest: seq<Component>, scanned: set<Component>, batch': set<Component>,
                     more: seq<Move>)
    requires Scanned(pm, root, targets, c, batch, moves, rest) && rest != []
    requires Pending(ApplyMoves(pm, moves), c, scanned, rest)
    requires Scanned(ApplyMoves(pm, moves), root, targets - Moved(moves), rest[0], batch', more, [])
    requires batch <= scanned && scanned !! batch'
    ensures Scanned(pm, root, targets, c, batch + batch', moves + more, rest[1..])
    ensures Pending(ApplyMoves(pm, moves + more), c, scanned + batch', rest[1..])
  {
    var pm1 := ApplyMoves(pm, moves);
    var pm2 := ApplyMoves(pm1, more);
    ApplyAppends(pm, moves, more);
    MovesCompose(pm, targets, batch, batch', moves, more);
    LegalAppends(pm, root, moves, more);
    MovedAppends(moves, more);
    ScansApart(pm1, targets - Moved(moves), scanned, batch', more);
    CoveredAfter(pm1, pm2, scanned, batch, batch', Moved(moves), Moved(more), rest);
    PendingAfter(pm1, pm2, scanned, c, batch', Moved(more), rest);
    UnderAfter(pm1, pm2, scanned, c, batch, batch', Moved(more), rest[0]);
  }

  // ---------------------------------------------------------------- the order of a traversal

  /** One component is scanned, and the other one later. */
  ghost predicate Later(order: seq<Component>, a: Component, b: Component) {
    exists i, j :: 0 <= i < j < |order| && order[i] == a && order[j] == b
  }

  /** A moved child is scanned exactly if its new parent is scanned later than the one it left. */
  ghost predicate Timely(order: seq<Component>, batch: set<Component>, moves: seq<Move>) {
    forall k {:trigger moves[k]} :: 0 <= k < |moves| ==>
      (moves[k].child in batch <==> Later(order, moves[k].from, moves[k].to))
  }

  /** The components in `batch`, once each, in the order of the traversal so far. */
  ghost predicate InOrder(scan: Scan, batch: set<Component>, moves: seq<Move>) {
    && Distinct(OrderOf(scan)) && ToSet(OrderOf(scan)) == batch
    && Timely(OrderOf(scan), batch, moves)
  }

  lemma LaterJoins(a: seq<Component>, b: seq<Component>, x: Component, y: Component)
    requires Distinct(a) && Distinct(b) && ToSet(a) !! ToSet(b)
    ensures Distinct(a + b) && ToSet(a + b) == ToSet(a) + ToSet(b)
    ensures Later(a + b, x, y) <==> Later(a, x, y) || Later(b, x, y) || (x in a && y in b)
  {
    var both := a + b;
    forall i, j | 0 <= i < j < |both|
      ensures both[i] != both[j]
    {
      if i < |a| <= j {
        assert both[i] in ToSet(a) && both[j] in ToSet(b);
      }
    }
    if Later(a, x, y) {
      var i, j :| 0 <= i < j < |a| && a[i] == x && a[j] == y;
      assert both[i] == x && both[j] == y;
    }
    if Later(b, x, y) {
      var i, j :| 0 <= i < j < |b| && b[i] == x && b[j] == y;
      assert both[|a| + i] == x && both[|a| + j] == y;
    }
    if x in a && y in b {
      var i :| 0 <= i < |a| && a[i] == x;
      var j :| 0 <= j < |b| && b[j] == y;
      assert both[i] == x && both[|a| + j] == y;
    }
    if Later(both, x, y) {
      var i, j :| 0 <= i < j < |both| && both[i] == x && both[j] == y;
      if j < |a| {
        assert a[i] == x && a[j] == y;
      } else if |a| <= i {
        assert b[i - |a|] == x && b[j - |a|] == y;
      } else {
        assert a[i] == x && b[j - |a|] == y;
      }
    }
  }

  lemma LaterMembers(order: seq<Component>, a: Component, b: Component)
    requires Distinct(order)
    ensures Later(order, a, b) ==> a in ToSet(order) && b in ToSet(order) && a != b
  {
  }

  // ---------------------------------------------------------------- one more child

  /** A child that was moved before is scanned with a later part of the traversal exactly if its new parent is. */
  lemma ScannedWithParent(pm: ParentMap, moves: seq<Move>, k: nat, more: seq<Move>, top: Component,
                          batch: set<Component>, batch': set<Component>)
    requires k < |moves| && forall i, j :: 0 <= i < j < |moves| ==> moves[i].child != moves[j].child
    requires moves[k].from in batch && batch !! batch' && moves[k].child !in Moved(more) && moves[k].child != top
    requires Under(ApplyMoves(ApplyMoves(pm, moves), more), top, batch')
    requires Covered(ApplyMoves(ApplyMoves(pm, moves), more), batch', Moved(more), [])
    ensures moves[k].child in batch' <==> moves[k].to in batch'
  {
    MovedOnce(pm, moves, k);
    MovesElsewhere(ApplyMoves(pm, moves), more, moves[k].child);
  }

  /** How the moves of an earlier and a later part of a traversal relate to the parts. */
  ghost predicate Meets(moves: seq<Move>, more: seq<Move>, batch: set<Component>, batch': set<Component>) {
    && (forall k {:trigger moves[k]} :: 0 <= k < |moves| ==>
      moves[k].from in batch && (moves[k].child in batch' <==> moves[k].to in batch'))
    && (forall k {:trigger more[k]} :: 0 <= k < |more| ==> more[k].from in batch' && more[k].child !in batch)
  }

  lemma TimelyJoins(order: seq<Component>, order': seq<Component>, moves: seq<Move>, more: seq<Move>,
                    batch: set<Component>, batch': set<Component>)
    requires Distinct(order) && Distinct(order') && ToSet(order) == batch && ToSet(order') == batch' && batch !! batch'
    requires Timely(order, batch, moves) && Timely(order', batch', more) && Meets(moves, more, batch, batch')
    ensures Timely(order + order', batch + batch', moves + more)
  {
    var both := moves + more;
    forall k {:trigger both[k]} | 0 <= k < |both|
      ensures both[k].child in batch + batch' <==> Later(order + order', both[k].from, both[k].to)
    {
      var m := both[k];
      LaterJoins(order, order', m.from, m.to);
      if k < |moves| {
        assert m == moves[k];
        LaterMembers(order', m.from, m.to);
      } else {
        assert m == more[k - |moves|];
        LaterMembers(order, m.from, m.to);
      }
    }
  }

  /** The children that are left have not been moved. */
  ghost predicate Untouched(rest: seq<Component>, moves: seq<Move>) {
    forall x :: x in rest ==> x !in Moved(moves)
  }

  lemma ChildMeets(pm: ParentMap, root: Component, targets: TargetMap, c: Component, batch: set<Component>,
                   moves: seq<Move>, rest: seq<Component>, scanned: set<Component>, batch': set<Component>,
                   more: seq<Move>)
    requires Scanned(pm, root, targets, c, batch, moves, rest) && rest != [] && Untouched(rest, moves)
    requires Scanned(ApplyMoves(pm, moves), root, targets - Moved(moves), rest[0], batch', more, [])
    requires batch <= scanned && scanned !! batch' && Frontier(ApplyMoves(pm, moves), scanned)
    ensures Meets(moves, more, batch, batch')
  {
    var pm1 := ApplyMoves(pm, moves);
    var targets1 := targets - Moved(moves);
    forall k {:trigger more[k]} | 0 <= k < |more|
      ensures more[k].from in batch' && more[k].child !in batch && more[k].child !in Moved(moves)
    {
      assert AskedFor(pm1, targets1, batch', more[k]);
    }
    forall k {:trigger moves[k]} | 0 <= k < |moves|
      ensures moves[k].from in batch && (moves[k].child in batch' <==> moves[k].to in batch')
    {
      assert AskedFor(pm, targets, batch, moves[k]);
      assert moves[k].child in Moved(moves);
      ScannedWithParent(pm, moves, k, more, rest[0], batch, batch');
    }
  }

  /** One more child scanned, in terms of the order. */
  lemma ChildInOrder(pm: ParentMap, root: Component, targets: TargetMap, c: Component, batch: set<Component>,
                     moves: seq<Move>, rest: seq<Component>, scanned: set<Component>, batch': set<Component>,
                     more: seq<Move>, kids: seq<Scan>, scan: Scan)
    requires Scanned(pm, root, targets, c, batch, moves, rest) && rest != [] && Untouched(rest, moves)
    requires Pending(ApplyMoves(pm, moves), c, scanned, rest) && c in batch
    requires Scanned(ApplyMoves(pm, moves), root, targets - Moved(moves), rest[0], batch', more, [])
    requires batch <= scanned && scanned !! batch' && Frontier(ApplyMoves(pm, moves), scanned)
    requires InOrder(Scan(c, kids), batch, moves) && InOrder(scan, batch', more)
    ensures InOrder(Scan(c, kids + [scan]), batch + batch', moves + more)
    ensures Untouched(rest[1..], moves + more)
  {
    ChildMeets(pm, root, targets, c, batch, moves, rest, scanned, batch', more);
    TimelyJoins(OrderOf(Scan(c, kids)), OrderOf(scan), moves, more, batch, batch');
    LaterJoins(OrderOf(Scan(c, kids)), OrderOf(scan), c, c);
    KidsSnoc(c, kids, scan, Layout(map[], map[]));
    MovedAppends(moves, more);
    forall x | x in rest[1..]
      ensures x !in Moved(moves + more)
    {
      assert x in rest;
      OthersStay(ApplyMoves(pm, moves), targets - Moved(moves), batch', more, x);
    }
  }

  // ---------------------------------------------------------------- a traversal as a whole

  /**
   All that a traversal has done: it is the one that lists and lookups prescribe and made the moves that they prescribe;
   which components it scanned, each once; and what that means for the parent map.
   */
  ghost predicate Traversed(pm: ParentMap, root: Component, s: Layout, scan: Scan, batch: set<Component>,
                            moves: seq<Move>)
  {
    && Follows(scan, s) && moves == MovesIn(scan, s)
    && Scanned(pm, root, s.targets, scan.top, batch, moves, [])
    && InOrder(scan, batch, moves)
  }

  /** A whole tree has been traversed. The moves and the components scanned follow from lists and lookups alone. */
  ghost predicate TreeTraversed(pm: ParentMap, root: Component, s: Layout, scanned: set<Component>, moves: seq<Move>) {
    Traversed(pm, root, s, Prescribed(s, root), scanned, moves)
  }

  /** The same before the children in `rest` have been scanned. */
  ghost predicate Traversing(pm: ParentMap, root: Component, s: Layout, scan: Scan, batch: set<Component>,
                             moves: seq<Move>, rest: seq<Component>)
  {
    && FollowsAll(scan.kids, Detached(s, scan.top)) && moves == MovesIn(scan, s)
    && Scanned(pm, root, s.targets, scan.top, batch, moves, rest)
    && InOrder(scan, batch, moves) && Untouched(rest, moves)
  }

  /** One component by itself. */
  lemma OneTraversed(pm: ParentMap, root: Component, s: Layout, c: Component, kept: seq<Component>, moves: seq<Move>)
    requires c in s.lists && Mirrors(s.lists[c], pm, c) && kept == Kept(s.lists[c], s.targets)
    requires moves == MovesOf(s.lists[c], s.targets, c)
    requires Scanned(pm, root, s.targets, c, {c}, moves, kept) && c !in Moved(moves)
    ensures Traversing(pm, root, s, Scan(c, []), {c}, moves, kept)
  {
    var order := OrderOf(Scan(c, []));
    assert order == [c];
    forall k {:trigger moves[k]} | 0 <= k < |moves|
      ensures moves[k].child in {c} <==> Later(order, moves[k].from, moves[k].to)
    {
      assert moves[k].child in Moved(moves);
    }
    forall x | x in kept
      ensures x !in Moved(moves)
    {
      KeptMembers(s.lists[c], s.targets, x);
    }
  }

  /** The bookkeeping of scanning one component. */
  lemma OneDone(pm: ParentMap, root: Component, s: Layout, scanned: set<Component>, c: Component, kept: seq<Component>,
                moves: seq<Move>)
    requires root !in pm && Frontier(pm, scanned) && AllRooted(pm, root, scanned) && Ready(pm, root, scanned, c)
    requires c in s.lists && Mirrors(s.lists[c], pm, c) && kept == Kept(s.lists[c], s.targets)
    requires moves == MovesOf(s.lists[c], s.targets, c) && Mirrors(kept, ApplyMoves(pm, moves), c)
    ensures Traversing(pm, root, s, Scan(c, []), {c}, moves, kept)
    ensures Pending(ApplyMoves(pm, moves), c, scanned + {c}, kept) && root !in ApplyMoves(pm, moves)
    ensures Frontier(ApplyMoves(pm, moves), scanned + {c}) && AllRooted(ApplyMoves(pm, moves), root, scanned + {c})
  {
    OneScanned(pm, root, s.targets, scanned, c, s.lists[c], moves);
    OthersStay(pm, s.targets, {c}, moves, c);
    RestIsPending(ApplyMoves(pm, moves), scanned, c, kept);
    OneTraversed(pm, root, s, c, kept, moves);
  }

  /** The bookkeeping of one more child traversed. */
  lemma KidTraversed(pm: ParentMap, root: Component, s: Layout, scan: Scan, batch: set<Component>, moves: seq<Move>,
                     rest: seq<Component>, scanned: set<Component>, now: Layout, batch': set<Component>,
                     more: seq<Move>, kid: Scan)
    requires Traversing(pm, root, s, scan, batch, moves, rest) && rest != []
    requires Pending(ApplyMoves(pm, moves), scan.top, scanned, rest) && Frontier(ApplyMoves(pm, moves), scanned)
    requires now == AfterAll(scan.kids, Detached(s, scan.top)) && now.targets == s.targets - Moved(moves)
    requires Traversed(ApplyMoves(pm, moves), root, now, kid, batch', more) && kid.top == rest[0]
    requires batch <= scanned && scanned !! batch'
    ensures Traversing(pm, root, s, Scan(scan.top, scan.kids + [kid]), batch + batch', moves + more, rest[1..])
    ensures Pending(ApplyMoves(pm, moves + more), scan.top, scanned + batch', rest[1..])
    ensures Tops(scan.kids + [kid]) == Tops(scan.kids) + [rest[0]]
    ensures AfterAll(scan.kids + [kid], Detached(s, scan.top)) == After(kid, now)
  {
    KidsSnoc(scan.top, scan.kids, kid, s);
    ChildScanned(pm, root, s.targets, scan.top, batch, moves, rest, scanned, batch', more);
    ChildInOrder(pm, root, s.targets, scan.top, batch, moves, rest, scanned, batch', more, scan.kids, kid);
  }

  /**
   The same lists and lookups make for the same traversal: it scans the same components in the same order, makes the
   same moves, and is the one that can be computed from the lists and lookups.
   */
  lemma SameTraversal(pm: ParentMap, root: Component, s: Layout, scan: Scan, batch: set<Component>, moves: seq<Move>,
                      scan': Scan, batch': set<Component>, moves': seq<Move>)
    requires Traversed(pm, root, s, scan, batch, moves) && Traversed(pm, root, s, scan', batch', moves')
    requires scan.top == scan'.top
    ensures scan == scan' && batch == batch' && moves == moves'
    ensures batch <= s.lists.Keys ==> scan == Prescribed(s, scan.top)
  {
    OnlyOne(scan, scan', s);
    if batch <= s.lists.Keys {
      PrescribedIs(scan, s);
    }
  }
}
