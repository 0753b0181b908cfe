/**
 A traversal that moves children on its way, as a function of what the lists hold and of what lookups resolve to.
 */
module Layouts {
  import opened Common
  import opened Components
  import opened Moves
  import opened Sequences

  type TargetMap = map<Component, Component>

  /** What every component's list held at some moment. */
  type ListMap = map<Component, seq<Component>>

  /** What the lists hold, and which lookups still resolve, and to what. */
  datatype Layout = Layout(lists: ListMap, targets: TargetMap)

  // ---------------------------------------------------------------- what becomes of one component's children

  /** The children that stay: those whose lookup does not resolve. */
  ghost function Kept(list: seq<Component>, targets: TargetMap): seq<Component> {
    if list == [] then []
    else
      var last := |list| - 1;
      Kept(list[..last], targets) + if list[last] in targets then [] else [list[last]]
  }

  lemma {:induction false} KeptMembers(list: seq<Component>, targets: TargetMap, x: Component)
    ensures x in Kept(list, targets) <==> x in list && x !in targets
  {
    if list != [] {
      var last := |list| - 1;
      KeptMembers(list[..last], targets, x);
      assert list == list[..last] + [list[last]];
    }
  }

  lemma KeptSnoc(list: seq<Component>, i: nat, targets: TargetMap)
    requires i < |list|
    ensures Kept(list[..i + 1], targets) == Kept(list[..i], targets) + if list[i] in targets then [] else [list[i]]
  {
    assert list[..i + 1][..i] == list[..i];
  }

  /** The moves of one component's children, in the order of its list. */
  ghost function MovesOf(list: seq<Component>, targets: TargetMap, from: Component): (moves: seq<Move>)
    ensures Moved(moves) == set x | x in list && x in targets
    ensures forall k :: 0 <= k < |moves| ==>
      moves[k] == Move(moves[k].child, from, TargetOf(targets, moves[k].child, from))
  {
    if list == [] then []
    else
      var last := list[|list| - 1];
      var front := MovesOf(list[..|list| - 1], targets, from);
      assert list == list[..|list| - 1] + [last];
      if last in targets then
        var moves := front + [Move(last, from, targets[last])];
        assert forall k :: 0 <= k < |front| ==> moves[k] == front[k];
        MovedSnoc(front, Move(last, from, targets[last]));
        moves
      else front
  }

  lemma MovesOfSnoc(list: seq<Component>, i: nat, targets: TargetMap, from: Component)
    requires i < |list|
    ensures MovesOf(list[..i + 1], targets, from)
         == MovesOf(list[..i], targets, from)
            + if list[i] in targets then [Move(list[i], from, targets[list[i]])] else []
  {
    assert list[..i + 1][..i] == list[..i];
  }

  lemma MovedSnoc(moves: seq<Move>, m: Move)
    ensures Moved(moves + [m]) == Moved(moves) + {m.child}
  {
    var longer := moves + [m];
    forall k | 0 <= k < |moves|
      ensures moves[k].child in Moved(longer)
    {
      assert longer[k] == moves[k];
    }
    assert longer[|moves|].child in Moved(longer);
  }

  /** What a longer sequence of moves does, and what is left to be moved after it. */
  lemma MovesExtend(pm: ParentMap, targets: TargetMap, moves: seq<Move>, more: seq<Move>)
    ensures ApplyMoves(pm, moves + more) == ApplyMoves(ApplyMoves(pm, moves), more)
    ensures (targets - Moved(moves)) - Moved(more) == targets - Moved(moves + more)
  {
    ApplyAppends(pm, moves, more);
    MovedAppends(moves, more);
    var rest := targets - (Moved(moves) + Moved(more));
    assert (targets - Moved(moves)) - Moved(more) == rest;
  }

  ghost function TargetOf(targets: TargetMap, x: Component, default: Component): Component {
    if x in targets then targets[x] else default
  }

  /** The children that join `p`, in the order in which they do. */
  ghost function Arrivals(list: seq<Component>, targets: TargetMap, p: Component): seq<Component> {
    if list == [] then []
    else
      var last := |list| - 1;
      Arrivals(list[..last], targets, p)
      + if list[last] in targets && targets[list[last]] == p then [list[last]] else []
  }

  /** All lists, each followed by the children in `list` that join it. */
  ghost function Filled(lists: ListMap, list: seq<Component>, targets: TargetMap): (filled: ListMap)
    ensures filled.Keys == lists.Keys
  {
    map p | p in lists :: lists[p] + Arrivals(list, targets, p)
  }

  /** One more child joins the list of `p`. */
  ghost function Joined(lists: ListMap, x: Component, p: Component): ListMap {
    if p in lists then lists[p := lists[p] + [x]] else lists
  }

  lemma ArrivalsNext(list: seq<Component>, i: nat, targets: TargetMap, p: Component)
    requires i < |list|
    ensures Arrivals(list[..i + 1], targets, p)
         == if list[i] in targets && targets[list[i]] == p then Arrivals(list[..i], targets, p) + [list[i]]
            else Arrivals(list[..i], targets, p)
  {
    assert list[..i + 1][..i] == list[..i];
  }

  lemma JoinedFilled(lists: ListMap, front: seq<Component>, longer: seq<Component>, targets: TargetMap, x: Component,
                     to: Component)
    requires forall p :: p in lists ==>
      Arrivals(longer, targets, p) == if p == to then Arrivals(front, targets, p) + [x] else Arrivals(front, targets, p)
    ensures Filled(lists, longer, targets) == Joined(Filled(lists, front, targets), x, to)
  {
    var before, after := Filled(lists, front, targets), Filled(lists, longer, targets);
    forall p | p in lists
      ensures after[p] == if p == to then before[p] + [x] else before[p]
    {
      AppendLast(lists[p], Arrivals(front, targets, p), x);
    }
    assert after == Joined(before, x, to);
  }

  lemma AppendLast(a: seq<Component>, b: seq<Component>, x: Component)
    ensures a + (b + [x]) == a + b + [x]
  {
  }

  lemma FilledNext(lists: ListMap, list: seq<Component>, i: nat, targets: TargetMap)
    requires i < |list|
    ensures Filled(lists, list[..i + 1], targets)
         == if list[i] in targets then Joined(Filled(lists, list[..i], targets), list[i], targets[list[i]])
            else Filled(lists, list[..i], targets)
  {
    forall p
      ensures Arrivals(list[..i + 1], targets, p)
           == if list[i] in targets && targets[list[i]] == p then Arrivals(list[..i], targets, p) + [list[i]]
              else Arrivals(list[..i], targets, p)
    {
      ArrivalsNext(list, i, targets, p);
    }
    if list[i] in targets {
      JoinedFilled(lists, list[..i], list[..i + 1], targets, list[i], targets[list[i]]);
    } else {
      assert Filled(lists, list[..i + 1], targets) == Filled(lists, list[..i], targets);
    }
  }

  lemma FilledByNone(lists: ListMap, targets: TargetMap)
    ensures Filled(lists, [], targets) == lists
  {
    assert forall p :: p in lists ==> Filled(lists, [], targets)[p] == lists[p];
  }

  /**
   The children of `c` have been detached: those whose lookup resolves have joined their new parents, and will not move
   again. One that joins `c` itself is lost, because its list is replaced by that of those that stay.
   */
  ghost function Detached(s: Layout, c: Component): Layout {
    if c !in s.lists then s
    else
      var list := s.lists[c];
      Layout(Filled(s.lists, list, s.targets)[c := Kept(list, s.targets)],
             s.targets - Moved(MovesOf(list, s.targets, c)))
  }

  ghost function ListAt(s: Layout, c: Component): seq<Component> {
    if c in s.lists then s.lists[c] else []
  }

  /** Which children stay: those whose lookup does not resolve. */
  ghost function Staying(list: seq<Component>, targets: TargetMap): (picks: seq<Option<Component>>)
    ensures |picks| == |list|
    ensures forall i :: 0 <= i < |list| ==> picks[i] == if list[i] in targets then None else Some(list[i])
  {
    seq(|list|, i requires 0 <= i < |list| => if list[i] in targets then None else Some(list[i]))
  }

  /** Which children leave for `p`. */
  ghost function Joining(list: seq<Component>, targets: TargetMap, p: Component): (picks: seq<Option<Component>>)
    ensures |picks| == |list|
    ensures forall i :: 0 <= i < |list| ==>
      picks[i] == if list[i] in targets && targets[list[i]] == p then Some(list[i]) else None
  {
    seq(|list|, i requires 0 <= i < |list| =>
      if list[i] in targets && targets[list[i]] == p then Some(list[i]) else None)
  }

  lemma {:induction false} KeptPicked(list: seq<Component>, targets: TargetMap)
    ensures Picked(Staying(list, targets), Kept(list, targets))
  {
    if list == [] {
      NothingPicked<Component>();
      assert Staying(list, targets) == [];
    } else {
      var front, last := list[..|list| - 1], list[|list| - 1];
      KeptPicked(front, targets);
      var pick := if last in targets then None else Some(last);
      OneMorePicked(Staying(front, targets), Kept(front, targets), pick);
      assert Staying(list, targets) == Staying(front, targets) + [pick];
    }
  }

  lemma {:induction false} ArrivalsPicked(list: seq<Component>, targets: TargetMap, p: Component)
    ensures Picked(Joining(list, targets, p), Arrivals(list, targets, p))
  {
    if list == [] {
      NothingPicked<Component>();
      assert Joining(list, targets, p) == [];
    } else {
      var front, last := list[..|list| - 1], list[|list| - 1];
      ArrivalsPicked(front, targets, p);
      var pick := if last in targets && targets[last] == p then Some(last) else None;
      OneMorePicked(Joining(front, targets, p), Arrivals(front, targets, p), pick);
      assert Joining(list, targets, p) == Joining(front, targets, p) + [pick];
    }
  }

  /**
   So the list of `c` keeps, in order, the children whose lookup does not resolve, every other list has gained, in
   that order and at its end, the children whose lookup names its owner, and none of those will move again.
   */
  lemma DetachedInOrder(s: Layout, c: Component)
    requires c in s.lists
    ensures var list, s' := s.lists[c], Detached(s, c);
      && s'.lists.Keys == s.lists.Keys
      && Picked(Staying(list, s.targets), s'.lists[c])
      && (forall p :: p in s.lists && p != c ==>
            exists more :: s'.lists[p] == s.lists[p] + more && Picked(Joining(list, s.targets, p), more))
      && (forall x :: x in s'.targets <==> x in s.targets && x !in list)
      && (forall x :: x in s'.targets ==> s'.targets[x] == s.targets[x])
  {
    var list, s' := s.lists[c], Detached(s, c);
    KeptPicked(list, s.targets);
    forall p | p in s.lists && p != c
      ensures exists more :: s'.lists[p] == s.lists[p] + more && Picked(Joining(list, s.targets, p), more)
    {
      ArrivalsPicked(list, s.targets, p);
    }
  }

  // ---------------------------------------------------------------- traversals

  /** A traversal: a component, and the traversals of the children that it went on to, in that order. */
  datatype Scan = Scan(top: Component, kids: seq<Scan>)

  /** The components in the order in which they are scanned. */
  ghost function OrderOf(scan: Scan): seq<Component> {
    [scan.top] + OrderAll(scan.kids)
  }

  ghost function OrderAll(kids: seq<Scan>): seq<Component> {
    if kids == [] then [] else OrderAll(kids[..|kids| - 1]) + OrderOf(kids[|kids| - 1])
  }

  ghost function Tops(kids: seq<Scan>): (tops: seq<Component>)
    ensures |tops| == |kids| && forall i :: 0 <= i < |kids| ==> tops[i] == kids[i].top
  {
    seq(|kids|, i requires 0 <= i < |kids| => kids[i].top)
  }

  /**
   What a traversal leaves: the children of its top are detached, and then the kids are traversed one after the other.
   */
  ghost function After(scan: Scan, s: Layout): Layout {
    AfterAll(scan.kids, Detached(s, scan.top))
  }

  ghost function AfterAll(kids: seq<Scan>, s: Layout): Layout {
    if kids == [] then s
    else
      var last := |kids| - 1;
      After(kids[last], AfterAll(kids[..last], s))
  }

  /** The moves of a traversal: those of the children of its top, and then those of the kids. */
  ghost function MovesIn(scan: Scan, s: Layout): seq<Move> {
    MovesOf(ListAt(s, scan.top), s.targets, scan.top) + MovesAll(scan.kids, Detached(s, scan.top))
  }

  ghost function MovesAll(kids: seq<Scan>, s: Layout): seq<Move> {
    if kids == [] then []
    else
      var last := |kids| - 1;
      MovesAll(kids[..last], s) + MovesIn(kids[last], AfterAll(kids[..last], s))
  }

  /**
   The traversal is the one that lists and lookups prescribe: it goes on to exactly the children that the list of its
   top holds once those whose lookup resolves have left, in the order of the list.
   */
  ghost predicate Follows(scan: Scan, s: Layout)
    decreases scan
  {
    var one := Detached(s, scan.top);
    Tops(scan.kids) == ListAt(one, scan.top) && FollowsAll(scan.kids, one)
  }

  /** Each of the kids is traversed as prescribed by what those before it have left. */
  ghost predicate FollowsAll(kids: seq<Scan>, s: Layout)
    decreases kids
  {
    kids == []
    || (var last := |kids| - 1; FollowsAll(kids[..last], s) && Follows(kids[last], AfterAll(kids[..last], s)))
  }

  /** One more kid. */
  lemma KidsSnoc(top: Component, kids: seq<Scan>, kid: Scan, s: Layout)
    ensures var one := Detached(s, top);
      && MovesIn(Scan(top, kids + [kid]), s) == MovesIn(Scan(top, kids), s) + MovesIn(kid, AfterAll(kids, one))
      && AfterAll(kids + [kid], one) == After(kid, AfterAll(kids, one))
      && (FollowsAll(kids + [kid], one) <==> FollowsAll(kids, one) && Follows(kid, AfterAll(kids, one)))
    ensures OrderOf(Scan(top, kids + [kid])) == OrderOf(Scan(top, kids)) + OrderOf(kid)
    ensures Tops(kids + [kid]) == Tops(kids) + [kid.top]
  {
    assert (kids + [kid])[..|kids|] == kids;
    assert [top] + (OrderAll(kids) + OrderOf(kid)) == [top] + OrderAll(kids) + OrderOf(kid);
    var one := Detached(s, top);
    var own := MovesOf(ListAt(s, top), s.targets, top);
    assert own + (MovesAll(kids, one) + MovesIn(kid, AfterAll(kids, one)))
        == own + MovesAll(kids, one) + MovesIn(kid, AfterAll(kids, one));
  }

  // ---------------------------------------------------------------- there is only one

  /** Lists and lookups prescribe one traversal from each component. */
  lemma {:induction false} OnlyOne(scan: Scan, other: Scan, s: Layout)
    requires Follows(scan, s) && Follows(other, s) && scan.top == other.top
    ensures scan == other
    decreases scan, 0
  {
    OnlyOneList(scan.kids, other.kids, Detached(s, scan.top));
  }

  lemma {:induction false} OnlyOneList(kids: seq<Scan>, others: seq<Scan>, s: Layout)
    requires FollowsAll(kids, s) && FollowsAll(others, s) && Tops(kids) == Tops(others)
    ensures kids == others
    decreases kids, |kids|
  {
    assert |kids| == |Tops(kids)| == |others|;
    if kids != [] {
      var last := |kids| - 1;
      assert Tops(kids[..last]) == Tops(kids)[..last] == Tops(others[..last]);
      OnlyOneList(kids[..last], others[..last], s);
      assert kids[last].top == Tops(kids)[last] == others[last].top;
      OnlyOne(kids[last], others[last], AfterAll(kids[..last], s));
      SplitLast(kids);
      SplitLast(others);
    }
  }

  /** The traversal from `c` that is prescribed, computed to a depth. */
  ghost function Foreseen(c: Component, s: Layout, depth: nat): (scan: Scan)
    ensures scan.top == c
    decreases depth, 0
  {
    if depth == 0 then Scan(c, [])
    else
      var one := Detached(s, c);
      Scan(c, ForeseenAll(ListAt(one, c), one, depth - 1))
  }

  ghost function ForeseenAll(list: seq<Component>, s: Layout, depth: nat): (kids: seq<Scan>)
    ensures |kids| == |list|
    decreases depth, |list| + 1
  {
    if list == [] then []
    else
      var last := |list| - 1;
      var front := ForeseenAll(list[..last], s, depth);
      front + [Foreseen(list[last], AfterAll(front, s), depth)]
  }

  /** A prescribed traversal can be computed: nothing is deeper than the number of components in it. */
  lemma {:induction false} ForeseenIs(scan: Scan, s: Layout, depth: nat)
    requires Follows(scan, s) && |OrderOf(scan)| <= depth
    ensures Foreseen(scan.top, s, depth) == scan
    decreases scan, 0
  {
    ForeseenAllIs(scan.kids, Detached(s, scan.top), depth - 1);
  }

  lemma {:induction false} ForeseenAllIs(kids: seq<Scan>, s: Layout, depth: nat)
    requires FollowsAll(kids, s) && |OrderAll(kids)| <= depth
    ensures ForeseenAll(Tops(kids), s, depth) == kids
    decreases kids, |kids|
  {
    if kids != [] {
      var last := |kids| - 1;
      var front := kids[..last];
      ForeseenAllIs(front, s, depth);
      ForeseenIs(kids[last], AfterAll(front, s), depth);
      assert Tops(kids)[..last] == Tops(front);
      SplitLast(kids);
    }
  }

  /** The traversal of a whole tree. */
  ghost function Prescribed(s: Layout, root: Component): (scan: Scan)
    ensures scan.top == root
  {
    Foreseen(root, s, |s.lists|)
  }

  /** The order in which lists and lookups have a tree scanned. */
  ghost function ScanOrder(s: Layout, root: Component): seq<Component> {
    OrderOf(Prescribed(s, root))
  }

  /** If a traversal within the lists scans no component twice, it is that one. */
  lemma PrescribedIs(scan: Scan, s: Layout)
    requires Follows(scan, s) && Distinct(OrderOf(scan)) && ToSet(OrderOf(scan)) <= s.lists.Keys
    ensures Prescribed(s, scan.top) == scan
  {
    DistinctCardinality(OrderOf(scan));
    SubsetCardinality(ToSet(OrderOf(scan)), s.lists.Keys);
    ForeseenIs(scan, s, |s.lists|);
  }
}
