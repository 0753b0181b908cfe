/**
 Three small trees and what becomes of their lookups: one is ignored below a component that joined a parent already
 scanned, one below a component that joined the list that is being gone through, and one is honoured after two moves.
 */
module TraversalExamples {
  import opened Common
  import opened Components
  import opened Layouts
  import opened Moves

  // ---------------------------------------------------------------- one component's children

  lemma {:induction false} NoneLeave(list: seq<Component>, targets: TargetMap, c: Component)
    requires forall x :: x in list ==> x !in targets
    ensures Kept(list, targets) == list && MovesOf(list, targets, c) == []
  {
    if list != [] {
      SplitLast(list);
      NoneLeave(list[..|list| - 1], targets, c);
    }
  }

  lemma {:induction false} NoneArrive(list: seq<Component>, targets: TargetMap, p: Component)
    requires forall x :: x in list ==> x !in targets
    ensures Arrivals(list, targets, p) == []
  {
    if list != [] {
      NoneArrive(list[..|list| - 1], targets, p);
    }
  }

  /** Where no lookup resolves nothing changes. */
  lemma AllStay(s: Layout, c: Component)
    requires c in s.lists && forall x :: x in s.lists[c] ==> x !in s.targets
    ensures Detached(s, c) == s && MovesOf(s.lists[c], s.targets, c) == []
  {
    NoneLeave(s.lists[c], s.targets, c);
    forall p | p in s.lists
      ensures Filled(s.lists, s.lists[c], s.targets)[p] == s.lists[p]
    {
      NoneArrive(s.lists[c], s.targets, p);
    }
  }

  /** The layout after an only child has left. */
  ghost function WithoutSole(s: Layout, c: Component, x: Component, to: Component): Layout
    requires to in s.lists
  {
    Layout(s.lists[c := []][to := s.lists[to] + [x]], s.targets - {x})
  }

  /** An only child leaves for another component. */
  lemma SoleLeaves(s: Layout, c: Component, x: Component, to: Component)
    requires c in s.lists && s.lists[c] == [x] && x in s.targets && s.targets[x] == to && to in s.lists && to != c
    ensures Detached(s, c) == WithoutSole(s, c, x, to)
    ensures MovesOf(s.lists[c], s.targets, c) == [Move(x, c, to)]
  {
    var list := [x];
    OnePrefix(x);
    assert Filled(s.lists, list, s.targets) == Joined(s.lists, x, to) by {
      FilledByNone(s.lists, s.targets);
      FilledNext(s.lists, list, 0, s.targets);
    }
    MovesOfSnoc(list, 0, s.targets, c);
    KeptSnoc(list, 0, s.targets);
    BothSet(s.lists, c, [], to, s.lists[to] + [x]);
  }

  lemma FilledByTwo(s: Layout, x: Component, y: Component, to: Component)
    requires x in s.targets && y in s.targets && s.targets[x] == s.targets[y] == to && to in s.lists
    ensures Filled(s.lists, [x, y], s.targets) == s.lists[to := s.lists[to] + [x] + [y]]
  {
    TwoPrefixes(x, y);
    FilledByNone(s.lists, s.targets);
    FilledNext(s.lists, [x, y], 0, s.targets);
    FilledNext(s.lists, [x, y], 1, s.targets);
  }

  /** The layout after both children have left. */
  ghost function WithoutBoth(s: Layout, c: Component, x: Component, y: Component, to: Component): Layout
    requires to in s.lists
  {
    Layout(s.lists[c := []][to := s.lists[to] + [x] + [y]], s.targets - {x, y})
  }

  /** Two children, all that there are, leave for the same component. */
  lemma BothLeave(s: Layout, c: Component, x: Component, y: Component, to: Component)
    requires c in s.lists && s.lists[c] == [x, y] && to in s.lists && to != c
    requires x in s.targets && y in s.targets && s.targets[x] == s.targets[y] == to
    ensures Detached(s, c) == WithoutBoth(s, c, x, y, to)
    ensures MovesOf(s.lists[c], s.targets, c) == [Move(x, c, to), Move(y, c, to)]
  {
    var list := [x, y];
    TwoPrefixes(x, y);
    FilledByTwo(s, x, y, to);
    BothSet(s.lists, c, [], to, s.lists[to] + [x] + [y]);
    MovesOfSnoc(list, 0, s.targets, c);
    MovesOfSnoc(list, 1, s.targets, c);
    KeptSnoc(list, 0, s.targets);
    KeptSnoc(list, 1, s.targets);
  }

  lemma BothSet(lists: ListMap, c: Component, list: seq<Component>, to: Component, list': seq<Component>)
    requires c != to
    ensures lists[to := list'][c := list] == lists[c := list][to := list']
  {
  }

  lemma OnePrefix(x: Component)
    ensures [x][..0] == [] && [x][..1] == [x]
  {
  }

  lemma TwoPrefixes(x: Component, y: Component)
    ensures [x, y][..0] == [] && [x, y][..1] == [x] && [x, y][..2] == [x, y]
  {
  }

  // ---------------------------------------------------------------- short traversals

  /** The traversal is the prescribed one; what it leaves, the moves it makes and the order of it. */
  ghost predicate Visits(scan: Scan, s: Layout, after: Layout, moves: seq<Move>, order: seq<Component>) {
    Follows(scan, s) && After(scan, s) == after && MovesIn(scan, s) == moves && OrderOf(scan) == order
  }

  /** The same as far as these kids. */
  ghost predicate Visiting(c: Component, kids: seq<Scan>, s: Layout, now: Layout, moves: seq<Move>,
                           order: seq<Component>)
  {
    && FollowsAll(kids, Detached(s, c)) && AfterAll(kids, Detached(s, c)) == now
    && MovesIn(Scan(c, kids), s) == moves && OrderOf(Scan(c, kids)) == order
  }

  lemma NextKid(c: Component, kids: seq<Scan>, s: Layout, now: Layout, moves: seq<Move>, order: seq<Component>,
                kid: Scan, after: Layout, more: seq<Move>, order': seq<Component>)
    requires Visiting(c, kids, s, now, moves, order) && Visits(kid, now, after, more, order')
    ensures Visiting(c, kids + [kid], s, after, moves + more, order + order')
  {
    KidsSnoc(c, kids, kid, s);
  }

  lemma NoneYet(c: Component, s: Layout)
    requires c in s.lists
    ensures Visiting(c, [], s, Detached(s, c), MovesOf(s.lists[c], s.targets, c), [c])
  {
  }

  lemma NoKids(c: Component, s: Layout, after: Layout, moves: seq<Move>)
    requires c in s.lists && Detached(s, c) == after && ListAt(after, c) == []
    requires MovesOf(s.lists[c], s.targets, c) == moves
    ensures Visits(Scan(c, []), s, after, moves, [c])
  {
    NoneYet(c, s);
  }

  lemma OneKid(c: Component, s: Layout, kid: Scan, after: Layout, moves: seq<Move>, order: seq<Component>)
    requires c in s.lists && s.lists[c] == [kid.top] && kid.top !in s.targets && Visits(kid, s, after, moves, order)
    ensures Visits(Scan(c, [kid]), s, after, moves, [c] + order)
  {
    AllStay(s, c);
    NoneYet(c, s);
    NextKid(c, [], s, s, [], [c], kid, after, moves, order);
    assert [] + [kid] == [kid] && [] + moves == moves;
  }

  lemma TwoKids(c: Component, s: Layout, first: Scan, between: Layout, moves: seq<Move>, order: seq<Component>,
                second: Scan, after: Layout, moves': seq<Move>, order': seq<Component>)
    requires c in s.lists && s.lists[c] == [first.top, second.top] && first.top !in s.targets
    requires second.top !in s.targets
    requires Visits(first, s, between, moves, order) && Visits(second, between, after, moves', order')
    ensures Visits(Scan(c, [first, second]), s, after, moves + moves', [c] + order + order')
  {
    AllStay(s, c);
    NoneYet(c, s);
    NextKid(c, [], s, s, [], [c], first, between, moves, order);
    assert [] + [first] == [first] && [] + moves == moves;
    NextKid(c, [first], s, between, moves, [c] + order, second, after, moves', order');
    assert [first] + [second] == [first, second];
  }

  /** The traversal of a tree whose components include `all`, of which it scans the first `n`. */
  lemma Conclude(scan: Scan, s: Layout, after: Layout, moves: seq<Move>, order: seq<Component>, all: seq<Component>,
                 n: nat)
    requires Visits(scan, s, after, moves, order) && n <= |all| && order == all[..n]
    requires Distinct(all) && forall x :: x in all ==> x in s.lists
    ensures ScanOrder(s, scan.top) == all[..n] && MovesIn(Prescribed(s, scan.top), s) == moves
  {
    PrescribedIs(scan, s);
  }

  // ---------------------------------------------------------------- the examples

  /** The lists and lookups of these components; there may be others. */
  ghost predicate Has(s: Layout, c: Component, list: seq<Component>, target: Option<Component>) {
    && c in s.lists && s.lists[c] == list
    && if target.Some? then c in s.targets && s.targets[c] == target.value else c !in s.targets
  }

  /** A component whose only child leaves, and is done. */
  lemma VisitSole(s: Layout, c: Component, x: Component, to: Component)
    requires c in s.lists && s.lists[c] == [x] && x in s.targets && s.targets[x] == to && to in s.lists && to != c
    ensures Visits(Scan(c, []), s, WithoutSole(s, c, x, to), [Move(x, c, to)], [c])
  {
    SoleLeaves(s, c, x, to);
    NoKids(c, s, WithoutSole(s, c, x, to), [Move(x, c, to)]);
  }

  lemma VisitBoth(s: Layout, c: Component, x: Component, y: Component, to: Component)
    requires c in s.lists && s.lists[c] == [x, y] && to in s.lists && to != c
    requires x in s.targets && y in s.targets && s.targets[x] == s.targets[y] == to
    ensures Visits(Scan(c, []), s, WithoutBoth(s, c, x, y, to), [Move(x, c, to), Move(y, c, to)], [c])
  {
    BothLeave(s, c, x, y, to);
    NoKids(c, s, WithoutBoth(s, c, x, y, to), [Move(x, c, to), Move(y, c, to)]);
  }

  lemma VisitLeaf(s: Layout, c: Component)
    requires c in s.lists && s.lists[c] == []
    ensures Visits(Scan(c, []), s, s, [], [c])
  {
    AllStay(s, c);
    NoKids(c, s, s, []);
  }

  lemma Listed<T>(x: T, y: T, z: T)
    ensures [] + [x] == [x] && [x] + [y] == [x, y] && [x] + [y] + [z] == [x, y, z]
  {
  }

  /**
   Below the root are `t` and then `p`; `p` has the child `a`, and `a` the child `z`. When `a` asks for `t` and `z` for
   the root, `a` joins a component that was scanned already, and what `z` asks for is ignored.
   */
  lemma LookupIgnored(s: Layout, r: Component, t: Component, p: Component, a: Component, z: Component)
    requires Distinct([r, t, p, a, z]) && Has(s, r, [t, p], None) && Has(s, t, [], None) && Has(s, p, [a], None)
    requires Has(s, a, [z], Some(t)) && Has(s, z, [], Some(r))
    ensures ScanOrder(s, r) == [r, t, p] && MovesIn(Prescribed(s, r), s) == [Move(a, p, t)]
  {
    var all, after, scan := [r, t, p, a, z], WithoutSole(s, p, a, t), Scan(r, [Scan(t, []), Scan(p, [])]);
    assert all[..3] == [r, t, p] && all[1] == t && all[2] == p;
    assert Visits(scan, s, after, [Move(a, p, t)], [r, t, p]) by {
      VisitLeaf(s, t);
      VisitSole(s, p, a, t);
      TwoKids(r, s, Scan(t, []), s, [], [t], Scan(p, []), after, [Move(a, p, t)], [p]);
      Listed(r, t, p);
      Listed(Move(a, p, t), Move(a, p, t), Move(a, p, t));
    }
    assert forall x :: x in all ==> x in s.lists;
    Conclude(scan, s, after, [Move(a, p, t)], [r, t, p], all, 3);
  }

  /**
   Below the root are `c` and then `q`; below `c` hang `x`, `a` and `z`, each below the one before. When `x` and `a` ask
   for `q` and `z` for the root, `a` joins the list of `q` while that is being gone through, and what `z` asks for is
   ignored.
   */
  lemma JoinsTooLate(s: Layout, r: Component, c: Component, q: Component, x: Component, a: Component, z: Component)
    requires Distinct([r, c, q, x, a, z]) && Has(s, r, [c, q], None) && Has(s, c, [x], None) && Has(s, q, [], None)
    requires Has(s, x, [a], Some(q)) && Has(s, a, [z], Some(q)) && Has(s, z, [], Some(r))
    ensures ScanOrder(s, r) == [r, c, q, x] && MovesIn(Prescribed(s, r), s) == [Move(x, c, q), Move(a, x, q)]
  {
    var all, s1, last := [r, c, q, x, a, z], WithoutSole(s, c, x, q), Scan(q, [Scan(x, [])]);
    assert all[..4] == [r, c, q, x] && all[1] == c && all[2] == q && all[3] == x && all[4] == a;
    var scan := Scan(r, [Scan(c, []), last]);
    assert exists after :: Visits(scan, s, after, [Move(x, c, q), Move(a, x, q)], [r, c, q, x]) by {
      VisitSole(s, c, x, q);
      assert Has(s1, q, [x], None) && Has(s1, x, [a], None) && a in s1.targets && s1.targets[a] == q;
      VisitSole(s1, x, a, q);
      var s2 := WithoutSole(s1, x, a, q);
      OneKid(q, s1, Scan(x, []), s2, [Move(a, x, q)], [x]);
      TwoKids(r, s, Scan(c, []), s1, [Move(x, c, q)], [c], last, s2, [Move(a, x, q)], [q] + [x]);
      Listed(r, c, q);
      Listed(Move(x, c, q), Move(a, x, q), Move(a, x, q));
      FourListed(r, c, q, x);
    }
    var after :| Visits(scan, s, after, [Move(x, c, q), Move(a, x, q)], [r, c, q, x]);
    assert forall x :: x in all ==> x in s.lists;
    Conclude(scan, s, after, [Move(x, c, q), Move(a, x, q)], [r, c, q, x], all, 4);
  }

  lemma FourListed(r: Component, c: Component, q: Component, x: Component)
    ensures [r] + [c] + ([q] + [x]) == [r, c, q, x]
  {
  }

  /**
   Below the root are `c` and then `q`; below `c` are `x` and `y`, below `x` hang `a` and `z`. When `x` and `y` ask for
   `q`, `a` for `y` and `z` for the root, `y` is scanned after `x`, and with it `a`: what `z` asks for is honoured.
   */
  lemma JoinsInTime(s: Layout, r: Component, c: Component, q: Component, x: Component, y: Component, a: Component,
                    z: Component)
    requires Distinct([r, c, q, x, y, a, z]) && Has(s, r, [c, q], None) && Has(s, c, [x, y], None)
    requires Has(s, q, [], None)
    requires Has(s, x, [a], Some(q)) && Has(s, y, [], Some(q)) && Has(s, a, [z], Some(y)) && Has(s, z, [], Some(r))
    ensures ScanOrder(s, r) == [r, c, q, x, y, a]
    ensures MovesIn(Prescribed(s, r), s) == [Move(x, c, q), Move(y, c, q)] + [Move(a, x, y), Move(z, a, r)]
  {
    var all, s1 := [r, c, q, x, y, a, z], WithoutBoth(s, c, x, y, q);
    var last := Scan(q, [Scan(x, []), Scan(y, [Scan(a, [])])]);
    SevenDistinct(r, c, q, x, y, a, z);
    var scan, moves := Scan(r, [Scan(c, []), last]), [Move(x, c, q), Move(y, c, q)] + [Move(a, x, y), Move(z, a, r)];
    VisitBoth(s, c, x, y, q);
    Listed(x, y, y);
    var after := BelowBoth(s1, q, x, y, a, r, z);
    assert Visits(scan, s, after, moves, [r, c, q, x, y, a]) by {
      TwoKids(r, s, Scan(c, []), s1, [Move(x, c, q), Move(y, c, q)], [c], last, after, [Move(a, x, y), Move(z, a, r)],
              [q, x, y, a]);
      SixListed(r, c, q, x, y, a);
    }
    assert forall x :: x in all ==> x in s.lists;
    Conclude(scan, s, after, moves, [r, c, q, x, y, a], all, 6);
  }

  lemma SevenDistinct(r: Component, c: Component, q: Component, x: Component, y: Component, a: Component, z: Component)
    requires Distinct([r, c, q, x, y, a, z])
    ensures [r, c, q, x, y, a, z][..6] == [r, c, q, x, y, a] && Distinct([r, q, x, y, a, z])
    ensures c != q && c != x && c != y && c != a && c != z && c != r && q != x && q != a && q != y && q != r
    ensures x != y && x != a && x != r && x != z && y != a && y != z && y != r && a != z && a != r && z != r
  {
    var all := [r, c, q, x, y, a, z];
    assert all[0] == r && all[1] == c && all[2] == q && all[3] == x && all[4] == y && all[5] == a && all[6] == z;
  }

  lemma BelowBoth(s: Layout, q: Component, x: Component, y: Component, a: Component, r: Component, z: Component)
    returns (after: Layout)
    requires Distinct([r, q, x, y, a, z]) && Has(s, q, [x, y], None) && Has(s, x, [a], None) && Has(s, y, [], None)
    requires Has(s, a, [z], Some(y)) && z in s.targets && s.targets[z] == r && r in s.lists
    ensures Visits(Scan(q, [Scan(x, []), Scan(y, [Scan(a, [])])]), s, after, [Move(a, x, y), Move(z, a, r)], [q, x, y,
                   a])
  {
    var all, s1 := [r, q, x, y, a, z], WithoutSole(s, x, a, y);
    assert all[0] == r && all[1] == q && all[2] == x && all[3] == y && all[4] == a && all[5] == z;
    after := WithoutSole(s1, a, z, r);
    VisitSole(s, x, a, y);
    assert Has(s1, y, [a], None) && Has(s1, a, [z], None) && z in s1.targets && s1.targets[z] == r;
    VisitSole(s1, a, z, r);
    OneKid(y, s1, Scan(a, []), after, [Move(z, a, r)], [a]);
    TwoKids(q, s, Scan(x, []), s1, [Move(a, x, y)], [x], Scan(y, [Scan(a, [])]), after, [Move(z, a, r)], [y] + [a]);
    FourListed(q, x, y, a);
    Listed(Move(a, x, y), Move(z, a, r), Move(z, a, r));
  }

  lemma SixListed(r: Component, c: Component, q: Component, x: Component, y: Component, a: Component)
    ensures [r] + [c] + [q, x, y, a] == [r, c, q, x, y, a]
  {
  }
}
