/**
 Moving children to other parents, on the parent map alone: when does everything stay attached to the root?
 */
module Moves {
  import opened Components

  /**
   A child leaves one component for another. Moving it to where it is loses it: the list it was added to is replaced.
   */
  datatype Move = Move(child: Component, from: Component, to: Component)

  ghost function ApplyMove(pm: ParentMap, m: Move): ParentMap {
    if m.to == m.from then pm - {m.child} else pm[m.child := m.to]
  }

  ghost function ApplyMoves(pm: ParentMap, moves: seq<Move>): ParentMap {
    if moves == [] then pm else ApplyMove(ApplyMoves(pm, moves[..|moves| - 1]), moves[|moves| - 1])
  }

  ghost function Moved(moves: seq<Move>): set<Component> {
    set k | 0 <= k < |moves| :: moves[k].child
  }

  lemma MovedAppends(a: seq<Move>, b: seq<Move>)
    ensures Moved(a + b) == Moved(a) + Moved(b)
  {
    var both := a + b;
    assert forall k :: 0 <= k < |a| ==> both[k] == a[k];
    assert forall k :: 0 <= k < |b| ==> both[|a| + k] == b[k];
    forall x | x in Moved(a) + Moved(b)
      ensures x in Moved(both)
    {
      if x in Moved(a) {
        var k :| 0 <= k < |a| && a[k].child == x;
        assert both[k].child == x;
      } else {
        var k :| 0 <= k < |b| && b[k].child == x;
        assert both[|a| + k].child == x;
      }
    }
  }

  /** The child is taken from its parent, which hangs below the root. */
  ghost predicate Legal(pm: ParentMap, root: Component, m: Move) {
    m.child in pm && pm[m.child] == m.from && Rooted(pm, root, m.from)
  }

  ghost predicate LegalTrace(pm: ParentMap, root: Component, moves: seq<Move>) {
    forall k {:trigger moves[k]} :: 0 <= k < |moves| ==> Legal(ApplyMoves(pm, moves[..k]), root, moves[k])
  }

  /** The new parent is another one than the old, and not inside the subtree of the child. */
  ghost predicate Proper(pm: ParentMap, m: Move) {
    m.to != m.from && !Rooted(pm, m.child, m.to)
  }

  /** Every move is proper at the moment it is made. */
  ghost predicate AllProper(pm: ParentMap, moves: seq<Move>) {
    forall k {:trigger moves[k]} :: 0 <= k < |moves| ==> Proper(ApplyMoves(pm, moves[..k]), moves[k])
  }

  // ---------------------------------------------------------------- one move

  /** Nothing that is detached becomes attached. */
  lemma {:induction false} NothingReattached(pm: ParentMap, root: Component, m: Move, x: Component, n: nat)
    requires Legal(pm, root, m) && Above(ApplyMove(pm, m), root, x, n)
    ensures Rooted(pm, root, x)
  {
    if n == 0 {
      assert Above(pm, root, x, 0);
    } else if x == m.child {
      var k: nat :| Above(pm, root, m.from, k);
      assert Above(pm, root, x, k + 1);
    } else {
      NothingReattached(pm, root, m, pm[x], n - 1);
      var k: nat :| Above(pm, root, pm[x], k);
      assert Above(pm, root, x, k + 1);
    }
  }

  /** The way up from a component that is not below the child is not affected. */
  lemma {:induction false} UnaffectedAbove(pm: ParentMap, top: Component, m: Move, x: Component, n: nat)
    requires Above(pm, top, x, n) && !Rooted(pm, m.child, x)
    ensures Above(ApplyMove(pm, m), top, x, n)
  {
    assert Above(pm, x, x, 0);
    assert x != m.child;
    if n > 0 {
      forall k: nat | Above(pm, m.child, pm[x], k)
        ensures false
      {
        assert Above(pm, m.child, x, k + 1);
      }
      UnaffectedAbove(pm, top, m, pm[x], n - 1);
    }
  }

  /** A proper move to an attached component keeps everything attached. */
  lemma {:induction false} ProperKeeps(pm: ParentMap, root: Component, m: Move, x: Component, n: nat)
    requires Legal(pm, root, m) && Proper(pm, m) && Rooted(pm, root, m.to) && Above(pm, root, x, n)
    ensures Rooted(ApplyMove(pm, m), root, x)
  {
    var pm' := ApplyMove(pm, m);
    if x == m.child {
      var k: nat :| Above(pm, root, m.to, k);
      UnaffectedAbove(pm, root, m, m.to, k);
      assert Above(pm', root, x, k + 1);
    } else if n == 0 {
      assert Above(pm', root, x, 0);
    } else {
      ProperKeeps(pm, root, m, pm[x], n - 1);
      var k: nat :| Above(pm', root, pm[x], k);
      assert Above(pm', root, x, k + 1);
    }
  }

  /** From inside the child's subtree the way up still leads to the child. */
  lemma {:induction false} StillBelowChild(pm: ParentMap, m: Move, x: Component, n: nat)
    requires Above(pm, m.child, x, n)
    ensures Rooted(ApplyMove(pm, m), m.child, x)
  {
    var pm' := ApplyMove(pm, m);
    if x == m.child {
      assert Above(pm', m.child, x, 0);
    } else {
      StillBelowChild(pm, m, pm[x], n - 1);
      var k: nat :| Above(pm', m.child, pm[x], k);
      assert Above(pm', m.child, x, k + 1);
    }
  }

  /** An improper move detaches the child. */
  lemma ImproperDetaches(pm: ParentMap, root: Component, m: Move, n: nat)
    requires root !in pm && Legal(pm, root, m) && !Proper(pm, m)
    ensures !Above(ApplyMove(pm, m), root, m.child, n)
  {
    var pm' := ApplyMove(pm, m);
    if m.to != m.from && Above(pm', root, m.child, n) {
      var k: nat :| Above(pm, m.child, m.to, k);
      StillBelowChild(pm, m, m.to, k);
      var i: nat :| Above(pm', m.child, m.to, i);
      assert n > 0 && Above(pm', root, m.to, n - 1);
      if i <= n - 1 {
        var j: nat := n - 1 - i;
        AboveSplit(pm', m.child, root, m.to, i, n - 1);
        AboveUnique(pm', root, m.child, n, j);
      } else {
        AboveSplit(pm', root, m.child, m.to, n - 1, i);
      }
    }
  }

  // ---------------------------------------------------------------- a sequence of moves

  lemma {:induction false} MovesElsewhere(pm: ParentMap, moves: seq<Move>, x: Component)
    requires x !in Moved(moves)
    ensures x in ApplyMoves(pm, moves) <==> x in pm
    ensures x in pm ==> ApplyMoves(pm, moves)[x] == pm[x]
  {
    if moves != [] {
      var front := moves[..|moves| - 1];
      forall k | 0 <= k < |front|
        ensures front[k].child != x
      {
        assert moves[k].child in Moved(moves);
      }
      assert moves[|moves| - 1].child in Moved(moves);
      MovesElsewhere(pm, front, x);
    }
  }

  /** A component that is moved once ends up under its new parent, or under none if that is the old one. */
  lemma {:induction false} MovedOnce(pm: ParentMap, moves: seq<Move>, k: nat)
    requires k < |moves| && forall i, j :: 0 <= i < j < |moves| ==> moves[i].child != moves[j].child
    ensures var m := moves[k]; var pm' := ApplyMoves(pm, moves);
      if m.to == m.from then m.child !in pm' else m.child in pm' && pm'[m.child] == m.to
  {
    var last := |moves| - 1;
    if k < last {
      MovedOnce(pm, moves[..last], k);
    }
  }

  lemma {:induction false} ApplyAppends(pm: ParentMap, a: seq<Move>, b: seq<Move>)
    ensures ApplyMoves(pm, a + b) == ApplyMoves(ApplyMoves(pm, a), b)
  {
    if b == [] {
      assert a + b == a;
    } else {
      assert (a + b)[..|a + b| - 1] == a + b[..|b| - 1];
      ApplyAppends(pm, a, b[..|b| - 1]);
    }
  }

  lemma LegalAppends(pm: ParentMap, root: Component, a: seq<Move>, b: seq<Move>)
    requires LegalTrace(pm, root, a) && LegalTrace(ApplyMoves(pm, a), root, b)
    ensures LegalTrace(pm, root, a + b)
  {
    var both := a + b;
    forall k {:trigger both[k]} | 0 <= k < |both|
      ensures Legal(ApplyMoves(pm, both[..k]), root, both[k])
    {
      if k < |a| {
        assert both[..k] == a[..k] && both[k] == a[k];
      } else {
        assert both[..k] == a + b[..k - |a|] && both[k] == b[k - |a|];
        ApplyAppends(pm, a, b[..k - |a|]);
      }
    }
  }

  lemma {:induction false} RootStays(pm: ParentMap, root: Component, moves: seq<Move>)
    requires root !in pm && LegalTrace(pm, root, moves)
    ensures root !in ApplyMoves(pm, moves)
  {
    if moves != [] {
      var last := |moves| - 1;
      var front := moves[..last];
      FrontIsLegal(pm, root, moves);
      RootStays(pm, root, front);
      assert Legal(ApplyMoves(pm, moves[..last]), root, moves[last]);
    }
  }

  lemma FrontIsLegal(pm: ParentMap, root: Component, moves: seq<Move>)
    requires moves != [] && LegalTrace(pm, root, moves)
    ensures LegalTrace(pm, root, moves[..|moves| - 1])
  {
    var front := moves[..|moves| - 1];
    forall k {:trigger front[k]} | 0 <= k < |front|
      ensures Legal(ApplyMoves(pm, front[..k]), root, front[k])
    {
      assert front[..k] == moves[..k] && front[k] == moves[k];
    }
  }

  lemma FrontIsProper(pm: ParentMap, moves: seq<Move>)
    requires moves != []
    ensures AllProper(pm, moves)
       <==> AllProper(pm, moves[..|moves| - 1]) && Proper(ApplyMoves(pm, moves[..|moves| - 1]), moves[|moves| - 1])
  {
    var last := |moves| - 1;
    var front := moves[..last];
    assert forall k {:trigger front[k]} :: 0 <= k < last ==> front[..k] == moves[..k] && front[k] == moves[k];
    if AllProper(pm, moves) {
      assert Proper(ApplyMoves(pm, moves[..last]), moves[last]);
      forall k {:trigger front[k]} | 0 <= k < |front|
        ensures Proper(ApplyMoves(pm, front[..k]), front[k])
      {
        assert Proper(ApplyMoves(pm, moves[..k]), moves[k]);
      }
    } else {
      var k :| 0 <= k < |moves| && !Proper(ApplyMoves(pm, moves[..k]), moves[k]);
      if k < last {
        assert !Proper(ApplyMoves(pm, front[..k]), front[k]);
      }
    }
  }

  /** Over a whole sequence of moves, nothing that is detached becomes attached. */
  lemma {:induction false} NothingReattachedEver(pm: ParentMap, root: Component, moves: seq<Move>, x: Component)
    requires LegalTrace(pm, root, moves) && Rooted(ApplyMoves(pm, moves), root, x)
    ensures Rooted(pm, root, x)
  {
    if moves != [] {
      var last := |moves| - 1;
      var before := ApplyMoves(pm, moves[..last]);
      assert Legal(before, root, moves[last]);
      var n: nat :| Above(ApplyMoves(pm, moves), root, x, n);
      NothingReattached(before, root, moves[last], x, n);
      FrontIsLegal(pm, root, moves);
      NothingReattachedEver(pm, root, moves[..last], x);
    }
  }

  /**
   Starting from one tree, a sequence of moves between its components leaves every component attached to the root
   exactly when every move is proper at the moment it is made.
   */
  lemma {:induction false} Conserved(u: set<Component>, pm: ParentMap, root: Component, moves: seq<Move>)
    requires root !in pm && (forall x :: x in u ==> Rooted(pm, root, x)) && LegalTrace(pm, root, moves)
    requires forall k {:trigger moves[k]} :: 0 <= k < |moves| ==> moves[k].child in u && moves[k].to in u
    ensures (forall x :: x in u ==> Rooted(ApplyMoves(pm, moves), root, x)) <==> AllProper(pm, moves)
  {
    if moves != [] {
      var last := |moves| - 1;
      var front, m := moves[..last], moves[last];
      var before := ApplyMoves(pm, front);
      FrontIsLegal(pm, root, moves);
      FrontIsProper(pm, moves);
      RootStays(pm, root, front);
      assert forall k {:trigger front[k]} :: 0 <= k < last ==> front[k] == moves[k];
      Conserved(u, pm, root, front);
      assert Legal(before, root, m);
      LastMove(u, before, root, m);
    }
  }

  lemma LastMove(u: set<Component>, pm: ParentMap, root: Component, m: Move)
    requires root !in pm && Legal(pm, root, m) && m.child in u && m.to in u
    ensures (forall x :: x in u ==> Rooted(ApplyMove(pm, m), root, x))
       <==> (forall x :: x in u ==> Rooted(pm, root, x)) && Proper(pm, m)
  {
    var pm' := ApplyMove(pm, m);
    forall x | x in u && Rooted(pm', root, x)
      ensures Rooted(pm, root, x)
    {
      var n: nat :| Above(pm', root, x, n);
      NothingReattached(pm, root, m, x, n);
    }
    if Proper(pm, m) {
      forall x | x in u && Rooted(pm, root, x) && Rooted(pm, root, m.to)
        ensures Rooted(pm', root, x)
      {
        var n: nat :| Above(pm, root, x, n);
        ProperKeeps(pm, root, m, x, n);
      }
    } else {
      forall n: nat
        ensures !Above(pm', root, m.child, n)
      {
        ImproperDetaches(pm, root, m, n);
      }
    }
  }
}
