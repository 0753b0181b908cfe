/**
 What it means for a list to be made of others, or of some values in them, and for a number to be a sum: each in
 terms of positions, and kept when one more element is added.
 */
module Sequences {
  import opened Common

  // ---------------------------------------------------------------- one list after the other

  ghost predicate PartAt<T>(whole: seq<T>, at: int, part: seq<T>) {
    0 <= at && at + |part| <= |whole| && whole[at..at + |part|] == part
  }

  /** `whole` is made of the parts; `starts` says where each begins, and in the end how long it is. */
  ghost predicate ConcatenatedAt<T>(parts: seq<seq<T>>, whole: seq<T>, starts: seq<int>) {
    && |starts| == |parts| + 1 && starts[0] == 0 && starts[|parts|] == |whole|
    && (forall i {:trigger parts[i]} :: 0 <= i < |parts| ==>
         starts[i + 1] == starts[i] + |parts[i]| && PartAt(whole, starts[i], parts[i]))
  }

  ghost predicate Concatenated<T>(parts: seq<seq<T>>, whole: seq<T>) {
    exists starts :: ConcatenatedAt(parts, whole, starts)
  }

  lemma NothingConcatenated<T>()
    ensures Concatenated<T>([], [])
  {
    assert ConcatenatedAt<T>([], [], [0]);
  }

  lemma StillPart<T>(whole: seq<T>, at: int, part: seq<T>, more: seq<T>)
    requires PartAt(whole, at, part)
    ensures PartAt(whole + more, at, part)
  {
    assert (whole + more)[at..at + |part|] == whole[at..at + |part|];
  }

  lemma LastPart<T>(whole: seq<T>, part: seq<T>)
    ensures PartAt(whole + part, |whole|, part)
  {
  }

  lemma OneMoreConcatenated<T>(parts: seq<seq<T>>, whole: seq<T>, part: seq<T>)
    requires Concatenated(parts, whole)
    ensures Concatenated(parts + [part], whole + part)
  {
    var starts :| ConcatenatedAt(parts, whole, starts);
    var parts', whole', starts' := parts + [part], whole + part, starts + [|whole| + |part|];
    forall i {:trigger parts'[i]} | 0 <= i < |parts'|
      ensures starts'[i + 1] == starts'[i] + |parts'[i]| && PartAt(whole', starts'[i], parts'[i])
    {
      if i < |parts| {
        assert parts'[i] == parts[i];
        StillPart(whole, starts[i], parts[i], part);
      } else {
        LastPart(whole, part);
      }
    }
    assert ConcatenatedAt(parts', whole', starts');
  }

  lemma {:induction false} InSomePart<T>(parts: seq<seq<T>>, whole: seq<T>, starts: seq<int>, k: nat, n: nat)
    returns (i: nat, j: nat)
    requires ConcatenatedAt(parts, whole, starts) && n <= |parts| && k < starts[n] && k < |whole|
    ensures i < n && j < |parts[i]| && parts[i][j] == whole[k]
  {
    assert PartAt(whole, starts[n - 1], parts[n - 1]);
    if starts[n - 1] <= k {
      i, j := n - 1, k - starts[n - 1];
    } else {
      i, j := InSomePart(parts, whole, starts, k, n - 1);
    }
  }

  /** The parts hold what the whole holds. */
  lemma PartsHold<T(!new)>(parts: seq<seq<T>>, whole: seq<T>)
    requires Concatenated(parts, whole)
    ensures forall i, j :: 0 <= i < |parts| && 0 <= j < |parts[i]| ==> parts[i][j] in whole
    ensures forall x :: x in whole ==> exists i, j :: 0 <= i < |parts| && 0 <= j < |parts[i]| && parts[i][j] == x
  {
    var starts :| ConcatenatedAt(parts, whole, starts);
    forall i, j | 0 <= i < |parts| && 0 <= j < |parts[i]|
      ensures parts[i][j] in whole
    {
      assert whole[starts[i]..starts[i] + |parts[i]|][j] == whole[starts[i] + j];
    }
    forall x | x in whole
      ensures exists i, j :: 0 <= i < |parts| && 0 <= j < |parts[i]| && parts[i][j] == x
    {
      var k :| 0 <= k < |whole| && whole[k] == x;
      var i, j := InSomePart(parts, whole, starts, k, |parts|);
    }
  }

  // ---------------------------------------------------------------- sums

  /** `total` is the sum of the numbers, as the sums up to each of them show. */
  ghost predicate SumsTo(numbers: seq<int>, total: int) {
    exists sums: seq<int> :: SumsAt(numbers, total, sums)
  }

  ghost predicate SumsAt(numbers: seq<int>, total: int, sums: seq<int>) {
    && |sums| == |numbers| + 1 && sums[0] == 0 && sums[|numbers|] == total
    && forall i {:trigger numbers[i]} :: 0 <= i < |numbers| ==> sums[i + 1] == sums[i] + numbers[i]
  }

  lemma NothingSummed()
    ensures SumsTo([], 0)
  {
    assert SumsAt([], 0, [0]);
  }

  lemma OneMoreSummed(numbers: seq<int>, total: int, number: int)
    requires SumsTo(numbers, total)
    ensures SumsTo(numbers + [number], total + number)
  {
    var sums :| SumsAt(numbers, total, sums);
    var numbers' := numbers + [number];
    assert forall i {:trigger numbers'[i]} :: 0 <= i < |numbers| ==> numbers'[i] == numbers[i];
    assert SumsAt(numbers', total + number, sums + [total + number]);
  }

  /** There is only one sum. */
  lemma OneTotal(numbers: seq<int>, total: int, total': int)
    requires SumsTo(numbers, total) && SumsTo(numbers, total')
    ensures total == total'
  {
    var sums :| SumsAt(numbers, total, sums);
    var sums' :| SumsAt(numbers, total', sums');
    SameSums(numbers, total, sums, total', sums', |numbers|);
  }

  lemma {:induction false} SameSums(numbers: seq<int>, total: int, sums: seq<int>, total': int, sums': seq<int>, n: nat)
    requires SumsAt(numbers, total, sums) && SumsAt(numbers, total', sums') && n <= |numbers|
    ensures sums[n] == sums'[n]
  {
    if n > 0 {
      SameSums(numbers, total, sums, total', sums', n - 1);
      assert numbers[n - 1] == sums[n] - sums[n - 1];
    }
  }

  // ---------------------------------------------------------------- the values that are there

  /** `out` holds the values that are there, in order; `at` says where. */
  ghost predicate PickedAt<T>(picks: seq<Option<T>>, out: seq<T>, at: seq<int>) {
    && |at| == |out|
    && (forall i, j :: 0 <= i < j < |at| ==> at[i] < at[j])
    && (forall i {:trigger at[i]} :: 0 <= i < |at| ==> 0 <= at[i] < |picks| && picks[at[i]] == Some(out[i]))
    && (forall k {:trigger picks[k]} :: 0 <= k < |picks| && picks[k].Some? ==> k in at)
  }

  ghost predicate Picked<T>(picks: seq<Option<T>>, out: seq<T>) {
    exists at :: PickedAt(picks, out, at)
  }

  lemma NothingPicked<T>()
    ensures Picked<T>([], [])
  {
    assert PickedAt<T>([], [], []);
  }

  lemma OneMoreThere<T>(picks: seq<Option<T>>, out: seq<T>, value: T)
    requires Picked(picks, out)
    ensures Picked(picks + [Some(value)], out + [value])
  {
    var at :| PickedAt(picks, out, at);
    var picks', out', at' := picks + [Some(value)], out + [value], at + [|picks|];
    forall i {:trigger at'[i]} | 0 <= i < |at'|
      ensures 0 <= at'[i] < |picks'| && picks'[at'[i]] == Some(out'[i])
    {
      assert i < |at| ==> at'[i] == at[i];
    }
    forall k {:trigger picks'[k]} | 0 <= k < |picks'| && picks'[k].Some?
      ensures k in at'
    {
      if k < |picks| {
        assert picks'[k] == picks[k];
      } else {
        assert at'[|at|] == k;
      }
    }
    assert PickedAt(picks', out', at');
  }

  lemma OneMoreMissing<T>(picks: seq<Option<T>>, out: seq<T>)
    requires Picked(picks, out)
    ensures Picked(picks + [None], out)
  {
    var at :| PickedAt(picks, out, at);
    var picks' := picks + [None];
    assert forall k :: 0 <= k < |picks| ==> picks'[k] == picks[k];
    assert PickedAt(picks', out, at);
  }

  lemma OneMorePicked<T>(picks: seq<Option<T>>, out: seq<T>, pick: Option<T>)
    requires Picked(picks, out)
    ensures Picked(picks + [pick], out + if pick.Some? then [pick.value] else [])
  {
    if pick.Some? {
      OneMoreThere(picks, out, pick.value);
    } else {
      OneMoreMissing(picks, out);
      assert out + [] == out;
    }
  }

  /** Which elements of one list stay if those of another are taken away. */
  function NotIn<T(==)>(a: seq<T>, b: seq<T>): (picks: seq<Option<T>>)
    ensures |picks| == |a|
    ensures forall i :: 0 <= i < |a| ==> picks[i] == if a[i] in b then None else Some(a[i])
  {
    seq(|a|, i requires 0 <= i < |a| => if a[i] in b then None else Some(a[i]))
  }

  lemma {:induction false} DifferencePicked<T(!new)>(a: seq<T>, b: seq<T>)
    ensures Picked(NotIn(a, b), Difference(a, b))
  {
    if a == [] {
      NothingPicked<T>();
      assert NotIn(a, b) == [];
    } else {
      var a', last := a[..|a| - 1], a[|a| - 1];
      DifferencePicked(a', b);
      var pick := if last in b then None else Some(last);
      OneMorePicked(NotIn(a', b), Difference(a', b), pick);
      assert NotIn(a, b) == NotIn(a', b) + [pick];
    }
  }
}
