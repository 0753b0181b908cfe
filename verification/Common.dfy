/** Small vocabulary shared by the component models. */
module Common {

  datatype Option<+T> = None | Some(value: T)

  datatype Result<+T, +E> = Ok(value: T) | Err(error: E)

  /** A duration setting as written; `nanos` is its parsed value. */
  datatype Duration = Parsed(nanos: int) | Malformed

  /** A setting that is absent, or that can be parsed. */
  predicate Readable(d: Option<Duration>) {
    d.Some? ==> d.value.Parsed?
  }

  ghost predicate Distinct<T>(s: seq<T>) {
    forall i, j :: 0 <= i < j < |s| ==> s[i] != s[j]
  }

  function ToSet<T(==)>(s: seq<T>): set<T> {
    set x | x in s
  }

  lemma TakeNext<T>(s: seq<T>, i: nat)
    requires i < |s|
    ensures s[..i + 1] == s[..i] + [s[i]]
  {
  }

  lemma SplitLast<T>(s: seq<T>)
    requires s != []
    ensures s == s[..|s| - 1] + [s[|s| - 1]]
  {
  }

  /** Two repetition-free sequences over the same elements are permutations of each other. */
  lemma DistinctPermutation<T(!new)>(a: seq<T>, b: seq<T>)
    requires Distinct(a) && Distinct(b)
    requires forall x :: x in a <==> x in b
    ensures multiset(a) == multiset(b)
  {
    forall x
      ensures multiset(a)[x] == multiset(b)[x]
    {
      DistinctMultiplicity(a, x);
      DistinctMultiplicity(b, x);
    }
  }

  lemma {:induction false} DistinctMultiplicity<T(!new)>(s: seq<T>, x: T)
    requires Distinct(s)
    ensures multiset(s)[x] == if x in s then 1 else 0
  {
    if s != [] {
      assert s == [s[0]] + s[1..];
      DistinctMultiplicity(s[1..], x);
    }
  }

  lemma {:induction false} DistinctCardinality<T>(s: seq<T>)
    requires Distinct(s)
    ensures |ToSet(s)| == |s|
  {
    if s != [] {
      assert s == [s[0]] + s[1..];
      DistinctCardinality(s[1..]);
      assert ToSet(s) == ToSet(s[1..]) + {s[0]};
    }
  }

  lemma {:induction false} SubsetCardinality<T>(a: set<T>, b: set<T>)
    requires a <= b
    ensures |a| <= |b|
    ensures |a| == |b| ==> a == b
  {
    if a != {} {
      var x :| x in a;
      SubsetCardinality(a - {x}, b - {x});
    }
  }

  /** The elements of `a` that are not in `b`, in the order and multiplicity of `a`. */
  function Difference<T(==, !new)>(a: seq<T>, b: seq<T>): (diff: seq<T>)
    ensures forall x :: x in diff <==> x in a && x !in b
  {
    if a == [] then []
    else
      var last := a[|a| - 1];
      Difference(a[..|a| - 1], b) + if last in b then [] else [last]
  }

  /** The elements of one list that are not in another, whose elements are collected in a set first. */
  method SetDifference<T(==, !new)>(a: seq<T>, b: seq<T>) returns (diff: seq<T>)
    ensures diff == Difference(a, b)
  {
    var mb: set<T> := {};
    for i := 0 to |b|
      invariant forall x :: x in mb <==> x in b[..i]
    {
      mb := mb + {b[i]};
    }
    assert b[..|b|] == b;
    diff := [];
    for i := 0 to |a|
      invariant diff == Difference(a[..i], b)
    {
      assert a[..i + 1][..i] == a[..i];
      if a[i] !in mb {
        diff := diff + [a[i]];
      }
    }
    assert a[..|a|] == a;
  }

  /** There is always another positive number. */
  lemma UnusedExists(used: set<nat>) returns (unused: nat)
    ensures unused !in used && unused != 0
  {
    unused := 1;
    var rest := used;
    while rest != {}
      invariant rest <= used && unused != 0
      invariant forall x :: x in used && x !in rest ==> x < unused
    {
      var x :| x in rest;
      rest := rest - {x};
      unused := if x < unused then unused else x + 1;
    }
  }
}
