/**
 Choosing the window by which check statuses are aggregated. A greedy scan that stops at the first window that is
 no better is compared with trying every window.
 */
module Partitioner {

  const DESIRED_STATUSES := 100
  const INITIAL_DELTA := 100000000
  const MINUTE := 60_000_000_000

  const DAY := 1440 * MINUTE

  type Window = w: int | 0 < w witness 1

  /** The allowed windows, as durations in nanoseconds, from the finest to the coarsest. */
  const WINDOWS: seq<Window> := [
    MINUTE, 5 * MINUTE, 15 * MINUTE, 30 * MINUTE, 60 * MINUTE,
    180 * MINUTE, 360 * MINUTE, 720 * MINUTE, 1440 * MINUTE, 10080 * MINUTE]

  const COARSEST: Window := 10080 * MINUTE

  function Abs(x: int): nat {
    if x < 0 then -x else x
  }

  /** Integer division as Go does it, truncating toward zero. */
  function Quotient(a: int, b: Window): (q: int)
    ensures a >= 0 ==> 0 <= a - b * q < b
    ensures a <= 0 ==> 0 <= b * q - a < b
  {
    if a >= 0 then a / b else -((-a) / b)
  }

  /** How far the number of windows in a range is from the desired number of points. */
  function Delta(range: int, window: Window): nat {
    Abs(DESIRED_STATUSES - Quotient(range, window))
  }

  /** The first index at which the delta of the windows is smallest. */
  ghost predicate IsFirstBest(range: int, best: nat) {
    && best < |WINDOWS|
    && (forall i :: 0 <= i < |WINDOWS| ==> Delta(range, WINDOWS[best]) <= Delta(range, WINDOWS[i]))
    && (forall i :: 0 <= i < best ==> Delta(range, WINDOWS[best]) < Delta(range, WINDOWS[i]))
  }

  /**
   What the choice is meant to be: 0, for no aggregation, if that is at least as close to the desired number as
   every window; otherwise the closest window, the finer one in case of a tie.
   */
  ghost predicate IsBestChoice(totalChecks: int, range: int, choice: int) {
    if forall i :: 0 <= i < |WINDOWS| ==>
      Abs(DESIRED_STATUSES - totalChecks) <= Delta(range, WINDOWS[i]) then choice == 0
    else exists best: nat :: IsFirstBest(range, best) && choice == WINDOWS[best]
  }

  // ---------------------------------------------------------------- why stopping early is safe

  /** Coarser windows never give more of them, and once one is no closer, no coarser one is closer either. */
  lemma NoLaterImprovement(range: int, i: nat, j: nat)
    requires i + 1 <= j < |WINDOWS|
    requires Delta(range, WINDOWS[i + 1]) >= Delta(range, WINDOWS[i])
    ensures Delta(range, WINDOWS[j]) >= Delta(range, WINDOWS[i])
  {
    WindowsDouble(i, i + 1);
    Coarser(range, WINDOWS[i], WINDOWS[i + 1]);
    if i + 1 < j {
      WindowsDouble(i + 1, j);
      Coarser(range, WINDOWS[i + 1], WINDOWS[j]);
    }
  }

  /** A window at least twice as long fits at most half as often. */
  lemma Coarser(range: int, fine: Window, coarse: Window)
    requires 2 * fine <= coarse
    ensures range >= 0 ==> 0 <= 2 * Quotient(range, coarse) <= Quotient(range, fine)
    ensures range < 0 ==> 0 >= 2 * Quotient(range, coarse) >= Quotient(range, fine)
  {
    if range >= 0 {
      Halves(range, fine, coarse);
    } else {
      Halves(-range, fine, coarse);
    }
  }

  lemma Halves(n: nat, fine: int, coarse: int)
    requires 0 < fine && 2 * fine <= coarse
    ensures 0 <= 2 * (n / coarse) <= n / fine
  {
    var q := n / coarse;
    assert n >= q * coarse >= q * (2 * fine) == (2 * q) * fine;
    QuotientAtLeast(n, fine, 2 * q);
  }

  lemma QuotientAtLeast(n: nat, d: int, q: nat)
    requires d > 0 && n >= q * d
    ensures n / d >= q
  {
    var k, r := n / d, n % d;
    assert n == k * d + r && r < d;
    if k + 1 <= q {
      MulMonotone(k + 1, q, d);
    }
  }

  lemma MulMonotone(a: int, b: int, d: int)
    requires a <= b && d >= 0
    ensures a * d <= b * d
  {
  }

  /** Consecutive windows differ by a factor of at least two, and so do all pairs further apart. */
  lemma WindowsDouble(i: nat, j: nat)
    requires i < j < |WINDOWS|
    ensures 2 * WINDOWS[i] <= WINDOWS[j]
  {
  }

  /** A scan that stopped after window `best`, or ran out of windows there, has found the first best one. */
  lemma StoppedAtBest(range: int, best: nat)
    requires best < |WINDOWS|
    requires forall j :: 0 <= j < best ==> Delta(range, WINDOWS[best]) < Delta(range, WINDOWS[j])
    requires best + 1 < |WINDOWS| ==> Delta(range, WINDOWS[best + 1]) >= Delta(range, WINDOWS[best])
    ensures IsFirstBest(range, best)
  {
    forall i | 0 <= i < |WINDOWS|
      ensures Delta(range, WINDOWS[best]) <= Delta(range, WINDOWS[i])
    {
      if i > best + 1 {
        NoLaterImprovement(range, best, i);
      }
    }
  }

  /** If a window is closer than the one before it, then the windows up to it have come closer and closer. */
  lemma CloserAllAlong(range: int, i: nat, j: nat)
    requires i < j < |WINDOWS| && Delta(range, WINDOWS[j]) < Delta(range, WINDOWS[j - 1])
    ensures Delta(range, WINDOWS[i + 1]) < Delta(range, WINDOWS[i])
  {
    WindowsDouble(i, i + 1);
    Coarser(range, WINDOWS[i], WINDOWS[i + 1]);
    WindowsDouble(j - 1, j);
    Coarser(range, WINDOWS[j - 1], WINDOWS[j]);
    if i + 1 < j - 1 {
      WindowsDouble(i + 1, j - 1);
      Coarser(range, WINDOWS[i + 1], WINDOWS[j - 1]);
    }
  }

  lemma {:induction false} CloserThanAll(range: int, i: nat, j: nat)
    requires i < j < |WINDOWS| && Delta(range, WINDOWS[j]) < Delta(range, WINDOWS[j - 1])
    ensures Delta(range, WINDOWS[j]) < Delta(range, WINDOWS[i])
    decreases j - i
  {
    if i + 1 < j {
      CloserThanAll(range, i + 1, j);
      CloserAllAlong(range, i, j);
    }
  }

  /** How to tell the best choice: its window is closer than the one before it and no less close than the one after. */
  lemma LocallyBest(totalChecks: int, range: int, best: nat)
    requires best < |WINDOWS|
    requires best > 0 ==> Delta(range, WINDOWS[best]) < Delta(range, WINDOWS[best - 1])
    requires best + 1 < |WINDOWS| ==> Delta(range, WINDOWS[best + 1]) >= Delta(range, WINDOWS[best])
    ensures IsBestChoice(totalChecks, range,
      if Abs(DESIRED_STATUSES - totalChecks) <= Delta(range, WINDOWS[best]) then 0 else WINDOWS[best])
  {
    forall j | 0 <= j < best
      ensures Delta(range, WINDOWS[best]) < Delta(range, WINDOWS[j])
    {
      CloserThanAll(range, j, best);
    }
    StoppedAtBest(range, best);
    assert IsFirstBest(range, best);
  }

  /** The choices that are expected with a check every half a minute: for twelve hours, */
  lemma ExpectedForHours()
    ensures IsBestChoice(1440, 720 * MINUTE, 5 * MINUTE)
  {
    LocallyBest(1440, 720 * MINUTE, 1);
  }

  /** for eight days, */
  lemma ExpectedForDays()
    ensures IsBestChoice(23040, 8 * DAY, 180 * MINUTE)
  {
    LocallyBest(23040, 8 * DAY, 5);
  }

  /** for ninety days, */
  lemma ExpectedForMonths()
    ensures IsBestChoice(259200, 90 * DAY, DAY)
  {
    LocallyBest(259200, 90 * DAY, 8);
  }

  /** and for a year; */
  lemma ExpectedForAYear()
    ensures IsBestChoice(1051200, 365 * DAY, 7 * DAY)
  {
    LocallyBest(1051200, 365 * DAY, 9);
  }

  /** and with a check every hour, where six days are not aggregated, but twelve are. */
  lemma ExpectedHourly()
    ensures IsBestChoice(144, 6 * DAY, 0)
    ensures IsBestChoice(288, 12 * DAY, 180 * MINUTE)
  {
    LocallyBest(144, 6 * DAY, 4);
    LocallyBest(288, 12 * DAY, 5);
  }

  /**
   Beyond the initial delta the scan gives up at once and settles for the finest window, although the
   coarsest one is closest. That is still the right answer only when not aggregating is.
   */
  lemma BeyondTheScan(totalChecks: int, range: int, choice: int)
    requires totalChecks > DESIRED_STATUSES && Delta(range, MINUTE) >= INITIAL_DELTA
    requires choice == if totalChecks - DESIRED_STATUSES <= Delta(range, MINUTE) then 0 else MINUTE
    ensures IsBestChoice(totalChecks, range, choice) <==> totalChecks - DESIRED_STATUSES <= Delta(range, COARSEST)
  {
    var last := |WINDOWS| - 1;
    assert WINDOWS[last] == COARSEST && WINDOWS[0] == MINUTE;
    forall i | 0 <= i < last
      ensures Delta(range, COARSEST) < Delta(range, WINDOWS[i])
    {
      WindowsDouble(i, last);
      Coarser(range, WINDOWS[i], COARSEST);
      CoarsestStillMany(range);
    }
    assert forall best :: IsFirstBest(range, best) ==> best == last;
    if totalChecks - DESIRED_STATUSES > Delta(range, COARSEST) {
      assert !(forall i :: 0 <= i < |WINDOWS| ==> Abs(DESIRED_STATUSES - totalChecks) <= Delta(range, WINDOWS[i])) by {
        assert Delta(range, WINDOWS[last]) < Abs(DESIRED_STATUSES - totalChecks);
      }
    }
  }

  /** For ranges that are not negative, the scan works up to just under a hundred million and one hundred minutes. */
  lemma ScanLimit(range: int)
    requires range >= 0
    ensures Delta(range, MINUTE) < INITIAL_DELTA <==> range < (INITIAL_DELTA + DESIRED_STATUSES) * MINUTE
  {
  }

  /** A range that a duration can hold, and a number of checks, for which the scan does not give the best choice. */
  lemma ScanFails(choice: int)
    requires choice == 0 || choice == MINUTE
    ensures !IsBestChoice(1000000, 100000100 * MINUTE, choice)
  {
    var range := 100000100 * MINUTE;
    var last := |WINDOWS| - 1;
    assert Delta(range, WINDOWS[last]) < 10000;
    assert forall best: nat :: best < |WINDOWS| && WINDOWS[best] == MINUTE ==> best == 0;
  }

  lemma CoarsestStillMany(range: int)
    requires Delta(range, MINUTE) >= INITIAL_DELTA
    ensures range >= 0 ==> Quotient(range, COARSEST) > DESIRED_STATUSES
    ensures range < 0 ==> Quotient(range, COARSEST) < 0
  {
  }

  /** The greedy choice is the best one exactly when the range is not beyond the scan or nothing is to be aggregated. */
  method GetBestPartitioner(totalChecks: int, range: int) returns (choice: int)
    ensures totalChecks <= DESIRED_STATUSES ==> choice == 0
    ensures totalChecks > DESIRED_STATUSES ==>
      (IsBestChoice(totalChecks, range, choice)
       <==> Delta(range, MINUTE) < INITIAL_DELTA || totalChecks - DESIRED_STATUSES <= Delta(range, COARSEST))
    ensures totalChecks > DESIRED_STATUSES && Delta(range, MINUTE) >= INITIAL_DELTA
        ==> choice == if totalChecks - DESIRED_STATUSES <= Delta(range, MINUTE) then 0 else MINUTE
  {
    if totalChecks <= DESIRED_STATUSES {
      return 0;
    }
    var bestDelta := INITIAL_DELTA;
    var bestWindow := WINDOWS[0];
    ghost var best := 0;
    for i := 0 to |WINDOWS|
      invariant i == 0 ==> bestDelta == INITIAL_DELTA && best == 0
      invariant i > 0 ==> best == i - 1 && bestDelta == Delta(range, bestWindow) && Delta(range, MINUTE) < INITIAL_DELTA
      invariant best < |WINDOWS| && bestWindow == WINDOWS[best]
      invariant forall j :: 0 <= j < best ==> Delta(range, WINDOWS[best]) < Delta(range, WINDOWS[j])
    {
      var delta := Abs(DESIRED_STATUSES - Quotient(range, WINDOWS[i]));
      if delta < bestDelta {
        bestDelta := delta;
        bestWindow := WINDOWS[i];
        best := i;
      } else {
        break;
      }
    }
    choice := bestWindow;
    if Abs(DESIRED_STATUSES - totalChecks) <= Abs(DESIRED_STATUSES - Quotient(range, bestWindow)) {
      choice := 0;
    }
    if Delta(range, MINUTE) < INITIAL_DELTA {
      StoppedAtBest(range, best);
    } else {
      BeyondTheScan(totalChecks, range, choice);
    }
  }
}
