/**
 Runs that go wrong when the protection of CronSync is weakened: without the lock, with a mutex per call instead
 of one per canary, and, in the code as it is, with an Unschedule outside the lock that is interrupted.
 */
module CronRaces {
  import opened Common
  import opened CronSync
  import opened CronSchedule

  /** Two calls fetch their mutexes one after the other. */
  const FETCHES: seq<Step> := [Call(0, 7, Wanted(1)), Call(1, 7, Wanted(1)), GetMutex(0), GetMutex(1)]

  /** Nothing keeps the second one out. */
  const LOCKS: seq<Step> := [Lock(0), Lock(1)]

  /** Both find no job; then both add an entry. */
  const ADDS: seq<Step> := [Go(0), Go(1), Go(0), Go(1)]

  lemma BothFetch(locking: Locking)
    requires locking != Shared
    ensures Continue(locking, INITIAL, FETCHES)
         == Some(INITIAL.(locks := map[7 := 1], nextMutex := 2,
                          threads := map[0 := WantLock(7, Wanted(1), 0), 1 := WantLock(7, Wanted(1), 1)]))
  {
    var s1, p1 := Forward(INITIAL, [], INITIAL, FETCHES[0], locking);
    var s2, p2 := Forward(INITIAL, p1, s1, FETCHES[1], locking);
    var s3, p3 := Forward(INITIAL, p2, s2, FETCHES[2], locking);
    var s4, p4 := Forward(INITIAL, p3, s3, FETCHES[3], locking);
    assert p4 == FETCHES;
    assert s4.threads == map[0 := WantLock(7, Wanted(1), 0), 1 := WantLock(7, Wanted(1), 1)];
    assert s4.locks == map[7 := 1];
  }

  lemma BothLock(locking: Locking, s: State)
    requires locking != Shared && s.holders == map[]
    requires s.threads == map[0 := WantLock(7, Wanted(1), 0), 1 := WantLock(7, Wanted(1), 1)]
    ensures Continue(locking, s, LOCKS)
         == Some(s.(holders := map[0 := 0, 1 := 1],
                        threads := map[0 := Deciding(7, Wanted(1), 0), 1 := Deciding(7, Wanted(1), 1)]))
  {
    var s1, p1 := Forward(s, [], s, LOCKS[0], locking);
    var s2, p2 := Forward(s, p1, s1, LOCKS[1], locking);
    assert p2 == LOCKS;
    assert s2.threads == map[0 := Deciding(7, Wanted(1), 0), 1 := Deciding(7, Wanted(1), 1)];
  }

  lemma BothAdd(locking: Locking, s: State)
    requires s.cron == map[] && s.jobs == map[] && s.nextEntry == 0
    requires s.threads == map[0 := Deciding(7, Wanted(1), 0), 1 := Deciding(7, Wanted(1), 1)]
    ensures Continue(locking, s, ADDS).Some? && Continue(locking, s, ADDS).value.cron == map[0 := 7, 1 := 7]
  {
    var s1, p1 := Forward(s, [], s, ADDS[0], locking);
    var s2, p2 := Forward(s, p1, s1, ADDS[1], locking);
    var s3, p3 := Forward(s, p2, s2, ADDS[2], locking);
    var s4, p4 := Forward(s, p3, s3, ADDS[3], locking);
    assert p4 == ADDS;
  }

  /** Unless every call for a canary locks one and the same mutex, two entries for it can end up in cron. */
  lemma LockIsNeeded(locking: Locking)
    requires locking != Shared
    ensures After(locking, FETCHES + LOCKS + ADDS).Some?
    ensures EntriesOf(After(locking, FETCHES + LOCKS + ADDS).value, 7) == {0, 1}
  {
    BothFetch(locking);
    var fetched := After(locking, FETCHES).value;
    BothLock(locking, fetched);
    ContinueAppends(locking, INITIAL, FETCHES, LOCKS);
    BothAdd(locking, After(locking, FETCHES + LOCKS).value);
    ContinueAppends(locking, INITIAL, FETCHES + LOCKS, ADDS);
  }

  lemma {:induction false} RunKeepsLocks(s: State, steps: seq<Step>)
    requires LocksOk(s) && Continue(Shared, s, steps).Some?
    ensures LocksOk(Continue(Shared, s, steps).value)
  {
    if steps != [] {
      RunKeepsLocks(s, steps[..|steps| - 1]);
      LocksKept(Continue(Shared, s, steps[..|steps| - 1]).value, steps[|steps| - 1]);
    }
  }

  /** An Unschedule outside the lock has loaded the job; then a call with a new spec runs from start to end. */
  lemma RescheduledMeanwhile(s: State, t: ThreadId, u: ThreadId, id: CanaryId, spec: Spec)
    returns (steps: seq<Step>, s': State)
    requires LocksOk(s) && EntriesOk(s) && t != u && PcOf(s, t).Idle? && PcOf(s, u).Idle? && LockFree(s, id)
    requires id in s.jobs && s.jobs[id].spec != spec && EntriesOf(s, id) == KnownEntry(s, id)
    ensures Continue(Shared, s, steps) == Some(s') && LocksOk(s') && LockFree(s', id)
    ensures ScheduleOf(s') == Synced(ScheduleOf(s), id, Wanted(spec), false)
    ensures PcOf(s', u) == OutsideRemovingEntry(id, s.jobs[id]) && PcOf(s', t).Idle?
  {
    var loaded, first := Forward(s, [], s, OutsideLoad(u, id));
    LocksKept(s, OutsideLoad(u, id));
    WholeCallAlone(loaded, t, id, Wanted(spec), false);
    var call := WholeCall(loaded, t, id, Wanted(spec), false);
    ContinueAppends(Shared, s, first, call);
    steps := first + call;
    s' := Continue(Shared, s, steps).value;
    RunKeepsLocks(s, steps);
  }

  /**
   In the code as it is: when a call reschedules a canary while an Unschedule outside the lock has loaded the old
   job, the Unschedule goes on to delete the new job from the map, and the new cron entry is left with nobody
   who knows it. This happens from every state in which the canary is scheduled.
   */
  lemma InterruptedUnscheduleOrphans(s: State, t: ThreadId, u: ThreadId, id: CanaryId, spec: Spec)
    returns (steps: seq<Step>, s': State)
    requires LocksOk(s) && EntriesOk(s) && t != u && PcOf(s, t).Idle? && PcOf(s, u).Idle? && LockFree(s, id)
    requires id in s.jobs && s.jobs[id].spec != spec && EntriesOf(s, id) == KnownEntry(s, id)
    ensures Continue(Shared, s, steps) == Some(s') && LocksOk(s') && LockFree(s', id)
    ensures PcOf(s', t).Idle? && PcOf(s', u).Idle?
    ensures EntriesOf(s', id) == {s.nextEntry} && id !in s'.jobs && s'.nextEntry == s.nextEntry + 1
  {
    assert EntryOk(s, id, s.jobs[id].entry);
    var run, s2 := RescheduledMeanwhile(s, t, u, id, spec);
    var s3, run3 := Forward(s, run, s2, OutsideGo(u));
    var s4, run4 := Forward(s, run3, s3, OutsideGo(u));
    steps, s' := run4, s4;
    RunKeepsLocks(s, steps);
    assert forall e :: e in s.cron && s.cron[e] == id ==> e in EntriesOf(s, id);
    OrphanEntry(ScheduleOf(s), ScheduleOf(s'), id, spec);
  }

  lemma OrphanEntry(x: Schedule, x': Schedule, id: CanaryId, spec: Spec)
    requires id in x.jobs && x.jobs[id].spec != spec && x.jobs[id].entry < x.nextEntry && x.nextEntry !in x.cron
    requires forall e :: e in x.cron && x.cron[e] == id ==> e == x.jobs[id].entry
    requires var y := Synced(x, id, Wanted(spec), false);
      x' == y.(cron := y.cron - {x.jobs[id].entry}, jobs := y.jobs - {id})
    ensures forall e :: e in x'.cron && x'.cron[e] == id <==> e == x.nextEntry
    ensures id !in x'.jobs && x'.nextEntry == x.nextEntry + 1
  {
  }

  /** The next call for the canary finds no job and adds a second entry. */
  lemma OrphanMakesTwo(s: State, t: ThreadId, id: CanaryId, spec: Spec, orphan: EntryId)
    returns (steps: seq<Step>, s': State)
    requires LocksOk(s) && PcOf(s, t).Idle? && LockFree(s, id) && id !in s.jobs
    requires EntriesOf(s, id) == {orphan} && orphan < s.nextEntry
    ensures Continue(Shared, s, steps) == Some(s') && LockFree(s', id)
    ensures EntriesOf(s', id) == {orphan, s.nextEntry} && |EntriesOf(s', id)| == 2
  {
    WholeCallAlone(s, t, id, Wanted(spec), false);
    steps := WholeCall(s, t, id, Wanted(spec), false);
    s' := Continue(Shared, s, steps).value;
  }
}
