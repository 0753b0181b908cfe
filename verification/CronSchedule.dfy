/**
 What one uninterrupted SyncCanaryJob does to cron and the job map, step by step and as a whole.
 */
module CronSchedule {
  import opened Common
  import opened CronSync

  /** Cron and the job map, without the threads. */
  datatype Schedule = Schedule(cron: map<EntryId, CanaryId>, jobs: map<CanaryId, Job>, nextEntry: EntryId)

  function ScheduleOf(s: State): Schedule {
    Schedule(s.cron, s.jobs, s.nextEntry)
  }

  function Unscheduled(x: Schedule, id: CanaryId): Schedule {
    if id in x.jobs then x.(cron := x.cron - {x.jobs[id].entry}, jobs := x.jobs - {id}) else x
  }

  function Added(x: Schedule, id: CanaryId, spec: Spec, rejected: bool): Schedule {
    if rejected then x
    else Schedule(x.cron[x.nextEntry := id], x.jobs[id := Job(x.nextEntry, spec)], x.nextEntry + 1)
  }

  /**
   The whole effect of SyncCanaryJob on one canary; `rejected` tells whether the scheduler would refuse its schedule.
   */
  function Synced(x: Schedule, id: CanaryId, request: Request, rejected: bool): Schedule {
    match request
    case Unreadable => x
    case Unwanted => Unscheduled(x, id)
    case Wanted(spec) =>
      if id !in x.jobs then Added(x, id, spec, rejected)
      else if x.jobs[id].spec != spec then Added(Unscheduled(x, id), id, spec, rejected)
      else x
  }

  // ---------------------------------------------------------------- an uninterrupted call of the protocol

  /** One step further along a run from `s`. */
  lemma Forward(s: State, steps: seq<Step>, at: State, step: Step, locking: Locking := Shared)
    returns (next: State, longer: seq<Step>)
    requires Continue(locking, s, steps) == Some(at) && Enabled(locking, at, step)
    ensures longer == steps + [step] && next == Apply(locking, at, step)
    ensures Continue(locking, s, longer) == Some(next)
  {
    longer, next := steps + [step], Apply(locking, at, step);
    assert longer[..|steps|] == steps;
  }

  lemma {:induction false} ContinueAppends(locking: Locking, s: State, a: seq<Step>, b: seq<Step>)
    requires Continue(locking, s, a).Some?
    ensures Continue(locking, s, a + b) == Continue(locking, Continue(locking, s, a).value, b)
  {
    if b == [] {
      assert a + b == a;
    } else {
      assert (a + b)[..|a + b| - 1] == a + b[..|b| - 1];
      ContinueAppends(locking, s, a, b[..|b| - 1]);
    }
  }

  /** The steps up to and including the decision what to do. */
  function Entering(t: ThreadId, id: CanaryId, request: Request): seq<Step> {
    [Call(t, id, request), GetMutex(t), Lock(t), Go(t)]
  }

  /** The steps inside the lock after the decision, up to unlocking. */
  function Inside(s: State, t: ThreadId, id: CanaryId, request: Request, rejected: bool): seq<Step> {
    var add := if rejected then [FailToAdd(t)] else [Go(t), Go(t)];
    match request
    case Unreadable => []
    case Unwanted => if id in s.jobs then [Go(t), Go(t), Go(t)] else [Go(t)]
    case Wanted(spec) =>
      if id !in s.jobs then add
      else if s.jobs[id].spec != spec then [Go(t), Go(t), Go(t)] + add
      else []
  }

  function WholeCall(s: State, t: ThreadId, id: CanaryId, request: Request, rejected: bool): seq<Step> {
    Entering(t, id, request) + Inside(s, t, id, request, rejected) + [Go(t)]
  }

  /** The canary's mutex once thread `t` has fetched it. */
  function MutexFor(s: State, id: CanaryId): MutexId {
    if id in s.locks then s.locks[id] else s.nextMutex
  }

  /** The state in which thread `t` has just decided. */
  function Entered(s: State, t: ThreadId, id: CanaryId, request: Request): State {
    var mutex := MutexFor(s, id);
    s.(locks := s.locks[id := mutex], holders := s.holders[mutex := t],
       threads := s.threads[t := Decide(s, id, request, mutex)], nextMutex := s.nextMutex + 1)
  }

  /** The state in which thread `t` has just fetched the mutex. */
  function Fetched(s: State, t: ThreadId, id: CanaryId, request: Request): State {
    var mutex := MutexFor(s, id);
    s.(locks := s.locks[id := mutex], threads := s.threads[t := WantLock(id, request, mutex)],
       nextMutex := s.nextMutex + 1)
  }

  lemma FetchedIs(s: State, called: State, t: ThreadId, id: CanaryId, request: Request)
    requires called == At(s, t, WantMutex(id, request))
    ensures ApplyGetMutex(Shared, called, t) == Fetched(s, t, id, request)
  {
    assert PcOf(called, t) == WantMutex(id, request);
    assert called.threads[t := WantLock(id, request, MutexFor(s, id))] == Fetched(s, t, id, request).threads;
  }

  lemma FetchAlone(s: State, t: ThreadId, id: CanaryId, request: Request)
    requires PcOf(s, t).Idle?
    ensures Continue(Shared, s, [Call(t, id, request), GetMutex(t)]) == Some(Fetched(s, t, id, request))
  {
    var p0: seq<Step> := [];
    var s1, p1 := Forward(s, p0, s, Call(t, id, request));
    var s2, p2 := Forward(s, p1, s1, GetMutex(t));
    assert p2 == [Call(t, id, request), GetMutex(t)];
    FetchedIs(s, s1, t, id, request);
  }

  /** The state in which thread `t` has just locked it. */
  function Locked(s: State, t: ThreadId, id: CanaryId, request: Request): State {
    var mutex := MutexFor(s, id);
    s.(locks := s.locks[id := mutex], holders := s.holders[mutex := t],
       threads := s.threads[t := Deciding(id, request, mutex)], nextMutex := s.nextMutex + 1)
  }

  lemma LockedIs(s: State, t: ThreadId, id: CanaryId, request: Request)
    requires LocksOk(s) && LockFree(s, id)
    ensures Enabled(Shared, Fetched(s, t, id, request), Lock(t))
    ensures Apply(Shared, Fetched(s, t, id, request), Lock(t)) == Locked(s, t, id, request)
  {
    var fetched, mutex := Fetched(s, t, id, request), MutexFor(s, id);
    assert mutex !in s.holders;
    assert PcOf(fetched, t) == WantLock(id, request, mutex);
    assert fetched.threads[t := Deciding(id, request, mutex)] == Locked(s, t, id, request).threads;
  }

  lemma LockAlone(s: State, t: ThreadId, id: CanaryId, request: Request)
    requires LocksOk(s) && PcOf(s, t).Idle? && LockFree(s, id)
    ensures Continue(Shared, s, [Call(t, id, request), GetMutex(t), Lock(t)]) == Some(Locked(s, t, id, request))
  {
    FetchAlone(s, t, id, request);
    LockedIs(s, t, id, request);
    var s3, p3 := Forward(s, [Call(t, id, request), GetMutex(t)], Fetched(s, t, id, request), Lock(t));
    assert p3 == [Call(t, id, request), GetMutex(t), Lock(t)];
  }

  lemma EnterAlone(s: State, t: ThreadId, id: CanaryId, request: Request)
    requires LocksOk(s) && PcOf(s, t).Idle? && LockFree(s, id)
    ensures Continue(Shared, s, Entering(t, id, request)) == Some(Entered(s, t, id, request))
  {
    LockAlone(s, t, id, request);
    var s4, p4 := Forward(s, [Call(t, id, request), GetMutex(t), Lock(t)], Locked(s, t, id, request), Go(t));
    assert p4 == Entering(t, id, request);
    assert s4.threads == Entered(s, t, id, request).threads;
  }

  /** The state with another schedule and another position of thread `t`. */
  function With(s: State, x: Schedule, t: ThreadId, pc: Pc): State {
    s.(cron := x.cron, jobs := x.jobs, nextEntry := x.nextEntry, threads := s.threads[t := pc])
  }

  lemma GoOnce(s: State, t: ThreadId)
    requires InLock(PcOf(s, t))
    ensures Continue(Shared, s, [Go(t)]) == Some(ApplyGo(s, t))
  {
  }

  lemma GoTwice(s: State, t: ThreadId)
    requires InLock(PcOf(s, t)) && InLock(PcOf(ApplyGo(s, t), t))
    ensures Continue(Shared, s, [Go(t), Go(t)]) == Some(ApplyGo(ApplyGo(s, t), t))
  {
    GoOnce(s, t);
    var s', p := Forward(s, [Go(t)], ApplyGo(s, t), Go(t));
    assert p == [Go(t), Go(t)];
  }

  /** Unscheduling inside the lock, uninterrupted. */
  lemma UnscheduleAlone(s: State, t: ThreadId)
    requires PcOf(s, t).Unscheduling?
    ensures var pc := PcOf(s, t);
      var steps := if pc.id in s.jobs then [Go(t), Go(t), Go(t)] else [Go(t)];
      Continue(Shared, s, steps)
      == Some(With(s, Unscheduled(ScheduleOf(s), pc.id), t, AfterUnschedule(pc.id, pc.request, pc.mutex, pc.next)))
  {
    var pc := PcOf(s, t);
    GoOnce(s, t);
    if pc.id in s.jobs {
      GoTwice(s, t);
      var s3, p3 := Forward(s, [Go(t), Go(t)], ApplyGo(ApplyGo(s, t), t), Go(t));
      assert p3 == [Go(t), Go(t), Go(t)];
      assert s3.threads == s.threads[t := AfterUnschedule(pc.id, pc.request, pc.mutex, pc.next)];
    }
  }

  /** Adding inside the lock, uninterrupted. */
  lemma AddAlone(s: State, t: ThreadId, rejected: bool)
    requires PcOf(s, t).AddingEntry? && PcOf(s, t).request.Wanted?
    ensures var pc := PcOf(s, t);
      Continue(Shared, s, if rejected then [FailToAdd(t)] else [Go(t), Go(t)])
      == Some(With(s, Added(ScheduleOf(s), pc.id, pc.request.spec, rejected), t,
                   Unlocking(pc.id, pc.request, pc.mutex, rejected)))
  {
    var pc := PcOf(s, t);
    if rejected {
      var s', p := Forward(s, [], s, FailToAdd(t));
      assert p == [FailToAdd(t)];
    } else {
      GoTwice(s, t);
      assert ApplyGo(ApplyGo(s, t), t).threads == s.threads[t := Unlocking(pc.id, pc.request, pc.mutex, rejected)];
    }
  }

  /** From the decision to just before unlocking. */
  lemma InsideAlone(s: State, t: ThreadId, id: CanaryId, request: Request, rejected: bool, mutex: MutexId)
    requires t in s.threads && s.threads[t] == Decide(s, id, request, mutex)
    ensures exists failed ::
              Continue(Shared, s, Inside(s, t, id, request, rejected))
              == Some(With(s, Synced(ScheduleOf(s), id, request, rejected), t, Unlocking(id, request, mutex, failed)))
  {
    var pc := s.threads[t];
    assert s.threads == s.threads[t := pc];
    match request
    case Unreadable => assert With(s, ScheduleOf(s), t, pc) == s;
    case Unwanted => UnscheduleAlone(s, t);
    case Wanted(spec) =>
      if id !in s.jobs {
        AddAlone(s, t, rejected);
      } else if s.jobs[id].spec != spec {
        UnscheduleAlone(s, t);
        var between := With(s, Unscheduled(ScheduleOf(s), id), t, AddingEntry(id, request, mutex));
        AddAlone(between, t, rejected);
        ContinueAppends(Shared, s, [Go(t), Go(t), Go(t)], if rejected then [FailToAdd(t)] else [Go(t), Go(t)]);
        var done := Unlocking(id, request, mutex, rejected);
        assert between.threads[t := done] == s.threads[t := done];
      } else {
        assert With(s, ScheduleOf(s), t, pc) == s;
      }
  }

  /** From the call to just before unlocking. */
  lemma UpToUnlocking(s: State, t: ThreadId, id: CanaryId, request: Request, rejected: bool) returns (failed: bool)
    requires LocksOk(s) && PcOf(s, t).Idle? && LockFree(s, id)
    ensures var x := Synced(ScheduleOf(s), id, request, rejected);
      Continue(Shared, s, Entering(t, id, request) + Inside(s, t, id, request, rejected))
      == Some(With(Entered(s, t, id, request), x, t, Unlocking(id, request, MutexFor(s, id), failed)))
  {
    var mutex := MutexFor(s, id);
    var entered := Entered(s, t, id, request);
    EnterAlone(s, t, id, request);
    InsideAlone(entered, t, id, request, rejected, mutex);
    failed :| Continue(Shared, entered, Inside(entered, t, id, request, rejected))
      == Some(With(entered, Synced(ScheduleOf(entered), id, request, rejected), t,
                   Unlocking(id, request, mutex, failed)));
    ContinueAppends(Shared, s, Entering(t, id, request), Inside(s, t, id, request, rejected));
  }

  lemma UnlockAlone(s: State, t: ThreadId, id: CanaryId, request: Request, x: Schedule, failed: bool)
    requires LocksOk(s) && LockFree(s, id)
    ensures var mutex := MutexFor(s, id);
      var s' := ApplyGo(With(Entered(s, t, id, request), x, t, Unlocking(id, request, mutex, failed)), t);
      && ScheduleOf(s') == x && s'.threads == s.threads[t := Idle] && s'.holders == s.holders
      && s'.locks == s.locks[id := mutex] && LockFree(s', id)
  {
    assert MutexFor(s, id) !in s.holders;
  }

  /**
   A call that no other thread interrupts has exactly the effect of SyncCanaryJob: it changes cron and the map
   as `Synced` says, it releases the lock, and it ends where it began.
   */
  lemma WholeCallAlone(s: State, t: ThreadId, id: CanaryId, request: Request, rejected: bool)
    requires LocksOk(s) && PcOf(s, t).Idle? && LockFree(s, id)
    ensures Continue(Shared, s, WholeCall(s, t, id, request, rejected)).Some?
    ensures var s' := Continue(Shared, s, WholeCall(s, t, id, request, rejected)).value;
      && ScheduleOf(s') == Synced(ScheduleOf(s), id, request, rejected)
      && s'.threads == s.threads[t := Idle] && s'.holders == s.holders
      && s'.locks == s.locks[id := MutexFor(s, id)] && LockFree(s', id)
  {
    var failed := UpToUnlocking(s, t, id, request, rejected);
    var x := Synced(ScheduleOf(s), id, request, rejected);
    var last := With(Entered(s, t, id, request), x, t, Unlocking(id, request, MutexFor(s, id), failed));
    UnlockAlone(s, t, id, request, x, failed);
    var s', p := Forward(s, Entering(t, id, request) + Inside(s, t, id, request, rejected), last, Go(t));
    assert p == WholeCall(s, t, id, request, rejected);
  }

  // ---------------------------------------------------------------- an uninterrupted Unschedule outside the lock

  /**
   In one step it takes the canary's job out of the map and the entry of that job out of cron, and touches nothing
   else, locks included.
   */
  lemma AtOnceIsUnscheduled(s: State, id: CanaryId)
    ensures var s' := Apply(Shared, s, UnscheduleAtOnce(id));
      && ScheduleOf(s') == Unscheduled(ScheduleOf(s), id)
      && s'.jobs.Keys == s.jobs.Keys - {id}
      && (forall other :: other in s'.jobs ==> s'.jobs[other] == s.jobs[other])
      && (forall e :: e in s'.cron <==> e in s.cron && (id in s.jobs ==> e != s.jobs[id].entry))
      && (forall e :: e in s'.cron ==> s'.cron[e] == s.cron[e])
      && s'.threads == s.threads && s'.locks == s.locks && s'.holders == s.holders
      && s'.nextEntry == s.nextEntry && s'.nextMutex == s.nextMutex
  {
  }

  /** The three steps that the code takes add up to that one step if nothing comes in between. */
  lemma OutsideAlone(s: State, t: ThreadId, id: CanaryId)
    requires PcOf(s, t).Idle? && id in s.jobs
    ensures Continue(Shared, s, [OutsideLoad(t, id), OutsideGo(t), OutsideGo(t)])
         == Some(Apply(Shared, s, UnscheduleAtOnce(id)).(threads := s.threads[t := Idle]))
  {
    var p0: seq<Step> := [];
    var s1, p1 := Forward(s, p0, s, OutsideLoad(t, id));
    var s2, p2 := Forward(s, p1, s1, OutsideGo(t));
    var s3, p3 := Forward(s, p2, s2, OutsideGo(t));
    assert p3 == [OutsideLoad(t, id), OutsideGo(t), OutsideGo(t)];
    assert s3.threads == s.threads[t := Idle];
  }
}
