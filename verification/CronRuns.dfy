/**
 What holds over whole runs of the synchronisation protocol, whatever the interleaving.
 */
module CronRuns {
  import opened Common
  import opened CronSync

  lemma {:induction false} RunKeepsInv(steps: seq<Step>)
    requires After(Shared, steps).Some? && HarmlessRun(steps)
    ensures Inv(After(Shared, steps).value)
  {
    if steps != [] {
      var front := steps[..|steps| - 1];
      assert forall k :: 0 <= k <= |front| ==> front[..k] == steps[..k];
      RunKeepsInv(front);
      StepKeepsInv(After(Shared, front).value, steps[|front|]);
    }
  }

  ghost predicate NothingOrphaned(steps: seq<Step>) {
    forall k, id {:trigger Contained(After(Shared, steps[..k]).value, id)} ::
      0 <= k <= |steps| && After(Shared, steps[..k]).Some? ==> Contained(After(Shared, steps[..k]).value, id)
  }

  lemma {:induction false} PrefixRuns(steps: seq<Step>, k: nat)
    requires After(Shared, steps).Some? && k <= |steps|
    ensures After(Shared, steps[..k]).Some?
  {
    if k < |steps| {
      var front := steps[..|steps| - 1];
      PrefixRuns(front, k);
      assert front[..k] == steps[..k];
    } else {
      assert steps[..k] == steps;
    }
  }

  /**
   Exactly when runs are safe: no cron entry is orphaned at any moment of a run if and only if every step of it is
   harmless, that is, no Unschedule outside the lock deletes a job whose entry it leaves behind.
   */
  lemma {:induction false} OrphansExactly(steps: seq<Step>)
    requires After(Shared, steps).Some?
    ensures NothingOrphaned(steps) <==> HarmlessRun(steps)
  {
    if steps == [] {
      forall k, id | 0 <= k <= |steps|
        ensures Contained(After(Shared, steps[..k]).value, id)
      {
        assert steps[..k] == [];
      }
    } else {
      var last := |steps| - 1;
      var front := steps[..last];
      var s := After(Shared, front).value;
      PrefixRuns(steps, last);
      OrphansExactly(front);
      assert forall k :: 0 <= k <= last ==> front[..k] == steps[..k];
      assert steps[..|steps|] == steps;
      PrefixesSplit(steps);
      if HarmlessRun(front) {
        RunKeepsInv(front);
        StepOrphansNothing(s, steps[last]);
      }
    }
  }

  /** What holds of all prefixes holds of those of the run without its last step, and of the run itself. */
  lemma PrefixesSplit(steps: seq<Step>)
    requires steps != [] && After(Shared, steps).Some? && After(Shared, steps[..|steps| - 1]).Some?
    ensures var last := |steps| - 1; var front := steps[..last];
      && (HarmlessRun(steps) <==> HarmlessRun(front) && Harmless(After(Shared, front).value, steps[last]))
      && (NothingOrphaned(steps) <==> NothingOrphaned(front) && forall id :: Contained(After(Shared, steps).value, id))
  {
    var last := |steps| - 1;
    var front := steps[..last];
    assert forall k :: 0 <= k <= last ==> front[..k] == steps[..k];
    assert steps[..|steps|] == steps;
  }

  /**
   However the threads are interleaved, a canary never has two cron entries, and whenever its lock is free
   and no interrupted Unschedule is about to delete its job, the job map knows exactly its cron entry.
   */
  lemma NeverTwoEntries(steps: seq<Step>, id: CanaryId)
    requires After(Shared, steps).Some? && HarmlessRun(steps)
    ensures var s := After(Shared, steps).value;
      && |EntriesOf(s, id)| <= 1
      && (LockFree(s, id) ==> EntriesOf(s, id) <= KnownEntry(s, id))
      && (LockFree(s, id) && (id in s.jobs ==> !BeingDeleted(s, id, s.jobs[id].entry)) ==>
           EntriesOf(s, id) == KnownEntry(s, id))
  {
    RunKeepsInv(steps);
    var s := After(Shared, steps).value;
    assert CanaryOk(s, id);
    AtMostKnown(s, id);
  }

  /** With Unschedule uninterrupted, all runs are harmless and no deletion is ever under way outside the lock. */
  lemma {:induction false} UninterruptedIsHarmless(steps: seq<Step>)
    requires After(Shared, steps).Some? && forall k :: 0 <= k < |steps| ==> !IsOutside(steps[k])
    ensures HarmlessRun(steps)
    ensures forall t :: t in After(Shared, steps).value.threads ==> !IsOutsidePc(After(Shared, steps).value.threads[t])
  {
    if steps != [] {
      var front := steps[..|steps| - 1];
      assert forall k :: 0 <= k <= |front| ==> front[..k] == steps[..k];
      UninterruptedIsHarmless(front);
      NoNewOutside(After(Shared, front).value, steps[|front|]);
    }
  }

  lemma NoNewOutside(s: State, step: Step)
    requires Enabled(Shared, s, step) && !IsOutside(step)
    requires forall t :: t in s.threads ==> !IsOutsidePc(s.threads[t])
    ensures var s' := Apply(Shared, s, step); forall t :: t in s'.threads ==> !IsOutsidePc(s'.threads[t])
  {
  }

  /** The agreement for every interleaving in which an Unschedule outside the lock is one step. */
  lemma CronAgreesWithMap(steps: seq<Step>, id: CanaryId)
    requires After(Shared, steps).Some? && forall k :: 0 <= k < |steps| ==> !IsOutside(steps[k])
    ensures var s := After(Shared, steps).value;
      |EntriesOf(s, id)| <= 1 && (LockFree(s, id) ==> EntriesOf(s, id) == KnownEntry(s, id))
  {
    UninterruptedIsHarmless(steps);
    NeverTwoEntries(steps, id);
  }

  // ---------------------------------------------------------------- what a call leaves behind

  /** Inside the lock, replacing and adding serve a canary that is to run, and what is stored is the job it asks for. */
  predicate AimOk(pc: Pc) {
    match pc
    case Unscheduling(_, request, _, next) => if next.Replace? then request.Wanted? else request.Unwanted?
    case RemovingEntry(_, request, _, next, _) => if next.Replace? then request.Wanted? else request.Unwanted?
    case DeletingJob(_, request, _, next) => if next.Replace? then request.Wanted? else request.Unwanted?
    case AddingEntry(_, request, _) => request.Wanted?
    case StoringJob(_, request, _, job) => request == Wanted(job.spec)
    case _ => true
  }

  ghost predicate Aimed(s: State) {
    forall t {:trigger s.threads[t]} :: t in s.threads ==> AimOk(s.threads[t])
  }

  /** A thread that unlocks without having failed has left what it was asked for. */
  ghost predicate Left(s: State, t: ThreadId) {
    var pc := PcOf(s, t);
    pc.Unlocking? && !pc.failed ==>
      match pc.request
      case Wanted(spec) => pc.id in s.jobs && s.jobs[pc.id].spec == spec
      case Unwanted => pc.id !in s.jobs
      case Unreadable => false
  }

  /** The step is one by which an Unschedule outside the lock deletes the canary's job from the map. */
  predicate Unschedules(s: State, step: Step, id: CanaryId) {
    step == UnscheduleAtOnce(id)
    || (step.OutsideGo? && PcOf(s, step.t).OutsideDeletingJob? && PcOf(s, step.t).id == id)
  }

  /** The thread is inside the lock, and if its canary is to run, the step does not unschedule it from outside. */
  ghost predicate Undisturbed(s: Option<State>, step: Step, t: ThreadId) {
    && s.Some? && InLock(PcOf(s.value, t))
    && (PcOf(s.value, t).request.Wanted? ==> !Unschedules(s.value, step, PcOf(s.value, t).id))
  }

  lemma {:induction false} RunKeepsAim(steps: seq<Step>)
    requires After(Shared, steps).Some?
    ensures LocksOk(After(Shared, steps).value) && Aimed(After(Shared, steps).value)
  {
    if steps != [] {
      var last := |steps| - 1;
      var s := After(Shared, steps[..last]).value;
      RunKeepsAim(steps[..last]);
      LocksKept(s, steps[last]);
      AimKept(s, steps[last]);
    }
  }

  lemma AimMove(s: State, s': State, t: ThreadId)
    requires Aimed(s) && s'.threads == s.threads[t := PcOf(s', t)] && AimOk(PcOf(s', t))
    ensures Aimed(s')
  {
  }

  lemma AimGo(s: State, t: ThreadId)
    requires InLock(PcOf(s, t)) && AimOk(PcOf(s, t))
    ensures AimOk(PcOf(ApplyGo(s, t), t))
    ensures ApplyGo(s, t).threads == s.threads[t := PcOf(ApplyGo(s, t), t)]
  {
  }

  lemma AimKept(s: State, step: Step)
    requires Aimed(s) && Enabled(Shared, s, step)
    ensures Aimed(Apply(Shared, s, step))
  {
    var s' := Apply(Shared, s, step);
    match step
    case Go(t) =>
      AimGo(s, t);
      AimMove(s, s', t);
    case UnscheduleAtOnce(id) =>
    case OutsideLoad(t, id) =>
      if id in s.jobs {
        AimMove(s, s', t);
      }
    case OutsideGo(t) => AimMove(s, s', t);
    case Call(t, _, _) => AimMove(s, s', t);
    case GetMutex(t) => AimMove(s, s', t);
    case Lock(t) => AimMove(s, s', t);
    case FailToAdd(t) => AimMove(s, s', t);
  }

  /** A thread outside this canary's lock does not give it a job, and takes one away only by an Unschedule. */
  lemma JobsOfOthers(s: State, step: Step, t: ThreadId)
    requires LocksOk(s) && Enabled(Shared, s, step) && InLock(PcOf(s, t))
    requires (step.Go? ==> step.t != t) && (step.FailToAdd? ==> step.t != t)
    ensures var s', id := Apply(Shared, s, step), PcOf(s, t).id;
      && PcOf(s', t) == PcOf(s, t)
      && (id in s'.jobs ==> id in s.jobs && s'.jobs[id] == s.jobs[id])
      && (id in s.jobs && !Unschedules(s, step, id) ==> id in s'.jobs)
  {
    assert ThreadOk(s, t, s.threads[t]);
    if step.Go? {
      assert ThreadOk(s, step.t, s.threads[step.t]);
    }
  }

  /** Once a call has left what it was asked for, only an Unschedule outside the lock can undo it before it unlocks. */
  lemma LeftKept(s: State, step: Step, t: ThreadId)
    requires LocksOk(s) && Aimed(s) && Enabled(Shared, s, step) && InLock(PcOf(s, t)) && Left(s, t)
    requires PcOf(s, t).request.Wanted? ==> !Unschedules(s, step, PcOf(s, t).id)
    ensures Left(Apply(Shared, s, step), t)
  {
    if (step.Go? || step.FailToAdd?) && step.t == t {
      assert AimOk(s.threads[t]);
    } else {
      JobsOfOthers(s, step, t);
    }
  }

  /**
   A call that unlocks without having failed leaves the canary with the job it asked for, or without one if it is not to
   run, unless an Unschedule outside the lock has deleted the job since the call took its decision.
   */
  lemma {:induction false} HolderLeavesRequested(steps: seq<Step>, d: nat, t: ThreadId)
    requires After(Shared, steps).Some? && d <= |steps|
    requires After(Shared, steps[..d]).Some? && PcOf(After(Shared, steps[..d]).value, t).Deciding?
    requires forall k {:trigger steps[k]} :: d <= k < |steps| ==> Undisturbed(After(Shared, steps[..k]), steps[k], t)
    ensures Left(After(Shared, steps).value, t)
  {
    if d == |steps| {
      assert steps[..d] == steps;
    } else {
      var last := |steps| - 1;
      var front := steps[..last];
      assert forall k :: 0 <= k <= last ==> front[..k] == steps[..k];
      forall k {:trigger front[k]} | d <= k < last
        ensures Undisturbed(After(Shared, front[..k]), front[k], t)
      {
        assert front[..k] == steps[..k] && front[k] == steps[k];
      }
      assert Undisturbed(After(Shared, steps[..last]), steps[last], t);
      HolderLeavesRequested(front, d, t);
      RunKeepsAim(front);
      LeftKept(After(Shared, front).value, steps[last], t);
    }
  }
}
