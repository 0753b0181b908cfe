/**
 The periodic sweep over all canaries, without interference: every fetched canary is synchronised, and whatever cron
 still runs for a canary that was not fetched is unscheduled.
 */
module CronSweep {
  import opened Common
  import opened CronSync
  import opened CronSchedule

  /** Cron and the job map agree entry for entry. */
  ghost predicate Consistent(x: Schedule) {
    && (forall e :: e in x.cron ==> e < x.nextEntry && x.cron[e] in x.jobs && x.jobs[x.cron[e]].entry == e)
    && (forall id :: id in x.jobs ==> x.jobs[id].entry in x.cron && x.cron[x.jobs[id].entry] == id)
  }

  function SpecOf(x: Schedule, id: CanaryId): Option<Spec> {
    if id in x.jobs then Some(x.jobs[id].spec) else None
  }

  /** What a canary should be running once it has been synchronised. */
  function SpecAfter(running: Option<Spec>, request: Request, rejected: bool): Option<Spec> {
    match request
    case Unreadable => running
    case Unwanted => None
    case Wanted(spec) => if running == Some(spec) then running else if rejected then None else Some(spec)
  }

  lemma SyncedIsRight(x: Schedule, id: CanaryId, request: Request, rejected: bool)
    requires Consistent(x)
    ensures var y := Synced(x, id, request, rejected);
      && Consistent(y)
      && SpecOf(y, id) == SpecAfter(SpecOf(x, id), request, rejected)
      && forall other :: other != id ==> SpecOf(y, other) == SpecOf(x, other)
  {
  }

  /** What that means for the two maps. */
  lemma SyncedInFields(x: Schedule, id: CanaryId, request: Request, rejected: bool)
    requires Consistent(x)
    ensures var y := Synced(x, id, request, rejected);
      && (request.Unreadable? ==> y == x)
      && (request.Unwanted? ==> id !in y.jobs && forall e :: e in y.cron ==> y.cron[e] != id)
      && (request.Wanted? && id in x.jobs && x.jobs[id].spec == request.spec ==> y == x)
      && (request.Wanted? && !rejected ==>
            id in y.jobs && y.jobs[id].spec == request.spec && y.cron[y.jobs[id].entry] == id)
      && (request.Wanted? && rejected && !(id in x.jobs && x.jobs[id].spec == request.spec) ==> id !in y.jobs)
      && y.jobs - {id} == x.jobs - {id}
      && forall e :: (e in x.cron && x.cron[e] != id) || (e in y.cron && y.cron[e] != id) ==>
           e in x.cron && e in y.cron && x.cron[e] == y.cron[e]
  {
    SyncedIsRight(x, id, request, rejected);
  }

  /**
   A canary that was running ends without a job exactly if it is not wanted, or another spec is wanted and rejected.
   */
  lemma LeftWithoutJob(x: Schedule, id: CanaryId, request: Request, rejected: bool)
    requires Consistent(x) && id in x.jobs
    ensures SpecOf(Synced(x, id, request, rejected), id) == None <==>
      request.Unwanted? || (request.Wanted? && rejected && request.spec != x.jobs[id].spec)
  {
    SyncedIsRight(x, id, request, rejected);
  }

  /** A canary is running, is to run on another schedule, and that is rejected: nothing is left of it. */
  lemma RejectedScheduleStopsCanary(id: CanaryId, running: Spec, wanted: Spec)
    requires wanted != running
    ensures Synced(Schedule(map[0 := id], map[id := Job(0, running)], 1), id, Wanted(wanted), true)
         == Schedule(map[], map[], 1)
  {
    assert map[0 := id] - {0} == map[] && map[id := Job(0, running)] - {id} == map[];
  }

  ghost predicate NotFetched(fetched: seq<(CanaryId, Request)>, id: CanaryId) {
    forall k :: 0 <= k < |fetched| ==> fetched[k].0 != id
  }

  /** What a sweep leaves, in terms of the job map before and after. */
  ghost predicate RunsAsFetched(
    x: Schedule, y: Schedule, fetched: seq<(CanaryId, Request)>, rejected: nat -> bool)
  {
    && (forall k :: 0 <= k < |fetched| && fetched[k].1.Unreadable? ==>
          (fetched[k].0 in y.jobs <==> fetched[k].0 in x.jobs)
          && (fetched[k].0 in y.jobs ==> y.jobs[fetched[k].0].spec == x.jobs[fetched[k].0].spec))
    && (forall k :: 0 <= k < |fetched| && fetched[k].1.Unwanted? ==> fetched[k].0 !in y.jobs)
    && (forall k :: 0 <= k < |fetched| && fetched[k].1.Wanted? ==>
          (fetched[k].0 in y.jobs <==>
             !rejected(k) || (fetched[k].0 in x.jobs && x.jobs[fetched[k].0].spec == fetched[k].1.spec))
          && (fetched[k].0 in y.jobs ==> y.jobs[fetched[k].0].spec == fetched[k].1.spec))
    && (forall id :: id in y.jobs ==> exists k :: 0 <= k < |fetched| && fetched[k].0 == id)
  }

  lemma SweptInFields(x: Schedule, y: Schedule, fetched: seq<(CanaryId, Request)>, rejected: nat -> bool)
    requires forall k :: 0 <= k < |fetched| ==>
      SpecOf(y, fetched[k].0) == SpecAfter(SpecOf(x, fetched[k].0), fetched[k].1, rejected(k))
    requires forall id | NotFetched(fetched, id) :: SpecOf(y, id) == None
    ensures RunsAsFetched(x, y, fetched, rejected)
  {
    forall id | id in y.jobs
      ensures exists k :: 0 <= k < |fetched| && fetched[k].0 == id
    {
      assert SpecOf(y, id) != None;
      assert !NotFetched(fetched, id);
    }
  }

  class CanaryScheduler {
    var cron: map<EntryId, CanaryId>
    var canaryJobs: map<CanaryId, Job>
    var nextEntry: EntryId

    constructor ()
      ensures Abstract() == Schedule(map[], map[], 0)
    {
      cron, canaryJobs, nextEntry := map[], map[], 0;
    }

    ghost function Abstract(): Schedule
      reads this
    {
      Schedule(cron, canaryJobs, nextEntry)
    }

    method Unschedule(id: CanaryId)
      modifies this
      ensures Abstract() == Unscheduled(old(Abstract()), id)
      ensures canaryJobs == old(canaryJobs) - {id} && nextEntry == old(nextEntry)
      ensures cron == if id in old(canaryJobs) then old(cron) - {old(canaryJobs)[id].entry} else old(cron)
    {
      if id in canaryJobs {
        cron := cron - {canaryJobs[id].entry};
        canaryJobs := canaryJobs - {id};
      }
    }

    method NewCanaryJob(id: CanaryId, spec: Spec, rejected: bool) returns (ok: bool)
      modifies this
      ensures ok == !rejected
      ensures Abstract() == Added(old(Abstract()), id, spec, rejected)
      ensures !ok ==> cron == old(cron) && canaryJobs == old(canaryJobs)
      ensures ok ==> id in canaryJobs && canaryJobs == old(canaryJobs)[id := canaryJobs[id]]
                     && canaryJobs[id].spec == spec && cron == old(cron)[canaryJobs[id].entry := id]
                     && canaryJobs[id].entry == old(nextEntry) < nextEntry
    {
      if rejected {
        return false;
      }
      var job := Job(nextEntry, spec);
      cron := cron[nextEntry := id];
      nextEntry := nextEntry + 1;
      canaryJobs := canaryJobs[id := job];
      ok := true;
    }

    method SyncCanaryJob(id: CanaryId, request: Request, rejected: bool) returns (ok: bool)
      modifies this
      ensures Abstract() == Synced(old(Abstract()), id, request, rejected)
      ensures ok <==> match request
        case Unreadable => false
        case Unwanted => true
        case Wanted(spec) => !rejected || SpecOf(old(Abstract()), id) == Some(spec)
    {
      match request
      case Unreadable => ok := false;
      case Unwanted =>
        Unschedule(id);
        ok := true;
      case Wanted(spec) =>
        if id !in canaryJobs {
          ok := NewCanaryJob(id, spec, rejected);
        } else if canaryJobs[id].spec != spec {
          Unschedule(id);
          ok := NewCanaryJob(id, spec, rejected);
        } else {
          ok := true;
        }
    }

    /** The canaries that cron has entries for, in the arbitrary order of its entries. */
    method GetAllCanaryIDsInCron() returns (ids: seq<CanaryId>)
      ensures forall id :: id in ids <==> exists e :: e in cron && cron[e] == id
    {
      ids := [];
      var rest := cron.Keys;
      while rest != {}
        invariant rest <= cron.Keys
        invariant forall id :: id in ids <==> exists e :: e in cron && e !in rest && cron[e] == id
      {
        var e :| e in rest;
        ghost var before := ids;
        ids := ids + [cron[e]];
        rest := rest - {e};
        assert forall id :: id in ids <==> id in before || id == cron[e];
      }
    }

    /**
     One sweep. A canary that was fetched runs what it asks for, whatever was running before; one that was not
     fetched runs nothing; and cron and the job map still agree.
     */
    method SyncCanaryJobs(fetched: seq<(CanaryId, Request)>, rejected: nat -> bool)
      requires Consistent(Abstract())
      requires forall i, j :: 0 <= i < j < |fetched| ==> fetched[i].0 != fetched[j].0
      modifies this
      ensures Consistent(Abstract())
      ensures forall k :: 0 <= k < |fetched| ==>
        SpecOf(Abstract(), fetched[k].0) == SpecAfter(SpecOf(old(Abstract()), fetched[k].0), fetched[k].1, rejected(k))
      ensures forall id | NotFetched(fetched, id) :: SpecOf(Abstract(), id) == None
      ensures RunsAsFetched(old(Abstract()), Abstract(), fetched, rejected)
    {
      var existing := GetAllCanaryIDsInCron();
      var inFetch: seq<CanaryId> := [];
      for i := 0 to |fetched|
        invariant Consistent(Abstract())
        invariant |inFetch| == i && forall k :: 0 <= k < i ==> inFetch[k] == fetched[k].0
        invariant forall k :: 0 <= k < |fetched| ==>
          SpecOf(Abstract(), fetched[k].0)
          == if k < i then SpecAfter(SpecOf(old(Abstract()), fetched[k].0), fetched[k].1, rejected(k))
             else SpecOf(old(Abstract()), fetched[k].0)
        invariant forall id | NotFetched(fetched, id) :: SpecOf(Abstract(), id) == SpecOf(old(Abstract()), id)
      {
        inFetch := inFetch + [fetched[i].0];
        SyncedIsRight(Abstract(), fetched[i].0, fetched[i].1, rejected(i));
        var ok := SyncCanaryJob(fetched[i].0, fetched[i].1, rejected(i));
      }
      var toRemove := SetDifference(existing, inFetch);
      UnscheduleAll(toRemove);
      assert forall k :: 0 <= k < |fetched| ==> fetched[k].0 in inFetch;
      forall id | NotFetched(fetched, id)
        ensures SpecOf(Abstract(), id) == None
      {
        assert id !in inFetch;
        if SpecOf(old(Abstract()), id) != None {
          assert id in existing && id in toRemove;
        }
      }
      SweptInFields(old(Abstract()), Abstract(), fetched, rejected);
    }

    method UnscheduleAll(ids: seq<CanaryId>)
      requires Consistent(Abstract())
      modifies this
      ensures Consistent(Abstract())
      ensures forall id :: SpecOf(Abstract(), id) == if id in ids then None else SpecOf(old(Abstract()), id)
    {
      for i := 0 to |ids|
        invariant Consistent(Abstract())
        invariant forall id :: SpecOf(Abstract(), id) == if id in ids[..i] then None else SpecOf(old(Abstract()), id)
      {
        SyncedIsRight(Abstract(), ids[i], Unwanted, false);
        TakeNext(ids, i);
        Unschedule(ids[i]);
      }
      assert ids[..|ids|] == ids;
    }
  }
}
