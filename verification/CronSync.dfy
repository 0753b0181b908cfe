/**
 Concurrent synchronisation of canaries with the cron scheduler, as a state machine over the steps of its threads.

 A call of SyncCanaryJob fetches the canary's mutex, locks it, reads the job map, and then removes or adds cron
 entries and map entries one at a time; any other thread may step in between. Unschedule is also called
 without the lock, from the sweep and from the controller: here either as one step, or as the three
 steps the code takes.
 */
module CronSync {
  import opened Common

  type CanaryId = nat
  type ThreadId = nat
  type EntryId = nat
  type MutexId = nat
  type Spec = nat

  /** A scheduled job: its cron entry and the spec it was created for. */
  datatype Job = Job(entry: EntryId, spec: Spec)

  /** What the canary asks for: nothing because it cannot be read, no schedule, or to run as specified. */
  datatype Request = Unreadable | Unwanted | Wanted(spec: Spec)

  /** What follows an Unschedule inside the lock. */
  datatype Then = Finish | Replace

  datatype Pc =
    | Idle
    | WantMutex(id: CanaryId, request: Request)
    | WantLock(id: CanaryId, request: Request, mutex: MutexId)
    | Deciding(id: CanaryId, request: Request, mutex: MutexId)
    | Unscheduling(id: CanaryId, request: Request, mutex: MutexId, next: Then)
    | RemovingEntry(id: CanaryId, request: Request, mutex: MutexId, next: Then, job: Job)
    | DeletingJob(id: CanaryId, request: Request, mutex: MutexId, next: Then)
    | AddingEntry(id: CanaryId, request: Request, mutex: MutexId)
    | StoringJob(id: CanaryId, request: Request, mutex: MutexId, job: Job)
    | Unlocking(id: CanaryId, request: Request, mutex: MutexId, failed: bool)
    | OutsideRemovingEntry(id: CanaryId, job: Job)
    | OutsideDeletingJob(id: CanaryId, job: Job)

  datatype State = State(
    cron: map<EntryId, CanaryId>,
    jobs: map<CanaryId, Job>,
    locks: map<CanaryId, MutexId>,
    holders: map<MutexId, ThreadId>,
    threads: map<ThreadId, Pc>,
    nextEntry: EntryId,
    nextMutex: MutexId)

  /** How a call obtains its mutex; only the first is what the code does. */
  datatype Locking = Shared | PrivateMutex | NoLock

  datatype Step =
    | Call(t: ThreadId, id: CanaryId, request: Request)
    | GetMutex(t: ThreadId)
    | Lock(t: ThreadId)
    | Go(t: ThreadId)                        // the next step inside the lock
    | FailToAdd(t: ThreadId)                 // the scheduler rejects the schedule
    | UnscheduleAtOnce(id: CanaryId)         // an Unschedule outside the lock, uninterrupted
    | OutsideLoad(t: ThreadId, id: CanaryId) // an Unschedule outside the lock, step by step
    | OutsideGo(t: ThreadId)

  const INITIAL := State(map[], map[], map[], map[], map[], 0, 0)

  function PcOf(s: State, t: ThreadId): Pc {
    if t in s.threads then s.threads[t] else Idle
  }

  function At(s: State, t: ThreadId, pc: Pc): State {
    s.(threads := s.threads[t := pc])
  }

  predicate InLock(pc: Pc) {
    || pc.Deciding? || pc.Unscheduling? || pc.RemovingEntry? || pc.DeletingJob?
    || pc.AddingEntry? || pc.StoringJob? || pc.Unlocking?
  }

  // ---------------------------------------------------------------- the steps

  predicate Enabled(locking: Locking, s: State, step: Step) {
    match step
    case Call(t, _, _) => PcOf(s, t).Idle?
    case GetMutex(t) => PcOf(s, t).WantMutex?
    case Lock(t) => PcOf(s, t).WantLock? && (locking.NoLock? || PcOf(s, t).mutex !in s.holders)
    case Go(t) => InLock(PcOf(s, t))
    case FailToAdd(t) => PcOf(s, t).AddingEntry?
    case UnscheduleAtOnce(_) => true
    case OutsideLoad(t, _) => PcOf(s, t).Idle?
    case OutsideGo(t) => PcOf(s, t).OutsideRemovingEntry? || PcOf(s, t).OutsideDeletingJob?
  }

  function Apply(locking: Locking, s: State, step: Step): State
    requires Enabled(locking, s, step)
  {
    match step
    case Call(t, id, request) => At(s, t, WantMutex(id, request))
    case GetMutex(t) => ApplyGetMutex(locking, s, t)
    case Lock(t) =>
      var pc := PcOf(s, t);
      At(s.(holders := s.holders[pc.mutex := t]), t, Deciding(pc.id, pc.request, pc.mutex))
    case Go(t) => ApplyGo(s, t)
    case FailToAdd(t) =>
      var pc := PcOf(s, t);
      At(s, t, Unlocking(pc.id, pc.request, pc.mutex, true))
    case UnscheduleAtOnce(id) =>
      if id in s.jobs then s.(cron := s.cron - {s.jobs[id].entry}, jobs := s.jobs - {id}) else s
    case OutsideLoad(t, id) =>
      if id in s.jobs then At(s, t, OutsideRemovingEntry(id, s.jobs[id])) else s
    case OutsideGo(t) =>
      var pc := PcOf(s, t);
      if pc.OutsideRemovingEntry? then At(s.(cron := s.cron - {pc.job.entry}), t, OutsideDeletingJob(pc.id, pc.job))
      else At(s.(jobs := s.jobs - {pc.id}), t, Idle)
  }

  /** LoadOrStore: the first caller's mutex is kept, and everyone uses it. */
  function ApplyGetMutex(locking: Locking, s: State, t: ThreadId): State
    requires PcOf(s, t).WantMutex?
  {
    var pc := PcOf(s, t);
    var mine := s.nextMutex;
    var next := s.(nextMutex := mine + 1);
    if locking.Shared? && pc.id in s.locks then At(next, t, WantLock(pc.id, pc.request, s.locks[pc.id]))
    else At(next.(locks := s.locks[pc.id := mine]), t, WantLock(pc.id, pc.request, mine))
  }

  function ApplyGo(s: State, t: ThreadId): State
    requires InLock(PcOf(s, t))
  {
    var pc := PcOf(s, t);
    match pc
    case Deciding(id, request, mutex) => At(s, t, Decide(s, id, request, mutex))
    case Unscheduling(id, request, mutex, next) =>
      if id in s.jobs then At(s, t, RemovingEntry(id, request, mutex, next, s.jobs[id]))
      else At(s, t, AfterUnschedule(id, request, mutex, next))
    case RemovingEntry(id, request, mutex, next, job) =>
      At(s.(cron := s.cron - {job.entry}), t, DeletingJob(id, request, mutex, next))
    case DeletingJob(id, request, mutex, next) =>
      At(s.(jobs := s.jobs - {id}), t, AfterUnschedule(id, request, mutex, next))
    case AddingEntry(id, request, mutex) =>
      var entry := s.nextEntry;
      var spec := if request.Wanted? then request.spec else 0;
      At(s.(cron := s.cron[entry := id], nextEntry := entry + 1), t, StoringJob(id, request, mutex, Job(entry, spec)))
    case StoringJob(id, request, mutex, job) =>
      At(s.(jobs := s.jobs[id := job]), t, Unlocking(id, request, mutex, false))
    case Unlocking(_, _, mutex, _) => At(s.(holders := s.holders - {mutex}), t, Idle)
  }

  function AfterUnschedule(id: CanaryId, request: Request, mutex: MutexId, next: Then): Pc {
    if next.Replace? then AddingEntry(id, request, mutex) else Unlocking(id, request, mutex, false)
  }

  /** What SyncCanaryJob does about a canary, given the job it finds in the map. */
  function Decide(s: State, id: CanaryId, request: Request, mutex: MutexId): Pc {
    match request
    case Unreadable => Unlocking(id, request, mutex, true)
    case Unwanted => Unscheduling(id, request, mutex, Finish)
    case Wanted(spec) =>
      if id !in s.jobs then AddingEntry(id, request, mutex)
      else if s.jobs[id].spec != spec then Unscheduling(id, request, mutex, Replace)
      else Unlocking(id, request, mutex, false)
  }

  /** The state after a run, if every step was possible. */
  function Continue(locking: Locking, s: State, steps: seq<Step>): Option<State> {
    if steps == [] then Some(s)
    else
      var before := Continue(locking, s, steps[..|steps| - 1]);
      var step := steps[|steps| - 1];
      if before.Some? && Enabled(locking, before.value, step) then Some(Apply(locking, before.value, step)) else None
  }

  function After(locking: Locking, steps: seq<Step>): Option<State> {
    Continue(locking, INITIAL, steps)
  }

  // ---------------------------------------------------------------- what is to be kept

  /** The cron entries that fire for a canary. */
  function EntriesOf(s: State, id: CanaryId): set<EntryId> {
    set e | e in s.cron && s.cron[e] == id
  }

  /** The cron entry that the job map knows for a canary. */
  function KnownEntry(s: State, id: CanaryId): set<EntryId> {
    if id in s.jobs then {s.jobs[id].entry} else {}
  }

  predicate LockFree(s: State, id: CanaryId) {
    id in s.locks ==> s.locks[id] !in s.holders
  }

  predicate IsOutside(step: Step) {
    step.OutsideLoad? || step.OutsideGo?
  }

  /**
   If the step is that of an Unschedule outside the lock which deletes the canary's job from the map, then the job is
   the one it has loaded, or has lost its cron entry already, or the thread inside the lock is about to remove that
   entry.
   */
  ghost predicate Harmless(s: State, step: Step) {
    step.OutsideGo? && PcOf(s, step.t).OutsideDeletingJob? ==>
      var pc := PcOf(s, step.t);
      pc.id in s.jobs ==>
        s.jobs[pc.id].entry == pc.job.entry || s.jobs[pc.id].entry !in s.cron || BeingUnscheduled(s, pc.id)
  }

  ghost predicate BeingUnscheduled(s: State, id: CanaryId) {
    exists t {:trigger s.threads[t]} :: t in s.threads && s.threads[t].RemovingEntry? && s.threads[t].id == id
  }

  /** The entries that a thread inside the canary's lock is about to remove or to store. */
  function InHand(s: State, id: CanaryId): set<EntryId> {
    set t | t in s.threads && (s.threads[t].RemovingEntry? || s.threads[t].StoringJob?) && s.threads[t].id == id ::
      s.threads[t].job.entry
  }

  /** No entry of the canary is orphaned: the job map or the thread inside the lock knows it. */
  ghost predicate Contained(s: State, id: CanaryId) {
    EntriesOf(s, id) <= KnownEntry(s, id) + InHand(s, id)
  }

  ghost predicate HarmlessRun(steps: seq<Step>) {
    forall k :: 0 <= k < |steps| && After(Shared, steps[..k]).Some? ==>
      Harmless(After(Shared, steps[..k]).value, steps[k])
  }

  /**
   Some interrupted Unschedule outside the lock has removed this entry and is about to delete its job from the map.
   */
  ghost predicate BeingDeleted(s: State, id: CanaryId, entry: EntryId) {
    exists t {:trigger s.threads[t]} :: t in s.threads && IsDeleting(s.threads[t], id, entry)
  }

  predicate IsDeleting(pc: Pc, id: CanaryId, entry: EntryId) {
    pc.OutsideDeletingJob? && pc.id == id && pc.job.entry == entry
  }

  // ---------------------------------------------------------------- the invariant: locks

  predicate UsesLock(pc: Pc) {
    pc.WantLock? || InLock(pc)
  }

  /** A thread that has fetched a mutex has fetched its canary's, and inside the lock it holds it. */
  ghost predicate ThreadOk(s: State, t: ThreadId, pc: Pc) {
    && (UsesLock(pc) ==> pc.id in s.locks && s.locks[pc.id] == pc.mutex)
    && (InLock(pc) ==> pc.mutex in s.holders && s.holders[pc.mutex] == t)
  }

  ghost predicate HolderOk(s: State, m: MutexId, t: ThreadId) {
    t in s.threads && InLock(s.threads[t]) && s.threads[t].mutex == m
  }

  ghost predicate LocksOk(s: State) {
    && (forall id :: id in s.locks ==> s.locks[id] < s.nextMutex)
    && (forall a, b :: a in s.locks && b in s.locks && a != b ==> s.locks[a] != s.locks[b])
    && (forall m :: m in s.holders ==> m < s.nextMutex)
    && (forall t {:trigger s.threads[t]} :: t in s.threads ==> ThreadOk(s, t, s.threads[t]))
    && (forall m {:trigger s.holders[m]} :: m in s.holders ==> HolderOk(s, m, s.holders[m]))
  }

  /** A thread moves without touching any lock. */
  lemma LocksMove(s: State, s': State, t: ThreadId, pc: Pc)
    requires LocksOk(s)
    requires s'.locks == s.locks && s'.holders == s.holders && s'.nextMutex == s.nextMutex
    requires s'.threads == s.threads[t := pc]
    requires UsesLock(pc) ==> UsesLock(PcOf(s, t)) && pc.id == PcOf(s, t).id && pc.mutex == PcOf(s, t).mutex
    requires InLock(pc) <==> InLock(PcOf(s, t))
    ensures LocksOk(s')
  {
  }

  lemma LocksFetched(s: State, t: ThreadId)
    requires LocksOk(s) && PcOf(s, t).WantMutex?
    ensures LocksOk(ApplyGetMutex(Shared, s, t))
  {
    var s' := ApplyGetMutex(Shared, s, t);
    forall u {:trigger s'.threads[u]} | u in s'.threads
      ensures ThreadOk(s', u, s'.threads[u])
    {
      assert u != t ==> ThreadOk(s, u, s.threads[u]);
    }
    forall m {:trigger s'.holders[m]} | m in s'.holders
      ensures HolderOk(s', m, s'.holders[m])
    {
      assert m in s.holders ==> HolderOk(s, m, s.holders[m]);
    }
  }

  lemma LocksTaken(s: State, t: ThreadId)
    requires LocksOk(s) && Enabled(Shared, s, Lock(t))
    ensures LocksOk(Apply(Shared, s, Lock(t)))
  {
  }

  lemma LocksReleased(s: State, t: ThreadId)
    requires LocksOk(s) && PcOf(s, t).Unlocking?
    ensures LocksOk(ApplyGo(s, t))
  {
    var s' := ApplyGo(s, t);
    assert ThreadOk(s, t, s.threads[t]);
    forall u {:trigger s'.threads[u]} | u in s'.threads
      ensures ThreadOk(s', u, s'.threads[u])
    {
      assert u != t ==> ThreadOk(s, u, s.threads[u]);
    }
    forall m {:trigger s'.holders[m]} | m in s'.holders
      ensures HolderOk(s', m, s'.holders[m])
    {
      assert m in s.holders ==> HolderOk(s, m, s.holders[m]);
    }
  }

  lemma LocksGo(s: State, t: ThreadId)
    requires LocksOk(s) && InLock(PcOf(s, t))
    ensures LocksOk(ApplyGo(s, t))
  {
    if PcOf(s, t).Unlocking? {
      LocksReleased(s, t);
    } else {
      var s' := ApplyGo(s, t);
      LocksMove(s, s', t, PcOf(s', t));
    }
  }

  lemma LocksKept(s: State, step: Step)
    requires LocksOk(s) && Enabled(Shared, s, step)
    ensures LocksOk(Apply(Shared, s, step))
  {
    var s' := Apply(Shared, s, step);
    match step
    case GetMutex(t) => LocksFetched(s, t);
    case Lock(t) => LocksTaken(s, t);
    case UnscheduleAtOnce(id) => LocksUntouched(s, s');
    case Go(t) => LocksGo(s, t);
    case OutsideLoad(t, id) =>
      if id in s.jobs {
        LocksMove(s, s', t, PcOf(s', t));
      }
    case Call(t, _, _) => LocksMove(s, s', t, PcOf(s', t));
    case FailToAdd(t) => LocksMove(s, s', t, PcOf(s', t));
    case OutsideGo(t) => LocksMove(s, s', t, PcOf(s', t));
  }

  lemma LocksUntouched(s: State, s': State)
    requires LocksOk(s)
    requires s'.locks == s.locks && s'.holders == s.holders && s'.nextMutex == s.nextMutex && s'.threads == s.threads
    ensures LocksOk(s')
  {
  }

  // ---------------------------------------------------------------- the invariant: entries

  predicate HasJob(pc: Pc) {
    pc.RemovingEntry? || pc.StoringJob? || IsOutsidePc(pc)
  }

  predicate IsOutsidePc(pc: Pc) {
    pc.OutsideRemovingEntry? || pc.OutsideDeletingJob?
  }

  /** An entry number has been used, and if cron still has it then for this canary. */
  ghost predicate EntryOk(s: State, id: CanaryId, entry: EntryId) {
    entry < s.nextEntry && (entry in s.cron ==> s.cron[entry] == id)
  }

  ghost predicate JobOk(s: State, pc: Pc) {
    && (HasJob(pc) ==> EntryOk(s, pc.id, pc.job.entry))
    && (pc.OutsideDeletingJob? ==> pc.job.entry !in s.cron)
  }

  /** A job that is still being stored is not known outside the lock. */
  ghost predicate Apart(storing: Pc, outside: Pc) {
    storing.StoringJob? && IsOutsidePc(outside) ==> storing.job.entry != outside.job.entry
  }

  ghost predicate EntriesOk(s: State) {
    && (forall e :: e in s.cron ==> e < s.nextEntry)
    && (forall id {:trigger s.jobs[id]} :: id in s.jobs ==> EntryOk(s, id, s.jobs[id].entry))
    && (forall t {:trigger s.threads[t]} :: t in s.threads ==> JobOk(s, s.threads[t]))
    && (forall t, u {:trigger s.threads[t], s.threads[u]} :: t in s.threads && u in s.threads ==>
         Apart(s.threads[t], s.threads[u]))
  }

  /**
   Cron has no entry for the canary that the map does not know; a known entry is missing only while it is being deleted.
   */
  ghost predicate Agree(s: State, id: CanaryId) {
    && EntriesOf(s, id) <= KnownEntry(s, id)
    && (id in s.jobs && EntriesOf(s, id) == {} ==> BeingDeleted(s, id, s.jobs[id].entry))
  }

  /** What holds of a canary while a thread is inside its lock. */
  ghost predicate Midway(s: State, pc: Pc)
    requires InLock(pc)
  {
    match pc
    case Deciding(id, _, _) => Agree(s, id)
    case Unscheduling(id, _, _, _) => Agree(s, id)
    case RemovingEntry(id, _, _, _, job) => EntriesOf(s, id) <= {job.entry} && (id in s.jobs ==> s.jobs[id] == job)
    case DeletingJob(id, _, _, _) => EntriesOf(s, id) == {}
    case AddingEntry(id, _, _) => EntriesOf(s, id) == {} && id !in s.jobs
    case StoringJob(id, _, _, job) => EntriesOf(s, id) == {job.entry} && id !in s.jobs
    case Unlocking(id, _, _, _) => Agree(s, id)
  }

  /** Inside its lock a canary is as the thread there left it; outside, cron and the job map agree on it. */
  ghost predicate CanaryOk(s: State, id: CanaryId) {
    && (LockFree(s, id) ==> Agree(s, id))
    && (forall t {:trigger s.threads[t]} :: t in s.threads && InLock(s.threads[t]) && s.threads[t].id == id ==>
         Midway(s, s.threads[t]))
  }

  ghost predicate Inv(s: State) {
    && LocksOk(s)
    && EntriesOk(s)
    && forall id {:trigger CanaryOk(s, id)} :: CanaryOk(s, id)
  }

  // ---------------------------------------------------------------- the invariant is kept

  ghost predicate SameCanary(s: State, s': State, id: CanaryId) {
    && EntriesOf(s', id) == EntriesOf(s, id)
    && (id in s'.jobs <==> id in s.jobs)
    && (id in s.jobs ==> s'.jobs[id] == s.jobs[id])
  }

  /** A deletion under way stays under way while its thread does not move. */
  lemma StillBeingDeleted(s: State, s': State, t: ThreadId, pc: Pc, id: CanaryId)
    requires s'.threads == s.threads[t := pc] && SameCanary(s, s', id) && Agree(s, id)
    requires PcOf(s, t).OutsideDeletingJob? ==> PcOf(s, t).id != id
    ensures Agree(s', id)
  {
    if id in s.jobs && EntriesOf(s, id) == {} {
      var u :| u in s.threads && IsDeleting(s.threads[u], id, s.jobs[id].entry);
      assert IsDeleting(s'.threads[u], id, s'.jobs[id].entry);
    }
  }

  /** A thread moves without touching what cron and the map say about this canary. */
  lemma CanaryMove(s: State, s': State, t: ThreadId, pc: Pc, id: CanaryId)
    requires CanaryOk(s, id) && SameCanary(s, s', id) && s'.threads == s.threads[t := pc]
    requires PcOf(s, t).OutsideDeletingJob? ==> PcOf(s, t).id != id
    requires LockFree(s', id) ==> LockFree(s, id) || Agree(s, id)
    requires InLock(pc) && pc.id == id ==> Midway(s', pc)
    ensures CanaryOk(s', id)
  {
    if Agree(s, id) {
      StillBeingDeleted(s, s', t, pc, id);
    }
    forall u {:trigger s'.threads[u]} | u in s'.threads && InLock(s'.threads[u]) && s'.threads[u].id == id
      ensures Midway(s', s'.threads[u])
    {
      if u != t {
        assert Midway(s, s.threads[u]);
      }
    }
  }

  /** The thread inside a canary's lock moves on, changing cron or the map for this canary only. */
  lemma CanaryOwned(s: State, s': State, t: ThreadId, pc: Pc, id: CanaryId)
    requires LocksOk(s) && InLock(PcOf(s, t)) && PcOf(s, t).id == id
    requires s'.threads == s.threads[t := pc] && s'.locks == s.locks && s'.holders == s.holders
    requires InLock(pc) && pc.id == id && Midway(s', pc)
    ensures CanaryOk(s', id)
  {
  }

  lemma RemovedEntry(s: State, s': State, entry: EntryId, id: CanaryId)
    requires s'.cron == s.cron - {entry}
    ensures EntriesOf(s', id) == EntriesOf(s, id) - {entry}
  {
  }

  /**
   Nothing is added to cron or the map, and the moving thread knows only a job that the map knew or it knew itself.
   */
  lemma EntriesMove(s: State, s': State, t: ThreadId, pc: Pc)
    requires EntriesOk(s)
    requires s'.threads == s.threads[t := pc] && s'.nextEntry == s.nextEntry
    requires s'.cron.Keys <= s.cron.Keys && forall e :: e in s'.cron ==> s'.cron[e] == s.cron[e]
    requires s'.jobs.Keys <= s.jobs.Keys && forall id :: id in s'.jobs ==> s'.jobs[id] == s.jobs[id]
    requires JobOk(s', pc) && !pc.StoringJob?
    requires IsOutsidePc(pc) ==> forall u {:trigger s.threads[u]} :: u in s.threads ==> Apart(s.threads[u], pc)
    ensures EntriesOk(s')
  {
  }

  lemma EntryAdded(s: State, t: ThreadId)
    requires EntriesOk(s) && PcOf(s, t).AddingEntry?
    ensures EntriesOk(ApplyGo(s, t))
  {
  }

  lemma JobStored(s: State, t: ThreadId)
    requires EntriesOk(s) && PcOf(s, t).StoringJob?
    ensures EntriesOk(ApplyGo(s, t))
  {
  }

  lemma EntriesGo(s: State, t: ThreadId)
    requires EntriesOk(s) && InLock(PcOf(s, t))
    ensures EntriesOk(ApplyGo(s, t))
  {
    var s', pc := ApplyGo(s, t), PcOf(s, t);
    assert JobOk(s, s.threads[t]);
    if pc.AddingEntry? {
      EntryAdded(s, t);
    } else if pc.StoringJob? {
      JobStored(s, t);
    } else {
      assert pc.id in s.jobs ==> EntryOk(s, pc.id, s.jobs[pc.id].entry);
      EntriesMove(s, s', t, PcOf(s', t));
    }
  }

  /** A job in the map is not one that is still being stored. */
  lemma KnownIsApart(s: State, id: CanaryId, u: ThreadId)
    requires Inv(s) && id in s.jobs && u in s.threads
    ensures Apart(s.threads[u], OutsideRemovingEntry(id, s.jobs[id]))
  {
    if s.threads[u].StoringJob? {
      var pc := s.threads[u];
      assert CanaryOk(s, pc.id) && Midway(s, pc);
      assert pc.job.entry in EntriesOf(s, pc.id);
      assert EntryOk(s, id, s.jobs[id].entry);
    }
  }

  lemma EntriesOutsideLoad(s: State, t: ThreadId, id: CanaryId)
    requires Inv(s) && Enabled(Shared, s, OutsideLoad(t, id)) && id in s.jobs
    ensures EntriesOk(Apply(Shared, s, OutsideLoad(t, id)))
  {
    var s' := Apply(Shared, s, OutsideLoad(t, id));
    assert EntryOk(s, id, s.jobs[id].entry);
    forall u {:trigger s.threads[u]} | u in s.threads
      ensures Apart(s.threads[u], PcOf(s', t))
    {
      KnownIsApart(s, id, u);
    }
    EntriesMove(s, s', t, PcOf(s', t));
  }

  lemma EntriesOutsideGo(s: State, t: ThreadId)
    requires EntriesOk(s) && Enabled(Shared, s, OutsideGo(t))
    ensures EntriesOk(Apply(Shared, s, OutsideGo(t)))
  {
  }

  lemma EntriesKept(s: State, step: Step)
    requires Inv(s) && Enabled(Shared, s, step)
    ensures EntriesOk(Apply(Shared, s, step))
  {
    var s' := Apply(Shared, s, step);
    match step
    case Go(t) => EntriesGo(s, t);
    case UnscheduleAtOnce(id) => EntriesAfterUnschedule(s, id);
    case OutsideLoad(t, id) =>
      if id in s.jobs {
        EntriesOutsideLoad(s, t, id);
      }
    case OutsideGo(t) => EntriesOutsideGo(s, t);
    case Call(t, _, _) => EntriesMove(s, s', t, PcOf(s', t));
    case GetMutex(t) => EntriesMove(s, s', t, PcOf(s', t));
    case Lock(t) => EntriesMove(s, s', t, PcOf(s', t));
    case FailToAdd(t) => EntriesMove(s, s', t, PcOf(s', t));
  }

  lemma EntriesAfterUnschedule(s: State, id: CanaryId)
    requires EntriesOk(s)
    ensures EntriesOk(Apply(Shared, s, UnscheduleAtOnce(id)))
  {
  }

  // one lemma for each way in which a step can touch a canary

  lemma CanaryAfterGo(s: State, t: ThreadId, id: CanaryId)
    requires Inv(s) && InLock(PcOf(s, t))
    ensures CanaryOk(ApplyGo(s, t), id)
  {
    var s', pc := ApplyGo(s, t), PcOf(s, t);
    assert CanaryOk(s, pc.id) && CanaryOk(s, id) && Midway(s, s.threads[t]) && ThreadOk(s, t, s.threads[t]);
    assert JobOk(s, s.threads[t]);
    if pc.id != id {
      OtherCanary(s, s', t, id);
    } else {
      match pc
      case Deciding(_, _, _) =>
        StillBeingDeleted(s, s', t, PcOf(s', t), id);
        CanaryMove(s, s', t, PcOf(s', t), id);
      case Unscheduling(_, _, _, _) =>
        StillBeingDeleted(s, s', t, PcOf(s', t), id);
        CanaryMove(s, s', t, PcOf(s', t), id);
      case RemovingEntry(_, _, _, _, job) =>
        RemovedEntry(s, s', job.entry, id);
        CanaryOwned(s, s', t, PcOf(s', t), id);
      case DeletingJob(_, _, _, _) => CanaryOwned(s, s', t, PcOf(s', t), id);
      case AddingEntry(_, _, _) => CanaryOwned(s, s', t, PcOf(s', t), id);
      case StoringJob(_, _, _, _) => CanaryOwned(s, s', t, PcOf(s', t), id);
      case Unlocking(_, _, _, _) => CanaryMove(s, s', t, Idle, id);
    }
  }

  /** A step inside one canary's lock leaves the other canaries alone. */
  lemma OtherCanary(s: State, s': State, t: ThreadId, id: CanaryId)
    requires Inv(s) && InLock(PcOf(s, t)) && PcOf(s, t).id != id && s' == ApplyGo(s, t)
    ensures CanaryOk(s', id)
  {
    OtherEntries(s, t, id);
    OtherLock(s, t, id);
    assert CanaryOk(s, id);
    CanaryMove(s, s', t, PcOf(s', t), id);
  }

  lemma OtherEntries(s: State, t: ThreadId, id: CanaryId)
    requires EntriesOk(s) && InLock(PcOf(s, t)) && PcOf(s, t).id != id
    ensures SameCanary(s, ApplyGo(s, t), id)
  {
  }

  lemma OtherLock(s: State, t: ThreadId, id: CanaryId)
    requires LocksOk(s) && InLock(PcOf(s, t)) && PcOf(s, t).id != id
    ensures LockFree(ApplyGo(s, t), id) ==> LockFree(s, id)
    ensures InLock(PcOf(ApplyGo(s, t), t)) ==> PcOf(ApplyGo(s, t), t).id != id
    ensures ApplyGo(s, t).threads == s.threads[t := PcOf(ApplyGo(s, t), t)]
  {
  }

  /** With every entry of a canary gone from cron and no job in the map, everything about it is in order. */
  lemma CanaryCleared(s: State, s': State, id: CanaryId)
    requires CanaryOk(s, id) && id in s.jobs && id !in s'.jobs && EntriesOf(s', id) == {}
    requires forall u {:trigger s'.threads[u]} :: u in s'.threads && InLock(s'.threads[u]) ==>
      u in s.threads && s.threads[u] == s'.threads[u]
    ensures CanaryOk(s', id)
  {
  }

  /** The job is gone from the map while the thread inside the lock is about to remove its entry. */
  lemma CanaryInHand(s: State, s': State, t: ThreadId, u: ThreadId, id: CanaryId)
    requires LocksOk(s) && CanaryOk(s, id) && id !in s'.jobs && EntriesOf(s', id) == EntriesOf(s, id)
    requires s'.locks == s.locks && s'.holders == s.holders && s'.threads == s.threads[t := Idle] && !InLock(PcOf(s, t))
    requires u in s.threads && s.threads[u].RemovingEntry? && s.threads[u].id == id
    ensures CanaryOk(s', id)
  {
    assert ThreadOk(s, u, s.threads[u]) && Midway(s, s.threads[u]);
    forall v {:trigger s'.threads[v]} | v in s'.threads && InLock(s'.threads[v]) && s'.threads[v].id == id
      ensures v == u
    {
      assert v != t && ThreadOk(s, v, s.threads[v]);
    }
  }

  /** Nothing but other canaries has changed. */
  lemma CanaryUntouched(s: State, s': State, id: CanaryId)
    requires CanaryOk(s, id) && SameCanary(s, s', id)
    requires s'.threads == s.threads && s'.locks == s.locks && s'.holders == s.holders
    ensures CanaryOk(s', id)
  {
  }

  /** The entries of a canary that the map knows are that one entry at most, wherever the lock holder is. */
  lemma AtMostKnown(s: State, id: CanaryId)
    requires LocksOk(s) && CanaryOk(s, id)
    ensures |EntriesOf(s, id)| <= 1
    ensures id in s.jobs ==> EntriesOf(s, id) <= {s.jobs[id].entry}
  {
    var bound := KnownEntry(s, id);
    if !LockFree(s, id) {
      var m := s.locks[id];
      var t := s.holders[m];
      assert HolderOk(s, m, t) && ThreadOk(s, t, s.threads[t]);
      assert Midway(s, s.threads[t]);
      if s.threads[t].StoringJob? || s.threads[t].RemovingEntry? {
        bound := {s.threads[t].job.entry};
      }
    }
    SubsetCardinality(EntriesOf(s, id), bound);
  }

  lemma CanaryAfterUnschedule(s: State, unscheduled: CanaryId, id: CanaryId)
    requires Inv(s)
    ensures CanaryOk(Apply(Shared, s, UnscheduleAtOnce(unscheduled)), id)
  {
    var s' := Apply(Shared, s, UnscheduleAtOnce(unscheduled));
    assert CanaryOk(s, id);
    if unscheduled in s.jobs {
      assert EntryOk(s, unscheduled, s.jobs[unscheduled].entry);
      RemovedEntry(s, s', s.jobs[unscheduled].entry, id);
      if id == unscheduled {
        AtMostKnown(s, id);
        CanaryCleared(s, s', id);
      } else {
        CanaryUntouched(s, s', id);
      }
    }
  }

  lemma CanaryAfterOutsideGo(s: State, t: ThreadId, id: CanaryId)
    requires Inv(s) && Enabled(Shared, s, OutsideGo(t)) && Harmless(s, OutsideGo(t))
    ensures CanaryOk(Apply(Shared, s, OutsideGo(t)), id)
  {
    var s', pc := Apply(Shared, s, OutsideGo(t)), PcOf(s, t);
    assert CanaryOk(s, id) && CanaryOk(s, pc.id) && JobOk(s, s.threads[t]);
    if pc.OutsideRemovingEntry? {
      RemovedEntry(s, s', pc.job.entry, id);
      if id == pc.id {
        CanaryLosesEntry(s, s', t, id);
      } else {
        CanaryMove(s, s', t, PcOf(s', t), id);
      }
    } else if id == pc.id && id in s.jobs {
      CanaryLosesJob(s, s', t, id);
    } else if id == pc.id {
      CanaryHasNoJob(s, s', t, id);
    } else {
      CanaryMove(s, s', t, Idle, id);
    }
  }

  /** Outside the lock, the job goes from the map, and with its entry gone or about to go everything stays in order. */
  lemma CanaryLosesJob(s: State, s': State, t: ThreadId, id: CanaryId)
    requires Inv(s) && PcOf(s, t).OutsideDeletingJob? && PcOf(s, t).id == id && id in s.jobs
    requires s' == Apply(Shared, s, OutsideGo(t)) && Harmless(s, OutsideGo(t))
    ensures CanaryOk(s', id)
  {
    assert CanaryOk(s, id) && JobOk(s, s.threads[t]);
    AtMostKnown(s, id);
    if s.jobs[id].entry in s.cron {
      var u :| u in s.threads && s.threads[u].RemovingEntry? && s.threads[u].id == id;
      CanaryInHand(s, s', t, u, id);
    } else {
      CanaryCleared(s, s', id);
    }
  }

  /** Outside the lock, the entry of a loaded job goes; if the map still has that job, it is now being deleted. */
  lemma CanaryLosesEntry(s: State, s': State, t: ThreadId, id: CanaryId)
    requires Inv(s) && PcOf(s, t).OutsideRemovingEntry? && PcOf(s, t).id == id
    requires s' == Apply(Shared, s, OutsideGo(t))
    requires EntriesOf(s', id) == EntriesOf(s, id) - {PcOf(s, t).job.entry}
    ensures CanaryOk(s', id)
  {
    assert CanaryOk(s, id);
    assert IsDeleting(s'.threads[t], id, PcOf(s, t).job.entry);
    if Agree(s, id) {
      AgreeAfterLoss(s, s', t, id);
    }
    forall u {:trigger s'.threads[u]} | u in s'.threads && InLock(s'.threads[u]) && s'.threads[u].id == id
      ensures Midway(s', s'.threads[u])
    {
      assert Midway(s, s.threads[u]) && Apart(s.threads[u], s.threads[t]);
    }
  }

  lemma AgreeAfterLoss(s: State, s': State, t: ThreadId, id: CanaryId)
    requires Agree(s, id) && PcOf(s, t).OutsideRemovingEntry? && PcOf(s, t).id == id
    requires s' == Apply(Shared, s, OutsideGo(t))
    requires EntriesOf(s', id) == EntriesOf(s, id) - {PcOf(s, t).job.entry}
    ensures Agree(s', id)
  {
    if id in s.jobs && EntriesOf(s', id) == {} {
      if EntriesOf(s, id) == {} {
        var u :| u in s.threads && IsDeleting(s.threads[u], id, s.jobs[id].entry);
        assert IsDeleting(s'.threads[u], id, s.jobs[id].entry);
      } else {
        assert IsDeleting(s'.threads[t], id, s.jobs[id].entry);
      }
    }
  }

  lemma CanaryHasNoJob(s: State, s': State, t: ThreadId, id: CanaryId)
    requires CanaryOk(s, id) && PcOf(s, t).OutsideDeletingJob? && id !in s.jobs
    requires s' == Apply(Shared, s, OutsideGo(t)) && PcOf(s, t).id == id
    ensures CanaryOk(s', id)
  {
  }

  lemma CanaryKept(s: State, step: Step, id: CanaryId)
    requires Inv(s) && Enabled(Shared, s, step) && Harmless(s, step)
    ensures CanaryOk(Apply(Shared, s, step), id)
  {
    var s' := Apply(Shared, s, step);
    assert CanaryOk(s, id);
    match step
    case Go(t) => CanaryAfterGo(s, t, id);
    case UnscheduleAtOnce(unscheduled) => CanaryAfterUnschedule(s, unscheduled, id);
    case OutsideGo(t) => CanaryAfterOutsideGo(s, t, id);
    case Lock(t) => CanaryAfterLock(s, t, id);
    case FailToAdd(t) => CanaryAfterFailure(s, t, id);
    case Call(t, _, _) => CanaryMove(s, s', t, PcOf(s', t), id);
    case GetMutex(t) => CanaryAfterFetch(s, t, id);
    case OutsideLoad(t, loaded) =>
      if loaded in s.jobs {
        CanaryMove(s, s', t, PcOf(s', t), id);
      }
  }

  lemma CanaryAfterFailure(s: State, t: ThreadId, id: CanaryId)
    requires Inv(s) && Enabled(Shared, s, FailToAdd(t))
    ensures CanaryOk(Apply(Shared, s, FailToAdd(t)), id)
  {
    var s' := Apply(Shared, s, FailToAdd(t));
    assert CanaryOk(s, id);
    if Agree(s, id) {
      StillBeingDeleted(s, s', t, PcOf(s', t), id);
    }
    assert PcOf(s, t).id == id ==> Midway(s, s.threads[t]);
    CanaryMove(s, s', t, PcOf(s', t), id);
  }

  lemma CanaryAfterFetch(s: State, t: ThreadId, id: CanaryId)
    requires Inv(s) && Enabled(Shared, s, GetMutex(t))
    ensures CanaryOk(Apply(Shared, s, GetMutex(t)), id)
  {
    var s' := Apply(Shared, s, GetMutex(t));
    assert CanaryOk(s, id);
    CanaryMove(s, s', t, PcOf(s', t), id);
  }

  lemma CanaryAfterLock(s: State, t: ThreadId, id: CanaryId)
    requires Inv(s) && Enabled(Shared, s, Lock(t))
    ensures CanaryOk(Apply(Shared, s, Lock(t)), id)
  {
    var s', pc := Apply(Shared, s, Lock(t)), PcOf(s, t);
    assert CanaryOk(s, id) && ThreadOk(s, t, s.threads[t]);
    if pc.id == id {
      StillBeingDeleted(s, s', t, PcOf(s', t), id);
    }
    CanaryMove(s, s', t, PcOf(s', t), id);
  }

  /** Every step of every thread keeps the invariant, as long as no Unschedule deletes a job it has not loaded. */
  lemma StepKeepsInv(s: State, step: Step)
    requires Inv(s) && Enabled(Shared, s, step) && Harmless(s, step)
    ensures Inv(Apply(Shared, s, step))
  {
    var s' := Apply(Shared, s, step);
    LocksKept(s, step);
    EntriesKept(s, step);
    forall id {:trigger CanaryOk(s', id)}
      ensures CanaryOk(s', id)
    {
      CanaryKept(s, step, id);
    }
  }

  /** A state in order has no orphaned entries. */
  lemma InvContains(s: State, id: CanaryId)
    requires LocksOk(s) && CanaryOk(s, id)
    ensures Contained(s, id)
  {
    if !LockFree(s, id) {
      var m := s.locks[id];
      var t := s.holders[m];
      assert HolderOk(s, m, t) && ThreadOk(s, t, s.threads[t]);
      assert Midway(s, s.threads[t]);
      if s.threads[t].StoringJob? || s.threads[t].RemovingEntry? {
        assert s.threads[t].job.entry in InHand(s, id);
      }
    }
  }

  /**
   The guard is exact: from a state in order, a step that is not harmless orphans an entry, whatever the thread inside
   the lock, if there is one, is doing. If the lock is free, cron then has an entry that the map does not know.
   */
  lemma HarmOrphans(s: State, step: Step)
    requires Inv(s) && Enabled(Shared, s, step) && !Harmless(s, step)
    ensures var s', id := Apply(Shared, s, step), PcOf(s, step.t).id;
      !Contained(s', id) && !(EntriesOf(s', id) <= KnownEntry(s', id))
  {
    var s', pc := Apply(Shared, s, step), PcOf(s, step.t);
    var entry := s.jobs[pc.id].entry;
    assert EntryOk(s, pc.id, entry) && CanaryOk(s, pc.id);
    assert entry in EntriesOf(s', pc.id);
  }

  /** A step keeps everything in order exactly if it is harmless. */
  lemma StepOrphansNothing(s: State, step: Step)
    requires Inv(s) && Enabled(Shared, s, step)
    ensures Harmless(s, step) <==> forall id :: Contained(Apply(Shared, s, step), id)
    ensures Harmless(s, step) ==> Inv(Apply(Shared, s, step))
  {
    var s' := Apply(Shared, s, step);
    if Harmless(s, step) {
      StepKeepsInv(s, step);
      forall id
        ensures Contained(s', id)
      {
        assert CanaryOk(s', id);
        InvContains(s', id);
      }
    } else {
      HarmOrphans(s, step);
    }
  }

  /**
   The weakest reading, outside the lock: when it is free, the map knows every entry exactly if the step was harmless.
   */
  lemma FreeLockExact(s: State, t: ThreadId)
    requires Inv(s) && PcOf(s, t).OutsideDeletingJob? && LockFree(s, PcOf(s, t).id)
    ensures var s', id := Apply(Shared, s, OutsideGo(t)), PcOf(s, t).id;
      EntriesOf(s', id) <= KnownEntry(s', id) <==> Harmless(s, OutsideGo(t))
  {
    if Harmless(s, OutsideGo(t)) {
      StepKeepsInv(s, OutsideGo(t));
      assert CanaryOk(Apply(Shared, s, OutsideGo(t)), PcOf(s, t).id);
    } else {
      HarmOrphans(s, OutsideGo(t));
    }
  }
}
