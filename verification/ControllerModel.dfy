/**
  The controller as a state machine: every handler is one step. Whether a handler could read the
  stage dependencies is part of its event.

  `leaked` and `used` are bookkeeping of the model. `leaked` is what was charged to a worker and
  will not be released by the end of any group; `used` is every group id handed out so far.
 */
module ControllerModel {
  import opened Common
  import opened Dag
  import opened JobGroups
  import opened Ledger

  // What does not change: the dependency maps, the id hash, and the number of group ids.
  datatype Env = Env(stageDeps: map<RepoId, Deps>, hash: JobId -> JobId, idSpace: nat)

  datatype System = System(groups: map<GroupId, Group>, jobs: map<GroupId, seq<Job>>, workers: map<WorkerId, Worker>,
                           leaked: map<WorkerId, Resources>, used: set<GroupId>)

  function DepsOf(env: Env, repo: RepoId): Deps {
    if repo in env.stageDeps then env.stageDeps[repo] else map[]
  }

  // The dependencies as a handler sees them: a failed read looks like an empty map.
  function DepsSeen(env: Env, repo: RepoId, depsRead: bool): Deps {
    if depsRead then DepsOf(env, repo) else map[]
  }

  function Active(groups: map<GroupId, Group>): set<GroupId> {
    set g | g in groups && !IsTerminal(groups[g].state)
  }

  function JobsOf(s: System, gid: GroupId): seq<Job> {
    if gid in s.jobs then s.jobs[gid] else []
  }

  // ---------- Which groups the background tasks pick ----------

  predicate HasPending(jobs: seq<Job>) {
    AnyInState(jobs, JobState.Queued) || AnyInState(jobs, JobState.Assigned)
  }

  predicate HasRunning(jobs: seq<Job>) {
    AnyInState(jobs, JobState.Running) || AnyInState(jobs, JobState.Assigned)
  }

  // Groups of a dead worker with nothing left to start; the others wait for a migration.
  function Doomed(s: System, w: WorkerId): set<GroupId> {
    set g | g in Active(s.groups) && s.groups[g].worker == w && !HasPending(JobsOf(s, g))
  }

  predicate IsStale(g: Group, jobs: seq<Job>, now: nat, idleTimeout: nat, stallTimeout: nat) {
    match g.state
    case Reserved => SaturatingMinus(now, g.lastActivityAt) > idleTimeout
    case Running => !HasRunning(jobs) && SaturatingMinus(now, g.lastActivityAt) > stallTimeout
    case _ => false
  }

  function Stale(s: System, now: nat, idleTimeout: nat, stallTimeout: nat): set<GroupId> {
    set g | g in Active(s.groups) && IsStale(s.groups[g], JobsOf(s, g), now, idleTimeout, stallTimeout)
  }

  const FOUR_HOURS: nat := 4 * 3600

  function Stuck(s: System, now: nat): set<GroupId> {
    set g | g in Active(s.groups) && s.groups[g].state.Running? &&
            SaturatingMinus(now, s.groups[g].updatedAt) >= FOUR_HOURS
  }

  function Evictable(s: System, cutoff: nat): set<GroupId> {
    set g | g in s.groups && IsTerminal(s.groups[g].state) && s.groups[g].updatedAt < cutoff
  }

  // ---------- Steps ----------

  datatype Event =
    | ReserveGranted(gid: GroupId, w: WorkerId, need: Resources, repo: RepoId, stages: seq<Stage>, depsRead: bool,
                     now: nat)
    | ReserveFailed(w: WorkerId, need: Resources)   // an error exit after the allocation
    | Submitted(gid: GroupId, id: JobId, stage: Stage, depsRead: bool, now: nat)
    | Reported(gid: GroupId, id: JobId, state: JobState, now: nat)
    | GroupCancelled(gid: GroupId, now: nat)
    | WorkerDied(w: WorkerId, now: nat)
    | Reaped(now: nat, idleTimeout: nat, stallTimeout: nat)
    | Swept(now: nat)
    | Reconciled
    | Evicted(cutoff: nat)
    | Heartbeat(w: WorkerId, connected: bool, freeDiskMb: nat)

  // The group and its jobs after a report, before the completion check.
  function ReportedJobs(env: Env, s: System, gid: GroupId, id: JobId, state: JobState): map<GroupId, seq<Job>> {
    if gid in s.jobs then s.jobs[gid := SetJobState(s.jobs[gid], id, state, env.hash)] else s.jobs
  }

  function ReportResult(env: Env, s: System, gid: GroupId, id: JobId, state: JobState): Option<GroupState> {
    if gid in s.groups && gid in s.jobs
    then Completion(s.groups[gid], ReportedJobs(env, s, gid, id, state)[gid])
    else None
  }

  // The groups a step closes, as its handler determines them.
  function Closing(env: Env, s: System, e: Event): set<GroupId> {
    match e
    case Reported(gid, id, state, _) => if ReportResult(env, s, gid, id, state).Some? then {gid} else {}
    case GroupCancelled(gid, _) => {gid}
    case WorkerDied(w, _) => Doomed(s, w)
    case Reaped(now, idle, stall) => Stale(s, now, idle, stall)
    case Swept(now) => Stuck(s, now)
    case _ => {}
  }

  ghost predicate Enabled(env: Env, s: System, e: Event) {
    match e
    case ReserveGranted(gid, w, need, repo, _, depsRead, _) =>
      && gid !in s.used && gid.id < env.idSpace && w in s.workers
      && (need == Nothing() || CanAllocate(s.workers[w], need)) && Acyclic(DepsSeen(env, repo, depsRead))
    case ReserveFailed(w, need) => w in s.workers && (need == Nothing() || CanAllocate(s.workers[w], need))
    case Submitted(gid, _, stage, depsRead, _) =>
      gid in s.groups && Admits(JobsOf(s, gid), DepsSeen(env, s.groups[gid].repo, depsRead), stage)
    case GroupCancelled(gid, _) => gid in Active(s.groups)
    case WorkerDied(w, _) => w in s.workers
    case Heartbeat(w, _, _) => w in s.workers
    case _ => true
  }

  function Charged(workers: map<WorkerId, Worker>, w: WorkerId, need: Resources): map<WorkerId, Worker>
    requires w in workers
  {
    workers[w := workers[w].(alloc := Plus(workers[w].alloc, need))]
  }

  ghost function Released(env: Env, s: System, gids: set<GroupId>): map<WorkerId, Worker> {
    map w | w in s.workers ::
      s.workers[w].(alloc := Minus(s.workers[w].alloc, SumOn(s.groups, gids, w, env.idSpace)))
  }

  function FailedGroups(groups: map<GroupId, Group>, gids: set<GroupId>, now: nat): map<GroupId, Group> {
    map g | g in groups :: if g in gids then groups[g].(state := GroupState.Failed, updatedAt := now) else groups[g]
  }

  function FailedJobs(jobs: map<GroupId, seq<Job>>, gids: set<GroupId>): map<GroupId, seq<Job>> {
    map g | g in jobs :: if g in gids then FailJobs(jobs[g]) else jobs[g]
  }

  // Cancelling, reaping and worker death all end with the group failed, its unfinished jobs
  // failed and its allocation released.
  ghost function Closed(env: Env, s: System, gids: set<GroupId>, now: nat): System {
    s.(groups := FailedGroups(s.groups, gids, now), jobs := FailedJobs(s.jobs, gids), workers := Released(env, s, gids))
  }

  function SubmittedGroup(g: Group, now: nat): Group {
    (if g.state.Reserved? then Moved(g, GroupState.Running, now) else g).(lastActivityAt := now)
  }

  ghost function AfterReport(env: Env, s: System, gid: GroupId, id: JobId, state: JobState, now: nat): System {
    var jobs := ReportedJobs(env, s, gid, id, state);
    var result := ReportResult(env, s, gid, id, state);
    if gid !in s.groups then s.(jobs := jobs)
    else if result.None? then s.(jobs := jobs, groups := s.groups[gid := s.groups[gid].(lastActivityAt := now)])
    else s.(jobs := jobs,
            groups := s.groups[gid := Moved(s.groups[gid].(lastActivityAt := now), result.value, now)],
            workers := Released(env, s, {gid}))
  }

  ghost function Apply(env: Env, s: System, e: Event): System
    requires Enabled(env, s, e)
  {
    match e
    case ReserveGranted(gid, w, need, repo, stages, _, now) =>
      System(s.groups[gid := Group(GroupState.Reserved, w, repo, need, stages, now, now)],
             s.jobs[gid := JobsOf(s, gid)], Charged(s.workers, w, need), s.leaked, s.used + {gid})
    case ReserveFailed(w, need) =>
      s.(workers := Charged(s.workers, w, need),
         leaked := s.leaked[w := Plus(if w in s.leaked then s.leaked[w] else Nothing(), need)])
    case Submitted(gid, id, stage, _, now) =>
      s.(groups := s.groups[gid := SubmittedGroup(s.groups[gid], now)],
         jobs := s.jobs[gid := JobsOf(s, gid) + [Job(id, stage, JobState.Queued)]])
    case Reported(gid, id, state, now) => AfterReport(env, s, gid, id, state, now)
    case GroupCancelled(gid, now) => Closed(env, s, {gid}, now)
    case WorkerDied(w, now) => Closed(env, s, Doomed(s, w), now)
    case Reaped(now, idle, stall) => Closed(env, s, Stale(s, now, idle, stall), now)
    case Swept(now) =>
      s.(groups := FailedGroups(s.groups, Stuck(s, now), now),
         leaked := map w | w in s.leaked :: Plus(s.leaked[w], SumOn(s.groups, Stuck(s, now), w, env.idSpace)))
    case Reconciled =>
      s.(workers := map w | w in s.workers ::
           s.workers[w].(alloc := SumOn(s.groups, Active(s.groups), w, env.idSpace)),
         leaked := map w | w in s.workers :: Nothing())
    case Evicted(cutoff) =>
      s.(groups := s.groups - Evictable(s, cutoff), jobs := s.jobs - Evictable(s, cutoff))
    case Heartbeat(w, connected, freeDiskMb) =>
      s.(workers := s.workers[w := s.workers[w].(connected := connected, freeDiskMb := freeDiskMb)])
  }

  // ---------- Invariants ----------

  // Every worker's counters are exactly what its open groups hold plus what leaked.
  ghost predicate Balanced(env: Env, s: System) {
    && s.leaked.Keys == s.workers.Keys
    && forall w :: w in s.workers ==>
         s.workers[w].alloc == Plus(SumOn(s.groups, Active(s.groups), w, env.idSpace), s.leaked[w])
  }

  predicate WithinCaps(w: Worker) {
    w.alloc.cpu <= w.cpuCap && w.alloc.memoryMb <= w.memoryCap
  }

  ghost predicate Capped(s: System) {
    forall w :: w in s.workers ==> WithinCaps(s.workers[w])
  }

  ghost predicate Known(env: Env, s: System) {
    && s.groups.Keys == s.jobs.Keys
    && s.groups.Keys <= s.used
    && forall g :: g in s.used ==> g.id < env.idSpace
  }

  // One group: no jobs before it runs, every reserved stage run if it succeeded, and no stage
  // twice.
  ghost predicate OrderlyGroup(g: Group, jobs: seq<Job>) {
    && !g.state.Pending? && (g.state.Reserved? ==> jobs == [])
    && (g.state.Success? ==> AllReservedSubmitted(g, jobs))
    && NoDuplicates(StagesOf(jobs))
  }

  ghost predicate Orderly(s: System) {
    forall g :: g in s.groups && g in s.jobs ==> OrderlyGroup(s.groups[g], s.jobs[g])
  }

  ghost predicate Inv(env: Env, s: System) {
    Known(env, s) && Balanced(env, s) && Capped(s) && Orderly(s)
  }

  // Before any group: registered workers with nothing allocated.
  ghost predicate Initial(s: System) {
    && s.groups == map[] && s.jobs == map[] && s.used == {}
    && s.leaked.Keys == s.workers.Keys
    && forall w :: w in s.workers ==> s.workers[w].alloc == Nothing() && s.leaked[w] == Nothing()
  }
}
