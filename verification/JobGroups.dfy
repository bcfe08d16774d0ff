/**
  Job groups, their jobs and the workers they reserve, as values: the transitions of one group,
  the completion rule, and the gate that admits a stage.
 */
module JobGroups {
  import opened Common
  import opened Dag

  datatype GroupId = GroupId(id: nat)
  datatype WorkerId = WorkerId(id: nat)
  datatype RepoId = RepoId(id: nat)
  datatype JobId = JobId(id: string)

  // ---------- Resources ----------

  datatype Resources = Resources(cpu: nat, memoryMb: nat, diskMb: nat)

  function Nothing(): Resources { Resources(0, 0, 0) }

  function Plus(a: Resources, b: Resources): Resources {
    Resources(a.cpu + b.cpu, a.memoryMb + b.memoryMb, a.diskMb + b.diskMb)
  }

  function SaturatingMinus(a: nat, b: nat): nat { if a <= b then 0 else a - b }

  function Minus(a: Resources, b: Resources): Resources {
    Resources(SaturatingMinus(a.cpu, b.cpu), SaturatingMinus(a.memoryMb, b.memoryMb),
              SaturatingMinus(a.diskMb, b.diskMb))
  }

  predicate Covers(a: Resources, b: Resources) {
    a.cpu >= b.cpu && a.memoryMb >= b.memoryMb && a.diskMb >= b.diskMb
  }

  datatype Worker = Worker(connected: bool, cpuCap: nat, memoryCap: nat, freeDiskMb: nat, alloc: Resources)

  // Disk is checked against what the last heartbeat reported free, not against the counter.
  predicate CanAllocate(w: Worker, need: Resources) {
    && w.alloc.cpu + need.cpu <= w.cpuCap
    && w.alloc.memoryMb + need.memoryMb <= w.memoryCap
    && (need.diskMb > 0 ==> w.freeDiskMb >= need.diskMb)
  }

  predicate HasRoom(w: Worker, need: Resources) {
    && SaturatingMinus(w.cpuCap, w.alloc.cpu) >= need.cpu
    && SaturatingMinus(w.memoryCap, w.alloc.memoryMb) >= need.memoryMb
    && w.freeDiskMb >= need.diskMb
  }

  // ---------- Group states ----------

  datatype GroupState = Pending | Reserved | Running | Success | Failed | Cancelled | Expired
  datatype JobState = Queued | Assigned | Running | Success | Failed | Cancelled | Unknown

  predicate IsTerminal(s: GroupState) {
    s.Success? || s.Failed? || s.Cancelled? || s.Expired?
  }

  // Cancelling, failing and expiring are always allowed, from terminal states too.
  predicate ValidTransition(s: GroupState, t: GroupState) {
    || t.Cancelled? || t.Failed? || t.Expired?
    || (s.Pending? && t.Reserved?) || (s.Reserved? && t.Running?) || (s.Running? && t.Success?)
  }

  // How far a group has come on its way to success; the other ends have no place on it.
  function Rank(s: GroupState): int {
    match s
    case Pending => 0
    case Reserved => 1
    case Running => 2
    case Success => 3
    case _ => -1
  }

  // A group moves one place towards success or to one of the other ends, from anywhere; the ends
  // are what comes after Running.
  lemma TransitionsGoForward(s: GroupState, t: GroupState)
    ensures ValidTransition(s, t) <==> Rank(t) == -1 || (0 <= Rank(s) && Rank(t) == Rank(s) + 1)
    ensures IsTerminal(s) <==> !(0 <= Rank(s) <= 2)
  {
  }

  datatype Job = Job(id: JobId, stage: Stage, state: JobState)

  datatype Group = Group(state: GroupState, worker: WorkerId, repo: RepoId, alloc: Resources,
                         reservedStages: seq<Stage>, updatedAt: nat, lastActivityAt: nat)

  function Moved(g: Group, t: GroupState, now: nat): Group {
    if ValidTransition(g.state, t) then g.(state := t, updatedAt := now) else g
  }

  // ---------- Jobs of a group ----------

  predicate IsDone(s: JobState) {
    s.Success? || s.Failed? || s.Cancelled? || s.Unknown?
  }

  predicate AnyInState(jobs: seq<Job>, s: JobState) {
    exists i :: 0 <= i < |jobs| && jobs[i].state == s
  }

  function StagesOf(jobs: seq<Job>): (stages: seq<Stage>)
    ensures |stages| == |jobs|
    ensures forall i :: 0 <= i < |jobs| ==> stages[i] == jobs[i].stage
  {
    seq(|jobs|, i requires 0 <= i < |jobs| => jobs[i].stage)
  }

  function FailJob(j: Job): Job {
    if IsDone(j.state) then j else j.(state := JobState.Failed)
  }

  function FailJobs(jobs: seq<Job>): (r: seq<Job>)
    ensures |r| == |jobs| && forall i :: 0 <= i < |jobs| ==> r[i] == FailJob(jobs[i])
  {
    seq(|jobs|, i requires 0 <= i < |jobs| => FailJob(jobs[i]))
  }

  // The stored id is the reported one or its hash, which is what recovery stores.
  predicate JobIdMatches(stored: JobId, reported: JobId, hash: JobId -> JobId) {
    stored == reported || stored == hash(reported)
  }

  predicate IsFirstMatch(jobs: seq<Job>, i: nat, id: JobId, hash: JobId -> JobId)
    requires i < |jobs|
  {
    JobIdMatches(jobs[i].id, id, hash) && forall k :: 0 <= k < i ==> !JobIdMatches(jobs[k].id, id, hash)
  }

  // A new state for the first matching job.
  function SetJobState(jobs: seq<Job>, id: JobId, s: JobState, hash: JobId -> JobId): (r: seq<Job>)
    ensures |r| == |jobs| && StagesOf(r) == StagesOf(jobs)
  {
    seq(|jobs|, i requires 0 <= i < |jobs| => if IsFirstMatch(jobs, i, id, hash) then jobs[i].(state := s) else jobs[i])
  }

  // ---------- Completion ----------

  predicate AllReservedSubmitted(g: Group, jobs: seq<Job>) {
    forall s :: s in g.reservedStages ==> s in StagesOf(jobs)
  }

  // The state a group completes in, if it does.
  function Completion(g: Group, jobs: seq<Job>): Option<GroupState> {
    if IsTerminal(g.state) || jobs == [] then None
    else if AnyInState(jobs, JobState.Failed) then Some(GroupState.Failed)
    else if AnyInState(jobs, JobState.Cancelled) then Some(GroupState.Cancelled)
    else if exists i :: 0 <= i < |jobs| && !IsDone(jobs[i].state) then None
    else if !AllReservedSubmitted(g, jobs) then None
    else Some(GroupState.Success)
  }

  // What completion answers for an open group with jobs, job state by job state.
  lemma CompletionMeans(g: Group, jobs: seq<Job>)
    requires g.state in {GroupState.Pending, GroupState.Reserved, GroupState.Running} && jobs != []
    ensures Completion(g, jobs) == Some(GroupState.Failed) <==>
            exists i :: 0 <= i < |jobs| && jobs[i].state == JobState.Failed
    ensures Completion(g, jobs) == Some(GroupState.Cancelled) <==>
            && (forall i :: 0 <= i < |jobs| ==> jobs[i].state != JobState.Failed)
            && (exists i :: 0 <= i < |jobs| && jobs[i].state == JobState.Cancelled)
    ensures Completion(g, jobs) == Some(GroupState.Success) <==>
            && (forall i :: 0 <= i < |jobs| ==> jobs[i].state == JobState.Success || jobs[i].state == JobState.Unknown)
            && (forall s :: s in g.reservedStages ==> exists i :: 0 <= i < |jobs| && jobs[i].stage == s)
    ensures Completion(g, jobs).Some? ==>
            Completion(g, jobs).value in {GroupState.Failed, GroupState.Cancelled, GroupState.Success}
  {
    forall s ensures s in StagesOf(jobs) <==> exists i :: 0 <= i < |jobs| && jobs[i].stage == s {
      if i :| 0 <= i < |jobs| && jobs[i].stage == s { assert StagesOf(jobs)[i] == s; }
    }
  }

  // ---------- Admission of a stage ----------

  predicate HasSucceeded(jobs: seq<Job>, s: Stage) {
    exists i :: 0 <= i < |jobs| && jobs[i].stage == s && jobs[i].state.Success?
  }

  predicate CanSubmitStage(jobs: seq<Job>, dependsOn: seq<Stage>) {
    forall d :: d in dependsOn ==> HasSucceeded(jobs, d)
  }

  // Both gates: dependencies succeeded, and not submitted yet.
  predicate Admits(jobs: seq<Job>, deps: Deps, s: Stage) {
    CanSubmitStage(jobs, ParentsOf(deps, s)) && s !in StagesOf(jobs)
  }

  // ---------- What admission keeps ----------

  // Stage names are distinct and every stage comes after all it depends on.
  ghost predicate WellGated(jobs: seq<Job>, deps: Deps) {
    NoDuplicates(StagesOf(jobs)) && DependenciesFirst(deps, StagesOf(jobs))
  }

  lemma AdmissionKeepsGating(jobs: seq<Job>, deps: Deps, j: Job)
    requires WellGated(jobs, deps) && Admits(jobs, deps, j.stage)
    ensures WellGated(jobs + [j], deps)
  {
    var before, after := StagesOf(jobs), StagesOf(jobs + [j]);
    assert after == before + [j.stage];
    NoDuplicatesSnoc(before, j.stage);
    forall p | p in ParentsOf(deps, j.stage)
      ensures p in before
    {
      var k :| 0 <= k < |jobs| && jobs[k].stage == p;
      assert before[k] == p;
    }
    DependenciesFirstSnoc(deps, before, j.stage);
  }

  // So a stage on a dependency cycle is never admitted.
  lemma NoStageOnCycle(jobs: seq<Job>, deps: Deps, i: nat)
    requires DependenciesFirst(deps, StagesOf(jobs)) && i < |jobs|
    requires forall j :: 0 <= j < i ==> jobs[j].stage != jobs[i].stage
    ensures !OnCycle(deps, jobs[i].stage)
  {
    var stages := StagesOf(jobs);
    forall path | IsCycle(deps, path) && path[0] == stages[i]
      ensures false
    {
      ChainGoesBack(deps, stages, path, i);
    }
  }

  // Everything the stages of `wanted` depend on is wanted too.
  ghost predicate DependencyClosed(deps: Deps, wanted: set<Stage>) {
    forall s, d :: s in wanted && d in ParentsOf(deps, s) ==> d in wanted
  }

  // The wanted stages not submitted yet.
  ghost function Missing(jobs: seq<Job>, wanted: set<Stage>): set<Stage> {
    set s | s in wanted && s !in StagesOf(jobs)
  }

  // A missing stage that waits for no missing stage is admitted.
  lemma AdmitsUnblocked(jobs: seq<Job>, deps: Deps, wanted: set<Stage>, next: Stage)
    requires DependencyClosed(deps, wanted)
    requires forall i :: 0 <= i < |jobs| && jobs[i].stage in wanted ==> jobs[i].state.Success?
    requires next in Missing(jobs, wanted) && !DependsInto(deps, next, Missing(jobs, wanted))
    ensures Admits(jobs, deps, next)
  {
    forall d | d in ParentsOf(deps, next)
      ensures HasSucceeded(jobs, d)
    {
      assert d in wanted && d !in Missing(jobs, wanted);
      var k :| 0 <= k < |jobs| && StagesOf(jobs)[k] == d;
      assert jobs[k].stage == d;
    }
  }

  // While something wanted is missing and everything wanted that was submitted has succeeded,
  // some missing stage is admitted: gating never deadlocks on a map without cycles, which are
  // the maps the topological sort accepts.
  lemma GatingNeverDeadlocks(jobs: seq<Job>, deps: Deps, wanted: set<Stage>) returns (next: Stage)
    requires Acyclic(deps)
    requires DependencyClosed(deps, wanted)
    requires exists s :: s in wanted && s !in StagesOf(jobs)
    requires forall i :: 0 <= i < |jobs| && jobs[i].stage in wanted ==> jobs[i].state.Success?
    ensures next in wanted && Admits(jobs, deps, next)
  {
    var missing := Missing(jobs, wanted);
    if forall n {:trigger DependsInto(deps, n, missing)} :: n in missing ==> DependsInto(deps, n, missing) {
      next :| next in wanted && next !in StagesOf(jobs);
      StuckReachesCycle(deps, missing, [next]);
      ReachesCycleNotAcyclic(deps, next);
    } else {
      next :| next in missing && !DependsInto(deps, next, missing);
      AdmitsUnblocked(jobs, deps, wanted, next);
    }
  }
}
