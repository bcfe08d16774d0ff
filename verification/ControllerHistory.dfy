/**
  How a group's jobs came about. Every stage in a job list goes back to the submission that put
  it there, and the list follows the dependencies exactly if no submission whose dependencies
  could not be read came too early.
 */
module ControllerHistory {
  import opened Common
  import opened Dag
  import opened JobGroups
  import opened ControllerModel
  import opened ControllerRuns

  // ---------- One step ----------

  ghost function StagesIn(s: System, g: GroupId): seq<Stage> {
    StagesOf(JobsOf(s, g))
  }

  // What a step adds to the stages of a group.
  function Adds(e: Event, g: GroupId): seq<Stage> {
    if e.Submitted? && e.gid == g then [e.stage] else []
  }

  // A known group keeps its worker, its allocation and its repository, and its stages grow by
  // submissions only.
  ghost predicate Continues(s: System, e: Event, s': System, g: GroupId)
    requires g in s.groups && g in s'.groups
  {
    && s'.groups[g].worker == s.groups[g].worker && s'.groups[g].alloc == s.groups[g].alloc
    && s'.groups[g].repo == s.groups[g].repo
    && StagesIn(s', g) == StagesIn(s, g) + Adds(e, g)
  }

  lemma SubmitContinues(env: Env, s: System, e: Event, g: GroupId)
    requires Known(env, s) && e.Submitted? && Enabled(env, s, e) && g in s.groups
    ensures g in Apply(env, s, e).groups && Continues(s, e, Apply(env, s, e), g)
  {
    var jobs := JobsOf(s, e.gid);
    assert StagesOf(jobs + [Job(e.id, e.stage, JobState.Queued)]) == StagesOf(jobs) + [e.stage];
  }

  lemma CloseContinues(env: Env, s: System, e: Event, g: GroupId)
    requires (e.GroupCancelled? || e.WorkerDied? || e.Reaped? || e.Swept?) && Enabled(env, s, e) && g in s.groups
    ensures g in Apply(env, s, e).groups && Continues(s, e, Apply(env, s, e), g)
  {
    FailKeepsStages(JobsOf(s, g));
  }

  lemma ReportContinues(env: Env, s: System, e: Event, g: GroupId)
    requires Known(env, s) && e.Reported? && g in s.groups
    ensures g in Apply(env, s, e).groups && Continues(s, e, Apply(env, s, e), g)
  {
    if g == e.gid { assert JobsOf(Apply(env, s, e), g) == SetJobState(JobsOf(s, g), e.id, e.state, env.hash); }
  }

  lemma StepContinues(env: Env, s: System, e: Event, g: GroupId)
    requires Known(env, s) && Enabled(env, s, e) && g in s.groups && g in Apply(env, s, e).groups
    ensures Continues(s, e, Apply(env, s, e), g)
  {
    match e
    case ReserveGranted(_, _, _, _, _, _, _) =>
    case ReserveFailed(_, _) =>
    case Submitted(_, _, _, _, _) => SubmitContinues(env, s, e, g);
    case Reported(_, _, _, _) => ReportContinues(env, s, e, g);
    case GroupCancelled(_, _) => CloseContinues(env, s, e, g);
    case WorkerDied(_, _) => CloseContinues(env, s, e, g);
    case Reaped(_, _, _) => CloseContinues(env, s, e, g);
    case Swept(_) => CloseContinues(env, s, e, g);
    case Reconciled =>
    case Evicted(_) =>
    case Heartbeat(_, _, _) =>
  }

  // A group appears by being granted, without jobs.
  lemma StepAppears(env: Env, s: System, e: Event, g: GroupId)
    requires Known(env, s) && Enabled(env, s, e) && g !in s.groups && g in Apply(env, s, e).groups
    ensures e.ReserveGranted? && e.gid == g && StagesIn(Apply(env, s, e), g) == []
    ensures Apply(env, s, e).groups[g].repo == e.repo
  {
  }

  lemma {:induction false} UsedGrows(env: Env, states: seq<System>, events: seq<Event>, i: nat, j: nat)
    requires IsRun(env, states, events) && i <= j < |states|
    ensures states[i].used <= states[j].used
    decreases j
  {
    if i < j {
      UsedGrows(env, states, events, i, j - 1);
      assert IsStep(env, states[j - 1], events[j - 1], states[j]);
    }
  }

  // ---------- Submissions out of order ----------

  ghost predicate AllListed(ps: seq<Stage>, stages: seq<Stage>) {
    forall p :: p in ps ==> p in stages
  }

  // The step submits a stage of the group before one of its dependencies.
  ghost predicate TooEarly(env: Env, s: System, e: Event, g: GroupId) {
    && e.Submitted? && e.gid == g && g in s.groups
    && exists p :: p in ParentsOf(DepsOf(env, s.groups[g].repo), e.stage) && p !in StagesIn(s, g)
  }

  lemma SucceededIsListed(jobs: seq<Job>, p: Stage)
    ensures HasSucceeded(jobs, p) ==> p in StagesOf(jobs)
  {
    if HasSucceeded(jobs, p) {
      var k :| 0 <= k < |jobs| && jobs[k].stage == p && jobs[k].state.Success?;
      assert StagesOf(jobs)[k] == p;
    }
  }

  // Dependencies that were read are all there.
  lemma ReadMeansPresent(env: Env, s: System, e: Event, g: GroupId)
    requires e.Submitted? && e.gid == g && Enabled(env, s, e)
    ensures e.depsRead ==> AllListed(ParentsOf(DepsOf(env, s.groups[g].repo), e.stage), StagesIn(s, g))
  {
    forall p ensures HasSucceeded(JobsOf(s, g), p) ==> p in StagesIn(s, g) {
      SucceededIsListed(JobsOf(s, g), p);
    }
  }

  // Only a submission whose dependencies could not be read can be.
  lemma TooEarlyIsUnread(env: Env, s: System, e: Event, g: GroupId)
    requires Enabled(env, s, e) && TooEarly(env, s, e, g)
    ensures !e.depsRead
  {
    ReadMeansPresent(env, s, e, g);
  }

  // A failed read lets it happen: from any reachable state any stage not yet listed can be
  // submitted, before its dependencies too.
  lemma UnreadSubmissionIsAdmitted(env: Env, s: System, g: GroupId, id: JobId, stage: Stage, now: nat)
    requires g in s.groups && stage !in StagesIn(s, g)
    ensures var e := Submitted(g, id, stage, false, now);
            && Enabled(env, s, e)
            && (TooEarly(env, s, e, g) <==>
                exists p :: p in ParentsOf(DepsOf(env, s.groups[g].repo), stage) && p !in StagesIn(s, g))
  {
    assert ParentsOf(map[], stage) == [];
  }

  // One of the first `i` steps was too early for the group.
  ghost predicate Slipped(env: Env, states: seq<System>, events: seq<Event>, i: nat, g: GroupId)
    requires i <= |events| <= |states|
  {
    exists k :: 0 <= k < i && TooEarly(env, states[k], events[k], g)
  }

  lemma DependenciesFirstSnocIff(deps: Deps, order: seq<Stage>, n: Stage)
    ensures DependenciesFirst(deps, order + [n]) <==>
            DependenciesFirst(deps, order) && forall p :: p in ParentsOf(deps, n) ==> p in order
  {
    var longer := order + [n];
    assert forall i :: 0 <= i <= |order| ==> longer[..i] == order[..i];
    assert order[..|order|] == order;
    if DependenciesFirst(deps, longer) {
      forall i, p | 0 <= i < |order| && p in ParentsOf(deps, order[i]) ensures p in order[..i] {
        assert longer[i] == order[i];
      }
      assert longer[|order|] == n;
    } else if forall p :: p in ParentsOf(deps, n) ==> p in order {
      if DependenciesFirst(deps, order) { DependenciesFirstSnoc(deps, order, n); }
    }
  }

  // No submission of a group precedes its grant.
  lemma NothingBeforeGrant(env: Env, states: seq<System>, events: seq<Event>, i: nat, g: GroupId)
    requires IsRun(env, states, events) && i < |states| && g !in states[i].used
    ensures !Slipped(env, states, events, i, g)
  {
    forall k | 0 <= k < i ensures !TooEarly(env, states[k], events[k], g) {
      RunInv(env, states, events, k);
      UsedGrows(env, states, events, k, i);
    }
  }

  // In every state of every run, the stages of a group follow its dependencies if and only if
  // none of them was submitted too early, which takes a failed read.
  lemma {:induction false} InOrderIff(env: Env, states: seq<System>, events: seq<Event>, i: nat, g: GroupId)
    requires IsRun(env, states, events) && i < |states| && g in states[i].groups
    ensures DependenciesFirst(DepsOf(env, states[i].groups[g].repo), StagesIn(states[i], g)) <==>
            !Slipped(env, states, events, i, g)
    decreases i
  {
    if i > 0 {
      var s, e, s' := states[i - 1], events[i - 1], states[i];
      assert IsStep(env, s, e, s');
      RunInv(env, states, events, i - 1);
      SlippedMore(env, states, events, i - 1, g);
      if g in s.groups {
        InOrderIff(env, states, events, i - 1, g);
        StepContinues(env, s, e, g);
        InOrderStep(env, s, e, s', g);
      } else {
        StepAppears(env, s, e, g);
        NothingBeforeGrant(env, states, events, i - 1, g);
      }
    }
  }

  lemma SlippedMore(env: Env, states: seq<System>, events: seq<Event>, i: nat, g: GroupId)
    requires i < |events| <= |states|
    ensures Slipped(env, states, events, i + 1, g) <==>
            Slipped(env, states, events, i, g) || TooEarly(env, states[i], events[i], g)
  {
  }

  lemma InOrderStep(env: Env, s: System, e: Event, s': System, g: GroupId)
    requires g in s.groups && g in s'.groups && Continues(s, e, s', g)
    ensures var deps := DepsOf(env, s.groups[g].repo);
            DependenciesFirst(deps, StagesIn(s', g)) <==>
            DependenciesFirst(deps, StagesIn(s, g)) && !TooEarly(env, s, e, g)
  {
    if e.Submitted? && e.gid == g {
      DependenciesFirstSnocIff(DepsOf(env, s.groups[g].repo), StagesIn(s, g), e.stage);
    } else {
      assert StagesIn(s, g) + [] == StagesIn(s, g);
    }
  }

  // ---------- Where a stage comes from ----------

  // Every listed stage was submitted, when the list was what now stands before it. If its
  // dependencies were read, they are all there.
  lemma {:induction false} SubmissionOf(env: Env, states: seq<System>, events: seq<Event>, i: nat, g: GroupId, n: nat)
    returns (k: nat)
    requires IsRun(env, states, events) && i < |states| && g in states[i].groups && n < |StagesIn(states[i], g)|
    ensures k < i && g in states[k].groups && states[k].groups[g].repo == states[i].groups[g].repo
    ensures events[k].Submitted? && events[k].gid == g && events[k].stage == StagesIn(states[i], g)[n]
    ensures StagesIn(states[k], g) == StagesIn(states[i], g)[..n]
    ensures events[k].depsRead ==>
              AllListed(ParentsOf(DepsOf(env, states[i].groups[g].repo), events[k].stage), StagesIn(states[i], g)[..n])
    decreases i
  {
    k := i - 1;
    ComesFrom(env, states, events, i, g);
    if n < |StagesIn(states[k], g)| {
      assert StagesIn(states[i], g)[..n] == StagesIn(states[k], g)[..n];
      k := SubmissionOf(env, states, events, i - 1, g, n);
    } else {
      assert StagesIn(states[i], g)[..n] == StagesIn(states[k], g);
    }
  }

  // The step before, seen from a group with stages.
  lemma ComesFrom(env: Env, states: seq<System>, events: seq<Event>, i: nat, g: GroupId)
    requires IsRun(env, states, events) && i < |states| && g in states[i].groups && StagesIn(states[i], g) != []
    ensures i > 0 && g in states[i - 1].groups && Continues(states[i - 1], events[i - 1], states[i], g)
    ensures var e := events[i - 1];
            e.Submitted? && e.gid == g && e.depsRead ==>
              AllListed(ParentsOf(DepsOf(env, states[i - 1].groups[g].repo), e.stage), StagesIn(states[i - 1], g))
  {
    assert i > 0;
    var s, e := states[i - 1], events[i - 1];
    assert IsStep(env, s, e, states[i]);
    RunInv(env, states, events, i - 1);
    AppearsEmpty(env, s, e, g);
    StepContinues(env, s, e, g);
    if e.Submitted? && e.gid == g { ReadMeansPresent(env, s, e, g); }
  }

  lemma AppearsEmpty(env: Env, s: System, e: Event, g: GroupId)
    requires Known(env, s) && Enabled(env, s, e) && g in Apply(env, s, e).groups
    ensures g in s.groups || StagesIn(Apply(env, s, e), g) == []
  {
    if g !in s.groups { StepAppears(env, s, e, g); }
  }

  // ---------- Cycles ----------

  ghost function Restrict(deps: Deps, keep: seq<Stage>): Deps {
    map n | n in deps && n in keep :: deps[n]
  }

  lemma {:induction false} ChainRestrict(deps: Deps, path: seq<Stage>, keep: seq<Stage>)
    requires IsChain(deps, path) && forall n :: n in path ==> n in keep
    ensures IsChain(Restrict(deps, keep), path)
    decreases |path|
  {
    if |path| > 1 { ChainRestrict(deps, path[1..], keep); }
  }

  // Position `n` of the list holds a stage of the path whose dependencies are not all before it.
  ghost predicate BreaksOrder(deps: Deps, stages: seq<Stage>, path: seq<Stage>, n: nat) {
    && n < |stages| && stages[n] in path
    && exists p :: p in ParentsOf(deps, stages[n]) && p !in stages[..n]
  }

  // A list without repetition that holds a stage of a cycle breaks the order at a stage of that
  // cycle.
  lemma CycleBreaksOrder(deps: Deps, jobs: seq<Job>, path: seq<Stage>, i: nat)
    requires IsCycle(deps, path) && NoDuplicates(StagesOf(jobs)) && i < |jobs| && jobs[i].stage == path[0]
    ensures exists n: nat :: BreaksOrder(deps, StagesOf(jobs), path, n)
  {
    var stages, narrow := StagesOf(jobs), Restrict(deps, path);
    ChainRestrict(deps, path, path);
    assert IsCycle(narrow, path) && OnCycle(narrow, path[0]);
    if DependenciesFirst(narrow, stages) {
      assert forall j :: 0 <= j < i ==> stages[j] != stages[i];
      NoStageOnCycle(jobs, narrow, i);
    } else {
      var n, p :| 0 <= n < |stages| && p in ParentsOf(narrow, stages[n]) && p !in stages[..n];
      assert BreaksOrder(deps, stages, path, n);
    }
  }

  // In every run a stage on a dependency cycle is listed only after a stage of that cycle was
  // submitted too early, whether or not the reservation saw the cycle.
  lemma CycleNeedsUnread(env: Env, states: seq<System>, events: seq<Event>, i: nat, g: GroupId, path: seq<Stage>)
    returns (k: nat)
    requires IsRun(env, states, events) && i < |states| && g in states[i].groups
    requires IsCycle(DepsOf(env, states[i].groups[g].repo), path) && path[0] in StagesIn(states[i], g)
    ensures k < i && TooEarly(env, states[k], events[k], g) && events[k].stage in path && !events[k].depsRead
  {
    var deps, jobs := DepsOf(env, states[i].groups[g].repo), JobsOf(states[i], g);
    RunInv(env, states, events, i);
    assert OrderlyGroup(states[i].groups[g], states[i].jobs[g]);
    var at :| 0 <= at < |jobs| && StagesOf(jobs)[at] == path[0];
    CycleBreaksOrder(deps, jobs, path, at);
    var n: nat :| BreaksOrder(deps, StagesOf(jobs), path, n);
    k := SubmissionOf(env, states, events, i, g, n);
    assert TooEarly(env, states[k], events[k], g);
    assert IsStep(env, states[k], events[k], states[k + 1]);
    TooEarlyIsUnread(env, states[k], events[k], g);
  }

  // ---------- Runs ----------

  // Every group a run knows: a successful one has run every reserved stage, no stage is listed
  // twice, and the list follows the dependencies, with no stage on a cycle, if and only if no
  // submission was too early.
  lemma RunOrderly(env: Env, states: seq<System>, events: seq<Event>, i: nat, g: GroupId)
    requires IsRun(env, states, events) && i < |states| && g in states[i].groups
    ensures g in states[i].jobs
    ensures var group, stages := states[i].groups[g], StagesIn(states[i], g); var deps := DepsOf(env, group.repo);
            && (group.state.Success? ==> forall s :: s in group.reservedStages ==> s in stages)
            && NoDuplicates(stages)
            && (DependenciesFirst(deps, stages) <==> !Slipped(env, states, events, i, g))
            && (!Slipped(env, states, events, i, g) ==> forall n :: n in stages ==> !OnCycle(deps, n))
  {
    RunInv(env, states, events, i);
    assert OrderlyGroup(states[i].groups[g], states[i].jobs[g]);
    InOrderIff(env, states, events, i, g);
    var deps := DepsOf(env, states[i].groups[g].repo);
    forall n | n in StagesIn(states[i], g) && OnCycle(deps, n) ensures Slipped(env, states, events, i, g) {
      var path :| IsCycle(deps, path) && path[0] == n;
      var k := CycleNeedsUnread(env, states, events, i, g, path);
    }
  }

  // A reservation that read the dependencies.
  ghost predicate GrantRead(events: seq<Event>, i: nat, g: GroupId)
    requires i <= |events|
  {
    exists k :: 0 <= k < i && events[k].ReserveGranted? && events[k].gid == g && events[k].depsRead
  }

  // An id handed out earlier is not granted again.
  lemma UsedStays(env: Env, s: System, e: Event, g: GroupId)
    requires Known(env, s) && Enabled(env, s, e) && g in s.used && g in Apply(env, s, e).groups
    ensures g in s.groups
  {
    if g !in s.groups { StepAppears(env, s, e, g); }
  }

  // What does not change about a group.
  predicate SameHolding(a: Group, b: Group) {
    a.worker == b.worker && a.alloc == b.alloc && a.repo == b.repo
  }

  lemma StepSameHolding(env: Env, s: System, e: Event, g: GroupId)
    requires Known(env, s) && Enabled(env, s, e) && g in s.used && g in Apply(env, s, e).groups
    ensures g in s.groups && SameHolding(Apply(env, s, e).groups[g], s.groups[g])
  {
    UsedStays(env, s, e, g);
    StepContinues(env, s, e, g);
  }

  // The job list of a group never shrinks.
  lemma {:induction false} JobsGrow(env: Env, states: seq<System>, events: seq<Event>, r: nat, i: nat, g: GroupId)
    requires IsRun(env, states, events) && r <= i < |states| && g in states[i].groups
    ensures |JobsOf(states[r], g)| <= |JobsOf(states[i], g)|
    decreases i
  {
    if r < i && JobsOf(states[r], g) != [] {
      RunInv(env, states, events, r);
      UsedGrows(env, states, events, r, i - 1);
      JobsGrowStep(env, states, events, i, g);
      JobsGrow(env, states, events, r, i - 1, g);
    }
  }

  lemma JobsGrowStep(env: Env, states: seq<System>, events: seq<Event>, i: nat, g: GroupId)
    requires IsRun(env, states, events) && 0 < i < |states| && g in states[i - 1].used && g in states[i].groups
    ensures g in states[i - 1].groups && |JobsOf(states[i - 1], g)| <= |JobsOf(states[i], g)|
  {
    RunInv(env, states, events, i - 1);
    assert IsStep(env, states[i - 1], events[i - 1], states[i]);
    UsedStays(env, states[i - 1], events[i - 1], g);
    StepContinues(env, states[i - 1], events[i - 1], g);
  }

  lemma SameHoldingBefore(env: Env, states: seq<System>, events: seq<Event>, i: nat, g: GroupId)
    requires IsRun(env, states, events) && 0 < i < |states| && g in states[i - 1].used && g in states[i].groups
    ensures g in states[i - 1].groups && SameHolding(states[i].groups[g], states[i - 1].groups[g])
  {
    RunInv(env, states, events, i - 1);
    assert IsStep(env, states[i - 1], events[i - 1], states[i]);
    StepSameHolding(env, states[i - 1], events[i - 1], g);
  }

  lemma {:induction false} RunSameHolding(env: Env, states: seq<System>, events: seq<Event>, j: nat, i: nat, g: GroupId)
    requires IsRun(env, states, events) && j <= i < |states| && g in states[j].used && g in states[i].groups
    ensures g in states[j].groups && SameHolding(states[i].groups[g], states[j].groups[g])
    decreases i
  {
    if j < i {
      UsedGrows(env, states, events, j, i - 1);
      SameHoldingBefore(env, states, events, i, g);
      RunSameHolding(env, states, events, j, i - 1, g);
    }
  }

  lemma GrantGives(env: Env, s: System, e: Event)
    requires e.ReserveGranted? && Enabled(env, s, e)
    ensures var s' := Apply(env, s, e); e.gid in s'.used && e.gid in s'.groups && s'.groups[e.gid].repo == e.repo
  {
  }

  lemma GrantedRepo(env: Env, states: seq<System>, events: seq<Event>, k: nat, i: nat, g: GroupId)
    requires IsRun(env, states, events) && k < i < |states| && events[k].ReserveGranted? && events[k].gid == g
    requires g in states[i].groups
    ensures states[i].groups[g].repo == events[k].repo
  {
    assert IsStep(env, states[k], events[k], states[k + 1]);
    GrantGives(env, states[k], events[k]);
    RunSameHolding(env, states, events, k + 1, i, g);
  }

  // In every state of every run: if the dependencies have no cycle, as a reservation that read
  // them guarantees, some wanted stages of a group are missing and those submitted have
  // succeeded, then one of the missing ones passes both gates.
  lemma RunNeverDeadlocks(env: Env, states: seq<System>, events: seq<Event>, i: nat, g: GroupId, wanted: set<Stage>)
    returns (next: Stage)
    requires IsRun(env, states, events) && i < |states| && g in states[i].groups
    requires Acyclic(DepsOf(env, states[i].groups[g].repo)) || GrantRead(events, i, g)
    requires DependencyClosed(DepsOf(env, states[i].groups[g].repo), wanted)
    requires exists s :: s in wanted && s !in StagesIn(states[i], g)
    requires forall k :: 0 <= k < |JobsOf(states[i], g)| && JobsOf(states[i], g)[k].stage in wanted ==>
               JobsOf(states[i], g)[k].state.Success?
    ensures next in wanted
    ensures forall id, now :: Enabled(env, states[i], Submitted(g, id, next, true, now))
  {
    if GrantRead(events, i, g) {
      var k :| 0 <= k < i && events[k].ReserveGranted? && events[k].gid == g && events[k].depsRead;
      assert IsStep(env, states[k], events[k], states[k + 1]);
      GrantedRepo(env, states, events, k, i, g);
    }
    next := GatingNeverDeadlocks(JobsOf(states[i], g), DepsOf(env, states[i].groups[g].repo), wanted);
  }
}
