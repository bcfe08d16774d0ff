/**
  What reports do. A job is successful exactly if the last report on it said so, so a stage is
  submitted only after success was reported for everything it depends on; and a group completes
  in the state its jobs' states determine.
 */
module ControllerReports {
  import opened Common
  import opened Dag
  import opened JobGroups
  import opened ControllerModel
  import opened ControllerRuns
  import opened ControllerHistory
  import opened Controller

  // ---------- One job in one step ----------

  // The step reports on the job at `n`: the first one with the reported id or its hash.
  ghost predicate ReportsOn(env: Env, s: System, e: Event, g: GroupId, n: nat) {
    var jobs := JobsOf(s, g);
    && e.Reported? && e.gid == g && n < |jobs|
    && (jobs[n].id == e.id || jobs[n].id == env.hash(e.id))
    && forall k :: 0 <= k < n ==> jobs[k].id != e.id && jobs[k].id != env.hash(e.id)
  }

  // The step ends the group together with its jobs.
  ghost predicate EndsJobs(env: Env, s: System, e: Event, g: GroupId) {
    (e.GroupCancelled? || e.WorkerDied? || e.Reaped?) && g in Closing(env, s, e)
  }

  // What becomes of a listed job: a report on it is its state from then on, and the end of its
  // group fails it if it has not ended itself.
  ghost predicate JobFollows(env: Env, s: System, e: Event, g: GroupId, n: nat, before: Job, after: Job) {
    var unfinished := before.state in {JobState.Queued, JobState.Assigned, JobState.Running};
    && after.id == before.id && after.stage == before.stage
    && (ReportsOn(env, s, e, g, n) ==> after.state == e.state)
    && (!ReportsOn(env, s, e, g, n) ==>
          if EndsJobs(env, s, e, g) && unfinished then after.state == JobState.Failed
          else after.state == before.state)
  }

  lemma ReportJobFollows(env: Env, s: System, e: Event, g: GroupId, n: nat)
    requires Known(env, s) && e.Reported? && g in s.groups && n < |JobsOf(s, g)|
    ensures n < |JobsOf(Apply(env, s, e), g)|
    ensures JobFollows(env, s, e, g, n, JobsOf(s, g)[n], JobsOf(Apply(env, s, e), g)[n])
  {
    var jobs := JobsOf(s, g);
    if g == e.gid {
      assert JobsOf(Apply(env, s, e), g) == SetJobState(jobs, e.id, e.state, env.hash);
      assert ReportsOn(env, s, e, g, n) <==> IsFirstMatch(jobs, n, e.id, env.hash);
    }
  }

  lemma EndJobFollows(env: Env, s: System, e: Event, g: GroupId, n: nat)
    requires Known(env, s) && (e.GroupCancelled? || e.WorkerDied? || e.Reaped?) && Enabled(env, s, e)
    requires g in s.groups && n < |JobsOf(s, g)|
    ensures n < |JobsOf(Apply(env, s, e), g)|
    ensures JobFollows(env, s, e, g, n, JobsOf(s, g)[n], JobsOf(Apply(env, s, e), g)[n])
  {
    assert JobsOf(Apply(env, s, e), g) == if g in Closing(env, s, e) then FailJobs(JobsOf(s, g)) else JobsOf(s, g);
  }

  lemma SubmitJobFollows(env: Env, s: System, e: Event, g: GroupId, n: nat)
    requires Known(env, s) && e.Submitted? && Enabled(env, s, e) && g in s.groups && n < |JobsOf(s, g)|
    ensures n < |JobsOf(Apply(env, s, e), g)|
    ensures JobFollows(env, s, e, g, n, JobsOf(s, g)[n], JobsOf(Apply(env, s, e), g)[n])
  {
    assert JobsOf(Apply(env, s, e), g)[n] == JobsOf(s, g)[n];
  }

  lemma OtherJobFollows(env: Env, s: System, e: Event, g: GroupId, n: nat)
    requires Known(env, s) && Enabled(env, s, e) && g in s.groups && n < |JobsOf(s, g)|
    requires e.ReserveGranted? || e.ReserveFailed? || e.Swept? || e.Reconciled? || e.Evicted? || e.Heartbeat?
    requires g in Apply(env, s, e).groups
    ensures n < |JobsOf(Apply(env, s, e), g)|
    ensures JobFollows(env, s, e, g, n, JobsOf(s, g)[n], JobsOf(Apply(env, s, e), g)[n])
  {
    assert JobsOf(Apply(env, s, e), g) == JobsOf(s, g);
  }

  lemma StepJobFollows(env: Env, s: System, e: Event, g: GroupId, n: nat)
    requires Known(env, s) && Enabled(env, s, e) && g in s.groups && g in Apply(env, s, e).groups
    requires n < |JobsOf(s, g)|
    ensures n < |JobsOf(Apply(env, s, e), g)|
    ensures JobFollows(env, s, e, g, n, JobsOf(s, g)[n], JobsOf(Apply(env, s, e), g)[n])
  {
    if e.Reported? {
      ReportJobFollows(env, s, e, g, n);
    } else if e.GroupCancelled? || e.WorkerDied? || e.Reaped? {
      EndJobFollows(env, s, e, g, n);
    } else if e.Submitted? {
      SubmitJobFollows(env, s, e, g, n);
    } else {
      OtherJobFollows(env, s, e, g, n);
    }
  }

  // A job that was not listed before is queued.
  lemma NewJobIsQueued(env: Env, s: System, e: Event, g: GroupId, n: nat)
    requires Known(env, s) && Enabled(env, s, e) && g in s.groups && g in Apply(env, s, e).groups
    requires |JobsOf(s, g)| <= n < |JobsOf(Apply(env, s, e), g)|
    ensures JobsOf(Apply(env, s, e), g)[n].state == JobState.Queued
  {
    StepContinues(env, s, e, g);
  }

  // ---------- The last report ----------

  // Step `r` is the last one before state `i` that reports on the job.
  ghost predicate LastReport(env: Env, states: seq<System>, events: seq<Event>, i: nat, g: GroupId, n: nat, r: nat)
    requires i <= |events| < |states|
  {
    && r < i && ReportsOn(env, states[r], events[r], g, n)
    && forall m :: r < m < i ==> !ReportsOn(env, states[m], events[m], g, n)
  }

  // The last report on the job said `t`.
  ghost predicate LastSaid(env: Env, states: seq<System>, events: seq<Event>, i: nat, g: GroupId, n: nat, t: JobState)
    requires i <= |events| < |states|
    decreases i
  {
    i > 0 && if ReportsOn(env, states[i - 1], events[i - 1], g, n) then events[i - 1].state == t
             else LastSaid(env, states, events, i - 1, g, n, t)
  }

  lemma {:induction false} LastSaidIff(env: Env, states: seq<System>, events: seq<Event>, i: nat, g: GroupId, n: nat,
                                       t: JobState)
    requires i <= |events| < |states|
    ensures LastSaid(env, states, events, i, g, n, t) <==>
            exists r: nat :: LastReport(env, states, events, i, g, n, r) && events[r].state == t
    decreases i
  {
    if i > 0 {
      LastSaidIff(env, states, events, i - 1, g, n, t);
      if ReportsOn(env, states[i - 1], events[i - 1], g, n) {
        assert LastReport(env, states, events, i, g, n, i - 1);
      } else {
        assert forall r: nat :: LastReport(env, states, events, i, g, n, r) <==>
                                LastReport(env, states, events, i - 1, g, n, r);
      }
    }
  }

  // Nothing is said about a job before it is listed.
  lemma {:induction false} UnlistedUnsaid(env: Env, states: seq<System>, events: seq<Event>, i: nat, g: GroupId, n: nat,
                                          t: JobState)
    requires i <= |events| < |states| && forall r :: 0 <= r < i ==> n >= |JobsOf(states[r], g)|
    ensures !LastSaid(env, states, events, i, g, n, t)
    decreases i
  {
    if i > 0 { UnlistedUnsaid(env, states, events, i - 1, g, n, t); }
  }

  // In every run a job is successful, cancelled or unknown exactly if the last report on it said
  // so: neither a submission nor the end of its group nor any background task makes it so.
  lemma {:induction false} StateIsLastReport(env: Env, states: seq<System>, events: seq<Event>, i: nat, g: GroupId,
                                             n: nat, t: JobState)
    requires IsRun(env, states, events) && i < |states| && g in states[i].groups && n < |JobsOf(states[i], g)|
    requires t in {JobState.Success, JobState.Cancelled, JobState.Unknown}
    ensures JobsOf(states[i], g)[n].state == t <==> LastSaid(env, states, events, i, g, n, t)
    decreases i
  {
    ComesFrom(env, states, events, i, g);
    if n < |JobsOf(states[i - 1], g)| {
      StateIsLastReport(env, states, events, i - 1, g, n, t);
      ListedJobInRun(env, states, events, i, g, n, t);
    } else {
      NewJobInRun(env, states, events, i, g, n, t);
    }
  }

  lemma ListedJobInRun(env: Env, states: seq<System>, events: seq<Event>, i: nat, g: GroupId, n: nat, t: JobState)
    requires IsRun(env, states, events) && 0 < i < |states| && g in states[i - 1].groups && g in states[i].groups
    requires n < |JobsOf(states[i - 1], g)| && n < |JobsOf(states[i], g)|
    requires t in {JobState.Success, JobState.Cancelled, JobState.Unknown}
    ensures JobsOf(states[i], g)[n].state == t <==>
            if ReportsOn(env, states[i - 1], events[i - 1], g, n) then events[i - 1].state == t
            else JobsOf(states[i - 1], g)[n].state == t
  {
    RunInv(env, states, events, i - 1);
    assert IsStep(env, states[i - 1], events[i - 1], states[i]);
    StepJobFollows(env, states[i - 1], events[i - 1], g, n);
  }

  lemma NewJobInRun(env: Env, states: seq<System>, events: seq<Event>, i: nat, g: GroupId, n: nat, t: JobState)
    requires IsRun(env, states, events) && 0 < i < |states| && g in states[i - 1].groups && g in states[i].groups
    requires |JobsOf(states[i - 1], g)| <= n < |JobsOf(states[i], g)|
    ensures JobsOf(states[i], g)[n].state == JobState.Queued && !LastSaid(env, states, events, i, g, n, t)
  {
    forall r | 0 <= r < i ensures n >= |JobsOf(states[r], g)| { JobsGrow(env, states, events, r, i - 1, g); }
    UnlistedUnsaid(env, states, events, i, g, n, t);
    RunInv(env, states, events, i - 1);
    assert IsStep(env, states[i - 1], events[i - 1], states[i]);
    NewJobIsQueued(env, states[i - 1], events[i - 1], g, n);
  }

  // ---------- The gate ----------

  // Success was reported for a job of the stage, and nothing else about that job since.
  ghost predicate SuccessReported(env: Env, states: seq<System>, events: seq<Event>, i: nat, g: GroupId, p: Stage)
    requires i <= |events| < |states|
  {
    exists n: nat :: n < |JobsOf(states[i], g)| && JobsOf(states[i], g)[n].stage == p &&
                     LastSaid(env, states, events, i, g, n, JobState.Success)
  }

  lemma SucceededIff(env: Env, states: seq<System>, events: seq<Event>, i: nat, g: GroupId, p: Stage)
    requires IsRun(env, states, events) && i < |states| && g in states[i].groups
    ensures HasSucceeded(JobsOf(states[i], g), p) <==> SuccessReported(env, states, events, i, g, p)
  {
    forall n: nat | n < |JobsOf(states[i], g)|
      ensures JobsOf(states[i], g)[n].state.Success? <==> LastSaid(env, states, events, i, g, n, JobState.Success)
    {
      StateIsLastReport(env, states, events, i, g, n, JobState.Success);
    }
    if n :| 0 <= n < |JobsOf(states[i], g)| && JobsOf(states[i], g)[n].stage == p &&
            JobsOf(states[i], g)[n].state.Success? {
      assert LastSaid(env, states, events, i, g, n, JobState.Success);
    }
  }

  ghost predicate AllReported(env: Env, states: seq<System>, events: seq<Event>, i: nat, g: GroupId, ps: seq<Stage>)
    requires i <= |events| < |states|
  {
    forall p :: p in ps ==> SuccessReported(env, states, events, i, g, p)
  }

  // In every state of every run a stage whose dependencies are read can be submitted exactly if
  // it is not listed and, for each of its dependencies, success is the last thing reported about
  // a job of that stage. With one report missing it cannot.
  lemma SubmissionIff(env: Env, states: seq<System>, events: seq<Event>, i: nat, g: GroupId, id: JobId, stage: Stage,
                      now: nat)
    requires IsRun(env, states, events) && i < |states| && g in states[i].groups
    ensures var ps := ParentsOf(DepsOf(env, states[i].groups[g].repo), stage);
            && (CanSubmitStage(JobsOf(states[i], g), ps) <==> AllReported(env, states, events, i, g, ps))
            && (Enabled(env, states[i], Submitted(g, id, stage, true, now)) <==>
                stage !in StagesIn(states[i], g) && AllReported(env, states, events, i, g, ps))
  {
    forall p ensures HasSucceeded(JobsOf(states[i], g), p) <==> SuccessReported(env, states, events, i, g, p) {
      SucceededIff(env, states, events, i, g, p);
    }
  }

  // So behind every such submission stands, for each dependency, an earlier report of success
  // since which the job has been successful in every state.
  lemma DependencySucceeded(env: Env, states: seq<System>, events: seq<Event>, i: nat, p: Stage)
    returns (n: nat, r: nat)
    requires IsRun(env, states, events) && i < |events| && events[i].Submitted? && events[i].depsRead
    requires events[i].gid in states[i].groups
    requires p in ParentsOf(DepsOf(env, states[i].groups[events[i].gid].repo), events[i].stage)
    ensures var g := events[i].gid;
            && r < i && ReportsOn(env, states[r], events[r], g, n) && events[r].state.Success?
            && n < |JobsOf(states[i], g)| && JobsOf(states[i], g)[n].stage == p
            && forall m :: r < m <= i ==> n < |JobsOf(states[m], g)| && JobsOf(states[m], g)[n].state.Success?
  {
    var g := events[i].gid;
    assert IsStep(env, states[i], events[i], states[i + 1]);
    SubmissionIff(env, states, events, i, g, events[i].id, events[i].stage, events[i].now);
    assert SuccessReported(env, states, events, i, g, p);
    n :| n < |JobsOf(states[i], g)| && JobsOf(states[i], g)[n].stage == p &&
         LastSaid(env, states, events, i, g, n, JobState.Success);
    LastSaidIff(env, states, events, i, g, n, JobState.Success);
    r :| LastReport(env, states, events, i, g, n, r) && events[r].state == JobState.Success;
    forall m | r < m <= i ensures n < |JobsOf(states[m], g)| && JobsOf(states[m], g)[n].state.Success? {
      SuccessSince(env, states, events, r, m, i, g, n);
    }
  }

  lemma SuccessSince(env: Env, states: seq<System>, events: seq<Event>, r: nat, m: nat, i: nat, g: GroupId, n: nat)
    requires IsRun(env, states, events) && r < m <= i < |states| && g in states[i].groups
    requires LastReport(env, states, events, i, g, n, r) && events[r].state == JobState.Success
    ensures n < |JobsOf(states[m], g)| && JobsOf(states[m], g)[n].state.Success?
  {
    RunInv(env, states, events, r);
    UsedGrows(env, states, events, r, m);
    RunSameHolding(env, states, events, m, i, g);
    JobsGrow(env, states, events, r, m, g);
    assert LastReport(env, states, events, m, g, n, r);
    LastSaidIff(env, states, events, m, g, n, JobState.Success);
    StateIsLastReport(env, states, events, m, g, n, JobState.Success);
  }

  // The handler at the end of any run: it answers that dependencies are unmet exactly if they were
  // read and success has not been reported for one of them.
  method SubmitAfterRun(c: ControllerState, ghost states: seq<System>, ghost events: seq<Event>,
                        gid: GroupId, id: JobId, stage: Stage, depsRead: bool, now: nat)
    returns (outcome: SubmitOutcome)
    requires c.Valid() && IsRun(c.env, states, events) && states[|events|] == c.View()
    modifies c
    ensures c.Valid() && (outcome.GroupNotFound? <==> gid !in old(c.groups))
    ensures gid in old(c.groups) ==>
              var ps := ParentsOf(DepsOf(c.env, old(c.groups)[gid].repo), stage);
              && (outcome.DependenciesUnmet? <==>
                  depsRead && !AllReported(c.env, states, events, |events|, gid, ps))
              && (outcome.AlreadySubmitted? ==> stage in StagesIn(states[|events|], gid))
              && (outcome.Accepted? ==> stage !in StagesIn(states[|events|], gid))
  {
    if gid in c.groups { SubmissionIff(c.env, states, events, |events|, gid, id, stage, now); }
    outcome := c.SubmitStage(gid, id, stage, depsRead, now);
  }

  // ---------- Completion ----------

  // A report on an open group with jobs leaves it Failed if a job is Failed; else Cancelled if one
  // is Cancelled; else Success if every job is Success or Unknown and every reserved stage is
  // listed; and otherwise as it was.
  lemma ReportLeavesState(env: Env, s: System, e: Event)
    requires Inv(env, s) && e.Reported? && e.gid in Active(s.groups) && JobsOf(Apply(env, s, e), e.gid) != []
    ensures e.gid in Apply(env, s, e).groups
    ensures var group, jobs := Apply(env, s, e).groups[e.gid], JobsOf(Apply(env, s, e), e.gid);
            && (group.state.Failed? <==> exists i :: 0 <= i < |jobs| && jobs[i].state == JobState.Failed)
            && (group.state.Cancelled? <==>
                && (forall i :: 0 <= i < |jobs| ==> jobs[i].state != JobState.Failed)
                && (exists i :: 0 <= i < |jobs| && jobs[i].state == JobState.Cancelled))
            && (group.state.Success? <==>
                && (forall i :: 0 <= i < |jobs| ==>
                      jobs[i].state == JobState.Success || jobs[i].state == JobState.Unknown)
                && (forall p :: p in group.reservedStages ==> exists i :: 0 <= i < |jobs| && jobs[i].stage == p))
            && (!group.state.Failed? && !group.state.Cancelled? && !group.state.Success? ==>
                  group.state == s.groups[e.gid].state)
  {
    var g, jobs := s.groups[e.gid], JobsOf(Apply(env, s, e), e.gid);
    assert OrderlyGroup(g, s.jobs[e.gid]);
    assert jobs == ReportedJobs(env, s, e.gid, e.id, e.state)[e.gid];
    CompletionMeans(g, jobs);
    if ReportResult(env, s, e.gid, e.id, e.state).Some? { ResultIsReached(env, s, e); }
  }

  // Only a report makes a group successful.
  lemma StepIntoSuccess(env: Env, s: System, e: Event, g: GroupId)
    requires Inv(env, s) && Enabled(env, s, e) && g in s.groups && g in Apply(env, s, e).groups
    requires !s.groups[g].state.Success? && Apply(env, s, e).groups[g].state.Success?
    ensures e.Reported? && e.gid == g && g in Active(s.groups) && JobsOf(Apply(env, s, e), g) != []
  {
    if e.Reported? {
      ReportIntoSuccess(env, s, e, g);
    } else {
      NoOtherSuccess(env, s, e, g);
    }
  }

  lemma ReportIntoSuccess(env: Env, s: System, e: Event, g: GroupId)
    requires Known(env, s) && e.Reported? && g in s.groups && g in Apply(env, s, e).groups
    requires !s.groups[g].state.Success? && Apply(env, s, e).groups[g].state.Success?
    ensures e.gid == g && g in Active(s.groups) && JobsOf(Apply(env, s, e), g) != []
  {
    assert e.gid == g && ReportResult(env, s, g, e.id, e.state).Some?;
  }

  lemma NoOtherSuccess(env: Env, s: System, e: Event, g: GroupId)
    requires Known(env, s) && Enabled(env, s, e) && g in s.groups && g in Apply(env, s, e).groups && !e.Reported?
    ensures Apply(env, s, e).groups[g].state.Success? ==> s.groups[g].state.Success?
  {
    match e
    case ReserveGranted(_, _, _, _, _, _, _) =>
    case ReserveFailed(_, _) =>
    case Submitted(_, _, _, _, _) =>
    case GroupCancelled(_, _) =>
    case WorkerDied(_, _) =>
    case Reaped(_, _, _) =>
    case Swept(_) =>
    case Reconciled =>
    case Evicted(_) =>
    case Heartbeat(_, _, _) =>
  }

  // The last report on the job said success, or that nobody knows.
  ghost predicate EndedWell(env: Env, states: seq<System>, events: seq<Event>, i: nat, g: GroupId, n: nat)
    requires i <= |events| < |states|
  {
    || LastSaid(env, states, events, i, g, n, JobState.Success)
    || LastSaid(env, states, events, i, g, n, JobState.Unknown)
  }

  // In every run, in the step in which a group becomes successful: every job's last report said
  // success or unknown, so none is failed, cancelled or unfinished, and every reserved stage has
  // a job.
  lemma SuccessMeansReported(env: Env, states: seq<System>, events: seq<Event>, i: nat, g: GroupId)
    requires IsRun(env, states, events) && 0 < i < |states| && g in states[i - 1].groups && g in states[i].groups
    requires !states[i - 1].groups[g].state.Success? && states[i].groups[g].state.Success?
    ensures events[i - 1].Reported? && events[i - 1].gid == g
    ensures forall n: nat :: n < |JobsOf(states[i], g)| ==> EndedWell(env, states, events, i, g, n)
    ensures AllListed(states[i].groups[g].reservedStages, StagesIn(states[i], g))
  {
    RunInv(env, states, events, i - 1);
    assert IsStep(env, states[i - 1], events[i - 1], states[i]);
    StepIntoSuccess(env, states[i - 1], events[i - 1], g);
    ReportLeavesState(env, states[i - 1], events[i - 1]);
    RunOrderly(env, states, events, i, g);
    forall n: nat | n < |JobsOf(states[i], g)| ensures EndedWell(env, states, events, i, g, n) {
      StateIsLastReport(env, states, events, i, g, n, JobState.Success);
      StateIsLastReport(env, states, events, i, g, n, JobState.Unknown);
    }
  }
}
