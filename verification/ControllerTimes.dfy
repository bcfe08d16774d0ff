/**
  Which groups the background tasks pick, told from the events of a run. The controller keeps two
  time stamps per group; they are the times of its last activity and of its last change of state.
 */
module ControllerTimes {
  import opened Dag
  import opened JobGroups
  import opened ControllerModel
  import opened ControllerRuns
  import opened ControllerHistory

  // ---------- The two time stamps ----------

  // Reserving, submitting and reporting are activity.
  predicate Touches(e: Event, g: GroupId) {
    (e.ReserveGranted? || e.Submitted? || e.Reported?) && e.gid == g
  }

  // The group is granted, started by its first stage, or closed.
  predicate Moves(env: Env, s: System, e: Event, g: GroupId) {
    || (e.ReserveGranted? && e.gid == g)
    || (e.Submitted? && e.gid == g && g in s.groups && s.groups[g].state.Reserved?)
    || g in Closing(env, s, e)
  }

  function TimeOf(e: Event): nat {
    match e
    case ReserveGranted(_, _, _, _, _, _, now) => now
    case Submitted(_, _, _, _, now) => now
    case Reported(_, _, _, now) => now
    case GroupCancelled(_, now) => now
    case WorkerDied(_, now) => now
    case Reaped(now, _, _) => now
    case Swept(now) => now
    case _ => 0
  }

  // What a step does to the stamps and to the state of a known group.
  ghost predicate Stamped(env: Env, s: System, e: Event, g: GroupId, before: Group, after: Group) {
    && after.lastActivityAt == (if Touches(e, g) then TimeOf(e) else before.lastActivityAt)
    && after.updatedAt == (if Moves(env, s, e, g) then TimeOf(e) else before.updatedAt)
    && (!Moves(env, s, e, g) ==> after.state == before.state)
  }

  lemma ReportStamps(env: Env, s: System, e: Event, g: GroupId)
    requires Inv(env, s) && e.Reported? && g in s.groups
    ensures g in Apply(env, s, e).groups && Stamped(env, s, e, g, s.groups[g], Apply(env, s, e).groups[g])
  {
    if g == e.gid && ReportResult(env, s, g, e.id, e.state).Some? { ResultIsReached(env, s, e); }
  }

  lemma CloseStamps(env: Env, s: System, e: Event, g: GroupId)
    requires (e.GroupCancelled? || e.WorkerDied? || e.Reaped? || e.Swept?) && Enabled(env, s, e) && g in s.groups
    ensures g in Apply(env, s, e).groups && Stamped(env, s, e, g, s.groups[g], Apply(env, s, e).groups[g])
  {
  }

  lemma SubmitStamps(env: Env, s: System, e: Event, g: GroupId)
    requires e.Submitted? && Enabled(env, s, e) && g in s.groups
    ensures g in Apply(env, s, e).groups && Stamped(env, s, e, g, s.groups[g], Apply(env, s, e).groups[g])
  {
    assert Apply(env, s, e).groups[g] == if g == e.gid then SubmittedGroup(s.groups[g], e.now) else s.groups[g];
  }

  lemma OtherStamps(env: Env, s: System, e: Event, g: GroupId)
    requires Known(env, s) && Enabled(env, s, e) && g in s.groups && g in Apply(env, s, e).groups
    requires e.ReserveGranted? || e.ReserveFailed? || e.Reconciled? || e.Evicted? || e.Heartbeat?
    ensures Stamped(env, s, e, g, s.groups[g], Apply(env, s, e).groups[g])
  {
    assert e.ReserveGranted? ==> e.gid != g;
    assert Apply(env, s, e).groups[g] == s.groups[g];
  }

  lemma StepStamps(env: Env, s: System, e: Event, g: GroupId)
    requires Inv(env, s) && Enabled(env, s, e) && g in s.groups && g in Apply(env, s, e).groups
    ensures Stamped(env, s, e, g, s.groups[g], Apply(env, s, e).groups[g])
  {
    if e.Reported? {
      ReportStamps(env, s, e, g);
    } else if e.GroupCancelled? || e.WorkerDied? || e.Reaped? || e.Swept? {
      CloseStamps(env, s, e, g);
    } else if e.Submitted? {
      SubmitStamps(env, s, e, g);
    } else {
      OtherStamps(env, s, e, g);
    }
  }

  lemma GrantStamps(env: Env, s: System, e: Event, g: GroupId)
    requires Known(env, s) && Enabled(env, s, e) && g !in s.groups && g in Apply(env, s, e).groups
    ensures e.ReserveGranted? && e.gid == g
    ensures var group := Apply(env, s, e).groups[g]; group.lastActivityAt == group.updatedAt == TimeOf(e)
    ensures Apply(env, s, e).groups[g].state.Reserved?
  {
    StepAppears(env, s, e, g);
  }

  // The step before, seen from a group.
  lemma StampedBefore(env: Env, states: seq<System>, events: seq<Event>, i: nat, g: GroupId)
    requires IsRun(env, states, events) && i < |states| && g in states[i].groups
    ensures i > 0
    ensures g !in states[i - 1].groups ==>
              && Touches(events[i - 1], g) && Moves(env, states[i - 1], events[i - 1], g)
              && states[i].groups[g].lastActivityAt == states[i].groups[g].updatedAt == TimeOf(events[i - 1])
    ensures g in states[i - 1].groups ==>
              Stamped(env, states[i - 1], events[i - 1], g, states[i - 1].groups[g], states[i].groups[g])
  {
    assert i > 0;
    var s, e := states[i - 1], events[i - 1];
    RunInv(env, states, events, i - 1);
    assert IsStep(env, s, e, states[i]);
    if g !in s.groups { GrantStamps(env, s, e, g); } else { StepStamps(env, s, e, g); }
  }

  // Step `r` is the last activity of the group before state `i`.
  ghost predicate IsLastTouch(events: seq<Event>, i: nat, g: GroupId, r: nat)
    requires i <= |events|
  {
    r < i && Touches(events[r], g) && forall m :: r < m < i ==> !Touches(events[m], g)
  }

  // Step `r` is the last move of the group before state `i`.
  ghost predicate IsLastMove(env: Env, states: seq<System>, events: seq<Event>, i: nat, g: GroupId, r: nat)
    requires i <= |events| < |states|
  {
    && r < i && Moves(env, states[r], events[r], g)
    && forall m :: r < m < i ==> !Moves(env, states[m], events[m], g)
  }

  // In every run the first stamp is the time of the group's last activity.
  lemma {:induction false} LastTouch(env: Env, states: seq<System>, events: seq<Event>, i: nat, g: GroupId)
    returns (r: nat)
    requires IsRun(env, states, events) && i < |states| && g in states[i].groups
    ensures IsLastTouch(events, i, g, r) && states[i].groups[g].lastActivityAt == TimeOf(events[r])
    decreases i
  {
    StampedBefore(env, states, events, i, g);
    r := i - 1;
    if !Touches(events[r], g) { r := LastTouch(env, states, events, i - 1, g); }
  }

  lemma LastMoveStays(env: Env, states: seq<System>, events: seq<Event>, i: nat, g: GroupId, r: nat)
    requires i < |events| < |states| && IsLastMove(env, states, events, i, g, r)
    requires !Moves(env, states[i], events[i], g)
    ensures IsLastMove(env, states, events, i + 1, g, r)
  {
  }

  // The second is the time of its last move, since which its state is the same.
  lemma {:induction false} LastMove(env: Env, states: seq<System>, events: seq<Event>, i: nat, g: GroupId)
    returns (r: nat)
    requires IsRun(env, states, events) && i < |states| && g in states[i].groups
    ensures IsLastMove(env, states, events, i, g, r) && states[i].groups[g].updatedAt == TimeOf(events[r])
    ensures g in states[r + 1].groups && states[r + 1].groups[g].state == states[i].groups[g].state
    decreases i
  {
    StampedBefore(env, states, events, i, g);
    if Moves(env, states[i - 1], events[i - 1], g) {
      r := i - 1;
    } else {
      r := LastMove(env, states, events, i - 1, g);
      LastMoveStays(env, states, events, i - 1, g, r);
    }
  }

  // ---------- The reaper ----------

  // In every run the reaper closes exactly the reserved groups that saw nothing for longer than
  // the idle timeout, and the running groups without a running or assigned job that saw nothing
  // for longer than the stall timeout.
  lemma ReapedIff(env: Env, states: seq<System>, events: seq<Event>, i: nat, g: GroupId, r: nat)
    requires IsRun(env, states, events) && i < |events| && events[i].Reaped? && g in states[i].groups
    requires IsLastTouch(events, i, g, r)
    ensures var group, quiet := states[i].groups[g], events[i].now - TimeOf(events[r]);
            var jobs := JobsOf(states[i], g);
            g in Closing(env, states[i], events[i]) <==>
            || (group.state == GroupState.Reserved && quiet > events[i].idleTimeout)
            || (group.state == GroupState.Running && quiet > events[i].stallTimeout &&
                forall n :: 0 <= n < |jobs| ==>
                  jobs[n].state != JobState.Running && jobs[n].state != JobState.Assigned)
  {
    var r' := LastTouch(env, states, events, i, g);
    assert r == r';
  }

  // ---------- The sweep ----------

  // A group is running since its first submission.
  lemma RunningSince(env: Env, states: seq<System>, events: seq<Event>, i: nat, g: GroupId) returns (r: nat)
    requires IsRun(env, states, events) && i < |states| && g in states[i].groups && states[i].groups[g].state.Running?
    ensures r < i && events[r].Submitted? && events[r].gid == g && StagesIn(states[r], g) == []
    ensures states[i].groups[g].updatedAt == TimeOf(events[r])
  {
    r := LastMove(env, states, events, i, g);
    RunInv(env, states, events, r);
    assert IsStep(env, states[r], events[r], states[r + 1]);
    StartsRunning(env, states[r], events[r], g);
  }

  lemma StartsRunning(env: Env, s: System, e: Event, g: GroupId)
    requires Inv(env, s) && Enabled(env, s, e) && Moves(env, s, e, g)
    requires g in Apply(env, s, e).groups && Apply(env, s, e).groups[g].state.Running?
    ensures e.Submitted? && e.gid == g && StagesIn(s, g) == []
  {
    StepClosesExactly(env, s, e);
    if e.Submitted? && e.gid == g { assert OrderlyGroup(s.groups[g], s.jobs[g]); }
  }

  // In every run the sweep closes exactly the groups whose first submission was at least four
  // hours ago and that are still running.
  lemma SweptIff(env: Env, states: seq<System>, events: seq<Event>, i: nat, g: GroupId, r: nat)
    requires IsRun(env, states, events) && i < |events| && events[i].Swept? && g in states[i].groups
    requires FirstSubmission(states, events, i, g, r)
    ensures g in Closing(env, states[i], events[i]) <==>
            states[i].groups[g].state == GroupState.Running && events[i].now - TimeOf(events[r]) >= 4 * 60 * 60
  {
    if states[i].groups[g].state.Running? {
      var r' := RunningSince(env, states, events, i, g);
      OneFirstSubmission(env, states, events, i, g, r, r');
      OneFirstSubmission(env, states, events, i, g, r', r);
    }
  }

  lemma OneFirstSubmission(env: Env, states: seq<System>, events: seq<Event>, i: nat, g: GroupId, r: nat, q: nat)
    requires IsRun(env, states, events) && i <= |events|
    requires FirstSubmission(states, events, i, g, r) && FirstSubmission(states, events, i, g, q)
    ensures r >= q
  {
    if r < q {
      assert IsStep(env, states[r], events[r], states[r + 1]);
      assert IsStep(env, states[q], events[q], states[q + 1]);
      SubmitLists(env, states[r], events[r]);
      JobsGrow(env, states, events, r + 1, q, g);
    }
  }

  lemma SubmitLists(env: Env, s: System, e: Event)
    requires e.Submitted? && Enabled(env, s, e)
    ensures JobsOf(Apply(env, s, e), e.gid) != []
  {
  }

  ghost predicate FirstSubmission(states: seq<System>, events: seq<Event>, i: nat, g: GroupId, r: nat)
    requires i <= |events| < |states|
  {
    r < i && events[r].Submitted? && events[r].gid == g && StagesIn(states[r], g) == []
  }

  // ---------- Worker death ----------

  // A death closes exactly the worker's open groups without a queued or assigned job.
  lemma DiedIff(env: Env, s: System, e: Event, g: GroupId)
    requires Inv(env, s) && e.WorkerDied? && g in s.groups
    ensures g in Closing(env, s, e) <==>
            && (s.groups[g].state == GroupState.Reserved || s.groups[g].state == GroupState.Running)
            && s.groups[g].worker == e.w
            && forall n :: 0 <= n < |JobsOf(s, g)| ==>
                 JobsOf(s, g)[n].state != JobState.Queued && JobsOf(s, g)[n].state != JobState.Assigned
  {
    assert OrderlyGroup(s.groups[g], s.jobs[g]);
  }

  // ---------- Eviction ----------

  // In every run an eviction removes exactly the groups that were closed before the cutoff.
  lemma EvictedIff(env: Env, states: seq<System>, events: seq<Event>, i: nat, g: GroupId, r: nat)
    requires IsRun(env, states, events) && i < |events| && events[i].Evicted? && g in states[i].groups
    requires IsLastMove(env, states, events, i, g, r)
    ensures g !in states[i + 1].groups <==>
            g in Closing(env, states[r], events[r]) && TimeOf(events[r]) < events[i].cutoff
  {
    var r' := LastMove(env, states, events, i, g);
    assert r == r';
    assert IsStep(env, states[i], events[i], states[i + 1]);
    RunInv(env, states, events, r);
    assert IsStep(env, states[r], events[r], states[r + 1]);
    ClosedIffTerminal(env, states[r], events[r], g);
  }

  lemma ClosedIffTerminal(env: Env, s: System, e: Event, g: GroupId)
    requires Inv(env, s) && Enabled(env, s, e) && Moves(env, s, e, g) && g in Apply(env, s, e).groups
    ensures g in Closing(env, s, e) <==> IsTerminal(Apply(env, s, e).groups[g].state)
  {
    StepClosesExactly(env, s, e);
  }
}
