/**
  The controller's registries and handlers. Every handler is proved to take exactly one step of
  the state machine, and so to keep its invariant.

  Map iteration order is arbitrary. A handler runs to its end before the next one starts.
 */
module Controller {
  import opened Common
  import opened Dag
  import opened JobGroups
  import opened Ledger
  import opened ControllerModel
  import opened ControllerRuns

  datatype ReserveOutcome =
    | NoConnectedWorker
    | NoRoom
    | Refused(w: WorkerId)                          // blacklisted branch or too many builds
    | CycleDetected(w: WorkerId, stage: Stage)
    | Granted(w: WorkerId)

  datatype SubmitOutcome = GroupNotFound | DependenciesUnmet | AlreadySubmitted | Accepted
  datatype CancelOutcome = UnknownGroup | AlreadyTerminal | CancelAccepted

  // ---------- Loops against sets ----------

  // Closing one more group.
  lemma FailedMore(s: System, done: set<GroupId>, g: GroupId, now: nat)
    requires g in s.groups && g in s.jobs && g !in done
    ensures FailedGroups(s.groups, done + {g}, now) ==
            FailedGroups(s.groups, done, now)[g := s.groups[g].(state := GroupState.Failed, updatedAt := now)]
    ensures FailedJobs(s.jobs, done + {g}) == FailedJobs(s.jobs, done)[g := FailJobs(s.jobs[g])]
    ensures g in FailedGroups(s.groups, done, now) && FailedGroups(s.groups, done, now)[g] == s.groups[g]
    ensures g in FailedJobs(s.jobs, done) && FailedJobs(s.jobs, done)[g] == s.jobs[g]
  {
  }

  lemma MinusMinus(a: Resources, b: Resources, c: Resources)
    ensures Minus(Minus(a, b), c) == Minus(a, Plus(b, c))
  {
  }

  lemma ReleasedMore(env: Env, s: System, done: set<GroupId>, g: GroupId)
    requires g in s.groups && g !in done && g.id < env.idSpace
    ensures Released(env, s, done + {g}) == ReleasedOne(Released(env, s, done), s.groups[g])
  {
    var before, group, n := Released(env, s, done), s.groups[g], env.idSpace;
    forall w | w in s.workers
      ensures s.workers[w].(alloc := Minus(s.workers[w].alloc, SumOn(s.groups, done + {g}, w, n))) ==
              ReleasedOne(before, group)[w]
    {
      SumAdd(s.groups, done, w, g, n);
      MinusMinus(s.workers[w].alloc, SumOn(s.groups, done, w, n), Share(group, w));
    }
  }

  lemma ClosedMore(env: Env, s: System, done: set<GroupId>, g: GroupId, now: nat)
    requires g in s.groups && g in s.jobs && g !in done && g.id < env.idSpace
    ensures var before, after := Closed(env, s, done, now), Closed(env, s, done + {g}, now);
            && after.groups == before.groups[g := s.groups[g].(state := GroupState.Failed, updatedAt := now)]
            && after.jobs == before.jobs[g := FailJobs(s.jobs[g])]
            && after.workers == ReleasedOne(before.workers, s.groups[g])
  {
    FailedMore(s, done, g, now);
    ReleasedMore(env, s, done, g);
  }

  // Giving back what one group holds.
  function ReleasedOne(workers: map<WorkerId, Worker>, g: Group): map<WorkerId, Worker> {
    if g.worker in workers
    then workers[g.worker := workers[g.worker].(alloc := Minus(workers[g.worker].alloc, g.alloc))]
    else workers
  }

  lemma ClosedNone(env: Env, s: System, now: nat)
    ensures Closed(env, s, {}, now) == s
  {
    forall w | w in s.workers
      ensures Minus(s.workers[w].alloc, SumOn(s.groups, {}, w, env.idSpace)) == s.workers[w].alloc
    {
      SumNone(s.groups, w, env.idSpace);
    }
  }

  lemma ReleasedSingle(env: Env, s: System, g: GroupId)
    requires g in s.groups && g.id < env.idSpace
    ensures Released(env, s, {g}) == ReleasedOne(s.workers, s.groups[g])
  {
    ClosedNone(env, s, 0);
    ReleasedMore(env, s, {}, g);
    assert {} + {g} == {g};
  }

  // Groups of one worker hold nothing on the others.
  lemma {:induction false} SumElsewhere(groups: map<GroupId, Group>, ids: set<GroupId>, w: WorkerId, other: WorkerId,
                                        n: nat)
    requires other != w && forall g :: g in ids && g in groups ==> groups[g].worker == w
    ensures SumOn(groups, ids, other, n) == Nothing()
    decreases n
  {
    if n > 0 { SumElsewhere(groups, ids, w, other, n - 1); }
  }

  // Only a worker's own groups add to its sum.
  function OwnGroups(groups: map<GroupId, Group>, ids: set<GroupId>, w: WorkerId): set<GroupId> {
    set g | g in ids && g in groups && groups[g].worker == w
  }

  lemma {:induction false} SumOwn(groups: map<GroupId, Group>, ids: set<GroupId>, w: WorkerId, n: nat)
    ensures SumOn(groups, ids, w, n) == SumOn(groups, OwnGroups(groups, ids, w), w, n)
    decreases n
  {
    if n > 0 { SumOwn(groups, ids, w, n - 1); }
  }

  // A worker that passed the filter can be charged: the sums stay within its caps.
  lemma RoomMeansAllocatable(w: Worker, need: Resources)
    requires WithinCaps(w) && HasRoom(w, need)
    ensures CanAllocate(w, need)
  {
  }

  class ControllerState {
    const env: Env
    var groups: map<GroupId, Group>
    var groupJobs: map<GroupId, seq<Job>>
    var workers: map<WorkerId, Worker>
    ghost var leaked: map<WorkerId, Resources>
    ghost var used: set<GroupId>

    ghost function View(): System
      reads this
    {
      System(groups, groupJobs, workers, leaked, used)
    }

    ghost predicate Valid()
      reads this
    {
      Inv(env, View())
    }

    constructor (env: Env, workers: map<WorkerId, Worker>)
      requires forall w :: w in workers ==> workers[w].alloc == Nothing()
      ensures Initial(View()) && Valid() && this.env == env && this.workers == workers
    {
      this.env := env;
      groups, groupJobs, this.workers := map[], map[], workers;
      leaked, used := map w | w in workers :: Nothing(), {};
      new;
      InitialInv(env, View());
    }

    // ---------- The group registry ----------

    method UpdateState(gid: GroupId, t: GroupState, now: nat) returns (ok: bool)
      modifies this`groups
      ensures groups == if gid in old(groups) then old(groups)[gid := Moved(old(groups)[gid], t, now)] else old(groups)
      ensures ok <==> gid in old(groups) && ValidTransition(old(groups)[gid].state, t)
    {
      ok := false;
      if gid in groups {
        var group := groups[gid];
        ok := ValidTransition(group.state, t);
        if ok {
          groups := groups[gid := group.(state := t, updatedAt := now)];
        }
      }
    }

    method FailGroupJobs(gid: GroupId, now: nat)
      modifies this`groups, this`groupJobs
      ensures groupJobs == if gid in old(groupJobs)
                           then old(groupJobs)[gid := FailJobs(old(groupJobs)[gid])] else old(groupJobs)
      ensures groups == if gid in old(groups)
                        then old(groups)[gid := old(groups)[gid].(state := GroupState.Failed, updatedAt := now)]
                        else old(groups)
    {
      if gid in groupJobs {
        var jobs := groupJobs[gid];
        for i := 0 to |jobs|
          invariant |jobs| == |groupJobs[gid]|
          invariant forall k :: 0 <= k < |jobs| ==>
                      jobs[k] == if k < i then FailJob(groupJobs[gid][k]) else groupJobs[gid][k]
        {
          if !IsDone(jobs[i].state) {
            jobs := jobs[i := jobs[i].(state := JobState.Failed)];
          }
        }
        assert jobs == FailJobs(groupJobs[gid]);
        groupJobs := groupJobs[gid := jobs];
      }
      var _ := UpdateState(gid, GroupState.Failed, now);
    }

    // The first job that matches takes the new state.
    method UpdateJobInGroup(gid: GroupId, id: JobId, state: JobState)
      modifies this`groupJobs
      ensures groupJobs == ReportedJobs(env, old(View()), gid, id, state)
    {
      if gid !in groupJobs { return; }
      var jobs := groupJobs[gid];
      var i := 0;
      while i < |jobs| && !JobIdMatches(jobs[i].id, id, env.hash)
        invariant 0 <= i <= |jobs| && forall k :: 0 <= k < i ==> !JobIdMatches(jobs[k].id, id, env.hash)
      {
        i := i + 1;
      }
      if i < |jobs| {
        jobs := jobs[i := jobs[i].(state := state)];
      }
      assert jobs == SetJobState(groupJobs[gid], id, state, env.hash);
      groupJobs := groupJobs[gid := jobs];
    }

    // The state the group completes in, entered at once.
    method CheckGroupCompletion(gid: GroupId, now: nat) returns (r: Option<GroupState>)
      modifies this`groups
      ensures r == if gid in old(groups) && gid in groupJobs then Completion(old(groups)[gid], groupJobs[gid]) else None
      ensures groups == if r.Some? then old(groups)[gid := Moved(old(groups)[gid], r.value, now)] else old(groups)
    {
      if gid !in groups { return None; }
      var group := groups[gid];
      if IsTerminal(group.state) { return None; }
      if gid !in groupJobs { return None; }
      var jobs := groupJobs[gid];
      if jobs == [] { return None; }
      var anyFailed := AnyInState(jobs, JobState.Failed);
      var anyCancelled := AnyInState(jobs, JobState.Cancelled);
      if anyFailed || anyCancelled {
        var newState := if anyFailed then GroupState.Failed else GroupState.Cancelled;
        var _ := UpdateState(gid, newState, now);
        return Some(newState);
      }
      var allTerminal := forall i :: 0 <= i < |jobs| ==> IsDone(jobs[i].state);
      if !allTerminal { return None; }
      if group.reservedStages != [] {
        var submitted := StagesOf(jobs);
        var missing := exists s :: s in group.reservedStages && s !in submitted;
        if missing { return None; }
      }
      var _ := UpdateState(gid, GroupState.Success, now);
      return Some(GroupState.Success);
    }

    // Groups of a dead worker: those with stages left to start, and the others.
    method HandleWorkerDeath(w: WorkerId) returns (toMigrate: set<GroupId>, toFail: set<GroupId>)
      ensures toFail == Doomed(View(), w)
      ensures toMigrate == OwnGroups(groups, Active(groups), w) - toFail
    {
      toMigrate, toFail := {}, {};
      var todo := OwnGroups(groups, Active(groups), w);
      ghost var seen := {};
      while todo != {}
        invariant todo + seen == OwnGroups(groups, Active(groups), w) && todo !! seen
        invariant toFail == Doomed(View(), w) * seen && toMigrate == seen - toFail
        decreases todo
      {
        var g :| g in todo;
        var jobs := if g in groupJobs then groupJobs[g] else [];
        if HasPending(jobs) { toMigrate := toMigrate + {g}; } else { toFail := toFail + {g}; }
        todo, seen := todo - {g}, seen + {g};
      }
    }

    method EvictTerminal(cutoff: nat) returns (count: nat)
      requires Valid()
      modifies this
      ensures Valid() && IsStep(env, old(View()), Evicted(cutoff), View())
      ensures count == |Evictable(old(View()), cutoff)|
    {
      ghost var s := View();
      StepInv(env, s, Evicted(cutoff));
      var toRemove := set g | g in groups && IsTerminal(groups[g].state) && groups[g].updatedAt < cutoff;
      assert toRemove == Evictable(s, cutoff);
      count := |toRemove|;
      RemoveGroups(toRemove);
    }

    method RemoveGroups(ids: set<GroupId>)
      modifies this`groups, this`groupJobs
      ensures groups == old(groups) - ids && groupJobs == old(groupJobs) - ids
    {
      var todo := ids;
      while todo != {}
        invariant todo <= ids
        invariant groups == old(groups) - (ids - todo) && groupJobs == old(groupJobs) - (ids - todo)
        decreases todo
      {
        var g :| g in todo;
        groups, groupJobs := groups - {g}, groupJobs - {g};
        todo := todo - {g};
      }
      assert ids - todo == ids;
    }

    // ---------- Handlers ----------

    method Release(w: WorkerId, r: Resources)
      modifies this`workers
      ensures workers == if w in old(workers)
                         then old(workers)[w := old(workers)[w].(alloc := Minus(old(workers)[w].alloc, r))]
                         else old(workers)
    {
      if w in workers {
        workers := workers[w := workers[w].(alloc := Minus(workers[w].alloc, r))];
      }
    }

    // Charging the first candidate that can be charged, in an order the scheduler chooses.
    method SelectWorker(need: Resources) returns (selected: Option<WorkerId>)
      modifies this`workers
      ensures selected.None? ==> workers == old(workers)
      ensures selected.None? ==>
                forall w :: w in workers && workers[w].connected ==>
                  need != Nothing() && !(HasRoom(workers[w], need) && CanAllocate(workers[w], need))
      ensures selected.Some? ==>
                && selected.value in old(workers) && old(workers)[selected.value].connected
                && HasRoom(old(workers)[selected.value], need)
                && (need == Nothing() || CanAllocate(old(workers)[selected.value], need))
                && workers == Charged(old(workers), selected.value, need)
    {
      var candidates := set w | w in workers && workers[w].connected &&
        (need == Nothing() || HasRoom(workers[w], need));
      var todo := candidates;
      while todo != {}
        invariant workers == old(workers) && todo <= candidates
        invariant forall w :: w in candidates && w !in todo ==> need != Nothing() && !CanAllocate(workers[w], need)
        decreases todo
      {
        var w :| w in todo;
        todo := todo - {w};
        if need == Nothing() || CanAllocate(workers[w], need) {
          workers := workers[w := workers[w].(alloc := Plus(workers[w].alloc, need))];
          return Some(w);
        }
      }
      return None;
    }

    // With counters within the caps, every connected worker with room can be charged.
    method ChargeWorker(need: Resources) returns (selected: Option<WorkerId>)
      requires Capped(View())
      modifies this`workers
      ensures selected.None? ==> workers == old(workers)
      ensures selected.None? <==>
                forall w :: w in old(workers) && old(workers)[w].connected ==> Short(old(workers)[w], need)
      ensures selected.Some? ==>
                && selected.value in old(workers) && old(workers)[selected.value].connected
                && !Short(old(workers)[selected.value], need)
                && (need == Nothing() || CanAllocate(old(workers)[selected.value], need))
                && workers == Charged(old(workers), selected.value, need)
    {
      ghost var s := View();
      selected := SelectWorker(need);
      RoomIffNotShort(s, need);
      if selected.None? { NoneHasRoom(View(), need); }
    }

    // Reserving a worker for a new group. Once a worker is charged, a blacklisted branch, too
    // many builds or cyclic dependencies end the call without giving the charge back.
    // Dependencies that could not be read count as none.
    method ReserveWorker(gid: GroupId, repo: RepoId, need: Resources, stages: seq<Stage>,
                         blacklisted: set<WorkerId>, overLimit: bool, depsRead: bool, now: nat)
      returns (outcome: ReserveOutcome)
      requires Valid() && gid !in used && gid.id < env.idSpace
      modifies this
      ensures Valid()
      ensures outcome.NoConnectedWorker? || outcome.NoRoom? ==> View() == old(View())
      ensures outcome.NoConnectedWorker? <==> forall w :: w in old(workers) ==> !old(workers)[w].connected
      ensures outcome.NoRoom? <==>
                && (exists w :: w in old(workers) && old(workers)[w].connected)
                && (forall w :: w in old(workers) && old(workers)[w].connected ==> Short(old(workers)[w], need))
      ensures outcome.Refused? || outcome.CycleDetected? ==>
                IsStep(env, old(View()), ReserveFailed(outcome.w, need), View())
      ensures outcome.Refused? ==> outcome.w in blacklisted || overLimit
      ensures outcome.CycleDetected? ==> depsRead && ReachesCycle(DepsOf(env, repo), outcome.stage)
      ensures outcome.Granted? ==>
                && outcome.w !in blacklisted && !overLimit
                && outcome.w in old(workers) && old(workers)[outcome.w].connected
                && !Short(old(workers)[outcome.w], need)
                && IsStep(env, old(View()), ReserveGranted(gid, outcome.w, need, repo, stages, depsRead, now), View())
    {
      ghost var s := View();
      if forall w :: w in workers ==> !workers[w].connected { return NoConnectedWorker; }
      var selected := ChargeWorker(need);
      if selected.None? { return NoRoom; }
      var w := selected.value;
      if w in blacklisted || overLimit {
        leaked := leaked[w := Plus(leaked[w], need)];
        ReserveFailedIsStep(env, s, View(), w, need);
        return Refused(w);
      }
      var sorted := ValidateDag(DepsSeen(env, repo, depsRead));
      if sorted.CycleAt? {
        if !depsRead { NoDepsNoCycle(sorted.stage); }
        leaked := leaked[w := Plus(leaked[w], need)];
        ReserveFailedIsStep(env, s, View(), w, need);
        return CycleDetected(w, sorted.stage);
      }
      AddGroup(gid, Group(GroupState.Reserved, w, repo, need, stages, now, now));
      used := used + {gid};
      GrantIsStep(env, s, View(), gid, w, need, repo, stages, depsRead, now);
      return Granted(w);
    }

    method AddGroup(gid: GroupId, g: Group)
      modifies this`groups, this`groupJobs
      ensures groups == old(groups)[gid := g]
      ensures groupJobs == old(groupJobs)[gid := if gid in old(groupJobs) then old(groupJobs)[gid] else []]
    {
      if gid !in groupJobs { groupJobs := groupJobs[gid := []]; }
      groups := groups[gid := g];
    }

    // Both gates, then the job is queued. The group's own state is not looked at, and
    // dependencies that could not be read count as none.
    method SubmitStage(gid: GroupId, id: JobId, stage: Stage, depsRead: bool, now: nat) returns (outcome: SubmitOutcome)
      requires Valid()
      modifies this
      ensures Valid()
      ensures !outcome.Accepted? ==> View() == old(View())
      ensures outcome.GroupNotFound? <==> gid !in old(groups)
      ensures gid in old(groups) ==>
                var jobs, deps := JobsOf(old(View()), gid), DepsSeen(env, old(groups)[gid].repo, depsRead);
                && (outcome.DependenciesUnmet? <==> !CanSubmitStage(jobs, ParentsOf(deps, stage)))
                && (outcome.Accepted? <==> Admits(jobs, deps, stage))
      ensures outcome.Accepted? ==> IsStep(env, old(View()), Submitted(gid, id, stage, depsRead, now), View())
    {
      if gid !in groups { return GroupNotFound; }
      var jobs := if gid in groupJobs then groupJobs[gid] else [];
      var dependsOn := ParentsOf(DepsSeen(env, groups[gid].repo, depsRead), stage);
      if dependsOn != [] && !CanSubmitStage(jobs, dependsOn) { return DependenciesUnmet; }
      if stage in StagesOf(jobs) { return AlreadySubmitted; }
      QueueJob(gid, id, stage, depsRead, now);
      return Accepted;
    }

    method QueueJob(gid: GroupId, id: JobId, stage: Stage, ghost depsRead: bool, now: nat)
      requires Valid() && gid in groups && Admits(JobsOf(View(), gid), DepsSeen(env, groups[gid].repo, depsRead), stage)
      modifies this
      ensures Valid() && IsStep(env, old(View()), Submitted(gid, id, stage, depsRead, now), View())
    {
      ghost var s := View();
      if groups[gid].state.Reserved? {
        var _ := UpdateState(gid, GroupState.Running, now);
      }
      var jobs := if gid in groupJobs then groupJobs[gid] else [];
      groupJobs := groupJobs[gid := jobs + [Job(id, stage, JobState.Queued)]];
      groups := groups[gid := groups[gid].(lastActivityAt := now)];
      SubmitIsStep(env, s, View(), gid, id, stage, depsRead, now);
    }

    method ReportJobStatus(gid: GroupId, id: JobId, state: JobState, now: nat) returns (completed: Option<GroupState>)
      requires Valid()
      modifies this
      ensures Valid() && IsStep(env, old(View()), Reported(gid, id, state, now), View())
      ensures completed == ReportResult(env, old(View()), gid, id, state)
      ensures completed.Some? ==> gid in old(groups) && !IsTerminal(old(groups)[gid].state)
      ensures completed.Some? ==> gid in groups && groups[gid].state == completed.value && IsTerminal(completed.value)
    {
      ghost var s := View();
      completed := RecordReport(gid, id, state, now);
      if completed.Some? {
        Release(groups[gid].worker, groups[gid].alloc);
        ClosingReportIsStep(env, s, View(), gid, id, state, now);
      } else {
        OpenReportIsStep(env, s, View(), gid, id, state, now);
      }
    }

    method RecordReport(gid: GroupId, id: JobId, state: JobState, now: nat) returns (completed: Option<GroupState>)
      modifies this`groups, this`groupJobs
      ensures completed == ReportResult(env, old(View()), gid, id, state)
      ensures groupJobs == ReportedJobs(env, old(View()), gid, id, state)
      ensures completed.Some? ==>
                && gid in old(groups)
                && groups == old(groups)[gid := Moved(old(groups)[gid].(lastActivityAt := now), completed.value, now)]
      ensures completed.None? ==>
                groups == if gid in old(groups)
                          then old(groups)[gid := old(groups)[gid].(lastActivityAt := now)] else old(groups)
    {
      UpdateJobInGroup(gid, id, state);
      if gid in groups {
        if gid in groupJobs { CompletionIgnoresActivity(groups[gid], groupJobs[gid], now); }
        groups := groups[gid := groups[gid].(lastActivityAt := now)];
      }
      completed := CheckGroupCompletion(gid, now);
    }

    // Into an interim state, then failed with its jobs, and the allocation given back.
    method CloseAndRelease(gid: GroupId, interim: GroupState, now: nat)
      requires gid in groups && gid in groupJobs
      modifies this`groups, this`groupJobs, this`workers
      ensures groups == old(groups)[gid := old(groups)[gid].(state := GroupState.Failed, updatedAt := now)]
      ensures groupJobs == old(groupJobs)[gid := FailJobs(old(groupJobs)[gid])]
      ensures workers == ReleasedOne(old(workers), old(groups)[gid])
    {
      var group := groups[gid];
      var _ := UpdateState(gid, interim, now);
      FailGroupJobs(gid, now);
      Release(group.worker, group.alloc);
    }

    // The group is cancelled first and then failed with its jobs: it ends as Failed.
    method CancelGroup(gid: GroupId, now: nat) returns (outcome: CancelOutcome)
      requires Valid()
      modifies this
      ensures Valid()
      ensures outcome.UnknownGroup? <==> gid !in old(groups)
      ensures outcome.AlreadyTerminal? <==> gid in old(groups) && IsTerminal(old(groups)[gid].state)
      ensures !outcome.CancelAccepted? ==> View() == old(View())
      ensures outcome.CancelAccepted? ==> IsStep(env, old(View()), GroupCancelled(gid, now), View())
    {
      if gid !in groups { return UnknownGroup; }
      if IsTerminal(groups[gid].state) { return AlreadyTerminal; }
      ghost var s := View();
      CloseAndRelease(gid, GroupState.Cancelled, now);
      CancelIsStep(env, s, View(), gid, now);
      return CancelAccepted;
    }

    // ---------- Background tasks ----------

    // A timed-out worker: its groups with nothing left to start are failed, and what they held
    // is added up and given back at once.
    method OnWorkerDeath(w: WorkerId, now: nat)
      requires Valid() && w in workers
      modifies this
      ensures Valid() && IsStep(env, old(View()), WorkerDied(w, now), View())
    {
      ghost var s := View();
      var _, toFail := HandleWorkerDeath(w);
      var totals := FailAll(toFail, w, now);
      ReleaseTotals(w, totals);
      DeathIsStep(env, s, View(), w, now);
    }

    method ReleaseTotals(w: WorkerId, totals: Resources)
      requires w in workers
      modifies this`workers
      ensures workers == old(workers)[w := old(workers)[w].(alloc := Minus(old(workers)[w].alloc, totals))]
    {
      if totals != Nothing() { Release(w, totals); }
    }

    method FailAll(gids: set<GroupId>, ghost w: WorkerId, now: nat) returns (totals: Resources)
      requires Known(env, View()) && gids <= groups.Keys
      requires forall g :: g in gids ==> groups[g].worker == w
      modifies this`groups, this`groupJobs
      ensures groups == FailedGroups(old(groups), gids, now) && groupJobs == FailedJobs(old(groupJobs), gids)
      ensures totals == SumOn(old(groups), gids, w, env.idSpace)
    {
      ghost var s := View();
      totals := Nothing();
      var todo := gids;
      ghost var done: set<GroupId> := {};
      SumNone(s.groups, w, env.idSpace);
      while todo != {}
        invariant done !! todo && done + todo == gids
        invariant groups == FailedGroups(s.groups, done, now) && groupJobs == FailedJobs(s.jobs, done)
        invariant totals == SumOn(s.groups, done, w, env.idSpace)
        decreases todo
      {
        var g :| g in todo;
        FailedMore(s, done, g, now);
        SumAdd(s.groups, done, w, g, env.idSpace);
        FailGroupJobs(g, now);
        totals := Plus(totals, groups[g].alloc);
        todo, done := todo - {g}, done + {g};
      }
      assert done == gids;
    }

    // Reservations nobody uses, and runs without running jobs that went quiet.
    method ReapStaleReservations(idleTimeout: nat, stallTimeout: nat, now: nat)
      requires Valid()
      modifies this
      ensures Valid() && IsStep(env, old(View()), Reaped(now, idleTimeout, stallTimeout), View())
    {
      ghost var s := View();
      var stale := set g | g in Active(groups) &&
        IsStale(groups[g], if g in groupJobs then groupJobs[g] else [], now, idleTimeout, stallTimeout);
      assert stale == Stale(s, now, idleTimeout, stallTimeout);
      ReapAll(stale, now);
      StepInv(env, s, Reaped(now, idleTimeout, stallTimeout));
    }

    method ReapAll(gids: set<GroupId>, now: nat)
      requires Known(env, View()) && gids <= groups.Keys
      modifies this`groups, this`groupJobs, this`workers
      ensures View() == Closed(env, old(View()), gids, now)
    {
      ghost var s := View();
      ghost var done: set<GroupId> := {};
      var todo := gids;
      ClosedNone(env, s, now);
      while todo != {}
        invariant done !! todo && done + todo == gids
        invariant View() == Closed(env, s, done, now)
        decreases todo
      {
        var g :| g in todo;
        FailedMore(s, done, g, now);
        ClosedMore(env, s, done, g, now);
        CloseAndRelease(g, GroupState.Expired, now);
        todo, done := todo - {g}, done + {g};
      }
      assert done == gids;
    }

    // Groups running for four hours are failed where they stand: neither their jobs nor their
    // allocation is touched.
    method SweepStuckGroups(now: nat)
      requires Valid()
      modifies this
      ensures Valid() && IsStep(env, old(View()), Swept(now), View())
    {
      ghost var s := View();
      var stuck := Stuck(System(groups, groupJobs, workers, map[], {}), now);
      assert stuck == Stuck(s, now);
      FailStates(stuck, now);
      leaked := map w | w in s.leaked :: Plus(s.leaked[w], SumOn(s.groups, Stuck(s, now), w, env.idSpace));
      StepInv(env, s, Swept(now));
    }

    method FailStates(gids: set<GroupId>, now: nat)
      requires Known(env, View()) && gids <= groups.Keys
      modifies this`groups
      ensures groups == FailedGroups(old(groups), gids, now)
    {
      ghost var s := View();
      ghost var done: set<GroupId> := {};
      var todo := gids;
      while todo != {}
        invariant done !! todo && done + todo == gids
        invariant groups == FailedGroups(s.groups, done, now)
        decreases todo
      {
        var g :| g in todo;
        FailedMore(s, done, g, now);
        var _ := UpdateState(g, GroupState.Failed, now);
        todo, done := todo - {g}, done + {g};
      }
      assert done == gids;
    }

    // First the sums for all workers, then the counters that differ are overwritten.
    method ReconcileWorkerAllocations()
      requires Valid()
      modifies this
      ensures Valid() && IsStep(env, old(View()), Reconciled, View())
      ensures forall w :: w in workers ==> workers[w].alloc == SumOn(groups, Active(groups), w, env.idSpace)
    {
      ghost var s := View();
      var expected := ExpectedAllocations();
      CorrectCounters(expected);
      leaked := map w | w in workers :: Nothing();
      ReconcileIsStep(env, s, View());
    }

    method ExpectedAllocations() returns (expected: map<WorkerId, Resources>)
      requires Known(env, View())
      ensures expected.Keys == workers.Keys
      ensures forall w :: w in expected ==> expected[w] == SumOn(groups, Active(groups), w, env.idSpace)
    {
      expected := map[];
      var todo := workers.Keys;
      while todo != {}
        invariant todo <= workers.Keys && expected.Keys == workers.Keys - todo
        invariant forall w :: w in expected ==> expected[w] == SumOn(groups, Active(groups), w, env.idSpace)
        decreases todo
      {
        var w :| w in todo;
        var sum := ExpectedAllocation(w);
        expected, todo := expected[w := sum], todo - {w};
      }
    }

    method ExpectedAllocation(w: WorkerId) returns (sum: Resources)
      requires Known(env, View())
      ensures sum == SumOn(groups, Active(groups), w, env.idSpace)
    {
      sum := Nothing();
      var todo := OwnGroups(groups, Active(groups), w);
      ghost var counted: set<GroupId> := {};
      SumNone(groups, w, env.idSpace);
      while todo != {}
        invariant todo <= OwnGroups(groups, Active(groups), w)
        invariant counted == OwnGroups(groups, Active(groups), w) - todo
        invariant sum == SumOn(groups, counted, w, env.idSpace)
        decreases todo
      {
        var g :| g in todo;
        SumAdd(groups, counted, w, g, env.idSpace);
        sum := Plus(sum, groups[g].alloc);
        todo, counted := todo - {g}, counted + {g};
      }
      assert counted == OwnGroups(groups, Active(groups), w);
      SumOwn(groups, Active(groups), w, env.idSpace);
    }

    method CorrectCounters(expected: map<WorkerId, Resources>)
      requires expected.Keys == workers.Keys
      modifies this`workers
      ensures workers.Keys == old(workers).Keys
      ensures forall w :: w in workers ==> workers[w] == old(workers)[w].(alloc := expected[w])
    {
      ghost var before := workers;
      var todo := workers.Keys;
      while todo != {}
        invariant todo <= workers.Keys == before.Keys
        invariant forall w :: w in before ==>
                    workers[w] == if w in todo then before[w] else before[w].(alloc := expected[w])
        decreases todo
      {
        var w :| w in todo;
        if workers[w].alloc != expected[w] {
          workers := workers[w := workers[w].(alloc := expected[w])];
        }
        todo := todo - {w};
      }
    }
  }

  // The need would push a counter over its cap, or is more than the disk space left.
  predicate Short(w: Worker, need: Resources) {
    || w.alloc.cpu + need.cpu > w.cpuCap || w.alloc.memoryMb + need.memoryMb > w.memoryCap
    || need.diskMb > w.freeDiskMb
  }

  // The filter and the allocation agree on what that is.
  lemma RoomIffNotShort(s: System, need: Resources)
    requires Capped(s)
    ensures forall w :: w in s.workers ==>
              && (HasRoom(s.workers[w], need) <==> !Short(s.workers[w], need))
              && (CanAllocate(s.workers[w], need) <==> !Short(s.workers[w], need))
  {
    forall w | w in s.workers
      ensures HasRoom(s.workers[w], need) <==> !Short(s.workers[w], need)
      ensures CanAllocate(s.workers[w], need) <==> !Short(s.workers[w], need)
    {
      assert WithinCaps(s.workers[w]);
    }
  }

  // No worker has room, when none that has room could be charged.
  lemma NoneHasRoom(s: System, need: Resources)
    requires Capped(s)
    requires forall w :: w in s.workers && s.workers[w].connected ==>
               !(HasRoom(s.workers[w], need) && CanAllocate(s.workers[w], need))
    ensures forall w :: w in s.workers && s.workers[w].connected ==> !HasRoom(s.workers[w], need)
  {
    forall w | w in s.workers && s.workers[w].connected
      ensures !HasRoom(s.workers[w], need)
    {
      assert WithinCaps(s.workers[w]);
      if HasRoom(s.workers[w], need) { RoomMeansAllocatable(s.workers[w], need); }
    }
  }

  lemma NoDepsNoCycle(n: Stage)
    ensures !ReachesCycle(map[], n)
  {
    forall path ensures !IsCycle(map[], path) {}
  }

  lemma CompletionIgnoresActivity(g: Group, jobs: seq<Job>, now: nat)
    ensures Completion(g.(lastActivityAt := now), jobs) == Completion(g, jobs)
  {
  }

  // ---------- Handlers take steps ----------

  lemma ReserveFailedIsStep(env: Env, s: System, s': System, w: WorkerId, need: Resources)
    requires Inv(env, s) && w in s.workers && (need == Nothing() || CanAllocate(s.workers[w], need))
    requires s'.workers == Charged(s.workers, w, need) && s'.leaked == s.leaked[w := Plus(s.leaked[w], need)]
    requires s'.groups == s.groups && s'.jobs == s.jobs && s'.used == s.used
    ensures IsStep(env, s, ReserveFailed(w, need), s') && Inv(env, s')
  {
    StepInv(env, s, ReserveFailed(w, need));
  }

  lemma GrantIsStep(env: Env, s: System, s': System, gid: GroupId, w: WorkerId, need: Resources, repo: RepoId,
                    stages: seq<Stage>, depsRead: bool, now: nat)
    requires Inv(env, s) && gid !in s.used && gid.id < env.idSpace && Acyclic(DepsSeen(env, repo, depsRead))
    requires w in s.workers && (need == Nothing() || CanAllocate(s.workers[w], need))
    requires s'.workers == Charged(s.workers, w, need) && s'.leaked == s.leaked && s'.used == s.used + {gid}
    requires s'.groups == s.groups[gid := Group(GroupState.Reserved, w, repo, need, stages, now, now)]
    requires s'.jobs == s.jobs[gid := JobsOf(s, gid)]
    ensures IsStep(env, s, ReserveGranted(gid, w, need, repo, stages, depsRead, now), s') && Inv(env, s')
  {
    StepInv(env, s, ReserveGranted(gid, w, need, repo, stages, depsRead, now));
  }

  lemma SubmitIsStep(env: Env, s: System, s': System, gid: GroupId, id: JobId, stage: Stage, depsRead: bool, now: nat)
    requires Inv(env, s) && gid in s.groups
    requires Admits(JobsOf(s, gid), DepsSeen(env, s.groups[gid].repo, depsRead), stage)
    requires s'.groups == s.groups[gid := SubmittedGroup(s.groups[gid], now)]
    requires s'.jobs == s.jobs[gid := JobsOf(s, gid) + [Job(id, stage, JobState.Queued)]]
    requires s'.workers == s.workers && s'.leaked == s.leaked && s'.used == s.used
    ensures IsStep(env, s, Submitted(gid, id, stage, depsRead, now), s') && Inv(env, s')
  {
    StepInv(env, s, Submitted(gid, id, stage, depsRead, now));
  }

  lemma OpenReportIsStep(env: Env, s: System, s': System, gid: GroupId, id: JobId, state: JobState, now: nat)
    requires Inv(env, s) && ReportResult(env, s, gid, id, state).None?
    requires s'.jobs == ReportedJobs(env, s, gid, id, state)
    requires s'.groups == if gid in s.groups then s.groups[gid := s.groups[gid].(lastActivityAt := now)] else s.groups
    requires s'.workers == s.workers && s'.leaked == s.leaked && s'.used == s.used
    ensures IsStep(env, s, Reported(gid, id, state, now), s') && Inv(env, s')
  {
    StepInv(env, s, Reported(gid, id, state, now));
  }

  lemma ClosingReportIsStep(env: Env, s: System, s': System, gid: GroupId, id: JobId, state: JobState, now: nat)
    requires Inv(env, s) && gid in s.groups && ReportResult(env, s, gid, id, state).Some?
    requires s'.jobs == ReportedJobs(env, s, gid, id, state)
    requires s'.groups == s.groups[gid := Moved(s.groups[gid].(lastActivityAt := now),
                                                ReportResult(env, s, gid, id, state).value, now)]
    requires s'.workers == ReleasedOne(s.workers, s.groups[gid])
    requires s'.leaked == s.leaked && s'.used == s.used
    ensures IsStep(env, s, Reported(gid, id, state, now), s') && Inv(env, s')
    ensures !IsTerminal(s.groups[gid].state) && IsTerminal(s'.groups[gid].state)
    ensures Some(s'.groups[gid].state) == ReportResult(env, s, gid, id, state)
  {
    var e := Reported(gid, id, state, now);
    ReleasedSingle(env, s, gid);
    ResultIsReached(env, s, e);
    StepInv(env, s, e);
  }

  lemma CancelIsStep(env: Env, s: System, s': System, gid: GroupId, now: nat)
    requires Inv(env, s) && gid in s.groups && gid in s.jobs && !IsTerminal(s.groups[gid].state)
    requires s'.groups == s.groups[gid := s.groups[gid].(state := GroupState.Failed, updatedAt := now)]
    requires s'.jobs == s.jobs[gid := FailJobs(s.jobs[gid])]
    requires s'.workers == ReleasedOne(s.workers, s.groups[gid])
    requires s'.leaked == s.leaked && s'.used == s.used
    ensures IsStep(env, s, GroupCancelled(gid, now), s') && Inv(env, s')
  {
    ClosedNone(env, s, now);
    ClosedMore(env, s, {}, gid, now);
    assert {} + {gid} == {gid};
    StepInv(env, s, GroupCancelled(gid, now));
  }

  lemma DeathIsStep(env: Env, s: System, s': System, w: WorkerId, now: nat)
    requires Inv(env, s) && w in s.workers
    requires s'.groups == FailedGroups(s.groups, Doomed(s, w), now) && s'.jobs == FailedJobs(s.jobs, Doomed(s, w))
    requires s'.workers == s.workers[w := s.workers[w].(alloc :=
                                            Minus(s.workers[w].alloc, SumOn(s.groups, Doomed(s, w), w, env.idSpace)))]
    requires s'.leaked == s.leaked && s'.used == s.used
    ensures IsStep(env, s, WorkerDied(w, now), s') && Inv(env, s')
  {
    DeathReleases(env, s, w);
    StepInv(env, s, WorkerDied(w, now));
  }

  lemma ReconcileIsStep(env: Env, s: System, s': System)
    requires Inv(env, s) && s'.groups == s.groups && s'.jobs == s.jobs && s'.used == s.used
    requires s'.workers.Keys == s.workers.Keys == s'.leaked.Keys
    requires forall w :: w in s.workers ==> s'.leaked[w] == Nothing()
    requires forall w :: w in s.workers ==>
               s'.workers[w] == s.workers[w].(alloc := SumOn(s.groups, Active(s.groups), w, env.idSpace))
    ensures IsStep(env, s, Reconciled, s') && Inv(env, s')
    ensures forall w :: w in s'.workers ==> s'.workers[w].alloc == SumOn(s'.groups, Active(s'.groups), w, env.idSpace)
  {
    assert s' == Apply(env, s, Reconciled);
    StepInv(env, s, Reconciled);
  }

  // The groups of one worker are released on that worker alone.
  lemma DeathReleases(env: Env, s: System, w: WorkerId)
    requires w in s.workers
    ensures Released(env, s, Doomed(s, w)) ==
            s.workers[w := s.workers[w].(alloc :=
                             Minus(s.workers[w].alloc, SumOn(s.groups, Doomed(s, w), w, env.idSpace)))]
  {
    forall other | other in s.workers && other != w
      ensures Minus(s.workers[other].alloc, SumOn(s.groups, Doomed(s, w), other, env.idSpace)) == s.workers[other].alloc
    {
      SumElsewhere(s.groups, Doomed(s, w), w, other, env.idSpace);
    }
  }
}
