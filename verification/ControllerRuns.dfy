/** What every step of the controller keeps, and what follows for whole runs. */
module ControllerRuns {
  import opened Common
  import opened JobGroups
  import opened Ledger
  import opened ControllerModel

  // ---------- Conservation ----------

  // Groups leave the books and their shares leave the counters.
  lemma BooksKept(env: Env, s: System, s': System, gone: set<GroupId>)
    requires Balanced(env, s)
    requires gone <= Active(s.groups) && Active(s'.groups) == Active(s.groups) - gone
    requires SameShares(s.groups, s'.groups, Active(s'.groups))
    requires s'.leaked == s.leaked && s'.workers.Keys == s.workers.Keys
    requires forall w :: w in s.workers ==>
               s'.workers[w].alloc == Minus(s.workers[w].alloc, SumOn(s.groups, gone, w, env.idSpace))
    ensures Balanced(env, s')
    ensures forall w :: w in s.workers ==> Covers(s.workers[w].alloc, SumOn(s.groups, gone, w, env.idSpace))
  {
    forall w | w in s.workers
      ensures Covers(s.workers[w].alloc, SumOn(s.groups, gone, w, env.idSpace))
      ensures s'.workers[w].alloc == Plus(SumOn(s'.groups, Active(s'.groups), w, env.idSpace), s'.leaked[w])
    {
      SumPart(s.groups, gone, Active(s.groups), w, env.idSpace);
      SumFrame(s.groups, s'.groups, Active(s'.groups), w, env.idSpace);
    }
  }

  lemma BooksUntouched(env: Env, s: System, s': System)
    requires Balanced(env, s)
    requires Active(s'.groups) == Active(s.groups) && SameShares(s.groups, s'.groups, Active(s.groups))
    requires s'.leaked == s.leaked && s'.workers.Keys == s.workers.Keys
    requires forall w :: w in s.workers ==> s'.workers[w].alloc == s.workers[w].alloc
    ensures Balanced(env, s')
  {
    forall w | w in s.workers
      ensures s'.workers[w].alloc == Plus(SumOn(s'.groups, Active(s'.groups), w, env.idSpace), s'.leaked[w])
    {
      SumFrame(s.groups, s'.groups, Active(s.groups), w, env.idSpace);
    }
  }

  lemma FailedActive(groups: map<GroupId, Group>, gids: set<GroupId>, now: nat)
    ensures Active(FailedGroups(groups, gids, now)) == Active(groups) - gids
    ensures SameShares(groups, FailedGroups(groups, gids, now), Active(groups) - gids)
  {
  }

  lemma ClosedBalanced(env: Env, s: System, gids: set<GroupId>, now: nat)
    requires Balanced(env, s) && gids <= Active(s.groups)
    ensures Balanced(env, Closed(env, s, gids, now))
  {
    FailedActive(s.groups, gids, now);
    BooksKept(env, s, Closed(env, s, gids, now), gids);
  }

  lemma GrantBalanced(env: Env, s: System, e: Event)
    requires Known(env, s) && Balanced(env, s) && e.ReserveGranted? && Enabled(env, s, e)
    ensures Balanced(env, Apply(env, s, e))
  {
    var s', n := Apply(env, s, e), env.idSpace;
    assert Active(s'.groups) == Active(s.groups) + {e.gid};
    forall w | w in s'.workers
      ensures s'.workers[w].alloc == Plus(SumOn(s'.groups, Active(s'.groups), w, n), s'.leaked[w])
    {
      SumFrame(s.groups, s'.groups, Active(s.groups), w, n);
      SumAdd(s'.groups, Active(s.groups), w, e.gid, n);
    }
  }

  // Groups leave the books but their shares stay in the counters, as leaks.
  lemma BooksLeak(env: Env, s: System, s': System, gone: set<GroupId>)
    requires Balanced(env, s)
    requires gone <= Active(s.groups) && Active(s'.groups) == Active(s.groups) - gone
    requires SameShares(s.groups, s'.groups, Active(s'.groups))
    requires s'.leaked.Keys == s.leaked.Keys && s'.workers == s.workers
    requires forall w :: w in s.workers ==>
               s'.leaked[w] == Plus(s.leaked[w], SumOn(s.groups, gone, w, env.idSpace))
    ensures Balanced(env, s')
  {
    forall w | w in s.workers
      ensures s'.workers[w].alloc == Plus(SumOn(s'.groups, Active(s'.groups), w, env.idSpace), s'.leaked[w])
    {
      SumPart(s.groups, gone, Active(s.groups), w, env.idSpace);
      SumFrame(s.groups, s'.groups, Active(s'.groups), w, env.idSpace);
    }
  }

  lemma SweptBalanced(env: Env, s: System, e: Event)
    requires Balanced(env, s) && e.Swept?
    ensures Balanced(env, Apply(env, s, e))
  {
    FailedActive(s.groups, Stuck(s, e.now), e.now);
    BooksLeak(env, s, Apply(env, s, e), Stuck(s, e.now));
  }

  lemma ReserveFailedBalanced(env: Env, s: System, e: Event)
    requires Balanced(env, s) && e.ReserveFailed? && Enabled(env, s, e)
    ensures Balanced(env, Apply(env, s, e))
  {
    var s', n := Apply(env, s, e), env.idSpace;
    forall w | w in s'.workers
      ensures s'.workers[w].alloc == Plus(SumOn(s'.groups, Active(s'.groups), w, n), s'.leaked[w])
    {
      assert s.workers[w].alloc == Plus(SumOn(s.groups, Active(s.groups), w, n), s.leaked[w]);
    }
  }

  lemma SubmittedBalanced(env: Env, s: System, e: Event)
    requires Balanced(env, s) && e.Submitted? && Enabled(env, s, e)
    ensures Balanced(env, Apply(env, s, e))
  {
    BooksUntouched(env, s, Apply(env, s, e));
  }

  // Reconciling replaces the counters by the sums and so forgets the leaks.
  lemma ReconciledBalanced(env: Env, s: System)
    requires Balanced(env, s)
    ensures Balanced(env, Apply(env, s, Reconciled))
    ensures var s' := Apply(env, s, Reconciled);
            forall w :: w in s'.workers ==> s'.workers[w].alloc == SumOn(s'.groups, Active(s'.groups), w, env.idSpace)
  {
  }

  lemma EvictedBalanced(env: Env, s: System, e: Event)
    requires Balanced(env, s) && e.Evicted?
    ensures Balanced(env, Apply(env, s, e))
  {
    var s' := Apply(env, s, e);
    assert Active(s'.groups) == Active(s.groups);
    BooksUntouched(env, s, s');
  }

  lemma HeartbeatBalanced(env: Env, s: System, e: Event)
    requires Balanced(env, s) && e.Heartbeat? && Enabled(env, s, e)
    ensures Balanced(env, Apply(env, s, e))
  {
    BooksUntouched(env, s, Apply(env, s, e));
  }

  lemma ReportBalanced(env: Env, s: System, e: Event)
    requires Balanced(env, s) && e.Reported? && Orderly(s)
    ensures Balanced(env, Apply(env, s, e))
  {
    var s' := Apply(env, s, e);
    if e.gid !in s.groups || ReportResult(env, s, e.gid, e.id, e.state).None? {
      BooksUntouched(env, s, s');
    } else {
      ResultIsReached(env, s, e);
      assert Active(s'.groups) == Active(s.groups) - {e.gid};
      BooksKept(env, s, s', {e.gid});
    }
  }

  // A completion check that answers with a state has put the group in that state. In
  // particular a group never completes as Success without having been Running.
  lemma ResultIsReached(env: Env, s: System, e: Event)
    requires Orderly(s) && e.Reported? && e.gid in s.groups
    requires ReportResult(env, s, e.gid, e.id, e.state).Some?
    ensures e.gid in Active(s.groups)
    ensures var s' := Apply(env, s, e);
            && e.gid in s'.groups
            && Some(s'.groups[e.gid].state) == ReportResult(env, s, e.gid, e.id, e.state)
            && IsTerminal(s'.groups[e.gid].state)
  {
    assert OrderlyGroup(s.groups[e.gid], s.jobs[e.gid]);
    assert |SetJobState(s.jobs[e.gid], e.id, e.state, env.hash)| == |s.jobs[e.gid]|;
  }

  lemma CloseBalanced(env: Env, s: System, e: Event)
    requires Balanced(env, s) && (e.GroupCancelled? || e.WorkerDied? || e.Reaped?) && Enabled(env, s, e)
    ensures Balanced(env, Apply(env, s, e))
  {
    ClosedBalanced(env, s, Closing(env, s, e), e.now);
  }

  lemma StepBalanced(env: Env, s: System, e: Event)
    requires Inv(env, s) && Enabled(env, s, e)
    ensures Balanced(env, Apply(env, s, e))
  {
    match e
    case ReserveGranted(_, _, _, _, _, _, _) => GrantBalanced(env, s, e);
    case ReserveFailed(_, _) => ReserveFailedBalanced(env, s, e);
    case Submitted(_, _, _, _, _) => SubmittedBalanced(env, s, e);
    case Reported(_, _, _, _) => ReportBalanced(env, s, e);
    case GroupCancelled(_, _) => CloseBalanced(env, s, e);
    case WorkerDied(_, _) => CloseBalanced(env, s, e);
    case Reaped(_, _, _) => CloseBalanced(env, s, e);
    case Swept(_) => SweptBalanced(env, s, e);
    case Reconciled => ReconciledBalanced(env, s);
    case Evicted(_) => EvictedBalanced(env, s, e);
    case Heartbeat(_, _, _) => HeartbeatBalanced(env, s, e);
  }

  // ---------- Caps ----------

  lemma ReleasedCapped(env: Env, s: System, gids: set<GroupId>)
    requires Capped(s)
    ensures forall w :: w in Released(env, s, gids) ==> WithinCaps(Released(env, s, gids)[w])
  {
  }

  lemma ReconciledCapped(env: Env, s: System)
    requires Capped(s) && Balanced(env, s)
    ensures Capped(Apply(env, s, Reconciled))
  {
  }

  lemma ChargedCapped(env: Env, s: System, e: Event)
    requires Capped(s) && (e.ReserveGranted? || e.ReserveFailed?) && Enabled(env, s, e)
    ensures Capped(Apply(env, s, e))
  {
    assert forall w :: w in s.workers ==> WithinCaps(s.workers[w]);
  }

  lemma ReportedCapped(env: Env, s: System, e: Event)
    requires Capped(s) && e.Reported?
    ensures Capped(Apply(env, s, e))
  {
    ReleasedCapped(env, s, {e.gid});
  }

  lemma CloseCapped(env: Env, s: System, e: Event)
    requires Capped(s) && (e.GroupCancelled? || e.WorkerDied? || e.Reaped?) && Enabled(env, s, e)
    ensures Capped(Apply(env, s, e))
  {
    ReleasedCapped(env, s, Closing(env, s, e));
  }

  lemma HeartbeatCapped(env: Env, s: System, e: Event)
    requires Capped(s) && e.Heartbeat? && Enabled(env, s, e)
    ensures Capped(Apply(env, s, e))
  {
    assert forall w :: w in s.workers ==> WithinCaps(s.workers[w]);
  }

  // No worker is ever charged beyond its caps.
  lemma StepCapped(env: Env, s: System, e: Event)
    requires Inv(env, s) && Enabled(env, s, e)
    ensures Capped(Apply(env, s, e))
  {
    match e
    case ReserveGranted(_, _, _, _, _, _, _) => ChargedCapped(env, s, e);
    case ReserveFailed(_, _) => ChargedCapped(env, s, e);
    case Submitted(_, _, _, _, _) =>
    case Reported(_, _, _, _) => ReportedCapped(env, s, e);
    case GroupCancelled(_, _) => CloseCapped(env, s, e);
    case WorkerDied(_, _) => CloseCapped(env, s, e);
    case Reaped(_, _, _) => CloseCapped(env, s, e);
    case Swept(_) =>
    case Reconciled => ReconciledCapped(env, s);
    case Evicted(_) =>
    case Heartbeat(_, _, _) => HeartbeatCapped(env, s, e);
  }

  // ---------- Ids ----------

  lemma StepKnown(env: Env, s: System, e: Event)
    requires Known(env, s) && Enabled(env, s, e)
    ensures Known(env, Apply(env, s, e))
  {
  }

  // ---------- Lifecycle and order of stages ----------

  lemma FailKeepsStages(jobs: seq<Job>)
    ensures StagesOf(FailJobs(jobs)) == StagesOf(jobs)
  {
  }

  lemma FailedOrderly(s: System, gids: set<GroupId>, now: nat)
    requires Orderly(s)
    ensures forall g :: g in s.groups && g in s.jobs ==>
              && OrderlyGroup(FailedGroups(s.groups, gids, now)[g], s.jobs[g])
              && OrderlyGroup(FailedGroups(s.groups, gids, now)[g], FailedJobs(s.jobs, gids)[g])
  {
    forall g | g in s.groups && g in s.jobs
      ensures OrderlyGroup(FailedGroups(s.groups, gids, now)[g], s.jobs[g])
      ensures OrderlyGroup(FailedGroups(s.groups, gids, now)[g], FailedJobs(s.jobs, gids)[g])
    {
      assert OrderlyGroup(s.groups[g], s.jobs[g]);
      FailKeepsStages(s.jobs[g]);
    }
  }

  lemma GrantedOrderly(env: Env, s: System, e: Event)
    requires Known(env, s) && Orderly(s) && e.ReserveGranted? && Enabled(env, s, e)
    ensures Orderly(Apply(env, s, e))
  {
    var s' := Apply(env, s, e);
    assert s'.jobs[e.gid] == [];
    assert StagesOf([]) == [];
    forall g | g in s'.groups && g in s'.jobs
      ensures OrderlyGroup(s'.groups[g], s'.jobs[g])
    {
      if g != e.gid { assert OrderlyGroup(s.groups[g], s.jobs[g]); }
    }
  }

  lemma SubmitOrderly(g: Group, jobs: seq<Job>, j: Job, now: nat)
    requires OrderlyGroup(g, jobs) && j.stage !in StagesOf(jobs)
    ensures OrderlyGroup(SubmittedGroup(g, now), jobs + [j])
  {
    assert StagesOf(jobs + [j]) == StagesOf(jobs) + [j.stage];
    NoDuplicatesSnoc(StagesOf(jobs), j.stage);
  }

  lemma SubmittedOrderly(env: Env, s: System, e: Event)
    requires Known(env, s) && Orderly(s) && e.Submitted? && Enabled(env, s, e)
    ensures Orderly(Apply(env, s, e))
  {
    var s' := Apply(env, s, e);
    forall g | g in s'.groups && g in s'.jobs
      ensures OrderlyGroup(s'.groups[g], s'.jobs[g])
    {
      assert OrderlyGroup(s.groups[g], s.jobs[g]);
      if g == e.gid { SubmitOrderly(s.groups[g], s.jobs[g], Job(e.id, e.stage, JobState.Queued), e.now); }
    }
  }

  lemma ReportOrderly(g: Group, jobs: seq<Job>, jobs': seq<Job>, now: nat)
    requires OrderlyGroup(g, jobs) && StagesOf(jobs') == StagesOf(jobs) && |jobs'| == |jobs|
    ensures var touched := g.(lastActivityAt := now); var result := Completion(g, jobs');
            && OrderlyGroup(touched, jobs')
            && (result.Some? ==> OrderlyGroup(Moved(touched, result.value, now), jobs'))
  {
  }

  lemma ReportedOrderly(env: Env, s: System, e: Event)
    requires Known(env, s) && Orderly(s) && e.Reported?
    ensures Orderly(Apply(env, s, e))
  {
    var s' := Apply(env, s, e);
    forall g | g in s'.groups && g in s'.jobs
      ensures OrderlyGroup(s'.groups[g], s'.jobs[g])
    {
      assert OrderlyGroup(s.groups[g], s.jobs[g]);
      if g == e.gid { ReportOrderly(s.groups[g], s.jobs[g], s'.jobs[g], e.now); }
    }
  }

  lemma CloseOrderly(env: Env, s: System, e: Event)
    requires Orderly(s) && (e.GroupCancelled? || e.WorkerDied? || e.Reaped? || e.Swept?) && Enabled(env, s, e)
    ensures Orderly(Apply(env, s, e))
  {
    FailedOrderly(s, Closing(env, s, e), e.now);
  }

  lemma EvictedOrderly(env: Env, s: System, e: Event)
    requires Orderly(s) && e.Evicted?
    ensures Orderly(Apply(env, s, e))
  {
    var s' := Apply(env, s, e);
    forall g | g in s'.groups && g in s'.jobs
      ensures OrderlyGroup(s'.groups[g], s'.jobs[g])
    {
      assert OrderlyGroup(s.groups[g], s.jobs[g]);
    }
  }

  lemma StepOrderly(env: Env, s: System, e: Event)
    requires Inv(env, s) && Enabled(env, s, e)
    ensures Orderly(Apply(env, s, e))
  {
    match e
    case ReserveGranted(_, _, _, _, _, _, _) => GrantedOrderly(env, s, e);
    case ReserveFailed(_, _) =>
    case Submitted(_, _, _, _, _) => SubmittedOrderly(env, s, e);
    case Reported(_, _, _, _) => ReportedOrderly(env, s, e);
    case GroupCancelled(_, _) => CloseOrderly(env, s, e);
    case WorkerDied(_, _) => CloseOrderly(env, s, e);
    case Reaped(_, _, _) => CloseOrderly(env, s, e);
    case Swept(_) => CloseOrderly(env, s, e);
    case Reconciled =>
    case Evicted(_) => EvictedOrderly(env, s, e);
    case Heartbeat(_, _, _) =>
  }

  // ---------- Every step keeps the invariant ----------

  lemma InitialInv(env: Env, s: System)
    requires Initial(s)
    ensures Inv(env, s)
  {
    assert Active(s.groups) == {};
    forall w | w in s.workers
      ensures s.workers[w].alloc == Plus(SumOn(s.groups, Active(s.groups), w, env.idSpace), s.leaked[w])
    {
      SumNone(s.groups, w, env.idSpace);
    }
  }

  lemma StepInv(env: Env, s: System, e: Event)
    requires Inv(env, s) && Enabled(env, s, e)
    ensures Inv(env, Apply(env, s, e))
  {
    StepKnown(env, s, e);
    StepBalanced(env, s, e);
    StepCapped(env, s, e);
    StepOrderly(env, s, e);
  }

  // ---------- A group closes once ----------

  lemma ActiveUpdate(groups: map<GroupId, Group>, gid: GroupId, g: Group)
    ensures IsTerminal(g.state) ==> Active(groups[gid := g]) == Active(groups) - {gid}
    ensures !IsTerminal(g.state) ==> Active(groups[gid := g]) == Active(groups) + {gid}
  {
  }

  // What the handlers close is open, and is exactly what stops being open.
  lemma FailClosesExactly(env: Env, s: System, e: Event)
    requires (e.GroupCancelled? || e.WorkerDied? || e.Reaped? || e.Swept?) && Enabled(env, s, e)
    ensures Closing(env, s, e) <= Active(s.groups)
    ensures Active(Apply(env, s, e).groups) == Active(s.groups) - Closing(env, s, e)
  {
    FailedActive(s.groups, Closing(env, s, e), e.now);
  }

  lemma ReportClosesExactly(env: Env, s: System, e: Event)
    requires Inv(env, s) && e.Reported?
    ensures Closing(env, s, e) <= Active(s.groups)
    ensures Active(Apply(env, s, e).groups) == Active(s.groups) - Closing(env, s, e)
  {
    if e.gid in s.groups {
      ActiveUpdate(s.groups, e.gid, Apply(env, s, e).groups[e.gid]);
      if ReportResult(env, s, e.gid, e.id, e.state).Some? { ResultIsReached(env, s, e); }
    }
  }

  lemma EvictClosesNothing(env: Env, s: System, e: Event)
    requires e.Evicted?
    ensures Active(Apply(env, s, e).groups) == Active(s.groups)
  {
  }

  lemma SubmitClosesNothing(env: Env, s: System, e: Event)
    requires e.Submitted? && Enabled(env, s, e)
    ensures Active(Apply(env, s, e).groups) == Active(s.groups)
  {
  }

  lemma GrantOpens(env: Env, s: System, e: Event)
    requires e.ReserveGranted? && Enabled(env, s, e)
    ensures Active(Apply(env, s, e).groups) == Active(s.groups) + {e.gid}
  {
  }

  // A step opens the group it grants and closes the groups its handler names: nothing else.
  lemma StepClosesExactly(env: Env, s: System, e: Event)
    requires Inv(env, s) && Enabled(env, s, e)
    ensures Closing(env, s, e) <= Active(s.groups)
    ensures e.ReserveGranted? ==>
              Active(Apply(env, s, e).groups) == Active(s.groups) + {e.gid} && Closing(env, s, e) == {}
    ensures !e.ReserveGranted? ==> Active(Apply(env, s, e).groups) == Active(s.groups) - Closing(env, s, e)
  {
    match e
    case ReserveGranted(_, _, _, _, _, _, _) => GrantOpens(env, s, e);
    case Submitted(_, _, _, _, _) => SubmitClosesNothing(env, s, e);
    case Reported(_, _, _, _) => ReportClosesExactly(env, s, e);
    case GroupCancelled(_, _) => FailClosesExactly(env, s, e);
    case WorkerDied(_, _) => FailClosesExactly(env, s, e);
    case Reaped(_, _, _) => FailClosesExactly(env, s, e);
    case Swept(_) => FailClosesExactly(env, s, e);
    case Evicted(_) => EvictClosesNothing(env, s, e);
    case ReserveFailed(_, _) => assert Active(s.groups) - {} == Active(s.groups);
    case Reconciled => assert Active(s.groups) - {} == Active(s.groups);
    case Heartbeat(_, _, _) => assert Active(s.groups) - {} == Active(s.groups);
  }

  // Handed out and no longer open.
  ghost predicate Over(s: System, g: GroupId) {
    g in s.used && g !in Active(s.groups)
  }

  lemma OverStaysOver(env: Env, s: System, e: Event, g: GroupId)
    requires Inv(env, s) && Enabled(env, s, e) && Over(s, g)
    ensures Over(Apply(env, s, e), g)
  {
    StepClosesExactly(env, s, e);
  }

  lemma ClosingEnds(env: Env, s: System, e: Event, g: GroupId)
    requires Inv(env, s) && Enabled(env, s, e) && g in Closing(env, s, e)
    ensures Over(Apply(env, s, e), g)
  {
    StepClosesExactly(env, s, e);
  }

  // ---------- Runs ----------

  ghost predicate IsStep(env: Env, s: System, e: Event, s': System) {
    Enabled(env, s, e) && s' == Apply(env, s, e)
  }

  ghost predicate IsRun(env: Env, states: seq<System>, events: seq<Event>) {
    && |states| == |events| + 1 && Initial(states[0])
    && forall i :: 0 <= i < |events| ==> IsStep(env, states[i], events[i], states[i + 1])
  }

  lemma {:induction false} RunInv(env: Env, states: seq<System>, events: seq<Event>, i: nat)
    requires IsRun(env, states, events) && i < |states|
    ensures Inv(env, states[i])
    decreases i
  {
    if i == 0 {
      InitialInv(env, states[0]);
    } else {
      RunInv(env, states, events, i - 1);
      assert IsStep(env, states[i - 1], events[i - 1], states[i]);
      StepInv(env, states[i - 1], events[i - 1]);
    }
  }

  // In every state of every run a worker's counters are what its open groups hold plus what
  // leaked: they never fall below the groups' sum, and that sum respects the worker's caps.
  lemma RunConserves(env: Env, states: seq<System>, events: seq<Event>, i: nat, w: WorkerId)
    requires IsRun(env, states, events) && i < |states| && w in states[i].workers
    ensures var s := states[i]; var held := SumOn(s.groups, Active(s.groups), w, env.idSpace);
            && w in s.leaked && s.workers[w].alloc == Plus(held, s.leaked[w])
            && Covers(s.workers[w].alloc, held)
            && held.cpu <= s.workers[w].cpuCap && held.memoryMb <= s.workers[w].memoryCap
  {
    RunInv(env, states, events, i);
    assert WithinCaps(states[i].workers[w]);
  }

  // Whenever groups are closed, their worker's counters cover what they hold, so releasing it
  // never meets the floor of the saturating subtraction.
  lemma RunNeverUnderflows(env: Env, states: seq<System>, events: seq<Event>, i: nat, w: WorkerId)
    requires IsRun(env, states, events) && i < |events| && w in states[i].workers
    ensures Covers(states[i].workers[w].alloc,
                   SumOn(states[i].groups, Closing(env, states[i], events[i]), w, env.idSpace))
  {
    var s, e := states[i], events[i];
    RunInv(env, states, events, i);
    assert IsStep(env, s, e, states[i + 1]);
    StepClosesExactly(env, s, e);
    SumPart(s.groups, Closing(env, s, e), Active(s.groups), w, env.idSpace);
  }

  lemma {:induction false} OverInRun(env: Env, states: seq<System>, events: seq<Event>, i: nat, j: nat, g: GroupId)
    requires IsRun(env, states, events) && i <= j < |states| && Over(states[i], g)
    ensures Over(states[j], g)
    decreases j
  {
    if i < j {
      OverInRun(env, states, events, i, j - 1, g);
      RunInv(env, states, events, j - 1);
      assert IsStep(env, states[j - 1], events[j - 1], states[j]);
      OverStaysOver(env, states[j - 1], events[j - 1], g);
    }
  }

  // In every run a group is closed at most once, whether by completion, cancellation, worker
  // death, reaping or the sweep; so a completion is never reported twice, nor after any of the
  // others, and no allocation is released twice.
  lemma ClosedAtMostOnce(env: Env, states: seq<System>, events: seq<Event>, i: nat, j: nat, g: GroupId)
    requires IsRun(env, states, events) && i < j < |events|
    requires g in Closing(env, states[i], events[i])
    ensures g !in Closing(env, states[j], events[j])
  {
    RunInv(env, states, events, i);
    assert IsStep(env, states[i], events[i], states[i + 1]);
    ClosingEnds(env, states[i], events[i], g);
    OverInRun(env, states, events, i + 1, j, g);
    RunInv(env, states, events, j);
    assert IsStep(env, states[j], events[j], states[j + 1]);
    StepClosesExactly(env, states[j], events[j]);
  }
}
