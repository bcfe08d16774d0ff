/**
  Handlers let go of a lock half-way and do not look again: the reaper between picking a group
  and closing it, the reservation between charging a worker and adding the group, and completion,
  cancellation and worker death between closing a group and releasing it. What may happen in
  between, and exactly when it harms the books.
 */
module ControllerLocks {
  import opened Dag
  import opened JobGroups
  import opened Ledger
  import opened ControllerModel
  import opened ControllerRuns
  import opened ControllerHistory
  import opened Controller

  // ---------- The reaper ----------

  // What the reaper does to a group it picked earlier, in the state things are in by then. It
  // gives back what it saw the group hold, even if the group is gone.
  function ReapedLate(s: System, g: GroupId, picked: Group, now: nat): System {
    s.(groups := if g in s.groups
                 then s.groups[g := s.groups[g].(state := GroupState.Failed, updatedAt := now)] else s.groups,
       jobs := if g in s.jobs then s.jobs[g := FailJobs(s.jobs[g])] else s.jobs,
       workers := ReleasedOne(s.workers, picked))
  }

  // The release takes nothing from the counters.
  predicate ReleasesNothing(s: System, picked: Group) {
    picked.worker in s.workers ==>
      Minus(s.workers[picked.worker].alloc, picked.alloc) == s.workers[picked.worker].alloc
  }

  lemma OpenReapIsClose(env: Env, s: System, g: GroupId, picked: Group, now: nat)
    requires Known(env, s) && g in s.groups && SameHolding(s.groups[g], picked)
    ensures ReapedLate(s, g, picked, now) == Closed(env, s, {g}, now)
  {
    ClosedNone(env, s, now);
    ClosedMore(env, s, {}, g, now);
    assert {} + {g} == {g};
  }

  lemma LateReapLeavesSums(env: Env, s: System, g: GroupId, picked: Group, now: nat)
    requires g !in Active(s.groups)
    ensures var s' := ReapedLate(s, g, picked, now);
            && Active(s'.groups) == Active(s.groups) && SameShares(s.groups, s'.groups, Active(s.groups))
            && forall w :: SumOn(s'.groups, Active(s'.groups), w, env.idSpace) ==
                           SumOn(s.groups, Active(s.groups), w, env.idSpace)
  {
    var s' := ReapedLate(s, g, picked, now);
    assert Active(s'.groups) == Active(s.groups);
    forall w
      ensures SumOn(s'.groups, Active(s'.groups), w, env.idSpace) == SumOn(s.groups, Active(s.groups), w, env.idSpace)
    {
      SumFrame(s.groups, s'.groups, Active(s.groups), w, env.idSpace);
    }
  }

  lemma ClosedReapBalancesIff(env: Env, s: System, g: GroupId, picked: Group, now: nat)
    requires Balanced(env, s) && g !in Active(s.groups)
    ensures Balanced(env, ReapedLate(s, g, picked, now)) <==> ReleasesNothing(s, picked)
  {
    var s' := ReapedLate(s, g, picked, now);
    LateReapLeavesSums(env, s, g, picked, now);
    if ReleasesNothing(s, picked) {
      assert s'.workers == s.workers;
      BooksUntouched(env, s, s');
    } else {
      var w := picked.worker;
      assert s.workers[w].alloc == Plus(SumOn(s.groups, Active(s.groups), w, env.idSpace), s.leaked[w]);
      assert s'.workers[w].alloc != s.workers[w].alloc;
    }
  }

  // In every run, for a group picked in state `i` and treated in state `j`: the books stay exact
  // if and only if the group is still open then, or its release takes nothing. It may have been
  // closed or even evicted in between.
  lemma LateReapBalancesIff(env: Env, states: seq<System>, events: seq<Event>, i: nat, j: nat, g: GroupId, now: nat)
    requires IsRun(env, states, events) && i <= j < |states| && g in states[i].groups
    ensures var picked := states[i].groups[g];
            Balanced(env, ReapedLate(states[j], g, picked, now)) <==>
            g in Active(states[j].groups) || ReleasesNothing(states[j], picked)
  {
    var s, picked := states[j], states[i].groups[g];
    RunInv(env, states, events, i);
    RunInv(env, states, events, j);
    if g in Active(s.groups) {
      RunSameHolding(env, states, events, i, j, g);
      OpenReapIsClose(env, s, g, picked, now);
      ClosedBalanced(env, s, {g}, now);
    } else {
      ClosedReapBalancesIff(env, s, g, picked, now);
    }
  }

  // A group that closed in between is released twice: with nothing leaked, the counters then
  // fall below what the open groups hold.
  lemma LateReapUndercounts(env: Env, s: System, g: GroupId, picked: Group, now: nat)
    requires Inv(env, s) && g !in Active(s.groups) && picked.worker in s.workers
    requires s.leaked[picked.worker] == Nothing() && picked.alloc.cpu > 0 && s.workers[picked.worker].alloc.cpu > 0
    ensures var s' := ReapedLate(s, g, picked, now);
            !Covers(s'.workers[picked.worker].alloc, SumOn(s'.groups, Active(s'.groups), picked.worker, env.idSpace))
  {
    LateReapLeavesSums(env, s, g, picked, now);
  }

  // ---------- Such a run ----------

  function OneCpu(): Resources { Resources(1, 0, 0) }

  function OneWorker(w: WorkerId): System {
    System(map[], map[], map[w := Worker(true, 10, 10, 10, Nothing())], map[w := Nothing()], {})
  }

  function GrantOf(g: GroupId, w: WorkerId, repo: RepoId): Event {
    ReserveGranted(g, w, OneCpu(), repo, [], true, 0)
  }

  // Two open reservations of one CPU each on the worker, nothing leaked.
  ghost predicate TwoOpen(s: System, a: GroupId, b: GroupId, w: WorkerId) {
    && a != b && a in Active(s.groups) && b in Active(s.groups)
    && w in s.workers && w in s.leaked && s.leaked[w] == Nothing()
    && s.groups[a].worker == w && s.groups[a].alloc == OneCpu()
    && s.groups[b].worker == w && s.groups[b].alloc == OneCpu()
  }

  // The counters do not cover what the open groups hold.
  ghost predicate Undercounted(env: Env, s: System, w: WorkerId) {
    w in s.workers && !Covers(s.workers[w].alloc, SumOn(s.groups, Active(s.groups), w, env.idSpace))
  }

  lemma BothGranted(env: Env, a: GroupId, b: GroupId, w: WorkerId, repo: RepoId)
    returns (s0: System, e0: Event, s1: System, e1: Event, s2: System)
    requires a != b && a.id < env.idSpace && b.id < env.idSpace && Acyclic(DepsOf(env, repo))
    ensures Initial(s0) && IsStep(env, s0, e0, s1) && IsStep(env, s1, e1, s2)
    ensures TwoOpen(s2, a, b, w) && a in Stale(s2, 100, 10, 10)
  {
    s0, e0, e1 := OneWorker(w), GrantOf(a, w, repo), GrantOf(b, w, repo);
    s1 := Apply(env, s0, e0);
    s2 := Apply(env, s1, e1);
  }

  // For any dependencies without cycles, two reservations on one worker: the first goes stale
  // and is picked, then cancelled, and then the reaper acts on it. The counters no longer cover
  // the second.
  lemma LateReapRun(env: Env, a: GroupId, b: GroupId, w: WorkerId, repo: RepoId)
    returns (states: seq<System>, events: seq<Event>)
    requires a != b && a.id < env.idSpace && b.id < env.idSpace && Acyclic(DepsOf(env, repo))
    ensures IsRun(env, states, events) && |events| == 3
    ensures a in Stale(states[2], 100, 10, 10)
    ensures Undercounted(env, ReapedLate(states[3], a, states[2].groups[a], 100), w)
  {
    var s0, e0, s1, e1, s2 := BothGranted(env, a, b, w, repo);
    var e2, s3 := CancelFirst(env, s2, a, b, w);
    states, events := [s0, s1, s2, s3], [e0, e1, e2];
    ThreeSteps(env, states, events);
    LateReapOfFirst(env, s2, s3, a, b, w);
  }

  lemma CancelFirst(env: Env, s2: System, a: GroupId, b: GroupId, w: WorkerId) returns (e2: Event, s3: System)
    requires TwoOpen(s2, a, b, w)
    ensures e2 == GroupCancelled(a, 100) && IsStep(env, s2, e2, s3)
  {
    e2 := GroupCancelled(a, 100);
    s3 := Apply(env, s2, e2);
  }

  lemma ThreeSteps(env: Env, states: seq<System>, events: seq<Event>)
    requires |states| == 4 && |events| == 3 && Initial(states[0])
    requires IsStep(env, states[0], events[0], states[1]) && IsStep(env, states[1], events[1], states[2])
    requires IsStep(env, states[2], events[2], states[3])
    ensures IsRun(env, states, events) && Inv(env, states[3])
  {
    InitialInv(env, states[0]);
    StepInv(env, states[0], events[0]);
    StepInv(env, states[1], events[1]);
    StepInv(env, states[2], events[2]);
  }

  lemma LateReapOfFirst(env: Env, s2: System, s3: System, a: GroupId, b: GroupId, w: WorkerId)
    requires TwoOpen(s2, a, b, w) && b.id < env.idSpace
    requires IsStep(env, s2, GroupCancelled(a, 100), s3) && Inv(env, s3)
    ensures Undercounted(env, ReapedLate(s3, a, s2.groups[a], 100), w)
  {
    SecondStillHolds(env, s2, s3, a, b, w);
    LateReapUndercounts(env, s3, a, s2.groups[a], 100);
  }

  lemma SecondStillHolds(env: Env, s2: System, s3: System, a: GroupId, b: GroupId, w: WorkerId)
    requires TwoOpen(s2, a, b, w) && b.id < env.idSpace
    requires IsStep(env, s2, GroupCancelled(a, 100), s3) && Inv(env, s3)
    ensures a !in Active(s3.groups) && w in s3.workers && s3.leaked[w] == Nothing() && s3.workers[w].alloc.cpu > 0
  {
    assert b in Active(s3.groups);
    SumPart(s3.groups, {b}, Active(s3.groups), w, env.idSpace);
    SumOne(s3.groups, w, b, env.idSpace);
  }

  // ---------- The reservation ----------

  // A reservation that has charged a worker and not yet added its group looks like a leak. This
  // is the group being added later, in the state things are in by then.
  function AddedLate(s: System, gid: GroupId, g: Group): System {
    s.(groups := s.groups[gid := g], jobs := s.jobs[gid := JobsOf(s, gid)], used := s.used + {gid})
  }

  lemma LateAddSum(env: Env, s: System, gid: GroupId, g: Group, w: WorkerId)
    requires Known(env, s) && gid !in s.used && gid.id < env.idSpace && !IsTerminal(g.state)
    ensures var s' := AddedLate(s, gid, g);
            SumOn(s'.groups, Active(s'.groups), w, env.idSpace) ==
            Plus(SumOn(s.groups, Active(s.groups), w, env.idSpace), Share(g, w))
  {
    var s' := AddedLate(s, gid, g);
    ActiveUpdate(s.groups, gid, g);
    SumFrame(s.groups, s'.groups, Active(s.groups), w, env.idSpace);
    SumAdd(s'.groups, Active(s.groups), w, gid, env.idSpace);
  }

  // From any reachable state: the counters cover what the open groups then hold if and only if
  // the charge is still on the books; and then the books are exact once it is taken off the
  // leaks.
  lemma LateAddCoversIff(env: Env, s: System, gid: GroupId, g: Group)
    requires Inv(env, s) && gid !in s.used && gid.id < env.idSpace && !IsTerminal(g.state) && g.worker in s.workers
    ensures var s' := AddedLate(s, gid, g); var w := g.worker;
            && (Undercounted(env, s', w) <==> !Covers(s.leaked[w], g.alloc))
            && (Covers(s.leaked[w], g.alloc) ==>
                  Balanced(env, s'.(leaked := s.leaked[w := Minus(s.leaked[w], g.alloc)])))
  {
    var s' := AddedLate(s, gid, g);
    LateAddSum(env, s, gid, g, g.worker);
    if Covers(s.leaked[g.worker], g.alloc) { LateAddBalances(env, s, gid, g); }
  }

  lemma LateAddBalances(env: Env, s: System, gid: GroupId, g: Group)
    requires Inv(env, s) && gid !in s.used && gid.id < env.idSpace && !IsTerminal(g.state) && g.worker in s.workers
    requires Covers(s.leaked[g.worker], g.alloc)
    ensures Balanced(env, AddedLate(s, gid, g).(leaked := s.leaked[g.worker := Minus(s.leaked[g.worker], g.alloc)]))
  {
    var s' := AddedLate(s, gid, g).(leaked := s.leaked[g.worker := Minus(s.leaked[g.worker], g.alloc)]);
    forall w | w in s'.workers
      ensures s'.workers[w].alloc == Plus(SumOn(s'.groups, Active(s'.groups), w, env.idSpace), s'.leaked[w])
    {
      LateAddSum(env, s, gid, g, w);
      assert s.workers[w].alloc == Plus(SumOn(s.groups, Active(s.groups), w, env.idSpace), s.leaked[w]);
    }
  }

  // ---------- What leaked since the last reconciliation ----------

  ghost predicate IsPath(env: Env, states: seq<System>, events: seq<Event>) {
    && |states| == |events| + 1
    && forall i :: 0 <= i < |events| ==> IsStep(env, states[i], events[i], states[i + 1])
  }

  lemma {:induction false} PathInv(env: Env, states: seq<System>, events: seq<Event>, j: nat)
    requires IsPath(env, states, events) && Inv(env, states[0]) && j < |states|
    ensures Inv(env, states[j])
    decreases j
  {
    if j > 0 {
      PathInv(env, states, events, j - 1);
      assert IsStep(env, states[j - 1], events[j - 1], states[j]);
      StepInv(env, states[j - 1], events[j - 1]);
    }
  }

  // What a step charges to a worker or leaves charged to it without an open group.
  ghost function LeakOf(env: Env, s: System, e: Event, w: WorkerId): Resources {
    if e.ReserveFailed? && e.w == w then e.need
    else if e.Swept? then SumOn(s.groups, Stuck(s, e.now), w, env.idSpace)
    else Nothing()
  }

  // The sum of that over the first `j` steps, from the last reconciliation on.
  ghost function LeakedSince(env: Env, states: seq<System>, events: seq<Event>, j: nat, w: WorkerId): Resources
    requires j <= |events| < |states|
    decreases j
  {
    if j == 0 then (if w in states[0].leaked then states[0].leaked[w] else Nothing())
    else if events[j - 1].Reconciled? then Nothing()
    else Plus(LeakedSince(env, states, events, j - 1, w), LeakOf(env, states[j - 1], events[j - 1], w))
  }

  lemma StepLeaks(env: Env, s: System, e: Event, w: WorkerId)
    requires Enabled(env, s, e) && s.leaked.Keys == s.workers.Keys && w in s.workers
    ensures var s' := Apply(env, s, e);
            && w in s'.workers && w in s'.leaked
            && s'.leaked[w] == if e.Reconciled? then Nothing() else Plus(s.leaked[w], LeakOf(env, s, e, w))
  {
  }

  lemma LeakedStep(env: Env, states: seq<System>, events: seq<Event>, j: nat, w: WorkerId)
    requires IsPath(env, states, events) && Inv(env, states[0]) && j < |events| && w in states[j].workers
    ensures w in states[j].leaked && w in states[j + 1].workers && w in states[j + 1].leaked
    ensures states[j + 1].leaked[w] ==
            if events[j].Reconciled? then Nothing() else Plus(states[j].leaked[w], LeakOf(env, states[j], events[j], w))
  {
    PathInv(env, states, events, j);
    assert IsStep(env, states[j], events[j], states[j + 1]);
    StepLeaks(env, states[j], events[j], w);
  }

  lemma {:induction false} LeakedIsHistory(env: Env, states: seq<System>, events: seq<Event>, j: nat, w: WorkerId)
    requires IsPath(env, states, events) && Inv(env, states[0]) && j < |states| && w in states[0].workers
    ensures w in states[j].workers && w in states[j].leaked
    ensures states[j].leaked[w] == LeakedSince(env, states, events, j, w)
    decreases j
  {
    if j > 0 {
      LeakedIsHistory(env, states, events, j - 1, w);
      LeakedStep(env, states, events, j - 1, w);
    }
  }

  ghost predicate ReconciledBetween(events: seq<Event>, i: nat, j: nat)
    requires j <= |events|
  {
    exists k :: i <= k < j && events[k].Reconciled?
  }

  // Without a reconciliation nothing that leaked comes off the books.
  lemma {:induction false} LeakStays(env: Env, states: seq<System>, events: seq<Event>, i: nat, j: nat, w: WorkerId)
    requires i <= j <= |events| < |states| && !ReconciledBetween(events, i, j)
    ensures Covers(LeakedSince(env, states, events, j, w), LeakedSince(env, states, events, i, w))
    decreases j
  {
    if i < j {
      assert !ReconciledBetween(events, i, j - 1);
      LeakStays(env, states, events, i, j - 1, w);
    }
  }

  // Nothing leaks on the worker once a reconciliation has come after step `i`.
  ghost predicate QuietSince(env: Env, states: seq<System>, events: seq<Event>, i: nat, j: nat, w: WorkerId)
    requires i <= j <= |events| < |states|
  {
    forall k :: i <= k < j && ReconciledBetween(events, i, k) ==> LeakOf(env, states[k], events[k], w) == Nothing()
  }

  lemma {:induction false} QuietLeavesNothing(env: Env, states: seq<System>, events: seq<Event>, i: nat, j: nat,
                                              w: WorkerId)
    requires i <= j <= |events| < |states|
    requires QuietSince(env, states, events, i, j, w) && ReconciledBetween(events, i, j)
    ensures LeakedSince(env, states, events, j, w) == Nothing()
    decreases j
  {
    if !events[j - 1].Reconciled? {
      assert ReconciledBetween(events, i, j - 1);
      QuietLeavesNothing(env, states, events, i, j - 1, w);
    }
  }

  // ---------- The charge in a run ----------

  lemma RunIsPath(env: Env, states: seq<System>, events: seq<Event>)
    requires IsRun(env, states, events)
    ensures IsPath(env, states, events) && Inv(env, states[0])
  {
    RunInv(env, states, events, 0);
  }

  // The books right after a charge.
  lemma ChargedThen(env: Env, states: seq<System>, events: seq<Event>, i: nat, w: WorkerId, need: Resources)
    requires IsRun(env, states, events) && i < |events| && events[i] == ReserveFailed(w, need)
    ensures w in states[0].workers
    ensures Covers(LeakedSince(env, states, events, i + 1, w), need)
  {
    assert IsStep(env, states[i], events[i], states[i + 1]);
    WorkersStay(env, states, events, i, w);
  }

  lemma {:induction false} WorkersStay(env: Env, states: seq<System>, events: seq<Event>, i: nat, w: WorkerId)
    requires IsRun(env, states, events) && i < |states|
    ensures w in states[i].workers <==> w in states[0].workers
    decreases i
  {
    if i > 0 {
      WorkersStay(env, states, events, i - 1, w);
      assert IsStep(env, states[i - 1], events[i - 1], states[i]);
      StepSameWorkers(env, states[i - 1], events[i - 1]);
    }
  }

  lemma StepSameWorkers(env: Env, s: System, e: Event)
    requires Enabled(env, s, e)
    ensures Apply(env, s, e).workers.Keys == s.workers.Keys
  {
  }

  // Only a reconciliation takes the charge off: without one in between it is still there.
  lemma ChargeStays(env: Env, states: seq<System>, events: seq<Event>, i: nat, j: nat, w: WorkerId, need: Resources)
    requires IsRun(env, states, events) && i < j < |states| && events[i] == ReserveFailed(w, need)
    requires !ReconciledBetween(events, i + 1, j)
    ensures w in states[j].leaked && Covers(states[j].leaked[w], need)
  {
    RunIsPath(env, states, events);
    ChargedThen(env, states, events, i, w, need);
    LeakStays(env, states, events, i + 1, j, w);
    LeakedIsHistory(env, states, events, j, w);
  }

  // The group `g` may be added in state `s` under the id.
  ghost predicate MayAdd(env: Env, s: System, gid: GroupId, g: Group) {
    gid !in s.used && gid.id < env.idSpace && !IsTerminal(g.state)
  }

  // In every run, for a worker charged in step `i` and its group added in state `j`: the counters
  // fall below what the open groups hold if and only if a reconciliation came in between and what
  // leaked on the worker since the last one does not happen to make up for the charge.
  lemma LateAddUndercountsIff(env: Env, states: seq<System>, events: seq<Event>, i: nat, j: nat, gid: GroupId, g: Group)
    requires IsRun(env, states, events) && i < j < |states| && events[i] == ReserveFailed(g.worker, g.alloc)
    requires MayAdd(env, states[j], gid, g)
    ensures Undercounted(env, AddedLate(states[j], gid, g), g.worker) <==>
            && ReconciledBetween(events, i + 1, j)
            && !Covers(LeakedSince(env, states, events, j, g.worker), g.alloc)
  {
    RunIsPath(env, states, events);
    RunInv(env, states, events, j);
    ChargedThen(env, states, events, i, g.worker, g.alloc);
    LeakedIsHistory(env, states, events, j, g.worker);
    LateAddCoversIff(env, states[j], gid, g);
    if !ReconciledBetween(events, i + 1, j) { ChargeStays(env, states, events, i, j, g.worker, g.alloc); }
  }

  // If nothing else leaks on the worker after a reconciliation: if and only if one came in between
  // and the group holds something.
  lemma QuietLateAddUndercountsIff(env: Env, states: seq<System>, events: seq<Event>, i: nat, j: nat,
                                   gid: GroupId, g: Group)
    requires IsRun(env, states, events) && i < j < |states| && events[i] == ReserveFailed(g.worker, g.alloc)
    requires MayAdd(env, states[j], gid, g) && QuietSince(env, states, events, i + 1, j, g.worker)
    ensures Undercounted(env, AddedLate(states[j], gid, g), g.worker) <==>
            ReconciledBetween(events, i + 1, j) && g.alloc != Nothing()
  {
    QuietCovers(env, states, events, i + 1, j, g.worker, g.alloc);
    LateAddUndercountsIff(env, states, events, i, j, gid, g);
  }

  lemma QuietCovers(env: Env, states: seq<System>, events: seq<Event>, i: nat, j: nat, w: WorkerId, a: Resources)
    requires i <= j <= |events| < |states| && QuietSince(env, states, events, i, j, w)
    ensures ReconciledBetween(events, i, j) ==>
              (Covers(LeakedSince(env, states, events, j, w), a) <==> a == Nothing())
  {
    if ReconciledBetween(events, i, j) { QuietLeavesNothing(env, states, events, i, j, w); }
  }

  // A reconciliation directly before the group is added erases the charge: the counters then cover
  // the open groups only if the group holds nothing.
  lemma ReconciledAwayIff(env: Env, s: System, gid: GroupId, g: Group)
    requires Inv(env, s) && MayAdd(env, s, gid, g) && g.worker in s.workers
    ensures Undercounted(env, AddedLate(Apply(env, s, Reconciled), gid, g), g.worker) <==> g.alloc != Nothing()
  {
    StepInv(env, s, Reconciled);
    LateAddCoversIff(env, Apply(env, s, Reconciled), gid, g);
  }

  // One worker is charged, reconciled, and then gets the group.
  lemma LateAddRun(env: Env, gid: GroupId, g: Group) returns (states: seq<System>, events: seq<Event>)
    requires gid.id < env.idSpace && !IsTerminal(g.state) && g.alloc == OneCpu()
    ensures IsRun(env, states, events) && events == [ReserveFailed(g.worker, g.alloc), Reconciled]
    ensures Undercounted(env, AddedLate(states[2], gid, g), g.worker)
  {
    var s0, s1 := ChargeOnly(env, g.worker);
    var s2 := AddAfterReconciling(env, s1, gid, g);
    states, events := [s0, s1, s2], [ReserveFailed(g.worker, g.alloc), Reconciled];
    TwoSteps(env, states, events);
  }

  lemma ChargeOnly(env: Env, w: WorkerId) returns (s0: System, s1: System)
    ensures Initial(s0) && IsStep(env, s0, ReserveFailed(w, OneCpu()), s1)
    ensures Inv(env, s1) && s1.used == {} && w in s1.workers
  {
    s0 := OneWorker(w);
    s1 := Apply(env, s0, ReserveFailed(w, OneCpu()));
    InitialInv(env, s0);
    StepInv(env, s0, ReserveFailed(w, OneCpu()));
  }

  lemma AddAfterReconciling(env: Env, s: System, gid: GroupId, g: Group) returns (s': System)
    requires Inv(env, s) && MayAdd(env, s, gid, g) && g.worker in s.workers && g.alloc != Nothing()
    ensures IsStep(env, s, Reconciled, s') && Undercounted(env, AddedLate(s', gid, g), g.worker)
  {
    s' := Apply(env, s, Reconciled);
    ReconciledAwayIff(env, s, gid, g);
  }

  lemma TwoSteps(env: Env, states: seq<System>, events: seq<Event>)
    requires |states| == 3 && |events| == 2 && Initial(states[0])
    requires IsStep(env, states[0], events[0], states[1]) && IsStep(env, states[1], events[1], states[2])
    ensures IsRun(env, states, events)
  {
  }

  // ---------- Closing and releasing ----------

  // Completion, cancellation and worker death close a group under one lock and release it under
  // another. In between it looks like a leak: the group closed, its share still charged.
  function ClosedUnreleased(s: System, g: GroupId, closed: Group, jobs: seq<Job>): System {
    s.(groups := s.groups[g := closed], jobs := s.jobs[g := jobs],
       leaked := if closed.worker in s.leaked
                 then s.leaked[closed.worker := Plus(s.leaked[closed.worker], closed.alloc)] else s.leaked)
  }

  // A group that is open, and what it becomes.
  ghost predicate Closes(s: System, g: GroupId, closed: Group, jobs: seq<Job>) {
    && g in Active(s.groups) && closed.worker in s.workers && IsTerminal(closed.state)
    && SameHolding(closed, s.groups[g]) && OrderlyGroup(closed, jobs)
  }

  lemma UnreleasedBalanced(env: Env, s: System, g: GroupId, closed: Group, jobs: seq<Job>)
    requires Inv(env, s) && Closes(s, g, closed, jobs)
    ensures Balanced(env, ClosedUnreleased(s, g, closed, jobs))
  {
    var s' := ClosedUnreleased(s, g, closed, jobs);
    ActiveUpdate(s.groups, g, closed);
    forall w | w in s.workers
      ensures s'.leaked[w] == Plus(s.leaked[w], SumOn(s.groups, {g}, w, env.idSpace))
    {
      SumOne(s.groups, w, g, env.idSpace);
    }
    BooksLeak(env, s, s', {g});
  }

  lemma UnreleasedInv(env: Env, s: System, g: GroupId, closed: Group, jobs: seq<Job>)
    requires Inv(env, s) && Closes(s, g, closed, jobs)
    ensures Inv(env, ClosedUnreleased(s, g, closed, jobs))
  {
    var s' := ClosedUnreleased(s, g, closed, jobs);
    UnreleasedBalanced(env, s, g, closed, jobs);
    forall x | x in s'.groups && x in s'.jobs ensures OrderlyGroup(s'.groups[x], s'.jobs[x]) {
      if x != g { assert OrderlyGroup(s.groups[x], s.jobs[x]); }
    }
  }

  // The release that follows, in the state things are in by then.
  function ReleasedLate(s: System, closed: Group): System {
    s.(workers := ReleasedOne(s.workers, closed))
  }

  // Taking `a` off `held + leaked` leaves at least `held`: the leaks absorb it, or there is
  // nothing to fall below.
  predicate Absorbs(held: Resources, leaked: Resources, a: Resources) {
    && (a.cpu <= leaked.cpu || held.cpu == 0)
    && (a.memoryMb <= leaked.memoryMb || held.memoryMb == 0)
    && (a.diskMb <= leaked.diskMb || held.diskMb == 0)
  }

  lemma LateReleaseAbsorbed(env: Env, s: System, closed: Group)
    requires Balanced(env, s) && closed.worker in s.workers
    ensures var w := closed.worker; var held := SumOn(s.groups, Active(s.groups), w, env.idSpace);
            Undercounted(env, ReleasedLate(s, closed), w) <==> !Absorbs(held, s.leaked[w], closed.alloc)
  {
  }

  // For a group closed in any reachable state and released after any path from there: the counters
  // fall below what the open groups hold if and only if a reconciliation came in between and
  // neither later leaks nor an idle worker absorb the second subtraction.
  lemma LateReleaseUndercountsIff(env: Env, s: System, g: GroupId, closed: Group, jobs: seq<Job>,
                                  states: seq<System>, events: seq<Event>, j: nat)
    requires Inv(env, s) && Closes(s, g, closed, jobs)
    requires IsPath(env, states, events) && states[0] == ClosedUnreleased(s, g, closed, jobs) && j < |states|
    ensures var w := closed.worker; var held := SumOn(states[j].groups, Active(states[j].groups), w, env.idSpace);
            Undercounted(env, ReleasedLate(states[j], closed), w) <==>
            && ReconciledBetween(events, 0, j)
            && !Absorbs(held, LeakedSince(env, states, events, j, w), closed.alloc)
  {
    UnreleasedInv(env, s, g, closed, jobs);
    PathInv(env, states, events, j);
    LeakedIsHistory(env, states, events, j, closed.worker);
    LateReleaseAbsorbed(env, states[j], closed);
    if !ReconciledBetween(events, 0, j) { LeakStays(env, states, events, 0, j, closed.worker); }
  }

  // If nothing else leaks on the worker after a reconciliation: if and only if one came in between
  // and the release takes something off the counters.
  lemma QuietLateReleaseUndercountsIff(env: Env, s: System, g: GroupId, closed: Group, jobs: seq<Job>,
                                       states: seq<System>, events: seq<Event>, j: nat)
    requires Inv(env, s) && Closes(s, g, closed, jobs)
    requires IsPath(env, states, events) && states[0] == ClosedUnreleased(s, g, closed, jobs) && j < |states|
    requires QuietSince(env, states, events, 0, j, closed.worker)
    ensures Undercounted(env, ReleasedLate(states[j], closed), closed.worker) <==>
            ReconciledBetween(events, 0, j) && !ReleasesNothing(states[j], closed)
  {
    UnreleasedInv(env, s, g, closed, jobs);
    PathInv(env, states, events, j);
    LateReleaseUndercountsIff(env, s, g, closed, jobs, states, events, j);
    if ReconciledBetween(events, 0, j) {
      QuietLeavesNothing(env, states, events, 0, j, closed.worker);
      LeakedIsHistory(env, states, events, j, closed.worker);
    }
  }
}
