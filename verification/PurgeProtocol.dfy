/**
  The retention purge protocol as a state machine: the retention tick (T1) enqueues a purge for
  every live worker that ran a stage of an old group, the queue is pushed to a worker when its
  stream opens, the worker deletes the group's three directories and acknowledges, and the
  controller stamps the group once no live owner is pending.

  Messages may be lost, delayed, reordered and delivered again: a message once sent can be
  received at any later time, any number of times. Any store or database call may fail. Which
  workers count as live is arbitrary in every step.
 */
module PurgeProtocol {
  import opened JobGroups

  datatype Root = ScratchRoot | LogDir | WorkDir
  datatype Ticket = Ticket(w: WorkerId, g: GroupId)
  datatype Dir = Dir(w: WorkerId, root: Root, g: GroupId)
  datatype Ack = Ack(t: Ticket, ok: bool)

  datatype State = State(
    owners: set<Ticket>,      // the workers that ran a stage of a group
    present: set<Dir>,        // the per-group directories on the workers
    retired: set<GroupId>,    // groups T1 has picked: they are over and write no more files
    queue: set<Ticket>,       // the workers' purge queues
    directives: set<Ticket>,  // pushed to a worker at some time
    acks: set<Ack>,           // sent back at some time
    stamped: set<GroupId>)

  datatype Event =
    | Wrote(w: WorkerId, root: Root, gid: GroupId)
    | Passed(gid: GroupId, ownersRead: bool, live: set<WorkerId>, enqueued: set<WorkerId>, stampOk: bool)
    | Drained(w: WorkerId, sent: set<GroupId>)
    | Purged(t: Ticket, fails: set<Root>)
    | AckHandled(ack: Ack, cleared: bool, ownersRead: bool, live: set<WorkerId>, unreadable: set<WorkerId>,
                 stampOk: bool)

  // The owners read as live; a failed read counts as no owners.
  function LiveOwners(s: State, g: GroupId, ownersRead: bool, live: set<WorkerId>): set<WorkerId> {
    if ownersRead then set w | w in live && Ticket(w, g) in s.owners else {}
  }

  function Tickets(ws: set<WorkerId>, g: GroupId): set<Ticket> {
    set w | w in ws :: Ticket(w, g)
  }

  function DirsOf(t: Ticket, roots: set<Root>): set<Dir> {
    set root | root in roots :: Dir(t.w, root, t.g)
  }

  function AllRoots(): set<Root> { {ScratchRoot, LogDir, WorkDir} }

  // None of the group's three directories is left on the worker.
  predicate Clean(s: State, t: Ticket) {
    forall root :: root in AllRoots() ==> Dir(t.w, root, t.g) !in s.present
  }

  // Every live owner is off the queue, and that could be read.
  predicate NonePending(s: State, queue: set<Ticket>, g: GroupId, live: set<WorkerId>, unreadable: set<WorkerId>) {
    forall w :: w in live && Ticket(w, g) in s.owners ==> w !in unreadable && Ticket(w, g) !in queue
  }

  function QueueAfterAck(s: State, e: Event): set<Ticket>
    requires e.AckHandled?
  {
    if e.ack.ok && e.cleared then s.queue - {e.ack.t} else s.queue
  }

  // The ack makes the controller stamp the group.
  predicate AckStamps(s: State, e: Event) {
    && e.AckHandled? && e.ack.ok && e.ownersRead && e.stampOk
    && NonePending(s, QueueAfterAck(s, e), e.ack.t.g, e.live, e.unreadable)
  }

  // The tick itself stamps the group: it saw no live owner.
  predicate TickStamps(s: State, e: Event) {
    e.Passed? && e.stampOk && LiveOwners(s, e.gid, e.ownersRead, e.live) == {}
  }

  predicate Enabled(s: State, e: Event) {
    match e
    case Wrote(_, _, gid) => gid !in s.retired
    case Passed(gid, ownersRead, live, enqueued, _) =>
      gid !in s.stamped && enqueued <= LiveOwners(s, gid, ownersRead, live)
    case Drained(w, sent) => forall g :: g in sent ==> Ticket(w, g) in s.queue
    case Purged(t, _) => t in s.directives
    case AckHandled(ack, _, _, _, _, _) => ack in s.acks
  }

  function Apply(s: State, e: Event): State {
    match e
    case Wrote(w, root, gid) => s.(owners := s.owners + {Ticket(w, gid)}, present := s.present + {Dir(w, root, gid)})
    case Passed(gid, _, _, enqueued, _) =>
      s.(retired := s.retired + {gid},
         queue := s.queue + Tickets(enqueued, gid),
         stamped := if TickStamps(s, e) then s.stamped + {gid} else s.stamped)
    case Drained(w, sent) => s.(directives := s.directives + set g | g in sent :: Ticket(w, g))
    case Purged(t, fails) =>
      s.(present := s.present - DirsOf(t, AllRoots() - fails), acks := s.acks + {Ack(t, fails == {})})
    case AckHandled(ack, _, _, _, _, _) =>
      s.(queue := QueueAfterAck(s, e),
         stamped := if AckStamps(s, e) then s.stamped + {ack.t.g} else s.stamped)
  }

  // A success ack stamps its group exactly if the owners and their queues could be read and every
  // live owner is off the queue, the acknowledged one by this very ack; dead owners do not count.
  lemma AckStampsIff(s: State, e: Event)
    requires e.AckHandled?
    ensures var g := e.ack.t.g;
            g in Apply(s, e).stamped <==>
            || g in s.stamped
            || (e.ack.ok && e.ownersRead && e.stampOk &&
                forall w :: w in e.live && Ticket(w, g) in s.owners ==>
                  w !in e.unreadable && (Ticket(w, g) !in s.queue || (e.cleared && w == e.ack.t.w)))
  {
    var g := e.ack.t.g;
    assert forall w :: Ticket(w, g) == e.ack.t <==> w == e.ack.t.w;
  }

  // ---------- What every step keeps ----------

  ghost predicate Inv(s: State) {
    && (forall d :: d in s.present ==> Ticket(d.w, d.g) in s.owners)
    && (forall t :: t in s.queue ==> t.g in s.retired && t in s.owners)
    && (forall t :: t in s.directives ==> t.g in s.retired)
    && s.stamped <= s.retired
    && (forall a :: a in s.acks ==> a.t in s.directives && (a.ok ==> Clean(s, a.t)))
  }

  predicate Initial(s: State) {
    && s.retired == {} && s.queue == {} && s.directives == {} && s.acks == {} && s.stamped == {}
    && forall d :: d in s.present ==> Ticket(d.w, d.g) in s.owners
  }

  lemma StepInv(s: State, e: Event)
    requires Inv(s) && Enabled(s, e)
    ensures Inv(Apply(s, e))
  {
    match e
    case Wrote(_, _, _) => WroteInv(s, e);
    case Passed(_, _, _, _, _) =>
    case Drained(_, _) =>
    case Purged(_, _) => PurgedInv(s, e);
    case AckHandled(_, _, _, _, _, _) => AckInv(s, e);
  }

  lemma WroteInv(s: State, e: Event)
    requires Inv(s) && e.Wrote? && Enabled(s, e)
    ensures Inv(Apply(s, e))
  {
    forall a | a in s.acks && a.ok ensures Clean(Apply(s, e), a.t) {
      assert Clean(s, a.t);
    }
  }

  lemma PurgedInv(s: State, e: Event)
    requires Inv(s) && e.Purged? && Enabled(s, e)
    ensures Inv(Apply(s, e))
  {
    var s' := Apply(s, e);
    forall a | a in s'.acks && a.ok ensures Clean(s', a.t) {
      if a in s.acks {
        assert Clean(s, a.t);
      } else {
        forall root | root in AllRoots() ensures Dir(a.t.w, root, a.t.g) !in s'.present {
          assert Dir(e.t.w, root, e.t.g) in DirsOf(e.t, AllRoots() - e.fails);
        }
      }
    }
  }

  lemma AckInv(s: State, e: Event)
    requires Inv(s) && e.AckHandled? && Enabled(s, e)
    ensures Inv(Apply(s, e))
  {
    forall a | a in s.acks && a.ok ensures Clean(Apply(s, e), a.t) {
      assert Clean(s, a.t);
    }
  }

  // An entry leaves the queue by its own worker's success ack and in no other way, and by then
  // the worker's three directories are gone.
  lemma LeavesByOwnAck(s: State, e: Event, t: Ticket)
    requires Inv(s) && Enabled(s, e) && t in s.queue && t !in Apply(s, e).queue
    ensures e.AckHandled? && e.ack == Ack(t, true) && e.cleared
    ensures Clean(s, t) && Clean(Apply(s, e), t)
  {
    assert Clean(s, e.ack.t);
  }

  // ---------- Runs ----------

  ghost predicate IsStep(s: State, e: Event, s': State) {
    Enabled(s, e) && s' == Apply(s, e)
  }

  ghost predicate IsPath(states: seq<State>, events: seq<Event>) {
    && |states| == |events| + 1
    && forall i :: 0 <= i < |events| ==> IsStep(states[i], events[i], states[i + 1])
  }

  ghost predicate IsRun(states: seq<State>, events: seq<Event>) {
    IsPath(states, events) && Initial(states[0])
  }

  lemma {:induction false} RunInv(states: seq<State>, events: seq<Event>, i: nat)
    requires IsRun(states, events) && i < |states|
    ensures Inv(states[i])
    decreases i
  {
    if i > 0 {
      RunInv(states, events, i - 1);
      assert IsStep(states[i - 1], events[i - 1], states[i]);
      StepInv(states[i - 1], events[i - 1]);
    }
  }

  predicate Enqueues(e: Event, t: Ticket) {
    e.Passed? && e.gid == t.g && t.w in e.enqueued
  }

  predicate Acknowledges(e: Event, t: Ticket) {
    e.AckHandled? && e.ack == Ack(t, true)
  }

  // A step `k` after `i` and before `j` handled a success ack for the ticket.
  ghost predicate AckedBetween(events: seq<Event>, i: nat, j: nat, t: Ticket)
    requires j <= |events|
  {
    exists k :: i < k < j && Acknowledges(events[k], t)
  }

  ghost predicate EnqueuedBefore(events: seq<Event>, j: nat, t: Ticket)
    requires j <= |events|
  {
    exists i :: 0 <= i < j && Enqueues(events[i], t)
  }

  // Until it is acknowledged, an enqueued ticket stays on the queue.
  lemma {:induction false} StaysQueued(states: seq<State>, events: seq<Event>, i: nat, j: nat, t: Ticket)
    requires IsRun(states, events) && i < j <= |events| && Enqueues(events[i], t)
    requires !AckedBetween(events, i, j, t)
    ensures t in states[j].queue
    decreases j
  {
    assert IsStep(states[j - 1], events[j - 1], states[j]);
    if i < j - 1 {
      StaysQueued(states, events, i, j - 1, t);
      RunInv(states, events, j - 1);
      if t !in states[j].queue { LeavesByOwnAck(states[j - 1], events[j - 1], t); }
    }
  }

  // Whenever an ack makes the controller stamp a group, every live owner ever enqueued for it
  // has had a success ack handled since its last enqueue (possibly this one), and none of its
  // three directories is left.
  lemma AckStampIsSafe(states: seq<State>, events: seq<Event>, i: nat, j: nat, w: WorkerId)
    requires IsRun(states, events) && i < j < |events| && AckStamps(states[j], events[j])
    requires w in events[j].live && Enqueues(events[i], Ticket(w, events[j].ack.t.g))
    ensures AckedBetween(events, i, j + 1, Ticket(w, events[j].ack.t.g))
    ensures Clean(states[j + 1], Ticket(w, events[j].ack.t.g))
  {
    var t := Ticket(w, events[j].ack.t.g);
    OwnersStay(states, events, i, j, t);
    if !AckedBetween(events, i, j, t) {
      StaysQueued(states, events, i, j, t);
      assert Acknowledges(events[j], t);
    }
    AckedIsClean(states, events, i, j + 1, t);
  }

  lemma {:induction false} OwnersStay(states: seq<State>, events: seq<Event>, i: nat, j: nat, t: Ticket)
    requires IsRun(states, events) && i < j < |states| && Enqueues(events[i], t)
    ensures t in states[j].owners
    decreases j
  {
    assert IsStep(states[j - 1], events[j - 1], states[j]);
    if i < j - 1 { OwnersStay(states, events, i, j - 1, t); }
  }

  lemma AckedIsClean(states: seq<State>, events: seq<Event>, i: nat, j: nat, t: Ticket)
    requires IsRun(states, events) && j <= |events| && AckedBetween(events, i, j, t)
    ensures Clean(states[j], t)
  {
    var k :| i < k < j && Acknowledges(events[k], t);
    assert IsStep(states[k], events[k], states[k + 1]);
    AckStays(states, events, k, j, Ack(t, true));
    RunInv(states, events, j);
  }

  lemma {:induction false} AckStays(states: seq<State>, events: seq<Event>, i: nat, j: nat, a: Ack)
    requires IsRun(states, events) && i <= j < |states| && a in states[i].acks
    ensures a in states[j].acks
    decreases j
  {
    if i < j {
      AckStays(states, events, i, j - 1, a);
      assert IsStep(states[j - 1], events[j - 1], states[j]);
    }
  }

  // ---------- Owners that were never enqueued ----------

  lemma {:induction false} OnlyEnqueuedArePurged(states: seq<State>, events: seq<Event>, j: nat, t: Ticket)
    requires IsRun(states, events) && j <= |events| && !EnqueuedBefore(events, j, t)
    ensures t !in states[j].queue && t !in states[j].directives
    decreases j
  {
    if j > 0 {
      assert forall i :: 0 <= i < j - 1 ==> !Enqueues(events[i], t);
      OnlyEnqueuedArePurged(states, events, j - 1, t);
      assert IsStep(states[j - 1], events[j - 1], states[j]);
      assert !Enqueues(events[j - 1], t);
    }
  }

  // From the time its group is picked, a worker that is never enqueued keeps every directory.
  lemma {:induction false} NeverEnqueuedKeepsFiles(states: seq<State>, events: seq<Event>, r: nat, j: nat,
                                                   t: Ticket, root: Root)
    requires IsRun(states, events) && r <= j <= |events| && t.g in states[r].retired && !EnqueuedBefore(events, j, t)
    ensures t.g in states[j].retired
    ensures Dir(t.w, root, t.g) in states[j].present <==> Dir(t.w, root, t.g) in states[r].present
    decreases j
  {
    if r < j {
      assert forall i :: 0 <= i < j - 1 ==> !Enqueues(events[i], t);
      NeverEnqueuedKeepsFiles(states, events, r, j - 1, t, root);
      OnlyEnqueuedArePurged(states, events, j - 1, t);
      assert IsStep(states[j - 1], events[j - 1], states[j]);
    }
  }

  // ---------- What a stamp leaves behind ----------

  // The step stamps the group, on either path.
  predicate Stamps(s: State, e: Event, g: GroupId) {
    || (TickStamps(s, e) && e.gid == g)
    || (AckStamps(s, e) && e.ack.t.g == g)
  }

  // The workers the stamping step saw as live.
  function SeenLive(e: Event): set<WorkerId> {
    if e.Passed? || e.AckHandled? then e.live else {}
  }

  // The stamp could know about the worker: the tick has read the owners, or the worker was
  // enqueued before the ack.
  ghost predicate Considered(events: seq<Event>, j: nat, t: Ticket)
    requires j < |events|
  {
    if events[j].Passed? then events[j].ownersRead else EnqueuedBefore(events, j, t)
  }

  // The tick's own stamp leaves files on a live worker exactly if the owners were not read and
  // the worker had files.
  lemma TickStampLeavesIff(s: State, e: Event, w: WorkerId)
    requires Inv(s) && Enabled(s, e) && TickStamps(s, e) && w in e.live
    ensures !Clean(Apply(s, e), Ticket(w, e.gid)) <==> !Clean(s, Ticket(w, e.gid)) && !e.ownersRead
  {
    var t := Ticket(w, e.gid);
    if e.ownersRead {
      assert w !in LiveOwners(s, e.gid, e.ownersRead, e.live);
      forall root | root in AllRoots() ensures Dir(w, root, e.gid) !in s.present {
        var d := Dir(w, root, e.gid);
        assert d in s.present ==> Ticket(d.w, d.g) in s.owners;
      }
    }
  }

  // The ack path leaves files on a live worker exactly if it had some and was never enqueued.
  lemma AckStampLeavesIff(states: seq<State>, events: seq<Event>, j: nat, w: WorkerId)
    requires IsRun(states, events) && j < |events| && AckStamps(states[j], events[j]) && w in events[j].live
    ensures var t := Ticket(w, events[j].ack.t.g);
            !Clean(states[j + 1], t) <==> !Clean(states[j], t) && !EnqueuedBefore(events, j, t)
  {
    var t := Ticket(w, events[j].ack.t.g);
    assert IsStep(states[j], events[j], states[j + 1]);
    if EnqueuedBefore(events, j, t) {
      var i :| 0 <= i < j && Enqueues(events[i], t);
      AckStampIsSafe(states, events, i, j, w);
    }
  }

  // In terms of the time the group was picked: the files left are those the worker had then, if
  // it was never enqueued, and none otherwise.
  lemma FilesLeftAtStampIff(states: seq<State>, events: seq<Event>, r: nat, j: nat, w: WorkerId)
    requires IsRun(states, events) && j < |events| && AckStamps(states[j], events[j])
    requires w in events[j].live && r <= j && events[j].ack.t.g in states[r].retired
    ensures var t := Ticket(w, events[j].ack.t.g);
            !Clean(states[j + 1], t) <==> !Clean(states[r], t) && !EnqueuedBefore(events, j, t)
  {
    var t := Ticket(w, events[j].ack.t.g);
    AckStampLeavesIff(states, events, j, w);
    if !EnqueuedBefore(events, j, t) {
      forall root ensures Dir(t.w, root, t.g) in states[j].present <==> Dir(t.w, root, t.g) in states[r].present {
        NeverEnqueuedKeepsFiles(states, events, r, j, t, root);
      }
    }
  }

  // In every run, on both paths: a stamp leaves files on a live worker exactly if the worker
  // had files and the stamp could not know about it.
  lemma StampLeavesIff(states: seq<State>, events: seq<Event>, j: nat, g: GroupId, w: WorkerId)
    requires IsRun(states, events) && j < |events| && Stamps(states[j], events[j], g) && w in SeenLive(events[j])
    ensures var t := Ticket(w, g); !Clean(states[j + 1], t) <==> !Clean(states[j], t) && !Considered(events, j, t)
  {
    assert IsStep(states[j], events[j], states[j + 1]);
    if events[j].Passed? {
      RunInv(states, events, j);
      TickStampLeavesIff(states[j], events[j], w);
    } else {
      AckStampLeavesIff(states, events, j, w);
    }
  }

  // ---------- The same from the time the group was picked ----------

  // The step removes the directory.
  predicate Removes(e: Event, t: Ticket, root: Root) {
    e.Purged? && e.t == t && root !in e.fails
  }

  ghost predicate RemovedBetween(events: seq<Event>, r: nat, j: nat, t: Ticket, root: Root)
    requires j <= |events|
  {
    exists k :: r <= k < j && Removes(events[k], t, root)
  }

  lemma StepPresentIff(s: State, e: Event, t: Ticket, root: Root)
    requires Enabled(s, e) && t.g in s.retired
    ensures var d := Dir(t.w, root, t.g);
            && t.g in Apply(s, e).retired
            && (d in Apply(s, e).present <==> d in s.present && !Removes(e, t, root))
  {
    RootIsOne(root);
    if e.Purged? { assert Dir(t.w, root, t.g) in DirsOf(e.t, AllRoots() - e.fails) <==> Removes(e, t, root); }
  }

  lemma RootIsOne(root: Root)
    ensures root in AllRoots()
  {
    match root
    case ScratchRoot =>
    case LogDir =>
    case WorkDir =>
  }

  // Once its group is picked, a directory is there exactly if it was then and no purge of its
  // worker has removed it since.
  lemma {:induction false} PresentIff(states: seq<State>, events: seq<Event>, r: nat, j: nat, t: Ticket, root: Root)
    requires IsRun(states, events) && r <= j <= |events| && t.g in states[r].retired
    ensures t.g in states[j].retired
    ensures Dir(t.w, root, t.g) in states[j].present <==>
            Dir(t.w, root, t.g) in states[r].present && !RemovedBetween(events, r, j, t, root)
    decreases j
  {
    if r < j {
      PresentIff(states, events, r, j - 1, t, root);
      assert IsStep(states[j - 1], events[j - 1], states[j]);
      StepPresentIff(states[j - 1], events[j - 1], t, root);
      assert RemovedBetween(events, r, j, t, root) <==>
             RemovedBetween(events, r, j - 1, t, root) || Removes(events[j - 1], t, root);
    }
  }

  // One of the directories the worker had in state `r` was not removed since.
  ghost predicate Unpurged(states: seq<State>, events: seq<Event>, r: nat, j: nat, t: Ticket)
    requires r < |states| && j <= |events|
  {
    exists root :: Dir(t.w, root, t.g) in states[r].present && !RemovedBetween(events, r, j, t, root)
  }

  // In every run, on both paths, for a group picked by state `r` at the latest: the stamp leaves
  // files on a live worker exactly if it could not know about the worker and one of the
  // directories the worker had then was never removed.
  lemma FilesLeftIff(states: seq<State>, events: seq<Event>, r: nat, j: nat, g: GroupId, w: WorkerId)
    requires IsRun(states, events) && j < |events| && Stamps(states[j], events[j], g) && w in SeenLive(events[j])
    requires r <= j + 1 && g in states[r].retired
    ensures var t := Ticket(w, g);
            !Clean(states[j + 1], t) <==> !Considered(events, j, t) && Unpurged(states, events, r, j + 1, t)
  {
    var t := Ticket(w, g);
    StampLeavesIff(states, events, j, g, w);
    UncleanIff(states, events, r, j + 1, t);
    assert IsStep(states[j], events[j], states[j + 1]);
  }

  lemma UncleanIff(states: seq<State>, events: seq<Event>, r: nat, j: nat, t: Ticket)
    requires IsRun(states, events) && r <= j <= |events| && t.g in states[r].retired
    ensures !Clean(states[j], t) <==> Unpurged(states, events, r, j, t)
  {
    forall root
      ensures root in AllRoots()
      ensures Dir(t.w, root, t.g) in states[j].present <==>
              Dir(t.w, root, t.g) in states[r].present && !RemovedBetween(events, r, j, t, root)
    {
      RootIsOne(root);
      PresentIff(states, events, r, j, t, root);
    }
  }

  // So a stamp is safe for the whole group exactly if it could know about every live worker
  // that still has files.
  lemma StampSafeIff(states: seq<State>, events: seq<Event>, j: nat, g: GroupId)
    requires IsRun(states, events) && j < |events| && Stamps(states[j], events[j], g)
    ensures (forall w :: w in SeenLive(events[j]) ==> Clean(states[j + 1], Ticket(w, g))) <==>
            (forall w :: w in SeenLive(events[j]) && !Clean(states[j], Ticket(w, g)) ==>
               Considered(events, j, Ticket(w, g)))
  {
    forall w | w in SeenLive(events[j])
      ensures var t := Ticket(w, g); Clean(states[j + 1], t) <==> (Clean(states[j], t) || Considered(events, j, t))
    {
      StampLeavesIff(states, events, j, g, w);
    }
  }

  // Nothing makes up for it: a stamped group is not passed over again, so a worker that was not
  // enqueued by then never is, and keeps every directory for the rest of the run.
  lemma {:induction false} StampIsFinal(states: seq<State>, events: seq<Event>, j: nat, k: nat, t: Ticket, root: Root)
    requires IsRun(states, events) && j <= k <= |events| && t.g in states[j].stamped && !EnqueuedBefore(events, j, t)
    ensures t.g in states[k].stamped && !EnqueuedBefore(events, k, t)
    ensures Dir(t.w, root, t.g) in states[k].present <==> Dir(t.w, root, t.g) in states[j].present
    decreases k
  {
    RunInv(states, events, j);
    if j < k {
      StampIsFinal(states, events, j, k - 1, t, root);
      assert IsStep(states[k - 1], events[k - 1], states[k]);
      assert !Enqueues(events[k - 1], t);
    }
    NeverEnqueuedKeepsFiles(states, events, j, k, t, root);
  }

  // ---------- Retrying ----------

  // However many messages were lost, a queued purge can be finished from any reachable state: a
  // drain, a deletion without errors and its ack take it off the queue with its files gone, and
  // stamp the group when no other live owner is pending.
  lemma RetryFinishes(s: State, t: Ticket, live: set<WorkerId>)
    requires Inv(s) && t in s.queue
    ensures var drain, purge := Drained(t.w, {t.g}), Purged(t, {});
            var ack := AckHandled(Ack(t, true), true, true, live, {}, true);
            var s1 := Apply(s, drain); var s2 := Apply(s1, purge); var s3 := Apply(s2, ack);
            && Enabled(s, drain) && Enabled(s1, purge) && Enabled(s2, ack)
            && t !in s3.queue && Clean(s3, t)
            && (t.g in s3.stamped <==>
                t.g in s.stamped ||
                forall w :: w in live && w != t.w && Ticket(w, t.g) in s.owners ==> Ticket(w, t.g) !in s.queue)
  {
    var s1 := Apply(s, Drained(t.w, {t.g}));
    assert t in (set g | g in {t.g} :: Ticket(t.w, g)) by { assert t.g in {t.g}; }
    StepInv(s, Drained(t.w, {t.g}));
    StepInv(s1, Purged(t, {}));
    assert Ack(t, true) in Apply(s1, Purged(t, {})).acks;
  }

  // ---------- What the protocol does not promise ----------

  // Two owners, one of them silent when T1 passes. The other purges and acks; the silent one is
  // back by then and, never enqueued, does not hold up the stamp. Its files stay.
  lemma ReturningOwnerKeepsFiles() returns (states: seq<State>, events: seq<Event>)
    ensures IsRun(states, events) && |events| == 4 && AckStamps(states[3], events[3])
    ensures var t := Ticket(WorkerId(1), events[3].ack.t.g);
            t.w in events[3].live && t in states[4].owners && t.g in states[4].stamped && !Clean(states[4], t)
  {
    var a, b, g := WorkerId(0), WorkerId(1), GroupId(0);
    var left := Dir(b, WorkDir, g);
    var s0 := State({Ticket(a, g), Ticket(b, g)}, {left}, {}, {}, {}, {}, {});
    var e0 := Passed(g, true, {a}, {a}, true);
    var s1 := Apply(s0, e0);
    assert a in LiveOwners(s0, g, true, {a});
    assert Ticket(a, g) in Tickets({a}, g);
    var e1 := Drained(a, {g});
    var s2 := Apply(s1, e1);
    assert Ticket(a, g) in (set x | x in {g} :: Ticket(a, x));
    var e2 := Purged(Ticket(a, g), {});
    var s3 := Apply(s2, e2);
    assert left !in DirsOf(Ticket(a, g), AllRoots() - {});
    var e3 := AckHandled(Ack(Ticket(a, g), true), true, true, {a, b}, {}, true);
    var s4 := Apply(s3, e3);
    assert Ticket(b, g) !in Tickets({a}, g);
    states, events := [s0, s1, s2, s3, s4], [e0, e1, e2, e3];
  }

  // A failed read of the owners looks to the tick like a group without live owners. From any
  // reachable state with an unstamped group it can happen, and then stamps the group with every
  // live worker's files in place.
  lemma UnreadOwnersAreStamped(s: State, t: Ticket)
    requires Inv(s) && t.g !in s.stamped && !Clean(s, t)
    ensures var e := Passed(t.g, false, {t.w}, {}, true);
            Enabled(s, e) && TickStamps(s, e) && t.g in Apply(s, e).stamped && !Clean(Apply(s, e), t)
  {
    var e := Passed(t.g, false, {t.w}, {}, true);
    assert Enabled(s, e) && TickStamps(s, e);
    TickStampLeavesIff(s, e, t.w);
  }
}
