/**
  The code of the retention purge, on both sides of the stream. Every operation is proved to be
  one step of the protocol, and a retention tick to be one pass per candidate.

  Whether a store, database or stream call succeeds is a parameter.
 */
module Purge {
  import opened Common
  import opened JobGroups
  import opened PurgeProtocol

  // The worker registry as one operation sees it, in seconds.
  datatype Sighting = Sighting(heartbeats: map<WorkerId, int>, now: int, timeout: int)

  predicate IsLive(seen: Sighting, w: WorkerId) {
    w in seen.heartbeats && seen.now - seen.heartbeats[w] < seen.timeout
  }

  function Live(seen: Sighting): set<WorkerId> {
    set w | w in seen.heartbeats && IsLive(seen, w)
  }

  // The workers a tick puts on the queue for a group: live owners, as far as they could be read
  // and the store reached.
  ghost function Told(owners: set<Ticket>, g: GroupId, ownersRead: bool, seen: Sighting,
                      reached: set<WorkerId>): set<WorkerId> {
    set w | w in reached && ownersRead && w in Live(seen) && Ticket(w, g) in owners
  }

  // No live owner could be seen.
  ghost predicate NoneLive(owners: set<Ticket>, g: GroupId, ownersRead: bool, seen: Sighting) {
    ownersRead ==> forall w :: w in Live(seen) ==> Ticket(w, g) !in owners
  }

  class PurgeState {
    var owners: set<Ticket>
    var present: set<Dir>
    var queue: set<Ticket>
    var directives: set<Ticket>
    var acks: set<Ack>
    var stamped: set<GroupId>
    ghost var retired: set<GroupId>

    ghost function View(): State
      reads this
    {
      State(owners, present, retired, queue, directives, acks, stamped)
    }

    // Owners that ran a stage of the group; none when the database cannot be read.
    method WorkersForGroup(g: GroupId) returns (ws: set<WorkerId>)
      ensures forall w :: w in ws <==> Ticket(w, g) in owners
    {
      ws := set t | t in owners && t.g == g :: t.w;
      OwnersByGroup(owners, g);
    }

    method FilterLiveWorkers(ws: set<WorkerId>, seen: Sighting) returns (live: set<WorkerId>)
      ensures forall w :: w in live <==>
                w in ws && w in seen.heartbeats && seen.now - seen.heartbeats[w] < seen.timeout
    {
      live := set w | w in ws && IsLive(seen, w);
    }

    // ---------- The retention tick ----------

    // One candidate: its live owners are enqueued, as far as the store answers. Without any
    // the group is to be stamped at once.
    method Pass(g: GroupId, ownersRead: bool, seen: Sighting, reached: set<WorkerId>) returns (stampNow: bool)
      modifies this`queue, this`retired
      ensures var live := LiveOwners(View(), g, ownersRead, Live(seen));
              && (stampNow <==> live == {})
              && queue == old(queue) + Tickets(live * reached, g)
      ensures retired == old(retired) + {g}
    {
      retired := retired + {g};
      var ws := {};
      if ownersRead { ws := WorkersForGroup(g); }
      var live := FilterLiveWorkers(ws, seen);
      assert live == LiveOwners(View(), g, ownersRead, Live(seen));
      stampNow := live == {};
      if stampNow {
        assert Tickets(live * reached, g) == {};
        return;
      }
      EnqueueAll(live, g, reached);
    }

    method EnqueueAll(ws: set<WorkerId>, g: GroupId, reached: set<WorkerId>)
      modifies this`queue
      ensures queue == old(queue) + Tickets(ws * reached, g)
    {
      var todo := ws;
      while todo != {}
        invariant todo <= ws
        invariant queue == old(queue) + Tickets((ws - todo) * reached, g)
        decreases todo
      {
        var w :| w in todo;
        if w in reached { queue := queue + {Ticket(w, g)}; }
        OneMoreTicket(ws, todo, w, reached, g);
        todo := todo - {w};
      }
      assert ws - todo == ws;
    }

    // Groups without live owners are stamped together at the end. The whole tick is a path of
    // one pass per candidate, in order; it enqueues the live owners of every candidate and
    // stamps the candidates without any, and nothing else.
    method RunT1(candidates: seq<GroupId>, readable: set<GroupId>, seen: seq<Sighting>, reached: seq<set<WorkerId>>,
                 stampOk: bool)
      returns (ghost states: seq<State>, ghost events: seq<Event>)
      requires NoDuplicates(candidates) && |seen| == |candidates| == |reached|
      requires forall i :: 0 <= i < |candidates| ==> candidates[i] !in stamped
      modifies this
      ensures IsPath(states, events) && states[0] == old(View()) && states[|events|] == View()
      ensures |events| == |candidates|
      ensures forall i :: 0 <= i < |events| ==>
                && events[i].Passed? && events[i].gid == candidates[i]
                && events[i].live == Live(seen[i]) && events[i].ownersRead == (candidates[i] in readable)
                && events[i].enqueued ==
                   Told(old(owners), candidates[i], candidates[i] in readable, seen[i], reached[i])
                && events[i].stampOk == stampOk
      ensures owners == old(owners) && present == old(present) && directives == old(directives) && acks == old(acks)
      ensures forall t :: t in queue <==>
                t in old(queue) ||
                exists i :: 0 <= i < |candidates| && candidates[i] == t.g &&
                  t.w in Told(old(owners), t.g, t.g in readable, seen[i], reached[i])
      ensures forall g :: g in stamped <==>
                g in old(stamped) ||
                (stampOk && exists i :: 0 <= i < |candidates| && candidates[i] == g &&
                              NoneLive(old(owners), g, g in readable, seen[i]))
    {
      states, events := [View()], [];
      var immediately := {};
      for i := 0 to |candidates|
        invariant |events| == i && IsPath(states, events) && states[0] == old(View())
        invariant stamped == old(stamped) && immediately <= set k | 0 <= k < i :: candidates[k]
        invariant states[i] == View().(stamped := if stampOk then stamped + immediately else stamped)
        invariant owners == old(owners) && present == old(present) && directives == old(directives) && acks == old(acks)
        invariant forall t :: t in queue <==>
                    t in old(queue) ||
                    exists k :: 0 <= k < i && candidates[k] == t.g &&
                      t.w in Told(old(owners), t.g, t.g in readable, seen[k], reached[k])
        invariant forall g :: g in immediately <==>
                    exists k :: 0 <= k < i && candidates[k] == g && NoneLive(old(owners), g, g in readable, seen[k])
        invariant forall k :: 0 <= k < i ==>
                    && events[k].Passed? && events[k].gid == candidates[k]
                    && events[k].live == Live(seen[k]) && events[k].ownersRead == (candidates[k] in readable)
                    && events[k].enqueued ==
                       Told(old(owners), candidates[k], candidates[k] in readable, seen[k], reached[k])
                    && events[k].stampOk == stampOk
      {
        var g := candidates[i];
        ghost var live := LiveOwners(states[i], g, g in readable, Live(seen[i]));
        assert live * reached[i] == Told(old(owners), g, g in readable, seen[i], reached[i]);
        var stampNow := Pass(g, g in readable, seen[i], reached[i]);
        NoLiveOwners(states[i], g, g in readable, seen[i]);
        if stampNow { immediately := immediately + {g}; }
        ghost var e := Passed(g, g in readable, Live(seen[i]), live * reached[i], stampOk);
        ghost var s' := View().(stamped := if stampOk then stamped + immediately else stamped);
        PathGrows(states, events, e, s');
        states, events := states + [s'], events + [e];
      }
      if stampOk { stamped := stamped + immediately; }
    }

    // ---------- Pushing the queue ----------

    // Entries stay queued when they are sent. A stream that closes ends the drain.
    method DrainPendingPurges(w: WorkerId, readOk: bool, capacity: nat) returns (ghost sent: set<GroupId>)
      modifies this`directives
      ensures IsStep(old(View()), Drained(w, sent), View())
      ensures readOk && capacity >= |queue| ==> forall t :: t in queue && t.w == w ==> t.g in sent && t in directives
    {
      sent := {};
      if !readOk { return; }
      var queued := set t | t in queue && t.w == w;
      var todo := queued;
      var room := capacity;
      SubsetSize(queued, queue);
      while todo != {}
        invariant todo <= queued
        invariant forall g :: g in sent ==> Ticket(w, g) in queued
        invariant forall t :: t in queued && t !in todo ==> t.g in sent
        invariant directives == old(directives) + set g | g in sent :: Ticket(w, g)
        invariant capacity >= |queued| ==> room >= |todo|
        decreases todo
      {
        if room == 0 { return; }
        var t :| t in todo;
        directives, room := directives + {t}, room - 1;
        sent, todo := sent + {t.g}, todo - {t};
      }
    }

    // ---------- The worker ----------

    // Tries all three directories, whatever happens to each.
    method PurgeGroupDirs(t: Ticket, fails: set<Root>) returns (failures: seq<Root>)
      modifies this`present
      ensures present == old(present) - DirsOf(t, AllRoots() - fails)
      ensures failures == [] <==> fails == {}
      ensures failures == [] ==> Clean(View(), t)
      ensures forall d :: d in old(present) && d !in present ==> d.w == t.w && d.g == t.g
    {
      var targets := [ScratchRoot, LogDir, WorkDir];
      failures := [];
      for i := 0 to |targets|
        invariant present == old(present) - DirsOf(t, (set k | 0 <= k < i :: targets[k]) - fails)
        invariant failures == [] <==> forall k :: 0 <= k < i ==> targets[k] !in fails
      {
        if targets[i] in fails {
          failures := failures + [targets[i]];
        } else {
          present := present - {Dir(t.w, targets[i], t.g)};
        }
        OneMoreDir(t, targets, i, fails);
      }
      TargetsAreAll(targets);
      if fails != {} {
        var root :| root in fails;
        assert root in AllRoots();
      }
    }

    method HandlePurgeDirective(t: Ticket, fails: set<Root>)
      requires t in directives
      modifies this`present, this`acks
      ensures IsStep(old(View()), Purged(t, fails), View())
    {
      var failures := PurgeGroupDirs(t, fails);
      acks := acks + {Ack(t, failures == [])};
    }

    // ---------- The ack ----------

    // Stops at the first live owner that is pending or cannot be looked up.
    method AllWorkersAcked(g: GroupId, ownersRead: bool, seen: Sighting, unreadable: set<WorkerId>) returns (done: bool)
      ensures done <==> ownersRead && NonePending(View(), queue, g, Live(seen), unreadable)
    {
      if !ownersRead { return false; }
      var ws := WorkersForGroup(g);
      var todo := ws;
      while todo != {}
        invariant todo <= ws
        invariant forall w :: w in ws && w !in todo && w in Live(seen) ==> w !in unreadable && Ticket(w, g) !in queue
        decreases todo
      {
        var w :| w in todo;
        todo := todo - {w};
        if IsLive(seen, w) {
          if w in unreadable { return false; }
          if Ticket(w, g) in queue { return false; }
        }
      }
      return true;
    }

    method HandlePurgeAck(ack: Ack, cleared: bool, ownersRead: bool, seen: Sighting, unreadable: set<WorkerId>,
                          stampOk: bool)
      requires ack in acks
      modifies this`queue, this`stamped
      ensures IsStep(old(View()), AckHandled(ack, cleared, ownersRead, Live(seen), unreadable, stampOk), View())
    {
      if !ack.ok { return; }
      if cleared { queue := queue - {ack.t}; }
      var done := AllWorkersAcked(ack.t.g, ownersRead, seen, unreadable);
      if done && stampOk { stamped := stamped + {ack.t.g}; }
    }
  }

  lemma NoLiveOwners(s: State, g: GroupId, ownersRead: bool, seen: Sighting)
    ensures LiveOwners(s, g, ownersRead, Live(seen)) == {} <==> NoneLive(s.owners, g, ownersRead, seen)
  {
    if NoneLive(s.owners, g, ownersRead, seen) {
      assert forall w :: w !in LiveOwners(s, g, ownersRead, Live(seen));
    } else {
      var w :| w in Live(seen) && Ticket(w, g) in s.owners;
      assert w in LiveOwners(s, g, ownersRead, Live(seen));
    }
  }

  lemma OwnersByGroup(owners: set<Ticket>, g: GroupId)
    ensures forall w :: w in (set t | t in owners && t.g == g :: t.w) <==> Ticket(w, g) in owners
  {
    forall w | Ticket(w, g) in owners ensures w in (set t | t in owners && t.g == g :: t.w) {
      assert Ticket(w, g).w == w;
    }
  }

  lemma OneMoreTicket(ws: set<WorkerId>, todo: set<WorkerId>, w: WorkerId, reached: set<WorkerId>, g: GroupId)
    requires w in todo && todo <= ws
    ensures Tickets((ws - (todo - {w})) * reached, g) ==
            Tickets((ws - todo) * reached, g) + (if w in reached then {Ticket(w, g)} else {})
  {
    var before, after := (ws - todo) * reached, (ws - (todo - {w})) * reached;
    if w in reached {
      assert after == before + {w};
      assert w in after;
    } else {
      assert after == before;
    }
  }

  lemma PathGrows(states: seq<State>, events: seq<Event>, e: Event, s': State)
    requires IsPath(states, events) && IsStep(states[|events|], e, s')
    ensures IsPath(states + [s'], events + [e])
  {
    var longer, all := states + [s'], events + [e];
    forall i | 0 <= i < |all| ensures IsStep(longer[i], all[i], longer[i + 1]) {
      if i < |events| { assert IsStep(states[i], events[i], states[i + 1]); }
    }
  }

  lemma SubsetSize<T>(a: set<T>, b: set<T>)
    requires a <= b
    ensures |a| <= |b|
  {
    assert b == a + (b - a);
  }

  lemma OneMoreDir(t: Ticket, targets: seq<Root>, i: nat, fails: set<Root>)
    requires i < |targets|
    ensures DirsOf(t, (set k | 0 <= k < i + 1 :: targets[k]) - fails) ==
            DirsOf(t, (set k | 0 <= k < i :: targets[k]) - fails) +
            (if targets[i] in fails then {} else {Dir(t.w, targets[i], t.g)})
  {
    var before, after := set k | 0 <= k < i :: targets[k], set k | 0 <= k < i + 1 :: targets[k];
    assert after == before + {targets[i]};
  }

  lemma TargetsAreAll(targets: seq<Root>)
    requires targets == [ScratchRoot, LogDir, WorkDir]
    ensures (set k | 0 <= k < 3 :: targets[k]) == AllRoots()
    ensures forall root: Root :: root in AllRoots()
  {
    assert targets[0] == ScratchRoot && targets[1] == LogDir && targets[2] == WorkDir;
    forall root: Root ensures root in AllRoots() {
      match root
      case ScratchRoot =>
      case LogDir =>
      case WorkDir =>
    }
  }
}
