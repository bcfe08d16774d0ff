/**
  The per-address fixed-window rate limiter, and how many requests it can let through in any
  stretch of time as long as its window. Times are instants of a monotonic clock.
 */
module RateLimiter {

  type Address = int
  datatype Entry = Entry(count: nat, start: nat)
  datatype Request = Request(ip: Address, time: nat)
  datatype Limits = Limits(maxRequests: nat, window: nat)

  // ---------- One request ----------

  function EntryFor(state: map<Address, Entry>, ip: Address, now: nat): Entry {
    if ip in state then state[ip] else Entry(0, now)
  }

  predicate Accepts(l: Limits, e: Entry, now: nat) {
    now >= e.start + l.window || e.count < l.maxRequests
  }

  function EntryAfter(l: Limits, e: Entry, now: nat): Entry {
    if now >= e.start + l.window then Entry(1, now)
    else if e.count < l.maxRequests then Entry(e.count + 1, e.start)
    else e
  }

  class Limiter {
    var state: map<Address, Entry>
    const limits: Limits

    constructor (maxRequests: nat, window: nat)
      ensures state == map[] && limits == Limits(maxRequests, window)
    {
      state := map[];
      limits := Limits(maxRequests, window);
    }

    method Check(ip: Address, now: nat) returns (ok: bool)
      modifies this
      ensures state == old(state)[ip := EntryAfter(limits, EntryFor(old(state), ip, now), now)]
      ensures ok == Accepts(limits, EntryFor(old(state), ip, now), now)
    {
      if ip !in state { state := state[ip := Entry(0, now)]; }
      var entry := state[ip];
      if now >= entry.start + limits.window {
        state := state[ip := Entry(1, now)];
        ok := true;
      } else if entry.count < limits.maxRequests {
        state := state[ip := entry.(count := entry.count + 1)];
        ok := true;
      } else {
        ok := false;
      }
    }
  }

  // ---------- Runs ----------

  datatype Run = Run(state: map<Address, Entry>, accepted: seq<Request>)

  // The state after these requests, and those of them that were accepted.
  ghost function RunOf(l: Limits, requests: seq<Request>): Run {
    if requests == [] then Run(map[], [])
    else
      var before, r := RunOf(l, requests[..|requests| - 1]), requests[|requests| - 1];
      var e := EntryFor(before.state, r.ip, r.time);
      Run(before.state[r.ip := EntryAfter(l, e, r.time)],
          if Accepts(l, e, r.time) then before.accepted + [r] else before.accepted)
  }

  lemma RunSnoc(l: Limits, requests: seq<Request>, r: Request)
    ensures var before := RunOf(l, requests); var e := EntryFor(before.state, r.ip, r.time);
            RunOf(l, requests + [r]) ==
            Run(before.state[r.ip := EntryAfter(l, e, r.time)],
                if Accepts(l, e, r.time) then before.accepted + [r] else before.accepted)
  {
    assert (requests + [r])[..|requests|] == requests;
  }

  predicate Within(r: Request, ip: Address, from: nat, length: nat) {
    r.ip == ip && from <= r.time < from + length
  }

  ghost function CountWithin(rs: seq<Request>, ip: Address, from: nat, length: nat): nat {
    if rs == [] then 0
    else CountWithin(rs[..|rs| - 1], ip, from, length) + if Within(rs[|rs| - 1], ip, from, length) then 1 else 0
  }

  lemma CountSnoc(rs: seq<Request>, r: Request, ip: Address, from: nat, length: nat)
    ensures CountWithin(rs + [r], ip, from, length) ==
            CountWithin(rs, ip, from, length) + if Within(r, ip, from, length) then 1 else 0
  {
    assert (rs + [r])[..|rs|] == rs;
  }

  ghost predicate Chronological(requests: seq<Request>) {
    forall i, j :: 0 <= i < j < |requests| ==> requests[i].time <= requests[j].time
  }

  // The most a single window lets through.
  function PerWindow(l: Limits): nat {
    if l.maxRequests == 0 then 1 else l.maxRequests
  }

  // The accepted requests of `ip` in the stretch, `n` of them, measured against the entry of
  // `ip`, when no request so far is later than `now`.
  ghost predicate Accounted(l: Limits, state: map<Address, Entry>, ip: Address, from: nat, now: nat, n: nat) {
    && (now < from ==> n == 0)
    && (ip !in state ==> n == 0)
    && (ip in state ==>
          var e := state[ip];
          && e.start <= now
          && e.count <= PerWindow(l)
          && (e.count == 0 ==> l.maxRequests == 0)
          && (if e.start < from then n == 0 || n < e.count
              else if e.start < from + l.window then n <= PerWindow(l) - 1 + e.count
              else n <= 2 * PerWindow(l) - 1))
  }

  lemma AccountedStep(l: Limits, state: map<Address, Entry>, ip: Address, from: nat, before: nat, n: nat, now: nat)
    requires Accounted(l, state, ip, from, before, n) && before <= now && l.window > 0
    ensures var e := EntryFor(state, ip, now);
            Accounted(l, state[ip := EntryAfter(l, e, now)], ip, from, now,
                      n + if Accepts(l, e, now) && from <= now < from + l.window then 1 else 0)
  {
  }

  lemma {:induction false} RunAccounted(l: Limits, requests: seq<Request>, ip: Address, from: nat)
    requires Chronological(requests) && l.window > 0
    ensures var run := RunOf(l, requests);
            Accounted(l, run.state, ip, from, if requests == [] then 0 else requests[|requests| - 1].time,
                      CountWithin(run.accepted, ip, from, l.window))
    decreases |requests|
  {
    if requests != [] {
      var init, r := requests[..|requests| - 1], requests[|requests| - 1];
      RunAccounted(l, init, ip, from);
      var before := RunOf(l, init);
      var n := CountWithin(before.accepted, ip, from, l.window);
      CountSnoc(before.accepted, r, ip, from, l.window);
      var last := if init == [] then 0 else init[|init| - 1].time;
      assert last <= r.time;
      if r.ip == ip { AccountedStep(l, before.state, ip, from, last, n, r.time); }
    }
  }

  lemma {:induction false} EmptyStretch(rs: seq<Request>, ip: Address, from: nat)
    ensures CountWithin(rs, ip, from, 0) == 0
    decreases |rs|
  {
    if rs != [] { EmptyStretch(rs[..|rs| - 1], ip, from); }
  }

  // In any stretch as long as the window, an address gets at most twice the per-window number
  // of requests through, less one.
  lemma WindowBound(l: Limits, requests: seq<Request>, ip: Address, from: nat)
    requires Chronological(requests)
    ensures CountWithin(RunOf(l, requests).accepted, ip, from, l.window) <= 2 * PerWindow(l) - 1
  {
    if l.window == 0 {
      EmptyStretch(RunOf(l, requests).accepted, ip, from);
    } else {
      RunAccounted(l, requests, ip, from);
    }
  }

  // ---------- Nobody is refused too early ----------

  lemma {:induction false} CountWider(rs: seq<Request>, ip: Address, from: nat, length: nat, from': nat, length': nat)
    requires from' <= from && from + length <= from' + length'
    ensures CountWithin(rs, ip, from, length) <= CountWithin(rs, ip, from', length')
    decreases |rs|
  {
    if rs != [] { CountWider(rs[..|rs| - 1], ip, from, length, from', length'); }
  }

  // What an entry counts was accepted since its window began.
  lemma {:induction false} CountedWasAccepted(l: Limits, requests: seq<Request>, ip: Address, length: nat)
    requires Chronological(requests) && ip in RunOf(l, requests).state
    requires forall i :: 0 <= i < |requests| ==> requests[i].time < RunOf(l, requests).state[ip].start + length
    ensures var run := RunOf(l, requests);
            run.state[ip].count <= CountWithin(run.accepted, ip, run.state[ip].start, length)
    decreases |requests|
  {
    if requests != [] {
      var init, r := requests[..|requests| - 1], requests[|requests| - 1];
      var before, start := RunOf(l, init), RunOf(l, requests).state[ip].start;
      CountSnoc(before.accepted, r, ip, start, length);
      StartsBy(l, init, ip, r.time);
      if ip in before.state && before.state[ip].start == start { CountedWasAccepted(l, init, ip, length); }
    }
  }

  // The instants later than `t` less the window, up to `t`.
  function WindowStart(l: Limits, t: nat): nat {
    if l.window <= t then t + 1 - l.window else 0
  }

  // A request is refused only if the limit was used up in the window that ends with it: an
  // address that pauses, or is refused for long enough, gets through again.
  lemma RefusedOnlyIfUsedUp(l: Limits, requests: seq<Request>, r: Request)
    requires Chronological(requests + [r]) && RunOf(l, requests + [r]).accepted == RunOf(l, requests).accepted
    ensures var from := WindowStart(l, r.time);
            CountWithin(RunOf(l, requests).accepted, r.ip, from, r.time + 1 - from) >= l.maxRequests
  {
    var run, from := RunOf(l, requests), WindowStart(l, r.time);
    RunSnoc(l, requests, r);
    NotLater(requests, r);
    if r.ip in run.state {
      var start := run.state[r.ip].start;
      StartsBy(l, requests, r.ip, r.time);
      assert Chronological(requests) by { assert requests == (requests + [r])[..|requests|]; }
      CountedWasAccepted(l, requests, r.ip, r.time + 1 - start);
      CountWider(run.accepted, r.ip, start, r.time + 1 - start, from, r.time + 1 - from);
    }
  }

  lemma NotLater(requests: seq<Request>, r: Request)
    requires Chronological(requests + [r])
    ensures forall i :: 0 <= i < |requests| ==> requests[i].time <= r.time
  {
    var all := requests + [r];
    assert forall i :: 0 <= i < |requests| ==> all[i] == requests[i];
    assert all[|requests|] == r;
  }

  lemma {:induction false} StartsBy(l: Limits, requests: seq<Request>, ip: Address, t: nat)
    requires forall i :: 0 <= i < |requests| ==> requests[i].time <= t
    ensures ip in RunOf(l, requests).state ==> RunOf(l, requests).state[ip].start <= t
    decreases |requests|
  {
    if requests != [] { StartsBy(l, requests[..|requests| - 1], ip, t); }
  }

  // A refused request of an address that has an entry might as well not have come: whatever
  // follows, the entries and the accepted requests are the same without it.
  lemma {:induction false} RefusedLeavesNoTrace(l: Limits, before: seq<Request>, r: Request, after: seq<Request>)
    requires r.ip in RunOf(l, before).state && RunOf(l, before + [r]).accepted == RunOf(l, before).accepted
    ensures RunOf(l, before + [r] + after) == RunOf(l, before + after)
    decreases |after|
  {
    if after == [] {
      RunSnoc(l, before, r);
      assert before + [r] + after == before + [r] && before + after == before;
      var run := RunOf(l, before);
      assert run.state[r.ip := run.state[r.ip]] == run.state;
    } else {
      var init, last := after[..|after| - 1], after[|after| - 1];
      RefusedLeavesNoTrace(l, before, r, init);
      assert before + [r] + after == (before + [r] + init) + [last];
      assert before + after == (before + init) + [last];
      RunSnoc(l, before + [r] + init, last);
      RunSnoc(l, before + init, last);
    }
  }

  // With a positive limit the accepted requests alone make the same run.
  lemma {:induction false} AcceptedAloneIsTheRun(l: Limits, requests: seq<Request>)
    requires l.maxRequests > 0
    ensures RunOf(l, RunOf(l, requests).accepted) == RunOf(l, requests)
    decreases |requests|
  {
    if requests != [] {
      var init, r := requests[..|requests| - 1], requests[|requests| - 1];
      AcceptedAloneIsTheRun(l, init);
      assert requests == init + [r];
      AcceptedAloneStep(l, init, r);
    }
  }

  lemma AcceptedAloneStep(l: Limits, requests: seq<Request>, r: Request)
    requires l.maxRequests > 0 && RunOf(l, RunOf(l, requests).accepted) == RunOf(l, requests)
    ensures RunOf(l, RunOf(l, requests + [r]).accepted) == RunOf(l, requests + [r])
  {
    var run := RunOf(l, requests);
    RunSnoc(l, requests, r);
    RunSnoc(l, run.accepted, r);
    if r.ip in run.state { assert run.state[r.ip := run.state[r.ip]] == run.state; }
  }

  // ---------- The bound is attained ----------

  lemma ChronologicalSnoc(requests: seq<Request>, r: Request)
    requires Chronological(requests) && (requests != [] ==> requests[|requests| - 1].time <= r.time)
    ensures Chronological(requests + [r])
  {
  }

  // The entry and the accepted requests of one address after a run.
  datatype Tally = Tally(entry: Entry, accepted: nat)

  ghost function TallyOf(l: Limits, requests: seq<Request>, ip: Address, from: nat): Tally
    requires ip in RunOf(l, requests).state
  {
    Tally(RunOf(l, requests).state[ip], CountWithin(RunOf(l, requests).accepted, ip, from, l.window))
  }

  function TallyAfter(l: Limits, t: Tally, now: nat, from: nat): Tally {
    Tally(EntryAfter(l, t.entry, now),
          t.accepted + if Accepts(l, t.entry, now) && from <= now < from + l.window then 1 else 0)
  }

  lemma OneMore(l: Limits, requests: seq<Request>, ip: Address, now: nat, from: nat)
    requires ip in RunOf(l, requests).state
    ensures ip in RunOf(l, requests + [Request(ip, now)]).state
    ensures TallyOf(l, requests + [Request(ip, now)], ip, from) ==
            TallyAfter(l, TallyOf(l, requests, ip, from), now, from)
  {
    var r := Request(ip, now);
    RunSnoc(l, requests, r);
    CountSnoc(RunOf(l, requests).accepted, r, ip, from, l.window);
  }

  lemma TheFirst(l: Limits, ip: Address)
    requires l.window > 0
    ensures ip in RunOf(l, [Request(ip, 0)]).state
    ensures TallyOf(l, [Request(ip, 0)], ip, 1) == Tally(Entry(if l.maxRequests > 0 then 1 else 0, 0), 0)
  {
    var r := Request(ip, 0);
    RunSnoc(l, [], r);
    assert [] + [r] == [r];
    var accepted := RunOf(l, [r]).accepted;
    if accepted != [] { CountSnoc([], r, ip, 1, l.window); }
  }

  // `n` more requests at one instant in a window with room for them.
  lemma {:induction false} Burst(l: Limits, requests: seq<Request>, ip: Address, now: nat, n: nat, from: nat)
    returns (longer: seq<Request>)
    requires Chronological(requests) && requests != [] && requests[|requests| - 1].time <= now
    requires ip in RunOf(l, requests).state
    requires n > 0 ==> now < TallyOf(l, requests, ip, from).entry.start + l.window
    requires n > 0 ==> TallyOf(l, requests, ip, from).entry.count + n <= l.maxRequests
    ensures Chronological(longer) && longer != [] && longer[|longer| - 1].time <= now
    ensures ip in RunOf(l, longer).state
    ensures var t := TallyOf(l, requests, ip, from);
            TallyOf(l, longer, ip, from) ==
            Tally(Entry(t.entry.count + n, t.entry.start), t.accepted + if from <= now < from + l.window then n else 0)
    decreases n
  {
    longer := requests;
    if n > 0 {
      var r := Request(ip, now);
      ChronologicalSnoc(requests, r);
      OneMore(l, requests, ip, now, from);
      longer := Burst(l, requests + [r], ip, now, n - 1, from);
    }
  }

  // One request opens a window; the rest of it is used up at its last instant, and the next
  // window is used up at its first.
  lemma BoundAttained(l: Limits, ip: Address) returns (requests: seq<Request>)
    requires l.window >= 2
    ensures Chronological(requests)
    ensures CountWithin(RunOf(l, requests).accepted, ip, 1, l.window) == 2 * PerWindow(l) - 1
  {
    var w, n := l.window, PerWindow(l) - 1;
    TheFirst(l, ip);
    var first := Burst(l, [Request(ip, 0)], ip, w - 1, n, 1);
    OneMore(l, first, ip, w, 1);
    ChronologicalSnoc(first, Request(ip, w));
    requests := Burst(l, first + [Request(ip, w)], ip, w, n, 1);
    assert TallyOf(l, requests, ip, 1).accepted == 2 * n + 1;
  }
}
