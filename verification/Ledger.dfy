/** Sums of allocations over sets of groups, worker by worker. Group ids are numbers below a bound. */
module Ledger {
  import opened JobGroups

  // What a group holds on worker `w`.
  function Share(g: Group, w: WorkerId): Resources {
    if g.worker == w then g.alloc else Nothing()
  }

  function ShareOf(groups: map<GroupId, Group>, ids: set<GroupId>, w: WorkerId, id: GroupId): Resources {
    if id in ids && id in groups then Share(groups[id], w) else Nothing()
  }

  // The sum over the groups of `ids` whose id is below `n`.
  ghost function SumOn(groups: map<GroupId, Group>, ids: set<GroupId>, w: WorkerId, n: nat): Resources
    decreases n
  {
    if n == 0 then Nothing()
    else Plus(SumOn(groups, ids, w, n - 1), ShareOf(groups, ids, w, GroupId(n - 1)))
  }

  lemma {:induction false} SumNone(groups: map<GroupId, Group>, w: WorkerId, n: nat)
    ensures SumOn(groups, {}, w, n) == Nothing()
    decreases n
  {
    if n > 0 { SumNone(groups, w, n - 1); }
  }

  lemma {:induction false} SumOne(groups: map<GroupId, Group>, w: WorkerId, x: GroupId, n: nat)
    requires x in groups
    ensures x.id < n ==> SumOn(groups, {x}, w, n) == Share(groups[x], w)
    ensures x.id >= n ==> SumOn(groups, {x}, w, n) == Nothing()
    decreases n
  {
    if n > 0 { SumOne(groups, w, x, n - 1); }
  }

  lemma {:induction false} SumSplit(groups: map<GroupId, Group>, a: set<GroupId>, b: set<GroupId>, w: WorkerId, n: nat)
    requires a !! b
    ensures SumOn(groups, a + b, w, n) == Plus(SumOn(groups, a, w, n), SumOn(groups, b, w, n))
    decreases n
  {
    if n > 0 { SumSplit(groups, a, b, w, n - 1); }
  }

  lemma SumAdd(groups: map<GroupId, Group>, ids: set<GroupId>, w: WorkerId, x: GroupId, n: nat)
    requires x in groups && x !in ids && x.id < n
    ensures SumOn(groups, ids + {x}, w, n) == Plus(SumOn(groups, ids, w, n), Share(groups[x], w))
  {
    SumSplit(groups, ids, {x}, w, n);
    SumOne(groups, w, x, n);
  }

  // Only worker and allocation matter.
  ghost predicate SameShares(groups: map<GroupId, Group>, groups': map<GroupId, Group>, ids: set<GroupId>) {
    forall g :: g in ids ==>
      && g in groups && g in groups'
      && groups[g].worker == groups'[g].worker && groups[g].alloc == groups'[g].alloc
  }

  lemma {:induction false} SumFrame(groups: map<GroupId, Group>, groups': map<GroupId, Group>, ids: set<GroupId>,
                                    w: WorkerId, n: nat)
    requires SameShares(groups, groups', ids)
    ensures SumOn(groups, ids, w, n) == SumOn(groups', ids, w, n)
    decreases n
  {
    if n > 0 { SumFrame(groups, groups', ids, w, n - 1); }
  }

  // A part holds no more than the whole, and the rest is the difference.
  lemma SumPart(groups: map<GroupId, Group>, part: set<GroupId>, whole: set<GroupId>, w: WorkerId, n: nat)
    requires part <= whole
    ensures SumOn(groups, whole, w, n) == Plus(SumOn(groups, part, w, n), SumOn(groups, whole - part, w, n))
  {
    SumSplit(groups, part, whole - part, w, n);
    assert part + (whole - part) == whole;
  }
}
