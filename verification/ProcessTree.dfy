/**
  Collecting the descendants of a process, generation by generation, from a fixed snapshot of
  the process table: for every process whose status can be read, its parent. The table may
  contain cycles. Directory order is arbitrary.
 */
module ProcessTree {
  import opened Common

  datatype Pid = Pid(number: int)
  type Parents = map<Pid, Pid>

  // `k` steps from child to parent lead from `p` to `root`.
  ghost predicate Climbs(parents: Parents, root: Pid, p: Pid, k: nat)
    decreases k
  {
    if k == 0 then p == root else p in parents && Climbs(parents, root, parents[p], k - 1)
  }

  ghost predicate Descendant(parents: Parents, root: Pid, p: Pid) {
    p != root && exists k: nat :: Climbs(parents, root, p, k)
  }

  // The same, meeting `root` only at the end.
  ghost predicate AtDepth(parents: Parents, root: Pid, p: Pid, k: nat)
    decreases k
  {
    if k == 0 then p == root else p != root && p in parents && AtDepth(parents, root, parents[p], k - 1)
  }

  lemma {:induction false} DepthUnique(parents: Parents, root: Pid, p: Pid, j: nat, k: nat)
    requires AtDepth(parents, root, p, j) && AtDepth(parents, root, p, k)
    ensures j == k
    decreases j
  {
    if j > 0 && k > 0 { DepthUnique(parents, root, parents[p], j - 1, k - 1); }
  }

  lemma {:induction false} DepthClimbs(parents: Parents, root: Pid, p: Pid, k: nat)
    requires AtDepth(parents, root, p, k)
    ensures Climbs(parents, root, p, k)
    decreases k
  {
    if k > 0 { DepthClimbs(parents, root, parents[p], k - 1); }
  }

  lemma {:induction false} ClimbsHasDepth(parents: Parents, root: Pid, p: Pid, k: nat) returns (d: nat)
    requires Climbs(parents, root, p, k)
    ensures d <= k && AtDepth(parents, root, p, d)
    decreases k
  {
    if p == root {
      d := 0;
    } else {
      d := ClimbsHasDepth(parents, root, parents[p], k - 1);
      d := d + 1;
    }
  }

  // Below every generation there is none without it.
  lemma {:induction false} DepthAbove(parents: Parents, root: Pid, p: Pid, k: nat, g: nat) returns (q: Pid)
    requires AtDepth(parents, root, p, k) && g <= k
    ensures AtDepth(parents, root, q, g)
    decreases k
  {
    if g == k { q := p; } else { q := DepthAbove(parents, root, parents[p], k - 1, g); }
  }

  ghost predicate Deep(parents: Parents, root: Pid, p: Pid) {
    exists k: nat :: k > 0 && AtDepth(parents, root, p, k)
  }

  lemma DescendantIffDeep(parents: Parents, root: Pid, p: Pid)
    ensures Descendant(parents, root, p) <==> Deep(parents, root, p)
    ensures forall j: nat, k: nat :: AtDepth(parents, root, p, j) && AtDepth(parents, root, p, k) ==> j == k
  {
    forall j: nat, k: nat | AtDepth(parents, root, p, j) && AtDepth(parents, root, p, k) ensures j == k {
      DepthUnique(parents, root, p, j, k);
    }
    if Descendant(parents, root, p) {
      var k: nat :| Climbs(parents, root, p, k);
      var d := ClimbsHasDepth(parents, root, p, k);
      assert d > 0 && AtDepth(parents, root, p, d);
    }
    if Deep(parents, root, p) {
      var k: nat :| k > 0 && AtDepth(parents, root, p, k);
      DepthClimbs(parents, root, p, k);
      assert p != root && Climbs(parents, root, p, k);
    }
  }

  // The processes at depth `g`.
  ghost predicate IsGeneration(parents: Parents, root: Pid, g: nat, s: seq<Pid>) {
    NoDuplicates(s) && forall p :: p in s <==> AtDepth(parents, root, p, g)
  }

  // The processes at depths 1 to `g`.
  ghost predicate UpToGeneration(parents: Parents, root: Pid, g: nat, s: seq<Pid>) {
    && NoDuplicates(s)
    && forall p :: p in s <==> exists k: nat :: 0 < k <= g && AtDepth(parents, root, p, k)
  }

  // One scan of the process table.
  method NextGeneration(parents: Parents, root: Pid, frontier: seq<Pid>, ghost g: nat) returns (next: seq<Pid>)
    requires IsGeneration(parents, root, g, frontier)
    ensures IsGeneration(parents, root, g + 1, next)
  {
    next := [];
    var entries := parents.Keys;
    while entries != {}
      invariant entries <= parents.Keys && NoDuplicates(next)
      invariant forall p :: p in next <==> p in parents && p !in entries && AtDepth(parents, root, p, g + 1)
      decreases entries
    {
      var child :| child in entries;
      entries := entries - {child};
      if child != root && parents[child] in frontier {
        next := next + [child];
      }
    }
  }

  lemma Extended(parents: Parents, root: Pid, g: nat, result: seq<Pid>, next: seq<Pid>)
    requires UpToGeneration(parents, root, g, result) && IsGeneration(parents, root, g + 1, next)
    ensures UpToGeneration(parents, root, g + 1, result + next)
  {
    forall i, j | 0 <= i < |result| && 0 <= j < |next|
      ensures result[i] != next[j]
    {
      assert result[i] in result && next[j] in next;
      var k: nat :| 0 < k <= g && AtDepth(parents, root, result[i], k);
      if result[i] == next[j] { DepthUnique(parents, root, next[j], k, g + 1); }
    }
    assert forall p :: p in result + next <==> p in result || p in next;
  }

  lemma ResultBounded(parents: Parents, root: Pid, g: nat, result: seq<Pid>)
    requires UpToGeneration(parents, root, g, result)
    ensures |result| <= |parents|
  {
    NoDuplicatesBounded(result, parents.Keys);
  }

  lemma NothingDeeper(parents: Parents, root: Pid, g: nat, p: Pid, k: nat)
    requires IsGeneration(parents, root, g, []) && AtDepth(parents, root, p, k)
    ensures k < g
  {
    if k >= g { var q := DepthAbove(parents, root, p, k, g); }
  }

  lemma Complete(parents: Parents, root: Pid, g: nat, result: seq<Pid>)
    requires UpToGeneration(parents, root, g, result) && IsGeneration(parents, root, g, [])
    ensures forall p :: p in result <==> Descendant(parents, root, p)
  {
    forall p
      ensures p in result <==> Descendant(parents, root, p)
    {
      DescendantIffDeep(parents, root, p);
      if Deep(parents, root, p) {
        var k: nat :| k > 0 && AtDepth(parents, root, p, k);
        NothingDeeper(parents, root, g, p, k);
      }
    }
  }

  // Exactly the descendants of `root`, each once; it ends on cyclic tables too.
  method CollectDescendants(parents: Parents, root: Pid) returns (result: seq<Pid>)
    ensures NoDuplicates(result)
    ensures forall p :: p in result <==> Descendant(parents, root, p)
  {
    result := [];
    var frontier := [root];
    ghost var g: nat := 0;
    while frontier != []
      invariant IsGeneration(parents, root, g, frontier)
      invariant UpToGeneration(parents, root, g, result)
      decreases |parents| - |result|, |frontier|
    {
      ResultBounded(parents, root, g, result);
      var next := NextGeneration(parents, root, frontier, g);
      Extended(parents, root, g, result, next);
      ResultBounded(parents, root, g + 1, result + next);
      result := result + next;
      frontier := next;
      g := g + 1;
    }
    Complete(parents, root, g, result);
  }
}
