/**
  Stage dependency graphs: the topological sort that validates them, and what its
  two outcomes mean for cycles.

  A dependency map sends a stage to the list of stages it depends on. The list may
  repeat a stage, and it may name stages that are not keys of the map.
 */
module Dag {
  import opened Common

  datatype Stage = Stage(name: string)
  type Deps = map<Stage, seq<Stage>>

  datatype SortResult = Sorted(order: seq<Stage>) | CycleAt(stage: Stage)

  function ParentsOf(deps: Deps, n: Stage): seq<Stage> {
    if n in deps then deps[n] else []
  }

  // The stages named by the entries of `keys`: those keys and everything they depend on.
  ghost function Named(deps: Deps, keys: set<Stage>): set<Stage>
    requires keys <= deps.Keys
  {
    keys + set n, p | n in keys && p in deps[n] :: p
  }

  ghost function Nodes(deps: Deps): set<Stage> {
    Named(deps, deps.Keys)
  }

  // ---------- Cycles ----------

  // Each element depends directly on the next one.
  ghost predicate IsChain(deps: Deps, path: seq<Stage>) {
    && |path| > 0
    && (|path| == 1 || (path[1] in ParentsOf(deps, path[0]) && IsChain(deps, path[1..])))
  }

  ghost predicate IsCycle(deps: Deps, path: seq<Stage>) {
    IsChain(deps, path) && |path| >= 2 && path[0] == path[|path| - 1]
  }

  ghost predicate OnCycle(deps: Deps, n: Stage) {
    exists path :: IsCycle(deps, path) && path[0] == n
  }

  ghost predicate Acyclic(deps: Deps) {
    forall path :: !IsCycle(deps, path)
  }

  // Following dependencies from `n` leads onto a cycle.
  ghost predicate ReachesCycle(deps: Deps, n: Stage) {
    exists path :: IsChain(deps, path) && path[0] == n && OnCycle(deps, path[|path| - 1])
  }

  // ---------- Linear extensions ----------

  // Every stage strictly after all the stages it depends on.
  ghost predicate DependenciesFirst(deps: Deps, order: seq<Stage>) {
    forall i, p :: 0 <= i < |order| && p in ParentsOf(deps, order[i]) ==> p in order[..i]
  }

  ghost predicate IsLinearExtension(deps: Deps, order: seq<Stage>) {
    && NoDuplicates(order)
    && (forall n :: n in order <==> n in Nodes(deps))
    && DependenciesFirst(deps, order)
  }

  // Along a chain whose first element is at position `i` of such an order, every later
  // element sits at a smaller position.
  lemma {:induction false} ChainGoesBack(deps: Deps, order: seq<Stage>, path: seq<Stage>, i: nat)
    requires DependenciesFirst(deps, order)
    requires IsChain(deps, path) && |path| >= 2
    requires i < |order| && order[i] == path[0]
    ensures path[|path| - 1] in order[..i]
    decreases |path|
  {
    var j :| 0 <= j < i && order[j] == path[1];
    if |path| > 2 {
      ChainGoesBack(deps, order, path[1..], j);
      assert order[..j] <= order[..i];
    }
  }

  lemma CycleInNodes(deps: Deps, path: seq<Stage>)
    requires IsCycle(deps, path)
    ensures path[0] in Nodes(deps)
  {
    assert path[1] in ParentsOf(deps, path[0]);
  }

  // A map with a linear extension has no cycle.
  lemma LinearExtensionAcyclic(deps: Deps, order: seq<Stage>)
    requires IsLinearExtension(deps, order)
    ensures Acyclic(deps)
  {
    forall path | IsCycle(deps, path)
      ensures false
    {
      CycleInNodes(deps, path);
      var i :| 0 <= i < |order| && order[i] == path[0];
      ChainGoesBack(deps, order, path, i);
    }
  }

  lemma {:induction false} ChainSuffix(deps: Deps, path: seq<Stage>, i: nat)
    requires IsChain(deps, path) && i < |path|
    ensures IsChain(deps, path[i..])
  {
    if i > 0 {
      ChainSuffix(deps, path[1..], i - 1);
      assert path[1..][i - 1..] == path[i..];
    }
  }

  lemma {:induction false} ChainExtend(deps: Deps, path: seq<Stage>, p: Stage)
    requires IsChain(deps, path) && p in ParentsOf(deps, path[|path| - 1])
    ensures IsChain(deps, path + [p])
  {
    if |path| > 1 {
      ChainExtend(deps, path[1..], p);
      assert (path + [p])[1..] == path[1..] + [p];
    } else {
      assert (path + [p])[1..] == [p];
    }
  }

  ghost predicate DependsInto(deps: Deps, n: Stage, target: set<Stage>) {
    exists p :: p in ParentsOf(deps, n) && p in target
  }

  // A chain whose last stage depends on an earlier one reaches a cycle.
  lemma ChainCloses(deps: Deps, path: seq<Stage>, p: Stage)
    requires IsChain(deps, path + [p]) && |path| > 0 && p in path
    ensures ReachesCycle(deps, path[0])
  {
    var longer := path + [p];
    var i :| 0 <= i < |path| && path[i] == p;
    ChainSuffix(deps, longer, i);
    assert IsCycle(deps, longer[i..]) && longer[i..][0] == p;
    assert longer[|longer| - 1] == p && longer[0] == path[0];
  }

  // If every stage of a finite set depends on some stage of the set, then every chain
  // inside the set can be prolonged until it closes on itself.
  lemma {:induction false} StuckReachesCycle(deps: Deps, stuck: set<Stage>, path: seq<Stage>)
    requires forall n {:trigger DependsInto(deps, n, stuck)} :: n in stuck ==> DependsInto(deps, n, stuck)
    requires IsChain(deps, path) && NoDuplicates(path)
    requires Elements(path) <= stuck
    ensures ReachesCycle(deps, path[0])
    decreases |stuck| - |path|
  {
    NoDuplicatesBounded(path, stuck);
    var last := path[|path| - 1];
    assert last in Elements(path);
    assert DependsInto(deps, last, stuck);
    var p :| p in ParentsOf(deps, last) && p in stuck;
    var longer := path + [p];
    ChainExtend(deps, path, p);
    if p in path {
      ChainCloses(deps, path, p);
    } else {
      NoDuplicatesSnoc(path, p);
      StuckReachesCycle(deps, stuck, longer);
    }
  }

  lemma ReachesCycleNotAcyclic(deps: Deps, n: Stage)
    requires ReachesCycle(deps, n)
    ensures !Acyclic(deps)
  {
  }

  // ---------- Counting the dependencies that are still open ----------

  ghost function Pending(ps: seq<Stage>, done: set<Stage>): nat {
    if ps == [] then 0 else (if ps[0] in done then 0 else 1) + Pending(ps[1..], done)
  }

  lemma {:induction false} PendingNothingDone(ps: seq<Stage>)
    ensures Pending(ps, {}) == |ps|
  {
    if ps != [] { PendingNothingDone(ps[1..]); }
  }

  lemma {:induction false} PendingZero(ps: seq<Stage>, done: set<Stage>)
    ensures Pending(ps, done) == 0 <==> forall p :: p in ps ==> p in done
  {
    if ps != [] {
      PendingZero(ps[1..], done);
      assert forall p :: p in ps <==> p == ps[0] || p in ps[1..];
    }
  }

  // Finishing one more stage closes exactly its occurrences in the list.
  lemma {:induction false} PendingStep(ps: seq<Stage>, done: set<Stage>, n: Stage)
    requires n !in done
    ensures Pending(ps, done) == Pending(ps, done + {n}) + multiset(ps)[n]
  {
    if ps != [] {
      PendingStep(ps[1..], done, n);
      assert ps == [ps[0]] + ps[1..];
    }
  }

  // ---------- The graph the sort works on ----------

  function Kids(children: map<Stage, seq<Stage>>, p: Stage): seq<Stage> {
    if p in children then children[p] else []
  }

  // The in-degrees and child lists as they stand once the entries of `done` are in,
  // together with the first `i` dependencies of `node`.
  ghost predicate Building(deps: Deps, done: set<Stage>, node: Stage, i: nat,
                           inDegree: map<Stage, nat>, children: map<Stage, seq<Stage>>)
    requires done <= deps.Keys && node in deps && node !in done && i <= |deps[node]|
  {
    && inDegree.Keys == Named(deps, done) + {node} + Elements(deps[node][..i])
    && (forall n :: n in inDegree ==>
          inDegree[n] == if n in done then |deps[n]| else if n == node then i else 0)
    && (forall p, k {:trigger multiset(Kids(children, p))[k]} ::
          multiset(Kids(children, p))[k] ==
            if k in done then multiset(deps[k])[p] else if k == node then multiset(deps[node][..i])[p] else 0)
  }

  ghost predicate Built(deps: Deps, done: set<Stage>,
                        inDegree: map<Stage, nat>, children: map<Stage, seq<Stage>>)
    requires done <= deps.Keys
  {
    && inDegree.Keys == Named(deps, done)
    && (forall n :: n in inDegree ==> inDegree[n] == if n in done then |deps[n]| else 0)
    && (forall p, k {:trigger multiset(Kids(children, p))[k]} ::
          multiset(Kids(children, p))[k] == if k in done then multiset(deps[k])[p] else 0)
  }

  function OrInsertZero(inDegree: map<Stage, nat>, n: Stage): map<Stage, nat> {
    if n in inDegree then inDegree else inDegree[n := 0]
  }

  method AddEdge(deps: Deps, ghost done: set<Stage>, node: Stage, i: nat,
                 inDegree: map<Stage, nat>, children: map<Stage, seq<Stage>>)
    returns (inDegree': map<Stage, nat>, children': map<Stage, seq<Stage>>)
    requires done <= deps.Keys && node in deps && node !in done && i < |deps[node]|
    requires Building(deps, done, node, i, inDegree, children)
    ensures Building(deps, done, node, i + 1, inDegree', children')
  {
    var parent := deps[node][i];
    inDegree' := OrInsertZero(inDegree, parent);
    children' := children[parent := Kids(children, parent) + [node]];
    inDegree' := OrInsertZero(inDegree', node);
    inDegree' := inDegree'[node := inDegree'[node] + 1];
    EdgeCounted(deps, done, node, i, inDegree, inDegree', children);
    EdgeListed(deps, done, node, i, inDegree, children, children');
  }

  lemma EdgeCounted(deps: Deps, done: set<Stage>, node: Stage, i: nat,
                    inDegree: map<Stage, nat>, inDegree': map<Stage, nat>, children: map<Stage, seq<Stage>>)
    requires done <= deps.Keys && node in deps && node !in done && i < |deps[node]|
    requires Building(deps, done, node, i, inDegree, children)
    requires inDegree' == OrInsertZero(inDegree, deps[node][i])[node := inDegree[node] + 1]
    ensures inDegree'.Keys == Named(deps, done) + {node} + Elements(deps[node][..i + 1])
    ensures forall n :: n in inDegree' ==>
              inDegree'[n] == if n in done then |deps[n]| else if n == node then i + 1 else 0
  {
    assert deps[node][..i + 1] == deps[node][..i] + [deps[node][i]];
  }

  lemma EdgeListed(deps: Deps, done: set<Stage>, node: Stage, i: nat,
                   inDegree: map<Stage, nat>, children: map<Stage, seq<Stage>>, children': map<Stage, seq<Stage>>)
    requires done <= deps.Keys && node in deps && node !in done && i < |deps[node]|
    requires Building(deps, done, node, i, inDegree, children)
    requires children' == children[deps[node][i] := Kids(children, deps[node][i]) + [node]]
    ensures forall p, k {:trigger multiset(Kids(children', p))[k]} ::
              multiset(Kids(children', p))[k] ==
                if k in done then multiset(deps[k])[p] else if k == node then multiset(deps[node][..i + 1])[p] else 0
  {
    var parent := deps[node][i];
    forall p, k
      ensures multiset(Kids(children', p))[k] ==
                if k in done then multiset(deps[k])[p] else if k == node then multiset(deps[node][..i + 1])[p] else 0
    {
      OneMoreEdge(deps[node], i, p);
      assert Kids(children', p) == if p == parent then Kids(children, p) + [node] else Kids(children, p);
    }
  }

  lemma OneMoreEdge(ps: seq<Stage>, i: nat, p: Stage)
    requires i < |ps|
    ensures multiset(ps[..i + 1])[p] == multiset(ps[..i])[p] + if ps[i] == p then 1 else 0
  {
    assert ps[..i + 1] == ps[..i] + [ps[i]];
  }

  lemma StartBuilding(deps: Deps, done: set<Stage>, node: Stage,
                      inDegree: map<Stage, nat>, children: map<Stage, seq<Stage>>)
    requires done <= deps.Keys && node in deps && node !in done
    requires Built(deps, done, inDegree, children)
    ensures Building(deps, done, node, 0, OrInsertZero(inDegree, node), children)
  {
    assert deps[node][..0] == [];
  }

  lemma FinishBuilding(deps: Deps, done: set<Stage>, node: Stage,
                       inDegree: map<Stage, nat>, children: map<Stage, seq<Stage>>)
    requires done <= deps.Keys && node in deps && node !in done
    requires Building(deps, done, node, |deps[node]|, inDegree, children)
    ensures Built(deps, done + {node}, inDegree, children)
  {
    assert deps[node][..|deps[node]|] == deps[node];
  }

  method AddStage(deps: Deps, ghost done: set<Stage>, node: Stage,
                  inDegree: map<Stage, nat>, children: map<Stage, seq<Stage>>)
    returns (inDegree': map<Stage, nat>, children': map<Stage, seq<Stage>>)
    requires done <= deps.Keys && node in deps && node !in done
    requires Built(deps, done, inDegree, children)
    ensures Built(deps, done + {node}, inDegree', children')
  {
    StartBuilding(deps, done, node, inDegree, children);
    inDegree', children' := OrInsertZero(inDegree, node), children;
    for i := 0 to |deps[node]|
      invariant Building(deps, done, node, i, inDegree', children')
    {
      inDegree', children' := AddEdge(deps, done, node, i, inDegree', children');
    }
    FinishBuilding(deps, done, node, inDegree', children');
  }

  lemma BuiltEmpty(deps: Deps)
    ensures Built(deps, {}, map[], map[])
  {
  }

  method BuildGraph(deps: Deps) returns (inDegree: map<Stage, nat>, children: map<Stage, seq<Stage>>)
    ensures Built(deps, deps.Keys, inDegree, children)
  {
    inDegree, children := map[], map[];
    BuiltEmpty(deps);
    var todo := deps.Keys;
    ghost var done := {};
    while todo != {}
      invariant done + todo == deps.Keys && done !! todo
      invariant Built(deps, done, inDegree, children)
      decreases todo
    {
      var node :| node in todo;   // map iteration order is arbitrary
      inDegree, children := AddStage(deps, done, node, inDegree, children);
      todo, done := todo - {node}, done + {node};
    }
    assert done == deps.Keys;
  }

  // ---------- The sort ----------

  // Where the sort stands between two nodes: `sorted` is finished, `queue` is ready.
  ghost predicate Sorting(deps: Deps, sorted: seq<Stage>, queue: seq<Stage>, inDegree: map<Stage, nat>) {
    && inDegree.Keys == Nodes(deps)
    && NoDuplicates(sorted + queue)
    && (forall n :: n in sorted + queue <==> n in inDegree && inDegree[n] == 0)
    && DependenciesFirst(deps, sorted)
    && (forall n :: n in inDegree ==> inDegree[n] == Pending(ParentsOf(deps, n), Elements(sorted)))
  }

  // The same while `node`, just popped, is telling its children: `told` is the multiset
  // of children already told.
  ghost predicate Telling(deps: Deps, sorted: seq<Stage>, node: Stage, told: multiset<Stage>,
                          queue: seq<Stage>, inDegree: map<Stage, nat>)
  {
    && inDegree.Keys == Nodes(deps)
    && NoDuplicates(sorted + [node] + queue)
    && (forall n :: n in sorted + [node] + queue <==> n in inDegree && inDegree[n] == 0)
    && (forall n :: n in inDegree ==>
          inDegree[n] + told[n] == Pending(ParentsOf(deps, n), Elements(sorted)))
  }

  // The nodes without dependencies, in whatever order the map yields them.
  method InitialQueue(deps: Deps, inDegree: map<Stage, nat>) returns (queue: seq<Stage>)
    ensures NoDuplicates(queue)
    ensures forall n :: n in queue <==> n in inDegree && inDegree[n] == 0
  {
    queue := [];
    var todo := inDegree.Keys;
    while todo != {}
      invariant todo <= inDegree.Keys
      invariant NoDuplicates(queue)
      invariant forall n :: n in queue <==> n in inDegree && n !in todo && inDegree[n] == 0
      decreases |todo|
    {
      var n :| n in todo;
      todo := todo - {n};
      if inDegree[n] == 0 { queue := queue + [n]; }
    }
  }

  // One child hears that one of its dependencies is finished.
  method TellKid(deps: Deps, ghost sorted: seq<Stage>, ghost node: Stage, kid: Stage, ghost told: multiset<Stage>,
                 queue: seq<Stage>, inDegree: map<Stage, nat>)
    returns (queue': seq<Stage>, inDegree': map<Stage, nat>)
    requires Telling(deps, sorted, node, told, queue, inDegree)
    requires node !in sorted
    requires told[kid] < multiset(ParentsOf(deps, kid))[node]
    ensures Telling(deps, sorted, node, told + multiset{kid}, queue', inDegree')
  {
    assert kid in Nodes(deps);
    PendingStep(ParentsOf(deps, kid), Elements(sorted), node);
    inDegree' := inDegree[kid := inDegree[kid] - 1];
    queue' := if inDegree'[kid] == 0 then queue + [kid] else queue;
    assert kid !in sorted + [node] + queue;
    assert sorted + [node] + (queue + [kid]) == (sorted + [node] + queue) + [kid];
  }

  lemma WholeSlice(kids: seq<Stage>)
    ensures kids[..0] == [] && kids[..|kids|] == kids
  {
  }

  lemma NextKid(kids: seq<Stage>, j: nat)
    requires j < |kids|
    ensures multiset(kids[..j + 1]) == multiset(kids[..j]) + multiset{kids[j]}
    ensures multiset(kids[..j])[kids[j]] < multiset(kids)[kids[j]]
  {
    assert kids == kids[..j] + [kids[j]] + kids[j + 1..];
    assert kids[..j + 1] == kids[..j] + [kids[j]];
  }

  lemma StartTelling(deps: Deps, sorted: seq<Stage>, node: Stage, queue: seq<Stage>, inDegree: map<Stage, nat>)
    requires Sorting(deps, sorted, [node] + queue, inDegree)
    ensures Telling(deps, sorted, node, multiset{}, queue, inDegree)
    ensures node !in sorted
    ensures forall p :: p in ParentsOf(deps, node) ==> p in sorted
  {
    var all := sorted + [node] + queue;
    assert sorted + ([node] + queue) == all;
    assert all[|sorted|] == node;
    assert forall i :: 0 <= i < |sorted| ==> all[i] == sorted[i];
    assert node in all;
    PendingZero(ParentsOf(deps, node), Elements(sorted));
  }

  method TellKids(deps: Deps, ghost sorted: seq<Stage>, node: Stage, kids: seq<Stage>,
                  queue: seq<Stage>, inDegree: map<Stage, nat>)
    returns (queue': seq<Stage>, inDegree': map<Stage, nat>)
    requires Sorting(deps, sorted, [node] + queue, inDegree)
    requires forall k :: multiset(kids)[k] == multiset(ParentsOf(deps, k))[node]
    ensures Sorting(deps, sorted + [node], queue', inDegree')
  {
    queue', inDegree' := queue, inDegree;
    StartTelling(deps, sorted, node, queue, inDegree);
    WholeSlice(kids);
    for j := 0 to |kids|
      invariant Telling(deps, sorted, node, multiset(kids[..j]), queue', inDegree')
    {
      NextKid(kids, j);
      queue', inDegree' := TellKid(deps, sorted, node, kids[j], multiset(kids[..j]), queue', inDegree');
    }
    ToldAll(deps, sorted, node, kids, queue', inDegree');
  }

  lemma ToldAll(deps: Deps, sorted: seq<Stage>, node: Stage, kids: seq<Stage>,
                queue: seq<Stage>, inDegree: map<Stage, nat>)
    requires Telling(deps, sorted, node, multiset(kids), queue, inDegree)
    requires forall k :: multiset(kids)[k] == multiset(ParentsOf(deps, k))[node]
    requires node !in sorted && DependenciesFirst(deps, sorted)
    requires forall p :: p in ParentsOf(deps, node) ==> p in sorted
    ensures Sorting(deps, sorted + [node], queue, inDegree)
  {
    DependenciesFirstSnoc(deps, sorted, node);
    forall n | n in inDegree
      ensures inDegree[n] == Pending(ParentsOf(deps, n), Elements(sorted + [node]))
    {
      PendingTold(ParentsOf(deps, n), sorted, node);
    }
  }

  lemma PendingTold(ps: seq<Stage>, sorted: seq<Stage>, node: Stage)
    requires node !in sorted
    ensures Pending(ps, Elements(sorted)) == Pending(ps, Elements(sorted + [node])) + multiset(ps)[node]
  {
    assert Elements(sorted + [node]) == Elements(sorted) + {node};
    PendingStep(ps, Elements(sorted), node);
  }

  lemma DependenciesFirstSnoc(deps: Deps, order: seq<Stage>, n: Stage)
    requires DependenciesFirst(deps, order)
    requires forall p :: p in ParentsOf(deps, n) ==> p in order
    ensures DependenciesFirst(deps, order + [n])
  {
    var longer := order + [n];
    forall i, p | 0 <= i < |longer| && p in ParentsOf(deps, longer[i])
      ensures p in longer[..i]
    {
      assert longer[..i] == order[..i];
      assert order[..|order|] == order;
    }
  }

  // When the queue has run dry, a stage left over depends on another one left over.
  lemma LeftoverDependsOnLeftover(deps: Deps, sorted: seq<Stage>, inDegree: map<Stage, nat>, n: Stage)
    requires Sorting(deps, sorted, [], inDegree)
    requires n in inDegree && inDegree[n] > 0
    ensures DependsInto(deps, n, set m | m in inDegree && inDegree[m] > 0)
  {
    assert sorted + [] == sorted;
    PendingZero(ParentsOf(deps, n), Elements(sorted));
    var p :| p in ParentsOf(deps, n) && p !in sorted;
    assert p in Nodes(deps);
  }

  lemma LeftoverReachesCycle(deps: Deps, sorted: seq<Stage>, inDegree: map<Stage, nat>, n: Stage)
    requires Sorting(deps, sorted, [], inDegree)
    requires n in inDegree && inDegree[n] > 0
    ensures ReachesCycle(deps, n)
  {
    var stuck := set m | m in inDegree && inDegree[m] > 0;
    forall m | m in stuck
      ensures DependsInto(deps, m, stuck)
    {
      LeftoverDependsOnLeftover(deps, sorted, inDegree, m);
    }
    StuckReachesCycle(deps, stuck, [n]);
  }

  lemma StartSorting(deps: Deps, queue: seq<Stage>, inDegree: map<Stage, nat>, children: map<Stage, seq<Stage>>)
    requires Built(deps, deps.Keys, inDegree, children)
    requires NoDuplicates(queue)
    requires forall n :: n in queue <==> n in inDegree && inDegree[n] == 0
    ensures Sorting(deps, [], queue, inDegree)
  {
    assert [] + queue == queue;
    assert Elements<Stage>([]) == {};
    forall n | n in inDegree
      ensures inDegree[n] == Pending(ParentsOf(deps, n), {})
    {
      PendingNothingDone(ParentsOf(deps, n));
    }
  }

  // Empties the queue.
  method DrainQueue(deps: Deps, children: map<Stage, seq<Stage>>, ready: seq<Stage>, degrees: map<Stage, nat>)
    returns (sorted: seq<Stage>, inDegree: map<Stage, nat>)
    requires Sorting(deps, [], ready, degrees)
    requires forall p, k {:trigger multiset(Kids(children, p))[k]} ::
               multiset(Kids(children, p))[k] == multiset(ParentsOf(deps, k))[p]
    ensures Sorting(deps, sorted, [], inDegree)
  {
    var queue := ready;
    sorted, inDegree := [], degrees;
    while queue != []
      invariant Sorting(deps, sorted, queue, inDegree)
      decreases |Nodes(deps)| - |sorted|
    {
      var node := queue[0];
      assert queue == [node] + queue[1..];
      SortedBounded(deps, sorted, queue, inDegree);
      queue, inDegree := TellKids(deps, sorted, node, Kids(children, node), queue[1..], inDegree);
      sorted := sorted + [node];
    }
  }

  lemma SortedBounded(deps: Deps, sorted: seq<Stage>, queue: seq<Stage>, inDegree: map<Stage, nat>)
    requires Sorting(deps, sorted, queue, inDegree)
    ensures |sorted| + |queue| <= |Nodes(deps)|
  {
    NoDuplicatesBounded(sorted + queue, Nodes(deps));
  }

  // With an empty queue, either everything is sorted or something still waits.
  lemma Drained(deps: Deps, sorted: seq<Stage>, inDegree: map<Stage, nat>)
    requires Sorting(deps, sorted, [], inDegree)
    ensures |sorted| < |inDegree| ==> exists n :: n in inDegree && inDegree[n] > 0
    ensures |sorted| >= |inDegree| ==> IsLinearExtension(deps, sorted)
  {
    assert sorted + [] == sorted;
    assert |inDegree| == |inDegree.Keys|;
    NoDuplicatesBounded(sorted, inDegree.Keys);
    if |sorted| < |inDegree| {
      assert Elements(sorted) < inDegree.Keys;
      var n :| n in inDegree.Keys && n !in Elements(sorted);
    } else {
      assert Elements(sorted) == inDegree.Keys;
      assert forall n :: n in sorted <==> n in Elements(sorted);
    }
  }

  // `Sorted` exactly on the acyclic maps, and then with a linear extension of all stages
  // the map names; otherwise a stage whose dependencies lead onto a cycle.
  method TopoSort(deps: Deps) returns (r: SortResult)
    ensures r.Sorted? <==> Acyclic(deps)
    ensures r.Sorted? ==> IsLinearExtension(deps, r.order)
    ensures r.CycleAt? ==> r.stage in Nodes(deps) && ReachesCycle(deps, r.stage)
  {
    var degrees, children := BuildGraph(deps);
    var queue := InitialQueue(deps, degrees);
    StartSorting(deps, queue, degrees, children);
    var sorted, inDegree := DrainQueue(deps, children, queue, degrees);
    Drained(deps, sorted, inDegree);
    if |sorted| < |inDegree| {
      var cycleNode :| cycleNode in inDegree && inDegree[cycleNode] > 0;
      LeftoverReachesCycle(deps, sorted, inDegree, cycleNode);
      ReachesCycleNotAcyclic(deps, cycleNode);
      r := CycleAt(cycleNode);
    } else {
      r := Sorted(sorted);
      LinearExtensionAcyclic(deps, sorted);
    }
  }

  method ValidateDag(deps: Deps) returns (cycle: SortResult)
    ensures cycle.Sorted? <==> Acyclic(deps)
    ensures cycle.CycleAt? ==> ReachesCycle(deps, cycle.stage)
  {
    cycle := TopoSort(deps);
  }
}
