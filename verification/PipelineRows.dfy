/**
  Grouping pipeline stages into rows of parallel lanes by their execution windows. Time stamps
  are milliseconds; a stage without a completion time extends past every other time.
 */
module PipelineRows {
  import opened Common

  datatype Node = Node(key: nat, startedAt: Option<int>, createdAt: Option<int>, completedAt: Option<int>)

  const MAX_SAFE_INTEGER: int := 9007199254740991

  function StartMs(n: Node): int {
    if n.startedAt.Some? then n.startedAt.value
    else if n.createdAt.Some? then n.createdAt.value
    else 0
  }

  function EndMs(n: Node): int {
    if n.completedAt.Some? then n.completedAt.value else MAX_SAFE_INTEGER
  }

  function Max(a: int, b: int): int { if a >= b then a else b }

  // ---------- The stable sort by start ----------

  ghost predicate SortedByStart(s: seq<Node>) {
    forall i, j :: 0 <= i < j < |s| ==> StartMs(s[i]) <= StartMs(s[j])
  }

  // Behind everything that starts no later.
  function Insert(sorted: seq<Node>, n: Node): (r: seq<Node>)
    ensures multiset(r) == multiset(sorted) + multiset{n}
  {
    if sorted == [] || StartMs(sorted[|sorted| - 1]) <= StartMs(n) then sorted + [n]
    else
      assert sorted == sorted[..|sorted| - 1] + [sorted[|sorted| - 1]];
      Insert(sorted[..|sorted| - 1], n) + [sorted[|sorted| - 1]]
  }

  function SortByStart(nodes: seq<Node>): (r: seq<Node>)
    ensures multiset(r) == multiset(nodes)
  {
    if nodes == [] then []
    else
      assert nodes == nodes[..|nodes| - 1] + [nodes[|nodes| - 1]];
      Insert(SortByStart(nodes[..|nodes| - 1]), nodes[|nodes| - 1])
  }

  lemma {:induction false} InsertSorted(sorted: seq<Node>, n: Node)
    requires SortedByStart(sorted)
    ensures SortedByStart(Insert(sorted, n))
    decreases |sorted|
  {
    if sorted != [] && StartMs(sorted[|sorted| - 1]) > StartMs(n) {
      var init, last := sorted[..|sorted| - 1], sorted[|sorted| - 1];
      InsertSorted(init, n);
      InsertStartsBy(init, n, StartMs(last));
    }
  }

  ghost predicate StartsBy(s: seq<Node>, t: int) {
    forall i :: 0 <= i < |s| ==> StartMs(s[i]) <= t
  }

  lemma {:induction false} InsertStartsBy(s: seq<Node>, n: Node, t: int)
    requires StartsBy(s, t) && StartMs(n) <= t
    ensures StartsBy(Insert(s, n), t)
    decreases |s|
  {
    if s != [] && StartMs(s[|s| - 1]) > StartMs(n) { InsertStartsBy(s[..|s| - 1], n, t); }
  }

  lemma {:induction false} SortSorts(nodes: seq<Node>)
    ensures SortedByStart(SortByStart(nodes))
    decreases |nodes|
  {
    if nodes != [] {
      SortSorts(nodes[..|nodes| - 1]);
      InsertSorted(SortByStart(nodes[..|nodes| - 1]), nodes[|nodes| - 1]);
    }
  }

  ghost function StartingAt(s: seq<Node>, t: int): seq<Node> {
    if s == [] then []
    else
      var before, last := StartingAt(s[..|s| - 1], t), s[|s| - 1];
      if StartMs(last) == t then before + [last] else before
  }

  lemma {:induction false} InsertStable(sorted: seq<Node>, n: Node, t: int)
    requires SortedByStart(sorted)
    ensures StartingAt(Insert(sorted, n), t) == StartingAt(sorted + [n], t)
    decreases |sorted|
  {
    if sorted != [] && StartMs(sorted[|sorted| - 1]) > StartMs(n) {
      var init, last := sorted[..|sorted| - 1], sorted[|sorted| - 1];
      InsertStable(init, n, t);
      assert sorted == init + [last];
      StartingAtSnoc(sorted, n, t);
      StartingAtSnoc(init, last, t);
      StartingAtSnoc(init, n, t);
      StartingAtSnoc(Insert(init, n), last, t);
    }
  }

  lemma StartingAtSnoc(s: seq<Node>, n: Node, t: int)
    ensures StartingAt(s + [n], t) == if StartMs(n) == t then StartingAt(s, t) + [n] else StartingAt(s, t)
  {
    assert (s + [n])[..|s|] == s;
  }

  // Stages that start together keep their order.
  lemma {:induction false} SortStable(nodes: seq<Node>, t: int)
    ensures StartingAt(SortByStart(nodes), t) == StartingAt(nodes, t)
    decreases |nodes|
  {
    if nodes != [] {
      var init, last := nodes[..|nodes| - 1], nodes[|nodes| - 1];
      var sorted := SortByStart(init);
      SortStable(init, t);
      SortSorts(init);
      InsertStable(sorted, last, t);
      assert (sorted + [last])[..|sorted|] == sorted;
    }
  }

  // ---------- Rows ----------

  ghost function Flatten(rows: seq<seq<Node>>): seq<Node> {
    if rows == [] then [] else Flatten(rows[..|rows| - 1]) + rows[|rows| - 1]
  }

  lemma FlattenSnoc(rows: seq<seq<Node>>, row: seq<Node>)
    ensures Flatten(rows + [row]) == Flatten(rows) + row
  {
    assert (rows + [row])[..|rows|] == rows;
  }

  // A row is a run of stages, each starting before some earlier one of the row has ended.
  ghost predicate StartsInside(row: seq<Node>, k: nat)
    requires k < |row|
  {
    exists i :: 0 <= i < k && StartMs(row[k]) < EndMs(row[i])
  }

  ghost predicate Linked(row: seq<Node>) {
    && SortedByStart(row)
    && forall k :: 1 <= k < |row| ==> StartsInside(row, k)
  }

  ghost predicate EndsBy(row: seq<Node>, t: int) {
    forall i :: 0 <= i < |row| ==> EndMs(row[i]) <= t
  }

  // Everything in an earlier row ends before anything in a later row starts.
  ghost predicate Separated(rows: seq<seq<Node>>) {
    forall r, q, i, j :: 0 <= r < q < |rows| && 0 <= i < |rows[r]| && 0 <= j < |rows[q]| ==>
      EndMs(rows[r][i]) <= StartMs(rows[q][j])
  }

  ghost predicate AllLinked(rows: seq<seq<Node>>) {
    forall r :: 0 <= r < |rows| ==> rows[r] != [] && Linked(rows[r])
  }

  ghost predicate AllEndBy(rows: seq<seq<Node>>, t: int) {
    forall r :: 0 <= r < |rows| ==> EndsBy(rows[r], t)
  }

  ghost predicate IsRowEnd(row: seq<Node>, rowEnd: int) {
    EndsBy(row, rowEnd) && exists i :: 0 <= i < |row| && EndMs(row[i]) == rowEnd
  }

  // Where the loop stands: finished rows, then the current one.
  ghost predicate Grouping(rows: seq<seq<Node>>, row: seq<Node>, rowEnd: int) {
    && AllLinked(rows) && Separated(rows)
    && row != [] && Linked(row) && IsRowEnd(row, rowEnd)
    && AllEndBy(rows, StartMs(row[0]))
  }

  lemma JoinRow(rows: seq<seq<Node>>, row: seq<Node>, rowEnd: int, n: Node)
    requires Grouping(rows, row, rowEnd)
    requires StartMs(row[|row| - 1]) <= StartMs(n) < rowEnd
    ensures Grouping(rows, row + [n], Max(rowEnd, EndMs(n)))
  {
    var longer := row + [n];
    forall k | 1 <= k < |longer|
      ensures StartsInside(longer, k)
    {
      if k < |row| {
        assert StartsInside(row, k);
        var i :| 0 <= i < k && StartMs(row[k]) < EndMs(row[i]);
        assert longer[i] == row[i];
      } else {
        var i :| 0 <= i < |row| && EndMs(row[i]) == rowEnd;
        assert longer[i] == row[i];
      }
    }
    var i :| 0 <= i < |row| && EndMs(row[i]) == rowEnd;
    assert longer[i] == row[i] && longer[|row|] == n;
  }

  lemma CloseRow(rows: seq<seq<Node>>, row: seq<Node>, rowEnd: int)
    requires Grouping(rows, row, rowEnd)
    ensures AllLinked(rows + [row]) && Separated(rows + [row])
    ensures AllEndBy(rows + [row], Max(rowEnd, StartMs(row[0])))
  {
    var all := rows + [row];
    forall r, q, i, j | 0 <= r < q < |all| && 0 <= i < |all[r]| && 0 <= j < |all[q]|
      ensures EndMs(all[r][i]) <= StartMs(all[q][j])
    {
      if q == |rows| {
        assert EndsBy(rows[r], StartMs(row[0]));
      }
    }
  }

  lemma OpenRow(rows: seq<seq<Node>>, row: seq<Node>, rowEnd: int, n: Node)
    requires Grouping(rows, row, rowEnd)
    requires StartMs(row[|row| - 1]) <= StartMs(n) && rowEnd <= StartMs(n)
    ensures Grouping(rows + [row], [n], EndMs(n))
  {
    CloseRow(rows, row, rowEnd);
    forall r | 0 <= r < |rows + [row]|
      ensures EndsBy((rows + [row])[r], StartMs(n))
    {
      assert EndsBy((rows + [row])[r], Max(rowEnd, StartMs(row[0])));
    }
  }

  // The first `k` stages are grouped.
  ghost predicate Clustered(sorted: seq<Node>, k: nat, rows: seq<seq<Node>>, row: seq<Node>, rowEnd: int) {
    && k <= |sorted|
    && Flatten(rows) + row == sorted[..k]
    && if k == 0 then rows == [] && row == [] else Grouping(rows, row, rowEnd) && row[|row| - 1] == sorted[k - 1]
  }

  lemma FirstLane(sorted: seq<Node>, rowEnd: int)
    requires sorted != [] && Clustered(sorted, 0, [], [], rowEnd)
    ensures Clustered(sorted, 1, [], [sorted[0]], EndMs(sorted[0]))
  {
    var row := [sorted[0]];
    assert EndMs(row[0]) == EndMs(sorted[0]);
    assert sorted[..1] == row;
  }

  lemma NextLane(sorted: seq<Node>, k: nat, rows: seq<seq<Node>>, row: seq<Node>, rowEnd: int)
    requires SortedByStart(sorted) && 0 < k < |sorted| && Clustered(sorted, k, rows, row, rowEnd)
    requires StartMs(sorted[k]) < rowEnd
    ensures Clustered(sorted, k + 1, rows, row + [sorted[k]], Max(rowEnd, EndMs(sorted[k])))
  {
    JoinRow(rows, row, rowEnd, sorted[k]);
    assert sorted[..k + 1] == sorted[..k] + [sorted[k]];
    assert Flatten(rows) + (row + [sorted[k]]) == (Flatten(rows) + row) + [sorted[k]];
  }

  lemma NextRow(sorted: seq<Node>, k: nat, rows: seq<seq<Node>>, row: seq<Node>, rowEnd: int)
    requires SortedByStart(sorted) && 0 < k < |sorted| && Clustered(sorted, k, rows, row, rowEnd)
    requires StartMs(sorted[k]) >= rowEnd
    ensures Clustered(sorted, k + 1, rows + [row], [sorted[k]], EndMs(sorted[k]))
  {
    OpenRow(rows, row, rowEnd, sorted[k]);
    FlattenSnoc(rows, row);
    assert sorted[..k + 1] == sorted[..k] + [sorted[k]];
  }

  // The rows are the start-sorted stages, cut where everything so far has ended. They are the
  // connected components of overlap exactly if, among the sorted stages, whatever starts
  // before an earlier stage has ended overlaps an earlier stage; so they are whenever every
  // stage has a positive duration.
  method ClusterRows(nodes: seq<Node>) returns (rows: seq<seq<Node>>)
    ensures Flatten(rows) == SortByStart(nodes)
    ensures AllLinked(rows)
    ensures Separated(rows)
    ensures RowsAreComponents(rows) <==> OverlapsWhenInside(SortByStart(nodes))
    ensures PositiveDurations(nodes) ==> RowsAreComponents(rows)
  {
    var sorted := SortByStart(nodes);
    SortSorts(nodes);
    rows := [];
    var row: seq<Node> := [];
    var rowEnd := 0;   // read only when the row is not empty
    for k := 0 to |sorted|
      invariant Clustered(sorted, k, rows, row, rowEnd)
    {
      var node := sorted[k];
      if row == [] {
        FirstLane(sorted, rowEnd);
        row, rowEnd := row + [node], EndMs(node);
      } else if StartMs(node) < rowEnd {
        NextLane(sorted, k, rows, row, rowEnd);
        row, rowEnd := row + [node], Max(rowEnd, EndMs(node));
      } else {
        NextRow(sorted, k, rows, row, rowEnd);
        rows := rows + [row];
        row, rowEnd := [node], EndMs(node);
      }
    }
    assert sorted[..|sorted|] == sorted;
    if row != [] {
      CloseRow(rows, row, rowEnd);
      FlattenSnoc(rows, row);
      rows := rows + [row];
    }
    ComponentsIffOverlapsWhenInside(nodes, rows);
    if PositiveDurations(nodes) { PositiveOverlapsWhenInside(nodes); }
  }

  // ---------- Rows are the connected components of overlap ----------

  ghost predicate Overlap(a: Node, b: Node) {
    StartMs(a) < EndMs(b) && StartMs(b) < EndMs(a)
  }

  datatype Place = Place(row: nat, lane: nat)

  ghost predicate InRows(rows: seq<seq<Node>>, p: Place) {
    p.row < |rows| && p.lane < |rows[p.row]|
  }

  ghost function At(rows: seq<seq<Node>>, p: Place): Node
    requires InRows(rows, p)
  {
    rows[p.row][p.lane]
  }

  // Consecutive stages overlap in time.
  ghost predicate IsPath(rows: seq<seq<Node>>, path: seq<Place>) {
    && path != [] && InRows(rows, path[0])
    && (|path| > 1 ==> IsPath(rows, path[1..]) && Overlap(At(rows, path[0]), At(rows, path[1])))
  }

  ghost predicate Connects(rows: seq<seq<Node>>, p: Place, q: Place, path: seq<Place>) {
    IsPath(rows, path) && path[0] == p && path[|path| - 1] == q
  }

  ghost predicate Connected(rows: seq<seq<Node>>, p: Place, q: Place) {
    exists path :: Connects(rows, p, q, path)
  }

  ghost predicate PositiveDurations(nodes: seq<Node>) {
    forall n :: n in nodes ==> StartMs(n) < EndMs(n)
  }

  lemma {:induction false} PathStaysInRow(rows: seq<seq<Node>>, path: seq<Place>)
    requires Separated(rows) && IsPath(rows, path)
    ensures path[0].row == path[|path| - 1].row
    decreases |path|
  {
    if |path| > 1 {
      assert InRows(rows, path[1..][0]);
      PathStaysInRow(rows, path[1..]);
    }
  }

  lemma ConnectedCons(rows: seq<seq<Node>>, p: Place, q: Place, r: Place)
    requires InRows(rows, p) && InRows(rows, q) && Overlap(At(rows, p), At(rows, q)) && Connected(rows, q, r)
    ensures Connected(rows, p, r)
  {
    var path :| Connects(rows, q, r, path);
    assert ([p] + path)[1..] == path;
    assert Connects(rows, p, r, [p] + path);
  }

  lemma {:induction false} ConnectedTransitive(rows: seq<seq<Node>>, p: Place, q: Place, r: Place, path: seq<Place>)
    requires Connects(rows, p, q, path) && Connected(rows, q, r)
    ensures Connected(rows, p, r)
    decreases |path|
  {
    if |path| > 1 {
      ConnectedTransitive(rows, path[1], q, r, path[1..]);
      ConnectedCons(rows, p, path[1], r);
    }
  }

  lemma {:induction false} ConnectedSymmetric(rows: seq<seq<Node>>, p: Place, q: Place, path: seq<Place>)
    requires Connects(rows, p, q, path)
    ensures Connected(rows, q, p)
    decreases |path|
  {
    assert Connects(rows, p, p, [p]);
    if |path| > 1 {
      ConnectedSymmetric(rows, path[1], q, path[1..]);
      ConnectedCons(rows, path[1], p, p);
      var back :| Connects(rows, q, path[1], back);
      ConnectedTransitive(rows, q, path[1], p, back);
    }
  }

  // Every stage but the first of a row overlaps an earlier one of the row.
  ghost predicate LaneOverlaps(row: seq<Node>, k: nat)
    requires k < |row|
  {
    exists i :: 0 <= i < k && Overlap(row[k], row[i])
  }

  ghost predicate RowOverlaps(row: seq<Node>) {
    forall k :: 1 <= k < |row| ==> LaneOverlaps(row, k)
  }

  ghost predicate LanesOverlap(rows: seq<seq<Node>>) {
    forall r :: 0 <= r < |rows| ==> RowOverlaps(rows[r])
  }

  // A stage of positive duration does.
  lemma PositiveLaneOverlaps(row: seq<Node>, k: nat)
    requires Linked(row) && 1 <= k < |row|
    ensures StartMs(row[k]) < EndMs(row[k]) ==> LaneOverlaps(row, k)
  {
    assert StartsInside(row, k);
    var i :| 0 <= i < k && StartMs(row[k]) < EndMs(row[i]);
    assert StartMs(row[i]) <= StartMs(row[k]);
  }

  lemma {:induction false} ConnectedToFirst(rows: seq<seq<Node>>, r: nat, k: nat)
    requires LanesOverlap(rows) && r < |rows| && k < |rows[r]|
    ensures Connected(rows, Place(r, k), Place(r, 0))
    decreases k
  {
    if k == 0 {
      assert Connects(rows, Place(r, 0), Place(r, 0), [Place(r, 0)]);
    } else {
      var row := rows[r];
      assert RowOverlaps(row) && LaneOverlaps(row, k);
      var i :| 0 <= i < k && Overlap(row[k], row[i]);
      ConnectedToFirst(rows, r, i);
      ConnectedCons(rows, Place(r, k), Place(r, i), Place(r, 0));
    }
  }

  lemma SameRowConnected(rows: seq<seq<Node>>, p: Place, q: Place)
    requires LanesOverlap(rows) && InRows(rows, p) && InRows(rows, q) && p.row == q.row
    ensures Connected(rows, p, q)
  {
    var first := Place(p.row, 0);
    ConnectedToFirst(rows, p.row, p.lane);
    ConnectedToFirst(rows, q.row, q.lane);
    var there :| Connects(rows, q, first, there);
    ConnectedSymmetric(rows, q, first, there);
    var here :| Connects(rows, p, first, here);
    ConnectedTransitive(rows, p, first, q, here);
  }

  ghost predicate Isolated(rows: seq<seq<Node>>, p: Place)
    requires InRows(rows, p)
  {
    forall q :: InRows(rows, q) ==> !Overlap(At(rows, p), At(rows, q))
  }

  lemma PathSecond(rows: seq<seq<Node>>, path: seq<Place>)
    requires IsPath(rows, path) && |path| > 1
    ensures InRows(rows, path[1]) && Overlap(At(rows, path[0]), At(rows, path[1]))
  {
    assert InRows(rows, path[1..][0]);
  }

  lemma IsolatedNotConnected(rows: seq<seq<Node>>, p: Place, q: Place)
    requires InRows(rows, p) && Isolated(rows, p) && p != q
    ensures !Connected(rows, p, q)
  {
    forall path
      ensures !Connects(rows, p, q, path)
    {
      if IsPath(rows, path) && |path| > 1 { PathSecond(rows, path); }
    }
  }

  // A stage that overlaps nothing earlier in its row overlaps nothing at all: it has no
  // duration, and what comes later starts too late.
  lemma NoEarlierOverlapIsolated(rows: seq<seq<Node>>, p: Place)
    requires AllLinked(rows) && Separated(rows) && InRows(rows, p) && p.lane >= 1
    requires !LaneOverlaps(rows[p.row], p.lane)
    ensures Isolated(rows, p)
  {
    var row, k := rows[p.row], p.lane;
    assert Linked(row);
    PositiveLaneOverlaps(row, k);
    forall q | InRows(rows, q)
      ensures !Overlap(At(rows, p), At(rows, q))
    {
      if q.row == p.row && q.lane > k { assert StartMs(row[k]) <= StartMs(row[q.lane]); }
    }
  }

  ghost predicate RowsAreComponents(rows: seq<seq<Node>>) {
    forall p, q :: InRows(rows, p) && InRows(rows, q) ==> (Connected(rows, p, q) <==> p.row == q.row)
  }

  // For rows as `ClusterRows` returns them: two stages share a row exactly when a chain of
  // overlapping stages leads from one to the other, if and only if every stage but the first
  // of each row overlaps an earlier one.
  lemma RowsAreComponentsIffLanesOverlap(rows: seq<seq<Node>>)
    requires AllLinked(rows) && Separated(rows)
    ensures RowsAreComponents(rows) <==> LanesOverlap(rows)
  {
    if LanesOverlap(rows) {
      forall p, q | InRows(rows, p) && InRows(rows, q)
        ensures Connected(rows, p, q) <==> p.row == q.row
      {
        if p.row == q.row { SameRowConnected(rows, p, q); }
        if Connected(rows, p, q) {
          var path :| Connects(rows, p, q, path);
          PathStaysInRow(rows, path);
        }
      }
    } else {
      var r :| 0 <= r < |rows| && !RowOverlaps(rows[r]);
      var k :| 1 <= k < |rows[r]| && !LaneOverlaps(rows[r], k);
      var p, first := Place(r, k), Place(r, 0);
      NoEarlierOverlapIsolated(rows, p);
      IsolatedNotConnected(rows, p, first);
      assert InRows(rows, p) && InRows(rows, first);
    }
  }

  // ---------- The condition on the input ----------

  // Whatever starts before some earlier stage has ended overlaps an earlier stage.
  ghost predicate OverlapsIfInside(s: seq<Node>, k: nat)
    requires k < |s|
  {
    StartsInside(s, k) ==> LaneOverlaps(s, k)
  }

  ghost predicate OverlapsWhenInside(s: seq<Node>) {
    forall k :: 0 <= k < |s| ==> OverlapsIfInside(s, k)
  }

  // A later stage looks back only as far as stages that have not ended before.
  lemma BehindEnded(a: seq<Node>, b: seq<Node>, k: nat)
    requires k < |b| && forall i :: 0 <= i < |a| ==> EndMs(a[i]) <= StartMs(b[k])
    ensures OverlapsIfInside(a + b, |a| + k) <==> OverlapsIfInside(b, k)
  {
    var all := a + b;
    assert all[|a| + k] == b[k];
    assert forall i :: 0 <= i < |a| ==> all[i] == a[i];
    assert forall i :: 0 <= i < |b| ==> all[|a| + i] == b[i];
    if StartsInside(b, k) {
      var i :| 0 <= i < k && StartMs(b[k]) < EndMs(b[i]);
      assert all[|a| + i] == b[i];
    }
    if LaneOverlaps(b, k) {
      var i :| 0 <= i < k && Overlap(b[k], b[i]);
      assert all[|a| + i] == b[i];
    }
    if StartsInside(all, |a| + k) {
      var i :| 0 <= i < |a| + k && StartMs(all[|a| + k]) < EndMs(all[i]);
      assert all[i] == b[i - |a|];
    }
    if LaneOverlaps(all, |a| + k) {
      var i :| 0 <= i < |a| + k && Overlap(all[|a| + k], all[i]);
      assert all[i] == b[i - |a|];
    }
  }

  lemma InFront(a: seq<Node>, b: seq<Node>, k: nat)
    requires k < |a|
    ensures OverlapsIfInside(a + b, k) <==> OverlapsIfInside(a, k)
  {
    var all := a + b;
    assert forall i :: 0 <= i <= k ==> all[i] == a[i];
  }

  lemma OverlapsAppend(a: seq<Node>, b: seq<Node>)
    requires forall i, j :: 0 <= i < |a| && 0 <= j < |b| ==> EndMs(a[i]) <= StartMs(b[j])
    ensures OverlapsWhenInside(a + b) <==> OverlapsWhenInside(a) && OverlapsWhenInside(b)
  {
    forall k | 0 <= k < |a| ensures OverlapsIfInside(a + b, k) <==> OverlapsIfInside(a, k) {
      InFront(a, b, k);
    }
    forall k | 0 <= k < |b| ensures OverlapsIfInside(a + b, |a| + k) <==> OverlapsIfInside(b, k) {
      BehindEnded(a, b, k);
    }
    if OverlapsWhenInside(a) && OverlapsWhenInside(b) {
      forall k | 0 <= k < |a + b| ensures OverlapsIfInside(a + b, k) {
        if k >= |a| { BehindEnded(a, b, k - |a|); }
      }
    }
  }

  // Flattened rows end by `t` if the rows do.
  lemma {:induction false} FlattenEndsBy(rows: seq<seq<Node>>, t: int)
    requires AllEndBy(rows, t)
    ensures EndsBy(Flatten(rows), t)
    decreases |rows|
  {
    if rows != [] {
      assert EndsBy(rows[|rows| - 1], t);
      FlattenEndsBy(rows[..|rows| - 1], t);
    }
  }

  lemma LastRowBehind(rows: seq<seq<Node>>)
    requires rows != [] && Separated(rows)
    ensures var a, b := Flatten(rows[..|rows| - 1]), rows[|rows| - 1];
            forall i, j :: 0 <= i < |a| && 0 <= j < |b| ==> EndMs(a[i]) <= StartMs(b[j])
  {
    var init, b := rows[..|rows| - 1], rows[|rows| - 1];
    forall j | 0 <= j < |b| ensures EndsBy(Flatten(init), StartMs(b[j])) {
      FlattenEndsBy(init, StartMs(b[j]));
    }
  }

  lemma {:induction false} LanesOverlapIff(rows: seq<seq<Node>>)
    requires AllLinked(rows) && Separated(rows)
    ensures LanesOverlap(rows) <==> OverlapsWhenInside(Flatten(rows))
    decreases |rows|
  {
    if rows != [] {
      var init, row := rows[..|rows| - 1], rows[|rows| - 1];
      LanesOverlapIff(init);
      LastRowBehind(rows);
      OverlapsAppend(Flatten(init), row);
      LinkedRowOverlaps(row);
      LanesSnoc(init, row);
      assert init + [row] == rows;
    }
  }

  lemma LinkedRowOverlaps(row: seq<Node>)
    requires Linked(row)
    ensures OverlapsWhenInside(row) <==> RowOverlaps(row)
  {
    forall k | 1 <= k < |row| ensures OverlapsIfInside(row, k) <==> LaneOverlaps(row, k) {
      assert StartsInside(row, k);
    }
  }

  lemma LanesSnoc(rows: seq<seq<Node>>, row: seq<Node>)
    ensures LanesOverlap(rows + [row]) <==> LanesOverlap(rows) && RowOverlaps(row)
  {
    var all := rows + [row];
    assert forall r :: 0 <= r < |rows| ==> all[r] == rows[r];
    assert all[|rows|] == row;
  }

  lemma ComponentsIffOverlapsWhenInside(nodes: seq<Node>, rows: seq<seq<Node>>)
    requires Flatten(rows) == SortByStart(nodes) && AllLinked(rows) && Separated(rows)
    ensures RowsAreComponents(rows) <==> OverlapsWhenInside(SortByStart(nodes))
  {
    LanesOverlapIff(rows);
    RowsAreComponentsIffLanesOverlap(rows);
  }

  // With positive durations the condition holds.
  lemma PositiveOverlapsWhenInside(nodes: seq<Node>)
    requires PositiveDurations(nodes)
    ensures OverlapsWhenInside(SortByStart(nodes))
  {
    var s := SortByStart(nodes);
    SortSorts(nodes);
    forall k | 0 <= k < |s| && StartsInside(s, k) ensures LaneOverlaps(s, k) {
      var i :| 0 <= i < k && StartMs(s[k]) < EndMs(s[i]);
      assert s[k] in multiset(s) && s[k] in nodes;
      assert StartMs(s[i]) <= StartMs(s[k]);
    }
  }

  // A stage of no duration that starts together with another one shares its row without
  // overlapping it: whatever rows the clustering makes of two such stages, they are not the
  // components.
  lemma InstantStageCounterexample(a: Node, b: Node, rows: seq<seq<Node>>)
    requires EndMs(b) <= StartMs(a) <= StartMs(b) < EndMs(a)
    requires Flatten(rows) == SortByStart([a, b]) && AllLinked(rows) && Separated(rows)
    ensures !RowsAreComponents(rows)
  {
    PairStaysSorted(a, b);
    InsideWithoutOverlap([a, b]);
    ComponentsIffOverlapsWhenInside([a, b], rows);
  }

  lemma InsideWithoutOverlap(s: seq<Node>)
    requires |s| == 2 && EndMs(s[1]) <= StartMs(s[0]) <= StartMs(s[1]) < EndMs(s[0])
    ensures !OverlapsWhenInside(s)
  {
    assert StartsInside(s, 1);
    assert !OverlapsIfInside(s, 1);
  }

  lemma PairStaysSorted(a: Node, b: Node)
    requires StartMs(a) <= StartMs(b)
    ensures SortByStart([a, b]) == [a, b]
  {
    assert [a, b][..1] == [a] && [a][..0] == [];
    assert SortByStart([a]) == [a];
  }
}
