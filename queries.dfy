/** The read-only queries of the task store: the next task, the counts, and the dependency tree. */
module Queries {
  import opened Wrappers
  import opened CommaLists
  import opened Tasks

  /** A task `getNextTask` may hand out: ready, with an empty or null `blocked_by`. */
  predicate Eligible(t: Task) {
    t.status == Ready && !Truthy(t.blockedBy)
  }

  const NextFilter := AnyTask.(status := Some(Ready), unblockedOnly := true)

  /** `getNextTask`: the first row of the ready, unblocked listing. */
  function NextTask(tasks: map<int, Task>, lastId: nat): Option<Task> {
    var l := Listing(tasks, lastId, NextFilter);
    if l == [] then None else Some(l[0])
  }

  /**
   * `getNextTask` returns nothing exactly when no row is eligible, and otherwise the eligible row
   * that sorts first by priority rank, then id. A ready task whose `blocked_by` is non-empty is
   * never returned, even when every task it names is completed.
   */
  lemma NextTaskFacts(tasks: map<int, Task>, lastId: nat)
    requires WellFormed(tasks, lastId)
    ensures var r := NextTask(tasks, lastId);
      && (r.None? <==> forall k :: k in tasks ==> !Eligible(tasks[k]))
      && (r.Some? ==>
            && r.value.id in tasks && tasks[r.value.id] == r.value && Eligible(r.value)
            && forall k :: k in tasks && Eligible(tasks[k]) && k != r.value.id ==> Before(r.value, tasks[k]))
  {
    var l := Listing(tasks, lastId, NextFilter);
    ListingMembers(tasks, lastId, NextFilter);
    ListingOrdered(tasks, lastId, NextFilter);
    forall k | k in tasks && Eligible(tasks[k]) ensures l != [] && tasks[k] in l {
      assert Matches(tasks[k], NextFilter);
    }
    if l != [] {
      assert l[0] in l;
      forall k | k in tasks && Eligible(tasks[k]) && k != l[0].id ensures Before(l[0], tasks[k]) {
        assert Matches(tasks[k], NextFilter);
        var j :| 0 <= j < |l| && l[j] == tasks[k];
        assert j != 0;
      }
    }
  }

  /** The counts `getStats` reports. */
  datatype Stats = Stats(total: nat, ready: nat, inProgress: nat, blocked: nat, completed: nat, completionPct: nat)

  /** The rows with ids 1..n whose status is `s` (any status when `s` is `None`). */
  function CountRows(tasks: map<int, Task>, n: nat, s: Option<Status>): nat {
    if n == 0 then 0
    else CountRows(tasks, n - 1, s) + (if n in tasks && (s.None? || tasks[n].status == s.value) then 1 else 0)
  }

  /** `Math.round(100 * c / t)` on exact rationals: halves round up. */
  function RoundPercent(c: nat, t: nat): (p: nat)
    requires t > 0
    ensures t * (2 * p - 1) <= 200 * c < t * (2 * p + 1)
  {
    var p := (200 * c + t) / (2 * t);
    assert p * (2 * t) <= 200 * c + t < p * (2 * t) + 2 * t;
    p
  }

  /** `getStats` */
  function GetStats(tasks: map<int, Task>, lastId: nat): Stats {
    var total := CountRows(tasks, lastId, None);
    var completed := CountRows(tasks, lastId, Some(Completed));
    Stats(total, CountRows(tasks, lastId, Some(Ready)), CountRows(tasks, lastId, Some(InProgress)),
          CountRows(tasks, lastId, Some(Blocked)), completed,
          if total > 0 then RoundPercent(completed, total) else 0)
  }

  lemma {:induction false} CountRowsPartition(tasks: map<int, Task>, n: nat)
    ensures CountRows(tasks, n, Some(Ready)) + CountRows(tasks, n, Some(InProgress))
      + CountRows(tasks, n, Some(Blocked)) + CountRows(tasks, n, Some(Completed)) == CountRows(tasks, n, None)
  {
    if n > 0 {
      CountRowsPartition(tasks, n - 1);
    }
  }

  lemma {:induction false} CountRowsAll(tasks: map<int, Task>, n: nat)
    requires forall k :: 1 <= k <= n ==> k in tasks
    ensures CountRows(tasks, n, None) == n
  {
    if n > 0 {
      CountRowsAll(tasks, n - 1);
    }
  }

  lemma {:induction false} CountRowsBound(tasks: map<int, Task>, n: nat, s: Status)
    ensures CountRows(tasks, n, Some(s)) <= CountRows(tasks, n, None)
  {
    if n > 0 {
      CountRowsBound(tasks, n - 1, s);
    }
  }

  lemma {:induction false} MulMonotone(t: nat, a: int, b: int)
    requires a <= b
    ensures t * a <= t * b
  {
    if t > 0 {
      MulMonotone(t - 1, a, b);
      assert t * a == (t - 1) * a + a && t * b == (t - 1) * b + b;
    }
  }

  lemma RoundPercentBound(c: nat, t: nat)
    requires 0 < t && c <= t
    ensures RoundPercent(c, t) <= 100
    ensures c == t ==> RoundPercent(c, t) == 100
    ensures c == 0 ==> RoundPercent(c, t) == 0
  {
    var p := RoundPercent(c, t);
    MulMonotone(t, c, t);
    if p > 100 {
      MulMonotone(t, 201, 2 * p - 1);
    }
    if c == t && p < 100 {
      MulMonotone(t, 2 * p + 1, 199);
    }
    if c == 0 && p > 0 {
      MulMonotone(t, 1, 2 * p - 1);
    }
  }

  /**
   * The four status counts add up to the total, which is the number of rows, and the completion
   * percentage is the completed share rounded to the nearest integer: 0 for an empty table or
   * none completed, 100 when all are completed, never more than 100.
   */
  lemma GetStatsFacts(tasks: map<int, Task>, lastId: nat)
    requires WellFormed(tasks, lastId)
    ensures var s := GetStats(tasks, lastId);
      && s.total == lastId
      && s.ready + s.inProgress + s.blocked + s.completed == s.total
      && s.completionPct <= 100
      && (s.total == 0 ==> s.completionPct == 0)
      && (s.total > 0 ==> s.total * (2 * s.completionPct - 1) <= 200 * s.completed < s.total * (2 * s.completionPct + 1))
      && (s.total > 0 && s.completed == s.total ==> s.completionPct == 100)
      && (s.completed == 0 ==> s.completionPct == 0)
  {
    CountRowsPartition(tasks, lastId);
    CountRowsAll(tasks, lastId);
    CountRowsBound(tasks, lastId, Completed);
    var total := CountRows(tasks, lastId, None);
    if total > 0 {
      RoundPercentBound(CountRows(tasks, lastId, Some(Completed)), total);
    }
  }

  /** A node of `getDependencyTree`: a task with the tasks it blocks, or a `(circular)` leaf for an id seen before. */
  datatype Tree =
    | Node(id: int, title: string, status: Status, priority: Priority, depth: nat, children: seq<Tree>)
    | Circular(id: int)

  /** The ids that appear as full nodes, with their multiplicities. */
  function NodeIds(t: Tree): multiset<int>
    decreases t
  {
    match t
    case Circular(_) => multiset{}
    case Node(id, _, _, _, _, children) => multiset{id} + ForestIds(children)
  }

  function ForestIds(ts: seq<Tree>): multiset<int>
    decreases ts
  {
    if ts == [] then multiset{} else NodeIds(ts[0]) + ForestIds(ts[1..])
  }

  function TreeIds(t: Option<Tree>): multiset<int> {
    if t.Some? then NodeIds(t.value) else multiset{}
  }

  lemma SubsetCard(a: set<int>, b: set<int>)
    requires a <= b
    ensures |a| <= |b|
  {
    assert b == a + (b - a);
  }

  /**
   * `getDependencyTree(id, depth, visited)`: an id already visited becomes a `(circular)` leaf;
   * otherwise the id is marked visited, a missing task gives `null`, and a present one becomes a
   * node whose children are the trees of the tasks naming it in `blocked_by`, in listing order.
   * The visited set is threaded through siblings, so any second visit is a leaf. Every call lists
   * the same unchanged table, so `rows` is that listing with each row's dependency list.
   */
  function DepTree(tasks: map<int, Task>, rows: seq<(int, seq<int>)>, id: int, depth: nat, visited: set<int>): (r: (Option<Tree>, set<int>))
    ensures visited <= r.1 && id in r.1
    ensures r.0.None? <==> id !in visited && id !in tasks
    ensures id in visited ==> r == (Some(Circular(id)), visited)
    ensures r.0.Some? ==> r.0.value.id == id
    ensures r.0.Some? && r.0.value.Node? ==> r.0.value.depth == depth
    ensures forall k :: k in TreeIds(r.0) ==> k in r.1 && k !in visited && TreeIds(r.0)[k] == 1
    decreases |tasks.Keys - visited|, 0, 0
  {
    if id in visited then (Some(Circular(id)), visited)
    else if id !in tasks then (None, visited + {id})
    else
      var t := tasks[id];
      var v := visited + {id};
      assert tasks.Keys - v == (tasks.Keys - visited) - {id};
      var (children, v2) := DepForest(tasks, rows, id, rows, depth + 1, v);
      (Some(Node(id, t.title, t.status, t.priority, depth, children)), v2)
  }

  /** The loop of `getDependencyTree` over the listing: a child for each row whose dependencies name `parent`. */
  function DepForest(tasks: map<int, Task>, rows: seq<(int, seq<int>)>, parent: int, ts: seq<(int, seq<int>)>, depth: nat, visited: set<int>): (r: (seq<Tree>, set<int>))
    ensures visited <= r.1
    ensures forall k :: k in ForestIds(r.0) ==> k in r.1 && k !in visited && ForestIds(r.0)[k] == 1
    decreases |tasks.Keys - visited|, 1, |ts|
  {
    if ts == [] then ([], visited)
    else if parent in ts[0].1 then
      var (child, v1) := DepTree(tasks, rows, ts[0].0, depth, visited);
      SubsetCard(tasks.Keys - v1, tasks.Keys - visited);
      var (rest, v2) := DepForest(tasks, rows, parent, ts[1..], depth, v1);
      var children := if child.Some? then [child.value] + rest else rest;
      assert ForestIds(children) == TreeIds(child) + ForestIds(rest);
      (children, v2)
    else DepForest(tasks, rows, parent, ts[1..], depth, visited)
  }

  /** Every child the loop produces is a row whose dependency list names the parent, one level deeper. */
  lemma {:induction false} ForestChildren(tasks: map<int, Task>, rows: seq<(int, seq<int>)>, parent: int,
                                          ts: seq<(int, seq<int>)>, depth: nat, visited: set<int>)
    ensures forall c :: c in DepForest(tasks, rows, parent, ts, depth, visited).0 ==>
      (exists p :: p in ts && p.0 == c.id && parent in p.1) && (c.Node? ==> c.depth == depth)
    decreases |ts|
  {
    if ts != [] {
      assert forall p :: p in ts[1..] ==> p in ts;
      if parent in ts[0].1 {
        var (child, v1) := DepTree(tasks, rows, ts[0].0, depth, visited);
        ForestChildren(tasks, rows, parent, ts[1..], depth, v1);
      } else {
        ForestChildren(tasks, rows, parent, ts[1..], depth, visited);
      }
    }
  }

  /** The ids of the rows of `ts` whose dependency list names `parent`, in order. */
  function Naming(ts: seq<(int, seq<int>)>, parent: int): (ids: seq<int>)
    ensures forall k :: k in ids <==> exists p :: p in ts && p.0 == k && parent in p.1
  {
    if ts == [] then []
    else
      var rest := Naming(ts[1..], parent);
      assert forall p :: p in ts <==> p == ts[0] || p in ts[1..];
      (if parent in ts[0].1 then [ts[0].0] else []) + rest
  }

  /** The ids of a list of trees, in order. */
  function ChildIds(cs: seq<Tree>): (ids: seq<int>)
    ensures |ids| == |cs|
    ensures forall i :: 0 <= i < |cs| ==> ids[i] == cs[i].id
  {
    seq(|cs|, i requires 0 <= i < |cs| => cs[i].id)
  }

  /**
   * Every row naming the parent yields a child, in the order of the rows: a row of a stored task
   * is never `null`, whether it becomes a node or a `(circular)` leaf.
   */
  lemma {:induction false} ForestComplete(tasks: map<int, Task>, rows: seq<(int, seq<int>)>, parent: int,
                                          ts: seq<(int, seq<int>)>, depth: nat, visited: set<int>)
    requires forall p :: p in ts ==> p.0 in tasks
    ensures ChildIds(DepForest(tasks, rows, parent, ts, depth, visited).0) == Naming(ts, parent)
    decreases |ts|
  {
    if ts != [] {
      assert forall p :: p in ts[1..] ==> p in ts;
      if parent in ts[0].1 {
        var first := DepTree(tasks, rows, ts[0].0, depth, visited);
        assert first.0.Some? && first.0.value.id == ts[0].0;
        var rest := DepForest(tasks, rows, parent, ts[1..], depth, first.1);
        assert DepForest(tasks, rows, parent, ts, depth, visited).0 == [first.0.value] + rest.0;
        ForestComplete(tasks, rows, parent, ts[1..], depth, first.1);
        ChildIdsCons(first.0.value, rest.0);
      } else {
        ForestComplete(tasks, rows, parent, ts[1..], depth, visited);
      }
    }
  }

  lemma ChildIdsCons(c: Tree, cs: seq<Tree>)
    ensures ChildIds([c] + cs) == [c.id] + ChildIds(cs)
  {
  }

  /** `getDependencyTree(id)`: the tree from a fresh visited set at depth 0. */
  function DependencyTree(tasks: map<int, Task>, lastId: nat, id: int): Option<Tree> {
    DepTree(tasks, DepLists(Listing(tasks, lastId, AnyTask)), id, 0, {}).0
  }

  /** Each row of the full listing is a stored task's id with that task's dependency list. */
  lemma ListingRows(tasks: map<int, Task>, lastId: nat)
    requires WellFormed(tasks, lastId)
    ensures forall p :: p in DepLists(Listing(tasks, lastId, AnyTask)) ==> p.0 in tasks && p.1 == Deps(tasks[p.0])
  {
    var ts := Listing(tasks, lastId, AnyTask);
    var rows := DepLists(ts);
    ListingMembers(tasks, lastId, AnyTask);
    forall p | p in rows ensures p.0 in tasks && p.1 == Deps(tasks[p.0]) {
      var i :| 0 <= i < |rows| && rows[i] == p;
      assert ts[i] in ts;
    }
  }

  /**
   * The root of a fresh tree: a node at depth 0 whose children are rows naming it, no task twice.
   * When every row is a stored task, the children are exactly the rows naming the root, in order.
   */
  lemma RootFacts(tasks: map<int, Task>, rows: seq<(int, seq<int>)>, id: int)
    ensures var r := DepTree(tasks, rows, id, 0, {}).0;
      && (r.None? <==> id !in tasks)
      && (r.Some? ==>
            && r.value.Node? && r.value.id == id && r.value.depth == 0 && r.value.title == tasks[id].title
            && (forall c :: c in r.value.children ==> exists p :: p in rows && p.0 == c.id && id in p.1)
            && ((forall p :: p in rows ==> p.0 in tasks) ==> ChildIds(r.value.children) == Naming(rows, id))
            && (forall k :: NodeIds(r.value)[k] <= 1))
  {
    if id in tasks {
      var forest := DepForest(tasks, rows, id, rows, 1, {} + {id});
      assert DepTree(tasks, rows, id, 0, {}).0.value.children == forest.0;
      ForestChildren(tasks, rows, id, rows, 1, {} + {id});
      if forall p :: p in rows ==> p.0 in tasks {
        ForestComplete(tasks, rows, id, rows, 1, {} + {id});
      }
    }
  }

  /**
   * The tree of a missing task is `null`; otherwise its root is the task at depth 0, its children
   * are exactly the tasks whose `blocked_by` names the root, one each, in listing order, and no
   * task appears as a full node twice.
   */
  lemma DependencyTreeFacts(tasks: map<int, Task>, lastId: nat, id: int)
    requires WellFormed(tasks, lastId)
    ensures var r := DependencyTree(tasks, lastId, id);
      && (r.None? <==> id !in tasks)
      && (r.Some? ==>
            && r.value.Node? && r.value.id == id && r.value.depth == 0 && r.value.title == tasks[id].title
            && (forall c :: c in r.value.children ==> c.id in tasks && id in Deps(tasks[c.id]))
            && (forall k :: k in tasks && id in Deps(tasks[k]) ==> k in ChildIds(r.value.children))
            && ChildIds(r.value.children) == Naming(DepLists(Listing(tasks, lastId, AnyTask)), id)
            && (forall k :: NodeIds(r.value)[k] <= 1))
  {
    var rows := DepLists(Listing(tasks, lastId, AnyTask));
    ListingRows(tasks, lastId);
    RootFacts(tasks, rows, id);
    var r := DepTree(tasks, rows, id, 0, {}).0;
    if r.Some? {
      forall c | c in r.value.children ensures c.id in tasks && id in Deps(tasks[c.id]) {
        var p :| p in rows && p.0 == c.id && id in p.1;
      }
      forall k | k in tasks && id in Deps(tasks[k]) ensures k in ChildIds(r.value.children) {
        AllRowsListed(tasks, lastId, k);
      }
    }
  }

  /** Every stored task appears in the full listing with its dependency list. */
  lemma AllRowsListed(tasks: map<int, Task>, lastId: nat, k: int)
    requires WellFormed(tasks, lastId) && k in tasks
    ensures (k, Deps(tasks[k])) in DepLists(Listing(tasks, lastId, AnyTask))
  {
    var ts := Listing(tasks, lastId, AnyTask);
    ListingMembers(tasks, lastId, AnyTask);
    assert Matches(tasks[k], AnyTask);
    var i :| 0 <= i < |ts| && ts[i] == tasks[k];
    assert DepLists(ts)[i] == (k, Deps(tasks[k]));
  }
}
