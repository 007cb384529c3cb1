/** An epic's tasks and their dependency edges: the writes behind the breakdown DAG, and the
    depth-first search that keeps the graph acyclic. */
module TaskGraph {
  import opened Text

  /** A ULID; only its freshness matters. */
  type TaskId = nat

  type Edge = (TaskId, TaskId)

  datatype Task = Task(id: TaskId, title: string, position: int)

  /** Task rows in insertion order; an edge is (blocker, blocked). */
  datatype Dag = Dag(tasks: seq<Task>, edges: set<Edge>)

  // ---- paths ----

  predicate Path(edges: set<Edge>, p: seq<TaskId>) {
    |p| > 0 && forall j :: 0 <= j < |p| - 1 ==> (p[j], p[j + 1]) in edges
  }

  predicate PathFrom(edges: set<Edge>, p: seq<TaskId>, a: TaskId, b: TaskId) {
    Path(edges, p) && p[0] == a && p[|p| - 1] == b
  }

  ghost predicate Reaches(edges: set<Edge>, a: TaskId, b: TaskId) {
    exists p :: PathFrom(edges, p, a, b)
  }

  ghost predicate Acyclic(edges: set<Edge>) {
    forall p :: Path(edges, p) && |p| >= 2 ==> p[0] != p[|p| - 1]
  }

  lemma ReachesOneMore(edges: set<Edge>, a: TaskId, b: TaskId, c: TaskId)
    requires Reaches(edges, a, b) && (b, c) in edges
    ensures Reaches(edges, a, c)
  {
    var p :| PathFrom(edges, p, a, b);
    assert PathFrom(edges, p + [c], a, c);
  }

  /** A set closed under edges holds everything reachable from its members. */
  lemma {:induction false} ClosedHoldsPath(edges: set<Edge>, closed: set<TaskId>, p: seq<TaskId>)
    requires Path(edges, p) && p[0] in closed
    requires forall e :: e in edges && e.0 in closed ==> e.1 in closed
    ensures p[|p| - 1] in closed
    decreases |p|
  {
    if |p| > 1 {
      assert (p[0], p[1]) in edges;
      assert forall j :: 0 <= j < |p| - 2 ==> (p[1..][j], p[1..][j + 1]) == (p[j + 1], p[j + 1 + 1]);
      ClosedHoldsPath(edges, closed, p[1..]);
    }
  }

  lemma ClosedHolds(edges: set<Edge>, closed: set<TaskId>, a: TaskId)
    requires a in closed && forall e :: e in edges && e.0 in closed ==> e.1 in closed
    ensures forall b :: Reaches(edges, a, b) ==> b in closed
  {
    forall b | Reaches(edges, a, b) ensures b in closed {
      var p :| PathFrom(edges, p, a, b);
      ClosedHoldsPath(edges, closed, p);
    }
  }

  function Successors(edges: set<Edge>, n: TaskId): set<TaskId> { set e | e in edges && e.0 == n :: e.1 }

  function Nodes(edges: set<Edge>): set<TaskId> { (set e | e in edges :: e.0) + (set e | e in edges :: e.1) }

  /** The rows of one `SELECT blocked_id` query, in some order. */
  method Rows(ids: set<TaskId>) returns (rows: seq<TaskId>)
    ensures forall x :: x in rows <==> x in ids
  {
    rows := [];
    var rest := ids;
    while rest != {}
      invariant rest <= ids && forall x :: x in rows <==> x in ids - rest
    {
      var x :| x in rest;
      rows, rest := rows + [x], rest - {x};
    }
  }

  /** `would_create_cycle`: an iterative depth-first search from `blocked`. */
  method WouldCreateCycle(edges: set<Edge>, blocker: TaskId, blocked: TaskId) returns (cycle: bool)
    ensures cycle <==> Reaches(edges, blocked, blocker)
  {
    var stack := [blocked];
    var seen: set<TaskId> := {};
    ghost var all := Nodes(edges) + {blocked};
    assert PathFrom(edges, [blocked], blocked, blocked);
    while stack != []
      invariant seen <= all && (forall x :: x in stack ==> x in all)
      invariant forall x :: x in stack || x in seen ==> Reaches(edges, blocked, x)
      invariant blocker !in seen && (blocked in stack || blocked in seen)
      invariant forall e :: e in edges && e.0 in seen ==> e.1 in seen || e.1 in stack
      decreases all - seen, |stack|
    {
      var node := stack[|stack| - 1];
      ghost var before := stack;
      stack := stack[..|stack| - 1];
      assert forall x :: x in before <==> x in stack || x == node;
      if node == blocker {
        return true;
      }
      if node !in seen {
        ghost var was := seen;
        seen := seen + {node};
        assert node in all - was && node !in all - seen;
        var rows := Rows(Successors(edges, node));
        forall x | x in rows ensures x in all && Reaches(edges, blocked, x) {
          SuccessorIs(edges, node, x);
          ReachesOneMore(edges, blocked, node, x);
        }
        hide Reaches;
        stack := stack + rows;
      }
    }
    ClosedHolds(edges, seen, blocked);
    return false;
  }

  lemma SuccessorIs(edges: set<Edge>, n: TaskId, x: TaskId)
    ensures x in Successors(edges, n) <==> (n, x) in edges
    ensures x in Successors(edges, n) ==> x in Nodes(edges)
  {
    if x in Successors(edges, n) {
      var e :| e in edges && e.0 == n && e.1 == x;
      assert e == (n, x);
    }
    if (n, x) in edges {
      var e := (n, x);
      assert e.0 == n && e.1 == x;
    }
  }

  // ---- one more edge ----

  lemma SubPath(edges: set<Edge>, edges': set<Edge>, p: seq<TaskId>, i: nat, j: nat)
    requires Path(edges', p) && i <= j < |p|
    requires forall k :: i <= k < j ==> (p[k], p[k + 1]) in edges
    ensures PathFrom(edges, p[i..j + 1], p[i], p[j])
  {
    var q := p[i..j + 1];
    forall k | 0 <= k < |q| - 1 ensures (q[k], q[k + 1]) in edges {
      assert q[k] == p[i + k] && q[k + 1] == p[i + k + 1];
    }
  }

  lemma JoinPaths(edges: set<Edge>, p: seq<TaskId>, q: seq<TaskId>, a: TaskId, b: TaskId, c: TaskId)
    requires PathFrom(edges, p, a, b) && PathFrom(edges, q, b, c)
    ensures PathFrom(edges, p + q[1..], a, c)
  {
    var r := p + q[1..];
    forall k | 0 <= k < |r| - 1 ensures (r[k], r[k + 1]) in edges {
      if k >= |p| - 1 { assert r[k] == q[k - (|p| - 1)] && r[k + 1] == q[k + 1 - (|p| - 1)]; }
    }
  }

  lemma SomeNew(edges: set<Edge>, edges': set<Edge>, p: seq<TaskId>) returns (k: nat)
    requires Acyclic(edges) && Path(edges', p) && |p| >= 2 && p[0] == p[|p| - 1]
    ensures k < |p| - 1 && (p[k], p[k + 1]) !in edges
  {
    if forall k :: 0 <= k < |p| - 1 ==> (p[k], p[k + 1]) in edges {
      assert Path(edges, p);
    }
    k :| k < |p| - 1 && (p[k], p[k + 1]) !in edges;
  }

  lemma ReachesBy(edges: set<Edge>, p: seq<TaskId>, a: TaskId, b: TaskId)
    requires PathFrom(edges, p, a, b)
    ensures Reaches(edges, a, b)
  {
    hide PathFrom;
  }

  /** A cycle through a new edge closes a path from its head back to its tail. */
  lemma CycleThrough(edges: set<Edge>, a: TaskId, b: TaskId, p: seq<TaskId>)
    requires Acyclic(edges) && Path(edges + {(a, b)}, p) && |p| >= 2 && p[0] == p[|p| - 1]
    ensures Reaches(edges, b, a)
  {
    hide *;
    var n := |p| - 1;
    var k := SomeNew(edges, edges + {(a, b)}, p);
    var i := FirstNew(edges, a, b, p, k);
    var j := LastNew(edges, a, b, p, k);
    var back, forth := p[j + 1..n + 1], p[0..i + 1];
    SubPath(edges, edges + {(a, b)}, p, 0, i);
    SubPath(edges, edges + {(a, b)}, p, j + 1, n);
    JoinPaths(edges, back, forth, b, p[0], a);
    ReachesBy(edges, back + forth[1..], b, a);
  }

  lemma {:induction false} FirstNew(edges: set<Edge>, a: TaskId, b: TaskId, p: seq<TaskId>, k: nat) returns (i: nat)
    requires Path(edges + {(a, b)}, p) && k < |p| - 1 && (p[k], p[k + 1]) !in edges
    ensures i <= k && p[i] == a && p[i + 1] == b
    ensures forall m :: 0 <= m < i ==> (p[m], p[m + 1]) in edges
    decreases k
  {
    if m :| 0 <= m < k && (p[m], p[m + 1]) !in edges {
      i := FirstNew(edges, a, b, p, m);
    } else {
      i := k;
    }
  }

  lemma {:induction false} LastNew(edges: set<Edge>, a: TaskId, b: TaskId, p: seq<TaskId>, k: nat) returns (j: nat)
    requires Path(edges + {(a, b)}, p) && k < |p| - 1 && (p[k], p[k + 1]) !in edges
    ensures k <= j < |p| - 1 && p[j] == a && p[j + 1] == b
    ensures forall m :: j < m < |p| - 1 ==> (p[m], p[m + 1]) in edges
    decreases |p| - k
  {
    if m :| k < m < |p| - 1 && (p[m], p[m + 1]) !in edges {
      j := LastNew(edges, a, b, p, m);
    } else {
      j := k;
    }
  }

  /** An edge keeps an acyclic graph acyclic exactly when its head does not already reach its
      tail: the test of `would_create_cycle`, self-edges included. */
  lemma EdgeKeepsAcyclicExactly(edges: set<Edge>, a: TaskId, b: TaskId)
    requires Acyclic(edges)
    ensures Acyclic(edges + {(a, b)}) <==> !Reaches(edges, b, a)
  {
    var more := edges + {(a, b)};
    if Reaches(edges, b, a) {
      var p :| PathFrom(edges, p, b, a);
      var q := [a] + p;
      assert forall k :: 0 <= k < |q| - 1 ==> (q[k], q[k + 1]) in more;
      assert Path(more, q);
    } else {
      forall p | Path(more, p) && |p| >= 2 ensures p[0] != p[|p| - 1] {
        if p[0] == p[|p| - 1] { CycleThrough(edges, a, b, p); }
      }
    }
  }

  lemma FewerEdgesAcyclic(edges: set<Edge>, fewer: set<Edge>)
    requires Acyclic(edges) && fewer <= edges
    ensures Acyclic(fewer)
  {
    forall p | Path(fewer, p) && |p| >= 2 ensures p[0] != p[|p| - 1] {
      assert Path(edges, p);
    }
  }

  // ---- the writes, one SQL statement each ----

  function IdsOf(tasks: seq<Task>): set<TaskId> { set t | t in tasks :: t.id }

  function MaxPosition(tasks: seq<Task>): int {
    if tasks == [] then 0
    else if |tasks| == 1 then tasks[0].position
    else
      var m, last := MaxPosition(tasks[..|tasks| - 1]), tasks[|tasks| - 1].position;
      if m < last then last else m
  }

  /** The rows whose id is in `ids`, in order. */
  function Keep(tasks: seq<Task>, ids: set<TaskId>): seq<Task> {
    if tasks == [] then []
    else
      var last := tasks[|tasks| - 1];
      Keep(tasks[..|tasks| - 1], ids) + if last.id in ids then [last] else []
  }

  function Without(tasks: seq<Task>, id: TaskId): seq<Task> {
    if tasks == [] then []
    else
      var last := tasks[|tasks| - 1];
      Without(tasks[..|tasks| - 1], id) + if last.id == id then [] else [last]
  }

  datatype Write =
    | Create(id: TaskId, title: string)
    | Link(blocker: TaskId, blocked: TaskId)
    | Unlink(blocker: TaskId, blocked: TaskId)
    | CutEdges(id: TaskId)
    | CutRow(id: TaskId)

  /** What `link_dependency` checks, with the insert right behind it. */
  ghost predicate Linkable(d: Dag, blocker: TaskId, blocked: TaskId) {
    blocker != blocked && blocker in IdsOf(d.tasks) && blocked in IdsOf(d.tasks) && !Reaches(d.edges, blocked, blocker)
  }

  /** `delete_task` is `CutEdges` and then `CutRow`; the foreign keys refuse the row while an
      edge still names it. */
  ghost function Written(d: Dag, w: Write): Dag {
    match w
    case Create(id, title) =>
      if Trim(title) == "" then d else d.(tasks := d.tasks + [Task(id, Trim(title), MaxPosition(d.tasks) + 1)])
    case Link(a, b) => if Linkable(d, a, b) then d.(edges := d.edges + {(a, b)}) else d
    case Unlink(a, b) => d.(edges := d.edges - {(a, b)})
    case CutEdges(id) => d.(edges := set e | e in d.edges && e.0 != id && e.1 != id)
    case CutRow(id) => if Named(d.edges, id) then d else d.(tasks := Without(d.tasks, id))
  }

  predicate Named(edges: set<Edge>, id: TaskId) { exists e :: e in edges && (e.0 == id || e.1 == id) }

  /** Edges join tasks of the epic. */
  predicate EdgesInside(d: Dag) { forall e :: e in d.edges ==> e.0 in IdsOf(d.tasks) && e.1 in IdsOf(d.tasks) }

  ghost function AllWritten(d: Dag, ws: seq<Write>): Dag {
    if ws == [] then d else Written(AllWritten(d, ws[..|ws| - 1]), ws[|ws| - 1])
  }

  lemma WriteKeepsAcyclic(d: Dag, w: Write)
    requires Acyclic(d.edges)
    ensures Acyclic(Written(d, w).edges)
  {
    if w.Link? {
      EdgeKeepsAcyclicExactly(d.edges, w.blocker, w.blocked);
    } else {
      FewerEdgesAcyclic(d.edges, Written(d, w).edges);
    }
  }

  /** Whatever is created, linked, unlinked and deleted, the dependencies stay acyclic. */
  lemma {:induction false} WritesKeepAcyclic(d: Dag, ws: seq<Write>)
    requires Acyclic(d.edges)
    ensures Acyclic(AllWritten(d, ws).edges)
  {
    hide Acyclic;
    hide Written;
    if ws != [] {
      WritesKeepAcyclic(d, ws[..|ws| - 1]);
      WriteKeepsAcyclic(AllWritten(d, ws[..|ws| - 1]), ws[|ws| - 1]);
    }
  }

  // ---- keeping only some tasks ----

  /** The given tasks and the edges among them. */
  function Restricted(d: Dag, ids: set<TaskId>): Dag {
    Dag(Keep(d.tasks, ids), set e | e in d.edges && e.0 in ids && e.1 in ids)
  }

  lemma {:induction false} KeepAll(tasks: seq<Task>, ids: set<TaskId>)
    requires IdsOf(tasks) <= ids
    ensures Keep(tasks, ids) == tasks
  {
    if tasks != [] {
      var head, last := tasks[..|tasks| - 1], tasks[|tasks| - 1];
      assert last in tasks && last.id in IdsOf(tasks);
      assert forall t :: t in head ==> t in tasks;
      assert tasks == head + [last];
      KeepAll(head, ids);
    }
  }

  lemma {:induction false} KeepNone(tasks: seq<Task>)
    ensures Keep(tasks, {}) == []
  {
    if tasks != [] { KeepNone(tasks[..|tasks| - 1]); }
  }

  lemma NoneRestricted(dag: Dag)
    ensures Restricted(dag, {}) == Dag([], {})
  {
    KeepNone(dag.tasks);
  }

  lemma {:induction false} KeepWithout(tasks: seq<Task>, ids: set<TaskId>, id: TaskId)
    ensures Keep(Without(tasks, id), ids) == Without(Keep(tasks, ids), id)
    ensures id !in ids ==> Keep(Without(tasks, id), ids) == Keep(tasks, ids)
  {
    if tasks != [] {
      var head, last := tasks[..|tasks| - 1], tasks[|tasks| - 1];
      KeepWithout(head, ids, id);
      AppendRow(Without(head, id), last, ids, id);
      AppendRow(Keep(head, ids), last, ids, id);
      assert Without(head, id) + [] == Without(head, id) && Keep(head, ids) + [] == Keep(head, ids);
    }
  }

  lemma AppendRow(tasks: seq<Task>, t: Task, ids: set<TaskId>, id: TaskId)
    ensures Keep(tasks + [t], ids) == Keep(tasks, ids) + if t.id in ids then [t] else []
    ensures Without(tasks + [t], id) == Without(tasks, id) + if t.id == id then [] else [t]
  {
    assert (tasks + [t])[..|tasks|] == tasks;
  }

  lemma {:induction false} WithoutIds(tasks: seq<Task>, id: TaskId)
    ensures IdsOf(Without(tasks, id)) == IdsOf(tasks) - {id}
  {
    if tasks != [] {
      var head, last := tasks[..|tasks| - 1], tasks[|tasks| - 1];
      WithoutIds(head, id);
      assert tasks == head + [last];
      IdsAppend(head, last);
      IdsAppend(Without(head, id), last);
      assert Without(head, id) + [] == Without(head, id);
    }
  }

  lemma IdsAppend(tasks: seq<Task>, t: Task)
    ensures IdsOf(tasks + [t]) == IdsOf(tasks) + {t.id}
  {
    assert t in tasks + [t];
    assert forall x :: x in tasks ==> x in tasks + [t];
  }

  /** What a write does to the tasks kept, `pre` being theirs: a new task and its links do not
      show, everything else happens to them just the same. */
  ghost function WrittenAmong(kept: Dag, pre: set<TaskId>, d: Dag, w: Write): Dag {
    match w
    case Create(_, _) => kept
    case Link(a, b) => if Linkable(d, a, b) && a in pre && b in pre then kept.(edges := kept.edges + {(a, b)}) else kept
    case Unlink(a, b) => kept.(edges := kept.edges - {(a, b)})
    case CutEdges(id) => kept.(edges := set e | e in kept.edges && e.0 != id && e.1 != id)
    case CutRow(id) => if Named(d.edges, id) then kept else kept.(tasks := Without(kept.tasks, id))
  }

  lemma RestrictedWritten(d: Dag, pre: set<TaskId>, w: Write)
    requires w.Create? ==> w.id !in pre
    ensures Restricted(Written(d, w), pre) == WrittenAmong(Restricted(d, pre), pre, d, w)
  {
    hide Linkable;
    hide Trim;
    hide Named;
    match w
    case Create(id, title) =>
      AppendRow(d.tasks, Task(id, Trim(title), MaxPosition(d.tasks) + 1), pre, id);
      assert Keep(d.tasks, pre) + [] == Keep(d.tasks, pre);
    case CutRow(id) => KeepWithout(d.tasks, pre, id);
    case _ =>
  }

  /** Deleting a task that is not kept, by either statement, leaves the kept part alone. */
  lemma CutOutside(d: Dag, pre: set<TaskId>, id: TaskId)
    requires id !in pre
    ensures Restricted(Written(d, CutEdges(id)), pre) == Restricted(d, pre)
    ensures Restricted(Written(d, CutRow(id)), pre) == Restricted(d, pre)
  {
    KeepWithout(d.tasks, pre, id);
  }

  lemma WriteKeepsEdgesInside(d: Dag, w: Write)
    requires EdgesInside(d)
    ensures EdgesInside(Written(d, w))
  {
    hide Trim;
    if w.Create? {
      IdsAppend(d.tasks, Task(w.id, Trim(w.title), MaxPosition(d.tasks) + 1));
      hide IdsOf;
    } else if w.CutRow? {
      WithoutIds(d.tasks, w.id);
      hide IdsOf;
    }
  }

  // ---- where a new task stands ----

  lemma {:induction false} MaxPositionIs(tasks: seq<Task>)
    ensures tasks == [] ==> MaxPosition(tasks) == 0
    ensures forall k :: 0 <= k < |tasks| ==> tasks[k].position <= MaxPosition(tasks)
    ensures tasks != [] ==> exists k :: 0 <= k < |tasks| && tasks[k].position == MaxPosition(tasks)
  {
    if |tasks| == 1 {
      assert tasks[0].position == MaxPosition(tasks);
    } else if tasks != [] {
      var before, last := tasks[..|tasks| - 1], tasks[|tasks| - 1];
      MaxPositionIs(before);
      assert forall k :: 0 <= k < |before| ==> tasks[k] == before[k];
      var j :| 0 <= j < |before| && before[j].position == MaxPosition(before);
      assert tasks[j].position == MaxPosition(before) && tasks[|tasks| - 1] == last;
    }
  }

  /** A new task takes the place right behind the last, the first when there is none; one with a blank
      title is not made. */
  lemma NewTaskComesLast(d: Dag, id: TaskId, title: string)
    ensures Trim(title) == "" ==> Written(d, Create(id, title)) == d
    ensures var t := Written(d, Create(id, title));
            Trim(title) != "" ==>
            && t.edges == d.edges && |t.tasks| == |d.tasks| + 1 && t.tasks[..|d.tasks|] == d.tasks
            && var task := t.tasks[|d.tasks|];
               && task.id == id && task.title == Trim(title)
               && (d.tasks == [] ==> task.position == 1)
               && (forall k :: 0 <= k < |d.tasks| ==> d.tasks[k].position < task.position)
               && (d.tasks != [] ==> exists k :: 0 <= k < |d.tasks| && d.tasks[k].position + 1 == task.position)
  {
    MaxPositionIs(d.tasks);
    hide Trim;
    hide MaxPosition;
    if d.tasks != [] {
      var k :| 0 <= k < |d.tasks| && d.tasks[k].position == MaxPosition(d.tasks);
      assert d.tasks[k].position + 1 == MaxPosition(d.tasks) + 1;
    }
  }

  /** What each write does to an edge: a link adds its own, where both tasks are there, differ, and the
      second does not reach the first; an unlink drops its own, and the cut of a task those that touch
      it. */
  lemma EdgesExactly(d: Dag, w: Write, e: Edge)
    ensures e in Written(d, w).edges <==>
              match w
              case Link(a, b) =>
                e in d.edges
                || (e == (a, b) && a != b && a in IdsOf(d.tasks) && b in IdsOf(d.tasks) && !Reaches(d.edges, b, a))
              case Unlink(a, b) => e in d.edges && e != (a, b)
              case CutEdges(id) => e in d.edges && e.0 != id && e.1 != id
              case _ => e in d.edges
  {
    hide Reaches;
    hide IdsOf;
    hide Trim;
    hide MaxPosition;
    hide Without;
    hide Named;
  }

  /** A task's row goes only once no edge names it. */
  lemma RowGoesExactly(d: Dag, id: TaskId, task: Task)
    ensures task in Written(d, CutRow(id)).tasks <==>
              task in d.tasks && (task.id != id || exists e :: e in d.edges && (e.0 == id || e.1 == id))
  {
    WithoutRows(d.tasks, id, task);
    hide Without;
  }

  lemma {:induction false} WithoutRows(tasks: seq<Task>, id: TaskId, task: Task)
    ensures task in Without(tasks, id) <==> task in tasks && task.id != id
  {
    if tasks != [] {
      var head, last := tasks[..|tasks| - 1], tasks[|tasks| - 1];
      WithoutRows(head, id, task);
      assert tasks == head + [last];
    }
  }
}
