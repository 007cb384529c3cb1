/** Dependency links cut at their statements: the reads of the two tasks, the cycle search query by
    query, and then the insert, with anything in between. */
module LinkProtocol {
  import opened TaskGraph
  import opened Text

  type Client = nat

  /** A link whose search goes on; with nothing left on its stack it is about to insert. */
  datatype Pc = Idle | Searching(blocker: TaskId, blocked: TaskId, stack: seq<TaskId>, seen: set<TaskId>)

  datatype Server = Server(dag: Dag, clients: map<Client, Pc>)

  /** A visit names the rows of its query, in the order they come. */
  datatype Event =
    | Ask(c: Client, blocker: TaskId, blocked: TaskId)
    | Visit(c: Client, rows: seq<TaskId>)
    | Insert(c: Client)
    | Drop(c: Client)
    | Other(write: Write)

  function PcOf(s: Server, c: Client): Pc { if c in s.clients then s.clients[c] else Idle }

  function Goto(s: Server, c: Client, pc: Pc): Server { s.(clients := s.clients[c := pc]) }

  predicate BothThere(d: Dag, a: TaskId, b: TaskId) { a in IdsOf(d.tasks) && b in IdsOf(d.tasks) }

  ghost predicate Lists(rows: seq<TaskId>, ids: set<TaskId>) { forall x :: x in rows <==> x in ids }

  /** One turn of the search: the node on top is the blocker, was seen, or is queried. */
  function Visited(s: Server, c: Client, pc: Pc, rows: seq<TaskId>): Server
    requires pc.Searching? && pc.stack != []
  {
    var node, rest := pc.stack[|pc.stack| - 1], pc.stack[..|pc.stack| - 1];
    if node == pc.blocker then Goto(s, c, Idle)
    else if node in pc.seen then Goto(s, c, pc.(stack := rest))
    else Goto(s, c, pc.(stack := rest + rows, seen := pc.seen + {node}))
  }

  predicate ReadyToInsert(pc: Pc) { pc.Searching? && pc.stack == [] }

  /** The insert; the foreign keys refuse an edge whose task is gone. */
  function Inserted(d: Dag, a: TaskId, b: TaskId): Dag {
    if BothThere(d, a, b) then d.(edges := d.edges + {(a, b)}) else d
  }

  ghost function Step(s: Server, e: Event): Server {
    match e
    case Ask(c, a, b) =>
      if PcOf(s, c).Idle? && a != b && BothThere(s.dag, a, b) then Goto(s, c, Searching(a, b, [b], {})) else s
    case Visit(c, rows) =>
      var pc := PcOf(s, c);
      if pc.Searching? && pc.stack != [] && Lists(rows, Successors(s.dag.edges, pc.stack[|pc.stack| - 1]))
      then Visited(s, c, pc, rows) else s
    case Insert(c) =>
      var pc := PcOf(s, c);
      if ReadyToInsert(pc) then Goto(s.(dag := Inserted(s.dag, pc.blocker, pc.blocked)), c, Idle) else s
    case Drop(c) => Goto(s, c, Idle)
    case Other(w) => if w.Link? then s else s.(dag := Written(s.dag, w))
  }

  function Start(): Server { Server(Dag([], {}), map[]) }

  ghost function Run(s: Server, events: seq<Event>): Server
    decreases |events|
  {
    if events == [] then s else Step(Run(s, events[..|events| - 1]), events[|events| - 1])
  }

  lemma RunOne(s: Server, events: seq<Event>, e: Event)
    ensures Run(s, events + [e]) == Step(Run(s, events), e)
  {
    hide Step;
    assert (events + [e])[..|events|] == events;
  }

  lemma RunTwo(s: Server, events: seq<Event>, a: Event, b: Event)
    ensures Run(s, events + [a, b]) == Step(Step(Run(s, events), a), b)
  {
    hide *;
    RunOne(s, events, a);
    RunOne(s, events + [a], b);
    assert events + [a, b] == events + [a] + [b];
  }

  lemma {:induction false} RunSplits(s: Server, xs: seq<Event>, ys: seq<Event>)
    ensures Run(s, xs + ys) == Run(Run(s, xs), ys)
  {
    if ys == [] {
      assert xs + ys == xs;
      assert Run(Run(s, xs), ys) == Run(s, xs);
    } else {
      var head, last := ys[..|ys| - 1], ys[|ys| - 1];
      hide *;
      RunSplits(s, xs, head);
      RunOne(s, xs + head, last);
      RunOne(Run(s, xs), head, last);
      assert head + [last] == ys && xs + head + [last] == xs + ys;
    }
  }

  // ---- a link alone ----

  /** What the search has found out on edges that nobody changes. */
  ghost predicate SearchOk(edges: set<Edge>, a: TaskId, b: TaskId, stack: seq<TaskId>, seen: set<TaskId>) {
    && (forall x :: x in stack || x in seen ==> Reaches(edges, b, x))
    && seen <= Nodes(edges) + {b} && (forall x :: x in stack ==> x in Nodes(edges) + {b})
    && a !in seen && (b in stack || b in seen)
    && forall e :: e in edges && e.0 in seen ==> e.1 in seen || e.1 in stack
  }

  lemma {:induction false} ListOf(ids: set<TaskId>) returns (rows: seq<TaskId>)
    ensures Lists(rows, ids)
    decreases ids
  {
    if ids == {} {
      rows := [];
    } else {
      var x :| x in ids;
      rows := ListOf(ids - {x});
      rows := rows + [x];
    }
  }

  lemma VisitKeepsOk(edges: set<Edge>, a: TaskId, b: TaskId, rest: seq<TaskId>, node: TaskId, seen: set<TaskId>,
                     rows: seq<TaskId>)
    requires SearchOk(edges, a, b, rest + [node], seen) && node != a && Lists(rows, Successors(edges, node))
    ensures node in seen ==> SearchOk(edges, a, b, rest, seen)
    ensures node !in seen ==> SearchOk(edges, a, b, rest + rows, seen + {node})
  {
    forall x ensures x in rest + [node] <==> x in rest || x == node {}
    forall x | x in rows ensures x in Nodes(edges) && Reaches(edges, b, x) {
      SuccessorIs(edges, node, x);
      ReachesOneMore(edges, b, node, x);
    }
    forall e | e in edges && e.0 == node ensures e.1 in rows {
      assert e == (node, e.1);
      SuccessorIs(edges, node, e.1);
    }
    hide Reaches;
    hide Successors;
    hide Nodes;
  }

  /** The search ends, on the answer whether the blocked task reaches the blocker. */
  lemma {:induction false} SearchEnds(s: Server, c: Client, a: TaskId, b: TaskId, stack: seq<TaskId>, seen: set<TaskId>)
    returns (events: seq<Event>)
    requires PcOf(s, c) == Searching(a, b, stack, seen) && SearchOk(s.dag.edges, a, b, stack, seen)
    ensures var t := Run(s, events);
            && t.dag == s.dag
            && if Reaches(s.dag.edges, b, a) then PcOf(t, c) == Idle
               else ReadyToInsert(PcOf(t, c)) && PcOf(t, c).blocker == a && PcOf(t, c).blocked == b
    decreases Nodes(s.dag.edges) + {b} - seen, |stack|
  {
    var edges := s.dag.edges;
    if stack == [] {
      events := [];
      ClosedHolds(edges, seen, b);
      assert Run(s, []) == s;
    } else {
      var node, rest := stack[|stack| - 1], stack[..|stack| - 1];
      assert rest + [node] == stack && node in stack;
      var rows := ListOf(Successors(edges, node));
      var s1 := Step(s, Visit(c, rows));
      RunIsStep(s, Visit(c, rows));
      if node == a {
        events := [Visit(c, rows)];
      } else {
        VisitKeepsOk(edges, a, b, rest, node, seen, rows);
        var all := Nodes(edges) + {b};
        assert node !in seen ==> node in all - seen && node !in all - (seen + {node});
        hide SearchOk;
        hide Reaches;
        hide Run;
        var rest1, seen1 := if node in seen then rest else rest + rows, if node in seen then seen else seen + {node};
        var more := SearchEnds(s1, c, a, b, rest1, seen1);
        events := [Visit(c, rows)] + more;
        RunSplits(s, [Visit(c, rows)], more);
      }
    }
  }

  lemma RunIsStep(s: Server, e: Event)
    ensures Run(s, [e]) == Step(s, e)
  {
    hide Step;
    assert [e][..0] == [];
    assert Run(s, []) == s;
  }

  lemma SearchBegins(edges: set<Edge>, a: TaskId, b: TaskId)
    ensures SearchOk(edges, a, b, [b], {})
  {
    assert PathFrom(edges, [b], b, b);
    assert Reaches(edges, b, b);
    hide Reaches;
  }

  lemma LinkIs(d: Dag, a: TaskId, b: TaskId)
    ensures Written(d, Link(a, b)) ==
            if a != b && BothThere(d, a, b) && !Reaches(d.edges, b, a) then d.(edges := d.edges + {(a, b)}) else d
  {
    hide Reaches;
    hide IdsOf;
  }

  lemma InsertIs(s: Server, c: Client)
    ensures Step(s, Insert(c)).dag ==
            if ReadyToInsert(PcOf(s, c)) then Inserted(s.dag, PcOf(s, c).blocker, PcOf(s, c).blocked) else s.dag
  {
    hide IdsOf;
    hide Inserted;
  }

  /** A link that runs alone does what the link of `TaskGraph` does in one step. */
  lemma AloneIsLink(s: Server, c: Client, a: TaskId, b: TaskId) returns (visits: seq<Event>)
    requires PcOf(s, c).Idle?
    ensures Run(s, [Ask(c, a, b)] + visits + [Insert(c)]).dag == Written(s.dag, Link(a, b))
  {
    var ask := Ask(c, a, b);
    var asked := Step(s, ask);
    visits := [];
    if a != b && BothThere(s.dag, a, b) {
      SearchBegins(s.dag.edges, a, b);
      assert PcOf(asked, c) == Searching(a, b, [b], {}) && asked.dag == s.dag;
      visits := SearchEnds(asked, c, a, b, [b], {});
    } else {
      assert asked == s && Run(s, []) == s;
    }
    var done := Run(asked, visits);
    assert done.dag == s.dag
      && (ReadyToInsert(PcOf(done, c)) <==> a != b && BothThere(s.dag, a, b) && !Reaches(s.dag.edges, b, a));
    hide Reaches;
    hide Run;
    hide Step;
    RunIsStep(s, ask);
    RunSplits(s, [ask], visits);
    RunOne(s, [ask] + visits, Insert(c));
    InsertIs(done, c);
    LinkIs(s.dag, a, b);
  }

  // ---- exactly the inserts that still fit ----

  /** An edge that is inserted still closes no path: its head does not reach its tail by now. */
  ghost predicate InsertFits(s: Server, e: Event) {
    e.Insert? && ReadyToInsert(PcOf(s, e.c)) && BothThere(s.dag, PcOf(s, e.c).blocker, PcOf(s, e.c).blocked) ==>
      !Reaches(s.dag.edges, PcOf(s, e.c).blocked, PcOf(s, e.c).blocker)
  }

  lemma StepKeepsAcyclicExactly(s: Server, e: Event)
    requires Acyclic(s.dag.edges)
    ensures Acyclic(Step(s, e).dag.edges) <==> InsertFits(s, e)
  {
    match e
    case Insert(c) =>
      if ReadyToInsert(PcOf(s, c)) { EdgeKeepsAcyclicExactly(s.dag.edges, PcOf(s, c).blocker, PcOf(s, c).blocked); }
    case Other(w) => WriteKeepsAcyclic(s.dag, w);
    case _ =>
    hide Acyclic;
    hide Reaches;
    hide Written;
    hide IdsOf;
    hide Linkable;
    hide Lists;
  }

  /** The dependencies are acyclic all along the run. */
  ghost predicate AlwaysAcyclic(events: seq<Event>)
    decreases |events|
  {
    Acyclic(Run(Start(), events).dag.edges) && (events == [] || AlwaysAcyclic(events[..|events| - 1]))
  }

  /** Every insert along the run still fits when it is made. */
  ghost predicate InsertsFit(events: seq<Event>)
    decreases |events|
  {
    events != [] ==>
      InsertsFit(events[..|events| - 1]) && InsertFits(Run(Start(), events[..|events| - 1]), events[|events| - 1])
  }

  /** Over every interleaving of links, unlinks, creations and deletions, their searches included:
      the dependencies stay acyclic throughout exactly when no insert was overtaken, that is, when
      its edge closes no path at the moment it is made. */
  lemma {:induction false} AlwaysAcyclicExactly(events: seq<Event>)
    ensures AlwaysAcyclic(events) <==> InsertsFit(events)
  {
    hide Step;
    hide InsertFits;
    if events == [] {
      NothingIsAcyclic();
    } else {
      var before := events[..|events| - 1];
      AlwaysAcyclicExactly(before);
      hide Acyclic;
      if AlwaysAcyclic(before) {
        StepKeepsAcyclicExactly(Run(Start(), before), events[|events| - 1]);
      }
    }
  }

  lemma NothingIsAcyclic()
    ensures Acyclic(Start().dag.edges)
  {
    var none: set<Edge> := {};
    forall p ensures Path(none, p) ==> |p| < 2 {
      assert |p| >= 2 ==> (p[0], p[0 + 1]) !in none;
    }
  }

  lemma NotAlways(events: seq<Event>)
    ensures AlwaysAcyclic(events) ==> Acyclic(Run(Start(), events).dag.edges)
  {
    hide Acyclic;
    hide Run;
  }

  // ---- two links that overlap ----

  lemma TrimX()
    ensures Trim("x") == "x"
  {
    TrimIs("", "x", "");
    assert "" + "x" + "" == "x";
  }

  lemma TwoTasks(a: TaskId, b: TaskId)
    ensures var t := Step(Step(Start(), Other(Create(a, "x"))), Other(Create(b, "x")));
            t.dag.edges == {} && IdsOf(t.dag.tasks) == {a, b} && t.clients == map[]
  {
    TrimX();
    hide Trim;
    hide MaxPosition;
    var t1 := Task(a, "x", MaxPosition([]) + 1);
    IdsAppend([], t1);
    assert IdsOf([]) == {} && [] + [t1] == [t1];
    var made := Step(Start(), Other(Create(a, "x")));
    assert made.dag == Dag([t1], {});
    IdsAppend([t1], Task(b, "x", MaxPosition([t1]) + 1));
    hide IdsOf;
  }

  /** Both links are asked for, and both searches find nothing. */
  lemma BothSearch(s: Server, a: TaskId, b: TaskId, c: Client, d: Client)
    requires a != b && c != d && s.dag.edges == {} && BothThere(s.dag, a, b) && s.clients == map[]
    ensures var asked := Step(Step(s, Ask(c, a, b)), Ask(d, b, a));
            var t := Step(Step(asked, Visit(c, [])), Visit(d, []));
            && t.dag == s.dag && PcOf(t, c) == Searching(a, b, [], {b}) && PcOf(t, d) == Searching(b, a, [], {a})
  {
    hide IdsOf;
    var asked := Step(Step(s, Ask(c, a, b)), Ask(d, b, a));
    assert PcOf(asked, c) == Searching(a, b, [b], {}) && PcOf(asked, d) == Searching(b, a, [a], {});
    assert Successors({}, a) == {} && Successors({}, b) == {};
    hide Successors;
    assert [b][..0] == [] && [a][..0] == [];
    var t1 := Step(asked, Visit(c, []));
    assert PcOf(t1, c) == Searching(a, b, [], {} + {b}) && PcOf(t1, d) == PcOf(asked, d);
  }

  lemma BothInsert(s: Server, a: TaskId, b: TaskId, c: Client, d: Client)
    requires c != d && s.dag.edges == {} && BothThere(s.dag, a, b)
    requires PcOf(s, c) == Searching(a, b, [], {b}) && PcOf(s, d) == Searching(b, a, [], {a})
    ensures Step(Step(s, Insert(c)), Insert(d)).dag.edges == {(a, b), (b, a)}
  {
    hide IdsOf;
    var s1 := Step(s, Insert(c));
    assert PcOf(s1, d) == PcOf(s, d);
  }

  lemma TwoWaysCycle(a: TaskId, b: TaskId)
    ensures !Acyclic({(a, b), (b, a)})
  {
    assert Path({(a, b), (b, a)}, [a, b, a]);
  }

  /** A run that closes a cycle: both links pass their search, and then both are inserted. */
  lemma OverlappingLinksCycle(a: TaskId, b: TaskId, c: Client, d: Client)
    requires a != b && c != d
    ensures var asked := [Other(Create(a, "x")), Other(Create(b, "x"))] + [Ask(c, a, b), Ask(d, b, a)];
            var events := asked + [Visit(c, []), Visit(d, [])] + [Insert(c), Insert(d)];
            var edges := Run(Start(), events).dag.edges;
            edges == {(a, b), (b, a)} && !Acyclic(edges) && !InsertsFit(events)
  {
    var made := [Other(Create(a, "x")), Other(Create(b, "x"))];
    var asked := made + [Ask(c, a, b), Ask(d, b, a)];
    var events := asked + [Visit(c, []), Visit(d, [])] + [Insert(c), Insert(d)];
    TwoTasks(a, b);
    assert Run(Start(), []) == Start() && [] + made == made;
    var t := Step(Step(Start(), made[0]), made[1]);
    assert BothThere(t.dag, a, b);
    hide *;
    BothSearch(t, a, b, c, d);
    RunTwo(Start(), [], made[0], made[1]);
    RunTwo(Start(), made, Ask(c, a, b), Ask(d, b, a));
    RunTwo(Start(), asked, Visit(c, []), Visit(d, []));
    BothInsert(Run(Start(), asked + [Visit(c, []), Visit(d, [])]), a, b, c, d);
    RunTwo(Start(), asked + [Visit(c, []), Visit(d, [])], Insert(c), Insert(d));
    TwoWaysCycle(a, b);
    AlwaysAcyclicExactly(events);
    NotAlways(events);
  }

  /** An edge comes by the insert of the link that names it, and by nothing else. */
  lemma EdgesComeByInsert(s: Server, e: Event, edge: Edge)
    requires edge !in s.dag.edges && edge in Step(s, e).dag.edges
    ensures e.Insert? && ReadyToInsert(PcOf(s, e.c)) && edge == (PcOf(s, e.c).blocker, PcOf(s, e.c).blocked)
  {
    if e.Other? { EdgesExactly(s.dag, e.write, edge); }
    hide Written;
    hide Lists;
    hide Reaches;
  }
}
