/** Unattended runs of map nodes: which nodes the engine drives, when a drained run counts as a
    report, and the fire, run and settle steps of many runs among people's edits. */
module AfkEngine {
  import opened RunEvents
  import opened Text

  // ---- which slot a node runs under ----

  datatype AfkSlot = Research | AfkTask

  function SlotForNode(kind: string, taskMode: Option<string>): Option<AfkSlot> {
    if kind == "research" then Some(Research)
    else if kind == "task" && taskMode == Some("afk") then Some(AfkTask)
    else None
  }

  // ---- the outcome of a stream ----

  function ErrorOf(events: seq<RunEvent>, k: nat): Option<string>
    requires k <= |events|
  {
    if k == 0 then None else if events[k - 1].Error? then Some(events[k - 1].message) else ErrorOf(events, k - 1)
  }

  /** Exit code and cancellation of the last exit. */
  function ExitOf(events: seq<RunEvent>, k: nat): (Option<int>, bool)
    requires k <= |events|
  {
    if k == 0 then (None, false)
    else if events[k - 1].Exited? then (events[k - 1].code, events[k - 1].cancelled)
    else ExitOf(events, k - 1)
  }

  datatype Reason = HarnessError(message: string) | WasCancelled | BadExit(code: int) | NoReport

  function FailureOf(events: seq<RunEvent>): Option<Reason> {
    var n := |events|;
    var exit := ExitOf(events, n);
    if ErrorOf(events, n).Some? then Some(HarnessError(ErrorOf(events, n).value))
    else if exit.1 then Some(WasCancelled)
    else if exit.0.Some? && exit.0.value != 0 then Some(BadExit(exit.0.value))
    else if Trim(TextOf(events, n)) == "" then Some(NoReport)
    else None
  }

  function ReportOf(events: seq<RunEvent>): string { Trim(TextOf(events, |events|)) }

  predicate LastExit(events: seq<RunEvent>, j: int) {
    0 <= j < |events| && events[j].Exited? && forall m :: j < m < |events| ==> !events[m].Exited?
  }

  lemma {:induction false} ErrorOfIs(events: seq<RunEvent>, k: nat)
    requires k <= |events|
    ensures ErrorOf(events, k).None? <==> forall j :: 0 <= j < k ==> !events[j].Error?
  {
    if k > 0 { ErrorOfIs(events, k - 1); }
  }

  lemma {:induction false} ExitOfIs(events: seq<RunEvent>, k: nat, j: int)
    requires k <= |events| && 0 <= j < k && events[j].Exited? && forall m :: j < m < k ==> !events[m].Exited?
    ensures ExitOf(events, k) == (events[j].code, events[j].cancelled)
  {
    if j < k - 1 { ExitOfIs(events, k - 1, j); }
  }

  lemma {:induction false} NoExit(events: seq<RunEvent>, k: nat)
    requires k <= |events| && forall j :: 0 <= j < k ==> !events[j].Exited?
    ensures ExitOf(events, k) == (None, false)
  {
    if k > 0 { NoExit(events, k - 1); }
  }

  predicate GoodExit(e: RunEvent) { e.Exited? && !e.cancelled && (e.code.None? || e.code.value == 0) }

  /** A run reports exactly when no error came, its last exit, if any, was neither cancelled nor
      non-zero, and its text is not blank. */
  lemma ReportsExactly(events: seq<RunEvent>)
    ensures FailureOf(events).None? <==>
              && (forall j :: 0 <= j < |events| ==> !events[j].Error?)
              && (forall j :: LastExit(events, j) ==> GoodExit(events[j]))
              && ReportOf(events) != ""
  {
    ErrorOfIs(events, |events|);
    var found, j := FindLastExit(events, |events|);
    FailureMeans(events);
    hide *;
    if found {
      LastExitIs(events, j);
    } else {
      NoLastExit(events);
    }
  }

  predicate LastError(events: seq<RunEvent>, j: int) {
    0 <= j < |events| && events[j].Error? && forall m :: j < m < |events| ==> !events[m].Error?
  }

  lemma {:induction false} LastErrorOf(events: seq<RunEvent>, k: nat, j: int)
    requires k <= |events| && 0 <= j < k && events[j].Error? && forall m :: j < m < k ==> !events[m].Error?
    ensures ErrorOf(events, k) == Some(events[j].message)
  {
    if j < k - 1 { LastErrorOf(events, k - 1, j); }
  }

  /** Why a run failed: a harness error before all else, and of several the last; then a cancel; then a
      code that is not zero; then a report that is missing. */
  lemma ReasonExactly(events: seq<RunEvent>, j: int, e: int)
    ensures LastError(events, e) ==> FailureOf(events) == Some(HarnessError(events[e].message))
    ensures (forall i :: 0 <= i < |events| ==> !events[i].Error?) && LastExit(events, j) ==>
              && (events[j].cancelled ==> FailureOf(events) == Some(WasCancelled))
              && (!events[j].cancelled && events[j].code.Some? && events[j].code.value != 0 ==>
                    FailureOf(events) == Some(BadExit(events[j].code.value)))
              && (GoodExit(events[j]) && ReportOf(events) == "" ==> FailureOf(events) == Some(NoReport))
  {
    ErrorOfIs(events, |events|);
    if LastError(events, e) { LastErrorOf(events, |events|, e); }
    if LastExit(events, j) { LastExitIs(events, j); }
    hide ErrorOf;
    hide ExitOf;
    hide Trim;
    hide TextOf;
  }

  lemma FailureMeans(events: seq<RunEvent>)
    ensures var exit := ExitOf(events, |events|);
            FailureOf(events).None? <==>
              ErrorOf(events, |events|).None? && !exit.1 && (exit.0.None? || exit.0.value == 0)
              && ReportOf(events) != ""
  {
    hide Trim;
    hide TextOf;
    hide ErrorOf;
    hide ExitOf;
  }

  lemma LastExitIs(events: seq<RunEvent>, j: int)
    requires LastExit(events, j)
    ensures forall i :: LastExit(events, i) ==> i == j
    ensures ExitOf(events, |events|) == (events[j].code, events[j].cancelled)
    ensures GoodExit(events[j]) <==> !events[j].cancelled && (events[j].code.None? || events[j].code.value == 0)
  {
    ExitOfIs(events, |events|, j);
    hide ExitOf;
  }

  lemma NoLastExit(events: seq<RunEvent>)
    requires forall j :: 0 <= j < |events| ==> !events[j].Exited?
    ensures ExitOf(events, |events|) == (None, false) && forall j :: !LastExit(events, j)
  {
    NoExit(events, |events|);
    hide ExitOf;
  }

  lemma {:induction false} FindLastExit(events: seq<RunEvent>, k: nat) returns (found: bool, j: nat)
    requires k <= |events| && forall m :: k <= m < |events| ==> !events[m].Exited?
    ensures found ==> LastExit(events, j)
    ensures !found ==> forall m :: 0 <= m < |events| ==> !events[m].Exited?
  {
    if k == 0 {
      found, j := false, 0;
    } else if events[k - 1].Exited? {
      found, j := true, k - 1;
    } else {
      found, j := FindLastExit(events, k - 1);
    }
  }

  class AfkOutcome {
    var text: string
    var sessionId: Option<string>
    var error: Option<string>
    var exitCode: Option<int>
    var cancelled: bool

    predicate Holds(events: seq<RunEvent>)
      reads this
    {
      && text == TextOf(events, |events|) && sessionId == SessionOf(events, |events|)
      && error == ErrorOf(events, |events|) && (exitCode, cancelled) == ExitOf(events, |events|)
    }

    constructor ()
      ensures Holds([])
    {
      text, sessionId, error, exitCode, cancelled := "", None, None, None, false;
    }

    /** `absorb`. */
    method Absorb(event: RunEvent, ghost events: seq<RunEvent>)
      requires Holds(events)
      modifies this
      ensures Holds(events + [event])
    {
      TextPrefix(events, event, |events|);
      OutcomePrefix(events, event, |events|);
      match event
      case Delta(delta) => text := text + delta;
      case Session(id) => if id.Some? { sessionId := id; }
      case Error(message) => error := Some(message);
      case Exited(code, wasCancelled) => exitCode, cancelled := code, wasCancelled;
      case _ =>
    }

    /** `failed`. */
    method Failed(ghost events: seq<RunEvent>) returns (reason: Option<Reason>)
      requires Holds(events)
      ensures reason == FailureOf(events)
    {
      hide Trim;
      if error.Some? {
        return Some(HarnessError(error.value));
      }
      if cancelled {
        return Some(WasCancelled);
      }
      if exitCode.Some? && exitCode.value != 0 {
        return Some(BadExit(exitCode.value));
      }
      if Trim(text) == "" {
        return Some(NoReport);
      }
      return None;
    }
  }

  lemma {:induction false} OutcomePrefix(events: seq<RunEvent>, e: RunEvent, k: nat)
    requires k <= |events|
    ensures ErrorOf(events + [e], k) == ErrorOf(events, k) && ExitOf(events + [e], k) == ExitOf(events, k)
  {
    if k > 0 { OutcomePrefix(events, e, k - 1); }
  }

  // ---- many runs, many nodes ----

  type NodeId = nat

  type Client = nat

  datatype NodeState = Open | InProgress | Resolved | OutOfScope

  datatype Node = Node(kind: string, taskMode: Option<string>, state: NodeState, gist: Option<string>)

  /** A resolved row of the activity feed: by a person, or by an unattended run. */
  datatype FeedRow = FeedRow(node: NodeId, human: bool, detail: Option<string>)

  datatype Pc =
    | Idle
    | Checked(node: NodeId, wasOpen: bool)
    | Locked(node: NodeId, wasOpen: bool)
    | Draining(node: NodeId, events: seq<RunEvent>)
    | Settling(node: NodeId, events: seq<RunEvent>)
    | Feeding(node: NodeId, report: string)
    | Replying(node: NodeId)

  /** `settles` lists the settles by runs; `lost` those whose run was dropped, or whose insert
      failed, before the feed row. A restart of the server is the drop of every client. */
  datatype Server = Server(
    nodes: map<NodeId, Node>, locks: map<NodeId, Client>, clients: map<Client, Pc>,
    feed: seq<FeedRow>, settles: seq<(NodeId, string)>, lost: seq<(NodeId, string)>)

  datatype Event =
    | Fire(c: Client, node: NodeId)
    | Acquire(c: Client)
    | Flip(c: Client)
    | Emit(c: Client, event: RunEvent)
    | Finish(c: Client)
    | Settle(c: Client, ok: bool)
    | Record(c: Client, ok: bool)
    | Reply(c: Client, node: NodeId)
    | Drop(c: Client)
    | HumanCreate(node: NodeId, row: Node)
    | HumanUpdate(node: NodeId, state: Option<NodeState>, gist: Option<Option<string>>)

  function At(clients: map<Client, Pc>, c: Client): Pc { if c in clients then clients[c] else Idle }

  function PcOf(s: Server, c: Client): Pc { At(s.clients, c) }

  predicate Holding(pc: Pc) { !pc.Idle? && !pc.Checked? }

  function Goto(s: Server, c: Client, pc: Pc): Server { s.(clients := s.clients[c := pc]) }

  function Release(s: Server, c: Client, n: NodeId): Server {
    s.(locks := s.locks - {n}, clients := s.clients[c := Idle])
  }

  predicate Settled(state: NodeState) { state == Resolved || state == OutOfScope }

  /** The fenced update: only an unsettled node takes the report. */
  predicate Settles(s: Server, n: NodeId) { n in s.nodes && !Settled(s.nodes[n].state) }

  function Patched(node: Node, state: Option<NodeState>, gist: Option<Option<string>>): Node {
    var node := if state.Some? then node.(state := state.value) else node;
    if gist.Some? then node.(gist := gist.value) else node
  }

  function Step(s: Server, e: Event): Server {
    match e
    case Fire(c, n) =>
      if PcOf(s, c).Idle? && n in s.nodes && SlotForNode(s.nodes[n].kind, s.nodes[n].taskMode).Some?
         && !Settled(s.nodes[n].state)
      then Goto(s, c, Checked(n, s.nodes[n].state == Open)) else s
    case Acquire(c) =>
      var pc := PcOf(s, c);
      if !pc.Checked? then s
      else if pc.node in s.locks then Goto(s, c, Idle)
      else Goto(s.(locks := s.locks[pc.node := c]), c, Locked(pc.node, pc.wasOpen))
    case Flip(c) =>
      var pc := PcOf(s, c);
      if !pc.Locked? then s
      else
        var flips := pc.wasOpen && pc.node in s.nodes && s.nodes[pc.node].state == Open;
        Goto(if flips then s.(nodes := s.nodes[pc.node := s.nodes[pc.node].(state := InProgress)]) else s,
             c, Draining(pc.node, []))
    case Emit(c, event) =>
      var pc := PcOf(s, c);
      if pc.Draining? then Goto(s, c, Draining(pc.node, pc.events + [event])) else s
    case Finish(c) =>
      var pc := PcOf(s, c);
      if !pc.Draining? then s
      else if FailureOf(pc.events).Some? then Release(s, c, pc.node)
      else Goto(s, c, Settling(pc.node, pc.events))
    case Settle(c, ok) =>
      var pc := PcOf(s, c);
      if !pc.Settling? then s
      else if ok && Settles(s, pc.node) then
        var report := ReportOf(pc.events);
        Goto(s.(nodes := s.nodes[pc.node := s.nodes[pc.node].(state := Resolved, gist := Some(report))],
                settles := s.settles + [(pc.node, report)]),
             c, Feeding(pc.node, report))
      else Release(s, c, pc.node)
    case Record(c, ok) =>
      var pc := PcOf(s, c);
      if !pc.Feeding? then s
      else if ok then Release(s.(feed := s.feed + [FeedRow(pc.node, false, Some(pc.report))]), c, pc.node)
      else Release(s.(lost := s.lost + [(pc.node, pc.report)]), c, pc.node)
    case Reply(c, n) =>
      if PcOf(s, c).Idle? && n in s.nodes && n !in s.locks
      then Goto(s.(locks := s.locks[n := c]), c, Replying(n)) else s
    case Drop(c) =>
      var pc := PcOf(s, c);
      if !Holding(pc) then Goto(s, c, Idle)
      else if pc.Feeding? then Release(s.(lost := s.lost + [(pc.node, pc.report)]), c, pc.node)
      else Release(s, c, pc.node)
    case HumanCreate(n, row) => if n in s.nodes then s else s.(nodes := s.nodes[n := row])
    case HumanUpdate(n, state, gist) =>
      if n !in s.nodes then s
      else
        var row := Patched(s.nodes[n], state, gist);
        s.(nodes := s.nodes[n := row],
           feed := if state == Some(Resolved) then s.feed + [FeedRow(n, true, row.gist)] else s.feed)
  }

  function Start(): Server { Server(map[], map[], map[], [], [], []) }

  function After(s: Server, events: seq<Event>): Server
    decreases |events|
  {
    if events == [] then s else Step(After(s, events[..|events| - 1]), events[|events| - 1])
  }

  // ---- what every run keeps ----

  /** Whoever works on a node holds its lock, and the lock has a worker. */
  predicate LockOk(locks: map<NodeId, Client>, clients: map<Client, Pc>) {
    && (forall c :: c in clients && Holding(clients[c]) ==> clients[c].node in locks && locks[clients[c].node] == c)
    && (forall n :: n in locks ==> Holding(At(clients, locks[n])) && At(clients, locks[n]).node == n)
  }

  /** A run that is about to settle drained a stream that counts as a report. */
  predicate ReportsOk(clients: map<Client, Pc>) {
    forall c :: c in clients && clients[c].Settling? ==> FailureOf(clients[c].events).None?
  }

  /** Settles of `n` with `report` whose feed row is still to be written. */
  function Pending(locks: map<NodeId, Client>, clients: map<Client, Pc>, n: NodeId, report: string): nat {
    if n in locks && At(clients, locks[n]) == Feeding(n, report) then 1 else 0
  }

  /** A client moves from `old` to `pc`, taking, keeping or giving up the lock as they say. */
  predicate Moves(s: Server, t: Server, c: Client, pc: Pc) {
    var was := PcOf(s, c);
    && t.clients == s.clients[c := pc]
    && (if Holding(was)
        then (if Holding(pc) then t.locks == s.locks && pc.node == was.node else t.locks == s.locks - {was.node})
        else (if Holding(pc) then pc.node !in s.locks && t.locks == s.locks[pc.node := c] else t.locks == s.locks))
    && (pc.Settling? ==> FailureOf(pc.events).None?)
  }

  lemma MoveKeepsOk(s: Server, t: Server, c: Client, pc: Pc)
    requires LockOk(s.locks, s.clients) && ReportsOk(s.clients) && Moves(s, t, c, pc)
    ensures LockOk(t.locks, t.clients) && ReportsOk(t.clients)
  {
    hide FailureOf;
  }

  lemma MovePending(s: Server, t: Server, c: Client, pc: Pc, n: NodeId, report: string)
    requires LockOk(s.locks, s.clients) && Moves(s, t, c, pc)
    ensures Pending(t.locks, t.clients, n, report) + (if PcOf(s, c) == Feeding(n, report) then 1 else 0)
         == Pending(s.locks, s.clients, n, report) + if pc == Feeding(n, report) then 1 else 0
  {
    hide FailureOf;
  }

  /** A person's edit leaves the workers alone. */
  predicate Human(e: Event) { e.HumanCreate? || e.HumanUpdate? }

  lemma HumanKeepsWorkers(s: Server, e: Event)
    requires Human(e)
    ensures Step(s, e).clients == s.clients && Step(s, e).locks == s.locks
    ensures Step(s, e).settles == s.settles && Step(s, e).lost == s.lost
    ensures forall n, detail ::
              multiset(Step(s, e).feed)[FeedRow(n, false, detail)] == multiset(s.feed)[FeedRow(n, false, detail)]
  {
  }

  /** Every other step moves one client, or nothing. */
  lemma StepMoves(s: Server, e: Event)
    requires !Human(e) && LockOk(s.locks, s.clients) && ReportsOk(s.clients)
    ensures Step(s, e) == s || Moves(s, Step(s, e), e.c, PcOf(Step(s, e), e.c))
  {
    hide FailureOf;
    hide ReportOf;
    hide SlotForNode;
    hide LockOk;
  }

  predicate Ok(s: Server) { LockOk(s.locks, s.clients) && ReportsOk(s.clients) }

  lemma StepKeepsOk(s: Server, e: Event)
    requires Ok(s)
    ensures Ok(Step(s, e))
  {
    if Human(e) {
      HumanKeepsWorkers(s, e);
      hide *;
      OkIs(s);
      OkIs(Step(s, e));
    } else {
      StepMoves(s, e);
      hide *;
      OkIs(s);
      OkIs(Step(s, e));
      if Step(s, e) != s { MoveKeepsOk(s, Step(s, e), e.c, PcOf(Step(s, e), e.c)); }
    }
  }

  lemma OkIs(s: Server)
    ensures Ok(s) <==> LockOk(s.locks, s.clients) && ReportsOk(s.clients)
  {
  }

  lemma {:induction false} RunKeepsOk(events: seq<Event>)
    ensures Ok(After(Start(), events))
  {
    if events != [] {
      RunKeepsOk(events[..|events| - 1]);
      hide Ok;
      hide Step;
      StepKeepsOk(After(Start(), events[..|events| - 1]), events[|events| - 1]);
    }
  }

  /** Two runs, or a run and a reply, are never at work on the same node. */
  lemma RunsNeverOverlap(events: seq<Event>, c: Client, d: Client)
    ensures var s := After(Start(), events);
            Holding(PcOf(s, c)) && Holding(PcOf(s, d)) && PcOf(s, c).node == PcOf(s, d).node ==> c == d
  {
    RunKeepsOk(events);
    hide After;
  }

  // ---- what a run does to the map ----

  /** The soft signal: open becomes in progress, nothing else. */
  predicate Flipped(before: Node, after: Node) { before.state == Open && after == before.(state := InProgress) }

  /** The settle: an unsettled node takes the trimmed text of a stream that counts as a report. */
  predicate TookReport(before: Node, after: Node, pc: Pc) {
    && pc.Settling? && FailureOf(pc.events).None? && !Settled(before.state)
    && after == before.(state := Resolved, gist := Some(ReportOf(pc.events)))
    && ReportOf(pc.events) != ""
  }

  /** All that any step but a person's edit does to the nodes: the lock holder's flip, and the
      lock holder's settle. */
  lemma OnlyFlipsAndSettles(s: Server, e: Event, n: NodeId)
    requires Ok(s) && !Human(e) && n in s.nodes
    ensures Step(s, e).nodes.Keys == s.nodes.Keys
    ensures var after := Step(s, e).nodes[n];
            || after == s.nodes[n]
            || (e.Flip? && Flipped(s.nodes[n], after) && n in s.locks && s.locks[n] == e.c)
            || (e.Settle? && TookReport(s.nodes[n], after, PcOf(s, e.c)) && n in s.locks && s.locks[n] == e.c)
  {
    hide SlotForNode;
    if e.Settle? && PcOf(s, e.c).Settling? {
      FailureMeans(PcOf(s, e.c).events);
    }
    hide FailureOf;
    hide ReportOf;
  }

  /** No run, however late, changes the state or gist of a settled node. */
  lemma SettledStays(s: Server, e: Event, n: NodeId)
    requires Ok(s) && !Human(e) && n in s.nodes && Settled(s.nodes[n].state)
    ensures n in Step(s, e).nodes && Step(s, e).nodes[n] == s.nodes[n]
  {
    OnlyFlipsAndSettles(s, e, n);
    hide Step;
    hide Ok;
    hide FailureOf;
  }

  /** What a run that never reports may do to its node, the soft signal, and nothing to the feed. */
  predicate OnlyFlips(s: Server, t: Server) {
    && t.feed == s.feed && t.settles == s.settles && t.lost == s.lost && t.nodes.Keys == s.nodes.Keys
    && forall n :: n in s.nodes ==> t.nodes[n] == s.nodes[n] || Flipped(s.nodes[n], t.nodes[n])
  }

  /** The event is a step of client `c`. */
  predicate StepOf(e: Event, c: Client) { !Human(e) && e.c == c }

  /** Every stream that `c` finishes along the run failed. */
  predicate StreamsFail(s: Server, events: seq<Event>, c: Client)
    decreases |events|
  {
    events != [] ==>
      StreamsFail(s, events[..|events| - 1], c)
      && FinishFails(After(s, events[..|events| - 1]), events[|events| - 1], c)
  }

  predicate FinishFails(s: Server, e: Event, c: Client) {
    e == Finish(c) && PcOf(s, c).Draining? ==> FailureOf(PcOf(s, c).events).Some?
  }

  /** Client `c` has nothing to report. */
  predicate Unreported(pc: Pc) { !pc.Settling? && !pc.Feeding? }

  lemma FailedStep(s: Server, e: Event, c: Client)
    requires Unreported(PcOf(s, c)) && FinishFails(s, e, c)
    ensures Unreported(PcOf(Step(s, e), c))
    ensures StepOf(e, c) ==> OnlyFlips(s, Step(s, e))
    ensures e == Finish(c) && PcOf(s, c).Draining? ==>
              Step(s, e).nodes == s.nodes && PcOf(Step(s, e), c).Idle? && PcOf(s, c).node !in Step(s, e).locks
  {
    hide FailureOf;
    hide ReportOf;
    hide SlotForNode;
  }

  /** Over any interleaving, as long as every stream a client finishes failed, none of its steps,
      of one run or of many, does more to the map than flip an open node to in progress, and none
      touches the feed; and the step that ends such a run frees its node. */
  lemma {:induction false} FailedRunsChangeNothing(s: Server, events: seq<Event>, c: Client)
    requires Unreported(PcOf(s, c)) && StreamsFail(s, events, c)
    ensures Unreported(PcOf(After(s, events), c))
    ensures forall k :: 0 <= k < |events| && StepOf(events[k], c) ==>
              OnlyFlips(After(s, events[..k]), Step(After(s, events[..k]), events[k]))
    ensures forall k :: 0 <= k < |events| && events[k] == Finish(c) && PcOf(After(s, events[..k]), c).Draining? ==>
              PcOf(After(s, events[..k]), c).node !in Step(After(s, events[..k]), events[k]).locks
  {
    hide Step;
    hide OnlyFlips;
    hide FinishFails;
    hide Unreported;
    if events != [] {
      var before := events[..|events| - 1];
      FailedRunsChangeNothing(s, before, c);
      FailedStep(After(s, before), events[|events| - 1], c);
      assert forall k :: 0 <= k < |before| ==> before[..k] == events[..k] && before[k] == events[k];
    }
  }

  // ---- one feed row for each settle ----

  predicate FeedOk(s: Server, n: NodeId, report: string) {
    multiset(s.settles)[(n, report)] ==
    multiset(s.feed)[FeedRow(n, false, Some(report))] + multiset(s.lost)[(n, report)]
    + Pending(s.locks, s.clients, n, report)
  }

  predicate KeepsLedger(s: Server, t: Server) { t.settles == s.settles && t.feed == s.feed && t.lost == s.lost }

  lemma LedgerAtSettle(s: Server, c: Client, ok: bool)
    ensures var t, pc := Step(s, Settle(c, ok)), PcOf(s, c);
            if pc.Settling? && ok && Settles(s, pc.node)
            then t.settles == s.settles + [(pc.node, ReportOf(pc.events))] && t.feed == s.feed && t.lost == s.lost
                 && PcOf(t, c) == Feeding(pc.node, ReportOf(pc.events))
            else KeepsLedger(s, t) && (t != s ==> pc.Settling? && PcOf(t, c).Idle?)
  {
    hide ReportOf;
    hide FailureOf;
  }

  lemma LedgerAtRecord(s: Server, c: Client, ok: bool)
    ensures var t, pc := Step(s, Record(c, ok)), PcOf(s, c);
            if pc.Feeding?
            then t.settles == s.settles && PcOf(t, c).Idle?
                 && t.feed == (if ok then s.feed + [FeedRow(pc.node, false, Some(pc.report))] else s.feed)
                 && t.lost == if ok then s.lost else s.lost + [(pc.node, pc.report)]
            else t == s
  {
  }

  lemma LedgerAtDrop(s: Server, c: Client)
    ensures var t, pc := Step(s, Drop(c)), PcOf(s, c);
            && t.settles == s.settles && t.feed == s.feed && PcOf(t, c).Idle?
            && t.lost == if pc.Feeding? then s.lost + [(pc.node, pc.report)] else s.lost
  {
  }

  lemma LedgerElsewhere(s: Server, e: Event)
    requires !Human(e) && !e.Settle? && !e.Record? && !e.Drop?
    ensures KeepsLedger(s, Step(s, e))
    ensures Step(s, e) != s ==> !PcOf(s, e.c).Feeding? && !PcOf(Step(s, e), e.c).Feeding?
  {
    hide ReportOf;
    hide FailureOf;
    hide SlotForNode;
  }

  /** The step that settles adds one to the settles, the one that records one to the feed. */
  lemma CountsMove(s: Server, e: Event, n: NodeId, report: string)
    requires !Human(e) && Step(s, e) != s
    ensures var t := Step(s, e);
            var was, now := PcOf(s, e.c), PcOf(t, e.c);
            && multiset(t.settles)[(n, report)] ==
                 multiset(s.settles)[(n, report)] + (if now == Feeding(n, report) && was != now then 1 else 0)
            && multiset(t.feed)[FeedRow(n, false, Some(report))] + multiset(t.lost)[(n, report)] ==
                 multiset(s.feed)[FeedRow(n, false, Some(report))] + multiset(s.lost)[(n, report)]
                 + (if was == Feeding(n, report) && was != now then 1 else 0)
  {
    match e
    case Settle(c, ok) => LedgerAtSettle(s, c, ok);
    case Record(c, ok) => LedgerAtRecord(s, c, ok);
    case Drop(c) => LedgerAtDrop(s, c);
    case _ => LedgerElsewhere(s, e);
    hide Step;
    hide ReportOf;
  }

  lemma StepKeepsFeedOk(s: Server, e: Event, n: NodeId, report: string)
    requires Ok(s) && FeedOk(s, n, report)
    ensures FeedOk(Step(s, e), n, report)
  {
    OkIs(s);
    if Human(e) {
      HumanKeepsWorkers(s, e);
      hide Step;
      hide Pending;
    } else if Step(s, e) != s {
      StepMoves(s, e);
      CountsMove(s, e, n, report);
      hide Step;
      hide LockOk;
      MovePending(s, Step(s, e), e.c, PcOf(Step(s, e), e.c), n, report);
      hide Pending;
      hide Moves;
    }
  }

  /** Over every run: the settles of a node are its unattended resolved rows in the feed, the
      rows lost to a drop or a failed insert, and at most one still to be written. */
  lemma {:induction false} EverySettleIsFed(events: seq<Event>, n: NodeId, report: string)
    ensures FeedOk(After(Start(), events), n, report)
  {
    if events != [] {
      var before := events[..|events| - 1];
      EverySettleIsFed(before, n, report);
      RunKeepsOk(before);
      hide Ok;
      hide FeedOk;
      hide Step;
      StepKeepsFeedOk(After(Start(), before), events[|events| - 1], n, report);
    }
  }

  // ---- the state is read before the lock is taken ----

  /** Whether the last event that set the state of `n` settled it: an edit that names a state, or
      the settle of a run on `n` that reached the database. */
  predicate SettledSince(s: Server, events: seq<Event>, n: NodeId)
    decreases |events|
  {
    events != [] &&
    var e := events[|events| - 1];
    var before := After(s, events[..|events| - 1]);
    if e.HumanUpdate? && e.node == n && e.state.Some? then Settled(e.state.value)
    else if e.Settle? && e.ok && PcOf(before, e.c).Settling? && PcOf(before, e.c).node == n then true
    else SettledSince(s, events[..|events| - 1], n)
  }

  lemma StateMoves(s: Server, e: Event, n: NodeId)
    requires n in s.nodes
    ensures n in Step(s, e).nodes
    ensures var after := Step(s, e).nodes[n].state;
            if e.HumanUpdate? && e.node == n && e.state.Some? then after == e.state.value
            else if e.Settle? && e.ok && PcOf(s, e.c).Settling? && PcOf(s, e.c).node == n then Settled(after)
            else Settled(after) <==> Settled(s.nodes[n].state)
  {
    hide SlotForNode;
    hide FailureOf;
    hide ReportOf;
  }

  /** From any state in which the node is unsettled, after any events, people's edits included, it
      is settled exactly when the last event that set its state settled it. */
  lemma {:induction false} SettledExactly(s: Server, events: seq<Event>, n: NodeId)
    requires n in s.nodes && !Settled(s.nodes[n].state)
    ensures n in After(s, events).nodes
    ensures Settled(After(s, events).nodes[n].state) <==> SettledSince(s, events, n)
  {
    hide Step;
    if events != [] {
      SettledExactly(s, events[..|events| - 1], n);
      StateMoves(After(s, events[..|events| - 1]), events[|events| - 1], n);
    }
  }

  /** A run that saw its node unsettled and then, whatever happened in between, takes the lock:
      the node is unsettled when the run starts exactly when the last event since that set its
      state did not settle it. */
  lemma StartsUnsettledExactly(s: Server, c: Client, n: NodeId, events: seq<Event>)
    requires PcOf(s, c).Idle? && PcOf(Step(s, Fire(c, n)), c).Checked?
    requires PcOf(After(Step(s, Fire(c, n)), events), c).Checked?
    requires PcOf(After(Step(s, Fire(c, n)), events), c).node == n
    ensures var checked := Step(s, Fire(c, n));
            var t := Step(After(checked, events), Acquire(c));
            && n in t.nodes
            && (PcOf(t, c).Locked? <==> n !in After(checked, events).locks)
            && (!Settled(t.nodes[n].state) <==> !SettledSince(checked, events, n))
  {
    hide SlotForNode;
    hide After;
    hide SettledSince;
    SettledExactly(Step(s, Fire(c, n)), events, n);
  }

  /** So a run can start on a node that has just been settled; what it then reports is refused. */
  lemma StartsOnSettledNode(s: Server, c: Client, n: NodeId, gist: string)
    requires n in s.nodes && n !in s.locks && s.nodes[n].state == Open && PcOf(s, c).Idle?
    requires SlotForNode(s.nodes[n].kind, s.nodes[n].taskMode).Some?
    ensures var t := Step(Step(Step(s, Fire(c, n)), HumanUpdate(n, Some(Resolved), Some(Some(gist)))), Acquire(c));
            && PcOf(t, c) == Locked(n, true) && t.nodes[n].state == Resolved
            && Step(t, Flip(c)).nodes == t.nodes
  {
    hide SlotForNode;
    var fired := Step(s, Fire(c, n));
    assert PcOf(fired, c) == Checked(n, true);
  }

  // ---- a whole run ----

  /** A node is fired exactly when it is research or an unattended task, and nobody settled it. */
  lemma FiresExactly(s: Server, c: Client, n: NodeId)
    requires PcOf(s, c).Idle?
    ensures var t := Step(s, Fire(c, n));
            && (PcOf(t, c).Checked? <==>
                  && n in s.nodes
                  && (s.nodes[n].kind == "research"
                      || (s.nodes[n].kind == "task" && s.nodes[n].taskMode == Some("afk")))
                  && (s.nodes[n].state == Open || s.nodes[n].state == InProgress))
            && (PcOf(t, c).Checked? ==> PcOf(t, c) == Checked(n, s.nodes[n].state == Open))
            && (!PcOf(t, c).Checked? ==> t == s) && t.nodes == s.nodes && t.locks == s.locks
  {
  }

  /** The client's stream, one event after the other. */
  function Streamed(s: Server, c: Client, stream: seq<RunEvent>): Server {
    if stream == [] then s else Step(Streamed(s, c, stream[..|stream| - 1]), Emit(c, stream[|stream| - 1]))
  }

  lemma {:induction false} StreamRuns(s: Server, c: Client, n: NodeId, stream: seq<RunEvent>)
    requires PcOf(s, c) == Draining(n, [])
    ensures var t := Streamed(s, c, stream);
            PcOf(t, c) == Draining(n, stream) && t == s.(clients := t.clients)
  {
    if stream != [] {
      var before, last := stream[..|stream| - 1], stream[|stream| - 1];
      StreamRuns(s, c, n, before);
      assert before + [last] == stream;
      hide Streamed;
      EmitStep(Streamed(s, c, before), c, n, before, last);
      hide Step;
      StreamedIs(s, c, stream);
    }
  }

  lemma StreamedIs(s: Server, c: Client, stream: seq<RunEvent>)
    requires stream != []
    ensures Streamed(s, c, stream) == Step(Streamed(s, c, stream[..|stream| - 1]), Emit(c, stream[|stream| - 1]))
  {
    hide Step;
  }

  lemma EmitStep(s: Server, c: Client, n: NodeId, before: seq<RunEvent>, event: RunEvent)
    requires PcOf(s, c) == Draining(n, before)
    ensures var t := Step(s, Emit(c, event));
            PcOf(t, c) == Draining(n, before + [event]) && t == s.(clients := t.clients)
  {
  }

  /** Locking and flipping: an open node shows as worked on, any other stays as it is. */
  lemma BeginsRun(s: Server, c: Client, n: NodeId)
    requires PcOf(s, c) == Checked(n, n in s.nodes && s.nodes[n].state == Open) && n in s.nodes && n !in s.locks
    ensures var t := Step(Step(s, Acquire(c)), Flip(c));
            && PcOf(t, c) == Draining(n, []) && t.locks == s.locks[n := c]
            && t.nodes == s.nodes[n := s.nodes[n].(
                 state := if s.nodes[n].state == Open then InProgress else s.nodes[n].state)]
            && t.feed == s.feed && t.settles == s.settles && t.lost == s.lost
  {
    assert PcOf(Step(s, Acquire(c)), c) == Locked(n, s.nodes[n].state == Open);
  }

  lemma FinishesGood(s: Server, c: Client, n: NodeId, stream: seq<RunEvent>)
    requires PcOf(s, c) == Draining(n, stream) && FailureOf(stream).None?
    ensures var t := Step(s, Finish(c)); PcOf(t, c) == Settling(n, stream) && t == s.(clients := t.clients)
  {
    hide FailureOf;
  }

  lemma SettlesGood(s: Server, c: Client, n: NodeId, stream: seq<RunEvent>)
    requires PcOf(s, c) == Settling(n, stream)
    requires n in s.nodes && (s.nodes[n].state == Open || s.nodes[n].state == InProgress)
    ensures var report := Trim(TextOf(stream, |stream|));
            var t := Step(s, Settle(c, true));
            && PcOf(t, c) == Feeding(n, report)
            && t.nodes == s.nodes[n := s.nodes[n].(state := Resolved, gist := Some(report))]
            && t.settles == s.settles + [(n, report)] && t.feed == s.feed && t.lost == s.lost && t.locks == s.locks
  {
    hide Trim;
    hide TextOf;
  }

  lemma RecordsGood(s: Server, c: Client, n: NodeId, report: string)
    requires PcOf(s, c) == Feeding(n, report)
    ensures var t := Step(s, Record(c, true));
            && PcOf(t, c) == Idle && t.nodes == s.nodes && t.locks == s.locks - {n}
            && t.feed == s.feed + [FeedRow(n, false, Some(report))] && t.settles == s.settles && t.lost == s.lost
  {
  }

  lemma EndsGood(s: Server, c: Client, n: NodeId, stream: seq<RunEvent>)
    requires PcOf(s, c) == Draining(n, stream) && FailureOf(stream).None?
    requires n in s.nodes && (s.nodes[n].state == Open || s.nodes[n].state == InProgress)
    ensures var report := Trim(TextOf(stream, |stream|));
            var t := Step(Step(Step(s, Finish(c)), Settle(c, true)), Record(c, true));
            && t.nodes == s.nodes[n := s.nodes[n].(state := Resolved, gist := Some(report))]
            && t.feed == s.feed + [FeedRow(n, false, Some(report))] && t.settles == s.settles + [(n, report)]
            && t.lost == s.lost && t.locks == s.locks - {n} && PcOf(t, c) == Idle
  {
    hide *;
    FinishesGood(s, c, n, stream);
    SettlesGood(Step(s, Finish(c)), c, n, stream);
    RecordsGood(Step(Step(s, Finish(c)), Settle(c, true)), c, n, Trim(TextOf(stream, |stream|)));
  }

  lemma EndsBadly(s: Server, c: Client, n: NodeId, stream: seq<RunEvent>)
    requires PcOf(s, c) == Draining(n, stream) && FailureOf(stream).Some?
    ensures var t := Step(s, Finish(c));
            && t == s.(clients := t.clients, locks := s.locks - {n}) && PcOf(t, c) == Idle
  {
    hide FailureOf;
  }

  /** A run that nobody disturbs: fired on an unsettled node that is free, it ends with the node settled,
      the trimmed text of its stream as the gist, and one row in the feed, if the stream was good. */
  lemma AloneRunSettles(s: Server, c: Client, n: NodeId, stream: seq<RunEvent>)
    requires PcOf(s, c).Idle? && n !in s.locks && PcOf(Step(s, Fire(c, n)), c).Checked?
    requires FailureOf(stream).None?
    ensures var t := Step(Streamed(Step(Step(Step(s, Fire(c, n)), Acquire(c)), Flip(c)), c, stream), Finish(c));
            var u := Step(Step(t, Settle(c, true)), Record(c, true));
            var report := Trim(TextOf(stream, |stream|));
            && n in s.nodes && u.nodes == s.nodes[n := s.nodes[n].(state := Resolved, gist := Some(report))]
            && u.feed == s.feed + [FeedRow(n, false, Some(report))] && u.locks == s.locks && PcOf(u, c) == Idle
  {
    hide *;
    var s3 := RunsToEnd(s, c, n, stream);
    EndsGood(s3, c, n, stream);
    FreedAgain(s.locks, n, c);
    var flipped := if s.nodes[n].state == Open then InProgress else s.nodes[n].state;
    SettledAfterFlip(s.nodes, n, flipped, Trim(TextOf(stream, |stream|)));
  }

  /** If the stream was not good, it ends with no more than an open node shown as worked on. */
  lemma AloneRunFails(s: Server, c: Client, n: NodeId, stream: seq<RunEvent>)
    requires PcOf(s, c).Idle? && n !in s.locks && PcOf(Step(s, Fire(c, n)), c).Checked?
    requires FailureOf(stream).Some?
    ensures var t := Step(Streamed(Step(Step(Step(s, Fire(c, n)), Acquire(c)), Flip(c)), c, stream), Finish(c));
            && n in s.nodes
            && t.nodes == s.nodes[n := s.nodes[n].(
                 state := if s.nodes[n].state == Open then InProgress else s.nodes[n].state)]
            && t.feed == s.feed && t.settles == s.settles && t.locks == s.locks && PcOf(t, c) == Idle
  {
    hide *;
    var s3 := RunsToEnd(s, c, n, stream);
    EndsBadly(s3, c, n, stream);
    FreedAgain(s.locks, n, c);
  }

  lemma SettledAfterFlip(nodes: map<NodeId, Node>, n: NodeId, state: NodeState, report: string)
    requires n in nodes
    ensures var flipped := nodes[n := nodes[n].(state := state)];
            flipped[n := flipped[n].(state := Resolved, gist := Some(report))]
            == nodes[n := nodes[n].(state := Resolved, gist := Some(report))]
  {
  }

  lemma FreedAgain(locks: map<NodeId, Client>, n: NodeId, c: Client)
    requires n !in locks
    ensures locks[n := c] - {n} == locks
  {
  }

  lemma RunsToEnd(s: Server, c: Client, n: NodeId, stream: seq<RunEvent>) returns (t: Server)
    requires PcOf(s, c).Idle? && n !in s.locks && PcOf(Step(s, Fire(c, n)), c).Checked?
    ensures t == Streamed(Step(Step(Step(s, Fire(c, n)), Acquire(c)), Flip(c)), c, stream)
    ensures n in s.nodes && (s.nodes[n].state == Open || s.nodes[n].state == InProgress)
    ensures PcOf(t, c) == Draining(n, stream) && t.locks == s.locks[n := c]
    ensures t.nodes == s.nodes[n := s.nodes[n].(
              state := if s.nodes[n].state == Open then InProgress else s.nodes[n].state)]
    ensures t.feed == s.feed && t.settles == s.settles && t.lost == s.lost
  {
    hide *;
    FiresExactly(s, c, n);
    FiredIs(s, c, n);
    var s1 := Step(s, Fire(c, n));
    BeginsRun(s1, c, n);
    var s2 := Step(Step(s1, Acquire(c)), Flip(c));
    StreamRuns(s2, c, n, stream);
    t := Streamed(s2, c, stream);
  }

  lemma FiredIs(s: Server, c: Client, n: NodeId)
    requires PcOf(s, c).Idle? && PcOf(Step(s, Fire(c, n)), c).Checked?
    ensures n in s.nodes && Step(s, Fire(c, n)) == s.(clients := Step(s, Fire(c, n)).clients)
  {
  }

  /** A person's edit sets what it names and nothing else; it leaves a resolution in the feed, with the
      gist as it then stands, exactly when it resolves the node. */
  lemma HumanUpdateExactly(s: Server, n: NodeId, state: Option<NodeState>, gist: Option<Option<string>>)
    requires n in s.nodes
    ensures var t := Step(s, HumanUpdate(n, state, gist));
            var node := t.nodes[n];
            && t.nodes.Keys == s.nodes.Keys && (forall m :: m in s.nodes && m != n ==> t.nodes[m] == s.nodes[m])
            && (state.Some? ==> node.state == state.value) && (state.None? ==> node.state == s.nodes[n].state)
            && (gist.Some? ==> node.gist == gist.value) && (gist.None? ==> node.gist == s.nodes[n].gist)
            && node.kind == s.nodes[n].kind && node.taskMode == s.nodes[n].taskMode
            && (state == Some(Resolved) ==> t.feed == s.feed + [FeedRow(n, true, node.gist)])
            && (state != Some(Resolved) ==> t.feed == s.feed) && t.locks == s.locks && t.clients == s.clients
  {
  }

  /** A reply takes a free node's lock, and its end gives it back. */
  lemma ReplyLocks(s: Server, c: Client, n: NodeId)
    requires PcOf(s, c).Idle? && n in s.nodes
    ensures var t := Step(s, Reply(c, n));
            && (PcOf(t, c) == Replying(n) <==> n !in s.locks) && (n in s.locks ==> t == s)
            && (n !in s.locks ==> t.locks == s.locks[n := c] && Step(t, Drop(c)).locks == s.locks)
  {
    assert n !in s.locks ==> s.locks[n := c] - {n} == s.locks;
  }

  /** A node is created with the row a person gives it, once. */
  lemma HumanCreateExactly(s: Server, n: NodeId, row: Node)
    ensures var t := Step(s, HumanCreate(n, row));
            && n in t.nodes && t.nodes[n] == (if n in s.nodes then s.nodes[n] else row)
            && t == s.(nodes := t.nodes)
            && forall m :: m != n ==> (m in t.nodes <==> m in s.nodes) && (m in s.nodes ==> t.nodes[m] == s.nodes[m])
  {
  }
}
