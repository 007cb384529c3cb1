/** Breakdown triggers and runs of one epic, interleaved with each other and with people who
    edit the task DAG and the lane. Every SQL statement, every lock operation and every event
    of a stream is one step. */
module BreakdownProtocol {
  import opened Breakdown
  import opened RunEvents
  import opened TaskGraph
  import opened Text

  type Client = nat

  /** `pre` is the snapshot of task ids; `base` is history: the DAG of those tasks, with what
      others and the agent have done to them since. */
  datatype Run = Run(pre: set<TaskId>, base: Dag, events: seq<RunEvent>)

  datatype Pc =
    | Idle
    | SawPlanning
    | Checked
    | Started
    | Draining(run: Run)
    | Listing(run: Run)
    | CuttingEdges(run: Run, rest: seq<TaskId>)
    | CuttingRow(run: Run, rest: seq<TaskId>)
    | Recording(run: Run)
    | Moving(run: Run)

  /** `used` holds every task id ever made. `disturbed` says that the current run's listing or one
      of its deletes failed, or that a person made a task during it. */
  datatype Server = Server(
    status: Status, eligible: bool, dag: Dag, used: set<TaskId>,
    lock: Option<Client>, clients: map<Client, Pc>, disturbed: bool)

  datatype Event =
    | CheckLane(c: Client)
    | CheckMap(c: Client)
    | Acquire(c: Client)
    | Snapshot(c: Client, ok: bool)
    | Emit(c: Client, event: RunEvent)
    | AgentWrite(c: Client, write: Write)
    | EndStream(c: Client)
    | Advance(c: Client, ok: bool)
    | Drop(c: Client)
    | Crash
    | HumanWrite(write: Write)
    | SetStatus(status: Status)
    | SetEligible(eligible: bool)

  function PcOf(s: Server, c: Client): Pc { if c in s.clients then s.clients[c] else Idle }

  function Goto(s: Server, c: Client, pc: Pc): Server { s.(clients := s.clients[c := pc]) }

  function Release(s: Server, c: Client): Server { s.(lock := None, clients := s.clients[c := Idle]) }

  predicate Running(pc: Pc) { !pc.Idle? && !pc.SawPlanning? && !pc.Checked? }

  predicate HasRun(pc: Pc) { Running(pc) && !pc.Started? }

  ghost predicate Failed(run: Run) { FailedCalls(run.events, |run.events|) != [] }

  function Unwanted(tasks: seq<Task>, pre: set<TaskId>): seq<TaskId> {
    if tasks == [] then []
    else
      var last := tasks[|tasks| - 1];
      Unwanted(tasks[..|tasks| - 1], pre) + if last.id in pre then [] else [last.id]
  }

  function Cutting(run: Run, rest: seq<TaskId>): Pc { if rest == [] then Recording(run) else CuttingEdges(run, rest) }

  function WithBase(pc: Pc, base: Dag): Pc {
    match pc
    case Draining(run) => Draining(run.(base := base))
    case Listing(run) => Listing(run.(base := base))
    case CuttingEdges(run, rest) => CuttingEdges(run.(base := base), rest)
    case CuttingRow(run, rest) => CuttingRow(run.(base := base), rest)
    case Recording(run) => Recording(run.(base := base))
    case Moving(run) => Moving(run.(base := base))
    case _ => pc
  }

  predicate FreshWrite(s: Server, w: Write) { w.Create? ==> w.id !in s.used }

  /** A write by the agent or a person; the run in flight notes what it did to its base. */
  ghost function Wrote(s: Server, w: Write, human: bool): Server {
    var t := s.(dag := Written(s.dag, w), used := if w.Create? then s.used + {w.id} else s.used,
                disturbed := s.disturbed || (human && w.Create?));
    if s.lock.Some? && HasRun(PcOf(s, s.lock.value)) then
      var pc := PcOf(s, s.lock.value);
      Goto(t, s.lock.value, WithBase(pc, WrittenAmong(pc.run.base, pc.run.pre, s.dag, w)))
    else t
  }

  /** The next statement of a run whose stream has ended. */
  ghost function AdvanceRun(s: Server, c: Client, ok: bool): Server {
    match PcOf(s, c)
    case Listing(run) =>
      if ok then Goto(s, c, Cutting(run, Unwanted(s.dag.tasks, run.pre)))
      else Goto(s.(disturbed := true), c, Recording(run))
    case CuttingEdges(run, rest) =>
      if rest == [] then s
      else if ok then Goto(s.(dag := Written(s.dag, CutEdges(rest[0]))), c, CuttingRow(run, rest))
      else Goto(s.(disturbed := true), c, Cutting(run, rest[1..]))
    case CuttingRow(run, rest) =>
      if rest == [] then s
      else
        var dag := if ok then Written(s.dag, CutRow(rest[0])) else s.dag;
        Goto(s.(dag := dag, disturbed := s.disturbed || rest[0] in IdsOf(dag.tasks)), c, Cutting(run, rest[1..]))
    case Recording(run) => if Failed(run) then Release(s, c) else Goto(s, c, Moving(run))
    case Moving(_) =>
      if ok && s.status == Planning then Release(s.(status := Ready), c) else Release(s, c)
    case _ => s
  }

  ghost function Step(s: Server, e: Event): Server {
    match e
    case CheckLane(c) => if PcOf(s, c).Idle? && s.status == Planning then Goto(s, c, SawPlanning) else s
    case CheckMap(c) => if PcOf(s, c).SawPlanning? then Goto(s, c, if s.eligible then Checked else Idle) else s
    case Acquire(c) =>
      if !PcOf(s, c).Checked? then s
      else if s.lock.None? then Goto(s.(lock := Some(c)), c, Started)
      else Goto(s, c, Idle)
    case Snapshot(c, ok) =>
      if !PcOf(s, c).Started? then s
      else
        var pre := if ok then IdsOf(s.dag.tasks) else {};
        Goto(s.(disturbed := false), c, Draining(Run(pre, Restricted(s.dag, pre), [])))
    case Emit(c, event) =>
      var pc := PcOf(s, c);
      if pc.Draining? then Goto(s, c, Draining(pc.run.(events := pc.run.events + [event]))) else s
    case AgentWrite(c, w) =>
      if PcOf(s, c).Draining? && (w.Create? || w.Link?) && FreshWrite(s, w) then Wrote(s, w, false) else s
    case EndStream(c) =>
      var pc := PcOf(s, c);
      if pc.Draining? then Goto(s, c, if Failed(pc.run) then Listing(pc.run) else Recording(pc.run)) else s
    case Advance(c, ok) => AdvanceRun(s, c, ok)
    case Drop(c) => if Running(PcOf(s, c)) then Release(s, c) else Goto(s, c, Idle)
    case Crash => s.(lock := None, clients := map[])
    case HumanWrite(w) => if FreshWrite(s, w) then Wrote(s, w, true) else s
    case SetStatus(status) => s.(status := status)
    case SetEligible(eligible) => s.(eligible := eligible)
  }

  function Start(): Server { Server(Planning, false, Dag([], {}), {}, None, map[], false) }

  ghost function After(s: Server, events: seq<Event>): Server
    decreases |events|
  {
    if events == [] then s else Step(After(s, events[..|events| - 1]), events[|events| - 1])
  }

  // ---- invariants of every run ----

  /** At most one run is in flight, and it holds the lock. */
  predicate LockOk(s: Server) {
    && (forall c :: c in s.clients && Running(s.clients[c]) ==> s.lock == Some(c))
    && (s.lock.Some? ==> Running(PcOf(s, s.lock.value)))
  }

  predicate DagOk(dag: Dag, used: set<TaskId>) { EdgesInside(dag) && IdsOf(dag.tasks) <= used }

  predicate Outside(rest: seq<TaskId>, pre: set<TaskId>) { forall id :: id in rest ==> id !in pre }

  predicate OnlyLeft(dag: Dag, pre: set<TaskId>, rest: seq<TaskId>) {
    forall id :: id in IdsOf(dag.tasks) ==> id in pre || id in rest
  }

  /** What the run in flight knows: its base is the DAG of the tasks it found; it deletes only
      others, after a recorded failure; and it moves the epic only without one. */
  ghost predicate RunOk(dag: Dag, used: set<TaskId>, disturbed: bool, pc: Pc) {
    HasRun(pc) ==>
      && Restricted(dag, pc.run.pre) == pc.run.base && pc.run.pre <= used
      && match pc
         case Listing(run) => Failed(run)
         case CuttingEdges(run, rest) =>
           Failed(run) && Outside(rest, run.pre) && (!disturbed ==> OnlyLeft(dag, run.pre, rest))
         case CuttingRow(run, rest) =>
           Failed(run) && Outside(rest, run.pre) && (!disturbed ==> OnlyLeft(dag, run.pre, rest))
         case Recording(run) => Failed(run) && !disturbed ==> OnlyLeft(dag, run.pre, [])
         case Moving(run) => !Failed(run)
         case _ => true
  }

  ghost predicate Safe(s: Server) {
    LockOk(s) && DagOk(s.dag, s.used) && (s.lock.Some? ==> RunOk(s.dag, s.used, s.disturbed, PcOf(s, s.lock.value)))
  }

  lemma GotoSafe(s: Server, t: Server, c: Client, pc: Pc)
    requires LockOk(s) && s.lock == Some(c) && t.lock == s.lock && t.clients == s.clients
    requires DagOk(t.dag, t.used) && Running(pc) && RunOk(t.dag, t.used, t.disturbed, pc)
    ensures Safe(Goto(t, c, pc))
  {
    hide RunOk;
    hide DagOk;
  }

  lemma ReleaseSafe(s: Server, t: Server, c: Client)
    requires LockOk(s) && s.lock == Some(c) && t.lock == s.lock && t.clients == s.clients && DagOk(t.dag, t.used)
    ensures Safe(Release(t, c))
  {
    hide RunOk;
    hide DagOk;
  }

  lemma CutKeeps(s: Server, run: Run, w: Write)
    requires DagOk(s.dag, s.used) && Restricted(s.dag, run.pre) == run.base
    requires (w.CutEdges? || w.CutRow?) && w.id !in run.pre
    ensures Restricted(Written(s.dag, w), run.pre) == run.base && DagOk(Written(s.dag, w), s.used)
    ensures IdsOf(Written(s.dag, w).tasks) <= IdsOf(s.dag.tasks)
  {
    CutOutside(s.dag, run.pre, w.id);
    WriteKeepsEdgesInside(s.dag, w);
    if w.CutRow? { WithoutIds(s.dag.tasks, w.id); }
    hide EdgesInside;
    hide Restricted;
    hide IdsOf;
    hide Named;
    hide Without;
  }

  lemma {:induction false} UnwantedIs(tasks: seq<Task>, pre: set<TaskId>)
    ensures forall id :: id in Unwanted(tasks, pre) <==> id in IdsOf(tasks) && id !in pre
  {
    if tasks != [] {
      var head, last := tasks[..|tasks| - 1], tasks[|tasks| - 1];
      UnwantedIs(head, pre);
      assert tasks == head + [last];
      IdsAppend(head, last);
      hide IdsOf;
    }
  }

  lemma CutLeaves(dag: Dag, dag': Dag, pre: set<TaskId>, rest: seq<TaskId>)
    requires rest != [] && OnlyLeft(dag, pre, rest) && IdsOf(dag'.tasks) <= IdsOf(dag.tasks)
    requires rest[0] !in IdsOf(dag'.tasks)
    ensures OnlyLeft(dag', pre, rest[1..])
  {
    hide IdsOf;
    forall id | id in IdsOf(dag'.tasks) ensures id in pre || id in rest[1..] {
      if id !in pre {
        var j :| 0 <= j < |rest| && rest[j] == id;
        assert rest[1..][j - 1] == id;
      }
    }
  }

  lemma OnlyLeftShrinks(dag: Dag, dag': Dag, pre: set<TaskId>, rest: seq<TaskId>)
    requires OnlyLeft(dag, pre, rest) && IdsOf(dag'.tasks) <= IdsOf(dag.tasks)
    ensures OnlyLeft(dag', pre, rest)
  {
    hide IdsOf;
  }

  lemma AdvanceKeepsSafe(s: Server, c: Client, ok: bool)
    requires Safe(s) && s.lock == Some(c)
    ensures Safe(AdvanceRun(s, c, ok))
  {
    assert Running(PcOf(s, c));
    hide LockOk;
    hide DagOk;
    hide Restricted;
    hide IdsOf;
    hide Failed;
    hide Unwanted;
    hide Written;
    match PcOf(s, c)
    case Listing(run) =>
      if ok {
        UnwantedIs(s.dag.tasks, run.pre);
        assert OnlyLeft(s.dag, run.pre, Unwanted(s.dag.tasks, run.pre));
        GotoSafe(s, s, c, Cutting(run, Unwanted(s.dag.tasks, run.pre)));
      } else {
        GotoSafe(s, s.(disturbed := true), c, Recording(run));
      }
    case CuttingEdges(run, rest) =>
      if rest != [] {
        if ok {
          var t := s.(dag := Written(s.dag, CutEdges(rest[0])));
          CutKeeps(s, run, CutEdges(rest[0]));
          if !s.disturbed { OnlyLeftShrinks(s.dag, t.dag, run.pre, rest); }
          GotoSafe(s, t, c, CuttingRow(run, rest));
        } else {
          GotoSafe(s, s.(disturbed := true), c, Cutting(run, rest[1..]));
        }
      }
    case CuttingRow(run, rest) => if rest != [] { AdvanceRowKeepsSafe(s, c, ok, run, rest); }
    case Recording(run) => if Failed(run) { ReleaseSafe(s, s, c); } else { GotoSafe(s, s, c, Moving(run)); }
    case Moving(_) =>
      var t := if ok && s.status == Planning then s.(status := Ready) else s;
      ReleaseSafe(s, t, c);
    case _ =>
  }

  lemma AdvanceRowKeepsSafe(s: Server, c: Client, ok: bool, run: Run, rest: seq<TaskId>)
    requires Safe(s) && s.lock == Some(c) && PcOf(s, c) == CuttingRow(run, rest) && rest != []
    ensures Safe(AdvanceRun(s, c, ok))
  {
    hide LockOk;
    hide DagOk;
    hide Restricted;
    hide IdsOf;
    hide Failed;
    hide Written;
    hide OnlyLeft;
    CutKeeps(s, run, CutRow(rest[0]));
    var dag := if ok then Written(s.dag, CutRow(rest[0])) else s.dag;
    var t := s.(dag := dag, disturbed := s.disturbed || rest[0] in IdsOf(dag.tasks));
    if !t.disturbed { CutLeaves(s.dag, dag, run.pre, rest); }
    assert forall id :: id in rest[1..] ==> id in rest;
    GotoSafe(s, t, c, Cutting(run, rest[1..]));
  }

  lemma WrittenKeepsDagOk(dag: Dag, used: set<TaskId>, w: Write)
    requires DagOk(dag, used)
    ensures DagOk(Written(dag, w), if w.Create? then used + {w.id} else used)
    ensures !w.Create? ==> IdsOf(Written(dag, w).tasks) <= IdsOf(dag.tasks)
  {
    WriteKeepsEdgesInside(dag, w);
    if w.Create? {
      IdsAppend(dag.tasks, Task(w.id, Trim(w.title), MaxPosition(dag.tasks) + 1));
    } else if w.CutRow? {
      WithoutIds(dag.tasks, w.id);
    }
    hide EdgesInside;
    hide IdsOf;
    hide Linkable;
    hide Named;
    hide Trim;
  }

  /** A write while no run holds a snapshot. */
  lemma WroteBeforeRuns(s: Server, w: Write, human: bool)
    requires Safe(s) && FreshWrite(s, w) && !(s.lock.Some? && HasRun(PcOf(s, s.lock.value)))
    ensures Safe(Wrote(s, w, human))
  {
    WrittenKeepsDagOk(s.dag, s.used, w);
    hide DagOk;
    hide Written;
    hide RunOk;
  }

  lemma WroteKeepsSafe(s: Server, w: Write, human: bool)
    requires Safe(s) && FreshWrite(s, w)
    requires !human ==> (w.Create? || w.Link?) && s.lock.Some? && PcOf(s, s.lock.value).Draining?
    ensures Safe(Wrote(s, w, human))
  {
    hide DagOk;
    hide Restricted;
    hide Written;
    hide WrittenAmong;
    hide Failed;
    hide IdsOf;
    if s.lock.Some? && HasRun(PcOf(s, s.lock.value)) {
      WroteInRun(s, w, human);
    } else {
      WroteBeforeRuns(s, w, human);
    }
  }

  lemma WroteInRun(s: Server, w: Write, human: bool)
    requires Safe(s) && FreshWrite(s, w) && s.lock.Some? && HasRun(PcOf(s, s.lock.value))
    requires !human ==> PcOf(s, s.lock.value).Draining?
    ensures Safe(Wrote(s, w, human))
  {
    hide DagOk;
    hide Restricted;
    hide Written;
    hide WrittenAmong;
    hide Failed;
    hide IdsOf;
    WrittenKeepsDagOk(s.dag, s.used, w);
    var pc := PcOf(s, s.lock.value);
    RestrictedWritten(s.dag, pc.run.pre, w);
    var t := s.(dag := Written(s.dag, w), used := if w.Create? then s.used + {w.id} else s.used,
                disturbed := s.disturbed || (human && w.Create?));
    var pc' := WithBase(pc, WrittenAmong(pc.run.base, pc.run.pre, s.dag, w));
    WroteKeepsRunOk(s, t, pc, pc', w, human);
    hide *;
    WroteIs(s, w, human);
    GotoSafe(s, t, s.lock.value, pc');
  }

  lemma WroteIs(s: Server, w: Write, human: bool)
    requires s.lock.Some? && HasRun(PcOf(s, s.lock.value))
    requires Safe(s)
    ensures var pc := PcOf(s, s.lock.value);
            var t := s.(dag := Written(s.dag, w), used := if w.Create? then s.used + {w.id} else s.used,
                        disturbed := s.disturbed || (human && w.Create?));
            var pc' := WithBase(pc, WrittenAmong(pc.run.base, pc.run.pre, s.dag, w));
            LockOk(s) && Running(pc') && Wrote(s, w, human) == Goto(t, s.lock.value, pc')
  {
    hide LockOk;
    hide Written;
    hide WrittenAmong;
  }

  lemma WroteKeepsRunOk(s: Server, t: Server, pc: Pc, pc': Pc, w: Write, human: bool)
    requires HasRun(pc) && RunOk(s.dag, s.used, s.disturbed, pc) && FreshWrite(s, w)
    requires !human ==> pc.Draining?
    requires t.dag == Written(s.dag, w) && s.used <= t.used && t.disturbed == (s.disturbed || (human && w.Create?))
    requires pc' == WithBase(pc, Restricted(t.dag, pc.run.pre))
    requires !w.Create? ==> IdsOf(t.dag.tasks) <= IdsOf(s.dag.tasks)
    ensures RunOk(t.dag, t.used, t.disturbed, pc')
  {
    hide Restricted;
    hide Written;
    hide OnlyLeft;
    if !t.disturbed && !pc.Draining? {
      forall rest | OnlyLeft(s.dag, pc.run.pre, rest) ensures OnlyLeft(t.dag, pc.run.pre, rest) {
        OnlyLeftShrinks(s.dag, t.dag, pc.run.pre, rest);
      }
    }
    hide IdsOf;
    assert pc'.run.events == pc.run.events;
    assert Failed(pc'.run) == Failed(pc.run);
    hide Failed;
  }

  lemma StepKeepsSafe(s: Server, e: Event)
    requires Safe(s)
    ensures Safe(Step(s, e))
  {
    hide DagOk;
    hide Restricted;
    hide Failed;
    hide IdsOf;
    hide Written;
    hide AdvanceRun;
    hide Wrote;
    hide OnlyLeft;
    match e
    case Advance(c, ok) =>
      if s.lock == Some(c) { AdvanceKeepsSafe(s, c, ok); } else { AdvanceNeedsLock(s, c, ok); }
    case HumanWrite(w) => if FreshWrite(s, w) { WroteKeepsSafe(s, w, true); }
    case AgentWrite(c, w) =>
      if PcOf(s, c).Draining? && (w.Create? || w.Link?) && FreshWrite(s, w) { WroteKeepsSafe(s, w, false); }
    case Snapshot(c, ok) => if PcOf(s, c).Started? { SnapshotKeepsSafe(s, c, ok); }
    case Emit(c, event) => EmitKeepsSafe(s, e);
    case EndStream(c) => EmitKeepsSafe(s, e);
    case _ => LockStepKeepsSafe(s, e);
  }

  lemma LockStepKeepsSafe(s: Server, e: Event)
    requires Safe(s)
    requires !e.Advance? && !e.HumanWrite? && !e.AgentWrite? && !e.Snapshot? && !e.Emit? && !e.EndStream?
    ensures Safe(Step(s, e))
  {
    hide DagOk;
    hide AdvanceRun;
    hide Wrote;
    hide Restricted;
    hide Failed;
  }

  lemma EmitKeepsSafe(s: Server, e: Event)
    requires Safe(s) && (e.Emit? || e.EndStream?)
    ensures Safe(Step(s, e))
  {
    hide DagOk;
    hide Restricted;
    hide Failed;
    hide OnlyLeft;
    hide AdvanceRun;
    hide Wrote;
    var pc := PcOf(s, e.c);
    if pc.Draining? {
      if e.Emit? {
        GotoSafe(s, s, e.c, Draining(pc.run.(events := pc.run.events + [e.event])));
      } else {
        GotoSafe(s, s, e.c, if Failed(pc.run) then Listing(pc.run) else Recording(pc.run));
      }
    }
  }

  lemma SnapshotKeepsSafe(s: Server, c: Client, ok: bool)
    requires Safe(s) && PcOf(s, c).Started?
    ensures Safe(Step(s, Snapshot(c, ok)))
  {
    hide Restricted;
    hide EdgesInside;
    var pre := if ok then IdsOf(s.dag.tasks) else {};
    hide IdsOf;
    GotoSafe(s, s.(disturbed := false), c, Draining(Run(pre, Restricted(s.dag, pre), [])));
  }

  lemma AdvanceNeedsLock(s: Server, c: Client, ok: bool)
    requires LockOk(s) && s.lock != Some(c)
    ensures AdvanceRun(s, c, ok) == s
  {
  }

  lemma {:induction false} RunKeepsSafe(events: seq<Event>)
    ensures Safe(After(Start(), events))
  {
    if events != [] {
      RunKeepsSafe(events[..|events| - 1]);
      hide Safe;
      hide Step;
      StepKeepsSafe(After(Start(), events[..|events| - 1]), events[|events| - 1]);
    }
  }

  // ---- what that gives ----

  /** Never two runs in flight, whatever the interleaving. */
  lemma OneRunAtATime(events: seq<Event>, c: Client, d: Client)
    ensures var s := After(Start(), events); Running(PcOf(s, c)) && Running(PcOf(s, d)) ==> c == d
  {
    RunKeepsSafe(events);
    hide After;
    hide DagOk;
    hide RunOk;
  }

  /** A step moves the lane only by a person's edit, or Planning to Ready at the end of a run
      whose drained stream recorded no failure. */
  lemma MovesOnlyAfterCleanDrain(s: Server, e: Event)
    requires Safe(s)
    ensures Step(s, e).status != s.status ==>
              || e.SetStatus?
              || (e.Advance? && PcOf(s, e.c).Moving? && !Failed(PcOf(s, e.c).run)
                  && s.status == Planning && Step(s, e).status == Ready)
  {
    hide Failed;
    hide Written;
    hide WrittenAmong;
    hide IdsOf;
    hide Unwanted;
    hide Restricted;
    if e.Advance? && PcOf(s, e.c).Moving? {
      HolderIs(s, e.c);
    }
    hide Safe;
  }

  lemma HolderIs(s: Server, c: Client)
    requires Safe(s) && Running(PcOf(s, c))
    ensures s.lock == Some(c) && RunOk(s.dag, s.used, s.disturbed, PcOf(s, c))
  {
    hide DagOk;
    hide RunOk;
  }

  /** When a failed run's rollback is over, the DAG is the run's base: the tasks of its snapshot
      and the edges among them, with other people's edits to those and nothing else. Where the
      snapshot could not be read the base is empty, and every task is gone. */
  lemma RollbackLeavesBase(events: seq<Event>, c: Client)
    ensures var s := After(Start(), events);
            PcOf(s, c).Recording? && Failed(PcOf(s, c).run) && !s.disturbed ==> s.dag == PcOf(s, c).run.base
  {
    RunKeepsSafe(events);
    hide After;
    var s := After(Start(), events);
    if PcOf(s, c).Recording? && Failed(PcOf(s, c).run) && !s.disturbed {
      HolderIs(s, c);
      hide Failed;
      hide Restricted;
      assert IdsOf(s.dag.tasks) <= PcOf(s, c).run.pre;
      hide IdsOf;
      RestrictedToAll(s.dag, PcOf(s, c).run.pre);
    }
  }

  /** An interleaving in which nobody writes to the DAG but the agent of run `c`, which links no
      two of the tasks it found, and every statement succeeds. Other triggers may come and go. */
  predicate Quiet(e: Event, c: Client, pre: set<TaskId>) {
    match e
    case HumanWrite(_) => false
    case AgentWrite(_, w) => w.Link? ==> w.blocker !in pre || w.blocked !in pre
    case Advance(_, ok) => ok
    case Snapshot(d, _) => d != c
    case _ => true
  }

  /** The run of client `c`, if it has one, has snapshot and base `dag`, and nothing disturbed it. */
  ghost predicate StillBase(s: Server, c: Client, dag: Dag) {
    var pc := PcOf(s, c);
    HasRun(pc) ==>
      && pc.run.base == dag && pc.run.pre == IdsOf(dag.tasks) && !s.disturbed
      && (pc.CuttingRow? && pc.rest != [] ==> !Named(s.dag.edges, pc.rest[0]))
  }

  lemma CutsName(dag: Dag, id: TaskId)
    ensures !Named(Written(dag, CutEdges(id)).edges, id)
    ensures !Named(dag.edges, id) ==> id !in IdsOf(Written(dag, CutRow(id)).tasks)
  {
    WithoutIds(dag.tasks, id);
    hide Without;
    hide IdsOf;
  }

  lemma AdvanceStillBase(s: Server, c: Client, dag: Dag)
    requires StillBase(s, c, dag)
    ensures StillBase(AdvanceRun(s, c, true), c, dag)
  {
    var pc := PcOf(s, c);
    if (pc.CuttingEdges? || pc.CuttingRow?) && pc.rest != [] {
      CutsName(s.dag, pc.rest[0]);
    }
    hide Named;
    hide Failed;
    hide IdsOf;
    hide Unwanted;
    hide Written;
  }

  lemma WroteStillBase(s: Server, c: Client, d: Client, w: Write, dag: Dag)
    requires Safe(s) && StillBase(s, c, dag) && PcOf(s, d).Draining? && (w.Create? || w.Link?)
    requires w.Link? ==> w.blocker !in IdsOf(dag.tasks) || w.blocked !in IdsOf(dag.tasks)
    ensures StillBase(Wrote(s, w, false), c, dag)
  {
    HolderIs(s, d);
    if HasRun(PcOf(s, c)) {
      HolderIs(s, c);
      assert c == d;
      WroteIs(s, w, false);
    }
    hide Safe;
    hide RunOk;
    hide IdsOf;
    hide Written;
    hide Linkable;
    hide Named;
  }

  lemma QuietStep(s: Server, e: Event, c: Client, dag: Dag)
    requires Safe(s) && StillBase(s, c, dag) && Quiet(e, c, IdsOf(dag.tasks))
    ensures StillBase(Step(s, e), c, dag)
  {
    match e
    case Advance(d, ok) =>
      hide StillBase;
      if d == c { AdvanceStillBase(s, c, dag); } else { OtherAdvance(s, c, d, dag); }
    case AgentWrite(d, w) =>
      hide StillBase;
      hide Wrote;
      if PcOf(s, d).Draining? && (w.Create? || w.Link?) && FreshWrite(s, w) { WroteStillBase(s, c, d, w, dag); }
    case _ => OtherStep(s, e, c, dag);
  }

  lemma OtherAdvance(s: Server, c: Client, d: Client, dag: Dag)
    requires Safe(s) && StillBase(s, c, dag) && d != c
    ensures StillBase(AdvanceRun(s, d, true), c, dag)
  {
    if Running(PcOf(s, d)) { HolderIs(s, d); }
    if Running(PcOf(s, c)) { HolderIs(s, c); }
    hide Safe;
    hide RunOk;
    hide IdsOf;
    hide Named;
    hide Failed;
    hide Unwanted;
    hide Written;
  }

  lemma OtherStep(s: Server, e: Event, c: Client, dag: Dag)
    requires Safe(s) && StillBase(s, c, dag) && Quiet(e, c, IdsOf(dag.tasks)) && !e.Advance? && !e.AgentWrite?
    ensures StillBase(Step(s, e), c, dag)
  {
    if e.Snapshot? && PcOf(s, e.c).Started? { HolderIs(s, e.c); }
    if Running(PcOf(s, c)) { HolderIs(s, c); }
    hide Safe;
    hide RunOk;
    hide IdsOf;
    hide Named;
    hide Failed;
    hide Wrote;
    hide AdvanceRun;
    hide Restricted;
  }

  lemma {:induction false} QuietRun(s: Server, events: seq<Event>, c: Client, dag: Dag)
    requires Safe(s) && StillBase(s, c, dag) && forall k :: 0 <= k < |events| ==> Quiet(events[k], c, IdsOf(dag.tasks))
    ensures Safe(After(s, events)) && StillBase(After(s, events), c, dag)
  {
    hide Safe;
    hide StillBase;
    hide Quiet;
    hide Step;
    if events != [] {
      var before := events[..|events| - 1];
      assert forall k :: 0 <= k < |before| ==> before[k] == events[k];
      QuietRun(s, before, c, dag);
      StepKeepsSafe(After(s, before), events[|events| - 1]);
      QuietStep(After(s, before), events[|events| - 1], c, dag);
    }
  }

  /** What a snapshot that was read, or could not be, makes of the DAG. */
  function Snapped(dag: Dag, ok: bool): Dag { if ok then dag else Dag([], {}) }

  lemma QuietForSnapped(e: Event, c: Client, dag: Dag, ok: bool)
    requires Quiet(e, c, IdsOf(dag.tasks))
    ensures Quiet(e, c, IdsOf(Snapped(dag, ok).tasks))
  {
  }

  /** A failed run that nobody disturbs leaves its snapshot, however its statements interleave with
      other triggers. So it leaves exactly the DAG it found if and only if the snapshot was read, or
      there was nothing to lose. */
  lemma FailedRunRestoresDag(s: Server, c: Client, ok: bool, events: seq<Event>)
    requires Safe(s) && PcOf(s, c).Started?
    requires forall k :: 0 <= k < |events| ==> Quiet(events[k], c, IdsOf(s.dag.tasks))
    ensures var t := After(Step(s, Snapshot(c, ok)), events);
            PcOf(t, c).Recording? && Failed(PcOf(t, c).run) ==>
              t.dag == Snapped(s.dag, ok) && (t.dag == s.dag <==> ok || s.dag == Dag([], {}))
  {
    var s1, dag := Step(s, Snapshot(c, ok)), Snapped(s.dag, ok);
    StepKeepsSafe(s, Snapshot(c, ok));
    SnapshotBase(s, c, ok);
    forall k | 0 <= k < |events| ensures Quiet(events[k], c, IdsOf(dag.tasks)) {
      QuietForSnapped(events[k], c, s.dag, ok);
    }
    QuietRun(s1, events, c, dag);
    hide *;
    FailedRunIsBase(After(s1, events), c, dag);
    SnappedIs(s.dag, ok);
  }

  lemma SnappedIs(dag: Dag, ok: bool)
    ensures Snapped(dag, ok) == dag <==> ok || dag == Dag([], {})
  {
  }

  lemma FailedRunIsBase(t: Server, c: Client, dag: Dag)
    requires Safe(t) && StillBase(t, c, dag)
    ensures PcOf(t, c).Recording? && Failed(PcOf(t, c).run) ==> t.dag == dag
  {
    if PcOf(t, c).Recording? && Failed(PcOf(t, c).run) {
      HolderIs(t, c);
      hide Failed;
      hide Restricted;
      assert IdsOf(t.dag.tasks) <= PcOf(t, c).run.pre;
      hide IdsOf;
      hide LockOk;
      RestrictedToAll(t.dag, PcOf(t, c).run.pre);
    }
  }

  lemma SnapshotBase(s: Server, c: Client, ok: bool)
    requires Safe(s) && PcOf(s, c).Started?
    ensures StillBase(Step(s, Snapshot(c, ok)), c, Snapped(s.dag, ok))
  {
    hide LockOk;
    hide RunOk;
    RestrictedToAll(s.dag, IdsOf(s.dag.tasks));
    NoneRestricted(s.dag);
    assert IdsOf([]) == {};
    hide IdsOf;
    hide Restricted;
    hide EdgesInside;
  }

  // ---- a run that loses the epic's tasks ----

  lemma AfterOne(s: Server, events: seq<Event>, e: Event)
    ensures After(s, events + [e]) == Step(After(s, events), e)
  {
    assert (events + [e])[..|events|] == events;
  }

  lemma AfterFour(s: Server, events: seq<Event>, a: Event, b: Event, c: Event, d: Event)
    ensures After(s, events + [a, b, c, d]) == Step(Step(Step(Step(After(s, events), a), b), c), d)
  {
    hide *;
    AfterOne(s, events, a);
    AfterOne(s, events + [a], b);
    AfterOne(s, events + [a] + [b], c);
    AfterOne(s, events + [a] + [b] + [c], d);
    assert events + [a, b, c, d] == events + [a] + [b] + [c] + [d];
  }

  /** A person makes a task and the epic's first run starts. */
  lemma RunStarts(c: Client, id: TaskId)
    ensures var made := Step(Step(Start(), HumanWrite(Create(id, "x"))), SetEligible(true));
            var t := Step(Step(Step(made, CheckLane(c)), CheckMap(c)), Acquire(c));
            t.dag == Dag([Task(id, "x", 1)], {}) && PcOf(t, c) == Started
  {
    TrimX();
    hide Trim;
    assert [] + [Task(id, "x", 1)] == [Task(id, "x", 1)];
  }

  lemma TrimX()
    ensures Trim("x") == "x"
  {
    TrimIs("", "x", "");
    assert "" + "x" + "" == "x";
  }

  /** Its snapshot cannot be read, and a CLI call fails. */
  lemma RunFails(s: Server, c: Client)
    requires PcOf(s, c) == Started
    ensures var t := Step(Step(Step(s, Snapshot(c, false)), Emit(c, FAILING[0])), Emit(c, FAILING[1]));
            PcOf(Step(t, EndStream(c)), c) == Listing(Run({}, Dag([], {}), FAILING))
            && Step(t, EndStream(c)).dag == s.dag
  {
    NoneRestricted(s.dag);
    OneFailure();
    hide Restricted;
    hide FailedCalls;
    hide IdsOf;
    assert [] + [FAILING[0]] + [FAILING[1]] == FAILING;
  }

  /** The rollback that follows names the one task, and cuts it. */
  lemma RunRollsBack(s: Server, c: Client, run: Run, task: Task)
    requires PcOf(s, c) == Listing(run) && run.pre == {} && s.dag.tasks == [task]
    ensures PcOf(Step(Step(Step(s, Advance(c, true)), Advance(c, true)), Advance(c, true)), c) == Recording(run)
  {
    hide Written;
    assert [task][..0] == [];
    assert Unwanted([task], {}) == [task.id];
    hide Unwanted;
    var s1 := Step(s, Advance(c, true));
    assert PcOf(s1, c) == CuttingEdges(run, [task.id]);
    var s2 := Step(s1, Advance(c, true));
    assert PcOf(s2, c) == CuttingRow(run, [task.id]);
    assert [task.id][1..] == [];
  }

  lemma {:induction false} AfterSplits(s: Server, xs: seq<Event>, ys: seq<Event>)
    ensures After(s, xs + ys) == After(After(s, xs), ys)
  {
    hide Step;
    if ys == [] {
      assert xs + ys == xs;
    } else {
      AfterSplits(s, xs, ys[..|ys| - 1]);
      assert (xs + ys)[..|xs + ys| - 1] == xs + ys[..|ys| - 1];
    }
  }

  /** The rest of the run once its snapshot is over. */
  function FailingRest(c: Client): seq<Event> {
    [Emit(c, FAILING[0]), Emit(c, FAILING[1]), EndStream(c), Advance(c, true)] + [Advance(c, true)] + [Advance(c, true)]
  }

  lemma FailingRestIs(s: Server, c: Client)
    ensures var listing := Step(Step(Step(s, Emit(c, FAILING[0])), Emit(c, FAILING[1])), EndStream(c));
            After(s, FailingRest(c)) == Step(Step(Step(listing, Advance(c, true)), Advance(c, true)), Advance(c, true))
    ensures forall k, dag: Dag :: 0 <= k < |FailingRest(c)| ==> Quiet(FailingRest(c)[k], c, IdsOf(dag.tasks))
  {
    var e, f, g, h := Emit(c, FAILING[0]), Emit(c, FAILING[1]), EndStream(c), Advance(c, true);
    assert After(s, []) == s && [] + [e, f, g, h] == [e, f, g, h];
    hide After;
    hide Step;
    hide IdsOf;
    AfterFour(s, [], e, f, g, h);
    AfterOne(s, [e, f, g, h], h);
    AfterOne(s, [e, f, g, h] + [h], h);
  }

  lemma FailedIs(run: Run)
    ensures Failed(run) <==> FailedCalls(run.events, |run.events|) != []
  {
  }

  /** A run that loses the tasks it promised to keep: a person makes a task, the epic's first run
      cannot read its snapshot, one of its CLI calls fails, and the rollback deletes the task. */
  lemma FailedSnapshotLosesTasks(c: Client, id: TaskId)
    ensures var starts := [HumanWrite(Create(id, "x")), SetEligible(true), CheckLane(c), CheckMap(c)] + [Acquire(c)];
            var s, t := After(Start(), starts), After(Start(), starts + [Snapshot(c, false)] + FailingRest(c));
            && s.dag == Dag([Task(id, "x", 1)], {}) && PcOf(s, c) == Started
            && PcOf(t, c).Recording? && Failed(PcOf(t, c).run) && t.dag == Dag([], {})
  {
    var made := [HumanWrite(Create(id, "x")), SetEligible(true), CheckLane(c), CheckMap(c)];
    var starts, snap := made + [Acquire(c)], Snapshot(c, false);
    assert After(Start(), []) == Start() && [] + made == made;
    var task := Task(id, "x", 1);
    hide *;
    RunStarts(c, id);
    AfterFour(Start(), [], made[0], made[1], made[2], made[3]);
    AfterOne(Start(), made, Acquire(c));
    var s := After(Start(), starts);
    RunKeepsSafe(starts);
    AfterOne(Start(), starts, snap);
    AfterSplits(Start(), starts + [snap], FailingRest(c));
    var s1 := Step(s, snap);
    RunFails(s, c);
    OneFailure();
    FailingRestIs(s1, c);
    var listing := Step(Step(Step(s1, Emit(c, FAILING[0])), Emit(c, FAILING[1])), EndStream(c));
    RunRollsBack(listing, c, Run({}, Dag([], {}), FAILING), task);
    FailedIs(Run({}, Dag([], {}), FAILING));
    FailedRunRestoresDag(s, c, false, FailingRest(c));
  }

  // ---- the lane is read before the lock is taken ----

  /** Whether the last event that set the lane took the epic out of Planning: a person's edit, or
      the last update of a clean run that reached the database. */
  ghost predicate LeftPlanning(s: Server, events: seq<Event>)
    decreases |events|
  {
    events != [] &&
    var e := events[|events| - 1];
    if e.SetStatus? then e.status != Planning
    else if e.Advance? && e.ok && PcOf(After(s, events[..|events| - 1]), e.c).Moving? then true
    else LeftPlanning(s, events[..|events| - 1])
  }

  lemma LaneMoves(s: Server, e: Event)
    ensures var after := Step(s, e).status;
            if e.SetStatus? then after == e.status
            else if e.Advance? && e.ok && PcOf(s, e.c).Moving? then after != Planning
            else after == s.status
  {
    hide Failed;
    hide Written;
    hide WrittenAmong;
    hide IdsOf;
    hide Unwanted;
    hide Restricted;
  }

  /** From any planning epic, after any events, people's edits of the lane included, it is still
      planning exactly when the last event that set its lane did not take it out. */
  lemma {:induction false} PlanningExactly(s: Server, events: seq<Event>)
    requires s.status == Planning
    ensures After(s, events).status == Planning <==> !LeftPlanning(s, events)
  {
    hide Step;
    if events != [] {
      PlanningExactly(s, events[..|events| - 1]);
      LaneMoves(After(s, events[..|events| - 1]), events[|events| - 1]);
    }
  }

  /** A run that saw the epic in Planning and then, whatever happened in between, takes the lock:
      the epic is planning when the run starts exactly when the last event since that set its lane
      did not take it out. */
  lemma StartsPlanningExactly(s: Server, c: Client, events: seq<Event>)
    requires PcOf(s, c).Idle? && PcOf(Step(s, CheckLane(c)), c).SawPlanning?
    requires PcOf(After(Step(s, CheckLane(c)), events), c).Checked?
    ensures var saw := Step(s, CheckLane(c));
            var t := Step(After(saw, events), Acquire(c));
            && (PcOf(t, c).Started? <==> After(saw, events).lock.None?)
            && (t.status == Planning <==> !LeftPlanning(saw, events))
  {
    assert s.status == Planning;
    PlanningExactly(Step(s, CheckLane(c)), events);
    hide After;
    hide LeftPlanning;
    hide Restricted;
    hide Failed;
    hide IdsOf;
    hide AdvanceRun;
    hide Wrote;
  }

  /** So a run can start on an epic that is already Ready: both triggers check, the first one
      runs to its end, and the second then takes the lock. */
  lemma StartsOnReadyEpic(s: Server, c: Client, d: Client)
    requires s.status == Planning && s.eligible && s.lock.None? && c != d && PcOf(s, c).Idle? && PcOf(s, d).Idle?
    ensures var saw := Step(Step(s, CheckLane(c)), CheckLane(d));
            var both := Step(Step(saw, CheckMap(c)), CheckMap(d));
            var draining := Step(Step(both, Acquire(c)), Snapshot(c, true));
            var moving := Step(Step(draining, EndStream(c)), Advance(c, true));
            var t := Step(Step(moving, Advance(c, true)), Acquire(d));
            t.status == Ready && t.lock == Some(d) && PcOf(t, d).Started?
  {
    hide Restricted;
    hide IdsOf;
    var saw := Step(Step(s, CheckLane(c)), CheckLane(d));
    assert PcOf(saw, c).SawPlanning? && PcOf(saw, d).SawPlanning?;
    var both := Step(Step(saw, CheckMap(c)), CheckMap(d));
    assert PcOf(both, c).Checked? && PcOf(both, d).Checked?;
    var draining := Step(Step(both, Acquire(c)), Snapshot(c, true));
    var run := PcOf(draining, c).run;
    assert PcOf(draining, c) == Draining(run) && PcOf(draining, d).Checked? && run.events == [];
    assert !Failed(run);
    hide Failed;
    var ended := Step(draining, EndStream(c));
    assert PcOf(ended, c) == Recording(run);
    var moving := Step(ended, Advance(c, true));
    assert PcOf(moving, c) == Moving(run) && moving.status == Planning;
  }

  // ---- the checks, and statements that fail ----

  /** A trigger goes on exactly past a planning lane, then past an eligible map, then with the lock. */
  lemma ChecksExactly(s: Server, c: Client)
    ensures PcOf(s, c).Idle? ==> (PcOf(Step(s, CheckLane(c)), c).SawPlanning? <==> s.status == Planning)
    ensures PcOf(s, c).SawPlanning? ==> (PcOf(Step(s, CheckMap(c)), c).Checked? <==> s.eligible)
    ensures PcOf(s, c).Checked? ==> (PcOf(Step(s, Acquire(c)), c).Started? <==> s.lock.None?)
  {
  }

  /** A statement of a run that fails changes neither the DAG nor the lane, and the run goes on. */
  lemma FailedStatementSkips(s: Server, c: Client)
    ensures var t := Step(s, Advance(c, false));
            && t.dag == s.dag && t.status == s.status
            && (PcOf(s, c).Listing? || PcOf(s, c).Recording? || PcOf(s, c).Moving? ==> PcOf(t, c) != PcOf(s, c))
  {
    hide Failed;
    hide IdsOf;
    hide Unwanted;
    hide Written;
  }
}
