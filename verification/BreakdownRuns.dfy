/** Whole breakdown runs of the machine: one that nobody disturbs, and whose statements all succeed,
    leaves what the uninterrupted run leaves. */
module BreakdownRuns {
  import opened Breakdown
  import opened BreakdownProtocol
  import opened RunEvents
  import opened TaskGraph
  import opened Text

  // ---- the agent's script, played on the machine ----

  function EventOf(c: Client, item: Item): Event {
    if item.Emitted? then Emit(c, item.event) else AgentWrite(c, item.write)
  }

  ghost function Played(s: Server, c: Client, script: seq<Item>): Server {
    if script == [] then s else Step(Played(s, c, script[..|script| - 1]), EventOf(c, script[|script| - 1]))
  }

  /** The ids ever used, the script's new tasks among them. */
  function UsedAfter(used: set<TaskId>, script: seq<Item>): set<TaskId> {
    if script == [] then used
    else
      var before, last := UsedAfter(used, script[..|script| - 1]), script[|script| - 1];
      if last.Wrote? && last.write.Create? then before + {last.write.id} else before
  }

  /** An agent creates tasks, under ids that are new, and links. */
  predicate Playable(used: set<TaskId>, script: seq<Item>) {
    script != [] ==>
      var before, last := script[..|script| - 1], script[|script| - 1];
      Playable(used, before) && (last.Wrote? ==> Writable(UsedAfter(used, before), last.write))
  }

  predicate Writable(used: set<TaskId>, w: Write) { w.Link? || (w.Create? && w.id !in used) }

  /** Where the run of client `c` stands while its agent is at work. */
  ghost predicate AtWork(s: Server, c: Client, pre: set<TaskId>, events: seq<RunEvent>, dag: Dag, used: set<TaskId>) {
    && Safe(s) && s.lock == Some(c) && !s.disturbed && s.dag == dag && s.used == used
    && PcOf(s, c).Draining? && PcOf(s, c).run.pre == pre && PcOf(s, c).run.events == events
  }

  lemma EmitAtWork(s: Server, c: Client, pre: set<TaskId>, events: seq<RunEvent>, dag: Dag, used: set<TaskId>,
                   event: RunEvent)
    requires AtWork(s, c, pre, events, dag, used)
    ensures AtWork(Step(s, Emit(c, event)), c, pre, events + [event], dag, used)
    ensures Step(s, Emit(c, event)).status == s.status
  {
    StepKeepsSafe(s, Emit(c, event));
    hide Safe;
  }

  lemma WriteAtWork(s: Server, c: Client, pre: set<TaskId>, events: seq<RunEvent>, dag: Dag, used: set<TaskId>,
                    w: Write)
    requires AtWork(s, c, pre, events, dag, used) && Writable(used, w)
    ensures AtWork(Step(s, AgentWrite(c, w)), c, pre, events, Written(dag, w),
                   if w.Create? then used + {w.id} else used)
    ensures Step(s, AgentWrite(c, w)).status == s.status
  {
    StepKeepsSafe(s, AgentWrite(c, w));
    hide Safe;
    hide Written;
    hide WrittenAmong;
  }

  lemma {:induction false} PlayedAtWork(s: Server, c: Client, pre: set<TaskId>, script: seq<Item>)
    requires AtWork(s, c, pre, [], s.dag, s.used) && Playable(s.used, script)
    ensures var t := Played(s, c, script);
            && AtWork(t, c, pre, EventsOf(script), AllWritten(s.dag, WritesOf(script)), UsedAfter(s.used, script))
            && t.status == s.status
  {
    hide AtWork;
    hide Step;
    hide Writable;
    if script != [] {
      var before, last := script[..|script| - 1], script[|script| - 1];
      PlayedAtWork(s, c, pre, before);
      var t, used := Played(s, c, before), UsedAfter(s.used, before);
      var events, ws := EventsOf(before), WritesOf(before);
      if last.Emitted? {
        assert ws + [] == ws;
        EmitAtWork(t, c, pre, events, AllWritten(s.dag, ws), used, last.event);
      } else {
        assert events + [] == events && (ws + [last.write])[..|ws|] == ws;
        WriteAtWork(t, c, pre, events, AllWritten(s.dag, ws), used, last.write);
      }
    }
  }

  // ---- its rollback ----

  ghost function Advanced(s: Server, c: Client, k: nat): Server
    decreases k
  {
    if k == 0 then s else Advanced(Step(s, Advance(c, true)), c, k - 1)
  }

  lemma {:induction false} AdvancedSum(s: Server, c: Client, j: nat, k: nat)
    ensures Advanced(s, c, j + k) == Advanced(Advanced(s, c, j), c, k)
    decreases j
  {
    hide Step;
    if j > 0 { AdvancedSum(Step(s, Advance(c, true)), c, j - 1, k); }
  }

  /** The run rolls back, undisturbed, with `rest` to delete. */
  ghost predicate RollsBack(s: Server, c: Client, run: Run, rest: seq<TaskId>) {
    && Safe(s) && s.lock == Some(c) && !s.disturbed && Failed(run) && PcOf(s, c) == Cutting(run, rest)
  }

  lemma CutOne(s: Server, c: Client, run: Run, rest: seq<TaskId>)
    requires RollsBack(s, c, run, rest) && rest != []
    ensures var t := Step(Step(s, Advance(c, true)), Advance(c, true));
            RollsBack(t, c, run, rest[1..]) && t.status == s.status
  {
    var s1 := Step(s, Advance(c, true));
    StepKeepsSafe(s, Advance(c, true));
    StepKeepsSafe(s1, Advance(c, true));
    CutsName(s.dag, rest[0]);
    CutsName(s1.dag, rest[0]);
    hide Safe;
    hide Failed;
    hide Written;
    hide Named;
    hide IdsOf;
    assert PcOf(s1, c) == CuttingRow(run, rest);
  }

  lemma {:induction false} CutAll(s: Server, c: Client, run: Run, rest: seq<TaskId>) returns (k: nat)
    requires RollsBack(s, c, run, rest)
    ensures RollsBack(Advanced(s, c, k), c, run, []) && Advanced(s, c, k).status == s.status
    decreases |rest|
  {
    hide RollsBack;
    hide Step;
    if rest == [] {
      k := 0;
    } else {
      CutOne(s, c, run, rest);
      var s2 := Step(Step(s, Advance(c, true)), Advance(c, true));
      var j := CutAll(s2, c, run, rest[1..]);
      assert Advanced(s, c, 2) == s2 by { assert Advanced(Step(s, Advance(c, true)), c, 1) == s2; }
      AdvancedSum(s, c, 2, j);
      k := 2 + j;
    }
  }

  lemma CutIsBase(s: Server, c: Client, run: Run)
    requires RollsBack(s, c, run, [])
    ensures PcOf(s, c) == Recording(run) && s.dag == run.base
  {
    HolderIs(s, c);
    hide Failed;
    hide Restricted;
    assert IdsOf(s.dag.tasks) <= run.pre;
    hide IdsOf;
    RestrictedToAll(s.dag, run.pre);
  }

  // ---- the whole run ----

  lemma Starts(s: Server, c: Client)
    requires Safe(s) && s.lock.None? && s.status == Planning && s.eligible && PcOf(s, c).Idle?
    ensures var t := Step(Step(Step(Step(s, CheckLane(c)), CheckMap(c)), Acquire(c)), Snapshot(c, true));
            AtWork(t, c, IdsOf(s.dag.tasks), [], s.dag, s.used) && t.status == s.status
  {
    var s1 := Step(s, CheckLane(c));
    var s2 := Step(s1, CheckMap(c));
    var s3 := Step(s2, Acquire(c));
    StepKeepsSafe(s, CheckLane(c));
    StepKeepsSafe(s1, CheckMap(c));
    StepKeepsSafe(s2, Acquire(c));
    StepKeepsSafe(s3, Snapshot(c, true));
    hide Safe;
    hide IdsOf;
    hide Restricted;
    assert PcOf(s3, c) == Started && s3.dag == s.dag && s3.used == s.used;
  }

  lemma EndsClean(s: Server, c: Client, pre: set<TaskId>, events: seq<RunEvent>, dag: Dag, used: set<TaskId>)
    requires AtWork(s, c, pre, events, dag, used) && FailedCalls(events, |events|) == [] && s.status == Planning
    ensures var t := Advanced(Step(s, EndStream(c)), c, 2);
            t.lock == None && PcOf(t, c) == Idle && t.status == Ready && t.dag == dag
  {
    hide Safe;
    hide FailedCalls;
    var s1 := Step(s, EndStream(c));
    assert PcOf(s1, c).Recording? && PcOf(s1, c).run.events == events;
    var s2 := Step(s1, Advance(c, true));
    assert PcOf(s2, c).Moving?;
    assert Advanced(s1, c, 2) == Step(s2, Advance(c, true)) by {
      hide Step;
      assert Advanced(s2, c, 1) == Advanced(Step(s2, Advance(c, true)), c, 0);
    }
  }

  lemma Lists(s: Server, c: Client, pre: set<TaskId>, events: seq<RunEvent>, dag: Dag, used: set<TaskId>)
    requires AtWork(s, c, pre, events, dag, used) && FailedCalls(events, |events|) != []
    ensures var t := Step(Step(s, EndStream(c)), Advance(c, true));
            var run := PcOf(s, c).run;
            RollsBack(t, c, run, Unwanted(dag.tasks, pre)) && run.base == Restricted(dag, pre) && t.status == s.status
  {
    HolderIs(s, c);
    StepKeepsSafe(s, EndStream(c));
    StepKeepsSafe(Step(s, EndStream(c)), Advance(c, true));
    BaseIs(s, c);
    hide Safe;
    hide FailedCalls;
    hide Unwanted;
    hide Restricted;
    assert PcOf(Step(s, EndStream(c)), c) == Listing(PcOf(s, c).run);
  }

  lemma BaseIs(s: Server, c: Client)
    requires Safe(s) && s.lock == Some(c) && HasRun(PcOf(s, c))
    ensures Restricted(s.dag, PcOf(s, c).run.pre) == PcOf(s, c).run.base
  {
    hide Restricted;
    hide LockOk;
    hide DagOk;
  }

  lemma Frees(s: Server, c: Client, run: Run)
    requires PcOf(s, c) == Recording(run) && Failed(run)
    ensures var t := Step(s, Advance(c, true));
            t.lock == None && PcOf(t, c) == Idle && t.status == s.status && t.dag == s.dag
  {
    hide Failed;
  }

  lemma EndsRolledBack(s: Server, c: Client, pre: set<TaskId>, events: seq<RunEvent>, dag: Dag, used: set<TaskId>)
    returns (k: nat)
    requires AtWork(s, c, pre, events, dag, used) && FailedCalls(events, |events|) != []
    ensures var t := Advanced(Step(s, EndStream(c)), c, k);
            t.lock == None && PcOf(t, c) == Idle && t.status == s.status && t.dag == Restricted(dag, pre)
  {
    hide *;
    var run := RunAtWork(s, c, pre, events, dag, used);
    Lists(s, c, pre, events, dag, used);
    var s1 := Step(s, EndStream(c));
    var s2 := Step(s1, Advance(c, true));
    var j := CutAll(s2, c, run, Unwanted(dag.tasks, pre));
    var s3 := Advanced(s2, c, j);
    CutIsBase(s3, c, run);
    RunFailed(s3, c, run);
    Frees(s3, c, run);
    AdvancedOne(s1, c);
    AdvancedOne(s3, c);
    AdvancedSum(s1, c, 1, j);
    AdvancedSum(s1, c, 1 + j, 1);
    k := 1 + j + 1;
  }

  lemma RunAtWork(s: Server, c: Client, pre: set<TaskId>, events: seq<RunEvent>, dag: Dag, used: set<TaskId>)
    returns (run: Run)
    requires AtWork(s, c, pre, events, dag, used)
    ensures PcOf(s, c) == Draining(run)
  {
    run := PcOf(s, c).run;
    hide Safe;
  }

  lemma RunFailed(s: Server, c: Client, run: Run)
    requires RollsBack(s, c, run, [])
    ensures Failed(run)
  {
  }

  lemma AdvancedOne(s: Server, c: Client)
    ensures Advanced(s, c, 1) == Step(s, Advance(c, true))
  {
    hide Step;
    assert Advanced(Step(s, Advance(c, true)), c, 0) == Step(s, Advance(c, true));
  }

  /** A run that nobody disturbs, from its trigger to the release of its lock: it ends with the lane and
      the DAG of the uninterrupted run, moved to Ready if no call failed, and else rolled back. */
  lemma AloneIsRun(s: Server, c: Client, script: seq<Item>) returns (k: nat)
    requires Safe(s) && s.lock.None? && s.status == Planning && s.eligible && PcOf(s, c).Idle?
    requires Playable(s.used, script)
    ensures var started := Step(Step(Step(Step(s, CheckLane(c)), CheckMap(c)), Acquire(c)), Snapshot(c, true));
            var t := Advanced(Step(Played(started, c, script), EndStream(c)), c, k);
            var effect := RunEffect(EpicState(s.status, s.dag, []), script);
            t.lock == None && PcOf(t, c) == Idle && t.status == effect.status && t.dag == effect.dag
  {
    hide *;
    Starts(s, c);
    var started := Step(Step(Step(Step(s, CheckLane(c)), CheckMap(c)), Acquire(c)), Snapshot(c, true));
    var pre, events := IdsOf(s.dag.tasks), EventsOf(script);
    var dag, used := AllWritten(s.dag, WritesOf(script)), UsedAfter(s.used, script);
    WorkStarts(started, c, pre, s.dag, s.used);
    PlayedAtWork(started, c, pre, script);
    var played := Played(started, c, script);
    RunEffectIs(EpicState(s.status, s.dag, []), script);
    if FailedCalls(events, |events|) == [] {
      EndsClean(played, c, pre, events, dag, used);
      k := 2;
    } else {
      k := EndsRolledBack(played, c, pre, events, dag, used);
    }
  }

  lemma WorkStarts(s: Server, c: Client, pre: set<TaskId>, dag: Dag, used: set<TaskId>)
    requires AtWork(s, c, pre, [], dag, used)
    ensures s.dag == dag && s.used == used
  {
  }
}
