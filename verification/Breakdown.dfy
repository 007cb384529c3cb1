/** One breakdown run: the fold over its event stream, the rollback of a failed run's tasks, and
    the move from Planning to Ready. */
module Breakdown {
  import opened RunEvents
  import opened TaskGraph
  import opened Text

  /** What every failed `dearborn` call prints. */
  const CLI_MARKER: string := "dearborn: "

  /** Tool name and failure output. */
  type Failure = (string, string)

  // ---- what a stream means ----

  predicate Concerns(e: RunEvent, call: string) { (e.ToolStart? || e.ToolEnd?) && e.call == call }

  /** The start at `j` is the latest of its call before `k`, and no end closed it since. */
  predicate OpenedAt(events: seq<RunEvent>, j: int, k: nat, call: string) {
    && 0 <= j < k <= |events| && events[j].ToolStart? && events[j].call == call
    && forall m :: j < m < k ==> !Concerns(events[m], call)
  }

  /** The name of that start, if there is one. */
  function OpenName(events: seq<RunEvent>, k: nat, call: string): Option<string>
    requires k <= |events|
  {
    if k == 0 then None
    else if !Concerns(events[k - 1], call) then OpenName(events, k - 1, call)
    else if events[k - 1].ToolStart? then Some(events[k - 1].name) else None
  }

  lemma {:induction false} OpenNameIs(events: seq<RunEvent>, k: nat, call: string)
    requires k <= |events|
    ensures OpenName(events, k, call).Some? <==> exists j :: OpenedAt(events, j, k, call)
    ensures forall j :: OpenedAt(events, j, k, call) ==> OpenName(events, k, call) == Some(events[j].name)
  {
    if k > 0 {
      OpenNameIs(events, k - 1, call);
      if Concerns(events[k - 1], call) {
        assert events[k - 1].ToolStart? ==> OpenedAt(events, k - 1, k, call);
        assert forall j :: OpenedAt(events, j, k, call) ==> j == k - 1;
      } else {
        forall j ensures OpenedAt(events, j, k, call) <==> OpenedAt(events, j, k - 1, call) {
          OpenedEarlier(events, j, k, call);
        }
        var g := k - 1;
        if j :| OpenedAt(events, j, g, call) { assert OpenedAt(events, j, k, call); }
        if j :| OpenedAt(events, j, k, call) { assert OpenedAt(events, j, g, call); }
      }
    }
  }

  lemma OpenedEarlier(events: seq<RunEvent>, j: int, k: nat, call: string)
    requires 0 < k <= |events| && !Concerns(events[k - 1], call)
    ensures OpenedAt(events, j, k, call) <==> OpenedAt(events, j, k - 1, call)
  {
  }

  function OutputOf(e: RunEvent): string
    requires e.ToolEnd?
  {
    if e.output.Some? then e.output.value else ""
  }

  /** What event `k` adds: a failed end, of a call that is open, whose output has the marker. */
  ghost function FailureAt(events: seq<RunEvent>, k: nat): seq<Failure>
    requires k < |events|
  {
    var e := events[k];
    if e.ToolEnd? && !e.ok && OpenName(events, k, e.call).Some? && Contains(OutputOf(e), CLI_MARKER)
    then [(OpenName(events, k, e.call).value, OutputOf(e))] else []
  }

  ghost function FailedCalls(events: seq<RunEvent>, k: nat): seq<Failure>
    requires k <= |events|
  {
    if k == 0 then [] else FailedCalls(events, k - 1) + FailureAt(events, k - 1)
  }

  // ---- the fold ----

  method ContainsMarker(s: string) returns (found: bool)
    ensures found <==> Contains(s, CLI_MARKER)
  {
    hide Find;
    var p := Find(s, CLI_MARKER, 0);
    FindLeast(s, CLI_MARKER, 0);
    found := p.Some?;
  }

  /** `pending` maps every open call to the name of its latest start, and nothing else. */
  ghost predicate Tracks(pending: map<string, string>, events: seq<RunEvent>) {
    forall call :: OpenName(events, |events|, call) == if call in pending then Some(pending[call]) else None
  }

  function NextPending(pending: map<string, string>, e: RunEvent): map<string, string> {
    match e
    case ToolStart(call, name) => pending[call := name]
    case ToolEnd(call, _, _) => pending - {call}
    case _ => pending
  }

  lemma TracksNext(pending: map<string, string>, events: seq<RunEvent>, e: RunEvent)
    requires Tracks(pending, events)
    ensures Tracks(NextPending(pending, e), events + [e])
  {
    var all, next := events + [e], NextPending(pending, e);
    forall call ensures OpenName(all, |all|, call) == if call in next then Some(next[call]) else None {
      OpenNamePrefix(events, e, |events|, call);
      assert OpenName(events, |events|, call) == if call in pending then Some(pending[call]) else None;
    }
  }

  lemma TracksOne(pending: map<string, string>, events: seq<RunEvent>, call: string)
    requires Tracks(pending, events)
    ensures OpenName(events, |events|, call) == if call in pending then Some(pending[call]) else None
  {
  }

  class BreakdownOutcome {
    var log: string
    var sessionId: Option<string>
    var pendingTools: map<string, string>
    var failedToolCalls: seq<Failure>

    ghost predicate Holds(events: seq<RunEvent>)
      reads this
    {
      && log == TextOf(events, |events|)
      && sessionId == SessionOf(events, |events|)
      && failedToolCalls == FailedCalls(events, |events|)
      && Tracks(pendingTools, events)
    }

    constructor ()
      ensures Holds([])
    {
      log, sessionId, pendingTools, failedToolCalls := "", None, map[], [];
    }

    /** `absorb`. */
    method Absorb(event: RunEvent, ghost events: seq<RunEvent>)
      requires Holds(events)
      modifies this
      ensures Holds(events + [event])
    {
      NextEvent(events, event);
      NextFailures(pendingTools, events, event);
      TracksNext(pendingTools, events, event);
      hide Contains;
      hide TextOf;
      hide SessionOf;
      hide FailedCalls;
      hide Tracks;
      assert event.ToolEnd? && event.call !in pendingTools ==> pendingTools - {event.call} == pendingTools;
      assert |events + [event]| == |events| + 1;
      match event
      case Delta(text) => log := log + text;
      case Session(id) => if id.Some? { sessionId := id; }
      case ToolStart(call, name) => pendingTools := pendingTools[call := name];
      case ToolEnd(call, ok, output) =>
        if call in pendingTools {
          var name := pendingTools[call];
          pendingTools := pendingTools - {call};
          if !ok {
            var out := if output.Some? then output.value else "";
            var failed := ContainsMarker(out);
            if failed {
              failedToolCalls := failedToolCalls + [(name, out)];
            }
          }
        }
      case _ =>
    }
  }

  /** For every stream: the log is the text deltas in order, and the failures are exactly the
      failed ends of open calls that carry the marker, in order, each with the name of its
      latest start. */
  method Drain(events: seq<RunEvent>) returns (outcome: BreakdownOutcome)
    ensures fresh(outcome) && outcome.Holds(events)
  {
    outcome := new BreakdownOutcome();
    for k := 0 to |events|
      invariant fresh(outcome) && outcome.Holds(events[..k])
    {
      outcome.Absorb(events[k], events[..k]);
      assert events[..k + 1] == events[..k] + [events[k]];
    }
    assert events[..|events|] == events;
  }

  lemma NextEvent(events: seq<RunEvent>, e: RunEvent)
    ensures var all, n := events + [e], |events|;
            && TextOf(all, n + 1) == (if e.Delta? then TextOf(events, n) + e.text else TextOf(events, n))
            && SessionOf(all, n + 1) == (if e.Session? && e.id.Some? then e.id else SessionOf(events, n))
  {
    TextPrefix(events, e, |events|);
  }

  lemma NextFailures(pending: map<string, string>, events: seq<RunEvent>, e: RunEvent)
    requires Tracks(pending, events)
    ensures var all, n := events + [e], |events|;
            FailedCalls(all, n + 1) ==
              if e.ToolEnd? && !e.ok && e.call in pending && Contains(OutputOf(e), CLI_MARKER)
              then FailedCalls(events, n) + [(pending[e.call], OutputOf(e))]
              else FailedCalls(events, n)
  {
    FailedCallsPrefix(events, e, |events|);
    if e.ToolEnd? {
      OpenNamePrefix(events, e, |events|, e.call);
      TracksOne(pending, events, e.call);
    }
    hide Contains;
    hide OpenName;
    hide Tracks;
  }

  // ---- which calls count as failed ----

  /** Event `k` ends, not ok, the call whose latest start is event `j`, and it printed `out`, in which
      the marker stands. An end that printed nothing is no such end. */
  predicate FailedEnd(events: seq<RunEvent>, j: int, k: int, out: string) {
    && 0 <= j < k < |events| && events[j].ToolStart? && events[k] == ToolEnd(events[j].call, false, Some(out))
    && (forall m :: j < m < k && (events[m].ToolStart? || events[m].ToolEnd?) ==> events[m].call != events[j].call)
    && Contains(out, "dearborn: ")
  }

  lemma StartIs(events: seq<RunEvent>, j: int, k: nat, out: string)
    requires k < |events| && events[k].ToolEnd?
    ensures FailedEnd(events, j, k, out) <==>
              OpenedAt(events, j, k, events[k].call) && !events[k].ok && events[k].output == Some(out)
              && Contains(out, "dearborn: ")
  {
    hide Contains;
  }

  /** A failure is recorded for an event exactly when it is such an end, under the name its call was
      started with, and with what it printed. */
  lemma FailureAtExactly(events: seq<RunEvent>, k: nat)
    requires k < |events|
    ensures FailureAt(events, k) != [] <==> exists j, out :: FailedEnd(events, j, k, out)
    ensures forall j, out :: FailedEnd(events, j, k, out) ==> FailureAt(events, k) == [(events[j].name, out)]
  {
    var e := events[k];
    if e.ToolEnd? {
      OpenNameIs(events, k, e.call);
      forall j, out ensures FailedEnd(events, j, k, out) <==>
                              OpenedAt(events, j, k, e.call) && !e.ok && e.output == Some(out)
                              && Contains(out, "dearborn: ")
      {
        StartIs(events, j, k, out);
      }
      MarkerNeedsText();
      hide OpenedAt;
      hide FailedEnd;
      hide OpenName;
      hide Contains;
      if FailureAt(events, k) != [] {
        var j :| OpenedAt(events, j, k, e.call);
        assert FailedEnd(events, j, k, OutputOf(e));
      }
    }
  }

  lemma MarkerNeedsText()
    ensures !Contains("", "dearborn: ")
  {
  }

  /** Event `k` is a failed end, recorded as `f`. */
  ghost predicate RecordedAs(events: seq<RunEvent>, k: nat, f: Failure) {
    exists j :: FailedEnd(events, j, k, f.1) && events[j].name == f.0
  }

  ghost predicate FailsAt(events: seq<RunEvent>, k: nat) { exists j, out :: FailedEnd(events, j, k, out) }

  /** The events `ks` are the failed ends before `n`, in order. */
  ghost predicate FailedEnds(events: seq<RunEvent>, n: nat, ks: seq<nat>) {
    && (forall i, j :: 0 <= i < j < |ks| ==> ks[i] < ks[j])
    && (forall k: nat :: k in ks <==> k < n && FailsAt(events, k))
  }

  lemma FailureStep(events: seq<RunEvent>, k: nat)
    requires k < |events|
    ensures FailedCalls(events, k + 1) == FailedCalls(events, k) + FailureAt(events, k)
    ensures FailsAt(events, k) <==> FailureAt(events, k) != []
    ensures |FailureAt(events, k)| <= 1
    ensures FailsAt(events, k) ==> RecordedAs(events, k, FailureAt(events, k)[0])
  {
    FailureAtExactly(events, k);
    FailedCallsIs(events, k);
    hide FailedCalls;
    hide FailedEnd;
    hide OpenName;
    hide Contains;
    if FailsAt(events, k) {
      var j, out :| FailedEnd(events, j, k, out);
      assert FailureAt(events, k)[0] == (events[j].name, out);
    }
  }

  lemma EndsGrow(events: seq<RunEvent>, n: nat, ks: seq<nat>)
    requires FailedEnds(events, n, ks)
    ensures FailedEnds(events, n + 1, if FailsAt(events, n) then ks + [n] else ks)
  {
    hide FailsAt;
    var more := if FailsAt(events, n) then ks + [n] else ks;
    forall k: nat ensures k in more <==> k < n + 1 && FailsAt(events, k) {
      assert k in more <==> k in ks || (k == n && FailsAt(events, n));
    }
    forall i, j | 0 <= i < j < |more| ensures more[i] < more[j] {
      if j == |ks| { assert more[i] == ks[i] && ks[i] in ks; }
    }
  }

  /** The recorded failures are, in order, those of exactly the failed ends. */
  lemma {:induction false} FailedCallsExactly(events: seq<RunEvent>, n: nat) returns (ks: seq<nat>)
    requires n <= |events|
    ensures FailedEnds(events, n, ks) && |ks| == |FailedCalls(events, n)|
    ensures forall i :: 0 <= i < |ks| ==> RecordedAs(events, ks[i], FailedCalls(events, n)[i])
  {
    hide *;
    if n == 0 {
      ks := [];
      NoEndsYet(events);
    } else {
      var before := FailedCallsExactly(events, n - 1);
      FailureStep(events, n - 1);
      EndsGrow(events, n - 1, before);
      ks := if FailsAt(events, n - 1) then before + [n - 1] else before;
    }
  }

  lemma NoEndsYet(events: seq<RunEvent>)
    ensures FailedEnds(events, 0, []) && FailedCalls(events, 0) == []
  {
  }

  // ---- chunking does not matter ----

  function WithoutText(events: seq<RunEvent>, k: nat): seq<RunEvent>
    requires k <= |events|
  {
    if k == 0 then [] else WithoutText(events, k - 1) + if events[k - 1].Delta? then [] else [events[k - 1]]
  }

  lemma {:induction false} OpenNamePrefix(events: seq<RunEvent>, e: RunEvent, k: nat, call: string)
    requires k <= |events|
    ensures OpenName(events + [e], k, call) == OpenName(events, k, call)
  {
    if k > 0 { OpenNamePrefix(events, e, k - 1, call); }
  }

  lemma {:induction false} FailedCallsPrefix(events: seq<RunEvent>, e: RunEvent, k: nat)
    requires k <= |events|
    ensures FailedCalls(events + [e], k) == FailedCalls(events, k)
  {
    hide Contains;
    if k > 0 {
      FailedCallsPrefix(events, e, k - 1);
      var end := events[k - 1];
      if end.ToolEnd? { OpenNamePrefix(events, e, k - 1, end.call); }
    }
  }

  lemma {:induction false} OpenNameIgnoresText(events: seq<RunEvent>, k: nat, call: string)
    requires k <= |events|
    ensures var rest := WithoutText(events, k); OpenName(rest, |rest|, call) == OpenName(events, k, call)
  {
    if k > 0 {
      OpenNameIgnoresText(events, k - 1, call);
      var rest := WithoutText(events, k - 1);
      if events[k - 1].Delta? {
        assert rest + [] == rest;
      } else {
        OpenNamePrefix(rest, events[k - 1], |rest|, call);
      }
    }
  }

  lemma WithoutTextIs(events: seq<RunEvent>, k: nat)
    requires 0 < k <= |events|
    ensures WithoutText(events, k) ==
            if events[k - 1].Delta? then WithoutText(events, k - 1) else WithoutText(events, k - 1) + [events[k - 1]]
  {
  }

  lemma FailedCallsIs(events: seq<RunEvent>, k: nat)
    requires k < |events|
    ensures FailedCalls(events, k + 1) == FailedCalls(events, k) + FailureAt(events, k)
  {
  }

  lemma NoFailureInText(events: seq<RunEvent>, k: nat)
    requires 0 < k <= |events| && events[k - 1].Delta?
    ensures FailedCalls(events, k) == FailedCalls(events, k - 1)
  {
    FailedCallsIs(events, k - 1);
    hide FailedCalls;
    hide OpenName;
    hide Contains;
  }

  lemma FailuresGo(events: seq<RunEvent>, rest: seq<RunEvent>, k: nat)
    requires k < |events| && rest == WithoutText(events, k) && FailedCalls(rest, |rest|) == FailedCalls(events, k)
    ensures FailedCalls(rest + [events[k]], |rest| + 1) == FailedCalls(events, k + 1)
  {
    hide *;
    FailedCallsIs(events, k);
    FailedCallsIs(rest + [events[k]], |rest|);
    FailedCallsPrefix(rest, events[k], |rest|);
    SameFailure(events, k);
  }

  lemma NothingYet(events: seq<RunEvent>)
    ensures WithoutText(events, 0) == [] && FailedCalls(events, 0) == FailedCalls([], 0)
  {
  }

  /** Text carries no failure: the stream without its deltas has the same ones, so any other
      chunking of the text, wherever it stands, does too. */
  lemma {:induction false} FailuresIgnoreText(events: seq<RunEvent>, k: nat)
    requires k <= |events|
    ensures var rest := WithoutText(events, k); FailedCalls(rest, |rest|) == FailedCalls(events, k)
  {
    hide *;
    if k == 0 {
      NothingYet(events);
    } else {
      FailuresIgnoreText(events, k - 1);
      WithoutTextIs(events, k);
      if events[k - 1].Delta? {
        NoFailureInText(events, k);
      } else {
        FailuresGo(events, WithoutText(events, k - 1), k - 1);
      }
    }
  }

  lemma SameFailure(events: seq<RunEvent>, k: nat)
    requires k < |events|
    ensures var rest := WithoutText(events, k); FailureAt(rest + [events[k]], |rest|) == FailureAt(events, k)
  {
    hide Contains;
    var e, rest := events[k], WithoutText(events, k);
    if e.ToolEnd? {
      OpenNameIgnoresText(events, k, e.call);
      OpenNamePrefix(rest, e, |rest|, e.call);
    }
    hide OpenName;
    hide WithoutText;
  }

  // ---- the run ----

  datatype Status = Planning | Ready | Elsewhere

  datatype Evidence = Evidence(ok: bool, log: string, session: Option<string>)

  datatype EpicState = EpicState(status: Status, dag: Dag, evidence: seq<Evidence>)

  /** One thing an agent does while it runs. */
  datatype Item = Emitted(event: RunEvent) | Wrote(write: Write)

  function EventsOf(script: seq<Item>): seq<RunEvent> {
    if script == [] then []
    else
      var last := script[|script| - 1];
      EventsOf(script[..|script| - 1]) + if last.Emitted? then [last.event] else []
  }

  function WritesOf(script: seq<Item>): seq<Write> {
    if script == [] then []
    else
      var last := script[|script| - 1];
      WritesOf(script[..|script| - 1]) + if last.Wrote? then [last.write] else []
  }

  function Decimal(n: nat): string {
    if n < 10 then [('0' as int + n) as char] else Decimal(n / 10) + [('0' as int + n % 10) as char]
  }

  function Described(f: Failure): string { if f.1 == "" then f.0 else f.0 + " (" + f.1 + ")" }

  function Joined(fs: seq<Failure>): string {
    if fs == [] then ""
    else if |fs| == 1 then Described(fs[0])
    else Joined(fs[..|fs| - 1]) + ", " + Described(fs[|fs| - 1])
  }

  const NOTE_HEAD := "\n\n[dearborn] breakdown aborted: "
  const NOTE_COUNTED := " dearborn CLI call(s) failed ("
  const NOTE_TAIL: string :=
    ") " + ['\U{2014}'] + " partial tasks created by this run were rolled back and the epic stays in "
    + "`Planning` so breakdown can be re-run."

  function AbortNote(failed: seq<Failure>): string {
    NOTE_HEAD + Decimal(|failed|) + NOTE_COUNTED + Joined(failed) + NOTE_TAIL
  }

  /** The number some digits spell. */
  function ValueOf(digits: string): int {
    if digits == "" then 0 else 10 * ValueOf(digits[..|digits| - 1]) + (digits[|digits| - 1] as int - '0' as int)
  }

  /** A count is written in decimal, without leading zeros. */
  lemma {:induction false} DecimalIs(n: nat)
    ensures var digits := Decimal(n);
            && digits != "" && ValueOf(digits) == n && (n > 0 ==> digits[0] != '0')
            && forall k :: 0 <= k < |digits| ==> '0' <= digits[k] <= '9'
  {
    if n < 10 {
      assert Decimal(n)[..0] == "";
    } else {
      DecimalIs(n / 10);
      assert Decimal(n)[..|Decimal(n)| - 1] == Decimal(n / 10);
    }
  }

  lemma JoinedMore(fs: seq<Failure>, f: Failure)
    requires fs != []
    ensures Joined(fs + [f]) == Joined(fs) + (", " + Described(f))
  {
    var all := fs + [f];
    assert all[..|all| - 1] == fs;
    hide Described;
  }

  lemma JoinedOne(f: Failure)
    ensures Joined([f]) == Described(f)
  {
  }

  /** The failures are named in order, with commas between them. */
  lemma {:induction false} JoinedIs(fs: seq<Failure>, gs: seq<Failure>)
    requires fs != [] && gs != []
    ensures Joined(fs + gs) == Joined(fs) + (", " + Joined(gs))
  {
    hide *;
    var before, last := gs[..|gs| - 1], gs[|gs| - 1];
    if before == [] {
      assert gs == [last];
      JoinedMore(fs, last);
      JoinedOne(last);
    } else {
      JoinedIs(fs, before);
      assert gs == before + [last] && fs + gs == (fs + before) + [last];
      JoinedMore(before, last);
      JoinedMore(fs + before, last);
      TextRegroups(Joined(fs), ", ", Joined(before), ", " + Described(last));
    }
  }

  lemma TextRegroups(a: string, b: string, c: string, d: string)
    ensures a + (b + c) + d == a + (b + (c + d))
  {
  }

  /** A failure is named by its tool and, in brackets, what it printed, if anything. */
  lemma DescribedIs(tool: string, output: string)
    ensures Described((tool, "")) == tool
    ensures output != "" ==> Described((tool, output)) == tool + " (" + output + ")"
  {
  }

  /** What the log of a failed run ends with, where one call failed. */
  lemma OneFailureNote(tool: string, output: string)
    ensures output != "" ==>
              AbortNote([(tool, output)]) ==
              "\n\n[dearborn] breakdown aborted: " + "1"
              + " dearborn CLI call(s) failed (" + tool + " (" + output + ")" +
              (") " + ['\U{2014}'] + " partial tasks created by this run were rolled back and the epic stays in "
               + "`Planning` so breakdown can be re-run.")
  {
    var fs := [(tool, output)];
    if output != "" { assert Joined(fs) == Described(fs[0]) == tool + " (" + output + ")"; }
    assert Decimal(|fs|) == "1";
  }

  /** What one run leaves behind, its agent doing `script`. */
  ghost function RunEffect(db: EpicState, script: seq<Item>): EpicState {
    var events := EventsOf(script);
    var failed := FailedCalls(events, |events|);
    var dag := AllWritten(db.dag, WritesOf(script));
    var log, session := TextOf(events, |events|), SessionOf(events, |events|);
    if failed == []
    then EpicState(if db.status == Planning then Ready else db.status, dag,
                   db.evidence + [Evidence(true, log, session)])
    else EpicState(db.status, Restricted(dag, IdsOf(db.dag.tasks)),
                   db.evidence + [Evidence(false, log + AbortNote(failed), session)])
  }

  /** What a breakdown token may write: new tasks and links. */
  predicate AgentWrites(ws: seq<Write>, pre: set<TaskId>) {
    forall k :: 0 <= k < |ws| ==> (ws[k].Create? && ws[k].id !in pre) || ws[k].Link?
  }

  class BreakdownEpic {
    var status: Status
    var dag: Dag
    var evidence: seq<Evidence>

    function View(): EpicState
      reads this
    {
      EpicState(status, dag, evidence)
    }

    constructor (db: EpicState)
      ensures View() == db
    {
      status, dag, evidence := db.status, db.dag, db.evidence;
    }

    /** One write through the REST verbs: `create_task`, `link_dependency` with its cycle check,
        `unlink_dependency`, and the two statements of `delete_task`. */
    method Apply(w: Write)
      modifies this
      ensures View() == old(View()).(dag := Written(old(dag), w))
    {
      hide MaxPosition;
      hide Trim;
      hide Without;
      hide Reaches;
      hide IdsOf;
      hide Named;
      match w
      case Create(id, title) =>
        var trimmed := Trim(title);
        if trimmed != "" {
          dag := dag.(tasks := dag.tasks + [Task(id, trimmed, MaxPosition(dag.tasks) + 1)]);
        }
      case Link(a, b) =>
        if a != b && a in IdsOf(dag.tasks) && b in IdsOf(dag.tasks) {
          var cycle := WouldCreateCycle(dag.edges, a, b);
          if !cycle {
            dag := dag.(edges := dag.edges + {(a, b)});
          }
        }
      case Unlink(a, b) => dag := dag.(edges := dag.edges - {(a, b)});
      case CutEdges(id) => dag := dag.(edges := set e | e in dag.edges && e.0 != id && e.1 != id);
      case CutRow(id) =>
        if !Named(dag.edges, id) {
          dag := dag.(tasks := Without(dag.tasks, id));
        }
    }

    /** `rollback_partial_dag`: what is left is exactly the given tasks and the edges among them. */
    method RollbackPartialDag(pre: set<TaskId>)
      requires EdgesInside(dag)
      modifies this
      ensures View() == old(View()).(dag := Restricted(old(dag), pre))
    {
      hide Keep;
      hide Without;
      hide Acyclic;
      var current := dag.tasks;
      assert current[0..] == current;
      for k := 0 to |current|
        invariant View() == old(View()).(dag := dag)
        invariant EdgesInside(dag) && Restricted(dag, pre) == Restricted(old(dag), pre)
        invariant IdsOf(dag.tasks) <= pre + IdsOf(current[k..])
      {
        var id := current[k].id;
        NextId(current, k);
        if id !in pre {
          CutBoth(dag, pre, id);
          Apply(CutEdges(id));
          Apply(CutRow(id));
        }
        hide IdsOf;
      }
      assert current[|current|..] == [];
      RestrictedToAll(dag, pre);
    }

    /** `spawn_breakdown`: drain, roll back if a CLI call failed, record, and move the epic. */
    method Run(script: seq<Item>)
      requires EdgesInside(dag)
      modifies this
      ensures View() == RunEffect(old(View()), script)
    {
      assert EventsOf([]) == [] && WritesOf([]) == [] && AllWritten(dag, []) == dag;
      hide *;
      ViewIs();
      var pre := IdsOf(dag.tasks);
      var outcome := new BreakdownOutcome();
      for k := 0 to |script|
        invariant fresh(outcome) && outcome.Holds(EventsOf(script[..k]))
        invariant View() == old(View()).(dag := dag)
        invariant dag == AllWritten(old(dag), WritesOf(script[..k])) && EdgesInside(dag)
      {
        NextItem(old(dag), script, k);
        match script[k]
        case Emitted(e) => outcome.Absorb(e, EventsOf(script[..k]));
        case Wrote(w) =>
          WriteKeepsEdgesInside(dag, w);
          Apply(w);
        ViewIs();
      }
      assert script[..|script|] == script;
      Outcome(outcome, EventsOf(script));
      var log := outcome.log;
      ViewIs();
      if outcome.failedToolCalls != [] {
        RollbackPartialDag(pre);
        ViewIs();
        log := log + AbortNote(outcome.failedToolCalls);
      }
      evidence := evidence + [Evidence(outcome.failedToolCalls == [], log, outcome.sessionId)];
      if outcome.failedToolCalls == [] {
        if status == Planning {
          status := Ready;
        }
      }
      ViewIs();
      RunEffectIs(old(View()), script);
    }

    lemma ViewIs()
      ensures View() == EpicState(status, dag, evidence)
    {
    }
  }

  lemma Outcome(outcome: BreakdownOutcome, events: seq<RunEvent>)
    requires outcome.Holds(events)
    ensures outcome.log == TextOf(events, |events|) && outcome.sessionId == SessionOf(events, |events|)
    ensures outcome.failedToolCalls == FailedCalls(events, |events|)
  {
  }

  lemma NextItem(d: Dag, script: seq<Item>, k: nat)
    requires k < |script|
    ensures EventsOf(script[..k + 1]) == EventsOf(script[..k]) + if script[k].Emitted? then [script[k].event] else []
    ensures AllWritten(d, WritesOf(script[..k + 1])) ==
            var before := AllWritten(d, WritesOf(script[..k]));
            if script[k].Wrote? then Written(before, script[k].write) else before
    ensures EventsOf(script[..k]) + [] == EventsOf(script[..k])
  {
    hide Written;
    assert script[..k + 1][..k] == script[..k];
    var ws := WritesOf(script[..k]);
    assert ws + [] == ws;
    if script[k].Wrote? {
      assert (ws + [script[k].write])[..|ws|] == ws;
    }
  }

  lemma RunEffectIs(db: EpicState, script: seq<Item>)
    ensures var events := EventsOf(script);
            var failed := FailedCalls(events, |events|);
            var dag := AllWritten(db.dag, WritesOf(script));
            var log, session := TextOf(events, |events|), SessionOf(events, |events|);
            RunEffect(db, script) ==
              if failed == []
              then EpicState(if db.status == Planning then Ready else db.status, dag,
                             db.evidence + [Evidence(true, log, session)])
              else EpicState(db.status, Restricted(dag, IdsOf(db.dag.tasks)),
                             db.evidence + [Evidence(false, log + AbortNote(failed), session)])
  {
  }

  lemma NextId(tasks: seq<Task>, k: nat)
    requires k < |tasks|
    ensures IdsOf(tasks[k..]) <= {tasks[k].id} + IdsOf(tasks[k + 1..])
  {
    forall id | id in IdsOf(tasks[k..]) && id != tasks[k].id ensures id in IdsOf(tasks[k + 1..]) {
      var t :| t in tasks[k..] && t.id == id;
      var j :| 0 <= j < |tasks[k..]| && tasks[k..][j] == t;
      assert tasks[k + 1..][j - 1] == t;
    }
  }

  lemma CutBoth(d: Dag, pre: set<TaskId>, id: TaskId)
    requires EdgesInside(d) && id !in pre
    ensures var d' := Written(Written(d, CutEdges(id)), CutRow(id));
            && EdgesInside(d') && Restricted(d', pre) == Restricted(d, pre)
            && IdsOf(d'.tasks) == IdsOf(d.tasks) - {id}
  {
    var d1 := Written(d, CutEdges(id));
    CutOutside(d, pre, id);
    CutOutside(d1, pre, id);
    WriteKeepsEdgesInside(d, CutEdges(id));
    WriteKeepsEdgesInside(d1, CutRow(id));
    WithoutIds(d1.tasks, id);
    hide Restricted;
    hide EdgesInside;
    hide IdsOf;
  }

  lemma RestrictedToAll(d: Dag, pre: set<TaskId>)
    requires EdgesInside(d) && IdsOf(d.tasks) <= pre
    ensures Restricted(d, pre) == d
  {
    KeepAll(d.tasks, pre);
  }

  // ---- a failed run undoes itself ----

  /** The accepted links of `ws` that join two tasks of `pre`. */
  ghost function OldLinks(d: Dag, ws: seq<Write>, pre: set<TaskId>): set<Edge> {
    if ws == [] then {}
    else
      var before, last := ws[..|ws| - 1], ws[|ws| - 1];
      OldLinks(d, before, pre) +
      if last.Link? && Linkable(AllWritten(d, before), last.blocker, last.blocked)
           && last.blocker in pre && last.blocked in pre
      then {(last.blocker, last.blocked)} else {}
  }

  /** Of an agent's writes, only links between tasks that were there before show among those. */
  lemma {:induction false} AgentWritesKeepOld(d: Dag, ws: seq<Write>)
    requires EdgesInside(d) && AgentWrites(ws, IdsOf(d.tasks))
    ensures Restricted(AllWritten(d, ws), IdsOf(d.tasks)) == d.(edges := d.edges + OldLinks(d, ws, IdsOf(d.tasks)))
  {
    var pre := IdsOf(d.tasks);
    if ws == [] {
      RestrictedToAll(d, pre);
      assert d.edges + {} == d.edges;
    } else {
      var before, last := ws[..|ws| - 1], ws[|ws| - 1];
      assert AgentWrites(before, pre) && (last.Link? || (last.Create? && last.id !in pre));
      AgentWritesKeepOld(d, before);
      hide EdgesInside;
      hide AgentWrites;
      hide Linkable;
      RestrictedWritten(AllWritten(d, before), pre, last);
      hide Restricted;
      hide Written;
      hide IdsOf;
      assert d.edges + OldLinks(d, before, pre) + {} == d.edges + OldLinks(d, before, pre);
    }
  }

  ghost predicate Fails(script: seq<Item>) {
    FailedCalls(EventsOf(script), |EventsOf(script)|) != []
  }

  /** A run that recorded a failed CLI call leaves the epic where it was, with exactly the tasks
      that were there, and exactly their edges if and only if it added no link between two of
      them. */
  lemma FailedRunRestores(db: EpicState, script: seq<Item>)
    requires EdgesInside(db.dag) && AgentWrites(WritesOf(script), IdsOf(db.dag.tasks)) && Fails(script)
    ensures var after := RunEffect(db, script);
            && after.status == db.status && after.dag.tasks == db.dag.tasks
            && (after.dag == db.dag <==> OldLinks(db.dag, WritesOf(script), IdsOf(db.dag.tasks)) <= db.dag.edges)
  {
    AgentWritesKeepOld(db.dag, WritesOf(script));
    RunEffectIs(db, script);
    hide *;
    FailsMeans(script);
    var links := OldLinks(db.dag, WritesOf(script), IdsOf(db.dag.tasks));
    assert links <= db.dag.edges <==> db.dag.edges + links == db.dag.edges;
  }

  lemma FailsMeans(script: seq<Item>)
    ensures Fails(script) <==> FailedCalls(EventsOf(script), |EventsOf(script)|) != []
  {
  }

  /** Only a run without a recorded failure moves the epic, and only out of Planning. */
  lemma OnlyCleanRunsMove(db: EpicState, script: seq<Item>)
    ensures RunEffect(db, script).status != db.status <==> db.status == Planning && !Fails(script)
  {
    RunEffectIs(db, script);
    hide *;
    FailsMeans(script);
  }

  /** Each run leaves one row of evidence: ok unless a call failed, with the session named last, the text
      streamed and, behind it, the note of a failure. */
  lemma RunLeavesEvidence(db: EpicState, script: seq<Item>)
    ensures var rows := RunEffect(db, script).evidence;
            var events := EventsOf(script);
            && |rows| == |db.evidence| + 1 && rows[..|db.evidence|] == db.evidence
            && var row := rows[|db.evidence|];
               && (row.ok <==> !Fails(script)) && row.session == SessionOf(events, |events|)
               && TextOf(events, |events|) <= row.log
               && (row.ok ==> row.log == TextOf(events, |events|))
               && (!row.ok ==> row.log == TextOf(events, |events|) + AbortNote(FailedCalls(events, |events|)))
  {
    RunEffectIs(db, script);
    hide *;
    FailsMeans(script);
  }

  /** Only failed CLI calls are looked at: an agent that crashed with none still moves the epic. */
  lemma CrashedAgentStillMoves(db: EpicState, code: int)
    requires db.status == Planning
    ensures RunEffect(db, [Emitted(Exited(Some(code), true))]).status == Ready
  {
    var script := [Emitted(Exited(Some(code), true))];
    assert script[..0] == [] && EventsOf([]) == [];
    assert EventsOf(script) == [Exited(Some(code), true)];
    var events := EventsOf(script);
    assert FailureAt(events, 0) == [] && FailedCalls(events, 0) == [];
    assert FailedCalls(events, 1) == [];
    hide Restricted;
    hide AllWritten;
    hide TextOf;
    hide SessionOf;
  }

  const FAILING := [ToolStart("c", "t"), ToolEnd("c", false, Some(CLI_MARKER))]

  lemma OneFailure()
    ensures FailedCalls(FAILING, |FAILING|) != []
  {
    assert OpenName(FAILING, 1, "c") == Some("t");
    assert CLI_MARKER[0..|CLI_MARKER|] == CLI_MARKER;
    assert OccursAt(CLI_MARKER, CLI_MARKER, 0);
    assert FailureAt(FAILING, 1) != [];
  }

  lemma LinkShows(d: Dag, a: TaskId, b: TaskId)
    requires a != b && a in IdsOf(d.tasks) && b in IdsOf(d.tasks) && d.edges == {}
    ensures AllWritten(d, [Link(a, b)]) == d.(edges := {(a, b)})
    ensures OldLinks(d, [Link(a, b)], IdsOf(d.tasks)) == {(a, b)}
  {
    ClosedHolds({}, {b}, b);
    hide Reaches;
    hide IdsOf;
    var ws := [Link(a, b)];
    assert ws[..0] == [];
    assert AllWritten(d, []) == d && OldLinks(d, [], IdsOf(d.tasks)) == {};
    assert Linkable(d, a, b);
  }

  lemma ScriptOf(a: TaskId, b: TaskId)
    ensures var script := [Wrote(Link(a, b)), Emitted(FAILING[0]), Emitted(FAILING[1])];
            EventsOf(script) == FAILING && WritesOf(script) == [Link(a, b)]
  {
    var script := [Wrote(Link(a, b)), Emitted(FAILING[0]), Emitted(FAILING[1])];
    assert script[..2][..1] == [Wrote(Link(a, b))] && script[..2] == [Wrote(Link(a, b)), Emitted(FAILING[0])];
    assert script[..2][..1][..0] == [];
    assert EventsOf(script[..2][..1]) == [] && WritesOf(script[..2][..1]) == [Link(a, b)];
    assert EventsOf(script[..2]) == [FAILING[0]] && WritesOf(script[..2]) == [Link(a, b)];
    assert EventsOf(script) == [FAILING[0]] + [FAILING[1]];
  }

  /** A failed run that keeps a link: the agent joins two tasks that were there, and then one of
      its CLI calls fails. */
  lemma FailedRunKeepsOldLink(db: EpicState, a: TaskId, b: TaskId)
    requires a != b && a in IdsOf(db.dag.tasks) && b in IdsOf(db.dag.tasks) && db.dag.edges == {}
    ensures var script := [Wrote(Link(a, b)), Emitted(FAILING[0]), Emitted(FAILING[1])];
            var after := RunEffect(db, script);
            Fails(script) && after.status == db.status && after.dag == db.dag.(edges := {(a, b)})
  {
    var script := [Wrote(Link(a, b)), Emitted(FAILING[0]), Emitted(FAILING[1])];
    ScriptOf(a, b);
    OneFailure();
    FailsMeans(script);
    LinkShows(db.dag, a, b);
    AgentWritesKeepOld(db.dag, [Link(a, b)]);
    RunEffectIs(db, script);
    hide *;
    assert {} + {(a, b)} == {(a, b)};
  }

  ghost function Runs(db: EpicState, scripts: seq<seq<Item>>): EpicState {
    if scripts == [] then db else RunEffect(Runs(db, scripts[..|scripts| - 1]), scripts[|scripts| - 1])
  }

  /** Runs that fail, and add no link between the tasks they found. */
  ghost predicate HarmlessFailures(dag: Dag, scripts: seq<seq<Item>>) {
    forall k :: 0 <= k < |scripts| ==> HarmlessFailure(dag, scripts[k])
  }

  ghost predicate HarmlessFailure(dag: Dag, script: seq<Item>) {
    && Fails(script) && AgentWrites(WritesOf(script), IdsOf(dag.tasks))
    && OldLinks(dag, WritesOf(script), IdsOf(dag.tasks)) <= dag.edges
  }

  lemma {:induction false} FailuresRestore(db: EpicState, scripts: seq<seq<Item>>)
    requires EdgesInside(db.dag) && HarmlessFailures(db.dag, scripts)
    ensures Runs(db, scripts).status == db.status && Runs(db, scripts).dag == db.dag
    ensures |Runs(db, scripts).evidence| == |db.evidence| + |scripts|
  {
    hide EdgesInside;
    hide HarmlessFailure;
    hide RunEffect;
    if scripts != [] {
      var before, last := scripts[..|scripts| - 1], scripts[|scripts| - 1];
      FailuresRestore(db, before);
      assert HarmlessFailure(db.dag, last);
      var mid := Runs(db, before);
      assert mid.dag == db.dag && HarmlessFailure(mid.dag, last);
      OneFailureRestores(mid, last);
    }
  }

  lemma OneFailureRestores(db: EpicState, script: seq<Item>)
    requires EdgesInside(db.dag) && HarmlessFailure(db.dag, script)
    ensures RunEffect(db, script).status == db.status && RunEffect(db, script).dag == db.dag
    ensures |RunEffect(db, script).evidence| == |db.evidence| + 1
  {
    FailedRunRestores(db, script);
    RunEffectIs(db, script);
    hide RunEffect;
    hide FailedCalls;
    hide EventsOf;
    hide WritesOf;
    hide OldLinks;
    hide AgentWrites;
    hide EdgesInside;
    hide Restricted;
    hide AllWritten;
  }

  /** However many runs fail, the next one does what it would have done first: same lane, same
      tasks in the same positions, same edges. */
  lemma FailedRunsThenAny(db: EpicState, scripts: seq<seq<Item>>, last: seq<Item>)
    requires EdgesInside(db.dag) && HarmlessFailures(db.dag, scripts)
    ensures var after := Runs(db, scripts + [last]);
            after.status == RunEffect(db, last).status && after.dag == RunEffect(db, last).dag
  {
    FailuresRestore(db, scripts);
    assert (scripts + [last])[..|scripts|] == scripts;
    RunEffectIs(db, last);
    RunEffectIs(Runs(db, scripts), last);
    hide EdgesInside;
    hide HarmlessFailures;
    hide RunEffect;
    hide FailedCalls;
    hide EventsOf;
    hide WritesOf;
    hide Restricted;
    hide AllWritten;
  }
}
