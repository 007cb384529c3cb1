/** The `agent_run` evidence rows: opened, flushed and closed by stages, reconciled at boot.
    The table's methods run one SQL statement each; the server machine below interleaves
    them over any number of stages, crashes and boots. */
module EvidenceRows {
  import opened Text
  import opened Utf8
  import opened EvidenceLog

  datatype Status = Running | Ok | Error | Timeout | Cancelled

  datatype Run = Run(
    task: Option<string>, stage: string, attempt: int,
    status: Status, verdict: Option<string>, endedAt: Option<int>,
    log: Bytes, thinking: Bytes)

  /** How a stage's body ended, as `guard_stage_close` sees it. */
  datatype BodyOutcome =
    | Finished(status: Status, verdict: Option<string>, log: Bytes)
    | Failed(message: Bytes)
    | Panicked(message: Bytes)

  const NOTE_HEAD := "[dearborn: this stage was still marked running when the server booted "
  const NOTE_TAIL := " the process that owned it went away mid-run; closed as cancelled]"

  /** The orphan note, with its em dash. */
  const ORPHANED_RUNNING_NOTE: string := NOTE_HEAD + ['\U{2014}'] + NOTE_TAIL

  function OrphanNote(): Bytes { Encode(ORPHANED_RUNNING_NOTE) }

  const PANIC_PREFIX: string := "stage panicked" + ": "

  function PanicPrefix(): Bytes { Encode(PANIC_PREFIX) }

  // ---- the statements ----

  function Opened(rows: seq<Run>, task: Option<string>, stage: string, attempt: int): seq<Run> {
    rows + [Run(task, stage, attempt, Running, None, None, [], [])]
  }

  function Flushed(rows: seq<Run>, id: nat, log: Bytes, thinking: Bytes): seq<Run>
    requires id < |rows|
  {
    rows[id := rows[id].(log := Capped(log), thinking := Capped(thinking))]
  }

  function ClosingStatus(o: BodyOutcome): Status { if o.Finished? then o.status else Error }

  function ClosingLog(o: BodyOutcome): Bytes {
    match o
    case Finished(_, _, log) => log
    case Failed(message) => message
    case Panicked(message) => PanicPrefix() + message
  }

  function Closed(rows: seq<Run>, id: nat, o: BodyOutcome, now: int): seq<Run>
    requires id < |rows|
  {
    rows[id := rows[id].(status := ClosingStatus(o), verdict := if o.Finished? then o.verdict else None,
                         endedAt := Some(now), log := Capped(ClosingLog(o)))]
  }

  function Orphaned(r: Run, now: int, note: Bytes): Run {
    if r.status == Running
    then r.(status := Cancelled, endedAt := Some(now), log := if r.log == [] then note else r.log + [10] + note)
    else r
  }

  function Reconciled(rows: seq<Run>, now: int, note: Bytes): (r: seq<Run>)
    ensures |r| == |rows| && forall k :: 0 <= k < |rows| ==> r[k] == Orphaned(rows[k], now, note)
  {
    seq(|rows|, k requires 0 <= k < |rows| => Orphaned(rows[k], now, note))
  }

  /** The attempts recorded for one (task, stage), in the order their rows were opened. */
  function AttemptsOf(rows: seq<Run>, task: string, stage: string): seq<int> {
    if rows == [] then []
    else
      var last := rows[|rows| - 1];
      AttemptsOf(rows[..|rows| - 1], task, stage)
      + if last.task == Some(task) && last.stage == stage then [last.attempt] else []
  }

  /** `COALESCE(MAX(attempt), 0) + 1`. */
  function MaxAttempt(xs: seq<int>): int {
    if xs == [] then 0
    else if |xs| == 1 then xs[0]
    else var m := MaxAttempt(xs[..|xs| - 1]); if m < xs[|xs| - 1] then xs[|xs| - 1] else m
  }

  function NextAttempt(rows: seq<Run>, task: string, stage: string): int {
    MaxAttempt(AttemptsOf(rows, task, stage)) + 1
  }

  function BestOf(xs: seq<int>): Option<int> { if xs == [] then None else Some(MaxAttempt(xs)) }

  lemma BestAppend(xs: seq<int>, a: int)
    ensures BestOf(xs + [a]) == Some(if xs == [] || MaxAttempt(xs) < a then a else MaxAttempt(xs))
  {
    assert (xs + [a])[..|xs|] == xs;
  }

  class AgentRunTable {
    var rows: seq<Run>

    constructor ()
      ensures rows == []
    {
      rows := [];
    }

    /** `open_stage`. */
    method OpenStage(task: Option<string>, stage: string, attempt: int) returns (id: nat)
      modifies this
      ensures rows == Opened(old(rows), task, stage, attempt) && id == |old(rows)|
    {
      id := |rows|;
      rows := rows + [Run(task, stage, attempt, Running, None, None, [], [])];
    }

    /** `flush_stage_log`. */
    method FlushStageLog(id: nat, log: Bytes, thinking: Bytes)
      requires id < |rows|
      modifies this
      ensures rows == Flushed(old(rows), id, log, thinking)
    {
      var cappedLog := CapLog(log);
      var cappedThinking := CapLog(thinking);
      rows := rows[id := rows[id].(log := cappedLog, thinking := cappedThinking)];
    }

    /** `close_stage`, as `guard_stage_close` calls it for each way a body can end. */
    method GuardStageClose(id: nat, o: BodyOutcome, now: int)
      requires id < |rows|
      modifies this
      ensures rows == Closed(old(rows), id, o, now)
    {
      match o {
        case Finished(status, verdict, log) =>
          var capped := CapLog(log);
          rows := rows[id := rows[id].(status := status, verdict := verdict, endedAt := Some(now), log := capped)];
        case Failed(message) =>
          var capped := CapLog(message);
          rows := rows[id := rows[id].(status := Error, verdict := None, endedAt := Some(now), log := capped)];
        case Panicked(message) =>
          var capped := CapLog(PanicPrefix() + message);
          rows := rows[id := rows[id].(status := Error, verdict := None, endedAt := Some(now), log := capped)];
      }
    }

    /** `cancel_orphaned_running`: one update over every running row, and whether it hit any. */
    method CancelOrphanedRunning(now: int) returns (count: nat)
      modifies this
      ensures rows == Reconciled(old(rows), now, OrphanNote())
      ensures count == 0 <==> forall k :: 0 <= k < |old(rows)| ==> old(rows)[k].status != Running
    {
      hide OrphanNote;
      var note := OrphanNote();
      var out: seq<Run> := [];
      count := 0;
      for k := 0 to |rows|
        invariant rows == old(rows) && |out| == k
        invariant forall j :: 0 <= j < k ==> out[j] == Orphaned(rows[j], now, note)
        invariant count == 0 <==> forall j :: 0 <= j < k ==> rows[j].status != Running
      {
        if rows[k].status == Running {
          count := count + 1;
        }
        out := out + [Orphaned(rows[k], now, note)];
      }
      rows := out;
    }

    /** `next_attempt`: the highest attempt recorded for the pair, plus one. */
    method DrawAttempt(task: string, stage: string) returns (attempt: int)
      ensures attempt == NextAttempt(rows, task, stage)
    {
      var best: Option<int> := None;
      for k := 0 to |rows|
        invariant best == BestOf(AttemptsOf(rows[..k], task, stage))
      {
        assert rows[..k + 1][..k] == rows[..k];
        if rows[k].task == Some(task) && rows[k].stage == stage {
          BestAppend(AttemptsOf(rows[..k], task, stage), rows[k].attempt);
          if best.None? || best.value < rows[k].attempt {
            best := Some(rows[k].attempt);
          }
        } else {
          assert AttemptsOf(rows[..k], task, stage) + [] == AttemptsOf(rows[..k], task, stage);
        }
      }
      assert rows[..|rows|] == rows;
      attempt := (if best.Some? then best.value else 0) + 1;
    }
  }

  // ---- the server: stages, crashes and boots, interleaved ----

  type Worker = nat

  datatype Drawn = Drawn(task: string, stage: string, attempt: int)

  /** A claim on a task; one that is not renewed in time can be taken over. */
  datatype Lease = Lease(owner: Worker, expired: bool)

  /** `live` are the rows whose stage handle a running process still holds; `working` says who runs
      whose stages, whatever has become of the lease since. */
  datatype Server = Server(
    rows: seq<Run>, up: bool, live: set<nat>,
    leases: map<string, Lease>, working: set<(Worker, string)>, drawn: map<Worker, Drawn>)

  /** One atomic step. `ok` says whether the statement reached the database. */
  datatype Event =
    | Claim(w: Worker, task: string)
    | Expire(task: string)
    | Renew(w: Worker, task: string)
    | Draw(w: Worker, task: string, stage: string)
    | OpenDrawn(w: Worker, ok: bool)
    | OpenCounted(owner: Option<string>, stage: string, attempt: int)
    | Flush(id: nat, log: Bytes, thinking: Bytes)
    | Close(id: nat, outcome: BodyOutcome, now: int, ok: bool)
    | SetVerdict(id: nat, verdict: string)
    | SetThinking(id: nat, thinking: Bytes)
    | Release(w: Worker, task: string)
    | Crash
    | Boot(now: int, ok: bool)

  function Start(): Server { Server([], true, {}, map[], {}, map[]) }

  predicate Claimable(s: Server, task: string) { task !in s.leases || s.leases[task].expired }

  predicate Owns(s: Server, w: Worker, task: string) { task in s.leases && s.leases[task].owner == w }

  function Step(s: Server, e: Event): Server {
    match e
    case Claim(w, task) =>
      if s.up && Claimable(s, task)
      then s.(leases := s.leases[task := Lease(w, false)], working := s.working + {(w, task)}) else s
    case Expire(task) =>
      if task in s.leases then s.(leases := s.leases[task := s.leases[task].(expired := true)]) else s
    case Renew(w, task) =>
      if (w, task) !in s.working then s
      else if Owns(s, w, task) then s.(leases := s.leases[task := Lease(w, false)])
      else s.(working := s.working - {(w, task)})
    case Draw(w, task, stage) =>
      if s.up && (w, task) in s.working
      then s.(drawn := s.drawn[w := Drawn(task, stage, NextAttempt(s.rows, task, stage))]) else s
    case OpenDrawn(w, ok) =>
      if !s.up || w !in s.drawn then s
      else
        var d := s.drawn[w];
        var t := s.(drawn := s.drawn - {w});
        if ok then t.(rows := Opened(s.rows, Some(d.task), d.stage, d.attempt), live := s.live + {|s.rows|}) else t
    case OpenCounted(task, stage, attempt) =>
      if s.up then s.(rows := Opened(s.rows, task, stage, attempt), live := s.live + {|s.rows|}) else s
    case Flush(id, log, thinking) =>
      if id in s.live && id < |s.rows| then s.(rows := Flushed(s.rows, id, log, thinking)) else s
    case Close(id, outcome, now, ok) =>
      if id in s.live && id < |s.rows| && ClosingStatus(outcome) != Running
      then s.(live := s.live - {id}, rows := if ok then Closed(s.rows, id, outcome, now) else s.rows) else s
    case SetVerdict(id, verdict) =>
      if s.up && id < |s.rows| && s.rows[id].status != Running
      then s.(rows := s.rows[id := s.rows[id].(verdict := Some(verdict))]) else s
    case SetThinking(id, thinking) =>
      if s.up && id < |s.rows| && s.rows[id].status != Running
      then s.(rows := s.rows[id := s.rows[id].(thinking := Capped(thinking))]) else s
    case Release(w, task) =>
      if (w, task) !in s.working || (w in s.drawn && s.drawn[w].task == task) then s
      else s.(working := s.working - {(w, task)}, leases := if Owns(s, w, task) then s.leases - {task} else s.leases)
    case Crash => s.(up := false, live := {}, working := {}, drawn := map[])
    case Boot(now, ok) =>
      if s.up then s
      else s.(up := true, leases := map[], rows := if ok then Reconciled(s.rows, now, OrphanNote()) else s.rows)
  }

  function After(s: Server, events: seq<Event>): Server
    decreases |events|
  {
    if events == [] then s else Step(After(s, events[..|events| - 1]), events[|events| - 1])
  }

  lemma AfterOne(s: Server, events: seq<Event>, e: Event)
    ensures After(s, events + [e]) == Step(After(s, events), e)
  {
    assert (events + [e])[..|events|] == events;
  }

  lemma AfterTwo(s: Server, events: seq<Event>, a: Event, b: Event)
    ensures After(s, events + [a, b]) == Step(Step(After(s, events), a), b)
  {
    hide Step;
    hide After;
    AfterOne(s, events, a);
    AfterOne(s, events + [a], b);
    assert events + [a, b] == events + [a] + [b];
  }

  // ---- what every run keeps ----

  function NoteRoom(): nat { |OrphanNote()| + 1 }

  ghost predicate RowOk(r: Run) {
    && (r.status == Running <==> r.endedAt.None?)
    && Valid(r.log) && Valid(r.thinking)
    && |r.thinking| <= LOG_CAP_BYTES
    && |r.log| <= LOG_CAP_BYTES + (if r.status == Running then 0 else NoteRoom())
  }

  /** Stage handles belong to a running process and to rows it has not closed. */
  predicate HandlesOk(s: Server) {
    && (!s.up ==> s.live == {})
    && forall id :: id in s.live ==> id < |s.rows| && s.rows[id].status == Running
  }

  ghost predicate Inv(s: Server) {
    HandlesOk(s) && forall k :: 0 <= k < |s.rows| ==> RowOk(s.rows[k])
  }

  /** The texts a stage reports are Rust strings. */
  ghost predicate TextsValid(e: Event) {
    match e
    case Flush(_, log, thinking) => Valid(log) && Valid(thinking)
    case Close(_, outcome, _, _) => Valid(if outcome.Finished? then outcome.log else outcome.message)
    case SetThinking(_, thinking) => Valid(thinking)
    case _ => true
  }

  lemma NotesValid()
    ensures Valid(OrphanNote()) && Valid(PanicPrefix()) && Valid([10]) && Valid([])
  {
    assert Encode("") == [] && Encode("\n") == [10] + Encode("");
    assert OrphanNote() == Encode(ORPHANED_RUNNING_NOTE) && PanicPrefix() == Encode(PANIC_PREFIX);
  }

  lemma ClosedRowOk(r: Run, o: BodyOutcome, now: int)
    requires RowOk(r) && Valid(if o.Finished? then o.log else o.message) && ClosingStatus(o) != Running
    ensures RowOk(r.(status := ClosingStatus(o), verdict := if o.Finished? then o.verdict else None,
                     endedAt := Some(now), log := Capped(ClosingLog(o))))
  {
    hide Valid;
    hide Capped;
    hide OrphanNote;
    hide PanicPrefix;
    NotesValid();
    if o.Panicked? { ValidConcat(PanicPrefix(), o.message); }
    CappedIsValid(ClosingLog(o));
  }

  lemma OrphanedRowOk(r: Run, now: int)
    requires RowOk(r)
    ensures RowOk(Orphaned(r, now, OrphanNote())) && Orphaned(r, now, OrphanNote()).status != Running
  {
    hide Valid;
    hide OrphanNote;
    hide PanicPrefix;
    NotesValid();
    if r.status == Running {
      ValidConcat(r.log, [10]);
      ValidConcat(r.log + [10], OrphanNote());
    }
  }

  lemma FlushedRowOk(r: Run, log: Bytes, thinking: Bytes)
    requires RowOk(r) && Valid(log) && Valid(thinking)
    ensures RowOk(r.(log := Capped(log), thinking := Capped(thinking)))
    ensures RowOk(r.(thinking := Capped(thinking)))
  {
    hide Valid;
    hide Capped;
    hide OrphanNote;
    CappedIsValid(log);
    CappedIsValid(thinking);
  }

  /** Every step keeps the rows well formed, under any interleaving. */
  lemma StepKeepsInv(s: Server, e: Event)
    requires Inv(s) && TextsValid(e)
    ensures Inv(Step(s, e))
  {
    hide Valid;
    hide Capped;
    hide OrphanNote;
    hide PanicPrefix;
    hide NextAttempt;
    NotesValid();
    match e
    case Flush(id, log, thinking) =>
      if id in s.live && id < |s.rows| { FlushedRowOk(s.rows[id], log, thinking); }
    case Close(id, outcome, now, ok) =>
      if id in s.live && id < |s.rows| && ClosingStatus(outcome) != Running { ClosedRowOk(s.rows[id], outcome, now); }
    case SetThinking(id, thinking) =>
      if id < |s.rows| { FlushedRowOk(s.rows[id], thinking, thinking); }
    case Boot(now, ok) =>
      forall k | 0 <= k < |s.rows| ensures RowOk(Orphaned(s.rows[k], now, OrphanNote())) {
        OrphanedRowOk(s.rows[k], now);
      }
    case _ =>
  }

  /** Over every run: running exactly while unended, logs and reasoning within their bounds. */
  lemma {:induction false} RunKeepsInv(events: seq<Event>)
    requires forall k :: 0 <= k < |events| ==> TextsValid(events[k])
    ensures Inv(After(Start(), events))
  {
    hide Step;
    if events != [] {
      RunKeepsInv(events[..|events| - 1]);
      hide Inv;
      StepKeepsInv(After(Start(), events[..|events| - 1]), events[|events| - 1]);
    }
  }

  /** The part of a row that is fixed once it is closed. */
  predicate SameClosed(r: Run, q: Run) {
    && q.task == r.task && q.stage == r.stage && q.attempt == r.attempt
    && q.status == r.status && q.endedAt == r.endedAt && q.log == r.log
  }

  /** Rows are never removed, keep their attempt, and a closed row never runs again. */
  ghost predicate Extends(s: Server, t: Server) {
    && |s.rows| <= |t.rows|
    && (forall k :: 0 <= k < |s.rows| ==>
          && t.rows[k].task == s.rows[k].task && t.rows[k].stage == s.rows[k].stage
          && t.rows[k].attempt == s.rows[k].attempt
          && (s.rows[k].status != Running ==> SameClosed(s.rows[k], t.rows[k])))
  }

  lemma StepExtends(s: Server, e: Event)
    requires HandlesOk(s)
    ensures Extends(s, Step(s, e)) && HandlesOk(Step(s, e))
  {
    hide Capped;
    hide OrphanNote;
    hide PanicPrefix;
    hide NextAttempt;
  }

  lemma ExtendsThrough(s: Server, t: Server, u: Server)
    requires Extends(s, t) && Extends(t, u)
    ensures Extends(s, u)
  {
  }

  lemma {:induction false} ClosedStaysClosed(s: Server, events: seq<Event>)
    requires HandlesOk(s)
    ensures Extends(s, After(s, events)) && HandlesOk(After(s, events))
  {
    hide HandlesOk;
    hide Step;
    if events != [] {
      var before := After(s, events[..|events| - 1]);
      ClosedStaysClosed(s, events[..|events| - 1]);
      StepExtends(before, events[|events| - 1]);
      hide After;
      ExtendsThrough(s, before, Step(before, events[|events| - 1]));
    }
  }

  predicate EndsWith(log: Bytes, note: Bytes) {
    |note| <= |log| && log[|log| - |note|..] == note
  }

  /** Right after a boot whose reconciliation reached the database nothing is running, the rows
      that were running carry the note, and the others are untouched. */
  lemma BootLeavesNothingRunning(s: Server, now: int)
    requires !s.up
    ensures var rows := Step(s, Boot(now, true)).rows;
            && |rows| == |s.rows|
            && (forall k :: 0 <= k < |rows| ==> rows[k].status != Running)
            && (forall k :: 0 <= k < |rows| && s.rows[k].status != Running ==> rows[k] == s.rows[k])
            && (forall k :: 0 <= k < |rows| && s.rows[k].status == Running ==>
                  rows[k].status == Cancelled && EndsWith(rows[k].log, OrphanNote()))
  {
    hide OrphanNote;
  }

  lemma {:induction false} EncodingBound(s: string)
    ensures |Encode(s)| <= 4 * |s|
  {
    if s != [] { EncodingBound(s[1..]); }
  }

  lemma NoteFits()
    ensures |OrphanNote()| <= LOG_CAP_BYTES
  {
    EncodingBound(ORPHANED_RUNNING_NOTE);
    hide Encode;
    assert |ORPHANED_RUNNING_NOTE| < 1000;
  }

  /** Reconciliation does not cap: the log of an orphaned row stays within the cap exactly when
      it was empty or left room for a newline and the note. */
  lemma OrphanedWithinCapExactly(r: Run, now: int)
    requires r.status == Running
    ensures |Orphaned(r, now, OrphanNote()).log| <= LOG_CAP_BYTES <==>
              r.log == [] || |r.log| + NoteRoom() <= LOG_CAP_BYTES
  {
    NoteFits();
    hide OrphanNote;
  }

  lemma FlushesFull(stage: string, log: Bytes)
    requires |log| == LOG_CAP_BYTES
    ensures var s := Step(Step(Start(), OpenCounted(None, stage, 1)), Flush(0, log, []));
            |s.rows| == 1 && s.rows[0].log == log && s.rows[0].status == Running
  {
    assert Capped(log) == log;
    hide Capped;
  }

  lemma CrashOrphans(s: Server, now: int)
    ensures Step(Step(s, Crash), Boot(now, true)).rows == Reconciled(s.rows, now, OrphanNote())
  {
    hide OrphanNote;
  }

  /** A run that exceeds it: a stage that has flushed a full log is orphaned by a crash. */
  lemma OrphanedLogExceedsCap(stage: string, log: Bytes, now: int)
    requires |log| == LOG_CAP_BYTES
    ensures var t := After(Start(), [OpenCounted(None, stage, 1), Flush(0, log, [])] + [Crash, Boot(now, true)]);
            |t.rows| == 1 && |t.rows[0].log| > LOG_CAP_BYTES
  {
    var a, b := OpenCounted(None, stage, 1), Flush(0, log, []);
    FlushesFull(stage, log);
    var s := Step(Step(Start(), a), b);
    OrphanedWithinCapExactly(s.rows[0], now);
    CrashOrphans(s, now);
    assert After(Start(), []) == Start() && [] + [a, b] == [a, b];
    hide *;
    AfterTwo(Start(), [], a, b);
    AfterTwo(Start(), [a, b], Crash, Boot(now, true));
  }

  // ---- attempts ----

  /** 1, 2, ..., n. */
  function UpTo(n: nat): seq<int> { if n == 0 then [] else UpTo(n - 1) + [n] }

  predicate Counts(rows: seq<Run>, task: string, stage: string) {
    AttemptsOf(rows, task, stage) == UpTo(|AttemptsOf(rows, task, stage)|)
  }

  lemma {:induction false} MaxOfUpTo(n: nat)
    ensures |UpTo(n)| == n && MaxAttempt(UpTo(n)) == n
  {
    if n > 0 {
      MaxOfUpTo(n - 1);
      assert UpTo(n)[..n - 1] == UpTo(n - 1);
    }
  }

  lemma {:induction false} SameKeysSameAttempts(rows: seq<Run>, rows': seq<Run>, task: string, stage: string)
    requires |rows| == |rows'|
    requires forall k :: 0 <= k < |rows| ==>
               rows'[k].task == rows[k].task && rows'[k].stage == rows[k].stage && rows'[k].attempt == rows[k].attempt
    ensures AttemptsOf(rows', task, stage) == AttemptsOf(rows, task, stage)
  {
    if rows != [] { SameKeysSameAttempts(rows[..|rows| - 1], rows'[..|rows| - 1], task, stage); }
  }

  lemma OpenedAttempts(rows: seq<Run>, owner: Option<string>, st: string, attempt: int, task: string, stage: string)
    ensures AttemptsOf(Opened(rows, owner, st, attempt), task, stage) ==
            AttemptsOf(rows, task, stage) + if owner == Some(task) && st == stage then [attempt] else []
  {
    var r := Opened(rows, owner, st, attempt);
    assert r[..|r| - 1] == rows;
  }

  /** The attempt with which a step opens a row of the pair, if it does. */
  function OpensWith(s: Server, e: Event, task: string, stage: string): Option<int> {
    match e
    case OpenDrawn(w, ok) =>
      if s.up && ok && w in s.drawn && s.drawn[w].task == task && s.drawn[w].stage == stage
      then Some(s.drawn[w].attempt) else None
    case OpenCounted(owner, st, attempt) =>
      if s.up && owner == Some(task) && st == stage then Some(attempt) else None
    case _ => None
  }

  lemma StepAttempts(s: Server, e: Event, task: string, stage: string)
    ensures AttemptsOf(Step(s, e).rows, task, stage) ==
            AttemptsOf(s.rows, task, stage) +
            if OpensWith(s, e, task, stage).Some? then [OpensWith(s, e, task, stage).value] else []
  {
    hide Capped;
    hide OrphanNote;
    hide PanicPrefix;
    hide AttemptsOf;
    hide MaxAttempt;
    var t := Step(s, e);
    assert AttemptsOf(s.rows, task, stage) + [] == AttemptsOf(s.rows, task, stage);
    if e.OpenCounted? {
      OpenedAttempts(s.rows, e.owner, e.stage, e.attempt, task, stage);
    } else if e.OpenDrawn? {
      if s.up && e.ok && e.w in s.drawn {
        OpenedAttempts(s.rows, Some(s.drawn[e.w].task), s.drawn[e.w].stage, s.drawn[e.w].attempt, task, stage);
      }
    } else {
      SameKeysSameAttempts(s.rows, t.rows, task, stage);
    }
  }

  lemma UpToGrows(xs: seq<int>, a: int)
    ensures xs + [a] == UpTo(|xs| + 1) <==> xs == UpTo(|xs|) && a == MaxAttempt(xs) + 1
  {
    MaxOfUpTo(|xs|);
    var more := UpTo(|xs|) + [|xs| + 1];
    assert UpTo(|xs| + 1) == more;
    if xs + [a] == more {
      assert (xs + [a])[..|xs|] == more[..|xs|] && (xs + [a])[|xs|] == more[|xs|];
    }
  }

  /** A step leaves a pair's attempts 1, 2, 3, ... exactly when they were and a row it opens for
      the pair carries the attempt that is next at that moment. */
  lemma StepCountsExactly(s: Server, e: Event, task: string, stage: string)
    ensures Counts(Step(s, e).rows, task, stage) <==> Counts(s.rows, task, stage) && OpensNext(s, e, task, stage)
  {
    StepAttempts(s, e, task, stage);
    var xs := AttemptsOf(s.rows, task, stage);
    var a := OpensWith(s, e, task, stage);
    assert xs + [] == xs;
    if a.Some? { UpToGrows(xs, a.value); }
    hide AttemptsOf;
    hide MaxAttempt;
    hide UpTo;
    hide Step;
    hide OpensWith;
  }

  predicate OpensNext(s: Server, e: Event, task: string, stage: string) {
    var a := OpensWith(s, e, task, stage);
    a.Some? ==> a.value == NextAttempt(s.rows, task, stage)
  }

  /** Every row of the pair was opened with the attempt that was next when it was opened. */
  predicate AllOpenNext(events: seq<Event>, task: string, stage: string)
    decreases |events|
  {
    events != [] ==>
      AllOpenNext(events[..|events| - 1], task, stage)
      && OpensNext(After(Start(), events[..|events| - 1]), events[|events| - 1], task, stage)
  }

  /** Over every run, with leases lapsing and crashes and boots anywhere, the attempts of a task's
      stage are 1, 2, 3, ... exactly when no open was overtaken: when each one carries the next
      attempt as it is made. */
  lemma {:induction false} AttemptsCountExactly(events: seq<Event>, task: string, stage: string)
    ensures Counts(After(Start(), events).rows, task, stage) <==> AllOpenNext(events, task, stage)
  {
    hide Step;
    hide OpensNext;
    hide Counts;
    if events == [] {
      NothingCounts(task, stage);
    } else {
      AttemptsCountExactly(events[..|events| - 1], task, stage);
      StepCountsExactly(After(Start(), events[..|events| - 1]), events[|events| - 1], task, stage);
    }
  }

  lemma NothingCounts(task: string, stage: string)
    ensures Counts([], task, stage)
  {
  }

  // ---- while the lease holds ----

  /** No caller numbers this pair's attempts itself, and the task's lease lapses only when nobody
      works on it any more. */
  ghost predicate LeaseHolds(s: Server, e: Event, task: string, stage: string) {
    && (e.OpenCounted? ==> e.owner != Some(task) || e.stage != stage)
    && (e == Expire(task) ==> forall w :: (w, task) !in s.working)
  }

  ghost predicate LeaseAlwaysHolds(events: seq<Event>, task: string, stage: string)
    decreases |events|
  {
    events != [] ==>
      LeaseAlwaysHolds(events[..|events| - 1], task, stage)
      && LeaseHolds(After(Start(), events[..|events| - 1]), events[|events| - 1], task, stage)
  }

  /** Who works on the task owns its lease, and who has drawn an attempt works on it. */
  ghost predicate OwnersWork(s: Server, task: string) {
    && (forall w :: (w, task) in s.working ==> s.up && task in s.leases && s.leases[task] == Lease(w, false))
    && (forall w :: w in s.drawn && s.drawn[w].task == task ==> (w, task) in s.working)
  }

  /** A drawn attempt for the pair is still the next one. */
  predicate DrawsNext(s: Server, task: string, stage: string) {
    forall w :: w in s.drawn && s.drawn[w].task == task && s.drawn[w].stage == stage
      ==> s.drawn[w].attempt == NextAttempt(s.rows, task, stage)
  }

  lemma StepOwnersWork(s: Server, e: Event, task: string, stage: string)
    requires OwnersWork(s, task) && LeaseHolds(s, e, task, stage)
    ensures OwnersWork(Step(s, e), task)
  {
    hide Capped;
    hide OrphanNote;
    hide PanicPrefix;
    hide NextAttempt;
    hide Opened;
    hide Closed;
    hide Flushed;
    hide Reconciled;
  }

  lemma NextStays(s: Server, e: Event, task: string, stage: string)
    requires OpensWith(s, e, task, stage).None?
    ensures NextAttempt(Step(s, e).rows, task, stage) == NextAttempt(s.rows, task, stage)
  {
    StepAttempts(s, e, task, stage);
    assert AttemptsOf(s.rows, task, stage) + [] == AttemptsOf(s.rows, task, stage);
    hide Step;
    hide AttemptsOf;
    hide OpensWith;
  }

  /** What is drawn after a step was drawn before it, or by it. */
  lemma DrawnMoves(s: Server, e: Event, w: Worker)
    requires w in Step(s, e).drawn
    ensures (w in s.drawn && Step(s, e).drawn[w] == s.drawn[w] && !(s.up && e == OpenDrawn(w, true)))
            || (e.Draw? && e.w == w
                && Step(s, e).drawn[w] == Drawn(e.task, e.stage, NextAttempt(s.rows, e.task, e.stage)))
  {
    hide Capped;
    hide OrphanNote;
    hide NextAttempt;
    hide Opened;
    hide Closed;
    hide Flushed;
    hide Reconciled;
  }

  /** Under a lease that holds, who opens an attempt on the task was the only one to draw one. */
  lemma OnlyDrawer(s: Server, e: Event, task: string, stage: string, w: Worker)
    requires OwnersWork(s, task) && LeaseHolds(s, e, task, stage) && OpensWith(s, e, task, stage).Some?
    requires w in s.drawn && s.drawn[w].task == task
    ensures s.up && e == OpenDrawn(w, true)
  {
  }

  lemma DrawnIsNext(s: Server, task: string, stage: string, w: Worker)
    requires DrawsNext(s, task, stage) && w in s.drawn && s.drawn[w].task == task && s.drawn[w].stage == stage
    ensures s.drawn[w].attempt == NextAttempt(s.rows, task, stage)
  {
  }

  lemma OpensDrawnNext(s: Server, e: Event, task: string, stage: string)
    requires DrawsNext(s, task, stage) && LeaseHolds(s, e, task, stage)
    ensures OpensNext(s, e, task, stage)
  {
    hide NextAttempt;
  }

  lemma StepDrawsNext(s: Server, e: Event, task: string, stage: string)
    requires OwnersWork(s, task) && DrawsNext(s, task, stage) && LeaseHolds(s, e, task, stage)
    ensures OpensNext(s, e, task, stage) && DrawsNext(Step(s, e), task, stage)
  {
    OpensDrawnNext(s, e, task, stage);
    hide Step;
    hide OwnersWork;
    hide LeaseHolds;
    hide OpensNext;
    hide OpensWith;
    hide NextAttempt;
    var t := Step(s, e);
    forall w | w in t.drawn && t.drawn[w].task == task && t.drawn[w].stage == stage
      ensures t.drawn[w].attempt == NextAttempt(t.rows, task, stage)
    {
      DrawnMoves(s, e, w);
      if OpensWith(s, e, task, stage).None? {
        NextStays(s, e, task, stage);
        if e.Draw? && e.w == w { } else { DrawnIsNext(s, task, stage, w); }
      } else {
        OpensByOpening(s, e, task, stage);
        OnlyDrawer(s, e, task, stage, w);
      }
    }
  }

  lemma OpensByOpening(s: Server, e: Event, task: string, stage: string)
    requires OpensWith(s, e, task, stage).Some?
    ensures !e.Draw?
  {
  }

  /** Attempts drawn from the table under a lease that holds are 1, 2, 3, ... in opening order,
      across any crashes and boots. */
  lemma {:induction false} AttemptsCount(events: seq<Event>, task: string, stage: string)
    requires LeaseAlwaysHolds(events, task, stage)
    ensures AllOpenNext(events, task, stage) && Counts(After(Start(), events).rows, task, stage)
    ensures OwnersWork(After(Start(), events), task) && DrawsNext(After(Start(), events), task, stage)
  {
    AttemptsCountExactly(events, task, stage);
    hide Step;
    if events != [] {
      var before := After(Start(), events[..|events| - 1]);
      AttemptsCount(events[..|events| - 1], task, stage);
      hide Counts;
      hide OwnersWork;
      hide DrawsNext;
      hide OpensNext;
      hide LeaseHolds;
      StepOwnersWork(before, events[|events| - 1], task, stage);
      StepDrawsNext(before, events[|events| - 1], task, stage);
    }
  }

  // ---- a lease that lapses under its worker ----

  lemma BothDraw(w: Worker, v: Worker, task: string, stage: string)
    requires w != v
    ensures var t := Step(Step(Step(Start(), Claim(w, task)), Expire(task)), Claim(v, task));
            var d := Drawn(task, stage, 1);
            var u := Step(Step(t, Draw(w, task, stage)), Draw(v, task, stage));
            u.up && u.rows == [] && w in u.drawn && v in u.drawn && u.drawn[w] == d && u.drawn[v] == d
  {
    assert NextAttempt([], task, stage) == 1;
    hide NextAttempt;
  }

  lemma BothOpen(u: Server, w: Worker, v: Worker, task: string, stage: string)
    requires w != v && u.up && u.rows == [] && w in u.drawn && v in u.drawn
    requires u.drawn[w] == Drawn(task, stage, 1) && u.drawn[v] == u.drawn[w]
    ensures AttemptsOf(Step(Step(u, OpenDrawn(w, true)), OpenDrawn(v, true)).rows, task, stage) == [1, 1]
  {
    var u1 := Step(u, OpenDrawn(w, true));
    StepAttempts(u, OpenDrawn(w, true), task, stage);
    StepAttempts(u1, OpenDrawn(v, true), task, stage);
    assert v in u1.drawn && u1.drawn[v] == Drawn(task, stage, 1) && u1.up;
    assert [] + [1] + [1] == [1, 1];
  }

  /** A run that collides: a lease lapses while its worker still runs, another worker takes it
      over, both draw the same attempt, and both open it. */
  lemma LapsedLeaseCollides(w: Worker, v: Worker, task: string, stage: string)
    requires w != v
    ensures var claims := [Claim(w, task), Expire(task)] + [Claim(v, task)];
            var draws := [Draw(w, task, stage), Draw(v, task, stage)];
            var events := claims + draws + [OpenDrawn(w, true), OpenDrawn(v, true)];
            var rows := After(Start(), events).rows;
            AttemptsOf(rows, task, stage) == [1, 1] && !Counts(rows, task, stage)
  {
    var a, b, c := Claim(w, task), Expire(task), Claim(v, task);
    var d, e := Draw(w, task, stage), Draw(v, task, stage);
    BothDraw(w, v, task, stage);
    var u := Step(Step(Step(Step(Step(Start(), a), b), c), d), e);
    BothOpen(u, w, v, task, stage);
    assert UpTo(2)[1] == 2;
    assert After(Start(), []) == Start() && [] + [a, b] == [a, b];
    hide Step;
    hide After;
    hide AttemptsOf;
    AfterTwo(Start(), [], a, b);
    AfterOne(Start(), [a, b], c);
    AfterTwo(Start(), [a, b] + [c], d, e);
    AfterTwo(Start(), [a, b] + [c] + [d, e], OpenDrawn(w, true), OpenDrawn(v, true));
  }

  // ---- a stage from its opening to its close ----

  const NOTE: string :=
    "[dearborn: this stage was still marked running when the server booted " + ['\U{2014}']
    + " the process that owned it went away mid-run; closed as cancelled]"

  /** What a body that ended so leaves in its row. */
  predicate ClosedAs(row: Run, o: BodyOutcome, now: int) {
    && row.endedAt == Some(now)
    && match o
       case Finished(status, verdict, log) => row.status == status && row.verdict == verdict && row.log == Capped(log)
       case Failed(message) => row.status == Error && row.verdict == None && row.log == Capped(message)
       case Panicked(message) =>
         row.status == Error && row.verdict == None && row.log == Capped(Encode("stage panicked: ") + message)
  }

  lemma PanicPrefixIs()
    ensures PanicPrefix() == Encode("stage panicked: ")
  {
    assert PANIC_PREFIX == "stage panicked: ";
  }

  lemma NoteIs()
    ensures OrphanNote() == Encode(NOTE)
  {
  }

  lemma OpensRow(s: Server, owner: Option<string>, stage: string, attempt: int)
    requires s.up
    ensures var t := Step(s, OpenCounted(owner, stage, attempt));
            && t == s.(rows := s.rows + [Run(owner, stage, attempt, Running, None, None, [], [])],
                       live := s.live + {|s.rows|})
  {
  }

  /** A drawn attempt opens as any stage does, with the task and the attempt drawn, and is used up. */
  lemma DrawnOpens(s: Server, w: Worker)
    requires s.up && w in s.drawn
    ensures var d := s.drawn[w];
            Step(s, OpenDrawn(w, true))
            == Step(s, OpenCounted(Some(d.task), d.stage, d.attempt)).(drawn := s.drawn - {w})
  {
  }

  lemma FlushesRow(s: Server, id: nat, log: Bytes, thinking: Bytes)
    requires id in s.live && id < |s.rows|
    ensures Step(s, Flush(id, log, thinking))
         == s.(rows := s.rows[id := s.rows[id].(log := Capped(log), thinking := Capped(thinking))])
  {
  }

  lemma ClosesRow(s: Server, id: nat, o: BodyOutcome, now: int)
    requires id in s.live && id < |s.rows| && (o.Finished? ==> o.status != Running)
    ensures var t := Step(s, Close(id, o, now, true));
            && |t.rows| == |s.rows| && ClosedAs(t.rows[id], o, now) && t.up == s.up && t.live == s.live - {id}
            && t.rows[id] == s.rows[id].(status := t.rows[id].status, verdict := t.rows[id].verdict,
                                         endedAt := t.rows[id].endedAt, log := t.rows[id].log)
            && forall k :: 0 <= k < |s.rows| && k != id ==> t.rows[k] == s.rows[k]
  {
    PanicPrefixIs();
    hide PanicPrefix;
    hide Capped;
    hide Encode;
  }

  lemma MarksRow(s: Server, id: nat, verdict: string, thinking: Bytes)
    requires s.up && id < |s.rows| && s.rows[id].status != Running
    ensures Step(Step(s, SetVerdict(id, verdict)), SetThinking(id, thinking))
         == s.(rows := s.rows[id := s.rows[id].(verdict := Some(verdict), thinking := Capped(thinking))])
  {
    hide Capped;
    var t := Step(s, SetVerdict(id, verdict));
    assert t == s.(rows := s.rows[id := s.rows[id].(verdict := Some(verdict))]);
  }

  /** A whole stage: opened, flushed, closed, and given its verdict and reasoning. It leaves one row with
      its task, stage and attempt, the status and log its body ended with, and those two; no other row
      changes. */
  lemma WholeStage(s: Server, owner: Option<string>, stage: string, attempt: int, log: Bytes, thinking: Bytes,
                   o: BodyOutcome, now: int, verdict: string, reasoning: Bytes)
    requires s.up && (o.Finished? ==> o.status != Running)
    ensures var id := |s.rows|;
            var atOpen := Step(s, OpenCounted(owner, stage, attempt));
            var flushed := Step(atOpen, Flush(id, log, thinking));
            var closed := Step(flushed, Close(id, o, now, true));
            var t := Step(Step(closed, SetVerdict(id, verdict)), SetThinking(id, reasoning));
            && |t.rows| == id + 1 && t.rows[..id] == s.rows
            && atOpen.rows[id].status == Running
            && flushed.rows[id].log == Capped(log) && flushed.rows[id].thinking == Capped(thinking)
            && ClosedAs(closed.rows[id], o, now) && closed.rows[id].thinking == Capped(thinking)
            && var row := t.rows[id];
               && row.task == owner && row.stage == stage && row.attempt == attempt
               && row.status == closed.rows[id].status && row.log == closed.rows[id].log
               && row.verdict == Some(verdict) && row.thinking == Capped(reasoning) && row.endedAt == Some(now)
  {
    hide *;
    var id := |s.rows|;
    OpensRow(s, owner, stage, attempt);
    var atOpen := Step(s, OpenCounted(owner, stage, attempt));
    FlushesRow(atOpen, id, log, thinking);
    var flushed := Step(atOpen, Flush(id, log, thinking));
    ClosesRow(flushed, id, o, now);
    var closed := Step(flushed, Close(id, o, now, true));
    ClosedNotRunning(closed.rows[id], o, now);
    MarksRow(closed, id, verdict, reasoning);
  }

  lemma ClosedNotRunning(row: Run, o: BodyOutcome, now: int)
    requires ClosedAs(row, o, now) && (o.Finished? ==> o.status != Running)
    ensures row.status != Running && row.endedAt == Some(now)
  {
  }

  /** A boot leaves each row that still runs cancelled, ended, and with the note behind its log. */
  lemma BootCancels(s: Server, now: int, k: nat)
    requires !s.up && k < |s.rows|
    ensures var t := Step(s, Boot(now, true));
            && t.up && |t.rows| == |s.rows|
            && t.rows[k] == (
                 if s.rows[k].status != Running then s.rows[k]
                 else s.rows[k].(status := Cancelled, endedAt := Some(now),
                                 log := if s.rows[k].log == [] then Encode(NOTE)
                                        else s.rows[k].log + [10] + Encode(NOTE)))
  {
    NoteIs();
    hide OrphanNote;
    hide Encode;
  }

  /** A write that does not reach the database leaves every row as it was, though the stage has let go of
      its handle, and the server is up, all the same. */
  lemma LostWrites(s: Server, w: Worker, id: nat, o: BodyOutcome, now: int)
    ensures Step(s, OpenDrawn(w, false)).rows == s.rows && Step(s, Close(id, o, now, false)).rows == s.rows
    ensures Step(s, Boot(now, false)).rows == s.rows && Step(s, Boot(now, false)).up
    ensures id in s.live && id < |s.rows| && (o.Finished? ==> o.status != Running) ==>
              Step(s, Close(id, o, now, false)).live == s.live - {id}
  {
  }

  // ---- who holds a lease ----

  predicate Claims(s: Server, e: Event, w: Worker, task: string) {
    e == Claim(w, task) && s.up && (task in s.leases ==> s.leases[task].expired)
  }

  /** The worker lets go of the task: none of its attempts on it is still to be opened. */
  predicate Releases(s: Server, e: Event, w: Worker, task: string) {
    e == Release(w, task) && (w, task) in s.working && !(w in s.drawn && s.drawn[w].task == task)
  }

  /** A lease comes to a worker by a claim of a free or lapsed task. It goes by another's claim once it
      has lapsed, by its owner's release, or with the server. */
  lemma LeaseMovesExactly(s: Server, e: Event, w: Worker, task: string)
    ensures var t := Step(s, e);
            Owns(t, w, task) <==>
              || Claims(s, e, w, task)
              || (task in s.leases && s.leases[task].owner == w && !(e.Claim? && Claims(s, e, e.w, task))
                  && !Releases(s, e, w, task) && !(e.Boot? && !s.up))
  {
    hide Closed;
    hide Flushed;
    hide Opened;
    hide Capped;
    hide NextAttempt;
    hide Reconciled;
  }

  /** It lapses when it is not renewed in time, and only its owner, still at work, renews it. */
  lemma LeaseLapsesExactly(s: Server, e: Event, task: string)
    requires task in s.leases && task in Step(s, e).leases && Step(s, e).leases[task].owner == s.leases[task].owner
    ensures Step(s, e).leases[task].expired <==>
              || e == Expire(task)
              || (s.leases[task].expired
                  && !(e == Renew(s.leases[task].owner, task) && (s.leases[task].owner, task) in s.working)
                  && !(e.Claim? && Claims(s, e, e.w, task)))
  {
    hide Closed;
    hide Flushed;
    hide Opened;
    hide Capped;
    hide NextAttempt;
    hide Reconciled;
  }

  /** A worker is at work from its claim until it releases, finds its lease gone, or dies. */
  lemma WorksExactly(s: Server, e: Event, w: Worker, task: string)
    ensures (w, task) in Step(s, e).working <==>
              || Claims(s, e, w, task)
              || ((w, task) in s.working && e != Crash && !Releases(s, e, w, task)
                  && !(e == Renew(w, task) && !(task in s.leases && s.leases[task].owner == w)))
  {
    hide Closed;
    hide Flushed;
    hide Opened;
    hide Capped;
    hide NextAttempt;
    hide Reconciled;
  }
}
