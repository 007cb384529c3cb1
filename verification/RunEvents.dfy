/** The events a harness run streams, and what a stream says as a whole. */
module RunEvents {
  import opened Text

  datatype RunEvent =
    | Delta(text: string)
    | Session(id: Option<string>)
    | ToolStart(call: string, name: string)
    | ToolEnd(call: string, ok: bool, output: Option<string>)
    | Error(message: string)
    | Exited(code: Option<int>, cancelled: bool)
    | Other

  /** The text deltas of the first `k` events, joined. */
  function TextOf(events: seq<RunEvent>, k: nat): string
    requires k <= |events|
  {
    if k == 0 then ""
    else if events[k - 1].Delta? then TextOf(events, k - 1) + events[k - 1].text
    else TextOf(events, k - 1)
  }

  /** The last session id named. */
  function SessionOf(events: seq<RunEvent>, k: nat): Option<string>
    requires k <= |events|
  {
    if k == 0 then None
    else if events[k - 1].Session? && events[k - 1].id.Some? then events[k - 1].id
    else SessionOf(events, k - 1)
  }

  lemma {:induction false} TextPrefix(events: seq<RunEvent>, e: RunEvent, k: nat)
    requires k <= |events|
    ensures TextOf(events + [e], k) == TextOf(events, k) && SessionOf(events + [e], k) == SessionOf(events, k)
  {
    if k > 0 { TextPrefix(events, e, k - 1); }
  }

  lemma {:induction false} TextShift(a: seq<RunEvent>, b: seq<RunEvent>, k: nat)
    requires k <= |b|
    ensures TextOf(a + b, |a| + k) == TextOf(a, |a|) + TextOf(b, k)
  {
    if k == 0 {
      TextKept(a, b, |a|);
    } else {
      TextShift(a, b, k - 1);
      assert (a + b)[|a| + k - 1] == b[k - 1];
    }
  }

  lemma {:induction false} TextKept(a: seq<RunEvent>, b: seq<RunEvent>, k: nat)
    requires k <= |a|
    ensures TextOf(a + b, k) == TextOf(a, k)
  {
    if k > 0 { TextKept(a, b, k - 1); }
  }

  /** The text of a stream is that of its parts; a delta's is its own, and of anything else there is
      none. */
  lemma TextOfParts(a: seq<RunEvent>, b: seq<RunEvent>, e: RunEvent)
    ensures TextOf([], 0) == "" && TextOf(a + b, |a + b|) == TextOf(a, |a|) + TextOf(b, |b|)
    ensures TextOf([e], 1) == if e.Delta? then e.text else ""
  {
    TextShift(a, b, |b|);
  }

  /** Event `j` names a session, and none of the first `k` does after it. */
  predicate NamesLast(events: seq<RunEvent>, j: int, k: nat) {
    && 0 <= j < k <= |events| && events[j].Session? && events[j].id.Some?
    && forall m :: j < m < k && events[m].Session? ==> events[m].id.None?
  }

  /** The session is the one named last, and none when none was. */
  lemma {:induction false} SessionExactly(events: seq<RunEvent>, k: nat)
    requires k <= |events|
    ensures SessionOf(events, k) == None <==> forall j :: 0 <= j < k && events[j].Session? ==> events[j].id == None
    ensures forall j :: NamesLast(events, j, k) ==> SessionOf(events, k) == events[j].id
  {
    if k > 0 {
      SessionExactly(events, k - 1);
      forall j | NamesLast(events, j, k) ensures SessionOf(events, k) == events[j].id {
        if j < k - 1 { assert NamesLast(events, j, k - 1); }
      }
    }
  }
}
