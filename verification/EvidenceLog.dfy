/** `cap_log`: a stored log keeps its head and its tail, cut at character boundaries, and
    never exceeds the cap. Logs are byte strings; a well-formed one is `Utf8.Valid`. */
module EvidenceLog {
  import opened Text
  import opened Utf8

  const LOG_CAP_BYTES: nat := 262144

  const MARKER_HEAD := "\n\n... [dearborn: log elided "
  const MARKER_TAIL := " exceeded 256 KB; showing head + tail] ...\n\n"

  /** The elision marker, with its em dash. */
  const ELISION_MARKER: string := MARKER_HEAD + ['\U{2014}'] + MARKER_TAIL

  function Marker(): Bytes { Encode(ELISION_MARKER) }

  function SaturatingSub(a: nat, b: nat): nat { if b <= a then a - b else 0 }

  function Max(a: nat, b: nat): nat { if a < b then b else a }

  function HeadBudget(): nat { SaturatingSub(LOG_CAP_BYTES, |Marker()|) / 2 }

  function TailBudget(): nat { SaturatingSub(LOG_CAP_BYTES, |Marker()|) - HeadBudget() }

  predicate AllAscii(s: string) { forall k :: 0 <= k < |s| ==> s[k] as int < 0x80 }

  lemma HeadIsAscii()
    ensures |MARKER_HEAD| == 28 && AllAscii(MARKER_HEAD)
  {
  }

  lemma TailIsAscii()
    ensures |MARKER_TAIL| == 44 && AllAscii(MARKER_TAIL)
  {
  }

  lemma DashLength()
    ensures |Encode(['\U{2014}'])| == 3
  {
    assert Encode(['\U{2014}']) == EncodeChar('\U{2014}') + Encode([]);
  }

  /** The marker takes 75 bytes; the rest of the cap is split between head and tail. */
  lemma Budgets()
    ensures |Marker()| == 75 && HeadBudget() == 131034 && TailBudget() == 131035
    ensures HeadBudget() + |Marker()| + TailBudget() == LOG_CAP_BYTES
  {
    hide Encode;
    hide MARKER_HEAD;
    hide MARKER_TAIL;
    HeadIsAscii();
    TailIsAscii();
    DashLength();
    EncodeConcat(MARKER_HEAD + ['\U{2014}'], MARKER_TAIL);
    EncodeConcat(MARKER_HEAD, ['\U{2014}']);
    AsciiLength(MARKER_HEAD);
    AsciiLength(MARKER_TAIL);
  }

  // ---- boundaries ----

  /** The greatest boundary at or below `i`. */
  function Floor(bs: Bytes, i: nat): (r: nat)
    requires i <= |bs|
    ensures r <= i && IsBoundary(bs, r)
    ensures forall k :: r < k <= i ==> !IsBoundary(bs, k)
  {
    if IsBoundary(bs, i) then i else Floor(bs, i - 1)
  }

  /** The least boundary at or above `i`. */
  function Ceil(bs: Bytes, i: nat): (r: nat)
    requires i <= |bs|
    ensures i <= r <= |bs| && IsBoundary(bs, r)
    ensures forall k :: i <= k < r ==> !IsBoundary(bs, k)
    decreases |bs| - i
  {
    if IsBoundary(bs, i) then i else Ceil(bs, i + 1)
  }

  /** `floor_char_boundary`. */
  method FloorCharBoundary(bs: Bytes, index: nat) returns (i: nat)
    ensures i == Floor(bs, if index <= |bs| then index else |bs|)
  {
    i := if index <= |bs| then index else |bs|;
    while i > 0 && !IsBoundary(bs, i)
      invariant i <= |bs|
      invariant Floor(bs, i) == Floor(bs, if index <= |bs| then index else |bs|)
    {
      i := i - 1;
    }
  }

  /** `ceil_char_boundary`. */
  method CeilCharBoundary(bs: Bytes, index: nat) returns (i: nat)
    ensures i == Ceil(bs, if index <= |bs| then index else |bs|)
  {
    i := if index <= |bs| then index else |bs|;
    while i < |bs| && !IsBoundary(bs, i)
      invariant i <= |bs|
      invariant Ceil(bs, i) == Ceil(bs, if index <= |bs| then index else |bs|)
    {
      i := i + 1;
    }
  }

  /** In well-formed text a boundary is never more than three bytes away. */
  lemma BoundaryNear(s: string, i: nat)
    requires i <= |Encode(s)|
    ensures i - Floor(Encode(s), i) <= 3 && Ceil(Encode(s), i) - i <= 3
  {
    if i < |Encode(s)| {
      var k := CharAround(s, i);
      OffsetStep(s, k);
      BoundaryIsOffset(s, Offset(s, k));
      BoundaryIsOffset(s, Offset(s, k + 1));
      hide Encode;
      hide Offset;
      assert IsBoundary(Encode(s), Offset(s, k)) && IsBoundary(Encode(s), Offset(s, k + 1));
    }
  }

  // ---- capping ----

  function HeadEnd(log: Bytes): (h: nat)
    ensures h <= |log| && IsBoundary(log, h)
  {
    Floor(log, if HeadBudget() <= |log| then HeadBudget() else |log|)
  }

  function TailStart(log: Bytes): (t: nat)
    ensures HeadEnd(log) <= t <= |log| && IsBoundary(log, t)
  {
    Max(Ceil(log, SaturatingSub(|log|, TailBudget())), HeadEnd(log))
  }

  function Capped(log: Bytes): Bytes {
    if |log| <= LOG_CAP_BYTES then log
    else log[..HeadEnd(log)] + Marker() + log[TailStart(log)..]
  }

  /** `cap_log`. */
  method CapLog(log: Bytes) returns (out: Bytes)
    ensures out == Capped(log)
  {
    if |log| <= LOG_CAP_BYTES {
      return log;
    }
    hide Encode;
    hide Marker;
    hide Floor;
    hide Ceil;
    hide IsBoundary;
    assert Capped(log) == log[..HeadEnd(log)] + Marker() + log[TailStart(log)..];
    hide Capped;
    var budget := SaturatingSub(LOG_CAP_BYTES, |Marker()|);
    var headBudget := budget / 2;
    var tailBudget := budget - headBudget;
    var headEnd := FloorCharBoundary(log, headBudget);
    var tailStart := CeilCharBoundary(log, SaturatingSub(|log|, tailBudget));
    tailStart := Max(tailStart, headEnd);
    out := log[..headEnd];
    out := out + Marker();
    out := out + log[tailStart..];
  }

  /** Where an over-long log is cut: head and tail within three bytes of their budgets, and
      never overlapping. */
  lemma CutPoints(s: string)
    requires |Encode(s)| > LOG_CAP_BYTES
    ensures var log := Encode(s);
            && HeadBudget() - 3 <= HeadEnd(log) <= HeadBudget()
            && TailBudget() - 3 <= |log| - TailStart(log) <= TailBudget()
            && HeadEnd(log) <= TailStart(log)
  {
    hide Encode;
    hide Marker;
    hide Floor;
    hide Ceil;
    Budgets();
    BoundaryNear(s, HeadBudget());
    BoundaryNear(s, |Encode(s)| - TailBudget());
  }

  lemma ValidConcat(x: Bytes, y: Bytes)
    requires Valid(x) && Valid(y)
    ensures Valid(x + y)
  {
    var s :| x == Encode(s);
    var t :| y == Encode(t);
    EncodeConcat(s, t);
    assert x + y == Encode(s + t);
  }

  lemma ValidSlice(log: Bytes, h: nat, t: nat)
    requires Valid(log) && h <= t <= |log| && IsBoundary(log, h) && IsBoundary(log, t)
    ensures Valid(log[h..t])
  {
    var s :| log == Encode(s);
    hide IsBoundary;
    var a, b := BoundarySlice(s, h, t);
    assert log[h..t] == Encode(s[a..b]);
  }

  /** Text around text, cut at boundaries, is text. */
  lemma SpliceIsValid(log: Bytes, middle: Bytes, h: nat, t: nat)
    requires Valid(log) && Valid(middle)
    requires h <= |log| && t <= |log| && IsBoundary(log, h) && IsBoundary(log, t)
    ensures Valid(log[..h] + middle + log[t..])
  {
    assert log[..h] == log[0..h] && log[t..] == log[t..|log|];
    hide Valid;
    ValidSlice(log, 0, h);
    ValidSlice(log, t, |log|);
    ValidConcat(log[..h], middle);
    ValidConcat(log[..h] + middle, log[t..]);
  }

  /** The log became a prefix, the marker and a suffix of itself, the parts within three bytes
      of their budgets and not overlapping. */
  predicate IsCut(log: Bytes, out: Bytes, h: nat, t: nat) {
    && h <= t <= |log| && IsBoundary(log, h) && IsBoundary(log, t)
    && HeadBudget() - 3 <= h <= HeadBudget() && TailBudget() - 3 <= |log| - t <= TailBudget()
    && out == log[..h] + Marker() + log[t..]
  }

  /** Capping well-formed text gives well-formed text within the cap; a log that fits is
      untouched, and a longer one is cut. */
  lemma CappedIsValid(log: Bytes)
    requires Valid(log)
    ensures Valid(Capped(log)) && |Capped(log)| <= LOG_CAP_BYTES
    ensures |log| <= LOG_CAP_BYTES ==> Capped(log) == log
    ensures |log| > LOG_CAP_BYTES ==> exists h: nat, t: nat :: IsCut(log, Capped(log), h, t)
  {
    if |log| > LOG_CAP_BYTES {
      var s :| log == Encode(s);
      hide Encode;
      Budgets();
      CutPoints(s);
      hide HeadBudget;
      hide TailBudget;
      hide IsBoundary;
      var h, t := HeadEnd(log), TailStart(log);
      assert Valid(Marker());
      SpliceIsValid(log, Marker(), h, t);
      hide Marker;
      hide HeadEnd;
      hide TailStart;
      assert IsCut(log, Capped(log), h, t);
    }
  }

  /** Capping twice is capping once. */
  lemma CappedTwice(log: Bytes)
    requires Valid(log)
    ensures Capped(Capped(log)) == Capped(log)
  {
    CappedIsValid(log);
  }

  /** A log one byte over the cap or more says, between its head and its tail, that it was cut. */
  lemma LongLogSaysSo(log: Bytes)
    requires |log| > 256 * 1024
    ensures var marker := Encode("\n\n... [dearborn: log elided " + ['\U{2014}']
                                 + " exceeded 256 KB; showing head + tail] ...\n\n");
            exists h, t :: 0 <= h <= t <= |log| && Capped(log) == log[..h] + marker + log[t..]
  {
    assert Marker() == Encode("\n\n... [dearborn: log elided " + ['\U{2014}']
                              + " exceeded 256 KB; showing head + tail] ...\n\n");
    hide Marker;
    hide HeadEnd;
    hide TailStart;
    assert Capped(log) == log[..HeadEnd(log)] + Marker() + log[TailStart(log)..];
  }

  /** A log within the cap is stored as it is. */
  lemma ShortLogStays(log: Bytes)
    requires |log| <= 256 * 1024
    ensures Capped(log) == log
  {
  }
}
