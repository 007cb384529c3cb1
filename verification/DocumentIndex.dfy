/** The section index of one epic over its whole history: what the stored rows should say after
    any accepted syncs, and that they do. */
module DocumentIndex {
  import opened DocumentStore
  import opened Scanner
  import opened Text

  predicate Present(r: Request, id: string) { exists x :: x in Extract(r.html) && x.id == id }

  /** The node that gets the credit for a section after the syncs `h`. */
  function Credited(h: seq<Request>, id: string): Option<string> {
    if h == [] then None
    else
      var last := h[|h| - 1];
      if !Present(last, id) then None
      else if last.node.Some? then last.node
      else Credited(h[..|h| - 1], id)
  }

  /** Sync `k` names a node, no later one does, and the section was present ever since. */
  predicate Credits(h: seq<Request>, k: int, id: string) {
    && 0 <= k < |h| && h[k].node.Some?
    && (forall j :: k < j < |h| ==> h[j].node.None?)
    && (forall j :: k <= j < |h| ==> Present(h[j], id))
  }

  /** Provenance is the node of the latest node-naming sync since which the section was
      present in every version, and there is none exactly when there is no such sync. */
  lemma {:induction false} CreditedIsLatestNaming(h: seq<Request>, id: string)
    ensures Credited(h, id).Some? <==> exists k :: Credits(h, k, id)
    ensures forall k :: Credits(h, k, id) ==> Credited(h, id) == h[k].node
  {
    hide Present;
    if h != [] {
      var g := h[..|h| - 1];
      CreditedIsLatestNaming(g, id);
      if Present(h[|h| - 1], id) {
        if h[|h| - 1].node.Some? {
          assert Credits(h, |h| - 1, id);
        } else {
          forall k ensures Credits(h, k, id) <==> Credits(g, k, id) {
            CreditsExtends(h, k, id);
          }
        }
      }
    }
  }

  lemma CreditsExtends(h: seq<Request>, k: int, id: string)
    requires h != [] && Present(h[|h| - 1], id) && h[|h| - 1].node.None?
    ensures Credits(h, k, id) <==> Credits(h[..|h| - 1], k, id)
  {
    hide Present;
    var g := h[..|h| - 1];
    if 0 <= k < |g| {
      assert forall j :: k <= j < |g| ==> g[j] == h[j];
    }
  }

  function IndexRow(h: seq<Request>, x: Section): SectionRow
    requires h != []
  {
    SectionRow(x.id, x.title, Credited(h, x.id), h[|h| - 1].editor, |h|)
  }

  /** The index by its meaning: the anchors of the current HTML in order, each with its credit. */
  function Index(h: seq<Request>): seq<SectionRow> {
    if h == [] then []
    else
      var xs := Extract(h[|h| - 1].html);
      seq(|xs|, k requires 0 <= k < |xs| => IndexRow(h, xs[k]))
  }

  lemma {:induction false} PriorLookup(rows: seq<SectionRow>, id: string, p: Option<string>)
    requires forall k :: 0 <= k < |rows| && rows[k].id == id ==> rows[k].provenance == p
    ensures Lookup(PriorOf(rows), id) == if exists k :: 0 <= k < |rows| && rows[k].id == id then p else None
  {
    if rows != [] {
      var n := |rows| - 1;
      PriorLookup(rows[..n], id, p);
      if rows[n].id != id {
        assert (exists k :: 0 <= k < n && rows[..n][k].id == id) <==> (exists k :: 0 <= k < n && rows[k].id == id);
      }
    }
  }

  /** What a rebuild remembers from a correct index is each section's credit. */
  lemma IndexRemembers(h: seq<Request>, id: string)
    ensures Lookup(PriorOf(Index(h)), id) == Credited(h, id)
  {
    hide Extract;
    hide PriorOf;
    hide Lookup;
    PriorLookup(Index(h), id, Credited(h, id));
    if h != [] {
      IndexHas(h, id);
    }
  }

  lemma IndexHas(h: seq<Request>, id: string)
    requires h != []
    ensures Present(h[|h| - 1], id) <==> exists k :: 0 <= k < |Index(h)| && Index(h)[k].id == id
  {
    hide Extract;
    hide Credited;
    var xs := Extract(h[|h| - 1].html);
    if Present(h[|h| - 1], id) {
      var x :| x in xs && x.id == id;
      var k :| 0 <= k < |xs| && xs[k] == x;
      assert Index(h)[k].id == id;
    }
    if exists k :: 0 <= k < |Index(h)| && Index(h)[k].id == id {
      var k :| 0 <= k < |Index(h)| && Index(h)[k].id == id;
      assert xs[k] in xs && xs[k].id == id;
    }
  }

  /** Some section of the new HTML was remembered with another credit than its own, and the sync
      names no node to replace it. */
  predicate Misremembers(h: seq<Request>, r: Request, prior: Prior) {
    r.node.None? && exists x :: x in Extract(r.html) && Lookup(prior, x.id) != Credited(h, x.id)
  }

  lemma RowIsExactly(h: seq<Request>, r: Request, prior: Prior, x: Section)
    requires x in Extract(r.html)
    ensures RebuiltRow(x, r, |h| + 1, prior) == IndexRow(h + [r], x)
            <==> r.node.Some? || Lookup(prior, x.id) == Credited(h, x.id)
  {
    hide Extract;
    hide Lookup;
    assert (h + [r])[..|h|] == h;
    assert Present(r, x.id);
  }

  /** A rebuild gives the index of the longer history exactly when it remembers every section's
      credit, or needs none. */
  lemma RebuiltIsIndexExactly(h: seq<Request>, r: Request, prior: Prior)
    ensures Rebuilt(Extract(r.html), r, |h| + 1, prior) == Index(h + [r]) <==> !Misremembers(h, r, prior)
  {
    var g := h + [r];
    var xs := Extract(r.html);
    forall k | 0 <= k < |xs| {
      RowIsExactly(h, r, prior, xs[k]);
    }
    hide Extract;
    hide RebuiltRow;
    hide IndexRow;
    var rows, index := Rebuilt(xs, r, |h| + 1, prior), Index(g);
    assert |rows| == |index| == |xs|;
    assert forall k :: 0 <= k < |xs| ==>
      rows[k] == RebuiltRow(xs[k], r, |h| + 1, prior) && index[k] == IndexRow(g, xs[k]);
    hide Rebuilt;
    hide Index;
    if Misremembers(h, r, prior) {
      var x :| x in xs && Lookup(prior, x.id) != Credited(h, x.id);
      var k :| 0 <= k < |xs| && xs[k] == x;
      assert rows[k] != index[k];
    } else {
      forall k | 0 <= k < |xs| ensures rows[k] == index[k] {
        assert xs[k] in xs;
      }
    }
  }

  /** One rebuild refines the definition over the history: it needs the old index only when the
      sync names no node. */
  lemma RebuiltIsIndex(h: seq<Request>, r: Request, prior: Prior)
    requires r.node.None? ==> prior == PriorOf(Index(h))
    ensures Rebuilt(Extract(r.html), r, |h| + 1, prior) == Index(h + [r])
    ensures !Misremembers(h, r, prior)
  {
    RebuiltIsIndexExactly(h, r, prior);
    forall x | x in Extract(r.html) { IndexRemembers(h, x.id); }
    hide *;
    MisremembersIs(h, r, prior);
  }

  lemma MisremembersIs(h: seq<Request>, r: Request, prior: Prior)
    ensures Misremembers(h, r, prior) <==>
            r.node.None? && exists x :: x in Extract(r.html) && Lookup(prior, x.id) != Credited(h, x.id)
  {
  }

  // ---- runs, whether or not a rebuild is cut short ----

  predicate Rebuilding(stage: Stage) { stage.Remember? || stage.Clear? || stage.Fill? }

  /** The event takes the lock from a client that is rebuilding the index. */
  predicate Interrupts(s: Server, e: Event) {
    (e.Drop? || e.Crash?) && s.lock.Some? && (e.Drop? ==> e.c == s.lock.value)
    && PcOf(s, s.lock.value).Holding? && Rebuilding(PcOf(s, s.lock.value).stage)
  }

  function Before(h: seq<Request>): seq<Request> { if h == [] then [] else h[..|h| - 1] }

  /** What a rebuild given up at this stage leaves: rows of the version before, or too few rows,
      or a full index that remembered wrongly. */
  predicate LeavesTorn(s: Server, r: Request, stage: Stage) {
    match stage
    case Fill(_, prior, rest) => rest != [] || Misremembers(Before(s.accepted), r, prior)
    case _ => s.db.sections != [] || Extract(r.html) != []
  }

  /** Whether a run leaves the index torn: the last rebuild was given up too early, or the last
      one finished on what a torn index remembered. */
  predicate Tears(s: Server, e: Event, torn: bool) {
    if Interrupts(s, e) then LeavesTorn(s, PcOf(s, s.lock.value).req, PcOf(s, s.lock.value).stage)
    else if e.Advance? && PcOf(s, e.c).Holding? && PcOf(s, e.c).stage.Fill? && PcOf(s, e.c).stage.rest == []
    then Misremembers(Before(s.accepted), PcOf(s, e.c).req, PcOf(s, e.c).stage.prior)
    else torn
  }

  predicate Torn(events: seq<Event>)
    decreases |events|
  {
    events != [] &&
    Tears(After(Start(), events[..|events| - 1]), events[|events| - 1], Torn(events[..|events| - 1]))
  }

  /** Every row is of a version before `n`. */
  predicate RowsBefore(rows: seq<SectionRow>, n: int) { forall k :: 0 <= k < |rows| ==> rows[k].version < n }

  predicate IndexOk(s: Server, torn: bool) {
    var n := |s.accepted|;
    && RowsBefore(s.db.sections, n + 1)
    && if s.lock.None? then s.db.sections == Index(s.accepted) <==> !torn
       else
         match PcOf(s, s.lock.value)
         case Holding(_, Remember(_)) =>
           n > 0 && RowsBefore(s.db.sections, n) && (!torn ==> s.db.sections == Index(Before(s.accepted)))
         case Holding(_, Clear(_, prior)) =>
           && n > 0 && RowsBefore(s.db.sections, n)
           && (!torn ==> s.db.sections == Index(Before(s.accepted)) && prior == PriorOf(s.db.sections))
         case Holding(_, Fill(_, prior, _)) => n > 0 && (!torn ==> prior == PriorOf(Index(Before(s.accepted))))
         case _ => s.db.sections == Index(s.accepted) <==> !torn
  }

  lemma IndexLength(h: seq<Request>)
    requires h != []
    ensures |Index(h)| == |Extract(h[|h| - 1].html)|
    ensures Index(h) != [] ==> Index(h)[0].version == |h|
  {
    hide Extract;
    hide Credited;
  }

  lemma FilledIs(s: Server, c: Client, r: Request, v: int, prior: Prior)
    requires Safe(s) && s.lock == Some(c) && PcOf(s, c) == Holding(r, Fill(v, prior, []))
    ensures s.accepted != [] && v == |s.accepted| && s.accepted == Before(s.accepted) + [r]
    ensures s.db.sections == Rebuilt(Extract(r.html), r, v, prior)
  {
    hide Extract;
    hide RebuiltRow;
    hide LineageOk;
    hide LockOk;
    assert Rebuilt([], r, v, prior) == [];
    hide Rebuilt;
    assert s.db.sections + [] == s.db.sections;
  }

  /** A rebuild given up at any stage leaves the index of the history exactly when `LeavesTorn`
      says it does not tear. */
  lemma GivenUpExactly(s: Server, c: Client, r: Request, stage: Stage, torn: bool)
    requires Safe(s) && IndexOk(s, torn) && s.lock == Some(c) && PcOf(s, c) == Holding(r, stage) && Rebuilding(stage)
    ensures s.db.sections == Index(s.accepted) <==> !LeavesTorn(s, r, stage)
  {
    hide Extract;
    hide PriorOf;
    hide Index;
    hide Misremembers;
    hide LineageOk;
    hide LockOk;
    hide CurrentVersion;
    var h := s.accepted;
    assert h != [] && h[|h| - 1] == r;
    IndexLength(h);
    if stage.Fill? {
      if stage.rest == [] {
        FilledIs(s, c, r, stage.version, stage.prior);
        RebuiltIsIndexExactly(Before(h), r, stage.prior);
      } else {
        hide RebuiltRow;
        var rows := Rebuilt(Extract(r.html), r, stage.version, stage.prior);
        assert |s.db.sections + Rebuilt(stage.rest, r, stage.version, stage.prior)| == |rows|;
      }
    }
  }

  lemma AdvanceKeepsIndexOk(s: Server, c: Client, r: Request, stage: Stage, torn: bool)
    requires Safe(s) && IndexOk(s, torn) && s.lock == Some(c) && PcOf(s, c) == Holding(r, stage)
    ensures IndexOk(AdvanceHolder(s, c, r, stage), Tears(s, Advance(c), torn))
  {
    hide Extract;
    hide PriorOf;
    hide Rebuilt;
    hide Index;
    hide Misremembers;
    hide LineageOk;
    hide LockOk;
    hide CurrentVersion;
    if stage.Point? {
      assert Before(s.accepted + [r]) == s.accepted;
    } else if stage.Fill? && stage.rest == [] {
      FilledIs(s, c, r, stage.version, stage.prior);
      RebuiltIsIndexExactly(Before(s.accepted), r, stage.prior);
    }
  }

  lemma StepKeepsIndexOk(s: Server, e: Event, torn: bool)
    requires Safe(s) && IndexOk(s, torn)
    ensures IndexOk(Step(s, e), Tears(s, e, torn))
  {
    hide Extract;
    hide PriorOf;
    hide Rebuilt;
    hide Index;
    hide LineageOk;
    hide Misremembers;
    if e.Advance? && PcOf(s, e.c).Holding? {
      AdvanceKeepsIndexOk(s, e.c, PcOf(s, e.c).req, PcOf(s, e.c).stage, torn);
      hide AdvanceHolder;
    } else if Interrupts(s, e) {
      var c := s.lock.value;
      GivenUpExactly(s, c, PcOf(s, c).req, PcOf(s, c).stage, torn);
      hide LeavesTorn;
    }
  }

  lemma {:induction false} RunKeepsIndexOk(events: seq<Event>)
    ensures IndexOk(After(Start(), events), Torn(events))
  {
    if events != [] {
      var before := events[..|events| - 1];
      RunKeepsIndexOk(before);
      RunKeepsSafe(before);
      hide Safe;
      hide IndexOk;
      hide Step;
      hide Tears;
      StepKeepsIndexOk(After(Start(), before), events[|events| - 1], Torn(before));
    }
  }

  /** After any run, with drops and crashes anywhere, the stored index is the one the history of
      accepted syncs defines exactly when the run did not tear it, whenever no one holds the lock;
      and the lineage is that history. */
  lemma IndexAgreesExactly(events: seq<Event>)
    ensures var s := After(Start(), events);
            && (s.lock.None? ==> (s.db.sections == Index(s.accepted) <==> !Torn(events)))
            && (forall k :: 0 <= k < |s.accepted| ==> Landed(s.db, s.accepted, k))
  {
    RunKeepsIndexOk(events);
    RunKeepsSafe(events);
    hide After;
    hide Index;
    hide HolderOk;
    hide LineageOk;
    hide Torn;
    SafeLineage(After(Start(), events));
  }

  /** In any reachable state, dropping the client that rebuilds the index, or crashing, leaves the
      history's index exactly when `LeavesTorn` says so: while the old rows stand, exactly if the
      old and the new index are both empty; while filling, exactly if nothing is left to insert
      and every credit was remembered. */
  lemma InterruptTearsExactly(events: seq<Event>, e: Event)
    requires Interrupts(After(Start(), events), e)
    ensures var s := After(Start(), events);
            var t := Step(s, e);
            && t.lock.None? && t.accepted == s.accepted
            && (t.db.sections == Index(t.accepted) <==>
                  !LeavesTorn(s, PcOf(s, s.lock.value).req, PcOf(s, s.lock.value).stage))
  {
    var s := After(Start(), events);
    RunKeepsIndexOk(events);
    RunKeepsSafe(events);
    hide After;
    hide Index;
    hide Torn;
    hide LineageOk;
    hide Extract;
    hide LeavesTorn;
    hide HolderOk;
    var c := s.lock.value;
    GivenUpExactly(s, c, PcOf(s, c).req, PcOf(s, c).stage, Torn(events));
  }

  predicate Uninterrupted(events: seq<Event>)
    decreases |events|
  {
    events != [] ==>
      Uninterrupted(events[..|events| - 1]) && !Interrupts(After(Start(), events[..|events| - 1]), events[|events| - 1])
  }

  /** A run in which no rebuild is cut short never tears the index. */
  lemma {:induction false} UninterruptedNeverTears(events: seq<Event>)
    requires Uninterrupted(events)
    ensures !Torn(events)
  {
    if events != [] {
      var before := events[..|events| - 1];
      UninterruptedNeverTears(before);
      RunKeepsIndexOk(before);
      RunKeepsSafe(before);
      hide After;
      hide Torn;
      NoTearWithoutInterrupt(After(Start(), before), events[|events| - 1]);
      TornStep(events);
    }
  }

  lemma TornStep(events: seq<Event>)
    requires events != []
    ensures Torn(events) ==
            Tears(After(Start(), events[..|events| - 1]), events[|events| - 1], Torn(events[..|events| - 1]))
  {
  }

  lemma NoTearWithoutInterrupt(s: Server, e: Event)
    requires Safe(s) && IndexOk(s, false) && !Interrupts(s, e)
    ensures !Tears(s, e, false)
  {
    hide Extract;
    hide PriorOf;
    hide Index;
    hide LineageOk;
    hide Misremembers;
    if e.Advance? && PcOf(s, e.c).Holding? && PcOf(s, e.c).stage.Fill? && PcOf(s, e.c).stage.rest == [] {
      RebuiltIsIndex(Before(s.accepted), PcOf(s, e.c).req, PcOf(s, e.c).stage.prior);
    }
  }

  // ---- what a torn index remembers wrongly ----

  /** Some section of the new HTML stood in the rows that were lost, and had a credit. */
  predicate LosesCredit(h: seq<Request>, r: Request, lost: seq<Section>) {
    r.node.None? && exists x, y :: x in Extract(r.html) && y in lost && y.id == x.id && Credited(h, x.id).Some?
  }

  /** The sync gives a section with this credit another one, or drops the section. */
  predicate LastChanges(last: Request, credit: Option<string>, id: string) {
    if Present(last, id) then last.node.Some? && last.node != credit else credit.Some?
  }

  /** Some section of the new HTML got its credit from the sync that was given up, or lost it. */
  predicate MissesLast(h: seq<Request>, r: Request)
    requires h != []
  {
    var last, earlier := h[|h| - 1], h[..|h| - 1];
    && r.node.None?
    && exists x :: x in Extract(r.html) && LastChanges(last, Credited(earlier, x.id), x.id)
  }

  lemma CreditStep(h: seq<Request>, id: string)
    requires h != []
    ensures Credited(h, id) ==
            if !Present(h[|h| - 1], id) then None
            else if h[|h| - 1].node.Some? then h[|h| - 1].node else Credited(h[..|h| - 1], id)
  {
    hide Present;
  }

  /** Rows of the version before remember every credit but what the last sync did to it. */
  lemma OldRowsRecallExactly(h: seq<Request>, r: Request)
    requires h != []
    ensures Misremembers(h, r, PriorOf(Index(h[..|h| - 1]))) <==> MissesLast(h, r)
  {
    var earlier := h[..|h| - 1];
    forall x | x in Extract(r.html)
      ensures Lookup(PriorOf(Index(earlier)), x.id) != Credited(h, x.id)
              <==> LastChanges(h[|h| - 1], Credited(earlier, x.id), x.id)
    {
      IndexRemembers(earlier, x.id);
      CreditStep(h, x.id);
    }
    hide Extract;
    hide PriorOf;
    hide Lookup;
    hide Present;
    hide Index;
    hide Credited;
  }

  /** What is recalled of a section from the rows that were inserted. */
  lemma TakenRecalls(h: seq<Request>, taken: seq<Section>, rest: seq<Section>, prior: Prior, id: string)
    requires h != [] && Extract(h[|h| - 1].html) == taken + rest && !Misremembers(Before(h), h[|h| - 1], prior)
    ensures Lookup(PriorOf(Rebuilt(taken, h[|h| - 1], |h|, prior)), id) ==
            if exists k :: 0 <= k < |taken| && taken[k].id == id then Credited(h, id) else None
  {
    var last := h[|h| - 1];
    var rows := Rebuilt(taken, last, |h|, prior);
    assert Before(h) + [last] == h;
    forall k | 0 <= k < |rows| ensures rows[k].provenance == Credited(h, rows[k].id) && rows[k].id == taken[k].id {
      assert (taken + rest)[k] == taken[k];
      RowIsExactly(Before(h), last, prior, taken[k]);
    }
    hide Extract;
    hide RebuiltRow;
    hide Credited;
    PriorLookup(rows, id, Credited(h, id));
    assert (exists k :: 0 <= k < |rows| && rows[k].id == id) <==> exists k :: 0 <= k < |taken| && taken[k].id == id;
  }

  lemma PresentParts(h: seq<Request>, taken: seq<Section>, rest: seq<Section>, id: string)
    requires h != [] && Extract(h[|h| - 1].html) == taken + rest
    ensures Present(h[|h| - 1], id) <==>
            (exists k :: 0 <= k < |taken| && taken[k].id == id) || exists y :: y in rest && y.id == id
    ensures (exists y :: y in rest && y.id == id) ==> !exists k :: 0 <= k < |taken| && taken[k].id == id
  {
    var xs := taken + rest;
    ExtractSound(h[|h| - 1].html);
    hide Extract;
    if Present(h[|h| - 1], id) {
      var x :| x in xs && x.id == id;
      var k :| 0 <= k < |xs| && xs[k] == x;
      assert k < |taken| ==> taken[k].id == id;
      assert k >= |taken| ==> rest[k - |taken|] in rest;
    }
    if k :| 0 <= k < |taken| && taken[k].id == id { assert xs[k] in xs; }
    if y :| y in rest && y.id == id {
      var j :| 0 <= j < |rest| && rest[j] == y;
      assert xs[|taken| + j] == y && y in xs;
      assert forall k :: 0 <= k < |taken| ==> xs[k] == taken[k];
    }
  }

  /** Rows that were inserted before a rebuild was given up remember every credit but those of the
      sections that were left. */
  lemma TakenRowsRecallExactly(h: seq<Request>, taken: seq<Section>, rest: seq<Section>, prior: Prior, r: Request)
    requires h != [] && Extract(h[|h| - 1].html) == taken + rest && !Misremembers(Before(h), h[|h| - 1], prior)
    ensures Misremembers(h, r, PriorOf(Rebuilt(taken, h[|h| - 1], |h|, prior))) <==> LosesCredit(h, r, rest)
  {
    forall x | x in Extract(r.html)
      ensures Lookup(PriorOf(Rebuilt(taken, h[|h| - 1], |h|, prior)), x.id) != Credited(h, x.id) <==>
              (exists y :: y in rest && y.id == x.id) && Credited(h, x.id).Some?
    {
      TakenRecalls(h, taken, rest, prior, x.id);
      PresentParts(h, taken, rest, x.id);
      CreditStep(h, x.id);
    }
    hide Extract;
    hide PriorOf;
    hide Lookup;
    hide Present;
    hide Rebuilt;
    hide Credited;
  }

  /** What a rebuild of an untorn index, given up at this stage, makes the next sync remember
      wrongly: the sections left to insert that had a credit, or, while the old rows stand, those
      whose credit the sync that was given up had set or dropped. */
  predicate WouldMisremember(s: Server, r: Request, stage: Stage)
    requires s.accepted != []
  {
    if stage.Fill? then LosesCredit(s.accepted, r, stage.rest) else MissesLast(s.accepted, r)
  }

  lemma FilledSoFar(s: Server, c: Client, r: Request, v: int, prior: Prior, rest: seq<Section>)
    returns (taken: seq<Section>)
    requires Safe(s) && s.lock == Some(c) && PcOf(s, c) == Holding(r, Fill(v, prior, rest))
    ensures s.accepted != [] && s.accepted[|s.accepted| - 1] == r && v == |s.accepted|
    ensures Extract(r.html) == taken + rest && s.db.sections == Rebuilt(taken, r, v, prior)
  {
    hide LineageOk;
    hide LockOk;
    hide Extract;
    var xs, n := Extract(r.html), |s.db.sections|;
    taken := xs[..n];
  }

  lemma GivenUpRecalls(s: Server, c: Client, last: Request, stage: Stage, r: Request)
    requires Safe(s) && IndexOk(s, false) && s.lock == Some(c)
    requires PcOf(s, c) == Holding(last, stage) && Rebuilding(stage)
    ensures s.accepted != [] && (Misremembers(s.accepted, r, PriorOf(s.db.sections)) <==> WouldMisremember(s, r, stage))
  {
    hide Extract;
    hide PriorOf;
    hide Index;
    hide Rebuilt;
    hide LineageOk;
    hide LockOk;
    hide Misremembers;
    hide LosesCredit;
    hide MissesLast;
    if stage.Fill? {
      var taken := FilledSoFar(s, c, last, stage.version, stage.prior, stage.rest);
      RebuiltIsIndex(Before(s.accepted), last, stage.prior);
      TakenRowsRecallExactly(s.accepted, taken, stage.rest, stage.prior, r);
    } else {
      OldRowsRecallExactly(s.accepted, r);
    }
  }

  /** After a drop or crash that is the first to cut a rebuild short, what the next sync would
      remember wrongly is exactly this. */
  lemma InterruptRecallsExactly(events: seq<Event>, e: Event, r: Request)
    requires Interrupts(After(Start(), events), e) && !Torn(events)
    ensures var s := After(Start(), events);
            && s.accepted != [] && Step(s, e).db == s.db
            && (Misremembers(s.accepted, r, PriorOf(s.db.sections)) <==>
                  WouldMisremember(s, r, PcOf(s, s.lock.value).stage))
  {
    var s := After(Start(), events);
    RunKeepsIndexOk(events);
    RunKeepsSafe(events);
    assert Step(s, e).db == s.db by { hide Extract; }
    hide *;
    InterruptsIs(s, e);
    GivenUpRecalls(s, s.lock.value, PcOf(s, s.lock.value).req, PcOf(s, s.lock.value).stage, r);
  }

  lemma InterruptsIs(s: Server, e: Event)
    requires Interrupts(s, e)
    ensures s.lock.Some? && PcOf(s, s.lock.value).Holding? && Rebuilding(PcOf(s, s.lock.value).stage)
  {
  }
}
