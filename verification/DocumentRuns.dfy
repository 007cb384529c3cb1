/** Whole syncs of the Document's machine: one that runs alone is the uninterrupted sync, one that
    is dropped between its two writes freezes the epic, and one that is dropped while it fills the
    index tears it. */
module DocumentRuns {
  import opened DocumentIndex
  import opened DocumentStore
  import Printer
  import opened Scanner
  import opened Text

  // ---- the machine refines the uninterrupted sync ----

  function Advances(s: Server, c: Client, k: nat): Server
    decreases k
  {
    if k == 0 then s else Advances(Step(s, Advance(c)), c, k - 1)
  }

  lemma {:induction false} AdvancesSum(s: Server, c: Client, j: nat, k: nat)
    ensures Advances(s, c, j + k) == Advances(Advances(s, c, j), c, k)
    decreases j
  {
    hide Step;
    if j > 0 {
      AdvancesSum(Step(s, Advance(c)), c, j - 1, k);
    }
  }

  lemma {:induction false} FillRuns(s: Server, c: Client, r: Request, v: int, prior: Prior, rest: seq<Section>)
    requires s.lock == Some(c) && PcOf(s, c) == Holding(r, Fill(v, prior, rest))
    ensures var t := Advances(s, c, |rest|);
            && t.lock == Some(c) && PcOf(t, c) == Holding(r, Fill(v, prior, []))
            && t.db == s.db.(sections := s.db.sections + Rebuilt(rest, r, v, prior))
    decreases |rest|
  {
    hide RebuiltRow;
    hide Extract;
    hide PriorOf;
    if rest == [] {
      assert s.db.sections + [] == s.db.sections;
    } else {
      FillStep(s.db.sections, rest, r, v, prior);
      hide Rebuilt;
      FillRuns(Step(s, Advance(c)), c, r, v, prior, rest[1..]);
    }
  }

  /** A waiting sync that gets the lock and runs alone ends with just what `DocumentEpic.Sync`
      promises: accepted if and only if its base is current and no row stands ahead. */
  lemma AloneIsSync(s: Server, c: Client, r: Request) returns (k: nat)
    requires s.lock.None? && PcOf(s, c) == Waiting(r)
    ensures var t := Advances(Step(s, Acquire(c)), c, k);
            var n := CurrentVersion(s.db);
            && t.lock.None?
            && (if r.base != n then PcOf(t, c) == Finished(Stale(n)) && t.db == s.db
                else if n + 1 in s.db.lineage then PcOf(t, c) == Finished(Failed) && t.db == s.db
                else PcOf(t, c) == Finished(Accepted(n + 1)) && t.db == Committed(s.db, r))
  {
    hide Extract;
    hide PriorOf;
    hide Rebuilt;
    hide RebuiltRow;
    var n := CurrentVersion(s.db);
    var s1 := Step(s, Acquire(c));
    assert PcOf(s1, c) == Holding(r, Read) && s1.db == s.db;
    var s2 := Step(s1, Advance(c));
    if r.base != n {
      k := 1;
      assert Advances(s2, c, 0) == s2;
      return;
    }
    assert PcOf(s2, c) == Holding(r, Insert(n + 1));
    var s3 := Step(s2, Advance(c));
    if n + 1 in s.db.lineage {
      k := 2;
      assert Advances(s3, c, 0) == s3;
      return;
    }
    k := ToFill(s3, c, r, n + 1);
    AdvancesSum(s1, c, 2, k);
    assert Advances(s1, c, 2) == s3 by { assert Advances(s2, c, 1) == s3; }
    k := 2 + k;
  }

  lemma ToFill(s: Server, c: Client, r: Request, v: int) returns (k: nat)
    requires s.lock == Some(c) && PcOf(s, c) == Holding(r, Point(v))
    ensures var t := Advances(s, c, k);
            && t.lock.None? && PcOf(t, c) == Finished(Accepted(v))
            && t.db == Pointed(s.db, r, v).(
                 sections := Rebuilt(Extract(r.html), r, v, PriorOf(s.db.sections)), feed := s.db.feed + [v])
  {
    hide *;
    PointedKeepsRest(s.db, r, v);
    var prior := PriorOf(s.db.sections);
    var xs := Extract(r.html);
    var s3 := PointToFill(s, c, r, v);
    FillRuns(s3, c, r, v, prior, xs);
    var s4 := Advances(s3, c, |xs|);
    assert [] + Rebuilt(xs, r, v, prior) == Rebuilt(xs, r, v, prior);
    FillToEnd(s4, c, r, v, prior);
    AdvancesSum(s3, c, |xs|, 2);
    AdvancesSum(s, c, 3, |xs| + 2);
    k := 3 + (|xs| + 2);
  }

  lemma PointedKeepsRest(db: Db, r: Request, v: int)
    ensures Pointed(db, r, v).sections == db.sections && Pointed(db, r, v).feed == db.feed
  {
  }

  lemma AdvancesThrice(s: Server, c: Client)
    ensures Advances(s, c, 2) == Step(Step(s, Advance(c)), Advance(c))
    ensures Advances(s, c, 3) == Step(Step(Step(s, Advance(c)), Advance(c)), Advance(c))
  {
    hide Step;
    var s1 := Step(s, Advance(c));
    var s2 := Step(s1, Advance(c));
    var s3 := Step(s2, Advance(c));
    assert Advances(s1, c, 2) == Advances(s2, c, 1) == Advances(s3, c, 0);
    assert Advances(s1, c, 1) == Advances(s2, c, 0);
  }

  lemma PointToFill(s: Server, c: Client, r: Request, v: int) returns (t: Server)
    requires s.lock == Some(c) && PcOf(s, c) == Holding(r, Point(v))
    ensures t == Advances(s, c, 3) && t.lock == Some(c)
    ensures PcOf(t, c) == Holding(r, Fill(v, PriorOf(s.db.sections), Extract(r.html)))
    ensures t.db == Pointed(s.db, r, v).(sections := [])
  {
    hide Extract;
    hide PriorOf;
    hide Rebuilt;
    hide RebuiltRow;
    AdvancesThrice(s, c);
    hide Advances;
    var s1 := Step(s, Advance(c));
    var s2 := Step(s1, Advance(c));
    t := Step(s2, Advance(c));
    assert PcOf(s1, c) == Holding(r, Remember(v));
    assert PcOf(s2, c) == Holding(r, Clear(v, PriorOf(s.db.sections)));
  }

  lemma FillToEnd(s: Server, c: Client, r: Request, v: int, prior: Prior)
    requires s.lock == Some(c) && PcOf(s, c) == Holding(r, Fill(v, prior, []))
    ensures var t := Advances(s, c, 2);
            t.lock.None? && PcOf(t, c) == Finished(Accepted(v)) && t.db == s.db.(feed := s.db.feed + [v])
  {
    hide RebuiltRow;
    AdvancesThrice(s, c);
    hide Advances;
    assert PcOf(Step(s, Advance(c)), c) == Holding(r, Record(v, prior));
  }

  // ---- the failure window of `commit_version` ----

  /** The pointer was never moved to the newest lineage row, and no one is about to. */
  predicate Frozen(s: Server) {
    Safe(s) && Ahead(s.db, s.accepted)
    && (s.lock.Some? ==> var stage := PcOf(s, s.lock.value).stage; stage.Read? || stage.Insert?)
  }

  lemma StepKeepsFrozen(s: Server, e: Event)
    requires Frozen(s)
    ensures Frozen(Step(s, e)) && Step(s, e).db == s.db && Step(s, e).accepted == s.accepted
  {
    StepKeepsSafe(s, e);
    hide Extract;
    hide PriorOf;
    hide Rebuilt;
    hide LineageOk;
  }

  /** Once a sync was dropped between its two writes, no later sync of the epic is accepted,
      whoever sends it and whatever base it names. */
  lemma {:induction false} FrozenForever(s: Server, events: seq<Event>)
    requires Frozen(s)
    ensures Frozen(After(s, events)) && After(s, events).db == s.db && After(s, events).accepted == s.accepted
  {
    if events != [] {
      FrozenForever(s, events[..|events| - 1]);
      hide Frozen;
      hide Step;
      StepKeepsFrozen(After(s, events[..|events| - 1]), events[|events| - 1]);
    }
  }

  lemma AfterOne(s: Server, events: seq<Event>, e: Event)
    ensures After(s, events + [e]) == Step(After(s, events), e)
  {
    assert (events + [e])[..|events|] == events;
  }

  lemma AfterTwo(s: Server, events: seq<Event>, a: Event, b: Event)
    ensures After(s, events + [a, b]) == Step(Step(After(s, events), a), b)
  {
    hide *;
    AfterOne(s, events, a);
    AfterOne(s, events + [a], b);
    assert events + [a, b] == events + [a] + [b];
  }

  lemma FirstTwo(s: Server, a: Event, b: Event)
    ensures After(s, [a, b]) == Step(Step(s, a), b)
  {
    AfterTwo(s, [], a, b);
    hide Step;
    assert After(s, []) == s && [] + [a, b] == [a, b];
  }

  lemma FrozenIs(s: Server)
    requires Safe(s) && s.lock.None? && |s.accepted| + 1 in s.db.lineage
    ensures Frozen(s)
  {
    hide Safe;
  }

  /** Such a run: the very first sync of an epic, dropped after its lineage row. */
  lemma DropBetweenWritesFreezes(c: Client, html: string)
    ensures var r := Request(html, 0, None, None);
            Frozen(After(Start(), [Ask(c, r), Acquire(c)] + [Advance(c), Advance(c)] + [Drop(c)]))
  {
    var r := Request(html, 0, None, None);
    var a, b, d := Ask(c, r), Acquire(c), Advance(c);
    InsertsRow(c, r);
    hide *;
    FirstTwo(Start(), a, b);
    AfterTwo(Start(), [a, b], d, d);
    AfterOne(Start(), [a, b] + [d, d], Drop(c));
    RunKeepsSafe([a, b] + [d, d] + [Drop(c)]);
    FrozenIs(After(Start(), [a, b] + [d, d] + [Drop(c)]));
  }

  /** The first sync of an epic up to its lineage row, and dropped there. */
  lemma InsertsRow(c: Client, r: Request)
    requires r.base == 0
    ensures var s := Step(Step(Step(Step(Start(), Ask(c, r)), Acquire(c)), Advance(c)), Advance(c));
            && PcOf(s, c) == Holding(r, Point(1)) && s.lock == Some(c) && s.accepted == [] && s.db.sections == []
            && var t := Step(s, Drop(c)); t.lock.None? && |t.accepted| + 1 in t.db.lineage
  {
    hide Extract;
    hide PriorOf;
    hide Rebuilt;
    var s2 := Step(Step(Start(), Ask(c, r)), Acquire(c));
    assert PcOf(s2, c) == Holding(r, Read);
    var s3 := Step(s2, Advance(c));
    assert PcOf(s3, c) == Holding(r, Insert(1));
  }

  // ---- a torn index ----

  const ID_X := Printer.Valued(" ", "id", "", "", Printer.Quoted("x", '"'))

  /** A document with one anchor. */
  const ANCHORED := Printer.Void("a", [ID_X], false, Printer.Nil)

  lemma AnchoredHasSection()
    ensures |Extract(Printer.Print(ANCHORED))| == 1
  {
    assert Lower("id") == "id" && Lower("x") == "x" && Lower("a") == "a";
    assert Printer.FirstId([ID_X]) == Some("x");
    assert Printer.Preorder(ANCHORED) == [Section("x", None)] + [];
    assert Printer.Good(ANCHORED);
    Printer.ExtractPrinted(ANCHORED);
    hide Extract;
    hide Printer.Print;
    assert FirstOnly([], {"x"}) == [];
  }

  /** From its lineage row on: the pointer moves, and the sync is dropped with its anchor left. */
  lemma TearsThere(s: Server, c: Client, r: Request)
    requires PcOf(s, c) == Holding(r, Point(1)) && s.lock == Some(c) && s.accepted == [] && s.db.sections == []
    ensures var d := Advance(c);
            var t := Step(Step(Step(Step(s, d), d), d), Drop(c));
            && t.lock.None? && t.accepted == [r] && t.db.sections == []
            && t.db.document == Some(Document(r.html, 1, r.editor))
  {
    hide Extract;
    hide PriorOf;
    hide Rebuilt;
    var d := Advance(c);
    var s1 := Step(s, d);
    assert PcOf(s1, c) == Holding(r, Remember(1)) && s1.accepted == [] + [r] == [r];
    var s2 := Step(s1, d);
    assert PcOf(s2, c) == Holding(r, Clear(1, PriorOf([])));
    var s3 := Step(s2, d);
    assert PcOf(s3, c) == Holding(r, Fill(1, PriorOf([]), Extract(r.html)));
  }

  lemma CurrentIs(db: Db)
    ensures db.document.Some? ==> CurrentVersion(db) == db.document.value.version
  {
  }

  /** A run that tears: the first sync of an epic, dropped before it inserts its one anchor. The
      new version is current, and its index is empty. */
  lemma DropWhileFillingTears(c: Client)
    ensures var r := Request(Printer.Print(ANCHORED), 0, None, None);
            var d := Advance(c);
            var events := [Ask(c, r), Acquire(c)] + [d, d] + [d, d] + [d, Drop(c)];
            var t := After(Start(), events);
            && t.lock.None? && CurrentVersion(t.db) == 1 && t.db.sections == []
            && t.db.sections != Index(t.accepted) && Torn(events)
  {
    AnchoredHasSection();
    var r := Request(Printer.Print(ANCHORED), 0, None, None);
    var d := Advance(c);
    var head := [Ask(c, r), Acquire(c)] + [d, d];
    hide *;
    InsertsRow(c, r);
    FirstTwo(Start(), Ask(c, r), Acquire(c));
    AfterTwo(Start(), [Ask(c, r), Acquire(c)], d, d);
    TearsThere(After(Start(), head), c, r);
    AfterTwo(Start(), head, d, d);
    AfterTwo(Start(), head + [d, d], d, Drop(c));
    IndexLength([r]);
    CurrentIs(After(Start(), head + [d, d] + [d, Drop(c)]).db);
    IndexAgreesExactly(head + [d, d] + [d, Drop(c)]);
  }
}
