/** The living Document of one epic: its version lineage, the pointer to the current version
    and the section index, as any number of clients sync it.

    `DocumentEpic` runs one sync from lock to release, as the handler does. `Step` cuts the
    same sync at every await, so that clients interleave and may be dropped anywhere. */
module DocumentStore {
  import opened Text
  import opened Scanner

  /** A sync: the edited HTML, the version it was read at, and who wrote it. */
  datatype Request = Request(html: string, base: int, editor: Option<string>, node: Option<string>)

  datatype VersionRow = VersionRow(html: string, editor: Option<string>, node: Option<string>)

  datatype Document = Document(html: string, version: int, editor: Option<string>)

  datatype SectionRow = SectionRow(
    id: string, title: Option<string>, provenance: Option<string>, editor: Option<string>, version: int)

  /** The rows of one epic. `lineage` is keyed by version: the table's primary key. */
  datatype Db = Db(
    document: Option<Document>, lineage: map<int, VersionRow>, sections: seq<SectionRow>, feed: seq<int>)

  /** The provenance each indexed section had before a rebuild. */
  type Prior = map<string, Option<string>>

  datatype Outcome = Accepted(version: int) | Stale(current: int) | Failed

  // ---- the statements ----

  /** `current_version`. */
  function CurrentVersion(db: Db): int { if db.document.Some? then db.document.value.version else 0 }

  function RowOf(r: Request): VersionRow { VersionRow(r.html, r.editor, r.node) }

  function Inserted(db: Db, r: Request, version: int): Db { db.(lineage := db.lineage[version := RowOf(r)]) }

  function Pointed(db: Db, r: Request, version: int): Db {
    db.(document := Some(Document(r.html, version, r.editor)))
  }

  function PriorOf(sections: seq<SectionRow>): Prior {
    if sections == [] then map[]
    else PriorOf(sections[..|sections| - 1])[sections[|sections| - 1].id := sections[|sections| - 1].provenance]
  }

  function Lookup(prior: Prior, id: string): Option<string> {
    if id in prior then prior[id] else None
  }

  function RebuiltRow(x: Section, r: Request, version: int, prior: Prior): SectionRow {
    SectionRow(x.id, x.title, if r.node.Some? then r.node else Lookup(prior, x.id), r.editor, version)
  }

  function Rebuilt(xs: seq<Section>, r: Request, version: int, prior: Prior): (rows: seq<SectionRow>)
    ensures |rows| == |xs| && forall k :: 0 <= k < |xs| ==> rows[k] == RebuiltRow(xs[k], r, version, prior)
  {
    seq(|xs|, k requires 0 <= k < |xs| => RebuiltRow(xs[k], r, version, prior))
  }

  /** What one whole sync leaves behind when its base is current. */
  function Committed(db: Db, r: Request): Db {
    var v := CurrentVersion(db) + 1;
    Pointed(Inserted(db, r, v), r, v).(
      sections := Rebuilt(Extract(r.html), r, v, PriorOf(db.sections)),
      feed := db.feed + [v])
  }

  lemma PriorStart(sections: seq<SectionRow>)
    ensures PriorOf(sections[..0]) == map[] && sections[..|sections|] == sections
  {
  }

  lemma PriorNext(sections: seq<SectionRow>, k: nat)
    requires k < |sections|
    ensures PriorOf(sections[..k + 1]) == PriorOf(sections[..k])[sections[k].id := sections[k].provenance]
  {
    assert sections[..k + 1][..k] == sections[..k];
  }

  // ---- one sync, uninterrupted ----

  class DocumentEpic {
    var document: Option<Document>
    var lineage: map<int, VersionRow>
    var sections: seq<SectionRow>
    var feed: seq<int>

    function View(): Db
      reads this
    {
      Db(document, lineage, sections, feed)
    }

    constructor ()
      ensures View() == Db(None, map[], [], [])
    {
      document, lineage, sections, feed := None, map[], [], [];
    }

    /** `commit_version`: the lineage row, then the pointer. A duplicate version is refused by
        the primary key and nothing is written. */
    method CommitVersion(r: Request, newVersion: int) returns (ok: bool)
      modifies this
      ensures ok == (newVersion !in old(lineage))
      ensures View() == if ok then Pointed(Inserted(old(View()), r, newVersion), r, newVersion) else old(View())
      ensures ok ==> lineage == old(lineage)[newVersion := VersionRow(r.html, r.editor, r.node)]
      ensures ok ==> document == Some(Document(r.html, newVersion, r.editor))
    {
      if newVersion in lineage {
        return false;
      }
      lineage := lineage[newVersion := VersionRow(r.html, r.editor, r.node)];
      document := Some(Document(r.html, newVersion, r.editor));
      return true;
    }

    /** What the index says of each section, before it is dropped. */
    method RememberProvenance() returns (prior: Prior)
      ensures prior == PriorOf(sections)
    {
      hide PriorOf;
      PriorStart(sections);
      prior := map[];
      for k := 0 to |sections|
        invariant prior == PriorOf(sections[..k])
      {
        PriorNext(sections, k);
        prior := prior[sections[k].id := sections[k].provenance];
      }
    }

    /** The inserts of `rebuild_sections`, into an index just cleared. */
    method InsertAnchors(extracted: seq<Section>, r: Request, version: int, prior: Prior)
      requires sections == []
      modifies this`sections
      ensures sections == Rebuilt(extracted, r, version, prior)
    {
      for k := 0 to |extracted|
        invariant |sections| == k
        invariant forall j :: 0 <= j < k ==> sections[j] == RebuiltRow(extracted[j], r, version, prior)
      {
        var x := extracted[k];
        var provenance: Option<string>;
        if r.node.Some? {
          provenance := r.node;
        } else if x.id in prior {
          provenance := prior[x.id];
        } else {
          provenance := None;
        }
        sections := sections + [SectionRow(x.id, x.title, provenance, r.editor, version)];
      }
    }

    /** `rebuild_sections`: remember provenance, drop the index, insert every anchor again. */
    method RebuildSections(r: Request, version: int)
      modifies this
      ensures View() == old(View()).(sections := Rebuilt(Extract(r.html), r, version, PriorOf(old(sections))))
    {
      hide Extract;
      hide PriorOf;
      hide Rebuilt;
      var prior := RememberProvenance();
      sections := [];
      var extracted := ExtractSections(r.html);
      InsertAnchors(extracted, r, version, prior);
    }

    /** `sync_under_semaphore`, the lock held throughout. */
    method Sync(r: Request) returns (outcome: Outcome)
      modifies this
      ensures var db := old(View());
              var n := CurrentVersion(db);
              if r.base != n then outcome == Stale(n) && View() == db
              else if n + 1 in db.lineage then outcome == Failed && View() == db
              else outcome == Accepted(n + 1) && View() == Committed(db, r)
      ensures outcome.Accepted? ==>
                && lineage == old(lineage)[outcome.version := VersionRow(r.html, r.editor, r.node)]
                && document == Some(Document(r.html, outcome.version, r.editor))
                && feed == old(feed) + [outcome.version]
    {
      var current := if document.Some? then document.value.version else 0;
      if r.base != current {
        return Stale(current);
      }
      var newVersion := current + 1;
      var ok := CommitVersion(r, newVersion);
      if !ok {
        return Failed;
      }
      RebuildSections(r, newVersion);
      feed := feed + [newVersion];
      return Accepted(newVersion);
    }
  }

  // ---- the same sync cut at every await ----

  type Client = nat

  /** Where a lock holder stands in its critical section. */
  datatype Stage =
    | Read
    | Insert(version: int)
    | Point(version: int)
    | Remember(version: int)
    | Clear(version: int, prior: Prior)
    | Fill(version: int, prior: Prior, rest: seq<Section>)
    | Record(version: int, prior: Prior)

  datatype Pc = Idle | Waiting(req: Request) | Holding(req: Request, stage: Stage) | Finished(outcome: Outcome)

  /** `accepted` is history: the syncs whose pointer move took effect. */
  datatype Server = Server(db: Db, lock: Option<Client>, clients: map<Client, Pc>, accepted: seq<Request>)

  datatype Event = Ask(c: Client, req: Request) | Acquire(c: Client) | Advance(c: Client) | Drop(c: Client) | Crash

  function PcOf(s: Server, c: Client): Pc { if c in s.clients then s.clients[c] else Idle }

  function Start(): Server { Server(Db(None, map[], [], []), None, map[], []) }

  function Release(s: Server, c: Client, o: Outcome): Server {
    s.(lock := None, clients := s.clients[c := Finished(o)])
  }

  function Goto(s: Server, c: Client, r: Request, stage: Stage): Server {
    s.(clients := s.clients[c := Holding(r, stage)])
  }

  /** One await of the lock holder's critical section. */
  function AdvanceHolder(s: Server, c: Client, r: Request, stage: Stage): Server {
    match stage
    case Read =>
      var n := CurrentVersion(s.db);
      if r.base != n then Release(s, c, Stale(n)) else Goto(s, c, r, Insert(n + 1))
    case Insert(v) =>
      if v in s.db.lineage then Release(s, c, Failed)
      else Goto(s.(db := Inserted(s.db, r, v)), c, r, Point(v))
    case Point(v) => Goto(s.(db := Pointed(s.db, r, v), accepted := s.accepted + [r]), c, r, Remember(v))
    case Remember(v) => Goto(s, c, r, Clear(v, PriorOf(s.db.sections)))
    case Clear(v, prior) => Goto(s.(db := s.db.(sections := [])), c, r, Fill(v, prior, Extract(r.html)))
    case Fill(v, prior, rest) =>
      if rest == [] then Goto(s, c, r, Record(v, prior))
      else
        Goto(s.(db := s.db.(sections := s.db.sections + [RebuiltRow(rest[0], r, v, prior)])), c, r,
             Fill(v, prior, rest[1..]))
    case Record(v, _) => Release(s.(db := s.db.(feed := s.db.feed + [v])), c, Accepted(v))
  }

  function Step(s: Server, e: Event): Server {
    match e
    case Ask(c, req) =>
      var pc := PcOf(s, c);
      if pc.Idle? || pc.Finished? then s.(clients := s.clients[c := Waiting(req)]) else s
    case Acquire(c) =>
      var pc := PcOf(s, c);
      if pc.Waiting? && s.lock.None? then Goto(s.(lock := Some(c)), c, pc.req, Read) else s
    case Advance(c) =>
      var pc := PcOf(s, c);
      if pc.Holding? then AdvanceHolder(s, c, pc.req, pc.stage) else s
    case Drop(c) =>
      var pc := PcOf(s, c);
      s.(lock := if pc.Holding? then None else s.lock, clients := s.clients[c := Finished(Failed)])
    case Crash => s.(lock := None, clients := map[])
  }

  function After(s: Server, events: seq<Event>): Server
    decreases |events|
  {
    if events == [] then s else Step(After(s, events[..|events| - 1]), events[|events| - 1])
  }

  // ---- safety over every interleaving ----

  /** The lock is held by exactly the one client inside its critical section. */
  predicate LockOk(s: Server) {
    && (forall c :: c in s.clients && s.clients[c].Holding? ==> s.lock == Some(c))
    && (s.lock.Some? ==> s.lock.value in s.clients && s.clients[s.lock.value].Holding?)
  }

  /** Accepted sync `k` was sent on base `k`, and its row is version `k + 1` of the lineage. */
  predicate Landed(db: Db, h: seq<Request>, k: int) {
    0 <= k < |h| && h[k].base == k && k + 1 in db.lineage && db.lineage[k + 1] == RowOf(h[k])
  }

  /** Versions 1..n are the accepted syncs `h`, in order, each on the base before it. */
  predicate LineageOk(db: Db, h: seq<Request>) {
    var n := |h|;
    && CurrentVersion(db) == n
    && (db.document.Some? <==> n > 0)
    && (n > 0 ==> db.document == Some(Document(h[n - 1].html, n, h[n - 1].editor)))
    && (forall k :: 0 <= k < n ==> Landed(db, h, k))
    && (forall v :: v in db.lineage ==> 1 <= v <= n + 1)
  }

  /** A lineage row stands one ahead of the pointer. */
  predicate Ahead(db: Db, h: seq<Request>) { |h| + 1 in db.lineage }

  /** The holder's sync is the newest version and its index is being rebuilt. */
  predicate Newest(db: Db, h: seq<Request>, r: Request, v: int) {
    v == |h| && h != [] && h[|h| - 1] == r && !Ahead(db, h)
  }

  predicate HolderOk(db: Db, h: seq<Request>, r: Request, stage: Stage) {
    match stage
    case Read => true
    case Insert(v) => r.base == |h| && v == |h| + 1
    case Point(v) => r.base == |h| && v == |h| + 1 && v in db.lineage && db.lineage[v] == RowOf(r)
    case Remember(v) => Newest(db, h, r, v)
    case Clear(v, _) => Newest(db, h, r, v)
    case Fill(v, prior, rest) =>
      Newest(db, h, r, v) && db.sections + Rebuilt(rest, r, v, prior) == Rebuilt(Extract(r.html), r, v, prior)
    case Record(v, prior) => Newest(db, h, r, v) && db.sections == Rebuilt(Extract(r.html), r, v, prior)
  }

  predicate Safe(s: Server) {
    && LockOk(s) && LineageOk(s.db, s.accepted)
    && (s.lock.Some? ==> HolderOk(s.db, s.accepted, PcOf(s, s.lock.value).req, PcOf(s, s.lock.value).stage))
  }

  lemma SafeLineage(s: Server)
    requires Safe(s)
    ensures CurrentVersion(s.db) == |s.accepted|
    ensures forall k :: 0 <= k < |s.accepted| ==> Landed(s.db, s.accepted, k)
  {
    hide Landed;
    hide HolderOk;
  }

  lemma RebuiltStep(x: Section, rest: seq<Section>, r: Request, version: int, prior: Prior)
    ensures Rebuilt([x] + rest, r, version, prior)
            == [RebuiltRow(x, r, version, prior)] + Rebuilt(rest, r, version, prior)
  {
  }

  lemma FillStep(rows: seq<SectionRow>, xs: seq<Section>, r: Request, version: int, prior: Prior)
    requires xs != []
    ensures rows + Rebuilt(xs, r, version, prior)
         == (rows + [RebuiltRow(xs[0], r, version, prior)]) + Rebuilt(xs[1..], r, version, prior)
  {
    assert xs == [xs[0]] + xs[1..];
    RebuiltStep(xs[0], xs[1..], r, version, prior);
    hide *;
    var rest := Rebuilt(xs[1..], r, version, prior);
    var row := RebuiltRow(xs[0], r, version, prior);
    assert rows + ([row] + rest) == (rows + [row]) + rest;
  }

  lemma InsertKeepsLineageOk(db: Db, h: seq<Request>, r: Request)
    requires LineageOk(db, h)
    ensures LineageOk(Inserted(db, r, |h| + 1), h)
  {
    var db' := Inserted(db, r, |h| + 1);
    forall k | 0 <= k < |h| ensures Landed(db', h, k) {
      assert Landed(db, h, k);
    }
  }

  lemma PointKeepsLineageOk(db: Db, h: seq<Request>, r: Request)
    requires LineageOk(db, h) && r.base == |h| && Ahead(db, h) && db.lineage[|h| + 1] == RowOf(r)
    ensures var db' := Pointed(db, r, |h| + 1);
            LineageOk(db', h + [r]) && Newest(db', h + [r], r, |h| + 1)
  {
    var g := h + [r];
    var db' := Pointed(db, r, |h| + 1);
    forall k | 0 <= k < |g| ensures Landed(db', g, k) {
      if k < |h| { assert Landed(db, h, k); }
    }
  }

  lemma IndexKeepsLineageOk(db: Db, h: seq<Request>, rows: seq<SectionRow>, feed: seq<int>)
    requires LineageOk(db, h)
    ensures LineageOk(db.(sections := rows, feed := feed), h)
  {
    var db' := db.(sections := rows, feed := feed);
    forall k | 0 <= k < |h| ensures Landed(db', h, k) {
      assert Landed(db, h, k);
    }
  }

  lemma GotoSafe(s: Server, s': Server, c: Client, r: Request, stage: Stage)
    requires LockOk(s) && s.lock == Some(c) && s'.lock == s.lock && s'.clients == s.clients
    requires LineageOk(s'.db, s'.accepted) && HolderOk(s'.db, s'.accepted, r, stage)
    ensures Safe(Goto(s', c, r, stage))
  {
    hide LineageOk;
    hide HolderOk;
  }

  lemma ReleaseSafe(s: Server, s': Server, c: Client, o: Outcome)
    requires LockOk(s) && s.lock == Some(c) && s'.lock == s.lock && s'.clients == s.clients
    requires LineageOk(s'.db, s'.accepted)
    ensures Safe(Release(s', c, o))
  {
    hide LineageOk;
    hide HolderOk;
  }

  lemma AdvanceWriteKeepsSafe(s: Server, c: Client, r: Request, stage: Stage)
    requires Safe(s) && s.lock == Some(c) && PcOf(s, c) == Holding(r, stage)
    requires stage.Read? || stage.Insert? || stage.Point? || stage.Remember?
    ensures Safe(AdvanceHolder(s, c, r, stage))
  {
    hide LockOk;
    hide PriorOf;
    match stage
    case Read =>
      var n := CurrentVersion(s.db);
      if r.base != n { ReleaseSafe(s, s, c, Stale(n)); } else { GotoSafe(s, s, c, r, Insert(n + 1)); }
    case Insert(v) =>
      if v in s.db.lineage {
        ReleaseSafe(s, s, c, Failed);
      } else {
        InsertKeepsLineageOk(s.db, s.accepted, r);
        GotoSafe(s, s.(db := Inserted(s.db, r, v)), c, r, Point(v));
      }
    case Point(v) =>
      PointKeepsLineageOk(s.db, s.accepted, r);
      GotoSafe(s, s.(db := Pointed(s.db, r, v), accepted := s.accepted + [r]), c, r, Remember(v));
    case Remember(v) =>
      GotoSafe(s, s, c, r, Clear(v, PriorOf(s.db.sections)));
  }

  lemma AdvanceIndexKeepsSafe(s: Server, c: Client, r: Request, stage: Stage)
    requires Safe(s) && s.lock == Some(c) && PcOf(s, c) == Holding(r, stage)
    requires stage.Clear? || stage.Fill? || stage.Record?
    ensures Safe(AdvanceHolder(s, c, r, stage))
  {
    hide LockOk;
    hide Extract;
    hide Rebuilt;
    hide RebuiltRow;
    hide CurrentVersion;
    match stage
    case Clear(v, prior) =>
      assert [] + Rebuilt(Extract(r.html), r, v, prior) == Rebuilt(Extract(r.html), r, v, prior);
      IndexKeepsLineageOk(s.db, s.accepted, [], s.db.feed);
      GotoSafe(s, s.(db := s.db.(sections := [])), c, r, Fill(v, prior, Extract(r.html)));
    case Fill(v, prior, rest) =>
      if rest == [] {
        assert Rebuilt(rest, r, v, prior) == [];
        assert s.db.sections + [] == s.db.sections;
        GotoSafe(s, s, c, r, Record(v, prior));
      } else {
        var rows := s.db.sections + [RebuiltRow(rest[0], r, v, prior)];
        FillStep(s.db.sections, rest, r, v, prior);
        IndexKeepsLineageOk(s.db, s.accepted, rows, s.db.feed);
        GotoSafe(s, s.(db := s.db.(sections := rows)), c, r, Fill(v, prior, rest[1..]));
      }
    case Record(v, _) =>
      IndexKeepsLineageOk(s.db, s.accepted, s.db.sections, s.db.feed + [v]);
      ReleaseSafe(s, s.(db := s.db.(feed := s.db.feed + [v])), c, Accepted(v));
  }

  lemma StepKeepsSafe(s: Server, e: Event)
    requires Safe(s)
    ensures Safe(Step(s, e))
  {
    hide Extract;
    hide PriorOf;
    hide Rebuilt;
    if e.Advance? && PcOf(s, e.c).Holding? {
      var pc := PcOf(s, e.c);
      if pc.stage.Clear? || pc.stage.Fill? || pc.stage.Record? {
        AdvanceIndexKeepsSafe(s, e.c, pc.req, pc.stage);
      } else {
        AdvanceWriteKeepsSafe(s, e.c, pc.req, pc.stage);
      }
      hide AdvanceHolder;
      hide Safe;
    }
  }

  /** For any number of clients and any interleaving, with drops and crashes anywhere: versions
      are exactly 1..n, each accepted on the base before it, the document is row n, and the
      lineage is at most one row ahead of it. */
  lemma {:induction false} RunKeepsSafe(events: seq<Event>)
    ensures Safe(After(Start(), events))
    ensures var h := After(Start(), events).accepted;
            forall j, k :: 0 <= j < k < |h| ==> h[j].base != h[k].base
  {
    if events != [] {
      var before := events[..|events| - 1];
      RunKeepsSafe(before);
      hide Step;
      hide Safe;
      StepKeepsSafe(After(Start(), before), events[|events| - 1]);
    }
    BasesDiffer(After(Start(), events));
  }

  predicate Holds(row: VersionRow, r: Request) { row.html == r.html && row.editor == r.editor && row.node == r.node }

  /** Row `v` of the lineage is there, and holds what the request sent, field by field. */
  predicate RowHolds(db: Db, v: int, r: Request) { v in db.lineage && Holds(db.lineage[v], r) }

  /** The document shows row `v` of the lineage. */
  predicate ShowsRow(db: Db, v: int) {
    && v in db.lineage && db.document.Some?
    && var d, row := db.document.value, db.lineage[v]; d.version == v && d.html == row.html && d.editor == row.editor
  }

  lemma LandedHolds(db: Db, h: seq<Request>, k: nat)
    requires LineageOk(db, h) && k < |h|
    ensures RowHolds(db, k + 1, h[k]) && (k == |h| - 1 ==> ShowsRow(db, |h|))
  {
    assert Landed(db, h, k);
  }

  lemma DocumentOnceAccepted(db: Db, h: seq<Request>)
    requires LineageOk(db, h)
    ensures db.document.Some? <==> h != []
  {
    hide Landed;
  }

  /** Over every run, row `k + 1` of the lineage holds what the `k`-th accepted sync sent, and the
      current document shows the newest of those rows. */
  lemma LineageHoldsWhatWasSent(events: seq<Event>)
    ensures var s := After(Start(), events);
            && (forall k :: 0 <= k < |s.accepted| ==> RowHolds(s.db, k + 1, s.accepted[k]))
            && (if s.accepted == [] then s.db.document == None else ShowsRow(s.db, |s.accepted|))
  {
    RunKeepsSafe(events);
    hide *;
    var s := After(Start(), events);
    SafeKeepsLineage(s);
    forall k | 0 <= k < |s.accepted| ensures RowHolds(s.db, k + 1, s.accepted[k]) {
      LandedHolds(s.db, s.accepted, k);
    }
    DocumentOnceAccepted(s.db, s.accepted);
    if s.accepted != [] { LandedHolds(s.db, s.accepted, |s.accepted| - 1); }
  }

  lemma SafeKeepsLineage(s: Server)
    requires Safe(s)
    ensures LineageOk(s.db, s.accepted)
  {
  }

  /** The row that stands ahead of the pointer, while a sync is between its writes, holds that sync. */
  lemma RowAheadHolds(events: seq<Event>, c: Client, r: Request, v: int)
    ensures var s := After(Start(), events);
            PcOf(s, c) == Holding(r, Point(v)) ==>
              v == |s.accepted| + 1 && RowHolds(s.db, v, r)
  {
    RunKeepsSafe(events);
    hide After;
    hide LineageOk;
    var s := After(Start(), events);
    if PcOf(s, c) == Holding(r, Point(v)) {
      assert s.clients[c].Holding? && s.lock == Some(c);
    }
  }

  /** Each base version is accepted at most once. */
  lemma BasesDiffer(s: Server)
    requires Safe(s)
    ensures forall j, k :: 0 <= j < k < |s.accepted| ==> s.accepted[j].base != s.accepted[k].base
  {
    hide LockOk;
    hide HolderOk;
    forall j, k | 0 <= j < k < |s.accepted| ensures s.accepted[j].base != s.accepted[k].base {
      assert Landed(s.db, s.accepted, j) && Landed(s.db, s.accepted, k);
    }
  }

  predicate BeforePointer(stage: Stage) { stage.Insert? || stage.Point? }

  /** A step writes only for the lock holder, past its base check and on that very base; so a
      stale sync writes nothing, and the version moves by one, once per base. */
  lemma WritesNeedTheBase(s: Server, e: Event)
    requires Safe(s)
    ensures Step(s, e).db != s.db ==>
              && e.Advance? && s.lock == Some(e.c) && PcOf(s, e.c).Holding? && !PcOf(s, e.c).stage.Read?
              && CurrentVersion(s.db) == PcOf(s, e.c).req.base + (if BeforePointer(PcOf(s, e.c).stage) then 0 else 1)
    ensures Step(s, e).accepted != s.accepted ==>
              && e.Advance? && PcOf(s, e.c).Holding?
              && Step(s, e).accepted == s.accepted + [PcOf(s, e.c).req]
              && CurrentVersion(s.db) == PcOf(s, e.c).req.base
              && CurrentVersion(Step(s, e).db) == CurrentVersion(s.db) + 1
  {
    if s.accepted != [] {
      assert Landed(s.db, s.accepted, |s.accepted| - 1);
    }
    hide Extract;
    hide PriorOf;
    hide Rebuilt;
    hide RebuiltRow;
  }
}
