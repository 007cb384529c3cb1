/** Promotions cut at their statements: the thread is read, the node is made, the thread is
    stamped. Over any interleaving the nodes are the promoted threads, plus those that lost theirs. */
module Promotions {
  import opened Comments
  import opened Text

  type Client = nat

  datatype Pc =
    | Idle
    | Checked(epic: string, thread: ThreadId, draft: MapNode)
    | Made(epic: string, thread: ThreadId, node: NodeId)

  /** `orphans` is history: the promotions that stamped a thread another one had stamped, or that
      were dropped with their node made and no stamp. */
  datatype Server = Server(store: Store, clients: map<Client, Pc>, orphans: nat)

  datatype Event =
    | Request(event: Comments.Event)
    | Ask(c: Client, epic: string, comment: nat, request: PromoteRequest)
    | MakeNode(c: Client)
    | Stamp(c: Client)
    | Drop(c: Client)

  function PcOf(s: Server, c: Client): Pc { if c in s.clients then s.clients[c] else Idle }

  function Goto(s: Server, c: Client, pc: Pc): Server { s.(clients := s.clients[c := pc]) }

  /** The reads and checks of a promotion, and the node it is about to make but for the id. */
  function Asked(s: Server, c: Client, epic: string, comment: nat, r: PromoteRequest): Server {
    var kind := Given(r.kind);
    if kind.None? || !Promotable(kind.value) then s
    else if comment >= |s.store.comments| || s.store.comments[comment].epic != epic then s
    else
      var x := s.store.comments[comment];
      if Promoted(s.store.comments, epic, x.thread) then s
      else
        var title := Given(r.title);
        var name := if title.Some? then title.value else TitleOf(x.body);
        var node := MapNode(0, epic, kind.value, name, Given(r.question));
        Goto(s, c, Checked(epic, x.thread, node))
  }

  function Stamps(s: Server, c: Client, epic: string, thread: ThreadId, node: NodeId): Server {
    Goto(Server(s.store.(comments := Stamped(s.store.comments, epic, thread, node)), s.clients,
                if Promoted(s.store.comments, epic, thread) then s.orphans + 1 else s.orphans),
         c, Idle)
  }

  function Step(s: Server, e: Event): Server {
    match e
    case Request(event) => if event.Promote? then s else s.(store := Comments.Step(s.store, event))
    case Ask(c, epic, comment, r) => if PcOf(s, c).Idle? then Asked(s, c, epic, comment, r) else s
    case MakeNode(c) =>
      var pc := PcOf(s, c);
      if !pc.Checked? then s
      else
        Goto(s.(store := s.store.(nodes := s.store.nodes + [pc.draft.(id := s.store.next)], next := s.store.next + 1)),
             c, Made(pc.epic, pc.thread, s.store.next))
    case Stamp(c) =>
      var pc := PcOf(s, c);
      if pc.Made? then Stamps(s, c, pc.epic, pc.thread, pc.node) else s
    case Drop(c) => Goto(if PcOf(s, c).Made? then s.(orphans := s.orphans + 1) else s, c, Idle)
  }

  function Start(): Server { Server(Comments.Start(), map[], 0) }

  function After(events: seq<Event>): Server {
    if events == [] then Start() else Step(After(events[..|events| - 1]), events[|events| - 1])
  }

  /** A promotion that runs alone does what the handler does. */
  lemma AloneIsPromoted(s: Server, c: Client, epic: string, comment: nat, r: PromoteRequest)
    requires PcOf(s, c).Idle?
    ensures var t := Step(Step(Step(s, Ask(c, epic, comment, r)), MakeNode(c)), Stamp(c));
            t.store == ThreadPromoted(s.store, epic, comment, r).1 && t.orphans == s.orphans && PcOf(t, c).Idle?
  {
    hide Given;
    hide TitleOf;
    hide Promotable;
    hide Promoted;
    hide Stamped;
  }

  // ---- what every interleaving keeps ----

  function Making(clients: map<Client, Pc>): set<Client> { set c | c in clients && clients[c].Made? }

  predicate Unused(cs: seq<Comment>, node: NodeId) {
    forall k :: 0 <= k < |cs| && cs[k].promoted.Some? ==> cs[k].promoted.value != node
  }

  predicate Lives(cs: seq<Comment>, epic: string, thread: ThreadId) {
    exists k :: 0 <= k < |cs| && InThread(cs[k], epic, thread)
  }

  /** Promotions in flight are of threads that exist; a made node is new, and no one else's. */
  predicate ClientsOk(store: Store, clients: map<Client, Pc>) {
    && (forall c :: c in clients && !clients[c].Idle? ==> Lives(store.comments, clients[c].epic, clients[c].thread))
    && (forall c :: c in Making(clients) ==> clients[c].node < store.next && Unused(store.comments, clients[c].node))
    && (forall c, d :: c in Making(clients) && d in Making(clients) && clients[c].node == clients[d].node ==> c == d)
  }

  predicate RowsOk(store: Store) {
    OneAnchor(store.comments) && OneNode(store.comments) && ResolvedFirst(store.comments) && IdsOk(store)
  }

  /** Every node has its thread, is about to get it, or lost it. */
  predicate NodesAccounted(s: Server) {
    |s.store.nodes| == |PromotedThreads(s.store.comments)| + |Making(s.clients)| + s.orphans
  }

  predicate Inv(s: Server) { RowsOk(s.store) && ClientsOk(s.store, s.clients) && NodesAccounted(s) }

  lemma MakingMoves(clients: map<Client, Pc>, c: Client, pc: Pc)
    ensures var was := if c in clients then clients[c] else Idle;
            |Making(clients[c := pc])| + (if was.Made? then 1 else 0) == |Making(clients)| + if pc.Made? then 1 else 0
  {
    var before, after := Making(clients), Making(clients[c := pc]);
    MovesOnlyOne(clients, c, pc);
    assert c in before <==> c in clients && clients[c].Made?;
    hide Making;
    var rest := before - {c};
    assert before == if c in before then rest + {c} else rest;
    assert after == if pc.Made? then rest + {c} else rest;
  }

  lemma MovesOnlyOne(clients: map<Client, Pc>, c: Client, pc: Pc)
    ensures forall d :: d in Making(clients[c := pc]) <==> (if d == c then pc.Made? else d in Making(clients))
  {
    var moved := clients[c := pc];
    forall d ensures d in Making(moved) <==> (if d == c then pc.Made? else d in Making(clients)) {
      assert d in Making(moved) <==> d in moved && moved[d].Made?;
    }
  }

  lemma OkIs(s: Store)
    ensures Ok(s) <==> RowsOk(s) && |s.nodes| == |PromotedThreads(s.comments)|
  {
  }

  // ---- posts and replies in between ----

  /** Posts, replies and resolves do not read the nodes. */
  lemma RequestIgnoresNodes(s: Store, e: Comments.Event, ns: seq<MapNode>)
    requires !e.Promote?
    ensures Comments.Step(s.(nodes := ns), e) == Comments.Step(s, e).(nodes := ns)
    ensures Comments.Step(s, e).nodes == s.nodes && s.next <= Comments.Step(s, e).next
  {
    hide Given;
    hide ValidAnchor;
    hide HeadOf;
  }

  lemma RequestKeepsStamps(s: Store, e: Comments.Event)
    requires !e.Promote?
    ensures var cs, ds := s.comments, Comments.Step(s, e).comments;
            && |cs| <= |ds|
            && (forall k :: 0 <= k < |cs| ==>
                  ds[k].epic == cs[k].epic && ds[k].thread == cs[k].thread && ds[k].promoted == cs[k].promoted)
            && forall k :: |cs| <= k < |ds| ==> ds[k].promoted.None?
  {
    hide Given;
    hide Placed;
  }

  lemma RequestKeepsInv(s: Server, e: Comments.Event)
    requires Inv(s) && !e.Promote?
    ensures Inv(s.(store := Comments.Step(s.store, e)))
  {
    var t := Comments.Step(s.store, e);
    RequestKeepsRows(s.store, e);
    RequestIgnoresNodes(s.store, e, []);
    RequestKeepsStamps(s.store, e);
    hide Comments.Step;
    hide RowsOk;
    hide PromotedThreads;
    RequestKeepsClients(s.store, t, s.clients);
    hide ClientsOk;
  }

  lemma RequestKeepsClients(store: Store, t: Store, clients: map<Client, Pc>)
    requires ClientsOk(store, clients) && store.next <= t.next && |store.comments| <= |t.comments|
    requires forall k :: 0 <= k < |store.comments| ==>
               && t.comments[k].epic == store.comments[k].epic && t.comments[k].thread == store.comments[k].thread
               && t.comments[k].promoted == store.comments[k].promoted
    requires forall k :: |store.comments| <= k < |t.comments| ==> t.comments[k].promoted.None?
    ensures ClientsOk(t, clients)
  {
    LivesOn(store.comments, t.comments);
    hide Lives;
    forall node | Unused(store.comments, node) ensures Unused(t.comments, node) {
      forall k | 0 <= k < |t.comments| && t.comments[k].promoted.Some? ensures t.comments[k].promoted.value != node {
        assert k < |store.comments|;
      }
    }
    hide Unused;
    hide Making;
  }

  /** The invariant of whole requests says it of these rows, whatever the nodes. */
  lemma RequestKeepsRows(store: Store, e: Comments.Event)
    requires RowsOk(store) && !e.Promote?
    ensures RowsOk(Comments.Step(store, e))
    ensures |PromotedThreads(Comments.Step(store, e).comments)| == |PromotedThreads(store.comments)|
  {
    var n := |PromotedThreads(store.comments)|;
    var ns := seq(n, k => MapNode(0, "", "", "", None));
    var padded := store.(nodes := ns);
    RequestIgnoresNodes(store, e, ns);
    assert RowsOk(padded) && RowsOk(Comments.Step(padded, e)) == RowsOk(Comments.Step(store, e)) by {
      hide Comments.Step;
    }
    hide *;
    OkIs(padded);
    Comments.StepKeepsOk(padded, e);
    OkIs(Comments.Step(padded, e));
  }

  lemma LivesOn(cs: seq<Comment>, ds: seq<Comment>)
    requires |cs| <= |ds| && forall k :: 0 <= k < |cs| ==> ds[k].epic == cs[k].epic && ds[k].thread == cs[k].thread
    ensures forall epic, thread :: Lives(cs, epic, thread) ==> Lives(ds, epic, thread)
  {
    forall epic, thread | Lives(cs, epic, thread) ensures Lives(ds, epic, thread) {
      var k :| 0 <= k < |cs| && InThread(cs[k], epic, thread);
      assert InThread(ds[k], epic, thread);
    }
  }

  // ---- the steps of a promotion ----

  lemma MoveKeepsInv(s: Server, c: Client, pc: Pc, orphans: nat)
    requires Inv(s) && !pc.Made? && (pc.Checked? ==> Lives(s.store.comments, pc.epic, pc.thread))
    requires orphans == s.orphans + if PcOf(s, c).Made? then 1 else 0
    ensures Inv(Goto(s.(orphans := orphans), c, pc))
  {
    MakingMoves(s.clients, c, pc);
    hide RowsOk;
    hide PromotedThreads;
    hide Lives;
    hide Unused;
  }

  lemma AskedKeepsInv(s: Server, c: Client, epic: string, comment: nat, r: PromoteRequest)
    requires Inv(s) && PcOf(s, c).Idle?
    ensures Inv(Asked(s, c, epic, comment, r))
  {
    hide Given;
    hide Promotable;
    hide Promoted;
    hide TitleOf;
    hide Inv;
    var t := Asked(s, c, epic, comment, r);
    if t != s {
      assert InThread(s.store.comments[comment], epic, s.store.comments[comment].thread);
      assert Lives(s.store.comments, epic, s.store.comments[comment].thread);
      MoveKeepsInv(s, c, PcOf(t, c), s.orphans);
    }
  }

  lemma MadeKeepsClients(store: Store, clients: map<Client, Pc>, c: Client, pc: Pc, made: Store)
    requires ClientsOk(store, clients) && c in clients && clients[c].Checked?
    requires IdsOk(store) && made.comments == store.comments && made.next == store.next + 1
    requires pc == Made(clients[c].epic, clients[c].thread, store.next)
    ensures ClientsOk(made, clients[c := pc])
  {
    MovesOnlyOne(clients, c, pc);
    NextUnused(store);
    hide Making;
    hide Lives;
    hide Unused;
    hide IdsOk;
  }

  lemma NextUnused(store: Store)
    requires IdsOk(store)
    ensures Unused(store.comments, store.next)
  {
  }

  lemma MadeKeepsRows(store: Store, made: Store, node: MapNode)
    requires RowsOk(store) && made == store.(nodes := store.nodes + [node], next := store.next + 1)
    ensures RowsOk(made)
  {
    hide OneAnchor;
    hide OneNode;
    hide ResolvedFirst;
  }

  lemma MadeKeepsInv(s: Server, c: Client)
    requires Inv(s) && PcOf(s, c).Checked?
    ensures Inv(Step(s, MakeNode(c)))
  {
    var pc := Made(PcOf(s, c).epic, PcOf(s, c).thread, s.store.next);
    var node := PcOf(s, c).draft.(id := s.store.next);
    var made := s.store.(nodes := s.store.nodes + [node], next := s.store.next + 1);
    MakingMoves(s.clients, c, pc);
    MadeKeepsClients(s.store, s.clients, c, pc, made);
    MadeKeepsRows(s.store, made, node);
    hide RowsOk;
    hide ClientsOk;
    hide PromotedThreads;
    hide Making;
  }

  lemma StampKeepsClients(store: Store, clients: map<Client, Pc>, c: Client, pc: Pc)
    requires ClientsOk(store, clients) && c in clients && clients[c] == pc && pc.Made?
    ensures ClientsOk(store.(comments := Stamped(store.comments, pc.epic, pc.thread, pc.node)), clients[c := Idle])
  {
    var ds := Stamped(store.comments, pc.epic, pc.thread, pc.node);
    LivesOn(store.comments, ds);
    MovesOnlyOne(clients, c, Idle);
    forall d | d in Making(clients) && d != c ensures Unused(ds, clients[d].node) {
      assert clients[d].node != pc.node && Unused(store.comments, clients[d].node);
    }
    hide Lives;
    hide Making;
    hide Unused;
    hide Stamped;
  }

  /** The stamp of a node nobody carries yet: another promoted thread, or a thread's second node. */
  lemma StampAccounts(store: Store, epic: string, thread: ThreadId, node: NodeId)
    requires RowsOk(store) && Lives(store.comments, epic, thread) && node < store.next && Unused(store.comments, node)
    ensures var ds := Stamped(store.comments, epic, thread, node);
            && RowsOk(store.(comments := ds))
            && |PromotedThreads(ds)| ==
                 |PromotedThreads(store.comments)| + if Promoted(store.comments, epic, thread) then 0 else 1
  {
    var cs := store.comments;
    var k :| 0 <= k < |cs| && InThread(cs[k], epic, thread);
    StampsThread(cs, epic, k, node);
    var ds := Stamped(cs, epic, thread, node);
    StampKeepsRows(cs, ds, thread, node);
    if Promoted(cs, epic, thread) {
      StampAgain(cs, ds, thread, node);
    } else {
      InPromoted(cs, thread);
      hide PromotedThreads;
      StampAddsThread(cs, ds, thread, node, k);
    }
    hide PromotedThreads;
    hide Stamped;
    hide Promoted;
    hide OneAnchor;
    hide OneNode;
    hide ResolvedFirst;
  }

  lemma StampsKeepsInv(s: Server, c: Client)
    requires Inv(s) && PcOf(s, c).Made?
    ensures Inv(Step(s, Stamp(c)))
  {
    var pc := PcOf(s, c);
    assert c in Making(s.clients);
    StampAccounts(s.store, pc.epic, pc.thread, pc.node);
    StampKeepsClients(s.store, s.clients, c, pc);
    MakingMoves(s.clients, c, Idle);
    hide PromotedThreads;
    hide Making;
    hide RowsOk;
    hide ClientsOk;
    hide Promoted;
    hide Stamped;
  }

  lemma StepKeepsInv(s: Server, e: Event)
    requires Inv(s)
    ensures Inv(Step(s, e))
  {
    hide Inv;
    match e
    case Request(event) => if !event.Promote? { RequestKeepsInv(s, event); }
    case Ask(c, epic, comment, r) => if PcOf(s, c).Idle? { AskedKeepsInv(s, c, epic, comment, r); }
    case MakeNode(c) => if PcOf(s, c).Checked? { MadeKeepsInv(s, c); }
    case Stamp(c) => if PcOf(s, c).Made? { StampsKeepsInv(s, c); }
    case Drop(c) => MoveKeepsInv(s, c, Idle, s.orphans + if PcOf(s, c).Made? then 1 else 0);
    hide Comments.Step;
    hide Asked;
    hide Stamps;
  }

  lemma StartInv()
    ensures Inv(Start())
  {
    assert PromotedThreads([]) == {} && Making(map[]) == {};
  }

  /** Over every interleaving: threads keep to one epic and anchor, promoted ids agree within a
      thread and differ between threads, and every node is a promoted thread's, one still to be
      stamped, or an orphan. */
  lemma {:induction false} RunKeepsInv(events: seq<Event>)
    ensures Inv(After(events))
  {
    hide Inv;
    hide Step;
    if events == [] {
      StartInv();
    } else {
      RunKeepsInv(events[..|events| - 1]);
      StepKeepsInv(After(events[..|events| - 1]), events[|events| - 1]);
    }
  }

  /** A stamp finds its thread unpromoted, and no promotion is dropped with its node made. */
  predicate Fits(s: Server, e: Event) {
    && (e.Stamp? && PcOf(s, e.c).Made? ==> !Promoted(s.store.comments, PcOf(s, e.c).epic, PcOf(s, e.c).thread))
    && (e.Drop? ==> !PcOf(s, e.c).Made?)
  }

  predicate AllFit(events: seq<Event>)
    decreases |events|
  {
    events != [] ==> AllFit(events[..|events| - 1]) && Fits(After(events[..|events| - 1]), events[|events| - 1])
  }

  lemma StepOrphans(s: Server, e: Event)
    ensures Step(s, e).orphans == s.orphans + if Fits(s, e) then 0 else 1
  {
    hide Given;
    hide Promotable;
    hide Promoted;
    hide TitleOf;
    hide Comments.Step;
    hide Stamped;
  }

  lemma {:induction false} NoOrphansExactly(events: seq<Event>)
    ensures After(events).orphans == 0 <==> AllFit(events)
  {
    hide Step;
    hide Fits;
    if events != [] {
      NoOrphansExactly(events[..|events| - 1]);
      StepOrphans(After(events[..|events| - 1]), events[|events| - 1]);
    }
  }

  /** Whenever no promotion is between its two writes, the store is in order, with one node for
      each promoted thread, exactly when along the run every stamp found its thread unpromoted
      and no promotion was dropped between its writes. */
  lemma OrderedExactly(events: seq<Event>)
    requires Making(After(events).clients) == {}
    ensures Ok(After(events).store) <==> AllFit(events)
  {
    RunKeepsInv(events);
    OkIs(After(events).store);
    NoOrphansExactly(events);
    hide After;
    hide AllFit;
    hide RowsOk;
    hide PromotedThreads;
    hide Making;
    hide Ok;
  }

  // ---- two promotions that overlap ----

  lemma BothAsk(s: Server, c: Client, d: Client, epic: string, r: PromoteRequest, kind: string)
    requires c != d && PcOf(s, c).Idle? && PcOf(s, d).Idle? && |s.store.comments| == 1
    requires s.store.comments[0].epic == epic && !Promoted(s.store.comments, epic, s.store.comments[0].thread)
    requires Given(r.kind) == Some(kind) && Promotable(kind)
    ensures var t := Step(Step(s, Ask(c, epic, 0, r)), Ask(d, epic, 0, r));
            && t.store == s.store && t.orphans == s.orphans
            && PcOf(t, c).Checked? && PcOf(t, c) == PcOf(t, d)
            && PcOf(t, c).epic == epic && PcOf(t, c).thread == s.store.comments[0].thread
  {
    hide Given;
    hide Promotable;
    hide TitleOf;
    hide Promoted;
  }

  lemma BothMakeAndStamp(s: Server, c: Client, d: Client)
    requires c != d && PcOf(s, c).Checked? && PcOf(s, d) == PcOf(s, c) && |s.store.comments| == 1
    requires InThread(s.store.comments[0], PcOf(s, c).epic, PcOf(s, c).thread) && s.store.comments[0].promoted.None?
    ensures var made := Step(Step(s, MakeNode(c)), MakeNode(d));
            var t := Step(Step(made, Stamp(c)), Stamp(d));
            && |t.store.nodes| == |s.store.nodes| + 2 && t.orphans == s.orphans + 1
            && |t.store.comments| == 1 && t.store.comments[0].promoted == Some(s.store.next + 1)
            && t.store.nodes[|s.store.nodes|].id == s.store.next
  {
    var pc := PcOf(s, c);
    var m1 := Step(s, MakeNode(c));
    assert PcOf(m1, d) == pc;
    var m2 := Step(m1, MakeNode(d));
    assert PcOf(m2, c) == Made(pc.epic, pc.thread, s.store.next);
    assert PcOf(m2, d) == Made(pc.epic, pc.thread, s.store.next + 1);
    var t1 := Step(m2, Stamp(c));
    assert !Promoted(m2.store.comments, pc.epic, pc.thread);
    assert PcOf(t1, d) == PcOf(m2, d) && t1.store.comments[0].promoted == Some(s.store.next);
    assert Promoted(t1.store.comments, pc.epic, pc.thread);
  }

  lemma AfterOne(events: seq<Event>, e: Event)
    ensures After(events + [e]) == Step(After(events), e)
  {
    assert (events + [e])[..|events|] == events;
  }

  lemma AfterFour(events: seq<Event>, a: Event, b: Event, c: Event, d: Event)
    ensures After(events + [a, b, c, d]) == Step(Step(Step(Step(After(events), a), b), c), d)
  {
    hide Step;
    hide After;
    AfterOne(events, a);
    AfterOne(events + [a], b);
    AfterOne(events + [a] + [b], c);
    AfterOne(events + [a] + [b] + [c], d);
    assert events + [a, b, c, d] == events + [a] + [b] + [c] + [d];
  }

  lemma OneThread(cs: seq<Comment>)
    requires |cs| == 1
    ensures |PromotedThreads(cs)| <= 1
  {
    assert PromotedThreads(cs) <= {cs[0].thread};
    if PromotedThreads(cs) != {} { assert PromotedThreads(cs) == {cs[0].thread}; }
  }

  lemma FirstPost(anchors: set<(string, string, string)>, epic: string, author: Option<string>, p: PostRequest)
    requires Posted(Comments.Start(), anchors, epic, author, p).0.Done?
    ensures var s := Step(Start(), Request(Post(anchors, epic, author, p)));
            && |s.store.comments| == 1 && s.store.comments[0].epic == epic && s.store.comments[0].promoted.None?
            && s.store.nodes == [] && s.clients == map[] && s.orphans == 0
            && !Promoted(s.store.comments, epic, s.store.comments[0].thread)
  {
    hide Given;
    hide ValidAnchor;
  }

  /** A run of two promotions that both read the thread before either stamps it: whatever the
      post and the request, two nodes are made for one promoted thread, which keeps the second. */
  lemma PromotionsRace(anchors: set<(string, string, string)>, epic: string, author: Option<string>,
                       p: PostRequest, r: PromoteRequest, c: Client, d: Client)
    requires c != d && Posted(Comments.Start(), anchors, epic, author, p).0.Done?
    requires Given(r.kind).Some? && Promotable(Given(r.kind).value)
    ensures var asked := [Request(Post(anchors, epic, author, p)), Ask(c, epic, 0, r), Ask(d, epic, 0, r)];
            var t := After(asked + [MakeNode(c), MakeNode(d), Stamp(c), Stamp(d)]);
            && |t.store.nodes| == 2 && t.orphans == 1
            && |t.store.comments| == 1 && t.store.comments[0].promoted.Some?
            && t.store.comments[0].promoted.value != t.store.nodes[0].id
            && !Ok(t.store)
  {
    var post := Request(Post(anchors, epic, author, p));
    var asked := [post, Ask(c, epic, 0, r), Ask(d, epic, 0, r)];
    FirstPost(anchors, epic, author, p);
    var s := Step(Start(), post);
    BothAsk(s, c, d, epic, r, Given(r.kind).value);
    hide Given;
    hide Promotable;
    hide Posted;
    assert InThread(s.store.comments[0], epic, s.store.comments[0].thread);
    hide Step;
    AfterThree(post, Ask(c, epic, 0, r), Ask(d, epic, 0, r));
    BothMakeAndStamp(After(asked), c, d);
    AfterFour(asked, MakeNode(c), MakeNode(d), Stamp(c), Stamp(d));
    hide After;
    var t := After(asked + [MakeNode(c), MakeNode(d), Stamp(c), Stamp(d)]);
    OneThread(t.store.comments);
    OkIs(t.store);
  }

  lemma AfterThree(a: Event, b: Event, c: Event)
    ensures After([a, b, c]) == Step(Step(Step(Start(), a), b), c)
  {
    assert After([]) == Start();
    hide Step;
    hide After;
    AfterOne([], a);
    AfterOne([a], b);
    AfterOne([a, b], c);
    assert [] + [a] == [a] && [a] + [b] == [a, b] && [a, b] + [c] == [a, b, c];
  }
}
