/** Comment threads: posts and replies, thread-wide resolution, and promotion of a thread into a
    map node. */
module Comments {
  import opened Text

  /** ULIDs; only their freshness matters. */
  type ThreadId = nat

  type NodeId = nat

  /** An absent author is an agent run. */
  datatype Comment = Comment(
    epic: string, thread: ThreadId, anchorKind: string, anchorId: string, author: Option<string>,
    body: string, resolved: bool, promoted: Option<NodeId>)

  datatype MapNode = MapNode(id: NodeId, epic: string, kind: string, title: string, question: Option<string>)

  /** A comment's id is its row; `next` has never been handed out as a thread or node id. */
  datatype Store = Store(comments: seq<Comment>, nodes: seq<MapNode>, next: nat)

  datatype PostRequest = PostRequest(
    anchorKind: Option<string>, anchorId: Option<string>, body: Option<string>, thread: Option<ThreadId>)

  datatype PromoteRequest = PromoteRequest(kind: Option<string>, title: Option<string>, question: Option<string>)

  datatype Answer = Done | BadRequest | NotFound | Conflict

  // ---- titles ----

  const TITLE_MAX := 80

  const FALLBACK_TITLE := "Promoted comment thread"

  function FirstLine(s: string): (line: string)
    ensures line <= s && '\n' !in line
  {
    if s == [] || s[0] == '\n' then [] else [s[0]] + FirstLine(s[1..])
  }

  /** `derived_title`; a carriage return that `lines` would drop is trimmed anyway. */
  method DerivedTitle(body: string) returns (title: string)
    ensures title == TitleOf(body)
  {
    var line := Trim(FirstLine(body));
    title := if |line| <= TITLE_MAX then line else line[..TITLE_MAX];
    if |line| > TITLE_MAX {
      title := title + ['\U{2026}'];
    }
    if title == [] {
      title := FALLBACK_TITLE;
    }
  }

  function TitleOf(body: string): string {
    var line := Trim(FirstLine(body));
    if line == "" then FALLBACK_TITLE
    else if |line| <= TITLE_MAX then line
    else line[..TITLE_MAX] + ['\U{2026}']
  }

  /** A title is one non-empty line of at most 81 characters; a posted body, trimmed and not
      blank, always speaks for itself. */
  lemma TitleIsOneLine(body: string)
    ensures TitleOf(body) != "" && |TitleOf(body)| <= TITLE_MAX + 1 && '\n' !in TitleOf(body)
    ensures body != "" && Trimmed(body) ==>
              var line := Trim(FirstLine(body));
              line != "" && (if |line| <= TITLE_MAX then TitleOf(body) == line
                             else TitleOf(body) == line[..TITLE_MAX] + ['\U{2026}'])
  {
    TrimmedLine(body);
    hide Trim;
    hide FirstLine;
    var line := Trim(FirstLine(body));
    if |line| > TITLE_MAX { assert forall k :: 0 <= k < TITLE_MAX ==> line[..TITLE_MAX][k] in line; }
  }

  lemma TrimmedLine(body: string)
    ensures '\n' !in Trim(FirstLine(body))
    ensures body != "" && Trimmed(body) ==> Trim(FirstLine(body)) != ""
  {
    hide Trim;
    var line := FirstLine(body);
    var t := Trim(line);
    var a, b := TrimSplits(line);
    assert forall k :: 0 <= k < |t| ==> t[k] == line[|a| + k];
    if body != "" && Trimmed(body) {
      assert line != "" && line[0] == body[0];
      assert AllSpace(a + b);
      assert t == "" ==> line == a + b;
    }
  }

  // ---- the statements ----

  predicate InThread(c: Comment, epic: string, thread: ThreadId) { c.epic == epic && c.thread == thread }

  /** The thread's first comment, if it has any. */
  function HeadOf(comments: seq<Comment>, epic: string, thread: ThreadId): Option<Comment> {
    if comments == [] then None
    else
      var earlier := HeadOf(comments[..|comments| - 1], epic, thread);
      var last := comments[|comments| - 1];
      if earlier.Some? then earlier else if InThread(last, epic, thread) then Some(last) else None
  }

  function Resolved(comments: seq<Comment>, epic: string, thread: ThreadId, resolved: bool): (cs: seq<Comment>)
    ensures |cs| == |comments|
    ensures forall k :: 0 <= k < |cs| ==>
              cs[k] == if InThread(comments[k], epic, thread) then comments[k].(resolved := resolved) else comments[k]
  {
    seq(|comments|, k requires 0 <= k < |comments| =>
      if InThread(comments[k], epic, thread) then comments[k].(resolved := resolved) else comments[k])
  }

  function Stamped(comments: seq<Comment>, epic: string, thread: ThreadId, node: NodeId): (cs: seq<Comment>)
    ensures |cs| == |comments|
    ensures forall k :: 0 <= k < |cs| ==>
              cs[k] == if InThread(comments[k], epic, thread) then comments[k].(promoted := Some(node)) else comments[k]
  {
    seq(|comments|, k requires 0 <= k < |comments| =>
      if InThread(comments[k], epic, thread) then comments[k].(promoted := Some(node)) else comments[k])
  }

  predicate Promoted(comments: seq<Comment>, epic: string, thread: ThreadId) {
    exists k :: 0 <= k < |comments| && InThread(comments[k], epic, thread) && comments[k].promoted.Some?
  }

  // ---- requests ----

  /** Trimmed, and absent when that leaves nothing. */
  function Given(field: Option<string>): Option<string> {
    if field.Some? && Trim(field.value) != "" then Some(Trim(field.value)) else None
  }

  predicate Confirms(field: Option<string>, anchor: string) { field.Some? ==> Trim(field.value) == anchor }

  /** `anchors` are the (epic, kind, id) that exist now: map nodes and document sections. */
  predicate ValidAnchor(anchors: set<(string, string, string)>, epic: string, kind: string, id: string) {
    (kind == "node" || kind == "section") && (epic, kind, id) in anchors
  }

  /** Where a post goes: into an existing thread, or into a new one under a valid anchor. */
  function Placed(s: Store, anchors: set<(string, string, string)>, epic: string, r: PostRequest):
    Option<(ThreadId, string, string)>
  {
    if r.thread.Some? then
      var head := HeadOf(s.comments, epic, r.thread.value);
      if head.Some? && Confirms(r.anchorKind, head.value.anchorKind) && Confirms(r.anchorId, head.value.anchorId)
      then Some((r.thread.value, head.value.anchorKind, head.value.anchorId)) else None
    else
      var kind, id := Given(r.anchorKind), Given(r.anchorId);
      if kind.Some? && id.Some? && ValidAnchor(anchors, epic, kind.value, id.value)
      then Some((s.next, kind.value, id.value)) else None
  }

  function Posted(s: Store, anchors: set<(string, string, string)>, epic: string, author: Option<string>,
                  r: PostRequest): (Answer, Store)
  {
    var body, place := Given(r.body), Placed(s, anchors, epic, r);
    if body.None? || place.None? then (BadRequest, s)
    else
      var row := Comment(epic, place.value.0, place.value.1, place.value.2, author, body.value, false, None);
      (Done, s.(comments := s.comments + [row], next := if r.thread.Some? then s.next else s.next + 1))
  }

  function ThreadResolved(s: Store, epic: string, comment: nat, resolved: bool): (Answer, Store) {
    if comment >= |s.comments| || s.comments[comment].epic != epic then (NotFound, s)
    else (Done, s.(comments := Resolved(s.comments, epic, s.comments[comment].thread, resolved)))
  }

  predicate Promotable(kind: string) { kind == "grilling" || kind == "research" || kind == "prototype" }

  /** The node takes the given title, or one derived from the comment named in the request. */
  function ThreadPromoted(s: Store, epic: string, comment: nat, r: PromoteRequest): (Answer, Store) {
    var kind := Given(r.kind);
    if kind.None? || !Promotable(kind.value) then (BadRequest, s)
    else if comment >= |s.comments| || s.comments[comment].epic != epic then (NotFound, s)
    else
      var c := s.comments[comment];
      if Promoted(s.comments, epic, c.thread) then (Conflict, s)
      else
        var title := Given(r.title);
        var name := if title.Some? then title.value else TitleOf(c.body);
        var node := MapNode(s.next, epic, kind.value, name, Given(r.question));
        (Done, Store(Stamped(s.comments, epic, c.thread, s.next), s.nodes + [node], s.next + 1))
  }

  // ---- the handlers ----

  class CommentStore {
    var comments: seq<Comment>
    var nodes: seq<MapNode>
    var next: nat

    function View(): Store
      reads this
    {
      Store(comments, nodes, next)
    }

    constructor ()
      ensures View() == Store([], [], 0)
    {
      comments, nodes, next := [], [], 0;
    }

    /** `post_comment`. */
    method PostComment(anchors: set<(string, string, string)>, epic: string, author: Option<string>, r: PostRequest)
      returns (answer: Answer)
      modifies this
      ensures (answer, View()) == Posted(old(View()), anchors, epic, author, r)
    {
      hide Trim;
      hide HeadOf;
      hide ValidAnchor;
      var body := Given(r.body);
      if body.None? {
        return BadRequest;
      }
      var thread, kind, id := next, "", "";
      if r.thread.Some? {
        var head := HeadOf(comments, epic, r.thread.value);
        if head.None? {
          return BadRequest;
        }
        if r.anchorKind.Some? && Trim(r.anchorKind.value) != head.value.anchorKind {
          return BadRequest;
        }
        if r.anchorId.Some? && Trim(r.anchorId.value) != head.value.anchorId {
          return BadRequest;
        }
        thread, kind, id := r.thread.value, head.value.anchorKind, head.value.anchorId;
      } else {
        var givenKind, givenId := Given(r.anchorKind), Given(r.anchorId);
        if givenKind.None? || givenId.None? || !ValidAnchor(anchors, epic, givenKind.value, givenId.value) {
          return BadRequest;
        }
        kind, id := givenKind.value, givenId.value;
        next := next + 1;
      }
      comments := comments + [Comment(epic, thread, kind, id, author, body.value, false, None)];
      return Done;
    }

    /** `set_thread_resolved`. */
    method SetThreadResolved(epic: string, comment: nat, resolved: bool) returns (answer: Answer)
      modifies this
      ensures (answer, View()) == ThreadResolved(old(View()), epic, comment, resolved)
    {
      if comment >= |comments| || comments[comment].epic != epic {
        return NotFound;
      }
      var thread := comments[comment].thread;
      ghost var before := comments;
      for k := 0 to |comments|
        invariant |comments| == |before| && nodes == old(nodes) && next == old(next)
        invariant forall j :: 0 <= j < k ==> comments[j] == Resolved(before, epic, thread, resolved)[j]
        invariant forall j :: k <= j < |comments| ==> comments[j] == before[j]
      {
        if InThread(comments[k], epic, thread) {
          comments := comments[k := comments[k].(resolved := resolved)];
        }
      }
      assert comments == Resolved(before, epic, thread, resolved);
      return Done;
    }

    /** `promote_comment` and `promote_thread`. */
    method PromoteThread(epic: string, comment: nat, r: PromoteRequest) returns (answer: Answer)
      modifies this
      ensures (answer, View()) == ThreadPromoted(old(View()), epic, comment, r)
    {
      hide Trim;
      hide TitleOf;
      hide Promoted;
      var kind := Given(r.kind);
      if kind.None? || !Promotable(kind.value) {
        return BadRequest;
      }
      if comment >= |comments| || comments[comment].epic != epic {
        return NotFound;
      }
      var c := comments[comment];
      if Promoted(comments, epic, c.thread) {
        return Conflict;
      }
      var title := Given(r.title);
      if title.None? {
        var derived := DerivedTitle(c.body);
        title := Some(derived);
      }
      var id := next;
      next := next + 1;
      nodes := nodes + [MapNode(id, epic, kind.value, title.value, Given(r.question))];
      ghost var before := comments;
      for k := 0 to |comments|
        invariant |comments| == |before| && next == old(next) + 1
        invariant nodes == old(nodes) + [MapNode(id, epic, kind.value, title.value, Given(r.question))]
        invariant forall j :: 0 <= j < k ==> comments[j] == Stamped(before, epic, c.thread, id)[j]
        invariant forall j :: k <= j < |comments| ==> comments[j] == before[j]
      {
        if InThread(comments[k], epic, c.thread) {
          comments := comments[k := comments[k].(promoted := Some(id))];
        }
      }
      assert comments == Stamped(before, epic, c.thread, id);
      return Done;
    }
  }

  // ---- what every sequence of requests keeps ----

  datatype Event =
    | Post(anchors: set<(string, string, string)>, epic: string, author: Option<string>, post: PostRequest)
    | Resolve(epic: string, comment: nat)
    | Promote(epic: string, comment: nat, promotion: PromoteRequest)

  function Step(s: Store, e: Event): Store {
    match e
    case Post(anchors, epic, author, r) => Posted(s, anchors, epic, author, r).1
    case Resolve(epic, comment) => ThreadResolved(s, epic, comment, true).1
    case Promote(epic, comment, r) => ThreadPromoted(s, epic, comment, r).1
  }

  function Start(): Store { Store([], [], 0) }

  function After(events: seq<Event>): Store {
    if events == [] then Start() else Step(After(events[..|events| - 1]), events[|events| - 1])
  }

  /** A thread lies in one epic, under one anchor. */
  predicate OneAnchor(cs: seq<Comment>) {
    forall j, k :: 0 <= j < k < |cs| && cs[j].thread == cs[k].thread ==>
      cs[j].epic == cs[k].epic && cs[j].anchorKind == cs[k].anchorKind && cs[j].anchorId == cs[k].anchorId
  }

  /** Two promoted comments carry the same node id exactly when they share their thread. */
  predicate OneNode(cs: seq<Comment>) {
    forall j, k :: 0 <= j < k < |cs| && cs[j].promoted.Some? && cs[k].promoted.Some? ==>
      (cs[j].thread == cs[k].thread <==> cs[j].promoted == cs[k].promoted)
  }

  /** In a thread, whatever stands before a resolved comment is resolved: replies come unresolved. */
  predicate ResolvedFirst(cs: seq<Comment>) {
    forall j, k :: 0 <= j < k < |cs| && cs[j].thread == cs[k].thread && cs[k].resolved ==> cs[j].resolved
  }

  predicate IdsOk(s: Store) {
    && (forall k :: 0 <= k < |s.comments| ==> s.comments[k].thread < s.next)
    && (forall k :: 0 <= k < |s.comments| && s.comments[k].promoted.Some? ==> s.comments[k].promoted.value < s.next)
  }

  function PromotedThreads(cs: seq<Comment>): set<ThreadId> {
    set k | 0 <= k < |cs| && cs[k].promoted.Some? :: cs[k].thread
  }

  predicate Ok(s: Store) {
    && OneAnchor(s.comments) && OneNode(s.comments) && ResolvedFirst(s.comments) && IdsOk(s)
    && |s.nodes| == |PromotedThreads(s.comments)|
  }

  lemma {:induction false} HeadIs(cs: seq<Comment>, epic: string, thread: ThreadId)
    ensures var head := HeadOf(cs, epic, thread);
            head.Some? ==> InThread(head.value, epic, thread) && head.value in cs
  {
    if cs != [] { HeadIs(cs[..|cs| - 1], epic, thread); }
  }

  predicate Fits(cs: seq<Comment>, epic: string, thread: ThreadId, kind: string, id: string) {
    forall k :: 0 <= k < |cs| && cs[k].thread == thread ==>
      cs[k].epic == epic && cs[k].anchorKind == kind && cs[k].anchorId == id
  }

  lemma PlacedFits(s: Store, anchors: set<(string, string, string)>, epic: string, r: PostRequest)
    requires OneAnchor(s.comments) && IdsOk(s)
    ensures var place := Placed(s, anchors, epic, r);
            place.Some? ==>
              && Fits(s.comments, epic, place.value.0, place.value.1, place.value.2)
              && place.value.0 < if r.thread.Some? then s.next else s.next + 1
  {
    hide Given;
    hide ValidAnchor;
    hide Confirms;
    if r.thread.Some? {
      HeadIs(s.comments, epic, r.thread.value);
      var head := HeadOf(s.comments, epic, r.thread.value);
      hide HeadOf;
      if head.Some? {
        var j :| 0 <= j < |s.comments| && s.comments[j] == head.value;
      }
      hide OneAnchor;
    } else {
      hide OneAnchor;
    }
  }

  lemma PostKeepsOk(s: Store, anchors: set<(string, string, string)>, epic: string, author: Option<string>,
                    r: PostRequest)
    requires Ok(s)
    ensures Ok(Posted(s, anchors, epic, author, r).1)
  {
    assert OneAnchor(s.comments) && IdsOk(s);
    hide *;
    PlacedFits(s, anchors, epic, r);
    PostedIs(s, anchors, epic, author, r);
    var place := Placed(s, anchors, epic, r);
    if Given(r.body).Some? && place.Some? {
      var row := Comment(epic, place.value.0, place.value.1, place.value.2, author, Given(r.body).value, false, None);
      RowKeepsOk(s, row, if r.thread.Some? then s.next else s.next + 1);
    }
  }

  lemma PostedIs(s: Store, anchors: set<(string, string, string)>, epic: string, author: Option<string>, r: PostRequest)
    ensures var body, place := Given(r.body), Placed(s, anchors, epic, r);
            Posted(s, anchors, epic, author, r).1 ==
              if body.None? || place.None? then s
              else s.(comments := s.comments
                        + [Comment(epic, place.value.0, place.value.1, place.value.2, author, body.value, false, None)],
                      next := if r.thread.Some? then s.next else s.next + 1)
  {
    hide Given;
    hide Placed;
  }

  lemma InPromoted(cs: seq<Comment>, thread: ThreadId)
    ensures thread in PromotedThreads(cs) <==>
              exists k :: 0 <= k < |cs| && cs[k].promoted.Some? && cs[k].thread == thread
  {
  }

  lemma SamePromoted(cs: seq<Comment>, ds: seq<Comment>)
    requires |cs| <= |ds|
    requires forall k :: 0 <= k < |cs| ==> ds[k].thread == cs[k].thread && ds[k].promoted == cs[k].promoted
    requires forall k :: |cs| <= k < |ds| ==> ds[k].promoted.None?
    ensures PromotedThreads(ds) == PromotedThreads(cs)
  {
    forall thread ensures thread in PromotedThreads(ds) <==> thread in PromotedThreads(cs) {
      InPromoted(cs, thread);
      InPromoted(ds, thread);
      hide PromotedThreads;
      if k :| 0 <= k < |cs| && cs[k].promoted.Some? && cs[k].thread == thread { assert ds[k].thread == thread; }
    }
  }

  lemma RowKeepsOk(s: Store, row: Comment, next: nat)
    requires Ok(s) && row.promoted.None? && !row.resolved && s.next <= next && row.thread < next
    requires Fits(s.comments, row.epic, row.thread, row.anchorKind, row.anchorId)
    ensures Ok(s.(comments := s.comments + [row], next := next))
  {
    SamePromoted(s.comments, s.comments + [row]);
    hide PromotedThreads;
  }

  lemma ResolveKeepsOk(s: Store, epic: string, comment: nat)
    requires Ok(s)
    ensures Ok(ThreadResolved(s, epic, comment, true).1)
  {
    if comment < |s.comments| && s.comments[comment].epic == epic {
      var cs, thread := s.comments, s.comments[comment].thread;
      var ds := Resolved(cs, epic, thread, true);
      SamePromoted(cs, ds);
      ResolvedStaysFirst(cs, epic, thread, comment);
      hide PromotedThreads;
      hide ResolvedFirst;
      assert forall k :: 0 <= k < |cs| ==> ds[k] == cs[k].(resolved := ds[k].resolved);
      hide Resolved;
    }
  }

  lemma ResolvedStaysFirst(cs: seq<Comment>, epic: string, thread: ThreadId, comment: nat)
    requires OneAnchor(cs) && ResolvedFirst(cs) && comment < |cs| && InThread(cs[comment], epic, thread)
    ensures ResolvedFirst(Resolved(cs, epic, thread, true))
  {
    var ds := Resolved(cs, epic, thread, true);
    forall j, k | 0 <= j < k < |ds| && ds[j].thread == ds[k].thread && ds[k].resolved ensures ds[j].resolved {
      if cs[k].thread == thread {
        SameEpic(cs, comment, j);
      }
    }
  }

  lemma SameEpic(cs: seq<Comment>, j: nat, k: nat)
    requires OneAnchor(cs) && j < |cs| && k < |cs| && cs[j].thread == cs[k].thread
    ensures cs[j].epic == cs[k].epic
  {
  }

  lemma PromoteKeepsOk(s: Store, epic: string, comment: nat, r: PromoteRequest)
    requires Ok(s)
    ensures Ok(ThreadPromoted(s, epic, comment, r).1)
  {
    hide Given;
    hide TitleOf;
    hide Promotable;
    if ThreadPromoted(s, epic, comment, r).0.Done? {
      hide Ok;
      StampKeepsOk(s, epic, comment, ThreadPromoted(s, epic, comment, r).1);
    }
  }

  lemma StampKeepsOk(s: Store, epic: string, comment: nat, t: Store)
    requires Ok(s) && comment < |s.comments| && s.comments[comment].epic == epic
    requires !Promoted(s.comments, epic, s.comments[comment].thread)
    requires t.comments == Stamped(s.comments, epic, s.comments[comment].thread, s.next)
    requires t.next == s.next + 1 && |t.nodes| == |s.nodes| + 1
    ensures Ok(t)
  {
    var cs, ds, thread := s.comments, t.comments, s.comments[comment].thread;
    forall k | 0 <= k < |cs|
      ensures ds[k] == if cs[k].thread == thread then cs[k].(promoted := Some(s.next)) else cs[k]
    {
      if cs[k].thread == thread { SameEpic(cs, comment, k); }
    }
    forall k | 0 <= k < |cs| && cs[k].thread == thread ensures cs[k].promoted.None? { SameEpic(cs, comment, k); }
    hide Stamped;
    hide Promoted;
    StampAddsThread(cs, ds, thread, s.next, comment);
    StampKeepsRows(cs, ds, thread, s.next);
    hide PromotedThreads;
    hide OneAnchor;
    hide OneNode;
    hide ResolvedFirst;
  }

  lemma StampKeepsRows(cs: seq<Comment>, ds: seq<Comment>, thread: ThreadId, node: NodeId)
    requires OneAnchor(cs) && OneNode(cs) && ResolvedFirst(cs) && |ds| == |cs|
    requires forall k :: 0 <= k < |cs| ==>
               ds[k] == if cs[k].thread == thread then cs[k].(promoted := Some(node)) else cs[k]
    requires forall k :: 0 <= k < |cs| && cs[k].promoted.Some? ==> cs[k].promoted.value != node
    ensures OneAnchor(ds) && OneNode(ds) && ResolvedFirst(ds)
  {
  }

  lemma StampAddsThread(cs: seq<Comment>, ds: seq<Comment>, thread: ThreadId, node: NodeId, comment: nat)
    requires |ds| == |cs| && comment < |cs| && cs[comment].thread == thread
    requires forall k :: 0 <= k < |cs| ==>
               ds[k] == if cs[k].thread == thread then cs[k].(promoted := Some(node)) else cs[k]
    requires forall k :: 0 <= k < |cs| && cs[k].thread == thread ==> cs[k].promoted.None?
    ensures |PromotedThreads(ds)| == |PromotedThreads(cs)| + 1
  {
    forall t ensures t in PromotedThreads(ds) <==> t == thread || t in PromotedThreads(cs) {
      InPromoted(cs, t);
      InPromoted(ds, t);
      hide PromotedThreads;
      if k :| 0 <= k < |cs| && cs[k].promoted.Some? && cs[k].thread == t { assert ds[k].thread == t; }
      assert ds[comment].thread == thread && ds[comment].promoted.Some?;
    }
    InPromoted(cs, thread);
    hide PromotedThreads;
    assert PromotedThreads(ds) == PromotedThreads(cs) + {thread};
  }

  lemma StepKeepsOk(s: Store, e: Event)
    requires Ok(s)
    ensures Ok(Step(s, e))
  {
    hide Ok;
    match e
    case Post(anchors, epic, author, r) => PostKeepsOk(s, anchors, epic, author, r);
    case Resolve(epic, comment) => ResolveKeepsOk(s, epic, comment);
    case Promote(epic, comment, r) => PromoteKeepsOk(s, epic, comment, r);
    hide Posted;
    hide ThreadResolved;
    hide ThreadPromoted;
  }

  /** Over every sequence of requests: threads keep to one epic and anchor, promoted ids agree
      within a thread and differ between threads, and there are as many nodes as promoted threads. */
  lemma {:induction false} RunKeepsOk(events: seq<Event>)
    ensures Ok(After(events))
  {
    if events == [] {
      assert PromotedThreads([]) == {};
    } else {
      RunKeepsOk(events[..|events| - 1]);
      hide Ok;
      hide Step;
      StepKeepsOk(After(events[..|events| - 1]), events[|events| - 1]);
    }
  }

  /** A promotion stamps every comment of its thread, and one node is made for it. */
  lemma PromotionStampsThread(s: Store, epic: string, comment: nat, r: PromoteRequest)
    requires Ok(s) && ThreadPromoted(s, epic, comment, r).0.Done?
    ensures var t := ThreadPromoted(s, epic, comment, r).1;
            && |t.nodes| == |s.nodes| + 1 && t.nodes[..|s.nodes|] == s.nodes && t.nodes[|s.nodes|].epic == epic
            && forall k :: 0 <= k < |s.comments| ==>
                 (t.comments[k].promoted == Some(t.nodes[|s.nodes|].id)
                  <==> s.comments[k].thread == s.comments[comment].thread)
  {
    hide Given;
    hide TitleOf;
    hide Promotable;
    var thread := s.comments[comment].thread;
    forall k | 0 <= k < |s.comments| && s.comments[k].thread == thread ensures s.comments[k].epic == epic {
      SameEpic(s.comments, comment, k);
    }
  }

  /** A stamp is never changed or taken back. */
  lemma StampsStay(s: Store, e: Event, k: nat)
    requires Ok(s) && k < |s.comments| && s.comments[k].promoted.Some?
    ensures k < |Step(s, e).comments| && Step(s, e).comments[k].promoted == s.comments[k].promoted
    ensures Step(s, e).comments[k].thread == s.comments[k].thread
  {
    hide Given;
    hide TitleOf;
    hide Placed;
    hide PromotedThreads;
    if e.Promote? && ThreadPromoted(s, e.epic, e.comment, e.promotion).0.Done? {
      assert !InThread(s.comments[k], e.epic, s.comments[e.comment].thread);
    }
  }

  // ---- is a thread resolved? ----

  /** Whether a thread's comments agree on their flag. */
  predicate Uniform(cs: seq<Comment>, thread: ThreadId) {
    forall j, k :: 0 <= j < k < |cs| && cs[j].thread == thread && cs[k].thread == thread ==>
      cs[j].resolved == cs[k].resolved
  }

  predicate FirstAndLast(cs: seq<Comment>, thread: ThreadId, first: nat, last: nat) {
    && first <= last < |cs| && cs[first].thread == thread && cs[last].thread == thread
    && forall k :: 0 <= k < |cs| && cs[k].thread == thread ==> first <= k <= last
  }

  /** A thread's flag is uniform exactly when its last comment is resolved or its first is not:
      when it was never resolved, or nobody replied since. */
  lemma UniformExactly(cs: seq<Comment>, thread: ThreadId, first: nat, last: nat)
    requires ResolvedFirst(cs) && FirstAndLast(cs, thread, first, last)
    ensures Uniform(cs, thread) <==> (cs[first].resolved ==> cs[last].resolved)
  {
  }

  /** A reply to a resolved thread is unresolved, so the thread's flag is no longer uniform. */
  lemma ReplyBreaksUniform(s: Store, epic: string, comment: nat, author: Option<string>, body: string)
    requires Ok(s) && comment < |s.comments| && s.comments[comment].epic == epic && Trim(body) != ""
    ensures var thread := s.comments[comment].thread;
            var resolved := ThreadResolved(s, epic, comment, true).1;
            var t := Posted(resolved, {}, epic, author, PostRequest(None, None, Some(body), Some(thread))).1;
            Uniform(resolved.comments, thread) && !Uniform(t.comments, thread)
  {
    OkUniform(s, epic, comment);
    hide Trim;
    hide HeadOf;
    hide Ok;
    var thread := s.comments[comment].thread;
    var resolved := ThreadResolved(s, epic, comment, true).1;
    var t := Posted(resolved, {}, epic, author, PostRequest(None, None, Some(body), Some(thread))).1;
    HeadExists(resolved.comments, epic, thread, comment);
    var n := |s.comments|;
    assert |t.comments| == n + 1 && !t.comments[n].resolved && t.comments[n].thread == thread;
    assert t.comments[comment].resolved && t.comments[comment].thread == thread;
  }

  lemma OkUniform(s: Store, epic: string, comment: nat)
    requires Ok(s) && comment < |s.comments| && s.comments[comment].epic == epic
    ensures Uniform(ThreadResolved(s, epic, comment, true).1.comments, s.comments[comment].thread)
  {
    var thread := s.comments[comment].thread;
    var ds := Resolved(s.comments, epic, thread, true);
    forall k | 0 <= k < |ds| && ds[k].thread == thread ensures ds[k].resolved {
      SameEpic(s.comments, comment, k);
    }
    hide Resolved;
  }

  lemma {:induction false} HeadExists(cs: seq<Comment>, epic: string, thread: ThreadId, k: nat)
    requires k < |cs| && InThread(cs[k], epic, thread)
    ensures HeadOf(cs, epic, thread).Some?
  {
    if k < |cs| - 1 { HeadExists(cs[..|cs| - 1], epic, thread, k); }
  }

  // ---- whose first line a derived title is ----

  /** Two comments that read alike as titles: the same first line, or two long ones that start
      with the same 80 characters. */
  predicate SameHeadline(a: string, b: string) {
    var x, y := Trim(FirstLine(a)), Trim(FirstLine(b));
    x == y || (|x| > TITLE_MAX && |y| > TITLE_MAX && x[..TITLE_MAX] == y[..TITLE_MAX])
  }

  lemma TitlesAgreeExactly(a: string, b: string)
    requires a != "" && Trimmed(a) && b != "" && Trimmed(b)
    ensures TitleOf(a) == TitleOf(b) <==> SameHeadline(a, b)
  {
    TitleIsOneLine(a);
    TitleIsOneLine(b);
    hide Trim;
    hide FirstLine;
    var x, y := Trim(FirstLine(a)), Trim(FirstLine(b));
    if |x| > TITLE_MAX && |y| > TITLE_MAX {
      assert TitleOf(a)[..TITLE_MAX] == x[..TITLE_MAX] && TitleOf(b)[..TITLE_MAX] == y[..TITLE_MAX];
    }
  }

  /** A stored body is trimmed and not blank. */
  predicate BodiesOk(cs: seq<Comment>) {
    forall k :: 0 <= k < |cs| ==> cs[k].body != "" && Trimmed(cs[k].body)
  }

  lemma PostKeepsBodies(s: Store, anchors: set<(string, string, string)>, epic: string, author: Option<string>,
                        r: PostRequest)
    requires BodiesOk(s.comments)
    ensures BodiesOk(Posted(s, anchors, epic, author, r).1.comments)
  {
    if r.body.Some? { TrimTrimmed(r.body.value); }
    hide Trim;
    hide Trimmed;
    hide Placed;
  }

  lemma SameBodies(cs: seq<Comment>, ds: seq<Comment>)
    requires BodiesOk(cs) && |ds| == |cs| && forall k :: 0 <= k < |ds| ==> ds[k].body == cs[k].body
    ensures BodiesOk(ds)
  {
    hide Trimmed;
  }

  lemma MarksKeepBodies(cs: seq<Comment>, epic: string, thread: ThreadId, resolved: bool, node: NodeId)
    requires BodiesOk(cs)
    ensures BodiesOk(Resolved(cs, epic, thread, resolved)) && BodiesOk(Stamped(cs, epic, thread, node))
  {
    hide *;
    SameBodies(cs, Resolved(cs, epic, thread, resolved));
    SameBodies(cs, Stamped(cs, epic, thread, node));
  }

  lemma StepKeepsBodies(s: Store, e: Event)
    requires BodiesOk(s.comments)
    ensures BodiesOk(Step(s, e).comments)
  {
    hide BodiesOk;
    hide Posted;
    hide Resolved;
    hide Stamped;
    hide Given;
    hide Promotable;
    hide Promoted;
    hide TitleOf;
    match e
    case Post(anchors, epic, author, r) => PostKeepsBodies(s, anchors, epic, author, r);
    case Resolve(epic, comment) =>
      if comment < |s.comments| { MarksKeepBodies(s.comments, epic, s.comments[comment].thread, true, s.next); }
    case Promote(epic, comment, r) =>
      if comment < |s.comments| { MarksKeepBodies(s.comments, epic, s.comments[comment].thread, true, s.next); }
  }

  lemma {:induction false} RunKeepsBodies(events: seq<Event>)
    ensures BodiesOk(After(events).comments)
  {
    if events != [] {
      RunKeepsBodies(events[..|events| - 1]);
      hide BodiesOk;
      hide Step;
      StepKeepsBodies(After(events[..|events| - 1]), events[|events| - 1]);
    }
  }

  /** After any requests, a node without a title of its own is named after the comment the
      promotion names, so it is named after the thread's first comment exactly when the two read
      alike. */
  lemma TitleIsHeadsExactly(events: seq<Event>, epic: string, comment: nat, r: PromoteRequest)
    requires ThreadPromoted(After(events), epic, comment, r).0.Done? && Given(r.title).None?
    ensures var s := After(events);
            var head := HeadOf(s.comments, epic, s.comments[comment].thread);
            && head.Some?
            && (ThreadPromoted(s, epic, comment, r).1.nodes[|s.nodes|].title == TitleOf(head.value.body)
                <==> SameHeadline(s.comments[comment].body, head.value.body))
  {
    RunKeepsBodies(events);
    hide After;
    var s := After(events);
    var thread := s.comments[comment].thread;
    HeadExists(s.comments, epic, thread, comment);
    HeadIs(s.comments, epic, thread);
    hide HeadOf;
    hide Trimmed;
    hide TitleOf;
    hide SameHeadline;
    hide Given;
    hide Promotable;
    var head := HeadOf(s.comments, epic, thread);
    var j :| 0 <= j < |s.comments| && s.comments[j] == head.value;
    TitlesAgreeExactly(s.comments[comment].body, head.value.body);
  }

  lemma OneLetter(c: char)
    requires c in {'a', 'b'}
    ensures Given(Some([c])) == Some([c]) && TitleOf([c]) == [c]
  {
    TrimIs("", [c], "");
    assert "" + [c] + "" == [c];
    assert FirstLine([c]) == [c] + FirstLine([]);
    hide Trim;
  }

  lemma GivenKinds()
    ensures Given(Some("node")) == Some("node") && Given(Some("research")) == Some("research") && Given(None).None?
    ensures Promotable("research")
  {
    TrimIs("", "node", "");
    TrimIs("", "research", "");
    assert "" + "node" + "" == "node" && "" + "research" + "" == "research";
    hide Trim;
  }

  lemma ThreeSteps(a: Event, b: Event, c: Event)
    ensures After([a, b, c]) == Step(Step(Step(Start(), a), b), c)
  {
    hide Step;
    assert [a, b, c][..2] == [a, b] && [a, b][..1] == [a] && [a][..0] == [];
    assert After([a]) == Step(Start(), a);
    assert After([a, b]) == Step(After([a]), b);
  }

  lemma ThreadStarts(s: Store, anchors: set<(string, string, string)>, epic: string, author: Option<string>,
                     kind: string, id: string, body: string)
    requires Given(Some(kind)) == Some(kind) && Given(Some(id)) == Some(id) && Given(Some(body)) == Some(body)
    requires (kind == "node" || kind == "section") && (epic, kind, id) in anchors
    ensures Posted(s, anchors, epic, author, PostRequest(Some(kind), Some(id), Some(body), None)).1 ==
            Store(s.comments + [Comment(epic, s.next, kind, id, author, body, false, None)], s.nodes, s.next + 1)
  {
    hide Given;
  }

  lemma ReplyJoins(s: Store, epic: string, author: Option<string>, head: Comment, body: string)
    requires s.comments == [head] && head.epic == epic && Given(Some(body)) == Some(body)
    ensures Posted(s, {}, epic, author, PostRequest(None, None, Some(body), Some(head.thread))).1 ==
            s.(comments :=
                 [head, Comment(epic, head.thread, head.anchorKind, head.anchorId, author, body, false, None)])
  {
    hide Given;
    assert HeadOf([head], epic, head.thread) == Some(head) by { assert HeadOf([head][..0], epic, head.thread).None?; }
  }

  lemma ReplyPromotes(s: Store, epic: string, kind: string)
    requires |s.comments| == 2 && s.comments[1].epic == epic && !Promoted(s.comments, epic, s.comments[1].thread)
    requires Given(Some(kind)) == Some(kind) && Promotable(kind) && Given(None).None?
    ensures var t := ThreadPromoted(s, epic, 1, PromoteRequest(Some(kind), None, None)).1;
            && t.nodes == s.nodes + [MapNode(s.next, epic, kind, TitleOf(s.comments[1].body), None)]
            && |t.comments| == 2 && t.comments[0].body == s.comments[0].body
  {
    hide Given;
    hide Promotable;
    hide Promoted;
    hide TitleOf;
  }

  lemma TwoPosts(epic: string, author: Option<string>, kind: string, id: string, x: string, y: string)
    requires Given(Some(kind)) == Some(kind) && Given(Some(id)) == Some(id) && (kind == "node" || kind == "section")
    requires Given(Some(x)) == Some(x) && Given(Some(y)) == Some(y)
    ensures var first := Post({(epic, kind, id)}, epic, author, PostRequest(Some(kind), Some(id), Some(x), None));
            var s := Step(Step(Start(), first), Post({}, epic, author, PostRequest(None, None, Some(y), Some(0))));
            && |s.comments| == 2 && s.comments[0].body == x && s.comments[1].body == y && s.comments[1].epic == epic
            && s.nodes == [] && !Promoted(s.comments, epic, s.comments[1].thread)
  {
    hide Given;
    hide Posted;
    var head := Comment(epic, 0, kind, id, author, x, false, None);
    ThreadStarts(Start(), {(epic, kind, id)}, epic, author, kind, id, x);
    assert Start().comments + [head] == [head];
    ReplyJoins(Store([head], [], 1), epic, author, head, y);
  }

  lemma ReplyTitles(epic: string, author: Option<string>, kind: string, id: string, x: string, y: string,
                    promoted: string)
    requires Given(Some(kind)) == Some(kind) && Given(Some(id)) == Some(id) && (kind == "node" || kind == "section")
    requires Given(Some(x)) == Some(x) && Given(Some(y)) == Some(y)
    requires Given(Some(promoted)) == Some(promoted) && Promotable(promoted) && Given(None).None?
    ensures var first := Post({(epic, kind, id)}, epic, author, PostRequest(Some(kind), Some(id), Some(x), None));
            var reply := Post({}, epic, author, PostRequest(None, None, Some(y), Some(0)));
            var t := After([first, reply, Promote(epic, 1, PromoteRequest(Some(promoted), None, None))]);
            |t.nodes| == 1 && t.nodes[0].title == TitleOf(y) && |t.comments| == 2 && t.comments[0].body == x
  {
    var first := Post({(epic, kind, id)}, epic, author, PostRequest(Some(kind), Some(id), Some(x), None));
    var reply := Post({}, epic, author, PostRequest(None, None, Some(y), Some(0)));
    var promote := Promote(epic, 1, PromoteRequest(Some(promoted), None, None));
    TwoPosts(epic, author, kind, id, x, y);
    var s := Step(Step(Start(), first), reply);
    assert Step(s, promote) == ThreadPromoted(s, epic, 1, promote.promotion).1;
    hide *;
    ThreeSteps(first, reply, promote);
    ReplyPromotes(s, epic, promoted);
  }

  /** A thread whose first comment says "a", promoted through its reply "b", becomes a node "b". */
  lemma ReplyTitlesNode(epic: string, author: Option<string>)
    ensures var request := PostRequest(Some("node"), Some("b"), Some("a"), None);
            var first := Post({(epic, "node", "b")}, epic, author, request);
            var reply := Post({}, epic, author, PostRequest(None, None, Some("b"), Some(0)));
            var t := After([first, reply, Promote(epic, 1, PromoteRequest(Some("research"), None, None))]);
            |t.nodes| == 1 && t.nodes[0].title == "b" && |t.comments| == 2 && t.comments[0].body == "a"
  {
    OneLetter('a');
    OneLetter('b');
    GivenKinds();
    hide *;
    ReplyTitles(epic, author, "node", "b", "a", "b", "research");
  }

  // ---- a promotion keeps the order exactly when the thread is still unpromoted ----

  lemma StampsThread(cs: seq<Comment>, epic: string, comment: nat, node: NodeId)
    requires OneAnchor(cs) && comment < |cs| && cs[comment].epic == epic
    ensures var thread := cs[comment].thread;
            && (Promoted(cs, epic, thread) <==> thread in PromotedThreads(cs))
            && forall k :: 0 <= k < |cs| ==>
                 Stamped(cs, epic, thread, node)[k] ==
                 if cs[k].thread == thread then cs[k].(promoted := Some(node)) else cs[k]
  {
    var thread := cs[comment].thread;
    InPromoted(cs, thread);
    forall k | 0 <= k < |cs| && cs[k].thread == thread ensures cs[k].epic == epic { SameEpic(cs, comment, k); }
    hide PromotedThreads;
  }

  /** A second stamp of a thread promotes no further thread. */
  lemma StampAgain(cs: seq<Comment>, ds: seq<Comment>, thread: ThreadId, node: NodeId)
    requires |ds| == |cs| && thread in PromotedThreads(cs)
    requires forall k :: 0 <= k < |cs| ==>
               ds[k] == if cs[k].thread == thread then cs[k].(promoted := Some(node)) else cs[k]
    ensures PromotedThreads(ds) == PromotedThreads(cs)
  {
    forall t ensures t in PromotedThreads(ds) <==> t in PromotedThreads(cs) {
      InPromoted(cs, t);
      InPromoted(ds, t);
      hide PromotedThreads;
      if k :| 0 <= k < |cs| && cs[k].promoted.Some? && cs[k].thread == t { assert ds[k].thread == t; }
    }
  }

  /** The two writes of a promotion, made on whatever the thread has become since its check: they
      keep the store in order exactly when nobody has promoted the thread meanwhile. */
  lemma PromotionKeepsOkExactly(s: Store, epic: string, comment: nat, node: MapNode)
    requires Ok(s) && comment < |s.comments| && s.comments[comment].epic == epic
    ensures var thread := s.comments[comment].thread;
            Ok(Store(Stamped(s.comments, epic, thread, s.next), s.nodes + [node], s.next + 1))
            <==> !Promoted(s.comments, epic, thread)
  {
    var thread := s.comments[comment].thread;
    var t := Store(Stamped(s.comments, epic, thread, s.next), s.nodes + [node], s.next + 1);
    if Promoted(s.comments, epic, thread) {
      StampsThread(s.comments, epic, comment, s.next);
      StampAgain(s.comments, t.comments, thread, s.next);
    } else {
      StampKeepsOk(s, epic, comment, t);
    }
    hide PromotedThreads;
    hide Stamped;
    hide Promoted;
  }

  // ---- what each request is answered, and what it writes ----

  /** A title is the first line, trimmed, or its first 80 characters and an ellipsis; a body whose
      first line is blank has the fallback. */
  lemma TitleFrom(line: string, rest: string)
    requires '\n' !in line && (rest != "" ==> rest[0] == '\n')
    ensures var t := Trim(line);
            TitleOf(line + rest) ==
              if t == "" then "Promoted comment thread" else if |t| <= 80 then t else t[..80] + ['\U{2026}']
  {
    FirstLineOf(line, rest);
    hide FirstLine;
    hide Trim;
  }

  lemma {:induction false} FirstLineOf(line: string, rest: string)
    requires '\n' !in line && (rest != "" ==> rest[0] == '\n')
    ensures FirstLine(line + rest) == line
  {
    if line == "" {
      assert line + rest == rest;
    } else {
      assert line[0] in line;
      FirstLineOf(line[1..], rest);
      assert (line + rest)[1..] == line[1..] + rest;
      assert line == [line[0]] + line[1..];
    }
  }

  predicate SaysText(field: Option<string>) { field.Some? && Trim(field.value) != "" }

  lemma GivenIs(field: Option<string>)
    ensures Given(field) == if SaysText(field) then Some(Trim(field.value)) else None
  {
    hide Trim;
  }

  /** A reply fits its thread: some comment of the epic is in it, and an anchor given is that one's. */
  predicate JoinsThread(cs: seq<Comment>, epic: string, r: PostRequest, k: int) {
    && r.thread.Some? && 0 <= k < |cs| && cs[k].epic == epic && cs[k].thread == r.thread.value
    && (r.anchorKind.Some? ==> Trim(r.anchorKind.value) == cs[k].anchorKind)
    && (r.anchorId.Some? ==> Trim(r.anchorId.value) == cs[k].anchorId)
  }

  /** A first comment names a node or a section that exists in its epic. */
  predicate StartsThread(anchors: set<(string, string, string)>, epic: string, r: PostRequest) {
    && r.thread.None? && SaysText(r.anchorKind) && SaysText(r.anchorId)
    && (Trim(r.anchorKind.value) == "node" || Trim(r.anchorKind.value) == "section")
    && (epic, Trim(r.anchorKind.value), Trim(r.anchorId.value)) in anchors
  }

  lemma ReplyPlaced(s: Store, anchors: set<(string, string, string)>, epic: string, r: PostRequest, k: int)
    requires OneAnchor(s.comments) && r.thread.Some? && 0 <= k < |s.comments|
    requires s.comments[k].epic == epic && s.comments[k].thread == r.thread.value
    ensures var place := Placed(s, anchors, epic, r);
            && (place.Some? <==> JoinsThread(s.comments, epic, r, k))
            && (place.Some? ==> place.value == (r.thread.value, s.comments[k].anchorKind, s.comments[k].anchorId))
  {
    HeadExists(s.comments, epic, r.thread.value, k);
    HeadIs(s.comments, epic, r.thread.value);
    hide HeadOf;
    hide Trim;
    var head := HeadOf(s.comments, epic, r.thread.value).value;
    var j :| 0 <= j < |s.comments| && s.comments[j] == head;
    if j != k { assert s.comments[if j < k then j else k].thread == s.comments[if j < k then k else j].thread; }
  }

  lemma StartPlaced(s: Store, anchors: set<(string, string, string)>, epic: string, r: PostRequest)
    requires r.thread.None?
    ensures var place := Placed(s, anchors, epic, r);
            && (place.Some? <==> StartsThread(anchors, epic, r))
            && (place.Some? ==> place.value == (s.next, Trim(r.anchorKind.value), Trim(r.anchorId.value)))
  {
    GivenIs(r.anchorKind);
    GivenIs(r.anchorId);
    hide Given;
    hide Trim;
  }

  lemma NowhereToReply(s: Store, anchors: set<(string, string, string)>, epic: string, r: PostRequest)
    requires r.thread.Some? && Placed(s, anchors, epic, r).Some?
    ensures exists k :: JoinsThread(s.comments, epic, r, k)
  {
    HeadIs(s.comments, epic, r.thread.value);
    hide HeadOf;
    hide Trim;
    var head := HeadOf(s.comments, epic, r.thread.value).value;
    var k :| 0 <= k < |s.comments| && s.comments[k] == head;
    assert JoinsThread(s.comments, epic, r, k);
  }

  /** A post is taken exactly when its body is not blank and it joins a thread or starts one. It is
      then the last row, its body trimmed, unresolved and unpromoted, under the thread's own anchor or
      the one it names, and nothing else changes. */
  lemma PostedExactly(s: Store, anchors: set<(string, string, string)>, epic: string, author: Option<string>,
                      r: PostRequest)
    requires OneAnchor(s.comments)
    ensures var (answer, t) := Posted(s, anchors, epic, author, r);
            && (answer == Done <==>
                  SaysText(r.body)
                  && ((exists k :: JoinsThread(s.comments, epic, r, k)) || StartsThread(anchors, epic, r)))
            && (answer != Done ==> answer == BadRequest && t == s)
            && (answer == Done ==>
                  && |t.comments| == |s.comments| + 1 && t.comments[..|s.comments|] == s.comments && t.nodes == s.nodes
                  && var row := t.comments[|s.comments|];
                     && row.epic == epic && row.author == author && row.body == Trim(r.body.value)
                     && !row.resolved && row.promoted.None?
                     && (r.thread.None? ==>
                           && row.thread == s.next && t.next == s.next + 1
                           && row.anchorKind == Trim(r.anchorKind.value) && row.anchorId == Trim(r.anchorId.value))
                     && forall k :: JoinsThread(s.comments, epic, r, k) ==>
                          row.thread == r.thread.value && t.next == s.next
                          && row.anchorKind == s.comments[k].anchorKind && row.anchorId == s.comments[k].anchorId)
  {
    GivenIs(r.body);
    if r.thread.Some? {
      if Placed(s, anchors, epic, r).Some? { NowhereToReply(s, anchors, epic, r); }
      forall k | JoinsThread(s.comments, epic, r, k)
        ensures Placed(s, anchors, epic, r) == Some((r.thread.value, s.comments[k].anchorKind, s.comments[k].anchorId))
      {
        ReplyPlaced(s, anchors, epic, r, k);
      }
      hide Placed;
    } else {
      StartPlaced(s, anchors, epic, r);
      hide Placed;
    }
    hide Given;
    hide Trim;
    hide OneAnchor;
  }

  /** Resolving answers for a comment of the epic, and then sets the flag on the comments of its
      thread and on no other. */
  lemma ResolvedExactly(s: Store, epic: string, comment: nat, resolved: bool)
    requires Ok(s)
    ensures var (answer, t) := ThreadResolved(s, epic, comment, resolved);
            var there := comment < |s.comments| && s.comments[comment].epic == epic;
            && (answer == Done <==> there) && (answer != Done ==> answer == NotFound && t == s)
            && |t.comments| == |s.comments| && t.nodes == s.nodes && t.next == s.next
            && forall k :: there && 0 <= k < |s.comments| ==>
                 t.comments[k] == if s.comments[k].thread == s.comments[comment].thread
                                  then s.comments[k].(resolved := resolved) else s.comments[k]
  {
    if comment < |s.comments| && s.comments[comment].epic == epic {
      var thread := s.comments[comment].thread;
      forall k | 0 <= k < |s.comments| && s.comments[k].thread == thread ensures s.comments[k].epic == epic {
        SameEpic(s.comments, comment, k);
      }
    }
    hide Ok;
  }

  /** A promotion is done exactly when its kind is one of the three, its comment is one of the epic's,
      and no comment of the thread has a stamp. The node has the title given, or else one derived from
      the comment named, and a question only when that says something. */
  lemma PromotedExactly(s: Store, epic: string, comment: nat, r: PromoteRequest)
    requires Ok(s)
    ensures var (answer, t) := ThreadPromoted(s, epic, comment, r);
            var kindOk := r.kind.Some? && Trim(r.kind.value) in {"grilling", "research", "prototype"};
            var there := comment < |s.comments| && s.comments[comment].epic == epic;
            && (answer == BadRequest <==> !kindOk)
            && (answer == NotFound <==> kindOk && !there)
            && (answer == Done <==>
                  kindOk && there
                  && forall k :: 0 <= k < |s.comments| && s.comments[k].thread == s.comments[comment].thread ==>
                       s.comments[k].promoted.None?)
            && (answer != Done ==> t == s)
            && (answer == Done ==>
                  && t.nodes == s.nodes + [MapNode(
                       s.next, epic, Trim(r.kind.value),
                       if SaysText(r.title) then Trim(r.title.value) else TitleOf(s.comments[comment].body),
                       if SaysText(r.question) then Some(Trim(r.question.value)) else None)]
                  && |t.comments| == |s.comments|
                  && forall k :: 0 <= k < |s.comments| ==>
                       t.comments[k] == if s.comments[k].thread == s.comments[comment].thread
                                        then s.comments[k].(promoted := Some(s.next)) else s.comments[k])
  {
    GivenIs(r.kind);
    GivenIs(r.title);
    GivenIs(r.question);
    assert "" !in {"grilling", "research", "prototype"};
    if comment < |s.comments| && s.comments[comment].epic == epic {
      var thread := s.comments[comment].thread;
      forall k | 0 <= k < |s.comments| && s.comments[k].thread == thread ensures s.comments[k].epic == epic {
        SameEpic(s.comments, comment, k);
      }
    }
    hide Ok;
    hide Given;
    hide Trim;
    hide TitleOf;
    hide SaysText;
  }
}
