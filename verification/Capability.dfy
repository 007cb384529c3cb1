/** Capability tokens: the store that prunes expired tokens as it meets them, against one that
    never prunes; and what a token's scope may call. */
module Capability {
  import opened Text

  /** A ULID; only its freshness matters. */
  type Token = nat

  datatype Scope = Scope(epic: string, phase: string, expiresAt: int)

  // ---- the store ----

  /** `tokens` is the map the server keeps. The rest is history: all that was minted, the tokens
      whose guard was dropped, and when each was resolved last and latest. */
  datatype Store = Store(
    tokens: map<Token, Scope>, minted: map<Token, Scope>, dropped: set<Token>, latest: map<Token, int>)

  function Start(): Store { Store(map[], map[], {}, map[]) }

  function Minted(s: Store, token: Token, scope: Scope): Store {
    s.(tokens := s.tokens[token := scope], minted := s.minted[token := scope])
  }

  function Later(s: Store, token: Token, now: int): int {
    if token in s.latest && s.latest[token] > now then s.latest[token] else now
  }

  function ResolvedAt(s: Store, token: Token, now: int): Store {
    var t := s.(latest := s.latest[token := Later(s, token, now)]);
    if token in s.tokens && s.tokens[token].expiresAt <= now then t.(tokens := s.tokens - {token}) else t
  }

  function Answer(s: Store, token: Token, now: int): Option<Scope> {
    if token in s.tokens && s.tokens[token].expiresAt > now then Some(s.tokens[token]) else None
  }

  /** What a store that never pruned would answer: minted, not dropped, not expired. */
  function PlainAnswer(s: Store, token: Token, now: int): Option<Scope> {
    if token in s.minted && token !in s.dropped && s.minted[token].expiresAt > now then Some(s.minted[token]) else None
  }

  function Dropped(s: Store, token: Token): Store {
    s.(tokens := s.tokens - {token}, dropped := s.dropped + {token})
  }

  class CapabilityStore {
    var tokens: map<Token, Scope>
    ghost var minted: map<Token, Scope>
    ghost var dropped: set<Token>
    ghost var latest: map<Token, int>

    ghost function View(): Store
      reads this
    {
      Store(tokens, minted, dropped, latest)
    }

    constructor ()
      ensures View() == Start()
    {
      tokens, minted, dropped, latest := map[], map[], {}, map[];
    }

    method Mint(token: Token, scope: Scope)
      modifies this
      ensures View() == Minted(old(View()), token, scope)
    {
      tokens := tokens[token := scope];
      minted := minted[token := scope];
    }

    method Resolve(token: Token, now: int) returns (answer: Option<Scope>)
      modifies this
      ensures answer == Answer(old(View()), token, now) && View() == ResolvedAt(old(View()), token, now)
    {
      latest := latest[token := Later(View(), token, now)];
      if token in tokens {
        if tokens[token].expiresAt > now {
          return Some(tokens[token]);
        }
        tokens := tokens - {token};
      }
      return None;
    }

    /** The guard's drop. */
    method Revoke(token: Token)
      modifies this
      ensures View() == Dropped(old(View()), token)
    {
      tokens := tokens - {token};
      dropped := dropped + {token};
    }
  }

  datatype Event = Mint(token: Token, scope: Scope) | Resolve(token: Token, now: int) | Drop(token: Token)

  /** Tokens are fresh when minted, and only minted ones are dropped. */
  function Step(s: Store, e: Event): Store {
    match e
    case Mint(token, scope) => if token in s.minted || token in s.latest then s else Minted(s, token, scope)
    case Resolve(token, now) => ResolvedAt(s, token, now)
    case Drop(token) => if token in s.minted then Dropped(s, token) else s
  }

  function After(events: seq<Event>): Store {
    if events == [] then Start() else Step(After(events[..|events| - 1]), events[|events| - 1])
  }

  /** The token was resolved at or after its expiry, and so pruned. */
  predicate Pruned(s: Store, token: Token) {
    token in s.minted && token in s.latest && s.latest[token] >= s.minted[token].expiresAt
  }

  /** The map holds exactly the minted tokens that are neither dropped nor pruned. */
  ghost predicate Ok(s: Store) {
    && (forall token :: token in s.tokens <==> token in s.minted && token !in s.dropped && !Pruned(s, token))
    && (forall token :: token in s.tokens ==> s.tokens[token] == s.minted[token])
    && (forall token :: token in s.dropped ==> token in s.minted)
  }

  lemma StepKeepsOk(s: Store, e: Event)
    requires Ok(s)
    ensures Ok(Step(s, e))
  {
  }

  lemma {:induction false} RunKeepsOk(events: seq<Event>)
    ensures Ok(After(events))
  {
    if events != [] {
      RunKeepsOk(events[..|events| - 1]);
      hide Ok;
      hide Step;
      StepKeepsOk(After(events[..|events| - 1]), events[|events| - 1]);
    }
  }

  /** Under any clock, pruning is visible exactly when a live token that was once resolved past
      its expiry is resolved again before it. */
  lemma PruningShowsExactly(events: seq<Event>, token: Token, now: int)
    ensures var s := After(events);
            Answer(s, token, now) != PlainAnswer(s, token, now) <==>
              Pruned(s, token) && token !in s.dropped && now < s.minted[token].expiresAt
  {
    RunKeepsOk(events);
    hide After;
  }

  /** The clock never ran backwards, up to `now`. */
  predicate Monotone(events: seq<Event>, now: int) {
    events != [] ==>
      var last := events[|events| - 1];
      (last.Resolve? ==> last.now <= now)
      && Monotone(events[..|events| - 1], if last.Resolve? then last.now else now)
  }

  lemma {:induction false} LatestBefore(events: seq<Event>, now: int, token: Token)
    requires Monotone(events, now)
    ensures token in After(events).latest ==> After(events).latest[token] <= now
  {
    if events != [] {
      var last := events[|events| - 1];
      LatestBefore(events[..|events| - 1], if last.Resolve? then last.now else now, token);
      hide After;
    }
  }

  /** Under a clock that never runs backwards, every resolve answers as a store that never
      prunes: minted, not dropped, not expired. */
  lemma PruningIsInvisible(events: seq<Event>, token: Token, now: int)
    requires Monotone(events, now)
    ensures Answer(After(events), token, now) == PlainAnswer(After(events), token, now)
  {
    PruningShowsExactly(events, token, now);
    LatestBefore(events, now, token);
    hide After;
    hide Monotone;
  }

  // ---- what the events say of a token ----

  /** An event looks the token up or mints it. */
  predicate Names(e: Event, token: Token) { e.token == token && !e.Drop? }

  predicate Named(events: seq<Event>, token: Token) { exists k :: 0 <= k < |events| && Names(events[k], token) }

  /** Event `k` mints the token with this scope, and nothing named the token before. */
  predicate MintedAt(events: seq<Event>, k: int, token: Token, scope: Scope) {
    && 0 <= k < |events| && events[k] == Mint(token, scope)
    && forall j :: 0 <= j < k ==> !Names(events[j], token)
  }

  /** The token was minted with this scope, and its guard was not dropped since. */
  predicate LivesFrom(events: seq<Event>, k: int, token: Token, scope: Scope) {
    MintedAt(events, k, token, scope) && forall j :: k < j < |events| ==> events[j] != Drop(token)
  }

  ghost predicate EverMinted(events: seq<Event>, token: Token, scope: Scope) {
    exists k :: MintedAt(events, k, token, scope)
  }

  ghost predicate Lives(events: seq<Event>, token: Token, scope: Scope) {
    exists k :: LivesFrom(events, k, token, scope)
  }

  lemma NamedStep(events: seq<Event>, e: Event, token: Token)
    ensures Named(events + [e], token) <==> Named(events, token) || Names(e, token)
  {
    var all := events + [e];
    assert all[|events|] == e;
    if Named(events, token) {
      var k :| 0 <= k < |events| && Names(events[k], token);
      assert all[k] == events[k];
    }
  }

  lemma MintedAtStep(events: seq<Event>, e: Event, k: int, token: Token, scope: Scope)
    ensures MintedAt(events + [e], k, token, scope) <==>
              MintedAt(events, k, token, scope)
              || (k == |events| && e == Mint(token, scope) && !Named(events, token))
  {
    hide Names;
    var all := events + [e];
    assert forall j :: 0 <= j < |events| ==> all[j] == events[j];
  }

  lemma EverMintedStep(events: seq<Event>, e: Event, token: Token, scope: Scope)
    ensures EverMinted(events + [e], token, scope) <==>
              EverMinted(events, token, scope) || (e == Mint(token, scope) && !Named(events, token))
  {
    var all, n := events + [e], |events|;
    hide MintedAt;
    hide Named;
    MintedAtStep(events, e, n, token, scope);
    if k :| MintedAt(events, k, token, scope) { MintedAtStep(events, e, k, token, scope); }
    if k :| MintedAt(all, k, token, scope) { MintedAtStep(events, e, k, token, scope); }
  }

  lemma LivesFromStep(events: seq<Event>, e: Event, k: int, token: Token, scope: Scope)
    ensures LivesFrom(events + [e], k, token, scope) <==>
              (LivesFrom(events, k, token, scope) && e != Drop(token))
              || (k == |events| && e == Mint(token, scope) && !Named(events, token))
  {
    var all, n := events + [e], |events|;
    MintedAtStep(events, e, k, token, scope);
    MintedAtInside(events, k, token, scope);
    hide MintedAt;
    hide Named;
    assert all[n] == e && forall j :: 0 <= j < n ==> all[j] == events[j];
  }

  lemma MintedAtInside(events: seq<Event>, k: int, token: Token, scope: Scope)
    ensures MintedAt(events, k, token, scope) ==> 0 <= k < |events|
  {
  }

  lemma LivesStep(events: seq<Event>, e: Event, token: Token, scope: Scope)
    ensures Lives(events + [e], token, scope) <==>
              (Lives(events, token, scope) && e != Drop(token)) || (e == Mint(token, scope) && !Named(events, token))
  {
    var all, n := events + [e], |events|;
    hide LivesFrom;
    hide Named;
    LivesFromStep(events, e, n, token, scope);
    if k :| LivesFrom(events, k, token, scope) { LivesFromStep(events, e, k, token, scope); }
    if k :| LivesFrom(all, k, token, scope) { LivesFromStep(events, e, k, token, scope); }
  }

  /** What the store remembers of a token is what the events say. */
  lemma {:induction false} HistoryIs(events: seq<Event>, token: Token, scope: Scope)
    ensures var s := After(events);
            && (Named(events, token) <==> token in s.minted || token in s.latest)
            && (EverMinted(events, token, scope) <==> token in s.minted && s.minted[token] == scope)
            && (Lives(events, token, scope) <==>
                  token in s.minted && s.minted[token] == scope && token !in s.dropped)
  {
    RunKeepsOk(events);
    hide Ok;
    hide Named;
    hide EverMinted;
    hide Lives;
    if events == [] {
      NothingLives(token, scope);
    } else {
      var before, e := events[..|events| - 1], events[|events| - 1];
      assert events == before + [e];
      HistoryIs(before, token, scope);
      RunKeepsOk(before);
      NamedStep(before, e, token);
      EverMintedStep(before, e, token, scope);
      LivesStep(before, e, token, scope);
      HistoryStep(After(before), e, token);
      hide After;
      hide Step;
    }
  }

  lemma NothingLives(token: Token, scope: Scope)
    ensures !Named([], token) && !EverMinted([], token, scope) && !Lives([], token, scope)
  {
  }

  lemma HistoryStep(s: Store, e: Event, token: Token)
    requires Ok(s)
    ensures var t := Step(s, e);
            && (token in t.minted || token in t.latest <==> token in s.minted || token in s.latest || Names(e, token))
            && (token in s.minted ==> token in t.minted && t.minted[token] == s.minted[token])
            && (token !in s.minted && token in t.minted ==>
                  token !in s.latest && e == Mint(token, t.minted[token]) && token !in t.dropped)
            && (token !in s.minted && token !in s.latest && e.Mint? && e.token == token ==>
                  token in t.minted && t.minted[token] == e.scope)
            && (token in s.minted ==> (token in t.dropped <==> token in s.dropped || e == Drop(token)))
  {
  }

  /** Under a clock that never runs backwards, a lookup answers a scope exactly when the token was
      minted with it, its guard was not dropped since, and its expiry still lies ahead. */
  lemma ResolvesExactly(events: seq<Event>, token: Token, now: int, scope: Scope)
    requires Monotone(events, now)
    ensures Answer(After(events), token, now) == Some(scope) <==>
              Lives(events, token, scope) && now < scope.expiresAt
  {
    PruningIsInvisible(events, token, now);
    HistoryIs(events, token, scope);
    hide After;
    hide Monotone;
    hide Lives;
    hide EverMinted;
    hide Answer;
  }

  /** With the clock set back, a live token that was met once past its expiry stays refused. */
  lemma ClockSetBackShowsPruning(token: Token, scope: Scope)
    ensures var s := After([Mint(token, scope), Resolve(token, scope.expiresAt)]);
            && PlainAnswer(s, token, scope.expiresAt - 1) == Some(scope)
            && Answer(s, token, scope.expiresAt - 1) == None
  {
    var minted := [Mint(token, scope)];
    var both := minted + [Resolve(token, scope.expiresAt)];
    assert both == [Mint(token, scope), Resolve(token, scope.expiresAt)];
    assert After([]) == Start() && minted[..0] == [];
    assert After(minted) == Minted(Start(), token, scope);
    assert both[..1] == minted;
  }

  // ---- what a token may call ----

  datatype Verb = GET | POST | PATCH | OtherVerb

  /** The non-empty parts between slashes. */
  function Segments(path: string): seq<string>
    decreases |path|
  {
    if path == "" then []
    else if path[0] == '/' then Segments(path[1..])
    else
      var n := NextChar(path, 0, '/');
      [path[..n]] + Segments(path[n..])
  }

  lemma SegmentsStep(a: string, b: string)
    requires a != "" && a[0] != '/'
    ensures var n := NextChar(a, 0, '/');
            && 0 < n <= |a| && Segments(a) == [a[..n]] + Segments(a[n..])
            && Segments(a + "/" + b) == [a[..n]] + Segments(a[n..] + "/" + b)
  {
    var path, n := a + "/" + b, NextChar(a, 0, '/');
    NextCharIs(path, 0, '/', n);
    hide NextChar;
    assert path[..n] == a[..n] && path[n..] == a[n..] + "/" + b;
  }

  /** A slash separates, and slashes more or less make no difference. */
  lemma {:induction false} SegmentsSplit(a: string, b: string)
    ensures Segments(a + "/" + b) == Segments(a) + Segments(b)
    decreases |a|
  {
    hide NextChar;
    var path := a + "/" + b;
    if a == "" {
      assert path[1..] == b;
      assert Segments(path) == Segments(b) == [] + Segments(b);
    } else if a[0] == '/' {
      assert path[1..] == a[1..] + "/" + b;
      SegmentsSplit(a[1..], b);
    } else {
      SegmentsStep(a, b);
      hide Segments;
      SegmentsSplit(a[NextChar(a, 0, '/')..], b);
    }
  }

  /** Segments joined by slashes. */
  function PathOf(segs: seq<string>): string {
    if segs == [] then "" else "/" + (segs[0] + PathOf(segs[1..]))
  }

  predicate Segment(s: string) { s != "" && '/' !in s }

  lemma SegmentFirst(seg: string, path: string)
    requires Segment(seg) && (path != "" ==> path[0] == '/')
    ensures Segments("/" + (seg + path)) == [seg] + Segments(path)
  {
    var rest := seg + path;
    assert ("/" + rest)[1..] == rest && rest[0] == seg[0];
    NextCharIs(rest, 0, '/', |seg|);
    hide NextChar;
    assert rest[..|seg|] == seg && rest[|seg|..] == path;
  }

  /** Splitting inverts joining. */
  lemma {:induction false} SegmentsOfPath(segs: seq<string>)
    requires forall k :: 0 <= k < |segs| ==> Segment(segs[k])
    ensures Segments(PathOf(segs)) == segs
  {
    if segs != [] {
      SegmentsOfPath(segs[1..]);
      hide Segments;
      hide Segment;
      SegmentFirst(segs[0], PathOf(segs[1..]));
    }
  }

  predicate MayReshape(scope: Scope) { scope.phase == "grilling" || scope.phase == "prototype" }

  /** Below `/epics/{id}`: what every phase may read. */
  predicate Readable(tail: seq<string>) {
    || tail == [] || tail == ["dag"] || tail == ["map"] || tail == ["document"] || tail == ["comments"]
    || tail == ["activity"] || tail == ["participants"]
    || (|tail| == 2 && tail[0] == "map-nodes")
    || (|tail| == 3 && tail[0] == "map-nodes" && tail[2] == "assets")
    || (|tail| == 4 && tail[0] == "map-nodes" && tail[2] == "assets")
  }

  /** What every phase may post: the two DAG writes, a comment, and resolving a thread. */
  predicate Postable(tail: seq<string>) {
    tail == ["tasks"] || tail == ["dependencies"] || tail == ["comments"]
    || (|tail| == 3 && tail[0] == "comments" && tail[2] == "resolve")
  }

  /** What only a map-reshaping phase may post or patch. */
  predicate ReshapePost(tail: seq<string>) {
    || tail == ["map-nodes"] || tail == ["map-node-dependencies"] || tail == ["document", "sync"]
    || (|tail| == 3 && tail[0] == "map-nodes" && tail[2] == "resolve")
    || (|tail| == 3 && tail[0] == "comments" && tail[2] == "promote")
  }

  predicate ReshapePatch(tail: seq<string>) { tail == ["map"] || (|tail| == 2 && tail[0] == "map-nodes") }

  /** `authorize_cap_request`. */
  predicate Authorized(scope: Scope, verb: Verb, path: string) {
    var segs := Segments(path);
    if verb == GET && segs == ["auth", "capability"] then true
    else if |segs| < 2 || segs[0] != "epics" || segs[1] != scope.epic then false
    else
      var tail := segs[2..];
      match verb
      case GET => Readable(tail)
      case POST => Postable(tail) || (ReshapePost(tail) && MayReshape(scope))
      case PATCH => ReshapePatch(tail) && MayReshape(scope)
      case OtherVerb => false
  }

  predicate AddressesEpic(path: string, epic: string) {
    var segs := Segments(path);
    |segs| >= 2 && segs[0] == "epics" && segs[1] == epic
  }

  /** A token acts on its own epic only: whatever else it may reach is the query of its scope. */
  lemma OwnEpicOnly(scope: Scope, verb: Verb, path: string)
    requires Authorized(scope, verb, path)
    ensures (verb == GET && Segments(path) == ["auth", "capability"]) || AddressesEpic(path, scope.epic)
    ensures forall epic :: epic != scope.epic ==> !AddressesEpic(path, epic)
  {
    hide Segments;
    hide Readable;
    hide Postable;
    hide ReshapePost;
    hide ReshapePatch;
    var segs := Segments(path);
    if segs == ["auth", "capability"] { assert segs[0][0] == 'a' && "epics"[0] == 'e'; }
  }

  // ---- the allow-list as a table ----

  /** What stands below an epic's own path; a star is any one segment. */
  const READS: seq<seq<string>> := [
    [], ["dag"], ["document"], ["comments"], ["activity"], ["participants"], ["map"], ["map-nodes", "*"],
    ["map-nodes", "*", "assets"], ["map-nodes", "*", "assets", "*"]]

  const POSTS: seq<seq<string>> := [["tasks"], ["dependencies"], ["comments"], ["comments", "*", "resolve"]]

  const MAP_POSTS: seq<seq<string>> := [
    ["map-nodes"], ["map-node-dependencies"], ["map-nodes", "*", "resolve"], ["document", "sync"],
    ["comments", "*", "promote"]]

  const MAP_PATCHES: seq<seq<string>> := [["map"], ["map-nodes", "*"]]

  predicate Fits(pattern: seq<string>, tail: seq<string>) {
    |pattern| == |tail| && forall k :: 0 <= k < |pattern| ==> pattern[k] == "*" || pattern[k] == tail[k]
  }

  predicate Listed(table: seq<seq<string>>, tail: seq<string>) { exists k :: 0 <= k < |table| && Fits(table[k], tail) }

  lemma ReadsListed(tail: seq<string>)
    ensures Readable(tail) <==> Listed(READS, tail)
  {
    assert READS[0] == [] && READS[1] == ["dag"] && READS[2] == ["document"] && READS[3] == ["comments"];
    assert READS[4] == ["activity"] && READS[5] == ["participants"] && READS[6] == ["map"];
    assert READS[7] == ["map-nodes", "*"] && READS[8] == ["map-nodes", "*", "assets"];
    assert READS[9] == ["map-nodes", "*", "assets", "*"];
  }

  lemma PostsListed(tail: seq<string>)
    ensures Postable(tail) <==> Listed(POSTS, tail)
  {
    assert POSTS[0] == ["tasks"] && POSTS[1] == ["dependencies"] && POSTS[2] == ["comments"];
    assert POSTS[3] == ["comments", "*", "resolve"];
  }

  lemma MapWritesListed(tail: seq<string>)
    ensures ReshapePost(tail) <==> Listed(MAP_POSTS, tail)
    ensures ReshapePatch(tail) <==> Listed(MAP_PATCHES, tail)
  {
    assert MAP_POSTS[0] == ["map-nodes"] && MAP_POSTS[1] == ["map-node-dependencies"];
    assert MAP_POSTS[2] == ["map-nodes", "*", "resolve"] && MAP_POSTS[3] == ["document", "sync"];
    assert MAP_POSTS[4] == ["comments", "*", "promote"];
    assert MAP_PATCHES[0] == ["map"] && MAP_PATCHES[1] == ["map-nodes", "*"];
  }

  lemma AuthorizedIs(scope: Scope, verb: Verb, path: string, segs: seq<string>)
    requires segs == Segments(path)
    ensures Authorized(scope, verb, path) <==>
              || (verb == GET && segs == ["auth", "capability"])
              || (|segs| >= 2 && segs[0] == "epics" && segs[1] == scope.epic
                  && var tail := segs[2..];
                     || (verb == GET && Readable(tail))
                     || (verb == POST && (Postable(tail) || (ReshapePost(tail) && MayReshape(scope))))
                     || (verb == PATCH && ReshapePatch(tail) && MayReshape(scope)))
  {
    hide Segments;
    hide Readable;
    hide Postable;
    hide ReshapePost;
    hide ReshapePatch;
    hide MayReshape;
    assert "auth"[0] != "epics"[0];
  }

  lemma ReshapersAre(scope: Scope)
    ensures MayReshape(scope) <==> scope.phase in {"grilling", "prototype"}
  {
  }

  /** A path is authorised exactly when it asks for the token's own scope, or names a listed route
      below the token's own epic, of those that reshape the map only for the two phases that may. */
  lemma AuthorizedExactly(scope: Scope, verb: Verb, segs: seq<string>)
    requires forall k :: 0 <= k < |segs| ==> Segment(segs[k])
    ensures Authorized(scope, verb, PathOf(segs)) <==>
              || (verb == GET && segs == ["auth", "capability"])
              || (|segs| >= 2 && segs[0] == "epics" && segs[1] == scope.epic
                  && var tail := segs[2..];
                     || (verb == GET && Listed(READS, tail))
                     || (verb == POST && Listed(POSTS, tail))
                     || (scope.phase in {"grilling", "prototype"}
                         && ((verb == POST && Listed(MAP_POSTS, tail))
                             || (verb == PATCH && Listed(MAP_PATCHES, tail)))))
  {
    SegmentsOfPath(segs);
    hide *;
    AuthorizedIs(scope, verb, PathOf(segs), segs);
    ReshapersAre(scope);
    if |segs| >= 2 {
      ReadsListed(segs[2..]);
      PostsListed(segs[2..]);
      MapWritesListed(segs[2..]);
    }
  }

  /** Outside grilling and prototype a token writes exactly the four posts. */
  lemma UnattendedWritesExactly(scope: Scope, verb: Verb, path: string)
    requires scope.phase !in {"grilling", "prototype"} && verb != GET
    ensures Authorized(scope, verb, path) <==>
              verb == POST && AddressesEpic(path, scope.epic)
              && |Segments(path)| >= 2 && Listed(POSTS, Segments(path)[2..])
  {
    hide *;
    var segs := Segments(path);
    AuthorizedIs(scope, verb, path, segs);
    ReshapersAre(scope);
    AddressesIs(path, scope.epic);
    if |segs| >= 2 { PostsListed(segs[2..]); }
  }

  lemma AddressesIs(path: string, epic: string)
    ensures var segs := Segments(path);
            AddressesEpic(path, epic) <==> |segs| >= 2 && segs[0] == "epics" && segs[1] == epic
  {
  }
}
