/** Settings requests cut at every await: what was read may have changed by the time it is saved.
    One request alone is the endpoint of `Settings`; over every interleaving the layers stay in
    order exactly when every save still fits at save time. */
module SettingsProtocol {
  import opened Settings
  import opened Text

  type Client = nat

  /** A global change with the enabled harnesses still to be checked for references; a slot change
      that has yet to read its override; one that is about to save. */
  datatype Pc =
    | Idle
    | Checking(merged: Global, rest: seq<string>)
    | Reading(key: Key, request: SlotRequest)
    | Storing(key: Key, setting: Setting)

  datatype Server = Server(store: Store, clients: map<Client, Pc>)

  datatype Event = Ask(c: Client, request: Request) | Advance(c: Client) | Drop(c: Client)

  function PcOf(s: Server, c: Client): Pc { if c in s.clients then s.clients[c] else Idle }

  function Goto(s: Server, c: Client, pc: Pc): Server { s.(clients := s.clients[c := pc]) }

  /** The first read of a request, with every check that needs no other; a refused one is over. */
  function Asked(s: Server, projects: set<string>, c: Client, r: Request): Server {
    match r
    case ToGlobal(g) =>
      if GlobalReadable(g) && DefaultOk(Merged(s.store.global, g))
      then Goto(s, c, Checking(Merged(s.store.global, g), s.store.global.enabled)) else s
    case ToSlot(project, slotKey, x) =>
      var slot := ParseSlot(slotKey);
      if slot.Some? && project in projects && SlotReadable(s.store.global, slot.value, x)
      then Goto(s, c, Reading((project, slot.value), x)) else s
  }

  /** The next statement of a request. */
  function Advanced(s: Server, c: Client): Server {
    match PcOf(s, c)
    case Idle => s
    case Checking(merged, rest) =>
      if rest == [] then Goto(s.(store := s.store.(global := merged)), c, Idle)
      else if rest[0] !in merged.enabled && Referenced(s.store.overrides, rest[0]) then Goto(s, c, Idle)
      else Goto(s, c, Checking(merged, rest[1..]))
    case Reading(key, x) => Goto(s, c, Storing(key, Edited(OverrideOf(s.store, key.0, key.1), x)))
    case Storing(key, setting) => Goto(s.(store := Stored(s.store, key, setting)), c, Idle)
  }

  function Step(s: Server, projects: set<string>, e: Event): Server {
    match e
    case Ask(c, r) => if PcOf(s, c).Idle? then Asked(s, projects, c, r) else s
    case Advance(c) => Advanced(s, c)
    case Drop(c) => Goto(s, c, Idle)
  }

  function After(projects: set<string>, events: seq<Event>): Server
    decreases |events|
  {
    if events == [] then Server(Settings.Start(), map[])
    else Step(After(projects, events[..|events| - 1]), projects, events[|events| - 1])
  }

  // ---- one request alone is the endpoint ----

  function Advances(s: Server, c: Client, k: nat): Server
    decreases k
  {
    if k == 0 then s else Advances(Advanced(s, c), c, k - 1)
  }

  predicate Conflicting(overrides: map<Key, Setting>, merged: Global, rest: seq<string>) {
    exists j :: 0 <= j < |rest| && rest[j] !in merged.enabled && Referenced(overrides, rest[j])
  }

  lemma {:induction false} CheckingRuns(s: Server, c: Client, merged: Global, rest: seq<string>) returns (k: nat)
    requires PcOf(s, c) == Checking(merged, rest)
    ensures PcOf(Advances(s, c, k), c).Idle?
    ensures Advances(s, c, k).store ==
            if Conflicting(s.store.overrides, merged, rest) then s.store else s.store.(global := merged)
    decreases |rest|
  {
    hide Referenced;
    hide DefaultOk;
    var t := Advanced(s, c);
    assert Advances(t, c, 0) == t;
    if rest == [] {
      k := 1;
    } else if rest[0] !in merged.enabled && Referenced(s.store.overrides, rest[0]) {
      assert Conflicting(s.store.overrides, merged, rest);
      k := 1;
    } else {
      k := CheckingRuns(t, c, merged, rest[1..]);
      k := k + 1;
      var tail := rest[1..];
      if j :| 0 <= j < |rest| && rest[j] !in merged.enabled && Referenced(s.store.overrides, rest[j]) {
        assert tail[j - 1] == rest[j];
      }
      assert forall j :: 0 <= j < |tail| ==> tail[j] == rest[j + 1];
    }
  }

  lemma ConflictingIs(s: Store, merged: Global)
    ensures Conflicting(s.overrides, merged, s.global.enabled) <==> DisablesReferenced(s, merged)
  {
    hide Referenced;
    var rest := s.global.enabled;
    if harness :| harness in rest && harness !in merged.enabled && Referenced(s.overrides, harness) {
      var j :| 0 <= j < |rest| && rest[j] == harness;
      assert Conflicting(s.overrides, merged, rest);
    }
  }

  /** A request that runs alone leaves what the endpoint leaves. */
  lemma AloneIsApply(s: Server, projects: set<string>, c: Client, r: Request) returns (k: nat)
    requires PcOf(s, c).Idle?
    ensures var t := Advances(Step(s, projects, Ask(c, r)), c, k);
            PcOf(t, c).Idle? && t.store == Apply(s.store, projects, r)
  {
    hide Edited;
    hide Merged;
    hide DefaultOk;
    hide GlobalReadable;
    hide SlotReadable;
    hide ParseSlotFrom;
    hide Referenced;
    var asked := Step(s, projects, Ask(c, r));
    k := 0;
    if PcOf(asked, c).Checking? {
      k := CheckingRuns(asked, c, PcOf(asked, c).merged, s.store.global.enabled);
      ConflictingIs(s.store, PcOf(asked, c).merged);
      hide Conflicting;
      hide DisablesReferenced;
    } else if PcOf(asked, c).Reading? {
      k := 2;
      assert Advances(asked, c, 2) == Advances(Advanced(asked, c), c, 1) == Advanced(Advanced(asked, c), c);
    }
  }

  // ---- what every interleaving keeps ----

  /** A setting with its facets in order. */
  predicate FacetsOk(x: Setting) { FacetOk(x.harness) && FacetOk(x.model) && FacetOk(x.prompt) }

  predicate RowsOk(overrides: map<Key, Setting>) {
    forall key :: key in overrides ==> overrides[key] != Setting(None, None, None) && FacetsOk(overrides[key])
  }

  /** What no interleaving can break. */
  predicate Sane(s: Server) {
    && DefaultOk(s.store.global) && RowsOk(s.store.overrides)
    && forall c :: c in s.clients ==>
         (s.clients[c].Checking? ==> DefaultOk(s.clients[c].merged))
         && (s.clients[c].Storing? ==> FacetsOk(s.clients[c].setting))
  }

  lemma OkParts(s: Store)
    ensures Ok(s) <==> DefaultOk(s.global) && RowsOk(s.overrides)
                       && forall key :: key in s.overrides ==> Fits(s.global, key.1, s.overrides[key])
  {
    hide DefaultOk;
    hide HarnessFits;
    hide FacetOk;
  }

  lemma EditedFacets(s: Store, key: Key, r: SlotRequest)
    requires RowsOk(s.overrides)
    ensures FacetsOk(Edited(OverrideOf(s, key.0, key.1), r))
  {
    hide FacetOk;
    hide Facet;
    var stored := OverrideOf(s, key.0, key.1);
    var base := if stored.Some? then stored.value else Setting(None, None, None);
    assert key == (key.0, key.1);
    NoFacetOk();
    FacetEdited(base.harness, r.harness);
    FacetEdited(base.model, r.model);
    FacetEdited(base.prompt, r.prompt);
  }

  lemma NoFacetOk()
    ensures FacetOk(None)
  {
  }

  lemma StepKeepsSane(s: Server, projects: set<string>, e: Event)
    requires Sane(s)
    ensures Sane(Step(s, projects, e))
  {
    if e.Advance? && PcOf(s, e.c).Reading? { EditedFacets(s.store, PcOf(s, e.c).key, PcOf(s, e.c).request); }
    hide DefaultOk;
    hide FacetsOk;
    hide Edited;
    hide Merged;
    hide GlobalReadable;
    hide SlotReadable;
    hide ParseSlotFrom;
    hide Referenced;
  }

  // ---- exactly the saves that still fit ----

  /** The harness a setting names, if any, is enabled and runs the slot. */
  predicate Fits(global: Global, slot: Slot, x: Setting) {
    x.harness.Some? ==> HarnessFits(global, slot, x.harness.value)
  }

  /** What the endpoints check before they save, asked again of the store that is saved to. */
  predicate SaveFits(s: Server, e: Event) {
    e.Advance? ==>
      match PcOf(s, e.c)
      case Checking(merged, rest) => rest == [] ==> !DisablesReferenced(s.store, merged)
      case Storing(key, setting) => Fits(s.store.global, key.1, setting)
      case _ => true
  }

  lemma GlobalSaveExactly(s: Store, merged: Global)
    requires Ok(s) && DefaultOk(merged)
    ensures Ok(s.(global := merged)) <==> !DisablesReferenced(s, merged)
  {
    OkParts(s);
    OkParts(s.(global := merged));
    hide Ok;
    hide DefaultOk;
    hide RowsOk;
    hide SupportsSlot;
    hide IsSupported;
    if DisablesReferenced(s, merged) {
      var harness :| harness in s.global.enabled && harness !in merged.enabled && Referenced(s.overrides, harness);
      var key :| key in s.overrides && s.overrides[key].harness == Some(harness);
      assert !Fits(merged, key.1, s.overrides[key]);
    } else {
      forall key | key in s.overrides ensures Fits(merged, key.1, s.overrides[key]) {
        assert Fits(s.global, key.1, s.overrides[key]);
        var harness := s.overrides[key].harness;
        if harness.Some? { assert Referenced(s.overrides, harness.value); }
      }
    }
  }

  lemma SlotSaveExactly(s: Store, key: Key, x: Setting)
    requires Ok(s) && FacetsOk(x)
    ensures Ok(Stored(s, key, x)) <==> Fits(s.global, key.1, x)
  {
    var t := Stored(s, key, x);
    OkParts(s);
    OkParts(t);
    hide Ok;
    hide DefaultOk;
    hide FacetsOk;
    hide HarnessFits;
    if x != Setting(None, None, None) {
      assert t.overrides[key] == x;
    }
  }

  /** From a store in order, a step leaves it in order exactly when a save still fits. */
  lemma StepKeepsOkExactly(s: Server, projects: set<string>, e: Event)
    requires Sane(s) && Ok(s.store)
    ensures Ok(Step(s, projects, e).store) <==> SaveFits(s, e)
  {
    if e.Advance? {
      match PcOf(s, e.c)
      case Checking(merged, rest) => GlobalSaveExactly(s.store, merged);
      case Storing(key, setting) => SlotSaveExactly(s.store, key, setting);
      case _ =>
    }
    hide Ok;
    hide DefaultOk;
    hide DisablesReferenced;
    hide Fits;
    hide Edited;
    hide Merged;
    hide GlobalReadable;
    hide SlotReadable;
    hide ParseSlotFrom;
    hide Referenced;
    hide Stored;
  }

  /** Every store along the run is in order. */
  predicate AlwaysOk(projects: set<string>, events: seq<Event>)
    decreases |events|
  {
    Ok(After(projects, events).store) && (events == [] || AlwaysOk(projects, events[..|events| - 1]))
  }

  /** Every save along the run still fits when it is made. */
  predicate SavesFit(projects: set<string>, events: seq<Event>)
    decreases |events|
  {
    events != [] ==>
      SavesFit(projects, events[..|events| - 1])
      && SaveFits(After(projects, events[..|events| - 1]), events[|events| - 1])
  }

  lemma StartOk()
    ensures Ok(Settings.Start()) && Sane(Server(Settings.Start(), map[]))
  {
    assert DefaultOk(Settings.Start().global);
  }

  /** Over every interleaving of requests, with drops anywhere: the layers are in order throughout
      exactly when no save was overtaken, that is, when each still fits as it is made. */
  lemma {:induction false} AlwaysOkExactly(projects: set<string>, events: seq<Event>)
    ensures Sane(After(projects, events))
    ensures AlwaysOk(projects, events) <==> SavesFit(projects, events)
  {
    hide Ok;
    hide Sane;
    hide Step;
    hide SaveFits;
    if events == [] {
      StartOk();
    } else {
      var before := events[..|events| - 1];
      AlwaysOkExactly(projects, before);
      StepKeepsSane(After(projects, before), projects, events[|events| - 1]);
      if AlwaysOk(projects, before) {
        assert Ok(After(projects, before).store);
        StepKeepsOkExactly(After(projects, before), projects, events[|events| - 1]);
      }
    }
  }

  // ---- a save that was overtaken ----

  const BOTH := GlobalRequest(None, None, Some([CLAUDE, PI]))

  const CLAUDE_ONLY := GlobalRequest(None, None, Some([CLAUDE]))

  lemma KeysClean()
    ensures Clean(CLAUDE) == Some(CLAUDE) && Clean(PI) == Some(PI)
  {
    hide Trim;
    assert CLAUDE[0] == 'c' && CLAUDE[5] == 'e' && |CLAUDE| == 6 && PI[0] == 'p' && PI[1] == 'i' && |PI| == 2;
    TrimIs("", CLAUDE, "");
    TrimIs("", PI, "");
    assert "" + CLAUDE + "" == CLAUDE && "" + PI + "" == PI;
  }

  /** Both changes are readable, whatever is stored under the default of Claude. */
  lemma GlobalChanges(g: Global)
    requires g.defaultHarness == CLAUDE
    ensures GlobalReadable(BOTH) && Merged(g, BOTH) == g.(enabled := [CLAUDE, PI]) && DefaultOk(Merged(g, BOTH))
    ensures GlobalReadable(CLAUDE_ONLY) && Merged(g, CLAUDE_ONLY) == g.(enabled := [CLAUDE])
    ensures DefaultOk(Merged(g, CLAUDE_ONLY))
  {
    KeysClean();
    hide Clean;
    assert CLAUDE[0] != PI[0];
    assert CleanList([CLAUDE], 0) == [] && CleanList([CLAUDE], 1) == [CLAUDE];
    assert CleanList([CLAUDE, PI], 0) == [] && CleanList([CLAUDE, PI], 1) == [CLAUDE];
    assert CleanList([CLAUDE, PI], 2) == [CLAUDE] + [PI] == [CLAUDE, PI];
  }

  lemma OneMore(projects: set<string>, events: seq<Event>, e: Event)
    ensures After(projects, events + [e]) == Step(After(projects, events), projects, e)
  {
    assert (events + [e])[..|events|] == events;
  }

  function Run(s: Server, projects: set<string>, events: seq<Event>): Server
    decreases |events|
  {
    if events == [] then s else Run(Step(s, projects, events[0]), projects, events[1..])
  }

  lemma {:induction false} AfterIsRun(projects: set<string>, done: seq<Event>, events: seq<Event>)
    ensures After(projects, done + events) == Run(After(projects, done), projects, events)
    decreases |events|
  {
    hide Step;
    if events == [] {
      assert done + events == done;
    } else {
      OneMore(projects, done, events[0]);
      AfterIsRun(projects, done + [events[0]], events[1..]);
      assert done + events == done + [events[0]] + events[1..];
    }
  }

  lemma {:induction false} RunSplits(s: Server, projects: set<string>, xs: seq<Event>, ys: seq<Event>)
    ensures Run(s, projects, xs + ys) == Run(Run(s, projects, xs), projects, ys)
    decreases |xs|
  {
    hide Step;
    if xs == [] {
      assert xs + ys == ys;
    } else {
      RunSplits(Step(s, projects, xs[0]), projects, xs[1..], ys);
      assert (xs + ys)[1..] == xs[1..] + ys;
    }
  }

  lemma RunFirst(s: Server, projects: set<string>, e: Event, rest: seq<Event>)
    ensures Run(s, projects, [e] + rest) == Run(Step(s, projects, e), projects, rest)
  {
    hide Step;
    assert ([e] + rest)[1..] == rest;
  }

  lemma RunOnce(s: Server, projects: set<string>, e: Event)
    ensures Run(s, projects, [e]) == Step(s, projects, e)
  {
    hide Step;
  }

  lemma RunTwice(s: Server, projects: set<string>, e: Event)
    ensures Run(s, projects, [e, e]) == Step(Step(s, projects, e), projects, e)
  {
    RunOnce(Step(s, projects, e), projects, e);
    RunFirst(s, projects, e, [e]);
  }

  lemma AskStep(s: Server, projects: set<string>, c: Client, g: GlobalRequest)
    requires PcOf(s, c).Idle? && GlobalReadable(g) && DefaultOk(Merged(s.store.global, g))
    ensures Step(s, projects, Ask(c, ToGlobal(g)))
            == Goto(s, c, Checking(Merged(s.store.global, g), s.store.global.enabled))
  {
    hide GlobalReadable;
    hide Merged;
    hide DefaultOk;
  }

  lemma CheckStep(s: Server, projects: set<string>, c: Client, merged: Global, rest: seq<string>)
    requires PcOf(s, c) == Checking(merged, rest) && rest != []
    requires rest[0] in merged.enabled || !Referenced(s.store.overrides, rest[0])
    ensures Step(s, projects, Advance(c)) == Goto(s, c, Checking(merged, rest[1..]))
  {
    hide Referenced;
  }

  lemma SaveStep(s: Server, projects: set<string>, c: Client, merged: Global)
    requires PcOf(s, c) == Checking(merged, [])
    ensures Step(s, projects, Advance(c)) == Goto(s.(store := s.store.(global := merged)), c, Idle)
  {
  }

  /** A global change while one harness is enabled, and kept: read, one check, save. */
  lemma EnableRuns(s: Server, projects: set<string>, c: Client, r: GlobalRequest, merged: Global, kept: string)
    requires PcOf(s, c).Idle? && GlobalReadable(r) && merged == Merged(s.store.global, r) && DefaultOk(merged)
    requires s.store.global.enabled == [kept] && kept in merged.enabled
    ensures var t := Run(s, projects, [Ask(c, ToGlobal(r)), Advance(c), Advance(c)]);
            t.store == s.store.(global := merged) && PcOf(t, c).Idle? && forall b :: b != c ==> PcOf(t, b) == PcOf(s, b)
  {
    hide GlobalReadable;
    hide Merged;
    hide DefaultOk;
    hide Referenced;
    hide Step;
    AskStep(s, projects, c, r);
    var s1 := Goto(s, c, Checking(merged, [kept]));
    CheckStep(s1, projects, c, merged, [kept]);
    assert [kept][1..] == [];
    SaveStep(Goto(s1, c, Checking(merged, [])), projects, c, merged);
    RunTwice(s1, projects, Advance(c));
    RunFirst(s, projects, Ask(c, ToGlobal(r)), [Advance(c), Advance(c)]);
  }

  /** A global change that keeps one harness and disables another that no slot names. */
  lemma DisableRuns(s: Server, projects: set<string>, c: Client, r: GlobalRequest, merged: Global, kept: string,
                    cut: string)
    requires PcOf(s, c).Idle? && GlobalReadable(r) && merged == Merged(s.store.global, r) && DefaultOk(merged)
    requires s.store.global.enabled == [kept, cut] && kept in merged.enabled && !Referenced(s.store.overrides, cut)
    ensures var t := Run(s, projects, [Ask(c, ToGlobal(r)), Advance(c), Advance(c), Advance(c)]);
            t.store == s.store.(global := merged) && PcOf(t, c).Idle? && forall b :: b != c ==> PcOf(t, b) == PcOf(s, b)
  {
    hide GlobalReadable;
    hide Merged;
    hide DefaultOk;
    hide Referenced;
    hide Step;
    AskStep(s, projects, c, r);
    var s1 := Goto(s, c, Checking(merged, [kept, cut]));
    CheckStep(s1, projects, c, merged, [kept, cut]);
    assert [kept, cut][1..] == [cut];
    var s2 := Goto(s1, c, Checking(merged, [cut]));
    CheckStep(s2, projects, c, merged, [cut]);
    assert [cut][1..] == [];
    SaveStep(Goto(s2, c, Checking(merged, [])), projects, c, merged);
    RunTwice(s2, projects, Advance(c));
    RunFirst(s1, projects, Advance(c), [Advance(c), Advance(c)]);
    RunFirst(s, projects, Ask(c, ToGlobal(r)), [Advance(c), Advance(c), Advance(c)]);
  }

  /** A slot edit up to its save. */
  lemma EditRuns(s: Server, projects: set<string>, c: Client, project: string, slotKey: string, slot: Slot,
                 r: SlotRequest)
    requires PcOf(s, c).Idle? && project in projects && ParseSlot(slotKey) == Some(slot)
    requires SlotReadable(s.store.global, slot, r)
    ensures var t := Run(s, projects, [Ask(c, ToSlot(project, slotKey, r)), Advance(c)]);
            && t.store == s.store
            && PcOf(t, c) == Storing((project, slot), Edited(OverrideOf(s.store, project, slot), r))
            && forall b :: b != c ==> PcOf(t, b) == PcOf(s, b)
  {
    hide ParseSlot;
    hide SlotReadable;
    hide Edited;
    hide OverrideOf;
    var s1 := Goto(s, c, Reading((project, slot), r));
    assert Step(s, projects, Ask(c, ToSlot(project, slotKey, r))) == s1;
    RunOnce(s1, projects, Advance(c));
    RunFirst(s, projects, Ask(c, ToSlot(project, slotKey, r)), [Advance(c)]);
  }

  /** A harness is enabled, a slot edit is checked, the harness is disabled, and only then is the
      edit saved. */
  function Overtaken(c: Client, d: Client, enable: GlobalRequest, edit: Request, disable: GlobalRequest): seq<Event> {
    [Ask(c, ToGlobal(enable)), Advance(c), Advance(c)]
    + ([Ask(c, edit), Advance(c)]
       + ([Ask(d, ToGlobal(disable)), Advance(d), Advance(d), Advance(d)] + [Advance(c)]))
  }

  lemma OvertakenStores(s: Server, projects: set<string>, c: Client, d: Client, enable: GlobalRequest,
                        project: string, slotKey: string, slot: Slot, r: SlotRequest, disable: GlobalRequest,
                        wide: Global, narrow: Global, kept: string, cut: string)
    requires c != d && PcOf(s, c).Idle? && PcOf(s, d).Idle?
    requires s.store.overrides == map[] && s.store.global.enabled == [kept] && !Referenced(map[], cut)
    requires GlobalReadable(enable) && wide == Merged(s.store.global, enable) && DefaultOk(wide)
    requires wide.enabled == [kept, cut] && kept in wide.enabled && kept in narrow.enabled
    requires project in projects && ParseSlot(slotKey) == Some(slot) && SlotReadable(wide, slot, r)
    requires GlobalReadable(disable) && narrow == Merged(wide, disable) && DefaultOk(narrow)
    ensures Run(s, projects, Overtaken(c, d, enable, ToSlot(project, slotKey, r), disable)).store ==
            Stored(Store(narrow, map[]), (project, slot), Edited(None, r))
  {
    assert OverrideOf(Store(wide, map[]), project, slot) == None;
    hide *;
    var edit := ToSlot(project, slotKey, r);
    var xs, ys := [Ask(c, ToGlobal(enable)), Advance(c), Advance(c)], [Ask(c, edit), Advance(c)];
    var zs := [Ask(d, ToGlobal(disable)), Advance(d), Advance(d), Advance(d)];
    OvertakenIs(c, d, enable, edit, disable);
    RunParts(s, projects, xs, ys, zs, Advance(c));
    EnableRuns(s, projects, c, enable, wide, kept);
    var s1 := Run(s, projects, xs);
    EditRuns(s1, projects, c, project, slotKey, slot, r);
    var s2 := Run(s1, projects, ys);
    DisableRuns(s2, projects, d, disable, narrow, kept, cut);
    StoreStep(Run(s2, projects, zs), projects, c, (project, slot), Edited(None, r));
  }

  lemma OvertakenIs(c: Client, d: Client, enable: GlobalRequest, edit: Request, disable: GlobalRequest)
    ensures var xs, ys := [Ask(c, ToGlobal(enable)), Advance(c), Advance(c)], [Ask(c, edit), Advance(c)];
            var zs := [Ask(d, ToGlobal(disable)), Advance(d), Advance(d), Advance(d)];
            Overtaken(c, d, enable, edit, disable) == xs + (ys + (zs + [Advance(c)]))
  {
  }

  lemma RunParts(s: Server, projects: set<string>, xs: seq<Event>, ys: seq<Event>, zs: seq<Event>, e: Event)
    ensures Run(s, projects, xs + (ys + (zs + [e])))
            == Step(Run(Run(Run(s, projects, xs), projects, ys), projects, zs), projects, e)
  {
    hide *;
    var s1 := Run(s, projects, xs);
    var s2 := Run(s1, projects, ys);
    RunSplits(s, projects, xs, ys + (zs + [e]));
    RunSplits(s1, projects, ys, zs + [e]);
    RunSplits(s2, projects, zs, [e]);
    RunOnce(Run(s2, projects, zs), projects, e);
  }

  lemma StoreStep(s: Server, projects: set<string>, c: Client, key: Key, x: Setting)
    requires PcOf(s, c) == Storing(key, x)
    ensures Step(s, projects, Advance(c)).store == Stored(s.store, key, x)
  {
    hide Stored;
  }

  const PI_EDIT := SlotRequest(Some(Some(PI)), None, None)

  const ON_PI := Setting(Some(PI), None, None)

  lemma EditReads(g: Global)
    requires g.enabled == [CLAUDE, PI]
    ensures ParseSlot(KeyOf(Implement)) == Some(Implement) && SlotReadable(g, Implement, PI_EDIT)
    ensures Edited(None, PI_EDIT) == ON_PI
  {
    KeysClean();
    ParseInvertsKeys(KeyOf(Implement), Implement);
    hide Clean;
    hide ParseSlot;
    hide KeyOf;
    assert PI in g.enabled;
  }

  lemma StaleStores(projects: set<string>, project: string, c: Client, d: Client, g: Global, wide: Global)
    requires c != d && project in projects && g == Settings.Start().global && wide == g.(enabled := [CLAUDE, PI])
    requires ParseSlot(KeyOf(Implement)) == Some(Implement) && SlotReadable(wide, Implement, PI_EDIT)
    requires Edited(None, PI_EDIT) == ON_PI
    requires GlobalReadable(BOTH) && Merged(g, BOTH) == wide && DefaultOk(wide)
    requires GlobalReadable(CLAUDE_ONLY) && Merged(wide, CLAUDE_ONLY) == g && DefaultOk(g)
    ensures Run(Server(Settings.Start(), map[]), projects,
                Overtaken(c, d, BOTH, ToSlot(project, KeyOf(Implement), PI_EDIT), CLAUDE_ONLY)).store ==
            Stored(Store(g, map[]), (project, Implement), ON_PI)
  {
    hide GlobalReadable;
    hide Merged;
    hide DefaultOk;
    hide SlotReadable;
    hide ParseSlot;
    hide Edited;
    hide Run;
    hide KeyOf;
    hide Overtaken;
    var s := Server(Settings.Start(), map[]);
    assert g.enabled == [CLAUDE] && CLAUDE in g.enabled && CLAUDE in wide.enabled && !Referenced(map[], PI);
    OvertakenStores(s, projects, c, d, BOTH, project, KeyOf(Implement), Implement, PI_EDIT, CLAUDE_ONLY,
                    wide, g, CLAUDE, PI);
  }

  lemma OnPiBreaksOk(g: Global, project: string)
    requires g.enabled == [CLAUDE]
    ensures var t := Stored(Store(g, map[]), (project, Implement), ON_PI);
            !Ok(t) && t.global == g && OverrideOf(t, project, Implement) == Some(ON_PI)
  {
    var t := Stored(Store(g, map[]), (project, Implement), ON_PI);
    assert t.overrides[(project, Implement)] == ON_PI;
    assert CLAUDE[0] != PI[0];
    assert !HarnessFits(g, Implement, PI);
  }

  lemma NotAlwaysOk(projects: set<string>, events: seq<Event>)
    ensures AlwaysOk(projects, events) ==> Ok(After(projects, events).store)
  {
  }

  /** A run in which every request passed its checks and the layers break all the same: Pi is
      enabled, a slot edit names it and is checked, Pi is disabled, and the edit is saved. */
  lemma StaleSaveBreaksOk(projects: set<string>, project: string, c: Client, d: Client)
    requires c != d && project in projects
    ensures var events := Overtaken(c, d, BOTH, ToSlot(project, KeyOf(Implement), PI_EDIT), CLAUDE_ONLY);
            var s := After(projects, events).store;
            && s.global.enabled == [CLAUDE] && OverrideOf(s, project, Implement) == Some(ON_PI)
            && !Ok(s) && !SavesFit(projects, events)
  {
    var g := Settings.Start().global;
    var wide := g.(enabled := [CLAUDE, PI]);
    GlobalChanges(g);
    GlobalChanges(wide);
    EditReads(wide);
    assert g.enabled == [CLAUDE] && wide.(enabled := [CLAUDE]) == g;
    var events := Overtaken(c, d, BOTH, ToSlot(project, KeyOf(Implement), PI_EDIT), CLAUDE_ONLY);
    AfterIsRun(projects, [], events);
    assert After(projects, []) == Server(Settings.Start(), map[]) && [] + events == events;
    var s := Run(Server(Settings.Start(), map[]), projects, events).store;
    OnPiBreaksOk(g, project);
    hide *;
    StaleStores(projects, project, c, d, g, wide);
    AlwaysOkExactly(projects, events);
    NotAlwaysOk(projects, events);
  }

  /** A client with a request under way starts no other. */
  lemma BusyClientWaits(s: Server, projects: set<string>, c: Client, r: Request)
    requires !PcOf(s, c).Idle?
    ensures Step(s, projects, Ask(c, r)) == s
  {
  }
}
