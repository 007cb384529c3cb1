/** Agent settings: the global layer, the per-slot overrides, the two endpoints that each check
    half of what keeps every slot runnable, and the resolution a run reads. */
module Settings {
  import opened Text

  datatype Slot =
    | Breakdown | Implement | Fix | Review | VerifyComplete | Summarize | Triage
    | Grilling | Prototype | Research | AfkTask

  const ALL: seq<Slot> :=
    [Breakdown, Implement, Fix, Review, VerifyComplete, Summarize, Triage, Grilling, Prototype, Research, AfkTask]

  function KeyOf(slot: Slot): string {
    match slot
    case Breakdown => "breakdown"
    case Implement => "implement"
    case Fix => "fix"
    case Review => "review"
    case VerifyComplete => "verify_complete"
    case Summarize => "summarize"
    case Triage => "triage"
    case Grilling => "grilling"
    case Prototype => "prototype"
    case Research => "research"
    case AfkTask => "afk_task"
  }

  lemma AllHasEverySlot(slot: Slot)
    ensures slot in ALL
  {
    assert ALL[0] == Breakdown && ALL[1] == Implement && ALL[2] == Fix && ALL[3] == Review && ALL[4] == VerifyComplete;
    assert ALL[5] == Summarize && ALL[6] == Triage && ALL[7] == Grilling && ALL[8] == Prototype;
    assert ALL[9] == Research && ALL[10] == AfkTask;
  }

  // ---- which harness runs what ----

  const CLAUDE: string := "claude"

  const PI: string := "pi"

  predicate IsSupported(harness: string) { harness == CLAUDE || harness == PI }

  predicate ClaudeOnly(slot: Slot) {
    slot.Breakdown? || slot.Grilling? || slot.Prototype? || slot.Research? || slot.AfkTask?
  }

  predicate SupportsSlot(harness: string, slot: Slot) {
    IsSupported(harness) && (!ClaudeOnly(slot) || harness == CLAUDE)
  }

  // ---- the two layers ----

  datatype Global = Global(defaultHarness: string, defaultModels: map<string, Option<string>>, enabled: seq<string>)

  datatype Setting = Setting(harness: Option<string>, model: Option<string>, prompt: Option<string>)

  type Key = (string, Slot)

  datatype Store = Store(global: Global, overrides: map<Key, Setting>)

  datatype Effective = Effective(harness: string, model: Option<string>, promptOverridden: bool)

  /** `resolve_effective`. */
  function Resolve(global: Global, override: Option<Setting>): Effective {
    var harness :=
      if override.Some? && override.value.harness.Some? then override.value.harness.value else global.defaultHarness;
    var model :=
      if override.Some? && override.value.model.Some? then override.value.model
      else if harness in global.defaultModels then global.defaultModels[harness]
      else None;
    Effective(harness, model, override.Some? && override.value.prompt.Some? && override.value.prompt.value != "")
  }

  function OverrideOf(s: Store, project: string, slot: Slot): Option<Setting> {
    if (project, slot) in s.overrides then Some(s.overrides[(project, slot)]) else None
  }

  // ---- requests ----

  datatype GlobalRequest = GlobalRequest(
    defaultHarness: Option<string>, defaultModels: Option<seq<(string, Option<string>)>>, enabled: Option<seq<string>>)

  /** Absent leaves a facet alone, `None` clears it, a value sets it. */
  datatype SlotRequest = SlotRequest(
    harness: Option<Option<string>>, model: Option<Option<string>>, prompt: Option<Option<string>>)

  datatype Answer = Saved | BadRequest | Conflict | NotFound

  function Clean(value: string): Option<string> { if Trim(value) == "" then None else Some(Trim(value)) }

  predicate AllClean(values: seq<string>) { forall k :: 0 <= k < |values| ==> Clean(values[k]).Some? }

  /** Trimmed, first occurrences only. */
  function CleanList(values: seq<string>, k: nat): seq<string>
    requires k <= |values| && AllClean(values)
  {
    if k == 0 then []
    else
      var done, next := CleanList(values, k - 1), Clean(values[k - 1]).value;
      if next in done then done else done + [next]
  }

  /** The cleaned list holds each trimmed value once, and nothing else. */
  lemma {:induction false} CleanListIs(values: seq<string>, k: nat)
    requires k <= |values| && AllClean(values)
    ensures var xs := CleanList(values, k);
            && (forall i, j :: 0 <= i < j < |xs| ==> xs[i] != xs[j])
            && (forall x :: x in xs <==> exists j :: 0 <= j < k && Clean(values[j]) == Some(x))
  {
    hide Clean;
    if k > 0 {
      CleanListIs(values, k - 1);
      var done, next := CleanList(values, k - 1), Clean(values[k - 1]).value;
      var xs := CleanList(values, k);
      hide CleanList;
      forall x ensures x in xs <==> exists j :: 0 <= j < k && Clean(values[j]) == Some(x) {
        if x in done { var j :| 0 <= j < k - 1 && Clean(values[j]) == Some(x); }
        if j :| 0 <= j < k && Clean(values[j]) == Some(x) { assert j < k - 1 ==> x in done; }
        if x == next { assert Clean(values[k - 1]) == Some(x); }
      }
    }
  }

  predicate CleanModel(entry: (string, Option<string>)) {
    Clean(entry.0).Some? && (entry.1.Some? ==> Clean(entry.1.value).Some?)
  }

  /** Trimmed, a later entry replacing an earlier one of the same trimmed key. */
  function CleanModels(entries: seq<(string, Option<string>)>, k: nat): map<string, Option<string>>
    requires k <= |entries| && forall j :: 0 <= j < |entries| ==> CleanModel(entries[j])
  {
    if k == 0 then map[]
    else
      var entry := entries[k - 1];
      CleanModels(entries, k - 1)[Clean(entry.0).value := if entry.1.Some? then Clean(entry.1.value) else None]
  }

  predicate GlobalReadable(r: GlobalRequest) {
    && (r.defaultHarness.Some? ==> Clean(r.defaultHarness.value).Some?)
    && (r.defaultModels.Some? ==> forall j :: 0 <= j < |r.defaultModels.value| ==> CleanModel(r.defaultModels.value[j]))
    && (r.enabled.Some? ==> AllClean(r.enabled.value) && r.enabled.value != [])
  }

  function Merged(previous: Global, r: GlobalRequest): Global
    requires GlobalReadable(r)
  {
    Global(
      if r.defaultHarness.Some? then Clean(r.defaultHarness.value).value else previous.defaultHarness,
      if r.defaultModels.Some? then CleanModels(r.defaultModels.value, |r.defaultModels.value|)
      else previous.defaultModels,
      if r.enabled.Some? then CleanList(r.enabled.value, |r.enabled.value|) else previous.enabled)
  }

  /** The default is enabled and, if Dearborn can spawn it, runs every slot. */
  predicate DefaultOk(g: Global) {
    && g.defaultHarness in g.enabled
    && (IsSupported(g.defaultHarness) ==> forall slot :: SupportsSlot(g.defaultHarness, slot))
  }

  /** Some slot's override names the harness. */
  predicate Referenced(overrides: map<Key, Setting>, harness: string) {
    exists key :: key in overrides && overrides[key].harness == Some(harness)
  }

  predicate DisablesReferenced(s: Store, merged: Global) {
    exists harness :: harness in s.global.enabled && harness !in merged.enabled && Referenced(s.overrides, harness)
  }

  function PutGlobal(s: Store, r: GlobalRequest): (Answer, Store) {
    if !GlobalReadable(r) then (BadRequest, s)
    else
      var merged := Merged(s.global, r);
      if !DefaultOk(merged) then (BadRequest, s)
      else if DisablesReferenced(s, merged) then (Conflict, s)
      else (Saved, s.(global := merged))
  }

  predicate HarnessFits(global: Global, slot: Slot, harness: string) {
    harness in global.enabled && (IsSupported(harness) ==> SupportsSlot(harness, slot))
  }

  predicate SlotReadable(global: Global, slot: Slot, r: SlotRequest) {
    && (r.harness.Some? && r.harness.value.Some? ==>
          Clean(r.harness.value.value).Some? && HarnessFits(global, slot, Clean(r.harness.value.value).value))
    && (r.model.Some? && r.model.value.Some? ==> Clean(r.model.value.value).Some?)
  }

  /** A facet after a request: kept, cleared, or the trimmed value, a blank one clearing it. */
  function Facet(stored: Option<string>, request: Option<Option<string>>): Option<string> {
    if request.None? then stored else if request.value.None? then None else Clean(request.value.value)
  }

  function Edited(stored: Option<Setting>, r: SlotRequest): Setting {
    var base := if stored.Some? then stored.value else Setting(None, None, None);
    Setting(Facet(base.harness, r.harness), Facet(base.model, r.model), Facet(base.prompt, r.prompt))
  }

  function Stored(s: Store, key: Key, setting: Setting): Store {
    if setting == Setting(None, None, None) then s.(overrides := s.overrides - {key})
    else s.(overrides := s.overrides[key := setting])
  }

  function PutSlot(s: Store, projects: set<string>, project: string, slotKey: string, r: SlotRequest): (Answer, Store) {
    var slot := ParseSlot(slotKey);
    if slot.None? || project !in projects then (NotFound, s)
    else if !SlotReadable(s.global, slot.value, r) then (BadRequest, s)
    else (Saved, Stored(s, (project, slot.value), Edited(OverrideOf(s, project, slot.value), r)))
  }

  // ---- slot keys ----

  /** `AgentSlot::parse`: the first slot whose key it is. */
  function ParseSlotFrom(key: string, k: nat): Option<Slot>
    requires k <= |ALL|
    decreases |ALL| - k
  {
    if k == |ALL| then None else if KeyOf(ALL[k]) == key then Some(ALL[k]) else ParseSlotFrom(key, k + 1)
  }

  function ParseSlot(key: string): Option<Slot> { ParseSlotFrom(key, 0) }

  lemma KeysDiffer(a: Slot, b: Slot)
    requires KeyOf(a) == KeyOf(b)
    ensures a == b
  {
  }

  lemma {:induction false} ParseFromIs(slot: Slot, k: nat, j: nat)
    requires k <= j < |ALL| && ALL[j] == slot
    ensures ParseSlotFrom(KeyOf(slot), k) == Some(slot)
    decreases j - k
  {
    hide KeyOf;
    if KeyOf(ALL[k]) == KeyOf(slot) {
      KeysDiffer(ALL[k], slot);
    } else {
      ParseFromIs(slot, k + 1, j);
    }
  }

  lemma {:induction false} ParseFromSound(key: string, k: nat)
    requires k <= |ALL|
    ensures ParseSlotFrom(key, k).Some? ==> KeyOf(ParseSlotFrom(key, k).value) == key
    decreases |ALL| - k
  {
    hide KeyOf;
    if k < |ALL| && KeyOf(ALL[k]) != key { ParseFromSound(key, k + 1); }
  }

  /** Parsing inverts the keys, and accepts nothing else. */
  lemma ParseInvertsKeys(key: string, slot: Slot)
    ensures ParseSlot(key) == Some(slot) <==> key == KeyOf(slot)
  {
    AllHasEverySlot(slot);
    hide KeyOf;
    var j :| 0 <= j < |ALL| && ALL[j] == slot;
    ParseFromIs(slot, 0, j);
    ParseFromSound(key, 0);
    hide ParseSlotFrom;
  }

  /** The names of the slots, in the order of `ALL`. */
  const NAMES: seq<string> := [
    "breakdown", "implement", "fix", "review", "verify_complete", "summarize", "triage", "grilling", "prototype",
    "research", "afk_task"]

  lemma NameIsKey(k: nat)
    requires k < |NAMES|
    ensures |NAMES| == |ALL| && NAMES[k] == KeyOf(ALL[k])
  {
  }

  lemma NameParses(k: nat)
    requires k < |NAMES|
    ensures |NAMES| == |ALL| && ParseSlot(NAMES[k]) == Some(ALL[k])
  {
    hide *;
    NameIsKey(k);
    ParseInvertsKeys(NAMES[k], ALL[k]);
  }

  // ---- the endpoints ----

  class SettingsStore {
    var global: Global
    var overrides: map<Key, Setting>
    var projects: set<string>

    function View(): Store
      reads this
    {
      Store(global, overrides)
    }

    /** The state without a settings row: Claude only, no models. */
    constructor (known: set<string>)
      ensures View() == Start() && projects == known
    {
      global, overrides, projects := Global(CLAUDE, map[CLAUDE := None], [CLAUDE]), map[], known;
    }

    method CleanAll(values: seq<string>) returns (ok: bool, cleaned: seq<string>)
      ensures ok == AllClean(values)
      ensures ok ==> cleaned == CleanList(values, |values|)
    {
      hide Clean;
      cleaned := [];
      for k := 0 to |values|
        invariant AllClean(values[..k])
        invariant forall j :: 0 <= j < k ==> Clean(values[j]).Some?
        invariant AllClean(values) ==> cleaned == CleanList(values, k)
      {
        var key := Clean(values[k]);
        if key.None? {
          return false, [];
        }
        if key.value !in cleaned {
          cleaned := cleaned + [key.value];
        }
      }
      ok := true;
    }

    method CleanMap(entries: seq<(string, Option<string>)>) returns (ok: bool, cleaned: map<string, Option<string>>)
      ensures ok <==> forall j :: 0 <= j < |entries| ==> CleanModel(entries[j])
      ensures ok ==> cleaned == CleanModels(entries, |entries|)
    {
      hide Clean;
      cleaned := map[];
      for k := 0 to |entries|
        invariant forall j :: 0 <= j < k ==> CleanModel(entries[j])
        invariant (forall j :: 0 <= j < |entries| ==> CleanModel(entries[j])) ==> cleaned == CleanModels(entries, k)
      {
        var (harness, model) := entries[k];
        var key := Clean(harness);
        if key.None? {
          return false, map[];
        }
        var value: Option<string> := None;
        if model.Some? {
          value := Clean(model.value);
          if value.None? {
            return false, map[];
          }
        }
        cleaned := cleaned[key.value := value];
      }
      ok := true;
    }

    /** The first slot the harness cannot run, if any. */
    method RunsEverySlot(harness: string) returns (all: bool)
      ensures all <==> forall slot :: SupportsSlot(harness, slot)
    {
      hide SupportsSlot;
      for k := 0 to |ALL|
        invariant forall j :: 0 <= j < k ==> SupportsSlot(harness, ALL[j])
      {
        if !SupportsSlot(harness, ALL[k]) {
          return false;
        }
      }
      forall slot ensures SupportsSlot(harness, slot) {
        AllHasEverySlot(slot);
      }
      return true;
    }

    /** `put_settings`. */
    method PutSettings(r: GlobalRequest) returns (answer: Answer)
      modifies this
      ensures (answer, View()) == PutGlobal(old(View()), r) && projects == old(projects)
    {
      hide Clean;
      hide AllClean;
      hide CleanList;
      hide CleanModels;
      hide CleanModel;
      hide SupportsSlot;
      var merged := global;
      if r.defaultHarness.Some? {
        var key := Clean(r.defaultHarness.value);
        if key.None? {
          return BadRequest;
        }
        merged := merged.(defaultHarness := key.value);
      }
      if r.defaultModels.Some? {
        var ok, cleaned := CleanMap(r.defaultModels.value);
        if !ok {
          return BadRequest;
        }
        merged := merged.(defaultModels := cleaned);
      }
      if r.enabled.Some? {
        var ok, cleaned := CleanAll(r.enabled.value);
        if !ok {
          return BadRequest;
        }
        CleanListEmpty(r.enabled.value, |r.enabled.value|);
        if cleaned == [] {
          return BadRequest;
        }
        merged := merged.(enabled := cleaned);
      }
      assert GlobalReadable(r) && merged == Merged(global, r);
      if merged.defaultHarness !in merged.enabled {
        return BadRequest;
      }
      if IsSupported(merged.defaultHarness) {
        var all := RunsEverySlot(merged.defaultHarness);
        if !all {
          return BadRequest;
        }
      }
      assert DefaultOk(merged);
      hide Merged;
      hide GlobalReadable;
      hide DefaultOk;
      hide Referenced;
      for k := 0 to |global.enabled|
        invariant View() == old(View()) && projects == old(projects)
        invariant forall j :: 0 <= j < k && global.enabled[j] !in merged.enabled ==>
                    !Referenced(overrides, global.enabled[j])
      {
        if global.enabled[k] !in merged.enabled {
          if Referenced(overrides, global.enabled[k]) {
            assert DisablesReferenced(View(), merged);
            return Conflict;
          }
        }
      }
      assert !DisablesReferenced(View(), merged);
      global := merged;
      return Saved;
    }

    /** `put_agent_setting`. */
    method PutAgentSetting(project: string, slotKey: string, r: SlotRequest) returns (answer: Answer)
      modifies this
      ensures (answer, View()) == PutSlot(old(View()), old(projects), project, slotKey, r) && projects == old(projects)
    {
      hide Clean;
      hide ParseSlotFrom;
      hide SupportsSlot;
      hide IsSupported;
      var slot := ParseSlot(slotKey);
      if slot.None? || project !in projects {
        return NotFound;
      }
      var key := (project, slot.value);
      var setting := if key in overrides then overrides[key] else Setting(None, None, None);
      if r.harness.Some? {
        if r.harness.value.None? {
          setting := setting.(harness := None);
        } else {
          var cleaned := Clean(r.harness.value.value);
          if cleaned.None? || cleaned.value !in global.enabled {
            return BadRequest;
          }
          if IsSupported(cleaned.value) && !SupportsSlot(cleaned.value, slot.value) {
            return BadRequest;
          }
          setting := setting.(harness := cleaned);
        }
      }
      if r.model.Some? {
        if r.model.value.None? {
          setting := setting.(model := None);
        } else {
          var cleaned := Clean(r.model.value.value);
          if cleaned.None? {
            return BadRequest;
          }
          setting := setting.(model := cleaned);
        }
      }
      if r.prompt.Some? {
        setting := setting.(prompt := if r.prompt.value.None? then None else Clean(r.prompt.value.value));
      }
      if setting.harness.None? && setting.model.None? && setting.prompt.None? {
        overrides := overrides - {key};
      } else {
        overrides := overrides[key := setting];
      }
      return Saved;
    }
  }

  lemma {:induction false} CleanListEmpty(values: seq<string>, k: nat)
    requires k <= |values| && AllClean(values)
    ensures CleanList(values, k) == [] <==> k == 0
  {
    if k > 0 {
      CleanListEmpty(values, k - 1);
      hide Clean;
    }
  }

  function Start(): Store { Store(Global(CLAUDE, map[CLAUDE := None], [CLAUDE]), map[]) }

  // ---- the invariant the two endpoints keep together ----

  /** A stored facet is trimmed and not blank. */
  predicate FacetOk(facet: Option<string>) { facet.Some? ==> facet.value != "" && Trimmed(facet.value) }

  predicate OverrideOk(global: Global, slot: Slot, setting: Setting) {
    && setting != Setting(None, None, None)
    && (setting.harness.Some? ==> HarnessFits(global, slot, setting.harness.value))
    && FacetOk(setting.harness) && FacetOk(setting.model) && FacetOk(setting.prompt)
  }

  predicate Ok(s: Store) {
    && DefaultOk(s.global)
    && forall key :: key in s.overrides ==> OverrideOk(s.global, key.1, s.overrides[key])
  }

  lemma CleanIsOk(value: string)
    ensures FacetOk(Clean(value))
  {
    TrimTrimmed(value);
    hide Trim;
  }

  lemma PutGlobalKeepsOk(s: Store, r: GlobalRequest)
    requires Ok(s)
    ensures Ok(PutGlobal(s, r).1)
  {
    hide Merged;
    hide GlobalReadable;
    hide DefaultOk;
    hide FacetOk;
    hide IsSupported;
    hide SupportsSlot;
    if PutGlobal(s, r).0.Saved? {
      var merged := Merged(s.global, r);
      forall key | key in s.overrides ensures OverrideOk(merged, key.1, s.overrides[key]) {
        assert OverrideOk(s.global, key.1, s.overrides[key]);
        var harness := s.overrides[key].harness;
        if harness.Some? { assert Referenced(s.overrides, harness.value); }
      }
    }
  }

  lemma PutSlotKeepsOk(s: Store, projects: set<string>, project: string, slotKey: string, r: SlotRequest)
    requires Ok(s)
    ensures Ok(PutSlot(s, projects, project, slotKey, r).1)
  {
    hide ParseSlotFrom;
    hide DefaultOk;
    var slot := ParseSlot(slotKey);
    if PutSlot(s, projects, project, slotKey, r).0.Saved? {
      EditedOk(s, project, slot.value, r);
      hide Edited;
      hide OverrideOk;
      hide SlotReadable;
    }
  }

  lemma FacetEdited(stored: Option<string>, request: Option<Option<string>>)
    requires FacetOk(stored)
    ensures FacetOk(Facet(stored, request))
  {
    if request.Some? && request.value.Some? { CleanIsOk(request.value.value); }
    hide Clean;
    hide Trimmed;
  }

  /** What a readable request edits: the stored facets, or none, all in order. */
  predicate BaseOk(global: Global, slot: Slot, base: Setting) {
    && (base.harness.Some? ==> HarnessFits(global, slot, base.harness.value))
    && FacetOk(base.harness) && FacetOk(base.model) && FacetOk(base.prompt)
  }

  lemma EditedOk(s: Store, project: string, slot: Slot, r: SlotRequest)
    requires Ok(s) && SlotReadable(s.global, slot, r)
    ensures var setting := Edited(OverrideOf(s, project, slot), r);
            setting != Setting(None, None, None) ==> OverrideOk(s.global, slot, setting)
  {
    hide DefaultOk;
    hide HarnessFits;
    hide SlotReadable;
    hide Trimmed;
    hide Clean;
    var stored := OverrideOf(s, project, slot);
    var base := if stored.Some? then stored.value else Setting(None, None, None);
    assert (project, slot) in s.overrides ==> OverrideOk(s.global, slot, s.overrides[(project, slot)]);
    assert BaseOk(s.global, slot, base);
    hide FacetOk;
    hide Facet;
    BaseEditedOk(s.global, slot, base, r);
    hide BaseOk;
  }

  lemma BaseEditedOk(global: Global, slot: Slot, base: Setting, r: SlotRequest)
    requires BaseOk(global, slot, base) && SlotReadable(global, slot, r)
    ensures var harness := Facet(base.harness, r.harness);
            && (harness.Some? ==> HarnessFits(global, slot, harness.value))
            && FacetOk(harness) && FacetOk(Facet(base.model, r.model)) && FacetOk(Facet(base.prompt, r.prompt))
  {
    hide HarnessFits;
    hide FacetOk;
    hide Clean;
    FacetEdited(base.harness, r.harness);
    FacetEdited(base.model, r.model);
    FacetEdited(base.prompt, r.prompt);
  }

  datatype Request = ToGlobal(global: GlobalRequest) | ToSlot(project: string, slotKey: string, slot: SlotRequest)

  function Apply(s: Store, projects: set<string>, r: Request): Store {
    match r
    case ToGlobal(global) => PutGlobal(s, global).1
    case ToSlot(project, slotKey, slot) => PutSlot(s, projects, project, slotKey, slot).1
  }

  function After(projects: set<string>, rs: seq<Request>): Store {
    if rs == [] then Start() else Apply(After(projects, rs[..|rs| - 1]), projects, rs[|rs| - 1])
  }

  lemma {:induction false} RunKeepsOk(projects: set<string>, rs: seq<Request>)
    ensures Ok(After(projects, rs))
  {
    if rs == [] {
      assert DefaultOk(Start().global);
    } else {
      hide Ok;
      hide PutGlobal;
      hide PutSlot;
      var before := After(projects, rs[..|rs| - 1]);
      RunKeepsOk(projects, rs[..|rs| - 1]);
      match rs[|rs| - 1]
      case ToGlobal(global) =>
        PutGlobalKeepsOk(before, global);
      case ToSlot(project, slotKey, slot) =>
        PutSlotKeepsOk(before, projects, project, slotKey, slot);
    }
  }

  // ---- what the endpoints accept ----

  /** The slots that run on either harness; the others plan, and run on Claude only. */
  const WORKERS: set<Slot> := {Implement, Fix, Review, VerifyComplete, Summarize, Triage}

  lemma RunsOn(harness: string, slot: Slot)
    ensures SupportsSlot(harness, slot) <==> harness == "claude" || (harness == "pi" && slot in WORKERS)
    ensures IsSupported(harness) <==> harness == "claude" || harness == "pi"
  {
    assert "claude"[0] != "pi"[0];
  }

  predicate Blank(value: string) { Trim(value) == "" }

  /** A harness may be set on a slot when it is enabled and, being `pi`, only on a worker slot; one
      that Dearborn cannot spawn may be set anywhere. */
  predicate Settable(global: Global, slot: Slot, harness: string) {
    harness in global.enabled && (harness == "pi" ==> slot in WORKERS)
  }

  /** A slot change is saved exactly when slot and project exist, a harness given is not blank and
      may be set on the slot, and a model given is not blank; else nothing is written. */
  lemma SlotSavedExactly(s: Store, projects: set<string>, project: string, k: nat, r: SlotRequest)
    requires k < |NAMES| && |NAMES| == |ALL|
    ensures var (answer, t) := PutSlot(s, projects, project, NAMES[k], r);
            && (answer == NotFound <==> project !in projects)
            && (answer == Saved <==>
                  && project in projects
                  && (r.harness.Some? && r.harness.value.Some? ==>
                        !Blank(r.harness.value.value) && Settable(s.global, ALL[k], Trim(r.harness.value.value)))
                  && (r.model.Some? && r.model.value.Some? ==> !Blank(r.model.value.value)))
            && (answer == Saved || answer == NotFound || answer == BadRequest) && (answer != Saved ==> t == s)
            && t.global == s.global
  {
    NameParses(k);
    if r.harness.Some? && r.harness.value.Some? { RunsOn(Trim(r.harness.value.value), ALL[k]); }
    hide ParseSlot;
    hide SupportsSlot;
    hide IsSupported;
    hide Trim;
    hide Edited;
  }

  lemma UnknownSlotRefused(s: Store, projects: set<string>, project: string, slotKey: string, r: SlotRequest)
    requires slotKey !in NAMES
    ensures PutSlot(s, projects, project, slotKey, r) == (NotFound, s)
  {
    var slot := ParseSlot(slotKey);
    if slot.Some? {
      AllHasEverySlot(slot.value);
      var k :| 0 <= k < |ALL| && ALL[k] == slot.value;
      assert |NAMES| == |ALL|;
      NameParses(k);
      ParseInvertsKeys(NAMES[k], slot.value);
      ParseInvertsKeys(slotKey, slot.value);
      assert false;
    }
    hide ParseSlot;
  }

  /** What a global change says, blank nowhere. */
  predicate Says(r: GlobalRequest) {
    && (r.defaultHarness.Some? ==> !Blank(r.defaultHarness.value))
    && (r.enabled.Some? ==> r.enabled.value != [])
    && (r.enabled.Some? ==>
          forall k :: 0 <= k < |r.enabled.value| ==> !Blank(r.enabled.value[k]))
    && (r.defaultModels.Some? ==>
          forall k :: 0 <= k < |r.defaultModels.value| ==> SaysModel(r.defaultModels.value[k]))
  }

  predicate SaysModel(entry: (string, Option<string>)) {
    !Blank(entry.0) && (entry.1.Some? ==> !Blank(entry.1.value))
  }

  predicate EnabledAfter(previous: Global, r: GlobalRequest, harness: string) {
    if r.enabled.None? then harness in previous.enabled
    else exists k :: 0 <= k < |r.enabled.value| && Trim(r.enabled.value[k]) == harness
  }

  function DefaultAfter(previous: Global, r: GlobalRequest): string {
    if r.defaultHarness.Some? then Trim(r.defaultHarness.value) else previous.defaultHarness
  }

  lemma CleanIs(value: string)
    ensures Clean(value) == if Blank(value) then None else Some(Trim(value))
  {
    hide Trim;
  }

  lemma SaysReadable(r: GlobalRequest)
    ensures Says(r) <==> GlobalReadable(r)
  {
    hide Trim;
  }

  lemma {:induction false} CleanedEnabled(previous: Global, r: GlobalRequest, harness: string)
    requires GlobalReadable(r)
    ensures harness in Merged(previous, r).enabled <==> EnabledAfter(previous, r, harness)
    ensures Merged(previous, r).defaultHarness == DefaultAfter(previous, r)
  {
    if r.enabled.Some? {
      CleanListIs(r.enabled.value, |r.enabled.value|);
      var values := r.enabled.value;
      if k :| 0 <= k < |values| && Trim(values[k]) == harness { assert Clean(values[k]) == Some(harness); }
    }
    hide CleanList;
    hide CleanModels;
    hide Trim;
  }

  /** A global change is saved exactly when nothing in it is blank, the default it leaves is enabled
      and is not `pi`, which cannot plan, and every harness it disables is named by no slot. */
  lemma GlobalSavedExactly(s: Store, r: GlobalRequest)
    ensures var (answer, t) := PutGlobal(s, r);
            && (answer == Saved <==>
                  && Says(r) && DefaultAfter(s.global, r) != "pi"
                  && EnabledAfter(s.global, r, DefaultAfter(s.global, r))
                  && forall key :: key in s.overrides && s.overrides[key].harness.Some?
                                   && s.overrides[key].harness.value in s.global.enabled ==>
                       EnabledAfter(s.global, r, s.overrides[key].harness.value))
            && (answer == Conflict ==> Says(r)) && (answer != Saved ==> t == s) && t.overrides == s.overrides
  {
    SaysReadable(r);
    if GlobalReadable(r) {
      var merged := Merged(s.global, r);
      forall harness ensures harness in merged.enabled <==> EnabledAfter(s.global, r, harness) {
        CleanedEnabled(s.global, r, harness);
      }
      CleanedEnabled(s.global, r, "");
      DefaultRunsAll(merged);
      hide Merged;
      hide EnabledAfter;
      hide DefaultAfter;
      DisablesNamed(s, merged);
    }
    hide GlobalReadable;
    hide DefaultOk;
    hide DisablesReferenced;
    hide Says;
  }

  lemma DefaultRunsAll(g: Global)
    ensures DefaultOk(g) <==> g.defaultHarness in g.enabled && g.defaultHarness != "pi"
  {
    forall slot ensures SupportsSlot(g.defaultHarness, slot) <==>
                          g.defaultHarness == "claude" || (g.defaultHarness == "pi" && slot in WORKERS)
    {
      RunsOn(g.defaultHarness, slot);
    }
    RunsOn(g.defaultHarness, Breakdown);
    hide SupportsSlot;
    hide IsSupported;
  }

  lemma DisablesNamed(s: Store, merged: Global)
    ensures !DisablesReferenced(s, merged) <==>
              forall key :: key in s.overrides && s.overrides[key].harness.Some?
                            && s.overrides[key].harness.value in s.global.enabled ==>
                s.overrides[key].harness.value in merged.enabled
  {
    if DisablesReferenced(s, merged) {
      var harness :| harness in s.global.enabled && harness !in merged.enabled && Referenced(s.overrides, harness);
      var key :| key in s.overrides && s.overrides[key].harness == Some(harness);
    }
    if key :| key in s.overrides && s.overrides[key].harness.Some?
              && s.overrides[key].harness.value in s.global.enabled
              && s.overrides[key].harness.value !in merged.enabled
    {
      assert Referenced(s.overrides, s.overrides[key].harness.value);
    }
  }

  predicate SameEntry(a: map<string, Option<string>>, b: map<string, Option<string>>, harness: string) {
    (harness in a <==> harness in b) && (harness in a ==> a[harness] == b[harness])
  }

  /** No other harness's default model matters: a slot's model is its own or the one entered for
      the harness it resolves to. */
  lemma ModelFollowsHarness(global: Global, models: map<string, Option<string>>, override: Option<Setting>)
    requires SameEntry(models, global.defaultModels, Resolve(global, override).harness)
    ensures Resolve(global.(defaultModels := models), override) == Resolve(global, override)
  {
  }

  /** After any requests, every slot of every project resolves to an enabled harness, one that
      runs the slot whenever Dearborn has an adapter for it: the one its override names, or else the
      default. */
  lemma EverySlotResolves(projects: set<string>, rs: seq<Request>, project: string, slot: Slot)
    ensures var s := After(projects, rs);
            var override := OverrideOf(s, project, slot);
            var effective := Resolve(s.global, override);
            && HarnessFits(s.global, slot, effective.harness)
            && (override.Some? && override.value.harness.Some? ==> Some(effective.harness) == override.value.harness)
            && (override.None? || override.value.harness.None? ==> effective.harness == s.global.defaultHarness)
            && (override.Some? && override.value.model.Some? ==> effective.model == override.value.model)
            && (override.Some? ==> override.value != Setting(None, None, None))
            && (effective.promptOverridden <==> override.Some? && override.value.prompt.Some?)
  {
    RunKeepsOk(projects, rs);
    hide After;
    hide SupportsSlot;
    hide IsSupported;
    var s := After(projects, rs);
    if (project, slot) in s.overrides { assert OverrideOk(s.global, slot, s.overrides[(project, slot)]); }
  }

  // ---- what a saved change means for a run ----

  /** An override's harness decides, else the default; an override's model, else the one entered for
      the harness so decided, else none. */
  lemma OverrideDecides(global: Global, harness: Option<string>, model: Option<string>, prompt: Option<string>)
    ensures var e := Resolve(global, Some(Setting(harness, model, prompt)));
            && e.harness == (match harness case Some(h) => h case None => global.defaultHarness)
            && (model.Some? ==> e.model == model)
            && (model.None? && e.harness in global.defaultModels ==> e.model == global.defaultModels[e.harness])
            && (model.None? && e.harness !in global.defaultModels ==> e.model == None)
            && Resolve(global, None) == Resolve(global, Some(Setting(None, None, None)))
  {
  }

  /** A facet of a slot change: absent keeps, null and blank clear, a value is stored trimmed. */
  lemma EditedFacets(stored: Option<Setting>, r: SlotRequest)
    ensures var base := if stored.Some? then stored.value else Setting(None, None, None);
            var edited := Edited(stored, r);
            && (r.harness.None? ==> edited.harness == base.harness)
            && (r.harness == Some(None) ==> edited.harness == None)
            && (r.model.None? ==> edited.model == base.model) && (r.model == Some(None) ==> edited.model == None)
            && (r.prompt.None? ==> edited.prompt == base.prompt) && (r.prompt == Some(None) ==> edited.prompt == None)
    ensures forall value :: r.harness == Some(Some(value)) && !Blank(value) ==>
              Edited(stored, r).harness == Some(Trim(value))
    ensures forall value :: r.model == Some(Some(value)) && !Blank(value) ==>
              Edited(stored, r).model == Some(Trim(value))
    ensures forall value :: r.prompt == Some(Some(value)) ==>
              Edited(stored, r).prompt == if Blank(value) then None else Some(Trim(value))
  {
    hide Trim;
  }

  /** What the slot runs with is what its stored facets say, a row of nulls being no row. */
  lemma StoredResolves(s: Store, project: string, slot: Slot, setting: Setting)
    ensures var t := Stored(s, (project, slot), setting);
            Resolve(t.global, OverrideOf(t, project, slot)) == Resolve(s.global, Some(setting))
  {
  }

  /** After a saved change a slot runs with the trimmed values it named; a facet set to null falls
      back to the global layer, and one left out stays as it was, but for a model that was the old
      harness's default. */
  lemma SavedSlotResolves(s: Store, projects: set<string>, project: string, k: nat, r: SlotRequest)
    requires k < |NAMES| && |NAMES| == |ALL| && PutSlot(s, projects, project, NAMES[k], r).0 == Saved
    ensures var t := PutSlot(s, projects, project, NAMES[k], r).1;
            var before := Resolve(s.global, OverrideOf(s, project, ALL[k]));
            var after := Resolve(t.global, OverrideOf(t, project, ALL[k]));
            var own := OverrideOf(s, project, ALL[k]);
            && after.harness == (match r.harness
                                 case Some(Some(value)) => Trim(value)
                                 case Some(None) => s.global.defaultHarness
                                 case None => before.harness)
            && (match r.model
                case Some(Some(value)) => after.model == Some(Trim(value))
                case Some(None) => after.model == DefaultModel(s.global, after.harness)
                case None =>
                  after.model == if own.Some? && own.value.model.Some? then own.value.model
                                 else DefaultModel(s.global, after.harness))
            && after.promptOverridden == (match r.prompt
                                          case Some(Some(value)) => !Blank(value)
                                          case Some(None) => false
                                          case None => before.promptOverridden)
  {
    SlotSavedExactly(s, projects, project, k, r);
    NameParses(k);
    var own := OverrideOf(s, project, ALL[k]);
    EditedFacets(own, r);
    StoredResolves(s, project, ALL[k], Edited(own, r));
    if r.prompt.Some? && r.prompt.value.Some? { BlankIs(r.prompt.value.value); }
    hide ParseSlot;
    hide SlotReadable;
    hide Edited;
    hide Stored;
    hide OverrideOf;
    hide Blank;
    hide Trim;
  }

  lemma BlankIs(value: string)
    ensures Blank(value) <==> Trim(value) == ""
  {
  }

  /** The entry of the harness, none when it has no entry. */
  function DefaultModel(global: Global, harness: string): Option<string> {
    if harness in global.defaultModels then global.defaultModels[harness] else None
  }

  /** Every other slot runs as before. */
  lemma OtherSlotsResolve(s: Store, projects: set<string>, project: string, slotKey: string, r: SlotRequest,
                          other: string, slot: Slot)
    requires project != other || slotKey != KeyOf(slot)
    ensures var t := PutSlot(s, projects, project, slotKey, r).1;
            t.global == s.global && OverrideOf(t, other, slot) == OverrideOf(s, other, slot)
  {
    ParseInvertsKeys(slotKey, slot);
    hide ParseSlot;
    hide KeyOf;
    hide SlotReadable;
    hide Edited;
  }

  predicate Touches(r: Request, project: string, slot: Slot) {
    r.ToSlot? && r.project == project && r.slotKey == KeyOf(slot)
  }

  /** After any requests, a slot that none of them named runs with the default harness and the model
      entered for it. */
  lemma {:induction false} UntouchedSlotResolves(projects: set<string>, rs: seq<Request>, project: string, slot: Slot)
    requires forall k :: 0 <= k < |rs| ==> !Touches(rs[k], project, slot)
    ensures var s := After(projects, rs);
            && OverrideOf(s, project, slot) == None
            && Resolve(s.global, OverrideOf(s, project, slot))
               == Effective(s.global.defaultHarness, DefaultModel(s.global, s.global.defaultHarness), false)
  {
    if rs != [] {
      var before, last := rs[..|rs| - 1], rs[|rs| - 1];
      UntouchedSlotResolves(projects, before, project, slot);
      assert !Touches(last, project, slot);
      if last.ToSlot? {
        OtherSlotsResolve(After(projects, before), projects, last.project, last.slotKey, last.slot, project, slot);
      } else {
        GlobalSavedExactly(After(projects, before), last.global);
      }
      hide PutSlot;
      hide PutGlobal;
      hide KeyOf;
      hide Says;
      hide EnabledAfter;
      hide DefaultAfter;
    }
  }

  // ---- the entered models ----

  /** Entry `j` is the last of its trimmed key among the first `k`. */
  predicate LastEntry(entries: seq<(string, Option<string>)>, k: nat, harness: string, j: int) {
    && 0 <= j < k <= |entries| && Trim(entries[j].0) == harness
    && forall i :: j < i < k ==> Trim(entries[i].0) != harness
  }

  lemma {:induction false} EntryPresent(entries: seq<(string, Option<string>)>, k: nat, harness: string)
    requires k <= |entries| && forall j :: 0 <= j < |entries| ==> CleanModel(entries[j])
    ensures harness in CleanModels(entries, k) <==> exists j :: 0 <= j < k && Trim(entries[j].0) == harness
  {
    hide Trim;
    if k > 0 {
      EntryPresent(entries, k - 1, harness);
      assert CleanModel(entries[k - 1]);
    }
  }

  lemma {:induction false} LastEntryCounts(entries: seq<(string, Option<string>)>, k: nat, harness: string, j: int)
    requires k <= |entries| && forall i :: 0 <= i < |entries| ==> CleanModel(entries[i])
    requires LastEntry(entries, k, harness, j)
    ensures harness in CleanModels(entries, k)
    ensures CleanModels(entries, k)[harness]
            == (match entries[j].1 case Some(value) => Some(Trim(value)) case None => None)
  {
    hide Trim;
    assert CleanModel(entries[k - 1]);
    if j < k - 1 { LastEntryCounts(entries, k - 1, harness, j); }
  }

  /** Of the entries for a harness, by its trimmed key, the last counts, with its model trimmed. */
  lemma {:induction false} CleanModelsIs(entries: seq<(string, Option<string>)>, k: nat, harness: string)
    requires k <= |entries| && forall j :: 0 <= j < |entries| ==> CleanModel(entries[j])
    ensures var models := CleanModels(entries, k);
            && (harness in models <==> exists j :: 0 <= j < k && Trim(entries[j].0) == harness)
            && forall j :: LastEntry(entries, k, harness, j) ==>
                 harness in models
                 && models[harness] == (match entries[j].1 case Some(value) => Some(Trim(value)) case None => None)
  {
    EntryPresent(entries, k, harness);
    hide *;
    forall j | LastEntry(entries, k, harness, j)
      ensures harness in CleanModels(entries, k)
      ensures CleanModels(entries, k)[harness]
              == (match entries[j].1 case Some(value) => Some(Trim(value)) case None => None)
    {
      LastEntryCounts(entries, k, harness, j);
    }
  }

  /** After a saved global change a slot without a harness of its own runs with the default the change
      names; one without a model of its own gets the last model entered for its harness. */
  lemma SavedGlobalResolves(s: Store, r: GlobalRequest, project: string, slot: Slot)
    requires PutGlobal(s, r).0 == Saved
    ensures var t := PutGlobal(s, r).1;
            var override := OverrideOf(s, project, slot);
            var e := Resolve(t.global, OverrideOf(t, project, slot));
            && (override.None? || override.value.harness.None? ==> e.harness == DefaultAfter(s.global, r))
            && (override.Some? && override.value.harness.Some? ==> e.harness == override.value.harness.value)
            && (override.Some? && override.value.model.Some? ==> e.model == override.value.model)
            && ((override.None? || override.value.model.None?) && r.defaultModels.None? ==>
                  e.model == DefaultModel(s.global, e.harness))
            && ((override.None? || override.value.model.None?) && r.defaultModels.Some? ==>
                  var entries := r.defaultModels.value;
                  && ((forall j :: 0 <= j < |entries| ==> Trim(entries[j].0) != e.harness) ==> e.model == None)
                  && forall j :: LastEntry(entries, |entries|, e.harness, j) ==>
                       e.model == (match entries[j].1 case Some(value) => Some(Trim(value)) case None => None))
  {
    GlobalSavedExactly(s, r);
    var t := PutGlobal(s, r).1;
    assert t.global == Merged(s.global, r);
    CleanedEnabled(s.global, r, "");
    var e := Resolve(t.global, OverrideOf(t, project, slot));
    if r.defaultModels.Some? { CleanModelsIs(r.defaultModels.value, |r.defaultModels.value|, e.harness); }
    hide PutGlobal;
    hide Says;
    hide EnabledAfter;
    hide DefaultAfter;
    hide CleanModels;
    hide CleanList;
    hide LastEntry;
    hide Trim;
  }
}
