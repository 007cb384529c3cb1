/** What a run costs, against the price list itself: which names have a price and which, what a
    million tokens come to, and which runs a project pays for. */
module Prices {
  import opened Cost
  import opened Text

  /** A price per million tokens, of every name that starts so, or of one name alone. */
  datatype Price = Family(start: string, input: real, output: real) | Name(name: string, input: real, output: real)

  const FAMILIES: seq<Price> := [
    Family("claude-opus-3", 15.0, 75.0), Family("claude-opus-4", 15.0, 75.0), Family("claude-opus-5", 15.0, 75.0),
    Family("claude-sonnet-4", 3.0, 15.0), Family("claude-sonnet-5", 3.0, 15.0),
    Family("claude-3-7-sonnet", 3.0, 15.0), Family("claude-3-5-sonnet", 3.0, 15.0),
    Family("claude-haiku-4", 1.0, 5.0), Family("claude-haiku-5", 1.0, 5.0), Family("claude-3-5-haiku", 1.0, 5.0),
    Family("claude-3-haiku", 0.25, 1.25)]

  const NAMES: seq<Price> := [
    Name("deepseek/deepseek-chat", 0.27, 1.1), Name("deepseek/deepseek-r1", 0.55, 2.19),
    Name("google/gemini-2.0-flash-001", 0.1, 0.4), Name("google/gemini-flash-1.5", 0.075, 0.3),
    Name("meta-llama/llama-3.1-8b-instruct", 0.02, 0.05), Name("meta-llama/llama-3.3-70b-instruct", 0.12, 0.3),
    Name("mistralai/mistral-large", 2.0, 6.0), Name("qwen/qwen-2.5-72b-instruct", 0.35, 0.4)]

  predicate Covers(p: Price, m: string) { if p.Family? then p.start <= m else p.name == m }

  predicate Listed(prices: seq<Price>, m: string, input: real, output: real) {
    exists k :: 0 <= k < |prices| && Covers(prices[k], m) && prices[k].input == input && prices[k].output == output
  }

  /** Where the families part: behind `claude-`, and for two of them further on. */
  lemma FamilyLetters(m: string)
    ensures "claude-opus-3" <= m || "claude-opus-4" <= m || "claude-opus-5" <= m ==> m[0] == 'c' && m[7] == 'o'
    ensures "claude-sonnet-4" <= m || "claude-sonnet-5" <= m ==> m[0] == 'c' && m[7] == 's'
    ensures "claude-haiku-4" <= m || "claude-haiku-5" <= m ==> m[0] == 'c' && m[7] == 'h'
    ensures "claude-3-7-sonnet" <= m ==> m[0] == 'c' && m[7] == '3' && m[9] == '7'
    ensures "claude-3-5-sonnet" <= m ==> m[0] == 'c' && m[7] == '3' && m[9] == '5' && m[11] == 's'
    ensures "claude-3-5-haiku" <= m ==> m[0] == 'c' && m[7] == '3' && m[9] == '5' && m[11] == 'h'
    ensures "claude-3-haiku" <= m ==> m[0] == 'c' && m[7] == '3' && m[9] == 'h'
  {
  }

  lemma FamilyPriced(k: nat, m: string)
    requires k < |FAMILIES| && Covers(FAMILIES[k], m)
    ensures Priced(m) == Some(Rate(FAMILIES[k].input, FAMILIES[k].output))
  {
    FamilyLetters(m);
    assert FAMILIES[k].start <= m;
    if k <= 2 {
      assert k == 0 || k == 1 || k == 2;
    } else if k <= 4 {
      assert k == 3 || k == 4;
    } else if k <= 6 {
      assert k == 5 || k == 6;
    } else if k <= 9 {
      assert k == 7 || k == 8 || k == 9;
    } else {
      assert k == 10;
    }
  }

  lemma NamePriced(k: nat, m: string)
    requires k < |NAMES| && Covers(NAMES[k], m)
    ensures Priced(m) == Some(Rate(NAMES[k].input, NAMES[k].output))
  {
    FamilyLetters(m);
    assert m == NAMES[k].name && m[0] != 'c';
  }

  predicate Covered(prices: seq<Price>, m: string) { exists k :: 0 <= k < |prices| && Covers(prices[k], m) }

  lemma NoFamily(m: string)
    requires !Covered(FAMILIES, m)
    ensures !("claude-opus-3" <= m || "claude-opus-4" <= m || "claude-opus-5" <= m)
    ensures !("claude-sonnet-5" <= m || "claude-sonnet-4" <= m || "claude-3-7-sonnet" <= m || "claude-3-5-sonnet" <= m)
    ensures !("claude-haiku-5" <= m || "claude-haiku-4" <= m || "claude-3-5-haiku" <= m || "claude-3-haiku" <= m)
  {
    assert !Covers(FAMILIES[0], m) && !Covers(FAMILIES[1], m) && !Covers(FAMILIES[2], m);
    assert !Covers(FAMILIES[3], m) && !Covers(FAMILIES[4], m) && !Covers(FAMILIES[5], m) && !Covers(FAMILIES[6], m);
    assert !Covers(FAMILIES[7], m) && !Covers(FAMILIES[8], m) && !Covers(FAMILIES[9], m) && !Covers(FAMILIES[10], m);
  }

  lemma NoName(m: string)
    requires !Covered(NAMES, m)
    ensures m != "deepseek/deepseek-chat" && m != "deepseek/deepseek-r1" && m != "google/gemini-2.0-flash-001"
    ensures m != "google/gemini-flash-1.5" && m != "meta-llama/llama-3.1-8b-instruct"
    ensures m != "meta-llama/llama-3.3-70b-instruct" && m != "mistralai/mistral-large"
    ensures m != "qwen/qwen-2.5-72b-instruct"
  {
    assert !Covers(NAMES[0], m) && !Covers(NAMES[1], m) && !Covers(NAMES[2], m) && !Covers(NAMES[3], m);
    assert !Covers(NAMES[4], m) && !Covers(NAMES[5], m) && !Covers(NAMES[6], m) && !Covers(NAMES[7], m);
  }

  lemma UnlistedUnpriced(m: string)
    requires !Covered(FAMILIES, m) && !Covered(NAMES, m)
    ensures Priced(m) == None
  {
    NoFamily(m);
    NoName(m);
    hide Covered;
  }

  /** A normalised name has the price of the family it starts with, or of the name it is, and no price
      when it is neither. */
  lemma PriceExactly(m: string, input: real, output: real)
    ensures Priced(m) == Some(Rate(input, output)) <==>
              Listed(FAMILIES, m, input, output) || Listed(NAMES, m, input, output)
  {
    hide Priced;
    hide Covers;
    forall k: nat | k < |FAMILIES| && Covers(FAMILIES[k], m)
      ensures Priced(m) == Some(Rate(FAMILIES[k].input, FAMILIES[k].output))
    {
      FamilyPriced(k, m);
    }
    forall k: nat | k < |NAMES| && Covers(NAMES[k], m)
      ensures Priced(m) == Some(Rate(NAMES[k].input, NAMES[k].output))
    {
      NamePriced(k, m);
    }
    hide FAMILIES;
    hide NAMES;
    if !Covered(FAMILIES, m) && !Covered(NAMES, m) { UnlistedUnpriced(m); }
  }

  /** The providers' prefixes, in any stack, change no price. */
  lemma PrefixesPriceAlike(model: string)
    requires NoSpace(model)
    ensures RateFor(Some("openrouter/" + model)) == RateFor(Some(model))
    ensures RateFor(Some("anthropic/" + model)) == RateFor(Some(model))
    ensures RateFor(Some("us.anthropic." + model)) == RateFor(Some(model))
    ensures RateFor(Some("openrouter/" + ("anthropic/" + model))) == RateFor(Some(model))
    ensures RateFor(None) == None
  {
    assert Stacked([], model) == model;
    assert Stacked([OpenRouter], model) == "openrouter/" + model;
    assert Stacked([Anthropic], model) == "anthropic/" + model;
    assert Stacked([Bedrock], model) == "us.anthropic." + model;
    assert [OpenRouter, Anthropic][1..] == [Anthropic];
    assert Stacked([OpenRouter, Anthropic], model) == "openrouter/" + ("anthropic/" + model);
    StacksPriceAlike([OpenRouter], model);
    StacksPriceAlike([Anthropic], model);
    StacksPriceAlike([Bedrock], model);
    StacksPriceAlike([OpenRouter, Anthropic], model);
    hide Normalize;
    hide Priced;
  }

  // ---- dollars ----

  /** A million tokens cost the price listed: input tokens the first, output tokens the second. Any
      number of tokens costs in proportion, and tokens of a name without a price cost nothing. */
  lemma DollarsExactly(model: string, input: int, output: int, p: real, q: real)
    requires Priced(Normalize(model)) == Some(Rate(p, q))
    ensures CostOf(Billed(Some(model), 1000000, 0), false) == p && CostOf(Billed(Some(model), 0, 1000000), true) == q
    ensures CostOf(Billed(Some(model), input, output), false) * 1000000.0 == p * input as real
    ensures CostOf(Billed(Some(model), input, output), true) * 1000000.0 == q * output as real
  {
    hide Priced;
    hide Normalize;
  }

  lemma UnpricedCostsNothing(model: Option<string>, input: int, output: int, which: bool)
    requires model == None || Priced(Normalize(model.value)) == None
    ensures CostOf(Billed(model, input, output), which) == 0.0
    ensures Unpriced(Billed(model, input, output)) <==> input != 0 || output != 0
  {
    hide Priced;
    hide Normalize;
  }

  lemma PlainName(name: string)
    requires name != "" && NoSpace(name) && Lower(name) == name && name[0] == 'c'
    ensures Normalize(name) == name
  {
    TrimIs("", name, "");
    assert "" + name + "" == name;
    assert NextProvider(name) == None;
    hide Trim;
  }

  lemma DatedSonnet(date: string)
    requires NoSpace(date) && Lower(date) == date
    ensures var name := "claude-sonnet-4" + date;
            && name != "" && NoSpace(name) && Lower(name) == name && name[0] == 'c'
            && Priced(name) == Some(Rate(3.0, 15.0))
  {
    var start := "claude-sonnet-4";
    var name := start + date;
    assert NoSpace(start) && Lower(start) == start;
    LowerConcat(start, date);
    assert start <= name && Covers(FAMILIES[3], name);
    FamilyPriced(3, name);
    hide Priced;
    hide Lower;
  }

  /** A million input and a million output tokens of a Sonnet, however its name is wrapped. */
  lemma SonnetMillion(ps: seq<Provider>, date: string)
    requires NoSpace(date) && Lower(date) == date
    ensures var model := Stacked(ps, "claude-sonnet-4" + date);
            && CostOf(Billed(Some(model), 1000000, 0), false) == 3.0
            && CostOf(Billed(Some(model), 0, 1000000), true) == 15.0
  {
    hide *;
    var name := "claude-sonnet-4" + date;
    DatedSonnet(date);
    PlainName(name);
    StacksPriceAlike(ps, name);
    RateIs(name);
    RateIs(Stacked(ps, name));
    DollarsExactly(Stacked(ps, name), 0, 0, 3.0, 15.0);
  }

  lemma RateIs(model: string)
    ensures RateFor(Some(model)) == Priced(Normalize(model))
  {
  }

  // ---- which runs count ----

  /** A run counts for a project when it closed well and its epic, its own or else its task's, is one of
      the project's. */
  lemma ContributesExactly(tables: Tables, project: string, r: AgentRun)
    ensures Contributes(tables, project, r) <==>
              && r.ok && r.endedAt != None
              && exists epic :: epic in tables.epics && tables.epics[epic] == project
                   && (r.epic == Some(epic)
                       || (r.epic == None && exists task :: r.task == Some(task) && task in tables.tasks
                                                            && tables.tasks[task] == Some(epic)))
  {
    if r.task.Some? && r.task.value in tables.tasks && tables.tasks[r.task.value].Some? && r.epic.None? {
      assert r.task == Some(r.task.value) && tables.tasks[r.task.value] == Some(tables.tasks[r.task.value].value);
    }
  }

  /** A run stands under its stage, its harness and model, and the day it ended; missing counts are
      zero. */
  lemma StandsUnder(r: AgentRun, stage: string, harness: Option<string>, model: Option<string>)
    ensures BucketOf(r, BySlot) == SlotBucket(stage) <==> r.stage == stage
    ensures BucketOf(r, ByHarnessModel) == PairBucket(harness, model) <==> r.harness == harness && r.model == model
    ensures r.endedAt.Some? ==> BucketOf(r, ByDay) == DayBucket(DayOf(r.endedAt.value))
    ensures Bill(r).model == r.model
    ensures Bill(r).input == (match r.input case Some(n) => n case None => 0)
    ensures Bill(r).output == (match r.output case Some(n) => n case None => 0)
  {
  }

  /** Day `d` is the 86400 seconds from `86400 d` on; milliseconds are cut to seconds towards zero. */
  lemma DayExactly(ms: int, d: int)
    ensures ms >= 0 ==> (DayOf(ms) == d <==> 86400000 * d <= ms < 86400000 * (d + 1))
    ensures ms < 0 ==> (DayOf(ms) == d <==> 86400000 * d - 1000 < ms <= 86400000 * (d + 1) - 1000)
  {
    if ms >= 0 {
      SecondsOf(ms);
      DayOfSeconds(ms / 1000, d);
    } else {
      SecondsOf(-ms);
      DayOfSeconds(-((-ms) / 1000), d);
    }
    hide DayOf;
  }

  lemma SecondsOf(n: nat)
    ensures 1000 * (n / 1000) <= n < 1000 * (n / 1000) + 1000
  {
  }

  lemma DayOfSeconds(s: int, d: int)
    ensures s / 86400 == d <==> 86400 * d <= s < 86400 * (d + 1)
  {
  }
}
