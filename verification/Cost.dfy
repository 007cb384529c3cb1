/** Project cost: pricing of model names, and the two-stage aggregation (SQL groups, then a fold
    over each bucket's groups) against the direct sum over the runs. Dollars are reals. */
module Cost {
  import opened Text

  // ---- model names ----

  const OPENROUTER: string := "openrouter/"
  const ANTHROPIC: string := "anthropic/"
  const BEDROCK: string := "us.anthropic."

  datatype Provider = OpenRouter | Anthropic | Bedrock

  function PrefixOf(p: Provider): (s: string)
    ensures s != "" && Lower(s) == s
    ensures forall k :: 0 <= k < |s| ==> !IsSpace(s[k])
  {
    match p
    case OpenRouter => OPENROUTER
    case Anthropic => ANTHROPIC
    case Bedrock => BEDROCK
  }

  /** The provider prefix the loop strips next. */
  function NextProvider(m: string): Option<Provider> {
    if OPENROUTER <= m then Some(OpenRouter)
    else if ANTHROPIC <= m then Some(Anthropic)
    else if BEDROCK <= m then Some(Bedrock)
    else None
  }

  lemma NextProviderFits(m: string)
    ensures NextProvider(m).Some? ==> PrefixOf(NextProvider(m).value) <= m
  {
  }

  function Stripped(m: string): string
    decreases |m|
  {
    NextProviderFits(m);
    var p := NextProvider(m);
    if p.None? then m else Stripped(m[|PrefixOf(p.value)|..])
  }

  function Normalize(model: string): string { Stripped(Lower(Trim(model))) }

  /** `normalize_model`. */
  method NormalizeModel(model: string) returns (m: string)
    ensures m == Normalize(model)
  {
    hide Trim;
    hide Lower;
    m := Lower(Trim(model));
    while true
      invariant Stripped(m) == Normalize(model)
      decreases |m|
    {
      NextProviderFits(m);
      if OPENROUTER <= m {
        m := m[|OPENROUTER|..];
      } else if ANTHROPIC <= m {
        m := m[|ANTHROPIC|..];
      } else if BEDROCK <= m {
        m := m[|BEDROCK|..];
      } else {
        return;
      }
    }
  }

  function Stacked(ps: seq<Provider>, model: string): string {
    if ps == [] then model else PrefixOf(ps[0]) + Stacked(ps[1..], model)
  }

  lemma PrefixIsNext(p: Provider, rest: string)
    ensures NextProvider(PrefixOf(p) + rest) == Some(p)
  {
    var m := PrefixOf(p) + rest;
    match p
    case OpenRouter => assert OPENROUTER <= m;
    case Anthropic =>
      assert ANTHROPIC <= m && m[0] == 'a' && OPENROUTER[0] == 'o';
    case Bedrock =>
      assert BEDROCK <= m && m[0] == 'u' && OPENROUTER[0] == 'o' && ANTHROPIC[0] == 'a';
  }

  lemma {:induction false} StrippedStack(ps: seq<Provider>, model: string)
    ensures Stripped(Lower(Stacked(ps, model))) == Stripped(Lower(model))
  {
    if ps != [] {
      var rest := Stacked(ps[1..], model);
      LowerConcat(PrefixOf(ps[0]), rest);
      PrefixIsNext(ps[0], Lower(rest));
      hide NextProvider;
      hide Lower;
      var p := PrefixOf(ps[0]);
      assert (p + Lower(rest))[|p|..] == Lower(rest);
      hide PrefixOf;
      StrippedStack(ps[1..], model);
    }
  }

  predicate NoSpace(s: string) { forall k :: 0 <= k < |s| ==> !IsSpace(s[k]) }

  lemma {:induction false} StackHasNoSpace(ps: seq<Provider>, model: string)
    requires NoSpace(model)
    ensures NoSpace(Stacked(ps, model))
  {
    if ps != [] {
      StackHasNoSpace(ps[1..], model);
      hide PrefixOf;
    }
  }

  // ---- rates ----

  datatype Rate = Rate(input: real, output: real)

  function Priced(m: string): Option<Rate> {
    if "claude-opus-3" <= m || "claude-opus-4" <= m || "claude-opus-5" <= m then Some(Rate(15.0, 75.0))
    else if "claude-sonnet-5" <= m then Some(Rate(3.0, 15.0))
    else if "claude-sonnet-4" <= m || "claude-3-7-sonnet" <= m || "claude-3-5-sonnet" <= m then Some(Rate(3.0, 15.0))
    else if "claude-haiku-5" <= m || "claude-haiku-4" <= m || "claude-3-5-haiku" <= m then Some(Rate(1.0, 5.0))
    else if "claude-3-haiku" <= m then Some(Rate(0.25, 1.25))
    else if m == "deepseek/deepseek-r1" then Some(Rate(0.55, 2.19))
    else if m == "deepseek/deepseek-chat" then Some(Rate(0.27, 1.1))
    else if m == "meta-llama/llama-3.3-70b-instruct" then Some(Rate(0.12, 0.3))
    else if m == "meta-llama/llama-3.1-8b-instruct" then Some(Rate(0.02, 0.05))
    else if m == "google/gemini-2.0-flash-001" then Some(Rate(0.1, 0.4))
    else if m == "google/gemini-flash-1.5" then Some(Rate(0.075, 0.3))
    else if m == "qwen/qwen-2.5-72b-instruct" then Some(Rate(0.35, 0.4))
    else if m == "mistralai/mistral-large" then Some(Rate(2.0, 6.0))
    else None
  }

  function RateFor(model: Option<string>): Option<Rate> {
    if model.None? then None else Priced(Normalize(model.value))
  }

  /** Any stack of provider prefixes before a whitespace-free name prices like the name alone. */
  lemma StacksPriceAlike(ps: seq<Provider>, model: string)
    requires NoSpace(model)
    ensures RateFor(Some(Stacked(ps, model))) == RateFor(Some(model))
  {
    hide Priced;
    StackHasNoSpace(ps, model);
    TrimShortens(Stacked(ps, model));
    TrimShortens(model);
    StrippedStack(ps, model);
    hide Trim;
    hide Lower;
    hide Stripped;
  }

  lemma StrippedStep(m: string)
    ensures var p := NextProvider(m);
            if p.None? then Stripped(m) == m
            else 0 < |PrefixOf(p.value)| <= |m| && Stripped(m) == Stripped(m[|PrefixOf(p.value)|..])
  {
    NextProviderFits(m);
    hide NextProvider;
    hide PrefixOf;
  }

  lemma LowerSuffix(m: string, n: nat)
    requires Lower(m) == m && n <= |m|
    ensures Lower(m[n..]) == m[n..]
  {
    var rest := m[n..];
    assert forall i :: 0 <= i < |rest| ==> rest[i] == m[n + i] && Lower(m)[n + i] == LowerChar(m[n + i]);
  }

  lemma {:induction false} StrippedIsBare(m: string)
    requires Lower(m) == m
    ensures NextProvider(Stripped(m)).None? && Lower(Stripped(m)) == Stripped(m)
    ensures Stripped(Stripped(m)) == Stripped(m)
    ensures exists k: nat :: k <= |m| && Stripped(m) == m[k..]
    decreases |m|
  {
    hide *;
    StrippedStep(m);
    var p := NextProvider(m);
    if p.None? {
      assert m[0..] == m;
    } else {
      var n := |PrefixOf(p.value)|;
      var rest := m[n..];
      LowerSuffix(m, n);
      StrippedIsBare(rest);
      var k: nat :| k <= |rest| && Stripped(rest) == rest[k..];
      assert rest[k..] == m[n + k..];
    }
  }

  lemma TrimShortens(s: string)
    ensures Trim(s) == s <==> Trimmed(s)
    ensures Trim(s) != s ==> |Trim(s)| < |s|
  {
    var a, b := TrimSplits(s);
    TrimTrimmed(s);
    if Trimmed(s) {
      TrimStartIs("", s);
      TrimEndIs(s, "");
      assert "" + s == s && s + "" == s;
    }
    hide Trim;
    assert |s| == |a| + |Trim(s)| + |b|;
  }

  lemma LowerTrimmed(s: string)
    requires Trimmed(s)
    ensures Trimmed(Lower(s))
  {
  }

  lemma EndNotSpace(t: string, y: string)
    requires Trimmed(t) && exists k: nat :: k <= |t| && y == t[k..]
    ensures Trimmed(y) <==> (y != "" ==> !IsSpace(y[0]))
  {
    if y != "" { assert y[|y| - 1] == t[|t| - 1]; }
  }

  lemma {:induction false} StrippedShortens(m: string)
    ensures |Stripped(m)| <= |m|
    decreases |m|
  {
    if NextProvider(m).Some? {
      NextProviderFits(m);
      StrippedShortens(m[|PrefixOf(NextProvider(m).value)|..]);
    }
  }

  lemma NormalizeTwiceBare(model: string)
    ensures Normalize(Normalize(model)) == Normalize(model) <==>
            (Normalize(model) != "" ==> !IsSpace(Normalize(model)[0]))
  {
    var t := Lower(Trim(model));
    var y := Stripped(t);
    TrimTrimmed(model);
    LowerTrimmed(Trim(model));
    LowerTwice(Trim(model));
    hide Trim;
    hide Lower;
    hide Stripped;
    hide NextProvider;
    hide Trimmed;
    StrippedIsBare(t);
    TrimShortens(y);
    EndNotSpace(t, y);
    StrippedShortens(Lower(Trim(y)));
  }

  /** White space stands right behind some of the provider prefixes a name starts with. */
  ghost predicate SpaceAfterPrefixes(m: string) {
    exists ps: seq<Provider>, rest: string :: m == Stacked(ps, rest) && rest != "" && IsSpace(rest[0])
  }

  /** What is stripped is a stack of prefixes. */
  lemma {:induction false} StrippedIsStacked(m: string) returns (ps: seq<Provider>)
    ensures m == Stacked(ps, Stripped(m))
    decreases |m|
  {
    StrippedStep(m);
    NextProviderFits(m);
    var p := NextProvider(m);
    hide *;
    if p.None? {
      ps := [];
      NothingStacked(m);
    } else {
      var prefix := PrefixOf(p.value);
      var rest := m[|prefix|..];
      ps := StrippedIsStacked(rest);
      StackedMore(p.value, ps, Stripped(m));
      assert m == prefix + rest;
      ps := [p.value] + ps;
    }
  }

  lemma NothingStacked(m: string)
    ensures Stacked([], m) == m
  {
  }

  lemma StackedMore(p: Provider, ps: seq<Provider>, m: string)
    ensures Stacked([p] + ps, m) == PrefixOf(p) + Stacked(ps, m)
  {
    hide PrefixOf;
    assert ([p] + ps)[1..] == ps;
  }

  lemma {:induction false} LowerRest(ps: seq<Provider>, rest: string)
    requires Lower(Stacked(ps, rest)) == Stacked(ps, rest)
    ensures Lower(rest) == rest
  {
    if ps != [] {
      var m, p := Stacked(ps, rest), PrefixOf(ps[0]);
      hide PrefixOf;
      assert m[|p|..] == Stacked(ps[1..], rest);
      LowerSuffix(m, |p|);
      hide Lower;
      LowerRest(ps[1..], rest);
    }
  }

  lemma SpaceIsBare(m: string)
    requires m != "" && IsSpace(m[0])
    ensures Stripped(m) == m
  {
    NextProviderFits(m);
    assert forall p :: PrefixOf(p) <= m ==> PrefixOf(p)[0] == m[0];
    hide NextProvider;
    hide PrefixOf;
  }

  /** Normalising is idempotent exactly on the names in which no white space stands right behind
      the prefixes. */
  lemma NormalizeTwiceExactly(model: string)
    ensures Normalize(Normalize(model)) == Normalize(model) <==> !SpaceAfterPrefixes(Lower(Trim(model)))
  {
    NormalizeTwiceBare(model);
    var t := Lower(Trim(model));
    assert Normalize(model) == Stripped(t);
    LowerTwice(Trim(model));
    var ps := StrippedIsStacked(t);
    hide Normalize;
    hide Trim;
    hide Lower;
    hide Stripped;
    hide Stacked;
    if SpaceAfterPrefixes(t) {
      var qs, rest :| t == Stacked(qs, rest) && rest != "" && IsSpace(rest[0]);
      LowerRest(qs, rest);
      StrippedStack(qs, rest);
      SpaceIsBare(rest);
    }
  }

  /** Such a name: normalised once it is " x", normalised twice "x". */
  lemma NormalizeTwiceDiffers()
    ensures Normalize("openrouter/ x") == " x" && Normalize(" x") == "x"
  {
    var model := OPENROUTER + " x";
    assert model == "openrouter/ x";
    PrefixLast(model);
    TrimShortens(model);
    LowerConcat(OPENROUTER, " x");
    assert Lower(" x") == " x" && Lower("x") == "x";
    PrefixIsNext(OpenRouter, " x");
    assert PrefixOf(OpenRouter) == OPENROUTER;
    assert model[|OPENROUTER|..] == " x";
    SpaceIsBare(" x");
    TrimIs(" ", "x", "");
    assert " " + "x" + "" == " x";
    hide Trim;
    hide Lower;
    StrippedStep(model);
    StrippedStep("x");
    assert NextProvider("x").None?;
  }

  lemma PrefixLast(model: string)
    requires model == OPENROUTER + " x"
    ensures Trimmed(model)
  {
    assert model[0] == 'o' && model[|model| - 1] == 'x';
  }

  // ---- totals of a list of runs ----

  /** One run's tokens, or the sums of one SQL group. */
  datatype Billed = Billed(model: Option<string>, input: int, output: int)

  datatype Totals = Totals(input: int, output: int, usd: Option<(real, real)>)

  function Usd(rate: real, tokens: int): real { rate * tokens as real / 1000000.0 }

  function SumTokens(xs: seq<Billed>, output: bool): int {
    if xs == [] then 0
    else SumTokens(xs[..|xs| - 1], output) + if output then xs[|xs| - 1].output else xs[|xs| - 1].input
  }

  function CostOf(x: Billed, output: bool): real {
    var rate := RateFor(x.model);
    if rate.None? then 0.0
    else if output then Usd(rate.value.output, x.output) else Usd(rate.value.input, x.input)
  }

  function SumCost(xs: seq<Billed>, output: bool): real {
    if xs == [] then 0.0 else SumCost(xs[..|xs| - 1], output) + CostOf(xs[|xs| - 1], output)
  }

  predicate Unpriced(x: Billed) { RateFor(x.model).None? && (x.input != 0 || x.output != 0) }

  predicate AnyUnpriced(xs: seq<Billed>) { exists k :: 0 <= k < |xs| && Unpriced(xs[k]) }

  /** The direct definition: sums over the runs, and no estimate once a run with tokens has no
      known rate. */
  function TotalsOf(xs: seq<Billed>): Totals {
    Totals(SumTokens(xs, false), SumTokens(xs, true),
           if AnyUnpriced(xs) then None else Some((SumCost(xs, false), SumCost(xs, true))))
  }

  /** `fold_bucket`. */
  method FoldBucket(subTotals: seq<Billed>) returns (totals: Totals)
    ensures totals == TotalsOf(subTotals)
  {
    hide RateFor;
    var input, output, fullyPriced, usdIn, usdOut := 0, 0, true, 0.0, 0.0;
    for k := 0 to |subTotals|
      invariant input == SumTokens(subTotals[..k], false) && output == SumTokens(subTotals[..k], true)
      invariant usdIn == SumCost(subTotals[..k], false) && usdOut == SumCost(subTotals[..k], true)
      invariant fullyPriced <==> !AnyUnpriced(subTotals[..k])
    {
      var x := subTotals[k];
      assert subTotals[..k + 1][..k] == subTotals[..k];
      AnyUnpricedNext(subTotals, k);
      input, output := input + x.input, output + x.output;
      var rate := RateFor(x.model);
      if rate.Some? {
        usdIn := usdIn + Usd(rate.value.input, x.input);
        usdOut := usdOut + Usd(rate.value.output, x.output);
      } else if x.input != 0 || x.output != 0 {
        fullyPriced := false;
      }
      hide AnyUnpriced;
      hide Usd;
    }
    assert subTotals[..|subTotals|] == subTotals;
    totals := Totals(input, output, if fullyPriced then Some((usdIn, usdOut)) else None);
  }

  lemma AnyUnpricedNext(xs: seq<Billed>, k: nat)
    requires k < |xs|
    ensures AnyUnpriced(xs[..k + 1]) <==> AnyUnpriced(xs[..k]) || Unpriced(xs[k])
  {
    hide Unpriced;
    var ys, zs := xs[..k], xs[..k + 1];
    if j :| 0 <= j < |ys| && Unpriced(ys[j]) { assert Unpriced(zs[j]); }
    if j :| 0 <= j < |zs| && Unpriced(zs[j]) { assert j < k ==> Unpriced(ys[j]); }
    assert zs[k] == xs[k];
  }

  // ---- grouping by model ----

  function Only(xs: seq<Billed>, model: Option<string>): seq<Billed> {
    if xs == [] then []
    else Only(xs[..|xs| - 1], model) + if xs[|xs| - 1].model == model then [xs[|xs| - 1]] else []
  }

  function Except(xs: seq<Billed>, model: Option<string>): seq<Billed> {
    if xs == [] then []
    else Except(xs[..|xs| - 1], model) + if xs[|xs| - 1].model == model then [] else [xs[|xs| - 1]]
  }

  /** The group of one model, summed: a row of `GROUP BY model`. */
  function GroupOf(xs: seq<Billed>, model: Option<string>): Billed {
    Billed(model, SumTokens(Only(xs, model), false), SumTokens(Only(xs, model), true))
  }

  /** `rows` are the groups of `xs`, one for each model that occurs, in any order. */
  predicate Grouped(xs: seq<Billed>, rows: seq<Billed>) {
    && (forall j :: 0 <= j < |rows| ==> rows[j] == GroupOf(xs, rows[j].model) && HasModel(xs, rows[j].model))
    && (forall i, j :: 0 <= i < j < |rows| ==> rows[i].model != rows[j].model)
    && (forall k :: 0 <= k < |xs| ==> HasModel(rows, xs[k].model))
  }

  predicate HasModel(rows: seq<Billed>, model: Option<string>) { exists j :: 0 <= j < |rows| && rows[j].model == model }

  predicate NonNegative(xs: seq<Billed>) { forall k :: 0 <= k < |xs| ==> xs[k].input >= 0 && xs[k].output >= 0 }

  lemma SumAppend(xs: seq<Billed>, x: Billed, output: bool)
    ensures SumTokens(xs + [x], output) == SumTokens(xs, output) + if output then x.output else x.input
    ensures SumCost(xs + [x], output) == SumCost(xs, output) + CostOf(x, output)
  {
    assert (xs + [x])[..|xs|] == xs;
    hide CostOf;
  }

  lemma CostAdds(model: Option<string>, a: Billed, b: Billed, output: bool)
    requires a.model == model && b.model == model
    ensures CostOf(Billed(model, a.input + b.input, a.output + b.output), output)
            == CostOf(a, output) + CostOf(b, output)
  {
    hide RateFor;
  }

  lemma EmptyGroupCosts(model: Option<string>, output: bool)
    ensures SumCost(Only([], model), output) == CostOf(GroupOf([], model), output)
  {
    hide RateFor;
  }

  /** One model's runs cost as much as their summed tokens do. */
  lemma {:induction false} OnlyCosts(xs: seq<Billed>, model: Option<string>, output: bool)
    ensures SumCost(Only(xs, model), output) == CostOf(GroupOf(xs, model), output)
  {
    hide *;
    if xs == [] {
      EmptyGroupCosts(model, output);
    } else {
      var head, last := xs[..|xs| - 1], xs[|xs| - 1];
      OnlyCosts(head, model, output);
      SplitLast(xs, model);
      if last.model == model {
        GroupGrows(xs, head, last, model);
        SumAppend(Only(head, model), last, output);
        CostAdds(model, GroupOf(head, model), last, output);
      } else {
        GroupIs(xs, model);
        GroupIs(head, model);
      }
    }
  }

  lemma GroupGrows(xs: seq<Billed>, head: seq<Billed>, last: Billed, model: Option<string>)
    requires Only(xs, model) == Only(head, model) + [last]
    ensures GroupOf(head, model).model == model
    ensures GroupOf(xs, model) ==
            Billed(model, GroupOf(head, model).input + last.input, GroupOf(head, model).output + last.output)
  {
    SumAppend(Only(head, model), last, false);
    SumAppend(Only(head, model), last, true);
    hide SumTokens;
    hide Only;
  }

  /** A sum splits into one model's runs and the others. */
  lemma {:induction false} SumSplits(xs: seq<Billed>, model: Option<string>, output: bool)
    ensures SumTokens(xs, output) == SumTokens(Only(xs, model), output) + SumTokens(Except(xs, model), output)
    ensures SumCost(xs, output) == SumCost(Only(xs, model), output) + SumCost(Except(xs, model), output)
  {
    hide CostOf;
    if xs != [] {
      var head, last := xs[..|xs| - 1], xs[|xs| - 1];
      SumSplits(head, model, output);
      SplitLast(xs, model);
      assert head + [last] == xs;
      hide *;
      SumAppend(head, last, output);
      SumAppend(Only(head, model), last, output);
      SumAppend(Except(head, model), last, output);
    }
  }

  lemma SplitLast(xs: seq<Billed>, model: Option<string>)
    requires xs != []
    ensures var head, last := xs[..|xs| - 1], xs[|xs| - 1];
            if last.model == model
            then Only(xs, model) == Only(head, model) + [last] && Except(xs, model) == Except(head, model)
            else Only(xs, model) == Only(head, model) && Except(xs, model) == Except(head, model) + [last]
  {
    var head := xs[..|xs| - 1];
    assert Only(head, model) + [] == Only(head, model) && Except(head, model) + [] == Except(head, model);
  }

  lemma {:induction false} ExceptKeepsGroups(xs: seq<Billed>, model: Option<string>, other: Option<string>)
    requires other != model
    ensures Only(Except(xs, model), other) == Only(xs, other)
  {
    if xs != [] {
      var head, last := xs[..|xs| - 1], xs[|xs| - 1];
      ExceptKeepsGroups(head, model, other);
      if last.model == model {
        assert Except(head, model) + [] == Except(head, model) && Only(head, other) + [] == Only(head, other);
      } else {
        var rest := Except(head, model);
        assert (rest + [last])[..|rest|] == rest;
      }
    }
  }

  lemma {:induction false} ExceptIs(xs: seq<Billed>, model: Option<string>)
    ensures forall x :: x in Except(xs, model) <==> x in xs && x.model != model
    ensures forall x :: x in Only(xs, model) <==> x in xs && x.model == model
  {
    if xs != [] {
      var head, last := xs[..|xs| - 1], xs[|xs| - 1];
      ExceptIs(head, model);
      assert forall x :: x in xs <==> x in head || x == last;
    }
  }

  lemma {:induction false} SumOfNonNegative(xs: seq<Billed>, output: bool)
    requires NonNegative(xs)
    ensures SumTokens(xs, output) >= 0
    ensures SumTokens(xs, output) == 0 <==> forall x :: x in xs ==> (if output then x.output else x.input) == 0
  {
    if xs != [] {
      var head, last := xs[..|xs| - 1], xs[|xs| - 1];
      SumOfNonNegative(head, output);
      assert forall x :: x in xs <==> x in head || x == last;
    }
  }

  /** A group is unpriced just when one of its runs is. */
  lemma UnpricedGroup(xs: seq<Billed>, model: Option<string>)
    requires NonNegative(xs)
    ensures Unpriced(GroupOf(xs, model)) <==> exists x :: x in xs && x.model == model && Unpriced(x)
  {
    hide RateFor;
    ExceptIs(xs, model);
    ExceptNonNegative(xs, model);
    var ys := Only(xs, model);
    SumOfNonNegative(ys, false);
    SumOfNonNegative(ys, true);
    hide SumTokens;
    hide Only;
    if Unpriced(GroupOf(xs, model)) {
      var x :| x in ys && (x.input != 0 || x.output != 0);
      assert x in xs && x.model == model && Unpriced(x);
    }
  }

  lemma AnyUnpricedIs(xs: seq<Billed>)
    ensures AnyUnpriced(xs) <==> exists x :: x in xs && Unpriced(x)
  {
    hide Unpriced;
    if k :| 0 <= k < |xs| && Unpriced(xs[k]) { assert xs[k] in xs; }
  }

  lemma ExceptNonNegative(xs: seq<Billed>, model: Option<string>)
    requires NonNegative(xs)
    ensures NonNegative(Except(xs, model)) && NonNegative(Only(xs, model))
  {
    ExceptIs(xs, model);
    FromNonNegative(xs, Except(xs, model));
    FromNonNegative(xs, Only(xs, model));
  }

  lemma FromNonNegative(xs: seq<Billed>, ys: seq<Billed>)
    requires NonNegative(xs) && forall x :: x in ys ==> x in xs
    ensures NonNegative(ys)
  {
    forall k | 0 <= k < |ys| ensures ys[k].input >= 0 && ys[k].output >= 0 {
      assert ys[k] in xs;
    }
  }

  lemma UnpricedSplits(xs: seq<Billed>, model: Option<string>)
    requires NonNegative(xs)
    ensures AnyUnpriced(xs) <==> AnyUnpriced(Except(xs, model)) || Unpriced(GroupOf(xs, model))
  {
    ExceptIs(xs, model);
    UnpricedGroup(xs, model);
    hide *;
    AnyUnpricedIs(xs);
    AnyUnpricedIs(Except(xs, model));
  }

  /** Summing the groups in SQL and folding them is the direct fold over the runs, tokens and
      estimate alike. */
  lemma {:induction false} GroupThenFold(xs: seq<Billed>, rows: seq<Billed>)
    requires NonNegative(xs) && Grouped(xs, rows)
    ensures TotalsOf(rows) == TotalsOf(xs)
    decreases |rows|
  {
    hide *;
    if rows == [] {
      GroupedNothing(xs);
    } else {
      var head, last := rows[..|rows| - 1], rows[|rows| - 1];
      var ys := Except(xs, last.model);
      GroupedExcept(xs, rows);
      ExceptNonNegative(xs, last.model);
      UnpricedSplits(xs, last.model);
      GroupThenFold(ys, head);
      TotalsParts(rows, head, last);
      TotalsAre(rows, head);
      TotalsAre(xs, ys);
      SumSplits(xs, last.model, false);
      SumSplits(xs, last.model, true);
      OnlyCosts(xs, last.model, false);
      OnlyCosts(xs, last.model, true);
      GroupIs(xs, last.model);
    }
  }

  lemma GroupedNothing(xs: seq<Billed>)
    requires Grouped(xs, [])
    ensures xs == []
  {
    assert |xs| > 0 ==> HasModel([], xs[0].model);
  }

  lemma GroupIs(xs: seq<Billed>, model: Option<string>)
    ensures GroupOf(xs, model) == Billed(model, SumTokens(Only(xs, model), false), SumTokens(Only(xs, model), true))
  {
  }

  lemma TotalsParts(rows: seq<Billed>, head: seq<Billed>, last: Billed)
    requires rows != [] && head == rows[..|rows| - 1] && last == rows[|rows| - 1]
    ensures SumTokens(rows, false) == SumTokens(head, false) + last.input
    ensures SumTokens(rows, true) == SumTokens(head, true) + last.output
    ensures SumCost(rows, false) == SumCost(head, false) + CostOf(last, false)
    ensures SumCost(rows, true) == SumCost(head, true) + CostOf(last, true)
    ensures AnyUnpriced(rows) <==> AnyUnpriced(head) || Unpriced(last)
  {
    AnyUnpricedNext(rows, |rows| - 1);
    assert rows[..|rows| - 1 + 1] == rows;
    hide CostOf;
    hide AnyUnpriced;
    hide Unpriced;
  }

  lemma TotalsAre(xs: seq<Billed>, ys: seq<Billed>)
    ensures TotalsOf(xs) == Totals(SumTokens(xs, false), SumTokens(xs, true),
              if AnyUnpriced(xs) then None else Some((SumCost(xs, false), SumCost(xs, true))))
    ensures TotalsOf(ys) == Totals(SumTokens(ys, false), SumTokens(ys, true),
              if AnyUnpriced(ys) then None else Some((SumCost(ys, false), SumCost(ys, true))))
  {
    hide AnyUnpriced;
    hide SumTokens;
    hide SumCost;
  }

  lemma GroupedExcept(xs: seq<Billed>, rows: seq<Billed>)
    requires Grouped(xs, rows) && rows != []
    ensures rows[|rows| - 1] == GroupOf(xs, rows[|rows| - 1].model)
    ensures Grouped(Except(xs, rows[|rows| - 1].model), rows[..|rows| - 1])
  {
    hide Only;
    hide Except;
    hide SumTokens;
    var head, model := rows[..|rows| - 1], rows[|rows| - 1].model;
    var ys := Except(xs, model);
    forall j | 0 <= j < |head| ensures head[j] == GroupOf(ys, head[j].model) && HasModel(ys, head[j].model) {
      assert head[j] == rows[j] && rows[j].model != model;
      ExceptKeepsGroups(xs, model, head[j].model);
      ExceptKeepsModel(xs, model, head[j].model);
    }
    hide GroupOf;
    forall k | 0 <= k < |ys| ensures HasModel(head, ys[k].model) {
      ExceptHasRow(xs, rows, ys[k]);
    }
    hide HasModel;
  }

  lemma ExceptKeepsModel(xs: seq<Billed>, model: Option<string>, other: Option<string>)
    requires other != model && HasModel(xs, other)
    ensures HasModel(Except(xs, model), other)
  {
    ExceptIs(xs, model);
    hide Except;
    var k :| 0 <= k < |xs| && xs[k].model == other;
    var ys := Except(xs, model);
    var j :| 0 <= j < |ys| && ys[j] == xs[k];
  }

  lemma ExceptHasRow(xs: seq<Billed>, rows: seq<Billed>, x: Billed)
    requires Grouped(xs, rows) && rows != [] && x in Except(xs, rows[|rows| - 1].model)
    ensures HasModel(rows[..|rows| - 1], x.model)
  {
    hide *;
    ExceptIs(xs, rows[|rows| - 1].model);
    GroupedHasRow(xs, rows, x);
    HasModelBefore(rows, x.model);
  }

  lemma GroupedHasRow(xs: seq<Billed>, rows: seq<Billed>, x: Billed)
    requires Grouped(xs, rows) && x in xs
    ensures HasModel(rows, x.model)
  {
    hide GroupOf;
    hide HasModel;
  }

  lemma HasModelBefore(rows: seq<Billed>, model: Option<string>)
    requires rows != [] && HasModel(rows, model) && rows[|rows| - 1].model != model
    ensures HasModel(rows[..|rows| - 1], model)
  {
    var head := rows[..|rows| - 1];
    var j :| 0 <= j < |rows| && rows[j].model == model;
    assert head[j].model == model;
  }

  // ---- the project's runs and their buckets ----

  datatype AgentRun = AgentRun(
    task: Option<string>, epic: Option<string>, stage: string, harness: Option<string>, model: Option<string>,
    ok: bool, endedAt: Option<int>, input: Option<int>, output: Option<int>)

  /** The project of each epic and the epic, if any, of each task. */
  datatype Tables = Tables(epics: map<string, string>, tasks: map<string, Option<string>>)

  function EpicOf(tables: Tables, r: AgentRun): Option<string> {
    if r.epic.Some? then r.epic
    else if r.task.Some? && r.task.value in tables.tasks then tables.tasks[r.task.value] else None
  }

  /** A closed successful run that the joins reach from the project. */
  predicate Contributes(tables: Tables, project: string, r: AgentRun) {
    var epic := EpicOf(tables, r);
    r.ok && r.endedAt.Some? && epic.Some? && epic.value in tables.epics && tables.epics[epic.value] == project
  }

  datatype Bucket =
    | SlotBucket(stage: string)
    | PairBucket(harness: Option<string>, model: Option<string>)
    | DayBucket(day: int)

  datatype By = BySlot | ByHarnessModel | ByDay

  /** Days since the epoch: seconds by integer division, as SQLite divides, then whole days. */
  function DayOf(ms: int): int { (if ms >= 0 then ms / 1000 else -((-ms) / 1000)) / 86400 }

  function BucketOf(r: AgentRun, axis: By): Bucket {
    match axis
    case BySlot => SlotBucket(r.stage)
    case ByHarnessModel => PairBucket(r.harness, r.model)
    case ByDay => DayBucket(if r.endedAt.Some? then DayOf(r.endedAt.value) else 0)
  }

  function OrZero(n: Option<int>): int { if n.Some? then n.value else 0 }

  function Bill(r: AgentRun): Billed { Billed(r.model, OrZero(r.input), OrZero(r.output)) }

  /** The contributing runs, and those of one bucket. */
  function ProjectRuns(tables: Tables, project: string, runs: seq<AgentRun>): seq<AgentRun> {
    if runs == [] then []
    else
      var last := runs[|runs| - 1];
      ProjectRuns(tables, project, runs[..|runs| - 1]) + if Contributes(tables, project, last) then [last] else []
  }

  function Bills(runs: seq<AgentRun>): seq<Billed> {
    if runs == [] then [] else Bills(runs[..|runs| - 1]) + [Bill(runs[|runs| - 1])]
  }

  function InBucket(runs: seq<AgentRun>, axis: By, bucket: Bucket): seq<Billed> {
    if runs == [] then []
    else
      var last := runs[|runs| - 1];
      InBucket(runs[..|runs| - 1], axis, bucket) + if BucketOf(last, axis) == bucket then [Bill(last)] else []
  }

  datatype Row = Row(bucket: Bucket, billed: Billed)

  function RowsOf(rows: seq<Row>, bucket: Bucket): seq<Billed> {
    if rows == [] then []
    else
      var last := rows[|rows| - 1];
      RowsOf(rows[..|rows| - 1], bucket) + if last.bucket == bucket then [last.billed] else []
  }

  /** `rows` is what the SQL returns: for each bucket, its runs grouped by model, in any order. */
  ghost predicate GroupedRows(runs: seq<AgentRun>, axis: By, rows: seq<Row>) {
    forall bucket :: Grouped(InBucket(runs, axis, bucket), RowsOf(rows, bucket))
  }

  predicate NonNegativeRuns(runs: seq<AgentRun>) {
    forall k :: 0 <= k < |runs| ==> OrZero(runs[k].input) >= 0 && OrZero(runs[k].output) >= 0
  }

  lemma {:induction false} BucketNonNegative(runs: seq<AgentRun>, axis: By, bucket: Bucket)
    requires NonNegativeRuns(runs)
    ensures NonNegative(InBucket(runs, axis, bucket))
  {
    hide BucketOf;
    if runs != [] { BucketNonNegative(runs[..|runs| - 1], axis, bucket); }
  }

  /** A bucket's rows fold to the direct totals of its own runs: the summed tokens, and the
      per-run sum of dollars, or none exactly when a run with tokens has an unknown or missing
      model. It has rows exactly when it has runs. */
  lemma BucketsAreDirect(runs: seq<AgentRun>, axis: By, rows: seq<Row>, bucket: Bucket)
    requires NonNegativeRuns(runs) && GroupedRows(runs, axis, rows)
    ensures TotalsOf(RowsOf(rows, bucket)) == TotalsOf(InBucket(runs, axis, bucket))
    ensures RowsOf(rows, bucket) == [] <==> InBucket(runs, axis, bucket) == []
  {
    BucketNonNegative(runs, axis, bucket);
    hide InBucket;
    hide RowsOf;
    hide NonNegative;
    hide TotalsOf;
    var xs, groups := InBucket(runs, axis, bucket), RowsOf(rows, bucket);
    assert Grouped(xs, groups);
    assert xs == [] && groups != [] ==> HasModel([], groups[0].model);
    hide Grouped;
    GroupThenFold(xs, groups);
    if groups == [] { GroupedNothing(xs); }
  }

  // ---- one row for each harness and model ----

  lemma {:induction false} PairModels(runs: seq<AgentRun>, bucket: Bucket)
    ensures forall x :: x in InBucket(runs, ByHarnessModel, bucket) ==> bucket.PairBucket? && x.model == bucket.model
  {
    if runs != [] { PairModels(runs[..|runs| - 1], bucket); }
  }

  lemma {:induction false} RowsOfHas(rows: seq<Row>, k: nat)
    requires k < |rows|
    ensures rows[k].billed in RowsOf(rows, rows[k].bucket)
  {
    if k < |rows| - 1 { RowsOfHas(rows[..|rows| - 1], k); }
  }

  lemma {:induction false} RowsOfTwo(rows: seq<Row>, j: nat, k: nat)
    requires j < k < |rows| && rows[j].bucket == rows[k].bucket
    ensures |RowsOf(rows, rows[k].bucket)| > 1
  {
    if k < |rows| - 1 {
      RowsOfTwo(rows[..|rows| - 1], j, k);
    } else {
      RowsOfHas(rows[..|rows| - 1], j);
    }
  }

  lemma OneModelOneGroup(xs: seq<Billed>, groups: seq<Billed>, model: Option<string>)
    requires Grouped(xs, groups) && forall x :: x in xs ==> x.model == model
    ensures |groups| <= 1
  {
    hide GroupOf;
    assert |groups| <= 1 || groups[0].model != groups[1].model;
    forall j | 0 <= j < |groups| ensures groups[j].model == model {
      var k :| 0 <= k < |xs| && xs[k].model == groups[j].model;
      assert xs[k] in xs;
    }
    hide HasModel;
  }

  lemma PairHasOneRow(runs: seq<AgentRun>, rows: seq<Row>, bucket: Bucket)
    requires GroupedRows(runs, ByHarnessModel, rows)
    ensures |RowsOf(rows, bucket)| <= 1
  {
    PairModels(runs, bucket);
    hide InBucket;
    hide RowsOf;
    hide Grouped;
    OneModelOneGroup(InBucket(runs, ByHarnessModel, bucket), RowsOf(rows, bucket),
                     if bucket.PairBucket? then bucket.model else None);
  }

  lemma AloneIfSingle(rows: seq<Row>, k: nat)
    requires k < |rows| && |RowsOf(rows, rows[k].bucket)| <= 1
    ensures RowsOf(rows, rows[k].bucket) == [rows[k].billed]
  {
    RowsOfHas(rows, k);
    hide *;
  }

  lemma FirstIfSingle(rows: seq<Row>, j: nat, k: nat)
    requires j < k < |rows| && |RowsOf(rows, rows[k].bucket)| <= 1
    ensures rows[j].bucket != rows[k].bucket
  {
    hide *;
    if rows[j].bucket == rows[k].bucket { RowsOfTwo(rows, j, k); }
  }

  /** Grouping by harness and model returns one row for each pair that occurs. */
  lemma PairRowsAreAlone(runs: seq<AgentRun>, rows: seq<Row>)
    requires GroupedRows(runs, ByHarnessModel, rows)
    ensures forall k :: 0 <= k < |rows| ==> RowsOf(rows, rows[k].bucket) == [rows[k].billed]
    ensures forall j, k :: 0 <= j < k < |rows| ==> rows[j].bucket != rows[k].bucket
  {
    hide *;
    forall k | 0 <= k < |rows| ensures RowsOf(rows, rows[k].bucket) == [rows[k].billed] {
      PairHasOneRow(runs, rows, rows[k].bucket);
      AloneIfSingle(rows, k);
    }
    forall j, k | 0 <= j < k < |rows| ensures rows[j].bucket != rows[k].bucket {
      PairHasOneRow(runs, rows, rows[k].bucket);
      FirstIfSingle(rows, j, k);
    }
  }

  // ---- what is shown ----

  datatype Shown = Shown(bucket: Bucket, totals: Totals)

  predicate Shows(shown: seq<Shown>, bucket: Bucket) { exists k :: 0 <= k < |shown| && shown[k].bucket == bucket }

  predicate OnceEach(shown: seq<Shown>) { forall i, j :: 0 <= i < j < |shown| ==> shown[i].bucket != shown[j].bucket }

  /** Each bucket that has runs is shown once, with the direct totals of its runs. */
  ghost predicate ShowsRuns(shown: seq<Shown>, runs: seq<AgentRun>, axis: By) {
    && OnceEach(shown)
    && (forall bucket :: Shows(shown, bucket) <==> InBucket(runs, axis, bucket) != [])
    && (forall k :: 0 <= k < |shown| ==> shown[k].totals == TotalsOf(InBucket(runs, axis, shown[k].bucket)))
  }

  /** The sub-rows collected per bucket, then each bucket folded. */
  method LoadBuckets(rows: seq<Row>) returns (shown: seq<Shown>)
    ensures OnceEach(shown)
    ensures forall bucket :: Shows(shown, bucket) <==> RowsOf(rows, bucket) != []
    ensures forall k :: 0 <= k < |shown| ==> shown[k].totals == TotalsOf(RowsOf(rows, shown[k].bucket))
  {
    hide TotalsOf;
    var subs: map<Bucket, seq<Billed>> := map[];
    for k := 0 to |rows|
      invariant forall bucket :: bucket in subs <==> RowsOf(rows[..k], bucket) != []
      invariant forall bucket :: bucket in subs ==> subs[bucket] == RowsOf(rows[..k], bucket)
    {
      assert rows[..k + 1][..k] == rows[..k];
      var row := rows[k];
      subs := subs[row.bucket := (if row.bucket in subs then subs[row.bucket] else []) + [row.billed]];
    }
    assert rows[..|rows|] == rows;
    hide RowsOf;
    shown := [];
    var rest := subs.Keys;
    while rest != {}
      invariant rest <= subs.Keys && OnceEach(shown)
      invariant forall bucket :: Shows(shown, bucket) <==> bucket in subs && bucket !in rest
      invariant forall k :: 0 <= k < |shown| ==>
                  shown[k].bucket in subs && shown[k].totals == TotalsOf(subs[shown[k].bucket])
    {
      var bucket :| bucket in rest;
      var totals := FoldBucket(subs[bucket]);
      ShowsMore(shown, Shown(bucket, totals));
      shown, rest := shown + [Shown(bucket, totals)], rest - {bucket};
    }
  }

  lemma ShowsMore(shown: seq<Shown>, x: Shown)
    ensures forall bucket :: Shows(shown + [x], bucket) <==> Shows(shown, bucket) || bucket == x.bucket
    ensures OnceEach(shown) && !Shows(shown, x.bucket) ==> OnceEach(shown + [x])
  {
    var more := shown + [x];
    forall bucket ensures Shows(more, bucket) <==> Shows(shown, bucket) || bucket == x.bucket {
      if k :| 0 <= k < |shown| && shown[k].bucket == bucket { assert more[k].bucket == bucket; }
      assert more[|shown|] == x;
    }
  }

  /** The harness and model rows, each folded alone. */
  method LoadPairs(rows: seq<Row>) returns (shown: seq<Shown>)
    ensures |shown| == |rows|
    ensures forall k :: 0 <= k < |rows| ==> shown[k] == Shown(rows[k].bucket, TotalsOf([rows[k].billed]))
  {
    hide TotalsOf;
    shown := [];
    for k := 0 to |rows|
      invariant |shown| == k
      invariant forall j :: 0 <= j < k ==> shown[j] == Shown(rows[j].bucket, TotalsOf([rows[j].billed]))
    {
      var totals := FoldBucket([rows[k].billed]);
      shown := shown + [Shown(rows[k].bucket, totals)];
    }
  }

  lemma BucketsShowRuns(shown: seq<Shown>, runs: seq<AgentRun>, axis: By, rows: seq<Row>)
    requires NonNegativeRuns(runs) && GroupedRows(runs, axis, rows) && OnceEach(shown)
    requires forall bucket :: Shows(shown, bucket) <==> RowsOf(rows, bucket) != []
    requires forall k :: 0 <= k < |shown| ==> shown[k].totals == TotalsOf(RowsOf(rows, shown[k].bucket))
    ensures ShowsRuns(shown, runs, axis)
  {
    hide TotalsOf;
    hide GroupedRows;
    hide RowsOf;
    hide InBucket;
    hide Shows;
    forall bucket
      ensures TotalsOf(RowsOf(rows, bucket)) == TotalsOf(InBucket(runs, axis, bucket))
      ensures RowsOf(rows, bucket) == [] <==> InBucket(runs, axis, bucket) == []
    {
      BucketsAreDirect(runs, axis, rows, bucket);
    }
  }

  lemma {:induction false} RowsOfNone(rows: seq<Row>, bucket: Bucket)
    requires RowsOf(rows, bucket) != []
    ensures exists k :: 0 <= k < |rows| && rows[k].bucket == bucket
  {
    var n := |rows| - 1;
    if rows[n].bucket != bucket {
      RowsOfNone(rows[..n], bucket);
      var k :| 0 <= k < n && rows[..n][k].bucket == bucket;
      assert rows[k].bucket == bucket;
    }
  }

  /** Folding each harness and model row alone shows the same as folding its bucket. */
  lemma PairsShowRuns(shown: seq<Shown>, runs: seq<AgentRun>, rows: seq<Row>)
    requires NonNegativeRuns(runs) && GroupedRows(runs, ByHarnessModel, rows) && |shown| == |rows|
    requires forall k :: 0 <= k < |rows| ==> shown[k] == Shown(rows[k].bucket, TotalsOf([rows[k].billed]))
    ensures ShowsRuns(shown, runs, ByHarnessModel)
  {
    hide TotalsOf;
    hide GroupedRows;
    PairRowsAreAlone(runs, rows);
    forall bucket ensures Shows(shown, bucket) <==> RowsOf(rows, bucket) != [] {
      if RowsOf(rows, bucket) != [] {
        RowsOfNone(rows, bucket);
        var k :| 0 <= k < |rows| && rows[k].bucket == bucket;
        assert shown[k].bucket == bucket;
      }
      if Shows(shown, bucket) {
        var k :| 0 <= k < |shown| && shown[k].bucket == bucket;
        assert rows[k].bucket == bucket;
      }
    }
    hide RowsOf;
    hide Shows;
    BucketsShowRuns(shown, runs, ByHarnessModel, rows);
  }

  // ---- the buckets add up to the project ----

  function SumBuckets(runs: seq<AgentRun>, axis: By, buckets: seq<Bucket>, output: bool): int {
    if buckets == [] then 0
    else SumBuckets(runs, axis, buckets[..|buckets| - 1], output)
         + SumTokens(InBucket(runs, axis, buckets[|buckets| - 1]), output)
  }

  predicate Distinct(buckets: seq<Bucket>) { forall i, j :: 0 <= i < j < |buckets| ==> buckets[i] != buckets[j] }

  function TokensOf(r: AgentRun, output: bool): int { if output then OrZero(r.output) else OrZero(r.input) }

  lemma InBucketAppend(runs: seq<AgentRun>, r: AgentRun, axis: By, bucket: Bucket, output: bool)
    ensures SumTokens(InBucket(runs + [r], axis, bucket), output) ==
            SumTokens(InBucket(runs, axis, bucket), output)
            + if BucketOf(r, axis) == bucket then TokensOf(r, output) else 0
  {
    assert (runs + [r])[..|runs|] == runs;
    var xs := InBucket(runs, axis, bucket);
    assert xs + [] == xs;
    assert InBucket(runs + [r], axis, bucket) == xs + if BucketOf(r, axis) == bucket then [Bill(r)] else [];
    assert TokensOf(r, output) == if output then Bill(r).output else Bill(r).input;
    hide *;
    SumAppend(xs, Bill(r), output);
  }

  lemma {:induction false} OneMoreRun(runs: seq<AgentRun>, r: AgentRun, axis: By, buckets: seq<Bucket>, output: bool)
    requires Distinct(buckets)
    ensures SumBuckets(runs + [r], axis, buckets, output) ==
            SumBuckets(runs, axis, buckets, output) + if BucketOf(r, axis) in buckets then TokensOf(r, output) else 0
  {
    if buckets != [] {
      var head, last := buckets[..|buckets| - 1], buckets[|buckets| - 1];
      OneMoreRun(runs, r, axis, head, output);
      InBucketAppend(runs, r, axis, last, output);
      assert BucketOf(r, axis) in buckets <==> BucketOf(r, axis) in head || BucketOf(r, axis) == last;
      assert last !in head;
    }
    hide BucketOf;
    hide InBucket;
    hide SumTokens;
  }

  /** Whatever the grouping, the buckets' tokens add up to those of all the project's runs. */
  lemma {:induction false} BucketsAddUp(runs: seq<AgentRun>, axis: By, buckets: seq<Bucket>, output: bool)
    requires Distinct(buckets) && forall k :: 0 <= k < |runs| ==> BucketOf(runs[k], axis) in buckets
    ensures SumBuckets(runs, axis, buckets, output) == SumTokens(Bills(runs), output)
  {
    hide SumBuckets;
    hide SumTokens;
    hide BucketOf;
    hide Distinct;
    if runs == [] {
      NoRunsNoTokens(axis, buckets, output);
    } else {
      var head, last := runs[..|runs| - 1], runs[|runs| - 1];
      assert forall k :: 0 <= k < |head| ==> head[k] == runs[k];
      BucketsAddUp(head, axis, buckets, output);
      OneMoreRun(head, last, axis, buckets, output);
      assert head + [last] == runs;
      SumAppend(Bills(head), Bill(last), output);
    }
  }

  lemma {:induction false} NoRunsNoTokens(axis: By, buckets: seq<Bucket>, output: bool)
    ensures SumBuckets([], axis, buckets, output) == 0 && SumTokens([], output) == 0
  {
    if buckets != [] { NoRunsNoTokens(axis, buckets[..|buckets| - 1], output); }
  }

  function SumShown(shown: seq<Shown>, output: bool): int {
    if shown == [] then 0
    else SumShown(shown[..|shown| - 1], output)
         + if output then shown[|shown| - 1].totals.output else shown[|shown| - 1].totals.input
  }

  function BucketsOf(shown: seq<Shown>): (buckets: seq<Bucket>)
    ensures |buckets| == |shown| && forall k :: 0 <= k < |shown| ==> buckets[k] == shown[k].bucket
  {
    seq(|shown|, k requires 0 <= k < |shown| => shown[k].bucket)
  }

  lemma {:induction false} ShownSums(shown: seq<Shown>, runs: seq<AgentRun>, axis: By, output: bool)
    requires forall k :: 0 <= k < |shown| ==> shown[k].totals == TotalsOf(InBucket(runs, axis, shown[k].bucket))
    ensures SumShown(shown, output) == SumBuckets(runs, axis, BucketsOf(shown), output)
  {
    hide InBucket;
    hide SumTokens;
    hide SumCost;
    hide AnyUnpriced;
    if shown != [] {
      var head := shown[..|shown| - 1];
      ShownSums(head, runs, axis, output);
      assert BucketsOf(shown)[..|shown| - 1] == BucketsOf(head);
      hide BucketsOf;
    }
  }

  lemma {:induction false} RunsInBucket(runs: seq<AgentRun>, axis: By, k: nat)
    requires k < |runs|
    ensures InBucket(runs, axis, BucketOf(runs[k], axis)) != []
  {
    hide BucketOf;
    if k < |runs| - 1 { RunsInBucket(runs[..|runs| - 1], axis, k); }
  }

  /** What is shown adds up to the tokens of the runs. */
  lemma ShownAddsUp(shown: seq<Shown>, runs: seq<AgentRun>, axis: By, output: bool)
    requires ShowsRuns(shown, runs, axis)
    ensures SumShown(shown, output) == SumTokens(Bills(runs), output)
  {
    ShownSums(shown, runs, axis, output);
    var buckets := BucketsOf(shown);
    forall k | 0 <= k < |runs| ensures BucketOf(runs[k], axis) in buckets {
      RunsInBucket(runs, axis, k);
      assert Shows(shown, BucketOf(runs[k], axis));
      var j :| 0 <= j < |shown| && shown[j].bucket == BucketOf(runs[k], axis);
      assert buckets[j] == BucketOf(runs[k], axis);
    }
    hide InBucket;
    hide BucketOf;
    hide SumShown;
    hide SumBuckets;
    hide TotalsOf;
    BucketsAddUp(runs, axis, buckets, output);
  }

  // ---- the project's cost ----

  lemma {:induction false} ProjectRunsNonNegative(tables: Tables, project: string, runs: seq<AgentRun>)
    requires NonNegativeRuns(runs)
    ensures NonNegativeRuns(ProjectRuns(tables, project, runs))
  {
    hide Contributes;
    if runs != [] { ProjectRunsNonNegative(tables, project, runs[..|runs| - 1]); }
  }

  /** The three results of the queries: the runs of `all` that the joins reach from the project,
      grouped by slot, by harness and model, and by day, each with its model groups summed. */
  ghost predicate Queried(runs: seq<AgentRun>, slotRows: seq<Row>, pairRows: seq<Row>, dayRows: seq<Row>) {
    && GroupedRows(runs, BySlot, slotRows) && GroupedRows(runs, ByHarnessModel, pairRows)
    && GroupedRows(runs, ByDay, dayRows)
  }

  /** `load_project_cost`: under each grouping every bucket of the project's contributing runs is
      shown once, with the direct totals of its runs, and the tokens shown add up to the
      project's. */
  method LoadProjectCost(ghost tables: Tables, ghost project: string, ghost all: seq<AgentRun>,
                         slotRows: seq<Row>, pairRows: seq<Row>, dayRows: seq<Row>)
    returns (bySlot: seq<Shown>, byPair: seq<Shown>, byDay: seq<Shown>)
    requires NonNegativeRuns(all) && Queried(ProjectRuns(tables, project, all), slotRows, pairRows, dayRows)
    ensures var runs := ProjectRuns(tables, project, all);
            && ShowsRuns(bySlot, runs, BySlot) && ShowsRuns(byPair, runs, ByHarnessModel)
            && ShowsRuns(byDay, runs, ByDay)
            && forall output: bool ::
                 SumShown(bySlot, output) == SumShown(byPair, output) == SumShown(byDay, output)
                 == SumTokens(Bills(runs), output)
  {
    ghost var runs := ProjectRuns(tables, project, all);
    ProjectRunsNonNegative(tables, project, all);
    bySlot := LoadBuckets(slotRows);
    byPair := LoadPairs(pairRows);
    byDay := LoadBuckets(dayRows);
    hide *;
    QueriedIs(runs, slotRows, pairRows, dayRows);
    BucketsShowRuns(bySlot, runs, BySlot, slotRows);
    PairsShowRuns(byPair, runs, pairRows);
    BucketsShowRuns(byDay, runs, ByDay, dayRows);
    forall output: bool
      ensures SumShown(bySlot, output) == SumShown(byPair, output) == SumShown(byDay, output)
              == SumTokens(Bills(runs), output)
    {
      ShownAddsUp(bySlot, runs, BySlot, output);
      ShownAddsUp(byPair, runs, ByHarnessModel, output);
      ShownAddsUp(byDay, runs, ByDay, output);
    }
  }

  lemma QueriedIs(runs: seq<AgentRun>, slotRows: seq<Row>, pairRows: seq<Row>, dayRows: seq<Row>)
    requires Queried(runs, slotRows, pairRows, dayRows)
    ensures GroupedRows(runs, BySlot, slotRows) && GroupedRows(runs, ByHarnessModel, pairRows)
    ensures GroupedRows(runs, ByDay, dayRows)
  {
    hide GroupedRows;
  }
}
