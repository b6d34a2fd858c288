/**
 The model catalog: what the loader accepts, and what acceptance promises about the prices of the
 models that efforts and rungs resolve to. Rates are USD per million tokens.
 */
module LlmCatalog {
  import opened Wrappers

  datatype Rates = Rates(input: real, output: real, cachedInput: real, cacheWrite: real)

  /** The card for prompts strictly above `above` tokens. */
  datatype LongPrompt = LongPrompt(above: int, rates: Rates)

  datatype ModelPrice = ModelPrice(flat: Rates, longPrompt: Option<LongPrompt>)

  function ForPrompt(price: ModelPrice, promptTokens: int): Rates {
    if price.longPrompt.Some? && promptTokens > price.longPrompt.value.above then price.longPrompt.value.rates
    else price.flat
  }

  datatype EffortName = Low | Medium | High

  /** Loop parameters of one effort; an absent thinking budget is unbounded. */
  datatype Effort = Effort(
    rung: int, maxSteps: int, rewriteVariants: int, critiqueSteps: int,
    maxOutputTokens: Option<int>, thinkingBudget: Option<int>, loopRung: Option<int>)

  datatype Entry = Entry(model: string, price: Rates, longPrompt: Option<LongPrompt>)

  datatype Provider = Provider(name: string, entries: seq<Entry>)

  datatype CatalogError =
    | NegativeRate | BadThreshold | LongPromptCheaper | NoModels | DuplicateModel | OutOfPriceOrder
    | MissingEffort | BadEffort | EffortsOutOfOrder | UnknownProvider | UnknownEffort

  datatype Catalog = Catalog(
    prices: map<string, ModelPrice>, providerModels: map<string, seq<string>>, efforts: map<EffortName, Effort>)

  // ---------------------------------------------------------------------------
  // Prices
  // ---------------------------------------------------------------------------

  function ParseRates(r: Rates): (checked: Result<Rates, CatalogError>)
    ensures checked.Ok? <==> r.input >= 0.0 && r.output >= 0.0 && r.cachedInput >= 0.0 && r.cacheWrite >= 0.0
    ensures checked.Ok? ==> checked.value == r
  {
    if r.input < 0.0 || r.output < 0.0 || r.cachedInput < 0.0 || r.cacheWrite < 0.0 then Err(NegativeRate) else Ok(r)
  }

  function ParsePrice(e: Entry): Result<ModelPrice, CatalogError> {
    match ParseRates(e.price)
    case Err(error) => Err(error)
    case Ok(flat) =>
      match e.longPrompt
      case None => Ok(ModelPrice(flat, None))
      case Some(tier) =>
        if tier.above <= 0 then Err(BadThreshold)
        else
          match ParseRates(tier.rates)
          case Err(error) => Err(error)
          case Ok(rates) =>
            if rates.input < flat.input || rates.output < flat.output then Err(LongPromptCheaper)
            else Ok(ModelPrice(flat, Some(LongPrompt(tier.above, rates))))
  }

  ghost predicate NoneNegative(r: Rates) {
    r.input >= 0.0 && r.output >= 0.0 && r.cachedInput >= 0.0 && r.cacheWrite >= 0.0
  }

  /**
   A price loads as it is written if and only if no rate is negative and a long-prompt tier, if any, starts at a
   positive number of tokens and is at least as dear in input and output.
   */
  lemma PriceLoadsExactlyWhen(e: Entry)
    ensures ParsePrice(e).Ok? <==>
            && NoneNegative(e.price)
            && (e.longPrompt.Some? ==>
                  var tier := e.longPrompt.value;
                  && tier.above > 0 && NoneNegative(tier.rates)
                  && e.price.input <= tier.rates.input && e.price.output <= tier.rates.output)
    ensures ParsePrice(e).Ok? ==> ParsePrice(e).value == ModelPrice(e.price, e.longPrompt)
  {
  }

  predicate NoCheaper(a: Rates, b: Rates) {
    a.input <= b.input && a.output <= b.output
  }

  ghost predicate CheapestFirst(entries: seq<Entry>) {
    forall j, k :: 0 <= j <= k < |entries| ==> NoCheaper(entries[j].price, entries[k].price)
  }

  /** Comparing each entry with the one before it is enough for the whole list. */
  method CheckPriceOrder(entries: seq<Entry>) returns (ok: bool)
    ensures ok <==> CheapestFirst(entries)
  {
    var prev: Option<Rates> := None;
    for k := 0 to |entries|
      invariant prev == if k == 0 then None else Some(entries[k - 1].price)
      invariant CheapestFirst(entries[..k])
    {
      var here := entries[k].price;
      if prev.Some? && (here.input < prev.value.input || here.output < prev.value.output) {
        assert !NoCheaper(entries[k - 1].price, entries[k].price);
        return false;
      }
      assert entries[..k + 1] == entries[..k] + [entries[k]];
      assert k > 0 ==> entries[..k][k - 1] == entries[k - 1];
      prev := Some(here);
    }
    assert entries[..|entries|] == entries;
    return true;
  }

  // ---------------------------------------------------------------------------
  // Loading
  // ---------------------------------------------------------------------------

  function ModelsOf(entries: seq<Entry>): (models: seq<string>)
    ensures |models| == |entries| && forall k :: 0 <= k < |models| ==> models[k] == entries[k].model
  {
    seq(|entries|, k requires 0 <= k < |entries| => entries[k].model)
  }

  /** Every entry's model is priced, by that very entry. */
  ghost predicate Priced(prices: map<string, ModelPrice>, entries: seq<Entry>) {
    forall k :: 0 <= k < |entries| ==>
      entries[k].model in prices && ParsePrice(entries[k]) == Ok(prices[entries[k].model])
  }

  ghost predicate ProviderLoaded(prices: map<string, ModelPrice>, models: map<string, seq<string>>, p: Provider) {
    && |p.entries| > 0 && CheapestFirst(p.entries) && Priced(prices, p.entries)
    && p.name in models && models[p.name] == ModelsOf(p.entries)
  }

  ghost function Names(entries: seq<Entry>): set<string> {
    if entries == [] then {} else Names(Front(entries)) + {Last(entries).model}
  }

  /** Every entry is well priced, and its model is neither taken nor listed before. */
  ghost predicate Addable(taken: set<string>, entries: seq<Entry>) {
    entries == [] ||
    (&& Addable(taken, Front(entries))
     && Last(entries).model !in taken + Names(Front(entries)) && ParsePrice(Last(entries)).Ok?)
  }

  function Front<T>(s: seq<T>): seq<T>
    requires s != []
  {
    s[..|s| - 1]
  }

  function Last<T>(s: seq<T>): T
    requires s != []
  {
    s[|s| - 1]
  }

  lemma {:induction false} AddableInTurn(taken: set<string>, first: seq<Entry>, rest: seq<Entry>)
    ensures Names(first + rest) == Names(first) + Names(rest)
    ensures Addable(taken, first + rest) <==> Addable(taken, first) && Addable(taken + Names(first), rest)
    decreases |rest|
  {
    if rest == [] {
      assert first + rest == first;
    } else {
      AddableInTurn(taken, first, Front(rest));
      assert Front(first + rest) == first + Front(rest);
      assert taken + Names(first) + Names(Front(rest)) == taken + Names(first + Front(rest));
    }
  }

  lemma {:induction false} NamesAreModels(entries: seq<Entry>, m: string)
    ensures m in Names(entries) <==> exists k :: 0 <= k < |entries| && entries[k].model == m
  {
    if entries != [] {
      var front := Front(entries);
      NamesAreModels(front, m);
      assert forall k :: 0 <= k < |front| ==> front[k] == entries[k];
      assert entries == front + [Last(entries)];
    }
  }

  /** In one line: all well priced, none taken, no two alike. */
  lemma {:induction false} AddableExactlyWhen(taken: set<string>, entries: seq<Entry>)
    ensures Addable(taken, entries) <==>
            && (forall k :: 0 <= k < |entries| ==> ParsePrice(entries[k]).Ok? && entries[k].model !in taken)
            && (forall j, k :: 0 <= j < k < |entries| ==> entries[j].model != entries[k].model)
  {
    if entries != [] {
      var front, n := Front(entries), |entries| - 1;
      AddableExactlyWhen(taken, front);
      NamesAreModels(front, Last(entries).model);
      assert forall k :: 0 <= k < n ==> front[k] == entries[k];
    }
  }

  /** Adds one list's prices; a model that is already priced is refused, so no price is ever replaced. */
  method AddEntries(prices: map<string, ModelPrice>, entries: seq<Entry>)
    returns (r: Result<map<string, ModelPrice>, CatalogError>)
    ensures r.Ok? <==> Addable(prices.Keys, entries)
    ensures r.Ok? ==> Priced(r.value, entries) && forall m :: m in prices ==> m in r.value && r.value[m] == prices[m]
    ensures r.Ok? ==> r.value.Keys == prices.Keys + Names(entries)
  {
    var out := prices;
    for k := 0 to |entries|
      invariant Priced(out, entries[..k]) && Addable(prices.Keys, entries[..k])
      invariant out.Keys == prices.Keys + Names(entries[..k])
      invariant forall m :: m in prices ==> m in out && out[m] == prices[m]
    {
      var e := entries[k];
      assert entries == entries[..k + 1] + entries[k + 1..];
      assert Front(entries[..k + 1]) == entries[..k];
      AddableInTurn(prices.Keys, entries[..k + 1], entries[k + 1..]);
      if e.model in out { return Err(DuplicateModel); }
      match ParsePrice(e) {
        case Err(error) => return Err(error);
        case Ok(price) => out := out[e.model := price];
      }
      assert entries[..k + 1] == entries[..k] + [e];
    }
    assert entries[..|entries|] == entries;
    return Ok(out);
  }

  /** All the providers' entries, in the order they are declared. */
  ghost function Flat(providers: seq<Provider>): seq<Entry> {
    if providers == [] then [] else Flat(Front(providers)) + Last(providers).entries
  }

  lemma FlatGrows(providers: seq<Provider>, k: nat)
    requires k < |providers|
    ensures Flat(providers[..k + 1]) == Flat(providers[..k]) + providers[k].entries
  {
    assert Front(providers[..k + 1]) == providers[..k];
  }

  lemma {:induction false} FlatIsPrefix(providers: seq<Provider>, k: nat)
    requires k <= |providers|
    ensures exists rest :: Flat(providers) == Flat(providers[..k]) + rest
    decreases |providers| - k
  {
    if k == |providers| {
      assert providers[..k] == providers;
      assert Flat(providers) == Flat(providers[..k]) + [];
    } else {
      FlatIsPrefix(providers, k + 1);
      FlatGrows(providers, k);
      var rest :| Flat(providers) == Flat(providers[..k + 1]) + rest;
      assert Flat(providers) == Flat(providers[..k]) + (providers[k].entries + rest);
    }
  }

  ghost predicate WellListed(p: Provider) {
    |p.entries| > 0 && CheapestFirst(p.entries)
  }

  ghost predicate ProvidersAcceptable(providers: seq<Provider>) {
    (forall p :: p in providers ==> WellListed(p)) && Addable({}, Flat(providers))
  }

  /** No empty list, every list cheapest first, every price well formed, and no model priced twice anywhere. */
  ghost predicate Acceptable(providers: seq<Provider>, embeddings: seq<Entry>) {
    && |providers| > 0 && |embeddings| > 0
    && (forall p :: p in providers ==> WellListed(p))
    && Addable({}, Flat(providers) + embeddings)
  }

  ghost predicate NamesDiffer(providers: seq<Provider>) {
    forall j, k :: 0 <= j < k < |providers| ==> providers[j].name != providers[k].name
  }

  ghost predicate AllLoaded(prices: map<string, ModelPrice>, models: map<string, seq<string>>,
                            providers: seq<Provider>)
  {
    && (forall p :: p in providers ==> ProviderLoaded(prices, models, p))
    && (forall name :: name in models ==> exists p :: p in providers && p.name == name)
  }

  lemma AcceptableSoFar(providers: seq<Provider>, k: nat)
    requires k < |providers| && ProvidersAcceptable(providers)
    ensures Addable(Names(Flat(providers[..k])), providers[k].entries)
  {
    FlatIsPrefix(providers, k + 1);
    FlatGrows(providers, k);
    var rest :| Flat(providers) == Flat(providers[..k + 1]) + rest;
    AddableInTurn({}, Flat(providers[..k + 1]), rest);
    AddableInTurn({}, Flat(providers[..k]), providers[k].entries);
    assert {} + Names(Flat(providers[..k])) == Names(Flat(providers[..k]));
  }

  lemma PricesKept(prices: map<string, ModelPrice>, more: map<string, ModelPrice>, entries: seq<Entry>)
    requires Priced(prices, entries) && forall m :: m in prices ==> m in more && more[m] == prices[m]
    ensures Priced(more, entries)
  {
  }

  /** Adding one provider under a new name disturbs none of those already loaded. */
  lemma OneMoreLoaded(prices: map<string, ModelPrice>, more: map<string, ModelPrice>, models: map<string, seq<string>>,
                      providers: seq<Provider>, p: Provider)
    requires AllLoaded(prices, models, providers)
    requires forall m :: m in prices ==> m in more && more[m] == prices[m]
    requires Priced(more, p.entries) && WellListed(p) && NamesDiffer(providers + [p])
    ensures AllLoaded(more, models[p.name := ModelsOf(p.entries)], providers + [p])
  {
    var after := models[p.name := ModelsOf(p.entries)];
    var all := providers + [p];
    assert all[|providers|] == p;
    forall q | q in all ensures ProviderLoaded(more, after, q) {
      if q in providers {
        var j :| 0 <= j < |providers| && providers[j] == q;
        assert all[j].name != all[|providers|].name;
        assert ProviderLoaded(prices, models, q);
        PricesKept(prices, more, q.entries);
      }
    }
    forall name | name in after ensures exists q :: q in all && q.name == name {
      if name == p.name {
        assert p in all;
      } else {
        var q :| q in providers && q.name == name;
        assert q in all;
      }
    }
  }

  ghost predicate SoFar(prices: map<string, ModelPrice>, models: map<string, seq<string>>, providers: seq<Provider>) {
    ProvidersAcceptable(providers) && prices.Keys == Names(Flat(providers)) && AllLoaded(prices, models, providers)
  }

  lemma SoFarGrows(prices: map<string, ModelPrice>, more: map<string, ModelPrice>, models: map<string, seq<string>>,
                   providers: seq<Provider>, k: nat)
    requires k < |providers| && NamesDiffer(providers) && SoFar(prices, models, providers[..k])
    requires WellListed(providers[k]) && Addable(prices.Keys, providers[k].entries)
    requires Priced(more, providers[k].entries) && more.Keys == prices.Keys + Names(providers[k].entries)
    requires forall m :: m in prices ==> m in more && more[m] == prices[m]
    ensures SoFar(more, models[providers[k].name := ModelsOf(providers[k].entries)], providers[..k + 1])
  {
    FlatGrows(providers, k);
    AddableInTurn({}, Flat(providers[..k]), providers[k].entries);
    assert {} + prices.Keys == prices.Keys;
    assert providers[..k + 1] == providers[..k] + [providers[k]];
    OneMoreLoaded(prices, more, models, providers[..k], providers[k]);
  }

  method LoadProviders(providers: seq<Provider>)
    returns (r: Result<(map<string, ModelPrice>, map<string, seq<string>>), CatalogError>)
    requires NamesDiffer(providers)
    ensures r.Ok? <==> ProvidersAcceptable(providers)
    ensures r.Ok? ==> SoFar(r.value.0, r.value.1, providers)
  {
    var prices: map<string, ModelPrice>, models: map<string, seq<string>> := map[], map[];
    for k := 0 to |providers|
      invariant SoFar(prices, models, providers[..k])
    {
      var p := providers[k];
      assert p in providers && (ProvidersAcceptable(providers) ==> WellListed(p));
      if |p.entries| == 0 { return Err(NoModels); }
      var added := AddEntries(prices, p.entries);
      if added.Err? {
        if ProvidersAcceptable(providers) { AcceptableSoFar(providers, k); }
        return Err(added.error);
      }
      var ordered := CheckPriceOrder(p.entries);
      if !ordered { return Err(OutOfPriceOrder); }
      SoFarGrows(prices, added.value, models, providers, k);
      prices, models := added.value, models[p.name := ModelsOf(p.entries)];
    }
    assert providers[..|providers|] == providers;
    return Ok((prices, models));
  }

  method LoadModels(providers: seq<Provider>, embeddings: seq<Entry>)
    returns (r: Result<(map<string, ModelPrice>, map<string, seq<string>>), CatalogError>)
    requires NamesDiffer(providers)
    ensures r.Ok? <==> Acceptable(providers, embeddings)
    ensures r.Ok? ==> AllLoaded(r.value.0, r.value.1, providers)
  {
    if |providers| == 0 { return Err(NoModels); }
    AddableInTurn({}, Flat(providers), embeddings);
    assert {} + Names(Flat(providers)) == Names(Flat(providers));
    var loaded := LoadProviders(providers);
    if loaded.Err? || |embeddings| == 0 { return Err(NoModels); }
    var added := AddEntries(loaded.value.0, embeddings);
    if added.Err? { return Err(added.error); }
    forall p | p in providers ensures Priced(added.value, p.entries) {
      assert ProviderLoaded(loaded.value.0, loaded.value.1, p);
      PricesKept(loaded.value.0, added.value, p.entries);
    }
    return Ok((added.value, loaded.value.1));
  }

  // ---------------------------------------------------------------------------
  // Efforts
  // ---------------------------------------------------------------------------

  predicate GoodEffort(e: Effort) {
    && 0 <= e.rung <= 2 && e.maxSteps >= 1 && e.rewriteVariants >= 0 && e.critiqueSteps >= 0
    && (e.maxOutputTokens.Some? ==> e.maxOutputTokens.value >= 1)
    && (e.thinkingBudget.Some? ==> e.thinkingBudget.value >= 0)
    && (e.loopRung.Some? ==> 0 <= e.loopRung.value <= e.rung)
  }

  /** An unbounded budget is above every explicit one. */
  predicate BudgetAtMost(a: Option<int>, b: Option<int>) {
    b.None? || (a.Some? && a.value <= b.value)
  }

  predicate NoLess(a: Effort, b: Effort) {
    a.rung <= b.rung && a.maxSteps <= b.maxSteps && a.rewriteVariants <= b.rewriteVariants
    && BudgetAtMost(a.thinkingBudget, b.thinkingBudget)
  }

  ghost predicate EffortsLoaded(efforts: map<EffortName, Effort>) {
    && efforts.Keys == {Low, Medium, High}
    && (forall name :: name in efforts ==> GoodEffort(efforts[name]))
    && NoLess(efforts[Low], efforts[Medium]) && NoLess(efforts[Medium], efforts[High])
  }

  method ParseEfforts(raw: map<EffortName, Effort>) returns (r: Result<map<EffortName, Effort>, CatalogError>)
    ensures r.Ok? <==> EffortsLoaded(raw)
    ensures r.Ok? ==> r.value == raw
  {
    if raw.Keys != {Low, Medium, High} { return Err(MissingEffort); }
    var names := [Low, Medium, High];
    var profiles: map<EffortName, Effort> := map[];
    for k := 0 to 3
      invariant profiles == map name | name in names[..k] :: raw[name]
      invariant forall name :: name in names[..k] ==> GoodEffort(raw[name])
    {
      var e := raw[names[k]];
      if !GoodEffort(e) { return Err(BadEffort); }
      assert names[..k + 1] == names[..k] + [names[k]];
      profiles := profiles[names[k] := e];
    }
    assert names[..3] == names;
    if !NoLess(profiles[Low], profiles[Medium]) || !NoLess(profiles[Medium], profiles[High]) {
      return Err(EffortsOutOfOrder);
    }
    return Ok(profiles);
  }

  /** A higher effort never does less: in steps, rewrites, rung, and thinking, where no budget is above any. */
  lemma HigherEffortsDoNoLess(efforts: map<EffortName, Effort>)
    requires EffortsLoaded(efforts)
    ensures var low, medium, high := efforts[Low], efforts[Medium], efforts[High];
            && 0 <= low.rung <= medium.rung <= high.rung <= 2
            && 1 <= low.maxSteps <= medium.maxSteps <= high.maxSteps
            && 0 <= low.rewriteVariants <= medium.rewriteVariants <= high.rewriteVariants
            && (high.thinkingBudget.Some? ==>
                  && low.thinkingBudget.Some? && medium.thinkingBudget.Some?
                  && 0 <= low.thinkingBudget.value <= medium.thinkingBudget.value <= high.thinkingBudget.value)
  {
    assert GoodEffort(efforts[Low]) && GoodEffort(efforts[Medium]) && GoodEffort(efforts[High]);
  }

  method LoadCatalog(providers: seq<Provider>, embeddings: seq<Entry>, efforts: map<EffortName, Effort>)
    returns (r: Result<Catalog, CatalogError>)
    requires NamesDiffer(providers)
    ensures r.Ok? <==> Acceptable(providers, embeddings) && EffortsLoaded(efforts)
    ensures r.Ok? ==> Accepted(r.value, providers)
  {
    var models := LoadModels(providers, embeddings);
    if models.Err? { return Err(models.error); }
    var parsed := ParseEfforts(efforts);
    if parsed.Err? { return Err(parsed.error); }
    return Ok(Catalog(models.value.0, models.value.1, parsed.value));
  }

  /** What the loader leaves behind for the providers it was given. */
  ghost predicate Accepted(catalog: Catalog, providers: seq<Provider>) {
    && AllLoaded(catalog.prices, catalog.providerModels, providers)
    && EffortsLoaded(catalog.efforts)
  }

  // ---------------------------------------------------------------------------
  // Resolving
  // ---------------------------------------------------------------------------

  function ModelForRung(catalog: Catalog, provider: string, rung: int): Result<string, CatalogError>
    requires rung >= 0
  {
    if provider !in catalog.providerModels || |catalog.providerModels[provider]| == 0 then Err(UnknownProvider)
    else Ok(catalog.providerModels[provider][Min(rung, |catalog.providerModels[provider]| - 1)])
  }

  function ModelForEffort(catalog: Catalog, provider: string, effort: EffortName): Result<string, CatalogError>
    requires forall name :: name in catalog.efforts ==> catalog.efforts[name].rung >= 0
  {
    if effort !in catalog.efforts then Err(UnknownEffort)
    else ModelForRung(catalog, provider, catalog.efforts[effort].rung)
  }

  lemma LaterEntryCostsNoLess(prices: map<string, ModelPrice>, entries: seq<Entry>, j: nat, k: nat)
    requires CheapestFirst(entries) && Priced(prices, entries) && j <= k < |entries|
    ensures entries[j].model in prices && entries[k].model in prices
    ensures NoCheaper(prices[entries[j].model].flat, prices[entries[k].model].flat)
  {
    assert ParsePrice(entries[j]) == Ok(prices[entries[j].model]);
    assert ParsePrice(entries[k]) == Ok(prices[entries[k].model]);
    assert NoCheaper(entries[j].price, entries[k].price);
  }

  lemma RungNamesAnEntry(catalog: Catalog, p: Provider, rung: nat)
    requires ProviderLoaded(catalog.prices, catalog.providerModels, p)
    ensures ModelForRung(catalog, p.name, rung) == Ok(p.entries[Min(rung, |p.entries| - 1)].model)
  {
  }

  /** An effort resolves to the model listed at its rung, or to the last one where the list is shorter. */
  lemma EffortNamesItsEntry(catalog: Catalog, providers: seq<Provider>, p: Provider, effort: EffortName)
    requires Accepted(catalog, providers) && p in providers && |p.entries| > 0 && effort in catalog.efforts
    ensures var rung := catalog.efforts[effort].rung;
            && 0 <= rung <= 2
            && ModelForEffort(catalog, p.name, effort)
               == Ok(p.entries[if rung < |p.entries| then rung else |p.entries| - 1].model)
  {
    assert GoodEffort(catalog.efforts[effort]);
    assert ProviderLoaded(catalog.prices, catalog.providerModels, p);
    RungNamesAnEntry(catalog, p, catalog.efforts[effort].rung);
  }

  /** An effort or a provider that the catalog does not hold is an error, not some model. */
  lemma UnknownResolvesToNothing(catalog: Catalog, providers: seq<Provider>, provider: string, effort: EffortName)
    requires Accepted(catalog, providers) && (provider !in catalog.providerModels || effort !in catalog.efforts)
    ensures (forall name :: name in catalog.efforts ==> catalog.efforts[name].rung >= 0)
            && ModelForEffort(catalog, provider, effort).Err?
  {
    assert forall name :: name in catalog.efforts ==> GoodEffort(catalog.efforts[name]);
  }

  /** A higher rung of one provider is never cheaper, in input or in output, however short its list. */
  lemma HigherRungCostsNoLess(catalog: Catalog, providers: seq<Provider>, provider: string, low: nat, high: nat)
    requires Accepted(catalog, providers) && provider in catalog.providerModels && low <= high
    ensures ModelForRung(catalog, provider, low).Ok? && ModelForRung(catalog, provider, high).Ok?
    ensures var a, b := ModelForRung(catalog, provider, low).value, ModelForRung(catalog, provider, high).value;
            && a in catalog.prices && b in catalog.prices
            && NoCheaper(catalog.prices[a].flat, catalog.prices[b].flat)
  {
    var p :| p in providers && p.name == provider;
    RungNamesAnEntry(catalog, p, low);
    RungNamesAnEntry(catalog, p, high);
    LaterEntryCostsNoLess(catalog.prices, p.entries, Min(low, |p.entries| - 1), Min(high, |p.entries| - 1));
  }

  /** Every provider of every accepted catalog: prices never fall from low to medium to high. */
  lemma EffortsCostNoLess(catalog: Catalog, providers: seq<Provider>, provider: string)
    requires Accepted(catalog, providers) && provider in catalog.providerModels
    ensures var low, medium, high := ModelForEffort(catalog, provider, Low), ModelForEffort(catalog, provider, Medium),
                                     ModelForEffort(catalog, provider, High);
            && low.Ok? && medium.Ok? && high.Ok?
            && low.value in catalog.prices && medium.value in catalog.prices && high.value in catalog.prices
            && NoCheaper(catalog.prices[low.value].flat, catalog.prices[medium.value].flat)
            && NoCheaper(catalog.prices[medium.value].flat, catalog.prices[high.value].flat)
  {
    assert Low in catalog.efforts && Medium in catalog.efforts && High in catalog.efforts;
    HigherRungCostsNoLess(catalog, providers, provider, catalog.efforts[Low].rung, catalog.efforts[Medium].rung);
    HigherRungCostsNoLess(catalog, providers, provider, catalog.efforts[Medium].rung, catalog.efforts[High].rung);
  }

  /** Planning on its own rung is never pricier than answering on the effort's. */
  lemma PlanningCostsNoMore(catalog: Catalog, providers: seq<Provider>, provider: string, effort: EffortName)
    requires Accepted(catalog, providers) && provider in catalog.providerModels
    requires effort in catalog.efforts && catalog.efforts[effort].loopRung.Some?
    ensures GoodEffort(catalog.efforts[effort])
    ensures var planning := ModelForRung(catalog, provider, catalog.efforts[effort].loopRung.value);
            var synthesis := ModelForEffort(catalog, provider, effort);
            && planning.Ok? && synthesis.Ok? && planning.value in catalog.prices && synthesis.value in catalog.prices
            && NoCheaper(catalog.prices[planning.value].flat, catalog.prices[synthesis.value].flat)
  {
    var e := catalog.efforts[effort];
    HigherRungCostsNoLess(catalog, providers, provider, e.loopRung.value, e.rung);
  }

  lemma EntryOf(catalog: Catalog, providers: seq<Provider>, provider: string, model: string) returns (e: Entry)
    requires Accepted(catalog, providers) && provider in catalog.providerModels
    requires model in catalog.providerModels[provider]
    ensures model in catalog.prices && ParsePrice(e) == Ok(catalog.prices[model])
  {
    var p :| p in providers && p.name == provider;
    assert ProviderLoaded(catalog.prices, catalog.providerModels, p);
    var k :| 0 <= k < |p.entries| && ModelsOf(p.entries)[k] == model;
    e := p.entries[k];
  }

  /** For every model of every provider, a longer prompt is never billed at lower input or output rates. */
  lemma LongerPromptCostsNoLess(catalog: Catalog, providers: seq<Provider>, provider: string, model: string,
                                shorter: int, longer: int)
    requires Accepted(catalog, providers) && provider in catalog.providerModels
    requires model in catalog.providerModels[provider] && shorter <= longer
    ensures model in catalog.prices
    ensures NoCheaper(ForPrompt(catalog.prices[model], shorter), ForPrompt(catalog.prices[model], longer))
  {
    var e := EntryOf(catalog, providers, provider, model);
  }

  /** The long card starts strictly above its threshold. */
  lemma ThresholdItselfIsFlat(price: ModelPrice, promptTokens: int)
    requires price.longPrompt.Some?
    ensures promptTokens <= price.longPrompt.value.above ==> ForPrompt(price, promptTokens) == price.flat
    ensures promptTokens >= price.longPrompt.value.above + 1 ==>
              ForPrompt(price, promptTokens) == price.longPrompt.value.rates
  {
  }

  /** The loader compares only those two: the cached-read rate keeps the rule exactly when the file does. */
  lemma CachedRateNeverFallsExactlyWhen(e: Entry)
    requires ParsePrice(e).Ok?
    ensures (forall shorter: int, longer: int :: shorter <= longer ==>
               ForPrompt(ParsePrice(e).value, shorter).cachedInput
               <= ForPrompt(ParsePrice(e).value, longer).cachedInput)
       <==> (e.longPrompt.Some? ==> e.price.cachedInput <= e.longPrompt.value.rates.cachedInput)
  {
    var price := ParsePrice(e).value;
    if e.longPrompt.Some? {
      var above := e.longPrompt.value.above;
      assert ForPrompt(price, above) == e.price && ForPrompt(price, above + 1) == e.longPrompt.value.rates;
    }
  }
}
