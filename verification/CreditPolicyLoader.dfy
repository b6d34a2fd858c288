/** What the commercial configuration must look like to load, and what a loaded policy promises the arithmetic. */
module CreditPolicyLoader {
  import opened Wrappers
  import opened Credits

  /** A YAML scalar, as far as the checks tell them apart. */
  datatype Raw = Number(value: real) | Flag(on: bool) | Text(text: string) | Other

  datatype Item = Item(key: Raw, value: Raw)

  /** Mapping entries in file order. */
  datatype Section = Absent | NotAMapping | Mapping(items: seq<Item>)

  datatype PolicyError = BadSection | MissingPlan | UnknownPlan | BadNumber | BadKey

  ghost predicate KeysDiffer(items: seq<Item>) {
    forall j, k :: 0 <= j < k < |items| ==> items[j].key != items[k].key
  }

  function Keys(items: seq<Item>): set<Raw> {
    set item | item in items :: item.key
  }

  /** A credit quantity in milli-credits. */
  function Milli(credits: real): int {
    Round(credits * 1000.0)
  }

  // ---------------------------------------------------------------------------
  // Credit packs
  // ---------------------------------------------------------------------------

  predicate GoodPack(item: Item) {
    item.key.Text? && !Blank(item.key.text) && item.value.Number? && item.value.value > 0.0
  }

  ghost predicate PackOf(packs: map<string, int>, item: Item) {
    GoodPack(item) && item.key.text in packs && packs[item.key.text] == Milli(item.value.value)
  }

  ghost predicate PacksFrom(packs: map<string, int>, items: seq<Item>) {
    && (forall k :: 0 <= k < |items| ==> PackOf(packs, items[k]))
    && (forall id :: id in packs ==> exists k :: 0 <= k < |items| && items[k].key == Text(id))
  }

  lemma OneMorePack(packs: map<string, int>, items: seq<Item>, k: nat)
    requires k < |items| && KeysDiffer(items) && PacksFrom(packs, items[..k]) && GoodPack(items[k])
    ensures PacksFrom(packs[items[k].key.text := Milli(items[k].value.value)], items[..k + 1])
  {
    var grown := items[..k + 1];
    var after := packs[items[k].key.text := Milli(items[k].value.value)];
    forall j | 0 <= j < k + 1 ensures PackOf(after, grown[j]) {
      if j < k {
        assert PackOf(packs, items[..k][j]);
        assert items[j].key != items[k].key;
      }
    }
    forall id | id in after ensures exists j :: 0 <= j < k + 1 && grown[j].key == Text(id) {
      if id == items[k].key.text {
        assert grown[k].key == Text(id);
      } else {
        var j :| 0 <= j < k && items[..k][j].key == Text(id);
        assert grown[j].key == Text(id);
      }
    }
  }

  /** No section sells no packs; otherwise every entry loads, in milli-credits, or the boot fails. */
  method ParseCreditPacks(section: Section) returns (r: Result<map<string, int>, PolicyError>)
    requires section.Mapping? ==> KeysDiffer(section.items)
    ensures section.Absent? ==> r == Ok(map[])
    ensures section.NotAMapping? ==> r.Err?
    ensures section.Mapping? ==>
              (r.Ok? <==> section.items != [] && forall k :: 0 <= k < |section.items| ==> GoodPack(section.items[k]))
    ensures section.Mapping? && r.Ok? ==> PacksFrom(r.value, section.items)
  {
    if section.Absent? { return Ok(map[]); }
    if section.NotAMapping? || section.items == [] { return Err(BadSection); }
    var items := section.items;
    var out: map<string, int> := map[];
    for k := 0 to |items|
      invariant PacksFrom(out, items[..k])
      invariant forall j :: 0 <= j < k ==> GoodPack(items[j])
    {
      var id, credits := items[k].key, items[k].value;
      if !id.Text? || Blank(id.text) { return Err(BadKey); }
      if !credits.Number? || credits.value <= 0.0 { return Err(BadNumber); }
      OneMorePack(out, items, k);
      out := out[id.text := Milli(credits.value)];
    }
    assert items[..|items|] == items;
    return Ok(out);
  }

  /** A pack that is positive in the file still grants nothing exactly when it is half a milli-credit or less. */
  lemma PackGrantsNothingExactlyWhen(packs: map<string, int>, items: seq<Item>, k: nat)
    requires PacksFrom(packs, items) && k < |items|
    ensures GoodPack(items[k]) && packs[items[k].key.text] >= 0
    ensures packs[items[k].key.text] == 0 <==> items[k].value.value <= 0.0005
  {
    assert PackOf(packs, items[k]);
  }

  // ---------------------------------------------------------------------------
  // Plan maps
  // ---------------------------------------------------------------------------

  function PlanKeys(): set<Raw> {
    {Text("free"), Text("core"), Text("pro"), Text("max"), Text("enterprise")}
  }

  predicate Unlimited(value: Raw) {
    value == Text("unlimited")
  }

  predicate GoodNumber(value: Raw) {
    Unlimited(value) || (value.Number? && value.value >= 0.0)
  }

  function Scaled(value: real, scale: real): real {
    value * scale
  }

  function PlanNumber(value: Raw, scale: real): Option<real>
    requires GoodNumber(value)
  {
    if Unlimited(value) then None else Some(Scaled(value.value, scale))
  }

  ghost predicate PlanOf(plans: map<Raw, Option<real>>, item: Item, scale: real) {
    GoodNumber(item.value) && item.key in plans && plans[item.key] == PlanNumber(item.value, scale)
  }

  ghost predicate PlansFrom(plans: map<Raw, Option<real>>, items: seq<Item>, scale: real) {
    plans.Keys == Keys(items) && forall k :: 0 <= k < |items| ==> PlanOf(plans, items[k], scale)
  }

  lemma OneMorePlan(plans: map<Raw, Option<real>>, items: seq<Item>, k: nat, scale: real)
    requires k < |items| && KeysDiffer(items) && PlansFrom(plans, items[..k], scale) && GoodNumber(items[k].value)
    ensures PlansFrom(plans[items[k].key := PlanNumber(items[k].value, scale)], items[..k + 1], scale)
  {
    var grown := items[..k + 1];
    var after := plans[items[k].key := PlanNumber(items[k].value, scale)];
    assert grown == items[..k] + [items[k]];
    assert Keys(grown) == Keys(items[..k]) + {items[k].key};
    forall j | 0 <= j < k + 1 ensures PlanOf(after, grown[j], scale) {
      if j < k {
        assert PlanOf(plans, items[..k][j], scale);
        assert items[j].key != items[k].key;
      }
    }
  }

  /** Loads when it names exactly the plans there are, each with a number or as unlimited. */
  method ParsePlanMap(section: Section, scale: real) returns (r: Result<map<Raw, Option<real>>, PolicyError>)
    requires section.Mapping? ==> KeysDiffer(section.items)
    ensures r.Ok? <==>
            && section.Mapping?
            && Keys(section.items) == {Text("free"), Text("core"), Text("pro"), Text("max"), Text("enterprise")}
            && forall k :: 0 <= k < |section.items| ==> GoodNumber(section.items[k].value)
    ensures r.Ok? ==> PlansFrom(r.value, section.items, scale)
  {
    if !section.Mapping? { return Err(BadSection); }
    var items := section.items;
    if PlanKeys() - Keys(items) != {} { return Err(MissingPlan); }
    if Keys(items) - PlanKeys() != {} { return Err(UnknownPlan); }
    assert Keys(items) <= PlanKeys() <= Keys(items);
    var out: map<Raw, Option<real>> := map[];
    for k := 0 to |items|
      invariant PlansFrom(out, items[..k], scale)
      invariant forall j :: 0 <= j < k ==> GoodNumber(items[j].value)
    {
      var value := items[k].value;
      if !Unlimited(value) && (!value.Number? || value.value < 0.0) { return Err(BadNumber); }
      OneMorePlan(out, items, k, scale);
      out := out[items[k].key := PlanNumber(value, scale)];
    }
    assert items[..|items|] == items;
    return Ok(out);
  }

  lemma PlansNeverNegative(plans: map<Raw, Option<real>>, items: seq<Item>, scale: real)
    requires PlansFrom(plans, items, scale) && scale >= 0.0
    ensures forall plan :: plan in plans && plans[plan].Some? ==> plans[plan].value >= 0.0
  {
    forall plan | plan in plans && plans[plan].Some? ensures plans[plan].value >= 0.0 {
      assert plan in Keys(items);
      var k :| 0 <= k < |items| && items[k].key == plan;
      assert PlanOf(plans, items[k], scale);
    }
  }

  // ---------------------------------------------------------------------------
  // The policy's own numbers
  // ---------------------------------------------------------------------------

  predicate Positive(value: Raw) {
    value.Number? && value.value > 0.0
  }

  function LoadPolicy(creditUsd: Raw, requestMaxCredits: Raw, surfaces: set<string>, results: set<string>):
    Result<CreditPolicy, PolicyError>
  {
    if Positive(creditUsd) && Positive(requestMaxCredits)
    then Ok(CreditPolicy(creditUsd.value, Milli(requestMaxCredits.value), surfaces, results))
    else Err(BadNumber)
  }

  /** Both numbers must be there and positive; the price loads as written and the cap in milli-credits. */
  lemma PolicyLoadsExactlyWhen(creditUsd: Raw, requestMaxCredits: Raw, surfaces: set<string>, results: set<string>)
    ensures var loaded := LoadPolicy(creditUsd, requestMaxCredits, surfaces, results);
            && (loaded.Ok? <==>
                  && creditUsd.Number? && creditUsd.value > 0.0
                  && requestMaxCredits.Number? && requestMaxCredits.value > 0.0)
            && (loaded.Ok? ==>
                  && loaded.value.creditUsd == creditUsd.value
                  && -0.5 <= requestMaxCredits.value * 1000.0 - loaded.value.requestMaxCredits as real <= 0.5
                  && loaded.value.billableSurfaces == surfaces && loaded.value.billableResults == results)
  {
  }

  /** A charge of a loaded policy stays within the quote, provided a credit is worth at least a tenth of a cent. */
  lemma LoadedPolicyKeepsItsQuote(creditUsd: Raw, requestMaxCredits: Raw, surfaces: set<string>, results: set<string>,
                                  result: string, surface: string, computed: int)
    requires LoadPolicy(creditUsd, requestMaxCredits, surfaces, results).Ok? && creditUsd.value >= FINE_ENOUGH
    ensures var policy := LoadPolicy(creditUsd, requestMaxCredits, surfaces, results).value;
            0 <= CreditsMilli(EligibleUsdMicro(result, surface, computed, policy), policy) <= QuoteMaxCredits(policy)
  {
    NeverAboveQuote(result, surface, computed, LoadPolicy(creditUsd, requestMaxCredits, surfaces, results).value);
  }

  /** An accepted cap quotes nothing, making every request free, exactly when it is half a milli-credit or less. */
  lemma CapQuotesNothingExactlyWhen(creditUsd: Raw, requestMaxCredits: Raw, surfaces: set<string>, results: set<string>)
    requires LoadPolicy(creditUsd, requestMaxCredits, surfaces, results).Ok?
    ensures QuoteMaxCredits(LoadPolicy(creditUsd, requestMaxCredits, surfaces, results).value) >= 0
    ensures QuoteMaxCredits(LoadPolicy(creditUsd, requestMaxCredits, surfaces, results).value) == 0
       <==> requestMaxCredits.value <= 0.0005
  {
  }

  // ---------------------------------------------------------------------------
  // The numbers as they are written
  // ---------------------------------------------------------------------------

  /** A quantity of n thousandths of a credit loads as n milli-credits. */
  lemma ThousandthsLoadExactly(credits: real, n: int)
    requires credits * 1000.0 == n as real
    ensures Milli(credits) == n
  {
    RoundUnique(credits * 1000.0, n);
  }

  /** A plan written as a number loads as that number, scaled; "unlimited" loads as no limit; nothing else loads. */
  lemma PlanLoadsAsWritten(plans: map<Raw, Option<real>>, items: seq<Item>, scale: real, k: nat)
    requires PlansFrom(plans, items, scale) && k < |items|
    ensures items[k].value == Text("unlimited") || (items[k].value.Number? && items[k].value.value >= 0.0)
    ensures items[k].key in plans
    ensures plans[items[k].key]
         == if items[k].value == Text("unlimited") then None else Some(items[k].value.value * scale)
  {
    assert PlanOf(plans, items[k], scale);
  }

  /** The ASCII characters that stripping takes off: space, tab to carriage return, and the four separators. */
  const WHITE: set<char> := {' ', '\t', '\n', '\U{000B}', '\U{000C}', '\r',
                             '\U{001C}', '\U{001D}', '\U{001E}', '\U{001F}'}

  /** A key is blank when stripping leaves nothing of it. */
  lemma BlankExactlyWhen(s: string)
    ensures Blank(s) <==> forall c :: c in s ==> c in WHITE
  {
    if Blank(s) {
      forall c | c in s ensures c in WHITE {
        var k :| 0 <= k < |s| && s[k] == c;
        assert IsSpace(s[k]);
      }
    } else {
      var k :| 0 <= k < |s| && !IsSpace(s[k]);
      assert s[k] in s;
    }
  }
}
