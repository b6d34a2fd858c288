/** Micro-USD to milli-credits and back, over exact numbers and Python's round-half-to-even. */
module Credits {
  import opened Wrappers

  // ---------------------------------------------------------------------------
  // Rounding
  // ---------------------------------------------------------------------------

  /** The nearest integer; a tie goes to the even one. */
  function Round(x: real): (n: int)
    ensures -0.5 <= x - n as real <= 0.5
    ensures x - n as real == 0.5 || x - n as real == -0.5 ==> n % 2 == 0
  {
    var low := x.Floor;
    var rest := x - low as real;
    if rest < 0.5 || (rest == 0.5 && low % 2 == 0) then low else low + 1
  }

  lemma RoundUnique(x: real, n: int)
    requires -0.5 < x - n as real < 0.5
    ensures Round(x) == n
  {
  }

  lemma RoundMonotone(x: real, y: real)
    requires x <= y
    ensures Round(x) <= Round(y)
  {
  }

  // ---------------------------------------------------------------------------
  // The conversions
  // ---------------------------------------------------------------------------

  datatype CreditPolicy = CreditPolicy(
    creditUsd: real, requestMaxCredits: int, billableSurfaces: set<string>, billableResults: set<string>)

  /** Micro-USD per milli-credit. */
  function Rate(policy: CreditPolicy): real {
    policy.creditUsd * 1000.0
  }

  /** Milli-credits in whole micro-USD at `rate` micro-USD each. */
  function Worth(credits: int, rate: real): int {
    Round(credits as real * rate)
  }

  /** Micro-USD in whole milli-credits at `rate` micro-USD each. */
  function Converted(usdMicro: int, rate: real): int
    requires rate > 0.0
  {
    Round(Max(usdMicro, 0) as real / rate)
  }

  function RequestMaxUsdMicro(policy: CreditPolicy): int {
    Worth(policy.requestMaxCredits, Rate(policy))
  }

  function EligibleUsdMicro(result: string, surface: string, computed: int, policy: CreditPolicy): int {
    if surface !in policy.billableSurfaces then 0
    else if result !in policy.billableResults then 0
    else Min(Max(computed, 0), RequestMaxUsdMicro(policy))
  }

  function CreditsMilli(eligible: int, policy: CreditPolicy): int {
    if policy.creditUsd <= 0.0 then 0
    else Converted(eligible, Rate(policy))
  }

  function QuoteMaxCredits(policy: CreditPolicy): int {
    policy.requestMaxCredits
  }

  /** No balance means unlimited, and zero means no budget is enforced. */
  function RequestBudgetUsdMicro(balance: Option<int>, policy: CreditPolicy): int {
    match balance
    case None => 0
    case Some(credits) => Worth(Max(credits, 0), Rate(policy))
  }

  // ---------------------------------------------------------------------------
  // From a tenth of a cent per credit, rounding never beats the quote
  // ---------------------------------------------------------------------------

  /** USD per credit at which a milli-credit is worth a micro-USD. */
  const FINE_ENOUGH := 0.001

  lemma NearAfterDividing(d: real, k: real)
    requires k > 1.0 && -0.5 <= d * k <= 0.5
    ensures -0.5 < d < 0.5
  {
    assert d >= 0.5 ==> d * k >= 0.5 * k;
    assert d <= -0.5 ==> (-d) * k >= 0.5 * k;
  }

  /** Milli-credits become micro-USD and come back unchanged. */
  lemma RoundTrip(n: nat, k: real)
    requires k >= 1.0
    ensures Round(Round(n as real * k) as real / k) == n
  {
    var e := Round(n as real * k);
    var back := e as real / k;
    assert back * k == e as real;
    var d := back - n as real;
    assert d * k == e as real - n as real * k;
    if k > 1.0 {
      NearAfterDividing(d, k);
      RoundUnique(back, n);
    }
  }

  lemma DivideMonotone(x: real, y: real, k: real)
    requires x <= y && k > 0.0
    ensures x / k <= y / k
  {
    assert y / k - x / k == (y - x) / k;
  }

  /** A cost within `n` milli-credits' worth converts to at most n, and to n where it is exactly that worth. */
  lemma WorthConvertsBack(n: nat, cost: int, rate: real)
    requires rate >= 1.0 && cost <= Worth(n, rate)
    ensures 0 <= Converted(cost, rate) <= n
    ensures cost == Worth(n, rate) ==> Converted(cost, rate) == n
  {
    assert n as real * rate >= 0.0;
    RoundMonotone(0.0, n as real * rate);
    RoundTrip(n, rate);
    DivideMonotone(Max(cost, 0) as real, Worth(n, rate) as real, rate);
    RoundMonotone(Max(cost, 0) as real / rate, Worth(n, rate) as real / rate);
    DivideMonotone(0.0, Max(cost, 0) as real, rate);
    RoundMonotone(0.0, Max(cost, 0) as real / rate);
  }

  /** Whatever a request cost and however it ended, it is never charged more than the quote. */
  lemma NeverAboveQuote(result: string, surface: string, computed: int, policy: CreditPolicy)
    requires policy.creditUsd >= FINE_ENOUGH && policy.requestMaxCredits >= 0
    ensures 0 <= CreditsMilli(EligibleUsdMicro(result, surface, computed, policy), policy) <= QuoteMaxCredits(policy)
  {
    assert policy.requestMaxCredits as real * Rate(policy) >= 0.0;
    RoundMonotone(0.0, policy.requestMaxCredits as real * Rate(policy));
    WorthConvertsBack(policy.requestMaxCredits, EligibleUsdMicro(result, surface, computed, policy), Rate(policy));
  }

  /** What a request is charged, in milli-credits. */
  function Charge(result: string, surface: string, computed: int, policy: CreditPolicy): int {
    CreditsMilli(EligibleUsdMicro(result, surface, computed, policy), policy)
  }

  /** An unlisted surface or outcome is charged nothing, whatever it cost; nor is anything without a credit price. */
  lemma UnlistedIsFree(result: string, surface: string, computed: int, policy: CreditPolicy)
    requires surface !in policy.billableSurfaces || result !in policy.billableResults || policy.creditUsd <= 0.0
    ensures Charge(result, surface, computed, policy) == 0
  {
  }

  /** n milli-credits are worth n thousandths of the credit's price, to the nearest micro-USD. */
  lemma WorthInUsdMicro(n: nat, policy: CreditPolicy, usdMicro: real)
    requires usdMicro == n as real * (policy.creditUsd * 1000.0)
    ensures -0.5 <= usdMicro - Worth(n, Rate(policy)) as real <= 0.5
  {
    var rate := policy.creditUsd * 1000.0;
    assert Rate(policy) == rate;
    assert Worth(n, rate) == Round(n as real * rate);
  }

  /** A cost worth n milli-credits, up to the cap, is charged exactly n; at and above the cap's worth, the cap. */
  lemma ChargedItsWorth(result: string, surface: string, computed: int, policy: CreditPolicy, n: nat)
    requires surface in policy.billableSurfaces && result in policy.billableResults
    requires policy.creditUsd >= FINE_ENOUGH && n <= policy.requestMaxCredits
    ensures computed == Worth(n, Rate(policy)) ==> Charge(result, surface, computed, policy) == n
    ensures computed >= Worth(policy.requestMaxCredits, Rate(policy)) ==>
              Charge(result, surface, computed, policy) == policy.requestMaxCredits
  {
    var rate, cap := Rate(policy), policy.requestMaxCredits;
    WorthGrows(0, n, rate);
    WorthGrows(n, cap, rate);
    WorthConvertsBack(n, Worth(n, rate), rate);
    WorthConvertsBack(cap, Worth(cap, rate), rate);
    var eligible := EligibleUsdMicro(result, surface, computed, policy);
    assert computed == Worth(n, rate) ==> eligible == Worth(n, rate);
    assert computed >= Worth(cap, rate) ==> eligible == Worth(cap, rate);
    assert CreditsMilli(eligible, policy) == Converted(eligible, rate);
  }

  lemma WorthGrows(m: nat, n: nat, rate: real)
    requires m <= n && rate >= 0.0
    ensures 0 <= Worth(m, rate) <= Worth(n, rate)
  {
    assert (n - m) as real * rate >= 0.0 && m as real * rate >= 0.0;
    assert n as real * rate == m as real * rate + (n - m) as real * rate;
    RoundMonotone(0.0, m as real * rate);
    RoundMonotone(m as real * rate, n as real * rate);
  }

  /** A dearer request is never charged less. */
  lemma ChargeNeverFalls(result: string, surface: string, cheaper: int, dearer: int, policy: CreditPolicy)
    requires cheaper <= dearer
    ensures Charge(result, surface, cheaper, policy) <= Charge(result, surface, dearer, policy)
  {
    if surface in policy.billableSurfaces && result in policy.billableResults && policy.creditUsd > 0.0 {
      var low := EligibleUsdMicro(result, surface, cheaper, policy);
      var high := EligibleUsdMicro(result, surface, dearer, policy);
      DivideMonotone(Max(low, 0) as real, Max(high, 0) as real, Rate(policy));
      RoundMonotone(Max(low, 0) as real / Rate(policy), Max(high, 0) as real / Rate(policy));
    }
  }

  /** An unlimited plan, or a balance already used up, has no budget to enforce. */
  lemma NoBudgetWithoutBalance(balance: Option<int>, policy: CreditPolicy)
    requires balance.None? || balance.value <= 0
    ensures RequestBudgetUsdMicro(balance, policy) == 0
  {
  }

  /** A request that stops within its budget never overdraws, and at the budget it spends it exactly. */
  lemma BudgetNeverOverdraws(balance: int, cost: int, policy: CreditPolicy)
    requires policy.creditUsd >= FINE_ENOUGH && balance >= 0
    requires cost <= RequestBudgetUsdMicro(Some(balance), policy)
    ensures CreditsMilli(cost, policy) <= balance
    ensures cost == RequestBudgetUsdMicro(Some(balance), policy) ==> CreditsMilli(cost, policy) == balance
  {
    WorthConvertsBack(balance, cost, Rate(policy));
  }

  /**
   A budget of zero means "not enforced". A user with credits left gets it exactly when the whole
   balance is worth half a micro-USD or less, which never happens from a tenth of a cent per credit.
   */
  lemma ZeroBudgetMeansNothingLeft(balance: int, policy: CreditPolicy)
    requires policy.creditUsd > 0.0 && balance > 0
    ensures RequestBudgetUsdMicro(Some(balance), policy) == 0 <==> balance as real * policy.creditUsd <= 0.0005
    ensures policy.creditUsd >= FINE_ENOUGH ==> RequestBudgetUsdMicro(Some(balance), policy) > 0
  {
    assert balance as real * policy.creditUsd > 0.0;
    if policy.creditUsd >= FINE_ENOUGH {
      assert balance as real * policy.creditUsd >= 1.0 * FINE_ENOUGH;
    }
  }

  /** The quote is a ceiling whatever the cap: every successful request is within it. */
  ghost predicate QuoteIsCeiling(creditUsd: real) {
    forall cap: nat, computed: int ::
      var policy := CreditPolicy(creditUsd, cap, {"ask"}, {"success"});
      CreditsMilli(EligibleUsdMicro("success", "ask", computed, policy), policy) <= QuoteMaxCredits(policy)
  }

  /** A budget is safe whatever the balance: no cost within it ever overdraws. */
  ghost predicate BudgetIsSafe(creditUsd: real) {
    forall balance: nat, cost: int ::
      var policy := CreditPolicy(creditUsd, 0, {}, {});
      cost <= RequestBudgetUsdMicro(Some(balance), policy) ==> CreditsMilli(cost, policy) <= balance
  }
}
