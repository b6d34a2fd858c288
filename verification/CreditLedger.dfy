/**
 Posting to the ledger and reading a balance from it: the table functions each operation computes,
 the state they act on (rows, cached balances, the current month), and the class that carries it.
 */
module CreditLedger {
  import opened Wrappers
  import opened LedgerEntries

  // ---------------------------------------------------------------------------
  // The policy
  // ---------------------------------------------------------------------------

  /** A plan maps to its monthly milli-credits, or to None for unlimited. */
  datatype Policy = NoPolicy | Policy(entitlements: map<string, Option<int>>)

  function Entitlement(policy: Policy, plan: string): Option<int> {
    match policy
    case NoPolicy => None
    case Policy(entitlements) =>
      if plan in entitlements then entitlements[plan]
      else if "free" in entitlements then entitlements["free"]
      else Some(0)
  }

  // ---------------------------------------------------------------------------
  // Rows
  // ---------------------------------------------------------------------------

  function MonthlyGrantRow(user: string, plan: string, credits: int, period: nat): Entry {
    Entry(user, Grant, Monthly, credits, period, plan, None, None, None)
  }

  function ChargeRow(requestId: string, user: string, credits: int, period: nat): Entry {
    Entry(user, Charge, NoKind, -credits, period, "", Some(requestId), None, None)
  }

  const REF_LIMIT := 128

  function RefKey(externalRef: string): string {
    if |externalRef| <= REF_LIMIT then externalRef else externalRef[..REF_LIMIT]
  }

  function PurchaseRow(user: string, credits: int, externalRef: string, period: nat): Entry {
    Entry(user, Grant, Purchased, credits, period, "", None, Some(RefKey(externalRef)), None)
  }

  function AbsorptionRow(user: string, debt: int, period: nat): Entry {
    Entry(user, Grant, Manual, debt, period, "", None, None, None)
  }

  function ManualRow(user: string, credits: int, kind: Kind, entryType: EntryType, refId: Option<nat>,
                     period: nat): Entry
  {
    Entry(user, entryType, kind, credits, period, "", None, None, refId)
  }

  // ---------------------------------------------------------------------------
  // What each operation does to the table
  // ---------------------------------------------------------------------------

  predicate HasMonthlyGrant(rows: Table, user: string, plan: string, period: nat) {
    exists k :: 0 <= k < |rows| && Selects(MonthlyGrantsOf(user, period), rows[k]) && rows[k].plan == plan
  }

  /** The grant the month still owes this plan, if any: an upgrade owes the difference, a downgrade nothing. */
  function OwedGrant(rows: Table, policy: Policy, user: string, plan: string, period: nat): Option<Entry> {
    var target := Entitlement(policy, plan);
    if user == "" || target.None? || HasMonthlyGrant(rows, user, plan, period) then None
    else
      var delta := target.value - Sum(rows, MonthlyGrantsOf(user, period));
      if delta <= 0 then None else Some(MonthlyGrantRow(user, plan, delta, period))
  }

  /** What a month inherits when a pack is bought: overspend the bought credits did not cover. */
  function PrePurchaseDebt(rows: Table, user: string, period: nat): (debt: int)
    ensures debt >= 0
  {
    var first := match FirstPurchase(rows, user) case Some(p) => p case None => period;
    Max(0, Overspend(rows, user, first, Horizon(rows)) - BoughtSum(rows, user))
  }

  /** None when nothing is posted: nothing owed, or the request was charged before. */
  function ChargeOutcome(rows: Table, requestId: string, user: string, credits: int, period: nat): Option<Table> {
    if credits <= 0 || requestId == "" then None
    else
      match Insert(rows, ChargeRow(requestId, user, credits, period))
      case Ok(after) => Some(after)
      case Err(_) => None
  }

  /** The grant and its absorption row are one transaction: both are posted or neither. */
  function PurchaseOutcome(rows: Table, user: string, credits: int, externalRef: string, now: nat): Option<Table> {
    if user == "" || externalRef == "" || credits <= 0 then None
    else
      var debt := PrePurchaseDebt(rows, user, now);
      match Insert(rows, PurchaseRow(user, credits, externalRef, now))
      case Err(_) => None
      case Ok(granted) =>
        if debt <= 0 then Some(granted)
        else
          match Insert(granted, AbsorptionRow(user, debt, now))
          case Ok(after) => Some(after)
          case Err(_) => None
  }

  datatype PostError = NoSuchEntry | IsAReversal | AlreadyReversed | Refusal | NoReasonOrActor

  predicate IsReversed(rows: Table, id: nat) {
    exists k :: 0 <= k < |rows| && Selects(ReversalsOf(id), rows[k])
  }

  function ReversalRow(rows: Table, id: nat): Entry
    requires id < |rows|
  {
    ManualRow(rows[id].user, -rows[id].credits, rows[id].kind, Reversal, Some(id), rows[id].period)
  }

  function ReversalOutcome(rows: Table, id: nat): Result<Table, PostError> {
    if id >= |rows| then Err(NoSuchEntry)
    else if rows[id].entryType == Reversal then Err(IsAReversal)
    else if IsReversed(rows, id) then Err(AlreadyReversed)
    else
      match Insert(rows, ReversalRow(rows, id))
      case Ok(after) => Ok(after)
      case Err(_) => Err(Refusal)
  }

  // ---------------------------------------------------------------------------
  // The state and its steps
  // ---------------------------------------------------------------------------

  type Cache = map<(string, nat), Breakdown>

  /** `now` is the current month. */
  datatype State = State(rows: Table, cache: Cache, now: nat)

  datatype Event =
    | Read(user: string, plan: string, month: Option<nat>)
    | ChargeFor(requestId: string, user: string, credits: int, month: Option<nat>)
    | Buy(user: string, credits: int, externalRef: string)
    | PostManually(user: string, credits: int, kind: Kind, entryType: EntryType, refId: Option<nat>, month: Option<nat>)
    | Reverse(id: nat)
    | CacheExpires(user: string, period: nat)
    | MonthPasses(months: nat)

  function MonthOr(month: Option<nat>, now: nat): nat {
    match month case Some(p) => p case None => now
  }

  /** A post drops the balance of the row's month and of the current one. */
  function Dropped(cache: Cache, user: string, period: nat, now: nat): Cache {
    cache - {(user, period), (user, now)}
  }

  function Posted(s: State, after: Table, user: string, period: nat): State {
    s.(rows := after, cache := Dropped(s.cache, user, period, s.now))
  }

  function Granted(s: State, policy: Policy, user: string, plan: string, period: nat): State {
    match OwedGrant(s.rows, policy, user, plan, period)
    case None => s
    case Some(row) =>
      match Insert(s.rows, row)
      case Ok(after) => Posted(s, after, user, period)
      case Err(_) => s
  }

  function AfterRead(s: State, policy: Policy, user: string, plan: string, period: nat): State {
    if user == "" || Entitlement(policy, plan).None? || (user, period) in s.cache then s
    else
      var granted := Granted(s, policy, user, plan, period);
      granted.(cache := granted.cache[(user, period) := Recompute(granted.rows, user, period)])
  }

  function Step(s: State, policy: Policy, event: Event): State {
    match event
    case Read(user, plan, month) => AfterRead(s, policy, user, plan, MonthOr(month, s.now))
    case ChargeFor(requestId, user, credits, month) =>
      (match ChargeOutcome(s.rows, requestId, user, credits, MonthOr(month, s.now))
       case Some(after) => Posted(s, after, user, MonthOr(month, s.now))
       case None => s)
    case Buy(user, credits, externalRef) =>
      (match PurchaseOutcome(s.rows, user, credits, externalRef, s.now)
       case Some(after) => Posted(s, after, user, s.now)
       case None => s)
    case PostManually(user, credits, kind, entryType, refId, month) =>
      (match Insert(s.rows, ManualRow(user, credits, kind, entryType, refId, MonthOr(month, s.now)))
       case Ok(after) => Posted(s, after, user, MonthOr(month, s.now))
       case Err(_) => s)
    case Reverse(id) =>
      (match ReversalOutcome(s.rows, id)
       case Ok(after) => Posted(s, after, s.rows[id].user, s.rows[id].period)
       case Err(_) => s)
    case CacheExpires(user, period) => s.(cache := s.cache - {(user, period)})
    case MonthPasses(months) => s.(now := s.now + months)
  }

  function Run(s: State, policy: Policy, events: seq<Event>): State {
    if |events| == 0 then s
    else Step(Run(s, policy, events[..|events| - 1]), policy, events[|events| - 1])
  }

  const EMPTY := State([], map[], 0)

  /** Rows are only ever added, and no constraint is ever broken. */
  lemma StepAppends(s: State, policy: Policy, event: Event)
    ensures s.rows <= Step(s, policy, event).rows
    ensures s.now <= Step(s, policy, event).now
    ensures Unique(s.rows) ==> Unique(Step(s, policy, event).rows)
  {
  }

  /** After a post neither the row's month nor the current one is cached for its user; all else is as it was. */
  lemma PostForgetsBothMonths(s: State, after: Table, user: string, period: nat)
    ensures var cache := Posted(s, after, user, period).cache;
            && (user, period) !in cache && (user, s.now) !in cache
            && forall key :: key != (user, period) && key != (user, s.now) ==>
                 (key in cache <==> key in s.cache) && (key in cache ==> cache[key] == s.cache[key])
  {
  }

  /** A month not yet cached, whichever it is, is read from the rows; one that is cached is left alone. */
  lemma AnyMonthIsReadFromTheRows(s: State, policy: Policy, user: string, plan: string, month: nat)
    requires user != "" && Entitlement(policy, plan).Some?
    ensures var after := Step(s, policy, Read(user, plan, Some(month)));
            && (user, month) in after.cache
            && ((user, month) !in s.cache ==> after.cache[(user, month)] == Recompute(after.rows, user, month))
            && ((user, month) in s.cache ==> after == s)
  {
  }

  /** An accepted charge is one row: the amount negated, in the request's month, or in this one if none is given. */
  lemma ChargeIsStampedWithItsMonth(s: State, policy: Policy, requestId: string, user: string, credits: int, month: nat)
    requires credits > 0 && requestId != ""
    requires forall e :: e in s.rows && e.entryType == Charge ==> e.requestId != Some(requestId)
    ensures Step(s, policy, ChargeFor(requestId, user, credits, Some(month))).rows
         == s.rows + [Entry(user, Charge, NoKind, -credits, month, "", Some(requestId), None, None)]
    ensures Step(s, policy, ChargeFor(requestId, user, credits, None)).rows
         == s.rows + [Entry(user, Charge, NoKind, -credits, s.now, "", Some(requestId), None, None)]
  {
    forall e: Entry | e.entryType == Charge && e.requestId == Some(requestId)
      ensures !Refused(s.rows, e)
    {
      assert forall k :: 0 <= k < |s.rows| ==> s.rows[k] in s.rows;
    }
  }

  /** Nothing owed, or nobody to name: the ledger is left alone. */
  lemma NothingToPost(s: State, policy: Policy, id: string, user: string, credits: int, month: Option<nat>)
    ensures credits <= 0 || id == "" ==> Step(s, policy, ChargeFor(id, user, credits, month)) == s
    ensures credits <= 0 || id == "" || user == "" ==> Step(s, policy, Buy(user, credits, id)) == s
  {
  }

  lemma {:induction false} RunAppends(s: State, policy: Policy, events: seq<Event>)
    ensures s.rows <= Run(s, policy, events).rows
    ensures Unique(s.rows) ==> Unique(Run(s, policy, events).rows)
  {
    if |events| > 0 {
      RunAppends(s, policy, events[..|events| - 1]);
      StepAppends(Run(s, policy, events[..|events| - 1]), policy, events[|events| - 1]);
    }
  }

  // ---------------------------------------------------------------------------
  // The ledger itself
  // ---------------------------------------------------------------------------

  class Ledger {
    const policy: Policy
    var rows: Table
    var cache: Cache
    var now: nat

    function View(): State
      reads this
    {
      State(rows, cache, now)
    }

    constructor (policy: Policy)
      ensures this.policy == policy && View() == EMPTY
    {
      this.policy := policy;
      rows, cache, now := [], map[], 0;
    }

    method InvalidateBalance(user: string, period: nat)
      modifies this`cache
      ensures View() == old(View()).(cache := Dropped(old(cache), user, period, now))
    {
      cache := cache - {(user, period), (user, now)};
    }

    method EnsureMonthlyGrant(user: string, plan: string, period: nat)
      modifies this
      ensures View() == Granted(old(View()), policy, user, plan, period)
    {
      if user == "" { return; }
      var target := Entitlement(policy, plan);
      if target.None? || HasMonthlyGrant(rows, user, plan, period) { return; }
      var delta := target.value - Sum(rows, MonthlyGrantsOf(user, period));
      if delta <= 0 { return; }
      match Insert(rows, MonthlyGrantRow(user, plan, delta, period)) {
        case Err(_) => return;
        case Ok(after) => rows := after;
      }
      InvalidateBalance(user, period);
    }

    /** None means unlimited (or no user). */
    method BalanceBreakdown(user: string, plan: string, month: Option<nat>) returns (balance: Option<Breakdown>)
      modifies this
      ensures View() == Step(old(View()), policy, Read(user, plan, month))
      ensures balance.None? <==> user == "" || Entitlement(policy, plan).None?
      ensures balance.Some? ==>
                (user, MonthOr(month, now)) in cache && balance.value == cache[(user, MonthOr(month, now))]
    {
      if user == "" || Entitlement(policy, plan).None? { return None; }
      var period := MonthOr(month, now);
      if (user, period) in cache { return Some(cache[(user, period)]); }
      EnsureMonthlyGrant(user, plan, period);
      var balanceNow := Recompute(rows, user, period);
      cache := cache[(user, period) := balanceNow];
      return Some(balanceNow);
    }

    method PostCharge(requestId: string, user: string, credits: int, month: Option<nat>) returns (posted: bool)
      modifies this
      ensures View() == Step(old(View()), policy, ChargeFor(requestId, user, credits, month))
      ensures posted <==> rows != old(rows)
    {
      if credits <= 0 || requestId == "" { return false; }
      var period := MonthOr(month, now);
      match Insert(rows, ChargeRow(requestId, user, credits, period)) {
        case Err(_) => return false;
        case Ok(after) => rows := after;
      }
      InvalidateBalance(user, period);
      return true;
    }

    /** Returns the new row's id; fails without a reason and an actor, and where the database refuses the row. */
    method PostManual(user: string, credits: int, reason: string, actor: string, kind: Kind, entryType: EntryType,
                      refId: Option<nat>, month: Option<nat>)
      returns (id: Result<nat, PostError>)
      modifies this
      ensures Blank(reason) || Blank(actor) ==> id == Err(NoReasonOrActor) && View() == old(View())
      ensures !Blank(reason) && !Blank(actor) ==>
                View() == Step(old(View()), policy, PostManually(user, credits, kind, entryType, refId, month))
      ensures match id
              case Ok(k) =>
                && rows == old(rows) + [ManualRow(user, credits, kind, entryType, refId, MonthOr(month, now))]
                && k == |old(rows)|
              case Err(_) => View() == old(View())
    {
      if Blank(reason) || Blank(actor) { return Err(NoReasonOrActor); }
      var period := MonthOr(month, now);
      match Insert(rows, ManualRow(user, credits, kind, entryType, refId, period)) {
        case Err(_) => return Err(Refusal);
        case Ok(after) => rows := after;
      }
      InvalidateBalance(user, period);
      return Ok(|rows| - 1);
    }

    method PostPurchase(user: string, credits: int, externalRef: string) returns (posted: bool)
      modifies this
      ensures View() == Step(old(View()), policy, Buy(user, credits, externalRef))
      ensures posted <==> rows != old(rows)
    {
      if user == "" || externalRef == "" || credits <= 0 { return false; }
      var debt := PrePurchaseDebt(rows, user, now);
      var granted := rows;
      match Insert(rows, PurchaseRow(user, credits, externalRef, now)) {
        case Err(_) => return false;
        case Ok(after) => granted := after;
      }
      if debt > 0 {
        match Insert(granted, AbsorptionRow(user, debt, now)) {
          case Err(_) => return false;
          case Ok(after) => granted := after;
        }
      }
      rows := granted;
      InvalidateBalance(user, now);
      return true;
    }

    method ReverseEntry(id: nat, reason: string, actor: string) returns (outcome: Result<nat, PostError>)
      modifies this
      ensures !Blank(reason) && !Blank(actor) ==> View() == Step(old(View()), policy, Reverse(id))
      ensures outcome.Ok? <==> ReversalOutcome(old(rows), id).Ok? && !Blank(reason) && !Blank(actor)
      ensures match outcome
              case Ok(k) => k == |old(rows)|
              case Err(e) =>
                && View() == old(View())
                && e == match ReversalOutcome(old(rows), id) case Err(first) => first case Ok(_) => NoReasonOrActor
    {
      if id >= |rows| { return Err(NoSuchEntry); }
      var original := rows[id];
      if original.entryType == Reversal { return Err(IsAReversal); }
      if IsReversed(rows, id) { return Err(AlreadyReversed); }
      outcome := PostManual(original.user, -original.credits, reason, actor, original.kind, Reversal, Some(id),
                            Some(original.period));
    }
  }
}
