/**
 The rows of the credit ledger, what the database refuses to store, and the balance derived from
 the rows. A table holds every user's rows in posting order; a row's id is its position. Months are
 numbered, so later means larger. Amounts are signed milli-credits: grants positive, charges negative.
 */
module LedgerEntries {
  import opened Wrappers

  datatype EntryType = Grant | Charge | Reversal | Expiry

  datatype Kind = NoKind | Monthly | Promotional | Purchased | Manual

  datatype Entry = Entry(
    user: string, entryType: EntryType, kind: Kind, credits: int, period: nat, plan: string,
    requestId: Option<string>, externalRef: Option<string>, refId: Option<nat>)

  type Table = seq<Entry>

  // ---------------------------------------------------------------------------
  // Uniqueness
  // ---------------------------------------------------------------------------

  /** One charge per request, one monthly grant per (user, month, plan), one grant per outside cause. */
  predicate Collide(a: Entry, b: Entry) {
    || (a.entryType == b.entryType == Charge && a.requestId.Some? && a.requestId == b.requestId)
    || (a.entryType == b.entryType == Grant && a.kind == b.kind == Monthly
        && a.user == b.user && a.period == b.period && a.plan == b.plan)
    || (a.entryType == b.entryType == Grant && a.externalRef.Some? && a.externalRef == b.externalRef)
  }

  predicate Refused(rows: Table, e: Entry) {
    exists k :: 0 <= k < |rows| && Collide(rows[k], e)
  }

  ghost predicate Unique(rows: Table) {
    forall j, k :: 0 <= j < k < |rows| ==> !Collide(rows[j], rows[k])
  }

  /** The insert either appends the row or fails on a constraint and changes nothing. */
  function Insert(rows: Table, e: Entry): (r: Result<Table, ()>)
    ensures Unique(rows) && r.Ok? ==> Unique(r.value)
    ensures r.Ok? ==> r.value == rows + [e]
    ensures r.Err? <==> Refused(rows, e)
  {
    if Refused(rows, e) then Err(()) else Ok(rows + [e])
  }

  // ---------------------------------------------------------------------------
  // Sums over the rows a query selects
  // ---------------------------------------------------------------------------

  datatype Query =
    | PoolOf(user: string, period: nat)          // one month's side: everything not purchased
    | PoolCreditsOf(user: string, period: nat)   // the same without the charges
    | BoughtBy(user: string)
    | NotBoughtBy(user: string)
    | MonthlyGrantsOf(user: string, period: nat)
    | GrantedTo(user: string)
    | NotGrantedTo(user: string)
    | ReversalsOf(id: nat)

  predicate Selects(q: Query, e: Entry) {
    match q
    case PoolOf(u, p) => e.user == u && e.period == p && e.kind != Purchased
    case PoolCreditsOf(u, p) => e.user == u && e.period == p && e.kind != Purchased && e.entryType != Charge
    case BoughtBy(u) => e.user == u && e.kind == Purchased
    case NotBoughtBy(u) => e.user == u && e.kind != Purchased
    case MonthlyGrantsOf(u, p) => e.user == u && e.period == p && e.entryType == Grant && e.kind == Monthly
    case GrantedTo(u) => e.user == u && e.entryType == Grant
    case NotGrantedTo(u) => e.user == u && e.entryType != Grant
    case ReversalsOf(id) => e.entryType == Reversal && e.refId == Some(id)
  }

  function Share(q: Query, e: Entry): int {
    if Selects(q, e) then e.credits else 0
  }

  function Sum(rows: Table, q: Query): int {
    if |rows| == 0 then 0 else Sum(rows[..|rows| - 1], q) + Share(q, rows[|rows| - 1])
  }

  lemma SumPush(rows: Table, e: Entry, q: Query)
    ensures Sum(rows + [e], q) == Sum(rows, q) + Share(q, e)
  {
    assert (rows + [e])[..|rows|] == rows;
  }

  /** The table with row `i` left out. */
  function Without(rows: Table, i: nat): Table
    requires i < |rows|
  {
    rows[..i] + rows[i + 1..]
  }

  lemma WithoutStep(rows: Table, i: nat)
    requires i < |rows|
    ensures var n := |rows| - 1;
            Without(rows, i) == if i == n then rows[..n] else Without(rows[..n], i) + [rows[n]]
  {
  }

  lemma {:induction false} SumWithout(rows: Table, i: nat, q: Query)
    requires i < |rows|
    ensures Sum(rows, q) == Sum(Without(rows, i), q) + Share(q, rows[i])
  {
    var n := |rows| - 1;
    WithoutStep(rows, i);
    if i < n {
      SumWithout(rows[..n], i, q);
      SumPush(Without(rows[..n], i), rows[n], q);
    }
  }

  // ---------------------------------------------------------------------------
  // The balance
  // ---------------------------------------------------------------------------

  /** Signed: a negative result is the month's overspend. */
  function PoolDelta(rows: Table, user: string, period: nat): int {
    Sum(rows, PoolOf(user, period))
  }

  function PoolCredits(rows: Table, user: string, period: nat): int {
    Sum(rows, PoolCreditsOf(user, period))
  }

  function BoughtSum(rows: Table, user: string): int {
    Sum(rows, BoughtBy(user))
  }

  /** The earliest month among the purchased rows. */
  function FirstPurchase(rows: Table, user: string): Option<nat> {
    if |rows| == 0 then None
    else
      var n := |rows| - 1;
      var before := FirstPurchase(rows[..n], user);
      if !Selects(BoughtBy(user), rows[n]) then before
      else if before.Some? && before.value <= rows[n].period then before
      else Some(rows[n].period)
  }

  lemma {:induction false} FirstPurchaseIsEarliest(rows: Table, user: string)
    ensures match FirstPurchase(rows, user)
            case None => forall k :: 0 <= k < |rows| ==> !Selects(BoughtBy(user), rows[k])
            case Some(first) =>
              && (forall k :: 0 <= k < |rows| && Selects(BoughtBy(user), rows[k]) ==> first <= rows[k].period)
              && (exists k :: 0 <= k < |rows| && Selects(BoughtBy(user), rows[k]) && first == rows[k].period)
  {
    if |rows| > 0 {
      var n := |rows| - 1;
      FirstPurchaseIsEarliest(rows[..n], user);
      assert rows[n] == rows[|rows| - 1];
    }
  }

  lemma NeverBought(rows: Table, user: string)
    requires FirstPurchase(rows, user).None?
    ensures BoughtSum(rows, user) == 0
  {
    FirstPurchaseIsEarliest(rows, user);
    NoRowsNoSum(rows, BoughtBy(user));
  }

  /** A month later than every row. */
  function Horizon(rows: Table): nat {
    if |rows| == 0 then 0
    else Max(Horizon(rows[..|rows| - 1]), rows[|rows| - 1].period + 1)
  }

  lemma {:induction false} HorizonIsBeyond(rows: Table)
    ensures forall k :: 0 <= k < |rows| ==> rows[k].period < Horizon(rows)
  {
    if |rows| > 0 { HorizonIsBeyond(rows[..|rows| - 1]); }
  }

  function Over(rows: Table, user: string, period: nat): int {
    Max(0, -PoolDelta(rows, user, period))
  }

  /** What months `from` up to `until` spent beyond their own side; a month without rows adds nothing. */
  function Overspend(rows: Table, user: string, from: nat, until: nat): (total: int)
    ensures total >= 0
  {
    if until <= from then 0
    else Overspend(rows, user, from, until - 1) + Over(rows, user, until - 1)
  }

  function PurchasedRemaining(rows: Table, user: string): (left: int)
    ensures left >= 0
  {
    var bought, first := BoughtSum(rows, user), FirstPurchase(rows, user);
    if bought <= 0 || first.None? then 0
    else Max(0, bought - Overspend(rows, user, first.value, Horizon(rows)))
  }

  datatype Breakdown = Breakdown(monthly: int, purchased: int, allowance: int) {
    function Total(): int { monthly + purchased }
  }

  function Recompute(rows: Table, user: string, period: nat): Breakdown {
    Breakdown(Max(0, PoolDelta(rows, user, period)), PurchasedRemaining(rows, user),
              PoolCredits(rows, user, period))
  }

  // ---------------------------------------------------------------------------
  // How one more row moves these
  // ---------------------------------------------------------------------------

  lemma {:induction false} NoRowsNoSum(rows: Table, q: Query)
    requires forall k :: 0 <= k < |rows| ==> !Selects(q, rows[k])
    ensures Sum(rows, q) == 0
  {
    if |rows| > 0 { NoRowsNoSum(rows[..|rows| - 1], q); }
  }

  /** Looking further ahead than the last row finds nothing more. */
  lemma {:induction false} OverspendEnds(rows: Table, user: string, from: nat, until: nat, later: nat)
    requires until <= later && forall k :: 0 <= k < |rows| ==> rows[k].period < until
    ensures Overspend(rows, user, from, later) == Overspend(rows, user, from, until)
  {
    if until < later {
      OverspendEnds(rows, user, from, until, later - 1);
      NoRowsNoSum(rows, PoolOf(user, later - 1));
    }
  }

  lemma {:induction false} OverspendPush(rows: Table, e: Entry, user: string, from: nat, until: nat)
    ensures Overspend(rows + [e], user, from, until)
         == Overspend(rows, user, from, until)
            + if from <= e.period < until
              then Over(rows + [e], user, e.period) - Over(rows, user, e.period) else 0
  {
    if from < until {
      OverspendPush(rows, e, user, from, until - 1);
      SumPush(rows, e, PoolOf(user, until - 1));
    }
  }

  /** Over a range that contains it, a month's overspend can be split off. */
  lemma {:induction false} OverspendSplit(rows: Table, user: string, from: nat, at: nat, until: nat)
    requires from <= at < until
    ensures Overspend(rows, user, from, until)
         == Overspend(rows, user, from, at) + Over(rows, user, at) + Overspend(rows, user, at + 1, until)
  {
    if at + 1 < until { OverspendSplit(rows, user, from, at, until - 1); }
  }

  lemma {:induction false} OverspendConcat(rows: Table, user: string, a: nat, b: nat, c: nat)
    requires a <= b <= c
    ensures Overspend(rows, user, a, c) == Overspend(rows, user, a, b) + Overspend(rows, user, b, c)
  {
    if b < c { OverspendConcat(rows, user, a, b, c - 1); }
  }

  /** The purchased bucket, with any month past the last row in place of the horizon. */
  lemma PurchasedUpTo(rows: Table, user: string, until: nat)
    requires until >= Horizon(rows)
    ensures PurchasedRemaining(rows, user)
         == var bought, first := BoughtSum(rows, user), FirstPurchase(rows, user);
            if bought <= 0 || first.None? then 0
            else Max(0, bought - Overspend(rows, user, first.value, until))
  {
    var first := FirstPurchase(rows, user);
    HorizonIsBeyond(rows);
    if first.Some? { OverspendEnds(rows, user, first.value, Horizon(rows), until); }
  }

  lemma FirstPurchasePush(rows: Table, e: Entry, user: string)
    ensures FirstPurchase(rows + [e], user)
         == if !Selects(BoughtBy(user), e) then FirstPurchase(rows, user)
            else match FirstPurchase(rows, user)
                 case None => Some(e.period)
                 case Some(p) => Some(Min(p, e.period))
  {
    assert (rows + [e])[..|rows|] == rows;
  }

  lemma HorizonPush(rows: Table, e: Entry)
    ensures Horizon(rows + [e]) == Max(Horizon(rows), e.period + 1)
  {
    assert (rows + [e])[..|rows|] == rows;
  }

  /** Another user's row changes nothing for this one. */
  lemma OthersRowsDoNotCount(rows: Table, e: Entry, user: string, period: nat)
    requires e.user != user
    ensures Recompute(rows + [e], user, period) == Recompute(rows, user, period)
  {
    SumPush(rows, e, PoolOf(user, period));
    SumPush(rows, e, PoolCreditsOf(user, period));
    SumPush(rows, e, BoughtBy(user));
    SumPush(rows, e, PoolOf(user, e.period));
    FirstPurchasePush(rows, e, user);
    HorizonPush(rows, e);
    var until := Horizon(rows + [e]);
    PurchasedUpTo(rows, user, until);
    if FirstPurchase(rows, user).Some? {
      OverspendPush(rows, e, user, FirstPurchase(rows, user).value, until);
    }
  }
}
