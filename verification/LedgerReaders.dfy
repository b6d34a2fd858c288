/**
 Readers of a balance, one statement at a time. After a cache miss and the month's grant, a reader sums the
 allowance, the month, and what was bought, looks up the first purchase, sums the overspend, and only then
 caches the result. No transaction holds these together, so anything may commit in between.
 */
module LedgerReaders {
  import opened Wrappers
  import opened LedgerEntries
  import opened CreditLedger
  import opened LedgerLaws

  /** Where a reader stands after each of its statements; `since` is how many rows there were when it began. */
  datatype Reading =
    | Begun(user: string, period: nat, since: nat)
    | AllowanceRead(user: string, period: nat, since: nat, allowance: int)
    | MonthRead(user: string, period: nat, since: nat, allowance: int, monthly: int)
    | BoughtRead(user: string, period: nat, since: nat, allowance: int, monthly: int, bought: int)
    | FirstRead(user: string, period: nat, since: nat, allowance: int, monthly: int, bought: int, first: nat)
    | Done(user: string, period: nat, since: nat, balance: Breakdown)

  function AfterStatement(r: Reading, rows: Table): Reading {
    match r
    case Begun(user, period, since) => AllowanceRead(user, period, since, PoolCredits(rows, user, period))
    case AllowanceRead(user, period, since, allowance) =>
      MonthRead(user, period, since, allowance, Max(0, PoolDelta(rows, user, period)))
    case MonthRead(user, period, since, allowance, monthly) =>
      var bought := BoughtSum(rows, user);
      if bought <= 0 then Done(user, period, since, Breakdown(monthly, 0, allowance))
      else BoughtRead(user, period, since, allowance, monthly, bought)
    case BoughtRead(user, period, since, allowance, monthly, bought) =>
      (match FirstPurchase(rows, user)
       case None => Done(user, period, since, Breakdown(monthly, 0, allowance))
       case Some(first) => FirstRead(user, period, since, allowance, monthly, bought, first))
    case FirstRead(user, period, since, allowance, monthly, bought, first) =>
      var left := Max(0, bought - Overspend(rows, user, first, Horizon(rows)));
      Done(user, period, since, Breakdown(monthly, left, allowance))
    case Done(_, _, _, _) => r
  }

  datatype Readers = Readers(ledger: State, at: map<nat, Reading>)

  datatype ReaderStep =
    | Do(event: Event)
    | Begin(reader: nat, user: string, plan: string, month: Option<nat>)
    | Statement(reader: nat)
    | Store(reader: nat)

  function Begins(r: Readers, policy: Policy, reader: nat, user: string, plan: string, period: nat): Readers {
    if user == "" || Entitlement(policy, plan).None? || (user, period) in r.ledger.cache then r
    else
      var granted := Granted(r.ledger, policy, user, plan, period);
      Readers(granted, r.at[reader := Begun(user, period, |granted.rows|)])
  }

  function ReaderNext(r: Readers, policy: Policy, step: ReaderStep): Readers {
    match step
    case Do(event) => r.(ledger := Step(r.ledger, policy, event))
    case Begin(reader, user, plan, month) => Begins(r, policy, reader, user, plan, MonthOr(month, r.ledger.now))
    case Statement(reader) =>
      if reader !in r.at then r else r.(at := r.at[reader := AfterStatement(r.at[reader], r.ledger.rows)])
    case Store(reader) =>
      if reader !in r.at || !r.at[reader].Done? then r
      else
        var done := r.at[reader];
        Readers(r.ledger.(cache := r.ledger.cache[(done.user, done.period) := done.balance]), r.at - {reader})
  }

  function ReaderRun(r: Readers, policy: Policy, steps: seq<ReaderStep>): Readers {
    if |steps| == 0 then r
    else ReaderNext(ReaderRun(r, policy, steps[..|steps| - 1]), policy, steps[|steps| - 1])
  }

  // ---------------------------------------------------------------------------
  // Moments
  // ---------------------------------------------------------------------------

  /** Numbers of rows at successive moments. */
  ghost predicate Moments(m: seq<nat>, from: nat, to: nat) {
    (forall k :: 0 <= k < |m| ==> from <= m[k] <= to) && forall j, k :: 0 <= j <= k < |m| ==> m[j] <= m[k]
  }

  /** The purchased bucket, its three statements at three moments. */
  function PurchasedRead(one: Table, two: Table, three: Table, user: string): int {
    var bought, first := BoughtSum(one, user), FirstPurchase(two, user);
    if bought <= 0 || first.None? then 0 else Max(0, bought - Overspend(three, user, first.value, Horizon(three)))
  }

  /** A balance whose five statements each saw the rows there were at their own moment. */
  ghost function ReadAt(rows: Table, user: string, period: nat, m: seq<nat>): Breakdown
    requires |m| == 5 && Moments(m, 0, |rows|)
  {
    Breakdown(Max(0, PoolDelta(rows[..m[1]], user, period)),
              PurchasedRead(rows[..m[2]], rows[..m[3]], rows[..m[4]], user),
              PoolCredits(rows[..m[0]], user, period))
  }

  ghost predicate ReadInOrder(rows: Table, user: string, period: nat, balance: Breakdown) {
    exists m :: |m| == 5 && Moments(m, 0, |rows|) && balance == ReadAt(rows, user, period, m)
  }

  /** What a reader holds, statement by statement, and none of them before it began. */
  ghost predicate Fits(rows: Table, r: Reading, m: seq<nat>) {
    && Moments(m, r.since, |rows|)
    && match r
       case Begun(_, _, _) => |m| == 0
       case AllowanceRead(user, period, _, allowance) =>
         |m| == 1 && allowance == PoolCredits(rows[..m[0]], user, period)
       case MonthRead(user, period, _, allowance, monthly) =>
         && |m| == 2 && allowance == PoolCredits(rows[..m[0]], user, period)
         && monthly == Max(0, PoolDelta(rows[..m[1]], user, period))
       case BoughtRead(user, period, _, allowance, monthly, bought) =>
         && |m| == 3 && allowance == PoolCredits(rows[..m[0]], user, period)
         && monthly == Max(0, PoolDelta(rows[..m[1]], user, period))
         && bought == BoughtSum(rows[..m[2]], user) && bought > 0
       case FirstRead(user, period, _, allowance, monthly, bought, first) =>
         && |m| == 4 && allowance == PoolCredits(rows[..m[0]], user, period)
         && monthly == Max(0, PoolDelta(rows[..m[1]], user, period)) && bought == BoughtSum(rows[..m[2]], user)
         && bought > 0 && FirstPurchase(rows[..m[3]], user) == Some(first)
       case Done(user, period, _, balance) =>
         |m| == 5 && Moments(m, 0, |rows|) && balance == ReadAt(rows, user, period, m)
  }

  lemma FitsLater(rows: Table, after: Table, r: Reading, m: seq<nat>)
    requires rows <= after && Fits(rows, r, m)
    ensures Fits(after, r, m)
  {
    forall k | 0 <= k < |m| ensures after[..m[k]] == rows[..m[k]] {
    }
  }

  lemma ReadInOrderLater(rows: Table, after: Table, user: string, period: nat, balance: Breakdown)
    requires rows <= after && ReadInOrder(rows, user, period, balance)
    ensures ReadInOrder(after, user, period, balance)
  {
    var m :| |m| == 5 && Moments(m, 0, |rows|) && balance == ReadAt(rows, user, period, m);
    FitsLater(rows, after, Done(user, period, 0, balance), m);
  }

  lemma OneMoreMoment(m: seq<nat>, from: nat, now: nat)
    requires Moments(m, from, now) && from <= now
    ensures Moments(m + [now], from, now)
  {
  }

  /** A statement adds the present moment to those of the statements before it. */
  lemma StatementFits(rows: Table, r: Reading, m: seq<nat>) returns (after: seq<nat>)
    requires Fits(rows, r, m) && r.since <= |rows|
    ensures Fits(rows, AfterStatement(r, rows), after)
  {
    match r {
      case MonthRead(_, _, _, _, _) => after := BoughtStatementFits(rows, r, m);
      case BoughtRead(_, _, _, _, _, _) => after := FirstStatementFits(rows, r, m);
      case FirstRead(_, _, _, _, _, _, _) => after := LastStatementFits(rows, r, m);
      case Done(_, _, _, _) => after := m;
      case _ =>
        assert rows[..|rows|] == rows;
        OneMoreMoment(m, r.since, |rows|);
        after := m + [|rows|];
    }
  }

  lemma BoughtStatementFits(rows: Table, r: Reading, m: seq<nat>) returns (after: seq<nat>)
    requires Fits(rows, r, m) && r.since <= |rows| && r.MonthRead?
    ensures Fits(rows, AfterStatement(r, rows), after)
  {
    var n := |rows|;
    assert rows[..n] == rows;
    OneMoreMoment(m, r.since, n);
    after := m + [n];
    if BoughtSum(rows, r.user) <= 0 {
      OneMoreMoment(after, r.since, n);
      OneMoreMoment(after + [n], r.since, n);
      after := after + [n] + [n];
    }
  }

  lemma FirstStatementFits(rows: Table, r: Reading, m: seq<nat>) returns (after: seq<nat>)
    requires Fits(rows, r, m) && r.since <= |rows| && r.BoughtRead?
    ensures Fits(rows, AfterStatement(r, rows), after)
  {
    var n := |rows|;
    assert rows[..n] == rows;
    OneMoreMoment(m, r.since, n);
    after := m + [n];
    if FirstPurchase(rows, r.user).None? {
      OneMoreMoment(after, r.since, n);
      after := after + [n];
    }
  }

  lemma LastStatementFits(rows: Table, r: Reading, m: seq<nat>) returns (after: seq<nat>)
    requires Fits(rows, r, m) && r.since <= |rows| && r.FirstRead?
    ensures Fits(rows, AfterStatement(r, rows), after)
  {
    assert rows[..|rows|] == rows;
    OneMoreMoment(m, r.since, |rows|);
    after := m + [|rows|];
  }

  lemma ReadAtOnce(rows: Table, user: string, period: nat)
    ensures ReadInOrder(rows, user, period, Recompute(rows, user, period))
  {
    var n := |rows|;
    assert rows[..n] == rows;
    var m := [n, n, n, n, n];
    assert Moments(m, 0, n) && Recompute(rows, user, period) == ReadAt(rows, user, period, m);
  }

  // ---------------------------------------------------------------------------
  // Every interleaving
  // ---------------------------------------------------------------------------

  ghost predicate CacheInOrder(s: State) {
    forall key :: key in s.cache ==> ReadInOrder(s.rows, key.0, key.1, s.cache[key])
  }

  ghost predicate SomeFit(rows: Table, r: Reading) {
    r.since <= |rows| && exists m :: Fits(rows, r, m)
  }

  ghost predicate ReadersFit(rows: Table, at: map<nat, Reading>) {
    forall t :: t in at ==> SomeFit(rows, at[t])
  }

  /** Entries only go, unless a read adds the one it has just computed. */
  lemma StepCaches(s: State, policy: Policy, event: Event, key: (string, nat))
    requires key in Step(s, policy, event).cache
    ensures var after := Step(s, policy, event);
            || (key in s.cache && after.cache[key] == s.cache[key])
            || after.cache[key] == Recompute(after.rows, key.0, key.1)
  {
  }

  lemma StepKeepsInOrder(s: State, policy: Policy, event: Event)
    requires CacheInOrder(s)
    ensures CacheInOrder(Step(s, policy, event))
  {
    var after := Step(s, policy, event);
    StepAppends(s, policy, event);
    forall key | key in after.cache ensures ReadInOrder(after.rows, key.0, key.1, after.cache[key]) {
      StepCaches(s, policy, event, key);
      if key in s.cache && after.cache[key] == s.cache[key] {
        ReadInOrderLater(s.rows, after.rows, key.0, key.1, s.cache[key]);
      } else {
        ReadAtOnce(after.rows, key.0, key.1);
      }
    }
  }

  lemma GrantKeepsInOrder(s: State, policy: Policy, user: string, plan: string, period: nat)
    requires CacheInOrder(s)
    ensures s.rows <= Granted(s, policy, user, plan, period).rows
    ensures CacheInOrder(Granted(s, policy, user, plan, period))
  {
    var after := Granted(s, policy, user, plan, period);
    forall key | key in after.cache ensures ReadInOrder(after.rows, key.0, key.1, after.cache[key]) {
      ReadInOrderLater(s.rows, after.rows, key.0, key.1, s.cache[key]);
    }
  }

  lemma ReadersFitLater(rows: Table, after: Table, at: map<nat, Reading>)
    requires rows <= after && ReadersFit(rows, at)
    ensures ReadersFit(after, at)
  {
    forall t | t in at ensures SomeFit(after, at[t]) {
      var m :| Fits(rows, at[t], m);
      FitsLater(rows, after, at[t], m);
    }
  }

  lemma BeginKeepsInOrder(r: Readers, policy: Policy, reader: nat, user: string, plan: string, period: nat)
    requires CacheInOrder(r.ledger) && ReadersFit(r.ledger.rows, r.at)
    ensures var after := Begins(r, policy, reader, user, plan, period);
            CacheInOrder(after.ledger) && ReadersFit(after.ledger.rows, after.at)
  {
    var granted := Granted(r.ledger, policy, user, plan, period);
    GrantKeepsInOrder(r.ledger, policy, user, plan, period);
    ReadersFitLater(r.ledger.rows, granted.rows, r.at);
    assert Fits(granted.rows, Begun(user, period, |granted.rows|), []);
  }

  lemma ReaderStepKeepsInOrder(r: Readers, policy: Policy, step: ReaderStep)
    requires CacheInOrder(r.ledger) && ReadersFit(r.ledger.rows, r.at)
    ensures var after := ReaderNext(r, policy, step);
            CacheInOrder(after.ledger) && ReadersFit(after.ledger.rows, after.at)
  {
    match step {
      case Do(event) =>
        StepAppends(r.ledger, policy, event);
        StepKeepsInOrder(r.ledger, policy, event);
        ReadersFitLater(r.ledger.rows, Step(r.ledger, policy, event).rows, r.at);
      case Begin(reader, user, plan, month) =>
        BeginKeepsInOrder(r, policy, reader, user, plan, MonthOr(month, r.ledger.now));
      case Statement(reader) => if reader in r.at { StatementKeepsFit(r.ledger.rows, r.at[reader]); }
      case Store(reader) => if reader in r.at && r.at[reader].Done? { DoneIsInOrder(r.ledger.rows, r.at[reader]); }
    }
  }

  lemma StatementKeepsFit(rows: Table, r: Reading)
    requires SomeFit(rows, r)
    ensures SomeFit(rows, AfterStatement(r, rows))
  {
    var m :| Fits(rows, r, m);
    var after := StatementFits(rows, r, m);
  }

  lemma DoneIsInOrder(rows: Table, r: Reading)
    requires SomeFit(rows, r) && r.Done?
    ensures ReadInOrder(rows, r.user, r.period, r.balance)
  {
    var m :| Fits(rows, r, m);
  }

  /**
   In every interleaving of readers, statement by statement, with everything else: each figure of a cached
   balance, of any user and month, is that of the rows at some moment, and those moments come in the order
   of the statements. They need not be one moment.
   */
  lemma {:induction false} CachedBalancesWereReadInOrder(policy: Policy, steps: seq<ReaderStep>)
    ensures var end := ReaderRun(Readers(EMPTY, map[]), policy, steps);
            CacheInOrder(end.ledger) && ReadersFit(end.ledger.rows, end.at)
  {
    if |steps| > 0 {
      var n := |steps| - 1;
      CachedBalancesWereReadInOrder(policy, steps[..n]);
      ReaderStepKeepsInOrder(ReaderRun(Readers(EMPTY, map[]), policy, steps[..n]), policy, steps[n]);
    }
  }
}
