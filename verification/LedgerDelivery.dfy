/** Charges and purchases may be delivered any number of times; only the first delivery counts. */
module LedgerDelivery {
  import opened Wrappers
  import opened LedgerEntries
  import opened CreditLedger

  /** What makes two deliveries the same: the request, or the stored part of the outside reference. */
  datatype DeliveryKey = NotADelivery | ByRequest(requestId: string) | ByRef(ref: string)

  /** An event the ledger ignores outright (nothing owed, no id) delivers nothing. */
  function KeyOf(event: Event): DeliveryKey {
    match event
    case ChargeFor(requestId, _, credits, _) =>
      if credits <= 0 || requestId == "" then NotADelivery else ByRequest(requestId)
    case Buy(user, credits, externalRef) =>
      if user == "" || externalRef == "" || credits <= 0 then NotADelivery else ByRef(RefKey(externalRef))
    case _ => NotADelivery
  }

  ghost predicate Recorded(rows: Table, key: DeliveryKey) {
    match key
    case NotADelivery => false
    case ByRequest(id) => exists k :: 0 <= k < |rows| && rows[k].entryType == Charge && rows[k].requestId == Some(id)
    case ByRef(ref) => exists k :: 0 <= k < |rows| && rows[k].entryType == Grant && rows[k].externalRef == Some(ref)
  }

  lemma RecordedStays(rows: Table, after: Table, key: DeliveryKey)
    requires rows <= after && Recorded(rows, key)
    ensures Recorded(after, key)
  {
    match key {
      case ByRequest(id) =>
        var k :| 0 <= k < |rows| && rows[k].entryType == Charge && rows[k].requestId == Some(id);
        assert after[k] == rows[k];
      case ByRef(ref) =>
        var k :| 0 <= k < |rows| && rows[k].entryType == Grant && rows[k].externalRef == Some(ref);
        assert after[k] == rows[k];
    }
  }

  /** A delivery whose key is recorded changes neither rows nor cache. */
  lemma RecordedIsSilent(s: State, policy: Policy, event: Event)
    requires Recorded(s.rows, KeyOf(event))
    ensures Step(s, policy, event) == s
  {
  }

  /** Posted now or refused as already there: after the step the key is recorded. */
  lemma DeliveryRecords(s: State, policy: Policy, event: Event)
    requires KeyOf(event) != NotADelivery
    ensures Recorded(Step(s, policy, event).rows, KeyOf(event))
  {
    match event {
      case ChargeFor(requestId, user, credits, month) =>
        ChargeRecords(s.rows, requestId, user, credits, MonthOr(month, s.now));
      case Buy(user, credits, externalRef) =>
        BuyRecords(s.rows, user, credits, externalRef, s.now);
    }
  }

  lemma ChargeRecords(rows: Table, requestId: string, user: string, credits: int, period: nat)
    requires credits > 0 && requestId != ""
    ensures match ChargeOutcome(rows, requestId, user, credits, period)
            case Some(after) => Recorded(after, ByRequest(requestId))
            case None => Recorded(rows, ByRequest(requestId))
  {
    var e := ChargeRow(requestId, user, credits, period);
    if !Refused(rows, e) { assert (rows + [e])[|rows|] == e; }
  }

  lemma BuyRecords(rows: Table, user: string, credits: int, externalRef: string, now: nat)
    requires user != "" && externalRef != "" && credits > 0
    ensures match PurchaseOutcome(rows, user, credits, externalRef, now)
            case Some(after) => Recorded(after, ByRef(RefKey(externalRef)))
            case None => Recorded(rows, ByRef(RefKey(externalRef)))
  {
    var e := PurchaseRow(user, credits, externalRef, now);
    if !Refused(rows, e) {
      assert (rows + [e])[|rows|] == e;
      RecordedStays(rows + [e], PurchaseOutcome(rows, user, credits, externalRef, now).value,
                    ByRef(RefKey(externalRef)));
    }
  }

  predicate Redelivers(earlier: seq<Event>, event: Event) {
    KeyOf(event) != NotADelivery && exists k :: 0 <= k < |earlier| && KeyOf(earlier[k]) == KeyOf(event)
  }

  /** The events without the deliveries whose key came earlier. */
  function FirstDeliveries(events: seq<Event>): seq<Event> {
    if |events| == 0 then []
    else
      var n := |events| - 1;
      FirstDeliveries(events[..n]) + if Redelivers(events[..n], events[n]) then [] else [events[n]]
  }

  lemma {:induction false} DeliveredIsRecorded(s: State, policy: Policy, events: seq<Event>, k: nat)
    requires k < |events| && KeyOf(events[k]) != NotADelivery
    ensures Recorded(Run(s, policy, events).rows, KeyOf(events[k]))
  {
    var n := |events| - 1;
    var before := Run(s, policy, events[..n]);
    if k == n {
      DeliveryRecords(before, policy, events[n]);
    } else {
      DeliveredIsRecorded(s, policy, events[..n], k);
      StepAppends(before, policy, events[n]);
      RecordedStays(before.rows, Step(before, policy, events[n]).rows, KeyOf(events[k]));
    }
  }

  /** No second row for a request, no second grant and no second absorption row for a reference. */
  lemma RedeliveryPostsNothing(s: State, policy: Policy, events: seq<Event>, event: Event)
    requires Redelivers(events, event)
    ensures Step(Run(s, policy, events), policy, event) == Run(s, policy, events)
  {
    var k :| 0 <= k < |events| && KeyOf(events[k]) == KeyOf(event);
    DeliveredIsRecorded(s, policy, events, k);
    RecordedIsSilent(Run(s, policy, events), policy, event);
  }

  /** In so many words: a request charged before, at whatever amount, month and user, is not charged again... */
  lemma RequestIsChargedOnce(s: State, policy: Policy, events: seq<Event>, k: nat, requestId: string,
                             user: string, credits: int, month: Option<nat>)
    requires k < |events| && events[k].ChargeFor? && events[k].requestId == requestId && events[k].credits > 0
    requires requestId != "" && credits > 0
    ensures Step(Run(s, policy, events), policy, ChargeFor(requestId, user, credits, month)) == Run(s, policy, events)
  {
    RedeliveryPostsNothing(s, policy, events, ChargeFor(requestId, user, credits, month));
  }

  /** ...and a purchase delivered before under a reference is not granted again, nor its debt absorbed again. */
  lemma ReferenceIsGrantedOnce(s: State, policy: Policy, events: seq<Event>, k: nat, externalRef: string,
                               user: string, credits: int)
    requires k < |events| && events[k].Buy? && events[k].externalRef == externalRef
    requires events[k].user != "" && events[k].credits > 0 && user != "" && externalRef != "" && credits > 0
    ensures Step(Run(s, policy, events), policy, Buy(user, credits, externalRef)) == Run(s, policy, events)
  {
    RedeliveryPostsNothing(s, policy, events, Buy(user, credits, externalRef));
  }

  lemma RunPush(s: State, policy: Policy, events: seq<Event>, event: Event)
    ensures Run(s, policy, events + [event]) == Step(Run(s, policy, events), policy, event)
  {
    assert (events + [event])[..|events|] == events;
  }

  lemma OneMoreDelivery(s: State, policy: Policy, events: seq<Event>, event: Event, kept: seq<Event>,
                        all: seq<Event>, allKept: seq<Event>)
    requires Run(s, policy, events) == Run(s, policy, kept)
    requires all == events + [event] && allKept == kept + if Redelivers(events, event) then [] else [event]
    ensures Run(s, policy, all) == Run(s, policy, allKept)
  {
    RunPush(s, policy, events, event);
    if Redelivers(events, event) {
      RedeliveryPostsNothing(s, policy, events, event);
      assert kept + [] == kept;
    } else {
      RunPush(s, policy, kept, event);
    }
  }

  /**
   Whatever else happens in between, a run with redeliveries ends in the same rows, cache and month as
   the run that keeps only the first delivery of each request and of each purchase.
   */
  lemma {:induction false} RedeliveryIsHarmless(s: State, policy: Policy, events: seq<Event>)
    ensures Run(s, policy, events) == Run(s, policy, FirstDeliveries(events))
  {
    if |events| > 0 {
      var front, event := events[..|events| - 1], events[|events| - 1];
      RedeliveryIsHarmless(s, policy, front);
      OneMoreDelivery(s, policy, front, event, FirstDeliveries(front), events, FirstDeliveries(events));
    }
  }

  // ---------------------------------------------------------------------------
  // Reversals
  // ---------------------------------------------------------------------------

  /** An entry together with every reversal that points at it. */
  function NetEffect(rows: Table, id: nat): int
    requires id < |rows|
  {
    rows[id].credits + Sum(rows, ReversalsOf(id))
  }

  /** Reversals point back, at most one at each entry, with its negated amount. */
  ghost predicate ReversalsMatch(rows: Table) {
    && (forall id: nat :: id >= |rows| ==> !IsReversed(rows, id))
    && (forall id: nat :: id < |rows| ==>
          Sum(rows, ReversalsOf(id)) == if IsReversed(rows, id) then -rows[id].credits else 0)
  }

  /** Operators post reversals through `Reverse`, not by hand. */
  ghost predicate NoHandmadeReversal(event: Event) {
    event.PostManually? ==> event.entryType != Reversal
  }

  lemma IsReversedPush(rows: Table, e: Entry, id: nat)
    ensures IsReversed(rows + [e], id) <==> IsReversed(rows, id) || Selects(ReversalsOf(id), e)
  {
    if IsReversed(rows, id) {
      var k :| 0 <= k < |rows| && Selects(ReversalsOf(id), rows[k]);
      assert (rows + [e])[k] == rows[k];
    }
    assert (rows + [e])[|rows|] == e;
  }

  lemma PushKeepsReversals(rows: Table, e: Entry)
    requires ReversalsMatch(rows)
    requires e.entryType == Reversal ==>
               e.refId.Some? && e.refId.value < |rows| && !IsReversed(rows, e.refId.value)
               && e.credits == -rows[e.refId.value].credits
    ensures ReversalsMatch(rows + [e])
  {
    var after := rows + [e];
    forall id: nat ensures id >= |after| ==> !IsReversed(after, id) {
      IsReversedPush(rows, e, id);
    }
    forall id: nat | id < |after|
      ensures Sum(after, ReversalsOf(id)) == if IsReversed(after, id) then -after[id].credits else 0
    {
      IsReversedPush(rows, e, id);
      SumPush(rows, e, ReversalsOf(id));
      if id == |rows| {
        assert !IsReversed(rows, id);
        NoRowsNoSum(rows, ReversalsOf(id));
      }
    }
  }

  lemma StepKeepsReversals(s: State, policy: Policy, event: Event)
    requires ReversalsMatch(s.rows) && NoHandmadeReversal(event)
    ensures ReversalsMatch(Step(s, policy, event).rows)
  {
    match event {
      case Read(user, plan, month) =>
        var owed := OwedGrant(s.rows, policy, user, plan, MonthOr(month, s.now));
        if owed.Some? { PushKeepsReversals(s.rows, owed.value); }
      case ChargeFor(requestId, user, credits, month) =>
        PushKeepsReversals(s.rows, ChargeRow(requestId, user, credits, MonthOr(month, s.now)));
      case Buy(user, credits, externalRef) =>
        var bought := PurchaseRow(user, credits, externalRef, s.now);
        PushKeepsReversals(s.rows, bought);
        PushKeepsReversals(s.rows + [bought], AbsorptionRow(user, PrePurchaseDebt(s.rows, user, s.now), s.now));
      case PostManually(user, credits, kind, entryType, refId, month) =>
        PushKeepsReversals(s.rows, ManualRow(user, credits, kind, entryType, refId, MonthOr(month, s.now)));
      case Reverse(id) =>
        if ReversalOutcome(s.rows, id).Ok? { PushKeepsReversals(s.rows, ReversalRow(s.rows, id)); }
      case CacheExpires(_, _) =>
      case MonthPasses(_) =>
    }
  }

  lemma {:induction false} RunKeepsReversals(policy: Policy, events: seq<Event>)
    requires forall k :: 0 <= k < |events| ==> NoHandmadeReversal(events[k])
    ensures ReversalsMatch(Run(EMPTY, policy, events).rows)
  {
    if |events| > 0 {
      var n := |events| - 1;
      RunKeepsReversals(policy, events[..n]);
      StepKeepsReversals(Run(EMPTY, policy, events[..n]), policy, events[n]);
    }
  }

  /** Over a whole run every entry counts once or not at all, exactly as it was reversed or not. */
  lemma EntryCountsOnceOrNotAtAll(policy: Policy, events: seq<Event>, id: nat)
    requires forall k :: 0 <= k < |events| ==> NoHandmadeReversal(events[k])
    requires id < |Run(EMPTY, policy, events).rows|
    ensures var rows := Run(EMPTY, policy, events).rows;
            NetEffect(rows, id) == if IsReversed(rows, id) then 0 else rows[id].credits
  {
    RunKeepsReversals(policy, events);
  }
}
