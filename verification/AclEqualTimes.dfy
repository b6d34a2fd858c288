/** What the release rule needs of mark times, and what happens where two marks of a scope carry the same one. */
module AclEqualTimes {
  import opened AclDirty
  import opened AclProtocol

  ghost predicate Follows(st: State, a: Action, next: State, parse: Parser) {
    Possible(st, a, parse) && next == Next(st, a, parse)
  }

  /** An interleaving in which marks of a scope may carry equal times. */
  ghost predicate IsLooseTrace(trace: seq<State>, actions: seq<Action>, parse: Parser) {
    && |trace| == |actions| + 1 && trace[0] == INIT
    && forall k :: 0 <= k < |actions| ==> Follows(trace[k], actions[k], trace[k + 1], parse)
  }

  ghost predicate OneRowEach(listing: seq<Row>) {
    forall r, r' :: r in listing && r' in listing && r.scope == r'.scope ==> r == r'
  }

  ghost predicate NotAhead(indexed: map<Scope, nat>, version: map<Scope, nat>) {
    forall s :: Count(indexed, s) <= Count(version, s)
  }

  /** What holds whatever the times: keys belong to scopes, a listing has one row a scope, the index is not ahead. */
  ghost predicate LooseInv(st: State) {
    && KeysOwned(st) && NotAhead(st.indexed, st.version)
    && (st.pass.Passing? ==> OneRowEach(st.pass.listing))
  }

  lemma StepKeepsLooseInv(st: State, a: Action, parse: Parser)
    requires LooseInv(st) && Possible(st, a, parse)
    ensures LooseInv(Next(st, a, parse))
  {
    if a.Commit? { CommitKeepsKeysOwned(st, a, parse); }
  }

  lemma {:induction false} LooseInvHolds(trace: seq<State>, actions: seq<Action>, parse: Parser, k: nat)
    requires IsLooseTrace(trace, actions, parse) && k < |trace|
    ensures LooseInv(trace[k])
  {
    if k > 0 {
      LooseInvHolds(trace, actions, parse, k - 1);
      assert Follows(trace[k - 1], actions[k - 1], trace[k], parse);
      StepKeepsLooseInv(trace[k - 1], actions[k - 1], parse);
    }
  }

  /**
   Wherever a trace has got to, whatever its times: a claimed row is still there, marked again or not, and a
   transaction commits a change of its scope. The index is then behind, and a release right after forgets
   the scope if and only if the commit marks it at the very time that was claimed.
   */
  lemma CommitIsForgottenExactlyWhen(trace: seq<State>, actions: seq<Action>, parse: Parser, k: nat,
                                     tx: nat, pks: map<Scope, nat>, claimed: Row)
    requires IsLooseTrace(trace, actions, parse) && k < |trace| && trace[k].pass.Passing?
    requires claimed in trace[k].pass.listing
    requires var st, s := trace[k], claimed.scope;
             && Possible(st, Commit(tx, pks), parse) && s in st.open[tx]
             && s in st.marks && st.marks[s].pk == claimed.pk
    ensures var st, s := trace[k], claimed.scope;
            var after := Next(st, Commit(tx, pks), parse);
            && Count(after.indexed, s) < Count(after.version, s)
            && (s !in Released(after.marks, RowKeys(st.pass.listing)) <==> st.open[tx][s] == claimed.at)
  {
    LooseInvHolds(trace, actions, parse, k);
    var st, s := trace[k], claimed.scope;
    var after, keys := Next(st, Commit(tx, pks), parse), RowKeys(st.pass.listing);
    assert after.marks[s] == Mark(claimed.pk, st.open[tx][s]);
    var i :| 0 <= i < |st.pass.listing| && st.pass.listing[i] == claimed;
    assert keys[i] == (claimed.pk, claimed.at);
    if Matches(after.marks[s], keys) {
      var j :| 0 <= j < |keys| && keys[j] == (claimed.pk, st.open[tx][s]);
      assert st.pass.listing[j] in st.pass.listing && st.pass.listing[j].scope == s;
    }
  }

  // ---------------------------------------------------------------------------
  // A trace
  // ---------------------------------------------------------------------------

  lemma MarkOne(st: State, tx: nat, s: Scope, at: nat, parse: Parser)
    requires st.open == map[]
    ensures Next(st, MarkIn(tx, {s}, at), parse) == st.(open := map[tx := map[s := at]])
  {
    var times := MarkedIn(st.open, tx) + MarkedAll({s}, at);
    assert times.Keys == {s} && times == map[s := at];
  }

  lemma UpsertOne(marks: Marks, s: Scope, at: nat, times: map<Scope, nat>, pks: map<Scope, nat>)
    requires times == map[s := at] && times.Keys - marks.Keys <= pks.Keys
    ensures s in marks || s in pks
    ensures Upserted(marks, times, pks) == marks[s := Mark(if s in marks then marks[s].pk else pks[s], at)]
  {
    assert s in times.Keys - marks.Keys || s in marks;
  }

  lemma BumpOne(version: map<Scope, nat>, scopes: set<Scope>, s: Scope)
    requires s in scopes
    ensures Count(Bumped(version, scopes), s) == Count(version, s) + 1
  {
  }

  lemma CommitParts(st: State, tx: nat, pks: map<Scope, nat>, parse: Parser)
    requires Possible(st, Commit(tx, pks), parse)
    ensures var after := Next(st, Commit(tx, pks), parse);
            && st.open[tx].Keys - st.marks.Keys <= pks.Keys
            && after.marks == Upserted(st.marks, st.open[tx], pks)
            && after.version == Bumped(st.version, st.open[tx].Keys)
            && after.open == st.open - {tx} && after.pass == st.pass && after.indexed == st.indexed
  {
  }

  lemma CommitOne(st: State, tx: nat, s: Scope, at: nat, times: map<Scope, nat>, pks: map<Scope, nat>, parse: Parser)
    requires st.open == map[tx := times] && times == map[s := at] && Possible(st, Commit(tx, pks), parse)
    ensures s in st.marks || s in pks
    ensures var after, pk := Next(st, Commit(tx, pks), parse), if s in st.marks then st.marks[s].pk else pks[s];
            && after.marks == st.marks[s := Mark(pk, at)] && Count(after.version, s) == Count(st.version, s) + 1
            && after.open == map[] && after.pass == st.pass && after.indexed == st.indexed
  {
    CommitParts(st, tx, pks, parse);
    assert st.open[tx] == times && times.Keys == {s};
    UpsertOne(st.marks, s, at, st.open[tx], pks);
    BumpOne(st.version, st.open[tx].Keys, s);
  }

  /** The seven actions of a trace whose second mark carries the first one's time. */
  function TwiceAtFive(s: Scope): seq<Action> {
    [MarkIn(8, {s}, 5), Commit(8, map[s := 100]), ClaimMarks([Row(100, s, 5)]), Refresh(s),
     MarkIn(9, {s}, 5), Commit(9, map[]), ReleaseClaim]
  }

  lemma FirstTwo(s: Scope, parse: Parser, mark: Action, commit: Action) returns (st1: State, st2: State)
    requires mark == MarkIn(8, {s}, 5) && commit == Commit(8, map[s := 100])
    ensures Follows(INIT, mark, st1, parse) && TimesAreNew(INIT, mark) && Follows(st1, commit, st2, parse)
    ensures st2.open == map[] && st2.marks == map[s := Mark(100, 5)] && st2.pass.Idle?
    ensures Count(st2.version, s) == 1 && st2.indexed == map[]
  {
    MarkOne(INIT, 8, s, 5, parse);
    st1 := Next(INIT, mark, parse);
    CommitOne(st1, 8, s, 5, map[s := 5], map[s := 100], parse);
    st2 := Next(st1, commit, parse);
  }

  /** Claimed and refreshed: at this point the index is up to date. */
  lemma NextTwo(s: Scope, parse: Parser, st2: State, claim: Action, refresh: Action) returns (st3: State, st4: State)
    requires claim == ClaimMarks([Row(100, s, 5)]) && refresh == Refresh(s)
    requires st2.open == map[] && st2.marks == map[s := Mark(100, 5)] && st2.pass.Idle?
    requires Count(st2.version, s) == 1 && st2.indexed == map[]
    ensures Follows(st2, claim, st3, parse) && Follows(st3, refresh, st4, parse)
    ensures st4.open == map[] && st4.marks == map[s := Mark(100, 5)] && st4.pass == Passing([Row(100, s, 5)], {s})
    ensures Count(st4.version, s) == Count(st4.indexed, s) == 1
  {
    st3 := st2.(pass := Passing([Row(100, s, 5)], {}));
    st4 := Next(st3, refresh, parse);
  }

  /** Marked at the claimed time, committed and released: the mark is gone and the index behind. */
  lemma LastThree(s: Scope, parse: Parser, st4: State, mark: Action, commit: Action)
    returns (st5: State, st6: State, st7: State)
    requires s.kind == Channel && mark == MarkIn(9, {s}, 5) && commit == Commit(9, map[])
    requires st4.open == map[] && st4.marks == map[s := Mark(100, 5)] && st4.pass == Passing([Row(100, s, 5)], {s})
    requires Count(st4.version, s) == Count(st4.indexed, s) == 1
    ensures Follows(st4, mark, st5, parse) && Follows(st5, commit, st6, parse)
    ensures Follows(st6, ReleaseClaim, st7, parse) && !Safe(st7, parse)
  {
    MarkOne(st4, 9, s, 5, parse);
    st5 := Next(st4, mark, parse);
    CommitOne(st5, 9, s, 5, map[s := 5], map[], parse);
    st6 := Next(st5, commit, parse);
    st7 := Next(st6, ReleaseClaim, parse);
    var keys := RowKeys(st6.pass.listing);
    assert keys[0] == (100, 5) && st6.marks[s] == Mark(100, 5);
    assert WellFormed(s, parse) && Count(st7.version, s) == 2 && Count(st7.indexed, s) == 1 && s !in st7.marks;
  }

  lemma SevenSteps(st1: State, st2: State, st3: State, st4: State, st5: State, st6: State, st7: State,
                   a: seq<Action>, parse: Parser) returns (trace: seq<State>)
    requires |a| == 7 && Follows(INIT, a[0], st1, parse) && Follows(st1, a[1], st2, parse)
    requires Follows(st2, a[2], st3, parse) && Follows(st3, a[3], st4, parse) && Follows(st4, a[4], st5, parse)
    requires Follows(st5, a[5], st6, parse) && Follows(st6, a[6], st7, parse)
    ensures IsLooseTrace(trace, a, parse) && trace[7] == st7
  {
    trace := [INIT, st1, st2, st3, st4, st5, st6, st7];
    forall k | 0 <= k < 7 ensures Follows(trace[k], a[k], trace[k + 1], parse) {
      assert k == 0 || k == 1 || k == 2 || k == 3 || k == 4 || k == 5 || k == 6;
    }
  }

  /** Only the second of the two marks carries a time that is not new, and a stale scope is forgotten. */
  lemma EqualTimesForget(s: Scope, parse: Parser, a: seq<Action>) returns (trace: seq<State>)
    requires s.kind == Channel && a == TwiceAtFive(s)
    ensures IsLooseTrace(trace, a, parse) && TimesAreNew(INIT, a[0])
    ensures !Safe(trace[7], parse)
  {
    var st1, st2 := FirstTwo(s, parse, a[0], a[1]);
    var st3, st4 := NextTwo(s, parse, st2, a[2], a[3]);
    var st5, st6, st7 := LastThree(s, parse, st4, a[4], a[5]);
    trace := SevenSteps(st1, st2, st3, st4, st5, st6, st7, a, parse);
  }
}
