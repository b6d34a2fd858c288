/**
 Membership transactions against the indexer's pass, in every interleaving. A transaction's marks and
 its membership changes become visible together, at commit; a pass claims the committed marks, refreshes
 the claimed scopes from committed membership, one at a time, and releases what it claimed.
 */
module AclProtocol {
  import opened AclDirty

  /** `version` counts committed membership changes of a scope; `indexed` is the count the index last saw. */
  datatype State = State(
    marks: Marks, version: map<Scope, nat>, indexed: map<Scope, nat>,
    open: map<nat, map<Scope, nat>>,   // transaction -> the times it marked its scopes at
    pass: Pass,
    keys: map<nat, Scope>,             // every primary key ever given out, and to which scope
    times: set<(Scope, nat)>)          // every (scope, time) ever committed

  /** The listing a pass claimed and the scopes it has refreshed since. */
  datatype Pass = Idle | Passing(listing: seq<Row>, refreshed: set<Scope>)

  const INIT := State(map[], map[], map[], map[], Idle, map[], {})

  function Count(m: map<Scope, nat>, s: Scope): nat {
    if s in m then m[s] else 0
  }

  datatype Action =
    | MarkIn(tx: nat, scopes: set<Scope>, at: nat)
    | Commit(tx: nat, pks: map<Scope, nat>)
    | Rollback(tx: nat)
    | ClaimMarks(listing: seq<Row>)
    | Refresh(scope: Scope)
    | ReleaseBatch(batch: seq<Row>)   // any part of the claim; commits may fall between two of these
    | ReleaseClaim                    // all of it, which ends the pass
    | Fail                            // the pass ends, whatever it has released

  function MarkedIn(open: map<nat, map<Scope, nat>>, tx: nat): map<Scope, nat> {
    if tx in open then open[tx] else map[]
  }

  /** `listing` reads each committed row once, in some order. */
  ghost predicate Lists(listing: seq<Row>, marks: Marks) {
    && (forall s :: s in marks ==> Row(marks[s].pk, s, marks[s].at) in listing)
    && (forall r :: r in listing ==> r.scope in marks && marks[r.scope] == Mark(r.pk, r.at))
  }

  /** No two marks of one scope ever carry the same time. */
  ghost predicate TimeIsNew(st: State, tx: nat, s: Scope, at: nat) {
    (s, at) !in st.times && forall t :: t in st.open && t != tx && s in st.open[t] ==> st.open[t][s] != at
  }

  /** Primary keys are never reused and go to one row each. */
  ghost predicate KeysAreNew(st: State, times: map<Scope, nat>, pks: map<Scope, nat>) {
    && times.Keys - st.marks.Keys <= pks.Keys
    && (forall s :: s in pks ==> pks[s] !in st.keys)
    && (forall s, s' :: s in pks && s' in pks && s != s' ==> pks[s] != pks[s'])
  }

  predicate AllRefreshed(pass: Pass, parse: Parser)
    requires pass.Passing?
  {
    forall r :: r in pass.listing && WellFormed(r.scope, parse) ==> r.scope in pass.refreshed
  }

  /** What the database and the order of a pass allow, whatever times the marks carry. */
  ghost predicate Possible(st: State, a: Action, parse: Parser) {
    match a
    case MarkIn(tx, scopes, at) => true
    case Commit(tx, pks) => tx in st.open && KeysAreNew(st, st.open[tx], pks)
    case Rollback(tx) => true
    case ClaimMarks(listing) => st.pass.Idle? && Lists(listing, st.marks)
    case Refresh(s) => st.pass.Passing?
    case ReleaseBatch(batch) =>
      && st.pass.Passing? && AllRefreshed(st.pass, parse)
      && forall r :: r in batch ==> r in st.pass.listing
    case ReleaseClaim => st.pass.Passing? && AllRefreshed(st.pass, parse)
    case Fail => st.pass.Passing?
  }

  ghost predicate TimesAreNew(st: State, a: Action) {
    a.MarkIn? ==> forall s :: s in a.scopes ==> TimeIsNew(st, a.tx, s, a.at)
  }

  ghost predicate Enabled(st: State, a: Action, parse: Parser) {
    Possible(st, a, parse) && TimesAreNew(st, a)
  }

  /** One committed change more for each of these scopes. */
  ghost function Bumped(version: map<Scope, nat>, scopes: set<Scope>): map<Scope, nat> {
    version + (map s | s in scopes :: Count(version, s) + 1)
  }

  ghost function MarkedAll(scopes: set<Scope>, at: nat): map<Scope, nat> {
    map s | s in scopes :: at
  }

  ghost function GivenOut(keys: map<nat, Scope>, scopes: set<Scope>, pks: map<Scope, nat>): map<nat, Scope>
    requires scopes <= pks.Keys && forall s, s' :: s in pks && s' in pks && s != s' ==> pks[s] != pks[s']
  {
    keys + (map s | s in scopes :: pks[s] := s)
  }

  ghost function Stamps(times: map<Scope, nat>): set<(Scope, nat)> {
    set s | s in times :: (s, times[s])
  }

  ghost function Committed(st: State, tx: nat, pks: map<Scope, nat>): State
    requires tx in st.open && KeysAreNew(st, st.open[tx], pks)
  {
    var times := st.open[tx];
    st.(marks := Upserted(st.marks, times, pks),
        version := Bumped(st.version, times.Keys),
        open := st.open - {tx},
        keys := GivenOut(st.keys, times.Keys - st.marks.Keys, pks),
        times := st.times + Stamps(times))
  }

  ghost function Next(st: State, a: Action, parse: Parser): State
    requires Possible(st, a, parse)
  {
    match a
    case MarkIn(tx, scopes, at) =>
      st.(open := st.open[tx := MarkedIn(st.open, tx) + MarkedAll(scopes, at)])
    case Commit(tx, pks) => Committed(st, tx, pks)
    case Rollback(tx) => st.(open := st.open - {tx})
    case ClaimMarks(listing) => st.(pass := Passing(listing, {}))
    case Refresh(s) =>
      st.(indexed := st.indexed[s := Count(st.version, s)],
          pass := Passing(st.pass.listing, st.pass.refreshed + {s}))
    case ReleaseBatch(batch) => st.(marks := Released(st.marks, RowKeys(batch)))
    case ReleaseClaim => st.(marks := Released(st.marks, RowKeys(st.pass.listing)), pass := Idle)
    case Fail => st.(pass := Idle)
  }

  // ---------------------------------------------------------------------------
  // The invariant
  // ---------------------------------------------------------------------------

  /** A well-formed scope whose committed membership is newer than the index still has a committed mark. */
  ghost predicate Safe(st: State, parse: Parser) {
    forall s :: WellFormed(s, parse) && Count(st.indexed, s) < Count(st.version, s) ==> s in st.marks
  }

  /** Keys belong to the scopes that carry them. */
  ghost predicate KeysOwned(st: State) {
    && (forall s :: s in st.marks ==> st.marks[s].pk in st.keys && st.keys[st.marks[s].pk] == s)
    && (st.pass.Passing? ==> forall r :: r in st.pass.listing ==> r.pk in st.keys && st.keys[r.pk] == r.scope)
  }

  /** Times that were committed are not given out again. */
  ghost predicate TimesOwned(st: State) {
    && (forall s :: s in st.marks ==> (s, st.marks[s].at) in st.times)
    && (st.pass.Passing? ==> forall r :: r in st.pass.listing ==> (r.scope, r.at) in st.times)
    && (forall tx, s :: tx in st.open && s in st.open[tx] ==> (s, st.open[tx][s]) !in st.times)
    && (forall t, t', s :: t in st.open && t' in st.open && t != t' && s in st.open[t] && s in st.open[t'] ==>
          st.open[t][s] != st.open[t'][s])
  }

  ghost predicate Owned(st: State) {
    KeysOwned(st) && TimesOwned(st)
  }

  /** A refreshed scope whose mark is still the claimed one has not changed since the refresh. */
  ghost predicate RefreshedIsCurrent(st: State) {
    st.pass.Passing? ==>
      forall s :: s in st.pass.refreshed && s in st.marks && Row(st.marks[s].pk, s, st.marks[s].at) in st.pass.listing
        ==> Count(st.indexed, s) == Count(st.version, s)
  }

  ghost predicate Inv(st: State, parse: Parser) {
    Safe(st, parse) && Owned(st) && RefreshedIsCurrent(st)
  }

  lemma MarkKeepsInv(st: State, a: Action, parse: Parser)
    requires Inv(st, parse) && a.MarkIn? && Enabled(st, a, parse)
    ensures Inv(Next(st, a, parse), parse)
  {
  }

  lemma CommitKeepsKeysOwned(st: State, a: Action, parse: Parser)
    requires KeysOwned(st) && a.Commit? && Possible(st, a, parse)
    ensures KeysOwned(Next(st, a, parse))
  {
    var after := Next(st, a, parse);
    forall s | s in after.marks ensures after.marks[s].pk in after.keys && after.keys[after.marks[s].pk] == s {
      if s in st.open[a.tx] && s !in st.marks { assert a.pks[s] in after.keys; }
    }
  }

  lemma CommitKeepsTimesOwned(st: State, a: Action, parse: Parser)
    requires TimesOwned(st) && a.Commit? && Possible(st, a, parse)
    ensures TimesOwned(Next(st, a, parse))
  {
  }

  /** A commit's time is new, so the row it leaves is not the one the pass claimed. */
  lemma CommitKeepsInv(st: State, a: Action, parse: Parser)
    requires Inv(st, parse) && a.Commit? && Enabled(st, a, parse)
    ensures Inv(Next(st, a, parse), parse)
  {
    CommitKeepsKeysOwned(st, a, parse);
    CommitKeepsTimesOwned(st, a, parse);
    var after := Next(st, a, parse);
    if st.pass.Passing? {
      forall s | s in st.pass.refreshed && s in after.marks
                 && Row(after.marks[s].pk, s, after.marks[s].at) in st.pass.listing
        ensures Count(after.indexed, s) == Count(after.version, s)
      {
        assert (s, after.marks[s].at) in st.times;
        assert s !in st.open[a.tx];
      }
    }
  }

  /**
   Releasing all that was claimed, or any part of it: a released row is a claimed one, so its scope was
   refreshed and nothing has happened to it since.
   */
  lemma ReleaseKeepsInv(st: State, a: Action, parse: Parser)
    requires Inv(st, parse) && (a.ReleaseBatch? || a.ReleaseClaim?) && Enabled(st, a, parse)
    ensures Inv(Next(st, a, parse), parse)
  {
    var after := Next(st, a, parse);
    var batch := if a.ReleaseBatch? then a.batch else st.pass.listing;
    forall s | WellFormed(s, parse) && Count(after.indexed, s) < Count(after.version, s)
      ensures s in after.marks
    {
      if Matches(st.marks[s], RowKeys(batch)) { MatchedWasClaimed(st, batch, s); }
    }
  }

  /** A key and time that match a claimed row belong to the very scope of that row. */
  lemma MatchedWasClaimed(st: State, batch: seq<Row>, s: Scope)
    requires KeysOwned(st) && st.pass.Passing? && forall r :: r in batch ==> r in st.pass.listing
    requires s in st.marks && Matches(st.marks[s], RowKeys(batch))
    ensures Row(st.marks[s].pk, s, st.marks[s].at) in st.pass.listing
  {
    var keys := RowKeys(batch);
    var k :| 0 <= k < |keys| && keys[k] == (st.marks[s].pk, st.marks[s].at);
    var r := batch[k];
    assert r in st.pass.listing && st.keys[r.pk] == s;
  }

  lemma NextKeepsInv(st: State, a: Action, parse: Parser)
    requires Inv(st, parse) && Enabled(st, a, parse)
    ensures Inv(Next(st, a, parse), parse)
  {
    match a {
      case MarkIn(_, _, _) => MarkKeepsInv(st, a, parse);
      case Commit(_, _) => CommitKeepsInv(st, a, parse);
      case Rollback(_) =>
      case ClaimMarks(_) =>
      case Refresh(_) =>
      case ReleaseBatch(_) => ReleaseKeepsInv(st, a, parse);
      case ReleaseClaim => ReleaseKeepsInv(st, a, parse);
      case Fail =>
    }
  }

  /** `trace` is an interleaving: each state follows from the one before by an enabled action. */
  ghost predicate IsTrace(trace: seq<State>, actions: seq<Action>, parse: Parser) {
    && |trace| == |actions| + 1 && trace[0] == INIT
    && forall k :: 0 <= k < |actions| ==>
         Enabled(trace[k], actions[k], parse) && trace[k + 1] == Next(trace[k], actions[k], parse)
  }

  /** In every interleaving, at every moment, no stale scope is forgotten. */
  lemma {:induction false} NoStaleScopeIsForgotten(trace: seq<State>, actions: seq<Action>, parse: Parser, k: nat)
    requires IsTrace(trace, actions, parse) && k < |trace|
    ensures Inv(trace[k], parse) && Safe(trace[k], parse)
  {
    if k > 0 {
      NoStaleScopeIsForgotten(trace, actions, parse, k - 1);
      assert Enabled(trace[k - 1], actions[k - 1], parse) && trace[k] == Next(trace[k - 1], actions[k - 1], parse);
      NextKeepsInv(trace[k - 1], actions[k - 1], parse);
    }
  }

  /** In the source's words: a project whose id is a number, or any channel, changed since the index saw it. */
  lemma StaleProjectsAndChannelsAreMarked(trace: seq<State>, actions: seq<Action>, parse: Parser, k: nat, id: string)
    requires IsTrace(trace, actions, parse) && k < |trace|
    ensures var project, channel := Scope(Project, id), Scope(Channel, id);
            && (parse(id).Some? && Count(trace[k].indexed, project) < Count(trace[k].version, project) ==>
                  project in trace[k].marks)
            && (Count(trace[k].indexed, channel) < Count(trace[k].version, channel) ==> channel in trace[k].marks)
  {
    NoStaleScopeIsForgotten(trace, actions, parse, k);
    assert parse(id).Some? ==> WellFormed(Scope(Project, id), parse);
    assert WellFormed(Scope(Channel, id), parse);
  }

  /** A pass cannot release before it has refreshed every claimed project whose id is a number and every channel. */
  lemma NothingReleasedUnrefreshed(st: State, batch: seq<Row>, parse: Parser, r: Row)
    requires Enabled(st, ReleaseBatch(batch), parse) && r in st.pass.listing
    requires r.scope.kind == Channel || (r.scope.kind == Project && parse(r.scope.id).Some?)
    ensures r.scope in st.pass.refreshed
  {
    assert WellFormed(r.scope, parse);
  }

  /** A mark that any batch of a release deletes is of a scope the index is up to date with: marks are served. */
  lemma ReleasedScopesAreCurrent(st: State, batch: seq<Row>, parse: Parser, s: Scope)
    requires Inv(st, parse) && Enabled(st, ReleaseBatch(batch), parse) && WellFormed(s, parse)
    requires s in st.marks && s !in Next(st, ReleaseBatch(batch), parse).marks
    ensures Count(st.indexed, s) == Count(st.version, s)
  {
    MatchedWasClaimed(st, batch, s);
  }

  /** Batch after batch, with nothing in between, is the release of the whole claim. */
  lemma BatchesAreTheClaim(st: State, parse: Parser, first: seq<Row>, rest: seq<Row>)
    requires Enabled(st, ReleaseClaim, parse) && st.pass.listing == first + rest
    ensures Possible(st, ReleaseBatch(first), parse)
    ensures var middle := Next(st, ReleaseBatch(first), parse);
            && Possible(middle, ReleaseBatch(rest), parse)
            && Next(middle, ReleaseBatch(rest), parse).(pass := Idle) == Next(st, ReleaseClaim, parse)
  {
    ReleasedTwice(st.marks, RowKeys(first), RowKeys(rest));
    assert RowKeys(first) + RowKeys(rest) == RowKeys(st.pass.listing);
  }

  // ---------------------------------------------------------------------------
  // What the rule must not be
  // ---------------------------------------------------------------------------

  /** Deleting everything marked no later than the claim. */
  function ReleasedOlder(marks: Marks, claimedAt: nat): Marks {
    map s | s in marks && marks[s].at > claimedAt :: marks[s]
  }

  /**
   A transaction marks at time 1 and commits after a claim at time 2 that could not see it. Releasing by
   age would drop its mark with the index still behind.
   */
  lemma ReleasingByAgeForgets(s: Scope, parse: Parser) returns (trace: seq<State>, actions: seq<Action>)
    requires s.kind == Channel
    ensures IsTrace(trace, actions, parse) && actions == [MarkIn(7, {s}, 1), ClaimMarks([]), Commit(7, map[s := 100])]
    ensures !Safe(trace[3].(marks := ReleasedOlder(trace[3].marks, 2), pass := Idle), parse)
  {
    var mark, claim, commit := MarkIn(7, {s}, 1), ClaimMarks([]), Commit(7, map[s := 100]);
    var st2 := INIT.(open := map[7 := map[s := 1]], pass := Passing([], {}));
    MarkedThenClaimed(s, parse, st2.(pass := Idle), st2);
    CommittedLate(s, parse, st2);
    trace, actions := [INIT, st2.(pass := Idle), st2, Next(st2, commit, parse)], [mark, claim, commit];
  }

  lemma MarkedThenClaimed(s: Scope, parse: Parser, st1: State, st2: State)
    requires st1 == INIT.(open := map[7 := map[s := 1]]) && st2 == st1.(pass := Passing([], {}))
    ensures Enabled(INIT, MarkIn(7, {s}, 1), parse) && Next(INIT, MarkIn(7, {s}, 1), parse) == st1
    ensures Enabled(st1, ClaimMarks([]), parse) && Next(st1, ClaimMarks([]), parse) == st2
  {
    var marked := Next(INIT, MarkIn(7, {s}, 1), parse);
    assert marked.open[7] == map[s := 1];
    assert marked.open == map[7 := map[s := 1]];
  }

  lemma CommittedLate(s: Scope, parse: Parser, st2: State)
    requires s.kind == Channel && st2 == INIT.(open := map[7 := map[s := 1]], pass := Passing([], {}))
    ensures Enabled(st2, Commit(7, map[s := 100]), parse)
    ensures var st3 := Next(st2, Commit(7, map[s := 100]), parse);
            !Safe(st3.(marks := ReleasedOlder(st3.marks, 2), pass := Idle), parse)
  {
    var st3 := Next(st2, Commit(7, map[s := 100]), parse);
    assert Count(st3.version, s) == 1 && Count(st3.indexed, s) == 0 && st3.marks[s].at == 1;
    assert WellFormed(s, parse);
  }
}
