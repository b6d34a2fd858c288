/**
 Marking project and channel memberships dirty for the search index, and the pass that claims the
 marks, refreshes the scopes and releases them. `parse` stands for reading a project id as an integer.
 */
module AclDirty {
  import opened Wrappers

  datatype ScopeKind = Project | Channel | OtherKind

  datatype Scope = Scope(kind: ScopeKind, id: string)

  /** A stored row: its primary key and when its scope was last marked. */
  datatype Mark = Mark(pk: nat, at: nat)

  /** One row per scope. */
  type Marks = map<Scope, Mark>

  datatype Row = Row(pk: nat, scope: Scope, at: nat)

  type Parser = string -> Option<int>

  datatype DirtyScopes = DirtyScopes(projectIds: set<int>, channelIds: set<string>, rows: seq<(nat, nat)>)

  // ---------------------------------------------------------------------------
  // Mark, claim, release
  // ---------------------------------------------------------------------------

  /** An existing row keeps its key and takes the new time; a new row takes its key from `pks`. */
  function Upserted(marks: Marks, times: map<Scope, nat>, pks: map<Scope, nat>): Marks
    requires times.Keys - marks.Keys <= pks.Keys
  {
    map s | s in marks.Keys + times.Keys ::
      if s !in times then marks[s]
      else Mark(if s in marks then marks[s].pk else pks[s], times[s])
  }

  /**
   A transaction that marks its scopes in several statements leaves what one statement with the latest
   times would: no key changes hands, and the last time of each scope stands.
   */
  lemma UpsertsMerge(marks: Marks, first: map<Scope, nat>, second: map<Scope, nat>, pks: map<Scope, nat>)
    requires (first + second).Keys - marks.Keys <= pks.Keys
    ensures first.Keys - marks.Keys <= pks.Keys
    ensures second.Keys - Upserted(marks, first, pks).Keys <= pks.Keys
    ensures Upserted(Upserted(marks, first, pks), second, pks) == Upserted(marks, first + second, pks)
  {
  }

  /** The scopes a claim asks the pass to refresh. */
  predicate Claims(scopes: DirtyScopes, s: Scope, parse: Parser) {
    match s.kind
    case Project => parse(s.id).Some? && parse(s.id).value in scopes.projectIds
    case Channel => s.id in scopes.channelIds
    case OtherKind => false
  }

  predicate WellFormed(s: Scope, parse: Parser) {
    match s.kind
    case Project => parse(s.id).Some?
    case Channel => true
    case OtherKind => false
  }

  function RowKeys(listing: seq<Row>): (keys: seq<(nat, nat)>)
    ensures |keys| == |listing|
    ensures forall k :: 0 <= k < |keys| ==> keys[k] == (listing[k].pk, listing[k].at)
  {
    seq(|listing|, k requires 0 <= k < |listing| => (listing[k].pk, listing[k].at))
  }

  /** Reads the listed marks: every well-formed scope is claimed and every row, malformed too, may be released. */
  method Claim(listing: seq<Row>, parse: Parser) returns (scopes: DirtyScopes)
    ensures scopes.rows == RowKeys(listing)
    ensures forall s :: WellFormed(s, parse) && (exists r :: r in listing && r.scope == s) ==> Claims(scopes, s, parse)
    ensures forall r :: r in listing && r.scope.kind == Project && parse(r.scope.id).Some? ==>
              parse(r.scope.id).value in scopes.projectIds
    ensures forall r :: r in listing && r.scope.kind == Channel ==> r.scope.id in scopes.channelIds
    ensures forall id :: id in scopes.projectIds ==>
              exists r :: r in listing && r.scope.kind == Project && parse(r.scope.id) == Some(id)
    ensures forall id :: id in scopes.channelIds ==> exists r :: r in listing && r.scope == Scope(Channel, id)
  {
    var projectIds: set<int>, channelIds: set<string>, rows: seq<(nat, nat)> := {}, {}, [];
    for k := 0 to |listing|
      invariant rows == RowKeys(listing[..k])
      invariant forall r :: r in listing[..k] && r.scope.kind == Project && parse(r.scope.id).Some?
                  ==> parse(r.scope.id).value in projectIds
      invariant forall r :: r in listing[..k] && r.scope.kind == Channel ==> r.scope.id in channelIds
      invariant forall id :: id in projectIds ==>
                  exists r :: r in listing[..k] && r.scope.kind == Project && parse(r.scope.id) == Some(id)
      invariant forall id :: id in channelIds ==> exists r :: r in listing[..k] && r.scope == Scope(Channel, id)
    {
      var r := listing[k];
      assert listing[..k + 1] == listing[..k] + [r];
      rows := rows + [(r.pk, r.at)];
      if r.scope.kind == Project {
        if parse(r.scope.id).Some? { projectIds := projectIds + {parse(r.scope.id).value}; }
      } else if r.scope.kind == Channel {
        channelIds := channelIds + {r.scope.id};
      }
    }
    assert listing[..|listing|] == listing;
    scopes := DirtyScopes(projectIds, channelIds, rows);
  }

  predicate Matches(m: Mark, rows: seq<(nat, nat)>) {
    (m.pk, m.at) in rows
  }

  function Released(marks: Marks, rows: seq<(nat, nat)>): Marks {
    map s | s in marks && !Matches(marks[s], rows) :: marks[s]
  }

  const RELEASE_BATCH := 500

  class MarkTable {
    var marks: Marks

    constructor ()
      ensures marks == map[]
    {
      marks := map[];
    }

    /** Each given scope is marked now: an existing row keeps its key, a new one takes a fresh one; no other moves. */
    method MarkScopes(kind: ScopeKind, ids: seq<Option<string>>, now: nat, pks: map<Scope, nat>)
      requires forall s: Scope :: s.kind == kind && Some(s.id) in ids && s !in marks ==> s in pks
      modifies this
      ensures forall s: Scope :: s.kind == kind && Some(s.id) in ids ==>
                s in marks && marks[s].at == now && marks[s].pk == if s in old(marks) then old(marks)[s].pk else pks[s]
      ensures forall s: Scope :: s.kind != kind || Some(s.id) !in ids ==>
                (s in marks <==> s in old(marks)) && (s in marks ==> marks[s] == old(marks)[s])
    {
      var scopes := set i | i in ids && i.Some? :: Scope(kind, i.value);
      assert forall s: Scope :: s.kind == kind && Some(s.id) in ids ==> s in scopes;
      if scopes == {} { return; }
      var times := map s | s in scopes :: now;
      marks := Upserted(marks, times, pks);
    }

    /** Deletes exactly the rows still at the time they were claimed at, a batch at a time. */
    method Release(scopes: DirtyScopes) returns (deleted: nat)
      modifies this
      ensures marks == Released(old(marks), scopes.rows)
      ensures deleted == |old(marks)| - |marks|
    {
      deleted := 0;
      var rows := scopes.rows;
      var start := 0;
      assert Released(marks, rows[..0]) == marks;
      while start < |rows|
        invariant 0 <= start <= |rows| + RELEASE_BATCH
        invariant marks == Released(old(marks), rows[..if start < |rows| then start else |rows|])
        invariant deleted == |old(marks)| - |marks|
      {
        var end := Min(start + RELEASE_BATCH, |rows|);
        var before := marks;
        marks := Released(marks, rows[start..end]);
        ReleasedTwice(old(marks), rows[..start], rows[start..end]);
        assert rows[..start] + rows[start..end] == rows[..end];
        ReleasedIsSmaller(before, rows[start..end]);
        deleted := deleted + (|before| - |marks|);
        start := start + RELEASE_BATCH;
      }
      assert rows[..|rows|] == rows;
    }
  }

  lemma ReleasedTwice(marks: Marks, a: seq<(nat, nat)>, b: seq<(nat, nat)>)
    ensures Released(Released(marks, a), b) == Released(marks, a + b)
  {
  }

  lemma ReleasedIsSmaller(marks: Marks, rows: seq<(nat, nat)>)
    ensures |Released(marks, rows)| <= |marks|
  {
    var kept := Released(marks, rows);
    assert kept.Keys <= marks.Keys;
    SubsetIsSmaller(kept.Keys, marks.Keys);
    assert |kept.Keys| == |kept| && |marks.Keys| == |marks|;
  }
}
