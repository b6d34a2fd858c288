/**
 Filling a blind-index column: each row with an address gets the digest of its canonical form, unless two rows of a
 unique column would share one. Rows are keyed by id; queries may list them in any order.
 */
module BlindIndex {
  import opened Wrappers

  datatype Row = Row(source: Option<string>, digest: Option<string>)

  type Rows = map<int, Row>

  /** The keyed digest of an address, or none when it is only spaces. */
  type Compute = string -> Option<string>

  predicate HasText(row: Row) {
    row.source.Some? && row.source.value != ""
  }

  /** A row's digest once filled: its own if it has one already. */
  function Wanted(compute: Compute, row: Row): Option<string> {
    if row.digest.Some? then row.digest else if HasText(row) then compute(row.source.value) else None
  }

  function Filled(compute: Compute, rows: Rows): Rows {
    map id | id in rows :: rows[id].(digest := Wanted(compute, rows[id]))
  }

  /** The rows whose digest another row also has. */
  function Sharing(rows: Rows): set<int> {
    set id | id in rows && rows[id].digest.Some? && Shared(rows, id)
  }

  predicate Shared(rows: Rows, id: int)
    requires id in rows
  {
    exists other :: other in rows && other != id && rows[other].digest == rows[id].digest
  }

  ghost predicate Listing(order: seq<int>, ids: set<int>) {
    && (forall id :: id in order <==> id in ids)
    && forall j, k :: 0 <= j < k < |order| ==> order[j] != order[k]
  }

  // ---------------------------------------------------------------------------
  // Clashes
  // ---------------------------------------------------------------------------

  ghost predicate Clash(digest: map<int, string>, among: set<int>, id: int)
    requires among <= digest.Keys
  {
    id in among && exists other :: other in among && other != id && digest[other] == digest[id]
  }

  ghost predicate ClashesAmong(digest: map<int, string>, among: set<int>, clashes: set<int>)
    requires among <= digest.Keys
  {
    forall id :: id in clashes <==> Clash(digest, among, id)
  }

  /** `seen` names one of the rows in `among` for each of their digests. */
  ghost predicate Seen(digest: map<int, string>, among: set<int>, seen: map<string, int>)
    requires among <= digest.Keys
  {
    && (forall d :: d in seen ==> seen[d] in among && digest[seen[d]] == d)
    && forall id :: id in among ==> digest[id] in seen
  }

  lemma OneMoreClash(digest: map<int, string>, among: set<int>, id: int, one: int)
    requires among <= digest.Keys && id in digest && id !in among
    ensures Clash(digest, among + {id}, one) <==>
            || Clash(digest, among, one)
            || (one in among && digest[one] == digest[id])
            || (one == id && exists other :: other in among && digest[other] == digest[id])
  {
    var now := among + {id};
    if one in among && digest[one] == digest[id] {
      assert id in now;
    } else if Clash(digest, among, one) {
      var other :| other in among && other != one && digest[other] == digest[one];
      assert other in now;
    } else if one == id && exists other :: other in among && digest[other] == digest[id] {
      var other :| other in among && digest[other] == digest[id];
      assert other in now;
    }
  }

  /** Remembering only the last row with each digest is enough to name every row that shares one. */
  lemma OneMoreSeen(digest: map<int, string>, among: set<int>, seen: map<string, int>, clashes: set<int>, id: int)
    requires among <= digest.Keys && id in digest && id !in among
    requires Seen(digest, among, seen) && ClashesAmong(digest, among, clashes)
    ensures ClashesAmong(digest, among + {id}, if digest[id] in seen then clashes + {seen[digest[id]], id} else clashes)
  {
    var after := if digest[id] in seen then clashes + {seen[digest[id]], id} else clashes;
    forall one ensures one in after <==> Clash(digest, among + {id}, one) {
      OneMoreClash(digest, among, id, one);
      if digest[id] in seen {
        var last := seen[digest[id]];
        assert last in among && digest[last] == digest[id];
        assert one in among && digest[one] == digest[id] && one != last ==> Clash(digest, among, one);
      } else {
        assert forall other :: other in among ==> digest[other] != digest[id];
      }
    }
  }

  /** `known` names the rows whose digests are already stored; `all` is every digest there would be. */
  method FindClashes(pending: seq<int>, digest: map<int, string>, known: map<string, int>,
                     ghost held: set<int>, ghost all: map<int, string>)
    returns (clashes: set<int>)
    requires Listing(pending, digest.Keys) && held !! digest.Keys && all.Keys == held + digest.Keys
    requires forall id :: id in digest ==> all[id] == digest[id]
    requires Seen(all, held, known) && ClashesAmong(all, held, {})
    ensures ClashesAmong(all, all.Keys, clashes)
  {
    var seen := known;
    clashes := {};
    ghost var among := held;
    for k := 0 to |pending|
      invariant among <= all.Keys && forall id :: id in among <==> id in held || id in pending[..k]
      invariant Seen(all, among, seen) && ClashesAmong(all, among, clashes)
    {
      var id := pending[k];
      assert id in pending && id !in pending[..k];
      OneMoreSeen(all, among, seen, clashes, id);
      if digest[id] in seen {
        clashes := clashes + {seen[digest[id]], id};
      }
      seen := seen[digest[id] := id];
      among := among + {id};
      assert pending[..k + 1] == pending[..k] + [id];
    }
    assert pending[..|pending|] == pending;
    forall id ensures id in among <==> id in all.Keys {
      assert id in pending <==> id in digest.Keys;
    }
    assert among == all.Keys;
  }

  // ---------------------------------------------------------------------------
  // The column
  // ---------------------------------------------------------------------------

  predicate Pending(compute: Compute, row: Row) {
    row.digest.None? && HasText(row) && compute(row.source.value).Some?
  }

  /** The new digests, by row. */
  ghost predicate NewDigests(compute: Compute, rows: Rows, digest: map<int, string>) {
    && (forall id :: id in digest <==> id in rows && Pending(compute, rows[id]))
    && forall id :: id in digest ==> compute(rows[id].source.value) == Some(digest[id])
  }

  /** The rows already holding one of the new digests. */
  ghost predicate HoldNew(rows: Rows, digest: map<int, string>, held: set<int>) {
    forall id :: id in held <==> id in rows && rows[id].digest.Some? && rows[id].digest.value in digest.Values
  }

  ghost function AllDigests(rows: Rows, digest: map<int, string>, held: set<int>): map<int, string>
    requires forall id :: id in held ==> id in rows && rows[id].digest.Some?
  {
    map id | id in digest.Keys + held :: if id in digest then digest[id] else rows[id].digest.value
  }

  /** Looking only at the stored digests that match a new one misses no clash. */
  lemma ClashesAreSharing(compute: Compute, rows: Rows, digest: map<int, string>, held: set<int>, clashes: set<int>)
    requires NewDigests(compute, rows, digest) && HoldNew(rows, digest, held) && Sharing(rows) == {}
    requires var all := AllDigests(rows, digest, held); ClashesAmong(all, all.Keys, clashes)
    ensures clashes == Sharing(Filled(compute, rows))
  {
    var all, filled := AllDigests(rows, digest, held), Filled(compute, rows);
    assert forall id :: id in all ==> id in rows && filled[id].digest == Some(all[id]);
    forall id ensures id in clashes <==> id in Sharing(filled) {
      if id in clashes {
        var other :| other in all.Keys && other != id && all[other] == all[id];
        assert other in filled && filled[other].digest == filled[id].digest;
      }
      if id in Sharing(filled) {
        assert Shared(filled, id);
        var other :| other in filled && other != id && filled[other].digest == filled[id].digest;
        OneIsNew(compute, rows, digest, id, other);
        assert id in all && other in all && all[other] == all[id];
        assert Clash(all, all.Keys, id);
      }
    }
  }

  lemma OneIsNew(compute: Compute, rows: Rows, digest: map<int, string>, id: int, other: int)
    requires NewDigests(compute, rows, digest) && Sharing(rows) == {}
    requires id in rows && other in rows && id != other
    requires Wanted(compute, rows[id]).Some? && Wanted(compute, rows[id]) == Wanted(compute, rows[other])
    ensures id in digest || other in digest
    ensures Wanted(compute, rows[id]).value in digest.Values
  {
    assert id !in Sharing(rows);
    assert rows[id].digest.Some? ==> !Shared(rows, id);
  }

  class Column {
    var rows: Rows

    /** Hashes the rows that have an address and no digest. */
    method HashPending(compute: Compute, order: seq<int>) returns (pending: seq<int>, digest: map<int, string>)
      requires Listing(order, rows.Keys)
      ensures Listing(pending, digest.Keys) && NewDigests(compute, rows, digest)
    {
      pending, digest := [], map[];
      for k := 0 to |order|
        invariant Listing(pending, digest.Keys)
        invariant forall id :: id in digest <==> id in order[..k] && Pending(compute, rows[id])
        invariant forall id :: id in digest ==> compute(rows[id].source.value) == Some(digest[id])
      {
        var id := order[k];
        assert id in order && id !in order[..k];
        assert order[..k + 1] == order[..k] + [id];
        if Pending(compute, rows[id]) {
          assert forall j :: 0 <= j < |pending| ==> pending[j] in pending;
          pending, digest := pending + [id], digest[id := compute(rows[id].source.value).value];
        }
      }
      assert order[..|order|] == order;
    }

    /** The rows already holding one of the new digests, by digest. */
    method FindHeld(digest: map<int, string>, order: seq<int>) returns (known: map<string, int>, ghost held: set<int>)
      requires Listing(order, rows.Keys)
      ensures HoldNew(rows, digest, held)
      ensures forall d :: d in known ==> known[d] in held && known[d] in rows && rows[known[d]].digest == Some(d)
      ensures forall id :: id in held ==> rows[id].digest.value in known
    {
      known, held := map[], {};
      for k := 0 to |order|
        invariant forall id :: id in held <==>
                    id in order[..k] && rows[id].digest.Some? && rows[id].digest.value in digest.Values
        invariant forall d :: d in known ==> known[d] in held && known[d] in rows && rows[known[d]].digest == Some(d)
        invariant forall id :: id in held ==> rows[id].digest.value in known
      {
        var id := order[k];
        assert id in order;
        assert order[..k + 1] == order[..k] + [id];
        if rows[id].digest.Some? && rows[id].digest.value in digest.Values {
          known, held := known[rows[id].digest.value := id], held + {id};
        }
      }
      assert order[..|order|] == order;
    }

    method WriteDigests(compute: Compute, pending: seq<int>, digest: map<int, string>)
      requires Listing(pending, digest.Keys) && NewDigests(compute, rows, digest)
      modifies this
      ensures rows == Filled(compute, old(rows))
    {
      for k := 0 to |pending|
        invariant rows.Keys == old(rows).Keys
        invariant forall id :: id in rows ==>
                    rows[id] == if id in pending[..k] then old(rows)[id].(digest := Some(digest[id])) else old(rows)[id]
      {
        var id := pending[k];
        assert id in pending;
        assert pending[..k + 1] == pending[..k] + [id];
        rows := rows[id := rows[id].(digest := Some(digest[id]))];
      }
      assert pending[..|pending|] == pending;
      forall id | id in rows ensures rows[id] == Filled(compute, old(rows))[id] {
        assert id in pending <==> id in digest;
      }
    }

    /** Stops, naming exactly the rows that would share a digest, or fills every digest that was missing. */
    method FillMissingHashes(compute: Compute, unique: bool, order: seq<int>) returns (r: Result<(), set<int>>)
      requires Listing(order, rows.Keys) && (unique ==> Sharing(rows) == {})
      modifies this
      ensures r.Ok? <==> (unique ==> Sharing(Filled(compute, old(rows))) == {})
      ensures r.Err? ==> r.error == Sharing(Filled(compute, old(rows))) && rows == old(rows)
      ensures r.Ok? ==> rows == Filled(compute, old(rows))
    {
      var pending, digest := HashPending(compute, order);
      if unique {
        var known, held := FindHeld(digest, order);
        assert forall id :: id in held ==> id !in digest;
        ghost var all := AllDigests(rows, digest, held);
        var clashes := FindClashes(pending, digest, known, held, all);
        ClashesAreSharing(compute, rows, digest, held, clashes);
        if clashes != {} { return Err(clashes); }
      }
      WriteDigests(compute, pending, digest);
      r := Ok(());
    }

    /** The first fill, of a column that has just been added and so holds no digest. */
    method FillHashes(compute: Compute, unique: bool, order: seq<int>) returns (r: Result<(), set<int>>)
      requires Listing(order, rows.Keys) && forall id :: id in rows ==> rows[id].digest.None?
      modifies this
      ensures r.Ok? <==> (unique ==> Sharing(Filled(compute, old(rows))) == {})
      ensures r.Err? ==> r.error == Sharing(Filled(compute, old(rows))) && rows == old(rows)
      ensures r.Ok? ==> rows == Filled(compute, old(rows))
    {
      var pending, digest := HashPending(compute, order);
      if unique {
        var clashes := FindClashes(pending, digest, map[], {}, AllDigests(rows, digest, {}));
        ClashesAreSharing(compute, rows, digest, {}, clashes);
        if clashes != {} { return Err(clashes); }
      }
      WriteDigests(compute, pending, digest);
      r := Ok(());
    }
  }

  // ---------------------------------------------------------------------------
  // Afterwards
  // ---------------------------------------------------------------------------

  /** A digest that was there is untouched, and filling again changes nothing. */
  lemma FilledOnce(compute: Compute, rows: Rows)
    ensures forall id :: id in rows && rows[id].digest.Some? ==> Filled(compute, rows)[id] == rows[id]
    ensures Filled(compute, Filled(compute, rows)) == Filled(compute, rows)
  {
    var once := Filled(compute, rows);
    forall id | id in once ensures Filled(compute, once)[id] == once[id] {
      assert once[id].digest == Wanted(compute, rows[id]);
    }
  }

  /** Nothing to resolve means that every digest names one row. */
  lemma NoSharingMeansDistinct(rows: Rows)
    ensures Sharing(rows) == {} <==>
            forall id, other :: id in rows && other in rows && id != other && rows[id].digest.Some? ==>
              rows[id].digest != rows[other].digest
  {
    if Sharing(rows) == {} {
      forall id, other | id in rows && other in rows && id != other && rows[id].digest.Some?
        ensures rows[id].digest != rows[other].digest
      {
        assert id !in Sharing(rows);
        assert !Shared(rows, id);
      }
    }
  }

  /** What a fill leaves a row with: the digest it had; else, with an address, that address's; else none. */
  lemma EndsWithItsDigest(compute: Compute, rows: Rows, id: int)
    requires id in rows
    ensures id in Filled(compute, rows) && Filled(compute, rows)[id].source == rows[id].source
    ensures rows[id].digest.Some? ==> Filled(compute, rows)[id].digest == rows[id].digest
    ensures rows[id].digest.None? && rows[id].source.Some? && rows[id].source.value != "" ==>
              Filled(compute, rows)[id].digest == compute(rows[id].source.value)
    ensures rows[id].digest.None? && (rows[id].source.None? || rows[id].source.value == "") ==>
              Filled(compute, rows)[id].digest.None?
  {
  }
}
