/**
 The migration that encrypts one stored column in place, and its reverse: batches walked by primary key, each row
 rewritten by a compare-and-swap on the value read, while the previous release keeps writing. Rows are numbered
 in primary-key order; none is added or removed meanwhile. An absent cell is NULL.
 */
module PiiConvert {
  import opened Wrappers

  type Cell = Option<string>

  type Column = seq<Cell>

  datatype ConvertError = KeyringMissing

  /** A conversion draws fresh randomness each time, here the number of the statement it runs in. */
  type Conversion = (nat, string) -> Result<string, ConvertError>

  /** What others commit in the moment before each statement. */
  type Writers = nat -> map<nat, Cell>

  predicate HasText(cell: Cell) {
    cell.Some? && cell.value != ""
  }

  function Overlay(cells: Column, written: map<nat, Cell>): (after: Column)
    ensures |after| == |cells|
    ensures forall i :: 0 <= i < |cells| ==> after[i] == if i in written then written[i] else cells[i]
  {
    seq(|cells|, i requires 0 <= i < |cells| => if i in written then written[i] else cells[i])
  }

  /** The column after `n` statements' worth of other writers, had this migration never run. */
  ghost function Untouched(cells: Column, writers: Writers, n: nat): (after: Column)
    ensures |after| == |cells|
  {
    if n == 0 then cells else Overlay(Untouched(cells, writers, n - 1), writers(n - 1))
  }

  ghost predicate NeverWritten(writers: Writers, row: nat, n: nat) {
    forall m :: 0 <= m < n ==> row !in writers(m)
  }

  /** The row had text at every statement so far. */
  ghost predicate AlwaysText(cells: Column, writers: Writers, row: nat, n: nat)
    requires row < |cells|
  {
    forall m :: 0 <= m <= n ==> HasText(Untouched(cells, writers, m)[row])
  }

  lemma {:induction false} NeverWrittenStays(cells: Column, writers: Writers, row: nat, n: nat)
    requires row < |cells| && NeverWritten(writers, row, n)
    ensures Untouched(cells, writers, n)[row] == cells[row]
  {
    if n > 0 {
      NeverWrittenStays(cells, writers, row, n - 1);
    }
  }

  ghost predicate Ascending(rows: seq<nat>) {
    forall j, k :: 0 <= j < k < |rows| ==> rows[j] < rows[k]
  }

  /** `rows` are exactly those with text in the given range, in key order. */
  ghost predicate TextRows(cells: Column, from: nat, to: nat, rows: seq<nat>)
    requires to <= |cells|
  {
    Ascending(rows) && forall row :: row in rows <==> from <= row < to && HasText(cells[row])
  }

  /** The batch query: the first `limit` rows with text from `from` on, and the position it got to. */
  method SelectBatch(cells: Column, from: nat, limit: nat) returns (rows: seq<nat>, to: nat)
    requires from <= |cells| && limit > 0
    ensures from <= to <= |cells| && TextRows(cells, from, to, rows)
    ensures |rows| < limit ==> to == |cells|
    ensures |rows| >= limit ==> to > from
    ensures |rows| >= limit ==> |rows| == limit && to == rows[|rows| - 1] + 1
  {
    rows, to := [], from;
    while to < |cells| && |rows| < limit
      invariant from <= to <= |cells| && |rows| <= limit && TextRows(cells, from, to, rows)
      invariant |rows| > 0 ==> to > from
      invariant |rows| == limit ==> to == rows[|rows| - 1] + 1
      decreases |cells| - to
    {
      assert forall j :: 0 <= j < |rows| ==> rows[j] in rows;
      if HasText(cells[to]) { rows := rows + [to]; }
      to := to + 1;
    }
  }

  // ---------------------------------------------------------------------------
  // The walk
  // ---------------------------------------------------------------------------

  ghost predicate Converted(convert: Conversion, before: Cell, after: Cell) {
    before.Some? && after.Some? && exists m :: convert(m, before.value) == Ok(after.value)
  }

  /** With the key ring at hand every conversion goes through... */
  ghost predicate Keyed(convert: Conversion) {
    forall m, v :: convert(m, v).Ok?
  }

  /** ...and without it only those that change nothing. */
  ghost predicate Keyless(convert: Conversion) {
    forall m, v :: convert(m, v).Ok? ==> convert(m, v).value == v
  }

  /** How the column stands after `n` statements, against what it would be without this migration. */
  ghost predicate Faithful(was: Column, cells: Column, writers: Writers, convert: Conversion, n: nat,
                           visited: seq<nat>)
  {
    && |cells| == |was| && Ascending(visited)
    && (forall i :: 0 <= i < |cells| ==> RowFaithful(was, cells, writers, convert, n, visited, i))
  }

  /** No write is lost: the row holds what the others left there, as it is or converted. */
  ghost predicate RowFaithful(was: Column, cells: Column, writers: Writers, convert: Conversion, n: nat,
                              visited: seq<nat>, i: nat)
    requires i < |cells| == |was|
  {
    var untouched := Untouched(was, writers, n)[i];
    && (cells[i] == untouched || (i in visited && Converted(convert, untouched, cells[i])))
    && (i in visited && NeverWritten(writers, i, n) ==> HasText(was[i]) && Converted(convert, was[i], cells[i]))
  }

  lemma MomentPasses(was: Column, cells: Column, writers: Writers, convert: Conversion, n: nat, visited: seq<nat>)
    requires Faithful(was, cells, writers, convert, n, visited)
    ensures Faithful(was, Overlay(cells, writers(n)), writers, convert, n + 1, visited)
    ensures cells == Untouched(was, writers, n) ==> Overlay(cells, writers(n)) == Untouched(was, writers, n + 1)
  {
    var later, next := Overlay(cells, writers(n)), n + 1;
    forall i | 0 <= i < |cells| ensures RowFaithful(was, later, writers, convert, next, visited, i) {
      assert RowFaithful(was, cells, writers, convert, n, visited, i);
      assert NeverWritten(writers, i, n + 1) ==> NeverWritten(writers, i, n) && i !in writers(n);
    }
  }

  /** One compare-and-swap: a row whose cell is no longer the value read is left alone. */
  function Swapped(cells: Column, row: nat, expected: string, to: string): (after: Column)
    requires row < |cells|
    ensures |after| == |cells|
  {
    if cells[row] == Some(expected) then cells[row := Some(to)] else cells
  }

  lemma RowSwapped(was: Column, cells: Column, writers: Writers, convert: Conversion, n: nat, visited: seq<nat>,
                   row: nat, value: string, m: nat)
    requires Faithful(was, cells, writers, convert, n, visited) && row < |cells| && convert(m, value).Ok?
    requires forall other :: other in visited ==> other < row
    requires NeverWritten(writers, row, n) ==> was[row] == Some(value) && HasText(was[row])
    ensures Faithful(was, Swapped(cells, row, value, convert(m, value).value), writers, convert, n, visited + [row])
  {
    var after := Swapped(cells, row, value, convert(m, value).value);
    assert forall j :: 0 <= j < |visited| ==> visited[j] in visited;
    forall i | 0 <= i < |cells| ensures RowFaithful(was, after, writers, convert, n, visited + [row], i) {
      assert RowFaithful(was, cells, writers, convert, n, visited, i);
      if i == row && NeverWritten(writers, i, n) {
        NeverWrittenStays(was, writers, i, n);
      }
    }
  }

  /** What the batch query read, `at` statements in. */
  ghost predicate AsRead(was: Column, writers: Writers, at: nat, rows: seq<nat>, read: Column) {
    && |read| == |was| && Ascending(rows)
    && forall row :: row in rows ==>
         row < |read| && HasText(read[row]) && (NeverWritten(writers, row, at) ==> was[row] == read[row])
  }

  lemma ReadingNow(was: Column, cells: Column, writers: Writers, convert: Conversion, n: nat, visited: seq<nat>,
                   from: nat, to: nat, rows: seq<nat>)
    requires Faithful(was, cells, writers, convert, n, visited) && forall i :: i in visited ==> i < from
    requires to <= |cells| && TextRows(cells, from, to, rows)
    ensures AsRead(was, writers, n, rows, cells)
  {
    forall row | row in rows && NeverWritten(writers, row, n) ensures was[row] == cells[row] {
      assert RowFaithful(was, cells, writers, convert, n, visited, row);
      NeverWrittenStays(was, writers, row, n);
    }
  }

  /** One row's turn: a moment passes, then the swap. */
  lemma RowStep(was: Column, cells: Column, writers: Writers, convert: Conversion, n: nat, visited: seq<nat>,
                at: nat, rows: seq<nat>, read: Column, row: nat)
    requires Faithful(was, cells, writers, convert, n, visited) && AsRead(was, writers, at, rows, read) && n >= at
    requires row in rows && forall other :: other in visited ==> other < row
    requires convert(n + 1, read[row].value).Ok?
    ensures var value, later := read[row].value, Overlay(cells, writers(n));
            Faithful(was, Swapped(later, row, value, convert(n + 1, value).value),
                     writers, convert, n + 1, visited + [row])
  {
    MomentPasses(was, cells, writers, convert, n, visited);
    assert NeverWritten(writers, row, n + 1) ==> NeverWritten(writers, row, at);
    RowSwapped(was, Overlay(cells, writers(n)), writers, convert, n + 1, visited, row, read[row].value, n + 1);
  }

  ghost predicate SeenAll(was: Column, writers: Writers, n: nat, to: nat, visited: seq<nat>) {
    forall i :: 0 <= i < to && i < |was| && AlwaysText(was, writers, i, n) ==> i in visited
  }

  lemma BatchSeen(was: Column, cells: Column, writers: Writers, convert: Conversion, before: nat, at: nat, n: nat,
                  visited: seq<nat>, from: nat, to: nat, rows: seq<nat>)
    requires Faithful(was, cells, writers, convert, at, visited) && before <= at <= n
    requires SeenAll(was, writers, before, from, visited) && forall i :: i in visited ==> i < from
    requires to <= |cells| && TextRows(cells, from, to, rows)
    ensures SeenAll(was, writers, n, to, visited + rows)
  {
    forall i | 0 <= i < to && i < |was| && AlwaysText(was, writers, i, n) ensures i in visited + rows {
      if i < from {
        assert AlwaysText(was, writers, i, before);
      } else {
        assert RowFaithful(was, cells, writers, convert, at, visited, i);
        assert HasText(Untouched(was, writers, at)[i]);
      }
    }
  }

  class Table {
    var cells: Column

    /** Rewrites one row, unless its cell is by then no longer the value read. */
    method RewriteRow(convert: Conversion, writers: Writers, row: nat, value: string, n: nat)
      returns (r: Result<(), ConvertError>)
      requires row < |cells|
      modifies this
      ensures r.Ok? <==> convert(n + 1, value).Ok?
      ensures r.Ok? ==> cells == Swapped(Overlay(old(cells), writers(n)), row, value, convert(n + 1, value).value)
      ensures r.Err? ==> cells == Overlay(old(cells), writers(n))
    {
      cells := Overlay(cells, writers(n));
      var converted := convert(n + 1, value);
      if converted.Err? { return Err(converted.error); }
      if converted.value != value {
        cells := Swapped(cells, row, value, converted.value);
      }
      r := Ok(());
    }

    /** Rewrites the rows of one batch; `n` counts statements. */
    method RewriteBatch(convert: Conversion, writers: Writers, rows: seq<nat>, read: Column, at: nat,
                        ghost was: Column, ghost before: seq<nat>)
      returns (r: Result<(), ConvertError>, n: nat, ghost visited: seq<nat>)
      requires Keyed(convert) || Keyless(convert)
      requires Faithful(was, cells, writers, convert, at, before) && AsRead(was, writers, at, rows, read)
      requires forall i, row :: i in before && row in rows ==> i < row
      requires Keyless(convert) ==> cells == Untouched(was, writers, at)
      modifies this
      ensures n >= at && Faithful(was, cells, writers, convert, n, visited)
      ensures Keyed(convert) ==> r.Ok?
      ensures r.Ok? ==> visited == before + rows
      ensures r.Err? || Keyless(convert) ==> cells == Untouched(was, writers, n)
    {
      n, visited := at, before;
      for k := 0 to |rows|
        invariant n >= at && visited == before + rows[..k]
        invariant Faithful(was, cells, writers, convert, n, visited)
        invariant Keyless(convert) ==> cells == Untouched(was, writers, n)
      {
        var row := rows[k];
        assert row in rows;
        assert forall other :: other in visited ==> other < row;
        var value := read[row].value;
        MomentPasses(was, cells, writers, convert, n, visited);
        if convert(n + 1, value).Ok? { RowStep(was, cells, writers, convert, n, visited, at, rows, read, row); }
        r := RewriteRow(convert, writers, row, value, n);
        n := n + 1;
        if r.Err? { return; }
        visited := visited + [row];
        assert rows[..k + 1] == rows[..k] + [row];
      }
      assert rows[..|rows|] == rows;
      r := Ok(());
    }

    /** Every row that keeps its text throughout is visited, no row twice, and every write survives. */
    method Convert(convert: Conversion, writers: Writers, limit: nat)
      returns (r: Result<(), ConvertError>, n: nat, ghost visited: seq<nat>)
      requires limit > 0 && (Keyed(convert) || Keyless(convert))
      modifies this
      ensures Keyed(convert) ==> r.Ok?
      ensures Faithful(old(cells), cells, writers, convert, n, visited)
      ensures r.Err? || Keyless(convert) ==> cells == Untouched(old(cells), writers, n)
      ensures r.Ok? ==> SeenAll(old(cells), writers, n, |old(cells)|, visited)
    {
      var from := 0;
      n, visited := 0, [];
      while true
        invariant from <= |cells|
        invariant Faithful(old(cells), cells, writers, convert, n, visited)
        invariant forall i :: i in visited ==> i < from
        invariant SeenAll(old(cells), writers, n, from, visited)
        invariant Keyless(convert) ==> cells == Untouched(old(cells), writers, n)
        decreases |cells| - from
      {
        ghost var earlier := n;
        MomentPasses(old(cells), cells, writers, convert, n, visited);
        cells := Overlay(cells, writers(n));
        n := n + 1;
        var read := cells;
        var rows, to := SelectBatch(read, from, limit);
        ReadingNow(old(cells), read, writers, convert, n, visited, from, to, rows);
        var rewritten, statements, seen := RewriteBatch(convert, writers, rows, read, n, old(cells), visited);
        BatchSeen(old(cells), read, writers, convert, earlier, n, statements, visited, from, to, rows);
        n, visited := statements, seen;
        if rewritten.Err? { return rewritten, n, visited; }
        if |rows| < limit { break; }
        from := to;
      }
      r := Ok(());
    }
  }

  // ---------------------------------------------------------------------------
  // Runs nobody interferes with
  // ---------------------------------------------------------------------------

  ghost predicate ConvertedAll(convert: Conversion, before: Column, after: Column) {
    && |before| == |after|
    && forall i :: 0 <= i < |before| ==>
         if HasText(before[i]) then Converted(convert, before[i], after[i]) else after[i] == before[i]
  }

  /** A row nobody else wrote ends converted if it has text, and as it was otherwise. */
  lemma UnwrittenRowEndsConverted(was: Column, cells: Column, writers: Writers, convert: Conversion, n: nat,
                                  visited: seq<nat>, i: nat)
    requires Faithful(was, cells, writers, convert, n, visited) && SeenAll(was, writers, n, |was|, visited)
    requires i < |was| && NeverWritten(writers, i, n)
    ensures if HasText(was[i]) then Converted(convert, was[i], cells[i]) else cells[i] == was[i]
  {
    assert RowFaithful(was, cells, writers, convert, n, visited, i);
    forall m | 0 <= m <= n ensures Untouched(was, writers, m)[i] == was[i] {
      NeverWrittenStays(was, writers, i, m);
    }
    assert HasText(was[i]) ==> AlwaysText(was, writers, i, n);
  }

  /** NULL and the empty string are never converted: unless others write the row, it stays as it is. */
  lemma EmptyCellsStay(was: Column, cells: Column, writers: Writers, convert: Conversion, n: nat,
                       visited: seq<nat>, i: nat)
    requires Faithful(was, cells, writers, convert, n, visited) && SeenAll(was, writers, n, |was|, visited)
    requires i < |was| && NeverWritten(writers, i, n) && was[i] in {None, Some("")}
    ensures cells[i] == was[i]
  {
    UnwrittenRowEndsConverted(was, cells, writers, convert, n, visited, i);
  }

  /** And any other text is: such a row ends as what the conversion makes of its text. */
  lemma TextIsConverted(was: Column, cells: Column, writers: Writers, convert: Conversion, n: nat,
                        visited: seq<nat>, i: nat, text: string)
    requires Faithful(was, cells, writers, convert, n, visited) && SeenAll(was, writers, n, |was|, visited)
    requires i < |was| && NeverWritten(writers, i, n) && was[i] == Some(text) && text != ""
    ensures cells[i].Some? && exists m :: convert(m, text) == Ok(cells[i].value)
  {
    UnwrittenRowEndsConverted(was, cells, writers, convert, n, visited, i);
  }

  lemma QuietRunConvertsAll(was: Column, cells: Column, writers: Writers, convert: Conversion, n: nat,
                            visited: seq<nat>)
    requires Faithful(was, cells, writers, convert, n, visited) && SeenAll(was, writers, n, |was|, visited)
    requires forall m :: writers(m) == map[]
    ensures ConvertedAll(convert, was, cells)
  {
    forall i | 0 <= i < |was|
      ensures if HasText(was[i]) then Converted(convert, was[i], cells[i]) else cells[i] == was[i]
    {
      UnwrittenRowEndsConverted(was, cells, writers, convert, n, visited, i);
    }
  }

  // ---------------------------------------------------------------------------
  // The cipher
  // ---------------------------------------------------------------------------

  /** Sealing, opening with the keys at hand, and the shape tokens have. */
  datatype Cipher = Cipher(seal: (nat, string) -> string, open: string -> Option<string>, looks: string -> bool)
  {
    /** Every token opens to what was sealed in it, has the shape of one, and so is not empty. */
    ghost predicate Sound() {
      && (forall m, v :: open(seal(m, v)) == Some(v) && looks(seal(m, v)))
      && !looks("")
    }
  }

  /** How a field reads a stored value, and what the reverse migration writes. */
  function Read(cipher: Cipher, v: string): string {
    if !cipher.looks(v) then v
    else
      match cipher.open(v)
      case Some(text) => text
      case None => v
  }

  function Encrypt(cipher: Cipher, m: nat, v: string): string {
    if cipher.looks(v) then v else cipher.seal(m, v)
  }

  function Encrypting(cipher: Cipher): Conversion {
    (m: nat, v: string) => Ok(Encrypt(cipher, m, v))
  }

  function Decrypting(cipher: Cipher): Conversion {
    (m: nat, v: string) => Ok(Read(cipher, v))
  }

  function ReadCell(cipher: Cipher, cell: Cell): Cell {
    if cell.Some? then Some(Read(cipher, cell.value)) else None
  }

  /** The field reads every row of the encrypted column as it read the original. */
  lemma EncryptingKeepsReadings(cipher: Cipher, a: Column, b: Column, i: nat)
    requires cipher.Sound() && ConvertedAll(Encrypting(cipher), a, b) && i < |a|
    ensures ReadCell(cipher, b[i]) == ReadCell(cipher, a[i])
    ensures HasText(b[i]) ==> cipher.looks(b[i].value)
  {
    if HasText(a[i]) {
      var m :| Encrypting(cipher)(m, a[i].value) == Ok(b[i].value);
      assert b[i].value == Encrypt(cipher, m, a[i].value);
    }
  }

  /** Running it again changes nothing. */
  lemma SecondRunChangesNothing(cipher: Cipher, a: Column, b: Column, c: Column)
    requires cipher.Sound() && ConvertedAll(Encrypting(cipher), a, b) && ConvertedAll(Encrypting(cipher), b, c)
    ensures b == c
  {
    forall i | 0 <= i < |b| ensures b[i] == c[i] {
      EncryptingKeepsReadings(cipher, a, b, i);
      if HasText(b[i]) {
        var m :| Encrypting(cipher)(m, b[i].value) == Ok(c[i].value);
        assert c[i].value == Encrypt(cipher, m, b[i].value);
      }
    }
  }

  /** Rolling back leaves each row holding the very text the field reads from the original. */
  lemma RollbackLeavesReadings(cipher: Cipher, a: Column, b: Column, c: Column, i: nat)
    requires cipher.Sound() && ConvertedAll(Encrypting(cipher), a, b) && ConvertedAll(Decrypting(cipher), b, c)
    requires i < |a|
    ensures c[i] == ReadCell(cipher, a[i])
  {
    EncryptingKeepsReadings(cipher, a, b, i);
    if HasText(b[i]) {
      var m :| Decrypting(cipher)(m, b[i].value) == Ok(c[i].value);
      assert c[i].value == Read(cipher, b[i].value);
    }
  }

  /** A value whose text is itself a token that opens to something else. */
  ghost predicate Nested(cipher: Cipher, v: string) {
    var text := Read(cipher, v);
    cipher.looks(text) && cipher.open(text).Some? && cipher.open(text).value != text
  }

  /** After a rollback the field reads a row as before, unless the row's text is a token inside a token. */
  lemma RollbackKeepsReadingExactlyWhen(cipher: Cipher, a: Column, b: Column, c: Column, i: nat)
    requires cipher.Sound() && ConvertedAll(Encrypting(cipher), a, b) && ConvertedAll(Decrypting(cipher), b, c)
    requires i < |a| && a[i].Some?
    ensures ReadCell(cipher, c[i]) == ReadCell(cipher, a[i]) <==> !Nested(cipher, a[i].value)
  {
    RollbackLeavesReadings(cipher, a, b, c, i);
  }

  /** Tokens that are an exclamation mark and the text: enough of a cipher for the laws above. */
  function Exclaiming(): Cipher {
    Cipher((m: nat, v: string) => "!" + v, (v: string) => if |v| > 0 then Some(v[1..]) else None,
           (v: string) => |v| > 0 && v[0] == '!')
  }

  /** The condition is not idle: a sound cipher, and a stored token within a token that a rollback reads differently. */
  lemma NestedTokensExist()
    ensures Exclaiming().Sound() && Nested(Exclaiming(), "!!a")
    ensures Read(Exclaiming(), "!!a") == "!a" && Read(Exclaiming(), Read(Exclaiming(), "!!a")) == "a"
  {
    var cipher := Exclaiming();
    forall m: nat, v: string ensures cipher.open(cipher.seal(m, v)) == Some(v) && cipher.looks(cipher.seal(m, v)) {
      assert ("!" + v)[1..] == v;
    }
    assert "!!a"[1..] == "!a" && "!a"[1..] == "a";
  }
}
