/**
 * The start-up check of the `players` table (verify_players_table): the
 * column listing from information_schema is compared with the expected
 * columns, and start-up is refused on any difference.
 */
module Schema {
  import opened Wrappers
  import Text

  /** One row of the information_schema listing. */
  datatype Column = Column(name: string, dataType: string)

  /** EXPECTED_COLUMNS, in declaration order. */
  const ExpectedColumns: seq<(string, string)> := [
    ("discord_id", "bigint"),
    ("osu_id", "integer"),
    ("last_checked", "timestamp with time zone")
  ]

  /** The RuntimeError raised on a failed check. */
  datatype SchemaError = SchemaError(message: string)

  const TableMissingMessage: string := "players table does not exist in schema 'public' after creation attempt"
  const MismatchHeader: string := "players table schema mismatch:\n"
  const MismatchFooter: string := "Refusing to continue to avoid data corruption. Please review the database schema."

  /** The dict comprehension over the listing: a later row for the same name wins. */
  function Existing(rows: seq<Column>): (m: map<string, string>)
    ensures forall n :: n in m <==> exists r :: r in rows && r.name == n
    decreases |rows|
  {
    if rows == [] then map[]
    else
      var init := rows[..|rows| - 1];
      var last := rows[|rows| - 1];
      assert forall r :: r in rows <==> r in init || r == last;
      Existing(init)[last.name := last.dataType]
  }

  /** The value kept for a name is the type of the last row with that name. */
  lemma {:induction false} ExistingLastWins(rows: seq<Column>, k: nat)
    requires k < |rows| && forall j :: k < j < |rows| ==> rows[j].name != rows[k].name
    ensures rows[k].name in Existing(rows) && Existing(rows)[rows[k].name] == rows[k].dataType
    decreases |rows|
  {
    var n := |rows| - 1;
    if k < n {
      assert rows[..n][k] == rows[k];
      assert forall j :: k < j < n ==> rows[..n][j] == rows[j];
      ExistingLastWins(rows[..n], k);
    }
  }

  /** The message for one expected column; None when it is present with exactly that type. */
  function ColumnMismatch(existing: map<string, string>, col: string, expectedType: string): (r: Option<string>)
    ensures r.None? <==> col in existing && existing[col] == expectedType
    ensures col !in existing ==> r == Some("missing column: " + col)
    ensures col in existing && existing[col] != expectedType ==>
      r == Some("column " + col + " has type " + existing[col] + ", expected " + expectedType)
  {
    if col !in existing then Some("missing column: " + col)
    else if existing[col] != expectedType then Some("column " + col + " has type " + existing[col] + ", expected " + expectedType)
    else None
  }

  /** The mismatch list over `expected`, in its order, at most one message per column. */
  function Mismatches(existing: map<string, string>, expected: seq<(string, string)>): (ms: seq<string>)
    decreases |expected|
  {
    if expected == [] then []
    else
      var init := Mismatches(existing, expected[..|expected| - 1]);
      var (col, t) := expected[|expected| - 1];
      match ColumnMismatch(existing, col, t)
      case Some(m) => init + [m]
      case None => init
  }

  /**
   * At most one message per expected column, and none at all exactly when every
   * expected column is present with exactly its expected type.
   */
  lemma {:induction false} MismatchesEmptyIff(existing: map<string, string>, expected: seq<(string, string)>)
    ensures |Mismatches(existing, expected)| <= |expected|
    ensures Mismatches(existing, expected) == [] <==>
      forall k :: 0 <= k < |expected| ==> expected[k].0 in existing && existing[expected[k].0] == expected[k].1
    decreases |expected|
  {
    if expected != [] {
      var n := |expected| - 1;
      MismatchesEmptyIff(existing, expected[..n]);
      forall k | 0 <= k < n ensures expected[..n][k] == expected[k] { }
    }
  }

  /** Columns that are not expected do not change the mismatch list. */
  lemma {:induction false} ExtraColumnIgnored(existing: map<string, string>, expected: seq<(string, string)>, name: string, t: string)
    requires forall k :: 0 <= k < |expected| ==> expected[k].0 != name
    ensures Mismatches(existing[name := t], expected) == Mismatches(existing, expected)
    decreases |expected|
  {
    if expected != [] {
      var n := |expected| - 1;
      assert forall k :: 0 <= k < n ==> expected[..n][k] == expected[k];
      ExtraColumnIgnored(existing, expected[..n], name, t);
      var (col, ty) := expected[n];
      assert col != name;
      assert ColumnMismatch(existing[name := t], col, ty) == ColumnMismatch(existing, col, ty);
    }
  }

  /** The outcome of the check for a column listing. */
  function Verify(rows: seq<Column>): (r: Option<SchemaError>) {
    if rows == [] then Some(SchemaError(TableMissingMessage))
    else
      var ms := Mismatches(Existing(rows), ExpectedColumns);
      if ms == [] then None
      else Some(SchemaError(MismatchHeader + Text.Join(ms, "\n") + "\n" + MismatchFooter))
  }

  /**
   * The check passes exactly when the listing is non-empty and has every
   * expected column with its exact type, whatever other columns there are.
   */
  lemma VerifyPassesIff(rows: seq<Column>)
    ensures Verify(rows).None? <==> (rows != [] &&
      forall k :: 0 <= k < |ExpectedColumns| ==>
        ExpectedColumns[k].0 in Existing(rows) && Existing(rows)[ExpectedColumns[k].0] == ExpectedColumns[k].1)
    ensures rows == [] ==> Verify(rows) == Some(SchemaError(TableMissingMessage))
  {
    MismatchesEmptyIff(Existing(rows), ExpectedColumns);
  }

  /** A listed column that is not expected changes nothing about the check of a non-empty listing. */
  lemma ExtraRowIgnored(rows: seq<Column>, c: Column)
    requires rows != [] && forall k :: 0 <= k < |ExpectedColumns| ==> ExpectedColumns[k].0 != c.name
    ensures Verify(rows + [c]) == Verify(rows)
  {
    assert (rows + [c])[..|rows|] == rows;
    ExtraColumnIgnored(Existing(rows), ExpectedColumns, c.name, c.dataType);
  }

  /** The table as CREATE_PLAYERS_TABLE makes it passes. */
  lemma CreatedTablePasses()
    ensures Verify([Column("discord_id", "bigint"), Column("osu_id", "integer"),
                    Column("last_checked", "timestamp with time zone")]).None?
  {
    var rows := [Column("discord_id", "bigint"), Column("osu_id", "integer"), Column("last_checked", "timestamp with time zone")];
    ExistingLastWins(rows, 0);
    ExistingLastWins(rows, 1);
    ExistingLastWins(rows, 2);
    VerifyPassesIff(rows);
  }

  /** verify_players_table: the loop over EXPECTED_COLUMNS that fills the mismatch list. */
  method VerifyPlayersTable(rows: seq<Column>) returns (r: Option<SchemaError>)
    ensures r == Verify(rows)
  {
    if rows == [] {
      return Some(SchemaError(TableMissingMessage));
    }
    var existing := Existing(rows);
    var mismatches: seq<string> := [];
    for i := 0 to |ExpectedColumns|
      invariant mismatches == Mismatches(existing, ExpectedColumns[..i])
    {
      assert ExpectedColumns[..i + 1][..i] == ExpectedColumns[..i];
      var (col, expectedType) := ExpectedColumns[i];
      if col !in existing {
        mismatches := mismatches + ["missing column: " + col];
        continue;
      }
      var actual := existing[col];
      if actual != expectedType {
        mismatches := mismatches + ["column " + col + " has type " + actual + ", expected " + expectedType];
      }
    }
    assert ExpectedColumns[..|ExpectedColumns|] == ExpectedColumns;
    if mismatches != [] {
      return Some(SchemaError(MismatchHeader + Text.Join(mismatches, "\n") + "\n" + MismatchFooter));
    }
    return None;
  }
}
