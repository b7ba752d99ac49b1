/** The single transaction the run opens on a fresh, empty `issues` table:
    rows are staged one at a time under the `id` primary key, and become
    visible only when the transaction commits. */
module Store {
  import opened Wrappers
  import opened Seqs
  import opened Rows

  /** Why staging or committing failed: an insert refused by the primary
      key, an insert refused for any other reason (a full disk, a busy or
      locked database, an I/O error), or a failed commit. */
  datatype StoreError = DuplicateKey(id: Value) | InsertFailed(id: Value) | CommitFailed

  /** The database's own behaviour, outside the program's control: which
      rows an insert accepts apart from the primary key check, and whether
      the final commit succeeds. */
  datatype Database = Database(accepts: Row -> bool, commitSucceeds: bool)

  /** The open transaction: the rows staged so far, in insertion order. */
  datatype Tx = Tx(staged: seq<Row>)

  /** The transaction the run starts with: the table was just created. */
  const Fresh: Tx := Tx([])

  /** The primary keys of the rows, in order. */
  function Ids(rows: seq<Row>): (ids: seq<Value>)
    ensures |ids| == |rows|
    ensures forall i {:trigger ids[i]} :: 0 <= i < |rows| ==> ids[i] == rows[i][Id]
  {
    seq(|rows|, i requires 0 <= i < |rows| => rows[i][Id])
  }

  /** What the primary key guarantees of a transaction: no key twice. */
  predicate Valid(tx: Tx) {
    Distinct(Ids(tx.staged))
  }

  lemma IdsAppend(rows: seq<Row>, more: seq<Row>)
    ensures Ids(rows + more) == Ids(rows) + Ids(more)
  {
  }

  lemma IdsSnoc(rows: seq<Row>, row: Row)
    ensures Ids(rows + [row]) == Ids(rows) + [row[Id]]
  {
    IdsAppend(rows, [row]);
    assert Ids([row])[0] == row[Id];
  }

  /** Every row is one the database accepts. */
  predicate Accepted(accepts: Row -> bool, rows: seq<Row>) {
    forall i :: 0 <= i < |rows| ==> accepts(rows[i])
  }

  lemma AcceptedAppend(accepts: Row -> bool, rows: seq<Row>, more: seq<Row>)
    ensures Accepted(accepts, rows + more) <==> Accepted(accepts, rows) && Accepted(accepts, more)
  {
    if Accepted(accepts, rows + more) {
      assert forall i :: 0 <= i < |rows| ==> rows[i] == (rows + more)[i];
      assert forall i :: 0 <= i < |more| ==> more[i] == (rows + more)[|rows| + i];
    }
  }

  /** Stage one row (an `insertStmt.Exec`): refused when its key is taken,
      or when the database refuses the insert for another reason. */
  function Stage(tx: Tx, row: Row, accepts: Row -> bool): (r: Result<Tx, StoreError>)
    requires Valid(tx)
    ensures r.Success? <==> row[Id] !in Ids(tx.staged) && accepts(row)
    ensures r.Success? ==> r.value.staged == tx.staged + [row] && Valid(r.value)
    ensures r.Failure? && row[Id] in Ids(tx.staged) ==> r.error == DuplicateKey(row[Id])
    ensures r.Failure? && row[Id] !in Ids(tx.staged) ==> r.error == InsertFailed(row[Id])
  {
    if row[Id] in Ids(tx.staged) then Failure(DuplicateKey(row[Id]))
    else if !accepts(row) then Failure(InsertFailed(row[Id]))
    else
      var tx' := Tx(tx.staged + [row]);
      IdsSnoc(tx.staged, row);
      DistinctSnoc(Ids(tx.staged), row[Id]);
      Success(tx')
  }

  /** Stage rows in order, stopping at the first refused one: succeeds
      exactly when no key repeats, among the new rows or against the
      staged ones, and the database accepts every new row; then the new
      rows follow the staged ones in order. */
  function StageAll(tx: Tx, rows: seq<Row>, accepts: Row -> bool): (r: Result<Tx, StoreError>)
    requires Valid(tx)
    ensures r.Success? <==> Distinct(Ids(tx.staged) + Ids(rows)) && Accepted(accepts, rows)
    ensures r.Success? ==> r.value.staged == tx.staged + rows && Valid(r.value)
    ensures r.Failure? ==> r.error.DuplicateKey? || r.error.InsertFailed?
    decreases |rows|
  {
    if rows == [] then
      assert Ids(tx.staged) + Ids(rows) == Ids(tx.staged);
      Success(tx)
    else
      var row := rows[0];
      assert rows == [row] + rows[1..];
      AcceptedAppend(accepts, [row], rows[1..]);
      match Stage(tx, row, accepts)
      case Failure(e) =>
        if row[Id] in Ids(tx.staged) then
          StageAllRefused(Ids(tx.staged), Ids(rows));
          Failure(e)
        else
          Failure(e)
      case Success(tx') =>
        StageAllStep(tx, rows, tx');
        StageAll(tx', rows[1..], accepts)
  }

  /** After the first row is staged, the keys still to check and the rows
      still to stage are the same as before, shifted by one row. */
  lemma StageAllStep(tx: Tx, rows: seq<Row>, tx': Tx)
    requires rows != []
    requires tx'.staged == tx.staged + [rows[0]]
    ensures Ids(tx.staged) + Ids(rows) == Ids(tx'.staged) + Ids(rows[1..])
    ensures tx'.staged + rows[1..] == tx.staged + rows
  {
    IdsAppend([rows[0]], rows[1..]);
    IdsAppend(tx.staged, [rows[0]]);
    assert rows == [rows[0]] + rows[1..];
  }

  /** A key already staged makes any continuation repeat a key. */
  lemma StageAllRefused(staged: seq<Value>, ids: seq<Value>)
    requires ids != [] && ids[0] in staged
    ensures !Distinct(staged + ids)
  {
    var k :| 0 <= k < |staged| && staged[k] == ids[0];
    assert (staged + ids)[k] == (staged + ids)[|staged|];
  }

  /** The table a committed transaction leaves: primary key to row. */
  function Table(rows: seq<Row>): (t: map<Value, Row>)
    ensures t.Keys == set i | 0 <= i < |rows| :: rows[i][Id]
  {
    if rows == [] then map[]
    else Table(rows[..|rows| - 1])[rows[|rows| - 1][Id] := rows[|rows| - 1]]
  }

  /** Committing a transaction the primary key kept duplicate-free makes
      every staged row visible under its own key, one table row per staged
      row. */
  lemma {:induction false} TableOfStaged(tx: Tx)
    requires Valid(tx)
    ensures |Table(tx.staged)| == |tx.staged|
    ensures forall i :: 0 <= i < |tx.staged| ==> Table(tx.staged)[tx.staged[i][Id]] == tx.staged[i]
    decreases |tx.staged|
  {
    var rows := tx.staged;
    if rows != [] {
      var init := rows[..|rows| - 1];
      var last := rows[|rows| - 1];
      assert rows == init + [last];
      IdsSnoc(init, last);
      DistinctSnoc(Ids(init), last[Id]);
      TableOfStaged(Tx(init));
      NewKeyNotInTable(init, last);
      var t := Table(init);
      assert Table(rows) == t[last[Id] := last];
      forall i | 0 <= i < |rows|
        ensures Table(rows)[rows[i][Id]] == rows[i]
      {
        if i < |init| {
          assert rows[i] == init[i];
        }
      }
    }
  }

  /** A key none of the rows carries is not a key of their table. */
  lemma NewKeyNotInTable(rows: seq<Row>, row: Row)
    requires row[Id] !in Ids(rows)
    ensures row[Id] !in Table(rows).Keys
  {
    forall i | 0 <= i < |rows|
      ensures rows[i][Id] != row[Id]
    {
      assert Ids(rows)[i] == rows[i][Id];
    }
  }
}
