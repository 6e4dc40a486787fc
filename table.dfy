/**
 * A persisted table as the model layer sees it: a sequence of rows, each
 * with its primary key, the entity's attributes and the two timestamps.
 * The queries are read-only.
 */
module Table {

  /** One stored row. Timestamps are opaque text, carried through unchanged. */
  datatype Row<A> = Row(id: nat, attrs: A, createdAt: string, updatedAt: string)

  /** Outcome of a lookup by primary key: the stored row, or NotFound for that id. */
  datatype Lookup<A> = Found(row: Row<A>) | NotFound(missing: nat)

  /** Primary keys are distinct, as the database guarantees. */
  ghost predicate IdsUnique<A>(rows: seq<Row<A>>) {
    forall i, j :: 0 <= i < j < |rows| ==> rows[i].id != rows[j].id
  }

  /** No two rows share a natural key. */
  ghost predicate KeysUnique<A>(rows: seq<Row<A>>, key: A -> string) {
    forall i, j :: 0 <= i < j < |rows| ==> key(rows[i].attrs) != key(rows[j].attrs)
  }

  /**
   * findById: the first row whose primary key is `id`, or NotFound when no
   * row has it.
   */
  function FindById<A>(rows: seq<Row<A>>, id: nat): (r: Lookup<A>)
    ensures r.NotFound? <==> forall i :: 0 <= i < |rows| ==> rows[i].id != id
    ensures r.Found? ==> r.row in rows && r.row.id == id
    ensures r.NotFound? ==> r.missing == id
  {
    if rows == [] then NotFound(id)
    else if rows[0].id == id then Found(rows[0])
    else
      var r := FindById(rows[1..], id);
      assert forall i :: 1 <= i < |rows| ==> rows[i] == rows[1..][i - 1];
      r
  }

  /** With distinct primary keys, looking up a stored row's id returns that row, field for field. */
  lemma FindByIdStored<A>(rows: seq<Row<A>>, i: nat)
    requires IdsUnique(rows)
    requires i < |rows|
    ensures FindById(rows, rows[i].id) == Found(rows[i])
  {
  }

  /**
   * checkUnique: true exactly when no stored row has the candidate's natural
   * key. Nothing of the candidate but its key is consulted.
   */
  function CheckUnique<A>(rows: seq<Row<A>>, candidate: A, key: A -> string): (unique: bool)
    ensures unique <==> forall i :: 0 <= i < |rows| ==> key(rows[i].attrs) != key(candidate)
  {
    if rows == [] then true
    else
      var rest := CheckUnique(rows[1..], candidate, key);
      assert forall i :: 1 <= i < |rows| ==> rows[i] == rows[1..][i - 1];
      key(rows[0].attrs) != key(candidate) && rest
  }

  /**
   * checkUnique is the guard of the uniqueness invariant: on a table whose
   * keys are distinct, storing the candidate keeps them distinct exactly when
   * checkUnique accepted it.
   */
  lemma {:induction false} CheckUniqueGuardsKeys<A>(rows: seq<Row<A>>, candidate: A, key: A -> string, row: Row<A>)
    requires KeysUnique(rows, key)
    requires row.attrs == candidate
    ensures CheckUnique(rows, candidate, key) <==> KeysUnique(rows + [row], key)
  {
    var after := rows + [row];
    assert after[|rows|] == row;
    assert forall i :: 0 <= i < |rows| ==> after[i] == rows[i];
    if !CheckUnique(rows, candidate, key) {
      var i :| 0 <= i < |rows| && key(rows[i].attrs) == key(candidate);
      assert key(after[i].attrs) == key(after[|rows|].attrs);
    }
  }
}
