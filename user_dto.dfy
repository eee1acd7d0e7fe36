/** Rows of the `users` table and the `UserDTO` read model built from them. */
module UserData {
  import opened Wrappers

  /** A column value as the database returns it: SQL NULL or a string
      (ids are UUID strings, timestamps `Y-m-d H:i:s` strings). */
  datatype Cell = Null | Text(s: string)

  /** A row: column name to value, as `(array) $userData` exposes it. */
  type Row = map<string, Cell>

  /** `$row[$column] ?? null`. */
  function Get(row: Row, column: string): Cell {
    if column in row then row[column] else Null
  }

  function CellOf(o: Option<string>): (c: Cell)
    ensures c.Null? <==> o.None?
  {
    if o.Some? then Text(o.value) else Null
  }

  function OptionOf(c: Cell): (o: Option<string>)
    ensures CellOf(o) == c
  {
    if c.Text? then Some(c.s) else None
  }

  /** The columns `UserDTO` declares as non-nullable strings hold strings. */
  predicate IsUserRow(row: Row) {
    && Get(row, "id").Text?
    && Get(row, "name").Text?
    && Get(row, "email").Text?
    && Get(row, "created_at").Text?
  }

  /** A row of the `users` table. */
  type UserRow = row: Row | IsUserRow(row)
    witness map["id" := Text(""), "name" := Text(""), "email" := Text(""), "created_at" := Text("")]

  datatype UserDTO = UserDTO(
    id: string,
    name: string,
    surname: Option<string>,
    email: string,
    profilePath: Option<string>,
    createdAt: string,
    updatedAt: Option<string>)

  /** The seven columns a DTO is read from, under their snake_case names. */
  const Columns: set<string> := {"id", "name", "surname", "email", "profile_path", "created_at", "updated_at"}

  /** `UserDTO::fromDatabase`: each camelCase field takes the value of its
      snake_case column; a NULL or missing nullable column becomes null. */
  function FromDatabase(row: Row): (d: UserDTO)
    requires IsUserRow(row)
    ensures Text(d.id) == Get(row, "id") && Text(d.name) == Get(row, "name")
    ensures Text(d.email) == Get(row, "email") && Text(d.createdAt) == Get(row, "created_at")
    ensures CellOf(d.surname) == Get(row, "surname")
    ensures CellOf(d.profilePath) == Get(row, "profile_path")
    ensures CellOf(d.updatedAt) == Get(row, "updated_at")
  {
    UserDTO(
      Get(row, "id").s,
      Get(row, "name").s,
      OptionOf(Get(row, "surname")),
      Get(row, "email").s,
      OptionOf(Get(row, "profile_path")),
      Get(row, "created_at").s,
      OptionOf(Get(row, "updated_at")))
  }

  /** `UserDTO::toArray`: the fields back under their snake_case keys. */
  function ToArray(d: UserDTO): (row: Row)
    ensures row.Keys == Columns
    ensures row["id"] == Text(d.id) && row["name"] == Text(d.name) && row["email"] == Text(d.email)
    ensures row["surname"] == CellOf(d.surname)
  {
    map["id" := Text(d.id), "name" := Text(d.name), "surname" := CellOf(d.surname),
        "email" := Text(d.email), "profile_path" := CellOf(d.profilePath),
        "created_at" := Text(d.createdAt), "updated_at" := CellOf(d.updatedAt)]
  }

  /** Reading a DTO's own array back gives the same DTO. */
  lemma FromToArray(d: UserDTO)
    ensures IsUserRow(ToArray(d)) && FromDatabase(ToArray(d)) == d
  {
    var row := ToArray(d);
    assert Get(row, "surname") == CellOf(d.surname);
    assert OptionOf(CellOf(d.surname)) == d.surname;
    assert OptionOf(CellOf(d.profilePath)) == d.profilePath;
    assert OptionOf(CellOf(d.updatedAt)) == d.updatedAt;
  }

  /** A row's DTO, written back as an array, is the row restricted to the
      seven DTO columns (a missing nullable column comes back as NULL). */
  lemma ToFromDatabase(row: Row)
    requires IsUserRow(row)
    ensures forall c :: c in Columns ==> ToArray(FromDatabase(row))[c] == Get(row, c)
  {
  }

  /** Two rows give the same DTO exactly when they agree on the seven columns. */
  lemma FromDatabaseDeterminedByColumns(r1: Row, r2: Row)
    requires IsUserRow(r1) && IsUserRow(r2)
    ensures FromDatabase(r1) == FromDatabase(r2) <==> forall c :: c in Columns ==> Get(r1, c) == Get(r2, c)
  {
    if FromDatabase(r1) == FromDatabase(r2) {
      ToFromDatabase(r1);
      ToFromDatabase(r2);
    }
  }
}
