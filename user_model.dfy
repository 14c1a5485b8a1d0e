/**
 * The `users` table and the pydantic records built over it.
 *
 * A table row holds every column as nullable (SQLAlchemy columns are
 * nullable unless declared otherwise); the record `User` requires a
 * `username` and leaves the other fields optional, as its pydantic schema
 * does. Timestamps are integers (seconds).
 */
module UserModel {
  import opened Wrappers

  /** The columns of `users`, which are also the fields of the `User` record. */
  datatype Field = Id | Username | RefreshToken | Token | AccTokenTs

  /** The table's columns, in declaration order. */
  const Columns: seq<Field> := [Id, Username, RefreshToken, Token, AccTokenTs]

  /** The fields of a `User` record, in the order pydantic iterates them. */
  const RecordFields: seq<Field> := [Id, Username, RefreshToken, Token, AccTokenTs]

  /** The columns declared `unique=True`. */
  const UniqueColumns: set<Field> := {Username, RefreshToken, Token}

  /** A column value as the database sees it; `Null` is SQL NULL / Python `None`. */
  datatype Value = Null | Text(s: string) | Int(n: int)

  /** One stored row, without its primary key (the key of the table map). */
  datatype UserRow = UserRow(
    username: Option<string>,
    refreshToken: Option<string>,
    token: Option<string>,
    accTokenTs: Option<int>)

  /** A validated `User` record; `id` is `None` until it is read from the store. */
  datatype User = User(
    id: Option<int>,
    username: string,
    refreshToken: Option<string>,
    token: Option<string>,
    accTokenTs: Option<int>)

  /** A `UserValidator`: the user data received from upstream. */
  datatype UserData = UserData(
    username: string,
    refreshToken: Option<string>,
    token: Option<string>)

  /** A dictionary of column assignments: `**kwargs`, `_defaults` or `_updates`. */
  type Patch = map<Field, Value>

  function TextValue(o: Option<string>): Value {
    match o
    case None => Null
    case Some(s) => Text(s)
  }

  function IntValue(o: Option<int>): Value {
    match o
    case None => Null
    case Some(n) => Int(n)
  }

  /** Reads a text column back from a value; only `Text` and `Null` are stored there. */
  function AsText(v: Value): Option<string> {
    if v.Text? then Some(v.s) else None
  }

  /** Reads a timestamp column back from a value; only `Int` and `Null` are stored there. */
  function AsInt(v: Value): Option<int> {
    if v.Int? then Some(v.n) else None
  }

  /** The value a row holds in a non-key column (rows do not hold their key). */
  function Cell(row: UserRow, f: Field): Value {
    match f
    case Id => Null
    case Username => TextValue(row.username)
    case RefreshToken => TextValue(row.refreshToken)
    case Token => TextValue(row.token)
    case AccTokenTs => IntValue(row.accTokenTs)
  }

  /** The value of column `f` in the row stored under primary key `id`. */
  function Column(id: nat, row: UserRow, f: Field): Value {
    if f == Id then Int(id) else Cell(row, f)
  }

  /** A row is determined by its non-key cells. */
  lemma {:induction false} CellsDetermineRow(a: UserRow, b: UserRow)
    requires forall f :: f != Id ==> Cell(a, f) == Cell(b, f)
    ensures a == b
  {
    assert Cell(a, Username) == Cell(b, Username);
    assert Cell(a, RefreshToken) == Cell(b, RefreshToken);
    assert Cell(a, Token) == Cell(b, Token);
    assert Cell(a, AccTokenTs) == Cell(b, AccTokenTs);
  }

  /** The value of field `f` of a record. */
  function FieldValue(u: User, f: Field): Value {
    match f
    case Id => IntValue(u.id)
    case Username => Text(u.username)
    case RefreshToken => TextValue(u.refreshToken)
    case Token => TextValue(u.token)
    case AccTokenTs => IntValue(u.accTokenTs)
  }

  /** The row whose every non-`id` column holds the record's value. */
  function RowOf(u: User): (row: UserRow)
    ensures forall f :: f != Id ==> Cell(row, f) == FieldValue(u, f)
  {
    UserRow(Some(u.username), u.refreshToken, u.token, u.accTokenTs)
  }

  /** `UserValidator.dict()`: every field, `None` values included. */
  function Dict(d: UserData): (p: Patch)
    ensures p.Keys == {Username, RefreshToken, Token}
    ensures p[Username] == Text(d.username)
    ensures d.refreshToken.None? ==> p[RefreshToken] == Null
    ensures d.refreshToken.Some? ==> p[RefreshToken] == Text(d.refreshToken.value)
    ensures d.token.None? ==> p[Token] == Null
    ensures d.token.Some? ==> p[Token] == Text(d.token.value)
    ensures FitsRecord(p)
  {
    map[Username := Text(d.username), RefreshToken := TextValue(d.refreshToken), Token := TextValue(d.token)]
  }

  /** A value that the column can hold. */
  predicate FitsColumn(f: Field, v: Value) {
    match f
    case Id => false
    case AccTokenTs => !v.Text?
    case _ => !v.Int?
  }

  /**
   * A `_defaults` dictionary: values of the right type for non-`id`
   * columns. (Passing `id` would force a primary key; see README.)
   */
  predicate FitsColumns(p: Patch) {
    forall f :: f in p ==> FitsColumn(f, p[f])
  }

  /** An `_updates` dictionary: it must also keep `username` a string. */
  predicate FitsRecord(p: Patch) {
    FitsColumns(p) && (Username in p ==> p[Username].Text?)
  }

  /** Two optional column values that are equal and not NULL. */
  predicate SameNonNull<T(==)>(a: Option<T>, b: Option<T>) {
    a.Some? && a == b
  }

  /** Two rows that a UNIQUE column forbids to coexist. */
  predicate Collide(r1: UserRow, r2: UserRow) {
    || SameNonNull(r1.username, r2.username)
    || SameNonNull(r1.refreshToken, r2.refreshToken)
    || SameNonNull(r1.token, r2.token)
  }

  /** The table satisfies its UNIQUE constraints (NULL may repeat). */
  predicate Consistent(rows: map<nat, UserRow>) {
    forall i, j :: i in rows && j in rows && i != j ==> !Collide(rows[i], rows[j])
  }

  /** Writing `row` under key `id` would break a UNIQUE constraint. */
  predicate Clashes(rows: map<nat, UserRow>, id: nat, row: UserRow) {
    exists j :: j in rows && j != id && Collide(rows[j], row)
  }

  /** The constraints in the column-wise form the schema declares them. */
  lemma {:induction false} ConsistentMeansUniqueColumns(rows: map<nat, UserRow>, f: Field, i: nat, j: nat)
    requires Consistent(rows) && f in UniqueColumns
    requires i in rows && j in rows
    requires Cell(rows[i], f) != Null
    ensures Cell(rows[i], f) == Cell(rows[j], f) ==> i == j
  {
    if i != j {
      assert !Collide(rows[i], rows[j]);
    }
  }
}
