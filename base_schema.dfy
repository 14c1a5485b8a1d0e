/**
 * The generic persistence helper `BaseSchema` (`get`, `get_or_create`,
 * `update`, `save`, `_get_updated_columns`) over the `users` table.
 *
 * The table is a map from primary key to row plus the counter that
 * hands out the next key. Reads are functions of the map; the writes are
 * methods of `Session`, each proved equal to a function of the old table
 * (`SaveSpec`, `GetOrCreateSpec`, `UpdateSpec`), and the lemmas below
 * state what those functions promise.
 */
module BaseSchema {
  import opened Wrappers
  import opened UserModel

  type Rows = map<nat, UserRow>

  /** The `**kwargs` of `filter_by`: column name to required value. */
  type Filter = map<Field, Value>

  /** The table's contents and the key the next insert receives. */
  datatype Table = Table(rows: Rows, nextId: nat)

  /** Keys below the counter, and the UNIQUE constraints hold. */
  predicate TableValid(t: Table) {
    && 0 < t.nextId
    && (forall id :: id in t.rows ==> id < t.nextId)
    && Consistent(t.rows)
  }

  // ---------------------------------------------------------------- reads

  /** The row under `id` equals every value the filter names (SQL `=`, `IS NULL` for `None`). */
  predicate Satisfies(id: nat, row: UserRow, filter: Filter) {
    forall f :: f in filter ==> Column(id, row, f) == filter[f]
  }

  /** The keys of the rows that `filter_by(**filter)` selects. */
  function Matches(rows: Rows, filter: Filter): set<nat> {
    set id | id in rows && Satisfies(id, rows[id], filter)
  }

  lemma SingletonMembers(m: set<nat>)
    requires |m| == 1
    ensures forall a, b :: a in m && b in m ==> a == b
  {
    var x :| x in m;
    assert |m - {x}| == 0;
    assert m == {x};
  }

  /** `query.one()`: the key of the single selected row. */
  function One(rows: Rows, filter: Filter): (r: Result<nat>)
    ensures r.Success? ==> Matches(rows, filter) == {r.value}
    ensures r == Failure(NoResultFound) <==> Matches(rows, filter) == {}
    ensures r == Failure(MultipleResultsFound) <==> |Matches(rows, filter)| > 1
    ensures r.Success? || r == Failure(NoResultFound) || r == Failure(MultipleResultsFound)
  {
    var m := Matches(rows, filter);
    if |m| == 0 then Failure(NoResultFound)
    else if |m| > 1 then Failure(MultipleResultsFound)
    else
      SingletonMembers(m);
      var id :| id in m;
      Success(id)
  }

  /**
   * `cls.from_orm(model)`: the record of a stored row. pydantic requires
   * `username: str`, so a row whose `username` is NULL is refused.
   */
  function FromRow(id: nat, row: UserRow): (r: Result<User>)
    ensures r.Success? <==> row.username.Some?
    ensures r.Success? ==> r.value.id == Some(id as int) && RowOf(r.value) == row
    ensures r.Failure? ==> r.error == ValidationError
  {
    match row.username
    case None => Failure(ValidationError)
    case Some(name) => Success(User(Some(id), name, row.refreshToken, row.token, row.accTokenTs))
  }

  /** `BaseSchema.get`: the record of the one row the filter selects. */
  function Get(rows: Rows, filter: Filter): (r: Result<User>)
    ensures r.Success? ==>
      && r.value.id.Some? && 0 <= r.value.id.value
      && Matches(rows, filter) == {r.value.id.value as nat}
      && RowOf(r.value) == rows[r.value.id.value as nat]
    ensures r == Failure(NoResultFound) <==> Matches(rows, filter) == {}
    ensures r == Failure(MultipleResultsFound) <==> |Matches(rows, filter)| > 1
    ensures r == Failure(ValidationError) <==>
      |Matches(rows, filter)| == 1 && forall id :: id in Matches(rows, filter) ==> rows[id].username.None?
    ensures r.Failure? ==> r.error in {NoResultFound, MultipleResultsFound, ValidationError}
  {
    match One(rows, filter)
    case Failure(e) => Failure(e)
    case Success(id) => FromRow(id, rows[id])
  }

  // ---------------------------------------------------------------- writes

  /** `db.add(model); db.commit()` of `row` under key `k`: refused when it breaks a UNIQUE constraint. */
  function Committed(t: Table, k: nat, row: UserRow): (r: Result<Table>)
    requires k in t.rows || k == t.nextId
    ensures r.Failure? <==> Clashes(t.rows, k, row)
    ensures r.Failure? ==> r.error == IntegrityError
    ensures r.Success? ==> r.value.rows == t.rows[k := row]
    ensures r.Success? ==> r.value.nextId == if k in t.rows then t.nextId else t.nextId + 1
    ensures TableValid(t) && r.Success? ==> TableValid(r.value)
  {
    if Clashes(t.rows, k, row) then Failure(IntegrityError)
    else
      var rows' := t.rows[k := row];
      assert Consistent(t.rows) ==> Consistent(rows') by {
        if Consistent(t.rows) {
          forall i, j | i in rows' && j in rows' && i != j ensures !Collide(rows'[i], rows'[j]) {
            if i == k {
              assert !Collide(t.rows[j], row);
              assert Collide(row, t.rows[j]) == Collide(t.rows[j], row);
            } else if j == k {
              assert !Collide(t.rows[i], row);
            }
          }
        }
      }
      Success(Table(rows', if k in t.rows then t.nextId else t.nextId + 1))
  }

  /** The key `save` writes under: the record's `id` when the table holds it, otherwise a fresh key. */
  function Target(t: Table, id: Option<int>): (k: nat)
    ensures k in t.rows || k == t.nextId
    ensures k == t.nextId || id == Some(k as int)
    ensures (id.Some? && 0 <= id.value && id.value as nat in t.rows) <==> (k in t.rows && id == Some(k as int))
  {
    if id.Some? && 0 <= id.value && id.value as nat in t.rows then id.value as nat else t.nextId
  }

  /**
   * What an INSERT stores: the ORM leaves a `None` attribute out of the
   * statement, so a column with a storage default receives it. Only
   * `acc_token_ts` has one, the insert time `now`; the other columns stay NULL.
   */
  function Inserted(row: UserRow, now: int): (r: UserRow)
    ensures forall f :: f != AccTokenTs ==> Cell(r, f) == Cell(row, f)
    ensures r.accTokenTs.Some?
    ensures row.accTokenTs.Some? ==> r.accTokenTs == row.accTokenTs
    ensures row.accTokenTs.None? ==> r.accTokenTs == Some(now)
  {
    if row.accTokenTs.None? then row.(accTokenTs := Some(now)) else row
  }

  /**
   * The row `save` of `u` writes: its UPDATE sets every non-`id` column,
   * `None` as NULL; its INSERT leaves a `None` timestamp to the default.
   */
  function UpsertRow(t: Table, u: User, now: int): (row: UserRow)
    ensures forall f :: f != Id && f != AccTokenTs ==> Cell(row, f) == FieldValue(u, f)
    ensures row.accTokenTs == if Target(t, u.id) in t.rows || u.accTokenTs.Some? then u.accTokenTs else Some(now)
  {
    if Target(t, u.id) in t.rows then RowOf(u) else Inserted(RowOf(u), now)
  }

  /** `BaseSchema.save`: upsert by `id`, writing every non-`id` column of the record. */
  function SaveSpec(t: Table, u: User, now: int): (r: Result<Table>)
    ensures r.Failure? <==> Clashes(t.rows, Target(t, u.id), UpsertRow(t, u, now))
    ensures r.Failure? ==> r.error == IntegrityError
    ensures r.Success? ==>
      && r.value.rows.Keys == t.rows.Keys + {Target(t, u.id)}
      && forall f :: f != Id && f != AccTokenTs ==> Cell(r.value.rows[Target(t, u.id)], f) == FieldValue(u, f)
    ensures TableValid(t) && r.Success? ==> TableValid(r.value)
  {
    Committed(t, Target(t, u.id), UpsertRow(t, u, now))
  }

  /**
   * `UserModel(**defaults)` as the database stores it: a column that
   * `defaults` names gets that value; a column it leaves out or sets to
   * `None` gets its storage default, the insert time `now` for
   * `acc_token_ts` and NULL for the others.
   */
  function NewRow(defaults: Patch, now: int): (row: UserRow)
    requires FitsColumns(defaults)
    ensures forall f :: f != Id && f != AccTokenTs ==> Cell(row, f) == if f in defaults then defaults[f] else Null
    ensures Cell(row, AccTokenTs) ==
      if AccTokenTs in defaults && defaults[AccTokenTs] != Null then defaults[AccTokenTs] else Int(now)
  {
    var row := UserRow(
      if Username in defaults then AsText(defaults[Username]) else None,
      if RefreshToken in defaults then AsText(defaults[RefreshToken]) else None,
      if Token in defaults then AsText(defaults[Token]) else None,
      if AccTokenTs in defaults then AsInt(defaults[AccTokenTs]) else None);
    assert forall f :: f in defaults ==> FitsColumn(f, defaults[f]);
    Inserted(row, now)
  }

  /** `BaseSchema.get_or_create`, with the table it leaves behind. */
  function GetOrCreateSpec(t: Table, defaults: Patch, filter: Filter, now: int): (rt: (Result<(User, bool)>, Table))
    requires FitsColumns(defaults)
    ensures rt.0.Success? && !rt.0.value.1 ==> rt.1 == t
    ensures rt.0.Failure? && rt.0.error != ValidationError ==> rt.1 == t
    ensures rt.0.Failure? ==> rt.0.error in {MultipleResultsFound, ValidationError, IntegrityError}
    ensures rt.1.rows.Keys <= t.rows.Keys + {t.nextId}
    ensures TableValid(t) ==> TableValid(rt.1)
  {
    match Get(t.rows, filter)
    case Success(u) => (Success((u, false)), t)
    case Failure(e) =>
      if e != NoResultFound then (Failure(e), t)
      else
        var row := NewRow(defaults, now);
        match Committed(t, t.nextId, row)
        case Failure(e') => (Failure(e'), t)
        case Success(t') =>
          match FromRow(t.nextId, row)
          case Success(u) => (Success((u, true)), t')
          case Failure(e') => (Failure(e'), t')
  }

  /** `self.copy(update=_updates)`: the record with the named fields replaced. */
  function Copy(u: User, updates: Patch): (r: User)
    requires FitsRecord(updates)
    ensures r.id == u.id
    ensures forall f :: f != Id ==> FieldValue(r, f) == if f in updates then updates[f] else FieldValue(u, f)
  {
    var r := User(
      u.id,
      if Username in updates then updates[Username].s else u.username,
      if RefreshToken in updates then AsText(updates[RefreshToken]) else u.refreshToken,
      if Token in updates then AsText(updates[Token]) else u.token,
      if AccTokenTs in updates then AsInt(updates[AccTokenTs]) else u.accTokenTs);
    assert forall f :: f in updates ==> FitsColumn(f, updates[f]);
    r
  }

  /** `BaseSchema.update`: the copy, saved. */
  function UpdateSpec(t: Table, u: User, updates: Patch, now: int): (rt: (Result<User>, Table))
    requires FitsRecord(updates)
    ensures rt.0.Success? ==> rt.0.value == Copy(u, updates)
    ensures rt.0.Failure? ==> rt.0.error == IntegrityError && rt.1 == t
    ensures rt.0.Success? ==> SaveSpec(t, Copy(u, updates), now).Success? && rt.1 == SaveSpec(t, Copy(u, updates), now).value
    ensures TableValid(t) ==> TableValid(rt.1)
  {
    var n := Copy(u, updates);
    match SaveSpec(t, n, now)
    case Success(t') => (Success(n), t')
    case Failure(e) => (Failure(e), t)
  }

  /** `_get_updated_columns`: the table's column names other than `id`. */
  method UpdatedColumns() returns (names: set<Field>)
    ensures forall f :: f in names <==> f in Columns && f != Id
    ensures names == {Username, RefreshToken, Token, AccTokenTs}
  {
    names := {};
    for i := 0 to |Columns|
      invariant forall f :: f in names <==> f in Columns[..i] && f != Id
    {
      if Columns[i] != Id {
        names := names + {Columns[i]};
      }
    }
    assert Columns[..|Columns|] == Columns;
  }

  /** `setattr(model, attr, value)` for a non-key column. */
  function SetAttr(row: UserRow, f: Field, v: Value): (r: UserRow)
    requires f != Id && FitsColumn(f, v)
    ensures Cell(r, f) == v
    ensures forall g :: g != f ==> Cell(r, g) == Cell(row, g)
  {
    match f
    case Username => row.(username := AsText(v))
    case RefreshToken => row.(refreshToken := AsText(v))
    case Token => row.(token := AsText(v))
    case AccTokenTs => row.(accTokenTs := AsInt(v))
  }

  // ---------------------------------------------------------------- properties

  /** On a UNIQUE column a non-NULL value selects at most one row, so `get` never reports two. */
  lemma {:induction false} UniqueColumnSelectsAtMostOne(rows: Rows, f: Field, v: Value)
    requires Consistent(rows) && f in UniqueColumns && v != Null
    ensures |Matches(rows, map[f := v])| <= 1
    ensures Get(rows, map[f := v]) != Failure(MultipleResultsFound)
  {
    var m := Matches(rows, map[f := v]);
    if m != {} {
      var i :| i in m;
      forall j | j in m ensures j == i {
        SelectsSameCell(rows, f, v, i, j);
        ConsistentMeansUniqueColumns(rows, f, i, j);
      }
      assert m == {i};
    }
  }

  /** Two rows that a one-column filter on a non-key column selects hold the same cell. */
  lemma SelectsSameCell(rows: Rows, f: Field, v: Value, i: nat, j: nat)
    requires f != Id && i in Matches(rows, map[f := v]) && j in Matches(rows, map[f := v])
    ensures Cell(rows[i], f) == v == Cell(rows[j], f)
  {
    assert Column(i, rows[i], f) == v && Column(j, rows[j], f) == v;
  }

  /** A set with two distinct members has at least two elements. */
  lemma TwoMembers(m: set<nat>, a: nat, b: nat)
    requires a in m && b in m && a != b
    ensures |m| >= 2
  {
    var rest := m - {a};
    assert b in rest;
    assert m == rest + {a};
  }

  /** A non-NULL value of a UNIQUE column selects exactly the row that holds it. */
  lemma {:induction false} UniqueColumnSelectsHolder(rows: Rows, f: Field, id: nat)
    requires Consistent(rows) && f in UniqueColumns && id in rows && Cell(rows[id], f) != Null
    ensures Matches(rows, map[f := Cell(rows[id], f)]) == {id}
    ensures One(rows, map[f := Cell(rows[id], f)]) == Success(id)
  {
    var v := Cell(rows[id], f);
    var m := Matches(rows, map[f := v]);
    assert Satisfies(id, rows[id], map[f := v]);
    forall j | j in m ensures j == id {
      SelectsSameCell(rows, f, v, id, j);
      ConsistentMeansUniqueColumns(rows, f, id, j);
    }
    assert m == {id};
  }

  /** Filtering on `id` selects the row stored under that key, if there is one. */
  lemma {:induction false} IdSelectsRow(rows: Rows, id: nat)
    ensures Matches(rows, map[Id := Int(id)]) == if id in rows then {id} else {}
  {
    var m := Matches(rows, map[Id := Int(id)]);
    forall j | j in m ensures j == id {
      assert Column(j, rows[j], Id) == Int(id);
    }
    if id in rows {
      assert Satisfies(id, rows[id], map[Id := Int(id)]);
    }
  }

  /** `save` of a record whose `id` the table holds overwrites that row's columns and nothing else. */
  lemma SaveOverwrites(t: Table, u: User, now: int)
    requires TableValid(t) && u.id.Some? && 0 <= u.id.value && u.id.value as nat in t.rows
    requires SaveSpec(t, u, now).Success?
    ensures var t' := SaveSpec(t, u, now).value; var k := u.id.value as nat;
      && t'.rows.Keys == t.rows.Keys && |t'.rows| == |t.rows| && t'.nextId == t.nextId
      && t'.rows[k] == RowOf(u)
      && forall j :: j in t.rows && j != k ==> t'.rows[j] == t.rows[j]
  {
  }

  /**
   * `save` of a record whose `id` is `None` or not in the table inserts
   * one row under a fresh key; the record's own `id` is never written,
   * and a `None` timestamp becomes the insert time.
   */
  lemma SaveInserts(t: Table, u: User, now: int)
    requires TableValid(t) && !(u.id.Some? && 0 <= u.id.value && u.id.value as nat in t.rows)
    requires SaveSpec(t, u, now).Success?
    ensures var t' := SaveSpec(t, u, now).value;
      && t.nextId !in t.rows
      && t'.rows.Keys == t.rows.Keys + {t.nextId} && |t'.rows| == |t.rows| + 1
      && t'.rows[t.nextId] == Inserted(RowOf(u), now) && t'.nextId == t.nextId + 1
      && t'.rows[t.nextId].accTokenTs == (if u.accTokenTs.Some? then u.accTokenTs else Some(now))
      && forall j :: j in t.rows ==> t'.rows[j] == t.rows[j]
  {
    var t' := SaveSpec(t, u, now).value;
    assert t'.rows.Keys == t.rows.Keys + {t.nextId};
  }

  /**
   * Round trip: after `save`, `get(id=k)` returns the record, carrying the
   * key it was stored under, and the insert time when it was inserted
   * without a timestamp.
   */
  lemma {:induction false} SaveThenGet(t: Table, u: User, now: int)
    requires SaveSpec(t, u, now).Success?
    ensures var k := Target(t, u.id);
      var ts := if k in t.rows || u.accTokenTs.Some? then u.accTokenTs else Some(now);
      Get(SaveSpec(t, u, now).value.rows, map[Id := Int(k)]) == Success(u.(id := Some(k as int), accTokenTs := ts))
  {
    var k := Target(t, u.id);
    IdSelectsRow(SaveSpec(t, u, now).value.rows, k);
  }

  /** `get_or_create` of a row that `get` finds returns it with `created == false` and leaves the table alone. */
  lemma GetOrCreateFinds(t: Table, defaults: Patch, filter: Filter, now: int)
    requires FitsColumns(defaults) && Get(t.rows, filter).Success?
    ensures var (r, t') := GetOrCreateSpec(t, defaults, filter, now);
      && r == Success((Get(t.rows, filter).value, false)) && t' == t
      && RowOf(r.value.0) == t.rows[r.value.0.id.value as nat]
  {
  }

  /** Only NoResultFound leads to an insert: every other failure of `get` propagates, with nothing inserted. */
  lemma GetOrCreatePropagates(t: Table, defaults: Patch, filter: Filter, now: int)
    requires FitsColumns(defaults) && Get(t.rows, filter).Failure? && Get(t.rows, filter).error != NoResultFound
    ensures GetOrCreateSpec(t, defaults, filter, now) == (Failure(Get(t.rows, filter).error), t)
    ensures Get(t.rows, filter).error in {MultipleResultsFound, ValidationError}
  {
  }

  /**
   * On NoResultFound, `get_or_create` inserts exactly one row under a
   * fresh key, built from `defaults` alone (the filter is not merged in).
   */
  lemma {:induction false} GetOrCreateInserts(t: Table, defaults: Patch, filter: Filter, now: int)
    requires TableValid(t) && FitsColumns(defaults) && Get(t.rows, filter) == Failure(NoResultFound)
    ensures var (r, t') := GetOrCreateSpec(t, defaults, filter, now); var row := NewRow(defaults, now);
      && (r.Failure? && r.error == IntegrityError <==> Clashes(t.rows, t.nextId, row))
      && (r.Failure? && r.error == IntegrityError ==> t' == t)
      && (r.Success? ==> r.value.1 && r.value.0.id == Some(t.nextId as int) && RowOf(r.value.0) == row)
      && (r.Failure? ==> r.error in {IntegrityError, ValidationError})
      && (!Clashes(t.rows, t.nextId, row) ==>
            && t.nextId !in t.rows
            && t'.rows == t.rows[t.nextId := row] && |t'.rows| == |t.rows| + 1
            && t'.nextId == t.nextId + 1
            && (r.Success? <==> row.username.Some?))
  {
    assert t.nextId !in t.rows;
  }

  /** An `update` that rewrites a stored row with the values it already holds succeeds and changes nothing. */
  lemma {:induction false} UpdateRewritesStoredRow(t: Table, u: User, updates: Patch, now: int)
    requires TableValid(t) && FitsRecord(updates) && Target(t, u.id) in t.rows
    requires UpsertRow(t, Copy(u, updates), now) == t.rows[Target(t, u.id)]
    ensures UpdateSpec(t, u, updates, now) == (Success(Copy(u, updates)), t)
  {
    var k := Target(t, u.id);
    assert !Clashes(t.rows, k, t.rows[k]);
    assert t.rows[k := t.rows[k]] == t.rows;
  }

  /**
   * Repeating `get_or_create` after it created a row that the filter
   * selects returns the same record with `created == false`.
   */
  lemma {:induction false} GetOrCreateIdempotent(t: Table, defaults: Patch, filter: Filter, now: int, later: int)
    requires TableValid(t) && FitsColumns(defaults)
    requires GetOrCreateSpec(t, defaults, filter, now).0.Success?
    requires GetOrCreateSpec(t, defaults, filter, now).0.value.1
    requires Satisfies(t.nextId, NewRow(defaults, now), filter)
    ensures var (r, t') := GetOrCreateSpec(t, defaults, filter, now);
      GetOrCreateSpec(t', defaults, filter, later) == (Success((r.value.0, false)), t')
  {
    var (r, t') := GetOrCreateSpec(t, defaults, filter, now);
    var row := NewRow(defaults, now);
    assert Get(t.rows, filter) == Failure(NoResultFound);
    assert t'.rows == t.rows[t.nextId := row];
    MatchesAfterInsert(t.rows, t.nextId, row, filter);
    assert Matches(t'.rows, filter) == {t.nextId};
  }

  /** Inserting a row under a new key adds that key to what a filter selects, or nothing. */
  lemma MatchesAfterInsert(rows: Rows, k: nat, row: UserRow, filter: Filter)
    requires k !in rows
    ensures Matches(rows[k := row], filter) == Matches(rows, filter) + (if Satisfies(k, row, filter) then {k} else {})
  {
    var rows' := rows[k := row];
    forall j | j in Matches(rows', filter) ensures j in Matches(rows, filter) + (if Satisfies(k, row, filter) then {k} else {}) {
      assert j == k || (j in rows && rows'[j] == rows[j]);
    }
  }

  /**
   * Round trip: after `update`, `get(id=k)` returns the updated copy under
   * the key it was saved to. The returned copy is not refreshed, so when
   * it was inserted without a timestamp only the stored row has one.
   */
  lemma {:induction false} UpdateThenGet(t: Table, u: User, updates: Patch, now: int)
    requires FitsRecord(updates) && UpdateSpec(t, u, updates, now).0.Success?
    ensures var (r, t') := UpdateSpec(t, u, updates, now); var k := Target(t, u.id);
      var ts := if k in t.rows || r.value.accTokenTs.Some? then r.value.accTokenTs else Some(now);
      && r.value == Copy(u, updates)
      && Get(t'.rows, map[Id := Int(k)]) == Success(r.value.(id := Some(k as int), accTokenTs := ts))
  {
    SaveThenGet(t, Copy(u, updates), now);
  }

  /** A failed `update` leaves the table as it was; the only failure is a UNIQUE violation. */
  lemma UpdateFailsCleanly(t: Table, u: User, updates: Patch, now: int)
    requires FitsRecord(updates) && UpdateSpec(t, u, updates, now).0.Failure?
    ensures UpdateSpec(t, u, updates, now) == (Failure(IntegrityError), t)
    ensures Clashes(t.rows, Target(t, u.id), UpsertRow(t, Copy(u, updates), now))
  {
  }

  /**
   * The three users of the ORM tests: `get(username='john')` finds john's
   * token, an unknown name is NoResultFound, and a timestamp that two rows
   * share is MultipleResultsFound.
   */
  lemma {:induction false} TestDataset(ts: int, later: int)
    requires ts != later
    ensures var rows := map[
        1 := UserRow(Some("john"), None, Some("jtoken"), Some(ts)),
        2 := UserRow(Some("mary"), None, Some("mtoken"), Some(ts)),
        3 := UserRow(Some("peter"), None, Some("ptoken"), Some(later))];
      && Consistent(rows)
      && Get(rows, map[Username := Text("john")]).Success?
      && Get(rows, map[Username := Text("john")]).value.token == Some("jtoken")
      && Get(rows, map[Username := Text("another_name")]) == Failure(NoResultFound)
      && Get(rows, map[AccTokenTs := Int(ts)]) == Failure(MultipleResultsFound)
  {
    var rows := map[
        1 := UserRow(Some("john"), None, Some("jtoken"), Some(ts)),
        2 := UserRow(Some("mary"), None, Some("mtoken"), Some(ts)),
        3 := UserRow(Some("peter"), None, Some("ptoken"), Some(later))];
    assert Consistent(rows);
    UniqueColumnSelectsHolder(rows, Username, 1);
    var missing := map[Username := Text("another_name")];
    forall j | j in rows ensures !Satisfies(j, rows[j], missing) {
      assert Column(j, rows[j], Username) != Text("another_name");
    }
    assert Matches(rows, missing) == {};
    var byTs := map[AccTokenTs := Int(ts)];
    assert Satisfies(1, rows[1], byTs) && Satisfies(2, rows[2], byTs);
    TwoMembers(Matches(rows, byTs), 1, 2);
  }

  // ---------------------------------------------------------------- the session

  /** A database session over the `users` table. */
  class Session {
    var rows: Rows
    var nextId: nat

    function State(): Table
      reads this
    {
      Table(rows, nextId)
    }

    ghost predicate Valid()
      reads this
    {
      TableValid(State())
    }

    /** An empty table; SQLite hands out keys from 1. */
    constructor ()
      ensures Valid() && State() == Table(map[], 1)
    {
      rows, nextId := map[], 1;
    }

    /** `db.add(model); db.commit()`. */
    method Commit(k: nat, row: UserRow) returns (r: Result<()>)
      requires Valid() && (k in rows || k == nextId)
      modifies this
      ensures Valid()
      ensures var c := Committed(old(State()), k, row);
        if c.Success? then r == Success(()) && State() == c.value
        else r == Failure(c.error) && State() == old(State())
    {
      if Clashes(rows, k, row) {
        return Failure(IntegrityError);
      }
      var inserting := k !in rows;
      rows := rows[k := row];
      if inserting {
        nextId := nextId + 1;
      }
      r := Success(());
    }

    /** `BaseSchema.save`. */
    method Save(u: User, now: int) returns (r: Result<()>)
      requires Valid()
      modifies this
      ensures Valid()
      ensures var s := SaveSpec(old(State()), u, now);
        if s.Success? then r == Success(()) && State() == s.value
        else r == Failure(s.error) && State() == old(State())
    {
      var k: nat;
      var model: UserRow;
      if u.id.Some? && 0 <= u.id.value && u.id.value as nat in rows {
        k := u.id.value as nat;
        model := rows[k];
      } else {
        k := nextId;
        model := UserRow(None, None, None, None);
      }
      var updated := UpdatedColumns();
      for i := 0 to |RecordFields|
        invariant forall j :: 0 <= j < i && RecordFields[j] != Id ==> Cell(model, RecordFields[j]) == FieldValue(u, RecordFields[j])
      {
        var f := RecordFields[i];
        if f in updated {
          model := SetAttr(model, f, FieldValue(u, f));
        }
      }
      forall f | f != Id ensures Cell(model, f) == Cell(RowOf(u), f) {
        assert RecordFields[1] == Username && RecordFields[2] == RefreshToken;
        assert RecordFields[3] == Token && RecordFields[4] == AccTokenTs;
      }
      CellsDetermineRow(model, RowOf(u));
      if k !in rows {
        // the INSERT leaves a `None` timestamp out, so its column default applies
        model := Inserted(model, now);
      }
      r := Commit(k, model);
    }

    /** `BaseSchema.get_or_create`. */
    method GetOrCreate(defaults: Patch, filter: Filter, now: int) returns (r: Result<(User, bool)>)
      requires Valid() && FitsColumns(defaults)
      modifies this
      ensures Valid()
      ensures (r, State()) == GetOrCreateSpec(old(State()), defaults, filter, now)
    {
      var found := Get(rows, filter);
      if found.Success? {
        return Success((found.value, false));
      }
      if found.error != NoResultFound {
        return Failure(found.error);
      }
      var k := nextId;
      var model := NewRow(defaults, now);
      var committed := Commit(k, model);
      if committed.Failure? {
        return Failure(committed.error);
      }
      var created := FromRow(k, model);
      if created.Failure? {
        return Failure(created.error);
      }
      return Success((created.value, true));
    }

    /** `BaseSchema.update`. */
    method Update(u: User, updates: Patch, now: int) returns (r: Result<User>)
      requires Valid() && FitsRecord(updates)
      modifies this
      ensures Valid()
      ensures (r, State()) == UpdateSpec(old(State()), u, updates, now)
    {
      var n := Copy(u, updates);
      var saved := Save(n, now);
      if saved.Failure? {
        return Failure(saved.error);
      }
      return Success(n);
    }
  }
}
