/**
 * `ExampleInteractor`: the example calls of the upstream API and the two
 * that persist what they receive.
 *
 * The upstream exchange is a function of a transport oracle; the store is
 * a `Session`. `saved_get` and `updated_get` are methods on the session,
 * each proved equal to a function of the old table (`SavedGetSpec`,
 * `UpdatedGetSpec`) that the lemmas below characterise.
 */
module ExampleInteractor {
  import opened Wrappers
  import opened Settings
  import opened UserModel
  import opened BaseSchema
  import opened BaseInteractor

  // ---------------------------------------------------------------- URLs

  /** `str.format(uri=uri)` for a template whose only field is `{uri}`. */
  function Format(template: string, uri: string): (r: string)
    ensures (forall i :: 0 <= i < |template| ==> template[i] != '{') ==> r == template
    ensures uri == "{uri}" ==> r == template
    decreases |template|
  {
    if |template| >= 5 && template[..5] == "{uri}" then
      assert template == template[..5] + template[5..] && template[0] == template[..5][0] == '{';
      uri + Format(template[5..], uri)
    else if template == [] then []
    else
      assert forall i :: 0 <= i < |template| - 1 ==> template[1..][i] == template[i + 1];
      [template[0]] + Format(template[1..], uri)
  }

  /** A template ending in the field is its literal prefix followed by the value. */
  lemma {:induction false} FormatTrailingField(prefix: string, uri: string)
    requires forall i :: 0 <= i < |prefix| ==> prefix[i] != '{'
    ensures Format(prefix + "{uri}", uri) == prefix + uri
    decreases |prefix|
  {
    if prefix == [] {
      assert prefix + "{uri}" == "{uri}";
    } else {
      var s := prefix + "{uri}";
      assert s[0] == '{' ==> false;
      assert s[..5] != "{uri}" by { assert s[..5][0] == s[0]; }
      assert s[1..] == prefix[1..] + "{uri}";
      FormatTrailingField(prefix[1..], uri);
    }
  }

  /** `dynamic_url_get_url.format(uri=uri)`. */
  function DynamicUrlPath(uri: string): (path: string)
    ensures path == "/delay/" + uri
  {
    FormatTrailingField("/delay/", uri);
    assert DynamicUrlGetUrl == "/delay/" + "{uri}";
    Format(DynamicUrlGetUrl, uri)
  }

  // ---------------------------------------------------------------- GET examples

  /** `simple_get`: no headers beyond the content type, nothing forwarded. */
  function SimpleGet(transport: Request -> Outcome): (x: Exchange)
    ensures x.request == Request("GET", BaseUrl, SimpleGetUrl, map["Content-Type" := "application/json"], map[])
    ensures x.envelope == ResponseEnvelope(transport(x.request))
  {
    BaseInteractor.Get(SimpleGetUrl, map[], transport)
  }

  /** `auth_get`: the token as a bearer header, when it is not empty. */
  function AuthGet(token: string, transport: Request -> Outcome): (x: Exchange)
    ensures x.request.verb == "GET" && x.request.path == AuthGetUrl && x.request.kwargs == map[]
    ensures "Authorization" in x.request.headers <==> token != ""
    ensures token != "" ==> x.request.headers["Authorization"] == "Bearer: " + token
    ensures "X-Custom-Key" !in x.request.headers
    ensures x.envelope == ResponseEnvelope(transport(x.request))
  {
    var kwargs: Kwargs := map["auth" := Str(token)];
    assert kwargs - {"auth", "custom_key"} == map[];
    BaseInteractor.Get(AuthGetUrl, kwargs, transport)
  }

  /** `params_get`: the query parameters are forwarded untouched. */
  function ParamsGet(params: map<string, string>, transport: Request -> Outcome): (x: Exchange)
    ensures x.request.verb == "GET" && x.request.path == ParamsGetUrl
    ensures x.request.kwargs == map["params" := Query(params)]
    ensures x.request.headers == map["Content-Type" := "application/json"]
    ensures x.envelope == ResponseEnvelope(transport(x.request))
  {
    var kwargs: Kwargs := map["params" := Query(params)];
    assert kwargs - {"auth", "custom_key"} == kwargs;
    BaseInteractor.Get(ParamsGetUrl, kwargs, transport)
  }

  /** `dynamic_url_get`: the caller's segment is placed after `/delay/`. */
  function DynamicUrlGet(uri: string, transport: Request -> Outcome): (x: Exchange)
    ensures x.request.verb == "GET" && x.request.path == "/delay/" + uri && x.request.kwargs == map[]
    ensures x.request.headers == map["Content-Type" := "application/json"]
    ensures x.envelope == ResponseEnvelope(transport(x.request))
  {
    BaseInteractor.Get(DynamicUrlPath(uri), map[], transport)
  }

  // ---------------------------------------------------------------- reading the store

  /** What `load_user_from_db` returns: a record, or a response envelope. */
  datatype Loaded = Record(user: User) | Response(envelope: Envelope)

  /** `load_user_from_db`: only NoResultFound becomes a 404 envelope; every other failure escapes. */
  function LoadUserFromDb(rows: Rows, filter: Filter): (r: Result<Loaded>)
    ensures r.Success? && r.value.Record? <==> BaseSchema.Get(rows, filter).Success?
    ensures r.Success? && r.value.Record? ==> r.value.user == BaseSchema.Get(rows, filter).value
    ensures r == Success(Response(Envelope(404, "Not found", JNull))) <==> Matches(rows, filter) == {}
    ensures r.Failure? <==> |Matches(rows, filter)| > 1 || BaseSchema.Get(rows, filter) == Failure(ValidationError)
    ensures r.Failure? ==> r.error == BaseSchema.Get(rows, filter).error
  {
    match BaseSchema.Get(rows, filter)
    case Success(u) => Success(Record(u))
    case Failure(e) =>
      if e == NoResultFound then Success(Response(CreateResponse(404, None, JNull)))
      else Failure(e)
  }

  /** Loading by primary key: the stored row's record, or 404 for a key the table does not hold. */
  lemma {:induction false} LoadById(rows: Rows, id: nat)
    ensures id in rows && rows[id].username.Some? ==>
      LoadUserFromDb(rows, map[Id := Int(id)]) == Success(Record(FromRow(id, rows[id]).value))
    ensures id !in rows ==> LoadUserFromDb(rows, map[Id := Int(id)]) == Success(Response(Envelope(404, "Not found", JNull)))
  {
    IdSelectsRow(rows, id);
  }

  /**
   * `User.get(username=name)` on a table that keeps its constraints: the
   * holder of the name, or NoResultFound when no row holds it.
   */
  lemma {:induction false} GetByUsername(rows: Rows, name: string)
    requires Consistent(rows)
    ensures var g := BaseSchema.Get(rows, map[Username := Text(name)]);
      && (g.Success? <==> exists k :: k in rows && rows[k].username == Some(name))
      && (g.Failure? ==> g.error == NoResultFound)
      && (g.Success? ==> g.value.username == name)
  {
    var filter := map[Username := Text(name)];
    UniqueColumnSelectsAtMostOne(rows, Username, Text(name));
    if k :| k in rows && rows[k].username == Some(name) {
      UniqueColumnSelectsHolder(rows, Username, k);
    } else {
      forall j | j in rows ensures !Satisfies(j, rows[j], filter) {
        assert Column(j, rows[j], Username) != Text(name);
      }
      assert Matches(rows, filter) == {};
    }
  }

  /**
   * The key `get_or_create(username=name)` lands on: the holder of the
   * name, else the key the next insert receives.
   */
  function HolderOf(t: Table, name: string): (k: nat)
    requires TableValid(t)
    ensures k in t.rows || k == t.nextId
    ensures k in t.rows ==> t.rows[k].username == Some(name)
    ensures k !in t.rows ==> forall j :: j in t.rows ==> t.rows[j].username != Some(name)
  {
    GetByUsername(t.rows, name);
    match BaseSchema.Get(t.rows, map[Username := Text(name)])
    case Success(u) => u.id.value as nat
    case Failure(_) => t.nextId
  }

  /** Keeping a row's UNIQUE cells never breaks a constraint. */
  lemma {:induction false} SameUniqueCellsNeverClash(rows: Rows, k: nat, row: UserRow)
    requires Consistent(rows) && k in rows
    requires row.username == rows[k].username && row.refreshToken == rows[k].refreshToken && row.token == rows[k].token
    ensures !Clashes(rows, k, row)
  {
    forall j | j in rows && j != k ensures !Collide(rows[j], row) {
      assert !Collide(rows[j], rows[k]);
    }
  }

  // ---------------------------------------------------------------- the user record of a response

  /** An optional string field of a `UserValidator`: absent or `null` is `None`. */
  function OptionalText(fields: map<string, Json>, name: string): (r: Result<Option<string>>)
    ensures r.Success? <==> name !in fields || fields[name].JNull? || fields[name].JStr?
    ensures r.Success? ==> r.value == if name in fields && fields[name].JStr? then Some(fields[name].s) else None
    ensures r.Failure? ==> r.error == ValidationError
  {
    if name !in fields then Success(None)
    else match fields[name]
      case JNull => Success(None)
      case JStr(s) => Success(Some(s))
      case _ => Failure(ValidationError)
  }

  /** `UserValidator(**j)`: a JSON object with a string `username`; other keys are ignored. */
  function ParseUserData(j: Json): (r: Result<UserData>)
    ensures !j.JObj? ==> r == Failure(TypeError)
    ensures j.JObj? ==>
      (r.Success? <==>
        && "username" in j.fields && j.fields["username"].JStr?
        && OptionalText(j.fields, "refresh_token").Success?
        && OptionalText(j.fields, "token").Success?)
    ensures j.JObj? && r.Failure? ==> r.error == ValidationError
    ensures r.Success? ==> r.value == UserData(j.fields["username"].s,
      OptionalText(j.fields, "refresh_token").value, OptionalText(j.fields, "token").value)
  {
    match j
    case JObj(fields) =>
      if "username" !in fields || !fields["username"].JStr? then Failure(ValidationError)
      else
        (match (OptionalText(fields, "refresh_token"), OptionalText(fields, "token"))
         case (Success(refresh), Success(token)) => Success(UserData(fields["username"].s, refresh, token))
         case (Failure(e), _) => Failure(e)
         case (_, Failure(e)) => Failure(e))
    case _ => Failure(TypeError)
  }

  function OptionalJson(o: Option<string>): Json {
    match o
    case None => JNull
    case Some(s) => JStr(s)
  }

  /** The JSON object `UserValidator.dict()` serialises to. */
  function UserDataJson(d: UserData): Json {
    JObj(map["username" := JStr(d.username), "refresh_token" := OptionalJson(d.refreshToken), "token" := OptionalJson(d.token)])
  }

  /** Round trip: a user record survives serialisation and validation. */
  lemma {:induction false} UserDataRoundTrip(d: UserData)
    ensures ParseUserData(UserDataJson(d)) == Success(d)
  {
    var fields := UserDataJson(d).fields;
    assert fields["username"] == JStr(d.username);
    assert OptionalText(fields, "refresh_token") == Success(d.refreshToken);
    assert OptionalText(fields, "token") == Success(d.token);
  }

  /** `value[k0][k1]...` on parsed JSON. */
  function IndexPath(j: Json, keys: seq<string>): (r: Result<Json>)
    ensures keys == [] ==> r == Success(j)
    ensures |keys| == 1 ==> r == Index(j, keys[0])
    decreases |keys|
  {
    if keys == [] then Success(j)
    else
      match Index(j, keys[0])
      case Failure(e) => Failure(e)
      case Success(v) => IndexPath(v, keys[1..])
  }

  /** Where the user record sits: `result['data']['user_data']`, the received body's `user_data`. */
  const UserDataPath: seq<string> := ["data", "user_data"]

  /** Where the source reads it: `result['user_data']`, a key no envelope has. */
  const UserDataPathAsWritten: seq<string> := ["user_data"]

  /** `UserValidator(**result[path[0]][path[1]]...)`. */
  function ReadUser(result: Envelope, path: seq<string>): (r: Result<UserData>)
    requires path != []
    ensures path[0] !in EnvelopeKeys ==> r == Failure(KeyError(path[0]))
    ensures path == UserDataPath && !result.data.JObj? ==> r == Failure(TypeError)
    ensures path == UserDataPath && result.data.JObj? && "user_data" !in result.data.fields ==>
      r == Failure(KeyError("user_data"))
    ensures path == UserDataPath && result.data.JObj? && "user_data" in result.data.fields ==>
      r == ParseUserData(result.data.fields["user_data"])
  {
    match Lookup(result, path[0])
    case Failure(e) => Failure(e)
    case Success(j) =>
      assert path == UserDataPath ==> path[1..] == ["user_data"];
      match IndexPath(j, path[1..])
      case Failure(e) => Failure(e)
      case Success(v) => ParseUserData(v)
  }

  // ---------------------------------------------------------------- saved_get

  /**
   * `saved_get` after the exchange: on status 200, `get_or_create` the
   * received user by name, then `update` it with the received fields.
   * A failure is an exception that escapes to the caller.
   */
  function SavedGetSpec(t: Table, result: Envelope, path: seq<string>, now: int): (rt: (Result<Envelope>, Table))
    requires path != []
    ensures result.statusCode != 200 ==> rt == (Success(result), t)
    ensures rt.0.Success? ==> rt.0.value == result
    ensures rt.1.rows.Keys <= t.rows.Keys + {t.nextId}
    ensures TableValid(t) ==> TableValid(rt.1)
  {
    if result.statusCode != 200 then (Success(result), t)
    else
      match ReadUser(result, path)
      case Failure(e) => (Failure(e), t)
      case Success(d) =>
        var (created, t1) := GetOrCreateSpec(t, Dict(d), map[Username := Text(d.username)], now);
        match created
        case Failure(e) => (Failure(e), t1)
        case Success((u, _)) =>
          var (updated, t2) := UpdateSpec(t1, u, Dict(d), now);
          match updated
          case Failure(e) => (Failure(e), t2)
          case Success(_) => (Success(result), t2)
  }

  /** The row `saved_get` leaves: the received fields, and the holder's timestamp or the insert time. */
  function SavedRow(t: Table, d: UserData, now: int): (row: UserRow)
    requires TableValid(t)
    ensures row.username == Some(d.username) && row.refreshToken == d.refreshToken && row.token == d.token
    ensures HolderOf(t, d.username) in t.rows ==> row.accTokenTs == t.rows[HolderOf(t, d.username)].accTokenTs
    ensures HolderOf(t, d.username) !in t.rows ==> row.accTokenTs == Some(now)
  {
    var k := HolderOf(t, d.username);
    UserRow(Some(d.username), d.refreshToken, d.token, if k in t.rows then t.rows[k].accTokenTs else Some(now))
  }

  /** A response that is not 200 is passed through and the store is not touched. */
  lemma SavedGetPassesThrough(t: Table, result: Envelope, path: seq<string>, now: int)
    requires path != [] && result.statusCode != 200
    ensures SavedGetSpec(t, result, path, now) == (Success(result), t)
  {
  }

  /** A user record that does not validate escapes before the store is touched. */
  lemma SavedGetRejects(t: Table, result: Envelope, now: int)
    requires result.statusCode == 200 && ReadUser(result, UserDataPath).Failure?
    ensures SavedGetSpec(t, result, UserDataPath, now) == (Failure(ReadUser(result, UserDataPath).error), t)
    ensures ReadUser(result, UserDataPath).error in {TypeError, KeyError("user_data"), ValidationError}
  {
  }

  /**
   * `saved_get` on a 200 response carrying a valid user: the user's row
   * (found by name, else inserted) ends up holding the received fields,
   * and is the one row with that name; a UNIQUE clash leaves the store
   * as it was.
   */
  lemma {:induction false} SavedGetStores(t: Table, result: Envelope, now: int)
    requires TableValid(t) && result.statusCode == 200 && ReadUser(result, UserDataPath).Success?
    ensures var d := ReadUser(result, UserDataPath).value;
      var k := HolderOf(t, d.username); var row := SavedRow(t, d, now);
      var (r, t') := SavedGetSpec(t, result, UserDataPath, now);
      && (Clashes(t.rows, k, row) ==> r == Failure(IntegrityError) && t' == t)
      && (!Clashes(t.rows, k, row) ==>
            && r == Success(result)
            && t'.rows == t.rows[k := row]
            && t'.nextId == (if k in t.rows then t.nextId else t.nextId + 1)
            && TableValid(t')
            && Matches(t'.rows, map[Username := Text(d.username)]) == {k})
  {
    var d := ReadUser(result, UserDataPath).value;
    GetByUsername(t.rows, d.username);
    if BaseSchema.Get(t.rows, map[Username := Text(d.username)]).Success? {
      SavedGetUpdatesHolder(t, result, now, d);
    } else {
      SavedGetInsertsUser(t, result, now, d);
    }
  }

  /** The found path of `SavedGetStores`: `get_or_create` finds the holder and `update` rewrites its row. */
  lemma {:induction false} SavedGetUpdatesHolder(t: Table, result: Envelope, now: int, d: UserData)
    requires TableValid(t) && result.statusCode == 200 && ReadUser(result, UserDataPath) == Success(d)
    requires BaseSchema.Get(t.rows, map[Username := Text(d.username)]).Success?
    ensures var k := HolderOf(t, d.username); var row := SavedRow(t, d, now);
      var (r, t') := SavedGetSpec(t, result, UserDataPath, now);
      && k in t.rows
      && (Clashes(t.rows, k, row) ==> r == Failure(IntegrityError) && t' == t)
      && (!Clashes(t.rows, k, row) ==>
            && r == Success(result) && t' == Table(t.rows[k := row], t.nextId) && TableValid(t')
            && Matches(t'.rows, map[Username := Text(d.username)]) == {k})
  {
    var filter := map[Username := Text(d.username)];
    var u := BaseSchema.Get(t.rows, filter).value;
    var k := HolderOf(t, d.username);
    var row := SavedRow(t, d, now);
    GetByUsername(t.rows, d.username);
    assert k == u.id.value as nat;
    assert GetOrCreateSpec(t, Dict(d), filter, now) == (Success((u, false)), t);
    var n := Copy(u, Dict(d));
    assert Target(t, u.id) == k;
    assert UpsertRow(t, n, now) == row;
    if !Clashes(t.rows, k, row) {
      UniqueColumnSelectsHolder(t.rows[k := row], Username, k);
    }
  }

  /** The insert path of `SavedGetStores`: `get_or_create` inserts the user and `update` rewrites the same row. */
  lemma {:induction false} SavedGetInsertsUser(t: Table, result: Envelope, now: int, d: UserData)
    requires TableValid(t) && result.statusCode == 200 && ReadUser(result, UserDataPath) == Success(d)
    requires BaseSchema.Get(t.rows, map[Username := Text(d.username)]) == Failure(NoResultFound)
    ensures var k := HolderOf(t, d.username); var row := SavedRow(t, d, now);
      var (r, t') := SavedGetSpec(t, result, UserDataPath, now);
      && k == t.nextId && k !in t.rows
      && (Clashes(t.rows, k, row) ==> r == Failure(IntegrityError) && t' == t)
      && (!Clashes(t.rows, k, row) ==>
            && r == Success(result) && t' == Table(t.rows[k := row], t.nextId + 1) && TableValid(t')
            && Matches(t'.rows, map[Username := Text(d.username)]) == {k})
  {
    var k := HolderOf(t, d.username);
    var row := SavedRow(t, d, now);
    GetByUsername(t.rows, d.username);
    assert k == t.nextId && k !in t.rows;
    assert NewRow(Dict(d), now) == row;
    SavedGetInsertStep(t, result, now, d);
    if !Clashes(t.rows, k, row) {
      UniqueColumnSelectsHolder(t.rows[k := row], Username, k);
    }
  }

  /** The two calls of the insert path: `get_or_create` inserts the new row and `update` rewrites it unchanged. */
  lemma {:induction false} SavedGetInsertStep(t: Table, result: Envelope, now: int, d: UserData)
    requires TableValid(t) && result.statusCode == 200 && ReadUser(result, UserDataPath) == Success(d)
    requires BaseSchema.Get(t.rows, map[Username := Text(d.username)]) == Failure(NoResultFound)
    ensures var row := NewRow(Dict(d), now);
      && (Clashes(t.rows, t.nextId, row) ==> SavedGetSpec(t, result, UserDataPath, now) == (Failure(IntegrityError), t))
      && (!Clashes(t.rows, t.nextId, row) ==>
            SavedGetSpec(t, result, UserDataPath, now) == (Success(result), Table(t.rows[t.nextId := row], t.nextId + 1)))
  {
    var filter := map[Username := Text(d.username)];
    var patch := Dict(d);
    var k := t.nextId;
    var row := NewRow(patch, now);
    GetOrCreateInserts(t, patch, filter, now);
    if !Clashes(t.rows, k, row) {
      var t1 := GetOrCreateSpec(t, patch, filter, now).1;
      assert t1 == Table(t.rows[k := row], t.nextId + 1);
      var u := FromRow(k, row).value;
      assert Target(t1, u.id) == k;
      assert UpsertRow(t1, Copy(u, patch), now) == row;
      UpdateRewritesStoredRow(t1, u, patch, now);
    }
  }

  /** As written, every 200 response raises KeyError('user_data') and nothing is stored. */
  lemma SavedGetAsWrittenRaises(t: Table, result: Envelope, now: int)
    requires result.statusCode == 200
    ensures SavedGetSpec(t, result, UserDataPathAsWritten, now) == (Failure(KeyError("user_data")), t)
  {
  }

  /** john's record in a 200 response: stored under key 1 of an empty table, but refused as written. */
  lemma {:induction false} SavedGetJohn(now: int)
    ensures var d := UserData("john", Some("jrefresh"), Some("jtoken"));
      var result := Envelope(200, "Ok", JObj(map["user_data" := UserDataJson(d)]));
      && SavedGetSpec(Table(map[], 1), result, UserDataPathAsWritten, now) == (Failure(KeyError("user_data")), Table(map[], 1))
      && SavedGetSpec(Table(map[], 1), result, UserDataPath, now) ==
           (Success(result), Table(map[1 := UserRow(Some("john"), Some("jrefresh"), Some("jtoken"), Some(now))], 2))
  {
    var d := UserData("john", Some("jrefresh"), Some("jtoken"));
    var result := Envelope(200, "Ok", JObj(map["user_data" := UserDataJson(d)]));
    var t := Table(map[], 1);
    UserDataRoundTrip(d);
    SavedGetStores(t, result, now);
    assert !Clashes(t.rows, 1, SavedRow(t, d, now));
  }

  // ---------------------------------------------------------------- updated_get

  /**
   * `updated_get` after the exchange: on status 200, find the received
   * user by name and stamp its access-token time with `now`; an unknown
   * name is answered with a 404 envelope.
   */
  function UpdatedGetSpec(t: Table, result: Envelope, path: seq<string>, now: int): (rt: (Result<Envelope>, Table))
    requires path != []
    ensures result.statusCode != 200 ==> rt == (Success(result), t)
    ensures rt.0.Success? ==> rt.0.value == result || rt.0.value == Envelope(404, "Not found", JNull)
    ensures rt.1.rows.Keys == t.rows.Keys && rt.1.nextId == t.nextId
    ensures TableValid(t) ==> TableValid(rt.1)
  {
    if result.statusCode != 200 then (Success(result), t)
    else
      match ReadUser(result, path)
      case Failure(e) => (Failure(e), t)
      case Success(d) =>
        match BaseSchema.Get(t.rows, map[Username := Text(d.username)])
        case Failure(e) =>
          if e == NoResultFound then (Success(CreateResponse(404, None, JNull)), t) else (Failure(e), t)
        case Success(u) =>
          var (updated, t1) := UpdateSpec(t, u, map[AccTokenTs := Int(now)], now);
          match updated
          case Failure(e) => (Failure(e), t1)
          case Success(_) => (Success(result), t1)
  }

  /** A response that is not 200 is passed through and the store is not touched. */
  lemma UpdatedGetPassesThrough(t: Table, result: Envelope, path: seq<string>, now: int)
    requires path != [] && result.statusCode != 200
    ensures UpdatedGetSpec(t, result, path, now) == (Success(result), t)
  {
  }

  /**
   * `updated_get` on a 200 response carrying a valid user: the holder of
   * the name gets `acc_token_ts = now` and nothing else changes; an
   * unknown name is a 404 envelope with the store untouched.
   */
  lemma {:induction false} UpdatedGetTouches(t: Table, result: Envelope, now: int)
    requires TableValid(t) && result.statusCode == 200 && ReadUser(result, UserDataPath).Success?
    ensures var name := ReadUser(result, UserDataPath).value.username;
      var k := HolderOf(t, name);
      var (r, t') := UpdatedGetSpec(t, result, UserDataPath, now);
      && (k in t.rows ==>
            && r == Success(result)
            && t' == Table(t.rows[k := t.rows[k].(accTokenTs := Some(now))], t.nextId)
            && TableValid(t'))
      && (k !in t.rows ==> r == Success(Envelope(404, "Not found", JNull)) && t' == t)
  {
    var name := ReadUser(result, UserDataPath).value.username;
    var k := HolderOf(t, name);
    GetByUsername(t.rows, name);
    var g := BaseSchema.Get(t.rows, map[Username := Text(name)]);
    if g.Success? {
      var u := g.value;
      assert k == u.id.value as nat;
      var row := t.rows[k].(accTokenTs := Some(now));
      assert RowOf(Copy(u, map[AccTokenTs := Int(now)])) == row;
      assert Target(t, u.id) == k;
      SameUniqueCellsNeverClash(t.rows, k, row);
    }
  }

  /** As written, every 200 response raises KeyError('user_data') and nothing is stamped. */
  lemma UpdatedGetAsWrittenRaises(t: Table, result: Envelope, now: int)
    requires result.statusCode == 200
    ensures UpdatedGetSpec(t, result, UserDataPathAsWritten, now) == (Failure(KeyError("user_data")), t)
  {
  }

  // ---------------------------------------------------------------- the interactor on a session

  /** `saved_get`: the exchange with the simple-get URL, then the store. */
  method SavedGet(db: Session, transport: Request -> Outcome, now: int) returns (r: Result<Envelope>)
    requires db.Valid()
    modifies db
    ensures db.Valid()
    ensures (r, db.State()) == SavedGetSpec(old(db.State()), SimpleGet(transport).envelope, UserDataPath, now)
  {
    var result := BaseInteractor.Get(SimpleGetUrl, map[], transport).envelope;
    if result.statusCode != 200 {
      return Success(result);
    }
    var read := ReadUser(result, UserDataPath);
    if read.Failure? {
      return Failure(read.error);
    }
    var d := read.value;
    var created := db.GetOrCreate(Dict(d), map[Username := Text(d.username)], now);
    if created.Failure? {
      return Failure(created.error);
    }
    var updated := db.Update(created.value.0, Dict(d), now);
    if updated.Failure? {
      return Failure(updated.error);
    }
    return Success(result);
  }

  /** `updated_get`: the exchange with the simple-get URL, then the timestamp. */
  method UpdatedGet(db: Session, transport: Request -> Outcome, now: int) returns (r: Result<Envelope>)
    requires db.Valid()
    modifies db
    ensures db.Valid()
    ensures (r, db.State()) == UpdatedGetSpec(old(db.State()), SimpleGet(transport).envelope, UserDataPath, now)
  {
    var result := BaseInteractor.Get(SimpleGetUrl, map[], transport).envelope;
    if result.statusCode != 200 {
      return Success(result);
    }
    var read := ReadUser(result, UserDataPath);
    if read.Failure? {
      return Failure(read.error);
    }
    var found := BaseSchema.Get(db.rows, map[Username := Text(read.value.username)]);
    if found.Failure? {
      if found.error == NoResultFound {
        return Success(CreateResponse(404, None, JNull));
      }
      return Failure(found.error);
    }
    var updated := db.Update(found.value, map[AccTokenTs := Int(now)], now);
    if updated.Failure? {
      return Failure(updated.error);
    }
    return Success(result);
  }
}
