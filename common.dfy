/**
 * The bearer-token gate: `auth` and `_get_access_token`.
 *
 * The gate reads a snapshot of the table and writes nothing. The call
 * that refreshes a stale token is an oracle parameter; the gate reports
 * the parameters of every refresh call it makes, so "no call" and
 * "exactly one call" are statements about its result.
 */
module Common {
  import opened Wrappers
  import opened Settings
  import opened UserModel
  import opened BaseSchema
  import opened BaseInteractor

  /** `timedelta(minutes=access_token_lifetime)`, in seconds. */
  const Ttl: int := AccessTokenLifetime * SecondsPerMinute

  /** `acc_token_ts + TTL < now`: strictly older than the lifetime. */
  predicate IsStale(ts: int, now: int): (r: bool)
    ensures r <==> now - ts > 120
  {
    ts + Ttl < now
  }

  /** The token the gate hands on: the stored one, or whatever the refresh returned under `token`. */
  datatype AccessToken = Stored(token: Option<string>) | Issued(value: Json)

  /** The `params` of a refresh call: `{'refresh_token': user.refresh_token}`. */
  type RefreshParams = map<string, Option<string>>

  /** The gate's answer, with the refresh calls it made, in order. */
  datatype Gate = Gate(result: Result<AccessToken>, refreshCalls: seq<RefreshParams>)

  /** `result['data']['token']` of a refresh envelope. */
  function IssuedToken(e: Envelope): (r: Result<AccessToken>)
    ensures e.data.JObj? && "token" in e.data.fields <==> r.Success?
    ensures r.Success? ==> r.value == Issued(e.data.fields["token"])
    ensures !e.data.JObj? ==> r == Failure(TypeError)
    ensures e.data.JObj? && "token" !in e.data.fields ==> r == Failure(KeyError("token"))
  {
    match Index(e.data, "token")
    case Success(v) => Success(Issued(v))
    case Failure(err) => Failure(err)
  }

  /**
   * `_get_access_token` with the refresh as an oracle: a stale token is
   * refreshed with one call, a fresh one is returned as stored.
   */
  function GetAccessToken(u: User, now: int, refresh: RefreshParams -> Envelope): (g: Gate)
    ensures u.accTokenTs.None? ==> g == Gate(Failure(TypeError), [])
    ensures u.accTokenTs.Some? && !IsStale(u.accTokenTs.value, now) ==>
      g == Gate(Success(Stored(u.token)), [])
    ensures u.accTokenTs.Some? && IsStale(u.accTokenTs.value, now) ==>
      && g.refreshCalls == [map["refresh_token" := u.refreshToken]]
      && g.result == IssuedToken(refresh(map["refresh_token" := u.refreshToken]))
    ensures |g.refreshCalls| <= 1
  {
    match u.accTokenTs
    case None => Gate(Failure(TypeError), [])  // `None + timedelta`
    case Some(ts) =>
      if IsStale(ts, now) then
        var params := map["refresh_token" := u.refreshToken];
        Gate(IssuedToken(refresh(params)), [params])
      else
        Gate(Success(Stored(u.token)), [])
  }

  /**
   * `_get_access_token` as the source has it: the refresh is a call of
   * `ExampleInteractor.refresh_token`, which `ExampleInteractor` does not
   * define, so every stale token ends in AttributeError.
   */
  function GetAccessTokenAsWritten(u: User, now: int): (r: Result<AccessToken>)
    ensures u.accTokenTs.None? ==> r == Failure(TypeError)
    ensures u.accTokenTs.Some? && IsStale(u.accTokenTs.value, now) ==> r == Failure(AttributeError("refresh_token"))
    ensures u.accTokenTs.Some? && !IsStale(u.accTokenTs.value, now) ==> r == Success(Stored(u.token))
  {
    match u.accTokenTs
    case None => Failure(TypeError)
    case Some(ts) =>
      if IsStale(ts, now) then Failure(AttributeError("refresh_token"))
      else Success(Stored(u.token))
  }

  /** A stale user: stored two minutes and one second before `now`. */
  lemma {:induction false} StaleRefreshFailsAsWritten(now: int)
    ensures var u := User(Some(1), "john", Some("jrefresh"), Some("jtoken"), Some(now - Ttl - 1));
      && GetAccessTokenAsWritten(u, now) == Failure(AttributeError("refresh_token"))
      && forall refresh: RefreshParams -> Envelope ::
           GetAccessToken(u, now, refresh).refreshCalls == [map["refresh_token" := Some("jrefresh")]]
  {
    var u := User(Some(1), "john", Some("jrefresh"), Some("jtoken"), Some(now - Ttl - 1));
    assert IsStale(now - Ttl - 1, now);
  }

  /** The boundary `acc_token_ts + TTL == now` is fresh: the test is a strict `<`. */
  lemma {:induction false} BoundaryIsFresh(u: User, now: int, refresh: RefreshParams -> Envelope)
    requires u.accTokenTs == Some(now - Ttl)
    ensures GetAccessToken(u, now, refresh) == Gate(Success(Stored(u.token)), [])
  {
    assert !IsStale(now - Ttl, now);
  }

  /** `auth`: look the bearer token up as a `refresh_token`; no such user is 404 "User not found". */
  function Auth(rows: Rows, token: string, now: int, refresh: RefreshParams -> Envelope): (g: Gate)
    ensures BaseSchema.Get(rows, map[RefreshToken := Text(token)]) == Failure(NoResultFound) ==>
      g == Gate(Failure(HttpError(404, "User not found")), [])
    ensures BaseSchema.Get(rows, map[RefreshToken := Text(token)]).Success? ==>
      g == GetAccessToken(BaseSchema.Get(rows, map[RefreshToken := Text(token)]).value, now, refresh)
    ensures BaseSchema.Get(rows, map[RefreshToken := Text(token)]).Failure? &&
            BaseSchema.Get(rows, map[RefreshToken := Text(token)]).error != NoResultFound ==>
      g == Gate(Failure(BaseSchema.Get(rows, map[RefreshToken := Text(token)]).error), [])
  {
    match BaseSchema.Get(rows, map[RefreshToken := Text(token)])
    case Success(u) => GetAccessToken(u, now, refresh)
    case Failure(e) =>
      if e == NoResultFound then Gate(Failure(HttpError(404, "User not found")), [])
      else Gate(Failure(e), [])
  }

  /**
   * Only `refresh_token` is consulted: when no row holds the bearer token
   * as its refresh token, `auth` is 404 and calls nothing upstream, even
   * if some row holds it as its access token.
   */
  lemma {:induction false} AuthUnknownToken(rows: Rows, token: string, now: int, refresh: RefreshParams -> Envelope)
    requires forall id :: id in rows ==> rows[id].refreshToken != Some(token)
    ensures Auth(rows, token, now, refresh) == Gate(Failure(HttpError(404, "User not found")), [])
  {
    var filter := map[RefreshToken := Text(token)];
    forall id | id in rows ensures !Satisfies(id, rows[id], filter) {
      assert Column(id, rows[id], RefreshToken) != Text(token);
    }
    assert Matches(rows, filter) == {};
  }

  /**
   * On a table that keeps its UNIQUE constraints, the user whose refresh
   * token is the bearer token is the one the gate answers for.
   */
  lemma {:induction false} AuthKnownToken(rows: Rows, id: nat, token: string, now: int, refresh: RefreshParams -> Envelope)
    requires Consistent(rows) && id in rows && rows[id].refreshToken == Some(token)
    ensures rows[id].username.Some? ==>
      Auth(rows, token, now, refresh) == GetAccessToken(FromRow(id, rows[id]).value, now, refresh)
    ensures rows[id].username.None? ==> Auth(rows, token, now, refresh) == Gate(Failure(ValidationError), [])
  {
    UniqueColumnSelectsHolder(rows, RefreshToken, id);
  }

  /** On a consistent table `auth` never reports MultipleResultsFound. */
  lemma {:induction false} AuthNeverAmbiguous(rows: Rows, token: string, now: int, refresh: RefreshParams -> Envelope)
    requires Consistent(rows)
    ensures Auth(rows, token, now, refresh).result != Failure(MultipleResultsFound)
  {
    UniqueColumnSelectsAtMostOne(rows, RefreshToken, Text(token));
    var g := BaseSchema.Get(rows, map[RefreshToken := Text(token)]);
    if g.Success? {
      assert GetAccessToken(g.value, now, refresh).result.Failure? ==>
        GetAccessToken(g.value, now, refresh).result.error in {TypeError, KeyError("token")};
    }
  }
}
