# fast-api-framework: a verified model of the record store, the upstream client and the token gate

This project models the core of the FastAPI example application
`fast-api-framework` in Dafny. It covers four layers:

- **The generic record store** (`BaseSchema` over the `users` table).
  The table is a map from primary key to row, plus the counter that hands
  out the next key. The file is `base_schema.dfy`, with the row and
  record types in `user_model.dfy`.
  - `get`, `get_or_create` and `update` are specified by functions of the
    table.
  - `save`, `get_or_create` and `update` are methods of a `Session` class
    whose fields are the rows and the counter. Each method is proved to
    leave exactly the table that its specification function describes.
  - The UNIQUE columns `username`, `refresh_token` and `token` are
    enforced at commit time. A commit that breaks one fails with
    `IntegrityError` and leaves the table unchanged. NULL may repeat.
- **The upstream client** (`BaseInteractor`, `base_interactor.dfy`).
  - It builds the header set from the `auth` and `custom_key` arguments
    and forwards the other keyword arguments.
  - It maps what the transport reports to the uniform
    `{status_code, detail, data}` envelope.
  - The transport is a function parameter.
- **The token gate** (`auth` and `_get_access_token`, `common.dfy`).
  - It looks the bearer token up as a `refresh_token`.
  - An unknown token is a 404 "User not found".
  - A timestamp older than two minutes triggers one call of a refresh
    oracle. Otherwise the stored token is returned.
  - The gate reports the refresh calls it made, so "no upstream call" is
    a proved property.
- **The example interactor** (`ExampleInteractor`, `example_interactor.dfy`).
  - The GET examples, including the `/delay/{uri}` path formatting.
  - `load_user_from_db`.
  - `saved_get` and `updated_get`, the two calls that write what they
    receive through to the store, modelled as methods on a `Session`.

Time is an integer number of seconds, passed in as `now`. The access-token
lifetime is 2 minutes, or 120 seconds (`settings.dfy`).

Three behaviours of the code worth noting:

- `save` writes every non-`id` column of the record. No set of touched
  fields is kept. When it UPDATEs an existing row, a `None` field is
  written as NULL. When it INSERTs a new row, the ORM leaves `None`
  attributes out of the statement, so a `None` `acc_token_ts` receives its
  column default, the insert time (app/ORM/models/user_model.py:15).
- `acc_token_ts` is not monotonic. `update` and `updated_get` write
  whatever value they are given.
- `saved_get` and `updated_get` request `simple_get_url`, not their own
  `saved_get_url` and `updated_get_url`. All of these are `/json`.

## Model

| member | source | states |
|---|---|---|
| BaseSchema.One | app/ORM/schemas/base_schema.py:19 | `query(...).filter_by(...).one()`. It returns the key of the only selected row; zero matches is NoResultFound, more than one is MultipleResultsFound, and nothing else can happen |
| BaseSchema.FromRow | app/ORM/schemas/base_schema.py:20 | `from_orm` succeeds exactly when the row's `username` is not NULL; the record then carries the row's key and, as a row, equals the stored row; otherwise ValidationError |
| BaseSchema.Get | app/ORM/schemas/base_schema.py:17-20 | A successful `get` returns the record of the one selected row, with its key and its column values unchanged. Each failure (NoResultFound, MultipleResultsFound, ValidationError) comes with its exact condition, in both directions |
| BaseSchema.UniqueColumnSelectsAtMostOne | app/ORM/models/user_model.py:12-14 | On a table that keeps its UNIQUE constraints, a filter on one unique column with a non-NULL value selects at most one row, so `get` never reports MultipleResultsFound |
| BaseSchema.UniqueColumnSelectsHolder | app/ORM/models/user_model.py:12-14 | The same filter, built from a row's own non-NULL value, selects exactly that row |
| BaseSchema.IdSelectsRow | app/ORM/schemas/base_schema.py:40 | A filter on `id` selects the row with that key, or nothing if the table has no such key |
| BaseSchema.TestDataset | app/tests/test_orm.py:27-57 | For the three users of the ORM tests: `get(username='john')` finds `jtoken`, an unknown name is NoResultFound, and the timestamp shared by john and mary is MultipleResultsFound |
| BaseSchema.Committed | app/ORM/schemas/base_schema.py:29-30 | A commit of a row under a key fails with IntegrityError exactly when another row shares a non-NULL unique value with it. Otherwise the row is stored under the key, the counter advances only for a new key, and the store invariant is kept |
| BaseSchema.Target | app/ORM/schemas/base_schema.py:40-41 | The key `save` writes to: the record's `id` when the table holds it, else the next fresh key |
| BaseSchema.Inserted | app/ORM/models/user_model.py:15 | What an INSERT stores: every column as given, except that a NULL `acc_token_ts` receives the insert time; the stored timestamp is never NULL |
| BaseSchema.NewRow | app/ORM/schemas/base_schema.py:27-28 | `db_model(**defaults)`: each column named in `_defaults` gets that value and every other column is NULL, except `acc_token_ts`, which gets the insert time unless `_defaults` names a non-NULL value |
| BaseSchema.Copy | app/ORM/schemas/base_schema.py:35 | `self.copy(update=...)`: same `id`; every named field is replaced and every other field is kept |
| BaseSchema.UpdatedColumns | app/ORM/schemas/base_schema.py:50-57 | The loop collects exactly the table's column names other than `id` |
| BaseSchema.SetAttr | app/ORM/schemas/base_schema.py:44-45 | `setattr` on a row changes exactly the named column |
| BaseSchema.UpsertRow | app/ORM/schemas/base_schema.py:40-45 | The row `save` writes holds every non-`id` field of the record. Its timestamp is the record's for an UPDATE, and for an INSERT the record's or, when that is `None`, the insert time |
| BaseSchema.SaveSpec | app/ORM/schemas/base_schema.py:39-48 | `save` fails exactly when the written row breaks a UNIQUE constraint, and then with IntegrityError. On success the keys are the old ones plus the target key, the target row holds the record's non-`id` fields other than `acc_token_ts`, whose stored value `UpsertRow` gives, and the store invariant is kept |
| BaseSchema.SaveOverwrites | app/ORM/schemas/base_schema.py:39-48 | `save` of a record whose `id` is in the table overwrites every non-`id` column of that row with the record's values. The keys, the row count, the counter and all other rows are unchanged |
| BaseSchema.SaveInserts | app/ORM/schemas/base_schema.py:39-48 | `save` of a record whose `id` is `None` or unknown inserts exactly one row under the fresh key and advances the counter. The row holds the record's fields, with the insert time when its timestamp is `None`. The record's own `id` is never written, and every other row is unchanged |
| BaseSchema.SaveThenGet | app/ORM/schemas/base_schema.py:39-48 | Round trip: after `save`, `get(id=k)` returns the record, with `k` as its key. The timestamp is the record's, except that an inserted record with a `None` timestamp comes back with the insert time |
| BaseSchema.GetOrCreateSpec | app/ORM/schemas/base_schema.py:22-32 | When `get` finds the row (`created == False`) the table is unchanged, and so it is on every failure but ValidationError, which can come after the commit of the new row. A failure is MultipleResultsFound, ValidationError or IntegrityError, never NoResultFound. At most the fresh key is added, and the store invariant is kept |
| BaseSchema.MatchesAfterInsert | app/ORM/schemas/base_schema.py:19 | After a row is added under a new key, a filter selects what it selected before plus the new key exactly when the new row satisfies it |
| BaseSchema.GetOrCreateFinds | app/ORM/schemas/base_schema.py:24-25 | When `get` finds the row, `get_or_create` returns `(record, False)` and leaves the table unchanged |
| BaseSchema.GetOrCreatePropagates | app/ORM/schemas/base_schema.py:24-27 | Only NoResultFound is caught. MultipleResultsFound and ValidationError propagate with nothing inserted |
| BaseSchema.GetOrCreateInserts | app/ORM/schemas/base_schema.py:26-32 | On NoResultFound, exactly one row is inserted under the fresh key. It is built from `_defaults` alone, without the filter. The result is `(record, True)` with that key. A UNIQUE clash is IntegrityError with the table unchanged |
| BaseSchema.GetOrCreateIdempotent | app/ORM/schemas/base_schema.py:23-32 | A second `get_or_create` after one that created a row the filter selects returns the same record with `created == False` and changes nothing |
| BaseSchema.UpdateSpec | app/ORM/schemas/base_schema.py:34-37 | A successful `update` returns the copy with the updates applied and leaves the table that `save` of that copy leaves. A failure is IntegrityError with the table unchanged. The store invariant is kept |
| BaseSchema.UpdateThenGet | app/ORM/schemas/base_schema.py:34-37 | `update` returns the copy with the updates applied, and `get(id=k)` then finds it, with the insert time as timestamp when the copy is inserted with `None`. The original record is a value and is not changed |
| BaseSchema.UpdateRewritesStoredRow | app/ORM/schemas/base_schema.py:34-37 | An `update` that rewrites a stored row with the values it already holds succeeds and leaves the table exactly as it was |
| BaseSchema.UpdateFailsCleanly | app/ORM/schemas/base_schema.py:34-37 | A failed `update` is a UNIQUE clash of the copy and leaves the table as it was |
| BaseSchema.Session.Commit | app/ORM/schemas/base_schema.py:47-48 | The new state is the state `Committed` describes, or the old one on failure |
| BaseSchema.Session.Save | app/ORM/schemas/base_schema.py:39-48 | The fetch-or-new row, the `setattr` loop over the record's fields, the insert-time default for a new row and the commit leave exactly the table `SaveSpec` describes, and keep the store invariant |
| BaseSchema.Session.GetOrCreate | app/ORM/schemas/base_schema.py:22-32 | The result and the new table are those of `GetOrCreateSpec` |
| BaseSchema.Session.Update | app/ORM/schemas/base_schema.py:34-37 | The result and the new table are those of `UpdateSpec` |
| UserModel.RowOf | app/ORM/schemas/user_schema.py:21-23 | Every non-`id` column of the row holds the record's field value |
| UserModel.Dict | app/ORM/schemas/user_schema.py:11-18 | `UserValidator.dict()` has exactly the three fields, holding the validator's values; a `None` token is `None` (NULL), and the patch fits the columns |
| UserModel.CellsDetermineRow | app/ORM/models/user_model.py:11-15 | A row is determined by its non-`id` columns |
| UserModel.ConsistentMeansUniqueColumns | app/ORM/models/user_model.py:12-14 | The table-wide constraint implies each unique column's own uniqueness: two rows sharing a non-NULL value in it are the same row |
| BaseInteractor.Lookup | app/interactors/base.py:56-61 | Indexing an envelope succeeds exactly for the keys `status_code`, `detail` and `data`, giving the envelope's code, detail and data; any other key is KeyError |
| BaseInteractor.Index | app/utilities/common.py:33 | Indexing parsed JSON by a string succeeds exactly on an object that has the key. A missing key is KeyError; a value that is not an object is TypeError |
| BaseInteractor.AuthHeader | app/interactors/base.py:48-50 | A header exists exactly when `auth` is truthy, and it is `Authorization: Bearer: <auth>` |
| BaseInteractor.CustomHeader | app/interactors/base.py:52-54 | A header exists exactly when `custom_key` is truthy, and it is `X-Custom-Key: <custom_key>` |
| BaseInteractor.PopText | app/interactors/base.py:25-26 | `kwargs.pop(key, None)`: a value exactly when the key is present with a string, and then that string |
| BaseInteractor.HeaderDict | app/interactors/base.py:28 | `dict(h for h in headers if h)`: the keys are exactly the names of the present headers, and the last header with a name sets its value |
| BaseInteractor.Headers | app/interactors/base.py:23-28 | `Content-Type: application/json` is always present. `Authorization` and `X-Custom-Key` are present exactly when their argument is truthy, with the values above. No other header appears |
| BaseInteractor.BuildRequest | app/interactors/base.py:22-31 | The request carries the verb, the base URL, the path and the header set above. The forwarded keyword arguments are the caller's minus `auth` and `custom_key` |
| BaseInteractor.CreateResponse | app/interactors/base.py:56-61 | The envelope keeps the code and the data. `detail` is the message if it is non-empty, else the table's text for the code, else "Something went wrong", and it is never empty |
| BaseInteractor.ResponseEnvelope | app/interactors/base.py:33-43 | A status error gives the upstream code verbatim, the error text (or the table's fallback when empty) and no data. A body that is not JSON gives 500 with "Response is not JSON convertible: " and the cause. Parsed JSON gives 200 "Ok" with the document, whatever the success code was. A 200 envelope comes only from parsed JSON or an upstream 200 |
| BaseInteractor.SendRequest | app/interactors/base.py:22-43 | The request has the verb, the base URL and the path. Its keyword arguments are the caller's minus `auth` and `custom_key`. `Content-Type` is always present, and `Authorization` and `X-Custom-Key` exactly when their argument is non-empty. For the transport's report on that request: a status error gives its code, the error text or the table's fallback, and no data; a body that is not JSON gives `{500, "Response is not JSON convertible: <cause>", None}`; parsed JSON gives `{200, "Ok", <document>}` |
| BaseInteractor.Get | app/interactors/base.py:19-20 | `get` is `_send_request` with the verb GET and the path, so every property of SendRequest holds for it |
| BaseInteractor.Post | app/interactors/base.py:16-17 | `post` is `_send_request` with the verb POST and the path, so every property of SendRequest holds for it |
| Common.IsStale | app/utilities/common.py:29 | A timestamp is stale exactly when it is more than 120 seconds before `now` |
| Common.IssuedToken | app/utilities/common.py:33 | `result['data']['token']` succeeds exactly when `data` is an object with a `token` key, and returns that value. A `data` that is not an object is TypeError, and a missing key is KeyError `token` |
| Common.GetAccessToken | app/utilities/common.py:29-35 | A timestamp with `ts + 120 >= now` returns the stored token and makes no upstream call. An older one makes exactly one refresh call with `{'refresh_token': user.refresh_token}` and returns `data.token` of its reply. A missing timestamp is TypeError |
| Common.GetAccessTokenAsWritten | app/utilities/common.py:29-35 | As written, every stale token ends in AttributeError `refresh_token`, a fresh one returns the stored token, and a missing timestamp is TypeError |
| Common.StaleRefreshFailsAsWritten | app/utilities/common.py:32 | A user stored 121 seconds before `now`: the code as written raises AttributeError, while the corrected gate makes the one refresh call with the user's refresh token |
| Common.BoundaryIsFresh | app/utilities/common.py:29 | The boundary `acc_token_ts + TTL == now` is fresh, because the comparison is a strict `<` |
| Common.Auth | app/utilities/common.py:12-20 | The bearer token is looked up as a `refresh_token`. NoResultFound becomes 404 "User not found" with no upstream call; a found user goes through the staleness gate. Any other failure of `get` (MultipleResultsFound, ValidationError) escapes unchanged with no upstream call. The gate only reads the table, so no path writes the store |
| Common.AuthUnknownToken | app/utilities/common.py:15-17 | When no row holds the bearer token as its refresh token, the result is 404 with no upstream call, even if some row holds it as its access token |
| Common.AuthKnownToken | app/utilities/common.py:12-20 | On a table that keeps its constraints, the holder of the refresh token is the user the gate answers for. A holder with a NULL name is ValidationError |
| Common.AuthNeverAmbiguous | app/utilities/common.py:15 | On a table that keeps its constraints, `auth` never reports MultipleResultsFound |
| ExampleInteractor.Format | app/interactors/example.py:25 | A template without a brace is returned unchanged, and formatting with the value `{uri}` gives the template back |
| ExampleInteractor.FormatTrailingField | app/interactors/example.py:25 | Formatting a template that is a brace-free prefix followed by `{uri}` gives the prefix followed by the value |
| ExampleInteractor.DynamicUrlPath | app/interactors/example.py:25 | The formatted dynamic URL is `/delay/` followed by the segment |
| ExampleInteractor.SimpleGet | app/interactors/example.py:12-14 | `simple_get` sends a GET to `/json` with only the content-type header and nothing forwarded |
| ExampleInteractor.AuthGet | app/interactors/example.py:16-18 | The token becomes `Authorization: Bearer: <token>` exactly when it is not empty; there is no custom header and nothing is forwarded |
| ExampleInteractor.ParamsGet | app/interactors/example.py:20-22 | The query parameters are forwarded unchanged; the only header is the content type |
| ExampleInteractor.DynamicUrlGet | app/interactors/example.py:24-27 | `dynamic_url_get` requests `/delay/` followed by the segment |
| ExampleInteractor.LoadUserFromDb | app/interactors/example.py:29-36 | The matched record, or the envelope `{404, 'Not found', None}` exactly when nothing matches. Every other failure of `get` escapes unchanged |
| ExampleInteractor.LoadById | app/interactors/example.py:29-36 | Loading by a stored key returns that row's record; loading by an unknown key returns the 404 envelope |
| ExampleInteractor.GetByUsername | app/interactors/example.py:43-54 | On a table that keeps its constraints, `get(username=name)` succeeds exactly when some row holds the name, returns a record of that name, and otherwise fails only with NoResultFound |
| ExampleInteractor.HolderOf | app/interactors/example.py:43 | On a table that keeps its constraints, the key `get_or_create(username=name)` lands on: the row holding the name, else, when no row holds it, the next fresh key |
| ExampleInteractor.SameUniqueCellsNeverClash | app/interactors/example.py:58 | Rewriting a row with its own unique values never breaks a constraint |
| ExampleInteractor.OptionalText | app/ORM/schemas/user_schema.py:17-18 | An optional string field: absent or `null` is `None`, a string is kept, anything else is ValidationError |
| ExampleInteractor.ParseUserData | app/ORM/schemas/user_schema.py:11-18 | `UserValidator(**j)` succeeds exactly on an object with a string `username` and optional string tokens. A value that is not an object is TypeError; any other failure is ValidationError |
| ExampleInteractor.UserDataRoundTrip | app/ORM/schemas/user_schema.py:11-18 | A user record survives serialisation to JSON and validation back |
| ExampleInteractor.IndexPath | app/utilities/common.py:33 | A chain of string indexes: no key gives the value itself, one key is a single index |
| ExampleInteractor.ReadUser | app/interactors/example.py:42-51 | Reading the user from an envelope key that the envelope lacks is KeyError of that key. Reading it from `data['user_data']` is TypeError when `data` is not an object, KeyError `user_data` when it lacks the key, and otherwise the validation of that value |
| ExampleInteractor.SavedRow | app/interactors/example.py:43-44 | The row `saved_get` leaves holds the received name and tokens. Its timestamp is the existing row's, or the insert time for a new row |
| ExampleInteractor.SavedGetSpec | app/interactors/example.py:38-46 | A response that is not 200 is passed through with the store unchanged. A success returns the received envelope itself. At most the fresh key is added, and the store invariant is kept |
| ExampleInteractor.SavedGetPassesThrough | app/interactors/example.py:38-46 | A response that is not 200 is returned unchanged and the store is untouched |
| ExampleInteractor.SavedGetRejects | app/interactors/example.py:42 | A user record that is missing (KeyError `user_data`), sits in a `data` that is not an object (TypeError) or does not validate (ValidationError) escapes with that error before the store is touched |
| ExampleInteractor.SavedGetStores | app/interactors/example.py:38-46 | On 200 with a valid user and no UNIQUE clash, the user's row (found by name, else inserted) holds the received fields and keeps an existing timestamp or, when inserted, gets the insert time. It becomes the only row with that name, the store invariant holds, and the envelope is returned. A clash is IntegrityError with the store unchanged |
| ExampleInteractor.SavedGetUpdatesHolder | app/interactors/example.py:43-44 | When a row holds the received name, `saved_get` rewrites that row with the received fields and its own timestamp. A clash is IntegrityError with the store unchanged; otherwise the counter is kept and the row is the only one with the name |
| ExampleInteractor.SavedGetInsertsUser | app/interactors/example.py:43-44 | When no row holds the received name, `saved_get` inserts it under the fresh key with the insert time, and the `update` that follows rewrites the same row and changes nothing. A clash is IntegrityError with the store unchanged |
| ExampleInteractor.SavedGetInsertStep | app/interactors/example.py:43-44 | With no holder of the name, `get_or_create` followed by `update` leaves exactly the table with the new row under the fresh key, or IntegrityError with the table unchanged when that row clashes |
| ExampleInteractor.SavedGetAsWrittenRaises | app/interactors/example.py:42 | As written, every 200 response raises KeyError `user_data` and nothing is stored |
| ExampleInteractor.SavedGetJohn | app/interactors/example.py:42 | john's record in a 200 response is refused as written, while the corrected read stores it under key 1 of an empty table |
| ExampleInteractor.UpdatedGetSpec | app/interactors/example.py:48-59 | A response that is not 200 is passed through with the store unchanged. A success returns the received envelope or the 404 envelope. The keys and the counter never change, and the store invariant is kept |
| ExampleInteractor.UpdatedGetPassesThrough | app/interactors/example.py:48-59 | A response that is not 200 is returned unchanged and the store is untouched |
| ExampleInteractor.UpdatedGetTouches | app/interactors/example.py:48-59 | On 200 with a valid user, the holder of the name gets `acc_token_ts = now`, with nothing else in the store changed, and the envelope is returned. An unknown name is `{404, 'Not found', None}` with the store unchanged |
| ExampleInteractor.UpdatedGetAsWrittenRaises | app/interactors/example.py:51 | As written, every 200 response raises KeyError `user_data` and nothing is stamped |
| ExampleInteractor.SavedGet | app/interactors/example.py:38-46 | The session method, with the exchange to `/json`, leaves the result and the table that `SavedGetSpec` describes, keeping the store invariant |
| ExampleInteractor.UpdatedGet | app/interactors/example.py:48-59 | The session method leaves the result and the table that `UpdatedGetSpec` describes, keeping the store invariant |

## Left out

- The HTTP transport is a parameter: httpx, the `AsyncClient` lifecycle and the status classification of `raise_for_status`. The text of `str(e)` for a status error is part of what the transport reports. Connection and time-out exceptions of `client.request`, which `_send_request` does not catch, are not modelled: the transport always reports one of the three outcomes.
- Async/await, the database session's connection and refresh mechanics, and the race between two `get_or_create` calls for the same name. Each operation is one atomic step on the table.
- FastAPI routing, the OAuth2 dependency, the conversion of escaping exceptions to HTTP errors, and the route handlers' `{200, 201, 202}` check. Failures that escape are `Failure` results.
- `simple_post` and `auth_post`: their bodies are `pass`.
- `str(custom_key)` of a value that is not a string. `auth` and `custom_key` are required to be strings, as their annotations say.
- `_defaults` and `_updates` arguments that name `id`, and `_defaults`, `_updates` and `filter_by` arguments that name unknown columns. Patches name non-`id` columns of the table and hold values of the column's type; a filter may name `id`. An `_updates` of `{'username': None}` is excluded too, although the nullable `username` column would store it as NULL; no caller passes one.
- pydantic's coercion of JSON numbers and booleans to strings. Only JSON strings validate as string fields.
- Floating-point JSON numbers. JSON numbers are integers.
- Microsecond timestamps and the wall clock. Time is integer seconds, passed in as `now`.
- GetAccessToken: a missing `acc_token_ts` is modelled as TypeError, the error that `None + timedelta` raises. The shape of the refresh reply is unknown because the refresh call does not exist, so the reply is an oracle.
- Python's `str.format` in general. Format handles only the `{uri}` field; `/delay/{uri}` is the only template used.

## Findings

| source | as written | input that shows it | evidently intended | confidence | as-written member | corrected member |
|---|---|---|---|---|---|---|
| app/interactors/example.py:42-51 | `saved_get` and `updated_get` read `result['user_data']`, but the envelope from `_create_response` (app/interactors/base.py:57-61) has only `status_code`, `detail` and `data` | any upstream 200 response, for example `{200, "Ok", {"user_data": {"username": "john", ...}}}` | read the user record from `result['data']['user_data']`, the `user_data` object of the received body | not executed; the KeyError follows from the envelope's three keys | ExampleInteractor.SavedGetAsWrittenRaises | ExampleInteractor.SavedGet |
| app/utilities/common.py:32 | `_get_access_token` calls `ExampleInteractor.refresh_token`, a method `ExampleInteractor` does not define | a user whose `acc_token_ts` is 121 seconds before `now` | one call of an upstream refresh with the user's refresh token, returning `data.token` | not executed; AttributeError as soon as a stale user is seen | Common.GetAccessTokenAsWritten | Common.GetAccessToken |

`ExampleInteractor.UpdatedGetAsWrittenRaises` and `ExampleInteractor.UpdatedGet` are the same two halves of the first row for `updated_get`. `ExampleInteractor.SavedGetJohn` and `Common.StaleRefreshFailsAsWritten` turn each row's input into a concrete case of both halves.
