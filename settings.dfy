/** `APISettings`: the fixed configuration of the application. */
module Settings {

  /** The default `detail` for each status code the application names. */
  const ResponseMessages: map<int, string> := map[
    200 := "Ok",
    400 := "Bad request",
    401 := "Unauthorized",
    404 := "Not found",
    500 := "Internal Server Error"]

  /** The `detail` used for a code the table does not name. */
  const FallbackMessage: string := "Something went wrong"

  /** How long an access token stays fresh, in minutes. */
  const AccessTokenLifetime: int := 2

  /** Timestamps are counted in seconds. */
  const SecondsPerMinute: int := 60

  const BaseUrl: string := "http://httpbin.org"

  const SimpleGetUrl: string := "/json"
  const AuthGetUrl: string := "/json"
  const ParamsGetUrl: string := "/json"
  const DynamicUrlGetUrl: string := "/delay/{uri}"
  const SavedGetUrl: string := "/json"
  const UpdatedGetUrl: string := "/json"
}
