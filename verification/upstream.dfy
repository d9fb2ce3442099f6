/** The platform's own HTTP API as the handlers see it: the calls they issue
    and the results curl hands back, which are inputs to the model. */
module Upstream {
  import opened Wrappers
  import opened Php
  import opened Tables

  /** The platform base URL the handlers are configured with. */
  const CoolifyUrl: string := "https://coolify.jassweb.com"

  /** Prefix of every API endpoint. */
  const ApiV1: string := CoolifyUrl + "/api/v1/"

  datatype HttpMethod = HttpGet | HttpPost

  /** One request to the platform API, authorised with the caller's token
      as a bearer token. */
  datatype HttpCall = HttpCall(verb: HttpMethod, url: string, bearer: string)

  /** What curl reports for a call: the HTTP status (0 when nothing came
      back), the body (None when `curl_exec` returned false), the body after
      `json_decode(..., true)` (`Null` when it is not JSON), and the curl
      error message ("" when none). */
  datatype HttpResult = HttpResult(code: int, body: Option<string>, json: Value, curlError: string)

  predicate Is2xx(code: int) { 200 <= code < 300 }

  /** What a request leaves behind: the response, the store after it, and
      the platform API calls it issued, in order. */
  datatype Outcome<+R> = Outcome(response: R, store: Store, calls: seq<HttpCall>)
}
