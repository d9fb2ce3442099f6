# coolapi in Dafny

coolapi is a set of four PHP request handlers that sit beside a Coolify
control plane. They read and write Coolify's PostgreSQL tables directly and
call Coolify's REST API with the caller's own API token:

- `index.php` points an application, or a container of a service, at a new
  domain. It keeps the scheme and port of the stored FQDN, writes the new
  FQDN and asks Coolify to restart the resource.
- `environment.php` reads a resource's environment variables from the
  Coolify API (GET). It can also overwrite the stored variables and ask for
  a redeploy (POST).
- `logs.php` lists the newest deployment log entries of a resource. The
  resource is named by its uuid or by a fragment of its FQDN.
- `create-service.php` validates a JSON body and inserts a new `services`
  row under a random 16-hex-digit identifier.

Each handler is a pure function from a request, a database state (`Tables.Store`)
and the values of the outside world to an `Upstream.Outcome`. The outside
values are the connection result, the clock, curl's answers, the random
bytes and the database-assigned id. An `Outcome` holds three things: the
JSON answer (a datatype with its HTTP status), the database state after the
request, and the list of HTTP calls made to Coolify (method, URL, bearer
token).

Modules:

- `Wrappers`, `Strings`, `Php`: PHP semantics the handlers rely on.
  This covers `empty()` and truthiness, `trim`, ASCII `strtolower` and
  `intval` with 64-bit saturation. It also covers array keys, where
  canonical numeric strings become integers and an array is not a legal key.
  Last come ordered arrays and their assignment, and `(int)` casts.
- `Hex`: `bin2hex` and its inverse.
- `SqlLike`: PostgreSQL `LIKE`.
- `Tables`: the four tables the handlers touch, and `UPDATE ... WHERE uuid = :uuid`.
- `Upstream`: the Coolify base URL, HTTP call records and the handler outcome.
- `Resolver`: the uuid lookup that `index.php` and `environment.php` share.
  It tries `service_applications` joined to `services` first, then
  `applications`. `index.php` adds a "better candidate" step: it retargets a
  service container to the lowest-id sibling whose name contains none of
  `worker`, `redis`, `postgres`, `db`, compared case-insensitively.
- `Fqdn`: domain normalisation and validation, and the rebuild of the FQDN
  around the new domain.
- `DomainEndpoint`, `EnvironmentEndpoint`, `LogsEndpoint`,
  `CreateServiceEndpoint`: the four handlers.

Behaviour of the code that is easy to misread:

- The FQDN search in `logs.php` uses `LIKE`, which, unlike `ILIKE`,
  compares case-sensitively.
- The environment endpoint makes its GET call to the Coolify envs endpoint
  for every method (GET, POST and any other) before it looks at the method.
  This includes requests answered 405.
- An upstream variable list whose `key` is itself an array makes PHP 8 raise
  a TypeError. That uncaught TypeError is modelled as the 500 answer
  `Crashed`.
- A negative `limit` makes PostgreSQL reject the query. That uncaught
  database error is modelled as the 500 answer `QueryFailed`.
- The "failed to update" answers of `index.php` and `environment.php` can
  never be given: the row just resolved always carries the uuid the UPDATE
  is keyed on. Lemmas prove this.

## Model

| member | source | states |
|---|---|---|
| Strings.Intval | coolapi-main/coolapi-main/logs.php:19 | `intval` of the limit parameter always lies within the signed 64-bit range |
| Strings.IntvalOfNumber | coolapi-main/coolapi-main/logs.php:19 | text made of leading whitespace, an optional `+` or `-`, digits and then text that does not start with a digit converts to the signed value of those digits, saturated at the 64-bit bounds, so `" -5x"` is -5. This holds for integer-form text; PHP reads a following fraction or exponent as a float (see Left out) |
| Strings.IntvalOfNoDigits | coolapi-main/coolapi-main/logs.php:19 | text with no digits after its leading whitespace and optional sign converts to 0 |
| Strings.IntvalOfDigits | coolapi-main/coolapi-main/logs.php:19 | a plain run of digits converts to its decimal value, saturated at the 64-bit maximum |
| Strings.TrimIdempotent | coolapi-main/coolapi-main/index.php:49 | trimming a trimmed string changes nothing |
| Strings.Trim | coolapi-main/coolapi-main/index.php:49 | the trimmed string is no longer than the input and neither starts nor ends with a blank character |
| Strings.TrimIsMiddle | coolapi-main/coolapi-main/index.php:49 | `trim` keeps one contiguous slice of the input, and every character outside that slice is blank |
| Php.IsEmpty | coolapi-main/coolapi-main/create-service.php:41-51 | `empty()` and `!` hold exactly for `null`, `false`, `0`, `0.0`, `""`, `"0"` and the empty array |
| Php.ToKey | coolapi-main/coolapi-main/environment.php:140 | every decoded JSON value except an array can serve as an array key |
| Php.Assign | coolapi-main/coolapi-main/environment.php:140 | `$a[$k] = $v` makes `$k` map to `$v`, leaves every other key's value unchanged, keeps keys unique and grows the array by at most one entry |
| Php.IntCast | coolapi-main/coolapi-main/create-service.php:97 | `(int)` of a string stays in the 64-bit range; `(int)` of an array is 0 exactly when the array is empty |
| Hex.Encode | coolapi-main/coolapi-main/create-service.php:90 | `bin2hex` yields two lower-case hex digits per byte |
| Hex.DecodeEncode | coolapi-main/coolapi-main/create-service.php:90 | decoding the hex text gives back the random bytes |
| Hex.EncodeInjective | coolapi-main/coolapi-main/create-service.php:90 | different random bytes give different identifiers |
| SqlLike.LikePrefix | coolapi-main/coolapi-main/logs.php:84-89 | for a fragment without wildcards, `t LIKE 'f%'` holds exactly when `f` is a prefix of `t` |
| SqlLike.LikeSubstring | coolapi-main/coolapi-main/logs.php:84-89 | for a fragment without wildcards, `t LIKE '%f%'` holds exactly when `f` occurs in `t` |
| Tables.UpdateWritesOnly | coolapi-main/coolapi-main/index.php:199-206 | the UPDATE writes the new column value and `updated_at` into exactly the rows with the uuid, leaves all other rows and tables alone, and changes nothing when no row matches |
| Tables.UpdateTwice | coolapi-main/coolapi-main/environment.php:175-181 | repeating the same UPDATE at the same clock reading changes nothing more |
| Tables.CountOfPresent | coolapi-main/coolapi-main/index.php:208 | the UPDATE's row count is at least 1 when a row has the uuid, and exactly 1 when uuids are unique |
| Resolver.FindApplication | coolapi-main/coolapi-main/index.php:151-158 | the `applications` lookup returns a row with the uuid, and returns none only when no row has it |
| Resolver.JoinServiceApplication | coolapi-main/coolapi-main/index.php:105-113 | the joined lookup returns a container with the uuid together with its parent service, and returns none only when no row with the uuid joins to a service |
| Resolver.CandidateRows | coolapi-main/coolapi-main/index.php:126-133 | the candidate query keeps exactly the rows of the same service whose names avoid every denied fragment |
| Resolver.LowestId | coolapi-main/coolapi-main/index.php:134-135 | `ORDER BY id ASC LIMIT 1` returns a row of minimal id, and returns none only for no rows |
| Resolver.CandidateFor | coolapi-main/coolapi-main/index.php:125-148 | the candidate query fails exactly when the uuid is on several rows; a candidate it returns shares the matched row's service, has an allowed name and has the lowest id among such rows |
| Resolver.Resolve | coolapi-main/coolapi-main/index.php:99-167 | the uuid is not found exactly when neither lookup finds it, where a lookup that raises (as `environment.php` allows) counts as finding nothing; a service target carries its parent service's uuid; an application target has no service uuid; without retargeting the target's uuid is the one asked for; a target's uuid is always present in its table |
| Resolver.RetargetKeepsService | coolapi-main/coolapi-main/index.php:115-148 | the better-candidate step never changes whether the uuid resolves, its kind, or the parent service |
| Resolver.CandidateForMatched | coolapi-main/coolapi-main/index.php:125-145 | with unique uuids the candidate query does not fail, and finds a candidate exactly when the matched row's service has one with an allowed name |
| Resolver.RetargetChoice | coolapi-main/coolapi-main/index.php:123-148 | with unique uuids, a service container resolves to the lowest-id sibling with an allowed name, or to itself when no sibling qualifies |
| Resolver.AbsentIsNotFound | coolapi-main/coolapi-main/index.php:150-167 | a uuid in neither table resolves to nothing |
| Resolver.WorkerRetargetsToWeb | coolapi-main/coolapi-main/index.php:123-145 | in a service whose containers are `n8n-worker`, `Redis` and `web`, the worker's uuid targets `web` |
| Resolver.ResolveAfterUpdate | coolapi-main/coolapi-main/index.php:199-206 | after an UPDATE, resolving the same uuid finds the same target; only its current FQDN can change, and only when the target's own FQDN was written |
| Fqdn.NormaliseDomain | coolapi-main/coolapi-main/index.php:49 | the normalised domain is the lower-cased form of a slice of the input outside which every character is blank; it has no upper-case letters and no blank character at either end |
| Fqdn.NormalisedPatternIsCharClass | coolapi-main/coolapi-main/index.php:49-60 | for a normalised domain, PCRE's `$` before a final newline makes no difference; the pattern holds exactly when every character is in `[a-z0-9.-]` |
| Fqdn.InvalidChars | coolapi-main/coolapi-main/index.php:70 | the reported characters are exactly the input's characters outside `[a-z0-9.-]`, each as often as it occurs in the input |
| Fqdn.InvalidCharsAppend | coolapi-main/coolapi-main/index.php:70 | the removal keeps input order: the invalid characters of `a + b` are those of `a` followed by those of `b` |
| Fqdn.ValidIffNoInvalidChars | coolapi-main/coolapi-main/index.php:60-72 | a domain is valid exactly when it is non-empty and has no invalid characters |
| Fqdn.Scheme | coolapi-main/coolapi-main/index.php:182-189 | the scheme is `https://` exactly when the FQDN begins with `https://` in any letter case, and `http://` otherwise |
| Fqdn.TrailingDigits | coolapi-main/coolapi-main/index.php:192 | the longest all-digit suffix |
| Fqdn.Port | coolapi-main/coolapi-main/index.php:183-194 | the port is empty or `:` followed by digits, and ends the FQDN (before a final newline) |
| Fqdn.PortComplete | coolapi-main/coolapi-main/index.php:192-194 | whenever the FQDN ends in `:` and digits, exactly those digits become the port |
| Fqdn.RebuildPreserves | coolapi-main/coolapi-main/index.php:181-197 | the new FQDN is the preserved scheme, the new domain, then the preserved port, and reading scheme and port back from it gives the preserved ones |
| Fqdn.RebuildIdempotent | coolapi-main/coolapi-main/index.php:181-197 | rebuilding from the new FQDN with the same domain gives the same FQDN |
| Fqdn.RebuildKeepsSchemeAndPort | coolapi-main/coolapi-main/index.php:181-197 | `https://old.example.com:8443` with domain `new.example.com` becomes `https://new.example.com:8443` |
| Fqdn.RebuildBareHost | coolapi-main/coolapi-main/index.php:182-197 | a stored FQDN with no scheme or port gives `http://` and no port |
| DomainEndpoint.RestartUrl | coolapi-main/coolapi-main/index.php:222-228 | the restart endpoint is under the Coolify API and ends in `/restart` |
| DomainEndpoint.Commit | coolapi-main/coolapi-main/index.php:181-275 | the update fails exactly when no row has the target's uuid; otherwise the answer and the store agree with the scheme- and port-preserving FQDN, and exactly one restart call is made. The 200 body reports the kept port (`none` when empty), curl's status and body, `redeploy_success` exactly for a 2xx status, a curl error exactly when curl gave a non-empty one, and a service uuid exactly when the target has a truthy one |
| DomainEndpoint.UpdateDomain | coolapi-main/coolapi-main/index.php:15-275 | 401 exactly when the key is empty; 400 for the uuid exactly when the key is set and the uuid is missing or PHP-empty, and 400 for the domain exactly when both are set and `fqdn` is missing or PHP-empty; an error answer leaves the store untouched and makes no calls; an invalid-domain answer reports the normalised domain, its length, and the domain with every character of `[a-z0-9.-]` removed, which is empty only for an empty domain; a success means a well-formed request and a connected database. A success also means a resolved target with a truthy uuid, the new FQDN written to that target's rows only, one POST with the caller's token to the service restart (service container with a service uuid) or the application restart, and `redeploy_success` exactly for a 2xx status |
| DomainEndpoint.UpdateFailedUnreachable | coolapi-main/coolapi-main/index.php:208-213 | the "failed to update" answer is never given |
| DomainEndpoint.UpdateChecked | coolapi-main/coolapi-main/index.php:84-213 | once the parameters are valid, 500 exactly when the connection fails, 404 names the requested uuid, every error leaves the store untouched and makes no calls, and a success means a connected database, a resolved target with a truthy uuid and the UPDATE committed |
| DomainEndpoint.CheckedIdempotent | coolapi-main/coolapi-main/index.php:181-206 | after a successful update, the same update succeeds again for the same uuid and FQDN, reports the new FQDN as the old one, and at the same clock reading leaves the store as it was |
| DomainEndpoint.UpdateDomainOutcomes | coolapi-main/coolapi-main/index.php:15-179 | 200 exactly for a well-formed request on a connected database whose uuid resolves to a truthy uuid; 400, 500 and 404 each exactly when their own check is the first to fail |
| DomainEndpoint.UpdateDomainIdempotent | coolapi-main/coolapi-main/index.php:181-206 | repeating a successful request targets the same uuid and computes the same FQDN (its old FQDN is now the new one); at the same clock reading it leaves the store as it was |
| EnvironmentEndpoint.EntryKey | coolapi-main/coolapi-main/environment.php:139 | an entry's key is present exactly when `isset($env['key'])` |
| EnvironmentEndpoint.EntryValue | coolapi-main/coolapi-main/environment.php:140 | a set `value` is taken as it is, and a missing one reads as the empty string |
| EnvironmentEndpoint.Collect | coolapi-main/coolapi-main/environment.php:137-142 | the collected variables have unique keys; collecting fails exactly when some entry's key is an array |
| EnvironmentEndpoint.CollectLastWins | coolapi-main/coolapi-main/environment.php:138-142 | each collected key holds the value of the last entry with that key |
| EnvironmentEndpoint.NormaliseEnvs | coolapi-main/coolapi-main/environment.php:109-148 | no variables unless the upstream status is 200 and the body is an array; a body that is not a `{key, value}` list passes through unchanged; a list is collected last-wins with unique keys; PHP dies exactly when some key is an array |
| EnvironmentEndpoint.EnvsUrl | coolapi-main/coolapi-main/environment.php:112-117 | the envs endpoint is under the Coolify API and ends in `/envs` |
| EnvironmentEndpoint.RedeployUrl | coolapi-main/coolapi-main/environment.php:190-195 | the redeploy endpoint is under the Coolify API |
| EnvironmentEndpoint.Commit | coolapi-main/coolapi-main/environment.php:172-217 | the update fails exactly when no row has the target's uuid; otherwise the posted value is written to that target's rows only, one redeploy call follows, and `redeploy_triggered` holds exactly for a 2xx status |
| EnvironmentEndpoint.HandleEnvironment | coolapi-main/coolapi-main/environment.php:9-223 | 401 exactly when the key is empty; 400 for the uuid exactly when the key is set and the uuid is missing or PHP-empty; the 401, 400, 500 and 404 answers make no call to Coolify; only a successful POST changes the store; a GET answer carries the uuid asked for, its resource type and the normalised variables; a POST without `environment_variables` is a 400; a successful POST writes the field's value to the target's rows, makes the GET and redeploy calls, and reports the resource type, the redeploy status code and whether that code is 2xx; 405 only for other methods |
| EnvironmentEndpoint.UpdateFailedUnreachable | coolapi-main/coolapi-main/environment.php:183-187 | the "failed to update" answer is never given |
| EnvironmentEndpoint.EnvironmentOutcomes | coolapi-main/coolapi-main/environment.php:30-223 | for an authorised request with a uuid: 500 exactly without a database; 404 exactly when the uuid does not resolve; the crash exactly for an array key upstream; then the method alone decides |
| EnvironmentEndpoint.PostIdempotent | coolapi-main/coolapi-main/environment.php:161-187 | repeating a successful POST targets the same uuid and, at the same clock reading, leaves the store as the first left it |
| EnvironmentEndpoint.UpstreamEndpoints | coolapi-main/coolapi-main/environment.php:112-129 | the variables are fetched, and the redeploy requested, through the parent service exactly for a service container with a truthy service uuid, otherwise through the application; every call carries the caller's token |
| LogsEndpoint.Limit | coolapi-main/coolapi-main/logs.php:19 | an absent limit is 100; any limit lies in the 64-bit range |
| LogsEndpoint.MatchingLogs | coolapi-main/coolapi-main/logs.php:63-64 | the WHERE clause keeps every entry of the resource, each as often as it occurs, and nothing else |
| LogsEndpoint.Insert | coolapi-main/coolapi-main/logs.php:65 | inserting into a newest-first list keeps it newest first and adds exactly one occurrence |
| LogsEndpoint.SortNewestFirst | coolapi-main/coolapi-main/logs.php:65 | the result is newest first and a permutation of the input |
| LogsEndpoint.RecentLogs | coolapi-main/coolapi-main/logs.php:55-71 | only the resource's entries, newest first, drawn from the table; as many as the limit or all matches, whichever is fewer; below the limit every match is kept; any match left out is no newer than every entry returned |
| LogsEndpoint.MatchingUuids | coolapi-main/coolapi-main/logs.php:84-86 | each half of the UNION yields exactly the uuids of the rows whose FQDN matches the pattern |
| LogsEndpoint.FindByFqdn | coolapi-main/coolapi-main/logs.php:83-91 | the FQDN search returns a uuid whose row's FQDN matches the pattern in either table, and returns none exactly when no row matches |
| LogsEndpoint.FqdnHitIsSubstring | coolapi-main/coolapi-main/logs.php:84-89 | for a fragment without wildcards, a hit is a row whose FQDN contains the fragment |
| LogsEndpoint.HandleLogs | coolapi-main/coolapi-main/logs.php:4-131 | the endpoint only reads and makes no calls; 401 exactly for an empty key; 400 exactly when both identifiers are empty; a uuid answer carries the recent logs of that uuid; an FQDN answer carries the recent logs of a uuid that the search hits; `log_count` is the number of logs returned; a 404 means no row matches |
| LogsEndpoint.LogsOutcomes | coolapi-main/coolapi-main/logs.php:32-131 | for an authorised request with an identifier: 500 exactly without a database; 404 exactly when the FQDN search finds nothing; the query error exactly for a negative limit; 200 otherwise |
| LogsEndpoint.UuidTakesPrecedence | coolapi-main/coolapi-main/logs.php:53-80 | with a non-empty uuid, neither the `fqdn` parameter nor the choice among FQDN hits affects the answer |
| CreateServiceEndpoint.FirstEmptyField | coolapi-main/coolapi-main/create-service.php:49-57 | the reported field is the first required field that is empty; none is reported only when all are set |
| CreateServiceEndpoint.Description | coolapi-main/coolapi-main/create-service.php:96 | the description is the body's own description when that one is set, and the empty string otherwise |
| CreateServiceEndpoint.NewService | coolapi-main/coolapi-main/create-service.php:93-105 | the inserted row carries the generated uuid, the body's name, project, environment, server and destination, the description with its default, the `(int)` template id, status `created` and the clock reading as both timestamps |
| CreateServiceEndpoint.CreateService | coolapi-main/coolapi-main/create-service.php:28-123 | 401 exactly for an empty key; only a 201 changes the store; an invalid-body answer means a falsy body; a missing-field answer names the first empty required field; a 201 means every required field is set and the insert succeeded. The 201 carries a 16-digit lower-case hex uuid that decodes to the random bytes, and appends the new service row |
| CreateServiceEndpoint.CreateServiceOutcomes | coolapi-main/coolapi-main/create-service.php:41-123 | for a request with a key: 400 for the body exactly when it is falsy; a missing field exactly when it is the first empty required one; 500 for the database exactly when the fields pass and the connection fails; 500 for the insert exactly when it raises, carrying its message; 201 exactly when the fields pass, the connection holds and the insert succeeds |
| CreateServiceEndpoint.CreatedAddsOneRow | coolapi-main/coolapi-main/create-service.php:82-105 | a creation appends exactly one row carrying the returned uuid, and leaves the existing rows and other tables untouched |
| CreateServiceEndpoint.DistinctRandomDistinctUuids | coolapi-main/coolapi-main/create-service.php:90 | different random bytes give different service uuids |
| CreateServiceEndpoint.NameCheckedFirst | coolapi-main/coolapi-main/create-service.php:49-57 | a body missing `name` is reported as missing `name`, whatever else it lacks |

## Left out

- Database connection: the DSN built from environment variables and the PDO connection are not modelled. Their result is the input `Tables.Connection`, and its error message is passed through as given.
- Coolify API calls: curl is not modelled. Each call is recorded as an `Upstream.HttpCall`, and what curl reports (status, body, decoded JSON, error text) is the input `Upstream.HttpResult`.
- Logging and headers: `error_log`, `header` and `http_response_code` are not modelled as side effects. The status is `Status()` on each answer, and answers carry the fields that vary, not the fixed message and hint texts.
- JSON text: `json_encode` and `json_decode` are not modelled as text. A request body is given already decoded as a `Php.Value` (`Null` when it is not JSON), and the stored `env_variables` column holds the encoded value as `EncodedEnv(value)`.
- Environmental inputs: `random_bytes(8)`, `date()`, `NOW()` and the id PostgreSQL assigns to a new row are parameters, as is the INSERT's possible error.
- Environment endpoint lookups: in `environment.php` the two lookups that may raise are named by `Resolver.LookupFaults`.
- Other database failures: any failure besides those above is not modelled. This includes an error in an `index.php` lookup or UPDATE, which the code does not catch.
- Uncaught errors: the `Crashed` answer (the TypeError in `environment.php`) and the `QueryFailed` answer (the uncaught query error in `logs.php`) are 500 answers only under the production setting `display_errors = Off`. With `display_errors` on, PHP keeps status 200 and prints the error text; that configuration is not modelled.
- Concurrency: concurrent requests are not modelled; each handler runs against one consistent snapshot of the tables.
- Unordered results: the order PostgreSQL gives to results with no ordering is not modelled. `LIMIT 1` lookups take the first row in storage order. The UNION in `logs.php` takes the hit chosen by the input `pick`.
- LogsEndpoint.RecentLogs: the model keeps entries with equal `created_at` in storage order. The contract does not fix the order of ties, because PostgreSQL does not.
- Query parameters given as arrays (`?uuid[]=...`) and database NULLs in the name, uuid and `created_at` columns are not modelled: parameters are strings, and those columns are non-null. A NULL `created_at` would sort first under `ORDER BY created_at DESC`.
- Strings.Intval, Strings.IntvalOfNumber, Strings.IntvalOfNoDigits: text with a fraction or an exponent (`"1e3"`, `"9007199254740993.5"`) is read by PHP 8 as a float. PHP then applies the exponent and rounds integer parts beyond 2^53. The model does neither: it reads only the leading digits, so `"1e3"` gives 1 and `"9007199254740993.5"` gives 9007199254740993. `IntvalOfNoDigits` likewise gives 0 for `".5e3"`, where PHP gives 500. This matters only for a `limit` written that way.
- Php.IntCast, Php.ToKey: do not model out-of-range or non-finite floats. PHP wraps them, or maps them to 0; the model truncates every float toward zero without a bound.
- Case folding: `strtolower` and `ILIKE` are taken as ASCII case folding, which is PHP 8.2's behaviour; locale- or multibyte-dependent folding is not modelled.
- Unused values: the INSERT's `RETURNING uuid, id` row and the `fqdn` field of a creation request are not modelled, because the code never uses them after the checks.
- LIKE escapes: a pattern ending in a lone backslash, which PostgreSQL rejects, is read as a literal backslash.
- SqlLike.Like: strings are byte strings, so `_` matches one byte. PostgreSQL's `_` matches one character of the database encoding, which in UTF-8 can be several bytes, so a `_` in the `fqdn` parameter next to a multibyte character matches differently.
