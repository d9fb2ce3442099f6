/** The environment endpoint (`environment.php`): read a resource's
    environment variables from the platform API, or overwrite the stored
    ones and ask the platform to redeploy. */
module EnvironmentEndpoint {
  import opened Wrappers
  import opened Strings
  import opened Php
  import opened Tables
  import opened Resolver
  import opened Upstream

  /** The request: its HTTP method, the `key` and `uuid` query parameters,
      and the body after `json_decode(..., true)` (`Null` when it is not
      JSON). */
  datatype Request = Request(verb: string, key: Option<string>, uuid: Option<string>, body: Value)

  /** The JSON bodies the endpoint answers with. `Crashed` is the uncaught
      TypeError PHP 8 raises for an array used as an array key. */
  datatype Response =
    | Unauthorized
    | UuidMissing
    | DatabaseUnavailable(details: string)
    | ApplicationNotFound(uuidSearched: string)
    | Crashed
    | EnvFetched(uuid: string, resourceType: string, environmentVariables: seq<(Key, Value)>)
    | EnvVariablesMissing
    | UpdateFailed
    | EnvUpdated(uuid: string, resourceType: string, redeployTriggered: bool, redeployHttpCode: int)
    | MethodNotAllowed
  {
    /** The HTTP status sent with the body. */
    function Status(): int {
      match this
      case Unauthorized => 401
      case UuidMissing => 400
      case DatabaseUnavailable(_) => 500
      case ApplicationNotFound(_) => 404
      case Crashed => 500
      case EnvFetched(_, _, _) => 200
      case EnvVariablesMissing => 400
      case UpdateFailed => 500
      case EnvUpdated(_, _, _, _) => 200
      case MethodNotAllowed => 405
    }
  }

  function Key(req: Request): string { req.key.GetOr("") }

  // ---------------------------------------------------------------------
  // Normalising the upstream list
  // ---------------------------------------------------------------------

  /** `$env['key']` of one upstream entry, when it is set. */
  function EntryKey(env: Value): (r: Option<Value>)
    ensures r.Some? <==> IsSet(env, FieldKey("key"))
    ensures r.Some? ==> r.value != Null
  {
    if IsSet(env, FieldKey("key")) then Some(Get(env, FieldKey("key"))) else None
  }

  /** `isset($env['value']) ? $env['value'] : ''`. */
  function EntryValue(env: Value): (r: Value)
    ensures r != Null
    ensures IsSet(env, FieldKey("value")) ==> r == Get(env, FieldKey("value"))
    ensures !IsSet(env, FieldKey("value")) ==> r == Str("")
  {
    if IsSet(env, FieldKey("value")) then Get(env, FieldKey("value")) else Str("")
  }

  /** An entry whose key PHP cannot use as an array key. */
  predicate HasIllegalKey(env: Value) { EntryKey(env).Some? && EntryKey(env).value.Arr? }

  /** The `foreach` over the upstream list: each entry with a set `key` is
      stored under that key, a later entry overwriting an earlier one. None
      when some entry's key is an array. */
  function Collect(items: seq<Value>): (r: Option<seq<(Key, Value)>>)
    ensures r.Some? ==> UniqueKeys(r.value)
    ensures r.None? <==> exists i :: 0 <= i < |items| && HasIllegalKey(items[i])
    decreases |items|
  {
    if |items| == 0 then Some([])
    else
      var init := items[..|items| - 1];
      var last := items[|items| - 1];
      assert forall i :: 0 <= i < |init| ==> init[i] == items[i];
      match Collect(init)
      case None => None
      case Some(acc) =>
        match EntryKey(last)
        case None => Some(acc)
        case Some(kv) =>
          match ToKey(kv)
          case None => None
          case Some(k) => Some(Assign(acc, k, EntryValue(last)))
  }

  /** Reference reading of the loop: the value of the last entry whose key
      maps to `k`. */
  function LastValue(items: seq<Value>, k: Key): Option<Value>
    decreases |items|
  {
    if |items| == 0 then None
    else
      var last := items[|items| - 1];
      if EntryKey(last).Some? && ToKey(EntryKey(last).value) == Some(k) then Some(EntryValue(last))
      else LastValue(items[..|items| - 1], k)
  }

  /** The collected map holds, under each key, exactly the value of the last
      upstream entry with that key; keys no entry carries are absent. */
  lemma {:induction false} CollectLastWins(items: seq<Value>, k: Key)
    requires Collect(items).Some?
    ensures Find(Collect(items).value, k) == LastValue(items, k)
    decreases |items|
  {
    if |items| > 0 {
      CollectLastWins(items[..|items| - 1], k);
    }
  }

  /** The values of an array, in order (what `foreach` visits). */
  function Values(es: seq<(Key, Value)>): (vs: seq<Value>)
    ensures |vs| == |es| && forall i :: 0 <= i < |es| ==> vs[i] == es[i].1
  {
    seq(|es|, i requires 0 <= i < |es| => es[i].1)
  }

  /** The upstream body is a list of `{key, value}` objects: its element 0 is
      an array with `key` set. */
  predicate IsEntryList(data: Value) {
    data.Arr? && Get(data, IntKey(0)).Arr? && IsSet(Get(data, IntKey(0)), FieldKey("key"))
  }

  /** The variables the endpoint reports for an upstream answer with status
      `code` and decoded body `data`; None when PHP dies on an array key. */
  function NormaliseEnvs(code: int, data: Value): (r: Option<seq<(Key, Value)>>)
    ensures code != 200 || !data.Arr? ==> r == Some([])
    ensures code == 200 && data.Arr? && !IsEntryList(data) ==> r == Some(data.entries)
    ensures r.None? <==> code == 200 && IsEntryList(data)
                         && exists i :: 0 <= i < |data.entries| && HasIllegalKey(data.entries[i].1)
    ensures code == 200 && IsEntryList(data) && r.Some? ==>
      && UniqueKeys(r.value)
      && forall k :: Find(r.value, k) == LastValue(Values(data.entries), k)
  {
    if code == 200 && data.Arr? then
      if IsEntryList(data) then
        var vs := Values(data.entries);
        var r := Collect(vs);
        assert r.None? <==> exists i :: 0 <= i < |data.entries| && HasIllegalKey(data.entries[i].1) by {
          assert forall i :: 0 <= i < |data.entries| ==> vs[i] == data.entries[i].1;
        }
        if r.Some? then
          forall k ensures Find(r.value, k) == LastValue(vs, k) {
            CollectLastWins(vs, k);
          }
          r
        else r
      else Some(data.entries)
    else Some([])
  }

  // ---------------------------------------------------------------------
  // Endpoints and the handler
  // ---------------------------------------------------------------------

  /** A service-owned target with a truthy parent uuid is addressed through
      its service. */
  predicate ViaService(t: Resolution) requires t.Target? {
    t.kind.ServiceKind? && Truthy(t.serviceUuid)
  }

  /** Where the variables are fetched from. */
  function EnvsUrl(t: Resolution): (url: string)
    requires t.Target?
    ensures IsPrefix(ApiV1, url) && IsSuffix("/envs", url)
  {
    if ViaService(t) then
      var url := ApiV1 + "services/" + t.serviceUuid.value + "/applications/" + t.appUuid + "/envs";
      assert url[..|ApiV1|] == ApiV1;
      url
    else
      var url := ApiV1 + "applications/" + t.appUuid + "/envs";
      assert url[..|ApiV1|] == ApiV1;
      url
  }

  /** Where the redeploy after an update is requested. */
  function RedeployUrl(t: Resolution): (url: string)
    requires t.Target?
    ensures IsPrefix(ApiV1, url)
  {
    if ViaService(t) then
      var url := ApiV1 + "services/" + t.serviceUuid.value + "/applications/" + t.appUuid + "/redeploy";
      assert url[..|ApiV1|] == ApiV1;
      url
    else
      var url := ApiV1 + "applications/" + t.appUuid + "/restart";
      assert url[..|ApiV1|] == ApiV1;
      url
  }

  /** The body field a POST must set. */
  function VariablesField(): Key { FieldKey("environment_variables") }

  /** A POST with the field set: store it on the target's rows, then ask for
      a redeploy. `prior` holds the calls already made. */
  function Commit(s: Store, t: Resolution, value: Value, key: string, now: string,
                  prior: seq<HttpCall>, redeploy: HttpResult): (o: Outcome<Response>)
    requires t.Target?
    ensures o.response.UpdateFailed? <==> CountUuid(s, t.kind.Table(), t.appUuid) == 0
    ensures o.response.UpdateFailed? ==> o.store == s && o.calls == prior
    ensures !o.response.UpdateFailed? ==>
      && o.response == EnvUpdated(t.appUuid, t.kind.Name(), Is2xx(redeploy.code), redeploy.code)
      && WrittenOnly(s, o.store, t.kind.Table(), t.appUuid, EnvColumn(EncodedEnv(value)), now)
      && o.calls == prior + [HttpCall(HttpPost, RedeployUrl(t), key)]
  {
    var table := t.kind.Table();
    var after := Update(s, table, t.appUuid, EnvColumn(EncodedEnv(value)), now);
    UpdateWritesOnly(s, table, t.appUuid, EnvColumn(EncodedEnv(value)), now);
    if CountUuid(s, table, t.appUuid) == 0 then Outcome(UpdateFailed, after, prior)
    else
      Outcome(EnvUpdated(t.appUuid, t.kind.Name(), Is2xx(redeploy.code), redeploy.code), after,
              prior + [HttpCall(HttpPost, RedeployUrl(t), key)])
  }

  /** Handle one request against store `s`. `conn` is the outcome of
      connecting to the database, `faults` the lookups that raise, `now` the
      database clock, and `envs`/`redeploy` what curl reports for the two
      upstream calls. */
  function HandleEnvironment(req: Request, s: Store, conn: Connection, faults: LookupFaults,
                             now: string, envs: HttpResult, redeploy: HttpResult): (o: Outcome<Response>)
    ensures o.response.Unauthorized? <==> IsEmptyString(Key(req))
    ensures o.response.UuidMissing? <==> !IsEmptyString(Key(req)) && !Truthy(req.uuid)
    ensures (|| o.response.Unauthorized? || o.response.UuidMissing?
             || o.response.DatabaseUnavailable? || o.response.ApplicationNotFound?) ==> o.calls == []
    ensures !o.response.EnvUpdated? ==> o.store == s
    ensures o.response.EnvFetched? ==>
      && req.verb == "GET" && Truthy(req.uuid)
      && var t := Resolve(s, req.uuid.value, false, faults);
      && t.Target? && o.response.uuid == req.uuid.value
      && o.response.resourceType == t.kind.Name()
      && Some(o.response.environmentVariables) == NormaliseEnvs(envs.code, envs.json)
      && o.calls == [HttpCall(HttpGet, EnvsUrl(t), Key(req))]
    ensures o.response.EnvVariablesMissing? ==>
      req.verb == "POST" && !IsSet(req.body, VariablesField())
    ensures o.response.EnvUpdated? ==>
      && req.verb == "POST" && Truthy(req.uuid) && IsSet(req.body, VariablesField())
      && var t := Resolve(s, req.uuid.value, false, faults);
      && t.Target? && o.response.uuid == req.uuid.value
      && WrittenOnly(s, o.store, t.kind.Table(), t.appUuid,
                     EnvColumn(EncodedEnv(Get(req.body, VariablesField()))), now)
      && o.calls == [HttpCall(HttpGet, EnvsUrl(t), Key(req)), HttpCall(HttpPost, RedeployUrl(t), Key(req))]
      && o.response.resourceType == t.kind.Name()
      && o.response.redeployHttpCode == redeploy.code
      && (o.response.redeployTriggered <==> Is2xx(redeploy.code))
    ensures o.response.MethodNotAllowed? ==> req.verb != "GET" && req.verb != "POST"
  {
    var key := Key(req);
    if IsEmptyString(key) then Outcome(Unauthorized, s, [])
    else if !Truthy(req.uuid) then Outcome(UuidMissing, s, [])
    else if conn.ConnectFailed? then Outcome(DatabaseUnavailable(conn.message), s, [])
    else
      var uuid := req.uuid.value;
      var t := Resolve(s, uuid, false, faults);
      if t.NotFound? || IsEmptyString(t.appUuid) then Outcome(ApplicationNotFound(uuid), s, [])
      else
        var fetch := [HttpCall(HttpGet, EnvsUrl(t), key)];
        match NormaliseEnvs(envs.code, envs.json)
        case None => Outcome(Crashed, s, fetch)
        case Some(vars) =>
          if req.verb == "GET" then Outcome(EnvFetched(t.appUuid, t.kind.Name(), vars), s, fetch)
          else if req.verb == "POST" then
            if !IsSet(req.body, VariablesField()) then Outcome(EnvVariablesMissing, s, fetch)
            else Commit(s, t, Get(req.body, VariablesField()), key, now, fetch, redeploy)
          else Outcome(MethodNotAllowed, s, fetch)
  }

  // ---------------------------------------------------------------------
  // Properties of the handler
  // ---------------------------------------------------------------------

  /** The endpoint never answers "failed to update": the row it resolved
      has the uuid the update is keyed on. */
  lemma UpdateFailedUnreachable(req: Request, s: Store, conn: Connection, faults: LookupFaults,
                                now: string, envs: HttpResult, redeploy: HttpResult)
    ensures !HandleEnvironment(req, s, conn, faults, now, envs, redeploy).response.UpdateFailed?
  {
    if Truthy(req.uuid) {
      var t := Resolve(s, req.uuid.value, false, faults);
      if t.Target? {
        CountOfPresent(s, t.kind.Table(), t.appUuid);
      }
    }
  }

  /** Which answer a request gets once it is authorised and names a uuid:
      500 without a database, 404 when neither lookup finds the uuid, then
      the upstream crash, then the method decides. */
  lemma EnvironmentOutcomes(req: Request, s: Store, conn: Connection, faults: LookupFaults,
                            now: string, envs: HttpResult, redeploy: HttpResult)
    requires !IsEmptyString(Key(req)) && Truthy(req.uuid)
    ensures var o := HandleEnvironment(req, s, conn, faults, now, envs, redeploy);
            var t := Resolve(s, req.uuid.value, false, faults);
            var n := NormaliseEnvs(envs.code, envs.json);
            && (o.response.DatabaseUnavailable? <==> conn.ConnectFailed?)
            && (o.response.ApplicationNotFound? <==> conn.Connected? && t.NotFound?)
            && (o.response.Crashed? <==> conn.Connected? && t.Target? && n.None?)
            && (o.response.EnvFetched? <==> conn.Connected? && t.Target? && n.Some? && req.verb == "GET")
            && (o.response.EnvUpdated? <==>
                  conn.Connected? && t.Target? && n.Some? && req.verb == "POST"
                  && IsSet(req.body, VariablesField()))
            && (o.response.MethodNotAllowed? <==>
                  conn.Connected? && t.Target? && n.Some? && req.verb != "GET" && req.verb != "POST")
  {
    UpdateFailedUnreachable(req, s, conn, faults, now, envs, redeploy);
  }

  /** Posting the same variables again targets the same row and, at the same
      clock reading, leaves the store as the first post left it. */
  lemma PostIdempotent(req: Request, s: Store, conn: Connection, faults: LookupFaults, now: string,
                       envs: HttpResult, redeploy: HttpResult, redeploy2: HttpResult)
    requires HandleEnvironment(req, s, conn, faults, now, envs, redeploy).response.EnvUpdated?
    ensures var o1 := HandleEnvironment(req, s, conn, faults, now, envs, redeploy);
            var o2 := HandleEnvironment(req, o1.store, conn, faults, now, envs, redeploy2);
            && o2.response.EnvUpdated?
            && o2.response.uuid == o1.response.uuid
            && o2.store == o1.store
  {
    var o1 := HandleEnvironment(req, s, conn, faults, now, envs, redeploy);
    var uuid := req.uuid.value;
    var t := Resolve(s, uuid, false, faults);
    var table := t.kind.Table();
    var value := Get(req.body, VariablesField());
    var col := EnvColumn(EncodedEnv(value));
    var fetch := [HttpCall(HttpGet, EnvsUrl(t), Key(req))];
    assert o1 == Commit(s, t, value, Key(req), now, fetch, redeploy);
    assert o1.store == Update(s, table, t.appUuid, col, now);
    ResolveAfterUpdate(s, uuid, false, faults, table, t.appUuid, col, now);
    assert Resolve(o1.store, uuid, false, faults) == t;
    CountOfPresent(o1.store, table, t.appUuid);
    var o2 := HandleEnvironment(req, o1.store, conn, faults, now, envs, redeploy2);
    assert o2 == Commit(o1.store, t, value, Key(req), now, fetch, redeploy2);
    UpdateTwice(s, table, t.appUuid, col, now);
  }

  /** The upstream calls a resolved request makes: the variables are fetched
      (and, after an update, the redeploy requested) through the parent
      service when the target is service-owned and its service uuid is
      truthy, and through the application otherwise; every call carries the
      caller's token. */
  lemma UpstreamEndpoints(req: Request, s: Store, conn: Connection, faults: LookupFaults, now: string,
                          envs: HttpResult, redeploy: HttpResult)
    requires var r := HandleEnvironment(req, s, conn, faults, now, envs, redeploy).response;
             r.EnvFetched? || r.EnvUpdated?
    ensures var o := HandleEnvironment(req, s, conn, faults, now, envs, redeploy);
            var t := Resolve(s, req.uuid.value, false, faults);
            var a := req.uuid.value;
            && t.Target? && t.appUuid == a
            && |o.calls| >= 1 && o.calls[0].verb == HttpGet && o.calls[0].bearer == Key(req)
            && (ViaService(t) ==>
                  o.calls[0].url == ApiV1 + "services/" + t.serviceUuid.value + "/applications/" + a + "/envs")
            && (!ViaService(t) ==> o.calls[0].url == ApiV1 + "applications/" + a + "/envs")
            && (o.response.EnvUpdated? ==>
                  && |o.calls| == 2 && o.calls[1].verb == HttpPost && o.calls[1].bearer == Key(req)
                  && (ViaService(t) ==>
                        o.calls[1].url == ApiV1 + "services/" + t.serviceUuid.value + "/applications/" + a + "/redeploy")
                  && (!ViaService(t) ==> o.calls[1].url == ApiV1 + "applications/" + a + "/restart"))
  {
  }
}
