/** The domain endpoint (`index.php`): point a resource at a new domain,
    keeping the scheme and port of its current FQDN, store the result and
    ask the platform to restart the resource. */
module DomainEndpoint {
  import opened Wrappers
  import opened Strings
  import opened Php
  import opened Tables
  import opened Fqdn
  import opened Resolver
  import opened Upstream

  /** The query string: `key`, `uuid` and `fqdn`, each possibly absent. */
  datatype Request = Request(key: Option<string>, uuid: Option<string>, fqdn: Option<string>)

  /** The JSON bodies the endpoint answers with. */
  datatype Response =
    | Unauthorized
    | UuidMissing
    | FqdnMissing
    | InvalidDomain(received: string, length: nat, invalidChars: string)
    | DatabaseUnavailable(details: string)
    | ApplicationNotFound(uuidSearched: string)
    | UpdateFailed
    | DomainUpdated(resourceType: string, appName: string, uuid: string, oldFqdn: Option<string>,
                    newDomain: string, newFqdn: string, protocolPreserved: string,
                    portPreserved: string, redeployEndpoint: string, redeployHttp: int,
                    redeployResponse: Option<string>, redeploySuccess: bool,
                    serviceUuid: Option<string>, curlError: Option<string>)
  {
    /** The HTTP status sent with the body. */
    function Status(): int {
      match this
      case Unauthorized => 401
      case UuidMissing => 400
      case FqdnMissing => 400
      case InvalidDomain(_, _, _) => 400
      case DatabaseUnavailable(_) => 500
      case ApplicationNotFound(_) => 404
      case UpdateFailed => 500
      case DomainUpdated(_, _, _, _, _, _, _, _, _, _, _, _, _, _) => 200
    }
  }

  /** The caller's token: the `key` parameter, or "" when absent. */
  function Key(req: Request): string { req.key.GetOr("") }

  /** The request passes the parameter checks: a token, a uuid and a domain
      that is valid once trimmed and lower-cased. */
  predicate WellFormed(req: Request) {
    && !IsEmptyString(Key(req))
    && Truthy(req.uuid)
    && Truthy(req.fqdn)
    && IsValidDomain(NormaliseDomain(req.fqdn.value))
  }

  /** The restart endpoint: the whole parent service for a service-owned
      target whose service uuid is truthy, the application otherwise. */
  function RestartUrl(t: Resolution): (url: string)
    requires t.Target?
    ensures IsPrefix(ApiV1, url)
    ensures IsSuffix("/restart", url)
  {
    if t.kind.ServiceKind? && Truthy(t.serviceUuid) then
      var url := ApiV1 + "services/" + t.serviceUuid.value + "/restart";
      assert url[..|ApiV1|] == ApiV1;
      url
    else
      var url := ApiV1 + "applications/" + t.appUuid + "/restart";
      assert url[..|ApiV1|] == ApiV1;
      url
  }

  /** The `port_preserved` field: the kept port, or "none" when it is empty. */
  function PortShown(port: string): string { if IsEmptyString(port) then "none" else port }

  /** What the response promises about a resolved target `t`: the stored
      FQDN keeps the scheme and port of the current one around `domain`,
      only the target's rows were written, and one restart call went out. */
  predicate Committed(o: Outcome<Response>, s: Store, t: Resolution, domain: string, key: string,
                      now: string, restart: HttpResult)
    requires t.Target?
  {
    && o.response.DomainUpdated?
    && o.response.newDomain == domain
    && o.response.uuid == t.appUuid
    && o.response.appName == t.appName
    && o.response.oldFqdn == t.currentFqdn
    && o.response.resourceType == t.kind.Name()
    && o.response.newFqdn == PreservedScheme(t.currentFqdn) + domain + PreservedPort(t.currentFqdn)
    && Scheme(o.response.newFqdn) == o.response.protocolPreserved
    && Port(o.response.newFqdn) == PreservedPort(t.currentFqdn)
    && o.response.portPreserved == PortShown(PreservedPort(t.currentFqdn))
    && WrittenOnly(s, o.store, t.kind.Table(), t.appUuid, FqdnColumn(o.response.newFqdn), now)
    && o.calls == [HttpCall(HttpPost, o.response.redeployEndpoint, key)]
    && o.response.redeployHttp == restart.code
    && o.response.redeployResponse == restart.body
    && (o.response.redeploySuccess <==> Is2xx(restart.code))
    && (o.response.curlError.Some? <==> !IsEmptyString(restart.curlError))
    && (o.response.curlError.Some? ==> o.response.curlError.value == restart.curlError)
    && (o.response.serviceUuid.Some? <==> Truthy(t.serviceUuid))
    && (t.kind.ServiceKind? && Truthy(t.serviceUuid) ==>
          && o.response.redeployEndpoint == ApiV1 + "services/" + t.serviceUuid.value + "/restart"
          && o.response.serviceUuid == t.serviceUuid)
    && (!(t.kind.ServiceKind? && Truthy(t.serviceUuid)) ==>
          o.response.redeployEndpoint == ApiV1 + "applications/" + t.appUuid + "/restart")
  }

  /** Steps 3 to 6 for a resolved target: rebuild the FQDN, update the row,
      trigger the restart and report. */
  function Commit(s: Store, t: Resolution, domain: string, key: string, now: string, restart: HttpResult)
    : (o: Outcome<Response>)
    requires t.Target? && IsValidDomain(domain)
    ensures o.response.UpdateFailed? || o.response.DomainUpdated?
    ensures o.response.UpdateFailed? <==> CountUuid(s, t.kind.Table(), t.appUuid) == 0
    ensures o.response.UpdateFailed? ==> o.store == s && o.calls == []
    ensures !o.response.UpdateFailed? ==> Committed(o, s, t, domain, key, now, restart)
  {
    var table := t.kind.Table();
    var newFqdn := Rebuild(t.currentFqdn, domain);
    RebuildPreserves(t.currentFqdn, domain);
    var after := Update(s, table, t.appUuid, FqdnColumn(newFqdn), now);
    UpdateWritesOnly(s, table, t.appUuid, FqdnColumn(newFqdn), now);
    if CountUuid(s, table, t.appUuid) == 0 then Outcome(UpdateFailed, after, [])
    else
      var port := PreservedPort(t.currentFqdn);
      var url := RestartUrl(t);
      var body := DomainUpdated(
        t.kind.Name(), t.appName, t.appUuid, t.currentFqdn, domain, newFqdn,
        PreservedScheme(t.currentFqdn), PortShown(port),
        url, restart.code, restart.body, Is2xx(restart.code),
        if Truthy(t.serviceUuid) then t.serviceUuid else None,
        if IsEmptyString(restart.curlError) then None else Some(restart.curlError));
      Outcome(body, after, [HttpCall(HttpPost, url, key)])
  }

  /** Steps 1 to 6 for a request that passed the parameter checks: connect,
      resolve `uuid`, then commit `domain` to the target. */
  function UpdateChecked(s: Store, uuid: string, domain: string, key: string, conn: Connection,
                         now: string, restart: HttpResult): (o: Outcome<Response>)
    requires IsValidDomain(domain)
    ensures o.response.Status() != 200 ==> o.store == s && o.calls == []
    ensures o.response.DatabaseUnavailable? <==> conn.ConnectFailed?
    ensures o.response.ApplicationNotFound? ==> o.response.uuidSearched == uuid
    ensures !o.response.Unauthorized? && !o.response.UuidMissing? && !o.response.FqdnMissing?
    ensures !o.response.InvalidDomain?
    ensures o.response.DomainUpdated? ==>
      && conn.Connected?
      && var t := Resolve(s, uuid, true, NoFaults);
      && t.Target? && !IsEmptyString(t.appUuid)
      && Committed(o, s, t, domain, key, now, restart)
  {
    if conn.ConnectFailed? then Outcome(DatabaseUnavailable(conn.message), s, [])
    else
      var t := Resolve(s, uuid, true, NoFaults);
      if t.NotFound? || IsEmptyString(t.appUuid) then Outcome(ApplicationNotFound(uuid), s, [])
      else Commit(s, t, domain, key, now, restart)
  }

  /** Handle one request against store `s`. `conn` is the outcome of
      connecting to the database, `now` the database clock, and `restart`
      what curl reports for the restart call. */
  function UpdateDomain(req: Request, s: Store, conn: Connection, now: string, restart: HttpResult)
    : (o: Outcome<Response>)
    ensures o.response.Unauthorized? <==> IsEmptyString(Key(req))
    ensures o.response.UuidMissing? <==> !IsEmptyString(Key(req)) && !Truthy(req.uuid)
    ensures o.response.FqdnMissing? <==> !IsEmptyString(Key(req)) && Truthy(req.uuid) && !Truthy(req.fqdn)
    ensures o.response.Status() != 200 ==> o.store == s && o.calls == []
    ensures o.response.InvalidDomain? ==>
      && req.fqdn.Some?
      && o.response.received == NormaliseDomain(req.fqdn.value)
      && !IsValidDomain(o.response.received)
      && o.response.length == |o.response.received|
      && o.response.invalidChars == InvalidChars(o.response.received)
      && (o.response.invalidChars == [] <==> o.response.received == [])
    ensures o.response.DomainUpdated? ==>
      && WellFormed(req) && conn.Connected?
      && var t := Resolve(s, req.uuid.value, true, NoFaults);
      && t.Target? && !IsEmptyString(t.appUuid)
      && Committed(o, s, t, NormaliseDomain(req.fqdn.value), Key(req), now, restart)
  {
    var key := Key(req);
    if IsEmptyString(key) then Outcome(Unauthorized, s, [])
    else if !Truthy(req.uuid) then Outcome(UuidMissing, s, [])
    else if !Truthy(req.fqdn) then Outcome(FqdnMissing, s, [])
    else
      var domain := NormaliseDomain(req.fqdn.value);
      NormalisedPatternIsCharClass(req.fqdn.value);
      ValidIffNoInvalidChars(domain);
      if !MatchesDomainPattern(domain) then
        Outcome(InvalidDomain(domain, |domain|, InvalidChars(domain)), s, [])
      else UpdateChecked(s, req.uuid.value, domain, key, conn, now, restart)
  }

  /** The "failed to update" answer is never given: the row the resolver
      found carries the uuid the update is keyed on, so the update always
      reports at least one row. */
  lemma UpdateFailedUnreachable(req: Request, s: Store, conn: Connection, now: string, restart: HttpResult)
    ensures !UpdateDomain(req, s, conn, now, restart).response.UpdateFailed?
  {
    if WellFormed(req) && conn.Connected? {
      var t := Resolve(s, req.uuid.value, true, NoFaults);
      if t.Target? {
        CountOfPresent(s, t.kind.Table(), t.appUuid);
      }
    }
  }

  /** The endpoint succeeds exactly when the request is well formed, the
      database is reachable and the uuid resolves to a row with a truthy
      uuid; the answer is otherwise decided by the first failing check. */
  lemma UpdateDomainOutcomes(req: Request, s: Store, conn: Connection, now: string, restart: HttpResult)
    ensures var o := UpdateDomain(req, s, conn, now, restart);
            var t := Resolve(s, req.uuid.GetOr(""), true, NoFaults);
            && (o.response.DomainUpdated? <==>
                  WellFormed(req) && conn.Connected? && t.Target? && !IsEmptyString(t.appUuid))
            && (o.response.Status() == 400 <==>
                  !IsEmptyString(Key(req))
                  && !(Truthy(req.uuid) && Truthy(req.fqdn) && IsValidDomain(NormaliseDomain(req.fqdn.value))))
            && (o.response.Status() == 500 <==> WellFormed(req) && conn.ConnectFailed?)
            && (o.response.Status() == 404 <==>
                  WellFormed(req) && conn.Connected? && (t.NotFound? || IsEmptyString(t.appUuid)))
  {
    UpdateFailedUnreachable(req, s, conn, now, restart);
    if Truthy(req.fqdn) {
      NormalisedPatternIsCharClass(req.fqdn.value);
    }
  }

  /** Sending the same request again finds the same target, computes the
      same FQDN (the scheme and port it reads back are the ones just
      written) and, at the same clock reading, leaves the store as it was. */
  lemma UpdateDomainIdempotent(req: Request, s: Store, conn: Connection, now: string, now2: string,
                               restart: HttpResult, restart2: HttpResult)
    requires UpdateDomain(req, s, conn, now, restart).response.DomainUpdated?
    ensures var o1 := UpdateDomain(req, s, conn, now, restart);
            var o2 := UpdateDomain(req, o1.store, conn, now2, restart2);
            && o2.response.DomainUpdated?
            && o2.response.uuid == o1.response.uuid
            && o2.response.newFqdn == o1.response.newFqdn
            && o2.response.oldFqdn == Some(o1.response.newFqdn)
            && (now2 == now ==> o2.store == o1.store)
  {
    var o1 := UpdateDomain(req, s, conn, now, restart);
    var domain := NormaliseDomain(req.fqdn.value);
    NormalisedPatternIsCharClass(req.fqdn.value);
    assert o1 == UpdateChecked(s, req.uuid.value, domain, Key(req), conn, now, restart);
    assert UpdateDomain(req, o1.store, conn, now2, restart2)
        == UpdateChecked(o1.store, req.uuid.value, domain, Key(req), conn, now2, restart2);
    CheckedIdempotent(s, req.uuid.value, domain, Key(req), conn, now, now2, restart, restart2);
  }

  /** UpdateDomainIdempotent once the parameter checks have passed. */
  lemma CheckedIdempotent(s: Store, uuid: string, domain: string, key: string, conn: Connection,
                          now: string, now2: string, restart: HttpResult, restart2: HttpResult)
    requires IsValidDomain(domain)
    requires UpdateChecked(s, uuid, domain, key, conn, now, restart).response.DomainUpdated?
    ensures var o1 := UpdateChecked(s, uuid, domain, key, conn, now, restart);
            var o2 := UpdateChecked(o1.store, uuid, domain, key, conn, now2, restart2);
            && o2.response.DomainUpdated?
            && o2.response.uuid == o1.response.uuid
            && o2.response.newFqdn == o1.response.newFqdn
            && o2.response.oldFqdn == Some(o1.response.newFqdn)
            && (now2 == now ==> o2.store == o1.store)
  {
    var t := Resolve(s, uuid, true, NoFaults);
    var table := t.kind.Table();
    var f := Rebuild(t.currentFqdn, domain);
    RebuildPreserves(t.currentFqdn, domain);
    var o1 := Commit(s, t, domain, key, now, restart);
    assert o1.response.newFqdn == f;
    assert o1.store == Update(s, table, t.appUuid, FqdnColumn(f), now);
    ResolveAfterUpdate(s, uuid, true, NoFaults, table, t.appUuid, FqdnColumn(f), now);
    var t2 := Resolve(o1.store, uuid, true, NoFaults);
    assert t2 == t.(currentFqdn := Some(f));
    RebuildIdempotent(t.currentFqdn, domain);
    RebuildPreserves(t2.currentFqdn, domain);
    CountOfPresent(o1.store, table, t.appUuid);
    var o2 := Commit(o1.store, t2, domain, key, now2, restart2);
    assert o2.response.newFqdn == f;
    assert o2.store == Update(o1.store, table, t.appUuid, FqdnColumn(f), now2);
    UpdateTwice(s, table, t.appUuid, FqdnColumn(f), now);
  }
}
