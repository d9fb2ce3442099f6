/** Resolution of a caller-supplied identifier to the row an endpoint acts
    on: `service_applications` (joined to its service) first, then
    `applications`. The domain endpoint additionally retargets a
    service-owned match to a "better candidate" sibling. */
module Resolver {
  import opened Wrappers
  import opened Strings
  import opened Tables
  import Php

  /** Which table the target lives in (`resource_type` in the responses). */
  datatype Kind = ServiceKind | ApplicationKind {

    /** The `resource_type` string. */
    function Name(): string {
      if ServiceKind? then "service" else "application"
    }

    /** The table an update of this kind writes. */
    function Table(): Table {
      if ServiceKind? then ServiceApplicationsTable else ApplicationsTable
    }
  }

  /** The outcome of a lookup: nothing, or the row to act on together with
      its parent service's uuid when it belongs to a service. */
  datatype Resolution =
    | NotFound
    | Target(kind: Kind, appUuid: string, appName: string, currentFqdn: Option<string>,
             serviceUuid: Option<string>)

  /** Lookup queries that raised an exception (environment endpoint only:
      it catches them and carries on as if nothing matched). */
  datatype LookupFaults = LookupFaults(serviceQueryFails: bool, applicationQueryFails: bool)

  const NoFaults: LookupFaults := LookupFaults(false, false)

  /** Name fragments that mark a helper container (matched case-insensitively). */
  const DenyList: seq<string> := ["worker", "redis", "postgres", "db"]

  // ---------------------------------------------------------------------
  // Single-table lookups
  // ---------------------------------------------------------------------

  /** `SELECT ... FROM applications WHERE uuid = :uuid LIMIT 1`. */
  function FindApplication(rows: seq<Application>, uuid: string): (r: Option<Application>)
    ensures r.Some? ==> r.value in rows && r.value.uuid == uuid
    ensures r.None? <==> forall i :: 0 <= i < |rows| ==> rows[i].uuid != uuid
    decreases |rows|
  {
    if |rows| == 0 then None
    else if rows[0].uuid == uuid then Some(rows[0])
    else
      var r := FindApplication(rows[1..], uuid);
      assert forall i :: 1 <= i < |rows| ==> rows[i] == rows[1..][i - 1];
      r
  }

  /** The service with internal id `id`, if any. */
  function FindService(services: seq<Service>, id: nat): (r: Option<Service>)
    ensures r.Some? ==> r.value in services && r.value.id == id
    ensures r.None? <==> forall j :: 0 <= j < |services| ==> services[j].id != id
    decreases |services|
  {
    if |services| == 0 then None
    else if services[0].id == id then Some(services[0])
    else
      var r := FindService(services[1..], id);
      assert forall j :: 1 <= j < |services| ==> services[j] == services[1..][j - 1];
      r
  }

  /** A `service_applications` row with the uuid that joins to a service. */
  predicate JoinsAt(rows: seq<ServiceApplication>, services: seq<Service>, uuid: string, i: int) {
    0 <= i < |rows| && rows[i].uuid == uuid
    && exists j :: 0 <= j < |services| && services[j].id == rows[i].serviceId
  }

  /** `SELECT sa.*, s.uuid FROM service_applications sa JOIN services s
      ON sa.service_id = s.id WHERE sa.uuid = :uuid LIMIT 1`. */
  function JoinServiceApplication(rows: seq<ServiceApplication>, services: seq<Service>, uuid: string)
    : (r: Option<(ServiceApplication, Service)>)
    ensures r.Some? ==> r.value.0 in rows && r.value.0.uuid == uuid
                        && r.value.1 in services && r.value.1.id == r.value.0.serviceId
    ensures r.None? <==> forall i :: !JoinsAt(rows, services, uuid, i)
    decreases |rows|
  {
    if |rows| == 0 then None
    else
      var svc := if rows[0].uuid == uuid then FindService(services, rows[0].serviceId) else None;
      if svc.Some? then
        assert JoinsAt(rows, services, uuid, 0);
        Some((rows[0], svc.value))
      else
        var r := JoinServiceApplication(rows[1..], services, uuid);
        assert !JoinsAt(rows, services, uuid, 0);
        assert forall i :: 1 <= i < |rows| ==> rows[1..][i - 1] == rows[i];
        assert forall i :: 1 <= i < |rows| ==>
          (JoinsAt(rows, services, uuid, i) <==> JoinsAt(rows[1..], services, uuid, i - 1));
        assert r.None? ==> forall i :: !JoinsAt(rows, services, uuid, i) by {
          if r.None? {
            forall i | 1 <= i < |rows| ensures !JoinsAt(rows, services, uuid, i) {
              assert !JoinsAt(rows[1..], services, uuid, i - 1);
            }
          }
        }
        assert r.Some? ==> exists i :: JoinsAt(rows, services, uuid, i) by {
          if r.Some? {
            var k :| 0 <= k < |rows[1..]| && rows[1..][k] == r.value.0;
            var j :| 0 <= j < |services| && services[j] == r.value.1;
            assert JoinsAt(rows, services, uuid, k + 1);
          }
        }
        r
  }

  function FindServiceApplication(s: Store, uuid: string): Option<(ServiceApplication, Service)> {
    JoinServiceApplication(s.serviceApplications, s.services, uuid)
  }

  // ---------------------------------------------------------------------
  // The "better candidate" heuristic
  // ---------------------------------------------------------------------

  /** A name free of every denied fragment (`name NOT ILIKE '%f%'` for each). */
  predicate IsFrontName(name: string, deny: seq<string>) {
    forall i :: 0 <= i < |deny| ==> !ContainsIgnoringCase(name, deny[i])
  }

  /** A row the candidate query selects: in service `sid`, with a front name. */
  predicate IsCandidate(row: ServiceApplication, sid: nat) {
    row.serviceId == sid && IsFrontName(row.name, DenyList)
  }

  /** The rows of service `sid` the candidate query keeps, in storage order. */
  function CandidateRows(rows: seq<ServiceApplication>, sid: nat): (r: seq<ServiceApplication>)
    ensures forall x :: x in r <==> x in rows && IsCandidate(x, sid)
    decreases |rows|
  {
    if |rows| == 0 then []
    else
      var rest := CandidateRows(rows[1..], sid);
      assert forall x :: x in rows <==> x == rows[0] || x in rows[1..];
      if IsCandidate(rows[0], sid) then [rows[0]] + rest else rest
  }

  /** `ORDER BY id ASC LIMIT 1`: the first row of lowest id. */
  function LowestId(rows: seq<ServiceApplication>): (r: Option<ServiceApplication>)
    ensures r.None? <==> |rows| == 0
    ensures r.Some? ==> r.value in rows && forall x :: x in rows ==> r.value.id <= x.id
    decreases |rows|
  {
    if |rows| == 0 then None
    else
      var rest := LowestId(rows[1..]);
      assert forall x :: x in rows <==> x == rows[0] || x in rows[1..];
      if rest.None? || rows[0].id <= rest.value.id then Some(rows[0]) else rest
  }

  /** What the candidate query yields: an error (its subquery
      `SELECT service_id FROM service_applications WHERE uuid = :uuid`
      returned several rows), no row, or the row to retarget to. */
  datatype CandidateLookup = CandidateFailed | NoCandidate | Candidate(row: ServiceApplication)

  function CandidateFor(s: Store, uuid: string): (r: CandidateLookup)
    ensures r.CandidateFailed? <==> CountUuid(s, ServiceApplicationsTable, uuid) > 1
    ensures r.Candidate? ==>
      && r.row in s.serviceApplications
      && IsFrontName(r.row.name, DenyList)
      && (exists i :: 0 <= i < |s.serviceApplications| && s.serviceApplications[i].uuid == uuid
                      && s.serviceApplications[i].serviceId == r.row.serviceId)
      && forall x :: x in s.serviceApplications && IsCandidate(x, r.row.serviceId) ==> r.row.id <= x.id
  {
    if CountUuid(s, ServiceApplicationsTable, uuid) > 1 then CandidateFailed
    else
      match FindFirstByUuid(s.serviceApplications, uuid)
      case None => NoCandidate
      case Some(own) =>
        match LowestId(CandidateRows(s.serviceApplications, own.serviceId))
        case None => NoCandidate
        case Some(c) => Candidate(c)
  }

  /** The `service_applications` row with the uuid, ignoring the join. */
  function FindFirstByUuid(rows: seq<ServiceApplication>, uuid: string): (r: Option<ServiceApplication>)
    ensures r.Some? ==> exists i :: 0 <= i < |rows| && rows[i] == r.value && rows[i].uuid == uuid
    ensures r.None? <==> forall i :: 0 <= i < |rows| ==> rows[i].uuid != uuid
    decreases |rows|
  {
    if |rows| == 0 then None
    else if rows[0].uuid == uuid then Some(rows[0])
    else
      var r := FindFirstByUuid(rows[1..], uuid);
      assert forall i :: 1 <= i < |rows| ==> rows[i] == rows[1..][i - 1];
      r
  }

  // ---------------------------------------------------------------------
  // The resolver
  // ---------------------------------------------------------------------

  /** Resolve `uuid`: `service_applications` (joined to `services`) first,
      then `applications`. With `retarget`, a service-owned match is
      replaced by the candidate row when the candidate query finds one; its
      failure is ignored. A query listed in `faults` counts as matching
      nothing. */
  function Resolve(s: Store, uuid: string, retarget: bool, faults: LookupFaults): (r: Resolution)
    ensures r.NotFound? <==>
      && (faults.serviceQueryFails || FindServiceApplication(s, uuid).None?)
      && (faults.applicationQueryFails || FindApplication(s.applications, uuid).None?)
    ensures r.Target? && r.kind.ServiceKind? ==>
      && !faults.serviceQueryFails
      && FindServiceApplication(s, uuid).Some?
      && r.serviceUuid == Some(FindServiceApplication(s, uuid).value.1.uuid)
    ensures r.Target? && r.kind.ApplicationKind? ==>
      && (faults.serviceQueryFails || FindServiceApplication(s, uuid).None?)
      && r.appUuid == uuid && r.serviceUuid.None?
    ensures r.Target? && !retarget ==> r.appUuid == uuid
    ensures r.Target? ==> r.appUuid in Uuids(s, r.kind.Table())
  {
    var joined := if faults.serviceQueryFails then None else FindServiceApplication(s, uuid);
    if joined.Some? then
      var row := joined.value.0;
      var base := Target(ServiceKind, row.uuid, row.name, row.fqdn, Some(joined.value.1.uuid));
      assert row.uuid == Uuids(s, ServiceApplicationsTable)[IndexOf(s.serviceApplications, row)];
      if retarget then
        match CandidateFor(s, uuid)
        case Candidate(c) =>
          assert c.uuid == Uuids(s, ServiceApplicationsTable)[IndexOf(s.serviceApplications, c)];
          base.(appUuid := c.uuid, appName := c.name, currentFqdn := c.fqdn)
        case _ => base
      else base
    else
      var app := if faults.applicationQueryFails then None else FindApplication(s.applications, uuid);
      if app.Some? then
        assert app.value.uuid == Uuids(s, ApplicationsTable)[IndexOf(s.applications, app.value)];
        Target(ApplicationKind, app.value.uuid, app.value.name, app.value.fqdn, None)
      else NotFound
  }

  /** A position of `x` in `rows`. */
  ghost function IndexOf<T>(rows: seq<T>, x: T): (i: nat)
    requires x in rows
    ensures i < |rows| && rows[i] == x
  {
    var i :| 0 <= i < |rows| && rows[i] == x; i
  }

  // ---------------------------------------------------------------------
  // Properties of the resolver
  // ---------------------------------------------------------------------

  /** Retargeting never changes whether the uuid resolves, which table it
      resolves to, or the parent service's uuid. */
  lemma RetargetKeepsService(s: Store, uuid: string)
    ensures var plain := Resolve(s, uuid, false, NoFaults);
            var better := Resolve(s, uuid, true, NoFaults);
            && (plain.NotFound? <==> better.NotFound?)
            && (plain.Target? ==> better.kind == plain.kind && better.serviceUuid == plain.serviceUuid)
  {
  }

  /** Some row of service `sid` has a name free of the denied fragments. */
  ghost predicate HasCandidate(s: Store, sid: nat) {
    exists x :: x in s.serviceApplications && IsCandidate(x, sid)
  }

  /** `c` is a candidate row of service `sid` with the lowest id. */
  ghost predicate IsLowestCandidate(s: Store, c: ServiceApplication, sid: nat) {
    && c in s.serviceApplications && IsCandidate(c, sid)
    && forall x :: x in s.serviceApplications && IsCandidate(x, sid) ==> c.id <= x.id
  }

  /** With unique identifiers the candidate subquery sees exactly the
      matched row, so the candidate query cannot fail and yields a
      candidate exactly when the matched row's service has one. */
  lemma CandidateForMatched(s: Store, uuid: string)
    requires UniqueUuids(s)
    requires FindServiceApplication(s, uuid).Some?
    ensures var sid := FindServiceApplication(s, uuid).value.0.serviceId;
            var r := CandidateFor(s, uuid);
            && (HasCandidate(s, sid) ==> r.Candidate? && IsLowestCandidate(s, r.row, sid))
            && (!HasCandidate(s, sid) ==> r.NoCandidate?)
  {
    var m := FindServiceApplication(s, uuid).value.0;
    var rows := s.serviceApplications;
    var k := IndexOf(rows, m);
    assert Uuids(s, ServiceApplicationsTable)[k] == uuid;
    CountOfPresent(s, ServiceApplicationsTable, uuid);
    var own := FindFirstByUuid(rows, uuid);
    assert own == Some(m) by {
      var i :| 0 <= i < |rows| && rows[i] == own.value && rows[i].uuid == uuid;
      assert i == k;
    }
    var cands := CandidateRows(rows, m.serviceId);
    if HasCandidate(s, m.serviceId) {
      var x :| x in rows && IsCandidate(x, m.serviceId);
      assert x in cands;
    }
  }

  /** With unique identifiers, a uuid of a service-owned row resolves to the
      lowest-id row of the same service whose name avoids every denied
      fragment, or to the matched row itself when there is none. */
  lemma RetargetChoice(s: Store, uuid: string)
    requires UniqueUuids(s)
    requires FindServiceApplication(s, uuid).Some?
    ensures var m := FindServiceApplication(s, uuid).value.0;
            var r := Resolve(s, uuid, true, NoFaults);
            && r.Target? && r.kind.ServiceKind?
            && (HasCandidate(s, m.serviceId) ==>
                  exists c :: IsLowestCandidate(s, c, m.serviceId)
                    && r.appUuid == c.uuid && r.appName == c.name && r.currentFqdn == c.fqdn)
            && (!HasCandidate(s, m.serviceId) ==>
                  r.appUuid == uuid && r.appName == m.name && r.currentFqdn == m.fqdn)
  {
    CandidateForMatched(s, uuid);
  }

  /** A uuid present in neither table (service rows counted only when they
      join to a service) resolves to nothing, whatever the heuristic. */
  lemma AbsentIsNotFound(s: Store, uuid: string, retarget: bool)
    requires forall i :: 0 <= i < |s.applications| ==> s.applications[i].uuid != uuid
    requires forall i :: !JoinsAt(s.serviceApplications, s.services, uuid, i)
    ensures Resolve(s, uuid, retarget, NoFaults) == NotFound
  {
  }

  /** The retargeting example: a service with a worker, a cache and a web
      container; asking for the worker's uuid targets the web container. */
  lemma WorkerRetargetsToWeb(s: Store, svc: Service, worker: ServiceApplication,
                             redis: ServiceApplication, web: ServiceApplication)
    requires UniqueUuids(s)
    requires s.services == [svc] && s.serviceApplications == [worker, redis, web]
    requires worker.serviceId == svc.id && redis.serviceId == svc.id && web.serviceId == svc.id
    requires worker.name == "n8n-worker" && redis.name == "Redis" && web.name == "web"
    ensures Resolve(s, worker.uuid, true, NoFaults)
              == Target(ServiceKind, web.uuid, "web", web.fqdn, Some(svc.uuid))
  {
    var rows := s.serviceApplications;
    assert rows[0] == worker;
    assert s.services[0].id == rows[0].serviceId;
    assert JoinsAt(rows, s.services, worker.uuid, 0);
    assert FindServiceApplication(s, worker.uuid) == Some((worker, svc));
    NamesOfExample();
    assert web in rows && IsCandidate(web, svc.id);
    assert HasCandidate(s, svc.id);
    RetargetChoice(s, worker.uuid);
    var r := Resolve(s, worker.uuid, true, NoFaults);
    var c :| IsLowestCandidate(s, c, svc.id) && r.appUuid == c.uuid && r.appName == c.name && r.currentFqdn == c.fqdn;
    assert c in rows;
    assert c == web;
  }

  lemma NamesOfExample()
    ensures !IsFrontName("n8n-worker", DenyList)
    ensures !IsFrontName("Redis", DenyList)
    ensures IsFrontName("web", DenyList)
  {
    WorkerDenied();
    RedisDenied();
    WebAllowed();
  }

  lemma WorkerDenied()
    ensures ContainsIgnoringCase("n8n-worker", DenyList[0])
  {
    assert ToLower("n8n-worker") == "n8n-worker";
    assert ToLower("worker") == "worker";
    var t := "n8n-worker";
    assert IsPrefix("worker", t[4..]);
    assert t[4..] == t[1..][1..][1..][1..];
    assert Contains(t[1..][1..][1..][1..], "worker");
    assert Contains(t[1..][1..][1..], "worker");
    assert Contains(t[1..][1..], "worker");
    assert Contains(t[1..], "worker");
  }

  lemma RedisDenied()
    ensures ContainsIgnoringCase("Redis", DenyList[1])
  {
    assert ToLower("Redis") == "redis";
    assert ToLower("redis") == "redis";
    assert IsPrefix("redis", "redis");
  }

  lemma WebAllowed()
    ensures forall i :: 0 <= i < |DenyList| ==> !ContainsIgnoringCase("web", DenyList[i])
  {
    forall i | 0 <= i < |DenyList| ensures !ContainsIgnoringCase("web", DenyList[i]) {
      assert ToLower("web") == "web";
      assert ToLower(DenyList[i]) == DenyList[i];
      assert "web"[1..] == "eb" && "eb"[1..] == "b" && "b"[1..] == "";
      if i == 3 {
        assert "web"[..2] == "we";
        assert "eb"[..2] == "eb";
      }
      assert !IsPrefix(DenyList[i], "web");
      assert !IsPrefix(DenyList[i], "eb");
      assert !IsPrefix(DenyList[i], "b");
      assert !IsPrefix(DenyList[i], "");
    }
  }

  // ---------------------------------------------------------------------
  // Resolution after an update
  // ---------------------------------------------------------------------

  function WrittenOption(o: Option<ServiceApplication>, u: string, c: Column, now: string)
    : Option<ServiceApplication>
  {
    if o.Some? then Some(WrittenRow(o.value, u, c, now)) else None
  }

  lemma WrittenRowsSplit(rows: seq<ServiceApplication>, u: string, c: Column, now: string)
    requires |rows| > 0
    ensures WrittenRows(rows, u, c, now) == [WrittenRow(rows[0], u, c, now)] + WrittenRows(rows[1..], u, c, now)
  {
  }

  lemma {:induction false} FindFirstWritten(rows: seq<ServiceApplication>, uuid: string, u: string,
                                            c: Column, now: string)
    ensures FindFirstByUuid(WrittenRows(rows, u, c, now), uuid)
         == WrittenOption(FindFirstByUuid(rows, uuid), u, c, now)
    decreases |rows|
  {
    if |rows| > 0 {
      WrittenRowsSplit(rows, u, c, now);
      var w := WrittenRows(rows, u, c, now);
      assert w[1..] == WrittenRows(rows[1..], u, c, now);
      FindFirstWritten(rows[1..], uuid, u, c, now);
    }
  }

  lemma {:induction false} CandidateRowsWritten(rows: seq<ServiceApplication>, sid: nat, u: string,
                                                c: Column, now: string)
    ensures CandidateRows(WrittenRows(rows, u, c, now), sid) == WrittenRows(CandidateRows(rows, sid), u, c, now)
    decreases |rows|
  {
    if |rows| > 0 {
      WrittenRowsSplit(rows, u, c, now);
      var w := WrittenRows(rows, u, c, now);
      assert w[1..] == WrittenRows(rows[1..], u, c, now);
      CandidateRowsWritten(rows[1..], sid, u, c, now);
      var rest := CandidateRows(rows[1..], sid);
      if IsCandidate(rows[0], sid) {
        assert CandidateRows(rows, sid) == [rows[0]] + rest;
        WrittenRowsSplit([rows[0]] + rest, u, c, now);
        assert ([rows[0]] + rest)[1..] == rest;
      }
    }
  }

  lemma {:induction false} LowestIdWritten(rows: seq<ServiceApplication>, u: string, c: Column, now: string)
    ensures LowestId(WrittenRows(rows, u, c, now)) == WrittenOption(LowestId(rows), u, c, now)
    decreases |rows|
  {
    if |rows| > 0 {
      WrittenRowsSplit(rows, u, c, now);
      var w := WrittenRows(rows, u, c, now);
      assert w[1..] == WrittenRows(rows[1..], u, c, now);
      LowestIdWritten(rows[1..], u, c, now);
    }
  }

  lemma {:induction false} JoinWritten(rows: seq<ServiceApplication>, services: seq<Service>, uuid: string,
                                       u: string, c: Column, now: string)
    ensures var before := JoinServiceApplication(rows, services, uuid);
            var after := JoinServiceApplication(WrittenRows(rows, u, c, now), services, uuid);
            && (after.Some? <==> before.Some?)
            && (before.Some? ==> after.value == (WrittenRow(before.value.0, u, c, now), before.value.1))
    decreases |rows|
  {
    if |rows| > 0 {
      WrittenRowsSplit(rows, u, c, now);
      var w := WrittenRows(rows, u, c, now);
      assert w[1..] == WrittenRows(rows[1..], u, c, now);
      JoinWritten(rows[1..], services, uuid, u, c, now);
    }
  }

  lemma {:induction false} FindApplicationWritten(rows: seq<Application>, uuid: string, u: string,
                                                  c: Column, now: string)
    ensures var before := FindApplication(rows, uuid);
            var after := FindApplication(WrittenApps(rows, u, c, now), uuid);
            && (after.Some? <==> before.Some?)
            && (before.Some? ==> after.value == WrittenApp(before.value, u, c, now))
    decreases |rows|
  {
    if |rows| > 0 {
      var w := WrittenApps(rows, u, c, now);
      assert w[1..] == WrittenApps(rows[1..], u, c, now);
      FindApplicationWritten(rows[1..], uuid, u, c, now);
    }
  }

  /** What resolving reports after an update keyed on `u`: the same target,
      whose current FQDN is the written one when the update set the FQDN of
      the target's own rows. */
  function AfterWrite(r: Resolution, table: Table, u: string, c: Column): Resolution {
    if r.Target? && r.kind.Table() == table && r.appUuid == u && c.FqdnColumn? then
      r.(currentFqdn := Some(c.newFqdn))
    else r
  }

  /** Writing a column keeps every row's uuid. */
  lemma UuidsWritten(s: Store, u: string, c: Column, now: string)
    ensures var s' := s.(serviceApplications := WrittenRows(s.serviceApplications, u, c, now));
            Uuids(s', ServiceApplicationsTable) == Uuids(s, ServiceApplicationsTable)
  {
    var w := WrittenRows(s.serviceApplications, u, c, now);
    assert forall i :: 0 <= i < |w| ==> w[i].uuid == s.serviceApplications[i].uuid;
  }

  lemma CandidateForWritten(s: Store, uuid: string, u: string, c: Column, now: string)
    ensures var s' := s.(serviceApplications := WrittenRows(s.serviceApplications, u, c, now));
            var before := CandidateFor(s, uuid);
            var after := CandidateFor(s', uuid);
            && (after.CandidateFailed? <==> before.CandidateFailed?)
            && (after.NoCandidate? <==> before.NoCandidate?)
            && (before.Candidate? ==> after.row == WrittenRow(before.row, u, c, now))
  {
    var rows := s.serviceApplications;
    var w := WrittenRows(rows, u, c, now);
    var s' := s.(serviceApplications := w);
    UuidsWritten(s, u, c, now);
    assert CountUuid(s', ServiceApplicationsTable, uuid) == CountUuid(s, ServiceApplicationsTable, uuid);
    FindFirstWritten(rows, uuid, u, c, now);
    var own := FindFirstByUuid(rows, uuid);
    if own.Some? {
      var sid := own.value.serviceId;
      assert FindFirstByUuid(w, uuid) == Some(WrittenRow(own.value, u, c, now));
      assert WrittenRow(own.value, u, c, now).serviceId == sid;
      CandidateRowsWritten(rows, sid, u, c, now);
      LowestIdWritten(CandidateRows(rows, sid), u, c, now);
      assert LowestId(CandidateRows(w, sid)) == WrittenOption(LowestId(CandidateRows(rows, sid)), u, c, now);
    }
  }

  lemma ResolveAfterServiceUpdate(s: Store, uuid: string, retarget: bool, faults: LookupFaults,
                                  u: string, c: Column, now: string)
    ensures var s' := s.(serviceApplications := WrittenRows(s.serviceApplications, u, c, now));
            Resolve(s', uuid, retarget, faults)
              == AfterWrite(Resolve(s, uuid, retarget, faults), ServiceApplicationsTable, u, c)
  {
    var s' := s.(serviceApplications := WrittenRows(s.serviceApplications, u, c, now));
    JoinWritten(s.serviceApplications, s.services, uuid, u, c, now);
    var j := if faults.serviceQueryFails then None else FindServiceApplication(s, uuid);
    var j' := if faults.serviceQueryFails then None else FindServiceApplication(s', uuid);
    if j.Some? {
      var row := j.value.0;
      var w := WrittenRow(row, u, c, now);
      var svc := Some(j.value.1.uuid);
      assert j'.value == (w, j.value.1);
      var base := Target(ServiceKind, row.uuid, row.name, row.fqdn, svc);
      var base' := Target(ServiceKind, w.uuid, w.name, w.fqdn, svc);
      assert base' == AfterWrite(base, ServiceApplicationsTable, u, c);
      if retarget {
        CandidateForWritten(s, uuid, u, c, now);
        var cf := CandidateFor(s, uuid);
        if cf.Candidate? {
          var x := cf.row;
          var x' := WrittenRow(x, u, c, now);
          assert CandidateFor(s', uuid) == Candidate(x');
          assert Resolve(s, uuid, true, faults) == base.(appUuid := x.uuid, appName := x.name, currentFqdn := x.fqdn);
          assert Resolve(s', uuid, true, faults)
              == base'.(appUuid := x'.uuid, appName := x'.name, currentFqdn := x'.fqdn);
        } else {
          assert Resolve(s, uuid, true, faults) == base;
          assert Resolve(s', uuid, true, faults) == base';
        }
      } else {
        assert Resolve(s, uuid, false, faults) == base;
        assert Resolve(s', uuid, false, faults) == base';
      }
    } else {
      assert j'.None?;
    }
  }

  lemma ResolveAfterApplicationUpdate(s: Store, uuid: string, retarget: bool, faults: LookupFaults,
                                      u: string, c: Column, now: string)
    ensures var s' := s.(applications := WrittenApps(s.applications, u, c, now));
            Resolve(s', uuid, retarget, faults)
              == AfterWrite(Resolve(s, uuid, retarget, faults), ApplicationsTable, u, c)
  {
    var s' := s.(applications := WrittenApps(s.applications, u, c, now));
    ServiceSideUnchanged(s, s', uuid);
    FindApplicationWritten(s.applications, uuid, u, c, now);
  }

  /** Service lookups read only `service_applications` and `services`. */
  lemma ServiceSideUnchanged(s: Store, s': Store, uuid: string)
    requires s'.serviceApplications == s.serviceApplications && s'.services == s.services
    ensures FindServiceApplication(s', uuid) == FindServiceApplication(s, uuid)
    ensures CandidateFor(s', uuid) == CandidateFor(s, uuid)
  {
    assert Uuids(s', ServiceApplicationsTable) == Uuids(s, ServiceApplicationsTable);
  }

  /** Resolving after an update finds the same target; only its current
      FQDN can differ, and only when the update wrote the target's FQDN. */
  lemma ResolveAfterUpdate(s: Store, uuid: string, retarget: bool, faults: LookupFaults,
                           table: Table, u: string, c: Column, now: string)
    ensures Resolve(Update(s, table, u, c, now), uuid, retarget, faults)
         == AfterWrite(Resolve(s, uuid, retarget, faults), table, u, c)
  {
    match table
    case ServiceApplicationsTable =>
      ResolveAfterServiceUpdate(s, uuid, retarget, faults, u, c, now);
    case ApplicationsTable =>
      ResolveAfterApplicationUpdate(s, uuid, retarget, faults, u, c, now);
  }
}
