/** The platform's tables the handlers read and write, as an in-memory
    store: each table is a sequence of rows in storage order. */
module Tables {
  import opened Wrappers
  import opened Php

  /** The `env_variables` column: absent, text the platform wrote, or the
      JSON encoding of a value the environment endpoint wrote. */
  datatype EnvBlob = NoEnv | RawEnv(text: string) | EncodedEnv(value: Value)

  /** A row of `applications`. */
  datatype Application = Application(
    id: nat, uuid: string, name: string, fqdn: Option<string>,
    envVariables: EnvBlob, updatedAt: string)

  /** A row of `service_applications`; `serviceId` refers to `services.id`. */
  datatype ServiceApplication = ServiceApplication(
    id: nat, serviceId: nat, uuid: string, name: string, fqdn: Option<string>,
    envVariables: EnvBlob, updatedAt: string)

  /** A row of `services`, with the columns the creation endpoint writes.
      Column values other than the identifiers hold the bound PHP value. */
  datatype Service = Service(
    id: nat, uuid: string, name: Value, description: Value, templateId: int,
    projectUuid: Value, environmentName: Value, serverUuid: Value,
    destinationUuid: Value, status: string, createdAt: string, updatedAt: string)

  /** A row of `application_deployment_logs`; `createdAt` is the timestamp
      as a number, so that later means larger. */
  datatype LogEntry = LogEntry(
    id: nat, applicationId: Option<string>, serviceId: Option<string>,
    message: string, level: string, createdAt: int)

  datatype Store = Store(
    applications: seq<Application>,
    services: seq<Service>,
    serviceApplications: seq<ServiceApplication>,
    deploymentLogs: seq<LogEntry>)

  /** Whether `new PDO(...)` succeeded; the failure carries the driver's
      message. */
  datatype Connection = Connected | ConnectFailed(message: string)

  /** The two tables that hold deployable resources. */
  datatype Table = ApplicationsTable | ServiceApplicationsTable

  /** The column an UPDATE sets, besides `updated_at = NOW()`. */
  datatype Column = FqdnColumn(newFqdn: string) | EnvColumn(blob: EnvBlob)

  /** Identifiers are unique within each table. */
  predicate UniqueUuids(s: Store) {
    && (forall i, j :: 0 <= i < j < |s.applications| ==>
          s.applications[i].uuid != s.applications[j].uuid)
    && (forall i, j :: 0 <= i < j < |s.serviceApplications| ==>
          s.serviceApplications[i].uuid != s.serviceApplications[j].uuid)
  }

  function WriteApplication(a: Application, c: Column, now: string): Application {
    match c
    case FqdnColumn(f) => a.(fqdn := Some(f), updatedAt := now)
    case EnvColumn(b) => a.(envVariables := b, updatedAt := now)
  }

  function WriteServiceApplication(a: ServiceApplication, c: Column, now: string): ServiceApplication {
    match c
    case FqdnColumn(f) => a.(fqdn := Some(f), updatedAt := now)
    case EnvColumn(b) => a.(envVariables := b, updatedAt := now)
  }

  /** The uuid column of `table`, in storage order. */
  function Uuids(s: Store, table: Table): (us: seq<string>)
    ensures table.ApplicationsTable? ==> |us| == |s.applications|
    ensures table.ServiceApplicationsTable? ==> |us| == |s.serviceApplications|
  {
    match table
    case ApplicationsTable => seq(|s.applications|, i requires 0 <= i < |s.applications| => s.applications[i].uuid)
    case ServiceApplicationsTable =>
      seq(|s.serviceApplications|, i requires 0 <= i < |s.serviceApplications| => s.serviceApplications[i].uuid)
  }

  /** Number of occurrences of `u` in `us`. */
  function Occurrences(us: seq<string>, u: string): nat
    decreases |us|
  {
    if |us| == 0 then 0
    else (if us[|us| - 1] == u then 1 else 0) + Occurrences(us[..|us| - 1], u)
  }

  lemma {:induction false} OccurrencesZero(us: seq<string>, u: string)
    ensures Occurrences(us, u) == 0 <==> forall i :: 0 <= i < |us| ==> us[i] != u
    decreases |us|
  {
    if |us| > 0 {
      OccurrencesZero(us[..|us| - 1], u);
    }
  }

  lemma {:induction false} OccurrencesOne(us: seq<string>, u: string, k: nat)
    requires k < |us| && us[k] == u
    requires forall i, j :: 0 <= i < j < |us| ==> us[i] != us[j]
    ensures Occurrences(us, u) == 1
    decreases |us|
  {
    var init := us[..|us| - 1];
    if k == |us| - 1 {
      OccurrencesZero(init, u);
    } else {
      OccurrencesOne(init, u, k);
    }
  }

  /** Number of rows of `table` whose uuid is `uuid`: the row count the
      UPDATE reports. */
  function CountUuid(s: Store, table: Table, uuid: string): nat {
    Occurrences(Uuids(s, table), uuid)
  }

  /** A `service_applications` row after `UPDATE ... WHERE uuid = u`. */
  function WrittenRow(x: ServiceApplication, u: string, c: Column, now: string): ServiceApplication {
    if x.uuid == u then WriteServiceApplication(x, c, now) else x
  }

  function WrittenRows(rows: seq<ServiceApplication>, u: string, c: Column, now: string)
    : (r: seq<ServiceApplication>)
    ensures |r| == |rows| && forall i :: 0 <= i < |rows| ==> r[i] == WrittenRow(rows[i], u, c, now)
  {
    seq(|rows|, i requires 0 <= i < |rows| => WrittenRow(rows[i], u, c, now))
  }

  /** An `applications` row after `UPDATE ... WHERE uuid = u`. */
  function WrittenApp(x: Application, u: string, c: Column, now: string): Application {
    if x.uuid == u then WriteApplication(x, c, now) else x
  }

  function WrittenApps(rows: seq<Application>, u: string, c: Column, now: string): (r: seq<Application>)
    ensures |r| == |rows| && forall i :: 0 <= i < |rows| ==> r[i] == WrittenApp(rows[i], u, c, now)
  {
    seq(|rows|, i requires 0 <= i < |rows| => WrittenApp(rows[i], u, c, now))
  }

  /** `UPDATE <table> SET <column>, updated_at = NOW() WHERE uuid = :uuid`. */
  function Update(s: Store, table: Table, uuid: string, c: Column, now: string): Store {
    match table
    case ApplicationsTable => s.(applications := WrittenApps(s.applications, uuid, c, now))
    case ServiceApplicationsTable => s.(serviceApplications := WrittenRows(s.serviceApplications, uuid, c, now))
  }

  /** `after` is `before` with `c` (and `updated_at`) written to exactly the
      rows of `table` whose uuid is `uuid`: nothing else in any table differs. */
  predicate WrittenOnly(before: Store, after: Store, table: Table, uuid: string, c: Column, now: string) {
    && after.services == before.services
    && after.deploymentLogs == before.deploymentLogs
    && match table
       case ApplicationsTable =>
         && after.serviceApplications == before.serviceApplications
         && |after.applications| == |before.applications|
         && (forall i :: 0 <= i < |before.applications| ==>
               after.applications[i] ==
                 if before.applications[i].uuid == uuid
                 then WriteApplication(before.applications[i], c, now)
                 else before.applications[i])
       case ServiceApplicationsTable =>
         && after.applications == before.applications
         && |after.serviceApplications| == |before.serviceApplications|
         && (forall i :: 0 <= i < |before.serviceApplications| ==>
               after.serviceApplications[i] ==
                 if before.serviceApplications[i].uuid == uuid
                 then WriteServiceApplication(before.serviceApplications[i], c, now)
                 else before.serviceApplications[i])
  }

  /** The update changes only the matching rows, and only in the written
      column; when no row matches it changes nothing. */
  lemma UpdateWritesOnly(s: Store, table: Table, uuid: string, c: Column, now: string)
    ensures WrittenOnly(s, Update(s, table, uuid, c, now), table, uuid, c, now)
    ensures CountUuid(s, table, uuid) == 0 ==> Update(s, table, uuid, c, now) == s
  {
    var u := Update(s, table, uuid, c, now);
    if CountUuid(s, table, uuid) == 0 {
      var us := Uuids(s, table);
      OccurrencesZero(us, uuid);
      match table
      case ApplicationsTable =>
        assert forall i :: 0 <= i < |s.applications| ==> us[i] == s.applications[i].uuid;
        assert u.applications == s.applications;
      case ServiceApplicationsTable =>
        assert forall i :: 0 <= i < |s.serviceApplications| ==> us[i] == s.serviceApplications[i].uuid;
        assert u.serviceApplications == s.serviceApplications;
    }
  }

  /** Repeating an update with the same values changes nothing more. */
  lemma UpdateTwice(s: Store, table: Table, uuid: string, c: Column, now: string)
    ensures Update(Update(s, table, uuid, c, now), table, uuid, c, now) == Update(s, table, uuid, c, now)
  {
  }

  /** A row with the uuid exists, so the update reports at least one row;
      with unique identifiers, exactly one. */
  lemma CountOfPresent(s: Store, table: Table, uuid: string)
    requires uuid in Uuids(s, table)
    ensures CountUuid(s, table, uuid) >= 1
    ensures UniqueUuids(s) ==> CountUuid(s, table, uuid) == 1
  {
    var us := Uuids(s, table);
    var k :| 0 <= k < |us| && us[k] == uuid;
    OccurrencesZero(us, uuid);
    if UniqueUuids(s) {
      OccurrencesOne(us, uuid, k);
    }
  }
}
