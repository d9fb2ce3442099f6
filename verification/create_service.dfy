/** The service-creation endpoint (`create-service.php`): validate a JSON
    body and insert a new row into `services` under a fresh random
    identifier. */
module CreateServiceEndpoint {
  import opened Wrappers
  import opened Strings
  import opened Php
  import opened Tables
  import opened Upstream
  import Hex

  /** The request: the `key` query parameter and the body after
      `json_decode(..., true)` (`Null` when it is not JSON). */
  datatype Request = Request(key: Option<string>, body: Value)

  /** The JSON bodies the endpoint answers with. */
  datatype Response =
    | Unauthorized
    | InvalidBody
    | MissingField(field: string)
    | DatabaseUnavailable
    | CreateFailed(details: string)
    | Created(uuid: string)
  {
    /** The HTTP status sent with the body. */
    function Status(): int {
      match this
      case Unauthorized => 401
      case InvalidBody => 400
      case MissingField(_) => 400
      case DatabaseUnavailable => 500
      case CreateFailed(_) => 500
      case Created(_) => 201
    }
  }

  /** The fields a body must carry, in the order they are checked. */
  const RequiredFields: seq<string> :=
    ["name", "template_id", "fqdn", "project_uuid", "environment_name", "server_uuid", "destination_uuid"]

  /** `$data[$field]` read inside `empty()`. */
  function Field(data: Value, name: string): Value { Get(data, FieldKey(name)) }

  /** The first of `fields` whose value in `data` is PHP-empty. */
  function FirstEmptyField(data: Value, fields: seq<string>): (r: Option<string>)
    ensures r.None? <==> forall i :: 0 <= i < |fields| ==> !IsEmpty(Field(data, fields[i]))
    ensures r.Some? ==> exists i :: 0 <= i < |fields| && fields[i] == r.value
                          && IsEmpty(Field(data, fields[i]))
                          && forall j :: 0 <= j < i ==> !IsEmpty(Field(data, fields[j]))
    decreases |fields|
  {
    if |fields| == 0 then None
    else if IsEmpty(Field(data, fields[0])) then Some(fields[0])
    else
      var r := FirstEmptyField(data, fields[1..]);
      assert forall i :: 1 <= i < |fields| ==> fields[1..][i - 1] == fields[i];
      assert r.Some? ==> exists i :: 0 <= i < |fields| && fields[i] == r.value
                          && IsEmpty(Field(data, fields[i]))
                          && forall j :: 0 <= j < i ==> !IsEmpty(Field(data, fields[j])) by {
        if r.Some? {
          var i :| 0 <= i < |fields[1..]| && fields[1..][i] == r.value
                   && IsEmpty(Field(data, fields[1..][i]))
                   && forall j :: 0 <= j < i ==> !IsEmpty(Field(data, fields[1..][j]));
          assert forall j :: 0 <= j < i + 1 ==> !IsEmpty(Field(data, fields[j])) by {
            forall j | 0 <= j < i + 1 ensures !IsEmpty(Field(data, fields[j])) {
              if j > 0 {
                assert fields[j] == fields[1..][j - 1];
              }
            }
          }
        }
      }
      r
  }

  /** `$data['description'] ?? ''`. */
  function Description(data: Value): (v: Value)
    ensures v != Null
    ensures Field(data, "description") != Null ==> v == Field(data, "description")
    ensures Field(data, "description") == Null ==> v == Str("")
  {
    if Field(data, "description") == Null then Str("") else Field(data, "description")
  }

  /** The row the INSERT writes; `id` is what the database assigns. */
  function NewService(id: nat, uuid: string, data: Value, now: string): (row: Service)
    ensures row.uuid == uuid && row.id == id
    ensures row.name == Field(data, "name") && row.description == Description(data)
    ensures row.templateId == IntCast(Field(data, "template_id"))
    ensures row.projectUuid == Field(data, "project_uuid")
    ensures row.environmentName == Field(data, "environment_name")
    ensures row.serverUuid == Field(data, "server_uuid")
    ensures row.destinationUuid == Field(data, "destination_uuid")
    ensures row.status == "created" && row.createdAt == now && row.updatedAt == now
  {
    Service(id, uuid, Field(data, "name"), Description(data), IntCast(Field(data, "template_id")),
            Field(data, "project_uuid"), Field(data, "environment_name"), Field(data, "server_uuid"),
            Field(data, "destination_uuid"), "created", now, now)
  }

  /** Handle one request against store `s`. `conn` is the outcome of
      connecting to the database, `random` the 8 bytes `random_bytes(8)`
      returns, `now` the formatted clock, `id` the identifier the database
      assigns to the row, and `insertError` the error the INSERT raises, if
      it raises one. */
  function CreateService(req: Request, s: Store, conn: Connection, random: seq<Hex.Byte>, now: string,
                         id: nat, insertError: Option<string>): (o: Outcome<Response>)
    requires |random| == 8
    ensures o.calls == []
    ensures o.response.Unauthorized? <==> IsEmptyString(req.key.GetOr(""))
    ensures !o.response.Created? ==> o.store == s
    ensures o.response.InvalidBody? ==> IsEmpty(req.body)
    ensures o.response.MissingField? ==>
      && !IsEmpty(req.body)
      && FirstEmptyField(req.body, RequiredFields) == Some(o.response.field)
    ensures o.response.Created? ==>
      && !IsEmptyString(req.key.GetOr("")) && !IsEmpty(req.body)
      && (forall i :: 0 <= i < |RequiredFields| ==> !IsEmpty(Field(req.body, RequiredFields[i])))
      && conn.Connected? && insertError.None?
      && |o.response.uuid| == 16
      && (forall i :: 0 <= i < 16 ==> Hex.IsLowerHexDigit(o.response.uuid[i]))
      && Hex.Decode(o.response.uuid) == Some(random)
      && o.store == s.(services := s.services + [NewService(id, o.response.uuid, req.body, now)])
  {
    if IsEmptyString(req.key.GetOr("")) then Outcome(Unauthorized, s, [])
    else if IsEmpty(req.body) then Outcome(InvalidBody, s, [])
    else
      match FirstEmptyField(req.body, RequiredFields)
      case Some(f) => Outcome(MissingField(f), s, [])
      case None =>
        if conn.ConnectFailed? then Outcome(DatabaseUnavailable, s, [])
        else
          var uuid := Hex.Encode(random);
          Hex.DecodeEncode(random);
          match insertError
          case Some(e) => Outcome(CreateFailed(e), s, [])
          case None =>
            Outcome(Created(uuid), s.(services := s.services + [NewService(id, uuid, req.body, now)]), [])
  }

  /** For a request with a key, each answer is given exactly when its own
      check is the first to fail: the body, then the fields in order, then
      the connection, then the INSERT. */
  lemma CreateServiceOutcomes(req: Request, s: Store, conn: Connection, random: seq<Hex.Byte>, now: string,
                              id: nat, insertError: Option<string>)
    requires |random| == 8
    requires !IsEmptyString(req.key.GetOr(""))
    ensures var r := CreateService(req, s, conn, random, now, id, insertError).response;
            var fieldsOk := !IsEmpty(req.body) && FirstEmptyField(req.body, RequiredFields).None?;
            && (r.InvalidBody? <==> IsEmpty(req.body))
            && (forall f :: r == MissingField(f) <==>
                  !IsEmpty(req.body) && FirstEmptyField(req.body, RequiredFields) == Some(f))
            && (r.DatabaseUnavailable? <==> fieldsOk && conn.ConnectFailed?)
            && (r.CreateFailed? <==> fieldsOk && conn.Connected? && insertError.Some?)
            && (r.CreateFailed? ==> r.details == insertError.value)
            && (r.Created? <==> fieldsOk && conn.Connected? && insertError.None?)
  {
  }

  /** A created service is the one new row: every other table is untouched
      and the existing services stay as they were, in front of it. */
  lemma CreatedAddsOneRow(req: Request, s: Store, conn: Connection, random: seq<Hex.Byte>, now: string,
                          id: nat, insertError: Option<string>)
    requires |random| == 8
    requires CreateService(req, s, conn, random, now, id, insertError).response.Created?
    ensures var o := CreateService(req, s, conn, random, now, id, insertError);
            && |o.store.services| == |s.services| + 1
            && o.store.services[..|s.services|] == s.services
            && o.store.services[|s.services|].uuid == o.response.uuid
            && o.store.applications == s.applications
            && o.store.serviceApplications == s.serviceApplications
            && o.store.deploymentLogs == s.deploymentLogs
  {
    var o := CreateService(req, s, conn, random, now, id, insertError);
    assert o.store.services[..|s.services|] == s.services;
  }

  /** Two creations with different random bytes get different identifiers. */
  lemma DistinctRandomDistinctUuids(req: Request, s: Store, conn: Connection, now: string, id: nat,
                                    r1: seq<Hex.Byte>, r2: seq<Hex.Byte>)
    requires |r1| == 8 && |r2| == 8 && r1 != r2
    requires CreateService(req, s, conn, r1, now, id, None).response.Created?
    ensures CreateService(req, s, conn, r1, now, id, None).response.uuid
         != CreateService(req, s, conn, r2, now, id, None).response.uuid
  {
    if Hex.Encode(r1) == Hex.Encode(r2) {
      Hex.EncodeInjective(r1, r2);
    }
  }

  /** The field checks run in the listed order: a body missing both `name`
      and `fqdn` is reported as missing `name`. */
  lemma NameCheckedFirst(req: Request, s: Store, conn: Connection, random: seq<Hex.Byte>, now: string,
                         id: nat, insertError: Option<string>)
    requires |random| == 8
    requires !IsEmptyString(req.key.GetOr("")) && !IsEmpty(req.body)
    requires IsEmpty(Field(req.body, "name"))
    ensures CreateService(req, s, conn, random, now, id, insertError).response == MissingField("name")
  {
  }
}
