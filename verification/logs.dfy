/** The log endpoint (`logs.php`): the most recent deployment log entries
    of a resource named by its uuid, or by a fragment of its FQDN. The
    endpoint only reads. */
module LogsEndpoint {
  import opened Wrappers
  import opened Strings
  import opened Php
  import opened Tables
  import opened SqlLike
  import opened Upstream

  /** The query string: `key`, `uuid`, `fqdn` and `limit`, each possibly
      absent. */
  datatype Request = Request(key: Option<string>, uuid: Option<string>, fqdn: Option<string>,
                             limit: Option<string>)

  /** The JSON bodies the endpoint answers with. `QueryFailed` is the
      uncaught database error a negative `LIMIT` raises. */
  datatype Response =
    | Unauthorized
    | IdentifierMissing
    | DatabaseUnavailable(details: string)
    | NoFqdnMatch(fqdn: string)
    | QueryFailed
    | UuidLogs(uuid: string, logCount: nat, logs: seq<LogEntry>)
    | FqdnLogs(fqdn: string, uuid: string, logCount: nat, logs: seq<LogEntry>)
  {
    /** The HTTP status sent with the body. */
    function Status(): int {
      match this
      case Unauthorized => 401
      case IdentifierMissing => 400
      case DatabaseUnavailable(_) => 500
      case NoFqdnMatch(_) => 404
      case QueryFailed => 500
      case UuidLogs(_, _, _) => 200
      case FqdnLogs(_, _, _, _) => 200
    }
  }

  /** The number of entries returned when `limit` is absent. */
  const DefaultLimit: int := 100

  /** `isset($_GET['limit']) ? intval($_GET['limit']) : 100`. */
  function Limit(req: Request): (n: int)
    ensures req.limit.None? ==> n == DefaultLimit
    ensures IntMin <= n <= IntMax
  {
    if req.limit.Some? then Intval(req.limit.value) else DefaultLimit
  }

  // ---------------------------------------------------------------------
  // The log query
  // ---------------------------------------------------------------------

  /** `application_id = :uuid OR service_id = :uuid`. */
  predicate Matches(e: LogEntry, u: string) { e.applicationId == Some(u) || e.serviceId == Some(u) }

  /** The rows the WHERE clause keeps, in storage order. */
  function MatchingLogs(logs: seq<LogEntry>, u: string): (r: seq<LogEntry>)
    ensures forall e :: e in r ==> Matches(e, u)
    ensures forall e :: Matches(e, u) ==> multiset(r)[e] == multiset(logs)[e]
    ensures multiset(r) <= multiset(logs)
    decreases |logs|
  {
    if |logs| == 0 then []
    else
      var rest := MatchingLogs(logs[1..], u);
      assert logs == [logs[0]] + logs[1..];
      if Matches(logs[0], u) then [logs[0]] + rest else rest
  }

  /** `ORDER BY created_at DESC`. */
  predicate NewestFirst(r: seq<LogEntry>) {
    forall i, j :: 0 <= i < j < |r| ==> r[i].createdAt >= r[j].createdAt
  }

  /** The head of a newest-first list is at least as new as every entry. */
  lemma HeadIsNewest(r: seq<LogEntry>, y: LogEntry)
    requires NewestFirst(r) && y in r
    ensures r[0].createdAt >= y.createdAt
  {
    var j :| 0 <= j < |r| && r[j] == y;
    if j > 0 {
      assert r[0].createdAt >= r[j].createdAt;
    }
  }

  /** An entry at least as new as every entry of a newest-first list can go
      in front of it. */
  lemma ConsNewest(h: LogEntry, t: seq<LogEntry>)
    requires NewestFirst(t)
    requires forall y :: y in t ==> h.createdAt >= y.createdAt
    ensures NewestFirst([h] + t)
  {
    var q := [h] + t;
    forall i, j | 0 <= i < j < |q| ensures q[i].createdAt >= q[j].createdAt {
      assert q[j] == t[j - 1];
      if i > 0 {
        assert q[i] == t[i - 1];
      }
    }
  }

  /** Put `x` into a newest-first list, before the entries as old as it. */
  function Insert(x: LogEntry, r: seq<LogEntry>): (q: seq<LogEntry>)
    requires NewestFirst(r)
    ensures NewestFirst(q)
    ensures forall y :: y in q <==> y == x || y in r
    ensures multiset(q) == multiset(r) + multiset{x}
    decreases |r|
  {
    if |r| == 0 || r[0].createdAt <= x.createdAt then
      forall y | y in r ensures x.createdAt >= y.createdAt {
        HeadIsNewest(r, y);
      }
      ConsNewest(x, r);
      [x] + r
    else
      assert r == [r[0]] + r[1..];
      var tail := Insert(x, r[1..]);
      forall y | y in tail ensures r[0].createdAt >= y.createdAt {
        if y != x {
          HeadIsNewest(r, y);
        }
      }
      ConsNewest(r[0], tail);
      [r[0]] + tail
  }

  /** Sort newest first; entries of equal age keep their storage order. */
  function SortNewestFirst(xs: seq<LogEntry>): (r: seq<LogEntry>)
    ensures NewestFirst(r)
    ensures forall y :: y in r <==> y in xs
    ensures multiset(r) == multiset(xs)
    decreases |xs|
  {
    if |xs| == 0 then []
    else
      assert xs == [xs[0]] + xs[1..];
      Insert(xs[0], SortNewestFirst(xs[1..]))
  }

  /** An occurrence a prefix lacks lies in the rest of the list. */
  lemma MissingFromPrefix(s: seq<LogEntry>, k: nat, e: LogEntry)
    requires k <= |s|
    requires multiset(s[..k])[e] < multiset(s)[e]
    ensures e in s[k..]
  {
    assert s == s[..k] + s[k..];
    assert multiset(s) == multiset(s[..k]) + multiset(s[k..]);
  }

  /** What a newest-first list leaves out past position `k` is no newer
      than anything it keeps. */
  lemma DroppedAreOlder(sorted: seq<LogEntry>, k: nat, e: LogEntry)
    requires NewestFirst(sorted) && k <= |sorted| && e in sorted[k..]
    ensures forall x :: x in sorted[..k] ==> e.createdAt <= x.createdAt
  {
    var j :| k <= j < |sorted| && sorted[j] == e;
    forall x | x in sorted[..k] ensures e.createdAt <= x.createdAt {
      var i :| 0 <= i < k && sorted[i] == x;
      assert sorted[i].createdAt >= sorted[j].createdAt;
    }
  }

  /** A prefix of a newest-first list is newest first and a sub-multiset. */
  lemma KeptPart(sorted: seq<LogEntry>, k: nat)
    requires NewestFirst(sorted) && k <= |sorted|
    ensures NewestFirst(sorted[..k])
    ensures forall x :: x in sorted[..k] ==> x in sorted
    ensures multiset(sorted[..k]) <= multiset(sorted)
  {
    assert sorted == sorted[..k] + sorted[k..];
    assert multiset(sorted) == multiset(sorted[..k]) + multiset(sorted[k..]);
  }

  /** The log query: the first `limit` entries for `u`, newest first. */
  function RecentLogs(logs: seq<LogEntry>, u: string, limit: nat): (r: seq<LogEntry>)
    ensures forall e :: e in r ==> Matches(e, u)
    ensures NewestFirst(r)
    ensures multiset(r) <= multiset(logs)
    ensures |r| == if limit < |MatchingLogs(logs, u)| then limit else |MatchingLogs(logs, u)|
    ensures |r| < limit ==> forall e :: Matches(e, u) ==> multiset(r)[e] == multiset(logs)[e]
    ensures forall e :: Matches(e, u) && multiset(r)[e] < multiset(logs)[e] ==>
              forall x :: x in r ==> e.createdAt <= x.createdAt
  {
    var m := MatchingLogs(logs, u);
    var sorted := SortNewestFirst(m);
    var k := if limit < |sorted| then limit else |sorted|;
    RecentShape(logs, u, m, sorted, k);
    RecentComplete(logs, u, sorted, k);
    sorted[..k]
  }

  /** The kept prefix holds only matches, newest first, and is as long as
      the limit allows. */
  lemma RecentShape(logs: seq<LogEntry>, u: string, m: seq<LogEntry>, sorted: seq<LogEntry>, k: nat)
    requires m == MatchingLogs(logs, u) && sorted == SortNewestFirst(m) && k <= |sorted|
    ensures var r := sorted[..k];
            && (forall e :: e in r ==> Matches(e, u))
            && NewestFirst(r)
            && multiset(r) <= multiset(logs)
            && |sorted| == |m|
  {
    assert |sorted| == |multiset(sorted)| == |multiset(m)| == |m|;
    KeptPart(sorted, k);
  }

  /** Whatever the kept prefix misses is no newer than what it keeps, and
      nothing is missed when all matches fit. */
  lemma RecentComplete(logs: seq<LogEntry>, u: string, sorted: seq<LogEntry>, k: nat)
    requires NewestFirst(sorted) && k <= |sorted|
    requires forall e :: Matches(e, u) ==> multiset(sorted)[e] == multiset(logs)[e]
    ensures var r := sorted[..k];
            && (k == |sorted| ==> forall e :: Matches(e, u) ==> multiset(r)[e] == multiset(logs)[e])
            && (forall e :: Matches(e, u) && multiset(r)[e] < multiset(logs)[e] ==>
                  forall x :: x in r ==> e.createdAt <= x.createdAt)
  {
    var r := sorted[..k];
    assert k == |sorted| ==> r == sorted;
    forall e | Matches(e, u) && multiset(r)[e] < multiset(logs)[e]
      ensures forall x :: x in r ==> e.createdAt <= x.createdAt
    {
      MissingFromPrefix(sorted, k, e);
      DroppedAreOlder(sorted, k, e);
    }
  }

  // ---------------------------------------------------------------------
  // The FQDN search
  // ---------------------------------------------------------------------

  /** A stored FQDN the search pattern matches (a NULL one never does). */
  predicate FqdnMatches(fqdn: Option<string>, f: string) {
    fqdn.Some? && Like(fqdn.value, SubstringPattern(f))
  }

  /** The uuids of the rows whose FQDN the pattern matches, in storage
      order; `uuid` and `fqdn` read the two columns of a row. */
  function MatchingUuids<R(!new)>(rows: seq<R>, uuid: R -> string, fqdn: R -> Option<string>, f: string)
    : (us: seq<string>)
    ensures forall u :: u in us <==> exists a :: a in rows && FqdnMatches(fqdn(a), f) && uuid(a) == u
    decreases |rows|
  {
    if |rows| == 0 then []
    else
      var rest := MatchingUuids(rows[1..], uuid, fqdn, f);
      assert forall a :: a in rows <==> a == rows[0] || a in rows[1..];
      if FqdnMatches(fqdn(rows[0]), f) then [uuid(rows[0])] + rest else rest
  }

  function MatchingApplications(s: Store, f: string): seq<string> {
    MatchingUuids(s.applications, (a: Application) => a.uuid, (a: Application) => a.fqdn, f)
  }

  function MatchingServiceApplications(s: Store, f: string): seq<string> {
    MatchingUuids(s.serviceApplications, (a: ServiceApplication) => a.uuid, (a: ServiceApplication) => a.fqdn, f)
  }

  /** The uuids the UNION of the two searches can yield. */
  predicate IsFqdnHit(s: Store, f: string, u: string) {
    || (exists a :: a in s.applications && FqdnMatches(a.fqdn, f) && a.uuid == u)
    || (exists a :: a in s.serviceApplications && FqdnMatches(a.fqdn, f) && a.uuid == u)
  }

  /** `SELECT uuid FROM applications WHERE fqdn LIKE '%f%' UNION SELECT uuid
      FROM service_applications WHERE fqdn LIKE '%f%' LIMIT 1`. The query
      fixes no order, so which hit comes back is the input `pick`. */
  function FindByFqdn(s: Store, f: string, pick: nat): (r: Option<string>)
    ensures r.Some? ==> IsFqdnHit(s, f, r.value)
    ensures r.None? <==> forall u :: !IsFqdnHit(s, f, u)
  {
    var us := MatchingApplications(s, f) + MatchingServiceApplications(s, f);
    if |us| == 0 then
      forall u ensures !IsFqdnHit(s, f, u) {
        assert u !in MatchingApplications(s, f);
        assert u !in MatchingServiceApplications(s, f);
      }
      None
    else
      var v := us[pick % |us|];
      assert v in us;
      assert IsFqdnHit(s, f, v);
      Some(v)
  }

  /** For a fragment without wildcards, a hit is a row whose FQDN contains
      the fragment. */
  lemma FqdnHitIsSubstring(s: Store, f: string, u: string)
    requires NoWildcards(f)
    ensures IsFqdnHit(s, f, u) <==>
      || (exists a :: a in s.applications && a.fqdn.Some? && Contains(a.fqdn.value, f) && a.uuid == u)
      || (exists a :: a in s.serviceApplications && a.fqdn.Some? && Contains(a.fqdn.value, f) && a.uuid == u)
  {
    forall t: string ensures Like(t, SubstringPattern(f)) <==> Contains(t, f) {
      LikeSubstring(t, f);
    }
  }

  // ---------------------------------------------------------------------
  // The handler
  // ---------------------------------------------------------------------

  /** Handle one request against store `s`. `conn` is the outcome of
      connecting to the database and `pick` selects among the FQDN hits. */
  function HandleLogs(req: Request, s: Store, conn: Connection, pick: nat): (o: Outcome<Response>)
    ensures o.store == s && o.calls == []
    ensures o.response.Unauthorized? <==> IsEmptyString(req.key.GetOr(""))
    ensures o.response.IdentifierMissing? <==>
      !IsEmptyString(req.key.GetOr("")) && IsEmptyString(req.uuid.GetOr("")) && IsEmptyString(req.fqdn.GetOr(""))
    ensures o.response.UuidLogs? ==>
      && Truthy(req.uuid) && o.response.uuid == req.uuid.value
      && o.response.logCount == |o.response.logs|
      && 0 <= Limit(req) && o.response.logs == RecentLogs(s.deploymentLogs, req.uuid.value, Limit(req))
    ensures o.response.FqdnLogs? ==>
      && !Truthy(req.uuid) && Truthy(req.fqdn) && o.response.fqdn == req.fqdn.value
      && IsFqdnHit(s, req.fqdn.value, o.response.uuid)
      && o.response.logCount == |o.response.logs|
      && 0 <= Limit(req) && o.response.logs == RecentLogs(s.deploymentLogs, o.response.uuid, Limit(req))
    ensures o.response.NoFqdnMatch? ==>
      !Truthy(req.uuid) && Truthy(req.fqdn) && forall u :: !IsFqdnHit(s, req.fqdn.value, u)
    ensures o.response.QueryFailed? ==> Limit(req) < 0
  {
    var key := req.key.GetOr("");
    var uuid := req.uuid.GetOr("");
    var fqdn := req.fqdn.GetOr("");
    var limit := Limit(req);
    if IsEmptyString(key) then Outcome(Unauthorized, s, [])
    else if IsEmptyString(uuid) && IsEmptyString(fqdn) then Outcome(IdentifierMissing, s, [])
    else if conn.ConnectFailed? then Outcome(DatabaseUnavailable(conn.message), s, [])
    else if !IsEmptyString(uuid) then
      if limit < 0 then Outcome(QueryFailed, s, [])
      else
        var logs := RecentLogs(s.deploymentLogs, uuid, limit);
        Outcome(UuidLogs(uuid, |logs|, logs), s, [])
    else
      match FindByFqdn(s, fqdn, pick)
      case None => Outcome(NoFqdnMatch(fqdn), s, [])
      case Some(u) =>
        if limit < 0 then Outcome(QueryFailed, s, [])
        else
          var logs := RecentLogs(s.deploymentLogs, u, limit);
          Outcome(FqdnLogs(fqdn, u, |logs|, logs), s, [])
  }

  /** A non-empty `uuid` decides the answer alone: the `fqdn` parameter and
      the choice among FQDN hits play no part. */
  lemma UuidTakesPrecedence(req: Request, s: Store, conn: Connection, pick: nat,
                            otherFqdn: Option<string>, otherPick: nat)
    requires Truthy(req.uuid)
    ensures HandleLogs(req, s, conn, pick) == HandleLogs(req.(fqdn := otherFqdn), s, conn, otherPick)
  {
  }

  /** Which answer an authorised request naming a uuid or an FQDN gets:
      500 without a database, then 404 when an FQDN search finds nothing,
      then the database error a negative limit raises, and otherwise the
      logs. */
  lemma LogsOutcomes(req: Request, s: Store, conn: Connection, pick: nat)
    requires !IsEmptyString(req.key.GetOr("")) && (Truthy(req.uuid) || Truthy(req.fqdn))
    ensures var o := HandleLogs(req, s, conn, pick);
            var found := Truthy(req.uuid) || exists u :: IsFqdnHit(s, req.fqdn.value, u);
            && (o.response.DatabaseUnavailable? <==> conn.ConnectFailed?)
            && (o.response.NoFqdnMatch? <==> conn.Connected? && !found)
            && (o.response.QueryFailed? <==> conn.Connected? && found && Limit(req) < 0)
            && (o.response.Status() == 200 <==> conn.Connected? && found && Limit(req) >= 0)
  {
  }
}
