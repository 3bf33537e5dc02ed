/** The activity log: recording an action, the newest-first paged listings (all records, or one
    user's), deleting a record, and the retention sweep that drops records older than a number
    of days. */
module ActivityLogs {
  import opened Wrappers
  import opened Queries

  datatype ActivityLog = ActivityLog(
    userId: Option<int>,
    action: string,
    entityType: Option<string>,
    entityId: Option<int>,
    details: Option<string>,
    ipAddress: Option<string>,
    createdAt: int)

  /** ActivityLogResponse; the user name comes from the record's user, when it has one. */
  datatype LogResponse = LogResponse(
    id: int,
    userId: Option<int>,
    username: Option<string>,
    action: string,
    entityType: Option<string>,
    entityId: Option<int>,
    details: Option<string>,
    ipAddress: Option<string>,
    createdAt: int)

  /** `MapToResponse`, given the user names by user id. */
  function ToResponse(id: int, log: ActivityLog, usernames: map<int, string>): (r: LogResponse)
    ensures r.id == id && r.userId == log.userId && r.action == log.action && r.createdAt == log.createdAt
    ensures r.username.Some? <==> log.userId.Some? && log.userId.value in usernames
    ensures r.username.Some? ==> r.username.value == usernames[log.userId.value]
  {
    var username := if log.userId.Some? && log.userId.value in usernames then Some(usernames[log.userId.value]) else None;
    LogResponse(id, log.userId, username, log.action, log.entityType, log.entityId, log.details,
                log.ipAddress, log.createdAt)
  }

  function ResponseOf(usernames: map<int, string>): ((int, ActivityLog)) -> LogResponse {
    (row: (int, ActivityLog)) => ToResponse(row.0, row.1, usernames)
  }

  // ----- the listings -----

  /** Newest first. */
  predicate NewerOrSame(a: (int, ActivityLog), b: (int, ActivityLog)) {
    a.1.createdAt >= b.1.createdAt
  }

  lemma NewerOrSameTotal()
    ensures TotalPreorder(NewerOrSame)
  {
  }

  function AnyLog(row: (int, ActivityLog)): bool {
    true
  }

  function OfUser(userId: int): ((int, ActivityLog)) -> bool {
    (row: (int, ActivityLog)) => row.1.userId == Some(userId)
  }

  /** Every record, newest first, before paging. */
  function AllOrdered(logs: map<int, ActivityLog>): seq<(int, ActivityLog)> {
    Query(logs, AnyLog, NewerOrSame)
  }

  /** One user's records, newest first, before paging. */
  function UserOrdered(logs: map<int, ActivityLog>, userId: int): seq<(int, ActivityLog)> {
    Query(logs, OfUser(userId), NewerOrSame)
  }

  /** The full list holds every record once, newest first. */
  lemma AllOrderedSpec(logs: map<int, ActivityLog>)
    ensures var r := AllOrdered(logs);
            && |r| == |logs|
            && (forall i :: 0 <= i < |r| ==> r[i].0 in logs && r[i].1 == logs[r[i].0])
            && (forall k :: k in logs ==> (k, logs[k]) in r)
            && Distinct(r)
            && (forall i, j :: 0 <= i < j < |r| ==> r[i].1.createdAt >= r[j].1.createdAt)
  {
    var r := AllOrdered(logs);
    assert forall i :: 0 <= i < |r| ==> r[i].0 in logs && r[i].1 == logs[r[i].0] by {
      QuerySound(logs, AnyLog, NewerOrSame);
    }
    forall k | k in logs ensures (k, logs[k]) in r {
      assert AnyLog((k, logs[k]));
      QueryComplete(logs, AnyLog, NewerOrSame);
    }
    assert Distinct(r) by {
      QueryDistinct(logs, AnyLog, NewerOrSame);
    }
    AllOrderedSorted(logs);
    AllOrderedCount(logs);
  }

  lemma AllOrderedCount(logs: map<int, ActivityLog>)
    ensures |AllOrdered(logs)| == |logs|
  {
    forall k ensures k in logs.Keys <==> k in logs && AnyLog((k, logs[k])) {
    }
    QueryCount(logs, AnyLog, NewerOrSame, logs.Keys);
  }

  lemma AllOrderedSorted(logs: map<int, ActivityLog>)
    ensures var r := AllOrdered(logs);
            forall i, j :: 0 <= i < j < |r| ==> r[i].1.createdAt >= r[j].1.createdAt
  {
    NewerOrSameTotal();
    QuerySorted(logs, AnyLog, NewerOrSame);
    var r := AllOrdered(logs);
    forall i, j | 0 <= i < j < |r| ensures r[i].1.createdAt >= r[j].1.createdAt {
      assert NewerOrSame(r[i], r[j]);
    }
  }

  /** A user's list holds exactly that user's records, once each, newest first. */
  lemma UserOrderedSpec(logs: map<int, ActivityLog>, userId: int)
    ensures var r := UserOrdered(logs, userId);
            && (forall i :: 0 <= i < |r| ==> r[i].0 in logs && r[i].1 == logs[r[i].0] && r[i].1.userId == Some(userId))
            && (forall k :: k in logs && logs[k].userId == Some(userId) ==> (k, logs[k]) in r)
            && Distinct(r)
            && (forall i, j :: 0 <= i < j < |r| ==> r[i].1.createdAt >= r[j].1.createdAt)
  {
    var p := OfUser(userId);
    var r := UserOrdered(logs, userId);
    assert forall i :: 0 <= i < |r| ==> r[i].0 in logs && r[i].1 == logs[r[i].0] && p(r[i]) by {
      QuerySound(logs, p, NewerOrSame);
    }
    forall i | 0 <= i < |r| ensures r[i].1.userId == Some(userId) {
      assert p(r[i]);
    }
    forall k | k in logs && logs[k].userId == Some(userId) ensures (k, logs[k]) in r {
      assert p((k, logs[k]));
      QueryComplete(logs, p, NewerOrSame);
    }
    assert Distinct(r) by {
      QueryDistinct(logs, p, NewerOrSame);
    }
    forall i, j | 0 <= i < j < |r| ensures r[i].1.createdAt >= r[j].1.createdAt {
      NewerOrSameTotal();
      QuerySorted(logs, p, NewerOrSame);
      assert NewerOrSame(r[i], r[j]);
    }
  }

  /** `GetAllLogsAsync(page = 1, pageSize = 50)`: the page at offset (page - 1) * pageSize. */
  function AllLogs(logs: map<int, ActivityLog>, usernames: map<int, string>, page: int, pageSize: int): (r: seq<LogResponse>)
    ensures page >= 1 && pageSize >= 0 ==> |r| <= pageSize
  {
    var w := Window(AllOrdered(logs), page, pageSize);
    Select(ResponseOf(usernames), w)
  }

  /** `GetUserLogsAsync`. */
  function UserLogs(logs: map<int, ActivityLog>, usernames: map<int, string>, userId: int, page: int, pageSize: int)
    : (r: seq<LogResponse>)
    ensures page >= 1 && pageSize >= 0 ==> |r| <= pageSize
  {
    var w := Window(UserOrdered(logs, userId), page, pageSize);
    Select(ResponseOf(usernames), w)
  }

  /** A page of a user's list shows only that user's records. */
  lemma UserLogsOwned(logs: map<int, ActivityLog>, usernames: map<int, string>, userId: int, page: int, pageSize: int)
    requires page >= 1 && pageSize >= 0
    ensures var r := UserLogs(logs, usernames, userId, page, pageSize);
            forall i :: 0 <= i < |r| ==> r[i].userId == Some(userId) && r[i].id in logs
  {
    var all := UserOrdered(logs, userId);
    UserOrderedOwned(logs, userId);
    var w := Window(all, page, pageSize);
    WindowOwned(all, logs, userId, page, pageSize);
    var r := Select(ResponseOf(usernames), w);
    forall i | 0 <= i < |r| ensures r[i].userId == w[i].1.userId && r[i].id == w[i].0 {
      assert r[i] == ToResponse(w[i].0, w[i].1, usernames);
    }
  }

  lemma UserOrderedOwned(logs: map<int, ActivityLog>, userId: int)
    ensures var all := UserOrdered(logs, userId);
            forall i :: 0 <= i < |all| ==> all[i].1.userId == Some(userId) && all[i].0 in logs
  {
    UserOrderedSpec(logs, userId);
  }

  lemma WindowOwned(all: seq<(int, ActivityLog)>, logs: map<int, ActivityLog>, userId: int, page: int, pageSize: int)
    requires page >= 1 && pageSize >= 0
    requires forall i :: 0 <= i < |all| ==> all[i].1.userId == Some(userId) && all[i].0 in logs
    ensures var w := Window(all, page, pageSize);
            forall i :: 0 <= i < |w| ==> w[i].1.userId == Some(userId) && w[i].0 in logs
  {
    WindowIsSlice(all, page, pageSize);
    var w := Window(all, page, pageSize);
    var off := (page - 1) * pageSize;
    assert off >= 0 by {
      assert page - 1 >= 0;
    }
    forall i | 0 <= i < |w| ensures w[i].1.userId == Some(userId) && w[i].0 in logs {
      assert w[i] == all[off + i];
    }
  }

  // ----- retention -----

  const SecondsPerDay: int := 86400

  /** `UtcNow.AddDays(-daysToKeep)`, with time in seconds. */
  function Cutoff(now: int, daysToKeep: int): int {
    now - daysToKeep * SecondsPerDay
  }

  /** The records the retention sweep keeps: those created at or after the cutoff. */
  function Kept(logs: map<int, ActivityLog>, cutoff: int): (r: map<int, ActivityLog>)
    ensures forall id :: id in r <==> id in logs && logs[id].createdAt >= cutoff
    ensures forall id | id in r :: r[id] == logs[id]
  {
    map id | id in logs && !(logs[id].createdAt < cutoff) :: logs[id]
  }

  /** Sweeping twice with the same cutoff removes nothing more, and a later cutoff keeps no more
      than an earlier one. */
  lemma KeptIdempotent(logs: map<int, ActivityLog>, cutoff: int)
    ensures Kept(Kept(logs, cutoff), cutoff) == Kept(logs, cutoff)
  {
  }

  lemma KeptMonotone(logs: map<int, ActivityLog>, earlier: int, later: int)
    requires earlier <= later
    ensures Kept(logs, later).Keys <= Kept(logs, earlier).Keys
  {
  }

  /** A record logged at `now` survives a sweep at `now` that keeps a non-negative number of
      days. */
  lemma FreshRecordKept(logs: map<int, ActivityLog>, id: int, log: ActivityLog, now: int, daysToKeep: int)
    requires log.createdAt == now && daysToKeep >= 0
    ensures id in Kept(logs[id := log], Cutoff(now, daysToKeep))
  {
  }

  class ActivityLogService {
    var logs: map<int, ActivityLog>
    var nextId: int

    ghost predicate Valid()
      reads this
    {
      0 < nextId && forall id | id in logs :: 0 < id < nextId
    }

    constructor ()
      ensures Valid() && logs == map[]
    {
      logs := map[];
      nextId := 1;
    }

    /** `LogActivityAsync`: exactly one record, with the given fields and the current time,
        under a fresh id. */
    method LogActivity(userId: Option<int>, action: string, entityType: Option<string>, entityId: Option<int>,
                       details: Option<string>, ipAddress: Option<string>, now: int)
      requires Valid()
      modifies this
      ensures Valid()
      ensures old(nextId) !in old(logs)
      ensures logs == old(logs)[old(nextId) := ActivityLog(userId, action, entityType, entityId, details, ipAddress, now)]
      ensures |logs| == |old(logs)| + 1
    {
      logs := logs[nextId := ActivityLog(userId, action, entityType, entityId, details, ipAddress, now)];
      nextId := nextId + 1;
    }

    function GetAllLogs(usernames: map<int, string>, page: int, pageSize: int): seq<LogResponse>
      reads this
    {
      AllLogs(logs, usernames, page, pageSize)
    }

    function GetUserLogs(usernames: map<int, string>, userId: int, page: int, pageSize: int): seq<LogResponse>
      reads this
    {
      UserLogs(logs, usernames, userId, page, pageSize)
    }

    method DeleteLog(id: int) returns (r: Outcome)
      requires Valid()
      modifies this
      ensures Valid() && nextId == old(nextId)
      ensures r == Fail(NotFound) <==> id !in old(logs)
      ensures r.Fail? ==> unchanged(this)
      ensures r.Pass? ==> logs == old(logs) - {id}
    {
      if id !in logs {
        return Fail(NotFound);
      }
      logs := logs - {id};
      r := Pass;
    }

    /** `DeleteOldLogsAsync(daysToKeep = 90)`: removes exactly the records created before the
        cutoff. */
    method DeleteOldLogs(now: int, daysToKeep: int)
      requires Valid()
      modifies this
      ensures Valid() && nextId == old(nextId)
      ensures logs == Kept(old(logs), Cutoff(now, daysToKeep))
    {
      var cutoff := Cutoff(now, daysToKeep);
      logs := map id | id in logs && !(logs[id].createdAt < cutoff) :: logs[id];
    }
  }
}
