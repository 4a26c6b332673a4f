/** The relational store of azure-functions/src/services/database.ts.
    Each query is a function over the table it reads; each statement that
    writes is a method of `Store` whose contract gives the new table as a
    function of the old one. Generated UUIDs are modelled as positions:
    a new session or user gets the next index of its table. */
module Database {
  import opened Types
  import opened Text

  // ---------------------------------------------------------------------------
  // access_events

  predicate HasDedupKey(e: AccessEvent, rawEventId: string, source: Source) {
    e.rawEventId == rawEventId && e.source == source
  }

  /** `checkEventExists`: `SELECT 1 ... WHERE raw_event_id = $1 AND source = $2`. */
  function EventExists(events: seq<AccessEvent>, rawEventId: string, source: Source): (b: bool)
    ensures b <==> exists i :: 0 <= i < |events| && HasDedupKey(events[i], rawEventId, source)
  {
    if events == [] then false
    else HasDedupKey(events[0], rawEventId, source) || EventExists(events[1..], rawEventId, source)
  }

  /** An event that was stored stays findable after further inserts. */
  lemma {:induction false} EventExistsAfterAppend(events: seq<AccessEvent>, more: seq<AccessEvent>, rawEventId: string, source: Source)
    requires EventExists(events, rawEventId, source)
    ensures EventExists(events + more, rawEventId, source)
  {
    var i :| 0 <= i < |events| && HasDedupKey(events[i], rawEventId, source);
    assert (events + more)[i] == events[i];
  }

  // ---------------------------------------------------------------------------
  // presence_sessions

  predicate OpenFor(s: PresenceSession, userId: UserId, officeId: OfficeId) {
    s.userId == userId && s.officeId == officeId && s.IsOpen()
  }

  /** `getOpenSession`: among the open sessions of the pair, one with the
      greatest entry time (`ORDER BY entry_time DESC LIMIT 1`); the earliest
      stored of several with the same entry time. */
  function LatestOpen(sessions: seq<PresenceSession>, userId: UserId, officeId: OfficeId): (r: Option<PresenceSession>)
    ensures r.Some? ==> r.value in sessions && OpenFor(r.value, userId, officeId)
    ensures r.Some? ==> forall i :: 0 <= i < |sessions| && OpenFor(sessions[i], userId, officeId) ==>
                          sessions[i].entryTime <= r.value.entryTime
    ensures r.None? <==> forall i :: 0 <= i < |sessions| ==> !OpenFor(sessions[i], userId, officeId)
  {
    if sessions == [] then None
    else
      var rest := LatestOpen(sessions[..|sessions| - 1], userId, officeId);
      var last := sessions[|sessions| - 1];
      assert forall i :: 0 <= i < |sessions| - 1 ==> sessions[i] == sessions[..|sessions| - 1][i];
      if OpenFor(last, userId, officeId) && (rest.None? || rest.value.entryTime < last.entryTime)
      then Some(last)
      else rest
  }

  /** The "open session" invariant: at most one session per (user, office) has no exit time. */
  ghost predicate AtMostOneOpen(sessions: seq<PresenceSession>) {
    forall i, j :: 0 <= i < |sessions| && 0 <= j < |sessions|
      && sessions[i].IsOpen() && sessions[j].IsOpen()
      && sessions[i].userId == sessions[j].userId && sessions[i].officeId == sessions[j].officeId
      ==> i == j
  }

  /** Every session's id is its position, so the id of a returned row names it. */
  ghost predicate SessionIdsArePositions(sessions: seq<PresenceSession>) {
    forall i :: 0 <= i < |sessions| ==> sessions[i].id == i
  }

  /** `createSession`: one new row with the entry time and no exit time or duration. */
  function WithSession(sessions: seq<PresenceSession>, userId: UserId, officeId: OfficeId, entryTime: Timestamp): (r: seq<PresenceSession>)
    ensures |r| == |sessions| + 1 && r[..|sessions|] == sessions
    ensures r[|sessions|] == PresenceSession(|sessions|, userId, officeId, entryTime, None, None)
  {
    sessions + [PresenceSession(|sessions|, userId, officeId, entryTime, None, None)]
  }

  /** `EXTRACT(EPOCH FROM exit - entry) / 60` stored in an INTEGER column:
      the minutes, rounded half away from zero, as PostgreSQL casts numeric to
      integer. Negative spans stay negative. */
  function DurationMinutes(ms: int): (m: int)
    ensures ms >= 0 ==> m >= 0 && MS_PER_MINUTE * m - 30000 <= ms < MS_PER_MINUTE * m + 30000
    ensures ms < 0 ==> m <= 0 && MS_PER_MINUTE * m - 30000 < ms <= MS_PER_MINUTE * m + 30000
  {
    if ms >= 0 then (ms + 30000) / MS_PER_MINUTE else -((-ms + 30000) / MS_PER_MINUTE)
  }

  function CloseRow(s: PresenceSession, exitTime: Timestamp): PresenceSession {
    s.(exitTime := Some(exitTime), durationMinutes := Some(DurationMinutes(exitTime - s.entryTime)))
  }

  /** `closeSession`: `UPDATE ... WHERE id = $1`; rows with another id are untouched. */
  function Closed(sessions: seq<PresenceSession>, id: SessionId, exitTime: Timestamp): (r: seq<PresenceSession>)
    ensures |r| == |sessions|
    ensures forall i :: 0 <= i < |sessions| && sessions[i].id != id ==> r[i] == sessions[i]
    ensures forall i :: 0 <= i < |sessions| && sessions[i].id == id ==>
              r[i].exitTime == Some(exitTime) && r[i].entryTime == sessions[i].entryTime
              && r[i].userId == sessions[i].userId && r[i].officeId == sessions[i].officeId && r[i].id == id
              && r[i].durationMinutes == Some(DurationMinutes(exitTime - sessions[i].entryTime))
  {
    seq(|sessions|, i requires 0 <= i < |sessions| =>
      if sessions[i].id == id then CloseRow(sessions[i], exitTime) else sessions[i])
  }

  /** Nine to half past five is 510 minutes. */
  lemma WorkdayDuration()
    ensures DurationMinutes(17 * MS_PER_HOUR + 30 * MS_PER_MINUTE - 9 * MS_PER_HOUR) == 510
  {
  }

  lemma {:induction false} CreateKeepsAtMostOneOpen(sessions: seq<PresenceSession>, userId: UserId, officeId: OfficeId, t: Timestamp)
    requires AtMostOneOpen(sessions)
    requires LatestOpen(sessions, userId, officeId).None?
    ensures AtMostOneOpen(WithSession(sessions, userId, officeId, t))
    ensures LatestOpen(WithSession(sessions, userId, officeId, t), userId, officeId)
            == Some(PresenceSession(|sessions|, userId, officeId, t, None, None))
  {
    var r := WithSession(sessions, userId, officeId, t);
    assert forall i :: 0 <= i < |sessions| ==> r[i] == sessions[i];
    var l := LatestOpen(r, userId, officeId);
    assert OpenFor(r[|sessions|], userId, officeId);
    assert l.Some?;
    var k :| 0 <= k < |r| && r[k] == l.value;
  }

  lemma {:induction false} CloseKeepsAtMostOneOpen(sessions: seq<PresenceSession>, id: SessionId, t: Timestamp)
    requires AtMostOneOpen(sessions)
    ensures AtMostOneOpen(Closed(sessions, id, t))
  {
    var r := Closed(sessions, id, t);
    forall i, j | 0 <= i < |r| && 0 <= j < |r| && r[i].IsOpen() && r[j].IsOpen()
      && r[i].userId == r[j].userId && r[i].officeId == r[j].officeId
      ensures i == j
    {
      assert r[i] == sessions[i] && r[j] == sessions[j];
    }
  }

  /** Closing the open session of a pair leaves the pair with none open. */
  lemma {:induction false} CloseLatestLeavesNoneOpen(sessions: seq<PresenceSession>, userId: UserId, officeId: OfficeId, t: Timestamp)
    requires AtMostOneOpen(sessions) && SessionIdsArePositions(sessions)
    requires LatestOpen(sessions, userId, officeId).Some?
    ensures LatestOpen(Closed(sessions, LatestOpen(sessions, userId, officeId).value.id, t), userId, officeId).None?
  {
    var s := LatestOpen(sessions, userId, officeId).value;
    var k :| 0 <= k < |sessions| && sessions[k] == s;
    var r := Closed(sessions, s.id, t);
    forall i | 0 <= i < |r| ensures !OpenFor(r[i], userId, officeId) {
      if sessions[i].id != s.id {
        assert i != k;
      }
    }
  }

  lemma {:induction false} CreateKeepsIdsPositions(sessions: seq<PresenceSession>, userId: UserId, officeId: OfficeId, t: Timestamp)
    requires SessionIdsArePositions(sessions)
    ensures SessionIdsArePositions(WithSession(sessions, userId, officeId, t))
  {
    var r := WithSession(sessions, userId, officeId, t);
    assert forall i :: 0 <= i < |sessions| ==> r[i] == sessions[i];
  }

  // ---------------------------------------------------------------------------
  // users

  datatype UserKey = ByEmail(email: string) | ByDisplayName(name: string) | ByEntraId(entraId: string)

  predicate HasKey(u: User, key: UserKey) {
    match key
    case ByEmail(e) => u.email == e
    case ByDisplayName(n) => u.displayName == n
    case ByEntraId(x) => u.entraId == x
  }

  /** `result.rows[0] || null` for a `SELECT * FROM users WHERE <key>`: the first matching row. */
  function FindUser(users: seq<User>, key: UserKey): (r: Option<nat>)
    ensures r.Some? ==> r.value < |users| && HasKey(users[r.value], key)
    ensures r.Some? ==> forall i :: 0 <= i < r.value ==> !HasKey(users[i], key)
    ensures r.None? <==> forall i :: 0 <= i < |users| ==> !HasKey(users[i], key)
  {
    if users == [] then None
    else if HasKey(users[0], key) then Some(0)
    else match FindUser(users[1..], key)
      case None => None
      case Some(k) => Some(k + 1)
  }

  function UserAt(users: seq<User>, k: Option<nat>): Option<User>
    requires k.Some? ==> k.value < |users|
  {
    if k.Some? then Some(users[k.value]) else None
  }

  /** `getUserByEmail`: the argument is lowercased before the comparison. */
  function UserByEmail(users: seq<User>, email: string): (r: Option<User>)
    ensures r.Some? ==> r.value in users && r.value.email == Lower(email)
    ensures r.None? <==> forall i :: 0 <= i < |users| ==> users[i].email != Lower(email)
  {
    UserAt(users, FindUser(users, ByEmail(Lower(email))))
  }

  /** The display-name lookup the UniFi sync falls back on: an exact match. */
  function UserByDisplayName(users: seq<User>, name: string): (r: Option<User>)
    ensures r.Some? ==> r.value in users && r.value.displayName == name
    ensures r.None? <==> forall i :: 0 <= i < |users| ==> users[i].displayName != name
  {
    UserAt(users, FindUser(users, ByDisplayName(name)))
  }

  lemma UserByEmailIgnoresCase(users: seq<User>, a: string, b: string)
    requires Lower(a) == Lower(b)
    ensures UserByEmail(users, a) == UserByEmail(users, b)
  {
  }

  ghost predicate UserIdsArePositions(users: seq<User>) {
    forall i :: 0 <= i < |users| ==> users[i].id == i
  }

  /** `upsertUser`: `ON CONFLICT (entra_id) DO UPDATE`, with the email lowercased;
      an updated row keeps its id. */
  function UpsertedUsers(users: seq<User>, entraId: string, email: string, displayName: string,
                         department: Option<string>, jobTitle: Option<string>): seq<User>
  {
    match FindUser(users, ByEntraId(entraId))
    case None => users + [User(|users|, entraId, Lower(email), displayName, department, jobTitle)]
    case Some(k) => users[k := User(users[k].id, entraId, Lower(email), displayName, department, jobTitle)]
  }

  /** A directory id not yet stored appends one user with the next id and
      the lower-cased email. A stored one has its first row `k` overwritten
      with the new fields and lower-cased email, keeping its id, and every
      other row is kept. */
  lemma UpsertedUsersMeaning(users: seq<User>, entraId: string, email: string, displayName: string,
                             department: Option<string>, jobTitle: Option<string>)
    ensures (forall i :: 0 <= i < |users| ==> users[i].entraId != entraId) ==>
              UpsertedUsers(users, entraId, email, displayName, department, jobTitle)
                == users + [User(|users|, entraId, Lower(email), displayName, department, jobTitle)]
    ensures (exists i :: 0 <= i < |users| && users[i].entraId == entraId) ==>
              var r := UpsertedUsers(users, entraId, email, displayName, department, jobTitle);
              |r| == |users|
              && (exists k :: 0 <= k < |users| && users[k].entraId == entraId
                    && (forall j :: 0 <= j < k ==> users[j].entraId != entraId)
                    && r[k] == User(users[k].id, entraId, Lower(email), displayName, department, jobTitle)
                    && (forall i :: 0 <= i < |users| && i != k ==> r[i] == users[i]))
  {
    if exists i :: 0 <= i < |users| && users[i].entraId == entraId {
      var i :| 0 <= i < |users| && users[i].entraId == entraId;
      assert HasKey(users[i], ByEntraId(entraId));
      var k := FindUser(users, ByEntraId(entraId)).value;
      assert forall j :: 0 <= j < k ==> !HasKey(users[j], ByEntraId(entraId));
    }
  }

  /** After `upsertUser`, the row for that directory id carries the lowercased email,
      and looking it up by any casing of that email finds a user. */
  lemma {:induction false} UpsertThenFindByEmail(users: seq<User>, entraId: string, email: string, displayName: string,
                                                 department: Option<string>, jobTitle: Option<string>)
    ensures var r := UpsertedUsers(users, entraId, email, displayName, department, jobTitle);
            FindUser(r, ByEntraId(entraId)).Some?
            && r[FindUser(r, ByEntraId(entraId)).value].email == Lower(email)
            && UserByEmail(r, email).Some?
  {
    var r := UpsertedUsers(users, entraId, email, displayName, department, jobTitle);
    var k: nat := if FindUser(users, ByEntraId(entraId)).Some? then FindUser(users, ByEntraId(entraId)).value else |users|;
    assert HasKey(r[k], ByEntraId(entraId));
    assert forall i :: 0 <= i < k ==> r[i] == users[i];
    assert r[k].email == Lower(email);
    LowerIdempotent(email);
    assert HasKey(r[k], ByEmail(Lower(email)));
  }

  lemma {:induction false} UpsertKeepsIdsPositions(users: seq<User>, entraId: string, email: string, displayName: string,
                                                   department: Option<string>, jobTitle: Option<string>)
    requires UserIdsArePositions(users)
    ensures UserIdsArePositions(UpsertedUsers(users, entraId, email, displayName, department, jobTitle))
  {
    var r := UpsertedUsers(users, entraId, email, displayName, department, jobTitle);
    if FindUser(users, ByEntraId(entraId)).None? {
      assert forall i :: 0 <= i < |users| ==> r[i] == users[i];
    }
  }

  // ---------------------------------------------------------------------------
  // offices

  /** `getOfficeByEzradiusLocationId`: the first active office with that location id. */
  function OfficeByEzradiusLocation(offices: seq<Office>, locationId: string): (r: Option<Office>)
    ensures r.Some? ==> r.value in offices && r.value.isActive && r.value.ezradiusLocationId == Some(locationId)
    ensures r.None? <==> forall i :: 0 <= i < |offices| ==>
              !(offices[i].isActive && offices[i].ezradiusLocationId == Some(locationId))
  {
    if offices == [] then None
    else if offices[0].isActive && offices[0].ezradiusLocationId == Some(locationId) then Some(offices[0])
    else OfficeByEzradiusLocation(offices[1..], locationId)
  }

  /** `getOffices`: the active offices, in table order. */
  function ActiveOffices(offices: seq<Office>): (r: seq<Office>)
    ensures forall o :: o in r <==> o in offices && o.isActive
  {
    if offices == [] then []
    else (if offices[0].isActive then [offices[0]] else []) + ActiveOffices(offices[1..])
  }

  // ---------------------------------------------------------------------------
  // sync_status

  /** `updateSyncStatus`: insert or update the row of `source`. Status, time of
      the run and error message are always overwritten; the cursor is
      `COALESCE(new, old)`. */
  function SyncUpdated(rows: map<string, SyncRow>, source: string, status: string, lastEventTimestamp: Option<Timestamp>,
                       errorMessage: Option<string>, now: Timestamp): (r: map<string, SyncRow>)
    ensures r.Keys == rows.Keys + {source}
    ensures forall s :: s in rows && s != source ==> r[s] == rows[s]
    ensures r[source].status == status && r[source].errorMessage == errorMessage && r[source].lastSyncAt == now
    ensures lastEventTimestamp.Some? ==> r[source].lastEventTimestamp == lastEventTimestamp
    ensures lastEventTimestamp.None? ==> LastSyncTimestamp(r, source) == LastSyncTimestamp(rows, source)
  {
    var kept := if source in rows then rows[source].lastEventTimestamp else None;
    rows[source := SyncRow(status, now, if lastEventTimestamp.Some? then lastEventTimestamp else kept, errorMessage)]
  }

  /** `getLastSyncTimestamp`: the stored cursor, or none when the row or the value is absent. */
  function LastSyncTimestamp(rows: map<string, SyncRow>, source: string): Option<Timestamp>
  {
    if source in rows then rows[source].lastEventTimestamp else None
  }

  /** The cursor a run stores is the one the next run reads, and no other
      source's cursor moves; before any run of a source there is none. */
  lemma CursorRoundTrip(rows: map<string, SyncRow>, source: string, other: string, status: string, ts: Timestamp,
                        errorMessage: Option<string>, now: Timestamp)
    requires other != source
    ensures LastSyncTimestamp(SyncUpdated(rows, source, status, Some(ts), errorMessage, now), source) == Some(ts)
    ensures LastSyncTimestamp(SyncUpdated(rows, source, status, Some(ts), errorMessage, now), other)
            == LastSyncTimestamp(rows, other)
    ensures LastSyncTimestamp(map[], source).None?
  {
  }

  /** A run that reports an error (no timestamp) leaves the cursor where it was,
      so the next run polls the same window again. */
  lemma FailureKeepsCursor(rows: map<string, SyncRow>, source: string, message: string, now: Timestamp)
    ensures LastSyncTimestamp(SyncUpdated(rows, source, "error", None, Some(message), now), source)
            == LastSyncTimestamp(rows, source)
  {
  }

  // ---------------------------------------------------------------------------
  // daily_attendance and hourly_occupancy

  /** `upsertDailyAttendance`: `ON CONFLICT (office_id, date) DO UPDATE`. */
  function DailyUpserted(rows: map<(OfficeId, int), DailyAttendance>, officeId: OfficeId, date: int, row: DailyAttendance)
    : map<(OfficeId, int), DailyAttendance>
  {
    rows[(officeId, date) := row]
  }

  /** The upsert adds or replaces exactly the row of its key and keeps every other row. */
  lemma DailyUpsertedMeaning(rows: map<(OfficeId, int), DailyAttendance>, officeId: OfficeId, date: int, row: DailyAttendance)
    ensures var r := DailyUpserted(rows, officeId, date, row);
      && r.Keys == rows.Keys + {(officeId, date)} && r[(officeId, date)] == row
      && forall k :: k in rows && k != (officeId, date) ==> r[k] == rows[k]
  {
  }

  lemma DailyUpsertIdempotent(rows: map<(OfficeId, int), DailyAttendance>, officeId: OfficeId, date: int, row: DailyAttendance)
    ensures DailyUpserted(DailyUpserted(rows, officeId, date, row), officeId, date, row)
            == DailyUpserted(rows, officeId, date, row)
  {
  }

  // ---------------------------------------------------------------------------
  // Failures of store calls

  /** Where in the handling of one event a store call throws. */
  datatype Stage = DedupCheck | Lookup | Insert | SessionUpdate

  /** Whether, and where, a store call throws while one event is handled. */
  datatype StoreFault = NoFault | Throws(stage: Stage, message: string)

  /** The fault for the `i`-th event of a batch; events beyond the list meet none. */
  function FaultAt(faults: seq<StoreFault>, i: nat): StoreFault {
    if i < |faults| then faults[i] else NoFault
  }

  predicate FailsAt(f: StoreFault, stage: Stage) {
    f.Throws? && f.stage == stage
  }

  // ---------------------------------------------------------------------------
  // The store

  class Store {
    var users: seq<User>
    var offices: seq<Office>
    var events: seq<AccessEvent>
    var sessions: seq<PresenceSession>
    var daily: map<(OfficeId, int), DailyAttendance>
    var hourly: map<(OfficeId, int, int), nat>
    var syncStatus: map<string, SyncRow>

    ghost predicate Valid()
      reads this
    {
      SessionIdsArePositions(sessions) && UserIdsArePositions(users)
    }

    /** A store whose offices are given and whose other tables are empty. */
    constructor (offices: seq<Office>)
      ensures Valid()
      ensures this.offices == offices && users == [] && events == [] && sessions == []
      ensures daily == map[] && hourly == map[] && syncStatus == map[]
    {
      this.offices := offices;
      users, events, sessions := [], [], [];
      daily, hourly, syncStatus := map[], map[], map[];
    }

    method InsertAccessEvent(e: AccessEvent)
      modifies this`events
      ensures events == old(events) + [e]
    {
      events := events + [e];
    }

    method CreateSession(userId: UserId, officeId: OfficeId, entryTime: Timestamp) returns (s: PresenceSession)
      requires Valid()
      modifies this`sessions
      ensures Valid()
      ensures sessions == WithSession(old(sessions), userId, officeId, entryTime)
      ensures s == sessions[|sessions| - 1] && s.IsOpen() && s.entryTime == entryTime
    {
      CreateKeepsIdsPositions(sessions, userId, officeId, entryTime);
      sessions := WithSession(sessions, userId, officeId, entryTime);
      s := sessions[|sessions| - 1];
    }

    method CloseSession(id: SessionId, exitTime: Timestamp)
      requires Valid()
      modifies this`sessions
      ensures Valid()
      ensures sessions == Closed(old(sessions), id, exitTime)
    {
      sessions := Closed(sessions, id, exitTime);
    }

    method UpsertUser(entraId: string, email: string, displayName: string,
                      department: Option<string>, jobTitle: Option<string>) returns (u: User)
      requires Valid()
      modifies this`users
      ensures Valid()
      ensures users == UpsertedUsers(old(users), entraId, email, displayName, department, jobTitle)
      ensures u in users && u.entraId == entraId && u.email == Lower(email)
    {
      UpsertKeepsIdsPositions(users, entraId, email, displayName, department, jobTitle);
      var k := FindUser(users, ByEntraId(entraId));
      users := UpsertedUsers(users, entraId, email, displayName, department, jobTitle);
      u := if k.Some? then users[k.value] else users[|users| - 1];
    }

    method UpsertDailyAttendance(officeId: OfficeId, date: int, row: DailyAttendance)
      modifies this`daily
      ensures daily == DailyUpserted(old(daily), officeId, date, row)
    {
      daily := DailyUpserted(daily, officeId, date, row);
    }

    /** The hourly row's upsert: `ON CONFLICT (office_id, date, hour) DO UPDATE`. */
    method UpsertHourlyOccupancy(officeId: OfficeId, date: int, hour: int, occupancy: nat)
      modifies this`hourly
      ensures hourly == old(hourly)[(officeId, date, hour) := occupancy]
    {
      hourly := hourly[(officeId, date, hour) := occupancy];
    }

    method UpdateSyncStatus(source: string, status: string, lastEventTimestamp: Option<Timestamp>,
                            errorMessage: Option<string>, now: Timestamp)
      modifies this`syncStatus
      ensures syncStatus == SyncUpdated(old(syncStatus), source, status, lastEventTimestamp, errorMessage, now)
    {
      syncStatus := SyncUpdated(syncStatus, source, status, lastEventTimestamp, errorMessage, now);
    }
  }
}
