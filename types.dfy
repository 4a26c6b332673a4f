/** Records shared by the ingestion functions, the store and the aggregator
    (azure-functions/src/types/index.ts), with timestamps as integer
    milliseconds since the epoch. */
module Types {

  datatype Option<+T> = None | Some(value: T)

  datatype Result<+T> = Ok(value: T) | Err(message: string)

  /** JavaScript truthiness of an optional string: absent and "" are falsy. */
  predicate Truthy(o: Option<string>) {
    o.Some? && o.value != ""
  }

  /** `a || b` on an optional string. */
  function OrElse(a: Option<string>, b: string): (r: string)
    ensures Truthy(a) ==> r == a.value
    ensures !Truthy(a) ==> r == b
  {
    if Truthy(a) then a.value else b
  }

  /** Milliseconds since the epoch, as JavaScript `Date.getTime()` gives them. */
  type Timestamp = int

  const MS_PER_SECOND: int := 1000
  const MS_PER_MINUTE: int := 60000
  const MS_PER_HOUR: int := 3600000
  const MS_PER_DAY: int := 86400000

  /** Calendar day (days since the epoch) of a timestamp, as `DATE(t)` in UTC. */
  function Day(t: Timestamp): (d: int)
    ensures d * MS_PER_DAY <= t < d * MS_PER_DAY + MS_PER_DAY
  {
    t / MS_PER_DAY
  }

  /** `EXTRACT(HOUR FROM t)` in UTC. */
  function HourOf(t: Timestamp): (h: int)
    ensures 0 <= h < 24
  {
    (t % MS_PER_DAY) / MS_PER_HOUR
  }

  /** The two upstream providers, with the names the store records. */
  datatype Source = UnifiAccess | Ezradius {
    function Name(): string {
      match this
      case UnifiAccess => "unifi_access"
      case Ezradius => "ezradius"
    }
  }

  datatype EventType = Entry | Exit

  type UserId = nat
  type OfficeId = string
  type SessionId = nat

  datatype User = User(
    id: UserId,
    entraId: string,
    email: string,
    displayName: string,
    department: Option<string>,
    jobTitle: Option<string>)

  datatype Office = Office(
    id: OfficeId,
    name: string,
    isActive: bool,
    unifiSiteId: Option<string>,
    ezradiusLocationId: Option<string>)

  datatype AccessEvent = AccessEvent(
    userId: UserId,
    officeId: OfficeId,
    eventType: EventType,
    source: Source,
    deviceInfo: string,
    rawEventId: string,
    timestamp: Timestamp)

  datatype PresenceSession = PresenceSession(
    id: SessionId,
    userId: UserId,
    officeId: OfficeId,
    entryTime: Timestamp,
    exitTime: Option<Timestamp>,
    durationMinutes: Option<int>)
  {
    predicate IsOpen() { exitTime.None? }
  }

  datatype DailyAttendance = DailyAttendance(
    uniqueVisitors: nat,
    totalEntries: nat,
    averageDurationMinutes: int,
    peakOccupancy: nat)

  /** One row of `sync_status`. */
  datatype SyncRow = SyncRow(
    status: string,
    lastSyncAt: Timestamp,
    lastEventTimestamp: Option<Timestamp>,
    errorMessage: Option<string>)
}
