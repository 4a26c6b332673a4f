/** `aggregateDaily` of azure-functions/src/functions/aggregateDaily.ts: once
    a day, for every active office, the statistics of yesterday's sessions
    are computed and written to `daily_attendance`, and the occupancy of each
    of the 24 hours to `hourly_occupancy`. Each SQL query becomes a function
    over the sessions it reads; the driver's two loops become a method. */
module AggregateDaily {
  import opened Types
  import opened Database

  /** The date the job aggregates: the UTC day before `now`. */
  function Yesterday(now: Timestamp): (d: int)
    ensures d == Day(now) - 1
  {
    Day(now - MS_PER_DAY)
  }

  /** The rows every query of one office reads: `office_id = $1 AND
      DATE(entry_time) = $2`, in table order. */
  function DaySessions(sessions: seq<PresenceSession>, officeId: OfficeId, date: int): seq<PresenceSession> {
    if sessions == [] then []
    else
      var rest := DaySessions(sessions[1..], officeId, date);
      if sessions[0].officeId == officeId && Day(sessions[0].entryTime) == date then [sessions[0]] + rest else rest
  }

  /** The day's sessions of the office are exactly those of the table with
      that office and an entry on that date. */
  lemma {:induction false} DaySessionsMeaning(sessions: seq<PresenceSession>, officeId: OfficeId, date: int)
    ensures var r := DaySessions(sessions, officeId, date);
      && |r| <= |sessions|
      && forall s :: s in r <==> s in sessions && s.officeId == officeId && Day(s.entryTime) == date
  {
    if sessions != [] {
      DaySessionsMeaning(sessions[1..], officeId, date);
      assert forall s :: s in sessions <==> s == sessions[0] || s in sessions[1..];
    }
  }

  // ---------------------------------------------------------------------------
  // The daily statistics

  /** The users of some sessions: `COUNT(DISTINCT user_id)` is its size. */
  function Users(ss: seq<PresenceSession>): set<UserId> {
    set s | s in ss :: s.userId
  }

  /** There are never more distinct visitors than sessions, and at least one
      when there is a session. */
  lemma {:induction false} UsersAtMostSessions(ss: seq<PresenceSession>)
    ensures |Users(ss)| <= |ss|
    ensures |ss| > 0 ==> |Users(ss)| > 0
  {
    if ss != [] {
      UsersAtMostSessions(ss[1..]);
      assert Users(ss) == Users(ss[1..]) + {ss[0].userId} by {
        forall u ensures u in Users(ss) <==> u in Users(ss[1..]) + {ss[0].userId} {
          if u in Users(ss) && u != ss[0].userId {
            var s :| s in ss && s.userId == u;
            assert s in ss[1..];
          }
        }
      }
    }
  }

  /** The durations `AVG(duration_minutes)` averages: the non-null ones, in order. */
  function Durations(ss: seq<PresenceSession>): seq<int> {
    if ss == [] then []
    else
      var rest := Durations(ss[1..]);
      if ss[0].durationMinutes.Some? then [ss[0].durationMinutes.value] + rest else rest
  }

  /** The averaged values are the durations of the closed sessions. */
  lemma {:induction false} DurationsMeaning(ss: seq<PresenceSession>)
    ensures |Durations(ss)| <= |ss|
    ensures forall d :: d in Durations(ss) <==> exists s :: s in ss && s.durationMinutes == Some(d)
  {
    if ss != [] {
      DurationsMeaning(ss[1..]);
      assert forall s :: s in ss <==> s == ss[0] || s in ss[1..];
    }
  }

  function Sum(xs: seq<int>): int {
    if xs == [] then 0 else xs[0] + Sum(xs[1..])
  }

  /** `Math.round(COALESCE(AVG(duration_minutes), 0))`: 0 without durations,
      otherwise the mean rounded to the nearest integer, halves upward. */
  function AverageDuration(ss: seq<PresenceSession>): int {
    var ds := Durations(ss);
    if |ds| == 0 then 0 else (2 * Sum(ds) + |ds|) / (2 * |ds|)
  }

  /** The average is 0 without durations, and otherwise the integer nearest to
      the mean, halves rounded upward. */
  lemma AverageDurationRounds(ss: seq<PresenceSession>)
    ensures |Durations(ss)| == 0 ==> AverageDuration(ss) == 0
    ensures var n, total, r := |Durations(ss)|, Sum(Durations(ss)), AverageDuration(ss);
      n > 0 ==> 2 * n * r - n <= 2 * total < 2 * n * r + n
  {
    var n := |Durations(ss)|;
    if n > 0 {
      DivBounds(2 * Sum(Durations(ss)) + n, 2 * n);
    }
  }

  lemma DivBounds(a: int, b: int)
    requires b > 0
    ensures b * (a / b) <= a < b * (a / b) + b
  {
  }

  /** A sum of `|xs|` values between `lo` and `hi` lies between `|xs| * lo` and `|xs| * hi`. */
  lemma {:induction false} SumBounds(xs: seq<int>, lo: int, hi: int)
    requires forall i :: 0 <= i < |xs| ==> lo <= xs[i] <= hi
    ensures |xs| * lo <= Sum(xs) <= |xs| * hi
  {
    if xs != [] {
      SumBounds(xs[1..], lo, hi);
      assert |xs| * lo == lo + (|xs| - 1) * lo && |xs| * hi == hi + (|xs| - 1) * hi;
    }
  }

  /** The average lies between the shortest and the longest stay. */
  lemma AverageWithinDurations(ss: seq<PresenceSession>, lo: int, hi: int)
    requires forall s :: s in ss && s.durationMinutes.Some? ==> lo <= s.durationMinutes.value <= hi
    requires |Durations(ss)| > 0
    ensures lo <= AverageDuration(ss) <= hi
  {
    var ds := Durations(ss);
    DurationsMeaning(ss);
    forall i | 0 <= i < |ds| ensures lo <= ds[i] <= hi {
      assert ds[i] in ds;
    }
    SumBounds(ds, lo, hi);
    AverageDurationRounds(ss);
    RoundedMeanBounds(|ds|, Sum(ds), AverageDuration(ss), lo, hi);
  }

  /** A mean rounded as `AverageDuration` does stays within the bounds of the values. */
  lemma RoundedMeanBounds(n: int, total: int, r: int, lo: int, hi: int)
    requires n > 0 && n * lo <= total <= n * hi
    requires 2 * n * r - n <= 2 * total < 2 * n * r + n
    ensures lo <= r <= hi
  {
    assert n * (2 * r - 2 * hi - 1) <= 0;
    PositiveFactor(n, 2 * r - 2 * hi - 1);
    assert n * (2 * lo - 2 * r - 1) < 0;
    PositiveFactor(n, 2 * lo - 2 * r - 1);
  }

  lemma PositiveFactor(n: int, x: int)
    requires n > 0 && n * x <= 0
    ensures x <= 0
  {
  }

  // ---------------------------------------------------------------------------
  // The peak

  /** The users of the sessions entered in hour `h`: one group of
      `GROUP BY EXTRACT(HOUR FROM entry_time)`. */
  function Bucket(ss: seq<PresenceSession>, h: int): set<UserId> {
    set s | s in ss && HourOf(s.entryTime) == h :: s.userId
  }

  /** The largest bucket among the hours below `k`. */
  function PeakBelow(ss: seq<PresenceSession>, k: nat): nat {
    if k == 0 then 0
    else
      var p := PeakBelow(ss, k - 1);
      if |Bucket(ss, k - 1)| > p then |Bucket(ss, k - 1)| else p
  }

  /** `COALESCE(MAX(occupancy), 0)` over the hourly groups. */
  function Peak(ss: seq<PresenceSession>): nat {
    PeakBelow(ss, 24)
  }

  /** `PeakBelow` is the size of the largest bucket below `k`, and 0 when `k` is 0. */
  lemma {:induction false} PeakBelowIsMax(ss: seq<PresenceSession>, k: nat)
    ensures forall h :: 0 <= h < k ==> |Bucket(ss, h)| <= PeakBelow(ss, k)
    ensures k > 0 ==> exists h :: 0 <= h < k && PeakBelow(ss, k) == |Bucket(ss, h)|
    ensures k == 0 ==> PeakBelow(ss, k) == 0
  {
    if k > 0 {
      PeakBelowIsMax(ss, k - 1);
    }
  }

  /** The peak is the size of the largest of the 24 hourly buckets. */
  lemma PeakIsMax(ss: seq<PresenceSession>)
    ensures forall h :: 0 <= h < 24 ==> |Bucket(ss, h)| <= Peak(ss)
    ensures exists h :: 0 <= h < 24 && Peak(ss) == |Bucket(ss, h)|
  {
    PeakBelowIsMax(ss, 24);
  }

  lemma {:induction false} SubsetCard<T>(a: set<T>, b: set<T>)
    requires a <= b
    ensures |a| <= |b|
    decreases b
  {
    if a != {} {
      var x :| x in a;
      SubsetCard(a - {x}, b - {x});
    }
  }

  /** The peak never exceeds the day's distinct visitors, and it is 0 exactly
      when there is no session. */
  lemma PeakBounds(ss: seq<PresenceSession>)
    ensures Peak(ss) <= |Users(ss)|
    ensures Peak(ss) == 0 <==> ss == []
  {
    PeakIsMax(ss);
    var h :| 0 <= h < 24 && Peak(ss) == |Bucket(ss, h)|;
    SubsetCard(Bucket(ss, h), Users(ss));
    if ss != [] {
      var first := HourOf(ss[0].entryTime);
      assert ss[0].userId in Bucket(ss, first);
      assert Peak(ss) >= |Bucket(ss, first)| > 0;
    }
  }

  // ---------------------------------------------------------------------------
  // Hourly occupancy

  /** The filter of the hourly query: entered in hour `h` or before, and not
      left before hour `h`. Only the hour of the exit time is compared, not
      its date. */
  predicate PresentAt(s: PresenceSession, h: int) {
    HourOf(s.entryTime) <= h && (s.exitTime.None? || HourOf(s.exitTime.value) >= h)
  }

  /** The users the hourly query counts, as a set. */
  function Present(ss: seq<PresenceSession>, h: int): (r: set<UserId>)
    ensures r <= Users(ss)
  {
    set s | s in ss && PresentAt(s, h) :: s.userId
  }

  /** The hourly query: `COUNT(DISTINCT user_id)` of the present users. */
  function HourlyOccupancy(ss: seq<PresenceSession>, h: int): nat {
    |Present(ss, h)|
  }

  /** A user counts in hour `h` exactly when one of their day's sessions
      covers `h`, and no hour counts more users than visited that day. */
  lemma HourlyOccupancyMeaning(ss: seq<PresenceSession>, h: int)
    ensures forall u :: u in Present(ss, h) <==> exists s :: s in ss && s.userId == u && PresentAt(s, h)
    ensures HourlyOccupancy(ss, h) <= |Users(ss)|
  {
    SubsetCard(Present(ss, h), Users(ss));
  }

  /** The time `hour:minute` on day `date`. */
  function At(date: int, hour: int, minute: int): Timestamp {
    date * MS_PER_DAY + hour * MS_PER_HOUR + minute * MS_PER_MINUTE
  }

  lemma {:induction false} AtParts(date: int, hour: int, minute: int)
    requires 0 <= hour < 24 && 0 <= minute < 60
    ensures Day(At(date, hour, minute)) == date && HourOf(At(date, hour, minute)) == hour
  {
    var t := At(date, hour, minute);
    var x := hour * MS_PER_HOUR + minute * MS_PER_MINUTE;
    assert 0 <= x < MS_PER_DAY;
    assert t == date * MS_PER_DAY + x;
    var q, r := t / MS_PER_DAY, t % MS_PER_DAY;
    assert t == q * MS_PER_DAY + r && 0 <= r < MS_PER_DAY;
    assert (q - date) * MS_PER_DAY == x - r;
    assert q == date;
  }

  /** A user in from 08:00 to 18:00 counts in every hour from 8 to 18: the
      hour of the exit itself counts, since only hours are compared. */
  lemma WorkdayCountsThroughExitHour(date: int, userId: UserId, officeId: OfficeId, h: int)
    requires 0 <= h < 24
    ensures var s := PresenceSession(0, userId, officeId, At(date, 8, 0), Some(At(date, 18, 0)), Some(600));
      HourlyOccupancy([s], h) == if 8 <= h <= 18 then 1 else 0
  {
    var s := PresenceSession(0, userId, officeId, At(date, 8, 0), Some(At(date, 18, 0)), Some(600));
    AtParts(date, 8, 0);
    AtParts(date, 18, 0);
    if 8 <= h <= 18 {
      assert Present([s], h) == {userId};
    } else {
      assert Present([s], h) == {};
    }
  }

  /** A session entered at hour `a` and left at hour `b` of the next day
      counts in hour `h` of its entry day exactly when `a <= h <= b`: the
      exit's hour is compared without its date. */
  lemma OvernightCountsByHoursOnly(date: int, userId: UserId, officeId: OfficeId, a: int, b: int, h: int)
    requires 0 <= a < 24 && 0 <= b < 24
    ensures var s := PresenceSession(0, userId, officeId, At(date, a, 0), Some(At(date + 1, b, 0)), None);
      HourlyOccupancy([s], h) == if a <= h <= b then 1 else 0
  {
    var s := PresenceSession(0, userId, officeId, At(date, a, 0), Some(At(date + 1, b, 0)), None);
    AtParts(date, a, 0);
    AtParts(date + 1, b, 0);
    if a <= h <= b {
      assert Present([s], h) == {userId};
    } else {
      assert Present([s], h) == {};
    }
  }

  /** A session from 22:00 to 01:00 the next day counts in no hour at all,
      not even its entry hour 22; one from 09:00 to 17:00 the next day counts
      in hours 9 to 17 only. */
  lemma OvernightSessionNotCounted(date: int, userId: UserId, officeId: OfficeId, h: int)
    ensures var s := PresenceSession(0, userId, officeId, At(date, 22, 0), Some(At(date + 1, 1, 0)), None);
      HourlyOccupancy([s], h) == 0
    ensures var s := PresenceSession(0, userId, officeId, At(date, 9, 0), Some(At(date + 1, 17, 0)), None);
      HourlyOccupancy([s], h) == if 9 <= h <= 17 then 1 else 0
  {
    OvernightCountsByHoursOnly(date, userId, officeId, 22, 1, h);
    OvernightCountsByHoursOnly(date, userId, officeId, 9, 17, h);
  }

  // ---------------------------------------------------------------------------
  // The rows written for one office

  /** The `daily_attendance` row of one office and date. */
  function DailyRow(sessions: seq<PresenceSession>, officeId: OfficeId, date: int): DailyAttendance {
    var ss := DaySessions(sessions, officeId, date);
    DailyAttendance(|Users(ss)|, |ss|, AverageDuration(ss), Peak(ss))
  }

  /** The row's figures agree with each other: the peak is at most the
      visitors, who are at most the entries, and all three are 0 together. */
  lemma DailyRowBounds(sessions: seq<PresenceSession>, officeId: OfficeId, date: int)
    ensures var r := DailyRow(sessions, officeId, date);
      && r.peakOccupancy <= r.uniqueVisitors <= r.totalEntries
      && (r.totalEntries == 0 <==> r.uniqueVisitors == 0)
      && (r.totalEntries == 0 <==> r.peakOccupancy == 0)
  {
    var ss := DaySessions(sessions, officeId, date);
    UsersAtMostSessions(ss);
    PeakBounds(ss);
  }

  /** The occupancy of each hour of a day, 0 to 23. */
  type DayHours = hs: seq<nat> | |hs| == 24 witness seq(24, _ => 0)

  /** What the job writes for one office: its daily row and its 24 hourly values. */
  datatype OfficeRows = OfficeRows(daily: DailyAttendance, hours: DayHours)

  /** The rows of one office and date. They depend on the sessions only,
      which the job never writes, so they are the same at every point of a run. */
  function RowsFor(sessions: seq<PresenceSession>, officeId: OfficeId, date: int): OfficeRows {
    var ss := DaySessions(sessions, officeId, date);
    OfficeRows(DailyRow(sessions, officeId, date), seq(24, h => HourlyOccupancy(ss, h)))
  }

  /** The rows of every office of the list, in its order. */
  function RowsForAll(sessions: seq<PresenceSession>, offices: seq<Office>, date: int): (r: seq<OfficeRows>)
    ensures |r| == |offices|
  {
    if offices == [] then []
    else RowsForAll(sessions, offices[..|offices| - 1], date) + [RowsFor(sessions, offices[|offices| - 1].id, date)]
  }

  /** The `i`-th element of `RowsForAll` holds the rows of the `i`-th office. */
  lemma {:induction false} RowsForAllAt(sessions: seq<PresenceSession>, offices: seq<Office>, date: int, i: nat)
    requires i < |offices|
    ensures RowsForAll(sessions, offices, date)[i] == RowsFor(sessions, offices[i].id, date)
  {
    var init := offices[..|offices| - 1];
    if i < |init| {
      RowsForAllAt(sessions, init, date, i);
      assert init[i] == offices[i];
    }
  }

  /** The key of the hourly row of one office, date and hour. */
  function HourKey(officeId: OfficeId, date: int, h: int): (OfficeId, int, int) {
    (officeId, date, h)
  }

  /** The hourly table after the iterations for hours `0 .. k - 1`. */
  function HoursUpTo(hourly: map<(OfficeId, int, int), nat>, officeId: OfficeId, date: int, hours: DayHours, k: nat)
    : map<(OfficeId, int, int), nat>
    requires k <= 24
  {
    if k == 0 then hourly
    else HoursUpTo(hourly, officeId, date, hours, k - 1)[HourKey(officeId, date, k - 1) := hours[k - 1]]
  }

  /** After hours `0 .. k - 1`, exactly their rows are added or replaced,
      each with that hour's value; every other row is as before. */
  lemma {:induction false} HoursUpToMeaning(hourly: map<(OfficeId, int, int), nat>, officeId: OfficeId, date: int,
                                            hours: DayHours, k: nat)
    requires k <= 24
    ensures var r := HoursUpTo(hourly, officeId, date, hours, k);
      && (forall key :: key in r <==> key in hourly || (key.0 == officeId && key.1 == date && 0 <= key.2 < k))
      && (forall h :: 0 <= h < k ==> r[HourKey(officeId, date, h)] == hours[h])
      && (forall key :: key in hourly && !(key.0 == officeId && key.1 == date && 0 <= key.2 < k) ==> r[key] == hourly[key])
  {
    if k > 0 {
      HoursUpToMeaning(hourly, officeId, date, hours, k - 1);
    }
  }

  /** Where, if anywhere, the handling of one office throws: in the statistics
      queries or the daily upsert, or in the query or upsert of one hour. */
  datatype AggFault = NoAggFault | DailyFails(message: string) | HourFails(hour: nat, message: string)

  /** The fault of the `i`-th office; offices beyond the list meet none. */
  function AggFaultAt(faults: seq<AggFault>, i: nat): AggFault {
    if i < |faults| then faults[i] else NoAggFault
  }

  /** The two tables the job writes, and the message of the error it rethrows, if any. */
  datatype AggState = AggState(
    daily: map<(OfficeId, int), DailyAttendance>,
    hourly: map<(OfficeId, int, int), nat>,
    error: Option<string>)

  /** The body of the office loop: the daily row, then the 24 hourly rows,
      until the first throw. */
  function OfficeStep(st: AggState, officeId: OfficeId, date: int, rows: OfficeRows, f: AggFault): AggState {
    var daily := DailyUpserted(st.daily, officeId, date, rows.daily);
    match f
    case DailyFails(m) => AggState(st.daily, st.hourly, Some(m))
    case HourFails(h, m) =>
      if h < 24 then AggState(daily, HoursUpTo(st.hourly, officeId, date, rows.hours, h), Some(m))
      else AggState(daily, HoursUpTo(st.hourly, officeId, date, rows.hours, 24), st.error)
    case NoAggFault => AggState(daily, HoursUpTo(st.hourly, officeId, date, rows.hours, 24), st.error)
  }

  /** An office without a throw gets its daily row and exactly the 24 hourly
      rows of hours 0 to 23, with the figures of its sessions of that date;
      no row of another office or date changes. */
  lemma OfficeWritesItsRows(st: AggState, sessions: seq<PresenceSession>, officeId: OfficeId, date: int)
    ensures var r := OfficeStep(st, officeId, date, RowsFor(sessions, officeId, date), NoAggFault);
      && r.error == st.error
      && r.daily.Keys == st.daily.Keys + {(officeId, date)} && r.daily[(officeId, date)] == DailyRow(sessions, officeId, date)
      && (forall key :: key in st.daily && key != (officeId, date) ==> r.daily[key] == st.daily[key])
      && (forall key :: key in r.hourly <==> key in st.hourly || (key.0 == officeId && key.1 == date && 0 <= key.2 < 24))
      && (forall h :: 0 <= h < 24 ==>
            r.hourly[HourKey(officeId, date, h)] == HourlyOccupancy(DaySessions(sessions, officeId, date), h))
      && (forall key :: key in st.hourly && (key.0 != officeId || key.1 != date) ==> r.hourly[key] == st.hourly[key])
  {
    HoursUpToMeaning(st.hourly, officeId, date, RowsFor(sessions, officeId, date).hours, 24);
  }

  /** The state after the first `n` offices, whose rows are `rows`; after a
      throw no further office is handled. */
  function Run(st0: AggState, offices: seq<Office>, date: int, rows: seq<OfficeRows>, faults: seq<AggFault>, n: nat)
    : AggState
    requires n <= |offices| == |rows|
  {
    if n == 0 then st0
    else
      var st := Run(st0, offices, date, rows, faults, n - 1);
      if st.error.Some? then st else OfficeStep(st, offices[n - 1].id, date, rows[n - 1], AggFaultAt(faults, n - 1))
  }

  /** One more office moves a run without error as one iteration of the loop does. */
  lemma RunStep(st0: AggState, offices: seq<Office>, date: int, rows: seq<OfficeRows>, faults: seq<AggFault>, n: nat)
    requires n < |offices| == |rows| && Run(st0, offices, date, rows, faults, n).error.None?
    ensures Run(st0, offices, date, rows, faults, n + 1)
            == OfficeStep(Run(st0, offices, date, rows, faults, n), offices[n].id, date, rows[n], AggFaultAt(faults, n))
  {
  }

  /** A throw for one office ends the run: the later offices are not aggregated
      and the error stays the one rethrown. */
  lemma {:induction false} AggAbortIsFinal(st0: AggState, offices: seq<Office>, date: int, rows: seq<OfficeRows>,
                                           faults: seq<AggFault>, k: nat, n: nat)
    requires k <= n <= |offices| == |rows| && Run(st0, offices, date, rows, faults, k).error.Some?
    ensures Run(st0, offices, date, rows, faults, n) == Run(st0, offices, date, rows, faults, k)
    decreases n
  {
    if n > k {
      AggAbortIsFinal(st0, offices, date, rows, faults, k, n - 1);
    }
  }

  // ---------------------------------------------------------------------------
  // Re-running the job

  lemma UpdateOfMerge<K, V>(m: map<K, V>, w: map<K, V>, k: K, v: V)
    ensures (m + w)[k := v] == m + w[k := v]
  {
  }

  lemma MergeAbsorbs<K, V>(m: map<K, V>, w: map<K, V>)
    ensures (m + w) + w == m + w
  {
  }

  lemma {:induction false} HoursUpToMerge(m: map<(OfficeId, int, int), nat>, w: map<(OfficeId, int, int), nat>,
                                          officeId: OfficeId, date: int, hours: DayHours, k: nat)
    requires k <= 24
    ensures HoursUpTo(m + w, officeId, date, hours, k) == m + HoursUpTo(w, officeId, date, hours, k)
  {
    if k > 0 {
      HoursUpToMerge(m, w, officeId, date, hours, k - 1);
      UpdateOfMerge(m, HoursUpTo(w, officeId, date, hours, k - 1), HourKey(officeId, date, k - 1), hours[k - 1]);
    }
  }

  /** One office without a throw overwrites the tables it finds the same way
      whatever they hold. */
  lemma OfficeStepMerge(daily: map<(OfficeId, int), DailyAttendance>, hourly: map<(OfficeId, int, int), nat>,
                        w: AggState, officeId: OfficeId, date: int, rows: OfficeRows)
    ensures var r := OfficeStep(AggState(daily + w.daily, hourly + w.hourly, None), officeId, date, rows, NoAggFault);
      var v := OfficeStep(w, officeId, date, rows, NoAggFault);
      r == AggState(daily + v.daily, hourly + v.hourly, None)
  {
    UpdateOfMerge(daily, w.daily, (officeId, date), rows.daily);
    HoursUpToMerge(hourly, w.hourly, officeId, date, rows.hours, 24);
  }

  /** The rows a run without throws writes into empty tables. */
  function Written(offices: seq<Office>, date: int, rows: seq<OfficeRows>, n: nat): AggState
    requires n <= |offices| == |rows|
  {
    Run(AggState(map[], map[], None), offices, date, rows, [], n)
  }

  /** A run in which nothing throws ends without an error. */
  lemma {:induction false} FaultFreeRunSucceeds(st0: AggState, offices: seq<Office>, date: int, rows: seq<OfficeRows>, n: nat)
    requires n <= |offices| == |rows| && st0.error.None?
    ensures Run(st0, offices, date, rows, [], n).error.None?
  {
    if n > 0 {
      FaultFreeRunSucceeds(st0, offices, date, rows, n - 1);
    }
  }

  /** A run without throws overwrites the tables with its rows: what it finds
      in the tables makes no difference. */
  lemma {:induction false} RunOverwrites(daily: map<(OfficeId, int), DailyAttendance>, hourly: map<(OfficeId, int, int), nat>,
                                         offices: seq<Office>, date: int, rows: seq<OfficeRows>, n: nat)
    requires n <= |offices| == |rows|
    ensures var r := Run(AggState(daily, hourly, None), offices, date, rows, [], n);
      var w := Written(offices, date, rows, n);
      r == AggState(daily + w.daily, hourly + w.hourly, None)
  {
    if n > 0 {
      RunOverwrites(daily, hourly, offices, date, rows, n - 1);
      FaultFreeRunSucceeds(AggState(map[], map[], None), offices, date, rows, n - 1);
      OfficeStepMerge(daily, hourly, Written(offices, date, rows, n - 1), offices[n - 1].id, date, rows[n - 1]);
    }
  }

  /** Re-running the job for the same date over unchanged sessions leaves
      every row as the first run left it. */
  lemma RerunIsIdempotent(daily: map<(OfficeId, int), DailyAttendance>, hourly: map<(OfficeId, int, int), nat>,
                          sessions: seq<PresenceSession>, offices: seq<Office>, date: int)
    ensures var rows := RowsForAll(sessions, offices, date);
      var first := Run(AggState(daily, hourly, None), offices, date, rows, [], |offices|);
      Run(first, offices, date, rows, [], |offices|) == first
  {
    var n, rows := |offices|, RowsForAll(sessions, offices, date);
    var w := Written(offices, date, rows, n);
    RunOverwrites(daily, hourly, offices, date, rows, n);
    var first := Run(AggState(daily, hourly, None), offices, date, rows, [], n);
    RunOverwrites(first.daily, first.hourly, offices, date, rows, n);
    MergeAbsorbs(daily, w.daily);
    MergeAbsorbs(hourly, w.hourly);
  }

  /** The end-to-end example: one session from 09:00 to 17:00 gives one
      visitor, one entry, an average of 480 minutes and a peak of one. */
  lemma OneVisitDay(date: int, userId: UserId, officeId: OfficeId)
    ensures var s := PresenceSession(0, userId, officeId, At(date, 9, 0), Some(At(date, 17, 0)), Some(480));
      DailyRow([s], officeId, date) == DailyAttendance(1, 1, 480, 1)
  {
    var s := PresenceSession(0, userId, officeId, At(date, 9, 0), Some(At(date, 17, 0)), Some(480));
    AtParts(date, 9, 0);
    assert DaySessions([s], officeId, date) == [s];
    assert Users([s]) == {userId};
    assert Durations([s]) == [480];
    assert Bucket([s], 9) == {userId};
    assert |Users([s])| == 1;
    assert Sum([480]) == 480;
    assert AverageDuration([s]) == 480;
    PeakBounds([s]);
    assert Peak([s]) == 1;
  }

  // ---------------------------------------------------------------------------
  // The job

  /** The office loop's body: the daily upsert, then the hour loop. */
  method AggregateOffice(db: Store, offices: seq<Office>, i: nat, date: int, f: AggFault,
                         ghost sessions: seq<PresenceSession>)
    returns (error: Option<string>)
    requires db.sessions == sessions && i < |offices|
    modifies db`daily, db`hourly
    ensures AggState(db.daily, db.hourly, error)
              == OfficeStep(AggState(old(db.daily), old(db.hourly), None), offices[i].id, date,
                            RowsForAll(sessions, offices, date)[i], f)
  {
    var officeId := offices[i].id;
    ghost var rows := RowsForAll(sessions, offices, date)[i];
    RowsForAllAt(sessions, offices, date, i);
    if f.DailyFails? {
      return Some(f.message);
    }
    var ss := DaySessions(db.sessions, officeId, date);
    db.UpsertDailyAttendance(officeId, date, DailyRow(db.sessions, officeId, date));
    ghost var h0 := old(db.hourly);
    for hour := 0 to 24
      invariant db.hourly == HoursUpTo(h0, officeId, date, rows.hours, hour)
      invariant db.daily == DailyUpserted(old(db.daily), officeId, date, rows.daily)
      invariant f.HourFails? ==> f.hour >= hour
    {
      if f.HourFails? && f.hour == hour {
        return Some(f.message);
      }
      db.UpsertHourlyOccupancy(officeId, date, hour, HourlyOccupancy(ss, hour));
    }
    error := None;
  }

  /** The loop of `aggregateDaily` over the active offices: each office in
      turn, and the first throw ends the loop and is passed on (`Some`). */
  method AggregateOffices(db: Store, offices: seq<Office>, date: int, faults: seq<AggFault>,
                          ghost sessions: seq<PresenceSession>)
    returns (error: Option<string>)
    requires db.sessions == sessions
    modifies db`daily, db`hourly
    ensures AggState(db.daily, db.hourly, error)
              == Run(AggState(old(db.daily), old(db.hourly), None), offices, date, RowsForAll(sessions, offices, date),
                     faults, |offices|)
  {
    ghost var st0 := AggState(db.daily, db.hourly, None);
    ghost var rows := RowsForAll(sessions, offices, date);
    for i := 0 to |offices|
      invariant AggState(db.daily, db.hourly, None) == Run(st0, offices, date, rows, faults, i)
    {
      RunStep(st0, offices, date, rows, faults, i);
      error := AggregateOffice(db, offices, i, date, AggFaultAt(faults, i), sessions);
      if error.Some? {
        AggAbortIsFinal(st0, offices, date, rows, faults, i + 1, |offices|);
        return;
      }
    }
    error := None;
  }

  /** `aggregateDaily`: every active office in turn for yesterday's date; the
      first throw, in the office query or for an office, ends the job and is
      rethrown (`Some`). */
  method AggregateDaily(db: Store, now: Timestamp, officesFault: Option<string>, faults: seq<AggFault>)
    returns (error: Option<string>)
    modifies db`daily, db`hourly
    ensures officesFault.Some? ==> error == officesFault && db.daily == old(db.daily) && db.hourly == old(db.hourly)
    ensures officesFault.None? ==>
              var offices, date := ActiveOffices(db.offices), Yesterday(now);
              AggState(db.daily, db.hourly, error)
                == Run(AggState(old(db.daily), old(db.hourly), None), offices, date, RowsForAll(db.sessions, offices, date),
                       faults, |offices|)
  {
    var date := Yesterday(now);
    if officesFault.Some? {
      return officesFault;
    }
    var offices := ActiveOffices(db.offices);
    error := AggregateOffices(db, offices, date, faults, db.sessions);
  }
}
