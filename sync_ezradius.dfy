/** `syncEzradius` of azure-functions/src/functions/syncEzradius.ts. Every
    authentication the RADIUS service accepted counts as an entry: the pass
    records it and opens a session when none is open, and never closes one.
    There is no per-event `try`: the first store call that throws ends the
    pass, records status 'error' and is rethrown. `fetchAuthEvents` is a
    parameter (the HTTP request), and so are the store calls that throw.

    The lookups of an event (its email, its user, its office) read only
    tables the pass does not write, so `Decide` fixes them per event before
    the pass; `EventStep` and `Fold` take those decisions as data. */
module SyncEzradius {
  import opened Types
  import opened Text
  import opened Database
  import opened Sessions
  import opened Batch
  import opened Ezradius

  /** An authentication event as the service reports it. */
  datatype EzEvent = EzEvent(
    id: string, username: string, macAddress: string, nasIp: string, eventType: string,
    timestamp: Timestamp, locationId: Option<string>)

  /** The office of the event's location, when it has a (non-empty) one. */
  function EventOffice(offices: seq<Office>, ev: EzEvent): (r: Option<Office>)
    ensures r.Some? ==> Truthy(ev.locationId) && r.value in offices && r.value.isActive
                        && r.value.ezradiusLocationId == ev.locationId
    ensures Truthy(ev.locationId) && r.None? ==>
              forall i :: 0 <= i < |offices| ==> !(offices[i].isActive && offices[i].ezradiusLocationId == ev.locationId)
    ensures !Truthy(ev.locationId) ==> r.None?
  {
    if Truthy(ev.locationId) then OfficeByEzradiusLocation(offices, ev.locationId.value) else None
  }

  /** Where the lookups of one event lead. */
  datatype Decision = NoEmail | NoUser | NoOffice | Target(user: User, office: Office)

  /** The three lookups, in the loop's order: the email in the username, the
      user with that email, the active office of the event's location. */
  function Decide(users: seq<User>, offices: seq<Office>, ev: EzEvent): Decision {
    match ExtractEmail(ev.username)
    case None => NoEmail
    case Some(email) =>
      match UserByEmail(users, email)
      case None => NoUser
      case Some(user) =>
        match EventOffice(offices, ev)
        case None => NoOffice
        case Some(office) => Target(user, office)
  }

  /** An event has no email exactly when its username has no '@'; it has a
      target exactly when a user has that email, in lower case, and an active
      office has the event's location. */
  lemma DecideMeaning(users: seq<User>, offices: seq<Office>, ev: EzEvent)
    ensures var d := Decide(users, offices, ev);
      && (d == NoEmail <==> '@' !in ev.username)
      && (d.Target? <==> '@' in ev.username && UserByEmail(users, ev.username).Some? && EventOffice(offices, ev).Some?)
      && (d.Target? ==> && d.user in users && d.user.email == Lower(ev.username)
                        && d.office in offices && d.office.isActive && d.office.ezradiusLocationId == ev.locationId)
  {
    ExtractEmailIffAt(ev.username);
    UserByEmailIgnoresCase(users, Lower(ev.username), ev.username);
    LowerIdempotent(ev.username);
  }

  /** The decisions for a whole batch. */
  function Decisions(users: seq<User>, offices: seq<Office>, evs: seq<EzEvent>): (ds: seq<Decision>)
    ensures |ds| == |evs| && forall k :: 0 <= k < |evs| ==> ds[k] == Decide(users, offices, evs[k])
  {
    seq(|evs|, k requires 0 <= k < |evs| => Decide(users, offices, evs[k]))
  }

  function RecordedEvent(user: User, office: Office, ev: EzEvent): AccessEvent {
    AccessEvent(user.id, office.id, Entry, Ezradius, ev.macAddress, ev.id, ev.timestamp)
  }

  /** How the loop body for one event ends, in the order of its checks and
      store calls; a store call that throws ends it with `Failed`. */
  function StepOutcome(events: seq<AccessEvent>, d: Decision, ev: EzEvent, fault: StoreFault): Outcome {
    if FailsAt(fault, DedupCheck) then Failed(false, fault.message)
    else if EventExists(events, ev.id, Ezradius) then Skipped
    else if d.NoEmail? then Skipped
    else if FailsAt(fault, Lookup) then Failed(false, fault.message)
    else if !d.Target? then Skipped
    else if FailsAt(fault, Insert) || FailsAt(fault, SessionUpdate) then Failed(true, fault.message)
    else Processed(ev.timestamp)
  }

  /** The event row is written: every check before `insertAccessEvent` passed
      and it did not throw. */
  predicate Inserted(events: seq<AccessEvent>, d: Decision, ev: EzEvent, fault: StoreFault) {
    && !FailsAt(fault, DedupCheck) && !EventExists(events, ev.id, Ezradius) && d.Target?
    && !FailsAt(fault, Lookup) && !FailsAt(fault, Insert)
  }

  function StepEvents(events: seq<AccessEvent>, d: Decision, ev: EzEvent, fault: StoreFault): seq<AccessEvent> {
    if Inserted(events, d, ev, fault) then events + [RecordedEvent(d.user, d.office, ev)] else events
  }

  /** Only an event that ends processed opens a session, and only when none is open. */
  function StepSessions(sessions: seq<PresenceSession>, d: Decision, ev: EzEvent, o: Outcome): seq<PresenceSession> {
    if o.Processed? && d.Target? then OpenIfNone(sessions, d.user.id, d.office.id, ev.timestamp) else sessions
  }

  /** The loop body for one event, on the tables it writes. */
  function EventStep(t: Tables, d: Decision, ev: EzEvent, fault: StoreFault): (Tables, Outcome) {
    var o := StepOutcome(t.events, d, ev, fault);
    (Tables(StepEvents(t.events, d, ev, fault), StepSessions(t.sessions, d, ev, o)), o)
  }

  /** An event the pass can do nothing with: already stored, or without an
      email, a user or an office. */
  predicate Settled(events: seq<AccessEvent>, d: Decision, ev: EzEvent) {
    EventExists(events, ev.id, Ezradius) || !d.Target?
  }

  /** One event only appends to the event log, at most one row and an entry
      from this source. */
  lemma StepOnlyAppends(events: seq<AccessEvent>, d: Decision, ev: EzEvent, fault: StoreFault)
    ensures var e := StepEvents(events, d, ev, fault);
      && |events| <= |e| <= |events| + 1 && e[..|events|] == events
      && (|e| == |events| + 1 ==> e[|events|].eventType == Entry && HasDedupKey(e[|events|], ev.id, Ezradius))
  {
  }

  /** One event keeps at most one open session per pair and never changes a
      session that already exists; the pair of a processed event ends with an
      open session. */
  lemma StepKeepsInvariants(sessions: seq<PresenceSession>, d: Decision, ev: EzEvent, o: Outcome)
    requires SessionsValid(sessions)
    ensures var s := StepSessions(sessions, d, ev, o);
      && SessionsValid(s) && |sessions| <= |s| && s[..|sessions|] == sessions
      && (o.Processed? && d.Target? ==> LatestOpen(s, d.user.id, d.office.id).Some?)
  {
    if o.Processed? && d.Target? {
      ReconcileKeepsInvariant(sessions, d.user.id, d.office.id, Entry, ev.timestamp);
    }
  }

  /** A settled event is skipped and writes nothing. */
  lemma SettledIsSkipped(events: seq<AccessEvent>, d: Decision, ev: EzEvent)
    requires Settled(events, d, ev)
    ensures StepEvents(events, d, ev, NoFault) == events && StepOutcome(events, d, ev, NoFault) == Skipped
  {
  }

  /** After an event without a failing store call, that event is settled. */
  lemma StepSettles(events: seq<AccessEvent>, d: Decision, ev: EzEvent)
    ensures Settled(StepEvents(events, d, ev, NoFault), d, ev)
  {
    var e := StepEvents(events, d, ev, NoFault);
    if !Settled(events, d, ev) {
      assert HasDedupKey(e[|events|], ev.id, Ezradius);
    }
  }

  lemma {:induction false} SettledAfterAppend(events: seq<AccessEvent>, more: seq<AccessEvent>, d: Decision, ev: EzEvent)
    requires Settled(events, d, ev)
    ensures Settled(events + more, d, ev)
  {
    if EventExists(events, ev.id, Ezradius) {
      EventExistsAfterAppend(events, more, ev.id, Ezradius);
    }
  }

  // ---------------------------------------------------------------------------
  // The pass over the batch

  /** The loop goes on with its count and high-water timestamp, or a throw has ended it. */
  datatype RunState =
    | Running(tables: Tables, processed: nat, last: Option<Timestamp>)
    | Aborted(tables: Tables, message: string)

  /** The last outcome is a failure: the loop has stopped. */
  predicate Halted(os: seq<Outcome>) {
    |os| > 0 && os[|os| - 1].Failed?
  }

  /** The event log and the outcomes after the first `n` events of the batch;
      after a failure no further event is looked at. */
  function Trace(e0: seq<AccessEvent>, evs: seq<EzEvent>, ds: seq<Decision>, faults: seq<StoreFault>, n: nat)
    : (r: (seq<AccessEvent>, seq<Outcome>))
    requires n <= |evs| == |ds|
    ensures |r.1| <= n && (|r.1| == n || Halted(r.1))
  {
    if n == 0 then (e0, [])
    else
      var (e, os) := Trace(e0, evs, ds, faults, n - 1);
      var f := FaultAt(faults, n - 1);
      if Halted(os) then (e, os)
      else (StepEvents(e, ds[n - 1], evs[n - 1], f), os + [StepOutcome(e, ds[n - 1], evs[n - 1], f)])
  }

  /** The session table after the events whose outcomes are `os`, the
      first `|os|` of the batch. */
  function SessionsAfter(s0: seq<PresenceSession>, evs: seq<EzEvent>, ds: seq<Decision>, os: seq<Outcome>)
    : seq<PresenceSession>
    requires |os| <= |evs| == |ds|
  {
    if os == [] then s0
    else
      var k := |os| - 1;
      StepSessions(SessionsAfter(s0, evs, ds, os[..k]), ds[k], evs[k], os[k])
  }

  /** The state after the first `n` events: the tables, and either the number
      of processed events with the largest processed timestamp, or the message
      of the failure that ended the loop. */
  function Fold(t0: Tables, evs: seq<EzEvent>, ds: seq<Decision>, faults: seq<StoreFault>, n: nat): RunState
    requires n <= |evs| == |ds|
  {
    var (e, os) := Trace(t0.events, evs, ds, faults, n);
    var t := Tables(e, SessionsAfter(t0.sessions, evs, ds, os));
    if Halted(os) then Aborted(t, os[|os| - 1].message) else Running(t, ProcessedCount(os), MaxProcessed(os))
  }

  /** The state of a running loop after one more event, which ended in `o` with tables `t`. */
  function Advance(st: RunState, t: Tables, o: Outcome): (r: RunState)
    requires st.Running?
    ensures r.tables == t
  {
    match o
    case Skipped => Running(t, st.processed, st.last)
    case Processed(ts) => Running(t, st.processed + 1, Some(Later(st.last, ts)))
    case Failed(_, msg) => Aborted(t, msg)
  }

  /** One more event moves a running pass as one iteration of the loop does. */
  lemma FoldStep(t0: Tables, evs: seq<EzEvent>, ds: seq<Decision>, faults: seq<StoreFault>, n: nat)
    requires n < |evs| == |ds| && Fold(t0, evs, ds, faults, n).Running?
    ensures var st := Fold(t0, evs, ds, faults, n);
      var step := EventStep(st.tables, ds[n], evs[n], FaultAt(faults, n));
      Fold(t0, evs, ds, faults, n + 1) == Advance(st, step.0, step.1)
  {
    var (e, os) := Trace(t0.events, evs, ds, faults, n);
    var o := StepOutcome(e, ds[n], evs[n], FaultAt(faults, n));
    CountsSnoc(os, o);
    assert (os + [o])[..n] == os;
  }

  /** An ended pass looks at no further event. */
  lemma FoldStaysAborted(t0: Tables, evs: seq<EzEvent>, ds: seq<Decision>, faults: seq<StoreFault>, n: nat)
    requires n < |evs| == |ds| && Fold(t0, evs, ds, faults, n).Aborted?
    ensures Fold(t0, evs, ds, faults, n + 1) == Fold(t0, evs, ds, faults, n)
  {
    assert Halted(Trace(t0.events, evs, ds, faults, n).1);
  }

  /** Once a store call has thrown, no later event is looked at. */
  lemma {:induction false} AbortIsFinal(t0: Tables, evs: seq<EzEvent>, ds: seq<Decision>, faults: seq<StoreFault>, k: nat, n: nat)
    requires k <= n <= |evs| == |ds| && Fold(t0, evs, ds, faults, k).Aborted?
    ensures Fold(t0, evs, ds, faults, n) == Fold(t0, evs, ds, faults, k)
    decreases n
  {
    if n > k {
      AbortIsFinal(t0, evs, ds, faults, k, n - 1);
      FoldStaysAborted(t0, evs, ds, faults, n - 1);
    }
  }

  /** Every event a pass records is an entry from this source at the end of
      the log; what was there before stays. */
  lemma {:induction false} PassExtendsLog(e0: seq<AccessEvent>, evs: seq<EzEvent>, ds: seq<Decision>,
                                          faults: seq<StoreFault>, n: nat)
    requires n <= |evs| == |ds|
    ensures var e := Trace(e0, evs, ds, faults, n).0;
      && |e0| <= |e| && e[..|e0|] == e0
      && forall k :: |e0| <= k < |e| ==> e[k].eventType == Entry && e[k].source == Ezradius
  {
    if n > 0 {
      PassExtendsLog(e0, evs, ds, faults, n - 1);
      var (p, os) := Trace(e0, evs, ds, faults, n - 1);
      var e := Trace(e0, evs, ds, faults, n).0;
      if !Halted(os) {
        StepOnlyAppends(p, ds[n - 1], evs[n - 1], FaultAt(faults, n - 1));
        PrefixOfPrefix(e0, p, e);
        forall k | |e0| <= k < |e| ensures e[k].eventType == Entry && e[k].source == Ezradius {
          if k < |p| {
            assert e[k] == e[..|p|][k];
          }
        }
      }
    }
  }

  /** Whatever the outcomes, at most one session per pair stays open, and no
      session that existed before is changed: the pass never closes one. */
  lemma {:induction false} PassKeepsSessions(s0: seq<PresenceSession>, evs: seq<EzEvent>, ds: seq<Decision>, os: seq<Outcome>)
    requires |os| <= |evs| == |ds| && SessionsValid(s0)
    ensures var s := SessionsAfter(s0, evs, ds, os);
      SessionsValid(s) && |s0| <= |s| && s[..|s0|] == s0
  {
    if os != [] {
      var k := |os| - 1;
      PassKeepsSessions(s0, evs, ds, os[..k]);
      var p := SessionsAfter(s0, evs, ds, os[..k]);
      StepKeepsInvariants(p, ds[k], evs[k], os[k]);
      PrefixOfPrefix(s0, p, StepSessions(p, ds[k], evs[k], os[k]));
    }
  }

  // ---------------------------------------------------------------------------
  // Re-running a batch

  /** A pass without failures runs to the end, and then every event of the batch is settled. */
  lemma {:induction false} FaultFreePassSettles(e0: seq<AccessEvent>, evs: seq<EzEvent>, ds: seq<Decision>, n: nat)
    requires n <= |evs| == |ds|
    ensures var (e, os) := Trace(e0, evs, ds, [], n);
      !Halted(os) && forall k :: 0 <= k < n ==> Settled(e, ds[k], evs[k])
  {
    if n > 0 {
      FaultFreePassSettles(e0, evs, ds, n - 1);
      var p := Trace(e0, evs, ds, [], n - 1).0;
      var e := Trace(e0, evs, ds, [], n).0;
      assert e == StepEvents(p, ds[n - 1], evs[n - 1], NoFault);
      StepOnlyAppends(p, ds[n - 1], evs[n - 1], NoFault);
      StepSettles(p, ds[n - 1], evs[n - 1]);
      var more := e[|p|..];
      assert e == p + more;
      forall k | 0 <= k < n - 1 ensures Settled(e, ds[k], evs[k]) {
        SettledAfterAppend(p, more, ds[k], evs[k]);
      }
    }
  }

  /** A fault-free pass over settled events skips every one and writes nothing. */
  lemma {:induction false} SettledTraceIsNoop(t0: Tables, evs: seq<EzEvent>, ds: seq<Decision>, n: nat)
    requires n <= |evs| == |ds|
    requires forall k :: 0 <= k < |evs| ==> Settled(t0.events, ds[k], evs[k])
    ensures var (e, os) := Trace(t0.events, evs, ds, [], n);
      e == t0.events && |os| == n && (forall k :: 0 <= k < n ==> os[k] == Skipped)
  {
    if n > 0 {
      SettledTraceIsNoop(t0, evs, ds, n - 1);
      SettledIsSkipped(t0.events, ds[n - 1], evs[n - 1]);
    }
  }

  /** Events that were all skipped leave the session table as it was. */
  lemma {:induction false} SkippedKeepsSessions(s0: seq<PresenceSession>, evs: seq<EzEvent>, ds: seq<Decision>, os: seq<Outcome>)
    requires |os| <= |evs| == |ds|
    requires forall k :: 0 <= k < |os| ==> os[k] == Skipped
    ensures SessionsAfter(s0, evs, ds, os) == s0
  {
    if os != [] {
      SkippedKeepsSessions(s0, evs, ds, os[..|os| - 1]);
    }
  }

  lemma SettledPassIsNoop(t0: Tables, evs: seq<EzEvent>, ds: seq<Decision>)
    requires |evs| == |ds|
    requires forall k :: 0 <= k < |evs| ==> Settled(t0.events, ds[k], evs[k])
    ensures Fold(t0, evs, ds, [], |evs|) == Running(t0, 0, None)
  {
    SettledTraceIsNoop(t0, evs, ds, |evs|);
    SkippedKeepsSessions(t0.sessions, evs, ds, Trace(t0.events, evs, ds, [], |evs|).1);
  }

  /** Fetching the same events again after a pass without failures records
      nothing, opens no session and leaves the cursor alone. */
  lemma RedeliveryIsNoop(t0: Tables, users: seq<User>, offices: seq<Office>, evs: seq<EzEvent>)
    ensures var ds := Decisions(users, offices, evs);
      var first := Fold(t0, evs, ds, [], |evs|);
      first.Running? && Fold(first.tables, evs, ds, [], |evs|) == Running(first.tables, 0, None)
  {
    var ds := Decisions(users, offices, evs);
    FaultFreePassSettles(t0.events, evs, ds, |evs|);
    SettledPassIsNoop(Fold(t0, evs, ds, [], |evs|).tables, evs, ds);
  }

  // ---------------------------------------------------------------------------
  // The methods

  /** The body of the loop for one event. */
  method ProcessEvent(db: Store, ev: EzEvent, fault: StoreFault, ghost d: Decision) returns (outcome: Outcome)
    requires db.Valid() && AtMostOneOpen(db.sessions) && d == Decide(db.users, db.offices, ev)
    modifies db`events, db`sessions
    ensures db.Valid() && AtMostOneOpen(db.sessions)
    ensures (Tables(db.events, db.sessions), outcome) == EventStep(Tables(old(db.events), old(db.sessions)), d, ev, fault)
  {
    StepKeepsInvariants(db.sessions, d, ev, StepOutcome(db.events, d, ev, fault));
    if FailsAt(fault, DedupCheck) {
      return Failed(false, fault.message);
    }
    var known := EventExists(db.events, ev.id, Ezradius);
    if known {
      return Skipped;
    }
    var email := ExtractEmail(ev.username);
    if email.None? {
      assert d == NoEmail;
      return Skipped;
    }
    if FailsAt(fault, Lookup) {
      return Failed(false, fault.message);
    }
    var user := UserByEmail(db.users, email.value);
    if user.None? {
      assert d == NoUser;
      return Skipped;
    }
    var office := EventOffice(db.offices, ev);
    if office.None? {
      assert d == NoOffice;
      return Skipped;
    }
    assert d == Target(user.value, office.value);
    if FailsAt(fault, Insert) {
      return Failed(true, fault.message);
    }
    db.InsertAccessEvent(RecordedEvent(user.value, office.value, ev));
    if FailsAt(fault, SessionUpdate) {
      return Failed(true, fault.message);
    }
    var open := LatestOpen(db.sessions, user.value.id, office.value.id);
    if open.None? {
      var _ := db.CreateSession(user.value.id, office.value.id, ev.timestamp);
    }
    outcome := Processed(ev.timestamp);
  }

  /** The `for` loop, which stops at the first store call that throws. */
  method ProcessEvents(db: Store, events: seq<EzEvent>, faults: seq<StoreFault>) returns (st: RunState)
    requires db.Valid() && AtMostOneOpen(db.sessions)
    modifies db`events, db`sessions
    ensures db.Valid() && AtMostOneOpen(db.sessions)
    ensures st == Fold(Tables(old(db.events), old(db.sessions)), events, Decisions(db.users, db.offices, events), faults, |events|)
    ensures st.tables == Tables(db.events, db.sessions)
  {
    ghost var t0 := Tables(db.events, db.sessions);
    ghost var ds := Decisions(db.users, db.offices, events);
    st := Running(Tables(db.events, db.sessions), 0, None);
    for i := 0 to |events|
      invariant db.Valid() && AtMostOneOpen(db.sessions)
      invariant st == Fold(t0, events, ds, faults, i) && st.Running? && st.tables == Tables(db.events, db.sessions)
    {
      FoldStep(t0, events, ds, faults, i);
      ghost var step := EventStep(st.tables, ds[i], events[i], FaultAt(faults, i));
      var outcome := ProcessEvent(db, events[i], FaultAt(faults, i), ds[i]);
      assert (Tables(db.events, db.sessions), outcome) == step;
      st := Advance(st, Tables(db.events, db.sessions), outcome);
      if st.Aborted? {
        AbortIsFinal(t0, events, ds, faults, i + 1, |events|);
        return;
      }
    }
  }

  /** `syncEzradius`: fetch from the stored cursor, run the loop, and record
      the outcome. A failure in the request or in a store call is recorded as
      status 'error' with the cursor kept, and is rethrown (`Err`). */
  method SyncEzradius(db: Store, fetchAuthEvents: Option<Timestamp> -> Result<seq<EzEvent>>,
                      faults: seq<StoreFault>, now: Timestamp) returns (r: Result<nat>)
    requires db.Valid() && AtMostOneOpen(db.sessions)
    modifies db`events, db`sessions, db`syncStatus
    ensures db.Valid() && AtMostOneOpen(db.sessions)
    ensures var fetched := fetchAuthEvents(LastSyncTimestamp(old(db.syncStatus), "ezradius"));
      && (fetched.Err? ==>
            && r == Err(fetched.message)
            && db.events == old(db.events) && db.sessions == old(db.sessions)
            && db.syncStatus == SyncUpdated(old(db.syncStatus), "ezradius", "error", None, Some(fetched.message), now))
      && (fetched.Ok? ==>
            var st := Fold(Tables(old(db.events), old(db.sessions)), fetched.value,
                           Decisions(db.users, db.offices, fetched.value), faults, |fetched.value|);
            && Tables(db.events, db.sessions) == st.tables
            && (st.Running? ==>
                  r == Ok(st.processed)
                  && db.syncStatus == SyncUpdated(old(db.syncStatus), "ezradius", "success", st.last, None, now))
            && (st.Aborted? ==>
                  r == Err(st.message)
                  && db.syncStatus == SyncUpdated(old(db.syncStatus), "ezradius", "error", None, Some(st.message), now)))
  {
    var lastSync := LastSyncTimestamp(db.syncStatus, "ezradius");
    var fetched := fetchAuthEvents(lastSync);
    if fetched.Err? {
      db.UpdateSyncStatus("ezradius", "error", None, Some(fetched.message), now);
      return Err(fetched.message);
    }
    var st := ProcessEvents(db, fetched.value, faults);
    match st {
      case Running(_, processed, last) =>
        db.UpdateSyncStatus("ezradius", "success", last, None, now);
        r := Ok(processed);
      case Aborted(_, msg) =>
        db.UpdateSyncStatus("ezradius", "error", None, Some(msg), now);
        r := Err(msg);
    }
  }
}
