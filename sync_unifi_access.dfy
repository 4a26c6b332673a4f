/** `syncUnifiAccessCore` of azure-functions/src/functions/syncUnifiAccess.ts.
    The two HTTP fetches (UniFi users and access events) are inputs, and so are
    the store calls that throw (`faults`, one per event). `EventStep` and `Fold`
    are the reference definition of one pass over the batch; `ProcessEvent`
    and `SyncUnifiAccessCore` are proved to do what they define. */
module SyncUnifiAccess {
  import opened Types
  import opened Text
  import opened Database
  import opened Sessions
  import opened UnifiAccess
  import opened Batch

  /** A user as `fetchUsers` returns it. */
  datatype UnifiUser = UnifiUser(id: string, name: string, email: Option<string>)

  datatype SyncResult = SyncResult(processed: nat, skipped: nat, matched: nat, errors: seq<string>)

  const NO_OFFICE_MESSAGE: string := "Minneapolis office not found in database"

  // ---------------------------------------------------------------------------
  // Office and identity resolution

  predicate IsMinneapolis(o: Office) {
    Contains(Lower(o.name), "minneapolis") || Contains(Lower(o.name), "minnesota")
  }

  /** `offices.find(...)` over the offices `getOffices` returned. */
  function MinneapolisOffice(offices: seq<Office>): (r: Option<Office>)
    ensures r.Some? ==> r.value in offices && IsMinneapolis(r.value)
    ensures r.None? <==> forall i :: 0 <= i < |offices| ==> !IsMinneapolis(offices[i])
  {
    if offices == [] then None
    else if IsMinneapolis(offices[0]) then Some(offices[0])
    else MinneapolisOffice(offices[1..])
  }

  /** The UniFi user `k` an email is kept for: one with that id and a non-empty email. */
  predicate HasEmailFor(u: UnifiUser, k: string) {
    u.id == k && Truthy(u.email)
  }

  /** The id-to-email map after the `for` loop over the UniFi users: users
      without an email are left out, and a later user with the same id wins. */
  function EmailMapOf(users: seq<UnifiUser>): (m: map<string, string>)
    ensures forall k :: k in m <==> exists i :: 0 <= i < |users| && HasEmailFor(users[i], k)
    ensures forall k :: k in m ==> m[k] != ""
  {
    if users == [] then map[]
    else
      var init := users[..|users| - 1];
      var last := users[|users| - 1];
      var m := EmailMapOf(init);
      assert forall i :: 0 <= i < |init| ==> init[i] == users[i];
      if Truthy(last.email) then m[last.id := last.email.value] else m
  }

  /** The email kept for an id is that of the last user with that id and an email. */
  lemma {:induction false} EmailMapLastWins(users: seq<UnifiUser>, i: nat)
    requires i < |users| && HasEmailFor(users[i], users[i].id)
    requires forall j :: i < j < |users| ==> !HasEmailFor(users[j], users[i].id)
    ensures users[i].id in EmailMapOf(users) && EmailMapOf(users)[users[i].id] == users[i].email.value
  {
    var init := users[..|users| - 1];
    if i < |users| - 1 {
      assert forall j :: i < j < |init| ==> init[j] == users[j];
      EmailMapLastWins(init, i);
    }
  }

  method BuildEmailMap(users: seq<UnifiUser>) returns (m: map<string, string>)
    ensures m == EmailMapOf(users)
  {
    m := map[];
    for i := 0 to |users|
      invariant m == EmailMapOf(users[..i])
    {
      assert users[..i + 1][..i] == users[..i];
      if Truthy(users[i].email) {
        m := m[users[i].id := users[i].email.value];
      }
    }
    assert users[..|users|] == users;
  }

  /** The mapped email of the event's actor, if that is truthy. */
  function MappedEmail(emailMap: map<string, string>, ev: UnifiEvent): Option<string> {
    if ev.userId in emailMap && emailMap[ev.userId] != "" then Some(emailMap[ev.userId]) else None
  }

  /** The user by the mapped email first; only when that finds nobody, by the
      event's (non-empty) display name. */
  function ResolveUser(users: seq<User>, emailMap: map<string, string>, ev: UnifiEvent): (r: Option<User>)
    ensures r.Some? ==> r.value in users
    ensures MappedEmail(emailMap, ev).Some? && UserByEmail(users, MappedEmail(emailMap, ev).value).Some? ==>
              r.Some? && r.value.email == Lower(MappedEmail(emailMap, ev).value)
    ensures r.Some? ==> (MappedEmail(emailMap, ev).Some? && r.value.email == Lower(MappedEmail(emailMap, ev).value))
                        || (ev.userName != "" && r.value.displayName == ev.userName)
    ensures r.None? <==>
              (MappedEmail(emailMap, ev).None? || forall i :: 0 <= i < |users| ==> users[i].email != Lower(MappedEmail(emailMap, ev).value))
              && (ev.userName == "" || forall i :: 0 <= i < |users| ==> users[i].displayName != ev.userName)
  {
    var email := MappedEmail(emailMap, ev);
    var byEmail := if email.Some? then UserByEmail(users, email.value) else None;
    if byEmail.None? && ev.userName != "" then UserByDisplayName(users, ev.userName) else byEmail
  }

  // ---------------------------------------------------------------------------
  // One event

  /** A user lookup runs for the event: it has a mapped email, or a display
      name to search by. */
  predicate LooksUpUser(emailMap: map<string, string>, ev: UnifiEvent) {
    MappedEmail(emailMap, ev).Some? || ev.userName != ""
  }

  /** Where the lookups of one event lead: no usable type, no user (and
      whether a lookup ran to find that out), or the user and the kind to
      record. The lookups read only the user table and the email map, which
      the pass does not write, so they are fixed per event before the pass. */
  datatype Decision = NoType | NoUser(lookedUp: bool) | Target(user: User, kind: EventType)

  function Decide(users: seq<User>, emailMap: map<string, string>, ev: UnifiEvent): (d: Decision)
    ensures d.NoType? <==> MapEventType(ev.eventType).None?
    ensures d.NoUser? ==> d.lookedUp == LooksUpUser(emailMap, ev)
    ensures d.Target? ==> LooksUpUser(emailMap, ev)
  {
    match MapEventType(ev.eventType)
    case None => NoType
    case Some(kind) =>
      match ResolveUser(users, emailMap, ev)
      case None => NoUser(LooksUpUser(emailMap, ev))
      case Some(user) => Target(user, kind)
  }

  /** A store lookup was issued for the event. */
  predicate LookedUp(d: Decision) {
    d.Target? || (d.NoUser? && d.lookedUp)
  }

  /** The decisions for a whole batch. */
  function Decisions(users: seq<User>, emailMap: map<string, string>, evs: seq<UnifiEvent>): (ds: seq<Decision>)
    ensures |ds| == |evs| && forall k :: 0 <= k < |evs| ==> ds[k] == Decide(users, emailMap, evs[k])
  {
    seq(|evs|, k requires 0 <= k < |evs| => Decide(users, emailMap, evs[k]))
  }

  function RecordedEvent(user: User, office: Office, kind: EventType, ev: UnifiEvent): AccessEvent {
    AccessEvent(user.id, office.id, kind, UnifiAccess, OrElse(ev.doorName, ev.doorId), ev.id, ev.timestamp)
  }

  function ErrorText(ev: UnifiEvent, fault: StoreFault): string
    requires fault.Throws?
  {
    "Event " + ev.id + ": " + fault.message
  }

  /** How the `try` block for one event ends, in the order of its checks and
      store calls: a throw in the duplicate check or in a user lookup that
      runs is an error before the match, one in the insert or the session
      update an error after it. */
  function StepOutcome(events: seq<AccessEvent>, d: Decision, ev: UnifiEvent, fault: StoreFault): Outcome {
    if FailsAt(fault, DedupCheck) then Failed(false, ErrorText(ev, fault))
    else if EventExists(events, ev.id, UnifiAccess) then Skipped
    else if d.NoType? then Skipped
    else if FailsAt(fault, Lookup) && LookedUp(d) then Failed(false, ErrorText(ev, fault))
    else if d.NoUser? then Skipped
    else if FailsAt(fault, Insert) || FailsAt(fault, SessionUpdate) then Failed(true, ErrorText(ev, fault))
    else Processed(ev.timestamp)
  }

  /** The event row is written: every check before `insertAccessEvent` passed
      and it did not throw. */
  predicate Inserted(events: seq<AccessEvent>, d: Decision, ev: UnifiEvent, fault: StoreFault) {
    && !FailsAt(fault, DedupCheck) && !EventExists(events, ev.id, UnifiAccess) && d.Target?
    && !FailsAt(fault, Lookup) && !FailsAt(fault, Insert)
  }

  function StepEvents(events: seq<AccessEvent>, office: Office, d: Decision, ev: UnifiEvent, fault: StoreFault)
    : seq<AccessEvent>
  {
    if Inserted(events, d, ev, fault) then events + [RecordedEvent(d.user, office, d.kind, ev)] else events
  }

  /** The session update runs only for an event that ends processed. */
  function StepSessions(sessions: seq<PresenceSession>, office: Office, d: Decision, ev: UnifiEvent, o: Outcome)
    : seq<PresenceSession>
  {
    if o.Processed? && d.Target? then Reconcile(sessions, d.user.id, office.id, d.kind, ev.timestamp) else sessions
  }

  /** The `try` block for one event, on the tables it writes. */
  function EventStep(t: Tables, office: Office, d: Decision, ev: UnifiEvent, fault: StoreFault): (Tables, Outcome) {
    var o := StepOutcome(t.events, d, ev, fault);
    (Tables(StepEvents(t.events, office, d, ev, fault), StepSessions(t.sessions, office, d, ev, o)), o)
  }

  /** A re-delivered event (its id already stored for this source) is counted
      as skipped and writes nothing. */
  lemma DuplicateIsSkipped(t: Tables, users: seq<User>, office: Office, emailMap: map<string, string>,
                           ev: UnifiEvent, fault: StoreFault)
    requires EventExists(t.events, ev.id, UnifiAccess) && !FailsAt(fault, DedupCheck)
    ensures EventStep(t, office, Decide(users, emailMap, ev), ev, fault) == (t, Skipped)
  {
  }

  /** An event of a type that is neither entry nor exit, or whose actor
      resolves to no user, is skipped before any write. */
  lemma UnusableEventIsSkipped(t: Tables, users: seq<User>, office: Office, emailMap: map<string, string>,
                               ev: UnifiEvent, fault: StoreFault)
    requires !EventExists(t.events, ev.id, UnifiAccess) && !FailsAt(fault, DedupCheck) && !FailsAt(fault, Lookup)
    requires MapEventType(ev.eventType).None? || ResolveUser(users, emailMap, ev).None?
    ensures EventStep(t, office, Decide(users, emailMap, ev), ev, fault) == (t, Skipped)
  {
  }

  /** An event whose actor has no mapped email and no display name issues no
      lookup, so it is skipped whatever the lookups would have thrown. */
  lemma NoActorIsSkipped(t: Tables, users: seq<User>, office: Office, emailMap: map<string, string>,
                         ev: UnifiEvent, fault: StoreFault)
    requires !EventExists(t.events, ev.id, UnifiAccess) && !FailsAt(fault, DedupCheck)
    requires MappedEmail(emailMap, ev).None? && ev.userName == ""
    ensures EventStep(t, office, Decide(users, emailMap, ev), ev, fault) == (t, Skipped)
  {
  }

  /** A lookup that runs and throws fails the event before it is matched,
      and nothing is written. */
  lemma LookupFailureIsReported(t: Tables, users: seq<User>, office: Office, emailMap: map<string, string>,
                                ev: UnifiEvent, msg: string)
    requires !EventExists(t.events, ev.id, UnifiAccess)
    requires MapEventType(ev.eventType).Some? && LooksUpUser(emailMap, ev)
    ensures EventStep(t, office, Decide(users, emailMap, ev), ev, Throws(Lookup, msg))
            == (t, Failed(false, "Event " + ev.id + ": " + msg))
  {
  }

  /** A processed event is recorded once, with this source, its vendor id and
      the resolved user; an exit that finds no open session is still recorded
      but changes no session. */
  lemma ProcessedEventIsRecorded(t: Tables, users: seq<User>, office: Office, emailMap: map<string, string>,
                                 ev: UnifiEvent, fault: StoreFault)
    requires EventStep(t, office, Decide(users, emailMap, ev), ev, fault).1.Processed?
    ensures var (t', _) := EventStep(t, office, Decide(users, emailMap, ev), ev, fault);
      && |t'.events| == |t.events| + 1 && t'.events[..|t.events|] == t.events
      && HasDedupKey(t'.events[|t.events|], ev.id, UnifiAccess)
      && ResolveUser(users, emailMap, ev).Some? && t'.events[|t.events|].userId == ResolveUser(users, emailMap, ev).value.id
      && t'.events[|t.events|].officeId == office.id
      && t'.events[|t.events|].timestamp == ev.timestamp
      && Some(t'.events[|t.events|].eventType) == MapEventType(ev.eventType)
      && ((t'.events[|t.events|].eventType == Exit
             && LatestOpen(t.sessions, t'.events[|t.events|].userId, office.id).None?) ==> t'.sessions == t.sessions)
  {
    var d := Decide(users, emailMap, ev);
    var (t', _) := EventStep(t, office, d, ev, fault);
    assert t'.events == t.events + [RecordedEvent(d.user, office, d.kind, ev)];
  }

  /** One event only ever appends to the event log, and at most one row. */
  lemma StepAppendsEvents(events: seq<AccessEvent>, office: Office, d: Decision, ev: UnifiEvent, fault: StoreFault)
    ensures var e := StepEvents(events, office, d, ev, fault);
      |events| <= |e| <= |events| + 1 && e[..|events|] == events
  {
  }

  /** One event never breaks the invariants of the session table. */
  lemma StepKeepsInvariants(sessions: seq<PresenceSession>, office: Office, d: Decision, ev: UnifiEvent, o: Outcome)
    requires SessionsValid(sessions)
    ensures SessionsValid(StepSessions(sessions, office, d, ev, o))
  {
    if o.Processed? && d.Target? {
      ReconcileKeepsInvariant(sessions, d.user.id, office.id, d.kind, ev.timestamp);
    }
  }

  /** An event a pass can do nothing more with: already stored, of no usable
      type, or of an actor no user matches. */
  predicate Settled(events: seq<AccessEvent>, d: Decision, ev: UnifiEvent) {
    EventExists(events, ev.id, UnifiAccess) || !d.Target?
  }

  /** After one event in which no store call threw, that event is settled. */
  lemma StepSettles(events: seq<AccessEvent>, office: Office, d: Decision, ev: UnifiEvent)
    ensures Settled(StepEvents(events, office, d, ev, NoFault), d, ev)
  {
    var e := StepEvents(events, office, d, ev, NoFault);
    if !Settled(events, d, ev) {
      assert HasDedupKey(e[|events|], ev.id, UnifiAccess);
    }
  }

  /** A settled event is skipped and writes nothing. */
  lemma SettledIsSkipped(events: seq<AccessEvent>, office: Office, d: Decision, ev: UnifiEvent)
    requires Settled(events, d, ev)
    ensures StepEvents(events, office, d, ev, NoFault) == events && StepOutcome(events, d, ev, NoFault) == Skipped
  {
  }

  lemma {:induction false} SettledAfterAppend(events: seq<AccessEvent>, more: seq<AccessEvent>, d: Decision, ev: UnifiEvent)
    requires Settled(events, d, ev)
    ensures Settled(events + more, d, ev)
  {
    if EventExists(events, ev.id, UnifiAccess) {
      EventExistsAfterAppend(events, more, ev.id, UnifiAccess);
    }
  }

  // ---------------------------------------------------------------------------
  // The pass over the batch

  datatype RunState = RunState(
    tables: Tables, processed: nat, skipped: nat, matched: nat, errors: seq<string>, last: Option<Timestamp>)

  /** The event log and the outcomes after the first `n` events of the batch.
      How an event ends depends on the event log only, never on the sessions. */
  function Trace(e0: seq<AccessEvent>, office: Office, evs: seq<UnifiEvent>, ds: seq<Decision>,
                 faults: seq<StoreFault>, n: nat): (r: (seq<AccessEvent>, seq<Outcome>))
    requires n <= |evs| == |ds|
    ensures |r.1| == n
  {
    if n == 0 then (e0, [])
    else
      var (e, os) := Trace(e0, office, evs, ds, faults, n - 1);
      var f := FaultAt(faults, n - 1);
      (StepEvents(e, office, ds[n - 1], evs[n - 1], f), os + [StepOutcome(e, ds[n - 1], evs[n - 1], f)])
  }

  /** The session table after the events whose outcomes are `os`, the
      first `|os|` of the batch. */
  function SessionsAfter(s0: seq<PresenceSession>, office: Office, evs: seq<UnifiEvent>, ds: seq<Decision>,
                         os: seq<Outcome>): seq<PresenceSession>
    requires |os| <= |evs| == |ds|
  {
    if os == [] then s0
    else
      var k := |os| - 1;
      StepSessions(SessionsAfter(s0, office, evs, ds, os[..k]), office, ds[k], evs[k], os[k])
  }

  /** The state after the first `n` events: the tables, the counts of the
      outcomes, the failure messages and the largest processed timestamp. */
  function Fold(t0: Tables, office: Office, evs: seq<UnifiEvent>, ds: seq<Decision>, faults: seq<StoreFault>, n: nat)
    : RunState
    requires n <= |evs| == |ds|
  {
    var (events, os) := Trace(t0.events, office, evs, ds, faults, n);
    RunState(Tables(events, SessionsAfter(t0.sessions, office, evs, ds, os)),
             ProcessedCount(os), SkippedCount(os), MatchedCount(os), Errors(os), MaxProcessed(os))
  }

  /** The counters and the high-water timestamp after one more event. */
  function Advance(st: RunState, t: Tables, o: Outcome): (r: RunState)
    ensures r.tables == t
  {
    match o
    case Skipped => st.(tables := t, skipped := st.skipped + 1)
    case Processed(ts) =>
      st.(tables := t, processed := st.processed + 1, matched := st.matched + 1,
          last := Some(Later(st.last, ts)))
    case Failed(m, msg) =>
      st.(tables := t, matched := st.matched + (if m then 1 else 0), errors := st.errors + [msg])
  }

  /** One more event moves the state of the pass as one iteration of the loop
      moves its counters. */
  lemma FoldStep(t0: Tables, office: Office, evs: seq<UnifiEvent>, ds: seq<Decision>, faults: seq<StoreFault>, n: nat)
    requires n < |evs| == |ds|
    ensures var st := Fold(t0, office, evs, ds, faults, n);
      var step := EventStep(st.tables, office, ds[n], evs[n], FaultAt(faults, n));
      Fold(t0, office, evs, ds, faults, n + 1) == Advance(st, step.0, step.1)
  {
    var (e, os) := Trace(t0.events, office, evs, ds, faults, n);
    var f := FaultAt(faults, n);
    var o := StepOutcome(e, ds[n], evs[n], f);
    assert Trace(t0.events, office, evs, ds, faults, n + 1) == (StepEvents(e, office, ds[n], evs[n], f), os + [o]);
    assert SessionsAfter(t0.sessions, office, evs, ds, os + [o])
        == StepSessions(SessionsAfter(t0.sessions, office, evs, ds, os), office, ds[n], evs[n], o) by {
      assert (os + [o])[..n] == os;
    }
    CountsSnoc(os, o);
  }

  /** Every event ends as exactly one of skipped, processed or errored, only
      matched events are processed, and the cursor is absent exactly when no
      event was processed. */
  lemma FoldCounts(t0: Tables, office: Office, evs: seq<UnifiEvent>, ds: seq<Decision>, faults: seq<StoreFault>, n: nat)
    requires n <= |evs| == |ds|
    ensures var st := Fold(t0, office, evs, ds, faults, n);
      && st.processed + st.skipped + |st.errors| == n && st.processed <= st.matched <= st.processed + |st.errors|
      && (st.last.None? <==> st.processed == 0)
  {
    OutcomeCounts(Trace(t0.events, office, evs, ds, faults, n).1);
  }

  /** The event log only grows at its end during a pass. */
  lemma {:induction false} PassExtendsLog(e0: seq<AccessEvent>, office: Office, evs: seq<UnifiEvent>, ds: seq<Decision>,
                                          faults: seq<StoreFault>, n: nat)
    requires n <= |evs| == |ds|
    ensures var e := Trace(e0, office, evs, ds, faults, n).0;
      |e0| <= |e| && e[..|e0|] == e0
  {
    if n > 0 {
      PassExtendsLog(e0, office, evs, ds, faults, n - 1);
      var p := Trace(e0, office, evs, ds, faults, n - 1).0;
      StepAppendsEvents(p, office, ds[n - 1], evs[n - 1], FaultAt(faults, n - 1));
      PrefixOfPrefix(e0, p, Trace(e0, office, evs, ds, faults, n).0);
    }
  }

  /** Whatever the outcomes, at most one session per pair is open and
      session ids are positions at every point of a pass. */
  lemma {:induction false} PassKeepsSessionsValid(s0: seq<PresenceSession>, office: Office, evs: seq<UnifiEvent>,
                                                  ds: seq<Decision>, os: seq<Outcome>)
    requires |os| <= |evs| == |ds| && SessionsValid(s0)
    ensures SessionsValid(SessionsAfter(s0, office, evs, ds, os))
  {
    if os != [] {
      var k := |os| - 1;
      PassKeepsSessionsValid(s0, office, evs, ds, os[..k]);
      StepKeepsInvariants(SessionsAfter(s0, office, evs, ds, os[..k]), office, ds[k], evs[k], os[k]);
    }
  }

  // ---------------------------------------------------------------------------
  // Re-running a batch

  /** After a pass in which no store call threw, every event of the batch is settled. */
  lemma {:induction false} FaultFreePassSettles(e0: seq<AccessEvent>, office: Office, evs: seq<UnifiEvent>,
                                                ds: seq<Decision>, n: nat)
    requires n <= |evs| == |ds|
    ensures var e := Trace(e0, office, evs, ds, [], n).0;
      forall k :: 0 <= k < n ==> Settled(e, ds[k], evs[k])
  {
    if n > 0 {
      FaultFreePassSettles(e0, office, evs, ds, n - 1);
      var p := Trace(e0, office, evs, ds, [], n - 1).0;
      var e := Trace(e0, office, evs, ds, [], n).0;
      assert e == StepEvents(p, office, ds[n - 1], evs[n - 1], NoFault);
      StepAppendsEvents(p, office, ds[n - 1], evs[n - 1], NoFault);
      StepSettles(p, office, ds[n - 1], evs[n - 1]);
      var more := e[|p|..];
      assert e == p + more;
      forall k | 0 <= k < n - 1 ensures Settled(e, ds[k], evs[k]) {
        SettledAfterAppend(p, more, ds[k], evs[k]);
      }
    }
  }

  /** A fault-free pass over settled events writes nothing and skips every event. */
  lemma {:induction false} SettledTraceIsNoop(t0: Tables, office: Office, evs: seq<UnifiEvent>, ds: seq<Decision>, n: nat)
    requires n <= |evs| == |ds|
    requires forall k :: 0 <= k < |evs| ==> Settled(t0.events, ds[k], evs[k])
    ensures var (e, os) := Trace(t0.events, office, evs, ds, [], n);
      e == t0.events && (forall k :: 0 <= k < n ==> os[k] == Skipped)
  {
    if n > 0 {
      SettledTraceIsNoop(t0, office, evs, ds, n - 1);
      SettledIsSkipped(t0.events, office, ds[n - 1], evs[n - 1]);
    }
  }

  /** Events that were all skipped leave the session table as it was. */
  lemma {:induction false} SkippedKeepsSessions(s0: seq<PresenceSession>, office: Office, evs: seq<UnifiEvent>,
                                                ds: seq<Decision>, os: seq<Outcome>)
    requires |os| <= |evs| == |ds|
    requires forall k :: 0 <= k < |os| ==> os[k] == Skipped
    ensures SessionsAfter(s0, office, evs, ds, os) == s0
  {
    if os != [] {
      SkippedKeepsSessions(s0, office, evs, ds, os[..|os| - 1]);
    }
  }

  /** A pass over settled events writes nothing, processes nothing, reports
      no error and moves no cursor. */
  lemma SettledPassIsNoop(t0: Tables, office: Office, evs: seq<UnifiEvent>, ds: seq<Decision>)
    requires |evs| == |ds|
    requires forall k :: 0 <= k < |evs| ==> Settled(t0.events, ds[k], evs[k])
    ensures var st := Fold(t0, office, evs, ds, [], |evs|);
      st.tables == t0 && st.processed == 0 && st.last.None? && st.errors == []
  {
    SettledTraceIsNoop(t0, office, evs, ds, |evs|);
    SkippedKeepsSessions(t0.sessions, office, evs, ds, Trace(t0.events, office, evs, ds, [], |evs|).1);
  }

  /** Delivering the same batch again after a pass without failures is a no-op:
      no event is inserted, no session is created or closed, and the cursor
      stays where the first pass left it. */
  lemma RedeliveryIsNoop(t0: Tables, users: seq<User>, office: Office, emailMap: map<string, string>, evs: seq<UnifiEvent>)
    ensures var ds := Decisions(users, emailMap, evs);
      var first := Fold(t0, office, evs, ds, [], |evs|);
      var second := Fold(first.tables, office, evs, ds, [], |evs|);
      second.tables == first.tables && second.processed == 0 && second.last.None?
  {
    var ds := Decisions(users, emailMap, evs);
    FaultFreePassSettles(t0.events, office, evs, ds, |evs|);
    SettledPassIsNoop(Fold(t0, office, evs, ds, [], |evs|).tables, office, evs, ds);
  }

  // ---------------------------------------------------------------------------
  // The methods

  /** The `try` block for one event, issuing the store calls in the source's order. */
  method ProcessEvent(db: Store, office: Office, emailMap: map<string, string>, ev: UnifiEvent, fault: StoreFault)
    returns (outcome: Outcome)
    requires db.Valid() && AtMostOneOpen(db.sessions)
    modifies db`events, db`sessions
    ensures db.Valid() && AtMostOneOpen(db.sessions)
    ensures (Tables(db.events, db.sessions), outcome)
            == EventStep(Tables(old(db.events), old(db.sessions)), office, Decide(db.users, emailMap, ev), ev, fault)
  {
    ghost var d := Decide(db.users, emailMap, ev);
    StepKeepsInvariants(db.sessions, office, d, ev, StepOutcome(db.events, d, ev, fault));
    if FailsAt(fault, DedupCheck) {
      return Failed(false, ErrorText(ev, fault));
    }
    var known := EventExists(db.events, ev.id, UnifiAccess);
    if known {
      return Skipped;
    }
    var eventType := MapEventType(ev.eventType);
    if eventType.None? {
      return Skipped;
    }
    if FailsAt(fault, Lookup) && (MappedEmail(emailMap, ev).Some? || ev.userName != "") {
      return Failed(false, ErrorText(ev, fault));
    }
    var user := ResolveUser(db.users, emailMap, ev);
    if user.None? {
      return Skipped;
    }
    assert d == Target(user.value, eventType.value);
    if FailsAt(fault, Insert) {
      return Failed(true, ErrorText(ev, fault));
    }
    db.InsertAccessEvent(RecordedEvent(user.value, office, eventType.value, ev));
    if FailsAt(fault, SessionUpdate) {
      return Failed(true, ErrorText(ev, fault));
    }
    var open := LatestOpen(db.sessions, user.value.id, office.id);
    if eventType.value == Entry {
      if open.None? {
        var _ := db.CreateSession(user.value.id, office.id, ev.timestamp);
      }
    } else {
      if open.Some? {
        db.CloseSession(open.value.id, ev.timestamp);
      }
    }
    outcome := Processed(ev.timestamp);
  }

  /** The `for` loop over the fetched events, with its counters and the
      high-water timestamp. */
  method ProcessEvents(db: Store, office: Office, emailMap: map<string, string>,
                       events: seq<UnifiEvent>, faults: seq<StoreFault>) returns (st: RunState)
    requires db.Valid() && AtMostOneOpen(db.sessions)
    modifies db`events, db`sessions
    ensures db.Valid() && AtMostOneOpen(db.sessions)
    ensures st == Fold(Tables(old(db.events), old(db.sessions)), office, events, Decisions(db.users, emailMap, events),
                       faults, |events|)
    ensures st.tables == Tables(db.events, db.sessions)
  {
    ghost var t0 := Tables(db.events, db.sessions);
    ghost var ds := Decisions(db.users, emailMap, events);
    st := RunState(Tables(db.events, db.sessions), 0, 0, 0, [], None);
    for i := 0 to |events|
      invariant db.Valid() && AtMostOneOpen(db.sessions)
      invariant st == Fold(t0, office, events, ds, faults, i) && st.tables == Tables(db.events, db.sessions)
    {
      FoldStep(t0, office, events, ds, faults, i);
      var outcome := ProcessEvent(db, office, emailMap, events[i], FaultAt(faults, i));
      st := Advance(st, Tables(db.events, db.sessions), outcome);
    }
  }

  /** `syncUnifiAccessCore`, given what `fetchUsers` and `fetchAccessEvents`
      returned, which store calls throw, and the time of the run. */
  method SyncUnifiAccessCore(db: Store, unifiUsers: Result<seq<UnifiUser>>, fetched: Result<seq<UnifiEvent>>,
                             faults: seq<StoreFault>, now: Timestamp) returns (r: SyncResult)
    requires db.Valid() && AtMostOneOpen(db.sessions)
    modifies db`events, db`sessions, db`syncStatus
    ensures db.Valid() && AtMostOneOpen(db.sessions)
    // no office: nothing is fetched, written or recorded
    ensures MinneapolisOffice(ActiveOffices(old(db.offices))).None? ==>
              r == SyncResult(0, 0, 0, [NO_OFFICE_MESSAGE])
              && db.events == old(db.events) && db.sessions == old(db.sessions) && db.syncStatus == old(db.syncStatus)
    // a failed fetch: status 'error', the cursor kept, nothing else written
    ensures MinneapolisOffice(ActiveOffices(old(db.offices))).Some? && (unifiUsers.Err? || fetched.Err?) ==>
              var msg := if unifiUsers.Err? then unifiUsers.message else fetched.message;
              r == SyncResult(0, 0, 0, [msg])
              && db.events == old(db.events) && db.sessions == old(db.sessions)
              && db.syncStatus == SyncUpdated(old(db.syncStatus), "unifi_access", "error", None, Some(msg), now)
    // a completed pass: the tables and counters of `Fold`, and status 'success'
    // with the high-water timestamp when one event or more was processed
    ensures MinneapolisOffice(ActiveOffices(old(db.offices))).Some? && unifiUsers.Ok? && fetched.Ok? ==>
              var st := Fold(Tables(old(db.events), old(db.sessions)), MinneapolisOffice(ActiveOffices(old(db.offices))).value,
                             fetched.value, Decisions(old(db.users), EmailMapOf(unifiUsers.value), fetched.value),
                             faults, |fetched.value|);
              db.events == st.tables.events && db.sessions == st.tables.sessions
              && r == SyncResult(st.processed, st.skipped, st.matched, st.errors)
              && db.syncStatus == SyncUpdated(old(db.syncStatus), "unifi_access", "success", st.last, None, now)
  {
    var office := MinneapolisOffice(ActiveOffices(db.offices));
    if office.None? {
      return SyncResult(0, 0, 0, [NO_OFFICE_MESSAGE]);
    }
    if unifiUsers.Err? {
      db.UpdateSyncStatus("unifi_access", "error", None, Some(unifiUsers.message), now);
      return SyncResult(0, 0, 0, [unifiUsers.message]);
    }
    var emailMap := BuildEmailMap(unifiUsers.value);
    if fetched.Err? {
      db.UpdateSyncStatus("unifi_access", "error", None, Some(fetched.message), now);
      return SyncResult(0, 0, 0, [fetched.message]);
    }
    var st := ProcessEvents(db, office.value, emailMap, fetched.value, faults);
    db.UpdateSyncStatus("unifi_access", "success", st.last, None, now);
    r := SyncResult(st.processed, st.skipped, st.matched, st.errors);
  }
}
