/** The session state machine that both sync loops run after recording an
    event (azure-functions/src/functions/syncUnifiAccess.ts, lines 95-105, and
    azure-functions/src/functions/syncEzradius.ts, lines 52-55). Per (user,
    office) there are two states, "no open session" and "open"; an entry opens
    a session only from the first, an exit closes the latest open one only
    from the second. */
module Sessions {
  import opened Types
  import opened Database

  /** An entry: `createSession` only when `getOpenSession` finds nothing. */
  function OpenIfNone(sessions: seq<PresenceSession>, userId: UserId, officeId: OfficeId, t: Timestamp)
    : seq<PresenceSession>
  {
    if LatestOpen(sessions, userId, officeId).None? then WithSession(sessions, userId, officeId, t) else sessions
  }

  /** An entry changes nothing while the pair has an open session; otherwise
      it appends exactly one open session of the pair, entered at `t`, with
      the next id. */
  lemma OpenIfNoneMeaning(sessions: seq<PresenceSession>, userId: UserId, officeId: OfficeId, t: Timestamp)
    ensures (exists i :: 0 <= i < |sessions| && OpenFor(sessions[i], userId, officeId)) ==>
              OpenIfNone(sessions, userId, officeId, t) == sessions
    ensures (forall i :: 0 <= i < |sessions| ==> !OpenFor(sessions[i], userId, officeId)) ==>
              OpenIfNone(sessions, userId, officeId, t)
                == sessions + [PresenceSession(|sessions|, userId, officeId, t, None, None)]
  {
  }

  /** An exit: `closeSession` on the open session `getOpenSession` finds, if any. */
  function CloseLatest(sessions: seq<PresenceSession>, userId: UserId, officeId: OfficeId, t: Timestamp)
    : seq<PresenceSession>
  {
    match LatestOpen(sessions, userId, officeId)
    case None => sessions
    case Some(s) => Closed(sessions, s.id, t)
  }

  /** An exit changes nothing when the pair has no open session. Otherwise
      there is an open session `k` of the pair entered no earlier than any
      other open one of the pair, and exactly the rows with its id get the
      exit time `t` and the rounded duration; every other row is kept. */
  lemma CloseLatestMeaning(sessions: seq<PresenceSession>, userId: UserId, officeId: OfficeId, t: Timestamp)
    ensures (forall i :: 0 <= i < |sessions| ==> !OpenFor(sessions[i], userId, officeId)) ==>
              CloseLatest(sessions, userId, officeId, t) == sessions
    ensures (exists i :: 0 <= i < |sessions| && OpenFor(sessions[i], userId, officeId)) ==>
              var r := CloseLatest(sessions, userId, officeId, t);
              |r| == |sessions|
              && (exists k :: 0 <= k < |sessions| && OpenFor(sessions[k], userId, officeId)
                    && (forall j :: 0 <= j < |sessions| && OpenFor(sessions[j], userId, officeId) ==>
                          sessions[j].entryTime <= sessions[k].entryTime)
                    && (forall i :: 0 <= i < |sessions| ==>
                          r[i] == if sessions[i].id == sessions[k].id then CloseRow(sessions[i], t) else sessions[i]))
  {
    if LatestOpen(sessions, userId, officeId).Some? {
      var s := LatestOpen(sessions, userId, officeId).value;
      var k :| 0 <= k < |sessions| && sessions[k] == s;
      var r := CloseLatest(sessions, userId, officeId, t);
      assert forall i :: 0 <= i < |sessions| ==>
               r[i] == if sessions[i].id == sessions[k].id then CloseRow(sessions[i], t) else sessions[i];
    }
  }

  function Reconcile(sessions: seq<PresenceSession>, userId: UserId, officeId: OfficeId, kind: EventType, t: Timestamp)
    : seq<PresenceSession>
  {
    match kind
    case Entry => OpenIfNone(sessions, userId, officeId, t)
    case Exit => CloseLatest(sessions, userId, officeId, t)
  }

  ghost predicate SessionsValid(sessions: seq<PresenceSession>) {
    AtMostOneOpen(sessions) && SessionIdsArePositions(sessions)
  }

  /** Reconciling one event keeps at most one open session per pair, and the
      pair ends open after an entry and with none open after an exit. */
  lemma {:induction false} ReconcileKeepsInvariant(sessions: seq<PresenceSession>, userId: UserId, officeId: OfficeId,
                                                   kind: EventType, t: Timestamp)
    requires SessionsValid(sessions)
    ensures SessionsValid(Reconcile(sessions, userId, officeId, kind, t))
    ensures kind == Entry ==> LatestOpen(Reconcile(sessions, userId, officeId, kind, t), userId, officeId).Some?
    ensures kind == Exit ==> LatestOpen(Reconcile(sessions, userId, officeId, kind, t), userId, officeId).None?
  {
    var r := Reconcile(sessions, userId, officeId, kind, t);
    match kind
    case Entry =>
      if LatestOpen(sessions, userId, officeId).None? {
        CreateKeepsAtMostOneOpen(sessions, userId, officeId, t);
        CreateKeepsIdsPositions(sessions, userId, officeId, t);
      }
    case Exit =>
      if LatestOpen(sessions, userId, officeId).Some? {
        var s := LatestOpen(sessions, userId, officeId).value;
        CloseKeepsAtMostOneOpen(sessions, s.id, t);
        CloseLatestLeavesNoneOpen(sessions, userId, officeId, t);
        assert forall i :: 0 <= i < |r| ==> r[i].id == sessions[i].id;
      }
  }

  /** Reconciling leaves every session of another pair as it was, and only
      ever adds a session at the end. */
  lemma ReconcileTouchesOnlyItsPair(sessions: seq<PresenceSession>, userId: UserId, officeId: OfficeId,
                                    kind: EventType, t: Timestamp)
    requires SessionIdsArePositions(sessions)
    ensures var r := Reconcile(sessions, userId, officeId, kind, t);
      && |sessions| <= |r| <= |sessions| + 1
      && (forall i :: 0 <= i < |sessions| && (sessions[i].userId != userId || sessions[i].officeId != officeId)
            ==> r[i] == sessions[i])
      && (|r| == |sessions| + 1 ==> kind == Entry && r[|sessions|].userId == userId && r[|sessions|].officeId == officeId)
  {
    if kind == Exit && LatestOpen(sessions, userId, officeId).Some? {
      var s := LatestOpen(sessions, userId, officeId).value;
      var k :| 0 <= k < |sessions| && sessions[k] == s;
    }
  }

  /** A repeated entry without an exit in between opens no second session:
      the first entry's time stays. */
  lemma RepeatedEntryKeepsFirst(userId: UserId, officeId: OfficeId)
    ensures var first := Reconcile([], userId, officeId, Entry, 9 * MS_PER_HOUR);
      Reconcile(first, userId, officeId, Entry, 9 * MS_PER_HOUR + 5 * MS_PER_MINUTE)
        == [PresenceSession(0, userId, officeId, 9 * MS_PER_HOUR, None, None)]
  {
    var first := Reconcile([], userId, officeId, Entry, 9 * MS_PER_HOUR);
    assert OpenFor(first[0], userId, officeId);
  }

  /** An entry at 09:00 and an exit at 17:30 make one closed session of 510 minutes. */
  lemma EntryThenExit(userId: UserId, officeId: OfficeId)
    ensures var first := Reconcile([], userId, officeId, Entry, 9 * MS_PER_HOUR);
      Reconcile(first, userId, officeId, Exit, 17 * MS_PER_HOUR + 30 * MS_PER_MINUTE)
        == [PresenceSession(0, userId, officeId, 9 * MS_PER_HOUR, Some(17 * MS_PER_HOUR + 30 * MS_PER_MINUTE), Some(510))]
  {
    var first := Reconcile([], userId, officeId, Entry, 9 * MS_PER_HOUR);
    assert OpenFor(first[0], userId, officeId);
    assert LatestOpen(first, userId, officeId) == Some(first[0]);
  }

  /** An exit with no open session changes no session. */
  lemma OrphanExitChangesNothing(sessions: seq<PresenceSession>, userId: UserId, officeId: OfficeId, t: Timestamp)
    requires forall i :: 0 <= i < |sessions| ==> !OpenFor(sessions[i], userId, officeId)
    ensures Reconcile(sessions, userId, officeId, Exit, t) == sessions
  {
  }
}
