# Executive office presence dashboard: event-to-session reconciliation

This project models the core of an office-presence dashboard. Two timer jobs
pull badge events and Wi-Fi authentications from two vendors: UniFi Access
door controllers and the EZRADIUS RADIUS service. Each job does four things
with what it pulls:

- it drops events it has already stored (by vendor id and source);
- it resolves each remaining event to a dashboard user and an office;
- it appends the event to `access_events`;
- it reconciles `presence_sessions`: an entry opens a session when none is
  open for that user and office, and an exit closes the latest open one.

Each job then advances its `sync_status` cursor. A nightly job rolls
yesterday's sessions up into `daily_attendance` and `hourly_occupancy`. In
the browser, the signed-in user's dashboard role comes from their Microsoft
Entra ID security groups, and page permissions follow the
viewer < manager < executive hierarchy.

The model's modules:

- `Types` holds the shared records: users, offices, access events, presence
  sessions, daily rows and sync rows. Timestamps are UTC milliseconds since
  the epoch.
- `Text` holds the string built-ins the core relies on: ASCII lower-casing,
  substring search and trimming.
- `Database` models the data-access layer.
  - Each query is a function on the table (a `seq` or `map`) it reads or
    writes.
  - The class `Store` holds the tables as fields. Its methods change exactly
    the field their SQL statement writes, and each is proved equal to the
    corresponding function.
  - Generated UUIDs are modelled as table positions.
- `Sessions` is the open/close state machine both sync loops run. It is
  proved to keep at most one open session per (user, office).
- `Batch` covers what the two sync passes share: the outcome of one event,
  the counters, and the high-water timestamp.
- `UnifiAccess` and `Ezradius` model the vendor clients:
  - the event-type table;
  - the log-entry mapping;
  - controller configuration and the all-controllers merge;
  - e-mail extraction from a RADIUS user name.
- `SyncUnifiAccess` and `SyncEzradius` describe each job in two forms:
  - `EventStep`/`Fold` is a reference definition of one event and of a whole
    pass;
  - `ProcessEvent`, `ProcessEvents` and the job method read and write the
    `Store` step by step, and are proved to do what `Fold` defines.

  Properties are proved about `Fold`:
  - a pass only appends to the event log;
  - a pass keeps the session invariant;
  - after a fault-free pass every event is settled, so re-delivering the same
    batch changes nothing and processes nothing;
  - the counters add up.
- `AggregateDaily` models the nightly roll-up.
  - The figures are defined as functions of the day's sessions, and lemmas
    state what they mean: distinct visitors, the rounded mean duration, the
    peak by entry hour, and the hourly presence test.
  - The job method runs the office loop and the 24-hour loop on the `Store`,
    and is proved equal to the reference `Run`.
  - `Run` is proved idempotent when re-run.
- `AuthContext` covers role selection from the security groups, `hasRole`,
  and the two permission flags.

Calls to the outside world are parameters:

- the HTTP responses of UniFi Access and EZRADIUS;
- the Microsoft Graph profile and group list;
- the clock;
- the environment variables;
- `StoreFault` and `AggFault`, which record, per event or per office, which
  store call throws and with which message.

## Model

| member | source | states |
|---|---|---|
| Types.HourOf | azure-functions/src/functions/aggregateDaily.ts:35 | the UTC hour of a timestamp is always one of 0 to 23 |
| Types.Day | azure-functions/src/functions/aggregateDaily.ts:28 | the UTC date of a timestamp: the timestamp falls within that day's 86,400,000 milliseconds |
| Text.Lower | azure-functions/src/services/database.ts:31 | lower-casing keeps the length, leaves no upper-case letter, and maps each character independently |
| Text.LowerIdempotent | azure-functions/src/services/database.ts:51 | lower-casing an already lower-cased e-mail changes nothing, so storing and looking up agree |
| Text.LowerOfNoUpper | azure-functions/src/services/ezradius.ts:60 | a string without upper-case letters is its own lower-case form |
| Text.LowerKeepsChar | azure-functions/src/services/ezradius.ts:59-60 | lower-casing neither adds nor removes an '@' or any other non-letter |
| Text.TrimStart | azure-functions/src/services/unifiAccess.ts:102 | the result is a suffix, starts with a non-space, and only white space was dropped |
| Text.TrimEnd | azure-functions/src/services/unifiAccess.ts:102 | the result is a prefix, ends with a non-space, and only white space was dropped |
| Text.Trim | azure-functions/src/services/unifiAccess.ts:102 | the result is a contiguous slice with only white space removed at both ends, and does not start or end with white space |
| Database.EventExists | azure-functions/src/services/database.ts:66-72 | true exactly when some stored event has that vendor id and that source |
| Database.EventExistsAfterAppend | azure-functions/src/services/database.ts:56-72 | once an event is stored it stays a duplicate whatever is appended later |
| Database.LatestOpen | azure-functions/src/services/database.ts:74-82 | returns an open session of that user and office with the latest entry time, and nothing exactly when none is open |
| Database.WithSession | azure-functions/src/services/database.ts:84-92 | appends exactly one open session with the next id and the given entry time; earlier rows are kept |
| Database.DurationMinutes | azure-functions/src/services/database.ts:98 | the stored minutes are the elapsed milliseconds divided by 60000, rounded to the nearest integer, with halves rounded away from zero |
| Database.Closed | azure-functions/src/services/database.ts:94-105 | rows with another id are untouched; the row with that id gets the exit time and the rounded duration, and keeps its user, office and entry |
| Database.CloseRow | azure-functions/src/services/database.ts:96-98 | the row `closeSession` writes; `Database.Closed` proves it gets the exit time and the rounded duration and keeps its id, user, office and entry time |
| Database.WorkdayDuration | azure-functions/src/services/database.ts:98 | 09:00 to 17:30 is stored as 510 minutes |
| Database.CreateKeepsAtMostOneOpen | azure-functions/src/services/database.ts:84-92 | creating a session when none is open keeps at most one open session per pair, and the new one is the latest open |
| Database.CloseKeepsAtMostOneOpen | azure-functions/src/services/database.ts:94-105 | closing any session keeps at most one open session per pair |
| Database.CloseLatestLeavesNoneOpen | azure-functions/src/services/database.ts:74-105 | closing the session that the open-session query returns leaves that pair with none open |
| Database.CreateKeepsIdsPositions | azure-functions/src/services/database.ts:84-92 | session ids stay unique (equal to their positions) after a create |
| Database.FindUser | azure-functions/src/services/database.ts:30-38 | the position of the first user with the key, and nothing exactly when no user has it |
| Database.UserByEmail | azure-functions/src/services/database.ts:30-33 | a user whose stored e-mail equals the lower-cased argument, and nothing exactly when none does |
| Database.UserByDisplayName | azure-functions/src/functions/syncUnifiAccess.ts:72-74 | a user with exactly that display name, and nothing exactly when none has it |
| Database.UserByEmailIgnoresCase | azure-functions/src/services/database.ts:31 | two e-mails equal up to case find the same user |
| Database.UpsertedUsers | azure-functions/src/services/database.ts:40-54 | the `ON CONFLICT (entra_id)` upsert; what it does is the contract of `Database.UpsertedUsersMeaning` |
| Database.UpsertedUsersMeaning | azure-functions/src/services/database.ts:40-54 | an unknown entra id appends one user with the next id and the lower-cased e-mail; a known one has its first row overwritten with the new fields, keeping its id, and every other row is kept |
| Database.UpsertThenFindByEmail | azure-functions/src/services/database.ts:30-54 | after an upsert, the user is found by entra id with the lower-cased e-mail, and the e-mail lookup then finds a user |
| Database.UpsertKeepsIdsPositions | azure-functions/src/services/database.ts:40-54 | user ids stay unique across upserts |
| Database.OfficeByEzradiusLocation | azure-functions/src/services/database.ts:22-28 | an active office with that location id, and nothing exactly when no active office has it |
| Database.ActiveOffices | azure-functions/src/services/database.ts:9-12 | exactly the active offices |
| Database.SyncUpdated | azure-functions/src/services/database.ts:131-143 | the source's row gets the status, message and sync time; the cursor becomes the new timestamp if one is given and is kept otherwise; other sources' rows are unchanged |
| Database.LastSyncTimestamp | azure-functions/src/services/database.ts:145-151 | the stored cursor; `Database.CursorRoundTrip` and `Database.FailureKeepsCursor` state how it follows the status updates |
| Database.CursorRoundTrip | azure-functions/src/services/database.ts:131-151 | a cursor stored for a source is the one read back for it, other sources' cursors do not move, and an empty table has no cursor |
| Database.FailureKeepsCursor | azure-functions/src/services/database.ts:138 | recording an error without a timestamp leaves the next run's cursor where it was |
| Database.DailyUpserted | azure-functions/src/services/database.ts:117-129 | the `ON CONFLICT (office_id, date)` upsert; `Database.DailyUpsertedMeaning` and `Database.DailyUpsertIdempotent` state what it does |
| Database.DailyUpsertedMeaning | azure-functions/src/services/database.ts:117-129 | the daily upsert adds or replaces exactly the row of its (office, date) key and keeps every other row |
| Database.DailyUpsertIdempotent | azure-functions/src/services/database.ts:117-129 | upserting the same row twice is the same as once |
| Database.Store.constructor | azure-functions/src/services/database.ts:1-7 | a store with the given offices, empty tables, and the id invariants in force |
| Database.Store.InsertAccessEvent | azure-functions/src/services/database.ts:56-64 | appends exactly the given event and writes no other table |
| Database.Store.CreateSession | azure-functions/src/services/database.ts:84-92 | the sessions become those of `WithSession`; the returned row is the new open one; the invariants are kept |
| Database.Store.CloseSession | azure-functions/src/services/database.ts:94-105 | the sessions become those of `Closed`; no other table changes |
| Database.Store.UpsertUser | azure-functions/src/services/database.ts:40-54 | the users become those of `UpsertedUsers`, and the returned user has the entra id and the lower-cased e-mail |
| Database.Store.UpsertDailyAttendance | azure-functions/src/services/database.ts:117-129 | the daily table becomes that of `DailyUpserted` |
| Database.Store.UpsertHourlyOccupancy | azure-functions/src/functions/aggregateDaily.ts:79-85 | the hourly table gets exactly the (office, date, hour) row set to the occupancy |
| Database.Store.UpdateSyncStatus | azure-functions/src/services/database.ts:131-143 | the sync table becomes that of `SyncUpdated` |
| Sessions.OpenIfNone | azure-functions/src/functions/syncUnifiAccess.ts:95-99 | an entry; what it does is the contract of `Sessions.OpenIfNoneMeaning` |
| Sessions.OpenIfNoneMeaning | azure-functions/src/functions/syncUnifiAccess.ts:95-99 | while the pair has an open session an entry changes nothing; otherwise it appends exactly one open session of the pair, entered at the event time, with the next id |
| Sessions.CloseLatest | azure-functions/src/functions/syncUnifiAccess.ts:100-105 | an exit; what it does is the contract of `Sessions.CloseLatestMeaning` |
| Sessions.CloseLatestMeaning | azure-functions/src/functions/syncUnifiAccess.ts:100-105 | with no open session of the pair an exit changes nothing; otherwise an open session of the pair entered no earlier than any other is closed at the exit time with the rounded duration, and every row with another id is kept |
| Sessions.Reconcile | azure-functions/src/functions/syncUnifiAccess.ts:95-105 | the entry/exit switch; `Sessions.ReconcileKeepsInvariant` and `Sessions.ReconcileTouchesOnlyItsPair` state that it keeps at most one open session per pair and changes no other pair |
| Sessions.ReconcileKeepsInvariant | azure-functions/src/functions/syncUnifiAccess.ts:95-105 | at most one open session per pair stays true; the pair ends open after an entry and with none open after an exit |
| Sessions.ReconcileTouchesOnlyItsPair | azure-functions/src/functions/syncUnifiAccess.ts:95-105 | sessions of other pairs are unchanged, and at most one session is added, only by an entry, and for this pair |
| Sessions.RepeatedEntryKeepsFirst | azure-functions/src/functions/syncEzradius.ts:52-55 | a second entry five minutes later opens no second session, and the first entry time stays |
| Sessions.EntryThenExit | azure-functions/src/functions/syncUnifiAccess.ts:95-105 | entry at 09:00 then exit at 17:30 gives one closed session of 510 minutes |
| Sessions.OrphanExitChangesNothing | azure-functions/src/functions/syncUnifiAccess.ts:100-105 | an exit with no open session changes no session |
| Batch.MaxProcessed | azure-functions/src/functions/syncUnifiAccess.ts:107-110 | the high-water mark is nothing exactly when nothing was processed; otherwise it is one processed timestamp and no processed timestamp exceeds it |
| Batch.Later | azure-functions/src/functions/syncUnifiAccess.ts:108-110 | the high-water update; `Batch.MaxProcessed` proves the resulting mark is a processed timestamp that no processed timestamp exceeds |
| Batch.ProcessedCount | azure-functions/src/functions/syncUnifiAccess.ts:107 | at most the batch size, and 0 exactly when nothing was processed |
| Batch.SkippedCount | azure-functions/src/functions/syncUnifiAccess.ts:55-79 | at most the batch size; `Batch.OutcomeCounts` proves processed plus skipped plus errors is the batch size |
| Batch.MatchedCount | azure-functions/src/functions/syncUnifiAccess.ts:81 | at most the batch size; `Batch.OutcomeCounts` proves it lies between processed and processed plus errors |
| Batch.Errors | azure-functions/src/functions/syncUnifiAccess.ts:111-114 | one message per failed event, in order; empty exactly when no event failed |
| Batch.CountsSnoc | azure-functions/src/functions/syncUnifiAccess.ts:53-114 | one more event bumps exactly the counter of its outcome, and moves the high-water mark only when it was processed |
| Batch.OutcomeCounts | azure-functions/src/functions/syncUnifiAccess.ts:20-23 | processed plus skipped plus errors equals the batch size, and the matched count lies between processed and processed plus errors |
| UnifiAccess.MapEventType | azure-functions/src/services/unifiAccess.ts:162-169 | entry exactly for the three entry types, exit exactly for the two exit types, and unusable otherwise |
| UnifiAccess.EntryAndExitTypesDisjoint | azure-functions/src/services/unifiAccess.ts:163-164 | no vendor type is both an entry and an exit |
| UnifiAccess.GetControllers | azure-functions/src/services/unifiAccess.ts:11-33 | one controller per fully configured URL and token pair, primary first, and each with its own URL and token |
| UnifiAccess.DisplayName | azure-functions/src/services/unifiAccess.ts:102 | the full name when it is non-empty; otherwise the trimmed "first last", with missing parts read as empty |
| UnifiAccess.NoNamePartsGiveEmptyName | azure-functions/src/services/unifiAccess.ts:102 | an entry without any name part gets the empty display name, which the sync treats as absent |
| UnifiAccess.ToEvent | azure-functions/src/services/unifiAccess.ts:97-107 | the vendor id becomes the event id, event seconds become milliseconds, and the actor and the display name are carried over |
| UnifiAccess.PrefixedId | azure-functions/src/services/unifiAccess.ts:207 | the controller-prefixed id; `UnifiAccess.PrefixedIdsDistinct` and `UnifiAccess.PrefixedIdInjective` prove it never merges two events |
| UnifiAccess.ToControllerEvent | azure-functions/src/services/unifiAccess.ts:206-217 | the same event as the legacy mapping, except that the id carries the controller prefix and the controller is recorded |
| UnifiAccess.PrefixedIdsDistinct | azure-functions/src/services/unifiAccess.ts:207 | ids from two controllers whose names have no '_' can never collide |
| UnifiAccess.PrefixedIdInjective | azure-functions/src/services/unifiAccess.ts:207 | within one controller, distinct vendor ids give distinct event ids |
| UnifiAccess.ConfiguredControllersDistinct | azure-functions/src/services/unifiAccess.ts:17-26 | events of the primary and Minneapolis controllers never share an id |
| UnifiAccess.StartTime | azure-functions/src/services/unifiAccess.ts:69 | the floor in seconds of the cursor when there is one, and otherwise five minutes before now |
| UnifiAccess.FetchAccessEvents | azure-functions/src/services/unifiAccess.ts:87-107 | fails exactly on a failed response or a code other than SUCCESS, with the vendor error prefix; otherwise maps every entry |
| UnifiAccess.ControllerFetchTagsLegacyFetch | azure-functions/src/services/unifiAccess.ts:196-217 | the per-controller fetch accepts the same responses as the legacy fetch, and returns its events with prefixed ids and the controller name |
| UnifiAccess.MapEntries | azure-functions/src/services/unifiAccess.ts:206 | one event per log entry, in order |
| UnifiAccess.FetchFromController | azure-functions/src/services/unifiAccess.ts:196-217 | rejects exactly on a failed response or a code other than SUCCESS, and otherwise maps every entry |
| UnifiAccess.Fulfilled | azure-functions/src/services/unifiAccess.ts:265-273 | the merge of the settled results; `UnifiAccess.FulfilledContents` proves it holds exactly the events of the fulfilled controllers |
| UnifiAccess.FulfilledContents | azure-functions/src/services/unifiAccess.ts:265-273 | an event is merged exactly when some fulfilled controller returned it |
| UnifiAccess.FetchFromAllControllers | azure-functions/src/services/unifiAccess.ts:251-274 | no controllers give no events; otherwise the events are the fulfilled results concatenated in controller order |
| UnifiAccess.FetchResults | azure-functions/src/services/unifiAccess.ts:261-263 | one settled result per controller, in order |
| UnifiAccess.MergedEventsAreTagged | azure-functions/src/services/unifiAccess.ts:251-274 | every merged event is some controller's mapping of one of that controller's log entries |
| Ezradius.ExtractEmail | azure-functions/src/services/ezradius.ts:58-69 | a user name with '@' is returned lower-cased; any result contains '@' and has no upper-case letter |
| Ezradius.NoAtNoMatch | azure-functions/src/services/ezradius.ts:63-66 | the e-mail pattern cannot match a string without '@' |
| Ezradius.ExtractEmailIffAt | azure-functions/src/services/ezradius.ts:58-69 | an e-mail is found exactly when the user name contains '@', and it is then the whole user name lower-cased |
| Ezradius.ExtractEmailIdempotent | azure-functions/src/services/ezradius.ts:58-69 | extracting again from an extracted e-mail gives it back |
| Ezradius.CompoundUsernameKeptWhole | azure-functions/src/services/ezradius.ts:59-60 | "h/A@b.io" yields "h/a@b.io": the prefix-stripping pattern is never reached |
| SyncUnifiAccess.MinneapolisOffice | azure-functions/src/functions/syncUnifiAccess.ts:27-33 | an active office whose lower-cased name mentions minneapolis or minnesota, and nothing exactly when none does |
| SyncUnifiAccess.EmailMapOf | azure-functions/src/functions/syncUnifiAccess.ts:39-45 | has a key exactly for the UniFi ids of users with a non-empty e-mail, and never maps to the empty string |
| SyncUnifiAccess.EmailMapLastWins | azure-functions/src/functions/syncUnifiAccess.ts:41-44 | for a repeated id, the e-mail of its last user with an e-mail is kept |
| SyncUnifiAccess.BuildEmailMap | azure-functions/src/functions/syncUnifiAccess.ts:39-45 | the loop builds exactly the map `EmailMapOf` defines |
| SyncUnifiAccess.ResolveUser | azure-functions/src/functions/syncUnifiAccess.ts:67-79 | a match by the mapped e-mail wins; otherwise a match by the non-empty display name; nothing exactly when neither lookup finds anyone |
| SyncUnifiAccess.Decide | azure-functions/src/functions/syncUnifiAccess.ts:61-79 | no type exactly for an unmapped event type; a lookup is recorded as run exactly when the actor has a mapped e-mail or a display name, and every target had one |
| SyncUnifiAccess.RecordedEvent | azure-functions/src/functions/syncUnifiAccess.ts:85-93 | the inserted row; `SyncUnifiAccess.ProcessedEventIsRecorded` proves it carries the user, the Minneapolis office, the kind, the vendor id, the source and the time |
| SyncUnifiAccess.StepOutcome | azure-functions/src/functions/syncUnifiAccess.ts:54-114 | how one event ends; `SyncUnifiAccess.DuplicateIsSkipped`, `UnusableEventIsSkipped`, `NoActorIsSkipped`, `LookupFailureIsReported` and `ProcessedEventIsRecorded` state its cases |
| SyncUnifiAccess.EventStep | azure-functions/src/functions/syncUnifiAccess.ts:54-114 | one event on the tables; `SyncUnifiAccess.StepAppendsEvents`, `StepKeepsInvariants` and `StepSettles` state what it writes |
| SyncUnifiAccess.Decisions | azure-functions/src/functions/syncUnifiAccess.ts:61-79 | each event's type and user are resolved independently of the others |
| SyncUnifiAccess.DuplicateIsSkipped | azure-functions/src/functions/syncUnifiAccess.ts:55-59 | a re-delivered event is counted as skipped and writes nothing |
| SyncUnifiAccess.UnusableEventIsSkipped | azure-functions/src/functions/syncUnifiAccess.ts:61-79 | an event with an unknown type or no matching user is skipped and writes nothing |
| SyncUnifiAccess.NoActorIsSkipped | azure-functions/src/functions/syncUnifiAccess.ts:67-79 | an event whose actor has no mapped e-mail and no display name issues no lookup and is skipped, even when a lookup would have thrown |
| SyncUnifiAccess.LookupFailureIsReported | azure-functions/src/functions/syncUnifiAccess.ts:67-114 | a lookup that runs and throws fails the event before the match, with "Event <id>: <message>", and writes nothing |
| SyncUnifiAccess.ProcessedEventIsRecorded | azure-functions/src/functions/syncUnifiAccess.ts:81-110 | a processed event appends one row with its id, user, the Minneapolis office, its time and its kind; an exit with no open session leaves the sessions unchanged |
| SyncUnifiAccess.StepAppendsEvents | azure-functions/src/functions/syncUnifiAccess.ts:85-93 | one event appends at most one row and never rewrites the log |
| SyncUnifiAccess.StepKeepsInvariants | azure-functions/src/functions/syncUnifiAccess.ts:95-105 | one event keeps at most one open session per pair, and keeps session ids unique |
| SyncUnifiAccess.StepSettles | azure-functions/src/functions/syncUnifiAccess.ts:53-110 | after a fault-free step the event is settled: stored, or unusable |
| SyncUnifiAccess.SettledIsSkipped | azure-functions/src/functions/syncUnifiAccess.ts:55-79 | a settled event is skipped and writes nothing |
| SyncUnifiAccess.SettledAfterAppend | azure-functions/src/functions/syncUnifiAccess.ts:55-59 | a settled event stays settled whatever the pass appends later |
| SyncUnifiAccess.Trace | azure-functions/src/functions/syncUnifiAccess.ts:53-115 | the event log and outcomes of a pass; `SyncUnifiAccess.PassExtendsLog` and `FaultFreePassSettles` state that it only appends and settles every event |
| SyncUnifiAccess.SessionsAfter | azure-functions/src/functions/syncUnifiAccess.ts:95-105 | the sessions after a pass; `SyncUnifiAccess.PassKeepsSessionsValid` and `SkippedKeepsSessions` state that it keeps the invariant and that skips change nothing |
| SyncUnifiAccess.Fold | azure-functions/src/functions/syncUnifiAccess.ts:51-115 | the reference pass; `SyncUnifiAccess.FoldCounts` and `RedeliveryIsNoop` state its counters and that re-delivery changes nothing |
| SyncUnifiAccess.Advance | azure-functions/src/functions/syncUnifiAccess.ts:57-113 | the counter update of one event; `SyncUnifiAccess.FoldStep` proves it agrees with the reference pass |
| SyncUnifiAccess.FoldStep | azure-functions/src/functions/syncUnifiAccess.ts:53-115 | the pass over n+1 events is the pass over n events followed by one more event step |
| SyncUnifiAccess.FoldCounts | azure-functions/src/functions/syncUnifiAccess.ts:20-23 | after a pass, processed, skipped and errors add up to the batch size, matched lies between processed and processed plus errors, and the cursor is set exactly when something was processed |
| SyncUnifiAccess.PassExtendsLog | azure-functions/src/functions/syncUnifiAccess.ts:53-115 | a pass only appends to the event log |
| SyncUnifiAccess.PassKeepsSessionsValid | azure-functions/src/functions/syncUnifiAccess.ts:95-105 | a pass keeps at most one open session per pair, and keeps session ids unique |
| SyncUnifiAccess.FaultFreePassSettles | azure-functions/src/functions/syncUnifiAccess.ts:53-115 | after a fault-free pass every event of the batch is settled |
| SyncUnifiAccess.SettledTraceIsNoop | azure-functions/src/functions/syncUnifiAccess.ts:55-79 | over settled events, a pass appends nothing and skips every event |
| SyncUnifiAccess.SkippedKeepsSessions | azure-functions/src/functions/syncUnifiAccess.ts:95-105 | skipped events change no session |
| SyncUnifiAccess.SettledPassIsNoop | azure-functions/src/functions/syncUnifiAccess.ts:53-115 | a pass over settled events changes no table, processes nothing, records no error and leaves the cursor unset |
| SyncUnifiAccess.RedeliveryIsNoop | azure-functions/src/functions/syncUnifiAccess.ts:53-117 | re-running a fault-free pass on the same batch changes nothing and processes nothing |
| SyncUnifiAccess.ProcessEvent | azure-functions/src/functions/syncUnifiAccess.ts:54-114 | the store's events and sessions, and the outcome, are those of the reference event step; the session invariant is kept |
| SyncUnifiAccess.ProcessEvents | azure-functions/src/functions/syncUnifiAccess.ts:51-115 | the loop's counters, cursor and tables are those of the reference pass |
| SyncUnifiAccess.SyncUnifiAccessCore | azure-functions/src/functions/syncUnifiAccess.ts:17-127 | no office: only the message is returned; a failed fetch: status error with the cursor kept; otherwise the tables and counters of the pass and status success with the high-water timestamp |
| SyncEzradius.EventOffice | azure-functions/src/functions/syncEzradius.ts:35-38 | an active office with the event's location exactly when the location is truthy and such an office exists |
| SyncEzradius.Decide | azure-functions/src/functions/syncEzradius.ts:29-38 | the three lookups in order; `SyncEzradius.DecideMeaning` states when each decision arises |
| SyncEzradius.DecideMeaning | azure-functions/src/functions/syncEzradius.ts:29-38 | no e-mail exactly when the user name has no '@'; a target exactly when a user has that lower-cased e-mail and an active office has the location |
| SyncEzradius.Decisions | azure-functions/src/functions/syncEzradius.ts:29-38 | each event's e-mail, user and office are resolved independently of the others |
| SyncEzradius.RecordedEvent | azure-functions/src/functions/syncEzradius.ts:42-50 | the inserted row; `SyncEzradius.StepOnlyAppends` proves it is an entry with the event id and the ezradius source |
| SyncEzradius.StepOutcome | azure-functions/src/functions/syncEzradius.ts:26-60 | how one event ends; `SyncEzradius.SettledIsSkipped` and `StepSettles` state its skip cases |
| SyncEzradius.EventStep | azure-functions/src/functions/syncEzradius.ts:26-60 | one event on the tables; `SyncEzradius.StepOnlyAppends` and `StepKeepsInvariants` state what it writes |
| SyncEzradius.StepOnlyAppends | azure-functions/src/functions/syncEzradius.ts:42-50 | one event appends at most one row, an entry with its id and the ezradius source |
| SyncEzradius.StepKeepsInvariants | azure-functions/src/functions/syncEzradius.ts:52-55 | one event keeps the session invariant and only appends sessions; a processed event leaves its pair open |
| SyncEzradius.SettledIsSkipped | azure-functions/src/functions/syncEzradius.ts:26-38 | a settled event is skipped and writes nothing |
| SyncEzradius.StepSettles | azure-functions/src/functions/syncEzradius.ts:25-60 | after a fault-free step the event is settled |
| SyncEzradius.SettledAfterAppend | azure-functions/src/functions/syncEzradius.ts:26-27 | a settled event stays settled whatever is appended later |
| SyncEzradius.Trace | azure-functions/src/functions/syncEzradius.ts:25-61 | the event log and outcomes of a pass, stopped at the first failure; `SyncEzradius.FoldStaysAborted` and `PassExtendsLog` state both |
| SyncEzradius.SessionsAfter | azure-functions/src/functions/syncEzradius.ts:52-55 | the sessions after a pass; `SyncEzradius.PassKeepsSessions` states that it keeps the invariant and rewrites no session |
| SyncEzradius.Fold | azure-functions/src/functions/syncEzradius.ts:22-61 | the reference pass; `SyncEzradius.AbortIsFinal` and `RedeliveryIsNoop` state its abort and re-delivery behaviour |
| SyncEzradius.Advance | azure-functions/src/functions/syncEzradius.ts:57-60 | the count and high-water update of one event; `SyncEzradius.FoldStep` proves it agrees with the reference pass |
| SyncEzradius.FoldStep | azure-functions/src/functions/syncEzradius.ts:25-61 | while running, the pass over n+1 events is the pass over n followed by one step |
| SyncEzradius.FoldStaysAborted | azure-functions/src/functions/syncEzradius.ts:65-69 | once a store call throws, the loop looks at no further event |
| SyncEzradius.AbortIsFinal | azure-functions/src/functions/syncEzradius.ts:65-69 | the aborted state after the first throw is the final state of the pass |
| SyncEzradius.PassExtendsLog | azure-functions/src/functions/syncEzradius.ts:42-50 | a pass only appends, and only entries from the ezradius source |
| SyncEzradius.PassKeepsSessions | azure-functions/src/functions/syncEzradius.ts:52-55 | a pass keeps the session invariant and never rewrites an existing session |
| SyncEzradius.FaultFreePassSettles | azure-functions/src/functions/syncEzradius.ts:25-61 | a fault-free pass does not stop, and leaves every event of the batch settled |
| SyncEzradius.SettledTraceIsNoop | azure-functions/src/functions/syncEzradius.ts:26-38 | over settled events, a pass appends nothing and skips every event |
| SyncEzradius.SkippedKeepsSessions | azure-functions/src/functions/syncEzradius.ts:52-55 | skipped events change no session |
| SyncEzradius.SettledPassIsNoop | azure-functions/src/functions/syncEzradius.ts:25-61 | a pass over settled events changes nothing, processes nothing and sets no cursor |
| SyncEzradius.RedeliveryIsNoop | azure-functions/src/functions/syncEzradius.ts:18-63 | re-running a fault-free pass on the same batch changes nothing and processes nothing |
| SyncEzradius.ProcessEvent | azure-functions/src/functions/syncEzradius.ts:26-60 | the store's events and sessions, and the outcome, are those of the reference step; the session invariant is kept |
| SyncEzradius.ProcessEvents | azure-functions/src/functions/syncEzradius.ts:22-61 | the loop ends in the state of the reference pass, either running with its count and cursor or aborted with the message |
| SyncEzradius.SyncEzradius | azure-functions/src/functions/syncEzradius.ts:15-71 | fetches from the stored cursor; a failed fetch or a throw in the loop records error, keeps the cursor and rethrows; a completed pass records success with its high-water timestamp |
| AggregateDaily.Yesterday | azure-functions/src/functions/aggregateDaily.ts:13-15 | the UTC date of the day before now |
| AggregateDaily.DaySessions | azure-functions/src/functions/aggregateDaily.ts:26-28 | the office's sessions of the day; `AggregateDaily.DaySessionsMeaning` states which |
| AggregateDaily.DaySessionsMeaning | azure-functions/src/functions/aggregateDaily.ts:26-28 | the office's day is exactly its sessions with an entry on that date |
| AggregateDaily.Users | azure-functions/src/functions/aggregateDaily.ts:23 | the distinct visitors; `AggregateDaily.UsersAtMostSessions` bounds them by the entries |
| AggregateDaily.UsersAtMostSessions | azure-functions/src/functions/aggregateDaily.ts:23-24 | distinct visitors never exceed entries, and there is one whenever there is an entry |
| AggregateDaily.Durations | azure-functions/src/functions/aggregateDaily.ts:25 | the values `AVG` averages; `AggregateDaily.DurationsMeaning` states which |
| AggregateDaily.DurationsMeaning | azure-functions/src/functions/aggregateDaily.ts:25 | the averaged values are exactly the durations of the closed sessions; open sessions are ignored |
| AggregateDaily.AverageDuration | azure-functions/src/functions/aggregateDaily.ts:25-63 | the stored average; `AggregateDaily.AverageDurationRounds` and `AverageWithinDurations` state its rounding and bounds |
| AggregateDaily.AverageDurationRounds | azure-functions/src/functions/aggregateDaily.ts:63 | 0 without durations; otherwise the integer nearest the mean, with halves rounded upward |
| AggregateDaily.SumBounds | azure-functions/src/functions/aggregateDaily.ts:25 | the sum of values in [lo, hi] lies between count times lo and count times hi |
| AggregateDaily.AverageWithinDurations | azure-functions/src/functions/aggregateDaily.ts:25 | the rounded average lies between the shortest and the longest duration |
| AggregateDaily.Bucket | azure-functions/src/functions/aggregateDaily.ts:33-40 | the distinct users of one entry hour, as the CTE groups them; `AggregateDaily.PeakIsMax` uses it |
| AggregateDaily.PeakBelow | azure-functions/src/functions/aggregateDaily.ts:42 | the running `MAX`; `AggregateDaily.PeakBelowIsMax` proves it is the largest bucket below the bound and is attained |
| AggregateDaily.Peak | azure-functions/src/functions/aggregateDaily.ts:32-44 | the stored peak; `AggregateDaily.PeakIsMax` and `PeakBounds` state what it is |
| AggregateDaily.PeakBelowIsMax | azure-functions/src/functions/aggregateDaily.ts:32-44 | the running maximum is the largest of the hourly groups so far |
| AggregateDaily.PeakIsMax | azure-functions/src/functions/aggregateDaily.ts:32-44 | the peak is the distinct-user count of some entry hour, and no entry hour has more |
| AggregateDaily.PeakBounds | azure-functions/src/functions/aggregateDaily.ts:32-44 | the peak never exceeds the distinct visitors, and is 0 exactly when there is no session |
| AggregateDaily.Present | azure-functions/src/functions/aggregateDaily.ts:69-77 | the users present in an hour are among the day's visitors |
| AggregateDaily.HourlyOccupancy | azure-functions/src/functions/aggregateDaily.ts:69-77 | the hourly count; `AggregateDaily.HourlyOccupancyMeaning` states who is counted |
| AggregateDaily.HourlyOccupancyMeaning | azure-functions/src/functions/aggregateDaily.ts:69-77 | a user counts in an hour exactly when one of their sessions has entry hour at or before it and an exit hour at or after it (or no exit); no hour exceeds the visitors |
| AggregateDaily.AtParts | azure-functions/src/functions/aggregateDaily.ts:35 | a time built from a date, an hour and a minute has that UTC date and that hour |
| AggregateDaily.WorkdayCountsThroughExitHour | azure-functions/src/functions/aggregateDaily.ts:74-75 | a session from 08:00 to 18:00 counts in hours 8 to 18 inclusive and no other |
| AggregateDaily.OvernightCountsByHoursOnly | azure-functions/src/functions/aggregateDaily.ts:74-75 | a session from hour a to hour b of the next day counts in hour h of its entry day exactly when a <= h <= b |
| AggregateDaily.OvernightSessionNotCounted | azure-functions/src/functions/aggregateDaily.ts:74-75 | a session from 22:00 to 01:00 the next day counts in no hour; one from 09:00 to 17:00 the next day counts in hours 9 to 17 only |
| AggregateDaily.DailyRow | azure-functions/src/functions/aggregateDaily.ts:21-64 | the daily row; `AggregateDaily.DailyRowBounds` and `OneVisitDay` state its figures |
| AggregateDaily.DailyRowBounds | azure-functions/src/functions/aggregateDaily.ts:21-64 | peak at most visitors at most entries, and all three are 0 together |
| AggregateDaily.RowsForAll | azure-functions/src/functions/aggregateDaily.ts:20 | one set of rows per office |
| AggregateDaily.RowsForAllAt | azure-functions/src/functions/aggregateDaily.ts:20-86 | the i-th office's rows are computed from its own sessions |
| AggregateDaily.HoursUpTo | azure-functions/src/functions/aggregateDaily.ts:68-86 | the hour loop on the hourly table; `AggregateDaily.HoursUpToMeaning` states what it writes |
| AggregateDaily.HoursUpToMeaning | azure-functions/src/functions/aggregateDaily.ts:68-86 | after hours 0 to k-1, exactly those keys of the office and date are added with their figures, and other rows are kept |
| AggregateDaily.OfficeStep | azure-functions/src/functions/aggregateDaily.ts:49-86 | one office's writes, up to a throw; `AggregateDaily.OfficeWritesItsRows` states them |
| AggregateDaily.OfficeWritesItsRows | azure-functions/src/functions/aggregateDaily.ts:49-86 | an office without a throw gets its daily row and its 24 hourly rows from its sessions of that date; rows of other offices or dates are unchanged |
| AggregateDaily.Run | azure-functions/src/functions/aggregateDaily.ts:20-96 | the reference office loop; `AggregateDaily.RunStep`, `AggAbortIsFinal`, `RunOverwrites` and `RerunIsIdempotent` state its behaviour |
| AggregateDaily.RunStep | azure-functions/src/functions/aggregateDaily.ts:20-89 | while no error, the run over n+1 offices is the run over n followed by that office's step |
| AggregateDaily.AggAbortIsFinal | azure-functions/src/functions/aggregateDaily.ts:92-96 | after the first throw no later office is aggregated |
| AggregateDaily.HoursUpToMerge | azure-functions/src/functions/aggregateDaily.ts:79-85 | the hourly writes commute with a fixed set of older rows underneath |
| AggregateDaily.OfficeStepMerge | azure-functions/src/functions/aggregateDaily.ts:49-86 | an office step on tables with older rows underneath writes the same rows as on the written part alone |
| AggregateDaily.FaultFreeRunSucceeds | azure-functions/src/functions/aggregateDaily.ts:20-96 | without a throw the job ends without error |
| AggregateDaily.RunOverwrites | azure-functions/src/functions/aggregateDaily.ts:20-89 | a fault-free run overlays the rows it writes on the old tables and keeps any row it does not write |
| AggregateDaily.RerunIsIdempotent | azure-functions/src/functions/aggregateDaily.ts:49-86 | re-running the job for the same date and sessions leaves both tables as the first run left them |
| AggregateDaily.OneVisitDay | azure-functions/src/functions/aggregateDaily.ts:21-64 | one closed visit from 09:00 to 17:00 gives 1 visitor, 1 entry, 480 minutes and a peak of 1 |
| AggregateDaily.AggregateOffice | azure-functions/src/functions/aggregateDaily.ts:20-89 | the daily upsert and the hour loop leave exactly the tables of the reference office step, up to the first throw |
| AggregateDaily.AggregateOffices | azure-functions/src/functions/aggregateDaily.ts:20-96 | the office loop leaves exactly the tables and the error of the reference run |
| AggregateDaily.AggregateDaily | azure-functions/src/functions/aggregateDaily.ts:9-97 | a failed office query changes nothing and rethrows; otherwise the active offices are aggregated for yesterday as the reference run defines |
| AuthContext.IndexOf | src/context/AuthContext.tsx:162-163 | the first position of the element, and -1 exactly when it is absent |
| AuthContext.RankOrder | src/context/AuthContext.tsx:161 | viewer, manager and executive have ranks 0, 1 and 2 |
| AuthContext.SecurityGroups | src/context/AuthContext.tsx:93-99 | exactly the groups of security-group type |
| AuthContext.Ids | src/context/AuthContext.tsx:95 | the ids of the groups, position by position |
| AuthContext.Names | src/context/AuthContext.tsx:99 | the display names of the groups, position by position |
| AuthContext.SecurityGroupsOfConcat | src/context/AuthContext.tsx:74-99 | filtering the concatenated pages is concatenating the filtered pages |
| AuthContext.FilterDropsOtherType | src/context/AuthContext.tsx:93-99 | a group of another type is dropped wherever it sits |
| AuthContext.OtherGroupTypesIgnored | src/context/AuthContext.tsx:93-116 | a group of another type changes neither list nor the role |
| AuthContext.GrantedRoles | src/context/AuthContext.tsx:104-116 | the roles the group ids grant; `AuthContext.RoleFor` and `RoleCoversGrants` prove the selected role is the highest of them |
| AuthContext.RoleFor | src/context/AuthContext.tsx:104-116 | the role is granted by the groups (viewer always is), and no granted role ranks higher |
| AuthContext.SelectRole | src/context/AuthContext.tsx:104-116 | the if-chain picks exactly the highest granted role |
| AuthContext.FetchedUser | src/context/AuthContext.tsx:39-131 | the demo user in demo mode; nobody without an account; otherwise a user exactly when the Graph calls succeed, with the profile's id, mail or principal name, the role of the security groups and their names |
| AuthContext.HasRole | src/context/AuthContext.tsx:159-165 | nobody signed in has no role; a user has the viewer role, their own role, and every role when executive |
| AuthContext.HasRoleDownward | src/context/AuthContext.tsx:159-165 | holding a role means holding every lower role |
| AuthContext.RoleCoversGrants | src/context/AuthContext.tsx:104-165 | a user holds every role the groups grant, and holds a role exactly when it ranks at most their own |
| AuthContext.CanViewUserDetails | src/context/AuthContext.tsx:167 | manager or executive; `AuthContext.PermissionsFollowHierarchy` ties it to the hierarchy |
| AuthContext.CanViewAllOffices | src/context/AuthContext.tsx:168 | executive only; `AuthContext.PermissionsFollowHierarchy` ties it to the hierarchy |
| AuthContext.PermissionsFollowHierarchy | src/context/AuthContext.tsx:167-168 | user details are the manager level and all offices the executive level of the hierarchy, so all offices implies user details |
| AuthContext.DemoUserSeesEverything | src/context/AuthContext.tsx:21-44 | in demo mode the user holds every role and both permissions |

## Behaviour worth knowing

Each of these behaviours follows from the code as written, and the model keeps
it.

- Session durations are not clamped. `closeSession` stores whatever the
  subtraction gives, rounded, so an exit stamped before the entry yields a
  negative duration (`Database.DurationMinutes`).
- The sync cursor can move backwards. `updateSyncStatus` takes any supplied
  timestamp as the new cursor through `COALESCE`, not the larger of the old
  and the new. Each pass supplies the largest timestamp it processed, so a
  pass over older events lowers the cursor (`Database.SyncUpdated`).
- Only the UniFi loop survives a failing event. It catches per event and goes
  on with the batch. The EZRADIUS loop has no per-event `catch`: the first
  store call that throws ends the pass, records the error and is rethrown
  (`SyncEzradius.AbortIsFinal`).
- The daily figures are over the sessions entered on that date. Total
  entries is the number of such sessions, not of entry events. The average
  is over the closed ones among them, not over the sessions closed that date
  (`AggregateDaily.DaySessionsMeaning`, `AggregateDaily.DurationsMeaning`).
- The peak occupancy is the largest number of distinct users entering in one
  hour. It is not the largest number present in one hour
  (`AggregateDaily.PeakIsMax`).
- The hourly occupancy of a session entered in hour `a` and left in hour `b`
  counts it in every hour `h` with `a <= h <= b`, and only the hours are
  compared. The date of the exit plays no part:
  - a session that ends exactly at 18:00 counts in hour 18
    (`AggregateDaily.WorkdayCountsThroughExitHour`);
  - a session from 09:00 to 17:00 the next day counts in hours 9 to 17 of its
    entry day (`AggregateDaily.OvernightCountsByHoursOnly`);
  - a session from 22:00 to 01:00 the next day counts in no hour at all, not
    even its entry hour 22 (`AggregateDaily.OvernightSessionNotCounted`).

## Left out

- The HTTP exchanges are inputs, not modelled:
  - the UniFi, EZRADIUS and Graph requests;
  - token acquisition;
  - what `fetchUsers` returns.
- The source of `fetched`: `SyncUnifiAccess.SyncUnifiAccessCore` takes the
  fetched batch as a `Result`. `UnifiAccess.FetchAccessEvents` models how
  that `Result` arises from the response. The two are not composed in one
  member.
- Outgoing request parameters, because they only shape requests: the page
  size and `limit` arguments, and the `end_time` of the request.
- The Graph group paging loop (src/context/AuthContext.tsx:74-88): the groups
  of all pages are one input, and `AuthContext.SecurityGroupsOfConcat` shows
  that filtering page by page gives the same lists.
- `getUserByDisplayName` is imported by the UniFi sync but is not defined in
  azure-functions/src/services/database.ts. It is modelled as the first user
  with exactly that display name.
- `groupIds` from src/config/msal.ts is not part of this model; the three
  group ids are a parameter (`AuthContext.GroupIds`).
- Lower-casing covers ASCII letters only, because JavaScript's full Unicode
  case mapping has no counterpart here.
- Time zone: all dates and hours are UTC. The job's `setDate` on local time
  and the database's session time zone are assumed to be UTC, and daylight
  saving is not modelled.
- `Database.DurationMinutes`: rounding halves away from zero assumes
  PostgreSQL 14 or later, where `EXTRACT(EPOCH …)` returns numeric. On
  earlier versions it returns double precision, and the cast to INTEGER then
  rounds halves to even.
- `AggregateDaily.AverageDurationRounds`: PostgreSQL's `AVG` is exact
  numeric and then rounded by `Math.round`. The model rounds the exact
  rational mean with halves upward and does not model floating point.
- Concurrency: overlapping timer runs and unique-key races between them are
  not modelled; each job runs alone.
- `updated_at` / `last_sync_at`: the clock is the `now` parameter.
  `updated_at` columns are not modelled because nothing in the core reads
  them.
- The row order of `getOffices` and of the nightly office query: neither has
  an `ORDER BY`, so the model assumes table order.
- `SyncUnifiAccess.SyncUnifiAccessCore` leaves out three throws, because the
  model's `Store` calls do not fail there:
  - a throw in `getOffices`;
  - a throw in the final `updateSyncStatus('unifi_access', 'success', …)`,
    which the outer `catch` would turn into an error status;
  - a throw in the error-path `updateSyncStatus`.
- `SyncEzradius.SyncEzradius` leaves out a throw in `getLastSyncTimestamp`
  and in either `updateSyncStatus` call, for the same reason.
- The 'Unknown error' text for a thrown value that is not an `Error`: every
  fault carries a message.
- `getOfficeByUnifiSiteId`, `getDailyAttendance`, `fetchDoors`,
  `fetchDoorsFromController`, `fetchLocations`, the `triggerUnifiSync` HTTP
  handler and the timer schedules are not used by the modelled paths.
  `getUserByEntraId` is used only inside the upsert (`Database.FindUser`).
- From the auth context: login and logout redirects, `isLoading`,
  `photoUrl` (always undefined), and the React context plumbing. These are
  UI state with no logic to prove.
