/** The pure and looping parts of azure-functions/src/services/unifiAccess.ts:
    event-type mapping, controller configuration, the translation of access-log
    entries into events, the fetch window, and the merge over controllers. The
    HTTP exchanges themselves are inputs (`ApiResponse`). */
module UnifiAccess {
  import opened Types
  import opened Text

  // ---------------------------------------------------------------------------
  // mapEventType

  const ENTRY_TYPES: seq<string> := ["access.door.unlock", "access.door.open", "access.granted"]
  const EXIT_TYPES: seq<string> := ["access.door.exit", "access.exit.granted"]

  function MapEventType(unifiEventType: string): (r: Option<EventType>)
    ensures r == Some(Entry) <==> unifiEventType in ENTRY_TYPES
    ensures r == Some(Exit) <==> unifiEventType in EXIT_TYPES
    ensures r.None? <==> unifiEventType !in ENTRY_TYPES && unifiEventType !in EXIT_TYPES
  {
    if unifiEventType in ENTRY_TYPES then Some(Entry)
    else if unifiEventType in EXIT_TYPES then Some(Exit)
    else None
  }

  /** No vendor type is both an entry and an exit; so the order of the two
      tests in `mapEventType` does not matter. */
  lemma EntryAndExitTypesDisjoint()
    ensures forall t :: t in ENTRY_TYPES ==> t !in EXIT_TYPES
  {
  }

  // ---------------------------------------------------------------------------
  // getControllers

  datatype Controller = Controller(name: string, url: string, token: string)

  /** The four environment variables `getControllers` reads. */
  datatype Env = Env(
    accessUrl: Option<string>, accessToken: Option<string>,
    mspUrl: Option<string>, mspToken: Option<string>)

  predicate PrimaryConfigured(env: Env) { Truthy(env.accessUrl) && Truthy(env.accessToken) }
  predicate MinneapolisConfigured(env: Env) { Truthy(env.mspUrl) && Truthy(env.mspToken) }

  method GetControllers(env: Env) returns (controllers: seq<Controller>)
    ensures |controllers| == (if PrimaryConfigured(env) then 1 else 0) + (if MinneapolisConfigured(env) then 1 else 0)
    ensures (exists i :: 0 <= i < |controllers| && controllers[i].name == "primary") <==> PrimaryConfigured(env)
    ensures (exists i :: 0 <= i < |controllers| && controllers[i].name == "minneapolis") <==> MinneapolisConfigured(env)
    ensures PrimaryConfigured(env) ==> controllers[0] == Controller("primary", env.accessUrl.value, env.accessToken.value)
    ensures MinneapolisConfigured(env) ==>
              controllers[|controllers| - 1] == Controller("minneapolis", env.mspUrl.value, env.mspToken.value)
  {
    controllers := [];
    if PrimaryConfigured(env) {
      controllers := controllers + [Controller("primary", env.accessUrl.value, env.accessToken.value)];
    }
    if MinneapolisConfigured(env) {
      controllers := controllers + [Controller("minneapolis", env.mspUrl.value, env.mspToken.value)];
    }
    assert "primary" != "minneapolis";
    if PrimaryConfigured(env) {
      assert controllers[0].name == "primary";
    }
    if MinneapolisConfigured(env) {
      assert controllers[|controllers| - 1].name == "minneapolis";
    }
  }

  // ---------------------------------------------------------------------------
  // Access-log entries and the events made from them

  datatype LogEntry = LogEntry(
    entryId: string,
    doorId: string,
    doorName: Option<string>,
    actorId: string,
    fullName: Option<string>,
    firstName: Option<string>,
    lastName: Option<string>,
    userEmail: Option<string>,
    eventType: string,
    eventTime: int,
    result: string)

  datatype UnifiEvent = UnifiEvent(
    id: string,
    doorId: string,
    doorName: Option<string>,
    userId: string,
    userName: string,
    userEmail: Option<string>,
    eventType: string,
    timestamp: Timestamp,
    result: string,
    controller: Option<string>)

  function OrEmpty(o: Option<string>): string {
    if o.Some? then o.value else ""
  }

  /** `full_name || \`${first_name || ''} ${last_name || ''}\`.trim()` */
  function DisplayName(e: LogEntry): (n: string)
    ensures Truthy(e.fullName) ==> n == e.fullName.value
    ensures !Truthy(e.fullName) ==> exists k :: TrimmedAt(OrEmpty(e.firstName) + " " + OrEmpty(e.lastName), n, k)
    ensures !Truthy(e.fullName) && n != [] ==> !IsSpace(n[0]) && !IsSpace(n[|n| - 1])
  {
    if Truthy(e.fullName) then e.fullName.value
    else Trim(OrEmpty(e.firstName) + " " + OrEmpty(e.lastName))
  }

  /** With no full name and no first or last name, the name is empty, so the
      sync will not try a display-name lookup for it. */
  lemma NoNamePartsGiveEmptyName(e: LogEntry)
    requires !Truthy(e.fullName) && e.firstName.None? && e.lastName.None?
    ensures DisplayName(e) == ""
  {
    assert OrEmpty(e.firstName) + " " + OrEmpty(e.lastName) == " ";
    assert TrimStart(" "[1..]) == "";
    assert TrimStart(" ") == "";
  }

  /** The entry-to-event mapping of `fetchAccessEvents`: the vendor id as the
      event id and `event_time` seconds turned into milliseconds. */
  function ToEvent(e: LogEntry): (ev: UnifiEvent)
    ensures ev.id == e.entryId && ev.timestamp == e.eventTime * MS_PER_SECOND
    ensures ev.userId == e.actorId && ev.userName == DisplayName(e) && ev.eventType == e.eventType
    ensures ev.controller.None?
  {
    UnifiEvent(e.entryId, e.doorId, e.doorName, e.actorId, DisplayName(e), e.userEmail,
               e.eventType, e.eventTime * MS_PER_SECOND, e.result, None)
  }

  /** The event id of a controller-sourced event. */
  function PrefixedId(controllerName: string, entryId: string): string {
    controllerName + "_" + entryId
  }

  /** The mapping of `fetchAccessEventsFromController`: as `ToEvent`, with the
      id prefixed by the controller's name and the controller recorded. */
  function ToControllerEvent(c: Controller, e: LogEntry): (ev: UnifiEvent)
    ensures ev.id == PrefixedId(c.name, e.entryId) && ev.controller == Some(c.name)
    ensures ev.(id := e.entryId, controller := None) == ToEvent(e)
  {
    ToEvent(e).(id := PrefixedId(c.name, e.entryId), controller := Some(c.name))
  }

  /** Two controllers whose names differ and contain no '_' never produce the
      same event id, whatever the vendor ids; so one vendor id seen by two
      controllers gives two distinct dedup keys. */
  lemma {:induction false} PrefixedIdsDistinct(n1: string, n2: string, x: string, y: string)
    requires n1 != n2 && '_' !in n1 && '_' !in n2
    ensures PrefixedId(n1, x) != PrefixedId(n2, y)
  {
    var a, b := PrefixedId(n1, x), PrefixedId(n2, y);
    if |n1| < |n2| {
      assert a[|n1|] == '_' && b[|n1|] == n2[|n1|] != '_';
    } else if |n2| < |n1| {
      assert b[|n2|] == '_' && a[|n2|] == n1[|n2|] != '_';
    } else {
      var k :| 0 <= k < |n1| && n1[k] != n2[k];
      assert a[k] == n1[k] && b[k] == n2[k];
    }
  }

  /** Within one controller the prefix keeps vendor ids apart. */
  lemma PrefixedIdInjective(n: string, x: string, y: string)
    requires PrefixedId(n, x) == PrefixedId(n, y)
    ensures x == y
  {
    assert x == PrefixedId(n, x)[|n| + 1..];
  }

  lemma ConfiguredControllersDistinct(x: string, y: string)
    ensures PrefixedId("primary", x) != PrefixedId("minneapolis", y)
  {
    PrefixedIdsDistinct("primary", "minneapolis", x, y);
  }

  // ---------------------------------------------------------------------------
  // The fetch window

  /** `start_time` of the request: whole seconds of `since`, or five minutes
      before now when there is no cursor. */
  function StartTime(since: Option<Timestamp>, nowMs: Timestamp): (start: int)
    ensures since.Some? ==> start * MS_PER_SECOND <= since.value < start * MS_PER_SECOND + MS_PER_SECOND
    ensures since.None? ==> start == nowMs / MS_PER_SECOND - 300
  {
    var now := nowMs / MS_PER_SECOND;
    if since.Some? then since.value / MS_PER_SECOND else now - 300
  }

  // ---------------------------------------------------------------------------
  // fetchAccessEventsFromController and fetchAccessEventsFromAllControllers

  /** What one controller's access-log request came back with. */
  datatype ApiResponse =
    | HttpFailure(status: string, statusText: string)  // `status` as the decimal text the message shows
    | Body(code: string, msg: string, data: seq<LogEntry>)

  function MapEntries(c: Controller, entries: seq<LogEntry>): (r: seq<UnifiEvent>)
    ensures |r| == |entries|
    ensures forall i :: 0 <= i < |entries| ==> r[i] == ToControllerEvent(c, entries[i])
  {
    if entries == [] then [] else [ToControllerEvent(c, entries[0])] + MapEntries(c, entries[1..])
  }

  /** `fetchAccessEventsFromController` after its HTTP call: a failed response or
      a code other than "SUCCESS" rejects; otherwise every entry is mapped. */
  function FetchFromController(c: Controller, response: ApiResponse): (r: Result<seq<UnifiEvent>>)
    ensures r.Ok? <==> response.Body? && response.code == "SUCCESS"
    ensures r.Ok? ==> r.value == MapEntries(c, response.data)
  {
    match response
    case HttpFailure(status, statusText) => Err("UniFi Access API error (" + c.name + "): " + status + " " + statusText)
    case Body(code, msg, data) =>
      if code != "SUCCESS" then Err("UniFi Access API error (" + c.name + "): " + msg)
      else Ok(MapEntries(c, data))
  }

  /** `fetchAccessEvents`, the single-controller request the UniFi sync makes,
      after its HTTP call: it throws on a failed response or a code other than
      "SUCCESS", and otherwise maps every entry with its vendor id unchanged. */
  function FetchAccessEvents(response: ApiResponse): (r: Result<seq<UnifiEvent>>)
    ensures r.Ok? <==> response.Body? && response.code == "SUCCESS"
    ensures r.Ok? ==> |r.value| == |response.data| && forall i :: 0 <= i < |r.value| ==> r.value[i] == ToEvent(response.data[i])
    ensures r.Err? ==> LEGACY_ERROR <= r.message
  {
    match response
    case HttpFailure(status, statusText) => Err(LEGACY_ERROR + status + " " + statusText)
    case Body(code, msg, data) =>
      if code != "SUCCESS" then Err(LEGACY_ERROR + msg)
      else Ok(seq(|data|, i requires 0 <= i < |data| => ToEvent(data[i])))
  }

  const LEGACY_ERROR: string := "UniFi Access API error: "

  /** The per-controller request accepts exactly the responses the legacy one
      accepts, and yields the same events, tagged with the controller. */
  lemma ControllerFetchTagsLegacyFetch(c: Controller, response: ApiResponse)
    ensures FetchFromController(c, response).Ok? <==> FetchAccessEvents(response).Ok?
    ensures FetchAccessEvents(response).Ok? ==>
              var tagged, plain := FetchFromController(c, response).value, FetchAccessEvents(response).value;
              |tagged| == |plain|
              && forall i :: 0 <= i < |plain| ==>
                   tagged[i] == plain[i].(id := PrefixedId(c.name, plain[i].id), controller := Some(c.name))
  {
  }

  /** The concatenation, in order, of the fulfilled results. */
  function Fulfilled(results: seq<Result<seq<UnifiEvent>>>): seq<UnifiEvent> {
    if results == [] then []
    else Fulfilled(results[..|results| - 1])
         + (var last := results[|results| - 1]; if last.Ok? then last.value else [])
  }

  /** Every merged event comes from a fulfilled controller, and every event of a
      fulfilled controller is merged; rejected controllers contribute nothing. */
  lemma {:induction false} FulfilledContents(results: seq<Result<seq<UnifiEvent>>>, ev: UnifiEvent)
    ensures ev in Fulfilled(results) <==>
            exists i :: 0 <= i < |results| && results[i].Ok? && ev in results[i].value
  {
    if results != [] {
      var init := results[..|results| - 1];
      FulfilledContents(init, ev);
      assert forall i :: 0 <= i < |init| ==> init[i] == results[i];
    }
  }

  /** `fetchAccessEventsFromAllControllers`, given what each controller's request
      came back with (`Promise.allSettled` over the controllers). */
  method FetchFromAllControllers(controllers: seq<Controller>, responses: seq<ApiResponse>)
    returns (allEvents: seq<UnifiEvent>)
    requires |responses| == |controllers|
    ensures controllers == [] ==> allEvents == []
    ensures allEvents == Fulfilled(FetchResults(controllers, responses))
  {
    if |controllers| == 0 {
      return [];
    }
    var results := FetchResults(controllers, responses);
    allEvents := [];
    for i := 0 to |results|
      invariant allEvents == Fulfilled(results[..i])
    {
      assert results[..i + 1][..i] == results[..i];
      if results[i].Ok? {
        allEvents := allEvents + results[i].value;
      }
    }
    assert results[..|results|] == results;
  }

  function FetchResults(controllers: seq<Controller>, responses: seq<ApiResponse>): (r: seq<Result<seq<UnifiEvent>>>)
    requires |responses| == |controllers|
    ensures |r| == |controllers|
    ensures forall i :: 0 <= i < |r| ==> r[i] == FetchFromController(controllers[i], responses[i])
  {
    seq(|controllers|, i requires 0 <= i < |controllers| => FetchFromController(controllers[i], responses[i]))
  }

  /** Every merged event carries the name of the controller that produced it,
      and its id is that name, '_' and the vendor id. */
  lemma MergedEventsAreTagged(controllers: seq<Controller>, responses: seq<ApiResponse>, ev: UnifiEvent)
    requires |responses| == |controllers|
    requires ev in Fulfilled(FetchResults(controllers, responses))
    ensures exists i, e :: 0 <= i < |controllers| && responses[i].Body? && e in responses[i].data
              && ev == ToControllerEvent(controllers[i], e)
  {
    var results := FetchResults(controllers, responses);
    FulfilledContents(results, ev);
    var i :| 0 <= i < |results| && results[i].Ok? && ev in results[i].value;
    var k :| 0 <= k < |results[i].value| && results[i].value[k] == ev;
    assert responses[i].data[k] in responses[i].data;
  }
}
