/** The measurement query handler behind `GET /measurements`: a CORS
    pre-flight answer for OPTIONS, otherwise one query of the configured
    device's readings from `startTime` on, shaped into a 200 or a 500 reply. */
module MeasurementsApi {
  import opened Common
  import opened Text
  import opened Sorting

  const DefaultTableName: string := "temperature-measurements"
  const DefaultDeviceId: string := "SimpleTemperatureSender-ESP32-C3-supermini-1"

  /** The two environment variables the handler reads; `None` when unset. */
  datatype Environment = Environment(tableName: Option<string>, deviceId: Option<string>)

  /** `process.env.X || default`: an unset or empty variable falls back to the default. */
  function OrDefault(value: Option<string>, default: string): string
  {
    if value.Some? && value.value != "" then value.value else default
  }

  function TableName(env: Environment): string
  {
    OrDefault(env.tableName, DefaultTableName)
  }

  function DeviceId(env: Environment): string
  {
    OrDefault(env.deviceId, DefaultDeviceId)
  }

  datatype Request = Request(httpMethod: string, queryStringParameters: Option<map<string, string>>)

  function Headers(): seq<(string, string)>
  {
    [("Content-Type", "application/json"),
     ("Access-Control-Allow-Origin", "*"),
     ("Access-Control-Allow-Headers", "Content-Type"),
     ("Access-Control-Allow-Methods", "GET,OPTIONS")]
  }

  /** The response body: empty, the found readings, or the error report. */
  datatype Body =
    | EmptyBody
    | Found(measurements: seq<Measurement>, count: int, startTime: int, deviceId: string)
    | ServerError(error: string, message: string)

  datatype Response = Response(statusCode: int, headers: seq<(string, string)>, body: Body)

  /** The query the handler sends: readings of `deviceId` with `timestamp >=
      startTime` from `tableName`; the handler always asks for ascending
      timestamp order (`ScanIndexForward: true`). */
  datatype QueryCommand = QueryCommand(tableName: string, deviceId: string, startTime: int)

  /** The store as the handler sees it: a table of readings, a reply without
      `Items`, or a failure thrown by the client. */
  datatype Store = Table(items: seq<Measurement>) | NoItems | Failing(error: Failure)

  /** The readings of `items` that satisfy the key condition
      `device_id = :deviceId AND timestamp >= :startTime`, in table order. */
  function Matching(items: seq<Measurement>, deviceId: string, startTime: int): seq<Measurement>
  {
    if items == [] then []
    else (if items[0].deviceId == deviceId && items[0].timestamp >= startTime then [items[0]] else [])
         + Matching(items[1..], deviceId, startTime)
  }

  /** What the store answers to `cmd`: the matching readings in ascending
      timestamp order, `None` for a reply without `Items`, or the thrown failure. */
  function Query(store: Store, cmd: QueryCommand): (r: Result)
    ensures r.Answered? && r.items.Some? ==> SortedByTimestamp(r.items.value)
    ensures r.Raised? <==> store.Failing?
  {
    match store
    case Table(items) => Answered(Some(Sort(Matching(items, cmd.deviceId, cmd.startTime))))
    case NoItems => Answered(None)
    case Failing(e) => Raised(e)
  }

  datatype Result = Answered(items: Option<seq<Measurement>>) | Raised(error: Failure)

  /** The `startTime` the handler uses: `parseInt` of the query parameter when
      it is present and not empty, the start of today otherwise. `None` is NaN. */
  function StartTime(params: Option<map<string, string>>, startOfToday: int): Option<int>
  {
    if params.Some? && "startTime" in params.value && params.value["startTime"] != "" then
      ParseInt(params.value["startTime"])
    else Some(startOfToday)
  }

  /** `new Date(t).toISOString()` throws a `RangeError` for NaN and beyond ±8.64e15 ms. */
  predicate RepresentableTime(t: Option<int>) {
    t.Some? && ValidTimeValue(t.value)
  }

  function ErrorMessage(e: Failure): string
  {
    match e
    case ErrorObject(message) => message
    case OtherValue => "Unknown error"
  }

  function ServerFailure(e: Failure): Response
  {
    Response(500, Headers(), ServerError("Internal server error", ErrorMessage(e)))
  }

  /** `handler(event)` with the environment, the start of today and the store as inputs. */
  function Handle(request: Request, env: Environment, startOfToday: int, store: Store): (r: Response)
    ensures r.statusCode == 200 || r.statusCode == 500
    ensures r.statusCode == 200 <==> r.body.EmptyBody? || r.body.Found?
  {
    if request.httpMethod == "OPTIONS" then Response(200, Headers(), EmptyBody)
    else
      var startTime := StartTime(request.queryStringParameters, startOfToday);
      if !RepresentableTime(startTime) then ServerFailure(ErrorObject("Invalid time value"))
      else
        match Query(store, QueryCommand(TableName(env), DeviceId(env), startTime.value))
        case Raised(e) => ServerFailure(e)
        case Answered(items) =>
          var measurements := if items.Some? then items.value else [];
          Response(200, Headers(), Found(measurements, |measurements|, startTime.value, DeviceId(env)))
  }

  /** An OPTIONS request is answered 200 with an empty body, whatever the store holds. */
  lemma OptionsShortCircuit(request: Request, env: Environment, startOfToday: int, store: Store, other: Store)
    requires request.httpMethod == "OPTIONS"
    ensures Handle(request, env, startOfToday, store) == Response(200, Headers(), EmptyBody)
    ensures Handle(request, env, startOfToday, store) == Handle(request, env, startOfToday, other)
  {
  }

  /** The default applies exactly when the parameter is missing or empty; a
      parameter written by `String(n)` is read back as `n`. */
  lemma StartTimeDefault(params: Option<map<string, string>>, startOfToday: int, n: int)
    ensures (params.None? || "startTime" !in params.value || params.value["startTime"] == "") ==>
      StartTime(params, startOfToday) == Some(startOfToday)
    ensures StartTime(Some(map["startTime" := IntToString(n)]), startOfToday) == Some(n)
  {
    ParseIntRoundTrip(n);
    assert |NatToString(if n < 0 then -n else n)| >= 1;
  }

  lemma {:induction false} MatchingCount(items: seq<Measurement>, deviceId: string, startTime: int, m: Measurement)
    ensures multiset(Matching(items, deviceId, startTime))[m] ==
      if m.deviceId == deviceId && m.timestamp >= startTime then multiset(items)[m] else 0
  {
    if items != [] {
      MatchingCount(items[1..], deviceId, startTime, m);
      assert items == [items[0]] + items[1..];
    }
  }

  /** A successful reply carries exactly the stored readings of the configured
      device from `startTime` on (each as often as stored), in ascending
      timestamp order, their count, and the echoed `startTime` and device. */
  lemma FoundReadings(request: Request, env: Environment, startOfToday: int, items: seq<Measurement>)
    requires request.httpMethod != "OPTIONS"
    requires RepresentableTime(StartTime(request.queryStringParameters, startOfToday))
    ensures var r := Handle(request, env, startOfToday, Table(items));
      var t := StartTime(request.queryStringParameters, startOfToday).value;
      r.statusCode == 200 && r.body.Found? &&
      SortedByTimestamp(r.body.measurements) &&
      (forall m :: multiset(r.body.measurements)[m] ==
         if m.deviceId == DeviceId(env) && m.timestamp >= t then multiset(items)[m] else 0) &&
      r.body.count == |r.body.measurements| &&
      r.body.startTime == t && r.body.deviceId == DeviceId(env)
  {
    var t := StartTime(request.queryStringParameters, startOfToday).value;
    forall m ensures multiset(Sort(Matching(items, DeviceId(env), t)))[m] ==
      if m.deviceId == DeviceId(env) && m.timestamp >= t then multiset(items)[m] else 0
    {
      MatchingCount(items, DeviceId(env), t, m);
    }
  }

  /** A reply without `Items` is still a 200, with no readings and count 0. */
  lemma MissingItems(request: Request, env: Environment, startOfToday: int)
    requires request.httpMethod != "OPTIONS"
    requires RepresentableTime(StartTime(request.queryStringParameters, startOfToday))
    ensures Handle(request, env, startOfToday, NoItems) ==
      Response(200, Headers(), Found([], 0, StartTime(request.queryStringParameters, startOfToday).value, DeviceId(env)))
  {
  }

  /** Every failure ends in a 500 with `Internal server error` and no readings:
      a failing store, an unparsable `startTime`, or one out of range. */
  lemma FailuresAre500(request: Request, env: Environment, startOfToday: int, store: Store)
    requires request.httpMethod != "OPTIONS"
    ensures store.Failing? || !RepresentableTime(StartTime(request.queryStringParameters, startOfToday)) <==>
      Handle(request, env, startOfToday, store).statusCode == 500
    ensures Handle(request, env, startOfToday, store).statusCode == 500 ==>
      Handle(request, env, startOfToday, store).body.ServerError? &&
      Handle(request, env, startOfToday, store).body.error == "Internal server error"
    ensures store.Failing? && RepresentableTime(StartTime(request.queryStringParameters, startOfToday)) ==>
      Handle(request, env, startOfToday, store).body.message == ErrorMessage(store.error)
    ensures StartTime(request.queryStringParameters, startOfToday).None? ==>
      Handle(request, env, startOfToday, store).body == ServerError("Internal server error", "Invalid time value")
  {
  }

  /** The configured names fall back to their defaults when unset or empty. */
  lemma ConfiguredNames(env: Environment)
    ensures DeviceId(env) != "" && TableName(env) != ""
    ensures env.deviceId.None? || env.deviceId == Some("") ==> DeviceId(env) == "SimpleTemperatureSender-ESP32-C3-supermini-1"
    ensures env.tableName.None? || env.tableName == Some("") ==> TableName(env) == "temperature-measurements"
  {
  }
}
