/** The dashboard and the query handler together: the request the dashboard
    sends reaches the handler as a `startTime` query parameter, and the
    handler's reply comes back as the parsed `measurements` field. */
module Pipeline {
  import opened Common
  import opened Text
  import opened Sorting
  import opened Calendar
  import opened Dashboard
  import opened MeasurementsApi

  /** The request the API gateway hands the handler for the dashboard's
      `GET .../measurements?startTime=${start}`. */
  function GatewayRequest(start: int): Request
  {
    Request("GET", Some(map["startTime" := IntToString(start)]))
  }

  /** The reply as `fetch` and `response.json()` present it to the dashboard. */
  function Transport(r: Response): HttpReply
  {
    HttpReply.Response(r.statusCode, if r.body.Found? then Some(r.body.measurements) else None)
  }

  /** The handler queries from exactly the start of the dashboard's window. */
  lemma HandlerSeesWindowStart(start: int, startOfToday: int)
    ensures StartTime(GatewayRequest(start).queryStringParameters, startOfToday) == Some(start)
  {
    StartTimeDefault(GatewayRequest(start).queryStringParameters, startOfToday, start);
  }

  /** End to end: the dashboard shows exactly the stored readings of the
      configured device that lie in the selected window, each as often as
      stored, in ascending time order. */
  lemma DashboardShowsWindow(range: TimeRange, now: Date, utcOffsetMs: int, env: Environment,
                             startOfToday: int, items: seq<Measurement>)
    requires ValidDate(now)
    requires ValidTimeValue(TimeRangeParams(range, now, utcOffsetMs).start)
    ensures var w := TimeRangeParams(range, now, utcOffsetMs);
      var v := FetchView(range, w, Transport(Handle(GatewayRequest(w.start), env, startOfToday, Table(items))));
      v.Shown? && SortedByTimestamp(v.measurements) &&
      forall m :: multiset(v.measurements)[m] ==
        if m.deviceId == DeviceId(env) && InWindow(m, w.start, w.end) then multiset(items)[m] else 0
  {
    var w := TimeRangeParams(range, now, utcOffsetMs);
    var req := GatewayRequest(w.start);
    HandlerSeesWindowStart(w.start, startOfToday);
    FoundReadings(req, env, startOfToday, items);
    var found := Handle(req, env, startOfToday, Table(items)).body.measurements;
    FilterSorted(found, w.start, w.end);
    forall m ensures multiset(FilterByTimeRange(found, w.start, w.end))[m] ==
      if m.deviceId == DeviceId(env) && InWindow(m, w.start, w.end) then multiset(items)[m] else 0
    {
      FilterCount(found, w.start, w.end, m);
    }
  }

  /** The API as the dashboard reaches it under `apiBase`: the URL
      `${apiBase}/measurements?startTime=<text>` becomes a `GET` whose
      `startTime` parameter is `<text>`, and the handler's response travels
      back; any other URL is answered 404 without a body. */
  function Api(apiBase: string, env: Environment, startOfToday: int, store: Store): string -> HttpReply
  {
    url =>
      var prefix := apiBase + "/measurements?startTime=";
      if |prefix| <= |url| && url[..|prefix|] == prefix then
        Transport(Handle(Request("GET", Some(map["startTime" := url[|prefix|..]])), env, startOfToday, store))
      else HttpReply.Response(404, None)
  }

  /** The URL the dashboard builds reaches the handler as the gateway request
      for the window start. */
  lemma ApiRoutesRequest(apiBase: string, start: int, env: Environment, startOfToday: int, store: Store)
    ensures Api(apiBase, env, startOfToday, store)(RequestUrl(apiBase, start)) ==
      Transport(Handle(GatewayRequest(start), env, startOfToday, store))
  {
    var prefix := apiBase + "/measurements?startTime=";
    var url := RequestUrl(apiBase, start);
    assert url == prefix + IntToString(start);
    assert url[..|prefix|] == prefix;
    assert url[|prefix|..] == IntToString(start);
  }

  /** End to end over `fetchData` itself: with the API at the configured base
      URL, the dashboard stores exactly the configured device's readings in the
      selected window, each as often as stored, in ascending time order. */
  lemma FetchDataShowsWindow(range: TimeRange, now: Date, utcOffsetMs: int, configured: Option<string>,
                             env: Environment, startOfToday: int, items: seq<Measurement>)
    requires ValidDate(now)
    requires ValidTimeValue(TimeRangeParams(range, now, utcOffsetMs).start)
    ensures var w := TimeRangeParams(range, now, utcOffsetMs);
      var v := FetchData(range, now, utcOffsetMs, configured, Api(ApiBase(configured), env, startOfToday, Table(items)));
      v.Shown? && SortedByTimestamp(v.measurements) &&
      forall m :: multiset(v.measurements)[m] ==
        if m.deviceId == DeviceId(env) && InWindow(m, w.start, w.end) then multiset(items)[m] else 0
  {
    var w := TimeRangeParams(range, now, utcOffsetMs);
    ApiRoutesRequest(ApiBase(configured), w.start, env, startOfToday, Table(items));
    DashboardShowsWindow(range, now, utcOffsetMs, env, startOfToday, items);
  }
}
