/** The dashboard's series pipeline: the window for the selected range, the
    request URL, the client-side filter, and the hourly aggregation for the
    month views. */
module Dashboard {
  import opened Common
  import opened Text
  import opened Aggregation
  import opened Calendar
  import opened Sorting

  /** `measurements.filter(m => m.timestamp >= start && m.timestamp < end)`. */
  function FilterByTimeRange(ms: seq<Measurement>, start: int, end: int): (r: seq<Measurement>)
    ensures |r| <= |ms|
    ensures forall i :: 0 <= i < |r| ==> InWindow(r[i], start, end)
  {
    if ms == [] then []
    else (if start <= ms[0].timestamp < end then [ms[0]] else []) + FilterByTimeRange(ms[1..], start, end)
  }

  predicate InWindow(m: Measurement, start: int, end: int) {
    start <= m.timestamp < end
  }

  /** The filter keeps each reading exactly as often as it occurs when it lies
      in `[start, end)`, and drops it otherwise. */
  lemma {:induction false} FilterCount(ms: seq<Measurement>, start: int, end: int, m: Measurement)
    ensures multiset(FilterByTimeRange(ms, start, end))[m] == if InWindow(m, start, end) then multiset(ms)[m] else 0
  {
    if ms != [] {
      FilterCount(ms[1..], start, end, m);
      assert ms == [ms[0]] + ms[1..];
    }
  }

  lemma FilterMembers(ms: seq<Measurement>, start: int, end: int)
    ensures forall m :: m in FilterByTimeRange(ms, start, end) <==> m in ms && InWindow(m, start, end)
  {
    forall m ensures m in FilterByTimeRange(ms, start, end) <==> m in ms && InWindow(m, start, end) {
      FilterCount(ms, start, end, m);
    }
  }

  /** Filtering `a + b` looks at the head of `a` first. */
  lemma FilterHead(a: seq<Measurement>, b: seq<Measurement>, start: int, end: int)
    requires a != []
    ensures FilterByTimeRange(a + b, start, end) ==
      (if start <= a[0].timestamp < end then [a[0]] else []) + FilterByTimeRange(a[1..] + b, start, end)
  {
    assert (a + b)[0] == a[0] && (a + b)[1..] == a[1..] + b;
  }

  /** The filter keeps the original order: it distributes over concatenation. */
  lemma {:induction false} FilterAppend(a: seq<Measurement>, b: seq<Measurement>, start: int, end: int)
    ensures FilterByTimeRange(a + b, start, end) == FilterByTimeRange(a, start, end) + FilterByTimeRange(b, start, end)
  {
    if a != [] {
      FilterHead(a, b, start, end);
      FilterAppend(a[1..], b, start, end);
      var head := if start <= a[0].timestamp < end then [a[0]] else [];
      AppendAssoc(head, FilterByTimeRange(a[1..], start, end), FilterByTimeRange(b, start, end));
    } else {
      assert a + b == b;
    }
  }

  /** An empty window (`start >= end`, in particular `start == end`) keeps nothing. */
  lemma {:induction false} FilterEmptyWindow(ms: seq<Measurement>, start: int, end: int)
    requires start >= end
    ensures FilterByTimeRange(ms, start, end) == []
  {
    if ms != [] {
      FilterEmptyWindow(ms[1..], start, end);
    }
  }

  /** Readings that all lie in the window pass unchanged; so filtering twice is filtering once. */
  lemma {:induction false} FilterKeepsAll(ms: seq<Measurement>, start: int, end: int)
    requires forall i :: 0 <= i < |ms| ==> InWindow(ms[i], start, end)
    ensures FilterByTimeRange(ms, start, end) == ms
  {
    if ms != [] {
      FilterKeepsAll(ms[1..], start, end);
    }
  }

  lemma FilterIdempotent(ms: seq<Measurement>, start: int, end: int)
    ensures FilterByTimeRange(FilterByTimeRange(ms, start, end), start, end) == FilterByTimeRange(ms, start, end)
  {
    var r := FilterByTimeRange(ms, start, end);
    FilterMembers(ms, start, end);
    forall i | 0 <= i < |r| ensures InWindow(r[i], start, end) {
      assert r[i] in r;
    }
    FilterKeepsAll(r, start, end);
  }

  /** Filtering a series sorted by time leaves it sorted. */
  lemma {:induction false} FilterSorted(ms: seq<Measurement>, start: int, end: int)
    requires SortedByTimestamp(ms)
    ensures SortedByTimestamp(FilterByTimeRange(ms, start, end))
  {
    if ms != [] {
      FilterSorted(ms[1..], start, end);
      var rest := FilterByTimeRange(ms[1..], start, end);
      FilterMembers(ms[1..], start, end);
      forall i | 0 <= i < |rest| ensures ms[0].timestamp <= rest[i].timestamp {
        assert rest[i] in ms[1..];
        var j :| 0 <= j < |ms[1..]| && ms[1..][j] == rest[i];
        assert ms[j + 1] == rest[i];
      }
    }
  }

  /** `import.meta.env.VITE_API_URL || '/api'`. */
  function ApiBase(configured: Option<string>): string
  {
    if configured.Some? && configured.value != "" then configured.value else "/api"
  }

  /** `${apiUrl}/measurements?startTime=${start}`. */
  function RequestUrl(apiBase: string, start: int): string
  {
    apiBase + "/measurements?startTime=" + IntToString(start)
  }

  /** What `fetch` yields: a response with its status and its parsed
      `measurements` field (absent or null as `None`), or a rejection. */
  datatype HttpReply = Response(status: int, measurements: Option<seq<Measurement>>) | Rejected(message: string)

  /** The state `fetchData` leaves behind: the filtered readings and the series
      shown in the charts, or the error text. */
  datatype View = Shown(measurements: seq<Measurement>, displayMeasurements: seq<Measurement>) | Error(message: string)

  /** `response.ok`. */
  predicate Ok(status: int) {
    200 <= status <= 299
  }

  predicate IsMonthView(range: TimeRange) {
    range == ThisMonth || range == LastMonth
  }

  /** Everything `fetchData(range)` does after `fetch` answers `reply` for the window `w`. */
  function FetchView(range: TimeRange, w: Window, reply: HttpReply): (v: View)
    ensures v.Error? <==> reply.Rejected? || !Ok(reply.status)
    ensures v.Shown? ==> forall i :: 0 <= i < |v.measurements| ==> InWindow(v.measurements[i], w.start, w.end)
    ensures v.Shown? && !IsMonthView(range) ==> v.displayMeasurements == v.measurements
  {
    match reply
    case Rejected(message) => Error(message)
    case Response(status, body) =>
      if !Ok(status) then Error("HTTP error! status: " + IntToString(status))
      else
        var raw := FilterByTimeRange(if body.Some? then body.value else [], w.start, w.end);
        Shown(raw, if IsMonthView(range) then Aggregate(raw, 60) else raw)
  }

  /** `fetchData(range)`: the window for `range` on local date `now`, one
      request to `server` at the URL built from its start, and the view built
      from the reply. */
  function FetchData(range: TimeRange, now: Date, utcOffsetMs: int, configured: Option<string>,
                     server: string -> HttpReply): (v: View)
    requires ValidDate(now)
    ensures var w := TimeRangeParams(range, now, utcOffsetMs);
      v.Shown? ==> forall i :: 0 <= i < |v.measurements| ==> InWindow(v.measurements[i], w.start, w.end)
  {
    var w := TimeRangeParams(range, now, utcOffsetMs);
    FetchView(range, w, server(RequestUrl(ApiBase(configured), w.start)))
  }

  /** A successful reply is filtered to the window before anything else;
      `today` is shown raw, the month views as hourly means of the filtered
      readings. */
  lemma FetchShown(range: TimeRange, w: Window, status: int, body: Option<seq<Measurement>>)
    requires Ok(status)
    ensures FetchView(range, w, Response(status, body)).Shown?
    ensures FetchView(range, w, Response(status, body)).measurements ==
      FilterByTimeRange(if body.Some? then body.value else [], w.start, w.end)
    ensures var v := FetchView(range, w, Response(status, body));
      (forall m :: m in v.measurements <==> (body.Some? && m in body.value && InWindow(m, w.start, w.end))) &&
      (range == Today ==> v.displayMeasurements == v.measurements) &&
      (IsMonthView(range) ==> v.displayMeasurements == Aggregate(v.measurements, 60))
  {
    FilterMembers(if body.Some? then body.value else [], w.start, w.end);
  }

  /** A missing `measurements` field shows empty charts. */
  lemma FetchNoMeasurements(range: TimeRange, w: Window, status: int)
    requires Ok(status)
    ensures FetchView(range, w, Response(status, None)) == Shown([], [])
  {
    if IsMonthView(range) {
      AggregateEmpty(60);
    }
  }

  /** A non-2xx status replaces the charts by an error naming the status. */
  lemma FetchHttpError(range: TimeRange, w: Window, status: int, body: Option<seq<Measurement>>)
    requires !Ok(status)
    ensures FetchView(range, w, Response(status, body)).Error?
    ensures Contains(FetchView(range, w, Response(status, body)).message, IntToString(status))
  {
    ContainsMiddle("HTTP error! status: ", IntToString(status), "");
    assert "HTTP error! status: " + IntToString(status) + "" == "HTTP error! status: " + IntToString(status);
  }

  /** A reading in an hour-aligned window has its hour's midpoint inside the window. */
  lemma HourMidpointInWindow(m: Measurement, start: int, end: int)
    requires InWindow(m, start, end) && start % 3600000 == 0 && end % 3600000 == 0
    ensures start <= BucketStart(m.timestamp, 3600000) + 1800000 < end
  {
    BucketStartBounds(m.timestamp, 3600000);
    BucketStartBounds(end - 1, 3600000);
    BucketStartMonotone(start, m.timestamp, 3600000);
    BucketStartMonotone(m.timestamp, end - 1, 3600000);
    BucketStartWithin(start, 0, 3600000);
    BucketStartWithin(end - 3600000, 3600000 - 1, 3600000);
  }

  /** In the month views every displayed point sits at the middle of an hour
      and inside the selected window, when the UTC offset is a whole number of hours. */
  lemma MonthPointsInWindow(range: TimeRange, now: Date, utcOffsetMs: int, status: int,
                            body: Option<seq<Measurement>>)
    requires ValidDate(now) && IsMonthView(range) && Ok(status) && utcOffsetMs % 3600000 == 0
    ensures var w := TimeRangeParams(range, now, utcOffsetMs);
      var v := FetchView(range, w, Response(status, body));
      v.Shown? &&
      forall k :: 0 <= k < |v.displayMeasurements| ==>
        v.displayMeasurements[k].timestamp % 3600000 == 1800000 &&
        w.start <= v.displayMeasurements[k].timestamp < w.end
  {
    var w := TimeRangeParams(range, now, utcOffsetMs);
    var v := FetchView(range, w, Response(status, body));
    FetchShown(range, w, status, body);
    BoundsHourAligned(range, now, utcOffsetMs);
    assert IntervalMs(60) == 3600000;
    AggregateMidpoints(v.measurements, 60);
    forall k | 0 <= k < |v.displayMeasurements|
      ensures w.start <= v.displayMeasurements[k].timestamp < w.end
    {
      var m :| m in v.measurements && v.displayMeasurements[k].timestamp == BucketStart(m.timestamp, 3600000) + 1800000;
      HourMidpointInWindow(m, w.start, w.end);
    }
  }
}
