# simple-temperature-sender, modelled in Dafny

The system is a home temperature monitor. An ESP32 reads an SHT30 sensor every
2 s, keeps the last valid temperature and humidity pair, and publishes it to
AWS IoT every 5 minutes. In the cloud, an alert Lambda sends an SNS
notification when a reading is outside 8–40 °C. A second Lambda answers
`GET /measurements?startTime=…` from DynamoDB. A React dashboard asks that
endpoint for the selected range (today, this month, last month) and filters
the reply to the window. For the month views it averages the readings into
hourly points.

The project models these four pieces and proves what they promise:

- `aggregation.dfy` (module `Aggregation`) covers the dashboard's `aggregateData`. It is an imperative method with a `for` loop, `AggregateData`, proved equal to a specification function `Aggregate`. `Aggregate` is built from `Groups`, the maximal runs of sorted readings that share a bucket start, and `Points`. The properties of `aggregateData` are lemmas about `Aggregate`.
- `sorting.dfy` (module `Sorting`) holds the stable ascending sort by timestamp. It is proved sorted, a permutation, stable, and unique with those properties.
- `dashboard.dfy` (module `Dashboard`) holds `filterByTimeRange` and the rest of `fetchData`: the request URL, the status check, the missing-field default, filtering before aggregating, and hourly aggregation only for the month views.
- `calendar.dfy` (module `Calendar`) holds `getTimeRangeParams` over proleptic Gregorian civil dates. Local midnight becomes epoch milliseconds through a fixed UTC offset.
- `alerts.dfy` (module `Alerts`) holds the alert handler:
  - classification against 8 and 40;
  - the subject and message templates, with `toFixed(1)` and `.trim()` modelled in `text.dfy`;
  - an SNS topic as a class that delivers or fails;
  - the handler method, which publishes at most once and re-throws a delivery failure.
- `measurements_api.dfy` (module `MeasurementsApi`) holds the query handler as a pure function. Its inputs are the environment, the start of today and the store. It covers the OPTIONS short-circuit, the `startTime` default, JavaScript's `parseInt`, the key condition, the ascending order, and the 200 and 500 replies.
- `sht30.dfy` (module `Sht30`) holds the firmware's sensor scheduler. `Sht30Handler` is a class with the four module-level variables as fields. `Update` is `updateSHT30Data`, and the constructor `Init` is the static initial values plus `initSHT30`. A ghost log records every published pair. Millisecond times are 32-bit unsigned, and subtraction wraps modulo 2^32.
- `pipeline.dfy` (module `Pipeline`) joins the dashboard to the query handler. `Api` routes the URL the dashboard builds to the handler as its `startTime` parameter. The dashboard then stores exactly the configured device's stored readings that lie in the window, in ascending order, as `fetchData` computes it. The `today` chart shows that series; the month-view charts show its hourly aggregate.
- `common.dfy` and `text.dfy` hold the shared parts:
  - the `Measurement` record and `Option`;
  - a thrown value, as `Failure`;
  - decimal rendering and parsing of integers;
  - `toFixed(1)`, substring containment, concatenation and trimming.

Where the code and its descriptions differ, the model follows the code:

- `Math.round` rounds halves toward +∞, so `Round2(x)` is `floor(100x + 1/2) / 100`. It does not round halves away from zero.
- `toFixed(1)` rounds the absolute value with halves up, then puts the sign in front.
- A reading exactly at 8 or 40 °C sends no alert.
- A `startTime` that `parseInt` cannot read, or one beyond ±8.64e15 ms, ends in a 500 "Invalid time value". `new Date(startTime).toISOString()` throws inside the handler's `try`.
- An out-of-range reading whose timestamp cannot be rendered makes the alert handler throw before publishing.
- After start-up, the first due publish sends the static initial pair 0 °C / 0 % if no valid reading has been taken yet (`Sht30.PlaceholderPublished`).

## Model

| member | source | states |
|---|---|---|
| Aggregation.AggregateData | frontend/src/App.tsx:25-75 | The loop over the sorted copy, extending the open bucket or closing it into a point, returns exactly `Aggregate`: one point per maximal run of sorted readings that share a bucket start, and `[]` for empty input. |
| Aggregation.Aggregate | frontend/src/App.tsx:25-75 | No contract of its own: the value `aggregateData` returns, `[]` for no readings and otherwise one point per bucket of the stably sorted readings. What it means is stated by the `Aggregate…` lemmas below, and `AggregateData` is proved to compute it. |
| Aggregation.BucketStart | frontend/src/App.tsx:35-38 | No contract of its own: `Math.floor(ts / intervalMs) * intervalMs`. Its bounds and monotonicity are `BucketStartBounds` and `BucketStartMonotone`. |
| Aggregation.BucketStartBounds | frontend/src/App.tsx:35-38 | A bucket start is a multiple of the interval, and the timestamp lies in `[start, start + intervalMs)`. |
| Aggregation.BucketStartMonotone | frontend/src/App.tsx:35-38 | A later timestamp never has an earlier bucket start. |
| Aggregation.AggregateEmpty | frontend/src/App.tsx:26 | Empty input gives an empty series. |
| Aggregation.AggregateMidpoints | frontend/src/App.tsx:35-49 | Every point's timestamp is `b + intervalMs/2` for a bucket start `b` that is a multiple of `intervalMs` and is the bucket of some input reading. |
| Aggregation.AggregateIncreasing | frontend/src/App.tsx:32-58 | Point timestamps strictly increase. |
| Aggregation.AggregateCovers | frontend/src/App.tsx:37-72 | Every input reading's bucket midpoint is the timestamp of some point. |
| Aggregation.AggregateExactlyOne | frontend/src/App.tsx:37-72 | Every input reading falls into exactly one emitted point. |
| Aggregation.AggregateCount | frontend/src/App.tsx:37-72 | The number of points is the number of distinct buckets among the readings. It is at most the number of readings, and at least one for non-empty input. |
| Aggregation.AggregateBucketSizes | frontend/src/App.tsx:37-72 | The readings behind the points, counted per bucket, add up to the number of input readings. |
| Aggregation.AggregateValues | frontend/src/App.tsx:45-52 | Each point's temperature and humidity are `Round2` of the means over all input readings in its bucket. Its device is that of the bucket's first reading after the stable sort. |
| Aggregation.AggregateTimestamps | frontend/src/App.tsx:35-72 | The point timestamps are exactly the distinct bucket midpoints of the readings, in increasing order. |
| Aggregation.AggregateOrderIndependent | frontend/src/App.tsx:32 | Two inputs holding the same readings in any order give points with the same timestamps, temperatures and humidities. |
| Aggregation.AggregateIdempotent | frontend/src/App.tsx:25-75 | Aggregating an aggregated series again returns it unchanged. |
| Aggregation.Round2Idempotent | frontend/src/App.tsx:50 | Rounding to two decimals is idempotent. |
| Aggregation.Round2 | frontend/src/App.tsx:50-51 | `Math.round(x * 100) / 100` is a whole number of hundredths in `(x - 0.005, x + 0.005]`. That is the one hundredth nearest `x`, with a half going up. |
| Sorting.Sort | frontend/src/App.tsx:32 | The sorted copy is in ascending timestamp order and is a permutation of the input. |
| Sorting.SortStable | frontend/src/App.tsx:32 | Readings with equal timestamps keep their input order. |
| Sorting.SortUnique | frontend/src/App.tsx:32 | Any ascending, order-keeping permutation of the input is the sort's result. |
| Sorting.SortSortedIdentity | frontend/src/App.tsx:32 | Sorting an ascending series changes nothing. |
| Dashboard.FilterByTimeRange | frontend/src/App.tsx:107-109 | The filtered series is no longer than the input, and every reading in it lies in `[start, end)`. |
| Dashboard.FilterCount | frontend/src/App.tsx:107-109 | The filter keeps a reading, as often as it occurs, exactly when `start <= timestamp < end`. |
| Dashboard.FilterMembers | frontend/src/App.tsx:107-109 | A reading is in the result exactly when it is in the input and in the window. |
| Dashboard.FilterAppend | frontend/src/App.tsx:107-109 | Filtering distributes over concatenation, so the original order is kept. |
| Dashboard.FilterEmptyWindow | frontend/src/App.tsx:107-109 | A window with `start >= end`, such as `start == end`, keeps nothing. |
| Dashboard.FilterIdempotent | frontend/src/App.tsx:107-109 | Filtering twice is filtering once. |
| Dashboard.FilterSorted | frontend/src/App.tsx:107-109 | Filtering an ascending series leaves it ascending. |
| Dashboard.FetchView | frontend/src/App.tsx:121-144 | The view is an error exactly when `fetch` rejects or the status is not 2xx. A shown view holds only readings in the window, and outside the month views the chart series is the stored series. |
| Dashboard.FetchData | frontend/src/App.tsx:111-144 | `fetchData(range)` for the window of `range` on `now`: every stored reading of a shown view lies in that window. |
| Dashboard.FetchShown | frontend/src/App.tsx:129-144 | After a 2xx reply the stored readings are exactly the body's readings in the window. `today` shows them raw; the month views show `Aggregate` of the filtered readings with 60 minutes. |
| Dashboard.FetchNoMeasurements | frontend/src/App.tsx:130 | A reply without `measurements` shows empty charts. |
| Dashboard.FetchHttpError | frontend/src/App.tsx:125-127 | A non-2xx status gives an error whose message contains the status. |
| Dashboard.HourMidpointInWindow | frontend/src/App.tsx:133-141 | In an hour-aligned window, a reading's hour midpoint lies inside the window. |
| Dashboard.MonthPointsInWindow | frontend/src/App.tsx:133-142 | In the month views, with a whole-hour UTC offset, every displayed point is at an hour's middle and inside the selected window. |
| Calendar.TimeRangeParams | frontend/src/App.tsx:77-105 | No contract of its own: the `[start, end)` window of each range as epoch milliseconds of local midnights. Its spans and bounds are stated by the `…Span`, `RangeNonEmpty` and `BoundsHourAligned` lemmas. |
| Calendar.NextDayNumber | frontend/src/App.tsx:84-85 | `setDate(getDate() + 1)` gives a valid date exactly one day later, across month and year ends. |
| Calendar.MonthSpan | frontend/src/App.tsx:92-94 | The first of the next month, with December rolling into January, is the month's length after the first of this month. |
| Calendar.PrevMonthThenNext | frontend/src/App.tsx:99-102 | The month after the previous month starts on the first of this month. |
| Calendar.TodaySpan | frontend/src/App.tsx:81-89 | `today` starts at local midnight of `now` and spans 86 400 000 ms. |
| Calendar.ThisMonthSpan | frontend/src/App.tsx:91-96 | `thisMonth` runs from the first of this month to the first of the next, with December rolling over, and spans the month's length. |
| Calendar.LastMonthSpan | frontend/src/App.tsx:98-103 | `lastMonth` starts on the first of the previous month, with January rolling back, spans that month's length, and ends exactly where `thisMonth` starts. |
| Calendar.RangeNonEmpty | frontend/src/App.tsx:77-105 | Every range has `start < end`. `now`'s midnight lies inside `today` and `thisMonth`. |
| Calendar.BoundsHourAligned | frontend/src/App.tsx:77-105 | With a whole-hour UTC offset, every bound is a multiple of one hour. |
| Pipeline.HandlerSeesWindowStart | frontend/src/App.tsx:121-123 | The handler's `startTime` is exactly the window start the dashboard wrote into the URL. |
| Pipeline.DashboardShowsWindow | frontend/src/App.tsx:116-135 | End to end, the readings the dashboard stores (its `measurements` state, behind the count and the latest value) are exactly the configured device's stored readings in the window. Each appears as often as it is stored, in ascending order. The month-view charts show `Aggregate` of this series, as `FetchShown` states. |
| Pipeline.ApiRoutesRequest | frontend/src/App.tsx:119-123 | The URL `${apiUrl}/measurements?startTime=${start}` reaches the handler as the `GET` request whose `startTime` parameter is `String(start)`. |
| Pipeline.FetchDataShowsWindow | frontend/src/App.tsx:111-144 | End to end over `fetchData` itself, with the API at the configured or default base URL: the stored series is ascending, and each reading appears exactly as often as it is stored when it is the configured device's and lies in the window, and otherwise not at all. |
| Text.ParseIntRoundTrip | cdk/lambda/getMeasurements.ts:41-42 | `parseInt(String(n))` is `n` for every integer with fewer than 22 digits. |
| Text.Fixed1RoundTrip | cdk/lambda/checkTemperatureAlerts.ts:29 | `toFixed(1)` renders a number that reads back as a one-decimal value within 0.05 of it. |
| Text.ParseInt | cdk/lambda/getMeasurements.ts:42 | No contract of its own: `parseInt(s)` without a radix, `None` for NaN. What it reads is stated by `ParseIntRoundTrip` and `StartTimeDefault`. |
| Text.Fixed1 | cdk/lambda/checkTemperatureAlerts.ts:29-30 | No contract of its own: `x.toFixed(1)`. `Fixed1RoundTrip` states that it reads back within 0.05 of `x`. |
| Text.Trim | cdk/lambda/checkTemperatureAlerts.ts:36 | `.trim()` gives a string no longer than its input that neither starts nor ends with white space, and an all-blank string trims to `""`. `TrimPadded` states which string it is. |
| Text.TrimPadded | cdk/lambda/checkTemperatureAlerts.ts:24-36 | Trimming text that starts and ends with visible characters, inside blank padding on both sides, gives back exactly that text. |
| Alerts.ClassifyIff | cdk/lambda/checkTemperatureAlerts.ts:22-23 | An alert is raised exactly when the temperature is below 8 or above 40. It is `MATALA` exactly below 8 and `KORKEA` exactly above 40. |
| Alerts.Classify | cdk/lambda/checkTemperatureAlerts.ts:22-23 | No contract of its own: the alert type of a temperature, or none inside the band. `ClassifyIff` states when each is chosen. |
| Alerts.Subject | cdk/lambda/checkTemperatureAlerts.ts:38 | No contract of its own: the subject template literal. `SubjectContents` states what it contains. |
| Alerts.Message | cdk/lambda/checkTemperatureAlerts.ts:24-36 | No contract of its own: the trimmed message template literal. `MessageTrimmed` and `MessageContents` state what it is and holds. |
| Alerts.Evaluate | cdk/lambda/checkTemperatureAlerts.ts:19-38 | No contract of its own: what the handler decides for a reading before publishing. `EvaluatePublishes` states when it publishes, throws or does nothing. |
| Alerts.SubjectContents | cdk/lambda/checkTemperatureAlerts.ts:38 | The subject contains the temperature to one decimal and the alert type. |
| Alerts.MessageTrimmed | cdk/lambda/checkTemperatureAlerts.ts:24-36 | `.trim()` removes exactly the template's leading line break and trailing padding. |
| Alerts.MessageContents | cdk/lambda/checkTemperatureAlerts.ts:24-36 | The message contains the alert type, the device, the temperature and humidity to one decimal, the ISO time, and `Alaraja: 8°C` and `Yläraja: 40°C`. |
| Alerts.EvaluatePublishes | cdk/lambda/checkTemperatureAlerts.ts:19-57 | Only readings outside [8, 40] are published. Every such reading with a representable time is published, with that reading's subject and message. One whose time is beyond ±8.64e15 ms throws the `RangeError` "Invalid time value" instead. Readings in [8, 40] do nothing. |
| Alerts.Topic.Publish | cdk/lambda/checkTemperatureAlerts.ts:42-49 | One publish attempt: it is delivered when the topic is reachable; otherwise it fails with the topic's failure and delivers nothing. |
| Alerts.Handler | cdk/lambda/checkTemperatureAlerts.ts:16-58 | An in-range reading makes no attempt. An unrenderable time throws without an attempt. Otherwise there is exactly one attempt, and its failure is re-thrown unchanged. |
| MeasurementsApi.ConfiguredNames | cdk/lambda/getMeasurements.ts:8-9 | The table and device fall back to their defaults when unset or empty. |
| MeasurementsApi.OptionsShortCircuit | cdk/lambda/getMeasurements.ts:31-37 | OPTIONS gives 200 with the CORS headers and an empty body, whatever the store holds. |
| MeasurementsApi.StartTimeDefault | cdk/lambda/getMeasurements.ts:41-43 | A missing or empty `startTime` means the start of today. A `startTime` written as `String(n)` is read as `n`. |
| MeasurementsApi.MatchingCount | cdk/lambda/getMeasurements.ts:48-57 | The key condition keeps a stored reading, as often as stored, exactly when its device matches and `timestamp >= startTime`. |
| MeasurementsApi.FoundReadings | cdk/lambda/getMeasurements.ts:48-75 | A successful reply is 200 with exactly the matching readings, in ascending order. `count` is their number, and `startTime` and the device are echoed. |
| MeasurementsApi.MissingItems | cdk/lambda/getMeasurements.ts:62 | A reply without `Items` is 200 with no readings and count 0. |
| MeasurementsApi.FailuresAre500 | cdk/lambda/getMeasurements.ts:76-86 | The status is 500 exactly when the store fails or the start time is unusable. A 500 carries `Internal server error` and the thrown message. |
| MeasurementsApi.StartTime | cdk/lambda/getMeasurements.ts:41-43 | No contract of its own: `parseInt` of a present, non-empty `startTime`, else the start of today. `StartTimeDefault` states both cases. |
| MeasurementsApi.Query | cdk/lambda/getMeasurements.ts:48-62 | Items the store returns are in ascending timestamp order (`ScanIndexForward: true`), and the query raises exactly when the store fails. |
| MeasurementsApi.Handle | cdk/lambda/getMeasurements.ts:18-87 | The status is always 200 or 500, and it is 200 exactly when the body is the empty OPTIONS body or the found readings. |
| Sht30.ElapsedForward | src/sht30_handler.cpp:56 | `currentTime - lastReadTime` in `unsigned long` is the forward distance modulo 2^32. It equals the plain difference when the clock has not wrapped. |
| Sht30.AfterRead | src/sht30_handler.cpp:56-94 | No contract of its own: the read half of `updateSHT30Data`. `ReadIff` and `KeepsLastValid` state what it changes. |
| Sht30.Step | src/sht30_handler.cpp:52-108 | No contract of its own: one call of `updateSHT30Data` as a value. `ReadIff`, `KeepsLastValid`, `PublishIff` and `PublishesKeptPair` state its effect, and `Sht30Handler.Update` is proved to perform it. |
| Sht30.ReadIff | src/sht30_handler.cpp:56-58 | A read happens exactly when 2000 ms have elapsed, and then the read timer restarts at the current time. |
| Sht30.KeepsLastValid | src/sht30_handler.cpp:64-93 | The kept pair changes only on a due read whose two samples are numbers. Otherwise the previous pair stays. |
| Sht30.PublishIff | src/sht30_handler.cpp:97-104 | A publish happens exactly when 300000 ms have elapsed, and then the publish timer restarts at the current time. |
| Sht30.PublishesKeptPair | src/sht30_handler.cpp:64-105 | The published pair is the kept pair after the read. A valid reading taken in the same call is the one published. |
| Sht30.QuietStep | src/sht30_handler.cpp:52-108 | When neither interval has elapsed, nothing changes and nothing is published. |
| Sht30.SameInstantQuiet | src/sht30_handler.cpp:52-108 | A second call at the same instant does nothing. |
| Sht30.StartUp | src/sht30_handler.cpp:14-49 | From the initial state, the first publish is due once `millis()` reaches 300000. The first read is due 2000 ms after `initSHT30`. |
| Sht30.PlaceholderPublished | src/sht30_handler.cpp:22-23 | Before any valid read, a due publish sends the initial 0 °C / 0 %. |
| Sht30.Sht30Handler.Init | src/sht30_handler.cpp:14-49 | The initial state: `lastReadTime` is the `millis()` of `initSHT30`, `lastPublishTime` is 0, the kept pair is 0/0, and nothing has been published. |
| Sht30.Sht30Handler.Update | src/sht30_handler.cpp:52-108 | One call moves the fields to `Step`'s next state. It appends to the publish log exactly the pair `Step` publishes. |

## Left out

- Floating point is modelled as reals. There is no binary rounding in `Math.round(x*100)/100`, a mean or `toFixed`.
- NaN readings are not modelled on the cloud side: a NaN temperature compares false both ways and sends no alert there. On the firmware side NaN is the `NaN` sample.
- Fixed1 renders `toFixed(1)` only for `|x| < 1e21`. Beyond that JavaScript switches to exponent notation.
- Time zones are fixed offsets. Local midnight is a civil date's day number times 86 400 000 ms minus the offset, so daylight-saving transitions are not modelled. `getStartOfToday` and "now" are inputs.
- `new Date(timestamp).toISOString()` for the alert text is an input string. Only its `RangeError` for times beyond ±8.64e15 ms is modelled.
- React state, hooks, the loading flag, the 5-minute refresh, `console` logging and the charts are outside the model.
- `fetch` is a function from URL to reply. A rejected fetch carries its error's message. The non-`Error` fallback text and an unparsable JSON body are not modelled.
- DynamoDB is a sequence of items filtered by the key condition and returned in ascending order, in one page. Pagination (`LastEvaluatedKey`) and the effect of `TABLE_NAME` on which table is read are not modelled: `TableName` is computed but the store is given.
- MeasurementsApi.FoundReadings: "exactly the matching readings" holds only when the query's reply fits in one 1 MB DynamoDB page; a longer reply is cut at `LastEvaluatedKey`, which the handler ignores.
- Pipeline.DashboardShowsWindow: like `FoundReadings`, it assumes the reply fits in one page; a month view with readings every few minutes can approach that limit. The same holds for `Pipeline.FetchDataShowsWindow`.
- Text.ParseIntRoundTrip: `IntToString` is JavaScript's `String(n)` only for `|n| < 1e21`; beyond that `String` uses exponent notation, and `parseInt` of `"1e+21"` is 1. Every integer the program renders is far below that: window bounds within ±8.64e15, HTTP statuses, and the limits 8 and 40.
- Pipeline.Api: API Gateway routing is reduced to the one path the dashboard requests; any other URL is answered 404 without a body.
- SNS is a topic object that either delivers or fails with a given error. The topic ARN and the client are not modelled.
- GPIO, beeps, LEDs, the serial log, `isSwitchOn` and the MQTT publish are outside the model. The publish is recorded in a ghost log.
- initSHT30's failure path blinks forever and never returns, so it is not modelled; `Init` models the successful start.
- AggregateOrderIndependent: does not cover `device_id`, which is taken from a bucket's first reading and so depends on input order among equal timestamps (`AggregateValues` states which reading it is).
- Alerts.Handler: the `console.log` of the reading and the alert are left out.
