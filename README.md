# Next buses at the nearest stops — a Dafny model of busStop.js

busStop.js looks up a postcode, asks the TfL StopPoint API for the bus stops
within `SEARCH_RADIUS` (500 m) of it, keeps the two nearest, and for each of
them logs the next `NUM_BUSES` (5) arrivals as `{ lineName, destinationName,
timeToStation }`, with the countdown written as `"<m> min: <s>s"`. This project
models the logic in that chain: the arrival selection and formatting of
`logNextNBuses`, the nearest-stop selection step, and the two URL builders. It
proves what that code promises about them.

Modules (one concept each, in dependency order):

- `Options` (options.dfy): the optional result of a parser.
- `Text` (text.dfy): `Span`, the longest prefix of characters satisfying a
  predicate, and `StripPrefix`. The parsers are built from these two.
- `Decimal` (decimal.dfy): the plain decimal text a template literal `${x}`
  writes for an integral Number of magnitude below 10^21, and a parser that
  reads it back.
- `TimeFormat` (time_format.dfy): `Math.floor(t / 60)`, JavaScript's truncating
  `%`, the countdown text, and a parser that reads it back.
- `Urls` (urls.dfy): `getStopArrivalsAPI` and `getStopsInAreaAPI`, with parsers
  that recover their arguments.
- `Sorting` (sorting.dfy): `Array.prototype.sort` with a numeric key comparator,
  as an in-place insertion sort on an `array`, plus the selection lemmas.
- `BusStop` (bus_stop.dfy): the records, the comparators' keys, the
  `logNextNBuses` method, the stop-selection method, and the two places the
  request chain uses `NUM_BUSES` and `SEARCH_RADIUS`.

How the source's form is kept:

- `logNextNBuses` sorts the caller's array in place. `LogNextNBuses` does the
  same to an `array<Arrival>`.
- `slice(0, n)` keeps a fresh prefix. It follows JavaScript's rule for a
  negative `n`.
- `map` builds fresh projected records, held in a fresh `array<Record>`.
- The `forEach` loop (`WriteOutTimes`) overwrites each record's `timeToStation`
  with its text, then logs the record.
- The sequence of logged records is returned instead of being printed.
- The stop-selection step sorts its array in place the same way. It returns
  the `naptanId`s of the first two stop points.

## Model

| member | source | states |
|---|---|---|
| BusStop.LogNextNBuses | busStop.js:16-30 | `buses` is left sorted by timeToStation and is a permutation of what it held. Exactly `slice(0, n)`'s count of records is logged (min(n, length) for n ≥ 0). Record i holds the line name and destination of the i-th soonest arrival and the text of its countdown. Every logged arrival is due no later than every arrival left out. |
| BusStop.WriteOutTimes | busStop.js:25-29 | Each projected record's numeric timeToStation is replaced by its text and nothing else in it changes. The log is the rewritten records, in order. |
| BusStop.NearestStops | busStop.js:44-49 | `stopPoints` is left sorted by distance and is a permutation of what it held. At most 2 ids are returned, exactly min(2, length). Id i is the naptanId of the i-th nearest stop point. Every returned stop is no farther than every stop point left out. |
| BusStop.SliceEnd | busStop.js:19 | The count `slice(0, end)` keeps never exceeds the length. For end ≥ 0 it is min(end, length). A negative end counts back from the end, down to 0. |
| BusStop.TimeKeyMatchesComparator | busStop.js:18 | Ordering arrivals by their key is what the comparator `a.timeToStation - b.timeToStation` asks for: one goes no later than the other exactly when the comparator is not positive, and they tie exactly when it is zero. |
| BusStop.DistanceKeyMatchesComparator | busStop.js:46 | The same for stop points and `a.distance - b.distance`. |
| BusStop.ProjectionKeepsNamedFields | busStop.js:20-24 | The `map` keeps the three destructured fields and nothing else: two arrivals project to the same record exactly when they agree on lineName, destinationName and timeToStation. |
| BusStop.LoggedIsRewrittenProjection | busStop.js:20-28 | The `map` followed by the `forEach` rewrite gives the record logged for an arrival: the same line and destination, and a countdown text that reads back as timeToStation when the countdown is not negative. |
| BusStop.LogStopArrivals | busStop.js:53 | `logNextNBuses(json, NUM_BUSES)`: the arrivals are left sorted and a permutation of what they were, min(5, length) records are logged, the soonest first, and no arrival left out is due sooner than one logged. |
| BusStop.NearbyStopsUrl | busStop.js:36-40 | `getStopsInAreaAPI(latitude, longitude, SEARCH_RADIUS)`: for coordinate texts without '&', the URL reads back as the coordinates and a radius of 500. |
| BusStop.LoggedTimesIgnoreTies | busStop.js:18-28 | Any two sorted arrangements of the same arrivals log the same number of records with the same countdown text at every position, so how ties are ordered never changes the times logged. |
| Sorting.SortBy | busStop.js:18 | Sorting in place by a numeric key leaves the array in ascending key order and a permutation (same multiset) of its old contents. |
| Sorting.SortedPrefixIsSmallest | busStop.js:18-19 | A sorted sequence cut at k splits its multiset into the first k and the rest. Every key in the first part is ≤ every key in the rest. |
| Sorting.SelectionIsSmallest | busStop.js:45-47 | After sorting a permutation of the input, each of the first k elements has a key ≤ that of every input element not among them, so the kept elements are the k smallest. |
| Sorting.SortedPermutationsAgreeOnKeys | busStop.js:18 | Two sorted arrangements of the same elements have equal length and equal keys position by position. It holds for any key, so for the arrivals sort here and equally for the stop-point sort at line 46. |
| TimeFormat.Minutes | busStop.js:26-27 | `Math.floor(t / 60)`: the result m is the whole number of minutes rounded down, m·60 ≤ t < m·60 + 60, for every integer t, negative ones included. |
| TimeFormat.Seconds | busStop.js:28 | `Math.floor(t % 60)` with JavaScript's `%`: the result lies strictly between -60 and 60, takes the sign of t, and differs from t by a multiple of 60. These fix it uniquely. |
| TimeFormat.MinutesSecondsSplit | busStop.js:26-28 | For t ≥ 0 the minutes are ≥ 0, the seconds lie in [0, 60), and minutes·60 + seconds = t. |
| TimeFormat.ParseFormatTime | busStop.js:26-28 | For t ≥ 0 the countdown text `FormatTime(t)` reads back as t. |
| TimeFormat.FormatParsedTime | busStop.js:26-28 | Every text the countdown parser accepts is the countdown text of the value it reads, which is ≥ 0. With ParseFormatTime, the format is a bijection on non-negative times. |
| TimeFormat.FormatTimeExample | busStop.js:26-28 | 125 seconds is written "2 min: 5s". |
| TimeFormat.FormatZeroTimeExample | busStop.js:26-28 | A bus due now (0 seconds) is written "0 min: 0s". |
| TimeFormat.FormatNegativeTimeExample | busStop.js:26-28 | A negative countdown keeps JavaScript's mixed rounding: -5 is written "-1 min: -5s". |
| Decimal.NatToStringDenotes | busStop.js:26-28 | The text of a non-negative integer is a canonical digit string (non-empty, no leading zero) that denotes that integer. |
| Decimal.NatToStringOfValue | busStop.js:26-28 | Writing out the value of a canonical digit string gives that string back. |
| Decimal.ParseIntIff | busStop.js:14 | A string parses to i if and only if it is `IntToString(i)`, the text `${i}` writes for i (the radius here, the countdown parts at lines 26-28), so that text is unambiguous. |
| Urls.StopArrivalsUrl | busStop.js:10-11 | getStopArrivalsAPI: the stop identifier is read back from the URL built for it. |
| Urls.StopArrivalsUrlIff | busStop.js:10-11 | Stripping the fixed prefix and "/Arrivals" from a URL yields stopID exactly when the URL is the arrivals URL of stopID, so the builder is injective. |
| Urls.StopsInAreaUrl | busStop.js:13-14 | getStopsInAreaAPI: for coordinate texts without '&', latitude, longitude and radius are read back from the URL built for them. |
| Urls.BuiltFromParsedStopsInAreaUrl | busStop.js:13-14 | Every URL the stops-in-area parser accepts is the URL built from what it read, and the coordinates it read contain no '&'. |

## Left out

- The fetch chain (busStop.js:32-59) is not modelled: the postcode lookup, the stops-in-area request, the arrival requests, and the JSON decoding of their bodies. These are network I/O through `node-fetch`. The model's methods take the decoded arrays as parameters.
- The `.then(fetch(...))` at busStop.js:54-55 makes the two arrival requests run concurrently, so the two stops' blocks of records may be logged in either order. Each call of `logNextNBuses` runs to completion in one promise reaction, so one stop's records are never interleaved with the other's. Concurrency is not modelled.
- `console.log` is not modelled as printing. The logged records are returned as a sequence, in the order they would be logged.
- Floating point is not modelled. Distances are `real`, and comparing them is exact, which matches the `a.distance - b.distance` comparator for finite distances. NaN is not represented. `timeToStation` is an integer number of seconds.
- Latitude and longitude are JavaScript Numbers. `StopsInAreaUrl` takes the text JavaScript writes for them; the model does not fix that text beyond its having no '&'.
- The unchecked `stops[0]` / `stops[1]` at busStop.js:51 and 55 belong to the fetch chain. `NearestStops` returns fewer than two ids when fewer stop points are given.
- The postcode and stop constants at busStop.js:1-4 only feed the network calls.
- Decimal.IntToString: writes every digit of any integer. JavaScript writes integral Numbers of magnitude 10^21 or more with an exponent (`${1e21}` is "1e+21") and holds integers above 2^53 only approximately, so the model agrees with `${x}` only below those bounds. The countdown minutes and seconds and the radius of 500 are far below them.
- Sorting.SortBy: the contract promises ascending order and permutation, not stability. The insertion sort used only swaps strictly out-of-order neighbours, so ties in fact keep their order, as `Array.prototype.sort` does. LoggedTimesIgnoreTies shows the logged times do not depend on it.
- The projected records are JavaScript objects. Here they are values in a fresh array, and their object identity is not modelled. That the input arrivals are never rewritten shows in `LogNextNBuses` being allowed to modify only `buses`, and in `buses` keeping the same multiset of arrivals.
