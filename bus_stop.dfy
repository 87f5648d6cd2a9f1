/** busStop.js: choosing and writing out the next buses at a stop, and
    choosing the nearest stops. */
module BusStop {
  import opened Options
  import opened Sorting
  import opened TimeFormat
  import opened Urls

  /** NUM_BUSES: how many arrivals are logged per stop. */
  const NumBuses := 5
  /** SEARCH_RADIUS: the radius, in metres, of the stops-in-area query. */
  const SearchRadius := 500
  /** How many of the nearest stop points are kept (the `slice(0, 2)`). */
  const NearestStopCount := 2

  /** One record of the TfL arrivals response. The fields logNextNBuses reads
      are named; the others are carried along untouched. */
  datatype Arrival = Arrival(
    lineName: string,
    destinationName: string,
    timeToStation: int,
    otherFields: map<string, string>)

  /** The `timeToStation` of a projected record: a number of seconds when the
      record is built, overwritten by its text before it is logged. */
  datatype TimeField = Numeric(seconds: int) | Written(text: string)

  /** The fresh object built by the `map` projection: these three fields and
      no others. */
  datatype Record = Record(lineName: string, destinationName: string, timeToStation: TimeField)

  /** One stop point of the stops-in-area response. */
  datatype StopPoint = StopPoint(naptanId: string, distance: real, otherFields: map<string, string>)

  /** The sort key of `(a, b) => a.timeToStation - b.timeToStation`. */
  function TimeKey(a: Arrival): real { a.timeToStation as real }

  /** The sort key of `(a, b) => a.distance - b.distance`. */
  function DistanceKey(p: StopPoint): real { p.distance }

  /** Bridges the key to the comparator's sign convention: `a` goes no later
      than `b` by TimeKey exactly when the comparator is not positive, and
      they tie exactly when it is zero. Over exact integers this is all there
      is to it; the floating-point side is not modelled. */
  lemma TimeKeyMatchesComparator(a: Arrival, b: Arrival)
    ensures TimeKey(a) <= TimeKey(b) <==> a.timeToStation - b.timeToStation <= 0
    ensures TimeKey(a) == TimeKey(b) <==> a.timeToStation - b.timeToStation == 0
  {
  }

  /** Bridges the key to the comparator's sign convention for stop points.
      Distances are exact reals here, so this does not speak to the rounding
      of an IEEE subtraction. */
  lemma DistanceKeyMatchesComparator(p: StopPoint, q: StopPoint)
    ensures DistanceKey(p) <= DistanceKey(q) <==> p.distance - q.distance <= 0.0
    ensures DistanceKey(p) == DistanceKey(q) <==> p.distance - q.distance == 0.0
  {
  }

  /** How many elements `slice(0, end)` keeps from an array of length `len`:
      a negative `end` counts back from the end of the array. */
  function SliceEnd(len: nat, end: int): (k: nat)
    ensures k <= len
    ensures end >= 0 ==> k <= end && (k < end ==> k == len)
    ensures end < 0 ==> (k == 0 && len <= -end) || k + (-end) == len
  {
    if end < 0 then (if len + end > 0 then len + end else 0)
    else if end < len then end
    else len
  }

  /** The object the `map` callback builds from an arrival. */
  function Projected(a: Arrival): Record
  {
    Record(a.lineName, a.destinationName, Numeric(a.timeToStation))
  }

  /** The projection keeps the three destructured fields and nothing else:
      two arrivals project alike exactly when they agree on those three. */
  lemma ProjectionKeepsNamedFields(a: Arrival, b: Arrival)
    ensures Projected(a) == Projected(b) <==>
              a.lineName == b.lineName && a.destinationName == b.destinationName
              && a.timeToStation == b.timeToStation
  {
  }

  /** The record logged for an arrival: its names and the text of its
      countdown. */
  function Logged(a: Arrival): Record
  {
    Record(a.lineName, a.destinationName, Written(FormatTime(a.timeToStation)))
  }

  /** The `map` projection followed by the `forEach` rewrite yields the
      logged record: its line and destination, and a countdown text that
      reads back as the countdown when the countdown is not negative. */
  lemma LoggedIsRewrittenProjection(a: Arrival)
    ensures Projected(a).timeToStation.Numeric?
    ensures Rewritten(Projected(a)) == Logged(a)
    ensures Logged(a).lineName == a.lineName && Logged(a).destinationName == a.destinationName
    ensures Logged(a).timeToStation.Written?
    ensures a.timeToStation >= 0 ==> ParseTime(Logged(a).timeToStation.text) == Some(a.timeToStation)
  {
    if a.timeToStation >= 0 {
      ParseFormatTime(a.timeToStation);
    }
  }

  /** logNextNBuses(buses, n). Sorts `buses` in place by timeToStation, keeps
      the first `n`, projects each onto a fresh record, rewrites the record's
      time as text and logs it; the returned sequence is what is logged. */
  method LogNextNBuses(buses: array<Arrival>, n: int) returns (log: seq<Record>)
    modifies buses
    ensures multiset(buses[..]) == old(multiset(buses[..]))
    ensures SortedBy(buses[..], TimeKey)
    ensures |log| == SliceEnd(buses.Length, n)
    ensures forall i :: 0 <= i < |log| ==> log[i] == Logged(buses[i])
    ensures forall i, y :: 0 <= i < |log| && y in multiset(old(buses[..])) - multiset(buses[..|log|])
              ==> buses[i].timeToStation <= y.timeToStation
  {
    ghost var before := buses[..];
    SortBy(buses, TimeKey);
    var kept := buses[..SliceEnd(buses.Length, n)];
    SelectionIsSmallest(before, buses[..], TimeKey, |kept|);
    var records := new Record[|kept|](i requires 0 <= i < |kept| => Projected(kept[i]));
    log := WriteOutTimes(records);
  }

  /** `.then((json) => logNextNBuses(json, NUM_BUSES))`: the arrivals of one
      stop, of which at most NUM_BUSES are logged, the soonest first. */
  method LogStopArrivals(buses: array<Arrival>) returns (log: seq<Record>)
    modifies buses
    ensures multiset(buses[..]) == old(multiset(buses[..]))
    ensures SortedBy(buses[..], TimeKey)
    ensures |log| == if buses.Length < NumBuses then buses.Length else NumBuses
    ensures forall i :: 0 <= i < |log| ==> log[i] == Logged(buses[i])
    ensures forall i, y :: 0 <= i < |log| && y in multiset(old(buses[..])) - multiset(buses[..|log|])
              ==> buses[i].timeToStation <= y.timeToStation
  {
    log := LogNextNBuses(buses, NumBuses);
  }

  /** `getStopsInAreaAPI(latitude, longitude, SEARCH_RADIUS)`: the query for
      the stops near a postcode, which asks for the 500 m radius. */
  function NearbyStopsUrl(lat: string, lon: string): (url: string)
    ensures NoAmpersand(lat) && NoAmpersand(lon) ==> ParseStopsInAreaUrl(url) == Some((lat, lon, 500))
  {
    StopsInAreaUrl(lat, lon, SearchRadius)
  }

  /** A projected record after `element["timeToStation"] = ...`. */
  function Rewritten(r: Record): Record
    requires r.timeToStation.Numeric?
  {
    r.(timeToStation := Written(FormatTime(r.timeToStation.seconds)))
  }

  /** The `forEach` over the projected records: overwrites each record's
      time with its text, then logs the record. */
  method WriteOutTimes(records: array<Record>) returns (log: seq<Record>)
    requires forall j :: 0 <= j < records.Length ==> records[j].timeToStation.Numeric?
    modifies records
    ensures forall j :: 0 <= j < records.Length ==>
              records[j] == Rewritten(old(records[j]))
    ensures log == records[..]
  {
    ghost var projected := records[..];
    log := [];
    var i := 0;
    while i < records.Length
      invariant 0 <= i <= records.Length
      invariant forall j :: 0 <= j < i ==> records[j] == Rewritten(projected[j])
      invariant forall j :: i <= j < records.Length ==> records[j] == projected[j]
      invariant |log| == i && forall j :: 0 <= j < i ==> log[j] == records[j]
    {
      records[i] := Rewritten(records[i]);
      log := log + [records[i]];
      i := i + 1;
    }
  }

  /** The stop-selection step: sorts the stop points in place by distance and
      returns the NaPTAN identifiers of the first two. */
  method NearestStops(stopPoints: array<StopPoint>) returns (stops: seq<string>)
    modifies stopPoints
    ensures multiset(stopPoints[..]) == old(multiset(stopPoints[..]))
    ensures SortedBy(stopPoints[..], DistanceKey)
    ensures |stops| == SliceEnd(stopPoints.Length, NearestStopCount)
    ensures forall i :: 0 <= i < |stops| ==> stops[i] == stopPoints[i].naptanId
    ensures forall i, y :: 0 <= i < |stops| && y in multiset(old(stopPoints[..])) - multiset(stopPoints[..|stops|])
              ==> stopPoints[i].distance <= y.distance
  {
    ghost var before := stopPoints[..];
    SortBy(stopPoints, DistanceKey);
    var nearest := stopPoints[..SliceEnd(stopPoints.Length, NearestStopCount)];
    SelectionIsSmallest(before, stopPoints[..], DistanceKey, |nearest|);
    stops := seq(|nearest|, i requires 0 <= i < |nearest| => nearest[i].naptanId);
  }

  /** The times logNextNBuses writes do not depend on the order ties are left
      in: any two sorted arrangements of the same arrivals log the same count
      and the same time at every position. */
  lemma LoggedTimesIgnoreTies(s1: seq<Arrival>, s2: seq<Arrival>, n: int)
    requires SortedBy(s1, TimeKey) && SortedBy(s2, TimeKey)
    requires multiset(s1) == multiset(s2)
    ensures |s1| == |s2|
    ensures forall i :: 0 <= i < SliceEnd(|s1|, n) ==>
              Logged(s1[i]).timeToStation == Logged(s2[i]).timeToStation
  {
    SortedPermutationsAgreeOnKeys(s1, s2, TimeKey);
    forall i | 0 <= i < SliceEnd(|s1|, n)
      ensures Logged(s1[i]).timeToStation == Logged(s2[i]).timeToStation
    {
      assert TimeKey(s1[i]) == TimeKey(s2[i]);
      assert s1[i].timeToStation == s2[i].timeToStation;
    }
  }
}
