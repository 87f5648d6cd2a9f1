/** The two request URLs of the TfL StopPoint API: getStopArrivalsAPI and
    getStopsInAreaAPI, fixed templates around their arguments. */
module Urls {
  import opened Options
  import opened Text
  import opened Decimal

  const ArrivalsPrefix := "https://api.tfl.gov.uk/StopPoint/"
  const ArrivalsSuffix := "/Arrivals"

  /** getStopArrivalsAPI(stopID). The stop identifier is read back from it. */
  function StopArrivalsUrl(stopId: string): (url: string)
    ensures StopIdOfArrivalsUrl(url) == Some(stopId)
  {
    ArrivalsPrefix + stopId + ArrivalsSuffix
  }

  /** The stop identifier an arrivals URL asks about, if it is one. */
  function StopIdOfArrivalsUrl(url: string): Option<string>
  {
    if |url| >= |ArrivalsPrefix| + |ArrivalsSuffix|
       && url[..|ArrivalsPrefix|] == ArrivalsPrefix
       && url[|url| - |ArrivalsSuffix|..] == ArrivalsSuffix
    then Some(url[|ArrivalsPrefix|..|url| - |ArrivalsSuffix|])
    else None
  }

  /** Stripping the fixed prefix and suffix recovers the stop identifier, and
      only arrivals URLs have one: the builder is injective. */
  lemma StopArrivalsUrlIff(url: string, stopId: string)
    ensures StopIdOfArrivalsUrl(url) == Some(stopId) <==> url == StopArrivalsUrl(stopId)
  {
  }

  const AreaPrefix := "https://api.tfl.gov.uk/StopPoint/?lat="
  const LonField := "&lon="
  const AreaTail := "&stopTypes=NaptanPublicBusCoachTram&radius="

  predicate NotAmpersand(c: char) { c != '&' }

  /** The text JavaScript writes for a coordinate never holds '&'. */
  predicate NoAmpersand(s: string) { forall i :: 0 <= i < |s| ==> NotAmpersand(s[i]) }

  /** getStopsInAreaAPI(lat, lon, radius). The coordinates are floating-point
      Numbers in the source; here they are given as the text written for them.
      Coordinates without '&' and the radius are read back from it. */
  function StopsInAreaUrl(lat: string, lon: string, radius: int): (url: string)
    ensures NoAmpersand(lat) && NoAmpersand(lon) ==> ParseStopsInAreaUrl(url) == Some((lat, lon, radius))
  {
    var url := AreaPrefix + (lat + (LonField + (lon + (AreaTail + IntToString(radius)))));
    if NoAmpersand(lat) && NoAmpersand(lon) then ParseAreaQuery(lat, lon, radius); url else url
  }

  /** Reads latitude, longitude and radius back from a stops-in-area URL. */
  function ParseStopsInAreaUrl(url: string): Option<(string, string, int)>
  {
    match StripPrefix(url, AreaPrefix)
    case None => None
    case Some(query) =>
      var (lat, rest) := Span(query, NotAmpersand);
      match StripPrefix(rest, LonField)
      case None => None
      case Some(lonAndTail) =>
        var (lon, tail) := Span(lonAndTail, NotAmpersand);
        match StripPrefix(tail, AreaTail)
        case None => None
        case Some(radiusText) =>
          match ParseInt(radiusText)
          case None => None
          case Some(radius) => Some((lat, lon, radius))
  }

  /** The query parameters of a stops-in-area URL, spelled out, are
      recovered from it. */
  lemma ParseAreaQuery(lat: string, lon: string, radius: int)
    requires NoAmpersand(lat) && NoAmpersand(lon)
    ensures ParseStopsInAreaUrl(AreaPrefix + (lat + (LonField + (lon + (AreaTail + IntToString(radius))))))
         == Some((lat, lon, radius))
  {
    var radiusText := IntToString(radius);
    var tail := AreaTail + radiusText;
    var lonAndTail := lon + tail;
    var rest := LonField + lonAndTail;
    var query := lat + rest;
    StripPrefixIff(AreaPrefix + query, AreaPrefix, query);
    assert rest[0] == '&';
    SpanOf(lat, rest, NotAmpersand);
    StripPrefixIff(rest, LonField, lonAndTail);
    assert tail[0] == '&';
    SpanOf(lon, tail, NotAmpersand);
    StripPrefixIff(tail, AreaTail, radiusText);
    ParseIntToString(radius);
  }

  /** Every URL the parser accepts is the one built from what it read. */
  lemma BuiltFromParsedStopsInAreaUrl(url: string, lat: string, lon: string, radius: int)
    requires ParseStopsInAreaUrl(url) == Some((lat, lon, radius))
    ensures NoAmpersand(lat) && NoAmpersand(lon)
    ensures url == StopsInAreaUrl(lat, lon, radius)
  {
    var query := StripPrefix(url, AreaPrefix).value;
    var (lat', rest) := Span(query, NotAmpersand);
    var lonAndTail := StripPrefix(rest, LonField).value;
    var (lon', tail) := Span(lonAndTail, NotAmpersand);
    var radiusText := StripPrefix(tail, AreaTail).value;
    ParseIntIff(radiusText, radius);
    StripPrefixIff(tail, AreaTail, radiusText);
    StripPrefixIff(rest, LonField, lonAndTail);
    StripPrefixIff(url, AreaPrefix, query);
  }
}
