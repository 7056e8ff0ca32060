/** The map screen: marker snippets for the feed's features, the bottom sheet shown when a
    marker is tapped, the directions-response decoding, and the count of incidents within a
    mile of a walking route. */
module MapFragment {
  import opened Common
  import Json
  import DateTime

  datatype LatLng = LatLng(latitude: real, longitude: real)

  /** A GeoJSON geometry: only points carry a location the route test can use. */
  datatype Geometry = Point(coordinates: LatLng) | OtherGeometry

  /** A feature of the GeoJSON layer: its string properties and its geometry. */
  datatype Feature = Feature(properties: map<string, string>, geometry: Geometry)

  datatype PointStyle = PointStyle(title: string, snippet: string)

  datatype BottomSheet = BottomSheet(crimeType: string, address: string, date: string, time: string)

  /** What the toast reports: the number of incidents and which features (by position in the layer). */
  datatype RouteSummary = RouteSummary(count: nat, matches: set<nat>)

  datatype LocationResult = Located(at: LatLng) | NoLastLocation | LocationFailed

  /** The tolerance of the on-path test, one mile. */
  const OneMileInMeters: real := 1609.34

  const FallbackOrigin: LatLng := LatLng(43.0384, -76.1343)

  // ---------------------------------------------------------------------------
  // Date and time shown in the bottom sheet

  /** `formatDate`: the "MM/dd/yyyy" spelling of a feed date, or the raw text unchanged. */
  function FormatDate(rawDate: string): (r: string)
    ensures DateTime.ParseFeedDate(rawDate).None? ==> r == rawDate
  {
    match DateTime.ParseFeedDate(rawDate)
    case Some(d) => DateTime.RenderSlashDate(d)
    case None => rawDate
  }

  /** A parsed date is shown with exactly its day, month and year. */
  lemma FormatDateMeaning(rawDate: string)
    requires DateTime.ParseFeedDate(rawDate).Some?
    ensures |FormatDate(rawDate)| == 10
    ensures DateTime.ParseSlashDate(FormatDate(rawDate)) == DateTime.ParseFeedDate(rawDate)
  {
    DateTime.RenderSlashDateRoundTrip(DateTime.ParseFeedDate(rawDate).value);
  }

  /** Any text that is not a well-formed feed date is shown exactly as stored. */
  lemma FormatDateFallback(rawDate: string)
    requires !DateTime.IsFeedDate(rawDate)
    ensures FormatDate(rawDate) == rawDate
  {
    DateTime.ParseFeedDateAccepts(rawDate);
  }

  /** `formatTime`: pad to four digits, read as "HHmm", print as "hh:mm a"; else the raw text. */
  function FormatTime(rawTime: string): (r: string)
    ensures DateTime.ParseHHmm(DateTime.PadStart(rawTime, 4, '0')).None? ==> r == rawTime
  {
    match DateTime.ParseHHmm(DateTime.PadStart(rawTime, 4, '0'))
    case Some(c) => DateTime.Render12(c)
    case None => rawTime
  }

  /** A parsed time is shown as a 12-hour clock reading that gives back the same hour and minute. */
  lemma FormatTimeMeaning(rawTime: string)
    requires DateTime.ParseHHmm(DateTime.PadStart(rawTime, 4, '0')).Some?
    ensures |FormatTime(rawTime)| == 8
    ensures DateTime.Parse12(FormatTime(rawTime)) == DateTime.ParseHHmm(DateTime.PadStart(rawTime, 4, '0'))
  {
    DateTime.Render12RoundTrip(DateTime.ParseHHmm(DateTime.PadStart(rawTime, 4, '0')).value);
  }

  /** A well-formed feed date is shown as the zero-padded month, day and year it names. */
  lemma FormatDateWellFormed(weekday: nat, d: DateTime.Date, c: DateTime.Clock, second: nat, zone: nat)
    requires weekday < 7 && DateTime.ValidDate(d) && DateTime.ValidClock(c) && second < 60
    requires zone < |DateTime.ZoneNames|
    ensures FormatDate(DateTime.FeedDateString(weekday, d, c, second, zone)) == DateTime.RenderSlashDate(d)
  {
    DateTime.ParseFeedDateRoundTrip(weekday, d, c, second, zone);
  }

  lemma FormatDateExample()
    ensures FormatDate("Thu, 02 Jan 2025 00:00:00 EST") == "01/02/2025"
  {
    var d, c := DateTime.Date(2025, 1, 2), DateTime.Clock(0, 0);
    FormatDateWellFormed(4, d, c, 0, 0);
    ExampleDateSpelling();
    ExampleDateRendering();
  }

  lemma ExampleDateSpelling()
    ensures DateTime.FeedDateString(4, DateTime.Date(2025, 1, 2), DateTime.Clock(0, 0), 0, 0)
            == "Thu, 02 Jan 2025 00:00:00 EST"
  {
    ExampleDay();
    ExampleTime();
  }

  lemma ExampleDay()
    ensures DateTime.FeedDayString(4, DateTime.Date(2025, 1, 2)) == "Thu, 02 Jan 2025"
  {
    ExampleYear();
    assert Pad2(2) == "02";
  }

  lemma ExampleTime()
    ensures DateTime.FeedTimeString(DateTime.Clock(0, 0), 0) == "00:00:00"
  {
    assert Pad2(0) == "00";
  }

  lemma ExampleYear()
    ensures Pad4(2025) == "2025"
  {
    assert Pad2(20) == "20" && Pad2(25) == "25";
  }

  lemma ExampleDateRendering()
    ensures DateTime.RenderSlashDate(DateTime.Date(2025, 1, 2)) == "01/02/2025"
  {
    ExampleYear();
    assert Pad2(2) == "02" && Pad2(1) == "01";
  }

  /** Any in-range clock written with four digits is shown in 12-hour form. */
  lemma FormatTimeWellFormed(c: DateTime.Clock)
    requires DateTime.ValidClock(c)
    ensures FormatTime(DateTime.Render24(c)) == DateTime.Render12(c)
  {
    DateTime.ParseHHmmRoundTrip(c);
  }

  /** Fewer than four digits are left-padded with zeros first, so "806" reads as "0806". */
  lemma FormatTimePads(rawTime: string)
    requires |rawTime| < 4 && AllDigits(rawTime)
    ensures FormatTime(rawTime) == FormatTime(DateTime.PadStart(rawTime, 4, '0'))
  {
    var p := DateTime.PadStart(rawTime, 4, '0');
    assert DateTime.PadStart(p, 4, '0') == p;
  }

  /** A time that is not one to four ASCII digits is shown exactly as stored. */
  lemma FormatTimeFallback(rawTime: string)
    requires |rawTime| > 4 || !AllDigits(rawTime)
    ensures FormatTime(rawTime) == rawTime
  {
    var p := DateTime.PadStart(rawTime, 4, '0');
    if |rawTime| <= 4 {
      var k :| 0 <= k < |rawTime| && !IsDigit(rawTime[k]);
      assert p[4 - |rawTime| + k] == rawTime[k];
    }
  }

  lemma FormatTimeEvening()
    ensures FormatTime("1806") == "06:06 PM"
  {
    var c := DateTime.Clock(18, 6);
    assert Pad2(18) == "18" && Pad2(6) == "06";
    assert DateTime.Render24(c) == "1806";
    assert DateTime.Hour12(18) == 6;
    assert DateTime.Render12(c) == "06:06 PM";
    FormatTimeWellFormed(c);
  }

  lemma FormatTimeShortInput()
    ensures FormatTime("806") == "08:06 AM"
  {
    var c := DateTime.Clock(8, 6);
    assert Pad2(8) == "08" && Pad2(6) == "06";
    assert DateTime.Render24(c) == "0806";
    assert DateTime.Hour12(8) == 8;
    assert DateTime.Render12(c) == "08:06 AM";
    assert DateTime.PadStart("806", 4, '0') == "0806";
    FormatTimePads("806");
    FormatTimeWellFormed(c);
  }

  lemma FormatTimeEmptyInput()
    ensures FormatTime("") == "12:00 AM"
  {
    var c := DateTime.Clock(0, 0);
    assert Pad2(12) == "12" && Pad2(0) == "00";
    assert DateTime.Render24(c) == "0000";
    assert DateTime.Hour12(0) == 12;
    assert DateTime.Render12(c) == "12:00 AM";
    assert DateTime.PadStart("", 4, '0') == "0000";
    FormatTimePads("");
    FormatTimeWellFormed(c);
  }

  // ---------------------------------------------------------------------------
  // Markers and the bottom sheet

  /** `feature.getProperty(key) ?: default`. */
  function Property(f: Feature, key: string, default: string): (r: string)
    ensures key in f.properties ==> r == f.properties[key]
    ensures key !in f.properties ==> r == default
  {
    if key in f.properties then f.properties[key] else default
  }

  /** The marker of a feature: titled by its address, with type, raw date and raw time in the snippet. */
  function MarkerStyle(f: Feature): (r: PointStyle)
    ensures r.title == Property(f, "ADDRESS", "Unknown Location")
    ensures r.snippet == Property(f, "CODE_DEFINED", "Unknown Crime") + "|"
                         + Property(f, "DATEEND", "") + "|" + Property(f, "TIMESTART", "")
  {
    PointStyle(
      Property(f, "ADDRESS", "Unknown Location"),
      Property(f, "CODE_DEFINED", "Unknown Crime") + "|" + Property(f, "DATEEND", "") + "|"
        + Property(f, "TIMESTART", ""))
  }

  /** The snippet can be taken apart again at its two '|' separators when no field holds a '|'. */
  lemma SnippetSplitsBack(f: Feature)
    requires '|' !in Property(f, "CODE_DEFINED", "Unknown Crime")
    requires '|' !in Property(f, "DATEEND", "") && '|' !in Property(f, "TIMESTART", "")
    ensures Split(MarkerStyle(f).snippet, '|')
            == [Property(f, "CODE_DEFINED", "Unknown Crime"), Property(f, "DATEEND", ""), Property(f, "TIMESTART", "")]
  {
    var t, d, h := Property(f, "CODE_DEFINED", "Unknown Crime"), Property(f, "DATEEND", ""), Property(f, "TIMESTART", "");
    assert MarkerStyle(f).snippet == t + ['|'] + (d + ['|'] + h);
    SplitPiece(t, '|', d + ['|'] + h);
    SplitPiece(d, '|', h);
    SplitWhole(h, '|');
  }

  /** What a tap on a marker shows: type, address and the formatted date and time. */
  function ClickedFeature(f: Feature): (r: BottomSheet)
    ensures r.crimeType == Property(f, "CODE_DEFINED", "Unknown Crime")
    ensures r.address == Property(f, "ADDRESS", "Unknown Location")
    ensures r.date == FormatDate(Property(f, "DATEEND", ""))
    ensures r.time == FormatTime(Property(f, "TIMESTART", ""))
  {
    BottomSheet(Property(f, "CODE_DEFINED", "Unknown Crime"), Property(f, "ADDRESS", "Unknown Location"),
                FormatDate(Property(f, "DATEEND", "")), FormatTime(Property(f, "TIMESTART", "")))
  }

  /** A feature without a TIMESTART property shows midnight, since "" is padded to "0000". */
  lemma ClickedFeatureWithoutTime(f: Feature)
    requires "TIMESTART" !in f.properties
    ensures ClickedFeature(f).time == "12:00 AM"
  {
    FormatTimeEmptyInput();
  }

  // ---------------------------------------------------------------------------
  // Directions response

  /** Every lookup on the path `routes[0].overview_polyline.points` succeeds: the response is an
      object, `routes` an array with a first element that is an object, `overview_polyline` in it
      an object, and `points` in that a string. */
  predicate HasOverviewPoints(response: Json.Value)
  {
    response.JObject? && Json.GetArray(response.fields, "routes").Some?
    && |response.fields["routes"].items| > 0
    && response.fields["routes"].items[0].JObject?
    && Json.GetObject(response.fields["routes"].items[0].fields, "overview_polyline").Some?
    && Json.GetString(response.fields["routes"].items[0].fields["overview_polyline"].fields, "points").Some?
  }

  /** `parsePolylineFromDirectionsJson`: `routes[0].overview_polyline.points`, or "" when
      `routes` is empty or any lookup on the way fails. */
  function ParseOverviewPolyline(response: Json.Value): (r: string)
    ensures HasOverviewPoints(response) ==>
      Some(r) == Json.GetString(response.fields["routes"].items[0].fields["overview_polyline"].fields, "points")
    ensures !HasOverviewPoints(response) ==> r == ""
  {
    if !response.JObject? then ""
    else match Json.GetArray(response.fields, "routes")
      case None => ""
      case Some(routes) =>
        if |routes| == 0 || !routes[0].JObject? then ""
        else match Json.GetObject(routes[0].fields, "overview_polyline")
          case None => ""
          case Some(overview) =>
            match Json.GetString(overview, "points")
            case None => ""
            case Some(points) => points
  }

  /** The first route's overview polyline is what comes out, whatever else the response, the first
      route (legs, bounds, summary, ...) and the later routes hold. */
  lemma ParseOverviewPolylineOfResponse(fields: map<string, Json.Value>, route: map<string, Json.Value>,
                                        overview: map<string, Json.Value>, points: string, otherRoutes: seq<Json.Value>)
    requires "routes" in fields && fields["routes"] == Json.JArray([Json.JObject(route)] + otherRoutes)
    requires "overview_polyline" in route && route["overview_polyline"] == Json.JObject(overview)
    requires "points" in overview && overview["points"] == Json.JString(points)
    ensures ParseOverviewPolyline(Json.JObject(fields)) == points
  {
  }

  /** An empty `routes` array gives no polyline. */
  lemma ParseOverviewPolylineNoRoutes(fields: map<string, Json.Value>)
    requires "routes" in fields && fields["routes"] == Json.JArray([])
    ensures ParseOverviewPolyline(Json.JObject(fields)) == ""
  {
  }

  // ---------------------------------------------------------------------------
  // Route correlation

  /** A feature counts when it is a point that the on-path test puts within a mile of the route. */
  predicate NearRoute(f: Feature, route: seq<LatLng>, onPath: (LatLng, seq<LatLng>, real) -> bool)
  {
    f.geometry.Point? && onPath(f.geometry.coordinates, route, OneMileInMeters)
  }

  /** The features (by position) that are near the route. */
  function CrimesAlongRoute(features: seq<Feature>, route: seq<LatLng>,
                            onPath: (LatLng, seq<LatLng>, real) -> bool): (r: set<nat>)
    ensures forall i :: i in r ==> i < |features| && features[i].geometry.Point?
  {
    set i: nat | i < |features| && NearRoute(features[i], route, onPath)
  }

  lemma {:induction false} BoundedSetSize(s: set<nat>, n: nat)
    requires forall i :: i in s ==> i < n
    ensures |s| <= n
  {
    if n > 0 {
      BoundedSetSize(s - {n - 1}, n - 1);
    } else {
      assert s == {};
    }
  }

  /** The match set never holds more incidents than the layer has features. */
  lemma CrimesAlongRouteSize(features: seq<Feature>, route: seq<LatLng>,
                             onPath: (LatLng, seq<LatLng>, real) -> bool)
    ensures |CrimesAlongRoute(features, route, onPath)| <= |features|
  {
    BoundedSetSize(CrimesAlongRoute(features, route, onPath), |features|);
  }

  /** Features that are not points never count, whatever the on-path test says. */
  lemma NonPointsNeverMatch(features: seq<Feature>, route: seq<LatLng>,
                            onPath: (LatLng, seq<LatLng>, real) -> bool, i: nat)
    requires i < |features| && features[i].geometry.OtherGeometry?
    ensures i !in CrimesAlongRoute(features, route, onPath)
  {
  }

  /** The map fragment's state: the layer's features, the marker style set on each of them,
      whether the map is ready, the route drawn last, and the origin location. */
  class MapScreen {
    var crimeFeatures: seq<Feature>
    var pointStyles: seq<PointStyle>
    var mapReady: bool
    var routePolyline: Option<seq<LatLng>>
    var currentLocation: Option<LatLng>

    constructor ()
      ensures crimeFeatures == [] && pointStyles == [] && !mapReady
      ensures routePolyline == None && currentLocation == None
    {
      crimeFeatures, pointStyles, mapReady := [], [], false;
      routePolyline, currentLocation := None, None;
    }

    /** `onMapReady` then `addCrimeMarkers`: the layer's features become the screen's
        features and each gets its marker style; an unreadable resource changes nothing. */
    method OnMapReady(layer: Option<seq<Feature>>)
      modifies this
      ensures mapReady
      ensures layer.Some? ==> crimeFeatures == layer.value && |pointStyles| == |layer.value|
      ensures layer.Some? ==> forall i :: 0 <= i < |pointStyles| ==> pointStyles[i] == MarkerStyle(crimeFeatures[i])
      ensures layer.None? ==> crimeFeatures == old(crimeFeatures) && pointStyles == old(pointStyles)
      ensures routePolyline == old(routePolyline) && currentLocation == old(currentLocation)
    {
      mapReady := true;
      if layer.None? {
        return;
      }
      crimeFeatures := layer.value;
      var styles: seq<PointStyle> := [];
      for i := 0 to |crimeFeatures|
        invariant |styles| == i
        invariant forall j :: 0 <= j < i ==> styles[j] == MarkerStyle(crimeFeatures[j])
      {
        styles := styles + [MarkerStyle(crimeFeatures[i])];
      }
      pointStyles := styles;
    }

    /** `requestCurrentLocation`: without permission nothing changes; otherwise the last known
        location, or the campus fallback when there is none or the lookup fails. */
    method RequestCurrentLocation(permitted: bool, result: LocationResult)
      modifies this`currentLocation
      ensures !permitted ==> currentLocation == old(currentLocation)
      ensures permitted && result.Located? ==> currentLocation == Some(result.at)
      ensures permitted && !result.Located? ==> currentLocation == Some(FallbackOrigin)
    {
      if !permitted {
        return;
      }
      match result
      case Located(at) => currentLocation := Some(at);
      case NoLastLocation => currentLocation := Some(FallbackOrigin);
      case LocationFailed => currentLocation := Some(FallbackOrigin);
    }

    /** `calculateCrimesAlongRoute`: nothing when the route or the layer is empty; otherwise
        exactly the point features within a mile of the route, and their number. */
    method CalculateCrimesAlongRoute(routePoints: seq<LatLng>, onPath: (LatLng, seq<LatLng>, real) -> bool)
      returns (summary: Option<RouteSummary>)
      ensures summary.None? <==> routePoints == [] || crimeFeatures == []
      ensures summary.Some? ==>
        (forall i :: i in summary.value.matches <==>
           0 <= i < |crimeFeatures| && crimeFeatures[i].geometry.Point?
           && onPath(crimeFeatures[i].geometry.coordinates, routePoints, OneMileInMeters))
      ensures summary.Some? ==> summary.value.count == |summary.value.matches| <= |crimeFeatures|
      ensures summary.Some? ==> summary.value.matches == CrimesAlongRoute(crimeFeatures, routePoints, onPath)
    {
      if routePoints == [] || crimeFeatures == [] {
        return None;
      }
      var crimesWithinRadius: set<nat> := {};
      for i := 0 to |crimeFeatures|
        invariant forall j :: j in crimesWithinRadius <==> 0 <= j < i && NearRoute(crimeFeatures[j], routePoints, onPath)
      {
        match crimeFeatures[i].geometry
        case Point(crimeLocation) =>
          if onPath(crimeLocation, routePoints, OneMileInMeters) {
            crimesWithinRadius := crimesWithinRadius + {i};
          }
        case OtherGeometry =>
      }
      BoundedSetSize(crimesWithinRadius, |crimeFeatures|);
      return Some(RouteSummary(|crimesWithinRadius|, crimesWithinRadius));
    }

    /** `drawRouteOnMap`: an empty polyline, or a map that is not ready, is ignored; otherwise
        the decoded route is drawn and correlated with the layer. */
    method DrawRouteOnMap(encodedPolyline: string, decode: string -> seq<LatLng>,
                          onPath: (LatLng, seq<LatLng>, real) -> bool)
      returns (summary: Option<RouteSummary>)
      modifies this`routePolyline
      ensures encodedPolyline == "" || !mapReady ==> routePolyline == old(routePolyline) && summary.None?
      ensures encodedPolyline != "" && mapReady ==> routePolyline == Some(decode(encodedPolyline))
      ensures encodedPolyline != "" && mapReady && decode(encodedPolyline) != [] && crimeFeatures != [] ==>
        summary == Some(RouteSummary(|CrimesAlongRoute(crimeFeatures, decode(encodedPolyline), onPath)|,
                                     CrimesAlongRoute(crimeFeatures, decode(encodedPolyline), onPath)))
      ensures encodedPolyline != "" && mapReady && (decode(encodedPolyline) == [] || crimeFeatures == []) ==>
        summary.None?
    {
      if encodedPolyline == "" || !mapReady {
        return None;
      }
      var points := decode(encodedPolyline);
      routePolyline := Some(points);
      summary := CalculateCrimesAlongRoute(points, onPath);
    }
  }
}
