/** The reports screen: the open-data GeoJSON feed turned into a list of `CrimeReport`s,
    newest first by the raw date string. */
module ReportsFragment {
  import opened Common
  import Json
  import DateTime
  import opened Records

  // ---------------------------------------------------------------------------
  // Date and time as listed

  /** `formatDate` of this screen: "MM/dd/yyyy" for a well-formed feed date, otherwise the
      first ten characters of the raw text, or "Unknown" for an empty one. */
  function FormatDate(rawDate: string): (r: string)
    ensures 0 < |r| <= 10
  {
    match DateTime.ParseFeedDate(rawDate)
    case Some(d) => DateTime.RenderSlashDate(d)
    case None =>
      var taken := if |rawDate| <= 10 then rawDate else rawDate[..10];
      if taken == [] then "Unknown" else taken
  }

  /** A parsed date is listed with exactly its day, month and year; an unparsable one by
      its first ten characters, or "Unknown" when there are none. */
  lemma FormatDateMeaning(rawDate: string)
    ensures DateTime.ParseFeedDate(rawDate).Some? ==>
              DateTime.ParseSlashDate(FormatDate(rawDate)) == DateTime.ParseFeedDate(rawDate)
    ensures DateTime.ParseFeedDate(rawDate).None? && rawDate != [] ==>
              FormatDate(rawDate) == rawDate[..if |rawDate| <= 10 then |rawDate| else 10]
    ensures DateTime.ParseFeedDate(rawDate).None? && rawDate == [] ==> FormatDate(rawDate) == "Unknown"
  {
    if DateTime.ParseFeedDate(rawDate).Some? {
      DateTime.RenderSlashDateRoundTrip(DateTime.ParseFeedDate(rawDate).value);
    }
  }

  /** Any nonempty text that is not a well-formed feed date is listed by its first ten characters. */
  lemma FormatDateFallback(rawDate: string)
    requires !DateTime.IsFeedDate(rawDate) && rawDate != []
    ensures FormatDate(rawDate) == rawDate[..if |rawDate| <= 10 then |rawDate| else 10]
  {
    DateTime.ParseFeedDateAccepts(rawDate);
    FormatDateMeaning(rawDate);
  }

  /** `formatTime` of this screen: the 12-hour rendering of the zero-padded "HHmm" value,
      else the raw text, else "Unknown". */
  function FormatTime(rawTime: string): (r: string)
    ensures r != []
  {
    EmptyTimeParses();
    match DateTime.ParseHHmm(DateTime.PadStart(rawTime, 4, '0'))
    case Some(c) => DateTime.Render12(c)
    case None => if rawTime == [] then "Unknown" else rawTime
  }

  /** The time shown reads back as the parsed clock value; a time that does not parse is
      shown unchanged. The "Unknown" fallback is never taken: an empty time is padded to
      "0000", which is midnight, so a failed parse always has raw text to show. */
  lemma FormatTimeMeaning(rawTime: string)
    ensures DateTime.ParseHHmm(DateTime.PadStart(rawTime, 4, '0')).Some? ==>
              DateTime.Parse12(FormatTime(rawTime)) == DateTime.ParseHHmm(DateTime.PadStart(rawTime, 4, '0'))
    ensures DateTime.ParseHHmm(DateTime.PadStart(rawTime, 4, '0')).None? ==> FormatTime(rawTime) == rawTime
  {
    EmptyTimeParses();
    if DateTime.ParseHHmm(DateTime.PadStart(rawTime, 4, '0')).Some? {
      DateTime.Render12RoundTrip(DateTime.ParseHHmm(DateTime.PadStart(rawTime, 4, '0')).value);
    }
  }

  lemma EmptyTimeParses()
    ensures DateTime.ParseHHmm(DateTime.PadStart("", 4, '0')).Some?
  {
    assert DateTime.PadStart("", 4, '0') == "0000";
  }

  /** An empty TIMESTART is listed as midnight. */
  lemma FormatTimeEmpty()
    ensures FormatTime("") == "12:00 AM"
  {
    var c := DateTime.Clock(0, 0);
    assert DateTime.PadStart("", 4, '0') == "0000";
    assert Pad2(0) == "00" && Pad2(12) == "12";
    assert DateTime.Render24(c) == "0000";
    assert DateTime.Hour12(0) == 12;
    assert DateTime.Render12(c) == "12:00 AM";
    DateTime.ParseHHmmRoundTrip(c);
  }

  // ---------------------------------------------------------------------------
  // One report per feature

  /** The report built from a feature's `properties`, with the placeholders for missing values. */
  function ReportOf(properties: map<string, Json.Value>): (r: CrimeReport)
    ensures "ADDRESS" !in properties ==> r.address == "Unknown Location"
    ensures "CODE_DEFINED" !in properties ==> r.crimeType == "Unknown Crime"
    ensures "DATEEND" !in properties ==> r.rawDate == ""
    ensures "TIMESTART" !in properties ==> r.rawTime == ""
    ensures "ADDRESS" in properties && properties["ADDRESS"].JString? ==> r.address == properties["ADDRESS"].str
    ensures "CODE_DEFINED" in properties && properties["CODE_DEFINED"].JString? ==> r.crimeType == properties["CODE_DEFINED"].str
    ensures "DATEEND" in properties && properties["DATEEND"].JString? ==> r.rawDate == properties["DATEEND"].str
    ensures "TIMESTART" in properties && properties["TIMESTART"].JString? ==> r.rawTime == properties["TIMESTART"].str
  {
    var rawDate := Json.OptString(properties, "DATEEND", "");
    var rawTime := Json.OptString(properties, "TIMESTART", "");
    CrimeReport(
      Json.OptString(properties, "ADDRESS", "Unknown Location"),
      Json.OptString(properties, "CODE_DEFINED", "Unknown Crime"),
      FormatDate(rawDate), FormatTime(rawTime), rawDate, rawTime)
  }

  /** The listed date and time of a report are the formatted forms of the raw values it keeps;
      a report without a time is listed at midnight. (Kept apart from `ReportOf`, so that the
      list lemmas below do not unfold the date parser for every report they mention.) */
  lemma ReportOfFormats(properties: map<string, Json.Value>)
    ensures var r := ReportOf(properties);
            r.date == FormatDate(r.rawDate) && r.time == FormatTime(r.rawTime)
            && (r.rawTime == "" ==> r.time == "12:00 AM")
  {
    FormatTimeEmpty();
  }

  /** `features.getJSONObject(i).getJSONObject("properties")`; None where either lookup
      would throw. */
  function Properties(feature: Json.Value): (r: Option<map<string, Json.Value>>)
    ensures r.Some? <==> feature.JObject? && "properties" in feature.fields && feature.fields["properties"].JObject?
    ensures r.Some? ==> feature.fields["properties"] == Json.JObject(r.value)
  {
    if feature.JObject? then Json.GetObject(feature.fields, "properties") else None
  }

  /** The position of the first feature that yields no report, or the number of features. */
  function FirstFailure(features: seq<Json.Value>): (n: nat)
    ensures n <= |features|
    ensures forall i :: 0 <= i < n ==> Properties(features[i]).Some?
    ensures n < |features| ==> Properties(features[n]).None?
  {
    if features == [] || Properties(features[0]).None? then 0
    else
      var n := FirstFailure(features[1..]);
      assert forall i :: 0 < i <= n ==> features[1..][i - 1] == features[i];
      1 + n
  }

  /** `g` applied to every element, in order. */
  function MapSeq<A, B>(g: A -> B, s: seq<A>): (r: seq<B>)
    ensures |r| == |s|
  {
    if s == [] then [] else [g(s[0])] + MapSeq(g, s[1..])
  }

  lemma {:induction false} MapSeqAt<A, B>(g: A -> B, s: seq<A>, i: nat)
    requires i < |s|
    ensures MapSeq(g, s)[i] == g(s[i])
  {
    if i > 0 {
      MapSeqAt(g, s[1..], i - 1);
    }
  }

  lemma {:induction false} MapSeqAppend<A, B>(g: A -> B, s: seq<A>, x: A)
    ensures MapSeq(g, s + [x]) == MapSeq(g, s) + [g(x)]
  {
    if s == [] {
      assert [] + [x] == [x];
    } else {
      assert (s + [x])[1..] == s[1..] + [x];
      MapSeqAppend(g, s[1..], x);
    }
  }

  /** The `properties` objects of features that all have one, in feature order. */
  function PropertiesOf(features: seq<Json.Value>): (r: seq<map<string, Json.Value>>)
    requires forall i :: 0 <= i < |features| ==> Properties(features[i]).Some?
    ensures |r| == |features|
    ensures forall i :: 0 <= i < |features| ==> r[i] == Properties(features[i]).value
  {
    seq(|features|, i requires 0 <= i < |features| => Properties(features[i]).value)
  }

  /** The reports of features that all yield one, in feature order. */
  function ReportsOf(features: seq<Json.Value>): (r: seq<CrimeReport>)
    requires forall i :: 0 <= i < |features| ==> Properties(features[i]).Some?
    ensures |r| == |features|
  {
    MapSeq(ReportOf, PropertiesOf(features))
  }

  /** Each feature yields its own report, at its own position. */
  lemma ReportsOfAt(features: seq<Json.Value>, i: nat)
    requires forall j :: 0 <= j < |features| ==> Properties(features[j]).Some?
    requires i < |features|
    ensures ReportsOf(features)[i] == ReportOf(Properties(features[i]).value)
  {
    MapSeqAt(ReportOf, PropertiesOf(features), i);
  }

  // ---------------------------------------------------------------------------
  // Descending, stable order on the raw date string

  /** `a <= b` in `String.compareTo`'s lexicographic order. */
  predicate StrLe(a: string, b: string) {
    a == [] || (b != [] && (a[0] < b[0] || (a[0] == b[0] && StrLe(a[1..], b[1..]))))
  }

  lemma StrLeTotal(a: string, b: string)
    ensures StrLe(a, b) || StrLe(b, a)
  {
  }

  lemma {:induction false} StrLeAntisymmetric(a: string, b: string)
    requires StrLe(a, b) && StrLe(b, a)
    ensures a == b
  {
    if a != [] && b != [] {
      StrLeAntisymmetric(a[1..], b[1..]);
      assert a == [a[0]] + a[1..] && b == [b[0]] + b[1..];
    }
  }

  lemma {:induction false} StrLeTransitive(a: string, b: string, c: string)
    requires StrLe(a, b) && StrLe(b, c)
    ensures StrLe(a, c)
  {
    if a != [] && b != [] && c != [] && a[0] == b[0] && b[0] == c[0] {
      StrLeTransitive(a[1..], b[1..], c[1..]);
    }
  }

  lemma {:induction false} StrLeReflexive(a: string)
    ensures StrLe(a, a)
  {
    if a != [] {
      StrLeReflexive(a[1..]);
    }
  }

  /** Newest first: each report's raw date is no greater than the one before it. */
  predicate SortedDescending(s: seq<CrimeReport>) {
    forall i :: 0 < i < |s| ==> StrLe(s[i].rawDate, s[i - 1].rawDate)
  }

  /** Places `x` before the first report whose raw date is not greater than its own, so it
      stays ahead of reports with the same date that came after it. */
  function InsertDescending(x: CrimeReport, s: seq<CrimeReport>): (r: seq<CrimeReport>)
    ensures multiset(r) == multiset{x} + multiset(s)
  {
    if s == [] then [x]
    else if StrLe(s[0].rawDate, x.rawDate) then [x] + s
    else
      var rest := InsertDescending(x, s[1..]);
      assert s == [s[0]] + s[1..];
      [s[0]] + rest
  }

  /** `sortByDescending { it.rawDate }`: a stable sort, newest raw date first. */
  function SortDescending(s: seq<CrimeReport>): (r: seq<CrimeReport>)
    ensures multiset(r) == multiset(s)
  {
    if s == [] then []
    else
      assert s == [s[0]] + s[1..];
      InsertDescending(s[0], SortDescending(s[1..]))
  }

  lemma {:induction false} InsertDescendingSorted(x: CrimeReport, s: seq<CrimeReport>)
    requires SortedDescending(s)
    ensures SortedDescending(InsertDescending(x, s))
    ensures InsertDescending(x, s) != [] && (InsertDescending(x, s)[0] == x || (s != [] && InsertDescending(x, s)[0] == s[0]))
  {
    if s != [] && !StrLe(s[0].rawDate, x.rawDate) {
      InsertDescendingSorted(x, s[1..]);
      StrLeTotal(s[0].rawDate, x.rawDate);
      var r := InsertDescending(x, s);
      assert r == [s[0]] + InsertDescending(x, s[1..]);
      forall i | 0 < i < |r| ensures StrLe(r[i].rawDate, r[i - 1].rawDate) {
        if i > 1 {
          assert r[i] == InsertDescending(x, s[1..])[i - 1];
        }
      }
    }
  }

  /** The sorted list is in descending raw-date order. */
  lemma {:induction false} SortDescendingSorted(s: seq<CrimeReport>)
    ensures SortedDescending(SortDescending(s))
  {
    if s != [] {
      SortDescendingSorted(s[1..]);
      InsertDescendingSorted(s[0], SortDescending(s[1..]));
    }
  }

  /** Descending order between every pair, not just neighbours. */
  lemma {:induction false} SortedDescendingPairwise(s: seq<CrimeReport>, i: nat, j: nat)
    requires SortedDescending(s) && i < j < |s|
    ensures StrLe(s[j].rawDate, s[i].rawDate)
  {
    if j == i + 1 {
    } else {
      SortedDescendingPairwise(s, i, j - 1);
      StrLeTransitive(s[j].rawDate, s[j - 1].rawDate, s[i].rawDate);
    }
  }

  /** The reports carrying a given raw date, in list order. */
  function WithRawDate(s: seq<CrimeReport>, key: string): seq<CrimeReport>
  {
    if s == [] then []
    else (if s[0].rawDate == key then [s[0]] else []) + WithRawDate(s[1..], key)
  }

  lemma WithRawDateCons(y: CrimeReport, t: seq<CrimeReport>, key: string)
    ensures WithRawDate([y] + t, key) == (if y.rawDate == key then [y] else []) + WithRawDate(t, key)
  {
    assert ([y] + t)[0] == y && ([y] + t)[1..] == t;
  }

  lemma {:induction false} InsertDescendingWithRawDate(x: CrimeReport, s: seq<CrimeReport>, key: string)
    ensures WithRawDate(InsertDescending(x, s), key) == (if x.rawDate == key then [x] else []) + WithRawDate(s, key)
  {
    if s == [] {
      WithRawDateCons(x, [], key);
    } else if StrLe(s[0].rawDate, x.rawDate) {
      WithRawDateCons(x, s, key);
    } else {
      InsertDescendingWithRawDate(x, s[1..], key);
      StrLeReflexive(x.rawDate);
      PassOver(x, s[0], s[1..], InsertDescending(x, s[1..]), key);
      assert [s[0]] + s[1..] == s;
    }
  }

  /** Inserting past a report with a different raw date commutes with selecting by date. */
  lemma PassOver(x: CrimeReport, y: CrimeReport, t: seq<CrimeReport>, rest: seq<CrimeReport>, key: string)
    requires x.rawDate != y.rawDate
    requires WithRawDate(rest, key) == (if x.rawDate == key then [x] else []) + WithRawDate(t, key)
    ensures WithRawDate([y] + rest, key) == (if x.rawDate == key then [x] else []) + WithRawDate([y] + t, key)
  {
    WithRawDateCons(y, rest, key);
    WithRawDateCons(y, t, key);
    var tail := WithRawDate(t, key);
    if x.rawDate == key {
      assert [] + ([x] + tail) == [x] + ([] + tail);
    } else {
      var hy: seq<CrimeReport> := if y.rawDate == key then [y] else [];
      assert hy + ([] + tail) == [] + (hy + tail);
    }
  }

  /** The sort is stable: reports with equal raw dates keep their relative order. */
  lemma {:induction false} SortDescendingStable(s: seq<CrimeReport>, key: string)
    ensures WithRawDate(SortDescending(s), key) == WithRawDate(s, key)
  {
    if s != [] {
      SortDescendingStable(s[1..], key);
      InsertDescendingWithRawDate(s[0], SortDescending(s[1..]), key);
    }
  }

  // ---------------------------------------------------------------------------
  // The feed loader

  /** `parseCrimeData`: one report per feature in the feature loop, then the stable
      descending sort. A missing "features" array gives nothing; a feature without an object
      or without "properties" ends the loop, and the reports built before it are returned
      in feature order, unsorted. */
  method ParseCrimeData(root: map<string, Json.Value>) returns (crimeReports: seq<CrimeReport>)
    ensures Json.GetArray(root, "features").None? ==> crimeReports == []
    ensures Json.GetArray(root, "features").Some? ==>
      var features := Json.GetArray(root, "features").value;
      var n := FirstFailure(features);
      (n < |features| ==> crimeReports == ReportsOf(features[..n]))
      && (n == |features| ==> crimeReports == SortDescending(ReportsOf(features))
                              && multiset(crimeReports) == multiset(ReportsOf(features))
                              && SortedDescending(crimeReports))
    ensures Json.GetArray(root, "features").Some? ==> |crimeReports| <= |Json.GetArray(root, "features").value|
  {
    crimeReports := [];
    var featuresOrNone := Json.GetArray(root, "features");
    if featuresOrNone.None? {
      return;
    }
    var features := featuresOrNone.value;
    ghost var n := FirstFailure(features);
    var i := 0;
    while i < |features|
      invariant 0 <= i <= n
      invariant crimeReports == ReportsOf(features[..i])
    {
      var properties := Properties(features[i]);
      if properties.None? {
        assert i == n;
        return;
      }
      BeforeFirstFailure(features, i);
      ReportsOfPrefix(features, i);
      crimeReports := crimeReports + [ReportOf(properties.value)];
      i := i + 1;
    }
    assert features[..i] == features;
    SortDescendingSorted(crimeReports);
    crimeReports := SortDescending(crimeReports);
  }

  lemma BeforeFirstFailure(features: seq<Json.Value>, i: nat)
    requires i < |features| && i <= FirstFailure(features) && Properties(features[i]).Some?
    ensures i < FirstFailure(features)
  {
  }

  lemma ReportsOfPrefix(features: seq<Json.Value>, i: nat)
    requires i < |features| && forall j :: 0 <= j <= i ==> Properties(features[j]).Some?
    ensures ReportsOf(features[..i + 1]) == ReportsOf(features[..i]) + [ReportOf(Properties(features[i]).value)]
  {
    assert features[..i + 1] == features[..i] + [features[i]];
    ReportsOfAppend(features[..i], features[i]);
  }

  lemma ReportsOfAppend(features: seq<Json.Value>, f: Json.Value)
    requires forall j :: 0 <= j < |features| ==> Properties(features[j]).Some?
    requires Properties(f).Some?
    ensures ReportsOf(features + [f]) == ReportsOf(features) + [ReportOf(Properties(f).value)]
  {
    var p := Properties(f).value;
    assert PropertiesOf(features + [f]) == PropertiesOf(features) + [p];
    MapSeqAppend(ReportOf, PropertiesOf(features), p);
  }

}
