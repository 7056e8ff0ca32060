# CrimeTracking, modelled in Dafny

CrimeTracking is an Android app for Syracuse. It shows a map and a list of reported
incidents from an open-data GeoJSON feed. It counts the incidents within a mile of a walking
route, scrapes a police daily crime log out of a PDF, and runs a community question board
with likes and comments. It also keeps up to three emergency contacts per user and texts
them an SOS alert.

This project models the app's decision logic.

**Pure parts** are datatypes, functions and lemmas:
- the date and time formatting of the feed;
- the regular expression of the PDF scraper;
- the form checks of the sign-up, sign-in, profile and community screens;
- the row binding and diff rules of the three list adapters.

**Stateful parts** are classes whose methods change fields under `modifies` clauses:
- the map screen;
- the profile screen's contact list and add button;
- the sign-up form's errors and password toggles.

**Loops** become methods with loop invariants, proved against specification functions:
- the GeoJSON feed loader;
- the PDF line loop;
- the route correlation;
- the SOS send loop.

**Modules:**

| module | what it holds |
|---|---|
| `Common` | Kotlin's `trim` (JVM whitespace), `substringBefore`, `split` on one character, and decimal digits and padding |
| `Records` | The app's data classes, and a 32-bit `Int` |
| `Json` | The org.json lookups, as partial functions |
| `DateTime` | `padStart`; `SimpleDateFormat` for the patterns `HHmm`, `hh:mm a`, `MM/dd/yyyy` and the feed's `EEE, dd MMM yyyy HH:mm:ss z` |
| `MapFragment` | The map screen |
| `ReportsFragment` | The reports screen |
| `CrimePdfScraper` | `parsePdfText` and its regular expression |
| `CommunityFragment` | The question board |
| `CommunityPostAdapter` | The question list |
| `CommentAdapter` | The comment list |
| `CrimeReportAdapter` | The report list |
| `ProfileActivity` | The profile screen |
| `SmsHelper` | The SOS alert |
| `SignupActivity` | The sign-up screen |
| `LoginActivity` | The sign-in screen |

**Foreign services become parameters:**

| source service | parameter |
|---|---|
| The e-mail pattern of the platform | `isEmail` |
| The geodesic on-path test | `onPath` |
| The polyline decoder | `decode` |
| `SmsManager` | `attempt` and `smsAvailable` |
| The clock | `now` |
| Firebase, as data | its answers: the user, the documents, whether a call succeeded |

## Model

| member | source | states |
|---|---|---|
| Common.Trim | app/src/main/java/com/example/crimetracking/SignupActivity.kt:83-84 | The trimmed text neither starts nor ends with JVM whitespace, and it is empty exactly when the input is blank |
| Common.TrimKeepsMiddle | app/src/main/java/com/example/crimetracking/SignupActivity.kt:83-84 | The trimmed text is a stretch of the input with only whitespace before and after it |
| Common.TrimIdempotent | app/src/main/java/com/example/crimetracking/LoginActivity.kt:25-26 | Trimming twice is trimming once |
| Common.SubstringBefore | app/src/main/java/com/example/crimetracking/CommunityPostAdapter.kt:45-47 | The result is the longest prefix without the character; it is all of the input exactly when the character is absent, else the character follows it |
| Common.Split | app/src/main/java/com/example/crimetracking/data/CrimePdfScraper.kt:39 | The pieces hold no delimiter, there is at least one, and joining them with the delimiter gives back the text |
| Common.NatToStringValue | app/src/main/java/com/example/crimetracking/CommunityPostAdapter.kt:83-92 | The decimal spelling of a count reads back as that count |
| Common.NatToStringInjective | app/src/main/java/com/example/crimetracking/CommunityPostAdapter.kt:83-92 | Distinct counts are spelled differently |
| Json.GetObject | app/src/main/java/com/example/crimetracking/MapFragment.kt:141-142 | `getJSONObject` succeeds exactly when the key holds an object, and returns its fields |
| Json.GetArray | app/src/main/java/com/example/crimetracking/MapFragment.kt:139 | `getJSONArray` succeeds exactly when the key holds an array, and returns its items |
| Json.GetString | app/src/main/java/com/example/crimetracking/MapFragment.kt:143 | A stored string is returned; a missing key gives None (org.json throws), and so, as modelled, does a non-string value |
| Json.OptString | app/src/main/java/com/example/crimetracking/ReportsFragment.kt:91-94 | `optString` returns a stored string, and the default for a missing key |
| DateTime.PadStart | app/src/main/java/com/example/crimetracking/ReportsFragment.kt:135 | The result has length max(n, \|s\|), ends with s, and is padding before it |
| DateTime.ParseHHmm | app/src/main/java/com/example/crimetracking/ReportsFragment.kt:137-140 | "HHmm" parses exactly the four-digit strings, into an in-range clock value (lenient roll-over) |
| DateTime.ParseHHmmRoundTrip | app/src/main/java/com/example/crimetracking/ReportsFragment.kt:137-140 | Parsing the four-digit spelling of an in-range time gives it back |
| DateTime.ParseHHmmRollsOver | app/src/main/java/com/example/crimetracking/MapFragment.kt:338-341 | Lenient parsing rolls over: "2500" is 01:00 and "0075" is 01:15 |
| DateTime.Render12 | app/src/main/java/com/example/crimetracking/MapFragment.kt:339-342 | "hh:mm a": eight characters, the colon at position 2, a space at 5, then "AM" before noon and "PM" from noon on |
| DateTime.Render12RoundTrip | app/src/main/java/com/example/crimetracking/ReportsFragment.kt:138-141 | "hh:mm a" output reads back as the same hour and minute |
| DateTime.Render12Injective | app/src/main/java/com/example/crimetracking/MapFragment.kt:339-342 | Distinct times of day print differently in "hh:mm a" |
| DateTime.MonthNumber | app/src/main/java/com/example/crimetracking/ReportsFragment.kt:123 | An English month abbreviation maps to its month number, and nothing else maps |
| DateTime.ParseFeedDate | app/src/main/java/com/example/crimetracking/ReportsFragment.kt:123-126 | A parsed feed date is a valid calendar day read from a 29-character text |
| DateTime.ParseFeedDateRoundTrip | app/src/main/java/com/example/crimetracking/ReportsFragment.kt:123-126 | Any well-formed "EEE, dd MMM yyyy HH:mm:ss z" text parses to the day it spells |
| DateTime.ParseFeedDateSpelled | app/src/main/java/com/example/crimetracking/ReportsFragment.kt:123-126 | Conversely, an accepted text is the feed spelling of the day returned, with some weekday, valid time of day and listed zone |
| DateTime.ParseFeedDateAccepts | app/src/main/java/com/example/crimetracking/ReportsFragment.kt:123-126 | The parser accepts exactly the well-formed feed dates, so every other text is rejected |
| DateTime.RenderSlashDate | app/src/main/java/com/example/crimetracking/ReportsFragment.kt:124-127 | "MM/dd/yyyy" output has ten characters with slashes at positions 2 and 5 |
| DateTime.RenderSlashDateRoundTrip | app/src/main/java/com/example/crimetracking/ReportsFragment.kt:124-127 | "MM/dd/yyyy" output reads back as the same day, month and year |
| MapFragment.FormatDate | app/src/main/java/com/example/crimetracking/MapFragment.kt:322-332 | An unparsable date is shown unchanged |
| MapFragment.FormatDateFallback | app/src/main/java/com/example/crimetracking/MapFragment.kt:329-331 | Any text that is not a well-formed feed date is shown exactly as stored |
| MapFragment.FormatDateMeaning | app/src/main/java/com/example/crimetracking/MapFragment.kt:322-332 | A parsed date is shown as ten characters that read back as exactly that date |
| MapFragment.FormatDateWellFormed | app/src/main/java/com/example/crimetracking/MapFragment.kt:322-332 | Every well-formed feed date is shown as the "MM/dd/yyyy" spelling of its day |
| MapFragment.FormatDateExample | app/src/main/java/com/example/crimetracking/MapFragment.kt:322-332 | "Thu, 02 Jan 2025 00:00:00 EST" is shown as "01/02/2025" |
| MapFragment.FormatTime | app/src/main/java/com/example/crimetracking/MapFragment.kt:334-346 | A time that does not parse after padding is shown unchanged |
| MapFragment.FormatTimeMeaning | app/src/main/java/com/example/crimetracking/MapFragment.kt:334-346 | A parsed time is shown as eight characters that read back as its hour and minute |
| MapFragment.FormatTimeWellFormed | app/src/main/java/com/example/crimetracking/MapFragment.kt:334-346 | Every in-range "HHmm" time is shown in 12-hour form |
| MapFragment.FormatTimePads | app/src/main/java/com/example/crimetracking/MapFragment.kt:336 | Fewer than four digits are read as if left-padded with zeros |
| MapFragment.FormatTimeFallback | app/src/main/java/com/example/crimetracking/MapFragment.kt:343-345 | A time that is not one to four digits is shown as stored |
| MapFragment.FormatTimeEvening | app/src/main/java/com/example/crimetracking/MapFragment.kt:334-346 | "1806" is shown as "06:06 PM" |
| MapFragment.FormatTimeShortInput | app/src/main/java/com/example/crimetracking/MapFragment.kt:334-346 | "806" is shown as "08:06 AM" |
| MapFragment.FormatTimeEmptyInput | app/src/main/java/com/example/crimetracking/MapFragment.kt:334-346 | "" is shown as "12:00 AM" |
| MapFragment.Property | app/src/main/java/com/example/crimetracking/MapFragment.kt:253-257 | A present property is returned, else the default |
| MapFragment.MarkerStyle | app/src/main/java/com/example/crimetracking/MapFragment.kt:253-261 | The marker is titled with the address; the snippet is type, raw date and raw time joined by '\|' |
| MapFragment.SnippetSplitsBack | app/src/main/java/com/example/crimetracking/MapFragment.kt:261 | The snippet splits back into its three fields when none holds a '\|' |
| MapFragment.ClickedFeature | app/src/main/java/com/example/crimetracking/MapFragment.kt:268-277 | A tapped marker shows its type, its address and the formatted date and time |
| MapFragment.ClickedFeatureWithoutTime | app/src/main/java/com/example/crimetracking/MapFragment.kt:272-275 | A feature without TIMESTART shows midnight |
| MapFragment.ParseOverviewPolyline | app/src/main/java/com/example/crimetracking/MapFragment.kt:136-149 | When every lookup on `routes[0].overview_polyline.points` succeeds, the result is that string; when any lookup fails or `routes` is empty, it is "" |
| MapFragment.ParseOverviewPolylineOfResponse | app/src/main/java/com/example/crimetracking/MapFragment.kt:139-143 | For any object response whose first route holds an overview polyline object with string points, those points come out, whatever other keys the response and the route hold and whatever the later routes are |
| MapFragment.ParseOverviewPolylineNoRoutes | app/src/main/java/com/example/crimetracking/MapFragment.kt:140-148 | An empty routes array gives "" |
| MapFragment.CrimesAlongRoute | app/src/main/java/com/example/crimetracking/MapFragment.kt:288-303 | The match set: every member is the position of a feature of the layer, and that feature is a point |
| MapFragment.CrimesAlongRouteSize | app/src/main/java/com/example/crimetracking/MapFragment.kt:289-303 | No more incidents are counted than the layer has features |
| MapFragment.NonPointsNeverMatch | app/src/main/java/com/example/crimetracking/MapFragment.kt:293 | A feature that is not a point is never counted |
| MapFragment.MapScreen.constructor | app/src/main/java/com/example/crimetracking/MapFragment.kt:47-52 | The screen starts with no features, no map, no route and no location |
| MapFragment.MapScreen.OnMapReady | app/src/main/java/com/example/crimetracking/MapFragment.kt:202-266 | The layer's features are kept, and each one gets its marker style, in order; an unreadable layer changes nothing |
| MapFragment.MapScreen.RequestCurrentLocation | app/src/main/java/com/example/crimetracking/MapFragment.kt:219-244 | Without permission nothing changes; otherwise the last location, or the campus fallback when there is none or the lookup fails |
| MapFragment.MapScreen.CalculateCrimesAlongRoute | app/src/main/java/com/example/crimetracking/MapFragment.kt:285-303 | No result for an empty route or layer; otherwise exactly the point features within a mile, and their number |
| MapFragment.MapScreen.DrawRouteOnMap | app/src/main/java/com/example/crimetracking/MapFragment.kt:151-169 | An empty polyline, or a map that is not ready, is ignored; otherwise the decoded route is drawn and correlated, and an empty route or an empty crime layer gives no summary |
| ReportsFragment.FormatDate | app/src/main/java/com/example/crimetracking/ReportsFragment.kt:121-131 | The listed date is nonempty and has at most ten characters |
| ReportsFragment.FormatDateMeaning | app/src/main/java/com/example/crimetracking/ReportsFragment.kt:121-131 | A parsed date reads back as itself; otherwise the first ten characters (all of a shorter text) are listed, or "Unknown" for an empty date |
| ReportsFragment.FormatDateFallback | app/src/main/java/com/example/crimetracking/ReportsFragment.kt:128-129 | Any nonempty text that is not a well-formed feed date is listed by its first ten characters |
| ReportsFragment.FormatTime | app/src/main/java/com/example/crimetracking/ReportsFragment.kt:133-145 | The listed time is never empty |
| ReportsFragment.FormatTimeMeaning | app/src/main/java/com/example/crimetracking/ReportsFragment.kt:133-145 | A parsed time reads back as itself; otherwise the raw text is listed (the "Unknown" branch is dead) |
| ReportsFragment.FormatTimeEmpty | app/src/main/java/com/example/crimetracking/ReportsFragment.kt:135-141 | An empty time is listed as "12:00 AM" |
| ReportsFragment.ReportOf | app/src/main/java/com/example/crimetracking/ReportsFragment.kt:88-108 | A report takes the feature's fields: a present address or crime code is stored as is, a missing one gets the source's placeholder; the raw date and time are stored as read |
| ReportsFragment.ReportOfFormats | app/src/main/java/com/example/crimetracking/ReportsFragment.kt:96-106 | The listed date and time are `formatDate` and `formatTime` of the raw values the report keeps, and a report without a time is listed at midnight |
| ReportsFragment.Properties | app/src/main/java/com/example/crimetracking/ReportsFragment.kt:88-89 | A feature yields properties exactly when it is an object holding an object under "properties" |
| ReportsFragment.FirstFailure | app/src/main/java/com/example/crimetracking/ReportsFragment.kt:87-89 | This is the position of the first feature whose lookup throws; every earlier one succeeds |
| ReportsFragment.StrLeTotal | app/src/main/java/com/example/crimetracking/ReportsFragment.kt:112 | `compareTo` on strings is total |
| ReportsFragment.SortDescending | app/src/main/java/com/example/crimetracking/ReportsFragment.kt:112 | `sortByDescending { it.rawDate }` as a stable sort; its result is a permutation of the reports |
| ReportsFragment.SortDescendingSorted | app/src/main/java/com/example/crimetracking/ReportsFragment.kt:112 | After the sort, every raw date is no greater than the one before it |
| ReportsFragment.SortedDescendingPairwise | app/src/main/java/com/example/crimetracking/ReportsFragment.kt:112 | The sorted order holds between every pair, not only neighbours |
| ReportsFragment.SortDescendingStable | app/src/main/java/com/example/crimetracking/ReportsFragment.kt:112 | The sort is stable: reports with equal raw dates keep their order |
| ReportsFragment.ParseCrimeData | app/src/main/java/com/example/crimetracking/ReportsFragment.kt:80-119 | No features gives nothing. Otherwise one report per feature, in order, sorted stably newest first as a permutation. A failing feature ends the loop and returns the reports so far, unsorted |
| CrimePdfScraper.SpaceRunMaximal | app/src/main/java/com/example/crimetracking/data/CrimePdfScraper.kt:42 | Greedy `\s` runs are all spaces and cannot be extended |
| CrimePdfScraper.DotRunMaximal | app/src/main/java/com/example/crimetracking/data/CrimePdfScraper.kt:42 | Greedy `.` runs stop only at a line terminator or the end of the line |
| CrimePdfScraper.LazyLocationShortest | app/src/main/java/com/example/crimetracking/data/CrimePdfScraper.kt:42 | The lazy location is the shortest one followed by two spaces |
| CrimePdfScraper.LazyLocationComplete | app/src/main/java/com/example/crimetracking/data/CrimePdfScraper.kt:42 | If any location fits, the lazy search finds one no longer |
| CrimePdfScraper.SecondGapGreedy | app/src/main/java/com/example/crimetracking/data/CrimePdfScraper.kt:42 | The second `\s+` takes the longest run that still lets the rest match |
| CrimePdfScraper.SecondGapComplete | app/src/main/java/com/example/crimetracking/data/CrimePdfScraper.kt:42 | Backing off finds a match whenever some choice of spaces has one |
| CrimePdfScraper.MatchAt | app/src/main/java/com/example/crimetracking/data/CrimePdfScraper.kt:42 | A match attempt at p yields group positions in order, starting at p |
| CrimePdfScraper.MatchAtSound | app/src/main/java/com/example/crimetracking/data/CrimePdfScraper.kt:42 | A successful attempt has a date, spaces, a time, spaces, a location and two or more spaces, then an offense, each of the pattern's shape |
| CrimePdfScraper.MatchAtComplete | app/src/main/java/com/example/crimetracking/data/CrimePdfScraper.kt:42 | Wherever the pattern's shape occurs at p, the attempt at p succeeds |
| CrimePdfScraper.FirstGapNoBackoff | app/src/main/java/com/example/crimetracking/data/CrimePdfScraper.kt:42 | The first `\s+` never gives back a space |
| CrimePdfScraper.FindFrom | app/src/main/java/com/example/crimetracking/data/CrimePdfScraper.kt:45 | The scan of start positions: a reported start lies at or after the first one tried and an attempt succeeds there |
| CrimePdfScraper.FindFromLeftmost | app/src/main/java/com/example/crimetracking/data/CrimePdfScraper.kt:45 | `find` reports the leftmost start where an attempt succeeds |
| CrimePdfScraper.Groups | app/src/main/java/com/example/crimetracking/data/CrimePdfScraper.kt:47 | The date group has 10 characters and the time group 5; the two text groups span their positions |
| CrimePdfScraper.FindCrime | app/src/main/java/com/example/crimetracking/data/CrimePdfScraper.kt:45-47 | `regex.find(line)?.destructured` as a `Crime`: a found crime has a ten-character date and a five-character time |
| CrimePdfScraper.FindCrimeLeftmost | app/src/main/java/com/example/crimetracking/data/CrimePdfScraper.kt:45-47 | A line yields a crime exactly when some attempt succeeds, namely the groups of the leftmost one |
| CrimePdfScraper.FindCrimeFields | app/src/main/java/com/example/crimetracking/data/CrimePdfScraper.kt:42-48 | The fields are a dd/dd/dddd date and a dd:dd time; the location holds no two adjacent spaces and the offense does not start with one; neither holds a line terminator |
| CrimePdfScraper.CrimesOf | app/src/main/java/com/example/crimetracking/data/CrimePdfScraper.kt:44-50 | The reports of a list of lines, in line order: at most one crime per line |
| CrimePdfScraper.CrimesOfAppend | app/src/main/java/com/example/crimetracking/data/CrimePdfScraper.kt:44-50 | Lines are examined independently and in order |
| CrimePdfScraper.CrimesOfLine | app/src/main/java/com/example/crimetracking/data/CrimePdfScraper.kt:45-49 | A line yields exactly its `find` result, or nothing |
| CrimePdfScraper.ParsePdfText | app/src/main/java/com/example/crimetracking/data/CrimePdfScraper.kt:35-52 | The text is split on '\n', and each line yields its crime, if any, in order |
| CommunityFragment.Without | app/src/main/java/com/example/crimetracking/CommunityFragment.kt:163 | `filter` keeps exactly the elements different from x |
| CommunityFragment.WithoutKeepsOthers | app/src/main/java/com/example/crimetracking/CommunityFragment.kt:163 | Every other id and its multiplicity are kept, in order; every x is dropped |
| CommunityFragment.ToggleLike | app/src/main/java/com/example/crimetracking/CommunityFragment.kt:161-167 | The user is in the new likes exactly when they were not; no other id's presence changes |
| CommunityFragment.ToggleLikeUnlike | app/src/main/java/com/example/crimetracking/CommunityFragment.kt:161-163 | Unliking removes every occurrence of the user and keeps the others in order |
| CommunityFragment.ToggleLikeLike | app/src/main/java/com/example/crimetracking/CommunityFragment.kt:164-166 | Liking appends the user and keeps the list before it |
| CommunityFragment.ToggleLikeTwice | app/src/main/java/com/example/crimetracking/CommunityFragment.kt:161-167 | Liking then unliking restores the list |
| CommunityFragment.LikeTransaction | app/src/main/java/com/example/crimetracking/CommunityFragment.kt:152-169 | Nothing happens without a user; a missing likes list counts as empty |
| CommunityFragment.CheckQuestion | app/src/main/java/com/example/crimetracking/CommunityFragment.kt:77-92 | A blank question is refused; so is a trimmed one shorter than 10; otherwise the trimmed question is accepted |
| CommunityFragment.NewPost | app/src/main/java/com/example/crimetracking/CommunityFragment.kt:95-109 | A new post has no likes and no comments, and carries its author's id, display name and e-mail (empty when missing) and the question; there is none without a user |
| CommunityFragment.AcceptedQuestionPosted | app/src/main/java/com/example/crimetracking/CommunityFragment.kt:79-109 | An accepted question reaches the store trimmed, at least 10 long, with no likes and no comments |
| CommunityFragment.Increment | app/src/main/java/com/example/crimetracking/CommunityFragment.kt:236 | Kotlin `Int + 1` wraps at the largest Int |
| CommunityFragment.CheckComment | app/src/main/java/com/example/crimetracking/CommunityFragment.kt:211-236 | A blank comment, or no user, sends nothing; otherwise the trimmed text is stored under the author's id, display name and e-mail (empty when missing), and the count becomes the captured count + 1 |
| CommunityFragment.CommentCountFromCapturedPost | app/src/main/java/com/example/crimetracking/CommunityFragment.kt:236 | Two comments from one sheet write the same count (lost update) |
| CommunityPostAdapter.AgeOf | app/src/main/java/com/example/crimetracking/CommunityPostAdapter.kt:80-97 | A time difference falls in exactly one branch, and the number it shows is in range |
| CommunityPostAdapter.AgeMonotone | app/src/main/java/com/example/crimetracking/CommunityPostAdapter.kt:80-97 | An older post never shows a younger age |
| CommunityPostAdapter.PostAgeText | app/src/main/java/com/example/crimetracking/CommunityPostAdapter.kt:80-97 | Only posts older than a week have no relative text; "Just now" aside, the text is the decimal count followed by "m ago", "h ago" or "d ago" by branch |
| CommunityPostAdapter.PostAgeTextInjective | app/src/main/java/com/example/crimetracking/CommunityPostAdapter.kt:80-97 | Distinct ages show distinct texts |
| CommunityPostAdapter.GetTimeAgo | app/src/main/java/com/example/crimetracking/CommunityPostAdapter.kt:75-98 | There is no relative text exactly from seven days on; under a minute it is "Just now", then "<n>m ago", "<n>h ago" and "<n>d ago" with n the whole minutes, hours or days |
| CommunityPostAdapter.DisplayName | app/src/main/java/com/example/crimetracking/CommunityPostAdapter.kt:45-47 | Use the name if it is set; otherwise the e-mail up to its first '@', or the whole e-mail if none |
| CommunityPostAdapter.Bind | app/src/main/java/com/example/crimetracking/CommunityPostAdapter.kt:44-73 | The row shows the number of likes, which is liked exactly when the user is in the likes, the display name, the question, the comment count and the age |
| CommunityPostAdapter.AreItemsTheSame | app/src/main/java/com/example/crimetracking/CommunityPostAdapter.kt:102-104 | Identity by post id: equal posts are the same item |
| CommunityPostAdapter.AreContentsTheSame | app/src/main/java/com/example/crimetracking/CommunityPostAdapter.kt:106-108 | Data-class equality; equal contents imply the same item |
| CommunityPostAdapter.DiffCallbackConsistent | app/src/main/java/com/example/crimetracking/CommunityPostAdapter.kt:101-109 | Equal contents imply the same item; a liked post stays the same item with different contents |
| CommentAdapter.CommentAgeText | app/src/main/java/com/example/crimetracking/CommentAdapter.kt:45-62 | Only comments older than a week have no short text; "now" aside, the text is the decimal count followed by 'm', 'h' or 'd' by branch |
| CommentAdapter.CommentAgeTextInjective | app/src/main/java/com/example/crimetracking/CommentAdapter.kt:45-62 | Distinct ages show distinct short texts |
| CommentAdapter.GetTimeAgo | app/src/main/java/com/example/crimetracking/CommentAdapter.kt:40-63 | There is no short text exactly from seven days on; under a minute it is "now", then "<n>m", "<n>h" and "<n>d" with n the whole minutes, hours or days |
| CommentAdapter.SameThresholdsAsPosts | app/src/main/java/com/example/crimetracking/CommentAdapter.kt:45-62 | Comments and posts use the same thresholds; a post's text is the comment's text plus " ago" |
| CommentAdapter.AgeTextsAgree | app/src/main/java/com/example/crimetracking/CommentAdapter.kt:45-62 | For the same age, the question list's counted text is the comment list's followed by " ago" |
| CommentAdapter.Bind | app/src/main/java/com/example/crimetracking/CommentAdapter.kt:32-38 | The author shown is the display name of the comment's name and e-mail: the name, or the e-mail up to its '@' when the name is empty |
| CommentAdapter.AreItemsTheSame | app/src/main/java/com/example/crimetracking/CommentAdapter.kt:67-69 | Identity by comment id: equal comments are the same item |
| CommentAdapter.AreContentsTheSame | app/src/main/java/com/example/crimetracking/CommentAdapter.kt:71-73 | Data-class equality; equal contents imply the same item |
| CommentAdapter.DiffCallbackConsistent | app/src/main/java/com/example/crimetracking/CommentAdapter.kt:66-74 | Equal contents imply the same item; an edited text keeps the item but not the contents |
| CrimeReportAdapter.Bind | app/src/main/java/com/example/crimetracking/CrimeReportAdapter.kt:29-34 | The row shows the stored type, address, date and time |
| CrimeReportAdapter.AreItemsTheSame | app/src/main/java/com/example/crimetracking/CrimeReportAdapter.kt:38-42 | Identity by address, date and time: equal reports are the same item |
| CrimeReportAdapter.AreContentsTheSame | app/src/main/java/com/example/crimetracking/CrimeReportAdapter.kt:44-46 | Data-class equality; equal contents imply the same item |
| CrimeReportAdapter.ItemsTheSameEquivalence | app/src/main/java/com/example/crimetracking/CrimeReportAdapter.kt:38-42 | The item identity is an equivalence relation |
| CrimeReportAdapter.ItemsTheSameIgnoresOthers | app/src/main/java/com/example/crimetracking/CrimeReportAdapter.kt:38-42 | The identity is exactly agreement of address, date and time |
| CrimeReportAdapter.ContentsImplyItems | app/src/main/java/com/example/crimetracking/CrimeReportAdapter.kt:38-46 | Equal contents imply the same item; a changed type changes the contents |
| ProfileActivity.SplitName | app/src/main/java/com/example/crimetracking/ProfileActivity.kt:106-116 | The first name holds no space; with a space both parts rebuild the name; without one the last name is "" |
| ProfileActivity.SplitNameLongest | app/src/main/java/com/example/crimetracking/ProfileActivity.kt:107 | The first name is the longest space-free prefix, and the remainder follows the space |
| ProfileActivity.CheckContact | app/src/main/java/com/example/crimetracking/ProfileActivity.kt:310-329 | Name, relation and phone are checked trimmed, in that order; only the first blank one is flagged |
| ProfileActivity.CheckPasswordChange | app/src/main/java/com/example/crimetracking/ProfileActivity.kt:245-264 | Current password nonempty, new one at least 6, confirmation equal, in that order; untrimmed |
| ProfileActivity.CheckEmailChange | app/src/main/java/com/example/crimetracking/ProfileActivity.kt:186-199 | The trimmed address must be nonempty and well formed, then the password nonempty |
| ProfileActivity.ContactOf | app/src/main/java/com/example/crimetracking/ProfileActivity.kt:132-143 | A loaded contact keeps the document id, and a missing field reads as "" |
| ProfileActivity.FirstIndexOf | app/src/main/java/com/example/crimetracking/ProfileActivity.kt:437 | The first index of an equal element, or -1 exactly when there is none |
| ProfileActivity.ReplaceFirst | app/src/main/java/com/example/crimetracking/ProfileActivity.kt:437-447 | The list after an edit keeps its length, and is unchanged when the old contact is not in it |
| ProfileActivity.RemoveFirst | app/src/main/java/com/example/crimetracking/ProfileActivity.kt:470-476 | The list after a deletion is one shorter when the contact is in it, and unchanged when it is not |
| ProfileActivity.ReplaceFirstChangesOne | app/src/main/java/com/example/crimetracking/ProfileActivity.kt:437-447 | An edit replaces exactly the first equal contact, keeping its id; everything else stays |
| ProfileActivity.RemoveFirstRemovesOne | app/src/main/java/com/example/crimetracking/ProfileActivity.kt:470-476 | A deletion removes one occurrence, the first, and keeps the rest in order |
| ProfileActivity.ProfileScreen.constructor | app/src/main/java/com/example/crimetracking/ProfileActivity.kt:26 | The screen starts with no contacts and the add button enabled |
| ProfileActivity.ProfileScreen.OpensAddDialog | app/src/main/java/com/example/crimetracking/ProfileActivity.kt:81-92 | The add dialog opens exactly below three contacts |
| ProfileActivity.ProfileScreen.UpdateEmptyState | app/src/main/java/com/example/crimetracking/ProfileActivity.kt:166-174 | The add button is enabled exactly below three contacts |
| ProfileActivity.ProfileScreen.OnContactsLoaded | app/src/main/java/com/example/crimetracking/ProfileActivity.kt:132-143 | The list becomes one contact per document, in order, and the button follows the cap |
| ProfileActivity.ProfileScreen.OnContactAdded | app/src/main/java/com/example/crimetracking/ProfileActivity.kt:351-358 | The new contact is appended, and the button follows the cap |
| ProfileActivity.ProfileScreen.OnContactUpdated | app/src/main/java/com/example/crimetracking/ProfileActivity.kt:437-447 | The first equal contact is replaced; the button is unchanged and still correct |
| ProfileActivity.ProfileScreen.OnContactDeleted | app/src/main/java/com/example/crimetracking/ProfileActivity.kt:470-476 | The first equal contact is removed, and the button follows the cap |
| SmsHelper.CleanNumber | app/src/main/java/com/example/crimetracking/SmsHelper.kt:160 | The cleaned number holds only digits and '+', and is no longer than the input |
| SmsHelper.CleanNumberAppend | app/src/main/java/com/example/crimetracking/SmsHelper.kt:160 | Cleaning works character by character |
| SmsHelper.CleanNumberChar | app/src/main/java/com/example/crimetracking/SmsHelper.kt:160 | A digit or '+' is kept; anything else is dropped |
| SmsHelper.CleanNumberKeepsClean | app/src/main/java/com/example/crimetracking/SmsHelper.kt:234 | A clean number is left unchanged |
| SmsHelper.CleanNumberIdempotent | app/src/main/java/com/example/crimetracking/SmsHelper.kt:160 | Cleaning twice is cleaning once |
| SmsHelper.CleanNumberEmpty | app/src/main/java/com/example/crimetracking/SmsHelper.kt:163-167 | A number cleans to nothing exactly when it has no digit and no '+' |
| SmsHelper.SosMessage | app/src/main/java/com/example/crimetracking/SmsHelper.kt:142-144 | The alert is the fixed head, the name and the fixed tail |
| SmsHelper.SosMessageNameRoundTrip | app/src/main/java/com/example/crimetracking/SmsHelper.kt:142-144 | The name can be read back out of the alert |
| SmsHelper.SenderName | app/src/main/java/com/example/crimetracking/SmsHelper.kt:108-114 | The stored full name, else "A user" |
| SmsHelper.SuccessesOf | app/src/main/java/com/example/crimetracking/SmsHelper.kt:149-189 | No more successes than contacts tried |
| SmsHelper.NoDialableNumberNoSuccess | app/src/main/java/com/example/crimetracking/SmsHelper.kt:153-167 | If no number holds a digit or '+', nobody is reached |
| SmsHelper.AllDeliveredAllSucceed | app/src/main/java/com/example/crimetracking/SmsHelper.kt:149-189 | If every send goes through, every contact is counted |
| SmsHelper.SendSmsToContacts | app/src/main/java/com/example/crimetracking/SmsHelper.kt:127-218 | Each contact is counted once, as a success or a failure; success exactly when some message went out; nothing without an SMS manager |
| SmsHelper.ContactsOf | app/src/main/java/com/example/crimetracking/SmsHelper.kt:91-100 | One contact per document, in order |
| SmsHelper.SendSos | app/src/main/java/com/example/crimetracking/SmsHelper.kt:54-122 | The errors are no permission, no user, a failed fetch and no contacts, in that order, and none sends anything; with contacts but no SMS manager, nothing is sent and the result says the SMS service is unavailable; otherwise the contacts are sent the alert under the looked-up name |
| SignupActivity.CheckSignup | app/src/main/java/com/example/crimetracking/SignupActivity.kt:82-125 | The first failing check decides: name, e-mail, e-mail format, password length, confirmation; an account keeps the trimmed name, the trimmed e-mail and the raw password |
| SignupActivity.CheckSignupIgnoresPadding | app/src/main/java/com/example/crimetracking/SignupActivity.kt:83-84 | Whitespace around the name or the e-mail never changes the outcome |
| SignupActivity.ErrorsFor | app/src/main/java/com/example/crimetracking/SignupActivity.kt:89-124 | At most one field shows an error, the failing check's message; none does exactly when the account is created |
| SignupActivity.SignupScreen.constructor | app/src/main/java/com/example/crimetracking/SignupActivity.kt:26-27 | Both passwords start hidden, and there are no errors |
| SignupActivity.SignupScreen.TogglePassword | app/src/main/java/com/example/crimetracking/SignupActivity.kt:63-70 | Only the tapped field's flag flips, and its input type follows |
| SignupActivity.SignupScreen.ValidateAndCreateAccount | app/src/main/java/com/example/crimetracking/SignupActivity.kt:82-125 | The errors are cleared, then set for the failing check; account data comes out exactly when every check passes |
| LoginActivity.Validate | app/src/main/java/com/example/crimetracking/LoginActivity.kt:48-58 | The message of the first failing check: e-mail empty or malformed, then password empty |
| LoginActivity.IsValid | app/src/main/java/com/example/crimetracking/LoginActivity.kt:48-58 | The form passes exactly when the e-mail is nonempty and well formed and the password is nonempty |
| LoginActivity.LoginCredentials | app/src/main/java/com/example/crimetracking/LoginActivity.kt:24-29 | The login button submits the trimmed e-mail and password exactly when they pass |
| LoginActivity.LoginAltersPassword | app/src/main/java/com/example/crimetracking/LoginActivity.kt:26 | A sign-up password starting or ending with whitespace is never what the login button submits |
| LoginActivity.LeadingSpacePasswordAccepted | app/src/main/java/com/example/crimetracking/SignupActivity.kt:85 | Sign-up accepts " secret" as a password |
| LoginActivity.LoginCredentialsCorrected | app/src/main/java/com/example/crimetracking/LoginActivity.kt:24-29 | With the password taken as typed, it is submitted exactly when it passes |
| LoginActivity.SignupThenLogin | app/src/main/java/com/example/crimetracking/LoginActivity.kt:24-29 | With the password untrimmed, retyping the sign-up inputs submits the account's own e-mail and password |
| LoginActivity.ResetEmail | app/src/main/java/com/example/crimetracking/LoginActivity.kt:36-45 | A reset is requested only for a nonblank, well-formed trimmed address |
| LoginActivity.ResetMatchesLoginEmail | app/src/main/java/com/example/crimetracking/LoginActivity.kt:36-45 | A reset goes to exactly the address the login button would use |
| LoginActivity.SignInDecision | app/src/main/java/com/example/crimetracking/LoginActivity.kt:65-81 | Go home exactly for a verified user; an error exactly when sign-in failed |
| LoginActivity.StartForwardingComplement | app/src/main/java/com/example/crimetracking/HomeActivity.kt:167-175 | For every user, exactly one of the two start screens keeps them, so neither forwarding loops |

## Left out

**Platform behaviour not modelled:**
- Lenient `SimpleDateFormat` on feed dates: `DateTime.ParseFeedDate` accepts only the strict 29-character
  form. It ignores the weekday name, and it accepts only the zone names the model lists. The JVM would also
  accept out-of-range days and other zone spellings, and would shift the date by the zone.
- Json.GetString: org.json's `getString` returns the text of any present value, number or boolean included, and
  throws only for a missing key. The model returns None for a non-string too, which the caller at
  `MapFragment.kt:143` then treats like a parse error.
- MapFragment.MapScreen.DrawRouteOnMap: for a non-empty polyline that decodes to no points, the source throws at
  `bounds.build()` (`MapFragment.kt:167`). Nothing catches that exception: it is raised in the
  `launch(Dispatchers.Main)` child coroutine, outside the `try` of `MapFragment.kt:119-131`, so the app crashes. The model skips the camera and
  returns no summary for an empty route.
- org.json coercion: `Json.OptString` returns the default for a stored non-string (a number, say), where
  org.json would return its text.
- Strings are sequences of code points, so lengths, such as "at least 6 characters", count code points, not the
  JVM's UTF-16 units. The alert's emoji is one character here.
- `ReportsFragment.SortDescending` sorts a value sequence rather than the mutable list in place.
  `compareTo` is modelled on code points.
- DateTime.ParseHHmm: parses exactly four ASCII digits. `SimpleDateFormat` would also read a padded text
  whose minute field is cut short by a non-digit ("123a" as 12:03), and a signed last field ("-5" pads to
  "00-5", minute -5, which rolls back to 11:55 PM). Such inputs are shown as stored here.
- `MapFragment.FormatTime`: inputs longer than four digits are shown as stored, as
  `MapFragment.FormatTimeFallback` states. The JVM would parse some of them leniently.

**Foreign code, passed in as parameters:**
- `PolyUtil.isLocationOnPath` (geodesic distance) is `onPath`.
- `PolyUtil.decode` is `decode`.
- The outcome of `divideMessage`/`sendMultipartTextMessage` is `attempt`.
  `sendSmsToNumber` is not modelled beyond its number cleaning.

**I/O, not modelled:**
- `CrimePdfScraper.fetchCrimes` (the download and the PDF text extraction).
- `fetchAndDrawRoute` (the HTTP call).
- `readJsonResource`.
- Firebase Auth and Firestore calls, asynchrony and listeners: the models take their results as inputs.
- `changeEmail`/`changePassword`: the re-authentication and update calls are left out; only their dialog
  checks are modelled.

**Concurrency is not modelled:** two contact additions in flight at once can exceed the cap of three. The
asynchronous success callback does not check the cap again.

**UI is not modelled:** layout, toasts, progress bars, dialogs, visibility, focus and the camera. For
`loadUserProfile`, only the name split (`ProfileActivity.SplitName`) is modelled, not the text views.

**Store-assigned document ids:** new posts and comments carry an empty id, which the store fills in.

**Older ages:** the "MMM d" calendar text of posts and comments older than a week is not modelled. It
depends on the time zone.

**Deliberately weaker contracts:**
- CommunityPostAdapter.GetTimeAgo: each bucket's text is stated as an implication from the time difference, not
  both directions. The converse follows from `CommunityPostAdapter.PostAgeTextFirst` and
  `CommunityPostAdapter.PostAgeTextInjective`.
- SmsHelper.SendSmsToContacts: the success and failure counters are unbounded. Kotlin's `Int` would wrap after
  2^31 contacts.
- CommunityPostAdapter.AgeOf: `diff` is an unbounded integer. The 64-bit `Long` overflow of
  `now - time` is not modelled.

## Findings

| source | as written | input that shows it | evidently intended | confidence | as-written member | corrected member |
|---|---|---|---|---|---|---|
| app/src/main/java/com/example/crimetracking/LoginActivity.kt:26 | The login button trims the password (`etPasswordLogin.text.toString().trim()`). Sign-up stores it untrimmed (SignupActivity.kt:85). | An account created with the password " secret" can never sign in by typing " secret": "secret" is submitted instead; "secret " fails the same way. | Take the password as typed, as sign-up and the change-password dialog do. | not executed | LoginActivity.LoginAltersPassword | LoginActivity.SignupThenLogin |
