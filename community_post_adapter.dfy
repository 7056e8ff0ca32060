/** The list of community questions: how long ago a question was asked, the name shown for
    its author, its like state, and when two list entries are the same question. The age
    thresholds here are used by the comment list too. */
module CommunityPostAdapter {
  import opened Common
  import opened Records

  const MinuteMillis: int := 60_000
  const HourMillis: int := 3_600_000
  const DayMillis: int := 86_400_000

  /** The branch of `getTimeAgo` a time difference falls in, with the whole number of
      minutes, hours or days it shows. */
  datatype Age = JustNow | MinutesAgo(minutes: nat) | HoursAgo(hours: nat) | DaysAgo(days: nat)
               | OlderThanAWeek

  /** The `when` of `getTimeAgo` over `diff = now - time` in milliseconds; the `TimeUnit`
      conversions truncate, and the difference is positive wherever one is made. */
  function AgeOf(diff: int): (a: Age)
    ensures a.JustNow? <==> diff < MinuteMillis
    ensures a.MinutesAgo? <==> MinuteMillis <= diff < HourMillis
    ensures a.HoursAgo? <==> HourMillis <= diff < DayMillis
    ensures a.DaysAgo? <==> DayMillis <= diff < 7 * DayMillis
    ensures a.OlderThanAWeek? <==> 7 * DayMillis <= diff
    ensures a.MinutesAgo? ==> 1 <= a.minutes <= 59
                              && a.minutes * MinuteMillis <= diff < (a.minutes + 1) * MinuteMillis
    ensures a.HoursAgo? ==> 1 <= a.hours <= 23
                            && a.hours * HourMillis <= diff < (a.hours + 1) * HourMillis
    ensures a.DaysAgo? ==> 1 <= a.days <= 6
                           && a.days * DayMillis <= diff < (a.days + 1) * DayMillis
  {
    if diff < MinuteMillis then JustNow
    else if diff < HourMillis then MinutesAgo(diff / MinuteMillis)
    else if diff < DayMillis then HoursAgo(diff / HourMillis)
    else if diff < 7 * DayMillis then DaysAgo(diff / DayMillis)
    else OlderThanAWeek
  }

  /** The position of a branch in the `when`. */
  function Rank(a: Age): nat {
    match a
    case JustNow => 0
    case MinutesAgo(_) => 1
    case HoursAgo(_) => 2
    case DaysAgo(_) => 3
    case OlderThanAWeek => 4
  }

  /** The number a branch shows, or 0 for the branches that show none. */
  function Count(a: Age): nat {
    match a
    case MinutesAgo(n) => n
    case HoursAgo(n) => n
    case DaysAgo(n) => n
    case _ => 0
  }

  /** An older question never shows a younger age: the branch does not go back, and within
      a branch the number does not decrease. */
  lemma AgeMonotone(d1: int, d2: int)
    requires d1 <= d2
    ensures Rank(AgeOf(d1)) <= Rank(AgeOf(d2))
    ensures Rank(AgeOf(d1)) == Rank(AgeOf(d2)) ==> Count(AgeOf(d1)) <= Count(AgeOf(d2))
  {
    var a1, a2 := AgeOf(d1), AgeOf(d2);
    if a1.MinutesAgo? && a2.MinutesAgo? {
      assert a1.minutes * MinuteMillis <= d2 < (a2.minutes + 1) * MinuteMillis;
    }
    if a1.HoursAgo? && a2.HoursAgo? {
      assert a1.hours * HourMillis <= d2 < (a2.hours + 1) * HourMillis;
    }
    if a1.DaysAgo? && a2.DaysAgo? {
      assert a1.days * DayMillis <= d2 < (a2.days + 1) * DayMillis;
    }
  }

  /** The text of a question's age; the "MMM d" calendar date of older questions depends on
      the device's locale and zone and is not rendered here. */
  function PostAgeText(a: Age): (r: Option<string>)
    ensures r.None? <==> a.OlderThanAWeek?
    ensures a.JustNow? ==> r == Some("Just now")
    ensures r.Some? && !a.JustNow? ==>
              |r.value| > 5 && AllDigits(r.value[..|r.value| - 5])
              && DecimalValue(r.value[..|r.value| - 5]) == Count(a)
              && r.value[|r.value| - 5..] == (if a.MinutesAgo? then "m ago" else if a.HoursAgo? then "h ago" else "d ago")
  {
    var t := NatToString(Count(a)) + SuffixOf(a);
    NatToStringValue(Count(a));
    assert t[..|t| - 5] == NatToString(Count(a)) && t[|t| - 5..] == SuffixOf(a);
    match a
    case JustNow => Some("Just now")
    case MinutesAgo(n) => Some(NatToString(n) + "m ago")
    case HoursAgo(n) => Some(NatToString(n) + "h ago")
    case DaysAgo(n) => Some(NatToString(n) + "d ago")
    case OlderThanAWeek => None
  }

  /** Two strings with suffixes of the same length are equal only if prefixes and suffixes are. */
  lemma SplitEqual(a: string, s: string, b: string, t: string)
    requires a + s == b + t && |s| == |t|
    ensures a == b && s == t
  {
    assert a == (a + s)[..|a|];
    assert b == (b + t)[..|b|];
    assert s == (a + s)[|a|..];
    assert t == (b + t)[|b|..];
  }

  /** Only "Just now" starts with a letter; the counted texts start with a digit. */
  lemma PostAgeTextFirst(a: Age)
    requires PostAgeText(a).Some?
    ensures a.JustNow? <==> PostAgeText(a).value[0] == 'J'
  {
    if !a.JustNow? {
      assert PostAgeText(a).value == NatToString(Count(a)) + SuffixOf(a);
      assert IsDigit(NatToString(Count(a))[0]);
    }
  }

  /** Different ages are told apart: distinct branches or numbers never show the same text. */
  lemma PostAgeTextInjective(a1: Age, a2: Age)
    requires PostAgeText(a1).Some? && PostAgeText(a1) == PostAgeText(a2)
    ensures a1 == a2
  {
    PostAgeTextFirst(a1);
    PostAgeTextFirst(a2);
    if !a1.JustNow? {
      var n1, n2 := Count(a1), Count(a2);
      assert PostAgeText(a1).value == NatToString(n1) + SuffixOf(a1);
      assert PostAgeText(a2).value == NatToString(n2) + SuffixOf(a2);
      SplitEqual(NatToString(n1), SuffixOf(a1), NatToString(n2), SuffixOf(a2));
      NatToStringInjective(n1, n2);
    }
  }

  /** The unit suffix the counted branches append to their number. */
  function SuffixOf(a: Age): (r: string)
    ensures |r| == 5
  {
    match a
    case MinutesAgo(_) => "m ago"
    case HoursAgo(_) => "h ago"
    case _ => "d ago"
  }

  /** `getTimeAgo` of the question list. */
  function GetTimeAgo(now: int, time: int): (r: Option<string>)
    ensures r.None? <==> now - time >= 7 * DayMillis
    ensures now - time < MinuteMillis ==> r == Some("Just now")
    ensures MinuteMillis <= now - time < HourMillis ==>
              r == Some(NatToString((now - time) / MinuteMillis) + "m ago")
    ensures HourMillis <= now - time < DayMillis ==>
              r == Some(NatToString((now - time) / HourMillis) + "h ago")
    ensures DayMillis <= now - time < 7 * DayMillis ==>
              r == Some(NatToString((now - time) / DayMillis) + "d ago")
  {
    PostAgeText(AgeOf(now - time))
  }

  // ---------------------------------------------------------------------------
  // Binding a question to its row

  /** `userName.ifEmpty { userEmail.substringBefore("@") }`. */
  function DisplayName(userName: string, userEmail: string): (r: string)
    ensures userName != [] ==> r == userName
    ensures userName == [] ==> |r| <= |userEmail| && r == userEmail[..|r|] && '@' !in r
    ensures userName == [] ==> (r == userEmail <==> '@' !in userEmail)
    ensures userName == [] && '@' in userEmail ==> |r| < |userEmail| && userEmail[|r|] == '@'
  {
    if userName != [] then userName else SubstringBefore(userEmail, '@')
  }

  /** What a question's row shows. */
  datatype PostRow = PostRow(userName: string, timestamp: Option<string>, question: string,
                             likeCount: nat, commentCount: Int32, liked: bool)

  /** `bind`: the like count is the number of likes, and the question shows as liked exactly
      when the current user is among them. */
  function Bind(post: CommunityPost, currentUserId: string, now: int): (r: PostRow)
    ensures r.likeCount == |post.likes|
    ensures r.liked <==> currentUserId in post.likes
    ensures r.userName == DisplayName(post.userName, post.userEmail)
    ensures r.question == post.question && r.commentCount == post.commentCount
    ensures r.timestamp == GetTimeAgo(now, post.timestamp)
  {
    PostRow(DisplayName(post.userName, post.userEmail), GetTimeAgo(now, post.timestamp),
            post.question, |post.likes|, post.commentCount, currentUserId in post.likes)
  }

  // ---------------------------------------------------------------------------
  // PostDiffCallback

  predicate AreItemsTheSame(oldItem: CommunityPost, newItem: CommunityPost)
    ensures oldItem == newItem ==> AreItemsTheSame(oldItem, newItem)
  {
    oldItem.id == newItem.id
  }

  predicate AreContentsTheSame(oldItem: CommunityPost, newItem: CommunityPost)
    ensures AreContentsTheSame(oldItem, newItem) ==> AreItemsTheSame(oldItem, newItem)
  {
    oldItem == newItem
  }

  /** Equal contents imply the same item, and a liked question stays the same item. */
  lemma DiffCallbackConsistent(a: CommunityPost, b: CommunityPost, likes: seq<string>)
    ensures AreContentsTheSame(a, b) ==> AreItemsTheSame(a, b)
    ensures AreItemsTheSame(a, a.(likes := likes))
    ensures a.likes != likes ==> !AreContentsTheSame(a, a.(likes := likes))
  {
  }
}
