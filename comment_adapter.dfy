/** The comment list of a question: the short age of a comment, the name shown for its
    author, and when two entries are the same comment. The age branches are the question
    list's; only the texts differ. */
module CommentAdapter {
  import opened Common
  import opened Records
  import opened CommunityPostAdapter

  /** The short text of a comment's age; older comments show an "MMM d" calendar date that
      depends on the device's locale and zone and is not rendered here. */
  function CommentAgeText(a: Age): (r: Option<string>)
    ensures r.None? <==> a.OlderThanAWeek?
    ensures a.JustNow? ==> r == Some("now")
    ensures r.Some? && !a.JustNow? ==>
              |r.value| > 1 && AllDigits(r.value[..|r.value| - 1])
              && DecimalValue(r.value[..|r.value| - 1]) == Count(a)
              && r.value[|r.value| - 1] == (if a.MinutesAgo? then 'm' else if a.HoursAgo? then 'h' else 'd')
  {
    var t := NatToString(Count(a)) + UnitOf(a);
    NatToStringValue(Count(a));
    assert t[..|t| - 1] == NatToString(Count(a));
    match a
    case JustNow => Some("now")
    case MinutesAgo(n) => Some(NatToString(n) + "m")
    case HoursAgo(n) => Some(NatToString(n) + "h")
    case DaysAgo(n) => Some(NatToString(n) + "d")
    case OlderThanAWeek => None
  }

  /** The unit letter the counted branches append to their number. */
  function UnitOf(a: Age): (r: string)
    ensures |r| == 1
  {
    match a
    case MinutesAgo(_) => "m"
    case HoursAgo(_) => "h"
    case _ => "d"
  }

  /** Only "now" starts with a letter; the counted texts start with a digit. */
  lemma CommentAgeTextFirst(a: Age)
    requires CommentAgeText(a).Some?
    ensures a.JustNow? <==> CommentAgeText(a).value[0] == 'n'
  {
    if !a.JustNow? {
      assert CommentAgeText(a).value == NatToString(Count(a)) + UnitOf(a);
      assert IsDigit(NatToString(Count(a))[0]);
    }
  }

  /** Different ages are told apart: distinct branches or numbers never show the same text. */
  lemma CommentAgeTextInjective(a1: Age, a2: Age)
    requires CommentAgeText(a1).Some? && CommentAgeText(a1) == CommentAgeText(a2)
    ensures a1 == a2
  {
    CommentAgeTextFirst(a1);
    CommentAgeTextFirst(a2);
    if !a1.JustNow? {
      var n1, n2 := Count(a1), Count(a2);
      assert CommentAgeText(a1).value == NatToString(n1) + UnitOf(a1);
      assert CommentAgeText(a2).value == NatToString(n2) + UnitOf(a2);
      SplitEqual(NatToString(n1), UnitOf(a1), NatToString(n2), UnitOf(a2));
      NatToStringInjective(n1, n2);
    }
  }

  /** `getTimeAgo` of the comment list. */
  function GetTimeAgo(now: int, time: int): (r: Option<string>)
    ensures r.None? <==> now - time >= 7 * DayMillis
    ensures now - time < MinuteMillis ==> r == Some("now")
    ensures MinuteMillis <= now - time < HourMillis ==>
              r == Some(NatToString((now - time) / MinuteMillis) + "m")
    ensures HourMillis <= now - time < DayMillis ==>
              r == Some(NatToString((now - time) / HourMillis) + "h")
    ensures DayMillis <= now - time < 7 * DayMillis ==>
              r == Some(NatToString((now - time) / DayMillis) + "d")
  {
    CommentAgeText(AgeOf(now - time))
  }

  /** Both lists cut the time difference at the same thresholds: a comment and a question of
      the same age fall in the same branch, and a counted branch shows the question's text
      without its " ago". */
  lemma SameThresholdsAsPosts(now: int, time: int)
    ensures GetTimeAgo(now, time).None? <==> CommunityPostAdapter.GetTimeAgo(now, time).None?
    ensures var a := AgeOf(now - time);
            a.MinutesAgo? || a.HoursAgo? || a.DaysAgo? ==>
              CommunityPostAdapter.GetTimeAgo(now, time).value == GetTimeAgo(now, time).value + " ago"
  {
    var a := AgeOf(now - time);
    assert GetTimeAgo(now, time) == CommentAgeText(a);
    assert CommunityPostAdapter.GetTimeAgo(now, time) == PostAgeText(a);
    AgeTextsAgree(a);
  }

  /** The question list's text of a counted age is the comment list's followed by " ago". */
  lemma AgeTextsAgree(a: Age)
    ensures CommentAgeText(a).None? <==> PostAgeText(a).None?
    ensures a.MinutesAgo? || a.HoursAgo? || a.DaysAgo? ==>
              PostAgeText(a).value == CommentAgeText(a).value + " ago"
  {
    match a
    case MinutesAgo(n) => assert (NatToString(n) + "m") + " ago" == NatToString(n) + "m ago";
    case HoursAgo(n) => assert (NatToString(n) + "h") + " ago" == NatToString(n) + "h ago";
    case DaysAgo(n) => assert (NatToString(n) + "d") + " ago" == NatToString(n) + "d ago";
    case _ =>
  }

  /** What a comment's row shows. */
  datatype CommentRow = CommentRow(userName: string, timestamp: Option<string>, text: string)

  /** `bind`: the author's name falls back to the part of the e-mail before its first '@'. */
  function Bind(comment: Comment, now: int): (r: CommentRow)
    ensures r.userName == DisplayName(comment.userName, comment.userEmail)
    ensures comment.userName != [] ==> r.userName == comment.userName
    ensures comment.userName == [] ==> (r.userName == comment.userEmail <==> '@' !in comment.userEmail)
    ensures '@' !in r.userName || comment.userName != []
    ensures r.timestamp == GetTimeAgo(now, comment.timestamp)
    ensures r.text == comment.text
  {
    CommentRow(DisplayName(comment.userName, comment.userEmail),
               GetTimeAgo(now, comment.timestamp), comment.text)
  }

  // ---------------------------------------------------------------------------
  // CommentDiffCallback

  predicate AreItemsTheSame(oldItem: Comment, newItem: Comment)
    ensures oldItem == newItem ==> AreItemsTheSame(oldItem, newItem)
  {
    oldItem.id == newItem.id
  }

  predicate AreContentsTheSame(oldItem: Comment, newItem: Comment)
    ensures AreContentsTheSame(oldItem, newItem) ==> AreItemsTheSame(oldItem, newItem)
  {
    oldItem == newItem
  }

  /** Equal contents imply the same item; an edited text keeps the item but not its contents. */
  lemma DiffCallbackConsistent(a: Comment, b: Comment, text: string)
    ensures AreContentsTheSame(a, b) ==> AreItemsTheSame(a, b)
    ensures AreItemsTheSame(a, a.(text := text))
    ensures a.text != text ==> !AreContentsTheSame(a, a.(text := text))
  {
  }
}
