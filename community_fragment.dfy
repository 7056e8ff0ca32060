/** The community screen's rules: toggling a like, checking a question before it is posted,
    the record a new question starts as, and checking a comment before it is sent. */
module CommunityFragment {
  import opened Common
  import opened Records

  /** `filter { it != x }`: the list without any occurrence of `x`. */
  function Without(s: seq<string>, x: string): (r: seq<string>)
    ensures |r| <= |s|
    ensures forall y :: y in r <==> y in s && y != x
  {
    if s == [] then []
    else if s[0] == x then Without(s[1..], x)
    else [s[0]] + Without(s[1..], x)
  }

  /** `a` is `b` with some elements dropped and the rest kept in their order. */
  predicate IsSubsequence(a: seq<string>, b: seq<string>)
    decreases |b|
  {
    if a == [] then true
    else if b == [] then false
    else if a[0] == b[0] then IsSubsequence(a[1..], b[1..])
    else IsSubsequence(a, b[1..])
  }

  /** Removing `x` keeps every other id, as often as it occurred and in its order, and drops
      every occurrence of `x`. */
  lemma {:induction false} WithoutKeepsOthers(s: seq<string>, x: string)
    ensures IsSubsequence(Without(s, x), s)
    ensures forall y :: y != x ==> multiset(Without(s, x))[y] == multiset(s)[y]
    ensures multiset(Without(s, x))[x] == 0
  {
    if s != [] {
      WithoutKeepsOthers(s[1..], x);
      assert s == [s[0]] + s[1..];
      var rest := Without(s[1..], x);
      if s[0] != x {
        assert Without(s, x) == [s[0]] + rest;
        assert Without(s, x)[1..] == rest;
      }
    }
  }

  lemma {:induction false} WithoutAbsent(s: seq<string>, x: string)
    requires x !in s
    ensures Without(s, x) == s
  {
    if s != [] {
      WithoutAbsent(s[1..], x);
      assert [s[0]] + s[1..] == s;
    }
  }

  lemma {:induction false} WithoutAppend(s: seq<string>, t: seq<string>, x: string)
    ensures Without(s + t, x) == Without(s, x) + Without(t, x)
  {
    if s == [] {
      assert s + t == t;
    } else {
      assert (s + t)[0] == s[0] && (s + t)[1..] == s[1..] + t;
      WithoutAppend(s[1..], t, x);
    }
  }

  /** The new likes list of the like transaction: unlike when the user is in it, like otherwise. */
  function ToggleLike(likes: seq<string>, userId: string): (r: seq<string>)
    ensures userId in r <==> userId !in likes
    ensures forall y :: y != userId ==> (y in r <==> y in likes)
  {
    if userId in likes then Without(likes, userId) else likes + [userId]
  }

  /** Unliking removes every occurrence of the user's id and keeps the other ids in order. */
  lemma ToggleLikeUnlike(likes: seq<string>, userId: string)
    requires userId in likes
    ensures IsSubsequence(ToggleLike(likes, userId), likes)
    ensures multiset(ToggleLike(likes, userId))[userId] == 0
    ensures forall y :: y != userId ==> multiset(ToggleLike(likes, userId))[y] == multiset(likes)[y]
  {
    WithoutKeepsOthers(likes, userId);
  }

  /** Liking appends the user's id and leaves the list before it as it was. */
  lemma ToggleLikeLike(likes: seq<string>, userId: string)
    requires userId !in likes
    ensures |ToggleLike(likes, userId)| == |likes| + 1
    ensures ToggleLike(likes, userId)[..|likes|] == likes
    ensures ToggleLike(likes, userId)[|likes|] == userId
  {
  }

  /** Liking and then unliking restores the list. */
  lemma ToggleLikeTwice(likes: seq<string>, userId: string)
    requires userId !in likes
    ensures ToggleLike(ToggleLike(likes, userId), userId) == likes
  {
    WithoutAppend(likes, [userId], userId);
    WithoutAbsent(likes, userId);
    assert Without([userId], userId) == [];
  }

  /** `toggleLike`: nothing happens without a signed-in user; a stored post without a likes
      list counts as liked by nobody. */
  function LikeTransaction(user: Option<AuthUser>, storedLikes: Option<seq<string>>): (r: Option<seq<string>>)
    ensures r.None? <==> user.None?
    ensures r.Some? ==> (user.value.uid in r.value <==>
                         !(storedLikes.Some? && user.value.uid in storedLikes.value))
  {
    if user.None? then None
    else
      var currentLikes := if storedLikes.Some? then storedLikes.value else [];
      Some(ToggleLike(currentLikes, user.value.uid))
  }

  // ---------------------------------------------------------------------------
  // Posting a question

  datatype PostCheck = EmptyQuestion | QuestionTooShort | Accepted(question: string)

  /** The post button: the trimmed question must be nonempty, and then at least 10 characters. */
  function CheckQuestion(input: string): (r: PostCheck)
    ensures r.EmptyQuestion? <==> AllWhitespace(input)
    ensures r.QuestionTooShort? <==> !AllWhitespace(input) && |Trim(input)| < 10
    ensures r.Accepted? ==> r.question == Trim(input) && 10 <= |r.question|
                            && !IsWhitespace(r.question[0]) && !IsWhitespace(r.question[|r.question| - 1])
  {
    var questionText := Trim(input);
    if |questionText| == 0 then EmptyQuestion
    else if |questionText| < 10 then QuestionTooShort
    else Accepted(questionText)
  }

  /** `createPost`: the record stored for a new question, or None without a signed-in user.
      The store assigns the document id when the record is added. */
  function NewPost(user: Option<AuthUser>, questionText: string, now: int): (r: Option<CommunityPost>)
    ensures r.None? <==> user.None?
    ensures r.Some? ==> r.value.likes == [] && r.value.commentCount == 0
                        && r.value.question == questionText && r.value.timestamp == now
                        && r.value.userId == user.value.uid
                        && r.value.userName == (if user.value.displayName.Some? then user.value.displayName.value else "")
                        && r.value.userEmail == (if user.value.email.Some? then user.value.email.value else "")
  {
    if user.None? then None
    else
      var u := user.value;
      Some(CommunityPost("", u.uid, if u.displayName.Some? then u.displayName.value else "",
                         if u.email.Some? then u.email.value else "", questionText, now, [], 0))
  }

  /** A question that passes the check reaches the store trimmed and at least 10 characters
      long, with no likes or comments yet. */
  lemma AcceptedQuestionPosted(input: string, user: AuthUser, now: int)
    requires CheckQuestion(input).Accepted?
    ensures var post := NewPost(Some(user), CheckQuestion(input).question, now).value;
            post.question == Trim(input) && |post.question| >= 10 && post.likes == [] && post.commentCount == 0
  {
  }

  // ---------------------------------------------------------------------------
  // Sending a comment

  /** Kotlin's `Int + 1`, which wraps from the largest to the smallest value. */
  function Increment(n: Int32): (r: Int32)
    ensures n < 0x7FFF_FFFF ==> r as int == n as int + 1
    ensures n == 0x7FFF_FFFF ==> r as int == -0x8000_0000
  {
    if n == 0x7FFF_FFFF then -0x8000_0000 else n + 1
  }

  datatype CommentCheck = EmptyComment | NotSignedIn | Send(comment: Comment, newCount: Int32)

  /** The send button of the comments sheet: the trimmed text must be nonempty and a user
      signed in; the comment is then stored and the post's count set to one more than the
      count of the post as it was when the sheet opened. */
  function CheckComment(input: string, user: Option<AuthUser>, post: CommunityPost, now: int): (r: CommentCheck)
    ensures r.EmptyComment? <==> AllWhitespace(input)
    ensures r.NotSignedIn? <==> !AllWhitespace(input) && user.None?
    ensures r.Send? ==> r.comment.text == Trim(input) && r.comment.text != []
                        && r.comment.postId == post.id && r.comment.userId == user.value.uid
                        && r.comment.timestamp == now && r.newCount == Increment(post.commentCount)
                        && r.comment.userName == (if user.value.displayName.Some? then user.value.displayName.value else "")
                        && r.comment.userEmail == (if user.value.email.Some? then user.value.email.value else "")
  {
    var commentText := Trim(input);
    if |commentText| == 0 then EmptyComment
    else if user.None? then NotSignedIn
    else
      var u := user.value;
      Send(Comment("", post.id, u.uid, if u.displayName.Some? then u.displayName.value else "",
                   if u.email.Some? then u.email.value else "", commentText, now),
           Increment(post.commentCount))
  }

  /** The new count depends only on the captured post, not on comments sent meanwhile: two
      comments sent from the same sheet both write the same count. */
  lemma CommentCountFromCapturedPost(a: string, b: string, user: AuthUser, post: CommunityPost, t1: int, t2: int)
    requires CheckComment(a, Some(user), post, t1).Send? && CheckComment(b, Some(user), post, t2).Send?
    ensures CheckComment(a, Some(user), post, t1).newCount == CheckComment(b, Some(user), post, t2).newCount
  {
  }
}
