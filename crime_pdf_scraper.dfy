/** The bulletin parser: the text of the campus crime log is split into lines, and each line
    is searched for the pattern
        (\d{2}/\d{2}/\d{4})\s+(\d{2}:\d{2})\s+(.*?)\s{2,}(.*)
    with java.util.regex semantics (no flags). The search is written out as the backtracking
    matcher explores it: greedy `\s+`, lazy `.*?`, greedy `\s{2,}`, greedy `.*`, tried at each
    start position from the left.

    The scanning functions promise only the bounds their callers need; what each scan finds
    is proved in the lemma next to it, so that unfolding a match attempt stays cheap. */
module CrimePdfScraper {
  import opened Common
  import opened Records

  /** `\s` without UNICODE_CHARACTER_CLASS: space, tab, newline, vertical tab, form feed, return. */
  predicate IsRegexSpace(c: char) {
    var n := c as int;
    n == 32 || (9 <= n <= 13)
  }

  /** The characters `.` does not match without DOTALL or UNIX_LINES. */
  predicate IsLineTerminator(c: char) {
    var n := c as int;
    n == 10 || n == 13 || n == 0x85 || n == 0x2028 || n == 0x2029
  }

  /** Positions `a` up to `b` of the line hold `\s` characters. */
  predicate SpacesBetween(line: string, a: nat, b: nat) {
    a <= b <= |line| && forall j :: a <= j < b ==> IsRegexSpace(line[j])
  }

  /** Positions `a` up to `b` of the line hold characters `.` matches. */
  predicate DotsBetween(line: string, a: nat, b: nat) {
    a <= b <= |line| && forall j :: a <= j < b ==> !IsLineTerminator(line[j])
  }

  /** `\s{2,}` can start at `i`: two `\s` characters follow. */
  predicate TwoSpacesAt(line: string, i: nat) {
    i + 1 < |line| && IsRegexSpace(line[i]) && IsRegexSpace(line[i + 1])
  }

  /** `\d{2}/\d{2}/\d{4}` at `p`. */
  predicate DateAt(line: string, p: nat) {
    p + 10 <= |line| && IsDigit(line[p]) && IsDigit(line[p + 1]) && line[p + 2] == '/'
    && IsDigit(line[p + 3]) && IsDigit(line[p + 4]) && line[p + 5] == '/'
    && IsDigit(line[p + 6]) && IsDigit(line[p + 7]) && IsDigit(line[p + 8]) && IsDigit(line[p + 9])
  }

  /** `\d{2}:\d{2}` at `t`. */
  predicate TimeAt(line: string, t: nat) {
    t + 5 <= |line| && IsDigit(line[t]) && IsDigit(line[t + 1]) && line[t + 2] == ':'
    && IsDigit(line[t + 3]) && IsDigit(line[t + 4])
  }

  // ---------------------------------------------------------------------------
  // The scans

  /** Greedy `\s*` from `i`: the length of the run of `\s` characters there. */
  function SpaceRun(line: string, i: nat): (r: nat)
    requires i <= |line|
    ensures i + r <= |line|
    decreases |line| - i
  {
    if i < |line| && IsRegexSpace(line[i]) then 1 + SpaceRun(line, i + 1) else 0
  }

  /** The run is all spaces and cannot be extended. */
  lemma {:induction false} SpaceRunMaximal(line: string, i: nat)
    requires i <= |line|
    ensures SpacesBetween(line, i, i + SpaceRun(line, i))
    ensures i + SpaceRun(line, i) == |line| || !IsRegexSpace(line[i + SpaceRun(line, i)])
    decreases |line| - i
  {
    if i < |line| && IsRegexSpace(line[i]) {
      SpaceRunMaximal(line, i + 1);
    }
  }

  /** Any stretch of spaces starting at `i` lies within the run. */
  lemma {:induction false} SpaceRunCovers(line: string, i: nat, k: nat)
    requires SpacesBetween(line, i, i + k)
    ensures SpaceRun(line, i) >= k
    decreases k
  {
    if k > 0 {
      SpaceRunCovers(line, i + 1, k - 1);
    }
  }

  /** Greedy `.*` from `i`: the length of the run of characters `.` matches. */
  function DotRun(line: string, i: nat): (r: nat)
    requires i <= |line|
    ensures i + r <= |line|
    decreases |line| - i
  {
    if i < |line| && !IsLineTerminator(line[i]) then 1 + DotRun(line, i + 1) else 0
  }

  /** The run crosses no line terminator and stops at one or at the end of the line. */
  lemma {:induction false} DotRunMaximal(line: string, i: nat)
    requires i <= |line|
    ensures DotsBetween(line, i, i + DotRun(line, i))
    ensures i + DotRun(line, i) == |line| || IsLineTerminator(line[i + DotRun(line, i)])
    decreases |line| - i
  {
    if i < |line| && !IsLineTerminator(line[i]) {
      DotRunMaximal(line, i + 1);
    }
  }

  /** Lazy `(.*?)` followed by `\s{2,}`, with the location starting at `v`: tries lengths
      `l`, `l + 1`, ... through characters `.` matches until two `\s` characters follow. */
  function LazyLocation(line: string, v: nat, l: nat): (r: Option<nat>)
    requires v + l <= |line|
    ensures r.Some? ==> l <= r.value && v + r.value <= |line|
    decreases |line| - (v + l)
  {
    if TwoSpacesAt(line, v + l) then Some(l)
    else if v + l < |line| && !IsLineTerminator(line[v + l]) then LazyLocation(line, v, l + 1)
    else None
  }

  /** The length found is the shortest: two spaces follow it, none start earlier, and the
      location crosses no line terminator. */
  lemma {:induction false} LazyLocationShortest(line: string, v: nat, l: nat)
    requires v + l <= |line| && LazyLocation(line, v, l).Some?
    ensures TwoSpacesAt(line, v + LazyLocation(line, v, l).value)
    ensures DotsBetween(line, v + l, v + LazyLocation(line, v, l).value)
    ensures forall j :: v + l <= j < v + LazyLocation(line, v, l).value ==> !TwoSpacesAt(line, j)
    decreases |line| - (v + l)
  {
    if !TwoSpacesAt(line, v + l) {
      LazyLocationShortest(line, v, l + 1);
    }
  }

  /** If some location of length at least `l` works, the lazy search finds one no longer. */
  lemma {:induction false} LazyLocationComplete(line: string, v: nat, l: nat, target: nat)
    requires l <= target && DotsBetween(line, v + l, v + target) && TwoSpacesAt(line, v + target)
    ensures LazyLocation(line, v, l).Some? && LazyLocation(line, v, l).value <= target
    decreases target - l
  {
    if !TwoSpacesAt(line, v + l) {
      LazyLocationComplete(line, v, l + 1, target);
    }
  }

  /** Greedy `\s+` before the location, backing off one space at a time from `m` spaces:
      the number of spaces taken and the location length found after them. */
  function SecondGap(line: string, u: nat, m: nat): (r: Option<(nat, nat)>)
    requires u + m <= |line|
    ensures r.Some? ==> 1 <= r.value.0 <= m && u + r.value.0 + r.value.1 <= |line|
    decreases m
  {
    if m == 0 then None
    else
      var location := LazyLocation(line, u + m, 0);
      if location.Some? then Some((m, location.value)) else SecondGap(line, u, m - 1)
  }

  /** The choice made: the location found after the spaces taken. */
  lemma {:induction false} SecondGapFound(line: string, u: nat, m: nat)
    requires u + m <= |line| && SecondGap(line, u, m).Some?
    ensures LazyLocation(line, u + SecondGap(line, u, m).value.0, 0) == Some(SecondGap(line, u, m).value.1)
    decreases m
  {
    if LazyLocation(line, u + m, 0).None? {
      SecondGapFound(line, u, m - 1);
    }
  }

  /** The greedy choice: no longer run of spaces leads to a location, and when nothing is
      found, no choice does. */
  lemma {:induction false} SecondGapGreedy(line: string, u: nat, m: nat)
    requires u + m <= |line|
    ensures SecondGap(line, u, m).Some? ==>
              forall v :: u + SecondGap(line, u, m).value.0 < v <= u + m ==> LazyLocation(line, v, 0).None?
    ensures SecondGap(line, u, m).None? ==> forall v :: u + 1 <= v <= u + m ==> LazyLocation(line, v, 0).None?
    decreases m
  {
    if m > 0 && LazyLocation(line, u + m, 0).None? {
      SecondGapGreedy(line, u, m - 1);
    }
  }

  /** If a location exists after some choice of spaces, the backing-off search succeeds. */
  lemma {:induction false} SecondGapComplete(line: string, u: nat, m: nat, m0: nat)
    requires u + m <= |line| && 1 <= m0 <= m
    requires LazyLocation(line, u + m0, 0).Some?
    ensures SecondGap(line, u, m).Some?
    decreases m
  {
    if m > m0 && LazyLocation(line, u + m, 0).None? {
      SecondGapComplete(line, u, m - 1, m0);
    }
  }

  // ---------------------------------------------------------------------------
  // One match attempt

  /** The positions of one match: where it starts, where the time, the location and the
      offense begin, and where the location and the offense end. */
  datatype Span = Span(start: nat, timeStart: nat, locationStart: nat, locationEnd: nat,
                       offenseStart: nat, offenseEnd: nat)

  /** The positions are in order and within the line. */
  predicate InOrder(line: string, s: Span) {
    s.start + 10 <= s.timeStart && s.timeStart + 5 <= s.locationStart
    && s.locationStart <= s.locationEnd <= s.offenseStart <= s.offenseEnd <= |line|
  }

  /** After the location ends at `w`: greedy `\s{2,}`, then greedy `(.*)`. Neither needs to
      back off, since `.*` matches wherever it starts. */
  function Tail(line: string, p: nat, t: nat, v: nat, w: nat): (s: Span)
    requires p + 10 <= t && t + 5 <= v <= w <= |line|
    ensures InOrder(line, s) && s.start == p && s.timeStart == t && s.locationStart == v && s.locationEnd == w
  {
    var o := w + SpaceRun(line, w);
    Span(p, t, v, w, o, o + DotRun(line, o))
  }

  /** The spaces after the location are taken whole and the offense runs to a line
      terminator or the end of the line. */
  predicate TailShaped(line: string, s: Span)
    requires InOrder(line, s)
  {
    s.locationEnd + 2 <= s.offenseStart && SpacesBetween(line, s.locationEnd, s.offenseStart)
    && (s.offenseStart == |line| || !IsRegexSpace(line[s.offenseStart]))
    && DotsBetween(line, s.offenseStart, s.offenseEnd)
    && (s.offenseEnd == |line| || IsLineTerminator(line[s.offenseEnd]))
  }

  lemma TailSound(line: string, p: nat, t: nat, v: nat, w: nat)
    requires p + 10 <= t && t + 5 <= v <= w <= |line| && TwoSpacesAt(line, w)
    ensures TailShaped(line, Tail(line, p, t, v, w))
  {
    SpaceRunMaximal(line, w);
    SpaceRunCovers(line, w, 2);
    DotRunMaximal(line, w + SpaceRun(line, w));
  }

  /** After the time ends at `u`: greedy `\s+`, lazy `(.*?)`, then the tail. */
  function AfterTime(line: string, p: nat, t: nat): (r: Option<Span>)
    requires p + 10 <= t && t + 5 <= |line|
    ensures r.Some? ==> InOrder(line, r.value) && r.value.start == p && r.value.timeStart == t
  {
    var u := t + 5;
    var gap := SecondGap(line, u, SpaceRun(line, u));
    if gap.None? then None
    else Some(Tail(line, p, t, u + gap.value.0, u + gap.value.0 + gap.value.1))
  }

  /** The location is preceded by a nonempty run of spaces, crosses no line terminator, and
      is as short as the lazy `.*?` makes it: no two spaces start inside it. */
  predicate LocationShaped(line: string, s: Span)
    requires InOrder(line, s)
  {
    s.timeStart + 5 < s.locationStart && SpacesBetween(line, s.timeStart + 5, s.locationStart)
    && DotsBetween(line, s.locationStart, s.locationEnd)
    && (forall j :: s.locationStart <= j < s.locationEnd ==> !TwoSpacesAt(line, j))
  }

  lemma AfterTimeSound(line: string, p: nat, t: nat)
    requires p + 10 <= t && t + 5 <= |line| && AfterTime(line, p, t).Some?
    ensures LocationShaped(line, AfterTime(line, p, t).value)
    ensures TailShaped(line, AfterTime(line, p, t).value)
  {
    var u := t + 5;
    var big := SpaceRun(line, u);
    var gap := SecondGap(line, u, big).value;
    var v, w := u + gap.0, u + gap.0 + gap.1;
    assert AfterTime(line, p, t) == Some(Tail(line, p, t, v, w));
    LocationSound(line, u, big);
    TailSound(line, p, t, v, w);
  }

  lemma LocationSound(line: string, u: nat, big: nat)
    requires u <= |line| && big == SpaceRun(line, u) && SecondGap(line, u, big).Some?
    ensures var gap := SecondGap(line, u, big).value;
      SpacesBetween(line, u, u + gap.0) && DotsBetween(line, u + gap.0, u + gap.0 + gap.1)
      && TwoSpacesAt(line, u + gap.0 + gap.1)
      && forall j :: u + gap.0 <= j < u + gap.0 + gap.1 ==> !TwoSpacesAt(line, j)
  {
    var gap := SecondGap(line, u, big).value;
    SpaceRunMaximal(line, u);
    SecondGapFound(line, u, big);
    LazyLocationShortest(line, u + gap.0, 0);
  }

  /** The match attempt at `p`, or None when the pattern cannot match there. The first `\s+`
      is taken whole: backing off leaves a space where the time's first digit must be
      (FirstGapNoBackoff). */
  function MatchAt(line: string, p: nat): (r: Option<Span>)
    ensures r.Some? ==> r.value.start == p && InOrder(line, r.value)
  {
    if !DateAt(line, p) then None
    else
      var k := SpaceRun(line, p + 10);
      if k == 0 || !TimeAt(line, p + 10 + k) then None
      else AfterTime(line, p, p + 10 + k)
  }

  /** The text matched at a span is the date, a nonempty run of spaces, the time, a nonempty
      run of spaces, the location, at least two spaces, and the offense, with neither the
      location nor the offense crossing a line terminator. */
  predicate WellShaped(line: string, s: Span) {
    InOrder(line, s) && s.start + 10 < s.timeStart && s.timeStart + 5 < s.locationStart
    && s.locationEnd + 2 <= s.offenseStart
    && DateAt(line, s.start)
    && SpacesBetween(line, s.start + 10, s.timeStart)
    && TimeAt(line, s.timeStart)
    && SpacesBetween(line, s.timeStart + 5, s.locationStart)
    && DotsBetween(line, s.locationStart, s.locationEnd)
    && SpacesBetween(line, s.locationEnd, s.offenseStart)
    && DotsBetween(line, s.offenseStart, s.offenseEnd)
  }

  /** Every successful attempt matches the pattern, with the location as short as the lazy
      `.*?` makes it, the spaces after it taken whole, and the offense running to a line
      terminator or the end of the line. */
  lemma MatchAtSound(line: string, p: nat)
    requires MatchAt(line, p).Some?
    ensures WellShaped(line, MatchAt(line, p).value)
    ensures LocationShaped(line, MatchAt(line, p).value)
    ensures TailShaped(line, MatchAt(line, p).value)
  {
    SpaceRunMaximal(line, p + 10);
    AfterTimeSound(line, p, p + 10 + SpaceRun(line, p + 10));
  }

  /** Wherever the pattern can match at all (a date, spaces, a time, spaces, then a location
      without line terminators followed by two spaces), the attempt at that position succeeds. */
  lemma MatchAtComplete(line: string, p: nat, t: nat, v: nat, w: nat)
    requires DateAt(line, p) && p + 10 < t && SpacesBetween(line, p + 10, t)
    requires TimeAt(line, t) && t + 5 < v && SpacesBetween(line, t + 5, v)
    requires DotsBetween(line, v, w) && TwoSpacesAt(line, w)
    ensures MatchAt(line, p).Some?
  {
    SpaceRunCovers(line, p + 10, t - p - 10);
    SpaceRunMaximal(line, p + 10);
    assert !IsRegexSpace(line[t]);
    var u := t + 5;
    SpaceRunCovers(line, u, v - u);
    LazyLocationComplete(line, v, 0, w - v);
    SecondGapComplete(line, u, SpaceRun(line, u), v - u);
  }

  /** The first `\s+` cannot give back a character: the time would have to start with a space. */
  lemma FirstGapNoBackoff(line: string, p: nat, k: nat)
    requires p + 10 <= |line| && 1 <= k < SpaceRun(line, p + 10)
    ensures !TimeAt(line, p + 10 + k)
  {
    SpaceRunMaximal(line, p + 10);
    assert IsRegexSpace(line[p + 10 + k]);
  }

  // ---------------------------------------------------------------------------
  // Searching a line

  /** `regex.find(line)`: the first start position, from `p` on, where a match attempt succeeds. */
  function FindFrom(line: string, p: nat): (r: Option<nat>)
    ensures r.Some? ==> p <= r.value && MatchAt(line, r.value).Some?
    decreases |line| + 1 - p
  {
    if p > |line| then None
    else if MatchAt(line, p).Some? then Some(p)
    else FindFrom(line, p + 1)
  }

  /** `find` tries every start position from the left: the one it reports is the first
      where an attempt succeeds, and when it reports none, every attempt fails. */
  lemma {:induction false} FindFromLeftmost(line: string, p: nat)
    ensures FindFrom(line, p).Some? ==> forall q :: p <= q < FindFrom(line, p).value ==> MatchAt(line, q).None?
    ensures FindFrom(line, p).None? ==> forall q :: p <= q ==> MatchAt(line, q).None?
    decreases |line| + 1 - p
  {
    if p > |line| {
      forall q | p <= q ensures MatchAt(line, q).None? {
        assert !DateAt(line, q);
      }
    } else if MatchAt(line, p).None? {
      FindFromLeftmost(line, p + 1);
    }
  }

  /** The four groups of a match, in capture order. */
  function Groups(line: string, s: Span): (c: Crime)
    requires InOrder(line, s)
    ensures |c.date| == 10 && |c.time| == 5
    ensures |c.location| == s.locationEnd - s.locationStart && |c.offense| == s.offenseEnd - s.offenseStart
  {
    Crime(line[s.start..s.start + 10], line[s.timeStart..s.timeStart + 5],
          line[s.locationStart..s.locationEnd], line[s.offenseStart..s.offenseEnd])
  }

  /** `regex.find(line)?.destructured` made into a `Crime`. */
  function FindCrime(line: string): (r: Option<Crime>)
    ensures r.Some? ==> |r.value.date| == 10 && |r.value.time| == 5
  {
    var p := FindFrom(line, 0);
    if p.None? then None else Some(Groups(line, MatchAt(line, p.value).value))
  }

  /** A line yields a crime exactly when some attempt succeeds, and then it is the groups of
      the leftmost successful attempt. */
  lemma FindCrimeLeftmost(line: string)
    ensures FindCrime(line).Some? <==> exists p :: MatchAt(line, p).Some?
    ensures FindCrime(line).Some? ==>
              var p := FindFrom(line, 0).value;
              FindCrime(line) == Some(Groups(line, MatchAt(line, p).value))
              && forall q :: 0 <= q < p ==> MatchAt(line, q).None?
  {
    FindFromLeftmost(line, 0);
    if FindFrom(line, 0).Some? {
      var p := FindFrom(line, 0).value;
      assert MatchAt(line, p).Some?;
    }
  }

  predicate NoLineTerminator(s: string) {
    forall i :: 0 <= i < |s| ==> !IsLineTerminator(s[i])
  }

  /** The fields of any parsed crime have the shapes the pattern demands: a dd/dd/dddd date,
      a dd:dd time, a location holding no two consecutive spaces, and an offense that does
      not start with a space, neither crossing a line terminator. */
  lemma FindCrimeFields(line: string)
    requires FindCrime(line).Some?
    ensures var c := FindCrime(line).value;
      |c.date| == 10 && AllDigits(c.date[..2]) && c.date[2] == '/' && AllDigits(c.date[3..5])
      && c.date[5] == '/' && AllDigits(c.date[6..])
      && |c.time| == 5 && AllDigits(c.time[..2]) && c.time[2] == ':' && AllDigits(c.time[3..])
      && NoLineTerminator(c.location) && NoLineTerminator(c.offense)
      && (forall i :: 0 <= i < |c.location| - 1 ==> !(IsRegexSpace(c.location[i]) && IsRegexSpace(c.location[i + 1])))
      && (c.offense == [] || !IsRegexSpace(c.offense[0]))
  {
    var p := FindFrom(line, 0).value;
    var s := MatchAt(line, p).value;
    MatchAtSound(line, p);
    assert FindCrime(line) == Some(Groups(line, s));
    DateFields(line, p);
    TimeFields(line, s.timeStart);
    LocationFields(line, s);
    OffenseFields(line, s);
  }

  lemma LocationFields(line: string, s: Span)
    requires InOrder(line, s) && LocationShaped(line, s)
    ensures var location := line[s.locationStart..s.locationEnd];
      NoLineTerminator(location)
      && forall i :: 0 <= i < |location| - 1 ==> !(IsRegexSpace(location[i]) && IsRegexSpace(location[i + 1]))
  {
    var location := line[s.locationStart..s.locationEnd];
    forall i | 0 <= i < |location| ensures !IsLineTerminator(location[i]) {
      assert location[i] == line[s.locationStart + i];
    }
    forall i | 0 <= i < |location| - 1
      ensures !(IsRegexSpace(location[i]) && IsRegexSpace(location[i + 1]))
    {
      assert location[i] == line[s.locationStart + i] && location[i + 1] == line[s.locationStart + i + 1];
      assert !TwoSpacesAt(line, s.locationStart + i);
    }
  }

  lemma OffenseFields(line: string, s: Span)
    requires InOrder(line, s) && TailShaped(line, s)
    ensures var offense := line[s.offenseStart..s.offenseEnd];
      NoLineTerminator(offense) && (offense == [] || !IsRegexSpace(offense[0]))
  {
    var offense := line[s.offenseStart..s.offenseEnd];
    forall i | 0 <= i < |offense| ensures !IsLineTerminator(offense[i]) {
      assert offense[i] == line[s.offenseStart + i];
    }
  }

  lemma DateFields(line: string, p: nat)
    requires DateAt(line, p)
    ensures var d := line[p..p + 10];
      AllDigits(d[..2]) && d[2] == '/' && AllDigits(d[3..5]) && d[5] == '/' && AllDigits(d[6..])
  {
    var d := line[p..p + 10];
    assert d[..2] == [line[p], line[p + 1]];
    assert d[3..5] == [line[p + 3], line[p + 4]];
    assert d[6..] == [line[p + 6], line[p + 7], line[p + 8], line[p + 9]];
  }

  lemma TimeFields(line: string, t: nat)
    requires TimeAt(line, t)
    ensures var d := line[t..t + 5];
      AllDigits(d[..2]) && d[2] == ':' && AllDigits(d[3..])
  {
    var d := line[t..t + 5];
    assert d[..2] == [line[t], line[t + 1]];
    assert d[3..] == [line[t + 3], line[t + 4]];
  }

  // ---------------------------------------------------------------------------
  // The whole text

  /** The crimes of a sequence of lines: at most one per line, in line order. */
  function CrimesOf(lines: seq<string>): (r: seq<Crime>)
    ensures |r| <= |lines|
  {
    if lines == [] then []
    else
      var found := FindCrime(lines[|lines| - 1]);
      CrimesOf(lines[..|lines| - 1]) + (if found.Some? then [found.value] else [])
  }

  /** Lines are examined independently: the crimes of two blocks of lines are those of the
      first block followed by those of the second. */
  lemma {:induction false} CrimesOfAppend(a: seq<string>, b: seq<string>)
    ensures CrimesOf(a + b) == CrimesOf(a) + CrimesOf(b)
    decreases |b|
  {
    if b == [] {
      assert a + b == a;
    } else {
      var b' := b[..|b| - 1];
      assert (a + b)[..|a + b| - 1] == a + b';
      CrimesOfAppend(a, b');
    }
  }

  /** A single line yields exactly the crime `find` extracts from it, or nothing. */
  lemma CrimesOfLine(line: string)
    ensures FindCrime(line).Some? ==> CrimesOf([line]) == [FindCrime(line).value]
    ensures FindCrime(line).None? ==> CrimesOf([line]) == []
  {
    assert [line][..0] == [];
  }

  /** `parsePdfText`: split on '\n' only, then at most one crime per line, in order. */
  method ParsePdfText(text: string) returns (reports: seq<Crime>)
    ensures reports == CrimesOf(Split(text, '\n'))
    ensures |reports| <= |Split(text, '\n')|
  {
    reports := [];
    var lines := Split(text, '\n');
    for i := 0 to |lines|
      invariant reports == CrimesOf(lines[..i])
    {
      assert lines[..i + 1][..i] == lines[..i];
      var found := FindCrime(lines[i]);
      if found.Some? {
        reports := reports + [found.value];
      }
    }
    assert lines[..|lines|] == lines;
  }
}
