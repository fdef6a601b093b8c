/**
  The default link pattern of the generator,

      http[s]?://(?:[a-zA-Z]|[0-9]|[$-_@.&+]|[!*(),]|(?:%[0-9a-fA-F][0-9a-fA-F]))+

  as Go's regexp package applies it with FindAllString(body, -1): leftmost-first,
  greedy, non-overlapping matches in order of appearance.

  The class `[$-_@.&+]` holds the range '$'..'_' (0x24..0x5F), which already
  contains the digits, the upper-case letters, '%', '@', '.', '&', '+', '*', '(',
  ')' and ','. The repeated group therefore matches exactly the non-empty runs of
  `Allowed` characters.

  The match chosen at a position is the longest one for a reason particular to
  this group (a greedy `+` alone does not give it: `(?:a|ab)+` on "ab" picks
  "a"). Every character the group accepts is taken by a one-character
  alternative listed before `%[0-9a-fA-F][0-9a-fA-F]`, since '%' itself lies in
  '$'..'_'. So each preferred iteration of the `+` consumes exactly one
  character, and the iterations go on until the next character is not allowed:
  the end of the run, which is also the longest match. The module writes the
  matcher as a scanner and proves it against a declarative reading of the
  pattern.
*/
module LinkScan {
  import opened Wrappers

  const Http: string := "http://"
  const Https: string := "https://"

  // ---------------------------------------------------------------------------
  // The pattern as written

  /** One character of the class alternatives `[a-zA-Z]|[0-9]|[$-_@.&+]|[!*(),]`. */
  predicate InClassAlternative(c: char) {
    ('a' <= c <= 'z') || ('A' <= c <= 'Z') || ('0' <= c <= '9')
    || ('$' <= c <= '_') || c == '@' || c == '.' || c == '&' || c == '+'
    || c == '!' || c == '*' || c == '(' || c == ')' || c == ','
  }

  predicate IsHexDigit(c: char) {
    ('0' <= c <= '9') || ('a' <= c <= 'f') || ('A' <= c <= 'F')
  }

  /** One iteration of the repeated group: a class character or a `%HH` escape. */
  predicate IsGroupItem(t: string) {
    (|t| == 1 && InClassAlternative(t[0]))
    || (|t| == 3 && t[0] == '%' && IsHexDigit(t[1]) && IsHexDigit(t[2]))
  }

  /** `t` is matched by the group repeated one or more times. */
  predicate GroupPlus(t: string)
    ensures GroupPlus(t) ==> 0 < |t|
    decreases |t|
  {
    IsGroupItem(t)
    || (|t| > 1 && IsGroupItem(t[..1]) && GroupPlus(t[1..]))
    || (|t| > 3 && IsGroupItem(t[..3]) && GroupPlus(t[3..]))
  }

  /** A match of the whole pattern occupies `s[p..e]`. */
  ghost predicate IsMatch(s: string, p: nat, e: nat)
    ensures IsMatch(s, p, e) ==> p + |Http| < e <= |s|
  {
    p <= e <= |s| &&
    ((p + |Https| <= e && s[p..p + |Https|] == Https && GroupPlus(s[p + |Https|..e]))
     || (p + |Http| <= e && s[p..p + |Http|] == Http && GroupPlus(s[p + |Http|..e])))
  }

  // ---------------------------------------------------------------------------
  // The scanner

  /** The characters the repeated group accepts: '!', '$'..'_' and 'a'..'z'. */
  predicate Allowed(c: char) {
    c == '!' || ('$' <= c <= '_') || ('a' <= c <= 'z')
  }

  /** A string the default pattern can return: a scheme and a non-empty run of allowed characters. */
  predicate IsHttpUrl(u: string) {
    (|u| > |Https| && u[..|Https|] == Https && forall k :: |Https| <= k < |u| ==> Allowed(u[k]))
    || (|u| > |Http| && u[..|Http|] == Http && forall k :: |Http| <= k < |u| ==> Allowed(u[k]))
  }

  /** The repeated group of the pattern matches exactly the non-empty runs of allowed characters. */
  lemma {:induction false} GroupPlusIsAllowedRun(t: string)
    ensures GroupPlus(t) <==> |t| > 0 && forall k :: 0 <= k < |t| ==> Allowed(t[k])
  {
    if |t| > 1 {
      GroupPlusIsAllowedRun(t[1..]);
      if |t| > 3 {
        GroupPlusIsAllowedRun(t[3..]);
      }
      if GroupPlus(t) && !IsGroupItem(t) {
        forall k | 0 <= k < |t| ensures Allowed(t[k]) {
          if IsGroupItem(t[..1]) && GroupPlus(t[1..]) {
            if k == 0 { assert t[..1][0] == t[0]; } else { assert t[1..][k - 1] == t[k]; }
          } else {
            if k < 3 { assert t[..3][k] == t[k]; } else { assert t[3..][k - 3] == t[k]; }
          }
        }
      }
      if forall k :: 0 <= k < |t| ==> Allowed(t[k]) {
        assert t[..1][0] == t[0];
        assert IsGroupItem(t[..1]);
        assert forall k :: 0 <= k < |t[1..]| ==> t[1..][k] == t[k + 1];
      }
    }
  }

  /** Length of the scheme `http[s]?://` at position `p`, or 0 when there is none. */
  function SchemeLen(s: string, p: nat): (h: nat)
    requires p <= |s|
    ensures h == 0 || h == |Http| || h == |Https|
    ensures h == |Https| <==> p + |Https| <= |s| && s[p..p + |Https|] == Https
    ensures h == |Http| <==> p + |Http| <= |s| && s[p..p + |Http|] == Http
  {
    if p + |Https| <= |s| && s[p..p + |Https|] == Https then
      assert s[p + 4] == s[p..p + |Https|][4] == 's';
      assert p + |Http| <= |s| ==> s[p..p + |Http|][4] == 's';
      |Https|
    else if p + |Http| <= |s| && s[p..p + |Http|] == Http then
      assert s[p + 4] == s[p..p + |Http|][4] == ':';
      |Http|
    else 0
  }

  /** End of the maximal run of allowed characters that starts at `p`. */
  function RunEnd(s: string, p: nat): (e: nat)
    requires p <= |s|
    ensures p <= e <= |s|
    ensures forall k :: p <= k < e ==> Allowed(s[k])
    ensures e == |s| || !Allowed(s[e])
    decreases |s| - p
  {
    if p < |s| && Allowed(s[p]) then RunEnd(s, p + 1) else p
  }

  /** End of the match the pattern picks at position `p`, if one starts there. */
  function MatchEnd(s: string, p: nat): (m: Option<nat>)
    requires p <= |s|
    ensures m.Some? ==> p + |Http| < m.value <= |s|
    ensures m.Some? ==> m.value == |s| || !Allowed(s[m.value])
  {
    var h := SchemeLen(s, p);
    if h == 0 then None
    else
      var e := RunEnd(s, p + h);
      if e == p + h then None else Some(e)
  }

  /**
    At each position the scanner finds the match that leftmost-first, greedy
    matching of the pattern picks there, and none when no match of the pattern
    starts there. Each preferred iteration of the group takes one allowed
    character, so that match ends at the end of the run, which this lemma
    shows is the longest match.
  */
  lemma MatchEndIsLongestMatch(s: string, p: nat)
    requires p <= |s|
    ensures MatchEnd(s, p).Some? ==> IsMatch(s, p, MatchEnd(s, p).value)
    ensures forall e: nat :: IsMatch(s, p, e) ==> MatchEnd(s, p).Some? && e <= MatchEnd(s, p).value
  {
    if MatchEnd(s, p).Some? {
      MatchEndIsMatch(s, p);
    }
    forall e: nat | IsMatch(s, p, e) ensures MatchEnd(s, p).Some? && e <= MatchEnd(s, p).value {
      MatchWithinMatchEnd(s, p, e);
    }
  }

  /** What the scanner reports at `p` is a match of the pattern. */
  lemma MatchEndIsMatch(s: string, p: nat)
    requires p <= |s| && MatchEnd(s, p).Some?
    ensures IsMatch(s, p, MatchEnd(s, p).value)
  {
    var h := SchemeLen(s, p);
    var e := MatchEnd(s, p).value;
    var run := s[p + h..e];
    GroupPlusIsAllowedRun(run);
    assert forall k :: 0 <= k < |run| ==> run[k] == s[p + h + k];
  }

  /** A match of the pattern at `p` ends no later than the one the scanner reports. */
  lemma MatchWithinMatchEnd(s: string, p: nat, e: nat)
    requires IsMatch(s, p, e)
    ensures MatchEnd(s, p).Some? && e <= MatchEnd(s, p).value
  {
    var h := SchemeLen(s, p);
    var h' := if p + |Https| <= e && s[p..p + |Https|] == Https && GroupPlus(s[p + |Https|..e])
              then |Https| else |Http|;
    assert h' == h;
    var run := s[p + h..e];
    GroupPlusIsAllowedRun(run);
    assert forall k :: p + h <= k < e ==> s[k] == run[k - p - h];
    RunEndCovers(s, p + h, e);
  }

  /** A run of allowed characters from `a` to `e` ends no later than the maximal one. */
  lemma {:induction false} RunEndCovers(s: string, a: nat, e: nat)
    requires a <= e <= |s|
    requires forall k :: a <= k < e ==> Allowed(s[k])
    ensures e <= RunEnd(s, a)
    decreases e - a
  {
    if a < e {
      RunEndCovers(s, a + 1, e);
    }
  }

  /** A match occupying s[start..end]. */
  datatype Span = Span(start: nat, end: nat)

  /** The successive non-overlapping matches found scanning from position `p`. */
  function MatchesFrom(s: string, p: nat): (spans: seq<Span>)
    requires p <= |s|
    ensures forall k :: 0 <= k < |spans| ==>
      p <= spans[k].start < spans[k].end <= |s| && MatchEnd(s, spans[k].start) == Some(spans[k].end)
    ensures forall k :: 0 <= k < |spans| ==> spans[k].end == |s| || !Allowed(s[spans[k].end])
    ensures forall k :: 0 <= k < |spans| - 1 ==> spans[k].end <= spans[k + 1].start
    decreases |s| - p
  {
    if p == |s| then []
    else match MatchEnd(s, p)
      case Some(e) => [Span(p, e)] + MatchesFrom(s, e)
      case None => MatchesFrom(s, p + 1)
  }

  /** Position `q` lies inside one of the matches `spans`. */
  predicate Covers(spans: seq<Span>, q: nat) {
    exists k :: 0 <= k < |spans| && spans[k].start <= q < spans[k].end
  }

  /**
    Leftmost: every position at which a match of the pattern could start lies
    inside one of the reported matches, so no match is skipped and the gaps
    between reported matches hold no match.
  */
  lemma {:induction false} MatchesFromCoversEveryMatch(s: string, p: nat, q: nat)
    requires p <= q < |s| && MatchEnd(s, q).Some?
    ensures Covers(MatchesFrom(s, p), q)
    decreases |s| - p
  {
    var m := MatchEnd(s, p);
    if m.Some? {
      var e := m.value;
      var spans := MatchesFrom(s, p);
      assert spans == [Span(p, e)] + MatchesFrom(s, e);
      if q < e {
        assert spans[0].start <= q < spans[0].end;
      } else {
        MatchesFromCoversEveryMatch(s, e, q);
        CoversAfter([Span(p, e)], MatchesFrom(s, e), q);
      }
    } else {
      MatchesFromCoversEveryMatch(s, p + 1, q);
    }
  }

  /** A position inside one of the later matches is inside one of all of them. */
  lemma CoversAfter(head: seq<Span>, tail: seq<Span>, q: nat)
    requires Covers(tail, q)
    ensures Covers(head + tail, q)
  {
    var k :| 0 <= k < |tail| && tail[k].start <= q < tail[k].end;
    assert (head + tail)[|head| + k] == tail[k];
  }

  /** FindAllString with the default pattern: the matched substrings, in order. */
  function FindAll(s: string): (urls: seq<string>)
    ensures forall k :: 0 <= k < |urls| ==> IsHttpUrl(urls[k])
  {
    var spans := MatchesFrom(s, 0);
    seq(|spans|, k requires 0 <= k < |spans| => s[spans[k].start..spans[k].end])
  }

  /** Scanning across positions where no match starts changes nothing. */
  lemma {:induction false} MatchesFromSkips(s: string, p: nat, q: nat)
    requires p <= q <= |s|
    requires forall x :: p <= x < q ==> MatchEnd(s, x).None?
    ensures MatchesFrom(s, p) == MatchesFrom(s, q)
    decreases q - p
  {
    if p < q {
      MatchesFromSkips(s, p + 1, q);
    }
  }

  /** No match starts at a character other than 'h'. */
  lemma NoMatchAwayFromH(s: string, p: nat, q: nat)
    requires p <= q <= |s|
    requires forall x :: p <= x < q ==> s[x] != 'h'
    ensures forall x :: p <= x < q ==> MatchEnd(s, x).None?
  {
    forall x | p <= x < q ensures MatchEnd(s, x).None? {
      if x + |Http| <= |s| { assert s[x..x + |Http|][0] == s[x]; }
      if x + |Https| <= |s| { assert s[x..x + |Https|][0] == s[x]; }
    }
  }

  /** A maximal run of allowed characters determines RunEnd. */
  lemma RunEndIs(s: string, p: nat, e: nat)
    requires p <= e <= |s|
    requires forall k :: p <= k < e ==> Allowed(s[k])
    requires e == |s| || !Allowed(s[e])
    ensures RunEnd(s, p) == e
  {
  }

  /** A sample body holding two links amid plain words. */
  const SampleBody: string := "visit " + "http://example.com/page" + " and " + "https://foo.bar" + " now"

  /** No match follows the second link of the sample body. */
  lemma SampleBodyEnd()
    ensures MatchesFrom(SampleBody, 49) == []
  {
    var s := SampleBody;
    assert forall x :: 49 <= x < 53 ==> s[x] != 'h';
    NoMatchAwayFromH(s, 49, 53);
    MatchesFromSkips(s, 49, 53);
  }

  /** The second link of the sample body. */
  lemma SampleBodySecond()
    ensures MatchEnd(SampleBody, 34) == Some(49)
  {
    var s := SampleBody;
    assert s[34..42] == Https;
    assert forall k :: 42 <= k < 49 ==> Allowed(s[k]);
    RunEndIs(s, 42, 49);
  }

  /** The sample body after its first link holds one more match. */
  lemma SampleBodyTail()
    ensures MatchesFrom(SampleBody, 29) == [Span(34, 49)]
  {
    var s := SampleBody;
    SampleBodyEnd();
    SampleBodySecond();
    assert MatchesFrom(s, 34) == [Span(34, 49)] + MatchesFrom(s, 49);
    assert forall x :: 29 <= x < 34 ==> s[x] != 'h';
    NoMatchAwayFromH(s, 29, 34);
    MatchesFromSkips(s, 29, 34);
  }

  /** The first link of the sample body. */
  lemma SampleBodyHead()
    ensures MatchEnd(SampleBody, 6) == Some(29)
  {
    var s := SampleBody;
    assert s[6..13] == Http;
    assert forall k :: 13 <= k < 29 ==> Allowed(s[k]);
    RunEndIs(s, 13, 29);
  }

  /** Where the matches of the sample body lie. */
  lemma SampleBodyMatches()
    ensures MatchesFrom(SampleBody, 0) == [Span(6, 29), Span(34, 49)]
  {
    var s := SampleBody;
    assert forall x :: 0 <= x < 6 ==> s[x] != 'h';
    NoMatchAwayFromH(s, 0, 6);
    MatchesFromSkips(s, 0, 6);
    SampleBodyHead();
    SampleBodyTail();
  }

  /** The default pattern on the sample body yields its two links, in order, the second one ending at the space. */
  lemma SampleBodyLinks()
    ensures FindAll(SampleBody) == ["http://example.com/page", "https://foo.bar"]
  {
    var s := SampleBody;
    SampleBodyMatches();
    SampleBodyPieces();
    var urls := FindAll(s);
    assert |urls| == 2 && urls[0] == s[6..29] && urls[1] == s[34..49];
  }

  /** The text of the two links of the sample body. */
  lemma SampleBodyPieces()
    ensures SampleBody[6..29] == "http://example.com/page"
    ensures SampleBody[34..49] == "https://foo.bar"
  {
  }
}
