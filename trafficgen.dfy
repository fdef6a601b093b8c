/**
  The traffic generator: construction with fail-fast validation, the setter for
  the link pattern, link extraction from a response body, and the round-based
  random traversal of `Start`.

  Everything `Start` consults outside the generator is an explicit input, an
  `Oracle`: whether the `select` takes the expiry case, what the HTTP client
  returns, and what `rand.Intn` draws.
*/
module TrafficGen {
  import opened Wrappers
  import LinkScan

  // ---------------------------------------------------------------------------
  // Construction

  /** Why `NewGenerator` refuses its arguments. */
  datatype ConfigError =
    | UrlParseError(url: string)   // the error url.Parse gave for this root URL
    | MaxDepthTooSmall             // "maxDepth in NewGenerator must be at least 1"
    | TimeoutNotPositive           // "timeout in NewGenerator must be a positive duration"

  /**
    The error of the first root URL that does not parse, if any. Whether a string
    parses as a URL is the predicate `parses`.
  */
  function ValidateGeneratorUrls(urls: seq<string>, parses: string -> bool): (err: Option<ConfigError>)
    ensures err.None? <==> forall k :: 0 <= k < |urls| ==> parses(urls[k])
    ensures err.Some? ==> exists k ::
      && 0 <= k < |urls| && err.value == UrlParseError(urls[k]) && !parses(urls[k])
      && forall m :: 0 <= m < k ==> parses(urls[m])
  {
    if urls == [] then None
    else if !parses(urls[0]) then Some(UrlParseError(urls[0]))
    else
      var err := ValidateGeneratorUrls(urls[1..], parses);
      assert forall k :: 0 <= k < |urls[1..]| ==> urls[1..][k] == urls[k + 1];
      err
  }

  /** The outcome of NewGenerator's checks, made in the source's order: URLs, then depth, then timeout. */
  function CheckConfig(urls: seq<string>, maxDepth: int, timeout: int, parses: string -> bool)
    : (err: Option<ConfigError>)
    ensures err.None? <==>
      (forall k :: 0 <= k < |urls| ==> parses(urls[k])) && maxDepth >= 1 && timeout > 0
    ensures (err.Some? && err.value.UrlParseError?) <==> exists k :: 0 <= k < |urls| && !parses(urls[k])
    ensures err == Some(MaxDepthTooSmall) <==>
      (forall k :: 0 <= k < |urls| ==> parses(urls[k])) && maxDepth < 1
    ensures err == Some(TimeoutNotPositive) <==>
      (forall k :: 0 <= k < |urls| ==> parses(urls[k])) && maxDepth >= 1 && timeout <= 0
    ensures ValidateGeneratorUrls(urls, parses).Some? ==> err == ValidateGeneratorUrls(urls, parses)
  {
    var urlErr := ValidateGeneratorUrls(urls, parses);
    if urlErr.Some? then urlErr
    else if maxDepth < 1 then Some(MaxDepthTooSmall)
    else if timeout <= 0 then Some(TimeoutNotPositive)
    else None
  }

  // ---------------------------------------------------------------------------
  // Link extraction

  /** The generator's link pattern, as what its FindAllString(text, -1) returns. */
  datatype Pattern = Pattern(findAll: string -> seq<string>)

  /** The pattern NewGenerator installs, matched as the scanner of LinkScan does. */
  const DefaultPattern: Pattern := Pattern(LinkScan.FindAll)

  /** Reading a response body: its contents, or a read error. */
  datatype BodyRead = ReadOk(contents: string) | ReadFailed

  /** getUrls: all matches of the pattern in the body; nothing when the body cannot be read. */
  function GetUrls(body: BodyRead, pattern: Pattern): (urls: seq<string>)
    ensures body.ReadFailed? ==> urls == []
  {
    match body
    case ReadFailed => []
    case ReadOk(contents) => pattern.findAll(contents)
  }

  // ---------------------------------------------------------------------------
  // The world outside the traversal

  /** What `client.Get` returns: a transport error, or a response whose body is then read. */
  datatype Response = Failed | Fetched(body: BodyRead)

  /**
    Inputs of one run of `Start`, indexed by the URL being processed: `j`-th URL of round `i`.
    - `expired(i, j)`: the `select` takes the expiry case before that URL's request;
    - `get(i, j, url)`: what the request for that URL returns;
    - `intn(i, j, d, n)`: the value of `rand.Intn(n)` for that URL; draw 0 is the
      branch count, draw `k + 1` picks the `k`-th link.
  */
  datatype Oracle = Oracle(
    expired: (nat, nat) -> bool,
    get: (nat, nat, string) -> Response,
    intn: (nat, nat, nat, nat) -> nat)

  /** `rand.Intn(n)` returns a value in [0, n). */
  ghost predicate DrawsInRange(o: Oracle) {
    forall i, j, d, n :: 0 < n ==> o.intn(i, j, d, n) < n
  }

  /** rand.Intn: defined only for a positive bound (Go panics otherwise), result below it. */
  function Intn(o: Oracle, i: nat, j: nat, d: nat, n: nat): (r: nat)
    requires DrawsInRange(o) && 0 < n
    ensures r < n
  {
    o.intn(i, j, d, n)
  }

  // ---------------------------------------------------------------------------
  // The traversal, as functions of the oracle

  /** The links extracted for URL `j` of round `i`: none when the request fails. */
  function Visit(o: Oracle, pattern: Pattern, i: nat, j: nat, url: string): (links: seq<string>)
    ensures o.get(i, j, url).Failed? ==> links == []
    ensures o.get(i, j, url).Fetched? && o.get(i, j, url).body.ReadFailed? ==> links == []
  {
    match o.get(i, j, url)
    case Failed => []
    case Fetched(body) => GetUrls(body, pattern)
  }

  /** The links picked by draws `1..count` for URL `j` of round `i`, with replacement. */
  function Picks(o: Oracle, i: nat, j: nat, links: seq<string>, count: nat): (picked: seq<string>)
    requires DrawsInRange(o) && |links| > 0
    ensures |picked| == count
  {
    if count == 0 then []
    else Picks(o, i, j, links, count - 1) + [links[Intn(o, i, j, count, |links|)]]
  }

  /**
    What processing URL `j` of round `i` appends to round `i + 1`: nothing when
    no links were extracted, otherwise `rand.Intn(depth - i)` links drawn with
    replacement.
  */
  function Branches(o: Oracle, pattern: Pattern, depth: nat, i: nat, j: nat, url: string): (added: seq<string>)
    requires DrawsInRange(o) && i < depth
    ensures |added| < depth - i
  {
    var links := Visit(o, pattern, i, j, url);
    if |links| == 0 then [] else Picks(o, i, j, links, Intn(o, i, j, 0, depth - i))
  }

  /** Every picked link is one of the extracted links. */
  lemma {:induction false} PicksFromLinks(o: Oracle, i: nat, j: nat, links: seq<string>, count: nat)
    requires DrawsInRange(o) && |links| > 0
    ensures forall k :: 0 <= k < count ==> Picks(o, i, j, links, count)[k] in links
  {
    if count > 0 {
      PicksFromLinks(o, i, j, links, count - 1);
    }
  }

  /**
    A failed request or an empty extraction appends nothing; otherwise every
    appended URL is a link extracted from that URL's response.
  */
  lemma BranchesFromLinks(o: Oracle, pattern: Pattern, depth: nat, i: nat, j: nat, url: string)
    requires DrawsInRange(o) && i < depth
    ensures o.get(i, j, url).Failed? ==> Branches(o, pattern, depth, i, j, url) == []
    ensures Visit(o, pattern, i, j, url) == [] ==> Branches(o, pattern, depth, i, j, url) == []
    ensures forall k :: 0 <= k < |Branches(o, pattern, depth, i, j, url)| ==>
      Branches(o, pattern, depth, i, j, url)[k] in Visit(o, pattern, i, j, url)
  {
    var links := Visit(o, pattern, i, j, url);
    if |links| > 0 {
      PicksFromLinks(o, i, j, links, Intn(o, i, j, 0, depth - i));
    }
  }

  /**
    Round `i + 1` as processing the URLs `frontier` of round `i`, in order,
    builds it. In the last round the branch count is `rand.Intn(1) == 0`, so
    nothing is appended past the table.
  */
  function Expand(o: Oracle, pattern: Pattern, depth: nat, i: nat, frontier: seq<string>): (next: seq<string>)
    requires DrawsInRange(o) && i < depth
    ensures i + 1 == depth ==> next == []
    decreases |frontier|
  {
    if frontier == [] then []
    else
      var j := |frontier| - 1;
      Expand(o, pattern, depth, i, frontier[..j]) + Branches(o, pattern, depth, i, j, frontier[j])
  }

  /** Processing one more URL of the round appends that URL's branches. */
  lemma ExpandStep(o: Oracle, pattern: Pattern, depth: nat, i: nat, frontier: seq<string>, j: nat)
    requires DrawsInRange(o) && i < depth && j < |frontier|
    ensures Expand(o, pattern, depth, i, frontier[..j + 1])
            == Expand(o, pattern, depth, i, frontier[..j]) + Branches(o, pattern, depth, i, j, frontier[j])
  {
    assert frontier[..j + 1][..j] == frontier[..j];
  }

  /**
    One step of the loop over round `i`: if round `i + 1` is the expansion of
    the first `j` URLs, appending the branches of URL `j` makes it the
    expansion of the first `j + 1`.
  */
  lemma RoundStep(o: Oracle, pattern: Pattern, depth: nat, i: nat, round: seq<string>, j: nat,
                  prev: seq<string>, next: seq<string>)
    requires DrawsInRange(o) && i < depth && j < |round|
    requires prev == Expand(o, pattern, depth, i, round[..j])
    requires next == prev + Branches(o, pattern, depth, i, j, round[j])
    ensures next == Expand(o, pattern, depth, i, round[..j + 1])
  {
    ExpandStep(o, pattern, depth, i, round, j);
  }

  /** Each URL of round `i` adds fewer than `depth - i` links, so the round grows by at most that factor. */
  lemma {:induction false} ExpandBound(o: Oracle, pattern: Pattern, depth: nat, i: nat, frontier: seq<string>)
    requires DrawsInRange(o) && i < depth
    ensures |Expand(o, pattern, depth, i, frontier)| <= Times(|frontier|, depth - i - 1)
    decreases |frontier|
  {
    if frontier != [] {
      ExpandBound(o, pattern, depth, i, frontier[..|frontier| - 1]);
    }
  }

  /** Every URL of the next round is a link extracted for some URL of this round. */
  lemma {:induction false} ExpandProvenance(o: Oracle, pattern: Pattern, depth: nat, i: nat, frontier: seq<string>, u: string)
    requires DrawsInRange(o) && i < depth
    requires u in Expand(o, pattern, depth, i, frontier)
    ensures exists j :: 0 <= j < |frontier| && Fetches(o, pattern, i, j, frontier[j], u)
    decreases |frontier|
  {
    var j := |frontier| - 1;
    var added := Branches(o, pattern, depth, i, j, frontier[j]);
    BranchesFromLinks(o, pattern, depth, i, j, frontier[j]);
    if u in added {
      var k :| 0 <= k < |added| && added[k] == u;
      assert Fetches(o, pattern, i, j, frontier[j], u);
    } else {
      ExpandProvenance(o, pattern, depth, i, frontier[..j], u);
      var j' :| 0 <= j' < j && Fetches(o, pattern, i, j', frontier[..j][j'], u);
      assert frontier[..j][j'] == frontier[j'];
    }
  }

  /** The request for URL `j` of round `i` succeeded and `u` is among the links extracted from its body. */
  predicate Fetches(o: Oracle, pattern: Pattern, i: nat, j: nat, url: string, u: string) {
    o.get(i, j, url).Fetched? && u in GetUrls(o.get(i, j, url).body, pattern)
  }

  /**
    With the default pattern, every URL the traversal adds to a later round is
    `http://` or `https://` followed by allowed characters.
  */
  lemma DefaultExpansionIsHttp(o: Oracle, depth: nat, i: nat, frontier: seq<string>, u: string)
    requires DrawsInRange(o) && i < depth
    requires u in Expand(o, DefaultPattern, depth, i, frontier)
    ensures LinkScan.IsHttpUrl(u)
  {
    ExpandProvenance(o, DefaultPattern, depth, i, frontier, u);
    var j :| 0 <= j < |frontier| && Fetches(o, DefaultPattern, i, j, frontier[j], u);
    var links := LinkScan.FindAll(o.get(i, j, frontier[j]).body.contents);
    var k :| 0 <= k < |links| && links[k] == u;
  }

  /** The URLs of the rounds, concatenated in round order. */
  function Flatten(rounds: seq<seq<string>>): (flat: seq<string>)
    decreases |rounds|
  {
    if rounds == [] then [] else Flatten(rounds[..|rounds| - 1]) + rounds[|rounds| - 1]
  }

  /** Round `r + 1` of the table is exactly what processing all of round `r` appends. */
  ghost predicate Expanded(o: Oracle, pattern: Pattern, depth: nat, rounds: seq<seq<string>>, r: nat) {
    DrawsInRange(o) && r + 1 < |rounds| && r < depth
    && rounds[r + 1] == Expand(o, pattern, depth, r, rounds[r])
  }

  /**
    Round `r + 1` of the table holds at most `depth - r - 1` URLs per URL of
    round `r`; `BoundedIsProduct` restates the bound as a product.
  */
  predicate Bounded(depth: nat, rounds: seq<seq<string>>, r: nat) {
    r + 1 < |rounds| && r + 1 < depth && |rounds[r + 1]| <= Times(|rounds[r]|, depth - r - 1)
  }

  lemma BoundedIsProduct(depth: nat, rounds: seq<seq<string>>, r: nat)
    requires Bounded(depth, rounds, r)
    ensures |rounds[r + 1]| <= |rounds[r]| * (depth - r - 1)
  {
    TimesIsProduct(|rounds[r]|, depth - r - 1);
  }

  /**
    A frontier table built by the expansion relation -- every round before `i`
    expanded into its successor, round `i` expanded up to position `j`, later
    rounds still empty -- has each round at most `depth - r - 1` times the size
    of the one before.
  */
  lemma RoundSizeBounded(o: Oracle, pattern: Pattern, depth: nat, rounds: seq<seq<string>>, i: nat, j: nat)
    requires DrawsInRange(o) && |rounds| == depth && i < depth && j <= |rounds[i]|
    requires forall r: nat :: r < i ==> Expanded(o, pattern, depth, rounds, r)
    requires i + 1 < depth ==> rounds[i + 1] == Expand(o, pattern, depth, i, rounds[i][..j])
    requires forall r :: i + 1 < r < depth ==> rounds[r] == []
    ensures forall r: nat :: r + 1 < depth ==> Bounded(depth, rounds, r)
  {
    forall r: nat | r < i && r + 1 < depth ensures Bounded(depth, rounds, r) {
      assert Expanded(o, pattern, depth, rounds, r);
      ExpandBound(o, pattern, depth, r, rounds[r]);
    }
    if i + 1 < depth {
      PartialRoundBound(o, pattern, depth, rounds[i], j, rounds[i + 1], i);
      assert Bounded(depth, rounds, i);
    }
    forall r: nat | i < r && r + 1 < depth ensures Bounded(depth, rounds, r) {
      assert rounds[r + 1] == [];
    }
    BoundedAround(depth, rounds, i);
  }

  /** The size bound for the rounds before `i`, at `i` and after `i` is the bound for every round. */
  lemma BoundedAround(depth: nat, rounds: seq<seq<string>>, i: nat)
    requires forall r: nat :: r < i && r + 1 < depth ==> Bounded(depth, rounds, r)
    requires i + 1 < depth ==> Bounded(depth, rounds, i)
    requires forall r: nat :: i < r && r + 1 < depth ==> Bounded(depth, rounds, r)
    ensures forall r: nat :: r + 1 < depth ==> Bounded(depth, rounds, r)
  {
  }

  /** Expanding a prefix of round `i` stays within the bound for the whole round. */
  lemma PartialRoundBound(o: Oracle, pattern: Pattern, depth: nat, round: seq<string>, j: nat, next: seq<string>, i: nat)
    requires DrawsInRange(o) && i < depth && j <= |round|
    requires next == Expand(o, pattern, depth, i, round[..j])
    ensures |next| <= Times(|round|, depth - i - 1)
  {
    ExpandBound(o, pattern, depth, i, round[..j]);
    TimesMonotone(j, |round|, depth - i - 1);
  }

  /** Changing only round `i + 1` of the table keeps the expansion relation of the rounds before `i`. */
  lemma ExpandedKept(o: Oracle, pattern: Pattern, depth: nat, before: seq<seq<string>>, after: seq<seq<string>>, i: nat)
    requires |after| == |before| && i < |before|
    requires forall r :: 0 <= r < |before| && r != i + 1 ==> after[r] == before[r]
    requires forall r: nat :: r < i && r + 1 < depth ==> Expanded(o, pattern, depth, before, r)
    ensures forall r: nat :: r < i && r + 1 < depth ==> Expanded(o, pattern, depth, after, r)
  {
    forall r: nat | r < i && r + 1 < depth ensures Expanded(o, pattern, depth, after, r) {
      assert Expanded(o, pattern, depth, before, r);
      assert after[r + 1] == before[r + 1] && after[r] == before[r];
    }
  }

  /**
    After round `i` is processed to its end without expiry, the invariants of
    the outer loop of `Start` hold for the new table and one more round: the
    rounds up to `i` are expanded, the requests are those rounds in order, and
    none of their positions took the expiry case.
  */
  lemma RoundCompleted(o: Oracle, pattern: Pattern, depth: nat, before: seq<seq<string>>, after: seq<seq<string>>,
                       i: nat, requests: seq<string>)
    requires |after| == |before| == depth && i < depth
    requires forall r :: 0 <= r < depth && r != i + 1 ==> after[r] == before[r]
    requires i + 1 < depth ==> Expanded(o, pattern, depth, after, i)
    requires forall c :: 0 <= c < |before[i]| ==> !o.expired(i, c)
    requires forall r: nat :: r < i && r + 1 < depth ==> Expanded(o, pattern, depth, before, r)
    requires requests == Flatten(before[..i])
    requires forall r, c :: 0 <= r < i && 0 <= c < |before[r]| ==> !o.expired(r, c)
    ensures forall r: nat :: r < i + 1 && r + 1 < depth ==> Expanded(o, pattern, depth, after, r)
    ensures requests + before[i] == Flatten(after[..i + 1])
    ensures forall r, c :: 0 <= r < i + 1 && 0 <= c < |after[r]| ==> !o.expired(r, c)
  {
    forall r: nat | r < i + 1 && r + 1 < depth ensures Expanded(o, pattern, depth, after, r) {
      if r < i {
        assert Expanded(o, pattern, depth, before, r);
        assert after[r + 1] == before[r + 1] && after[r] == before[r];
      }
    }
    forall r, c | 0 <= r < i + 1 && 0 <= c < |after[r]| ensures !o.expired(r, c) {
      assert after[r] == before[r];
    }
    assert after[..i + 1][..i] == after[..i] == before[..i];
  }

  /**
    When the expiry case is taken before URL `j` of round `i`, the table is
    as `Start` promises for that outcome: the rounds before `i` are expanded,
    round `i + 1` is the expansion of the first `j` URLs of round `i`, every
    round is within the size bound, the requests end with URL `j - 1`, and no
    position of an earlier round took the expiry case.
  */
  lemma RoundStopped(o: Oracle, pattern: Pattern, depth: nat, before: seq<seq<string>>, after: seq<seq<string>>,
                     i: nat, j: nat, requests: seq<string>)
    requires DrawsInRange(o) && |after| == |before| == depth && i < depth && j <= |before[i]|
    requires forall r :: 0 <= r < depth && r != i + 1 ==> after[r] == before[r]
    requires i + 1 < depth ==> after[i + 1] == Expand(o, pattern, depth, i, before[i][..j])
    requires forall r: nat :: r < i && r + 1 < depth ==> Expanded(o, pattern, depth, before, r)
    requires forall r :: i < r < depth ==> before[r] == []
    requires requests == Flatten(before[..i])
    requires forall r, c :: 0 <= r < i && 0 <= c < |before[r]| ==> !o.expired(r, c)
    ensures after[0] == before[0] && after[i] == before[i]
    ensures forall r: nat :: r < i ==> Expanded(o, pattern, depth, after, r)
    ensures i + 1 < depth ==> after[i + 1] == Expand(o, pattern, depth, i, after[i][..j])
    ensures forall r :: i + 1 < r < depth ==> after[r] == []
    ensures requests + before[i][..j] == Flatten(after[..i]) + after[i][..j]
    ensures forall r, c :: 0 <= r < i && 0 <= c < |after[r]| ==> !o.expired(r, c)
    ensures forall r: nat :: r + 1 < depth ==> Bounded(depth, after, r)
  {
    ExpandedKept(o, pattern, depth, before, after, i);
    assert after[..i] == before[..i];
    forall r, c | 0 <= r < i && 0 <= c < |after[r]| ensures !o.expired(r, c) {
      assert after[r] == before[r];
    }
    RoundSizeBounded(o, pattern, depth, after, i, j);
  }

  /**
    When every round has been processed, each round is the expansion of the
    one before, the requests are all rounds in order, and every round is
    within the size bound.
  */
  lemma RunCompleted(o: Oracle, pattern: Pattern, depth: nat, rounds: seq<seq<string>>, requests: seq<string>)
    requires DrawsInRange(o) && |rounds| == depth >= 1
    requires forall r: nat :: r < depth && r + 1 < depth ==> Expanded(o, pattern, depth, rounds, r)
    requires requests == Flatten(rounds[..depth])
    ensures forall r: nat :: r + 1 < depth ==> Expanded(o, pattern, depth, rounds, r)
    ensures requests == Flatten(rounds)
    ensures forall r: nat :: r + 1 < depth ==> Bounded(depth, rounds, r)
  {
    assert rounds[..depth] == rounds;
    forall r: nat | r + 1 < depth ensures Bounded(depth, rounds, r) {
      assert Expanded(o, pattern, depth, rounds, r);
      ExpandBound(o, pattern, depth, r, rounds[r]);
    }
  }

  /**
    `n * w` as repeated addition. The bounds are stated with it so that the
    solver's nonlinear arithmetic stays out of the proofs; `TimesIsProduct`
    connects it to the product.
  */
  function Times(n: nat, w: nat): nat {
    if n == 0 then 0 else Times(n - 1, w) + w
  }

  lemma {:induction false} TimesIsProduct(n: nat, w: nat)
    ensures Times(n, w) == n * w
  {
    if n > 0 {
      TimesIsProduct(n - 1, w);
    }
  }

  lemma {:induction false} TimesMonotone(a: nat, b: nat, w: nat)
    requires a <= b
    ensures Times(a, w) <= Times(b, w)
    decreases b
  {
    if a < b {
      TimesMonotone(a, b - 1, w);
    }
  }

  /** Writing back the element already at `k` leaves the table as it was. */
  lemma UpdateSame<T>(s: seq<T>, k: nat)
    requires k < |s|
    ensures s[k := s[k]] == s
  {
  }

  /** A second write to `k` replaces the first. */
  lemma UpdateTwice<T>(s: seq<T>, k: nat, a: T, b: T)
    requires k < |s|
    ensures s[k := a][k := b] == s[k := b]
  {
  }

  // ---------------------------------------------------------------------------
  // The generator

  /** How a run of `Start` ends: every round processed, or the expiry case taken before URL `index` of round `round`. */
  datatype Outcome = Completed | Expired(round: nat, index: nat)

  class Generator {
    var RootUrls: seq<string>
    var MaxDepth: int
    var Timeout: int      // a time.Duration, in nanoseconds
    var httpRegex: Pattern

    /**
      What NewGenerator checked when the generator was built. The fields stay
      mutable afterwards, so no method relies on it: `Start` and its parts
      require only `MaxDepth >= 1`.
    */
    predicate Valid()
      reads this
    {
      MaxDepth >= 1 && Timeout > 0
    }

    /** The generator literal of NewGenerator: the arguments, and the default pattern. */
    constructor (urls: seq<string>, maxDepth: int, timeout: int)
      requires maxDepth >= 1 && timeout > 0
      ensures Valid()
      ensures RootUrls == urls && MaxDepth == maxDepth && Timeout == timeout
      ensures httpRegex == DefaultPattern
    {
      RootUrls := urls;
      MaxDepth := maxDepth;
      Timeout := timeout;
      httpRegex := DefaultPattern;
    }

    /** Replaces the link pattern used by later runs. */
    method SetCustomURLRegex(r: Pattern)
      modifies this`httpRegex
      ensures httpRegex == r
    {
      httpRegex := r;
    }

    /**
      The `delay` case of the `select` for URL `j` of round `i`: request it,
      extract links from the body, and append `rand.Intn(MaxDepth - i)` of them,
      drawn with replacement, to round `i + 1`. A failed request or an empty
      extraction appends nothing.
    */
    method VisitUrl(o: Oracle, urlsRound: seq<seq<string>>, i: nat, j: nat) returns (table: seq<seq<string>>)
      requires MaxDepth >= 1 && DrawsInRange(o)
      requires |urlsRound| == MaxDepth && i < MaxDepth && j < |urlsRound[i]|
      ensures i + 1 < MaxDepth ==>
        table == urlsRound[i + 1 := urlsRound[i + 1] + Branches(o, httpRegex, MaxDepth, i, j, urlsRound[i][j])]
      ensures i + 1 == MaxDepth ==> table == urlsRound
    {
      table := urlsRound;
      if i + 1 < MaxDepth {
        assert urlsRound[i + 1] + [] == urlsRound[i + 1];
        UpdateSame(urlsRound, i + 1);
      }
      var url := urlsRound[i][j];
      var resp := o.get(i, j, url);
      if resp.Failed? {
        return;
      }
      var urls := GetUrls(resp.body, httpRegex);
      if |urls| == 0 {
        return;
      }
      var branchCount := Intn(o, i, j, 0, MaxDepth - i);
      for k := 0 to branchCount
        invariant i + 1 < MaxDepth ==> table == urlsRound[i + 1 := urlsRound[i + 1] + Picks(o, i, j, urls, k)]
        invariant i + 1 == MaxDepth ==> table == urlsRound
      {
        var nextUrlIndex := Intn(o, i, j, k + 1, |urls|);
        ghost var picked := urlsRound[i + 1] + Picks(o, i, j, urls, k);
        if i + 1 < MaxDepth {
          assert urlsRound[i + 1] + Picks(o, i, j, urls, k + 1) == picked + [urls[nextUrlIndex]];
          UpdateTwice(urlsRound, i + 1, picked, picked + [urls[nextUrlIndex]]);
        }
        table := table[i + 1 := table[i + 1] + [urls[nextUrlIndex]]];
      }
    }

    /**
      The inner loop of `Start` over round `i`: for each URL in order, take the
      expiry case if the timer has fired, otherwise visit the URL. Returns the
      table, the position at which the expiry case was taken (if it was), and
      the URLs requested in this round.
    */
    method VisitRound(o: Oracle, urlsRound: seq<seq<string>>, i: nat)
      returns (table: seq<seq<string>>, stoppedAt: Option<nat>, visited: seq<string>)
      requires MaxDepth >= 1 && DrawsInRange(o)
      requires |urlsRound| == MaxDepth && i < MaxDepth
      requires i + 1 < MaxDepth ==> urlsRound[i + 1] == []
      ensures |table| == MaxDepth
      ensures forall r :: 0 <= r < MaxDepth && r != i + 1 ==> table[r] == urlsRound[r]
      ensures stoppedAt.Some? ==> stoppedAt.value < |urlsRound[i]| && o.expired(i, stoppedAt.value)
      ensures var j := if stoppedAt.Some? then stoppedAt.value else |urlsRound[i]|;
        && j <= |urlsRound[i]|
        && visited == urlsRound[i][..j]
        && (i + 1 < MaxDepth ==> table[i + 1] == Expand(o, httpRegex, MaxDepth, i, urlsRound[i][..j]))
        && (forall c :: 0 <= c < j ==> !o.expired(i, c))
      ensures stoppedAt.None? ==>
        && visited == urlsRound[i]
        && (i + 1 < MaxDepth ==> Expanded(o, httpRegex, MaxDepth, table, i))
    {
      table := urlsRound;
      visited := [];
      var j := 0;
      assert i + 1 < MaxDepth ==> table == urlsRound[i + 1 := Expand(o, httpRegex, MaxDepth, i, urlsRound[i][..0])];
      while j < |table[i]|
        invariant 0 <= j <= |urlsRound[i]|
        invariant i + 1 < MaxDepth ==> table == urlsRound[i + 1 := Expand(o, httpRegex, MaxDepth, i, urlsRound[i][..j])]
        invariant i + 1 == MaxDepth ==> table == urlsRound
        invariant visited == urlsRound[i][..j]
        invariant forall c :: 0 <= c < j ==> !o.expired(i, c)
      {
        if o.expired(i, j) {
          return table, Some(j), visited;
        }
        assert urlsRound[i][..j + 1] == urlsRound[i][..j] + [urlsRound[i][j]];
        visited := visited + [table[i][j]];
        var next := VisitUrl(o, table, i, j);
        if i + 1 < MaxDepth {
          RoundStep(o, httpRegex, MaxDepth, i, urlsRound[i], j, table[i + 1], next[i + 1]);
        }
        table := next;
        j := j + 1;
      }
      assert urlsRound[i][..j] == urlsRound[i];
      stoppedAt := None;
      assert i + 1 < MaxDepth ==> table[i] == urlsRound[i];
    }

    /**
      The frontier table at the start of a run: `MaxDepth` empty rounds, with
      the root URLs appended to round 0 one by one.
    */
    method RootTable() returns (urlsRound: seq<seq<string>>)
      requires MaxDepth >= 1
      ensures |urlsRound| == MaxDepth && urlsRound[0] == RootUrls
      ensures forall r :: 0 < r < MaxDepth ==> urlsRound[r] == []
    {
      urlsRound := seq(MaxDepth, _ => []);
      for n := 0 to |RootUrls|
        invariant |urlsRound| == MaxDepth
        invariant urlsRound[0] == RootUrls[..n]
        invariant forall r :: 0 < r < MaxDepth ==> urlsRound[r] == []
      {
        urlsRound := urlsRound[0 := urlsRound[0] + [RootUrls[n]]];
      }
      assert RootUrls[..|RootUrls|] == RootUrls;
    }

    /**
      One run of the traversal. Returns how it ended, the frontier table as it
      was at that point, and the URLs requested, in order.
    */
    method Start(o: Oracle) returns (outcome: Outcome, rounds: seq<seq<string>>, requests: seq<string>)
      requires MaxDepth >= 1
      requires DrawsInRange(o)
      ensures |rounds| == MaxDepth && rounds[0] == RootUrls
      ensures forall r: nat :: r + 1 < MaxDepth ==> Bounded(MaxDepth, rounds, r)
      ensures outcome.Completed? ==>
        && (forall r: nat :: r + 1 < MaxDepth ==> Expanded(o, httpRegex, MaxDepth, rounds, r))
        && requests == Flatten(rounds)
        && (forall r, c :: 0 <= r < MaxDepth && 0 <= c < |rounds[r]| ==> !o.expired(r, c))
      ensures outcome.Expired? ==>
        var i, j := outcome.round, outcome.index;
        && i < MaxDepth && j < |rounds[i]| && o.expired(i, j)
        && (forall r: nat :: r < i ==> Expanded(o, httpRegex, MaxDepth, rounds, r))
        && (i + 1 < MaxDepth ==> rounds[i + 1] == Expand(o, httpRegex, MaxDepth, i, rounds[i][..j]))
        && (forall r :: i + 1 < r < MaxDepth ==> rounds[r] == [])
        && requests == Flatten(rounds[..i]) + rounds[i][..j]
        && (forall r, c :: 0 <= r < i && 0 <= c < |rounds[r]| ==> !o.expired(r, c))
        && (forall c :: 0 <= c < j ==> !o.expired(i, c))
    {
      var urlsRound := RootTable();
      requests := [];
      var i := 0;
      while i < |urlsRound|
        invariant 0 <= i <= MaxDepth && |urlsRound| == MaxDepth
        invariant urlsRound[0] == RootUrls
        invariant forall r: nat :: r < i && r + 1 < MaxDepth ==> Expanded(o, httpRegex, MaxDepth, urlsRound, r)
        invariant forall r :: i < r < MaxDepth ==> urlsRound[r] == []
        invariant requests == Flatten(urlsRound[..i])
        invariant forall r, c :: 0 <= r < i && 0 <= c < |urlsRound[r]| ==> !o.expired(r, c)
      {
        var table, stoppedAt, visited := VisitRound(o, urlsRound, i);
        if stoppedAt.Some? {
          RoundStopped(o, httpRegex, MaxDepth, urlsRound, table, i, stoppedAt.value, requests);
          outcome, rounds, requests := Expired(i, stoppedAt.value), table, requests + visited;
          return;
        }
        RoundCompleted(o, httpRegex, MaxDepth, urlsRound, table, i, requests);
        requests := requests + visited;
        urlsRound := table;
        i := i + 1;
      }
      RunCompleted(o, httpRegex, MaxDepth, urlsRound, requests);
      outcome, rounds := Completed, urlsRound;
    }
  }

  /**
    NewGenerator: the checks of `CheckConfig`; on success a new generator holding
    exactly the arguments and the default pattern, on failure no generator.
  */
  method NewGenerator(urls: seq<string>, maxDepth: int, timeout: int, parses: string -> bool)
    returns (g: Generator?, err: Option<ConfigError>)
    ensures err == CheckConfig(urls, maxDepth, timeout, parses)
    ensures g == null <==> err.Some?
    ensures g != null ==>
      && fresh(g) && g.Valid() && g.RootUrls == urls && g.MaxDepth == maxDepth
      && g.Timeout == timeout && g.httpRegex == DefaultPattern
  {
    err := CheckConfig(urls, maxDepth, timeout, parses);
    if err.Some? {
      return null, err;
    }
    g := new Generator(urls, maxDepth, timeout);
  }
}
