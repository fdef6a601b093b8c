# trafficgen, modelled in Dafny

This project models the core of the `trafficgen` package, a traffic generator. It simulates browsing by
issuing HTTP GET requests in rounds. Round 0 holds the generator's root URLs. Every URL of round `i` is
requested, links are extracted from the response body, and `rand.Intn(MaxDepth - i)` of those links,
drawn with replacement, are appended to round `i + 1`. A timer can stop the run before any request.

The model has three modules:

- `Wrappers`: the `Option` type.
- `LinkScan`: the default link pattern of the generator
  (`http[s]?://(?:[a-zA-Z]|[0-9]|[$-_@.&+]|[!*(),]|(?:%[0-9a-fA-F][0-9a-fA-F]))+`) as Go's
  `FindAllString(body, -1)` applies it, written as a scanner.
  - The class `[$-_@.&+]` is the range `$`..`_` (0x24..0x5F), which already holds the digits, the
    upper-case letters, `%` and the other listed symbols. So the repeated group matches exactly the
    non-empty runs of `!`, `$`..`_` and `a`..`z`.
  - Leftmost-first matching picks the longest match at each start, for a reason particular to this
    group; a greedy `+` alone does not give it (`(?:a|ab)+` on "ab" matches "a"). Every character the
    group accepts is taken by a one-character alternative tried before `%[0-9a-fA-F][0-9a-fA-F]`,
    because `%` lies in `$`..`_`. So each preferred iteration of `+` consumes exactly one character,
    and the iterations stop only where no allowed character follows. That is the end of the run
    (`RunEnd`), which is the longest match (`MatchEndIsLongestMatch`).
  - The scanner is proved against a declarative reading of the pattern (`IsMatch`, `GroupPlus`).
- `TrafficGen`: construction and validation (`NewGenerator`, `CheckConfig`, `ValidateGeneratorUrls`),
  the `Generator` class and its setter, `GetUrls`, and the traversal of `Start`.
  - `Start` is an imperative method over a table `seq<seq<string>>` of `MaxDepth` rounds.
  - `VisitRound` is the loop over one round; `VisitUrl` is the body run for one URL.
  - Each method is proved against the functions `Branches` and `Expand`, which give what one URL and
    one whole round add to the next round.

Everything `Start` consults outside the generator is an input, the `Oracle`:

- `expired(i, j)`: whether the `select` for URL `j` of round `i` takes the timer case;
- `get(i, j, url)`: what the request returns (a failure, or a body that reads or fails to read);
- `intn(i, j, d, n)`: what `rand.Intn(n)` draws; draw 0 is the branch count and draw `k + 1` picks the
  `k`-th link.

`DrawsInRange` says every draw lies in `[0, n)`.

`Start` returns three things:

- how the run ended: `Completed`, or `Expired(i, j)` when the timer case was taken before URL `j` of
  round `i`;
- the frontier table at that point;
- the URLs requested, in order.

In the source, the branch bound is `MaxDepth - i`. There is no width field: `Generator` has only
`RootUrls`, `MaxDepth`, `Timeout` and `httpRegex`.

In the last round, `rand.Intn(1)` is 0, so nothing is appended past the table. `VisitUrl` shows that
`urlsRound[i + 1]` is only indexed when `i + 1 < MaxDepth`, and `Expand` states that the last round
adds nothing.

The Go `Start` has no `return` after its outer loop. Go rejects this at compile time as a missing
return. The model gives normal completion its own outcome, `Completed`, and claims no return value
for it.

## Model

| member | source | states |
|---|---|---|
| `TrafficGen.ValidateGeneratorUrls` | trafficgen/trafficgen.go:25-33 | No error exactly when every root URL parses; otherwise the error names the first URL that does not parse, and every URL before it parses. |
| `TrafficGen.CheckConfig` | trafficgen/trafficgen.go:35-45 | Checks in the source's order. No error iff all URLs parse, `maxDepth >= 1` and `timeout > 0`. A URL error iff some URL fails to parse, and it is the error of the first URL that fails. The depth error iff the URLs parse and `maxDepth < 1`. The timeout error iff the URLs parse, the depth is valid and `timeout <= 0`. |
| `TrafficGen.NewGenerator` | trafficgen/trafficgen.go:35-54 | The error is the one `CheckConfig` gives. There is no generator exactly when there is an error. On success, a new generator whose `RootUrls`, `MaxDepth` and `Timeout` are the arguments and whose pattern is the default one. |
| `TrafficGen.Generator.constructor` | trafficgen/trafficgen.go:46-52 | The generator literal holds exactly the arguments and the default pattern. |
| `TrafficGen.Generator.SetCustomURLRegex` | trafficgen/trafficgen.go:56-58 | After the call, the generator's pattern is the given one. |
| `TrafficGen.GetUrls` | trafficgen/trafficgen.go:104-111 | A body that cannot be read yields no links. |
| `TrafficGen.Visit` | trafficgen/trafficgen.go:83-91 | A failed request, or a response whose body cannot be read, yields no links. |
| `TrafficGen.Intn` | trafficgen/trafficgen.go:92-95 | `rand.Intn(n)` is called only with `n > 0` and returns a value below `n`. |
| `TrafficGen.Picks` | trafficgen/trafficgen.go:94-97 | The `branchCount` iterations pick exactly `branchCount` links. |
| `TrafficGen.PicksFromLinks` | trafficgen/trafficgen.go:94-97 | Every picked link is one of the extracted links (drawn with replacement). |
| `TrafficGen.Branches` | trafficgen/trafficgen.go:92-97 | One URL of round `i` adds fewer than `MaxDepth - i` links to round `i + 1`. |
| `TrafficGen.BranchesFromLinks` | trafficgen/trafficgen.go:83-97 | A failed request, or an extraction that finds no link, adds nothing. Every link that is added was extracted from that URL's response. |
| `TrafficGen.Expand` | trafficgen/trafficgen.go:77-98 | In the last round (`i + 1 == MaxDepth`) processing the round appends nothing, because `rand.Intn(1)` is 0. |
| `TrafficGen.ExpandStep` | trafficgen/trafficgen.go:77-98 | Processing one more URL of round `i`, in order, appends exactly that URL's branches to round `i + 1`. |
| `TrafficGen.RoundStep` | trafficgen/trafficgen.go:77-98 | If round `i + 1` is the expansion of the first `j` URLs of round `i`, appending URL `j`'s branches makes it the expansion of the first `j + 1`. |
| `TrafficGen.ExpandBound` | trafficgen/trafficgen.go:92-97 | Round `i + 1` has at most `|round i| * (MaxDepth - i - 1)` URLs. |
| `TrafficGen.ExpandProvenance` | trafficgen/trafficgen.go:83-97 | Every URL of round `i + 1` is among the links extracted from the body of some URL of round `i` whose request succeeded. |
| `TrafficGen.DefaultExpansionIsHttp` | trafficgen/trafficgen.go:88-97 | With the default pattern, every URL added to a later round starts with `http://` or `https://`, followed by a non-empty run of allowed characters. |
| `TrafficGen.RoundSizeBounded` | trafficgen/trafficgen.go:75-98 | In a table built by the traversal, at any point, each round `r + 1` holds at most `MaxDepth - r - 1` URLs per URL of round `r` (`Bounded`). |
| `TrafficGen.BoundedIsProduct` | trafficgen/trafficgen.go:92-97 | The size bound of `Bounded` is the product: round `r + 1` holds at most `|round r| * (MaxDepth - r - 1)` URLs. |
| `TrafficGen.PartialRoundBound` | trafficgen/trafficgen.go:77-97 | Processing only the first `j` URLs of a round stays within the bound for the whole round. |
| `TrafficGen.RoundCompleted` | trafficgen/trafficgen.go:75-101 | A round processed to its end without expiry extends the outer loop's invariants by one round: the round is expanded, its URLs follow the earlier requests, and none of its positions expired. |
| `TrafficGen.RoundStopped` | trafficgen/trafficgen.go:77-81 | When expiry is taken before URL `j` of round `i`, rounds 0 and `i` are unchanged, earlier rounds stay expanded, round `i + 1` is the expansion of the first `j` URLs, later rounds stay empty, the requests are the earlier rounds followed by those `j` URLs, no earlier position expired, and every round is within the size bound. |
| `TrafficGen.RunCompleted` | trafficgen/trafficgen.go:75-101 | When every round is processed, every round is the expansion of the one before, the requests are all rounds in order, and every round is within the size bound. |
| `TrafficGen.ExpandedKept` | trafficgen/trafficgen.go:94-97 | Appending only to round `i + 1` keeps the expansion relation of every earlier round. |
| `TrafficGen.TimesIsProduct` | trafficgen/trafficgen.go:92-97 | The repeated-addition bound used for the round sizes equals the product `n * w`. |
| `TrafficGen.Generator.RootTable` | trafficgen/trafficgen.go:61-71 | The table starts with `MaxDepth` rounds: round 0 holds the root URLs in order and every other round is empty. |
| `TrafficGen.Generator.VisitUrl` | trafficgen/trafficgen.go:82-98 | The `delay` case for URL `j` of round `i` gives the old table with only round `i + 1` replaced: by its old contents followed by that URL's branches. In the last round the table is unchanged, and round `i + 1` is indexed only when it exists. |
| `TrafficGen.Generator.VisitRound` | trafficgen/trafficgen.go:77-100 | The `j` loop reads round `i` of the live table at each step, and requests its URLs in order, exactly as they were when the round began (the loop never changes round `i`). It changes only round `i + 1`, which becomes the expansion of the URLs processed. It stops at the first position whose expiry case is taken, and none before that position expired. |
| `TrafficGen.Generator.Start` | trafficgen/trafficgen.go:60-102 | The table has `MaxDepth` rounds and round 0 is `RootUrls`. Every round is within the size bound. On completion, every round is the expansion of the one before, the requests are all rounds concatenated in order, and no expiry was taken. On expiry before URL `j` of round `i`, earlier rounds are fully expanded, round `i + 1` is the expansion of the first `j` URLs and later rounds are empty. The requests then end with URL `j - 1` of round `i`, so nothing is requested after expiry. `BoundedIsProduct` turns the size bound into a product. |
| `LinkScan.GroupPlus` | trafficgen/trafficgen.go:51 | The repeated group `(?:...)+` matches only non-empty strings. |
| `LinkScan.IsMatch` | trafficgen/trafficgen.go:51 | A match of the pattern lies within the body and is longer than `http://`. |
| `LinkScan.GroupPlusIsAllowedRun` | trafficgen/trafficgen.go:51 | The pattern's repeated group matches a string iff it is a non-empty run of `!`, `$`..`_` and `a`..`z`. |
| `LinkScan.SchemeLen` | trafficgen/trafficgen.go:51 | `http[s]?://` matches with the `s` taken whenever it is present: length 8 iff `https://` is there, and 7 iff `http://` is. |
| `LinkScan.RunEnd` | trafficgen/trafficgen.go:51 | The run of allowed characters from a position is maximal: every character before its end is allowed, and the character at its end is not. |
| `LinkScan.MatchEnd` | trafficgen/trafficgen.go:51 | A match found at a position lies within the body, is longer than the scheme, and cannot be extended: it ends at the end of the body or before a character the group does not allow. |
| `LinkScan.MatchEndIsLongestMatch` | trafficgen/trafficgen.go:51 | What the scanner reports at a position is a match of the pattern. Every match of the pattern starting there is no longer, which is what leftmost-first greedy matching picks. |
| `LinkScan.MatchesFrom` | trafficgen/trafficgen.go:110 | The reported matches lie within the body and are each the pattern's match at their start. Each ends at a maximal position. They are in order and do not overlap. |
| `LinkScan.MatchesFromCoversEveryMatch` | trafficgen/trafficgen.go:110 | Every position where a match of the pattern could start lies inside a reported match, so no match is skipped. |
| `LinkScan.FindAll` | trafficgen/trafficgen.go:110 | Every extracted string is `http://` or `https://` followed by a non-empty run of allowed characters. |
| `LinkScan.SampleBodyLinks` | trafficgen/trafficgen.go:110 | On a sample body, the default pattern yields its two links in order, the second ending at the space that follows it. |

## Left out

- The timer goroutine and the `expired` channel are concurrency. They are modelled by the input
  `expired(i, j)`, one per `select`. Go's `select` picks at random when both the timer and the delay
  are ready, so that input may choose either case at any iteration.
- The jitter delay (`time.After` of `rand.Intn(10)` seconds, trafficgen/trafficgen.go:78) is not
  modelled as a value. Its draw advances the same global random stream as the draws at lines 92 and
  95, and its length decides whether the timer case can win the `select`. Both effects are covered,
  not ruled out: `intn` is an arbitrary function of the round, the URL and the draw number, so it
  includes every stream the extra draw could leave, and `expired(i, j)` is an arbitrary choice at each
  `select`.
- `rand.Seed` and the single global random stream are replaced by draws indexed by round, URL and
  draw number. Every sequence of values the global stream could produce is still one of the inputs.
- `http.Client`, `cookiejar` and `resp.Body` (network I/O and cookie state) are replaced by the `get`
  input. The error of `cookiejar.New` is discarded by the source (trafficgen/trafficgen.go:68), so it
  has no counterpart. The response body is never closed by the source; that has no counterpart either.
- `url.Parse` is replaced by the predicate `parses`, a parameter of the construction functions.
- A pattern (`*regexp.Regexp`) is modelled by what its `FindAllString(text, -1)` returns, a function
  `findAll`. The default pattern's function is the scanner `LinkScan.FindAll`; a custom pattern set
  with `SetCustomURLRegex` is an arbitrary function. The general Go regexp engine is not modelled.
- `SetCustomURLRegex(nil)`: Go accepts a nil pattern, and the next `getUrls` then panics at
  trafficgen/trafficgen.go:110. `Pattern` has no nil value, so that panic is not modelled.
- `client.Get` (the client has no `Timeout`) and `ioutil.ReadAll` can block forever in Go, and the
  timer cannot interrupt them, because `expired` is read only at the `select`
  (trafficgen/trafficgen.go:79-83, 105). The `get` input always returns, so every modelled run ends;
  a run that hangs inside a request is not modelled.
- `fmt.Printf` and `log.Println` output is not modelled.
- `Start`'s missing final `return` (a compile error in Go) is not modelled as a value. Normal
  completion is the outcome `Completed`.
- `MaxDepth` and `Timeout` are unbounded integers. The Go `int` width, and `make` panicking for a huge
  `MaxDepth`, are not modelled. `Timeout` only matters through its sign.
- `Generator`'s fields are exported and mutable in Go, and they are mutable fields of the class here:
  `Valid()` is what construction establishes, not something the methods rely on. `RootUrls` aliases
  the caller's slice in Go; here it is a sequence value, so a later change to that slice by the caller
  is not modelled.
- `Start`, `VisitRound` and `VisitUrl` require `MaxDepth >= 1`. In Go, `Start` on a generator whose
  `MaxDepth` was set below 1 after construction panics: `make` at trafficgen/trafficgen.go:61 for a
  negative length, or the index at line 70 for length 0 with a root URL. These panics are not
  modelled; `Start` does not read `Timeout` except through the timer, which is the `expired` input.
- The frontier table is a value (`seq<seq<string>>`) that the methods pass on and return, not Go
  slices shared by aliasing. `Start` returns the table it had when it stopped, so that its state can
  be stated. Go discards the table.
- `VisitRound` and `VisitUrl` are the inner loop and the `delay` case of `Start`, written as
  separate methods of the class.
- `TrafficGen.GetUrls`: its contract states only the read-error case. What it returns with the default
  pattern is stated by `LinkScan.FindAll` and `TrafficGen.DefaultExpansionIsHttp`. With a custom
  pattern it returns whatever that pattern's function returns.
