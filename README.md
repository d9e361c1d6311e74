# PR status line for the touch bar — a Dafny model

The program asks GitHub's GraphQL API for a user's three most recently
updated open pull requests, keeps those whose last commit was pushed in the
last fifteen minutes, and prints one line such as `#101 ✅ #102 🕐 #103 ❌`
for a status bar. This project models the pure part of `index.js` that turns
the fetched pull-request nodes and the current time into that line:

- `mapPr`: a raw node becomes `{number, updatedAt, status}`, taken from the
  first listed commit (`MapPr`, `MapPrs` for `.map(mapPr)`);
- `recently(now)`: the inclusive fifteen-minute window in milliseconds
  (`Recently`, `FilterRecent` for `.filter(recently(now))`);
- `log`: the identity (`LogAll` for `.map(log)`);
- the chain in `getRecentPRs` with one `now` captured before it
  (`GetRecentPrs`);
- `statusIcon` and `format` (`StatusIcon`, `Format`), and the rule in `run`
  that joins the formatted items with single spaces and prints nothing for an
  empty list (`RenderLine`, `Run`).

Files: `wrappers.dfy` (Option, Result), `decimal.dfy` (how the template
literal renders an integer, and its inverse), `pr_status.dfy` (the pipeline).

Inputs that come from outside the program are parameters. The query result
is a `Result<seq<RawNode>, Error>` (the failure standing for any error the
query throws), the clock reading `now` is an `int` of milliseconds, and the
value of `Date.parse(pushedDate)` is an `Instant`: `At(ms)` or `Invalid` for
the NaN it returns on a null or unparsable date.

Each formatting operation is paired with a parser (`ParseLine`, with
`ValueOf` for numerals), and the round-trip lemmas show that the printed line
determines, in order, the number and icon of every retained pull request.

Three behaviours of the code a reader might not expect:

- The timestamp compared with the window is the first listed commit's
  `pushedDate` (index.js:36), not the pull request's own `updatedAt`.
- A pull request whose first commit has no status object makes `mapPr`
  throw (index.js:37). The whole run then fails and prints nothing. It does
  not get the failure icon. `ScenarioMissingStatus` shows this.
- A null `pushedDate` parses to NaN. `NaN >= x` is false, so such a pull
  request is silently dropped and causes no error.

## Model

| member | source | states |
|---|---|---|
| `PrStatus.MapPr` | index.js:31-39 | succeeds exactly when the node has a first commit and that commit has a status; the record copies the node's number, the commit's push time and the status state; a node with no commit fails with MissingCommit, a null status with MissingStatus |
| `PrStatus.MapPrs` | index.js:77-78 | succeeds exactly when every node maps; then the list has one record per node, in node order; otherwise the error is that of the first node that fails, all nodes before it having mapped |
| `PrStatus.RecentlyIsWithinFifteenMinutes` | index.js:41-43 | `Recently`: a record is recent exactly when its timestamp is valid and at most 900000 ms (15 min) before now, later timestamps included |
| `PrStatus.RecentlyBoundary` | index.js:41-43 | `Recently` at its edges: updated at now: kept; exactly 15 minutes before now: kept (inclusive bound); 15 minutes and 1 ms before: dropped; NaN timestamp: dropped |
| `PrStatus.RecentlyMonotoneInUpdate` | index.js:41-43 | `Recently`, for one now, a record updated no earlier than a kept record is kept too |
| `PrStatus.RecentlyMonotoneInNow` | index.js:41-43 | `Recently`: a record kept at some now is kept at every earlier now |
| `PrStatus.FilterRecent` | index.js:79 | every kept record was in the input and is recent for the one now; every recent input record is kept; never longer than the input |
| `PrStatus.FilterRecentSelects` | index.js:79 | the kept list is the input at strictly increasing positions, and those positions are exactly the ones whose record is recent: order-preserving, no duplicates dropped or added |
| `PrStatus.LogAll` | index.js:45-48 | `Log` returns its argument, so the `.map(log)` step (index.js:80) returns the list unchanged, in order |
| `PrStatus.GetRecentPrs` | index.js:75-80 | fails exactly when some node fails mapPr, and only with a mapPr error; on success every record is recent for the single now and the list is the order-preserving selection of all recent mapped records |
| `PrStatus.StatusIcon` | index.js:83-92 | a one-character icon: the check mark exactly for "SUCCESS", the clock exactly for "PENDING", the cross exactly for every other string (case-sensitive, total) |
| `Decimal.NatToDecimal` | index.js:94 | the rendered natural is a canonical numeral: digits only, at least one, no leading zero |
| `Decimal.IntToDecimal` | index.js:94 | the rendered integer starts with a minus sign exactly when it is negative, followed by a canonical numeral |
| `Decimal.ValueOfNatToDecimal` | index.js:94 | reading back a rendered natural gives the natural |
| `Decimal.NatToDecimalValueOf` | index.js:94 | every canonical numeral is the rendering of its own value, so rendering is a bijection onto canonical numerals |
| `PrStatus.ReadIntOfDecimal` | index.js:94 | reading a rendered integer at the front of a string gives the integer and stops right after its last digit |
| `PrStatus.FormatShape` | index.js:94 | `Format` gives `#`, then the rendered number, then one space, then the one-character status icon, and nothing else |
| `PrStatus.ReadItemOfFormat` | index.js:94 | `#<number> <icon>` as formatted is read back as the pull request's number and its status icon, whether the line ends after it or a space follows |
| `PrStatus.FormatAll` | index.js:102 | `prs.map(format)`: one item per pull request, the i-th being the format of the i-th record |
| `PrStatus.JoinSpacedShape` | index.js:102 | `.join(' ')`: empty for no items; otherwise the first item at the front, a space right after it when more follow, the last item at the end, and the length is the items' total plus one space per neighbouring pair |
| `PrStatus.RenderLine` | index.js:101-103 | nothing is printed exactly when the list is empty; otherwise the line is non-empty and starts with `#` |
| `PrStatus.ParseRenderedLine` | index.js:101-103 | the items joined by single spaces parse back, in order, to the number and icon of every pull request in the list |
| `PrStatus.Run` | index.js:96-111 | a failed query fails the run with its error; after a successful query the run fails exactly when some node fails mapPr |
| `PrStatus.RunOutput` | index.js:96-111 | when every node maps the run succeeds; it prints nothing exactly when no mapped record is recent, and a printed line parses to the recent records' numbers and icons in fetch order |
| `PrStatus.ScenarioAllRecent` | index.js:75-103 | three recent PRs 101, 102, 103 with SUCCESS, PENDING, FAILURE print `#101 ✅ #102 🕐 #103 ❌` |
| `PrStatus.ScenarioNoneRecent` | index.js:75-103 | three PRs all older than the window: the run succeeds and prints nothing |
| `PrStatus.ScenarioMissingStatus` | index.js:31-39 | a first commit with a null status fails the whole run with MissingStatus, even after a valid node |

## Left out

- `buildClient` (index.js:9-28): construction of the HTTP and GraphQL client and the bearer-token header, wrappers over libraries outside this model.
- The GraphQL query and its `await` (index.js:51-73): network I/O. Its result, or the error it throws (including a null `user` for an unknown login), is the `fetched` parameter of `Run`.
- `Date.parse` (index.js:36) and `Date.now` (index.js:75): clock and parsing in the runtime. Their results are the `Instant` of each commit and the `now` parameter.
- The `console.log` in `log` behind `process.env.DEBUG` (index.js:46): a side effect; `Log` is the identity.
- `console.log`, `console.error`, the `DEBUG` check and `process.exit(1)` in `run` (index.js:96-111): side effects. `Run` returns the printed line (or none) on success and the swallowed error on failure; exit status 1 corresponds to `Failure`.
- Argument parsing with `argparse` (index.js:114-123): a library wrapper.
- JavaScript numbers are doubles. Integers are modelled as unbounded, which agrees with the source for every PR number and millisecond timestamp below 2^53.
- Strings are modelled as sequences of Unicode code points. JavaScript measures strings in UTF-16 code units, so `🕐` has length 2 there; the program never measures or indexes a string, so its output is the same.
- Structural guarantees of the API schema are taken as given: `number` and `commit` are always present and `state` is never null when `status` is present.
