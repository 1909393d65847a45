# score-monster, modelled in Dafny

score-monster collects HackerRank contest scores into Google Sheets. A
`collect.json` file lists the sheets. Each sheet has a URL, a tab, an
optional `showStats` flag and a list of contests. Each contest has a
leaderboard link and an optional time window. The `Mediator` validates
that file and walks it sheet by sheet and contest by contest. For each
contest, `HackerrankAPI` pages through the contest's REST leaderboard and
keeps three keys of every entry. `Worksheet` wraps the spreadsheet and turns
its API errors into Python exceptions.

The model has these modules:

- `Wrappers`: `Option` and `Result`.
- `Json`: decoded JSON values and Python truthiness.
- `Decimal`: Python's `str` on integers and its inverse.
- `Templates`: the two link templates, plus a reader that recovers the
  offset and limit from a leaderboard link.
- `Hackerrank`: `on_time`, `filter_keys`, `parse_new_hackers`,
  `render_link` and the pagination loop of `get_leadearboard`, as the method
  `GetLeaderboard`.
- `LeaderboardFacts`: what one finished pagination run implies, proved
  about `Hackerrank.IsRun`. This includes the case of a leaderboard that
  serves a fixed corpus in slices.
- `Gsheets`: how `get_student_cell` and `_add_value` classify outcomes, and
  the `add_students` loop.
- `Mediator`: validation in `__init__`, and the plan of work of
  `begin_collection`.

Some things sit outside the model and are parameters instead:

- HTTP is a function `fetch` from a link to the decoded response
  (`total` and `models`).
- The spreadsheet calls `find` and `update_cell` are functions to a
  `StoreOutcome`: done, cell not found, or API error with status and message.
- `_add_student` is a function to `bool`.
- `LEADERBOARD_LIMIT` is the parameter `limit`.
- `sleep(QUOTA)` is counted, not performed.

`begin_collection` yields a `Collection`: the list of contest items it
would process, each with its sheet, tab, `showStats` flag, column, link and
window. It also yields the assertion error that stopped it, if any.

## Model

| member | source | states |
|---|---|---|
| Decimal.IntToStringRoundTrip | services/hackerrank.py:33-37 | the integer `str` that `substitute` writes into a link is a numeral, and reading it back gives the integer |
| Decimal.IntToStringInjective | services/hackerrank.py:33-37 | distinct integers render to distinct text |
| Decimal.NatToStringRoundTrip | services/hackerrank.py:33-37 | the decimal digits of a natural number read back to that number |
| Decimal.IntToStringShape | services/hackerrank.py:33-37 | `str(i)` uses only digits and `-`, and starts with `-` exactly when `i` is negative |
| Templates.ContestLinkInjective | services/constants/templates.py:4-7 | the contest name follows the fixed REST head verbatim, with no escaping and nothing after it, so distinct contest names give distinct contest links |
| Templates.LeaderboardLinkShape | services/constants/templates.py:4-14 | the contest link is a strict prefix of every leaderboard link of that contest, and every leaderboard link ends with the fixed `&_=1489594857572` parameter |
| Templates.LeaderboardLinkRoundTrip | services/constants/templates.py:9-14 | the offset and limit substituted into a leaderboard link can be read back from it |
| Templates.ParseLeaderboardLink | services/constants/templates.py:9-14 | any text the reader accepts is exactly the rendering of the offset and limit it returns |
| Templates.LeaderboardLinkInjective | services/constants/templates.py:9-14 | for a fixed contest, the link determines both the offset and the limit |
| Hackerrank.RenderLink | services/hackerrank.py:29-37 | the rendered link is the contest's leaderboard link for exactly the given offset and limit |
| Hackerrank.OnTime | services/hackerrank.py:39-55 | a timestamp passes when it is no earlier than the start (if set) and no later than the end (if set); both ends are inclusive, an unset end accepts everything, and a timestamp outside a set end fails |
| Hackerrank.Pick | services/hackerrank.py:57-66 | the comprehension over a key list succeeds exactly when every key is present; the result then has exactly those keys with unchanged values; otherwise the `KeyError` names the first missing key |
| Hackerrank.FilterKeysIsPick | services/hackerrank.py:57-66 | `filter_keys` is the key projection over `TARGET_KEYS` = hacker, score, timestamp, in that order |
| Hackerrank.ParseNewHackers | services/hackerrank.py:68-78 | parsing and consuming a page, when it succeeds, yields one hacker per model |
| Hackerrank.ParseNewHackersSucceeds | services/hackerrank.py:68-78 | parsing and consuming a page succeeds exactly when every model carries all target keys |
| Hackerrank.ParseNewHackersValues | services/hackerrank.py:68-78 | parsing and consuming a page, when it succeeds, holds at position i the projection of model i |
| Hackerrank.ParseNewHackersFirstFailure | services/hackerrank.py:68-78 | parsing and consuming a page that fails raises the `KeyError` of the first model (in page order) that lacks a target key |
| Hackerrank.ParseNewHackersAppend | services/hackerrank.py:105-108 | parsing two pages one after the other and extending the list equals parsing their concatenation; the first error wins |
| Hackerrank.GetLeaderboard | services/hackerrank.py:80-117 | on pages that are non-empty below `total`, every call ends in a finished run: request offsets equal the number of hackers collected so far, only the first `total` is read, the result is the parse of all consumed pages, and the last response is unused on success |
| Hackerrank.LoopStep | services/hackerrank.py:102-114 | one iteration that parses its page keeps the loop invariant, with the new offset equal to the new list length |
| Hackerrank.LoopFails | services/hackerrank.py:105-108 | a page whose consumption by `extend` raises `KeyError` ends the call with that error, after requests that all lay below `total` |
| Hackerrank.OffsetAt | services/hackerrank.py:111-114 | request k asks for the number of models fetched by requests 0 to k-1 |
| Hackerrank.NextRequest | services/hackerrank.py:111-114 | requesting at the current list length keeps every offset equal to the count fetched before it |
| LeaderboardFacts.NoTotalNoHackers | services/hackerrank.py:97-117 | a first `total` of 0 or less gives one request at offset 0 and an empty result |
| LeaderboardFacts.Stalls | services/hackerrank.py:102-114 | once a page is empty, every later request repeats its offset |
| LeaderboardFacts.StalledRun | services/hackerrank.py:102-114 | a run that meets an empty page ends at that page's offset, and its last page adds nothing |
| LeaderboardFacts.UsedPagesNonEmpty | services/hackerrank.py:102-114 | no finished call consumed an empty page |
| LeaderboardFacts.CorpusServerServes | services/constants/templates.py:9-14 | a server that reads offset and limit from the link and serves slices of a corpus meets `GetLeaderboard`'s precondition for any positive limit |
| LeaderboardFacts.FairPrefix | services/hackerrank.py:102-114 | against a leaderboard serving slices of a corpus, request k asks for `min(k * limit, n)`, and the pages before it are exactly the corpus up to there |
| LeaderboardFacts.FairCorpusRun | services/hackerrank.py:80-117 | against a leaderboard serving slices of a corpus, the result is the parse of the whole corpus: nothing is lost or repeated, and a `KeyError` is the one the whole corpus raises |
| LeaderboardFacts.FairRunOffsets | services/hackerrank.py:102-114 | against a leaderboard serving slices of a corpus of n entries, request k asks for offset `min(k * limit, n)` |
| LeaderboardFacts.FairRunRequests | services/hackerrank.py:102-117 | against a leaderboard serving slices of a corpus of n entries, a successful call makes `1 + ceil(n / limit)` requests, the last one unused at offset n |
| LeaderboardFacts.CollectCorpus | services/hackerrank.py:80-117 | calling `get_leadearboard` against a server that serves slices of a corpus collects the whole corpus in order, asks for offset `min(k * limit, n)` at request k, and on success makes `1 + ceil(n / limit)` requests |
| LeaderboardFacts.FairRequestCount | services/hackerrank.py:102-114 | offsets `min(k * limit, n)` that stop at the first one reaching n are `1 + ceil(n / limit)` requests |
| LeaderboardFacts.Overshoot | services/hackerrank.py:102-111 | the result is not cut at `total`: a first page of two entries with `total` 1 returns both entries, and the unused second request asks for offset 2 |
| Gsheets.ClassifyApiError | services/gsheets.py:37-43 | status 400 becomes `PermissionError` and any other status `ConnectionError`, in both cases with the API's message |
| Gsheets.GetStudentCell | services/gsheets.py:24-43 | the call succeeds unless the API errors; it gives `None` exactly when the cell is not found and the found cell otherwise; an API error raises `PermissionError` for status 400 and `ConnectionError` otherwise, with the API's message |
| Gsheets.AddValue | services/gsheets.py:45-66 | the result is `True` exactly when the update succeeds and `False` exactly when the cell is not found; an API error raises `PermissionError` for status 400 and `ConnectionError` otherwise, with the API's message |
| Gsheets.SameClassification | services/gsheets.py:37-66 | both store calls raise the same exception for the same API error |
| Gsheets.PyItem | services/gsheets.py:78 | `student[index]` exists exactly when `-len <= index < len`, and negative indices count from the end |
| Gsheets.AddStudents | services/gsheets.py:68-81 | the method returns the reference count `Added`: on success a count of at most the batch size, after one `QUOTA` wait per student; on `IndexError` the model records the position of the student whose row is too short, after one wait per earlier student |
| Gsheets.AddedSucceeds | services/gsheets.py:77-79 | a batch succeeds exactly when every row has an item at `index` |
| Gsheets.AddedBounds | services/gsheets.py:76-81 | the count never exceeds the batch size, and it equals the batch size exactly when `_add_student` added every student |
| Gsheets.AddedFailsAtFirstShortRow | services/gsheets.py:77-78 | in a failed batch, the position the model records for the `IndexError` is that of the first student whose row is too short |
| Gsheets.AddedPrefixFails | services/gsheets.py:77-78 | an `IndexError` within the first k students is the `IndexError` of the whole batch |
| Mediator.Init | services/mediator.py:29-37 | construction fails with the `SyntaxError` exactly when `sheets` is missing or empty; otherwise it keeps `sheets`, and keeps `filter` (or uses `[]` when it is absent) |
| Mediator.Limit | services/mediator.py:82-91 | a window bound is kept when present and non-empty, and is `None` otherwise |
| Mediator.ShowStats | services/mediator.py:62-64 | `show_stats` is Python's `bool` of the value: false when `showStats` is absent, `null` or `false`, true when it is `true`; a number counts when non-zero, a string, list or object when non-empty |
| Mediator.ShowStatsFalseText | services/mediator.py:62-64 | the string `"false"` turns stats on, because it is a non-empty string |
| Mediator.PlanContestsComplete | services/mediator.py:71-100 | the plan of a sheet's contest loop completes exactly when every contest has a link; item j of the plan is then contest j, in column j + 1 |
| Mediator.PlanContestsStops | services/mediator.py:71-77 | a stopped plan of the contest loop names the sheet and the first contest without a link, after planning every contest before it |
| Mediator.PlanSheetComplete | services/mediator.py:45-77 | the plan of one sheet completes without an assertion error exactly when its `sheetUrl`, `tabName` and `contests` are present and every contest has a link |
| Mediator.BeginCollectionComplete | services/mediator.py:39-77 | the plan of `begin_collection` completes without an assertion error exactly when every sheet of the mediator is valid |
| Mediator.BeginCollectionStops | services/mediator.py:45-77 | a stopped plan of `begin_collection` raises the assertion error of the first invalid sheet, numbered by its position in `sheets`; every earlier sheet is valid |
| Mediator.PlanSheetsComplete | services/mediator.py:45-100 | the plan of the sheet loop, over sheets numbered from any start, completes exactly when every sheet is valid |
| Mediator.PlanSheetsPrefix | services/mediator.py:45 | sheets are processed in list order: the plan of the first k sheets is a prefix of the whole plan, and a stop among them stops the whole collection |
| Mediator.SingleSheetPlan | services/mediator.py:58-100 | a valid sheet contributes one item per contest, in contest order, with its URL, tab and `bool(showStats)`, in columns 1, 2, ... |
| Mediator.FirstContestColumn | services/mediator.py:69-71 | the first contest is written to column 1 |
| Mediator.PlanSheetsStops | services/mediator.py:45-77 | a stopped plan names the first invalid sheet (every earlier sheet is valid) and that sheet's own assertion error |
| Mediator.PlanSheetErrorNamesSheet | services/mediator.py:47-77 | the assertion error of sheet i's iteration carries the number i |
| Mediator.PlanSheetCheckOrder | services/mediator.py:47-77 | within the plan of one sheet the assertions run in order: `sheetUrl`, `tabName`, `contests`, then each contest's `link` |

## Quirks of the code

The model follows the code in each of these cases:

- The loop of `get_leadearboard` makes one request more than it needs. Against a leaderboard of n entries served in pages of `limit`, it makes `1 + ceil(n / limit)` requests, and the response to the last one is never read (`LeaderboardFacts.FairRunRequests`, `Hackerrank.IsRun`).
- `TARGET_KEYS` keeps the `timestamp` of each entry. The code never reads a contest start time.
- `on_time` is never called, so the time window of a contest does not filter any entry.
- `begin_collection` passes `self.filter` to `HackerrankAPI` as its second positional argument (`services/mediator.py:94-96`). That position is `limit_start`, and the call has one argument more than `HackerrankAPI.__init__` accepts. The participant filter is therefore never applied.
- `begin_collection` numbers contests from 1, so the first contest is planned into column 1. The comment at `services/mediator.py:69-70` says that column holds the usernames (`Mediator.FirstContestColumn`).
- `add_students` waits `QUOTA` after every student, and nothing retries a failed call. Store errors are classified by status only: 400 versus anything else.

## Left out

- `automatic.py` is not part of this model. It is the scheduling entry point.
- Hackerrank.ParseNewHackers: models `list(parse_new_hackers(response))`, not the call alone. In Python 3 `map` is lazy, so the call at `services/hackerrank.py:105` raises no `KeyError`; `filter_keys`, its `print` and its `KeyError` first run when `all_hackers.extend` consumes the map at line 108. The partly extended list is discarded when the error leaves `get_leadearboard`, so the call's outcome is the same.
- The HTTP client, `json.loads` and every `print` are not modelled. `fetch` returns the decoded `total` and `models` directly, so a response without these keys, or with non-integer values, is not modelled.
- Hackerrank.GetLeaderboard: requires the page at every offset below the first `total` to be non-empty, including offsets the loop never requests. So a server whose first page already holds `total` entries but whose page at offset 1 is empty is excluded, although the source finishes on it. The source has no such check. On an empty page it repeats the same request forever, as long as the server keeps answering that offset with an empty page. `fetch` is a function, so the model's server always does. `LeaderboardFacts.Stalls` and `UsedPagesNonEmpty` state that behaviour for finished runs.
- `services/hackerrank.py` imports `HACKERRANK_LINK`, which `services/constants/templates.py` does not define. The model renders `HACKERRANK_LEADERBOARD_LINK`, the only template that takes an offset and a limit.
- `services/constants/fixed_numbers.py` is not part of this model, so `LEADERBOARD_LIMIT` is the parameter `limit`.
- Hackerrank.OnTime: timestamps are integers, not `datetime` values. A `datetime` is always truthy, so "set" is modelled as "not None".
- `Worksheet.__init__` (credentials, `gspread.authorize`, `open_by_url`) is not modelled: it is authentication and I/O.
- `_add_student` is not defined in `services/gsheets.py`. Its verdict is an oracle.
- `sleep(QUOTA)` is counted as waits, and the duration is not modelled.
- The file checks and the file reading of `Mediator.__init__` (`services/mediator.py:15-27`) are not modelled. `Init` starts from the parsed options.
- `datetime(*startLimit)` is not evaluated. The plan keeps the argument list.
- `begin_collection` calls `Worksheet(...)` positionally, but `Worksheet.__init__` accepts keyword arguments only. It passes four arguments to `HackerrankAPI`, which takes three, and calls `update_scores`, which does not exist. As written, importing `services/mediator.py` already fails: its line 9 imports `services/hackerrank.py`, which imports the undefined `HACKERRANK_LINK`, so an `ImportError` is raised first. Even if the imports succeeded, line 67 would raise `TypeError` on the first sheet that passes the assertions at lines 47-55. So the program never checks a contest link, never reaches a second sheet and never completes normally. The plan models the loops as if these calls matched their signatures: it stops at what each contest would be processed with, and the service calls are not chained.
- The `sheets` and `contests` values are modelled as lists, and `sheetUrl`, `tabName` and `link` as strings. JSON values of other types under these keys are not modelled.
- The assertion errors of `begin_collection` assume assertions are enabled. Under `python -O` the checks at `services/mediator.py:47-55` and `:73` are skipped, and a missing key fails later with `KeyError` (or a falsy value passes through). That mode is not modelled.
- Mediator.ShowStats: JSON floats are not modelled, since `Json.Num` holds an integer. So `0.0`, which Python treats as falsy, has no counterpart.
- The text of the assertion messages is not modelled; only the sheet and contest numbers they carry are.
- `LeaderboardFacts` states its pagination facts over the pages a contest serves at one fixed limit, that is, `fetch` seen through the rendered links. `Hackerrank.RenderedPage` and `LeaderboardFacts.CorpusServerServes` connect the two.

