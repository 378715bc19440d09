# A verified model of the roster scraper

`scraper.py` walks the 32 NFL team codes and the seasons 2017 to 2023. A
team-season already in the ledger is skipped without a request. For every
other one it fetches the roster page and reads the roster table. It then looks
up every rostered player's profile page to find the player's high school, and
writes the roster with an added "High School" column to
`<year>_<team>_roster.csv`. At the end it merges the files written in this run,
and only those, into one workbook with one sheet per file. A run that writes no
file writes no workbook. Two pickled structures make the run resumable:

- the fact cache `high_schools`, mapping a profile URL to the high school found
  (or `None` when the page had no such fact);
- the ledger `processed_teams_years` of finished (team, season) pairs.

This project models that cache-and-ledger logic in Dafny and proves what it
promises:

- a cached URL is never fetched again;
- only a 200 response with a bio section writes the cache;
- the cache only grows;
- a finished team-season is skipped;
- the ledger grows only when a file is written;
- each file holds its roster's frame, looked up in the cache as the earlier
  team-seasons left it;
- the workbook has one sheet per file of the run, with pairwise distinct names;
- each profile result lands in the row it belongs to.

The modules follow the program's structure:

| file | module | what it holds |
|---|---|---|
| `wrappers.dfy` | `Wrappers` | `Option`, Python's `None` or a value |
| `net.dfy` | `Net` | the outcome of one request (`Raised` or a `Response` with a status and the parsed body) and the request log entries |
| `text.dfy` | `Text` | `str.strip()`, BeautifulSoup's `get_text(strip=True)`, `str(int)`, `str.replace(pat, "")` and slicing, and the single-space join the text assembly is proved against |
| `profile.dfy` | `Profile` | the bio section of a profile page and how the "High School" fact is read out of it |
| `roster.dfy` | `Roster` | the roster table, the ordered `player_links` dict, the work list, the row each result goes back to, and the file and sheet names |
| `scraper.dfy` | `Scraper` | the class `ScraperState` over the module-level state, with `get_high_school`, `scrape_team_roster` and `scrape_all_teams` as methods, and the functions that specify them |

The network and the parsers are inputs:

- `profiles: string -> ProfileFetch` is what each profile URL comes back with;
- `pages: Task -> RosterFetch` is what each roster page does;
- `orders` gives, per task, the order in which the futures complete, as a
  permutation of the work-list indices;
- `csvWritten` says whether `df.to_csv` succeeds.

The cache and the ledger are `highSchools` and `processed`. `csvFiles` holds the
files on disk. `savedHighSchools` and `savedProcessed` are the two pickle files
(`None` when absent). The ghost field `requests` logs every page fetched.

The specification functions say what a whole run does:

- `CacheAfter(cache, urls, profiles)` is the cache after every URL of `urls` has
  been looked up once.
- `RosterColumn` is the finished "High School" column.
- `Completed` is the list of tasks that write a file, in visiting order.
- `Attempted` is the set of URLs the run works on.
- `CsvAfter` is the files on disk after a run.
- `Step` is what one `scrape_team_roster` call does to the persistent state
  (`Stored`), and `Run` is the steps of a run one after another.
- `RunAt` is the closed form of a run: the ledger, the cache, the files and
  both pickle files in terms of `Completed`, `Attempted` and `CsvAfter`.

The methods are proved to reach exactly those values, whatever the completion
order of the thread pool.

## Model

| member | source | states |
|---|---|---|
| Text.IsSpace | scraper.py:146 | defines the characters `str.strip()` removes: the ASCII and Unicode whitespace and separator characters |
| Text.TrimStart | scraper.py:146 | `lstrip()`: the result is a suffix of the string, what it drops is all whitespace, and it does not start with whitespace |
| Text.TrimEnd | scraper.py:146 | `rstrip()`: the result is a prefix of the string, what it drops is all whitespace, and it does not end with whitespace |
| Text.Strip | scraper.py:146 | the result has no whitespace at either end, a string with none at either end is unchanged, and only an all-whitespace string strips to "" |
| Text.StripIsInfix | scraper.py:150 | `strip()` keeps a contiguous piece of its argument, and what it removes on either side is whitespace |
| Text.StripDropsTrailingSpace | scraper.py:153-156 | the space appended after the last piece is removed by the final `strip()` |
| Text.StrippedText | scraper.py:155 | `get_text(strip=True)` has no whitespace at either end |
| Text.JoinWithSpacesNoOuterSpace | scraper.py:153-156 | non-empty pieces with no outer whitespace, joined by single spaces, have no outer whitespace and are non-empty |
| Text.NatToDecimal | scraper.py:249 | `str(year)` is digits only, at least one, with no leading zero |
| Text.NatToDecimalInjective | scraper.py:249 | different seasons have different decimal forms |
| Text.IntToDecimal | scraper.py:249 | `str(year)` is non-empty, starts with "-" exactly when the year is negative, and is decimal digits after that, at least one |
| Text.FourDigits | scraper.py:52 | every season of the range is written with four digits |
| Text.RemoveAll | scraper.py:288 | `.replace(pat, "")` removes the occurrences of `pat` left to right, without overlaps, so the result is never longer than the string |
| Text.RemoveAllSuffix | scraper.py:288 | `.replace(".csv", "")` on a name whose only "." is the extension's removes exactly the extension |
| Text.Prefix | scraper.py:288 | `[:31]` is a prefix of at most 31 characters, the whole string when it is shorter |
| Profile.IsHighSchoolParagraph | scraper.py:145-146 | defines the paragraph test: it has a `<strong>` label whose stripped text is "High School" |
| Profile.Piece | scraper.py:149-155 | what one sibling adds has no outer whitespace; an element always adds its stripped text; a bare string adds nothing exactly when it strips to ":" or is all whitespace |
| Profile.Pieces | scraper.py:148-155 | the siblings add at most one piece each, in document order, each with no outer whitespace |
| Profile.HighSchoolText | scraper.py:147-156 | the fact is the pieces joined by single spaces and stripped: it has no outer whitespace, and it is "" when no sibling adds a piece |
| Profile.AssembleHighSchool | scraper.py:147-156 | the sibling loop yields the stripped, space-joined pieces (`HighSchoolText`), with no outer whitespace |
| Profile.Spaced | scraper.py:147-155 | defines what the loop accumulates: each piece followed by one space |
| Profile.SpacedIsJoinedPlusSpace | scraper.py:153-155 | the accumulated text of at least one piece is the pieces joined by single spaces, plus one trailing space |
| Profile.StripSpaced | scraper.py:153-156 | stripping the accumulated "piece + space" text is stripping the pieces joined by single spaces |
| Profile.PiecesConcat | scraper.py:148-155 | the pieces of two runs of siblings are the pieces of each, in document order |
| Profile.SeparatorIgnored | scraper.py:149-152 | a bare ":" or whitespace-only string anywhere among the siblings leaves the fact unchanged |
| Profile.PiecesAreStripped | scraper.py:150-155 | only an element with empty text can add an empty piece: when no element is empty, no piece is empty |
| Profile.HighSchoolTextIsJoin | scraper.py:147-156 | when no element's text is empty, the fact is exactly the pieces joined by single spaces |
| Profile.EmptyElementLeavesDoubleSpace | scraper.py:153-156 | an element with empty text between two pieces leaves two spaces between them |
| Profile.FirstHighSchoolFrom | scraper.py:144-146 | the index found is the first paragraph at or after the start whose label reads "High School", or the end |
| Profile.HighSchoolOf | scraper.py:142-157 | None exactly when no paragraph is labelled "High School"; otherwise the fact of the first such paragraph |
| Profile.ExtractHighSchool | scraper.py:142-157 | the paragraph loop returns `HighSchoolOf(bio)`: it stops at the first match |
| Profile.IsRecorded | scraper.py:138-141 | defines the outcomes `get_high_school` writes to the cache: a 200 response whose page has a bio section |
| Profile.FetchedValue | scraper.py:138-167 | what a lookup returns once the page is fetched: a value only from a 200 response with a bio section, and then one with no outer whitespace |
| Profile.UnrecordedYieldsNone | scraper.py:161-167 | a non-200 status, a missing bio section or an exception yields None |
| Profile.NoMatchIsRecordedAsNone | scraper.py:142-160 | a bio section with no "High School" paragraph is recorded, with the value None |
| Profile.EmptyMatchIsRecordedAsEmpty | scraper.py:146-156 | a "High School" label with no siblings records "", not None |
| Roster.CellOf | scraper.py:205-210 | defines what the link loop reads of a row: the stripped link text and its `href` for a player cell with a link, and nothing otherwise |
| Roster.Cells | scraper.py:204-210 | one cell per table row, in order |
| Roster.LinksFrom | scraper.py:203-211 | the link dict fails exactly when some linked player cell has no `href` |
| Roster.Assign | scraper.py:211 | `player_links[name] = url`: the name maps to the URL, every other key keeps its value, a new key goes last, an existing key keeps its place, and a dict that lists each key once still does |
| Roster.LinksOf | scraper.py:203-211 | the dict built from the table rows: None exactly when some linked player cell has no `href`, and otherwise a dict that lists each key once |
| Roster.BuildPlayerLinks | scraper.py:203-211 | the row loop builds `LinksOf(rows)`, and stops with a failure exactly when a linked cell has no `href` |
| Roster.LinksWellFormed | scraper.py:203-211 | the dict lists each key once, and lists exactly its keys |
| Roster.LinksKeys | scraper.py:209-211 | a name is a key exactly when some linked cell's stripped text is that name |
| Roster.LinksLastWins | scraper.py:211 | a name maps to the `href` of the last cell carrying it |
| Roster.LinksKeepFirstAppearanceOrder | scraper.py:211 | keys are in the order of their first appearance among the cells |
| Roster.ArgsList | scraper.py:214-218 | the work list is never longer than the roster and holds only links of the dict |
| Roster.ArgsListConcat | scraper.py:214-218 | the work list follows the roster order |
| Roster.ArgsListMembers | scraper.py:214-218 | a URL is on the work list exactly when some rostered player maps to it |
| Roster.ArgsListLength | scraper.py:214-218 | there is one entry per roster row whose Player is a key, duplicates included |
| Roster.FirstNameFor | scraper.py:229-236 | `next(...)` yields the first key in insertion order that maps to the URL, or None when no key does |
| Roster.FirstRow | scraper.py:238-239 | the first row whose Player is the name, or None when no row has it |
| Roster.TargetRow | scraper.py:229-240 | a URL's result goes to a row whose Player is the first key mapping to the URL, non-empty, and the first row with that name; a URL no key maps to has no row; a URL whose first key is non-empty and rostered always has one |
| Roster.RowSource | scraper.py:229-240 | a row is written only when it is the first row carrying a non-empty name, and then with that name's link |
| Roster.TargetRowIffRowSource | scraper.py:229-240 | a URL's result is written to row `i` exactly when row `i`'s source is that URL |
| Roster.TargetRowsDistinct | scraper.py:237-240 | two different URLs never write to the same row |
| Roster.RowSourceInArgsList | scraper.py:214-240 | every written row gets its value from a URL on the work list |
| Roster.SharedUrlServesFirstNameOnly | scraper.py:229-240 | when two keys share a URL, the row of the later key is never written |
| Roster.FileName | scraper.py:249 | defines the file name f"{year}_{team}_roster.csv" |
| Roster.FileNameInjective | scraper.py:249-250 | distinct (team, season) pairs write distinct files, so no step overwrites another's CSV |
| Roster.SheetName | scraper.py:288 | the sheet name has at most 31 characters and is a prefix of the file name with ".csv" removed |
| Roster.SheetNameOfFile | scraper.py:288 | for a team code without ".", the sheet is the file name without ".csv", when that fits in 31 characters |
| Roster.StemInjective | scraper.py:288 | the season and the team can be read back from the sheet stem |
| Roster.SheetNamesDistinct | scraper.py:288 | distinct (team, season) pairs with codes free of "_" and "." and four-digit seasons get distinct sheets |
| Scraper.TeamsShape | scraper.py:53-86 | there are 32 team codes, each of three lower-case letters |
| Scraper.YearsRange | scraper.py:52 | `range(2017, 2024)`: exactly the seasons 2017 to 2023, in increasing order |
| Scraper.Seasons | scraper.py:272 | defines the inner loop's pairs: the team with each season of the range, in order |
| Scraper.Tasks | scraper.py:271-272 | defines the nested loops' pairs: the seasons of each team, teams outer; `TaskAt` and `TaskMembers` state their order and members |
| Scraper.TaskAt | scraper.py:271-272 | the enumeration has `7 * teams` entries, and entry `7i + j` is `(teams[i], 2017 + j)` |
| Scraper.TaskMembers | scraper.py:271-272 | a pair is visited exactly when its team is listed and its season in the range |
| Scraper.TasksWellNamed | scraper.py:53-86 | every task of the enumeration is well named: its team code has no "_" or "." and at most 18 characters, and its season has four digits |
| Scraper.Parsed | scraper.py:186-218 | the roster step gets past the page exactly when the response is a 200, the page has the roster comment and table, every linked player cell has an `href` and the frame has a "Player" column; the dict it yields lists each key once |
| Scraper.Work | scraper.py:214-218 | defines the work list: that of `ArgsList` once the roster is read, and empty when the roster step fails |
| Scraper.WorkOfPage | scraper.py:186-218 | the work list is empty when the roster step fails, and otherwise is no longer than the roster and made of the dict's links |
| Scraper.WorkSet | scraper.py:214-218 | defines the set of URLs on the work list |
| Scraper.Succeeds | scraper.py:186-255 | defines success: the roster is read and `df.to_csv` succeeds |
| Scraper.CacheAfter | scraper.py:158-159 | the keys after the lookups are the old keys plus the new URLs whose fetch is recorded |
| Scraper.Resolve | scraper.py:123-160 | defines the value a lookup returns: the cached one when the URL is cached, otherwise what the fetch yields |
| Scraper.CacheAfterExtends | scraper.py:159 | the cache only grows: no key is removed, no cached value changes, and a new key holds what its fetch yields |
| Scraper.CacheAfterCompose | scraper.py:159 | looking up one set of URLs and then another leaves the cache that looking them up together does, in any order |
| Scraper.CacheAfterAdd | scraper.py:123-159 | one more lookup leaves the cache alone when the URL is cached or its fetch is not recorded, and otherwise adds the URL |
| Scraper.RosterColumn | scraper.py:229-240 | the finished column has one entry per roster row: each row holds the result of the URL whose result lands there, or None |
| Scraper.RosterColumnBackfill | scraper.py:229-240 | each work-list URL's result is in its target row, and every row that no URL targets keeps None |
| Scraper.ColumnStep | scraper.py:237-240 | writing one result to its target row extends the partial column by that URL |
| Scraper.ColumnDone | scraper.py:226-247 | once every work-list URL is done, the column is the finished one, whatever the order |
| Scraper.RosterFrame | scraper.py:200 | the written frame has one "High School" entry per roster row |
| Scraper.Completed | scraper.py:269-276 | defines the tasks that write a file, in visiting order: not in the ledger, not done earlier in the run, and successful |
| Scraper.CompletedFacts | scraper.py:253 | every completed task is one of the run's, was not in the ledger at the start, succeeded, and completes once |
| Scraper.CompletedComplete | scraper.py:271-276 | every task of the run that is not in the ledger and succeeds is completed |
| Scraper.Attempted | scraper.py:269-276 | defines the profile URLs the run works on: the work lists of the tasks it does not skip |
| Scraper.AttemptedMembers | scraper.py:271-274 | a URL is worked on exactly when it is on the work list of some task of the run that is not in the ledger |
| Scraper.CompletedStep | scraper.py:274-276 | one more task completes exactly when it is new and succeeds, and its profiles are worked on exactly when it is new |
| Scraper.CsvAfter | scraper.py:249-255 | defines the files after a run: each completed task writes its roster frame, looked up in the cache the earlier tasks left |
| Scraper.CsvAfterFiles | scraper.py:249-250 | a run adds exactly the files of its completed tasks, and leaves every other file as it was |
| Scraper.CsvAfterStep | scraper.py:249-250 | one more task writes its file exactly when it completes, with the cache as the run has left it so far |
| Scraper.CsvAfterHolds | scraper.py:229-250 | the file of a completed task holds its roster frame, looked up in the cache the tasks before it left, at the end of the run, whatever tasks come after it |
| Scraper.CsvAfterKeeps | scraper.py:249-250 | a file a completed task wrote stays as it is when one more well-named task runs |
| Scraper.CompletedFiles | scraper.py:171-253 | a task's file is among the run's exactly when the task is one of the run's, is not in the ledger at the start, and succeeds |
| Scraper.AllLedgered | scraper.py:269-284 | a run whose every task is in the ledger completes nothing and looks up nothing, so it writes no file and no workbook |
| Scraper.CompletedSheetsDistinct | scraper.py:284-289 | the files of a run go to pairwise distinct sheets |
| Scraper.ProfileRequests | scraper.py:123-141 | defines the profile requests of one team-season: only URLs of the work list that were not cached, each such URL at least once, and a URL whose fetch is recorded at most once |
| Scraper.Occurrences | scraper.py:123-141 | defines how many times a request occurs in the log |
| Scraper.FetchLog | scraper.py:226-247 | defines the pool's requests so far: only looked-up URLs that were not cached, each of them, none for a URL not yet looked up, and a recorded URL at most once |
| Scraper.FetchLogStep | scraper.py:123-159 | one more lookup keeps `FetchLog`: a request is made exactly on a cache miss, and a recorded URL misses only on its first lookup |
| Scraper.FetchLogDone | scraper.py:226-247 | once the whole work list is looked up, the pool's requests are `ProfileRequests` of the work list |
| Scraper.Step | scraper.py:170-266 | one `scrape_team_roster` call: the ledger only grows, no file is removed, and a ledger backed by files stays backed |
| Scraper.Run | scraper.py:271-281 | defines the steps of a run one after another |
| Scraper.RunFiles | scraper.py:271-276 | defines the files the run's steps return, in order |
| Scraper.RunAt | scraper.py:171-290 | defines the closed form of a run: the ledger gains the completed tasks, the cache holds every lookup, the files are `CsvAfter`'s, and each pickle holds its latest value once it has been saved |
| Scraper.LedgerOnDisk | scraper.py:249-253 | defines the invariant that every ledgered team-season has its CSV file |
| Scraper.RunStep | scraper.py:170-276 | one step moves the closed form on by its task |
| Scraper.RunStepSkips | scraper.py:171-173 | a step on a task in the ledger, from the start or from earlier in the run, changes nothing, and neither does the closed form |
| Scraper.RunStepNew | scraper.py:174-255 | a step on a new task moves the closed form on: the ledger and the files gain the task exactly on success |
| Scraper.StepLooksUp | scraper.py:214-247 | after a step on a new task, the cache holds the lookups of the run so far, and its pickle is saved once any URL has been looked up |
| Scraper.RunClosedForm | scraper.py:271-281 | the run step by step ends where the closed form says |
| Scraper.RunFilesCompleted | scraper.py:271-276 | the files the run returns are those of its completed tasks, in order |
| Scraper.RunKeepsFiles | scraper.py:249-253 | a run removes no file and keeps every ledgered team-season backed by its file |
| Scraper.RunFilesOnDisk | scraper.py:249-276 | every file the run returns is on disk at the end |
| Scraper.ScraperState.Current | scraper.py:88-105 | defines the persistent state as it stands: the ledger, the cache, the files and the two pickle files |
| Scraper.ScraperState.Load | scraper.py:88-105 | each pickle is loaded when present, and the state starts empty when it is not |
| Scraper.ScraperState.SaveHighSchools | scraper.py:108-112 | the cache file holds the current cache |
| Scraper.ScraperState.SaveProcessed | scraper.py:115-118 | the ledger file holds the current ledger |
| Scraper.ScraperState.GetHighSchool | scraper.py:121-167 | a cached URL, even one cached as None, is answered from the cache with no request and no change; otherwise the page is requested once, and only a 200 response with a bio section writes the cache, with the value returned |
| Scraper.ScraperState.RecordResult | scraper.py:226-247 | one completed future: the cache and the column advance by that URL, the cache file is saved, and a request is made exactly when the URL was not cached |
| Scraper.ScraperState.RunWorkers | scraper.py:221-247 | in any completion order, the column is `RosterColumn` of the cache at the start, the cache is `CacheAfter` of the work list, and the requests appended are `ProfileRequests` of the work list: every uncached URL on it, nothing else, and a recorded URL once |
| Scraper.ScraperState.LookUp | scraper.py:226-247 | one completed future keeps the cache, the column and `FetchLog` in step with the URLs done, with its request appended |
| Scraper.ScraperState.CompleteFutures | scraper.py:226-247 | after the futures in `order` complete: the cache is `CacheAfter` and the column `PartialColumn` of their URLs, the cache file is saved when there was one, and the requests appended satisfy `FetchLog` |
| Scraper.ScraperState.ReadRosterPage | scraper.py:186-264 | after the roster request: the cache advances by the work list, exactly the uncached profiles are requested, and the file and the ledger entry are written both or neither, only on success |
| Scraper.ScraperState.ScrapeTeamRoster | scraper.py:170-266 | a ledgered pair is skipped with nothing changed; otherwise the roster page and then exactly the uncached profiles are requested, the cache advances by the work list, and the file and the ledger entry are written both or neither, only on success |
| Scraper.ScraperState.ProcessRoster | scraper.py:219-255 | after the roster is read: the lookups, then the CSV file, the ledger entry and the ledger file exactly when the CSV is written |
| Scraper.ScraperState.ScrapeTask | scraper.py:273-278 | one visited pair takes exactly one `Step` of the whole persistent state, so the state is `Run` of the tasks so far; the file is returned exactly when the pair is new and succeeds, and is then on disk; the requests are none for a skipped pair, and otherwise the roster page followed by `ProfileRequests` of its work list |
| Scraper.ScraperState.ScrapeSeason | scraper.py:272-278 | one season of the inner loop: the state is `Run` and the file list `RunFiles` of the tasks so far |
| Scraper.ScraperState.ScrapeSeasons | scraper.py:272-281 | the seasons of one team in order: the whole persistent state is `Run` of the tasks so far, and the file list `RunFiles` of them |
| Scraper.ScraperState.ScrapeTeams | scraper.py:271-281 | the nested loops: the whole persistent state is `Run`, and the file list `RunFiles`, of the enumeration |
| Scraper.ScraperState.WriteWorkbook | scraper.py:284-289 | one sheet per file, in order, named by `SheetName` and holding the file's frame |
| Scraper.ScraperState.ScrapeAllTeams | scraper.py:269-290 | the files are those of `Completed` over the enumeration, in order, and only ledger-free team-seasons are among them; the whole persistent state is `Run` of the enumeration and satisfies `RunAt`, so the ledger, the cache, both pickle files and every file's frame are stated; the ledger stays backed by files; the workbook holds one sheet per file of this run, with pairwise distinct names, and is written exactly when there is a file |

## Left out

- Transport: the HTTP requests, the proxy and TLS set-up and the two start-up test requests (scraper.py:14-47). Each request becomes an input outcome, with a thrown exception as `Raised`.
- Page parsing by BeautifulSoup and pandas (scraper.py:139-141, 187-198). The model takes their results as inputs: the bio paragraphs of a profile page, and the roster table's rows with its "Player" column.
- Pickle and CSV file contents: each save is a snapshot of the in-memory value, and each CSV file is the frame written. An exception raised while saving is not modelled.
- The frame's other columns, and "Player" values that are not strings. A frame is its Player column plus the "High School" column.
- Threads and the lock (scraper.py:89, 123, 158). The pool runs sequentially in a given completion order. The lookup does not depend on the order, because the network is deterministic: a URL answers the same way every time in a run. So the race in which two workers both miss the cache for one URL and both fetch it is not modelled. For the same reason, a URL that appears twice and is not recorded is fetched again in the model, once per completion.
- The `except` clauses at scraper.py:244-245 and 277-278 catch nothing in the model, because nothing in what they guard can fail there.
- The random delay between team-seasons (scraper.py:279-281).
- The `print` logging throughout scraper.py. It writes to the console and changes no state.
- Loading a pickle file that exists but cannot be read (scraper.py:90-105). Only `FileNotFoundError` is caught there, so such a file stops the program at start-up. `Load` takes each pickle as present with its value or absent, and cannot express this case.
- A profile URL whose fetch fails is not cached. There is no retry loop. Within a team-season it is fetched again only where it occurs again in the work list. It is also fetched again in every later team-season of the run whose work list holds it. Because the network is deterministic in the model, such a URL fails in each of them the same way. The model does not cover a URL that fails once and succeeds later.
- Writing the Excel file (scraper.py:285-290). `WriteWorkbook` returns the sheets as values.
- `combine_certs.py` is not part of this model. It joins two certificate files and does nothing else.
- Scraper.ScraperState.ScrapeAllTeams: states the request log only as append-only. What each team-season requests is stated by `ScrapeTask` and `ScrapeTeamRoster`, not collected for the whole run.
- Scraper.ScraperState.ScrapeTeams: states the request log only as append-only, for the same reason.
- Scraper.ScraperState.ScrapeSeasons: states the request log only as append-only, for the same reason.
- Scraper.ScraperState.ScrapeSeason: states the request log only as append-only, for the same reason.
- Scraper.TeamsShape: does not state that the 32 team codes are distinct. The model does not depend on it: a repeated code would be visited again, and its seasons skipped where the first visit entered them in the ledger.
