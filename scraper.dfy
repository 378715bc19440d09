/**
 * The scraper's state and its three steps: the per-player lookup
 * (`get_high_school`), the per-team-season step (`scrape_team_roster`) and
 * the run over every team and season (`scrape_all_teams`).
 *
 * The network is given as inputs: what each profile URL and each roster page
 * comes back with, the order in which the worker threads finish, and whether
 * the CSV write succeeds.
 */
module Scraper {
  import opened Wrappers
  import opened Text
  import opened Net
  import opened Profile
  import opened Roster

  /** The 32 team codes, in the order they are visited (scraper.py:53-86). */
  const TEAMS: seq<string> := [
    "crd", "atl", "rav", "buf", "car", "chi", "cin", "cle",
    "dal", "den", "det", "gnb", "htx", "clt", "jax", "kan",
    "rai", "sdg", "ram", "mia", "min", "nwe", "nor", "nyg",
    "nyj", "phi", "pit", "sfo", "sea", "tam", "oti", "was"
  ]

  /** `range(2017, 2024)` (scraper.py:52). */
  const YEARS: seq<int> := seq(2024 - 2017, j => 2017 + j)

  /** The run visits 32 team codes, each of three lower-case letters. */
  lemma TeamsShape()
    ensures |TEAMS| == 32
    ensures forall i :: 0 <= i < |TEAMS| ==> |TEAMS[i]| == 3 && forall k :: 0 <= k < 3 ==> 'a' <= TEAMS[i][k] <= 'z'
  {
  }

  /** The run visits exactly the seasons 2017 to 2023, in increasing order. */
  lemma YearsRange()
    ensures forall y :: y in YEARS <==> 2017 <= y <= 2023
    ensures forall i, j :: 0 <= i < j < |YEARS| ==> YEARS[i] < YEARS[j]
  {
    forall y | 2017 <= y <= 2023 ensures y in YEARS {
      assert YEARS[y - 2017] == y;
    }
  }

  /** A team code and a season. */
  type Task = (string, int)

  type RosterFetch = Fetch<RosterBody>

  /** The seasons of one team, in order. */
  function Seasons(team: string): seq<Task> {
    seq(|YEARS|, j requires 0 <= j < |YEARS| => (team, YEARS[j]))
  }

  /** The first `j + 1` seasons after `done` are the first `j` and then
      season `j`. */
  lemma SeasonsPrefix(done: seq<Task>, team: string, j: nat)
    requires j < |YEARS|
    ensures done + Seasons(team)[..j + 1] == done + Seasons(team)[..j] + [(team, YEARS[j])]
  {
    assert Seasons(team)[..j + 1] == Seasons(team)[..j] + [(team, YEARS[j])];
  }

  /** Every (team, season) pair, teams outer and seasons inner. */
  function Tasks(teams: seq<string>): seq<Task> {
    if teams == [] then [] else Tasks(teams[..|teams| - 1]) + Seasons(teams[|teams| - 1])
  }

  /** The tasks of the first `i + 1` teams are those of the first `i`, then
      the seasons of team `i`. */
  lemma TasksPrefix(teams: seq<string>, i: nat)
    requires i < |teams|
    ensures Tasks(teams[..i + 1]) == Tasks(teams[..i]) + Seasons(teams[i])
  {
    assert teams[..i + 1][..i] == teams[..i];
  }

  /** The enumeration visits `teams` x `YEARS` in nested order. */
  lemma {:induction false} TaskAt(teams: seq<string>)
    ensures |Tasks(teams)| == |YEARS| * |teams|
    ensures forall i, j :: 0 <= i < |teams| && 0 <= j < |YEARS| ==>
      Tasks(teams)[|YEARS| * i + j] == (teams[i], YEARS[j])
  {
    if teams != [] {
      var n := |teams| - 1;
      var front := teams[..n];
      TaskAt(front);
      var f, s := Tasks(front), Seasons(teams[n]);
      assert Tasks(teams) == f + s;
      assert |YEARS| == 7;
      forall i, j | 0 <= i < |teams| && 0 <= j < |YEARS|
        ensures Tasks(teams)[|YEARS| * i + j] == (teams[i], YEARS[j])
      {
        var k := |YEARS| * i + j;
        if i < n {
          assert k < |f| && (f + s)[k] == f[k];
          assert front[i] == teams[i];
        } else {
          assert k == |f| + j && (f + s)[k] == s[j];
        }
      }
    }
  }

  /** Every task of the run has a team from the list and a season from the
      range, and every such pair is a task. */
  lemma TaskMembers(teams: seq<string>, t: Task)
    ensures t in Tasks(teams) <==> t.0 in teams && t.1 in YEARS
  {
    TaskAt(teams);
    if t in Tasks(teams) {
      var k :| 0 <= k < |Tasks(teams)| && Tasks(teams)[k] == t;
      var i, j := k / |YEARS|, k % |YEARS|;
      assert k == |YEARS| * i + j;
    }
    if t.0 in teams && t.1 in YEARS {
      var i :| 0 <= i < |teams| && teams[i] == t.0;
      var j :| 0 <= j < |YEARS| && YEARS[j] == t.1;
      assert Tasks(teams)[|YEARS| * i + j] == t;
    }
  }

  // ---------------------------------------------------------------------
  // What one roster page yields

  /** The `player_links` dict and the "Player" column of a page, or None when
      the step fails before any profile is fetched: a non-200 status, no
      roster comment, no table, a link without `href`, or no "Player" column. */
  function Parsed(page: RosterFetch): (r: Option<(Links, seq<string>)>)
    ensures r.None? <==>
      || page.Raised? || page.status != OK || !page.body.RosterTable?
      || HasMissingHref(Cells(page.body.rows)) || page.body.players.None?
    ensures r.Some? ==> WellFormed(r.value.0) && r.value.1 == page.body.players.value
  {
    if page.Response? && page.status == OK && page.body.RosterTable?
       && LinksOf(page.body.rows).Some? && page.body.players.Some?
    then Some((LinksOf(page.body.rows).value, page.body.players.value))
    else None
  }

  /** The set of elements of `s`. */
  function Elements<T(!new)>(s: seq<T>): (r: set<T>)
    ensures forall x :: x in r <==> x in s
  {
    set x | x in s
  }

  lemma ElementsSnoc<T(!new)>(s: seq<T>, x: T)
    ensures Elements(s + [x]) == Elements(s) + {x}
  {
  }

  /** The work list handed to the thread pool (empty when the page fails). */
  function Work(page: RosterFetch): seq<string> {
    match Parsed(page)
    case None => []
    case Some(p) => ArgsList(p.1, p.0)
  }

  /** The work list is empty when the roster step fails, and otherwise no
      longer than the roster and made of the dict's links. */
  lemma WorkOfPage(page: RosterFetch)
    ensures Parsed(page).None? ==> Work(page) == []
    ensures Parsed(page).Some? ==>
      && |Work(page)| <= |Parsed(page).value.1|
      && forall k :: 0 <= k < |Work(page)| ==> Work(page)[k] in Parsed(page).value.0.href.Values
  {
  }

  /** The profile URLs the step works on. */
  function WorkSet(page: RosterFetch): set<string> {
    Elements(Work(page))
  }

  /** The step writes a CSV file and enters the ledger. */
  predicate Succeeds(page: RosterFetch, written: bool) {
    Parsed(page).Some? && written
  }

  /** `order` lists the `n` futures in the order they complete: each index
      below `n` appears, and nothing else. */
  predicate IsPermutation(order: seq<nat>, n: nat) {
    && |order| == n
    && (forall k :: 0 <= k < |order| ==> order[k] < n)
    && (forall j :: 0 <= j < n ==> j in order)
  }

  // ---------------------------------------------------------------------
  // The fact cache

  type Cache = map<string, Option<string>>

  /** The value `get_high_school` returns for `u`: the cached one, or what a
      fetch yields. The network answers a URL the same way every time. */
  function Resolve(cache: Cache, profiles: string -> ProfileFetch, u: string): Option<string> {
    if u in cache then cache[u] else FetchedValue(profiles(u))
  }

  /** The URLs of `urls` whose fetch is recorded in the cache. */
  function Recorded(urls: set<string>, profiles: string -> ProfileFetch): (r: set<string>)
    ensures forall u :: u in r <==> u in urls && IsRecorded(profiles(u))
  {
    set u | u in urls && IsRecorded(profiles(u))
  }

  /** The cache after `get_high_school` has run on every URL of `urls`: a URL
      not yet cached gets what its fetch yields, when the fetch is recorded. */
  function CacheAfter(cache: Cache, urls: set<string>, profiles: string -> ProfileFetch): (r: Cache)
    ensures r.Keys == cache.Keys + Recorded(urls, profiles)
  {
    map u | u in cache.Keys + Recorded(urls, profiles) :: Resolve(cache, profiles, u)
  }

  /** The cache only grows: no key is removed and no cached value changes; a
      new key holds what its fetch yields. */
  lemma CacheAfterExtends(cache: Cache, urls: set<string>, profiles: string -> ProfileFetch, u: string)
    ensures u in cache ==> u in CacheAfter(cache, urls, profiles) && CacheAfter(cache, urls, profiles)[u] == cache[u]
    ensures u in CacheAfter(cache, urls, profiles) ==> CacheAfter(cache, urls, profiles)[u] == Resolve(cache, profiles, u)
    ensures u in CacheAfter(cache, urls, profiles) - cache.Keys <==> u in urls && u !in cache && IsRecorded(profiles(u))
  {
  }

  /** With no lookups the cache stays as it is. */
  lemma CacheAfterNothing(cache: Cache, profiles: string -> ProfileFetch)
    ensures CacheAfter(cache, {}, profiles) == cache
  {
    assert CacheAfter(cache, {}, profiles).Keys == cache.Keys;
  }

  /** Running the lookups of `a` and then those of `b` leaves the cache that
      running them together does, whatever the order. */
  lemma CacheAfterCompose(cache: Cache, a: set<string>, b: set<string>, profiles: string -> ProfileFetch)
    ensures CacheAfter(CacheAfter(cache, a, profiles), b, profiles) == CacheAfter(cache, a + b, profiles)
  {
    var c1 := CacheAfter(cache, a, profiles);
    var l, r := CacheAfter(c1, b, profiles), CacheAfter(cache, a + b, profiles);
    assert l.Keys == r.Keys;
    forall u | u in l ensures l[u] == r[u] {
      if u !in cache && u in c1 {
        assert c1[u] == FetchedValue(profiles(u));
      }
    }
  }

  /** One more lookup. */
  lemma CacheAfterAdd(cache: Cache, done: set<string>, profiles: string -> ProfileFetch, u: string)
    ensures var c := CacheAfter(cache, done, profiles);
      CacheAfter(cache, done + {u}, profiles)
      == if u in c || !IsRecorded(profiles(u)) then c else c[u := FetchedValue(profiles(u))]
  {
    if u in CacheAfter(cache, done, profiles) || !IsRecorded(profiles(u)) {
      CacheAfterKeeps(cache, done, profiles, u);
    } else {
      CacheAfterInserts(cache, done, profiles, u);
    }
  }

  /** Looking up a URL that is cached, or whose fetch is not recorded,
      leaves the cache as it is. */
  lemma CacheAfterKeeps(cache: Cache, done: set<string>, profiles: string -> ProfileFetch, u: string)
    requires u in CacheAfter(cache, done, profiles) || !IsRecorded(profiles(u))
    ensures CacheAfter(cache, done + {u}, profiles) == CacheAfter(cache, done, profiles)
  {
    var c := CacheAfter(cache, done, profiles);
    var l := CacheAfter(cache, done + {u}, profiles);
    assert l.Keys == c.Keys;
  }

  /** Looking up a URL that is not cached and whose fetch is recorded adds
      it with what the fetch yields. */
  lemma CacheAfterInserts(cache: Cache, done: set<string>, profiles: string -> ProfileFetch, u: string)
    requires u !in CacheAfter(cache, done, profiles) && IsRecorded(profiles(u))
    ensures CacheAfter(cache, done + {u}, profiles) == CacheAfter(cache, done, profiles)[u := FetchedValue(profiles(u))]
  {
    var c := CacheAfter(cache, done, profiles);
    var e := c[u := FetchedValue(profiles(u))];
    var l := CacheAfter(cache, done + {u}, profiles);
    assert l.Keys == e.Keys;
  }

  // ---------------------------------------------------------------------
  // The "High School" column

  /** What the column holds after the results for the URLs in `done` have
      been written back. */
  function PartialColumn(players: seq<string>, d: Links, cache: Cache, profiles: string -> ProfileFetch,
                         done: set<string>): seq<Option<string>>
  {
    seq(|players|, i requires 0 <= i < |players| =>
      var s := RowSource(players, d, i);
      if s.Some? && s.value in done then Resolve(cache, profiles, s.value) else None)
  }

  /** The finished column: each row holds the result of the URL whose result
      lands there, or None. It does not depend on the completion order. */
  function RosterColumn(players: seq<string>, d: Links, cache: Cache, profiles: string -> ProfileFetch)
    : (col: seq<Option<string>>)
    ensures |col| == |players|
  {
    seq(|players|, i requires 0 <= i < |players| =>
      var s := RowSource(players, d, i);
      if s.Some? then Resolve(cache, profiles, s.value) else None)
  }

  /** The backfill: the result for each URL of the work list goes to the
      first row of the first name that maps to it, and every row no result
      goes to keeps None. */
  lemma RosterColumnBackfill(players: seq<string>, d: Links, cache: Cache, profiles: string -> ProfileFetch)
    ensures forall u :: u in ArgsList(players, d) && TargetRow(players, d, u).Some? ==>
      && TargetRow(players, d, u).value < |players|
      && RosterColumn(players, d, cache, profiles)[TargetRow(players, d, u).value] == Resolve(cache, profiles, u)
    ensures forall i :: (0 <= i < |players| && (forall u :: u in ArgsList(players, d) ==> TargetRow(players, d, u) != Some(i))
                         ==> RosterColumn(players, d, cache, profiles)[i] == None)
  {
    var col := RosterColumn(players, d, cache, profiles);
    forall u | u in ArgsList(players, d) && TargetRow(players, d, u).Some?
      ensures TargetRow(players, d, u).value < |col| && col[TargetRow(players, d, u).value] == Resolve(cache, profiles, u)
    {
      var i := TargetRow(players, d, u).value;
      assert i < |players| by {
        var n := FirstNameFor(d, u).value;
      }
      TargetRowIffRowSource(players, d, u, i);
    }
    forall i | 0 <= i < |players| && (forall u :: u in ArgsList(players, d) ==> TargetRow(players, d, u) != Some(i))
      ensures col[i] == None
    {
      var s := RowSource(players, d, i);
      if s.Some? {
        RowSourceInArgsList(players, d, i);
        TargetRowIffRowSource(players, d, s.value, i);
      }
    }
  }

  /** Writing the result for `u` to its target row extends the column by
      `u`. */
  lemma ColumnStep(players: seq<string>, d: Links, cache: Cache, profiles: string -> ProfileFetch,
                   done: set<string>, u: string)
    ensures var col := PartialColumn(players, d, cache, profiles, done);
      PartialColumn(players, d, cache, profiles, done + {u})
      == match TargetRow(players, d, u)
         case None => col
         case Some(i) => if i < |col| then col[i := Resolve(cache, profiles, u)] else col
  {
    var col := PartialColumn(players, d, cache, profiles, done);
    var col' := PartialColumn(players, d, cache, profiles, done + {u});
    forall i | 0 <= i < |players| {
      TargetRowIffRowSource(players, d, u, i);
    }
  }

  /** Once every URL of the work list is done, the column is complete. */
  lemma ColumnDone(players: seq<string>, d: Links, cache: Cache, profiles: string -> ProfileFetch, done: set<string>)
    requires done == Elements(ArgsList(players, d))
    ensures PartialColumn(players, d, cache, profiles, done) == RosterColumn(players, d, cache, profiles)
  {
    forall i | 0 <= i < |players| && RowSource(players, d, i).Some? {
      RowSourceInArgsList(players, d, i);
    }
  }

  /** A CSV file: the roster's Player column and the "High School" column
      added to it. The other columns of the table are not modelled. */
  datatype Frame = Frame(players: seq<string>, highSchool: seq<Option<string>>)

  /** The file a successful step writes. */
  function RosterFrame(page: RosterFetch, cache: Cache, profiles: string -> ProfileFetch): (f: Frame)
    requires Parsed(page).Some?
    ensures |f.highSchool| == |f.players| == |Parsed(page).value.1|
  {
    var p := Parsed(page).value;
    Frame(p.1, RosterColumn(p.1, p.0, cache, profiles))
  }

  // ---------------------------------------------------------------------
  // The whole run

  /** The tasks, in visiting order, that write a file when the run starts
      with ledger `ledger`: not in the ledger, not done earlier in the run,
      and successful. */
  function Completed(tasks: seq<Task>, ledger: set<Task>, pages: Task -> RosterFetch, written: Task -> bool)
    : seq<Task>
  {
    if tasks == [] then []
    else
      var c := Completed(tasks[..|tasks| - 1], ledger, pages, written);
      var t := tasks[|tasks| - 1];
      if t !in ledger && t !in c && Succeeds(pages(t), written(t)) then c + [t] else c
  }

  /** No element of `s` occurs twice. */
  predicate NoRepeats<T(==)>(s: seq<T>) {
    forall i, j :: 0 <= i < j < |s| ==> s[i] != s[j]
  }

  /** Every completed task is one of the run's, was not in the ledger, and
      completes once. */
  lemma {:induction false} CompletedFacts(tasks: seq<Task>, ledger: set<Task>, pages: Task -> RosterFetch,
                                          written: Task -> bool)
    ensures forall t :: t in Completed(tasks, ledger, pages, written) ==>
      t in tasks && t !in ledger && Succeeds(pages(t), written(t))
    ensures NoRepeats(Completed(tasks, ledger, pages, written))
  {
    if tasks != [] {
      var front := tasks[..|tasks| - 1];
      CompletedFacts(front, ledger, pages, written);
      var c := Completed(front, ledger, pages, written);
      var t := tasks[|tasks| - 1];
      assert forall x :: x in front ==> x in tasks;
      if t !in ledger && t !in c && Succeeds(pages(t), written(t)) {
        NoRepeatsSnoc(c, t);
      }
    }
  }

  lemma NoRepeatsSnoc<T>(s: seq<T>, x: T)
    requires NoRepeats(s) && x !in s
    ensures NoRepeats(s + [x])
  {
    var s' := s + [x];
    forall i, j | 0 <= i < j < |s'| ensures s'[i] != s'[j] {
      assert s'[i] == s[i];
    }
  }

  /** Conversely, every task of the run that is not in the ledger and
      succeeds is completed. */
  lemma {:induction false} CompletedComplete(tasks: seq<Task>, ledger: set<Task>, pages: Task -> RosterFetch,
                                             written: Task -> bool, t: Task)
    requires t in tasks && t !in ledger && Succeeds(pages(t), written(t))
    ensures t in Completed(tasks, ledger, pages, written)
  {
    var front, last := tasks[..|tasks| - 1], tasks[|tasks| - 1];
    if t != last {
      var k :| 0 <= k < |tasks| && tasks[k] == t;
      assert front[k] == t;
      CompletedComplete(front, ledger, pages, written, t);
    }
  }

  /** The profile URLs the run works on: those of every task it does not skip. */
  function Attempted(tasks: seq<Task>, ledger: set<Task>, pages: Task -> RosterFetch, written: Task -> bool)
    : set<string>
  {
    if tasks == [] then {}
    else
      var front := tasks[..|tasks| - 1];
      var t := tasks[|tasks| - 1];
      Attempted(front, ledger, pages, written)
      + if t !in ledger && t !in Completed(front, ledger, pages, written) then WorkSet(pages(t)) else {}
  }

  /** A URL is worked on exactly when it is on the work list of some task
      of the run that is not in the ledger. */
  lemma {:induction false} AttemptedMembers(tasks: seq<Task>, ledger: set<Task>, pages: Task -> RosterFetch,
                                            written: Task -> bool, u: string)
    ensures u in Attempted(tasks, ledger, pages, written) <==>
      exists t :: t in tasks && t !in ledger && u in WorkSet(pages(t))
  {
    if tasks != [] {
      var front := tasks[..|tasks| - 1];
      var last := tasks[|tasks| - 1];
      assert tasks == front + [last];
      AttemptedMembers(front, ledger, pages, written, u);
      CompletedFacts(front, ledger, pages, written);
      if exists t :: t in tasks && t !in ledger && u in WorkSet(pages(t)) {
        var t :| t in tasks && t !in ledger && u in WorkSet(pages(t));
        if t !in front {
          assert t == last && t !in Completed(front, ledger, pages, written);
        }
      }
    }
  }

  /** One more task: it completes when it is new and succeeds, and its
      profiles are worked on when it is new. */
  lemma CompletedStep(done: seq<Task>, t: Task, ledger: set<Task>, pages: Task -> RosterFetch, written: Task -> bool)
    ensures Completed(done + [t], ledger, pages, written)
            == Completed(done, ledger, pages, written)
               + if t !in ledger && t !in Completed(done, ledger, pages, written) && Succeeds(pages(t), written(t))
                 then [t] else []
    ensures Attempted(done + [t], ledger, pages, written)
            == Attempted(done, ledger, pages, written)
               + if t !in ledger && t !in Completed(done, ledger, pages, written) then WorkSet(pages(t)) else {}
  {
    var next := done + [t];
    assert next[..|next| - 1] == done && next[|next| - 1] == t;
  }

  function FileNames(tasks: seq<Task>): (files: seq<string>)
    ensures |files| == |tasks|
  {
    seq(|tasks|, k requires 0 <= k < |tasks| => FileName(tasks[k].0, tasks[k].1))
  }

  lemma FileNamesSnoc(a: seq<Task>, t: Task)
    ensures FileNames(a + [t]) == FileNames(a) + [FileName(t.0, t.1)]
  {
  }

  /** The CSV files on disk after the tasks `tasks` of a run that started
      with files `files`, ledger `ledger` and cache `cache`: each task that
      completes writes the frame of its roster, looked up in the cache the
      earlier tasks left; every other file stays as it was. */
  function CsvAfter(files: map<string, Frame>, tasks: seq<Task>, ledger: set<Task>, pages: Task -> RosterFetch,
                    written: Task -> bool, cache: Cache, profiles: string -> ProfileFetch): map<string, Frame>
  {
    if tasks == [] then files
    else
      var front, t := tasks[..|tasks| - 1], tasks[|tasks| - 1];
      var before := CsvAfter(files, front, ledger, pages, written, cache, profiles);
      if t !in ledger && t !in Completed(front, ledger, pages, written) && Succeeds(pages(t), written(t))
      then before[FileName(t.0, t.1) := RosterFrame(pages(t), CacheAfter(cache, Attempted(front, ledger, pages, written), profiles), profiles)]
      else before
  }

  /** The run adds exactly the files of its completed tasks, and leaves
      every other file as it was. */
  lemma {:induction false} CsvAfterFiles(files: map<string, Frame>, tasks: seq<Task>, ledger: set<Task>,
                                         pages: Task -> RosterFetch, written: Task -> bool, cache: Cache,
                                         profiles: string -> ProfileFetch)
    ensures forall f :: f in CsvAfter(files, tasks, ledger, pages, written, cache, profiles)
                        <==> f in files || f in FileNames(Completed(tasks, ledger, pages, written))
    ensures forall f :: f in files && f !in FileNames(Completed(tasks, ledger, pages, written))
                        ==> CsvAfter(files, tasks, ledger, pages, written, cache, profiles)[f] == files[f]
  {
    if tasks != [] {
      var front, t := tasks[..|tasks| - 1], tasks[|tasks| - 1];
      CsvAfterFiles(files, front, ledger, pages, written, cache, profiles);
      FileNamesSnoc(Completed(front, ledger, pages, written), t);
    }
  }

  /** One more task: a task that completes writes its file, with the cache
      as the run has left it so far. */
  lemma CsvAfterStep(files: map<string, Frame>, done: seq<Task>, t: Task, ledger: set<Task>, pages: Task -> RosterFetch,
                     written: Task -> bool, cache: Cache, profiles: string -> ProfileFetch)
    ensures CsvAfter(files, done + [t], ledger, pages, written, cache, profiles)
            == if t !in ledger && t !in Completed(done, ledger, pages, written) && Succeeds(pages(t), written(t))
               then CsvAfter(files, done, ledger, pages, written, cache, profiles)[FileName(t.0, t.1) :=
                      RosterFrame(pages(t), CacheAfter(cache, Attempted(done, ledger, pages, written), profiles), profiles)]
               else CsvAfter(files, done, ledger, pages, written, cache, profiles)
  {
    var next := done + [t];
    assert next[..|next| - 1] == done && next[|next| - 1] == t;
  }

  /** The file of task `i`, when that task completes, holds its roster
      frame, looked up in the cache the tasks before it left, at the end of
      the run: no later task writes the same file. */
  lemma {:induction false} CsvAfterHolds(files: map<string, Frame>, tasks: seq<Task>, i: nat, ledger: set<Task>,
                                         pages: Task -> RosterFetch, written: Task -> bool, cache: Cache,
                                         profiles: string -> ProfileFetch)
    requires i < |tasks| && forall k :: i <= k < |tasks| ==> WellNamed(tasks[k])
    requires tasks[i] !in ledger && tasks[i] !in Completed(tasks[..i], ledger, pages, written)
    requires Succeeds(pages(tasks[i]), written(tasks[i]))
    ensures var after, t := CsvAfter(files, tasks, ledger, pages, written, cache, profiles), tasks[i];
      && FileName(t.0, t.1) in after
      && after[FileName(t.0, t.1)] == RosterFrame(pages(t), CacheAfter(cache, Attempted(tasks[..i], ledger, pages, written), profiles), profiles)
    decreases |tasks|
  {
    var front := tasks[..|tasks| - 1];
    if i < |tasks| - 1 {
      assert front[..i] == tasks[..i] && front[i] == tasks[i];
      CsvAfterHolds(files, front, i, ledger, pages, written, cache, profiles);
      assert tasks[i] in front;
      CsvAfterKeeps(files, tasks, ledger, pages, written, cache, profiles, tasks[i]);
    }
  }

  /** A file a completed task has written stays as it is when one more
      well-named task runs. */
  lemma CsvAfterKeeps(files: map<string, Frame>, tasks: seq<Task>, ledger: set<Task>,
                      pages: Task -> RosterFetch, written: Task -> bool, cache: Cache,
                      profiles: string -> ProfileFetch, t: Task)
    requires tasks != [] && WellNamed(t) && WellNamed(tasks[|tasks| - 1])
    requires t in tasks[..|tasks| - 1] && t !in ledger && Succeeds(pages(t), written(t))
    requires FileName(t.0, t.1) in CsvAfter(files, tasks[..|tasks| - 1], ledger, pages, written, cache, profiles)
    ensures var before := CsvAfter(files, tasks[..|tasks| - 1], ledger, pages, written, cache, profiles);
      var after := CsvAfter(files, tasks, ledger, pages, written, cache, profiles);
      FileName(t.0, t.1) in after && after[FileName(t.0, t.1)] == before[FileName(t.0, t.1)]
  {
    var front, last := tasks[..|tasks| - 1], tasks[|tasks| - 1];
    if FileName(last.0, last.1) == FileName(t.0, t.1) {
      FileNameInjective(last.0, last.1, t.0, t.1);
      CompletedComplete(front, ledger, pages, written, t);
    }
  }

  /** The run writes the file of a well-named task exactly when the task is
      one of the run's tasks, is not in the ledger, and succeeds: a task in
      the ledger is skipped and its file is not among the run's. */
  lemma CompletedFiles(tasks: seq<Task>, ledger: set<Task>, pages: Task -> RosterFetch, written: Task -> bool, t: Task)
    requires forall s :: s in tasks ==> WellNamed(s)
    requires WellNamed(t)
    ensures FileName(t.0, t.1) in FileNames(Completed(tasks, ledger, pages, written))
            <==> t in tasks && t !in ledger && Succeeds(pages(t), written(t))
  {
    var c := Completed(tasks, ledger, pages, written);
    CompletedFacts(tasks, ledger, pages, written);
    if FileName(t.0, t.1) in FileNames(c) {
      var k :| 0 <= k < |c| && FileNames(c)[k] == FileName(t.0, t.1);
      assert c[k] in c;
      FileNameInjective(c[k].0, c[k].1, t.0, t.1);
    }
    if t in tasks && t !in ledger && Succeeds(pages(t), written(t)) {
      CompletedComplete(tasks, ledger, pages, written, t);
      var k :| 0 <= k < |c| && c[k] == t;
      assert FileNames(c)[k] == FileName(t.0, t.1);
    }
  }

  /** A run whose every task is already in the ledger completes nothing and
      looks up nothing: it writes no file, so no workbook either. */
  lemma {:induction false} AllLedgered(tasks: seq<Task>, ledger: set<Task>, pages: Task -> RosterFetch, written: Task -> bool)
    requires forall t :: t in tasks ==> t in ledger
    ensures Completed(tasks, ledger, pages, written) == []
    ensures Attempted(tasks, ledger, pages, written) == {}
  {
    if tasks != [] {
      var front := tasks[..|tasks| - 1];
      assert forall t :: t in front ==> t in tasks;
      AllLedgered(front, ledger, pages, written);
    }
  }

  /** A team code and season whose file and sheet names cannot clash with
      another's. */
  predicate WellNamed(t: Task) {
    '_' !in t.0 && '.' !in t.0 && |t.0| <= 18 && 1000 <= t.1 < 10000
  }

  /** The files of a run are distinct and go to distinct sheets. */
  lemma CompletedSheetsDistinct(tasks: seq<Task>, ledger: set<Task>, pages: Task -> RosterFetch, written: Task -> bool)
    requires forall t :: t in tasks ==> WellNamed(t)
    ensures forall i, j :: 0 <= i < j < |Completed(tasks, ledger, pages, written)| ==>
      SheetName(FileNames(Completed(tasks, ledger, pages, written))[i])
      != SheetName(FileNames(Completed(tasks, ledger, pages, written))[j])
  {
    var c := Completed(tasks, ledger, pages, written);
    CompletedFacts(tasks, ledger, pages, written);
    forall i, j | 0 <= i < j < |c|
      ensures SheetName(FileNames(c)[i]) != SheetName(FileNames(c)[j])
    {
      var a, b := c[i], c[j];
      assert a in c && b in c;
      assert a != b;
      SheetNamesDistinct(a.0, a.1, b.0, b.1);
    }
  }

  /** Every task of the run is well named: its team code has no "_" or "."
      and at most 18 characters (each is three letters), and its season has
      four digits. */
  lemma TasksWellNamed()
    ensures forall t :: t in Tasks(TEAMS) ==> WellNamed(t)
  {
    assert forall i :: 0 <= i < |TEAMS| ==> |TEAMS[i]| == 3 && '_' !in TEAMS[i] && '.' !in TEAMS[i];
    forall t | t in Tasks(TEAMS) ensures WellNamed(t) {
      TaskMembers(TEAMS, t);
    }
  }

  /** `log` holds only profile requests for URLs of `urls` that `cache`
      does not hold, and one for each such URL; a URL whose fetch is
      recorded is requested at most once, since its first lookup caches it. */
  ghost predicate ProfileRequests(log: seq<Request>, urls: seq<string>, cache: Cache, profiles: string -> ProfileFetch) {
    && (forall r :: r in log ==> r.ProfilePage? && r.playerUrl in urls && r.playerUrl !in cache)
    && (forall u :: u in urls && u !in cache ==> ProfilePage(u) in log)
    && (forall u {:trigger Occurrences(log, ProfilePage(u))} :: IsRecorded(profiles(u)) ==> Occurrences(log, ProfilePage(u)) <= 1)
  }

  /** How many times `x` occurs in `log`. */
  function Occurrences(log: seq<Request>, x: Request): nat {
    if log == [] then 0
    else Occurrences(log[..|log| - 1], x) + if log[|log| - 1] == x then 1 else 0
  }

  /** The profile requests of the thread pool after the URLs in `done` have
      been looked up, starting from cache `cache0`. */
  ghost predicate FetchLog(log: seq<Request>, done: set<string>, cache0: Cache, profiles: string -> ProfileFetch) {
    && (forall r :: r in log ==> r.ProfilePage? && r.playerUrl in done && r.playerUrl !in cache0)
    && (forall u :: u in done && u !in cache0 ==> ProfilePage(u) in log)
    && (forall u {:trigger Occurrences(log, ProfilePage(u))} :: u !in done ==> Occurrences(log, ProfilePage(u)) == 0)
    && (forall u {:trigger Occurrences(log, ProfilePage(u))} :: IsRecorded(profiles(u)) ==> Occurrences(log, ProfilePage(u)) <= 1)
  }

  /** One more lookup: a request is logged exactly on a cache miss, and a
      miss on a recorded URL can only be its first lookup. */
  lemma FetchLogStep(log: seq<Request>, done: set<string>, cache0: Cache, profiles: string -> ProfileFetch,
                     u: string, hit: bool)
    requires FetchLog(log, done, cache0, profiles)
    requires hit <==> u in cache0 || (u in done && IsRecorded(profiles(u)))
    ensures FetchLog(if hit then log else log + [ProfilePage(u)], done + {u}, cache0, profiles)
  {
    if !hit {
      var log' := log + [ProfilePage(u)];
      assert log'[..|log'| - 1] == log;
      forall v ensures Occurrences(log', ProfilePage(v)) == Occurrences(log, ProfilePage(v)) + if v == u then 1 else 0 {
      }
    }
  }

  /** Once the whole work list is looked up, the log is its profile requests. */
  lemma FetchLogDone(log: seq<Request>, urls: seq<string>, cache0: Cache, profiles: string -> ProfileFetch)
    requires FetchLog(log, Elements(urls), cache0, profiles)
    ensures ProfileRequests(log, urls, cache0, profiles)
  {
  }

  // ---------------------------------------------------------------------
  // The state

  /** The scraper's persistent state: the ledger, the fact cache, the CSV
      files and the two pickle files (None when absent). */
  datatype Stored = Stored(processed: set<Task>, highSchools: Cache, csvFiles: map<string, Frame>,
                           savedHighSchools: Option<Cache>, savedProcessed: Option<set<Task>>)

  /** The state after the tasks `tasks` of a run that started from
      `start`: the ledger holds the completed tasks, the cache every
      lookup, the files every completed task's frame; each pickle holds the
      latest value once it has been saved, and is untouched before. */
  predicate RunAt(s: Stored, start: Stored, tasks: seq<Task>, pages: Task -> RosterFetch, written: Task -> bool,
                  profiles: string -> ProfileFetch)
  {
    var c := Completed(tasks, start.processed, pages, written);
    var a := Attempted(tasks, start.processed, pages, written);
    && s.processed == start.processed + Elements(c)
    && s.highSchools == CacheAfter(start.highSchools, a, profiles)
    && s.csvFiles == CsvAfter(start.csvFiles, tasks, start.processed, pages, written, start.highSchools, profiles)
    && s.savedHighSchools == (if a == {} then start.savedHighSchools else Some(s.highSchools))
    && s.savedProcessed == (if c == [] then start.savedProcessed else Some(s.processed))
  }

  /** What one `scrape_team_roster` call (scraper.py:170-266) does to the
      persistent state: nothing for a team-season in the ledger; otherwise
      every URL of the work list is looked up, the cache is saved when there
      was a lookup, and on success the file is written and the ledger
      extended and saved. */
  function Step(s: Stored, t: Task, page: RosterFetch, written: bool, profiles: string -> ProfileFetch): (r: Stored)
    ensures s.processed <= r.processed && s.csvFiles.Keys <= r.csvFiles.Keys
    ensures LedgerOnDisk(s) ==> LedgerOnDisk(r)
  {
    if t in s.processed then s
    else
      var cache := CacheAfter(s.highSchools, WorkSet(page), profiles);
      var saved := if Work(page) == [] then s.savedHighSchools else Some(cache);
      if Succeeds(page, written) then
        var ledger := s.processed + {t};
        Stored(ledger, cache, s.csvFiles[FileName(t.0, t.1) := RosterFrame(page, s.highSchools, profiles)],
               saved, Some(ledger))
      else
        Stored(s.processed, cache, s.csvFiles, saved, s.savedProcessed)
  }

  /** The persistent state after the steps of `tasks`, one after another,
      from `start`. */
  function Run(start: Stored, tasks: seq<Task>, pages: Task -> RosterFetch, written: Task -> bool,
               profiles: string -> ProfileFetch): Stored
  {
    if tasks == [] then start
    else
      var t := tasks[|tasks| - 1];
      Step(Run(start, tasks[..|tasks| - 1], pages, written, profiles), t, pages(t), written(t), profiles)
  }

  /** The files the steps of `tasks` write, in order. */
  function RunFiles(start: Stored, tasks: seq<Task>, pages: Task -> RosterFetch, written: Task -> bool,
                    profiles: string -> ProfileFetch): seq<string>
  {
    if tasks == [] then []
    else
      var front, t := tasks[..|tasks| - 1], tasks[|tasks| - 1];
      RunFiles(start, front, pages, written, profiles)
      + if t !in Run(start, front, pages, written, profiles).processed && Succeeds(pages(t), written(t))
        then [FileName(t.0, t.1)] else []
  }

  /** Every team-season in the ledger has its CSV file. */
  predicate LedgerOnDisk(s: Stored) {
    forall t :: t in s.processed ==> FileName(t.0, t.1) in s.csvFiles
  }

  /** A run removes no file and keeps the ledger matching the files on
      disk. */
  lemma {:induction false} RunKeepsFiles(start: Stored, tasks: seq<Task>, pages: Task -> RosterFetch,
                                         written: Task -> bool, profiles: string -> ProfileFetch)
    ensures start.csvFiles.Keys <= Run(start, tasks, pages, written, profiles).csvFiles.Keys
    ensures LedgerOnDisk(start) ==> LedgerOnDisk(Run(start, tasks, pages, written, profiles))
  {
    if tasks != [] {
      RunKeepsFiles(start, tasks[..|tasks| - 1], pages, written, profiles);
    }
  }

  /** Every file the run writes is on disk once it has been written. */
  lemma {:induction false} RunFilesOnDisk(start: Stored, tasks: seq<Task>, pages: Task -> RosterFetch,
                                          written: Task -> bool, profiles: string -> ProfileFetch)
    ensures forall f :: f in RunFiles(start, tasks, pages, written, profiles) ==>
      f in Run(start, tasks, pages, written, profiles).csvFiles
  {
    if tasks != [] {
      var front := tasks[..|tasks| - 1];
      RunFilesOnDisk(start, front, pages, written, profiles);
    }
  }

  /** One step moves the run on by its task. */
  lemma RunStep(s: Stored, start: Stored, done: seq<Task>, task: Task, pages: Task -> RosterFetch,
                written: Task -> bool, profiles: string -> ProfileFetch)
    requires RunAt(s, start, done, pages, written, profiles)
    ensures RunAt(Step(s, task, pages(task), written(task), profiles), start, done + [task], pages, written, profiles)
  {
    if task in s.processed {
      RunStepSkips(s, start, done, task, pages, written, profiles);
    } else {
      RunStepNew(s, start, done, task, pages, written, profiles);
    }
  }

  /** A step on a task in the ledger, at the start or from earlier in the
      run, changes nothing, and neither does the closed form. */
  lemma RunStepSkips(s: Stored, start: Stored, done: seq<Task>, task: Task, pages: Task -> RosterFetch,
                     written: Task -> bool, profiles: string -> ProfileFetch)
    requires RunAt(s, start, done, pages, written, profiles) && task in s.processed
    ensures RunAt(Step(s, task, pages(task), written(task), profiles), start, done + [task], pages, written, profiles)
  {
    var ledger0 := start.processed;
    var c, a := Completed(done, ledger0, pages, written), Attempted(done, ledger0, pages, written);
    CompletedStep(done, task, ledger0, pages, written);
    CsvAfterStep(start.csvFiles, done, task, ledger0, pages, written, start.highSchools, profiles);
    assert task in ledger0 || task in c;
    assert Completed(done + [task], ledger0, pages, written) == c && Attempted(done + [task], ledger0, pages, written) == a;
  }

  /** A step on a new task looks up its work list and, on success, writes
      its file and enters the ledger, as the closed form says. */
  lemma RunStepNew(s: Stored, start: Stored, done: seq<Task>, task: Task, pages: Task -> RosterFetch,
                   written: Task -> bool, profiles: string -> ProfileFetch)
    requires RunAt(s, start, done, pages, written, profiles) && task !in s.processed
    ensures RunAt(Step(s, task, pages(task), written(task), profiles), start, done + [task], pages, written, profiles)
  {
    var ledger0, cache0 := start.processed, start.highSchools;
    var c, a := Completed(done, ledger0, pages, written), Attempted(done, ledger0, pages, written);
    var c', a' := Completed(done + [task], ledger0, pages, written), Attempted(done + [task], ledger0, pages, written);
    CompletedStep(done, task, ledger0, pages, written);
    CsvAfterStep(start.csvFiles, done, task, ledger0, pages, written, cache0, profiles);
    assert task !in ledger0 && task !in c;
    StepLooksUp(s, start, done, task, pages, written, profiles);
    if Succeeds(pages(task), written(task)) {
      assert c' == c + [task];
      ElementsSnoc(c, task);
    } else {
      assert c' == c;
    }
  }

  /** The cache and its pickle after a step on a new task, as the closed
      form says. */
  lemma StepLooksUp(s: Stored, start: Stored, done: seq<Task>, task: Task, pages: Task -> RosterFetch,
                    written: Task -> bool, profiles: string -> ProfileFetch)
    requires RunAt(s, start, done, pages, written, profiles) && task !in s.processed
    ensures var next, a' := Step(s, task, pages(task), written(task), profiles),
                            Attempted(done + [task], start.processed, pages, written);
      && next.highSchools == CacheAfter(start.highSchools, a', profiles)
      && next.savedHighSchools == if a' == {} then start.savedHighSchools else Some(next.highSchools)
  {
    var ledger0, cache0 := start.processed, start.highSchools;
    var c, a := Completed(done, ledger0, pages, written), Attempted(done, ledger0, pages, written);
    var a' := Attempted(done + [task], ledger0, pages, written);
    CompletedStep(done, task, ledger0, pages, written);
    assert task !in ledger0 && task !in c;
    assert a' == a + WorkSet(pages(task));
    CacheAfterCompose(cache0, a, WorkSet(pages(task)), profiles);
    if Work(pages(task)) != [] {
      assert Work(pages(task))[0] in WorkSet(pages(task));
    } else {
      assert a' == a;
    }
  }

  /** The run step by step ends where the closed form says: the ledger
      gains the completed tasks, the cache holds every lookup, the files are
      `CsvAfter`'s, and each pickle is saved once its value has changed. */
  lemma {:induction false} RunClosedForm(start: Stored, tasks: seq<Task>, pages: Task -> RosterFetch,
                                         written: Task -> bool, profiles: string -> ProfileFetch)
    ensures RunAt(Run(start, tasks, pages, written, profiles), start, tasks, pages, written, profiles)
  {
    if tasks == [] {
      CacheAfterNothing(start.highSchools, profiles);
    } else {
      var front, t := tasks[..|tasks| - 1], tasks[|tasks| - 1];
      assert tasks == front + [t];
      RunClosedForm(start, front, pages, written, profiles);
      RunStep(Run(start, front, pages, written, profiles), start, front, t, pages, written, profiles);
    }
  }

  /** The files the run writes are those of its completed tasks, in order. */
  lemma {:induction false} RunFilesCompleted(start: Stored, tasks: seq<Task>, pages: Task -> RosterFetch,
                                             written: Task -> bool, profiles: string -> ProfileFetch)
    ensures RunFiles(start, tasks, pages, written, profiles) == FileNames(Completed(tasks, start.processed, pages, written))
  {
    if tasks != [] {
      var front, t := tasks[..|tasks| - 1], tasks[|tasks| - 1];
      var c := Completed(front, start.processed, pages, written);
      RunFilesCompleted(start, front, pages, written, profiles);
      RunClosedForm(start, front, pages, written, profiles);
      assert t in Run(start, front, pages, written, profiles).processed <==> t in start.processed || t in c;
      FileNamesSnoc(c, t);
    }
  }

  /** A prefix of a prefix of a log is a prefix of the log. */
  lemma PrefixOfPrefix(base: seq<Request>, log: seq<Request>, now: seq<Request>)
    requires |log| >= |base| && log[..|base|] == base
    requires |now| >= |log| && now[..|log|] == log
    ensures |now| >= |base| && now[..|base|] == base
  {
    assert now[..|base|] == now[..|log|][..|base|];
  }

  /** The module-level state of the scraper: the fact cache, the ledger of
      finished team-seasons, the CSV files on disk and the two pickle files
      (None when absent). `requests` records the pages fetched. */
  class ScraperState {
    var highSchools: Cache
    var processed: set<Task>
    var csvFiles: map<string, Frame>
    var savedHighSchools: Option<Cache>
    var savedProcessed: Option<set<Task>>
    ghost var requests: seq<Request>

    /** Start-up (scraper.py:88-105): each pickle is loaded when present, and
        the state starts empty when it is not. */
    constructor Load(cachedHighSchools: Option<Cache>, cachedProcessed: Option<set<Task>>, files: map<string, Frame>)
      ensures highSchools == cachedHighSchools.GetOr(map[])
      ensures processed == cachedProcessed.GetOr({})
      ensures csvFiles == files
      ensures savedHighSchools == cachedHighSchools && savedProcessed == cachedProcessed
      ensures requests == []
    {
      highSchools := cachedHighSchools.GetOr(map[]);
      processed := cachedProcessed.GetOr({});
      csvFiles := files;
      savedHighSchools := cachedHighSchools;
      savedProcessed := cachedProcessed;
      requests := [];
    }

    /** Every team-season in the ledger has its CSV file. */
    predicate Consistent()
      reads this
    {
      LedgerOnDisk(Current())
    }

    /** The persistent state as it stands. */
    function Current(): Stored
      reads this
    {
      Stored(processed, highSchools, csvFiles, savedHighSchools, savedProcessed)
    }

    /** `save_high_schools` (scraper.py:108-112). */
    method SaveHighSchools()
      modifies this`savedHighSchools
      ensures savedHighSchools == Some(highSchools)
    {
      savedHighSchools := Some(highSchools);
    }

    /** `save_processed_teams_years` (scraper.py:115-118). */
    method SaveProcessed()
      modifies this`savedProcessed
      ensures savedProcessed == Some(processed)
    {
      savedProcessed := Some(processed);
    }

    /** `get_high_school` (scraper.py:121-167). A cached URL, even one cached
        as None, is answered from the cache with no request. Otherwise
        `response` is fetched; only a 200 response with a bio section writes
        the cache, with the value returned. */
    method GetHighSchool(playerUrl: string, response: ProfileFetch) returns (url: string, highSchool: Option<string>)
      modifies this`highSchools, this`requests
      ensures url == playerUrl
      ensures playerUrl in old(highSchools) ==>
        highSchool == old(highSchools)[playerUrl] && highSchools == old(highSchools) && requests == old(requests)
      ensures playerUrl !in old(highSchools) ==>
        && requests == old(requests) + [ProfilePage(playerUrl)]
        && highSchool == FetchedValue(response)
        && highSchools == if IsRecorded(response) then old(highSchools)[playerUrl := highSchool] else old(highSchools)
    {
      url := playerUrl;
      if playerUrl in highSchools {
        return url, highSchools[playerUrl];
      }
      requests := requests + [ProfilePage(playerUrl)];
      highSchool := None;
      if response.Response? && response.status == OK {
        match response.body
        case Some(bio) =>
          highSchool := ExtractHighSchool(bio);
          highSchools := highSchools[playerUrl := highSchool];
        case None =>
      }
    }

    /** One future of scraper.py:223-247 completing: `get_high_school` runs on
        `u`, its result is written to the first row of the first name that
        maps to `u`, and the cache is saved. `done` are the URLs handled
        before, starting from cache `cache0`. */
    method RecordResult(ghost cache0: Cache, ghost done: set<string>, players: seq<string>, d: Links, u: string,
                        profiles: string -> ProfileFetch, column: seq<Option<string>>)
      returns (column': seq<Option<string>>)
      requires highSchools == CacheAfter(cache0, done, profiles)
      requires column == PartialColumn(players, d, cache0, profiles, done)
      modifies this`highSchools, this`requests, this`savedHighSchools
      ensures highSchools == CacheAfter(cache0, done + {u}, profiles)
      ensures column' == PartialColumn(players, d, cache0, profiles, done + {u})
      ensures savedHighSchools == Some(highSchools)
      ensures u in old(highSchools) <==> u in cache0 || (u in done && IsRecorded(profiles(u)))
      ensures requests == old(requests) + if u in old(highSchools) then [] else [ProfilePage(u)]
    {
      CacheAfterAdd(cache0, done, profiles, u);
      CacheAfterExtends(cache0, done, profiles, u);
      var url, highSchool := GetHighSchool(u, profiles(u));
      var name := FirstNameFor(d, url);
      ghost var target := if name.Some? && name.value != "" then FirstRow(players, name.value) else None;
      assert target == TargetRow(players, d, u);
      column' := column;
      if name.Some? && name.value != "" {
        var idx := FirstRow(players, name.value);
        if idx.Some? {
          column' := column'[idx.value := highSchool];
        }
      }
      SaveHighSchools();
      ColumnStep(players, d, cache0, profiles, done, u);
    }

    /** One completed future, with its request logged in `fetches`. */
    method LookUp(ghost cache0: Cache, ghost done: set<string>, ghost base: seq<Request>, ghost fetches: seq<Request>,
                  players: seq<string>, d: Links, u: string, profiles: string -> ProfileFetch,
                  column: seq<Option<string>>)
      returns (column': seq<Option<string>>, ghost fetches': seq<Request>)
      requires highSchools == CacheAfter(cache0, done, profiles)
      requires column == PartialColumn(players, d, cache0, profiles, done)
      requires requests == base + fetches
      requires FetchLog(fetches, done, cache0, profiles)
      modifies this`highSchools, this`requests, this`savedHighSchools
      ensures highSchools == CacheAfter(cache0, done + {u}, profiles)
      ensures column' == PartialColumn(players, d, cache0, profiles, done + {u})
      ensures savedHighSchools == Some(highSchools)
      ensures requests == base + fetches'
      ensures FetchLog(fetches', done + {u}, cache0, profiles)
    {
      ghost var hit := u in highSchools;
      column' := RecordResult(cache0, done, players, d, u, profiles, column);
      FetchLogStep(fetches, done, cache0, profiles, u, hit);
      fetches' := if hit then fetches else fetches + [ProfilePage(u)];
    }

    /** The thread pool of scraper.py:221-247 run in completion order
        `order`: each result is looked up and written to its row, and the
        cache is saved after each one. */
    method RunWorkers(players: seq<string>, d: Links, order: seq<nat>, profiles: string -> ProfileFetch)
      returns (column: seq<Option<string>>)
      requires IsPermutation(order, |ArgsList(players, d)|)
      modifies this`highSchools, this`requests, this`savedHighSchools
      ensures column == RosterColumn(players, d, old(highSchools), profiles)
      ensures highSchools == CacheAfter(old(highSchools), Elements(ArgsList(players, d)), profiles)
      ensures savedHighSchools == if order == [] then old(savedHighSchools) else Some(highSchools)
      ensures |requests| >= |old(requests)| && requests[..|old(requests)|] == old(requests)
      ensures ProfileRequests(requests[|old(requests)|..], ArgsList(players, d), old(highSchools), profiles)
    {
      var args := ArgsList(players, d);
      ghost var cache0 := highSchools;
      ghost var done, fetches;
      column, done, fetches := CompleteFutures(cache0, players, d, order, profiles);
      assert done == Elements(args) by {
        forall u | u in args ensures u in done {
          var m :| 0 <= m < |args| && args[m] == u;
          assert m in order;
          var k :| 0 <= k < |order| && order[k] == m;
        }
      }
      ColumnDone(players, d, cache0, profiles, done);
      assert requests[..|old(requests)|] == old(requests) && requests[|old(requests)|..] == fetches;
      FetchLogDone(fetches, args, cache0, profiles);
    }

    /** The `as_completed` loop of scraper.py:226-247: the futures complete in
        `order`; `done` are their URLs and `fetches` the requests they make. */
    method CompleteFutures(ghost cache0: Cache, players: seq<string>, d: Links, order: seq<nat>,
                           profiles: string -> ProfileFetch)
      returns (column: seq<Option<string>>, ghost done: set<string>, ghost fetches: seq<Request>)
      requires highSchools == cache0
      requires forall k :: 0 <= k < |order| ==> order[k] < |ArgsList(players, d)|
      modifies this`highSchools, this`requests, this`savedHighSchools
      ensures done <= Elements(ArgsList(players, d))
      ensures forall j :: 0 <= j < |order| ==> ArgsList(players, d)[order[j]] in done
      ensures highSchools == CacheAfter(cache0, done, profiles)
      ensures column == PartialColumn(players, d, cache0, profiles, done)
      ensures savedHighSchools == if order == [] then old(savedHighSchools) else Some(highSchools)
      ensures requests == old(requests) + fetches
      ensures FetchLog(fetches, done, cache0, profiles)
    {
      var args := ArgsList(players, d);
      fetches := [];
      done := {};
      CacheAfterNothing(cache0, profiles);
      column := seq(|players|, _ => None);
      for k := 0 to |order|
        invariant done <= Elements(args)
        invariant forall j :: 0 <= j < k ==> args[order[j]] in done
        invariant highSchools == CacheAfter(cache0, done, profiles)
        invariant column == PartialColumn(players, d, cache0, profiles, done)
        invariant savedHighSchools == if k == 0 then old(savedHighSchools) else Some(highSchools)
        invariant requests == old(requests) + fetches
        invariant FetchLog(fetches, done, cache0, profiles)
      {
        var u := args[order[k]];
        column, fetches := LookUp(cache0, done, old(requests), fetches, players, d, u, profiles, column);
        ghost var before := done;
        done := done + {u};
        forall j | 0 <= j < k + 1 ensures args[order[j]] in done {
          if j < k {
            assert args[order[j]] in before;
          }
        }
      }
    }

    /** `scrape_team_roster` (scraper.py:170-266) for one team and season.
        `page` is what the roster request comes back with, `profiles` what
        each profile request does, `order` the order in which the futures
        complete, and `csvWritten` whether `df.to_csv` succeeds. */
    method ScrapeTeamRoster(team: string, year: int, page: RosterFetch, profiles: string -> ProfileFetch,
                            order: seq<nat>, csvWritten: bool) returns (fileName: Option<string>)
      requires IsPermutation(order, |Work(page)|)
      modifies this
      // the ledger skip
      ensures (team, year) in old(processed) ==>
        && fileName == None && highSchools == old(highSchools) && processed == old(processed)
        && csvFiles == old(csvFiles) && savedHighSchools == old(savedHighSchools)
        && savedProcessed == old(savedProcessed) && requests == old(requests)
      // the cache: every URL of the work list looked up once
      ensures (team, year) !in old(processed) ==>
        && highSchools == CacheAfter(old(highSchools), WorkSet(page), profiles)
        && savedHighSchools == (if Work(page) == [] then old(savedHighSchools) else Some(highSchools))
      // the requests: the roster page, then profiles, only uncached ones, and all of those
      ensures (team, year) !in old(processed) ==>
        && |requests| > |old(requests)|
        && requests[..|old(requests)| + 1] == old(requests) + [RosterPage(team, year)]
        && ProfileRequests(requests[|old(requests)| + 1..], Work(page), old(highSchools), profiles)
      // the ledger and the file: both written exactly on success
      ensures (team, year) !in old(processed) && Succeeds(page, csvWritten) ==>
        && fileName == Some(FileName(team, year))
        && processed == old(processed) + {(team, year)} && savedProcessed == Some(processed)
        && csvFiles == old(csvFiles)[FileName(team, year) := RosterFrame(page, old(highSchools), profiles)]
      ensures (team, year) !in old(processed) && !Succeeds(page, csvWritten) ==>
        && fileName == None && processed == old(processed) && savedProcessed == old(savedProcessed)
        && csvFiles == old(csvFiles)
      ensures old(Consistent()) ==> Consistent()
    {
      if (team, year) in processed {
        return None;
      }
      requests := requests + [RosterPage(team, year)];
      fileName := ReadRosterPage(team, year, page, profiles, order, csvWritten);
    }

    /** The part of scraper.py:186-264 after the roster page has been
        requested: the page is read, and when that succeeds the roster is
        processed. */
    method ReadRosterPage(team: string, year: int, page: RosterFetch, profiles: string -> ProfileFetch,
                          order: seq<nat>, csvWritten: bool) returns (fileName: Option<string>)
      requires IsPermutation(order, |Work(page)|)
      modifies this
      ensures highSchools == CacheAfter(old(highSchools), WorkSet(page), profiles)
      ensures savedHighSchools == if Work(page) == [] then old(savedHighSchools) else Some(highSchools)
      ensures |requests| >= |old(requests)| && requests[..|old(requests)|] == old(requests)
      ensures ProfileRequests(requests[|old(requests)|..], Work(page), old(highSchools), profiles)
      ensures Succeeds(page, csvWritten) ==>
        && fileName == Some(FileName(team, year))
        && processed == old(processed) + {(team, year)} && savedProcessed == Some(processed)
        && csvFiles == old(csvFiles)[FileName(team, year) := RosterFrame(page, old(highSchools), profiles)]
      ensures !Succeeds(page, csvWritten) ==>
        && fileName == None && processed == old(processed) && savedProcessed == old(savedProcessed)
        && csvFiles == old(csvFiles)
      ensures old(Consistent()) ==> Consistent()
    {
      CacheAfterNothing(highSchools, profiles);
      if !(page.Response? && page.status == OK) || !page.body.RosterTable? {
        return None;
      }
      var links := BuildPlayerLinks(page.body.rows);
      if links.None? || page.body.players.None? {
        return None;
      }
      var d, players := links.value, page.body.players.value;
      assert Parsed(page) == Some((d, players)) && ArgsList(players, d) == Work(page);
      fileName := ProcessRoster(team, year, players, d, order, profiles, csvWritten);
    }

    /** The part of scraper.py:219-264 after the roster has been read: the
        lookups of the work list, then the CSV file and the ledger entry,
        both only when the file is written. */
    method ProcessRoster(team: string, year: int, players: seq<string>, d: Links, order: seq<nat>,
                         profiles: string -> ProfileFetch, csvWritten: bool) returns (fileName: Option<string>)
      requires IsPermutation(order, |ArgsList(players, d)|)
      modifies this
      ensures highSchools == CacheAfter(old(highSchools), Elements(ArgsList(players, d)), profiles)
      ensures savedHighSchools == if ArgsList(players, d) == [] then old(savedHighSchools) else Some(highSchools)
      ensures |requests| >= |old(requests)| && requests[..|old(requests)|] == old(requests)
      ensures ProfileRequests(requests[|old(requests)|..], ArgsList(players, d), old(highSchools), profiles)
      ensures csvWritten ==>
        && fileName == Some(FileName(team, year))
        && processed == old(processed) + {(team, year)} && savedProcessed == Some(processed)
        && csvFiles == old(csvFiles)[FileName(team, year) := Frame(players, RosterColumn(players, d, old(highSchools), profiles))]
      ensures !csvWritten ==>
        && fileName == None && processed == old(processed) && savedProcessed == old(savedProcessed)
        && csvFiles == old(csvFiles)
      ensures old(Consistent()) ==> Consistent()
    {
      var column := RunWorkers(players, d, order, profiles);
      if !csvWritten {
        return None;
      }
      var file := FileName(team, year);
      csvFiles := csvFiles[file := Frame(players, column)];
      processed := processed + {(team, year)};
      SaveProcessed();
      return Some(file);
    }

    /** One iteration of the loop of scraper.py:271-281, after the tasks
        `done` of a run that started from `start`: the persistent state takes
        one step, the file is written exactly on success, and the requests
        are those of `ScrapeTeamRoster`. */
    method ScrapeTask(ghost start: Stored, ghost done: seq<Task>, task: Task, pages: Task -> RosterFetch,
                      profiles: string -> ProfileFetch, orders: Task -> seq<nat>, csvWritten: Task -> bool)
      returns (csvFile: Option<string>)
      requires IsPermutation(orders(task), |Work(pages(task))|)
      requires Current() == Run(start, done, pages, csvWritten, profiles)
      modifies this
      ensures Current() == Step(old(Current()), task, pages(task), csvWritten(task), profiles)
      ensures Current() == Run(start, done + [task], pages, csvWritten, profiles)
      ensures csvFile == if task !in old(processed) && Succeeds(pages(task), csvWritten(task))
                         then Some(FileName(task.0, task.1)) else None
      ensures RunFiles(start, done + [task], pages, csvWritten, profiles)
              == RunFiles(start, done, pages, csvWritten, profiles) + if csvFile.Some? then [csvFile.value] else []
      ensures csvFile.Some? ==> csvFile.value in csvFiles
      ensures task in old(processed) ==> requests == old(requests)
      ensures task !in old(processed) ==>
        && |requests| > |old(requests)|
        && requests[..|old(requests)| + 1] == old(requests) + [RosterPage(task.0, task.1)]
        && ProfileRequests(requests[|old(requests)| + 1..], Work(pages(task)), old(highSchools), profiles)
      ensures |requests| >= |old(requests)| && requests[..|old(requests)|] == old(requests)
    {
      csvFile := ScrapeTeamRoster(task.0, task.1, pages(task), profiles, orders(task), csvWritten(task));
      ghost var next := done + [task];
      assert next[..|next| - 1] == done && next[|next| - 1] == task;
      if task !in old(processed) {
        assert requests[..|old(requests)|] == requests[..|old(requests)| + 1][..|old(requests)|];
      }
    }

    /** The workbook of scraper.py:284-290: one sheet per file, in order,
        named after the file and holding its contents. */
    method WriteWorkbook(allFiles: seq<string>) returns (sheets: seq<(string, Frame)>)
      requires forall f :: f in allFiles ==> f in csvFiles
      ensures |sheets| == |allFiles|
      ensures forall k :: 0 <= k < |allFiles| ==> sheets[k] == (SheetName(allFiles[k]), csvFiles[allFiles[k]])
    {
      sheets := [];
      for k := 0 to |allFiles|
        invariant |sheets| == k
        invariant forall i :: 0 <= i < k ==> sheets[i] == (SheetName(allFiles[i]), csvFiles[allFiles[i]])
      {
        var file := allFiles[k];
        sheets := sheets + [(SheetName(file), csvFiles[file])];
      }
    }

    /** The inner loop of scraper.py:272-281: the seasons of one team, after
        the tasks `done` of a run that started from `start`; each file
        written is appended to `allFiles`. */
    method ScrapeSeasons(ghost start: Stored, ghost done: seq<Task>, team: string, allFiles: seq<string>,
                         pages: Task -> RosterFetch, profiles: string -> ProfileFetch,
                         orders: Task -> seq<nat>, csvWritten: Task -> bool)
      returns (allFiles': seq<string>)
      requires forall t :: IsPermutation(orders(t), |Work(pages(t))|)
      requires Current() == Run(start, done, pages, csvWritten, profiles)
      requires allFiles == RunFiles(start, done, pages, csvWritten, profiles)
      modifies this
      ensures Current() == Run(start, done + Seasons(team), pages, csvWritten, profiles)
      ensures allFiles' == RunFiles(start, done + Seasons(team), pages, csvWritten, profiles)
      ensures |requests| >= |old(requests)| && requests[..|old(requests)|] == old(requests)
    {
      allFiles' := allFiles;
      assert done + Seasons(team)[..0] == done;
      for j := 0 to |YEARS|
        invariant Current() == Run(start, done + Seasons(team)[..j], pages, csvWritten, profiles)
        invariant allFiles' == RunFiles(start, done + Seasons(team)[..j], pages, csvWritten, profiles)
        invariant |requests| >= |old(requests)| && requests[..|old(requests)|] == old(requests)
      {
        allFiles' := ScrapeSeason(start, done, old(requests), team, j, allFiles', pages, profiles, orders, csvWritten);
      }
      assert Seasons(team)[..|YEARS|] == Seasons(team);
    }

    /** Season `j` of the inner loop of scraper.py:272-281. The request log
        keeps its prefix `base`. */
    method ScrapeSeason(ghost start: Stored, ghost done: seq<Task>, ghost base: seq<Request>, team: string, j: nat,
                        allFiles: seq<string>,
                        pages: Task -> RosterFetch, profiles: string -> ProfileFetch,
                        orders: Task -> seq<nat>, csvWritten: Task -> bool)
      returns (allFiles': seq<string>)
      requires j < |YEARS|
      requires forall t :: IsPermutation(orders(t), |Work(pages(t))|)
      requires Current() == Run(start, done + Seasons(team)[..j], pages, csvWritten, profiles)
      requires allFiles == RunFiles(start, done + Seasons(team)[..j], pages, csvWritten, profiles)
      requires |requests| >= |base| && requests[..|base|] == base
      modifies this
      ensures Current() == Run(start, done + Seasons(team)[..j + 1], pages, csvWritten, profiles)
      ensures allFiles' == RunFiles(start, done + Seasons(team)[..j + 1], pages, csvWritten, profiles)
      ensures |requests| >= |base| && requests[..|base|] == base
    {
      var year := YEARS[j];
      SeasonsPrefix(done, team, j);
      ghost var log := requests;
      var csvFile := ScrapeTask(start, done + Seasons(team)[..j], (team, year), pages, profiles, orders, csvWritten);
      PrefixOfPrefix(base, log, requests);
      allFiles' := allFiles;
      if csvFile.Some? {
        allFiles' := allFiles + [csvFile.value];
      }
    }

    /** `scrape_all_teams` (scraper.py:269-290): every team and season in
        order, collecting the files written, then one sheet per file. The
        inputs are those of `ScrapeTeamRoster`, one of each per task. Only
        team-seasons not in the ledger at the start are scraped, the
        workbook holds only the files this run writes, and a run that
        writes none writes no workbook. */
    method ScrapeAllTeams(pages: Task -> RosterFetch, profiles: string -> ProfileFetch,
                          orders: Task -> seq<nat>, csvWritten: Task -> bool)
      returns (allFiles: seq<string>, workbook: Option<seq<(string, Frame)>>)
      requires forall t :: IsPermutation(orders(t), |Work(pages(t))|)
      modifies this
      ensures allFiles == FileNames(Completed(Tasks(TEAMS), old(processed), pages, csvWritten))
      ensures Current() == Run(old(Current()), Tasks(TEAMS), pages, csvWritten, profiles)
      ensures RunAt(Current(), old(Current()), Tasks(TEAMS), pages, csvWritten, profiles)
      ensures |requests| >= |old(requests)| && requests[..|old(requests)|] == old(requests)
      ensures forall f :: f in allFiles ==> f in csvFiles
      ensures old(Consistent()) ==> Consistent()
      ensures workbook.Some? <==> allFiles != []
      ensures workbook.Some? ==>
        && |workbook.value| == |allFiles|
        && (forall k :: 0 <= k < |allFiles| ==> workbook.value[k] == (SheetName(allFiles[k]), csvFiles[allFiles[k]]))
        && (forall i, j :: 0 <= i < j < |allFiles| ==> workbook.value[i].0 != workbook.value[j].0)
    {
      ghost var start := Current();
      allFiles := ScrapeTeams(start, pages, profiles, orders, csvWritten);
      RunKeepsFiles(start, Tasks(TEAMS), pages, csvWritten, profiles);
      RunFilesOnDisk(start, Tasks(TEAMS), pages, csvWritten, profiles);
      RunClosedForm(start, Tasks(TEAMS), pages, csvWritten, profiles);
      RunFilesCompleted(start, Tasks(TEAMS), pages, csvWritten, profiles);
      workbook := None;
      if allFiles != [] {
        var sheets := WriteWorkbook(allFiles);
        TasksWellNamed();
        CompletedSheetsDistinct(Tasks(TEAMS), start.processed, pages, csvWritten);
        workbook := Some(sheets);
      }
    }

    /** The nested loops of scraper.py:271-281: every team and season in
        order, from `start`, collecting the files written. */
    method ScrapeTeams(ghost start: Stored, pages: Task -> RosterFetch, profiles: string -> ProfileFetch,
                       orders: Task -> seq<nat>, csvWritten: Task -> bool)
      returns (allFiles: seq<string>)
      requires forall t :: IsPermutation(orders(t), |Work(pages(t))|)
      requires Current() == start
      modifies this
      ensures Current() == Run(start, Tasks(TEAMS), pages, csvWritten, profiles)
      ensures allFiles == RunFiles(start, Tasks(TEAMS), pages, csvWritten, profiles)
      ensures |requests| >= |old(requests)| && requests[..|old(requests)|] == old(requests)
    {
      allFiles := [];
      var teams := TEAMS;
      ghost var prior: seq<Task> := [];
      for ti := 0 to |teams|
        invariant prior == Tasks(teams[..ti])
        invariant Current() == Run(start, prior, pages, csvWritten, profiles)
        invariant allFiles == RunFiles(start, prior, pages, csvWritten, profiles)
        invariant |requests| >= |old(requests)| && requests[..|old(requests)|] == old(requests)
      {
        TasksPrefix(teams, ti);
        ghost var log := requests;
        allFiles := ScrapeSeasons(start, prior, teams[ti], allFiles, pages, profiles, orders, csvWritten);
        PrefixOfPrefix(old(requests), log, requests);
        prior := prior + Seasons(teams[ti]);
      }
      assert teams[..|teams|] == teams;
    }
  }
}
