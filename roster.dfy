/**
 * The roster page of one team and season: the name-to-profile-link map the
 * scraper builds from the table, the work list it hands to the thread pool,
 * the row each result is written back to, and the names of the files.
 */
module Roster {
  import opened Wrappers
  import opened Text

  /** The `<a>` of a player cell: its text and its `href` attribute, if any. */
  datatype Anchor = Anchor(text: string, href: Option<string>)

  /** A `<tr>` of the roster table: one with no `<td data-stat="player">`
      cell, or one with such a cell and the cell's first link, if any. */
  datatype TableRow = OtherRow | PlayerRow(link: Option<Anchor>)

  /** What a status-200 roster page holds: no HTML comment containing
      `id="roster"`, such a comment without the roster table, or the table's
      rows together with the "Player" column pandas reads from it (None when
      the frame has no such column). */
  datatype RosterBody =
    | NoRosterComment
    | NoRosterTable
    | RosterTable(rows: seq<TableRow>, players: Option<seq<string>>)

  /** A Python dict from player name to profile URL: its keys in insertion
      order, and the mapping itself. */
  datatype Links = Links(names: seq<string>, href: map<string, string>)

  /** The keys listed once each, and exactly the keys of the mapping. */
  predicate WellFormed(d: Links) {
    && (forall i, j :: 0 <= i < j < |d.names| ==> d.names[i] != d.names[j])
    && (forall n :: n in d.href ==> n in d.names)
    && (forall k :: 0 <= k < |d.names| ==> d.names[k] in d.href)
  }

  /** `d[name] = url`: `name` maps to `url` and every other key keeps its
      value; a new key goes last and an existing key keeps its place. */
  function Assign(d: Links, name: string, url: string): (r: Links)
    ensures MapsTo(r, name, url)
    ensures forall n :: n != name ==> (n in r.href <==> n in d.href) && (n in d.href ==> r.href[n] == d.href[n])
    ensures name in d.href ==> r.names == d.names
    ensures name !in d.href ==> r.names == d.names + [name]
    ensures WellFormed(d) ==> WellFormed(r)
  {
    if name in d.href then Links(d.names, d.href[name := url])
    else Links(d.names + [name], d.href[name := url])
  }

  /** What the link-collecting loop sees of a row: nothing, or the link's
      text stripped (the dict key) and its `href`. */
  datatype Cell = Plain | Linked(name: string, href: Option<string>)

  function CellOf(row: TableRow): Cell {
    if row.PlayerRow? && row.link.Some? then Linked(Strip(row.link.value.text), row.link.value.href)
    else Plain
  }

  function Cells(rows: seq<TableRow>): (cs: seq<Cell>)
    ensures |cs| == |rows| && forall i :: 0 <= i < |rows| ==> cs[i] == CellOf(rows[i])
  {
    seq(|rows|, i requires 0 <= i < |rows| => CellOf(rows[i]))
  }

  /** Cell `i` is a link whose stripped text is `n`. */
  predicate NamedAt(cs: seq<Cell>, i: int, n: string)
    requires 0 <= i < |cs|
  {
    cs[i].Linked? && cs[i].name == n
  }

  /** A linked player cell whose `<a>` has no `href`: `a_tag["href"]` raises. */
  predicate MissingHref(c: Cell) {
    c.Linked? && c.href.None?
  }

  /** Some linked player cell of the table has no `href`. */
  predicate HasMissingHref(cs: seq<Cell>) {
    exists i :: 0 <= i < |cs| && MissingHref(cs[i])
  }

  lemma HasMissingHrefSnoc(cs: seq<Cell>)
    requires cs != []
    ensures HasMissingHref(cs) <==> HasMissingHref(cs[..|cs| - 1]) || MissingHref(cs[|cs| - 1])
  {
    var front := cs[..|cs| - 1];
    if HasMissingHref(front) {
      var i :| 0 <= i < |front| && MissingHref(front[i]);
      assert cs[i] == front[i];
    }
    if HasMissingHref(cs) {
      var i :| 0 <= i < |cs| && MissingHref(cs[i]);
      if i < |front| { assert cs[i] == front[i]; }
    }
  }

  /** The dict the loop builds from the cells, or None when a link without
      `href` makes it raise. */
  function LinksFrom(cs: seq<Cell>): (r: Option<Links>)
    ensures r.None? <==> HasMissingHref(cs)
  {
    if cs == [] then Some(Links([], map[]))
    else
      var c := cs[|cs| - 1];
      HasMissingHrefSnoc(cs);
      match LinksFrom(cs[..|cs| - 1])
      case None => None
      case Some(d) =>
        if c.Plain? then Some(d)
        else if c.href.None? then None
        else Some(Assign(d, c.name, c.href.value))
  }

  /** The `player_links` dict built from the table rows (scraper.py:203-211):
      None exactly when some linked player cell has no `href`, and otherwise
      a dict that lists each key once. */
  function LinksOf(rows: seq<TableRow>): (r: Option<Links>)
    ensures r.None? <==> exists i :: 0 <= i < |rows| && MissingHref(CellOf(rows[i]))
    ensures r.Some? ==> WellFormed(r.value)
  {
    var r := LinksFrom(Cells(rows));
    if r.Some? then LinksWellFormed(Cells(rows)); r else r
  }

  /** The dict lists each key once, and lists exactly its keys. */
  lemma {:induction false} LinksWellFormed(cs: seq<Cell>)
    requires LinksFrom(cs).Some?
    ensures WellFormed(LinksFrom(cs).value)
  {
    if cs != [] {
      var c := cs[|cs| - 1];
      LinksWellFormed(cs[..|cs| - 1]);
    }
  }

  /** The loop of scraper.py:203-211 over the table rows. */
  method BuildPlayerLinks(rows: seq<TableRow>) returns (links: Option<Links>)
    ensures links == LinksOf(rows)
    ensures links.None? <==> HasMissingHref(Cells(rows))
  {
    var d := Links([], map[]);
    for i := 0 to |rows|
      invariant LinksFrom(Cells(rows[..i])) == Some(d)
    {
      assert Cells(rows[..i + 1])[..i] == Cells(rows[..i]);
      var row := rows[i];
      if row.PlayerRow? && row.link.Some? {
        var a := row.link.value;
        if a.href.None? {
          assert MissingHref(Cells(rows)[i]);
          return None;
        }
        d := Assign(d, Strip(a.text), a.href.value);
      }
    }
    assert rows[..|rows|] == rows;
    links := Some(d);
  }

  /** The keys of `player_links` are the stripped texts of the linked
      player cells. */
  lemma {:induction false} LinksKeys(cs: seq<Cell>, d: Links, n: string)
    requires LinksFrom(cs) == Some(d)
    ensures n in d.href <==> exists i :: 0 <= i < |cs| && NamedAt(cs, i, n)
  {
    if cs != [] {
      var front := cs[..|cs| - 1];
      var last := |cs| - 1;
      var d' := LinksFrom(front).value;
      LinksKeys(front, d', n);
      if NamedAt(cs, last, n) {
        assert n in d.href;
      } else {
        assert n in d.href <==> n in d'.href;
      }
      if exists i :: 0 <= i < |cs| && NamedAt(cs, i, n) {
        var i :| 0 <= i < |cs| && NamedAt(cs, i, n);
        if i < last {
          assert front[i] == cs[i];
          assert NamedAt(front, i, n);
        }
      }
      if exists i :: 0 <= i < |front| && NamedAt(front, i, n) {
        var i :| 0 <= i < |front| && NamedAt(front, i, n);
        assert front[i] == cs[i];
        assert NamedAt(cs, i, n);
      }
    }
  }

  /** A key maps to the `href` of the LAST cell that carries it: later rows
      overwrite earlier ones. */
  lemma {:induction false} LinksLastWins(cs: seq<Cell>, d: Links, i: nat, n: string)
    requires LinksFrom(cs) == Some(d)
    requires i < |cs| && NamedAt(cs, i, n)
    requires forall j :: i < j < |cs| ==> !NamedAt(cs, j, n)
    ensures cs[i].href.Some? && MapsTo(d, n, cs[i].href.value)
  {
    var front := cs[..|cs| - 1];
    var last := |cs| - 1;
    var d' := LinksFrom(front).value;
    assert !MissingHref(cs[i]);
    if i < last {
      assert front[i] == cs[i];
      forall j | i < j < |front| ensures !NamedAt(front, j, n) {
        assert front[j] == cs[j];
        assert !NamedAt(cs, j, n);
      }
      LinksLastWins(front, d', i, n);
      assert !NamedAt(cs, last, n);
    }
  }

  /** Insertion order: a key listed before another appears in an earlier
      cell than any cell that carries the later key. */
  lemma {:induction false} LinksKeepFirstAppearanceOrder(cs: seq<Cell>, d: Links, k: nat, l: nat, j: nat)
    requires LinksFrom(cs) == Some(d)
    requires k < l < |d.names| && j < |cs| && NamedAt(cs, j, d.names[l])
    ensures exists i :: 0 <= i < j && NamedAt(cs, i, d.names[k])
    decreases |cs|
  {
    var front := cs[..|cs| - 1];
    var last := |cs| - 1;
    var d' := LinksFrom(front).value;
    LinksWellFormed(front);
    assert forall i :: 0 <= i < |front| ==> front[i] == cs[i];
    assert d.names[..|d'.names|] == d'.names;
    assert k < |d'.names|;
    LinksKeys(front, d', d'.names[k]);
    if l < |d'.names| {
      if j < last {
        assert NamedAt(front, j, d'.names[l]);
        LinksKeepFirstAppearanceOrder(front, d', k, l, j);
        var i :| 0 <= i < j && NamedAt(front, i, d'.names[k]);
        assert NamedAt(cs, i, d.names[k]);
      } else {
        var i :| 0 <= i < |front| && NamedAt(front, i, d'.names[k]);
        assert NamedAt(cs, i, d.names[k]);
      }
    } else {
      // the key the last cell added: no earlier cell carries it
      LinksKeys(front, d', d.names[l]);
      assert d.names[l] !in d'.href;
      assert j == last by {
        if j < last { assert NamedAt(front, j, d.names[l]); }
      }
      var i :| 0 <= i < |front| && NamedAt(front, i, d'.names[k]);
      assert NamedAt(cs, i, d.names[k]);
    }
  }

  /** The work list of scraper.py:214-218: the link of every rostered
      player that has one, in roster order. It is never longer than the
      roster and holds only links of the dict. */
  function ArgsList(players: seq<string>, d: Links): (r: seq<string>)
    ensures |r| <= |players|
    ensures forall k :: 0 <= k < |r| ==> r[k] in d.href.Values
  {
    if players == [] then []
    else
      var p := players[|players| - 1];
      ArgsList(players[..|players| - 1], d) + (if p in d.href then [d.href[p]] else [])
  }

  /** The work list follows the roster order: that of a roster split in two
      is the work list of the first part followed by that of the second. */
  lemma {:induction false} ArgsListConcat(a: seq<string>, b: seq<string>, d: Links)
    ensures ArgsList(a + b, d) == ArgsList(a, d) + ArgsList(b, d)
    decreases |b|
  {
    if b == [] {
      assert a + b == a;
    } else {
      assert (a + b)[..|a + b| - 1] == a + b[..|b| - 1];
      ArgsListConcat(a, b[..|b| - 1], d);
    }
  }

  /** The work list holds exactly the links of the players that have one. */
  lemma {:induction false} ArgsListMembers(players: seq<string>, d: Links, u: string)
    ensures u in ArgsList(players, d) <==>
      exists i :: 0 <= i < |players| && players[i] in d.href && d.href[players[i]] == u
  {
    if players != [] {
      var front := players[..|players| - 1];
      ArgsListMembers(front, d, u);
      assert forall i :: 0 <= i < |front| ==> front[i] == players[i];
    }
  }

  /** One entry per player that has a link, however many times it appears. */
  lemma {:induction false} ArgsListLength(players: seq<string>, d: Links)
    ensures |ArgsList(players, d)| == |set i | 0 <= i < |players| && players[i] in d.href|
  {
    if players != [] {
      var n := |players| - 1;
      var front := players[..n];
      ArgsListLength(front, d);
      var s := set i | 0 <= i < n && front[i] in d.href;
      var s' := set i | 0 <= i < |players| && players[i] in d.href;
      assert forall i :: 0 <= i < n ==> front[i] == players[i];
      if players[n] in d.href {
        assert s' == s + {n};
      } else {
        assert s' == s;
      }
    }
  }

  /** `d` maps `n` to `u`. */
  predicate MapsTo(d: Links, n: string, u: string) {
    n in d.href && d.href[n] == u
  }

  /** `next((name for name, url in player_links.items() if url == u), None)`:
      the first key, in insertion order, that maps to `u`. */
  function FirstNameFor(d: Links, u: string, from: nat := 0): (r: Option<string>)
    requires from <= |d.names|
    ensures r.None? <==> forall k :: from <= k < |d.names| ==> !MapsTo(d, d.names[k], u)
    ensures r.Some? ==>
              && MapsTo(d, r.value, u)
              && exists k :: (from <= k < |d.names| && d.names[k] == r.value
                              && forall j :: from <= j < k ==> !MapsTo(d, d.names[j], u))
    decreases |d.names| - from
  {
    if from == |d.names| then None
    else if MapsTo(d, d.names[from], u) then Some(d.names[from])
    else FirstNameFor(d, u, from + 1)
  }

  /** `df.index[df["Player"] == name].tolist()`, first element: the first row
      whose Player is `name`, or None when no row has it. */
  function FirstRow(players: seq<string>, name: string, from: nat := 0): (r: Option<nat>)
    requires from <= |players|
    ensures r.None? <==> forall i :: from <= i < |players| ==> players[i] != name
    ensures r.Some? ==>
              && from <= r.value < |players| && players[r.value] == name
              && forall i :: from <= i < r.value ==> players[i] != name
    decreases |players| - from
  {
    if from == |players| then None
    else if players[from] == name then Some(from)
    else FirstRow(players, name, from + 1)
  }

  /** The row the result for profile URL `u` is written back to
      (scraper.py:229-240): the first row whose Player is the first key
      mapping to `u`, and none when there is no such key, when that key is
      empty (Python treats "" as false), or when no row carries it. */
  function TargetRow(players: seq<string>, d: Links, u: string): (r: Option<nat>)
    ensures r.Some? ==>
      && r.value < |players| && players[r.value] != ""
      && FirstNameFor(d, u) == Some(players[r.value]) && MapsTo(d, players[r.value], u)
      && forall i :: 0 <= i < r.value ==> players[i] != players[r.value]
    ensures (forall k :: 0 <= k < |d.names| ==> !MapsTo(d, d.names[k], u)) ==> r.None?
    ensures FirstNameFor(d, u).Some? && FirstNameFor(d, u).value != "" && FirstNameFor(d, u).value in players ==> r.Some?
  {
    match FirstNameFor(d, u)
    case None => None
    case Some(n) => if n == "" then None else FirstRow(players, n)
  }

  /** The profile URL whose result lands in row `i`, if any: only the first
      row carrying a non-empty name is written, and with that name's link. */
  function RowSource(players: seq<string>, d: Links, i: nat): (r: Option<string>)
    requires i < |players|
    ensures r.Some? ==>
      && players[i] != "" && MapsTo(d, players[i], r.value)
      && forall j :: 0 <= j < i ==> players[j] != players[i]
  {
    var n := players[i];
    if n in d.href && TargetRow(players, d, d.href[n]) == Some(i) then Some(d.href[n]) else None
  }

  /** A URL's result lands in row `i` exactly when row `i`'s source is that URL. */
  lemma TargetRowIffRowSource(players: seq<string>, d: Links, u: string, i: nat)
    requires i < |players|
    ensures TargetRow(players, d, u) == Some(i) <==> RowSource(players, d, i) == Some(u)
  {
    if TargetRow(players, d, u) == Some(i) {
      var n := FirstNameFor(d, u).value;
      assert players[i] == n && MapsTo(d, n, u);
    }
  }

  /** Two different URLs never write to the same row, so the order in which
      results arrive does not change the column. */
  lemma TargetRowsDistinct(players: seq<string>, d: Links, u1: string, u2: string)
    requires TargetRow(players, d, u1).Some? && TargetRow(players, d, u1) == TargetRow(players, d, u2)
    ensures u1 == u2
  {
    var i := TargetRow(players, d, u1).value;
    TargetRowIffRowSource(players, d, u1, i);
    TargetRowIffRowSource(players, d, u2, i);
  }

  /** Every target row gets its value from a URL on the work list. */
  lemma RowSourceInArgsList(players: seq<string>, d: Links, i: nat)
    requires i < |players| && RowSource(players, d, i).Some?
    ensures RowSource(players, d, i).value in ArgsList(players, d)
  {
    ArgsListMembers(players, d, RowSource(players, d, i).value);
  }

  /** When two keys share a URL, the row of the later key is never written:
      only the first name mapping to a URL gets its result. */
  lemma SharedUrlServesFirstNameOnly(players: seq<string>, d: Links, k: nat, l: nat, i: nat)
    requires k < l < |d.names| && i < |players|
    requires WellFormed(d) && d.names[k] in d.href && d.names[l] in d.href
    requires d.href[d.names[k]] == d.href[d.names[l]] && players[i] == d.names[l]
    ensures RowSource(players, d, i) == None
  {
    var u := d.href[d.names[l]];
    var first := FirstNameFor(d, u);
    assert MapsTo(d, d.names[k], u);
    assert first.Some?;
    var m :| 0 <= m < |d.names| && d.names[m] == first.value
      && forall j :: 0 <= j < m ==> !MapsTo(d, d.names[j], u);
    assert m <= k;
    assert first.value != d.names[l];
    if TargetRow(players, d, u).Some? {
      assert players[TargetRow(players, d, u).value] == first.value;
    }
  }

  /** The artifact's file name, f"{year}_{team}_roster.csv" (scraper.py:249). */
  function FileName(team: string, year: int): string {
    IntToDecimal(year) + "_" + team + "_roster.csv"
  }

  /** The sheet a file goes to (scraper.py:288): the file name with every
      ".csv" removed, cut to Excel's 31 characters. */
  function SheetName(file: string): (r: string)
    ensures |r| <= 31 && |r| <= |RemoveAll(file, ".csv")| && r == RemoveAll(file, ".csv")[..|r|]
  {
    Prefix(RemoveAll(file, ".csv"), 31)
  }

  /** A decimal number followed by "_" can be split back into the two. */
  lemma DecimalPrefixInjective(y1: nat, r1: string, y2: nat, r2: string)
    requires NatToDecimal(y1) + "_" + r1 == NatToDecimal(y2) + "_" + r2
    ensures y1 == y2 && r1 == r2
  {
    var d1, d2 := NatToDecimal(y1), NatToDecimal(y2);
    var s := d1 + "_" + r1;
    // the first "_" of s ends either number
    assert forall k :: 0 <= k < |d1| ==> s[k] == d1[k];
    assert s[|d1|] == '_';
    assert forall k :: 0 <= k < |d2| ==> s[k] == d2[k];
    assert s[|d2|] == '_' by {
      assert s == d2 + "_" + r2;
    }
    assert |d1| == |d2|;
    assert d1 == s[..|d1|] == d2;
    NatToDecimalInjective(y1, y2);
    assert r1 == s[|d1| + 1..] == r2;
  }

  /** Distinct (team, season) pairs write distinct files, so no step
      overwrites another's CSV. */
  lemma FileNameInjective(t1: string, y1: nat, t2: string, y2: nat)
    requires FileName(t1, y1) == FileName(t2, y2)
    ensures t1 == t2 && y1 == y2
  {
    assert FileName(t1, y1) == NatToDecimal(y1) + "_" + (t1 + "_roster.csv");
    assert FileName(t2, y2) == NatToDecimal(y2) + "_" + (t2 + "_roster.csv");
    DecimalPrefixInjective(y1, t1 + "_roster.csv", y2, t2 + "_roster.csv");
    assert t1 == (t1 + "_roster.csv")[..|t1|];
    assert t2 == (t2 + "_roster.csv")[..|t2|];
  }

  /** For a team code without ".", the sheet name is the file name without
      its extension, provided that fits Excel's 31 characters. */
  lemma SheetNameOfFile(team: string, year: nat)
    requires '.' !in team && |NatToDecimal(year)| + |team| + 8 <= 31
    ensures SheetName(FileName(team, year)) == NatToDecimal(year) + "_" + team + "_roster"
  {
    var stem := NatToDecimal(year) + "_" + team + "_roster";
    assert FileName(team, year) == stem + ".csv";
    assert '.' !in stem by {
      assert forall k :: 0 <= k < |NatToDecimal(year)| ==> stem[k] == NatToDecimal(year)[k];
    }
    RemoveAllSuffix(stem, ".csv");
  }

  /** The season and the team can be read back from the sheet stem. */
  lemma StemInjective(t1: string, y1: nat, t2: string, y2: nat)
    requires NatToDecimal(y1) + "_" + t1 + "_roster" == NatToDecimal(y2) + "_" + t2 + "_roster"
    ensures t1 == t2 && y1 == y2
  {
    assert NatToDecimal(y1) + "_" + t1 + "_roster" == NatToDecimal(y1) + "_" + (t1 + "_roster");
    assert NatToDecimal(y2) + "_" + t2 + "_roster" == NatToDecimal(y2) + "_" + (t2 + "_roster");
    DecimalPrefixInjective(y1, t1 + "_roster", y2, t2 + "_roster");
    assert t1 == (t1 + "_roster")[..|t1|];
    assert t2 == (t2 + "_roster")[..|t2|];
  }

  /** Distinct (team, season) pairs with team codes free of "_" and "." and
      four-digit seasons get distinct sheets. */
  lemma SheetNamesDistinct(t1: string, y1: nat, t2: string, y2: nat)
    requires '_' !in t1 && '_' !in t2 && '.' !in t1 && '.' !in t2
    requires |t1| <= 18 && |t2| <= 18 && 1000 <= y1 < 10000 && 1000 <= y2 < 10000
    requires (t1, y1) != (t2, y2)
    ensures SheetName(FileName(t1, y1)) != SheetName(FileName(t2, y2))
  {
    FourDigits(y1);
    FourDigits(y2);
    SheetNameOfFile(t1, y1);
    SheetNameOfFile(t2, y2);
    if NatToDecimal(y1) + "_" + t1 + "_roster" == NatToDecimal(y2) + "_" + t2 + "_roster" {
      StemInjective(t1, y1, t2, y2);
    }
  }
}
