/**
 * The player profile page: how the "High School" fact is read out of the
 * bio section (`<div id="meta">`) of a fetched page.
 */
module Profile {
  import opened Wrappers
  import opened Text
  import opened Net

  /** A sibling that follows the `<strong>` label inside its paragraph: a
      bare text node (comments included), or an element given by the text
      strings below it. */
  datatype Node = Str(text: string) | Elem(strings: seq<string>)

  /** The first `<strong>` tag of a paragraph: its text and the siblings
      that follow it. */
  datatype Label = Label(text: string, following: seq<Node>)

  /** One `<p>` of the bio section, given by its first `<strong>` tag, if any. */
  datatype Paragraph = Paragraph(strong: Option<Label>)

  /** The outcome of fetching a profile page: the paragraphs of its bio
      section, or None when the page has no such section. */
  type ProfileFetch = Fetch<Option<seq<Paragraph>>>

  const HIGH_SCHOOL := "High School"

  /** The paragraph's label, stripped, reads "High School". */
  predicate IsHighSchoolParagraph(p: Paragraph) {
    p.strong.Some? && Strip(p.strong.value.text) == HIGH_SCHOOL
  }

  /** What one sibling contributes to the fact: a bare string stripped,
      unless it is only ":" or whitespace; an element's stripped text. */
  function Piece(n: Node): (r: Option<string>)
    ensures r.Some? ==> NoOuterSpace(r.value)
    ensures n.Elem? ==> r.Some?
    ensures n.Str? ==> (r.None? <==> Strip(n.text) == ":" || AllSpace(n.text))
  {
    match n
    case Str(t) =>
      var s := Strip(t);
      if s == ":" || s == "" then None else Some(s)
    case Elem(strings) => Some(StrippedText(strings))
  }

  /** The contributions of `nodes`, in document order: at most one per
      sibling, each with no outer whitespace. */
  function Pieces(nodes: seq<Node>): (r: seq<string>)
    ensures |r| <= |nodes|
    ensures forall k :: 0 <= k < |r| ==> NoOuterSpace(r[k])
  {
    if nodes == [] then []
    else
      var front := Pieces(nodes[..|nodes| - 1]);
      match Piece(nodes[|nodes| - 1])
      case None => front
      case Some(s) => front + [s]
  }

  /** The fact a "High School" label carries: the pieces after it joined by
      single spaces, stripped. */
  function HighSchoolText(nodes: seq<Node>): (r: string)
    ensures NoOuterSpace(r)
    ensures Pieces(nodes) == [] ==> r == ""
  {
    Strip(JoinWithSpaces(Pieces(nodes)))
  }

  /** What the assembly loop accumulates: every piece followed by a space. */
  function Spaced(parts: seq<string>): string {
    if parts == [] then "" else Spaced(parts[..|parts| - 1]) + parts[|parts| - 1] + " "
  }

  lemma {:induction false} SpacedIsJoinedPlusSpace(parts: seq<string>)
    requires parts != []
    ensures Spaced(parts) == JoinWithSpaces(parts) + " "
  {
    if |parts| > 1 {
      var front := parts[..|parts| - 1];
      SpacedIsJoinedPlusSpace(front);
    } else {
      assert parts[..0] == [];
    }
  }

  /** Stripping the accumulated text gives the stripped join. */
  lemma StripSpaced(parts: seq<string>)
    ensures Strip(Spaced(parts)) == Strip(JoinWithSpaces(parts))
  {
    if parts != [] {
      SpacedIsJoinedPlusSpace(parts);
      StripDropsTrailingSpace(JoinWithSpaces(parts), ' ');
      assert JoinWithSpaces(parts) + " " == JoinWithSpaces(parts) + [' '];
    }
  }

  /** The loop over the label's following siblings (scraper.py:147-156):
      skip bare strings that are only ":" or whitespace, append every other
      piece and a space, strip the result. */
  method AssembleHighSchool(nodes: seq<Node>) returns (info: string)
    ensures info == HighSchoolText(nodes)
    ensures NoOuterSpace(info)
  {
    var acc := "";
    for i := 0 to |nodes|
      invariant acc == Spaced(Pieces(nodes[..i]))
    {
      assert nodes[..i + 1][..i] == nodes[..i];
      match nodes[i]
      case Str(t) =>
        var text := Strip(t);
        if text != ":" && text != "" {
          acc := acc + text + " ";
        }
      case Elem(strings) =>
        acc := acc + StrippedText(strings) + " ";
    }
    assert nodes[..|nodes|] == nodes;
    StripSpaced(Pieces(nodes));
    info := Strip(acc);
  }

  /** The contributions of two runs of siblings are those of each, in order. */
  lemma {:induction false} PiecesConcat(a: seq<Node>, b: seq<Node>)
    ensures Pieces(a + b) == Pieces(a) + Pieces(b)
    decreases |b|
  {
    if b == [] {
      assert a + b == a;
    } else {
      var b', last := b[..|b| - 1], b[|b| - 1];
      assert (a + b)[..|a + b| - 1] == a + b';
      assert (a + b)[|a + b| - 1] == last;
      PiecesConcat(a, b');
      match Piece(last)
      case None =>
      case Some(x) =>
        assert Pieces(a) + (Pieces(b') + [x]) == Pieces(a) + Pieces(b') + [x];
    }
  }

  /** A bare ":" or whitespace-only string anywhere among the siblings
      leaves the fact as it would be without it. */
  lemma SeparatorIgnored(a: seq<Node>, t: string, b: seq<Node>)
    requires Strip(t) == ":" || Strip(t) == ""
    ensures HighSchoolText(a + [Str(t)] + b) == HighSchoolText(a + b)
  {
    PiecesConcat(a + [Str(t)], b);
    PiecesConcat(a, [Str(t)]);
    PiecesConcat(a, b);
    assert Pieces([Str(t)]) == [] by {
      assert [Str(t)][..0] == [];
    }
  }

  /** No element among `nodes` has empty text. */
  predicate NoEmptyElement(nodes: seq<Node>) {
    forall k :: 0 <= k < |nodes| && nodes[k].Elem? ==> StrippedText(nodes[k].strings) != ""
  }

  /** Only an element can contribute an empty piece. */
  lemma {:induction false} PiecesAreStripped(nodes: seq<Node>)
    ensures NoEmptyElement(nodes) ==> forall k :: 0 <= k < |Pieces(nodes)| ==> Pieces(nodes)[k] != ""
  {
    if nodes != [] && NoEmptyElement(nodes) {
      var front := nodes[..|nodes| - 1];
      var last := nodes[|nodes| - 1];
      assert NoEmptyElement(front) by {
        forall k | 0 <= k < |front| ensures front[k] == nodes[k] { }
      }
      PiecesAreStripped(front);
      assert Piece(last).Some? ==> Piece(last).value != "" by {
        if last.Elem? {
          assert StrippedText(last.strings) != "";
        }
      }
    }
  }

  /** When no element among the siblings has empty text, the fact is exactly
      the contributions joined by single spaces (no stripping needed). */
  lemma HighSchoolTextIsJoin(nodes: seq<Node>)
    requires NoEmptyElement(nodes)
    ensures HighSchoolText(nodes) == JoinWithSpaces(Pieces(nodes))
  {
    PiecesAreStripped(nodes);
    JoinWithSpacesNoOuterSpace(Pieces(nodes));
  }

  /** An element with no text between two pieces leaves two spaces between
      them: the pieces are not always separated by exactly one space. */
  lemma EmptyElementLeavesDoubleSpace(x: string, y: string)
    requires x != "" && x != ":" && NoOuterSpace(x)
    requires y != "" && y != ":" && NoOuterSpace(y)
    ensures HighSchoolText([Str(x), Elem([]), Str(y)]) == x + "  " + y
  {
    var nodes := [Str(x), Elem([]), Str(y)];
    assert Piece(nodes[0]) == Some(x) && Piece(nodes[2]) == Some(y);
    assert Piece(nodes[1]) == Some("");
    assert Pieces(nodes[..1]) == [x] by {
      assert nodes[..1][..0] == [];
    }
    assert Pieces(nodes[..2]) == [x, ""] by {
      assert nodes[..2][..1] == nodes[..1];
    }
    var parts := [x, "", y];
    assert Pieces(nodes) == parts by {
      assert nodes[..2] == nodes[..|nodes| - 1];
    }
    assert JoinWithSpaces(parts[..2]) == x + " " by {
      assert parts[..2][..1] == [x];
    }
    var joined := x + "  " + y;
    assert JoinWithSpaces(parts) == joined by {
      assert parts[..2] == parts[..|parts| - 1];
    }
    assert NoOuterSpace(joined) by {
      assert joined[0] == x[0] && joined[|joined| - 1] == y[|y| - 1];
    }
  }

  /** The index of the first paragraph labelled "High School" at or after
      `from`, or `|bio|` when there is none. */
  function FirstHighSchoolFrom(bio: seq<Paragraph>, from: nat): (k: nat)
    requires from <= |bio|
    ensures from <= k <= |bio|
    ensures forall j :: from <= j < k ==> !IsHighSchoolParagraph(bio[j])
    ensures k < |bio| ==> IsHighSchoolParagraph(bio[k])
    decreases |bio| - from
  {
    if from == |bio| || IsHighSchoolParagraph(bio[from]) then from
    else FirstHighSchoolFrom(bio, from + 1)
  }

  /** The fact in a bio section: the text after the first paragraph whose
      label reads "High School", or None when no paragraph has that label. */
  function HighSchoolOf(bio: seq<Paragraph>): (r: Option<string>)
    ensures r.None? <==> forall i :: 0 <= i < |bio| ==> !IsHighSchoolParagraph(bio[i])
    ensures r.Some? ==>
      var k := FirstHighSchoolFrom(bio, 0);
      k < |bio| && IsHighSchoolParagraph(bio[k])
      && (forall j :: 0 <= j < k ==> !IsHighSchoolParagraph(bio[j]))
      && r.value == HighSchoolText(bio[k].strong.value.following)
  {
    var k := FirstHighSchoolFrom(bio, 0);
    if k == |bio| then None else Some(HighSchoolText(bio[k].strong.value.following))
  }

  /** The paragraph loop of scraper.py:142-157: stop at the first paragraph
      labelled "High School" and assemble its fact. */
  method ExtractHighSchool(bio: seq<Paragraph>) returns (highSchool: Option<string>)
    ensures highSchool == HighSchoolOf(bio)
  {
    highSchool := None;
    var i := 0;
    while i < |bio|
      invariant 0 <= i <= |bio|
      invariant FirstHighSchoolFrom(bio, i) == FirstHighSchoolFrom(bio, 0)
    {
      var p := bio[i];
      if p.strong.Some? && Strip(p.strong.value.text) == HIGH_SCHOOL {
        var info := AssembleHighSchool(p.strong.value.following);
        highSchool := Some(info);
        return;
      }
      i := i + 1;
    }
  }

  /** The outcomes that `get_high_school` records in the cache: a status-200
      response whose page has a bio section. */
  predicate IsRecorded(o: ProfileFetch) {
    o.Response? && o.status == OK && o.body.Some?
  }

  /** What `get_high_school` returns after it has fetched the page: a value
      only from a 200 response with a bio section, and then one with no
      outer whitespace. */
  function FetchedValue(o: ProfileFetch): (r: Option<string>)
    ensures r.Some? ==> IsRecorded(o) && NoOuterSpace(r.value)
  {
    if IsRecorded(o) then HighSchoolOf(o.body.value) else None
  }

  /** Any outcome other than a 200 response with a bio section yields None. */
  lemma UnrecordedYieldsNone(o: ProfileFetch)
    requires !IsRecorded(o)
    ensures FetchedValue(o) == None
  {
  }

  /** A 200 page with a bio section but no "High School" paragraph is
      recorded, with the value None. */
  lemma NoMatchIsRecordedAsNone(bio: seq<Paragraph>)
    requires forall i :: 0 <= i < |bio| ==> !IsHighSchoolParagraph(bio[i])
    ensures IsRecorded(Response(OK, Some(bio))) && FetchedValue(Response(OK, Some(bio))) == None
  {
  }

  /** A "High School" paragraph whose siblings carry no text records the
      empty string, not None. */
  lemma EmptyMatchIsRecordedAsEmpty(labelText: string, rest: seq<Paragraph>)
    requires Strip(labelText) == HIGH_SCHOOL
    ensures FetchedValue(Response(OK, Some([Paragraph(Some(Label(labelText, [])))] + rest))) == Some("")
  {
    assert Pieces([]) == [];
  }
}
