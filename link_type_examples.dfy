/**
 * The link headers of the parser's unit scenarios, stated for any URIs of
 * the same shape, and what parsing each of them into fresh metadata leaves
 * behind.
 */
module LinkTypeExamples {
  import opened Wrappers
  import opened Text
  import opened Metadata
  import opened LinkTypeParser

  /** The quads of fresh metadata after parsing `headers`. */
  function ParsedQuads(headers: Headers): (quads: seq<Quad>)
    ensures NoDuplicates(quads)
    ensures forall q :: q in quads ==> q.pred == RdfType && q.value in HeaderTypes(LinkLines(headers))
  {
    InsertAllKeepsNoDuplicates([], RdfType, HeaderTypes(LinkLines(headers)));
    InsertAllContents([], RdfType, HeaderTypes(LinkLines(headers)));
    InsertAll([], RdfType, HeaderTypes(LinkLines(headers)))
  }

  /** A URI as the scenarios write them: no `;` or `,` inside. */
  predicate PlainUri(u: string) {
    ';' !in u && ',' !in u
  }

  /** Without a `link` header nothing is added. */
  lemma NoHeaderScenario()
    ensures ParsedQuads(map[]) == []
  {
    NoLinkHeader(map[]);
  }

  /** A lone type link, its `rel` value quoted or not, declares its URI. */
  lemma TypeLinkLine(u: string, quoted: bool)
    requires PlainUri(u)
    ensures LineTypes(TypeLink(u, quoted)) == [u]
  {
    var line := TypeLink(u, quoted);
    Unpadded([], line, []);
    PaddedTypeLink("", u, quoted, "");
    SingleEntryLine(line);
  }

  /** Two type links, each padded by a space at the comma, declare both URIs in order. */
  lemma TypeLinkPair(a: string, b: string)
    requires PlainUri(a) && PlainUri(b)
    ensures LineTypes(TypeLink(a, true) + " , " + TypeLink(b, false)) == [a, b]
  {
    var ea := TypeLink(a, true) + " ";
    var eb := " " + TypeLink(b, false);
    assert TypeLink(a, true) + " , " + TypeLink(b, false) == ea + "," + eb;
    TrailingPadded(a);
    LeadingPadded(b);
    TwoDeclaringEntries(ea, eb, a, b);
  }

  /** `<A>;rel="type" ` declares A. */
  lemma TrailingPadded(a: string)
    requires PlainUri(a)
    ensures EntryType(TypeLink(a, true) + " ") == [a]
    ensures ',' !in TypeLink(a, true) + " "
  {
    Unpadded([], TypeLink(a, true), " ");
    PaddedTypeLink("", a, true, " ");
  }

  /** ` <B>;rel=type` declares B. */
  lemma LeadingPadded(b: string)
    requires PlainUri(b)
    ensures EntryType(" " + TypeLink(b, false)) == [b]
    ensures ',' !in " " + TypeLink(b, false)
  {
    Unpadded(" ", TypeLink(b, false), []);
    PaddedTypeLink(" ", b, false, "");
  }

  /** `<U>;rel="type"` adds one quad, and `get(rdf:type)` gives U. */
  lemma SingleHeaderScenario(u: string)
    requires PlainUri(u)
    ensures var quads := ParsedQuads(map["link" := Line("<" + u + ">;rel=\"type\"")]);
            |quads| == 1 && First(quads, RdfType) == Some(u)
  {
    var line := TypeLink(u, true);
    assert line == "<" + u + ">;rel=\"type\"";
    TypeLinkLine(u, true);
    OneTypePerLine([line], [u]);
    assert InsertAll([], RdfType, [u]) == [Quad(RdfType, u)];
  }

  /** Two header lines `<A>;rel="type"` and `<B>;rel=type` declare A, then B. */
  lemma TwoLinesTypes(a: string, b: string)
    requires PlainUri(a) && PlainUri(b)
    ensures HeaderTypes([TypeLink(a, true), TypeLink(b, false)]) == [a, b]
  {
    var first, second := TypeLink(a, true), TypeLink(b, false);
    var lines, uris := [first, second], [a, b];
    assert lines[0] == first && lines[1] == second && uris[0] == a && uris[1] == b;
    TypeLinkLine(a, true);
    TypeLinkLine(b, false);
    OneTypePerLine(lines, uris);
  }

  /** Two header lines `<A>;rel="type"` and `<B>;rel=type` give A and B, in line order. */
  lemma TwoLinesScenario(a: string, b: string)
    requires PlainUri(a) && PlainUri(b) && a != b
    ensures var quads := ParsedQuads(map["link" := Lines(["<" + a + ">;rel=\"type\"", "<" + b + ">;rel=type"])]);
            |quads| == 2 && Values(quads, RdfType) == [a, b]
  {
    var lines := [TypeLink(a, true), TypeLink(b, false)];
    assert TypeLink(a, true) == "<" + a + ">;rel=\"type\"";
    assert TypeLink(b, false) == "<" + b + ">;rel=type";
    TwoLinesTypes(a, b);
    ParsedIntoEmpty(lines);
  }

  /**
   * The two-line scenario run on a fresh metadata object: it then holds two
   * quads, `getAll(rdf:type)` gives A and B in line order, and `get(rdf:type)`
   * gives A.
   */
  method TwoLinesParsed(a: string, b: string) returns (count: nat, all: seq<string>, first: Option<string>)
    requires PlainUri(a) && PlainUri(b) && a != b
    ensures count == 2 && all == [a, b] && first == Some(a)
  {
    var metadata := new RepresentationMetadata();
    var headers := map["link" := Lines(["<" + a + ">;rel=\"type\"", "<" + b + ">;rel=type"])];
    Parse(headers, metadata);
    TwoLinesScenario(a, b);
    count := |metadata.Quads()|;
    all := metadata.GetAll(RdfType);
    first := metadata.Get(RdfType);
  }

  /** The line `<A>;rel="type" , <B>;rel=type` gives A and B, in entry order. */
  lemma CommaEntriesScenario(a: string, b: string)
    requires PlainUri(a) && PlainUri(b) && a != b
    ensures var quads := ParsedQuads(map["link" := Line("<" + a + ">;rel=\"type\" , <" + b + ">;rel=type")]);
            |quads| == 2 && Values(quads, RdfType) == [a, b]
  {
    var line := TypeLink(a, true) + " , " + TypeLink(b, false);
    PairSpelling(a, b);
    TypeLinkPair(a, b);
    SingleLineHeader(line);
    ParsedIntoEmpty([line]);
  }

  /** `U;rel="type"`, the URI without angle brackets, adds nothing. */
  lemma UnbracketedScenario(u: string)
    requires PlainUri(u) && IsTrimmed(u) && |u| > 0 && u[0] != '<'
    ensures ParsedQuads(map["link" := Line(u + ";rel=\"type\"")]) == []
  {
    var line := u + ";rel=\"type\"";
    assert ',' !in line;
    TrimTrimmed(u);
    UnbracketedIgnored(u, "rel=\"type\"");
    TrimTrimmed(line);
    SingleEntryLine(line);
    SingleLineHeader(line);
  }

  /** `<A>;rel="V" , <B>` with V other than `type` adds nothing: one entry has another `rel`, one none. */
  lemma NonTypeScenario(a: string, v: string, b: string)
    requires PlainUri(a) && PlainUri(b) && PlainUri(v) && '"' !in v && IsTrimmed(v) && v != "type"
    ensures ParsedQuads(map["link" := Line("<" + a + ">;rel=\"" + v + "\" , <" + b + ">")]) == []
  {
    var first := "<" + a + ">;rel=\"" + v + "\" ";
    var second := " <" + b + ">";
    assert "<" + a + ">;rel=\"" + v + "\" , <" + b + ">" == first + "," + second;
    assert ',' !in first && ',' !in second;
    OtherRelEntry(a, v);
    NoRelEntry(b);
    TwoEntryLine(first, second);
    SingleLineHeader(first + "," + second);
  }

  /** `<A>;rel="V" `, with V other than `type`, declares nothing. */
  lemma OtherRelEntry(a: string, v: string)
    requires PlainUri(a) && PlainUri(v) && '"' !in v && IsTrimmed(v) && v != "type"
    ensures EntryType("<" + a + ">;rel=\"" + v + "\" ") == []
  {
    var entry := "<" + a + ">;rel=\"" + v + "\"";
    assert entry + " " == "<" + a + ">;rel=\"" + v + "\" ";
    OtherRelLink(a, v);
    TrailingSpaceIgnored(entry);
  }

  /** `<A>;rel="V"`, with V other than `type`, is a trimmed entry that declares nothing. */
  lemma OtherRelLink(a: string, v: string)
    requires PlainUri(a) && PlainUri(v) && '"' !in v && IsTrimmed(v) && v != "type"
    ensures ParseEntry("<" + a + ">;rel=\"" + v + "\"") == None
    ensures IsTrimmed("<" + a + ">;rel=\"" + v + "\"")
  {
    var entry := "<" + a + ">;rel=\"" + v + "\"";
    assert ("<" + a + ">") + ";rel=\"" + v + "\"" == entry;
    assert entry[0] == '<' && entry[|entry| - 1] == '"';
    OtherRelIgnored("<" + a + ">", v);
  }

  /** A space after a trimmed entry does not change what it declares. */
  lemma TrailingSpaceIgnored(entry: string)
    requires IsTrimmed(entry)
    ensures EntryType(entry + " ") == OptionToSeq(ParseEntry(entry))
  {
    Unpadded([], entry, " ");
    PaddedEntry([], entry, " ");
  }

  /** ` <B>`, a target without parameters, declares nothing. */
  lemma NoRelEntry(b: string)
    requires PlainUri(b)
    ensures EntryType(" <" + b + ">") == []
  {
    var entry := "<" + b + ">";
    SpacedTarget(b);
    NoParamsIgnored(entry);
    PaddedEntry(" ", entry, []);
  }

  /**
   * A `;` inside a quoted parameter value still separates parameters, so
   * `<U>; title="x; rel=type; y"` declares U.
   */
  lemma QuotedSemicolonEntry(u: string)
    requires PlainUri(u)
    ensures ParseEntry("<" + u + ">; title=\"x; rel=type; y\"") == Some(u)
  {
    var target := "<" + u + ">";
    SpacedTarget(u);
    TrimTrimmed(target);
    var ps := QuotedSemicolonPieces();
    RelTypePiece();
    EntrySpelling(u);
    EntryWithParams(target, ps, u);
  }

  /** ` rel=type` is a `rel=type` parameter. */
  lemma RelTypePiece()
    ensures IsTypeRel(" rel" + "=" + "type")
  {
    RelName();
    QuotedValue("type");
    TypeRelParts(" rel", "type");
  }

  /** The name ` rel` has no `=` and trims to `rel`. */
  lemma RelName()
    ensures '=' !in " rel" && Trim(" rel") == "rel"
  {
    assert " " + "rel" + [] == " rel";
    TrimPadded(" ", "rel", []);
  }

  // ---------------------------------------------------------------------
  // Spellings: identities between ways of writing the same strings. They say
  // nothing about the parser; they let the scenarios above name their
  // headers in the tests' own spelling at a small cost to the solver.

  /** How the two-entry line of the scenario is written. */
  lemma PairSpelling(a: string, b: string)
    ensures TypeLink(a, true) + " , " + TypeLink(b, false) == "<" + a + ">;rel=\"type\" , <" + b + ">;rel=type"
  {
    var lhs, rhs := TypeLink(a, true) + " , " + TypeLink(b, false), "<" + a + ">;rel=\"type\" , <" + b + ">;rel=type";
    assert |lhs| == |rhs|;
    assert forall i :: 0 <= i < |lhs| ==> lhs[i] == rhs[i];
  }

  /** Empty padding on either side of `x` adds nothing. */
  lemma Unpadded(lead: string, x: string, trail: string)
    ensures lead == [] ==> lead + x + trail == x + trail
    ensures trail == [] ==> lead + x + trail == lead + x
    ensures lead == [] && trail == [] ==> lead + x + trail == x
  {
  }

  /** `<B>` is a trimmed target without parameters, and after one space it reads ` <B>`. */
  lemma SpacedTarget(b: string)
    requires PlainUri(b)
    ensures " " + ("<" + b + ">") + [] == " <" + b + ">"
    ensures IsTrimmed("<" + b + ">") && ';' !in "<" + b + ">"
  {
    var target := "<" + b + ">";
    assert target[0] == '<' && target[|target| - 1] == '>';
    var lhs, rhs := " " + ("<" + b + ">") + [], " <" + b + ">";
    assert |lhs| == |rhs|;
    assert forall i :: 0 <= i < |lhs| ==> lhs[i] == rhs[i];
  }

  /** The parameters `title="x; rel=type; y"` fall apart at both semicolons. */
  lemma QuotedSemicolonPieces() returns (ps: seq<string>)
    ensures |ps| == 3 && ps[1] == " rel" + "=" + "type"
    ensures forall i :: 0 <= i < |ps| ==> ';' !in ps[i]
    ensures Join(ps, ';') == " title=\"x; rel=type; y\""
  {
    ps := [" title=\"x", " rel" + "=" + "type", " y\""];
    var tail := ps[1..];
    assert |tail| == 2 && tail[0] == ps[1] && tail[1..] == [ps[2]];
    assert Join(tail[1..], ';') == ps[2];
    assert Join(tail, ';') == ps[1] + [';'] + ps[2];
    var lhs, rhs := Join(ps, ';'), " title=\"x; rel=type; y\"";
    assert lhs == ps[0] + [';'] + Join(tail, ';');
    assert |lhs| == |rhs|;
    assert forall i :: 0 <= i < |lhs| ==> lhs[i] == rhs[i];
  }

  /** The entry is its target, a `;` and the parameter list. */
  lemma EntrySpelling(u: string)
    ensures "<" + u + ">" + ";" + " title=\"x; rel=type; y\"" == "<" + u + ">; title=\"x; rel=type; y\""
  {
    var lhs, rhs := "<" + u + ">" + ";" + " title=\"x; rel=type; y\"", "<" + u + ">; title=\"x; rel=type; y\"";
    assert |lhs| == |rhs|;
    assert forall i :: 0 <= i < |lhs| ==> lhs[i] == rhs[i];
  }
}
