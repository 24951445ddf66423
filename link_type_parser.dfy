/**
 * LinkTypeParser: reads the `link` header of a request and, for every link
 * entry of the form `<URI>; ...; rel=type` (the value quoted or not), adds
 * URI as an `rdf:type` value of the request's metadata. Entries are taken
 * line by line, and within a line in the order they are written; entries
 * that do not match are skipped without error. The accepted syntax is a
 * subset of the Link serialisation of section 3 of RFC 8288, with the `rel`
 * parameter of section 3.3.
 */
module LinkTypeParser {
  import opened Wrappers
  import opened Text
  import opened Metadata
  import opened Seqs

  /** A header field as the request holds it: one line, or several lines in arrival order. */
  datatype HeaderValue = Line(line: string) | Lines(lines: seq<string>)

  /** The request's headers, by lower-case name. */
  type Headers = map<string, HeaderValue>

  /** The lines of the `link` header: none when it is absent, one for a single string. */
  function LinkLines(headers: Headers): (lines: seq<string>)
    ensures "link" !in headers ==> lines == []
    ensures "link" in headers && headers["link"].Line? ==> lines == [headers["link"].line]
    ensures "link" in headers && headers["link"].Lines? ==> lines == headers["link"].lines
  {
    if "link" !in headers then []
    else match headers["link"]
      case Line(l) => [l]
      case Lines(ls) => ls
  }

  // ---------------------------------------------------------------------
  // One entry: `<URI>` followed by `;`-separated parameters

  /** The link target is written between angle brackets. */
  predicate IsBracketed(t: string) {
    |t| >= 2 && t[0] == '<' && t[|t| - 1] == '>'
  }

  /**
   * A parameter `name=value`, split at its first `=` and both sides
   * trimmed, whose name is `rel` and whose value, without surrounding
   * quotes, is `type`.
   */
  predicate IsTypeRel(param: string) {
    var k := IndexOf(param, '=');
    k < |param| && Trim(param[..k]) == "rel" && StripQuotes(Trim(param[k + 1..])) == "type"
  }

  /** Some parameter of the `;`-separated list `params` is `rel=type`. */
  predicate HasTypeRel(params: string)
    decreases |params|
  {
    var k := IndexOf(params, ';');
    IsTypeRel(params[..k]) || (k < |params| && HasTypeRel(params[k + 1..]))
  }

  /**
   * The declared type carried by one link entry: the URI between the angle
   * brackets of the target (what precedes the first `;`) when a parameter
   * after it is `rel=type`, nothing otherwise.
   */
  function ParseEntry(entry: string): Option<string>
  {
    var k := IndexOf(entry, ';');
    var target := Trim(entry[..k]);
    if IsBracketed(target) && k < |entry| && HasTypeRel(entry[k + 1..]) then
      Some(target[1..|target| - 1])
    else None
  }

  /**
   * An entry `target;params`, with no `;` in the target, declares `uri`
   * exactly when the trimmed target is `<uri>` and a parameter is `rel=type`.
   */
  lemma EntryAccepted(target: string, params: string, uri: string)
    requires ';' !in target
    ensures ParseEntry(target + ";" + params) == Some(uri)
        <==> Trim(target) == "<" + uri + ">" && HasTypeRel(params)
  {
    EntryParts(target, params);
    var t := Trim(target);
    if Trim(target) == "<" + uri + ">" {
      assert t[1..|t| - 1] == uri;
    }
    if IsBracketed(t) {
      assert t == "<" + t[1..|t| - 1] + ">";
    }
  }

  /** A declared URI never holds a `;`: it lies before the first one. */
  lemma EntryUriHasNoSemicolon(entry: string)
    requires ParseEntry(entry).Some?
    ensures ';' !in ParseEntry(entry).value
  {
    var k := IndexOf(entry, ';');
    var target := Trim(entry[..k]);
    IndexOfIsFirst(entry, ';');
    TrimChars(entry[..k]);
    assert forall c :: c in target[1..|target| - 1] ==> c in target;
  }

  /** What one comma-separated entry contributes once trimmed: its URI or nothing. */
  function EntryType(entry: string): (uris: seq<string>)
    ensures |uris| <= 1
  {
    OptionToSeq(ParseEntry(Trim(entry)))
  }

  /** The declared types of the entries of a line, in order. */
  function EntryTypes(entries: seq<string>): (uris: seq<string>)
    ensures |uris| <= |entries|
  {
    FlatMapAtMostOne(EntryType, entries);
    FlatMap(EntryType, entries)
  }

  /** The declared types of one header line: its comma-separated entries, in order; at most one per entry. */
  function LineTypes(line: string): (uris: seq<string>)
    ensures |uris| <= |Split(line, ',')|
  {
    EntryTypes(Split(line, ','))
  }

  /** The declared types of all header lines, line after line. */
  function HeaderTypes(lines: seq<string>): (uris: seq<string>)
  {
    FlatMap(LineTypes, lines)
  }

  // ---------------------------------------------------------------------
  // The parser

  /**
   * `parse(request, metadata)`: adds the declared types of every `link`
   * line to `metadata`, in order. It never fails.
   */
  method Parse(headers: Headers, metadata: RepresentationMetadata)
    requires metadata.Valid()
    modifies metadata
    ensures metadata.Valid()
    ensures metadata.quads == InsertAll(old(metadata.quads), RdfType, HeaderTypes(LinkLines(headers)))
  {
    var lines := LinkLines(headers);
    for i := 0 to |lines|
      invariant metadata.Valid()
      invariant metadata.quads == InsertAll(old(metadata.quads), RdfType, HeaderTypes(lines[..i]))
    {
      InsertFlatMapStep(old(metadata.quads), metadata.quads, RdfType, LineTypes, lines, i);
      ParseLink(lines[i], metadata);
    }
    assert lines[..|lines|] == lines;
  }

  /**
   * Adding the values `f` gives for one more element continues the values of
   * the elements before it.
   */
  lemma InsertFlatMapStep<A>(start: seq<Quad>, quads: seq<Quad>, p: string, f: A -> seq<string>, xs: seq<A>, i: nat)
    requires i < |xs|
    requires quads == InsertAll(start, p, FlatMap(f, xs[..i]))
    ensures InsertAll(quads, p, f(xs[i])) == InsertAll(start, p, FlatMap(f, xs[..i + 1]))
  {
    InsertAllAppend(start, p, FlatMap(f, xs[..i]), f(xs[i]));
    assert xs[..i + 1] == xs[..i] + [xs[i]];
    FlatMapSnoc(f, xs[..i], xs[i]);
  }

  /** `parseLink(line, metadata)`: adds the declared types of one header line, entry by entry. */
  method ParseLink(line: string, metadata: RepresentationMetadata)
    requires metadata.Valid()
    modifies metadata
    ensures metadata.Valid()
    ensures metadata.quads == InsertAll(old(metadata.quads), RdfType, LineTypes(line))
  {
    var entries := Split(line, ',');
    for i := 0 to |entries|
      invariant metadata.Valid()
      invariant metadata.quads == InsertAll(old(metadata.quads), RdfType, EntryTypes(entries[..i]))
    {
      InsertFlatMapStep(old(metadata.quads), metadata.quads, RdfType, EntryType, entries, i);
      InsertOption(metadata.quads, RdfType, ParseEntry(Trim(entries[i])));
      var uri := ParseEntry(Trim(entries[i]));
      if uri.Some? {
        metadata.Add(RdfType, uri.value);
      }
    }
    assert entries[..|entries|] == entries;
  }

  // ---------------------------------------------------------------------
  // What the grammar accepts and rejects

  /** The parameter name is what comes before the first `=`, the value all that follows. */
  lemma TypeRelParts(name: string, value: string)
    requires '=' !in name
    ensures IsTypeRel(name + "=" + value) <==> Trim(name) == "rel" && StripQuotes(Trim(value)) == "type"
  {
    var p := name + "=" + value;
    assert p == name + ['='] + value;
    IndexOfFirst(name, '=', value);
    assert p[..|name|] == name && p[|name| + 1..] == value;
  }

  /** `rel="v"` and `rel=v` are the same parameter: quotes are stripped before comparing. */
  lemma QuotesIgnored(name: string, v: string)
    requires '=' !in name && '"' !in v && IsTrimmed(v)
    ensures IsTypeRel(name + "=\"" + v + "\"") == IsTypeRel(name + "=" + v)
  {
    var quoted := ['"'] + v + ['"'];
    assert name + "=\"" + v + "\"" == name + "=" + quoted;
    TypeRelParts(name, quoted);
    TypeRelParts(name, v);
    QuotedValue(v);
  }

  /** An entry is read as its target, before the first `;`, and the parameters after it. */
  lemma EntryParts(target: string, params: string)
    requires ';' !in target
    ensures var e := target + ";" + params;
            e[..IndexOf(e, ';')] == target && e[IndexOf(e, ';') + 1..] == params
  {
    var e := target + ";" + params;
    assert e == target + [';'] + params;
    IndexOfFirst(target, ';', params);
  }

  /** An entry whose target is not in angle brackets declares nothing, whatever its parameters. */
  lemma UnbracketedIgnored(target: string, params: string)
    requires ';' !in target && !IsBracketed(Trim(target))
    ensures ParseEntry(target) == None
    ensures ParseEntry(target + ";" + params) == None
  {
    IndexOfAbsent(target, ';');
    assert target[..|target|] == target;
    EntryParts(target, params);
  }

  /** An entry without parameters has no `rel` and declares nothing. */
  lemma NoParamsIgnored(target: string)
    requires ';' !in target
    ensures ParseEntry(target) == None
  {
    IndexOfAbsent(target, ';');
  }

  /** An entry whose only parameter is `rel` with a value other than `type` declares nothing. */
  lemma OtherRelIgnored(target: string, v: string)
    requires ';' !in target && ';' !in v && '"' !in v && IsTrimmed(v) && v != "type"
    ensures ParseEntry(target + ";rel=\"" + v + "\"") == None
    ensures ParseEntry(target + ";rel=" + v) == None
  {
    var quoted := "rel=\"" + v + "\"";
    var bare := "rel=" + v;
    assert target + ";rel=\"" + v + "\"" == target + ";" + quoted;
    assert target + ";rel=" + v == target + ";" + bare;
    RelParam(v, false);
    RelParam(v, true);
    if ParseEntry(target + ";" + quoted).Some? {
      EntryAccepted(target, quoted, ParseEntry(target + ";" + quoted).value);
    }
    if ParseEntry(target + ";" + bare).Some? {
      EntryAccepted(target, bare, ParseEntry(target + ";" + bare).value);
    }
  }

  /** A lone `rel` parameter, its value quoted or not, is `rel=type` exactly when the value is `type`. */
  lemma RelParam(v: string, quoted: bool)
    requires ';' !in v && '"' !in v && IsTrimmed(v)
    ensures var param := if quoted then "rel=\"" + v + "\"" else "rel=" + v;
            HasTypeRel(param) <==> v == "type"
  {
    var value := if quoted then ['"'] + v + ['"'] else v;
    var param := if quoted then "rel=\"" + v + "\"" else "rel=" + v;
    assert param == "rel" + "=" + value;
    assert ';' !in param;
    SingleParam(param);
    TypeRelParts("rel", value);
    QuotedValue(v);
    TrimTrimmed("rel");
  }

  /** A parameter list without `;` is one parameter. */
  lemma SingleParam(param: string)
    requires ';' !in param
    ensures HasTypeRel(param) == IsTypeRel(param)
  {
    IndexOfAbsent(param, ';');
    assert param[..|param|] == param;
  }

  /** The first parameter of a list is judged first, then the rest of the list. */
  lemma HasTypeRelCons(p: string, rest: string)
    requires ';' !in p
    ensures HasTypeRel(p + ";" + rest) <==> IsTypeRel(p) || HasTypeRel(rest)
  {
    var s := p + ";" + rest;
    assert s == p + [';'] + rest;
    IndexOfFirst(p, ';', rest);
    assert s[..|p|] == p && s[|p| + 1..] == rest;
  }

  /**
   * `HasTypeRel` is a search: a parameter list has `rel=type` exactly when
   * one of its `;`-separated parameters is `rel=type`.
   */
  lemma {:induction false} HasTypeRelSplit(params: string)
    ensures HasTypeRel(params) <==> exists i :: 0 <= i < |Split(params, ';')| && IsTypeRel(Split(params, ';')[i])
    decreases |params|
  {
    var k := IndexOf(params, ';');
    if k < |params| {
      assert Split(params, ';') == [params[..k]] + Split(params[k + 1..], ';');
      HasTypeRelSplit(params[k + 1..]);
      ExistsCons(IsTypeRel, params[..k], Split(params[k + 1..], ';'));
    } else {
      assert params[..k] == params;
      assert Split(params, ';') == [params] + [];
      ExistsCons(IsTypeRel, params, []);
    }
  }

  /**
   * An entry with several parameters, such as `<U>; title=x; rel=type`,
   * declares `uri` exactly when its target is `<uri>` and any one of the
   * parameters is `rel=type`, wherever it stands in the list.
   */
  lemma EntryWithParams(target: string, ps: seq<string>, uri: string)
    requires ';' !in target && |ps| >= 1
    requires forall i :: 0 <= i < |ps| ==> ';' !in ps[i]
    ensures ParseEntry(target + ";" + Join(ps, ';')) == Some(uri)
        <==> Trim(target) == "<" + uri + ">" && exists i :: 0 <= i < |ps| && IsTypeRel(ps[i])
  {
    SplitJoin(ps, ';');
    HasTypeRelSplit(Join(ps, ';'));
    EntryAccepted(target, Join(ps, ';'), uri);
  }

  /** `<URI>;rel="type"` (or `rel=type`), the entry form that declares a type. */
  function TypeLink(uri: string, quoted: bool): (link: string)
    ensures ',' in link <==> ',' in uri
  {
    "<" + uri + ">;rel=" + (if quoted then "\"type\"" else "type")
  }

  /** A well-formed type link declares exactly its URI, with the `rel` value quoted or not. */
  lemma TypeLinkParses(uri: string, quoted: bool)
    requires ';' !in uri
    ensures ParseEntry(TypeLink(uri, quoted)) == Some(uri)
  {
    var target := "<" + uri + ">";
    var param := if quoted then "rel=\"" + "type" + "\"" else "rel=" + "type";
    assert TypeLink(uri, quoted) == target + ";" + param;
    assert ';' !in target;
    TrimTrimmed(target);
    RelParam("type", quoted);
    EntryAccepted(target, param, uri);
  }

  /** White space around an entry does not change what it declares. */
  lemma PaddedEntry(lead: string, entry: string, trail: string)
    requires AllSpace(lead) && AllSpace(trail) && IsTrimmed(entry)
    ensures EntryType(lead + entry + trail) == OptionToSeq(ParseEntry(entry))
  {
    TrimPadded(lead, entry, trail);
  }

  /** Surrounding white space does not change what an entry declares. */
  lemma PaddedTypeLink(lead: string, uri: string, quoted: bool, trail: string)
    requires ';' !in uri && AllSpace(lead) && AllSpace(trail)
    ensures EntryType(lead + TypeLink(uri, quoted) + trail) == [uri]
  {
    var link := TypeLink(uri, quoted);
    assert link[0] == '<';
    assert link[|link| - 1] == if quoted then '"' else 'e';
    TrimPadded(lead, link, trail);
    TypeLinkParses(uri, quoted);
  }

  // ---------------------------------------------------------------------
  // Order: entries within a line, lines within the header

  /** A line without commas is a single entry. */
  lemma SingleEntryLine(entry: string)
    requires ',' !in entry
    ensures LineTypes(entry) == EntryType(entry)
  {
    SplitWithoutSep(entry, ',');
    FlatMapOne(EntryType, entry);
  }

  /** The first comma ends the first entry of a line. */
  lemma LineFirstEntry(entry: string, rest: string)
    requires ',' !in entry
    ensures LineTypes(entry + "," + rest) == EntryType(entry) + LineTypes(rest)
  {
    assert entry + "," + rest == entry + [','] + rest;
    SplitAtFirst(entry, ',', rest);
    var parts := [entry] + Split(rest, ',');
    assert parts[1..] == Split(rest, ',');
  }

  /** A line of two entries declares the first entry's types, then the second's. */
  lemma TwoEntryLine(first: string, second: string)
    requires ',' !in first && ',' !in second
    ensures LineTypes(first + "," + second) == EntryType(first) + EntryType(second)
  {
    LineFirstEntry(first, second);
    SingleEntryLine(second);
  }

  /** Two comma-joined entries that declare one URI each declare both, first the first. */
  lemma TwoDeclaringEntries(first: string, second: string, a: string, b: string)
    requires ',' !in first && ',' !in second
    requires EntryType(first) == [a] && EntryType(second) == [b]
    ensures LineTypes(first + "," + second) == [a, b]
  {
    TwoEntryLine(first, second);
  }

  /** A line of comma-joined entries declares the entries' types, in entry order. */
  lemma LineOfEntries(entries: seq<string>)
    requires |entries| >= 1
    requires forall i :: 0 <= i < |entries| ==> ',' !in entries[i]
    ensures LineTypes(Join(entries, ',')) == EntryTypes(entries)
  {
    SplitJoin(entries, ',');
  }

  /** When every entry declares a type, the declared types are those URIs, one per entry, in entry order. */
  lemma EveryEntryDeclares(entries: seq<string>, uris: seq<string>)
    requires |entries| == |uris|
    requires forall i :: 0 <= i < |entries| ==> EntryType(entries[i]) == [uris[i]]
    ensures EntryTypes(entries) == uris
  {
    FlatMapSingletons(EntryType, entries, uris);
  }

  /** When no entry declares a type, the declared types are empty. */
  lemma NoEntryDeclares(entries: seq<string>)
    requires forall i :: 0 <= i < |entries| ==> EntryType(entries[i]) == []
    ensures EntryTypes(entries) == []
  {
    FlatMapNothing(EntryType, entries);
  }

  /** When every line declares one type, the declared types are those, in line order. */
  lemma OneTypePerLine(lines: seq<string>, uris: seq<string>)
    requires |lines| == |uris|
    requires forall i :: 0 <= i < |lines| ==> LineTypes(lines[i]) == [uris[i]]
    ensures HeaderTypes(lines) == uris
  {
    FlatMapSingletons(LineTypes, lines, uris);
  }

  /** A header of one line declares that line's types. */
  lemma SingleLineHeader(line: string)
    ensures HeaderTypes([line]) == LineTypes(line)
  {
    FlatMapOne(LineTypes, line);
  }

  /** A header without `link` declares no type. */
  lemma NoLinkHeader(headers: Headers)
    requires "link" !in headers
    ensures HeaderTypes(LinkLines(headers)) == []
  {
  }

  /**
   * Parsing into empty metadata: when the declared types are distinct, the
   * metadata afterwards holds one quad per declared type and `getAll(rdf:type)`
   * lists them in header order; every quad is an `rdf:type` quad.
   */
  lemma {:induction false} ParsedIntoEmpty(lines: seq<string>)
    requires NoDuplicates(HeaderTypes(lines))
    ensures Values(InsertAll([], RdfType, HeaderTypes(lines)), RdfType) == HeaderTypes(lines)
    ensures |InsertAll([], RdfType, HeaderTypes(lines))| == |HeaderTypes(lines)|
    ensures forall q :: q in InsertAll([], RdfType, HeaderTypes(lines)) ==> q.pred == RdfType
  {
    InsertAllFreshValues([], RdfType, HeaderTypes(lines));
    InsertAllContents([], RdfType, HeaderTypes(lines));
  }
}
