/** Parsing of Link headers (pkg/discovery/service.go), for links written as in section 3 of RFC 8288. */
module LinkHeader {
  import opened Text
  import opened TextLaws
  import opened Wrappers

  datatype Link = Link(url: string, rels: seq<string>)

  // ---- Splitting at commas ----------------------------------------------------------------------------------

  /** Where the scanner is. */
  datatype Mode = Mode(inQuotes: bool, inAngles: bool)

  const OUTSIDE := Mode(false, false)

  function Advance(mode: Mode, c: char): Mode {
    if c == '"' then mode.(inQuotes := !mode.inQuotes)
    else if c == '<' && !mode.inQuotes then mode.(inAngles := true)
    else if c == '>' && !mode.inQuotes then mode.(inAngles := false)
    else mode
  }

  function Walk(mode: Mode, s: string): Mode
    decreases |s|
  {
    if s == "" then mode else Walk(Advance(mode, s[0]), s[1..])
  }

  /** The segments of `rest`, of which the first one begins with `piece`. */
  function Segments(mode: Mode, piece: string, rest: string): seq<string>
    decreases |rest|
  {
    if rest == "" then (if piece == "" then [] else [TrimSpace(piece)])
    else if rest[0] == ',' && mode == OUTSIDE then [TrimSpace(piece)] + Segments(mode, "", rest[1..])
    else Segments(Advance(mode, rest[0]), piece + [rest[0]], rest[1..])
  }

  /** `splitLinkHeader`. */
  method SplitLinkHeader(value: string) returns (segments: seq<string>)
    ensures segments == Segments(OUTSIDE, "", value)
  {
    segments := [];
    var start, inQuotes, inAngles := 0, false, false;
    for i := 0 to |value|
      invariant start <= i
      invariant Segments(OUTSIDE, "", value) ==
        segments + Segments(Mode(inQuotes, inAngles), value[start..i], value[i..])
    {
      var r := value[i];
      assert value[i..][1..] == value[i + 1..] && value[start..i] + [r] == value[start..i + 1];
      if r == '"' {
        inQuotes := !inQuotes;
      } else if r == '<' {
        if !inQuotes {
          inAngles := true;
        }
      } else if r == '>' {
        if !inQuotes {
          inAngles := false;
        }
      } else if r == ',' {
        if !inQuotes && !inAngles {
          segments := segments + [TrimSpace(value[start..i])];
          start := i + 1;
        }
      }
    }
    assert value[|value|..] == "" && value[start..|value|] == value[start..];
    if start < |value| {
      segments := segments + [TrimSpace(value[start..])];
    }
  }

  /** No comma of `s` ends a segment. */
  ghost predicate Solid(mode: Mode, s: string)
    decreases |s|
  {
    s == "" || (!(s[0] == ',' && mode == OUTSIDE) && Solid(Advance(mode, s[0]), s[1..]))
  }

  lemma {:induction false} SolidIsOnePiece(mode: Mode, piece: string, s: string, rest: string)
    requires Solid(mode, s)
    ensures Segments(mode, piece, s + rest) == Segments(Walk(mode, s), piece + s, rest)
    decreases |s|
  {
    if s == "" {
      assert s + rest == rest && piece + s == piece;
    } else {
      SolidIsOnePiece(Advance(mode, s[0]), piece + [s[0]], s[1..], rest);
      assert (s + rest)[1..] == s[1..] + rest && piece + [s[0]] + s[1..] == piece + s;
    }
  }

  lemma {:induction false} SolidJoins(mode: Mode, s: string, t: string)
    requires Solid(mode, s) && Solid(Walk(mode, s), t)
    ensures Solid(mode, s + t) && Walk(mode, s + t) == Walk(Walk(mode, s), t)
    decreases |s|
  {
    if s == "" {
      assert s + t == t;
    } else {
      SolidJoins(Advance(mode, s[0]), s[1..], t);
      assert (s + t)[1..] == s[1..] + t;
    }
  }

  /** A stretch that never changes the mode nor ends a segment. */
  lemma {:induction false} Stays(mode: Mode, s: string)
    requires mode.inQuotes ==> '"' !in s
    requires !mode.inQuotes ==> '"' !in s && '>' !in s
    requires mode == OUTSIDE ==> '<' !in s && ',' !in s
    ensures Solid(mode, s) && Walk(mode, s) == mode
    decreases |s|
  {
    if s != "" {
      Stays(mode, s[1..]);
    }
  }

  // ---- One link ---------------------------------------------------------------------------------------------

  /** `strings.Trim` with the quote as its cut set. */
  function TrimQuotesLeft(s: string): string {
    if s != "" && s[0] == '"' then TrimQuotesLeft(s[1..]) else s
  }

  function TrimQuotesRight(s: string): string {
    if s != "" && s[|s| - 1] == '"' then TrimQuotesRight(s[..|s| - 1]) else s
  }

  /** The relations of the last part that gives some. */
  function RelsOf(parts: seq<string>): seq<string> {
    if parts == [] then []
    else
      var part := TrimSpace(parts[|parts| - 1]);
      if HasPrefix(part, "rel=") then Fields(TrimQuotesRight(TrimQuotesLeft(part[4..])))
      else RelsOf(parts[..|parts| - 1])
  }

  function LinkOf(segment: string): Option<Link> {
    if !HasPrefix(segment, "<") then None
    else
      var end := IndexFrom(segment, ">", 0);
      if end.None? || end.value <= 1 then None
      else Some(Link(segment[1..end.value], RelsOf(Split(segment[end.value + 1..], ';'))))
  }

  /** `parseLinkSegment`. */
  method ParseLinkSegment(segment: string) returns (link: Option<Link>)
    ensures link == LinkOf(segment)
  {
    if !HasPrefix(segment, "<") {
      return None;
    }
    var end := IndexFrom(segment, ">", 0);
    if end.None? || end.value <= 1 {
      return None;
    }
    var rels: seq<string> := [];
    var parts := Split(segment[end.value + 1..], ';');
    for i := 0 to |parts|
      invariant rels == RelsOf(parts[..i])
    {
      assert parts[..i + 1][..i] == parts[..i];
      var part := TrimSpace(parts[i]);
      if !HasPrefix(part, "rel=") {
        continue;
      }
      rels := Fields(TrimQuotesRight(TrimQuotesLeft(part[4..])));
    }
    assert parts[..|parts|] == parts;
    return Some(Link(segment[1..end.value], rels));
  }

  function LinksOf(segments: seq<string>): seq<Link> {
    if segments == [] then []
    else
      var link := LinkOf(segments[|segments| - 1]);
      LinksOf(segments[..|segments| - 1]) + if link.Some? then [link.value] else []
  }

  function Parsed(values: seq<string>): seq<Link> {
    if values == [] then []
    else Parsed(values[..|values| - 1]) + LinksOf(Segments(OUTSIDE, "", values[|values| - 1]))
  }

  /** `parseLinkHeader`. */
  method ParseLinkHeader(values: seq<string>) returns (results: seq<Link>)
    ensures results == Parsed(values)
  {
    hide LinkOf, Segments;
    results := [];
    for i := 0 to |values|
      invariant results == Parsed(values[..i])
    {
      assert values[..i + 1][..i] == values[..i];
      ghost var before := results;
      var segments := SplitLinkHeader(values[i]);
      for j := 0 to |segments|
        invariant results == before + LinksOf(segments[..j])
      {
        assert segments[..j + 1][..j] == segments[..j];
        var link := ParseLinkSegment(segments[j]);
        if link.Some? {
          results := results + [link.value];
        }
      }
      assert segments[..|segments|] == segments;
    }
    assert values[..|values|] == values;
  }

  // ---- Printing ---------------------------------------------------------------------------------------------

  predicate IsRel(rel: string) {
    rel != "" && forall i | 0 <= i < |rel| :: !IsSpace(rel[i]) && rel[i] != '"' && rel[i] != ';'
  }

  /** A link that can be written down: what delimits it does not occur in it. */
  predicate Printable(link: Link) {
    && link.url != "" && '"' !in link.url && '>' !in link.url
    && forall rel | rel in link.rels :: IsRel(rel)
  }

  function Words(rels: seq<string>): string {
    if rels == [] then "" else if |rels| == 1 then rels[0] else rels[0] + " " + Words(rels[1..])
  }

  function Print(link: Link): string {
    "<" + link.url + ">; rel=\"" + Words(link.rels) + "\""
  }

  /** Whitespace around a comma. */
  datatype Gap = Gap(before: string, after: string)

  /** The links with commas between them, and white space around the commas. */
  function PrintAll(links: seq<Link>, gaps: seq<Gap>): string
    requires |gaps| + 1 == |links|
  {
    if |links| == 1 then Print(links[0])
    else Print(links[0]) + gaps[0].before + "," + gaps[0].after + PrintAll(links[1..], gaps[1..])
  }

  lemma {:induction false} FieldsOfWords(rels: seq<string>)
    requires forall rel | rel in rels :: IsRel(rel)
    ensures Fields(Words(rels)) == rels
    ensures '"' !in Words(rels) && ';' !in Words(rels)
  {
    if rels != [] {
      var first, rest := rels[0], rels[1..];
      assert IsRel(first);
      FieldsOfWords(rest);
      if rest == [] {
        assert Words(rels) == first + "";
        FieldsOfWord(first, "");
        assert rels == [first];
      } else {
        assert Words(rels) == first + (" " + Words(rest));
        FieldsOfWord(first, " " + Words(rest));
        assert (" " + Words(rest))[1..] == Words(rest);
        assert rels == [first] + rest;
      }
    }
  }

  lemma TrimQuoted(inner: string)
    requires '"' !in inner
    ensures TrimQuotesRight(TrimQuotesLeft("\"" + inner + "\"")) == inner
  {
    var quoted := "\"" + inner + "\"";
    assert quoted[1..] == inner + "\"";
    if inner == "" {
      assert TrimQuotesLeft(quoted) == TrimQuotesLeft("\"") == TrimQuotesLeft(""[..]);
    } else {
      assert (inner + "\"")[0] == inner[0] && TrimQuotesLeft(quoted) == inner + "\"";
      assert (inner + "\"")[..|inner|] == inner;
    }
  }

  /** The URL of a printed link ends at its first closing angle. */
  lemma UrlOfPrint(link: Link)
    requires Printable(link)
    ensures var end := |link.url| + 1;
      && IndexFrom(Print(link), ">", 0) == Some(end) && Print(link)[1..end] == link.url
      && Print(link)[end + 1..] == "; rel=\"" + Words(link.rels) + "\""
  {
    var segment, end := Print(link), |link.url| + 1;
    var tail := "; rel=\"" + Words(link.rels) + "\"";
    assert segment == "<" + link.url + (">" + tail);
    assert segment[..end] == "<" + link.url && segment[end..] == ">" + tail;
    assert segment[end + 1..] == segment[end..][1..] == tail;
    assert HasPrefix(segment[end..], ">");
    forall j | 0 <= j < end ensures !HasPrefix(segment[j..], ">") {
      assert segment[j..][0] == segment[j] == segment[..end][j];
    }
    IndexFromIs(segment, ">", 0, end);
  }

  /** A printed link is read back. */
  lemma LinkOfPrint(link: Link)
    requires Printable(link)
    ensures LinkOf(Print(link)) == Some(link)
  {
    hide IndexFrom, Fields, TrimQuotesLeft, TrimQuotesRight, TrimSpace;
    UrlOfPrint(link);
    FieldsOfWords(link.rels);
    var part := " rel=\"" + Words(link.rels) + "\"";
    var tail := ";" + part;
    assert tail == "; rel=\"" + Words(link.rels) + "\"";
    assert tail[1..] == part;
    SplitWithout(part, ';');
    assert Split(tail, ';') == ["", part];
    RelPart(link.rels);
    assert Print(link)[0] == '<' && HasPrefix(Print(link), "<");
  }

  lemma RelPart(rels: seq<string>)
    requires forall rel | rel in rels :: IsRel(rel)
    ensures RelsOf(["", " rel=\"" + Words(rels) + "\""]) == rels
  {
    var quoted := "\"" + Words(rels) + "\"";
    var part := " rel=" + quoted;
    assert part == " rel=\"" + Words(rels) + "\"";
    assert part[1..] == "rel=" + quoted;
    TrimPadded(" ", "rel=" + quoted, "");
    assert " " + ("rel=" + quoted) + "" == part;
    assert ("rel=" + quoted)[4..] == quoted;
    FieldsOfWords(rels);
    TrimQuoted(Words(rels));
  }

  /** White space around a text that neither begins nor ends with any is trimmed. */
  lemma TrimPadded(before: string, text: string, after: string)
    requires IsBlank(before) && IsBlank(after)
    requires text != "" && !IsSpace(text[0]) && !IsSpace(text[|text| - 1])
    ensures TrimSpace(before + text + after) == text
  {
    TrimsLeft(before, text + after);
    assert before + text + after == before + (text + after);
    TrimsRight(text, after);
  }

  lemma {:induction false} TrimsLeft(blank: string, text: string)
    requires IsBlank(blank) && text != "" && !IsSpace(text[0])
    ensures TrimLeft(blank + text) == text
  {
    if blank == "" {
      assert blank + text == text;
    } else {
      TrimsLeft(blank[1..], text);
      assert (blank + text)[1..] == blank[1..] + text;
    }
  }

  lemma {:induction false} TrimsRight(text: string, blank: string)
    requires IsBlank(blank) && text != "" && !IsSpace(text[|text| - 1])
    ensures TrimRight(text + blank) == text
  {
    if blank == "" {
      assert text + blank == text;
    } else {
      TrimsRight(text, blank[..|blank| - 1]);
      assert (text + blank)[..|text + blank| - 1] == text + blank[..|blank| - 1];
    }
  }

  /** No comma inside a printed link, be it in its URL or in its relations, ends the link. */
  lemma PrintIsSolid(link: Link)
    requires Printable(link)
    ensures Solid(OUTSIDE, Print(link)) && Walk(OUTSIDE, Print(link)) == OUTSIDE
  {
    var words, middle := Words(link.rels), ">; rel=\"";
    FieldsOfWords(link.rels);
    hide Words, Walk, Solid;
    var angles, quotes := Mode(false, true), Mode(true, false);
    Delimiters();
    Stays(angles, link.url);
    Stays(quotes, words);
    SolidJoins(OUTSIDE, "<", link.url);
    SolidJoins(OUTSIDE, "<" + link.url, middle);
    SolidJoins(OUTSIDE, "<" + link.url + middle, words);
    SolidJoins(OUTSIDE, "<" + link.url + middle + words, "\"");
    assert Print(link) == "<" + link.url + middle + words + "\"";
  }

  lemma One(mode: Mode, c: char)
    requires !(c == ',' && mode == OUTSIDE)
    ensures Solid(mode, [c]) && Walk(mode, [c]) == Advance(mode, c)
  {
    assert [c][1..] == "";
  }

  /** What stands between the URL and the relations of a printed link. */
  lemma Delimiters()
    ensures Solid(OUTSIDE, "<") && Walk(OUTSIDE, "<") == Mode(false, true)
    ensures Solid(Mode(true, false), "\"") && Walk(Mode(true, false), "\"") == OUTSIDE
    ensures Solid(Mode(false, true), ">; rel=\"") && Walk(Mode(false, true), ">; rel=\"") == Mode(true, false)
  {
    One(OUTSIDE, '<');
    One(Mode(true, false), '"');
    Relation(">", "; rel=", "\"");
    assert ">; rel=\"" == ">" + "; rel=" + "\"";
  }

  lemma Relation(close: string, words: string, quote: string)
    requires close == ">" && words == "; rel=" && quote == "\""
    ensures Solid(Mode(false, true), close + words + quote)
    ensures Walk(Mode(false, true), close + words + quote) == Mode(true, false)
  {
    One(Mode(false, true), '>');
    One(OUTSIDE, '"');
    Stays(OUTSIDE, words);
    hide Solid, Walk;
    SolidJoins(Mode(false, true), close, words);
    SolidJoins(Mode(false, true), close + words, quote);
  }

  // ---- Whole headers ----------------------------------------------------------------------------------------

  function Prints(links: seq<Link>): (r: seq<string>)
    ensures |r| == |links|
  {
    if links == [] then [] else [Print(links[0])] + Prints(links[1..])
  }

  predicate BlankGaps(gaps: seq<Gap>) {
    forall i | 0 <= i < |gaps| :: IsBlank(gaps[i].before) && IsBlank(gaps[i].after)
  }

  lemma BlankStays(blank: string)
    requires IsBlank(blank)
    ensures Solid(OUTSIDE, blank) && Walk(OUTSIDE, blank) == OUTSIDE
  {
    Stays(OUTSIDE, blank);
  }

  lemma PrintEnds(link: Link)
    ensures Print(link) != "" && !IsSpace(Print(link)[0]) && !IsSpace(Print(link)[|Print(link)| - 1])
  {
    assert Print(link)[0] == '<' && Print(link)[|Print(link)| - 1] == '"';
  }

  lemma AtComma(piece: string, rest: string)
    ensures Segments(OUTSIDE, piece, "," + rest) == [TrimSpace(piece)] + Segments(OUTSIDE, "", rest)
  {
    assert ("," + rest)[1..] == rest;
  }

  /** A printed link with white space around it ends at the comma after it. */
  lemma SegmentEnds(piece: string, link: Link, before: string, rest: string)
    requires Printable(link) && IsBlank(piece) && IsBlank(before)
    ensures Segments(OUTSIDE, piece, Print(link) + (before + ("," + rest))) ==
            [Print(link)] + Segments(OUTSIDE, "", rest)
  {
    hide *;
    var text, tail := Print(link), "," + rest;
    PrintEnds(link);
    PrintIsSolid(link);
    BlankStays(before);
    SolidIsOnePiece(OUTSIDE, piece, text, before + tail);
    SolidIsOnePiece(OUTSIDE, piece + text, before, tail);
    TrimPadded(piece, text, before);
    AtComma(piece + text + before, rest);
  }

  lemma GapStarts(gap: string, rest: string)
    requires IsBlank(gap)
    ensures Segments(OUTSIDE, "", gap + rest) == Segments(OUTSIDE, gap, rest)
  {
    BlankStays(gap);
    SolidIsOnePiece(OUTSIDE, "", gap, rest);
    assert "" + gap == gap;
  }

  lemma Regrouped(a: string, b: string, c: string, d: string, e: string)
    ensures a + b + c + d + e == a + (b + (c + (d + e)))
  {
  }

  /** One printed link with white space around it, and a comma after it, is one segment. */
  lemma FirstSegment(piece: string, link: Link, gap: Gap, rest: string)
    requires Printable(link) && IsBlank(piece) && IsBlank(gap.before) && IsBlank(gap.after)
    ensures Segments(OUTSIDE, piece, Print(link) + gap.before + "," + gap.after + rest) ==
            [Print(link)] + Segments(OUTSIDE, gap.after, rest)
  {
    hide *;
    Regrouped(Print(link), gap.before, ",", gap.after, rest);
    SegmentEnds(piece, link, gap.before, gap.after + rest);
    GapStarts(gap.after, rest);
  }

  lemma {:induction false} SegmentsOfPrintAll(piece: string, links: seq<Link>, gaps: seq<Gap>)
    requires |gaps| + 1 == |links| && IsBlank(piece) && BlankGaps(gaps)
    requires forall link | link in links :: Printable(link)
    ensures Segments(OUTSIDE, piece, PrintAll(links, gaps)) == Prints(links)
    decreases |links|
  {
    var text := Print(links[0]);
    if |links| == 1 {
      PrintIsSolid(links[0]);
      assert text + "" == text && piece + text + "" == piece + text;
      SolidIsOnePiece(OUTSIDE, piece, text, "");
      TrimPadded(piece, text, "");
      assert Prints(links[1..]) == [];
    } else {
      FirstSegment(piece, links[0], gaps[0], PrintAll(links[1..], gaps[1..]));
      SegmentsOfPrintAll(gaps[0].after, links[1..], gaps[1..]);
    }
  }

  lemma LinksOfFirst(segment: string, segments: seq<string>)
    ensures LinksOf([segment] + segments) ==
      (if LinkOf(segment).Some? then [LinkOf(segment).value] else []) + LinksOf(segments)
  {
    hide LinkOf;
    if segments == [] {
      assert [segment][..0] == [];
    } else {
      LinksOfFirst(segment, segments[..|segments| - 1]);
      assert ([segment] + segments)[..|segments|] == [segment] + segments[..|segments| - 1];
    }
  }

  lemma {:induction false} LinksOfPrints(links: seq<Link>)
    requires forall link | link in links :: Printable(link)
    ensures LinksOf(Prints(links)) == links
  {
    hide LinkOf, Print;
    if links != [] {
      LinkOfPrint(links[0]);
      LinksOfPrints(links[1..]);
      LinksOfFirst(Print(links[0]), Prints(links[1..]));
    }
  }

  /** Header values that each hold a list of links, written with any white space around the commas. */
  function Headers(lists: seq<(seq<Link>, seq<Gap>)>): seq<string>
    requires forall i | 0 <= i < |lists| :: |lists[i].1| + 1 == |lists[i].0|
  {
    seq(|lists|, i requires 0 <= i < |lists| => PrintAll(lists[i].0, lists[i].1))
  }

  function AllLinks(lists: seq<(seq<Link>, seq<Gap>)>): seq<Link> {
    if lists == [] then [] else AllLinks(lists[..|lists| - 1]) + lists[|lists| - 1].0
  }

  /** Parsing inverts printing: every link comes back, with its URL and relations, once and in order. */
  lemma {:induction false} ParseInvertsPrint(lists: seq<(seq<Link>, seq<Gap>)>)
    requires forall i | 0 <= i < |lists| :: |lists[i].1| + 1 == |lists[i].0| && BlankGaps(lists[i].1)
    requires forall i, link | 0 <= i < |lists| && link in lists[i].0 :: Printable(link)
    ensures Parsed(Headers(lists)) == AllLinks(lists)
  {
    hide Segments, PrintAll, LinksOf, Printable;
    if lists != [] {
      var before := lists[..|lists| - 1];
      var (links, gaps) := lists[|lists| - 1];
      ParseInvertsPrint(before);
      assert Headers(lists) == Headers(before) + [PrintAll(links, gaps)];
      assert Headers(lists)[..|lists| - 1] == Headers(before);
      SegmentsOfPrintAll("", links, gaps);
      LinksOfPrints(links);
    }
  }
}
