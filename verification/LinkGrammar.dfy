/** What a Link header says, apart from the scanner that reads it. */
module LinkGrammar {
  import opened Text
  import opened TextLaws
  import opened Wrappers
  import opened LinkHeader

  // ---- Which commas separate --------------------------------------------------------------------------------

  function Quotes(s: string, i: nat): nat
    requires i <= |s|
  {
    if i == 0 then 0 else Quotes(s, i - 1) + if s[i - 1] == '"' then 1 else 0
  }

  /** An odd number of quotes stands before `i`. */
  predicate Quoted(s: string, i: nat)
    requires i <= |s|
  {
    Quotes(s, i) % 2 == 1
  }

  /** The last unquoted angle bracket before `i` opens. */
  predicate Angled(s: string, i: nat)
    requires i <= |s|
  {
    exists k | 0 <= k < i :: OpensAt(s, i, k)
  }

  predicate OpensAt(s: string, i: nat, k: nat)
    requires k < i <= |s|
  {
    s[k] == '<' && !Quoted(s, k) && forall j | k < j < i :: s[j] == '>' ==> Quoted(s, j)
  }

  predicate Separates(s: string, i: nat)
    requires i < |s|
  {
    s[i] == ',' && !Quoted(s, i) && !Angled(s, i)
  }

  /** All separators from `at` on, in order. */
  ghost predicate AreSeparators(s: string, at: nat, cuts: seq<nat>) {
    && (forall i, j | 0 <= i < j < |cuts| :: cuts[i] < cuts[j])
    && (forall i | 0 <= i < |cuts| :: at <= cuts[i] < |s|)
    && forall i: nat | at <= i < |s| :: Separates(s, i) <==> i in cuts
  }

  /** The stretches between the cuts, trimmed; none after the last cut if nothing is there. */
  function Stretches(s: string, start: nat, cuts: seq<nat>): seq<string>
    requires start <= |s| && forall i | 0 <= i < |cuts| :: start <= cuts[i] < |s|
    requires forall i, j | 0 <= i < j < |cuts| :: cuts[i] < cuts[j]
    decreases |cuts|
  {
    if cuts != [] then [TrimSpace(s[start..cuts[0]])] + Stretches(s, cuts[0] + 1, cuts[1..])
    else if start < |s| then [TrimSpace(s[start..])]
    else []
  }

  function ModeAt(s: string, i: nat): Mode
    requires i <= |s|
  {
    Mode(Quoted(s, i), Angled(s, i))
  }

  lemma ModeMoves(s: string, i: nat)
    requires i < |s|
    ensures ModeAt(s, i + 1) == Advance(ModeAt(s, i), s[i])
  {
    hide Quoted;
    assert Quoted(s, i + 1) <==> (s[i] == '"') != Quoted(s, i) by {
      OneMoreQuote(s, i);
    }
    AngleMoves(s, i);
  }

  lemma AngleMoves(s: string, i: nat)
    requires i < |s|
    ensures Angled(s, i + 1) <==>
      if s[i] == '<' && !Quoted(s, i) then true else Angled(s, i) && !(s[i] == '>' && !Quoted(s, i))
  {
    hide Quoted;
    if s[i] == '<' && !Quoted(s, i) {
      assert OpensAt(s, i + 1, i);
    } else {
      if Angled(s, i + 1) {
        var k :| 0 <= k < i + 1 && OpensAt(s, i + 1, k);
        assert k < i && OpensAt(s, i, k);
      }
      if Angled(s, i) && !(s[i] == '>' && !Quoted(s, i)) {
        var k :| 0 <= k < i && OpensAt(s, i, k);
        assert OpensAt(s, i + 1, k);
      }
    }
  }

  lemma OneMoreQuote(s: string, i: nat)
    requires i < |s|
    ensures Quoted(s, i + 1) <==> (s[i] == '"') != Quoted(s, i)
  {
  }

  lemma SeparatorsSkip(s: string, at: nat, cuts: seq<nat>)
    requires at < |s| && AreSeparators(s, at + 1, cuts)
    ensures AreSeparators(s, at, if Separates(s, at) then [at] + cuts else cuts)
  {
    hide Separates;
  }

  lemma SegmentsStep(mode: Mode, piece: string, rest: string)
    requires rest != ""
    ensures Segments(mode, piece, rest) ==
            if rest[0] == ',' && mode == OUTSIDE then [TrimSpace(piece)] + Segments(mode, "", rest[1..])
            else Segments(Advance(mode, rest[0]), piece + [rest[0]], rest[1..])
  {
  }

  lemma {:induction false} CutsFrom(s: string, start: nat, at: nat) returns (cuts: seq<nat>)
    requires start <= at <= |s|
    ensures AreSeparators(s, at, cuts)
    ensures Segments(ModeAt(s, at), s[start..at], s[at..]) == Stretches(s, start, cuts)
    decreases |s| - at
  {
    hide ModeAt, TrimSpace, Separates, Advance;
    if at == |s| {
      cuts := [];
      assert s[start..at] == s[start..];
    } else {
      hide Segments;
      ModeMoves(s, at);
      SeparatesIff(s, at);
      SegmentsStep(ModeAt(s, at), s[start..at], s[at..]);
      assert s[at..][1..] == s[at + 1..] && s[at..][0] == s[at] && s[start..at] + [s[at]] == s[start..at + 1];
      if Separates(s, at) {
        var rest := CutsFrom(s, at + 1, at + 1);
        assert s[at + 1..at + 1] == "";
        cuts := [at] + rest;
        SameMode(s, at);
        assert cuts[1..] == rest;
        SeparatorsSkip(s, at, rest);
      } else {
        cuts := CutsFrom(s, start, at + 1);
        SeparatorsSkip(s, at, cuts);
      }
    }
  }

  lemma SeparatesIff(s: string, i: nat)
    requires i < |s|
    ensures Separates(s, i) <==> s[i] == ',' && ModeAt(s, i) == OUTSIDE
  {
  }

  lemma SameMode(s: string, i: nat)
    requires i < |s| && s[i] == ','
    ensures Advance(ModeAt(s, i), s[i]) == ModeAt(s, i)
  {
  }

  /** A header value is cut at its separators: the commas outside quotes and angle brackets. */
  lemma SegmentsAre(value: string) returns (cuts: seq<nat>)
    ensures AreSeparators(value, 0, cuts) && Segments(OUTSIDE, "", value) == Stretches(value, 0, cuts)
  {
    cuts := CutsFrom(value, 0, 0);
    assert value[0..0] == "" && value[0..] == value && ModeAt(value, 0) == OUTSIDE;
  }

  // ---- Quotes -----------------------------------------------------------------------------------------------

  predicate IsQuote(c: char) {
    c == '"'
  }

  lemma {:induction false} LeftUnquoted(s: string) returns (left: string)
    ensures All(left, IsQuote) && s == left + TrimQuotesLeft(s)
    ensures TrimQuotesLeft(s) != "" ==> !IsQuote(TrimQuotesLeft(s)[0])
  {
    if s != "" && s[0] == '"' {
      left := LeftUnquoted(s[1..]);
      left := [s[0]] + left;
    } else {
      left := "";
    }
  }

  lemma {:induction false} RightUnquoted(s: string) returns (right: string)
    ensures All(right, IsQuote) && s == TrimQuotesRight(s) + right
    ensures TrimQuotesRight(s) != "" ==> !IsQuote(TrimQuotesRight(s)[|TrimQuotesRight(s)| - 1])
  {
    if s != "" && s[|s| - 1] == '"' {
      right := RightUnquoted(s[..|s| - 1]);
      right := right + [s[|s| - 1]];
      assert s == s[..|s| - 1] + [s[|s| - 1]];
    } else {
      right := "";
    }
  }

  /** `strings.Trim` with the quote gives the core with respect to quotes. */
  lemma UnquoteIff(s: string, core: string)
    ensures TrimQuotesRight(TrimQuotesLeft(s)) == core <==> IsCore(s, IsQuote, core)
  {
    hide TrimQuotesLeft, TrimQuotesRight;
    var left := LeftUnquoted(s);
    var right := RightUnquoted(TrimQuotesLeft(s));
    var trimmed := TrimQuotesRight(TrimQuotesLeft(s));
    assert s == left + trimmed + right;
    assert IsCore(s, IsQuote, trimmed) by {
      assert trimmed != "" ==> trimmed[0] == TrimQuotesLeft(s)[0];
    }
    if IsCore(s, IsQuote, core) {
      CoreOnce(s, IsQuote, core, trimmed);
    }
  }

  // ---- Links ------------------------------------------------------------------------------------------------

  /** The part, less white space, is a relation parameter with this value, less quotes. */
  ghost predicate Gives(part: string, text: string) {
    exists inner: string :: IsCore(part, IsSpace, "rel=" + inner) && IsCore(inner, IsQuote, text)
  }

  /** The relations are the words of the last part that gives some; there are none if no part does. */
  ghost predicate AreRelations(parts: seq<string>, rels: seq<string>) {
    || (rels == [] && forall i, text: string | 0 <= i < |parts| :: !Gives(parts[i], text))
    || exists i: nat, text: string :: LastGives(parts, i, text) && AreWords(text, rels)
  }

  ghost predicate LastGives(parts: seq<string>, i: nat, text: string) {
    && i < |parts| && Gives(parts[i], text)
    && forall j, other: string | i < j < |parts| :: !Gives(parts[j], other)
  }

  /** A segment is a link if it is a URL in angle brackets, which holds no closing one, and parameters after it. */
  ghost predicate IsLink(segment: string, link: Link) {
    && link.url != "" && '>' !in link.url
    && exists params: string, parts: seq<string> ::
         segment == "<" + link.url + ">" + params && AreParts(params, ';', parts) && AreRelations(parts, link.rels)
  }

  lemma GivesIff(part: string, text: string)
    ensures Gives(part, text) <==>
      && HasPrefix(TrimSpace(part), "rel=")
      && TrimQuotesRight(TrimQuotesLeft(TrimSpace(part)[4..])) == text
  {
    hide IsCore, TrimSpace, TrimQuotesLeft, TrimQuotesRight;
    var trimmed := TrimSpace(part);
    TrimIff(part, trimmed);
    if inner: string :| IsCore(part, IsSpace, "rel=" + inner) && IsCore(inner, IsQuote, text) {
      TrimIff(part, "rel=" + inner);
      assert ("rel=" + inner)[4..] == inner;
      UnquoteIff(inner, text);
    }
    if HasPrefix(trimmed, "rel=") && TrimQuotesRight(TrimQuotesLeft(trimmed[4..])) == text {
      assert trimmed == "rel=" + trimmed[4..];
      UnquoteIff(trimmed[4..], text);
    }
  }

  lemma {:induction false} RelsIff(parts: seq<string>, rels: seq<string>)
    ensures RelsOf(parts) == rels <==> AreRelations(parts, rels)
    decreases |parts|
  {
    hide Gives, AreWords, TrimSpace, TrimQuotesLeft, TrimQuotesRight, Fields;
    if parts != [] {
      var n := |parts| - 1;
      var trimmed := TrimSpace(parts[n]);
      if HasPrefix(trimmed, "rel=") {
        var value := TrimQuotesRight(TrimQuotesLeft(trimmed[4..]));
        GivesIff(parts[n], value);
        FieldsIff(value, rels);
        forall text: string | Gives(parts[n], text)
          ensures text == value
        {
          GivesIff(parts[n], text);
        }
        assert LastGives(parts, n, value);
      } else {
        forall text: string
          ensures !Gives(parts[n], text)
        {
          GivesIff(parts[n], text);
        }
        RelsIff(parts[..n], rels);
        SameRelations(parts, n, rels);
      }
    }
  }

  lemma SameRelations(parts: seq<string>, n: nat, rels: seq<string>)
    requires |parts| == n + 1 && forall text: string :: !Gives(parts[n], text)
    ensures AreRelations(parts, rels) <==> AreRelations(parts[..n], rels)
  {
    hide Gives, AreWords;
    var before := parts[..n];
    forall i: nat, text: string
      ensures LastGives(parts, i, text) <==> LastGives(before, i, text)
    {
    }
    assert forall i | 0 <= i < |before| :: before[i] == parts[i];
  }

  lemma ClosingAngle(segment: string, url: string, params: string)
    requires segment == "<" + url + ">" + params && '>' !in url
    ensures IndexFrom(segment, ">", 0) == Some(|url| + 1)
    ensures HasPrefix(segment, "<") && segment[1..|url| + 1] == url && segment[|url| + 2..] == params
  {
    var end := |url| + 1;
    assert segment[end] == '>' && segment[0] == '<';
    assert segment[1..end] == url && segment[end + 1..] == params;
    forall j | 0 <= j < end
      ensures !HasPrefix(segment[j..], ">")
    {
      if j > 0 {
        assert segment[j] == url[j - 1];
      }
    }
    IndexFromIs(segment, ">", 0, end);
  }

  lemma {:induction false} NoneBefore(s: string, c: char, from: nat)
    requires from <= |s|
    ensures var found := IndexFrom(s, [c], from);
            found.Some? ==> found.value < |s| && s[found.value] == c && c !in s[from..found.value]
    decreases |s| - from
  {
    if from < |s| && !HasPrefix(s[from..], [c]) {
      NoneBefore(s, c, from + 1);
      var found := IndexFrom(s, [c], from);
      if found.Some? {
        assert s[from..found.value] == [s[from]] + s[from + 1..found.value];
        assert s[from..][..1] == [s[from]];
      }
    }
  }

  /** A segment is read as a link if and only if it is written as that link. */
  lemma LinkIff(segment: string, link: Link)
    ensures LinkOf(segment) == Some(link) <==> IsLink(segment, link)
  {
    hide IndexFrom, Split, RelsOf, AreParts, AreRelations;
    if LinkOf(segment) == Some(link) {
      NoneBefore(segment, '>', 0);
      assert ['>'] == ">";
      var end := IndexFrom(segment, ">", 0).value;
      assert segment[0..end] == ['<'] + segment[1..end];
      assert link.url == segment[1..end] && '>' !in link.url;
      var params := segment[end + 1..];
      assert segment == "<" + link.url + ">" + params;
      var parts := Split(params, ';');
      SplitIff(params, ';', parts);
      RelsIff(parts, link.rels);
    }
    if IsLink(segment, link) {
      var params: string, parts: seq<string> :|
        segment == "<" + link.url + ">" + params && AreParts(params, ';', parts) && AreRelations(parts, link.rels);
      ClosingAngle(segment, link.url, params);
      SplitIff(params, ';', parts);
      RelsIff(parts, link.rels);
    }
  }

  // ---- Headers ----------------------------------------------------------------------------------------------

  lemma {:induction false} LinksJoin(segments: seq<string>, more: seq<string>)
    ensures LinksOf(segments + more) == LinksOf(segments) + LinksOf(more)
    decreases |more|
  {
    if more == [] {
      assert segments + more == segments;
    } else {
      var n := |more| - 1;
      assert (segments + more)[..|segments + more| - 1] == segments + more[..n];
      LinksJoin(segments, more[..n]);
    }
  }

  /** The links of a header are those of its values in order, and those of a value are those of its segments in order,
      where a segment that is no link gives nothing. */
  lemma {:induction false} HeaderJoins(values: seq<string>, more: seq<string>, value: string, segment: string)
    ensures Parsed(values + more) == Parsed(values) + Parsed(more)
    ensures Parsed([value]) == LinksOf(Segments(OUTSIDE, "", value))
    ensures LinksOf([segment]) == match LinkOf(segment) case Some(link) => [link] case None => []
    decreases |more|
  {
    assert [value][..0] == [] && [segment][..0] == [];
    assert Parsed([]) == [] && LinksOf([]) == [];
    hide LinkOf, Segments;
    if more == [] {
      assert values + more == values;
    } else {
      var n := |more| - 1;
      assert (values + more)[..|values + more| - 1] == values + more[..n];
      HeaderJoins(values, more[..n], value, segment);
    }
  }
}
