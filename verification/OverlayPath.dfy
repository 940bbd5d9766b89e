/** The JSONPath subset of pkg/overlay/apply.go: names, indices and equality filters
    (sections 2.3.1, 2.3.3 and 2.3.5 of RFC 9535). */
module OverlayPath {
  import opened Text
  import opened Wrappers

  datatype Token =
    | Field(name: string)
    | Index(index: int)
    | Filter(field: string, value: string)

  predicate IsIdentifier(c: char) {
    'a' <= c <= 'z' || 'A' <= c <= 'Z' || '0' <= c <= '9' || c == '_' || c == '-'
  }

  predicate AllIdentifier(s: string) {
    forall c | c in s :: IsIdentifier(c)
  }

  /** `\s` of the filter pattern. */
  predicate IsPatternSpace(c: char) {
    c == '\t' || c == '\n' || c == '\U{0C}' || c == '\r' || c == ' '
  }

  /** End of the longest run from `i` of characters that satisfy `p`. */
  function RunEnd(e: string, i: nat, p: char -> bool): (r: nat)
    requires i <= |e|
    ensures i <= r <= |e|
    decreases |e| - i
  {
    if i < |e| && p(e[i]) then RunEnd(e, i + 1, p) else i
  }

  lemma {:induction false} RunEndStops(e: string, i: nat, p: char -> bool, stop: nat)
    requires i <= stop < |e| && !p(e[stop])
    ensures RunEnd(e, i, p) <= stop
    decreases stop - i
  {
    if i < stop {
      RunEndStops(e, i + 1, p, stop);
    }
  }

  lemma {:induction false} RunEndIs(e: string, i: nat, p: char -> bool, end: nat)
    requires i <= end <= |e|
    requires forall j | i <= j < end :: p(e[j])
    requires end < |e| ==> !p(e[end])
    ensures RunEnd(e, i, p) == end
    decreases end - i
  {
    if i < end {
      RunEndIs(e, i + 1, p, end);
    }
  }

  /** `filterPattern.FindStringSubmatch`: `[?(@.` field `==` quoted value `)]`, anchored at both ends. */
  function ParseFilter(raw: string): Option<Token> {
    if !HasPrefix(raw, "[?(@.") then None
    else
      var nameEnd := RunEnd(raw, 5, IsIdentifier);
      if nameEnd == 5 then None
      else
        var op := RunEnd(raw, nameEnd, IsPatternSpace);
        if !HasPrefix(raw[op..], "==") then None
        else
          var open := RunEnd(raw, op + 2, IsPatternSpace);
          if !HasPrefix(raw[open..], "'") then None
          else
            var close := RunEnd(raw, open + 1, OtherThan('\''));
            if raw[close..] != "')]" then None
            else Some(Filter(raw[5..nameEnd], raw[open + 1..close]))
  }

  /** A name after a dot. */
  function ParseDotted(s: string): (r: Option<(Token, nat)>)
    requires s != ""
    ensures r.Some? ==> 0 < r.value.1 <= |s|
  {
    var end := RunEnd(s, 1, IsIdentifier);
    if end == 1 then None else Some((Field(s[1..end]), end))
  }

  /** A name between quotes; the second character of `s` is the quote. */
  function ParseQuoted(s: string): (r: Option<(Token, nat)>)
    requires |s| >= 2
    ensures r.Some? ==> 0 < r.value.1 <= |s|
  {
    var end := RunEnd(s, 2, OtherThan(s[1]));
    if end + 1 >= |s| || s[end + 1] != ']' then None else Some((Field(s[2..end]), end + 2))
  }

  function ParseFiltered(s: string): (r: Option<(Token, nat)>)
    ensures r.Some? ==> 0 < r.value.1 <= |s|
  {
    var end := IndexFrom(s, ")]", 0);
    if end.None? then None
    else
      var filter := ParseFilter(s[..end.value + 2]);
      if filter.None? then None else Some((filter.value, end.value + 2))
  }

  function ParseIndexed(s: string): (r: Option<(Token, nat)>)
    requires s != ""
    ensures r.Some? ==> 0 < r.value.1 <= |s|
  {
    var end := IndexFrom(s, "]", 1);
    if end.None? then None
    else
      var index := Atoi(s[1..end.value]);
      if index.None? then None else Some((Index(index.value), end.value + 1))
  }

  /** One round of the parse loop on the rest of the expression: the token read and its length. */
  function ParseToken(s: string): (r: Option<(Token, nat)>)
    requires s != ""
    ensures r.Some? ==> 0 < r.value.1 <= |s|
  {
    if s[0] == '.' then ParseDotted(s)
    else if s[0] != '[' then None
    else if HasPrefix(s, "['") || HasPrefix(s, "[\"") then ParseQuoted(s)
    else if HasPrefix(s, "[?(") then ParseFiltered(s)
    else ParseIndexed(s)
  }

  function ParseRest(s: string): Option<seq<Token>>
    decreases |s|
  {
    if s == "" then Some([])
    else
      var token := ParseToken(s);
      if token.None? then None else Prefixed([token.value.0], ParseRest(s[token.value.1..]))
  }

  function Prefixed(tokens: seq<Token>, rest: Option<seq<Token>>): Option<seq<Token>> {
    if rest.None? then None else Some(tokens + rest.value)
  }

  /** The value `parseJSONPath` returns, None where it returns an error. */
  function Parse(e: string): Option<seq<Token>> {
    if e == "" || e[0] != '$' then None else ParseRest(e[1..])
  }

  function OtherThan(quote: char): char -> bool {
    c => c != quote
  }

  lemma {:induction false} RunEndInSuffix(e: string, at: nat, i: nat, p: char -> bool)
    requires at + i <= |e|
    ensures RunEnd(e[at..], i, p) + at == RunEnd(e, at + i, p)
    decreases |e| - i
  {
    if at + i < |e| && p(e[at + i]) {
      RunEndInSuffix(e, at, i + 1, p);
    }
  }

  /** The inner loops of `parseJSONPath`: from `start`, advance while `p` holds. */
  method Scan(e: string, at: nat, start: nat, p: char -> bool) returns (i: nat)
    requires at <= start <= |e|
    ensures i == at + RunEnd(e[at..], start - at, p)
  {
    i := start;
    while i < |e| && p(e[i])
      invariant start <= i <= |e|
      invariant RunEnd(e, start, p) == RunEnd(e, i, p)
    {
      i := i + 1;
    }
    RunEndInSuffix(e, at, start - at, p);
  }

  /** The body of the parse loop: the token at `i` and the index after it. */
  method NextToken(e: string, i: nat) returns (next: Option<(Token, nat)>)
    requires i < |e|
    ensures next == Shifted(ParseToken(e[i..]), i)
  {
    var rest := e[i..];
    if e[i] == '.' {
      next := DottedName(e, i);
    } else if e[i] != '[' {
      next := None;
    } else if HasPrefix(rest, "['") || HasPrefix(rest, "[\"") {
      next := QuotedName(e, i);
    } else if HasPrefix(rest, "[?(") {
      next := Shifted(ParseFiltered(rest), i);
    } else {
      next := Shifted(ParseIndexed(rest), i);
    }
  }

  function Shifted(token: Option<(Token, nat)>, i: nat): Option<(Token, nat)> {
    if token.None? then None else Some((token.value.0, i + token.value.1))
  }

  method DottedName(e: string, i: nat) returns (next: Option<(Token, nat)>)
    requires i < |e|
    ensures next == Shifted(ParseDotted(e[i..]), i)
  {
    var end := Scan(e, i, i + 1, IsIdentifier);
    if end == i + 1 {
      return None;
    }
    SliceOfSuffix(e, i, 1, end - i);
    return Some((Field(e[i + 1..end]), end));
  }

  method QuotedName(e: string, i: nat) returns (next: Option<(Token, nat)>)
    requires i + 2 <= |e|
    ensures next == Shifted(ParseQuoted(e[i..]), i)
  {
    assert e[i..][1] == e[i + 1];
    var end := Scan(e, i, i + 2, OtherThan(e[i + 1]));
    if end >= |e| || end + 1 >= |e| || e[end + 1] != ']' {
      return None;
    }
    SliceOfSuffix(e, i, 2, end - i);
    return Some((Field(e[i + 2..end]), end + 2));
  }

  /** `parseJSONPath`: the index-driven scan over the expression. */
  method ParseJsonPath(e: string) returns (result: Option<seq<Token>>)
    ensures result == Parse(e)
  {
    if e == "" || e[0] != '$' {
      return None;
    }
    var tokens: seq<Token> := [];
    var i := 1;
    PrefixedByNothing(ParseRest(e[1..]));
    while i < |e|
      invariant 1 <= i <= |e|
      invariant Parse(e) == Prefixed(tokens, ParseRest(e[i..]))
    {
      ParseRestStep(e[i..], tokens);
      var next := NextToken(e, i);
      if next.None? {
        return None;
      }
      SuffixOfSuffix(e, i, next.value.1 - i);
      tokens := tokens + [next.value.0];
      i := next.value.1;
    }
    assert e[i..] == "";
    assert tokens + [] == tokens;
    result := Some(tokens);
  }

  lemma PrefixedByNothing(rest: Option<seq<Token>>)
    ensures Prefixed([], rest) == rest
  {
    if rest.Some? {
      assert [] + rest.value == rest.value;
    }
  }

  lemma ParseRestStep(s: string, tokens: seq<Token>)
    requires s != ""
    ensures var token := ParseToken(s);
            Prefixed(tokens, ParseRest(s)) ==
            if token.None? then None else Prefixed(tokens + [token.value.0], ParseRest(s[token.value.1..]))
  {
    var token := ParseToken(s);
    if token.Some? {
      PrefixedStep(tokens, token.value.0, ParseRest(s[token.value.1..]));
    }
  }

  lemma SuffixOfSuffix(e: string, i: nat, n: nat)
    requires i + n <= |e|
    ensures e[i..][n..] == e[i + n..]
  {
  }

  lemma SliceOfSuffix(e: string, i: nat, from: nat, to: nat)
    requires from <= to && i + to <= |e|
    ensures e[i..][from..to] == e[i + from..i + to]
  {
  }

  lemma PrefixedStep(tokens: seq<Token>, token: Token, rest: Option<seq<Token>>)
    ensures Prefixed(tokens, Prefixed([token], rest)) == Prefixed(tokens + [token], rest)
  {
    if rest.Some? {
      assert tokens + ([token] + rest.value) == tokens + [token] + rest.value;
    }
  }

  function Decimal(index: int): string {
    if index < 0 then "-" + Itoa(-index) else Itoa(index)
  }

  /** The canonical form of a token; a name may also be written after a dot. */
  function PrintToken(token: Token, dotted: bool): string {
    match token
    case Field(name) => if dotted then "." + name else "['" + name + "']"
    case Index(index) => "[" + Decimal(index) + "]"
    case Filter(field, value) => "[?(@." + field + " == '" + value + "')]"
  }

  function PrintTokens(tokens: seq<Token>, dotted: seq<bool>): string
    requires |dotted| == |tokens|
  {
    if tokens == [] then "" else PrintToken(tokens[0], dotted[0]) + PrintTokens(tokens[1..], dotted[1..])
  }

  function Print(tokens: seq<Token>, dotted: seq<bool>): string
    requires |dotted| == |tokens|
  {
    "$" + PrintTokens(tokens, dotted)
  }

  predicate Contains(s: string, sub: string) {
    exists j | 0 <= j <= |s| :: HasPrefix(s[j..], sub)
  }

  /** What the printed form of a token can carry. */
  predicate Printable(token: Token, dotted: bool) {
    match token
    case Field(name) => if dotted then name != "" && AllIdentifier(name) else '\'' !in name
    case Index(index) => -MAX_INT - 1 <= index <= MAX_INT
    case Filter(field, value) =>
      field != "" && AllIdentifier(field) && '\'' !in value && !Contains(value, ")]")
  }

  /** Printed text starts with a character that ends an identifier. */
  lemma PrintedStart(tokens: seq<Token>, dotted: seq<bool>)
    requires |dotted| == |tokens|
    ensures var s := PrintTokens(tokens, dotted);
            if tokens == [] then s == "" else s != "" && (s[0] == '.' || s[0] == '[')
  {
  }

  /** What may follow a printed token. */
  predicate StartsToken(rest: string) {
    rest == "" || rest[0] == '.' || rest[0] == '['
  }

  /** Names: the scan stops at the closing quote, or at the first character after a dotted identifier. */
  lemma NameParses(name: string, dotted: bool, rest: string)
    requires Printable(Field(name), dotted) && StartsToken(rest)
    ensures var printed := PrintToken(Field(name), dotted);
            ParseToken(printed + rest) == Some((Field(name), |printed|))
  {
    var printed := PrintToken(Field(name), dotted);
    var s := printed + rest;
    if dotted {
      assert s[1..|printed|] == name;
      assert forall j | 1 <= j < |printed| :: s[j] == name[j - 1];
      RunEndIs(s, 1, IsIdentifier, |printed|);
    } else {
      var end := 2 + |name|;
      assert s[..2] == "['" && s[2..end] == name && s[end..end + 2] == "']";
      assert s[end] == s[end..end + 2][0] && s[end + 1] == s[end..end + 2][1] && s[1] == s[..2][1];
      assert forall j | 2 <= j < end :: s[j] == name[j - 2];
      RunEndIs(s, 2, OtherThan(s[1]), end);
    }
  }

  /** A two-character prefix, character by character. */
  lemma Prefix2(s: string, prefix: string)
    requires |prefix| == 2
    ensures HasPrefix(s, prefix) <==> |s| >= 2 && s[0] == prefix[0] && s[1] == prefix[1]
  {
  }

  lemma Prefix3(s: string, prefix: string)
    requires |prefix| == 3
    ensures HasPrefix(s, prefix) <==> |s| >= 3 && s[0] == prefix[0] && s[1] == prefix[1] && s[2] == prefix[2]
  {
  }

  lemma IndexParses(index: int, rest: string)
    requires Printable(Index(index), false)
    ensures var printed := PrintToken(Index(index), false);
            ParseToken(printed + rest) == Some((Index(index), |printed|))
  {
    DecimalParses(index);
    DigitsInBrackets("[" + Decimal(index) + "]" + rest, Decimal(index), rest);
  }

  lemma DigitsInBrackets(s: string, digits: string, rest: string)
    requires digits != []
    requires forall k | 0 <= k < |digits| :: digits[k] == '-' || digits[k] == '+' || IsDigit(digits[k])
    requires s == "[" + digits + "]" + rest
    requires Atoi(digits).Some?
    ensures ParseToken(s) == Some((Index(Atoi(digits).value), |digits| + 2))
  {
    var end := 1 + |digits|;
    assert s[1..end] == digits;
    forall j | 1 <= j < end
      ensures !HasPrefix(s[j..], "]")
    {
      assert s[j] == digits[j - 1];
    }
    assert s[end] == ']';
    IndexFromIs(s, "]", 1, end);
    assert s[1] == digits[0];
    Prefix2(s, "['");
    Prefix2(s, "[\"");
    Prefix3(s, "[?(");
  }

  lemma DecimalParses(index: int)
    requires -MAX_INT - 1 <= index <= MAX_INT
    ensures Atoi(Decimal(index)) == Some(index)
    ensures Decimal(index) != []
    ensures forall k | 0 <= k < |Decimal(index)| :: Decimal(index)[k] == '-' || IsDigit(Decimal(index)[k])
  {
    if index < 0 {
      var digits := Decimal(index);
      assert digits[1..] == Itoa(-index);
      assert forall k | 1 <= k < |digits| :: digits[k] == Itoa(-index)[k - 1];
    } else {
      AtoiInvertsItoa(index);
    }
  }

  /** Where the parts of a printed filter lie. */
  lemma FilterLayout(field: string, value: string, s: string) returns (op: nat, open: nat, close: nat)
    requires s == PrintToken(Filter(field, value), false)
    ensures op == 5 + |field| && open == op + 4 && close == open + 1 + |value| && |s| == close + 3
    ensures s[..5] == "[?(@." && s[5..op] == field && s[op..open + 1] == " == '"
    ensures s[open + 1..close] == value && s[close..] == "')]"
  {
    op := 5 + |field|;
    open := op + 4;
    close := open + 1 + |value|;
  }

  lemma PrintedFilterMatches(field: string, value: string)
    requires Printable(Filter(field, value), false)
    ensures ParseFilter(PrintToken(Filter(field, value), false)) == Some(Filter(field, value))
  {
    var s := PrintToken(Filter(field, value), false);
    var op, open, close := FilterLayout(field, value, s);
    var middle := s[op..open + 1];
    assert s[op] == middle[0] && s[op + 1] == middle[1] && s[op + 2] == middle[2];
    assert s[op + 3] == middle[3] && s[open] == middle[4];
    assert s[close] == s[close..][0];
    assert forall j | 5 <= j < op :: s[j] == s[5..op][j - 5];
    assert forall j | open + 1 <= j < close :: s[j] == s[open + 1..close][j - open - 1];
    FilterMatches(s, op, open, close);
  }

  /** The pattern, given where each part of the text begins. */
  lemma FilterMatches(s: string, op: nat, open: nat, close: nat)
    requires 5 < op && open == op + 4 && open < close <= |s|
    requires HasPrefix(s, "[?(@.") && s[close..] == "')]"
    requires forall j | 5 <= j < op :: IsIdentifier(s[j])
    requires s[op] == ' ' && s[op + 1] == '=' && s[op + 2] == '=' && s[op + 3] == ' ' && s[open] == '\''
    requires forall j | open < j < close :: s[j] != '\''
    ensures ParseFilter(s) == Some(Filter(s[5..op], s[open + 1..close]))
  {
    assert s[close] == s[close..][0];
    RunEndIs(s, 5, IsIdentifier, op);
    RunEndIs(s, op, IsPatternSpace, op + 1);
    Prefix2(s[op + 1..], "==");
    RunEndIs(s, op + 3, IsPatternSpace, open);
    assert s[open..][..1] == "'";
    RunEndIs(s, open + 1, OtherThan('\''), close);
  }

  /** `)]` occurs in a printed filter only at its end. */
  lemma FilterEndsOnce(field: string, value: string, s: string, j: nat)
    requires Printable(Filter(field, value), false)
    requires s == PrintToken(Filter(field, value), false) && j + 2 < |s|
    ensures !(s[j] == ')' && s[j + 1] == ']')
  {
    var op, open, close := FilterLayout(field, value, s);
    if j < 5 {
      assert s[j] == s[..5][j];
    } else if j < op {
      assert s[j] == s[5..op][j - 5] == field[j - 5];
      assert field[j - 5] in field;
    } else if j <= open {
      assert s[j] == s[op..open + 1][j - op];
    } else if j + 1 < close {
      assert !HasPrefix(value[j - open - 1..], ")]");
      assert s[j] == value[j - open - 1] && s[j + 1] == value[j - open];
      assert value[j - open - 1..][..2] == [s[j], s[j + 1]];
    } else {
      assert s[close] == s[close..][0];
    }
  }

  lemma FilterParses(field: string, value: string, rest: string)
    requires Printable(Filter(field, value), false)
    ensures var printed := PrintToken(Filter(field, value), false);
            ParseToken(printed + rest) == Some((Filter(field, value), |printed|))
  {
    var printed := PrintToken(Filter(field, value), false);
    var op, open, close := FilterLayout(field, value, printed);
    PrintedFilterMatches(field, value);
    FilterEndFound(field, value, printed, printed + rest);
    FilteredParses(printed, rest, Filter(field, value));
  }

  lemma FilteredParses(printed: string, rest: string, filter: Token)
    requires |printed| >= 5 && printed[..5] == "[?(@." && ParseFilter(printed) == Some(filter)
    requires IndexFrom(printed + rest, ")]", 0) == Some(|printed| - 2)
    ensures ParseToken(printed + rest) == Some((filter, |printed|))
  {
    var s := printed + rest;
    assert s[..|printed|] == printed;
    assert s[..5] == "[?(@.";
    assert s[0] == s[..5][0] && s[1] == s[..5][1] && s[2] == s[..5][2];
    Prefix2(s, "['");
    Prefix2(s, "[\"");
    Prefix3(s, "[?(");
  }

  lemma FilterEndFound(field: string, value: string, printed: string, s: string)
    requires Printable(Filter(field, value), false) && printed == PrintToken(Filter(field, value), false)
    requires printed <= s
    ensures IndexFrom(s, ")]", 0) == Some(|printed| - 2)
  {
    var end := |printed| - 2;
    var op, open, close := FilterLayout(field, value, printed);
    forall j | 0 <= j < end
      ensures !HasPrefix(s[j..], ")]")
    {
      FilterEndsOnce(field, value, printed, j);
      Prefix2(s[j..], ")]");
    }
    assert s[end] == printed[close..][1] && s[end + 1] == printed[close..][2];
    Prefix2(s[end..], ")]");
    IndexFromIs(s, ")]", 0, end);
  }

  lemma TokenParses(token: Token, dotted: bool, rest: string)
    requires Printable(token, dotted) && StartsToken(rest)
    ensures ParseToken(PrintToken(token, dotted) + rest) == Some((token, |PrintToken(token, dotted)|))
  {
    match token
    case Field(name) => NameParses(name, dotted, rest);
    case Index(index) => IndexParses(index, rest);
    case Filter(field, value) => FilterParses(field, value, rest);
  }

  lemma {:induction false} TokensParse(tokens: seq<Token>, dotted: seq<bool>)
    requires |dotted| == |tokens| && forall k | 0 <= k < |tokens| :: Printable(tokens[k], dotted[k])
    ensures ParseRest(PrintTokens(tokens, dotted)) == Some(tokens)
    decreases |tokens|
  {
    if tokens == [] {
    } else {
      var printed := PrintToken(tokens[0], dotted[0]);
      var rest := PrintTokens(tokens[1..], dotted[1..]);
      PrintedStart(tokens[1..], dotted[1..]);
      TokenParses(tokens[0], dotted[0], rest);
      TokensParse(tokens[1..], dotted[1..]);
      assert PrintTokens(tokens, dotted) == printed + rest;
      assert (printed + rest)[|printed|..] == rest;
      assert [tokens[0]] + tokens[1..] == tokens;
    }
  }

  /** Parsing inverts printing, whichever names are written after a dot. */
  lemma ParseInvertsPrint(tokens: seq<Token>, dotted: seq<bool>)
    requires |dotted| == |tokens| && forall i | 0 <= i < |tokens| :: Printable(tokens[i], dotted[i])
    ensures Parse(Print(tokens, dotted)) == Some(tokens)
  {
    TokensParse(tokens, dotted);
  }

  lemma PrintedAlone(token: Token, dotted: bool)
    ensures PrintTokens([token], [dotted]) == PrintToken(token, dotted)
  {
    assert [token][1..] == [] && [dotted][1..] == [];
    assert PrintTokens([], []) == "";
  }

  /** A quoted name survives exactly when it holds no single quote. */
  lemma QuotedNameSurvivesIff(name: string)
    ensures Parse(Print([Field(name)], [false])) == Some([Field(name)]) <==> '\'' !in name
  {
    if '\'' !in name {
      ParseInvertsPrint([Field(name)], [false]);
    } else {
      var s := PrintTokens([Field(name)], [false]);
      PrintedAlone(Field(name), false);
      assert s == "['" + name + "']";
      assert s[..2] == "['";
      var j :| 0 <= j < |name| && name[j] == '\'';
      assert s[2 + j] == name[j] == s[..2][1] == s[1];
      RunEndStops(s, 2, OtherThan(s[1]), 2 + j);
    }
  }
}
