/** Which text spells which path expression. */
module OverlayGrammar {
  import opened Text
  import opened Wrappers
  import opened OverlayPath

  // A grammar apart from the loop that reads expressions. `ParseIff` shows that `parseJSONPath` accepts exactly what it
  // spells, and reads it as that.

  predicate AllBlank(s: string) {
    forall i | 0 <= i < |s| :: IsPatternSpace(s[i])
  }

  function FilterText(field: string, before: string, after: string, value: string): string {
    "[?(@." + field + before + "==" + after + "'" + value + "')]"
  }

  /** The text stands for the token. A name comes after a dot if it is an identifier, or in brackets between quotes of
      either kind that it does not hold; an index is what `strconv.Atoi` reads; a filter may have blanks around its
      `==`, and its value holds neither a single quote nor `)]`. */
  ghost predicate Spells(text: string, token: Token) {
    match token
    case Field(name) =>
      || (text == "." + name && name != "" && AllIdentifier(name))
      || (text == "['" + name + "']" && '\'' !in name)
      || (text == "[\"" + name + "\"]" && '"' !in name)
    case Index(index) =>
      |text| >= 2 && text == "[" + text[1..|text| - 1] + "]" && Atoi(text[1..|text| - 1]) == Some(index)
    case Filter(field, value) =>
      && field != "" && AllIdentifier(field) && '\'' !in value && !Contains(value, ")]")
      && exists before: string, after: string ::
           AllBlank(before) && AllBlank(after) && text == FilterText(field, before, after, value)
  }

  function Concat(texts: seq<string>): string {
    if texts == [] then "" else texts[0] + Concat(texts[1..])
  }

  ghost predicate SpellAll(texts: seq<string>, tokens: seq<Token>) {
    |texts| == |tokens| && forall i | 0 <= i < |texts| :: Spells(texts[i], tokens[i])
  }

  /** A path expression for the tokens: a dollar sign and a text for each. */
  ghost predicate IsExpression(e: string, tokens: seq<Token>) {
    exists texts: seq<string> :: SpellAll(texts, tokens) && e == "$" + Concat(texts)
  }

  // ---- What is read is spelled ------------------------------------------------------------------------------

  lemma {:induction false} RunHolds(e: string, i: nat, p: char -> bool)
    requires i <= |e|
    ensures var r := RunEnd(e, i, p);
            (forall j | i <= j < r :: p(e[j])) && (r < |e| ==> !p(e[r]))
    decreases |e| - i
  {
    if i < |e| && p(e[i]) {
      RunHolds(e, i + 1, p);
    }
  }

  lemma {:induction false} FoundFirst(s: string, sub: string, from: nat)
    requires from <= |s|
    ensures var r := IndexFrom(s, sub, from);
            && (r.Some? ==> HasPrefix(s[r.value..], sub))
            && forall j | from <= j < (if r.Some? then r.value else |s| + 1) :: !HasPrefix(s[j..], sub)
    decreases |s| - from
  {
    if !HasPrefix(s[from..], sub) && from < |s| {
      FoundFirst(s, sub, from + 1);
    }
  }

  lemma DottedSpells(s: string)
    requires s != "" && s[0] == '.' && ParseDotted(s).Some?
    ensures var (token, n) := ParseDotted(s).value; Spells(s[..n], token)
  {
    var n := RunEnd(s, 1, IsIdentifier);
    RunHolds(s, 1, IsIdentifier);
    assert s[..n] == "." + s[1..n];
  }

  lemma QuotedSpells(s: string)
    requires (HasPrefix(s, "['") || HasPrefix(s, "[\"")) && ParseQuoted(s).Some?
    ensures var (token, n) := ParseQuoted(s).value; Spells(s[..n], token)
  {
    var end := RunEnd(s, 2, OtherThan(s[1]));
    RunHolds(s, 2, OtherThan(s[1]));
    assert s[..2] == "['" || s[..2] == "[\"";
    assert s[..end + 2] == s[..2] + s[2..end] + [s[1], ']'];
    if HasPrefix(s, "['") {
      assert s[..2][1] == s[1];
      assert s[..end + 2] == "['" + s[2..end] + "']";
    } else {
      assert s[..2][1] == s[1];
      assert s[..end + 2] == "[\"" + s[2..end] + "\"]";
    }
  }

  lemma IndexedSpells(s: string)
    requires s != "" && s[0] == '[' && ParseIndexed(s).Some?
    ensures var (token, n) := ParseIndexed(s).value; Spells(s[..n], token)
  {
    FoundFirst(s, "]", 1);
    var end := IndexFrom(s, "]", 1).value;
    assert s[end..][..1] == "]";
    var text := s[..end + 1];
    assert text[1..|text| - 1] == s[1..end];
    assert text == "[" + s[1..end] + "]";
  }

  lemma Joins(s: string, i: nat, j: nat, k: nat)
    requires i <= j <= k <= |s|
    ensures s[i..j] + s[j..k] == s[i..k]
  {
  }

  lemma FilterLayout(raw: string, nameEnd: nat, op: nat, open: nat, close: nat)
    requires 5 <= nameEnd <= op && op + 2 <= open && open + 1 <= close <= |raw|
    requires raw[0..5] == "[?(@." && raw[op..op + 2] == "==" && raw[open..open + 1] == "'" && raw[close..|raw|] == "')]"
    ensures raw == FilterText(raw[5..nameEnd], raw[nameEnd..op], raw[op + 2..open], raw[open + 1..close])
  {
    Joins(raw, 0, 5, nameEnd);
    Joins(raw, 0, nameEnd, op);
    Joins(raw, 0, op, op + 2);
    Joins(raw, 0, op + 2, open);
    Joins(raw, 0, open, open + 1);
    Joins(raw, 0, open + 1, close);
    Joins(raw, 0, close, |raw|);
    assert raw[0..|raw|] == raw;
  }

  lemma FilterCuts(raw: string) returns (nameEnd: nat, op: nat, open: nat, close: nat)
    requires ParseFilter(raw).Some?
    ensures HasPrefix(raw, "[?(@.") && 5 < nameEnd <= op && op + 2 <= open && open + 1 <= close <= |raw|
    ensures nameEnd == RunEnd(raw, 5, IsIdentifier) && op == RunEnd(raw, nameEnd, IsPatternSpace)
    ensures open == RunEnd(raw, op + 2, IsPatternSpace) && close == RunEnd(raw, open + 1, OtherThan('\''))
    ensures HasPrefix(raw[op..], "==") && HasPrefix(raw[open..], "'") && raw[close..] == "')]"
    ensures ParseFilter(raw) == Some(Filter(raw[5..nameEnd], raw[open + 1..close]))
  {
    hide RunEnd;
    nameEnd := RunEnd(raw, 5, IsIdentifier);
    op := RunEnd(raw, nameEnd, IsPatternSpace);
    open := RunEnd(raw, op + 2, IsPatternSpace);
    close := RunEnd(raw, open + 1, OtherThan('\''));
  }

  lemma AllOver(s: string, i: nat, j: nat, p: char -> bool)
    requires i <= j <= |s| && j == RunEnd(s, i, p)
    ensures forall c | c in s[i..j] :: p(c)
  {
    RunHolds(s, i, p);
  }

  /** The parts that the filter pattern finds. */
  lemma FilterParts(raw: string) returns (field: string, before: string, after: string, value: string)
    requires ParseFilter(raw).Some?
    ensures ParseFilter(raw) == Some(Filter(field, value)) && raw == FilterText(field, before, after, value)
    ensures field != "" && AllIdentifier(field) && '\'' !in value && AllBlank(before) && AllBlank(after)
  {
    hide RunEnd, FilterText, ParseFilter, HasPrefix;
    var nameEnd, op, open, close := FilterCuts(raw);
    AllOver(raw, 5, nameEnd, IsIdentifier);
    AllOver(raw, nameEnd, op, IsPatternSpace);
    AllOver(raw, op + 2, open, IsPatternSpace);
    AllOver(raw, open + 1, close, OtherThan('\''));
    field, before, after, value := raw[5..nameEnd], raw[nameEnd..op], raw[op + 2..open], raw[open + 1..close];
    HasPrefixAt(raw, "[?(@.", 0);
    assert raw[0..] == raw;
    HasPrefixAt(raw, "==", op);
    HasPrefixAt(raw, "'", open);
    assert raw[close..|raw|] == raw[close..];
    FilterLayout(raw, nameEnd, op, open, close);
  }

  lemma HasPrefixAt(s: string, sub: string, at: nat)
    requires at + |sub| <= |s|
    ensures HasPrefix(s[at..], sub) <==> s[at..at + |sub|] == sub
  {
    assert s[at..][..|sub|] == s[at..at + |sub|];
  }

  /** What ends a filter would be found too early if the value held it. */
  lemma FoundInValue(field: string, before: string, after: string, value: string, j: nat) returns (at: nat)
    requires j <= |value| && HasPrefix(value[j..], ")]")
    ensures var text := FilterText(field, before, after, value);
            at + 2 < |text| && text[at..at + 2] == ")]"
  {
    var head := "[?(@." + field + before + "==" + after + "'";
    at := |head| + j;
    HasPrefixAt(value, ")]", j);
    var text := head + value + "')]";
    assert text[at..at + 2] == value[j..j + 2];
  }

  lemma FilteredSpells(s: string)
    requires HasPrefix(s, "[?(") && ParseFiltered(s).Some?
    ensures var (token, n) := ParseFiltered(s).value; Spells(s[..n], token)
  {
    hide IndexFrom, ParseFilter, FilterText;
    FoundFirst(s, ")]", 0);
    var end := IndexFrom(s, ")]", 0).value;
    var raw := s[..end + 2];
    var field, before, after, value := FilterParts(raw);
    if Contains(value, ")]") {
      var j :| 0 <= j <= |value| && HasPrefix(value[j..], ")]");
      var at := FoundInValue(field, before, after, value, j);
      assert s[at..at + 2] == raw[at..at + 2];
      HasPrefixAt(s, ")]", at);
    }
  }

  lemma ReadSpells(s: string)
    requires s != "" && ParseToken(s).Some?
    ensures var (token, n) := ParseToken(s).value; Spells(s[..n], token)
  {
    hide Spells, ParseDotted, ParseQuoted, ParseFiltered, ParseIndexed;
    if s[0] == '.' {
      DottedSpells(s);
    } else if HasPrefix(s, "['") || HasPrefix(s, "[\"") {
      QuotedSpells(s);
    } else if HasPrefix(s, "[?(") {
      FilteredSpells(s);
    } else {
      IndexedSpells(s);
    }
  }

  // ---- What is spelled is read ------------------------------------------------------------------------------

  lemma DoubleQuotedReads(name: string, rest: string)
    requires '"' !in name
    ensures ParseToken("[\"" + name + "\"]" + rest) == Some((Field(name), |name| + 4))
  {
    var s, end := "[\"" + name + "\"]" + rest, 2 + |name|;
    assert s[..2] == "[\"" && s[2..end] == name && s[end..end + 2] == "\"]";
    assert s[end] == s[end..end + 2][0] && s[end + 1] == s[end..end + 2][1] && s[1] == s[..2][1] && s[0] == s[..2][0];
    assert forall j | 2 <= j < end :: s[j] == name[j - 2];
    RunEndIs(s, 2, OtherThan(s[1]), end);
  }

  lemma IndexReads(text: string, index: int, rest: string)
    requires Spells(text, Index(index))
    ensures ParseToken(text + rest) == Some((Index(index), |text|))
  {
    var digits := text[1..|text| - 1];
    assert forall k | 0 <= k < |digits| :: digits[k] == '-' || digits[k] == '+' || IsDigit(digits[k]) by {
      forall k | 0 <= k < |digits| ensures digits[k] == '-' || digits[k] == '+' || IsDigit(digits[k]) {
        if k > 0 {
          assert digits[k] == digits[1..][k - 1];
        }
      }
    }
    DigitsInBrackets(text + rest, digits, rest);
  }

  /** Where the parts of a filter text lie. */
  lemma FilterPlaces(field: string, before: string, after: string, value: string)
    returns (text: string, nameEnd: nat, op: nat, open: nat, close: nat)
    ensures text == FilterText(field, before, after, value)
    ensures nameEnd == 5 + |field| && op == nameEnd + |before| && open == op + 2 + |after|
    ensures close == open + 1 + |value|
    ensures |text| == close + 3
    ensures text[..5] == "[?(@." && text[5..nameEnd] == field && text[nameEnd..op] == before
    ensures text[op..op + 2] == "==" && text[op + 2..open] == after && text[open..open + 1] == "'"
    ensures text[open + 1..close] == value && text[close..] == "')]"
  {
    text := FilterText(field, before, after, value);
    nameEnd := 5 + |field|;
    op := nameEnd + |before|;
    open := op + 2 + |after|;
    close := open + 1 + |value|;
    var a := "[?(@." + field;
    var b := a + before;
    var c := b + "==";
    var d := c + after;
    var e := d + "'";
    var f := e + value;
    assert text == f + "')]" && |f| == close && |e| == open + 1 && |d| == open && |c| == op + 2 && |b| == op;
    assert text[..5] == "[?(@." && text[5..nameEnd] == field && text[nameEnd..op] == before;
  }

  lemma SliceAt(s: string, i: nat, j: nat, part: string, k: nat)
    requires j <= |s| && i <= k < j && s[i..j] == part
    ensures |part| == j - i && s[k] == part[k - i]
  {
    assert s[i..j][k - i] == s[k];
  }

  /** A run of characters of one kind that ends where it is said to. */
  lemma RunIs(s: string, i: nat, p: char -> bool, part: string)
    requires i + |part| < |s| && s[i..i + |part|] == part
    requires (forall k | 0 <= k < |part| :: p(part[k])) && !p(s[i + |part|])
    ensures RunEnd(s, i, p) == i + |part|
  {
    forall j | i <= j < i + |part|
      ensures p(s[j])
    {
      SliceAt(s, i, i + |part|, part, j);
    }
    RunEndIs(s, i, p, i + |part|);
  }

  predicate FilterCanSay(field: string, before: string, after: string, value: string) {
    && field != "" && AllIdentifier(field) && '\'' !in value && !Contains(value, ")]")
    && AllBlank(before) && AllBlank(after)
  }

  /** The pattern, given where its parts end. */
  lemma FilterFrom(raw: string, nameEnd: nat, op: nat, open: nat, close: nat)
    requires HasPrefix(raw, "[?(@.") && 5 < nameEnd <= op && op + 2 <= open && open + 1 <= close <= |raw|
    requires nameEnd == RunEnd(raw, 5, IsIdentifier) && op == RunEnd(raw, nameEnd, IsPatternSpace)
    requires open == RunEnd(raw, op + 2, IsPatternSpace) && close == RunEnd(raw, open + 1, OtherThan('\''))
    requires HasPrefix(raw[op..], "==") && HasPrefix(raw[open..], "'") && raw[close..] == "')]"
    ensures ParseFilter(raw) == Some(Filter(raw[5..nameEnd], raw[open + 1..close]))
  {
    hide RunEnd;
  }

  lemma FilterRuns(text: string, field: string, before: string, after: string, value: string,
                   nameEnd: nat, op: nat, open: nat, close: nat)
    requires AllIdentifier(field) && '\'' !in value && AllBlank(before) && AllBlank(after)
    requires nameEnd == 5 + |field| && op == nameEnd + |before| && open == op + 2 + |after|
    requires close == open + 1 + |value| && |text| == close + 3
    requires text[5..nameEnd] == field && text[nameEnd..op] == before && text[op..op + 2] == "=="
    requires text[op + 2..open] == after && text[open..open + 1] == "'"
    requires text[open + 1..close] == value && text[close..] == "')]"
    ensures nameEnd == RunEnd(text, 5, IsIdentifier) && op == RunEnd(text, nameEnd, IsPatternSpace)
    ensures open == RunEnd(text, op + 2, IsPatternSpace) && close == RunEnd(text, open + 1, OtherThan('\''))
  {
    hide RunEnd;
    SliceAt(text, op, op + 2, "==", op);
    SliceAt(text, open, open + 1, "'", open);
    assert text[close] == text[close..][0];
    if before != "" {
      SliceAt(text, nameEnd, op, before, nameEnd);
    }
    RunIs(text, 5, IsIdentifier, field);
    RunIs(text, nameEnd, IsPatternSpace, before);
    RunIs(text, op + 2, IsPatternSpace, after);
    RunIs(text, open + 1, OtherThan('\''), value);
  }

  lemma FilterTextMatches(field: string, before: string, after: string, value: string)
    requires FilterCanSay(field, before, after, value)
    ensures ParseFilter(FilterText(field, before, after, value)) == Some(Filter(field, value))
  {
    hide RunEnd, FilterText, Contains, ParseFilter, HasPrefix, AllIdentifier, AllBlank;
    var text, nameEnd, op, open, close := FilterPlaces(field, before, after, value);
    FilterRuns(text, field, before, after, value, nameEnd, op, open, close);
    HasPrefixAt(text, "==", op);
    HasPrefixAt(text, "'", open);
    StartsWith(text, "[?(@.");
    FilterFrom(text, nameEnd, op, open, close);
  }

  lemma StartsWith(s: string, prefix: string)
    requires |prefix| <= |s| && s[..|prefix|] == prefix
    ensures HasPrefix(s, prefix)
  {
  }

  /** The characters of a filter text, one by one. */
  function FilterChar(field: string, before: string, after: string, value: string, j: nat): char {
    var nameEnd, op := 5 + |field|, 5 + |field| + |before|;
    var open := op + 2 + |after|;
    if j < 5 then "[?(@."[j]
    else if j < nameEnd then field[j - 5]
    else if j < op then before[j - nameEnd]
    else if j < op + 2 then '='
    else if j < open then after[j - op - 2]
    else if j == open then '\''
    else if j < open + 1 + |value| then value[j - open - 1]
    else if j == open + 1 + |value| then '\''
    else if j == open + 2 + |value| then ')'
    else ']'
  }

  lemma FilterCharIs(field: string, before: string, after: string, value: string, j: nat)
    requires j < |FilterText(field, before, after, value)|
    ensures FilterText(field, before, after, value)[j] == FilterChar(field, before, after, value, j)
  {
    hide FilterText;
    var text, nameEnd, op, open, close := FilterPlaces(field, before, after, value);
    if j < 5 {
      assert text[j] == text[..5][j];
    } else if j < nameEnd {
      SliceAt(text, 5, nameEnd, field, j);
    } else if j < op {
      SliceAt(text, nameEnd, op, before, j);
    } else if j < op + 2 {
      SliceAt(text, op, op + 2, "==", j);
    } else if j < open {
      SliceAt(text, op + 2, open, after, j);
    } else if j == open {
      SliceAt(text, open, open + 1, "'", j);
    } else if j < close {
      SliceAt(text, open + 1, close, value, j);
    } else {
      assert text[j] == text[close..][j - close];
    }
  }

  /** A filter text has its end nowhere else. */
  lemma FilterTextEnds(field: string, before: string, after: string, value: string, j: nat)
    requires FilterCanSay(field, before, after, value)
    requires j + 2 < |FilterText(field, before, after, value)|
    ensures var text := FilterText(field, before, after, value); !(text[j] == ')' && text[j + 1] == ']')
  {
    hide FilterText, Contains, HasPrefix;
    FilterCharIs(field, before, after, value, j);
    FilterCharIs(field, before, after, value, j + 1);
    var text, nameEnd, op, open, close := FilterPlaces(field, before, after, value);
    if 5 <= j < nameEnd {
      assert field[j - 5] in field;
    } else if open < j && j + 1 < close {
      NotInside(value, j - open - 1);
    }
  }

  lemma NotInside(value: string, j: nat)
    requires !Contains(value, ")]") && j + 1 < |value|
    ensures !(value[j] == ')' && value[j + 1] == ']')
  {
    assert !HasPrefix(value[j..], ")]");
    Prefix2(value[j..], ")]");
  }

  lemma FilterReads(field: string, before: string, after: string, value: string, rest: string)
    requires FilterCanSay(field, before, after, value)
    ensures var text := FilterText(field, before, after, value);
            ParseToken(text + rest) == Some((Filter(field, value), |text|))
  {
    hide FilterText, FilterCanSay, ParseToken, ParseFilter, IndexFrom;
    var text, nameEnd, op, open, close := FilterPlaces(field, before, after, value);
    var s, end := text + rest, |text| - 2;
    forall j | 0 <= j < end
      ensures !HasPrefix(s[j..], ")]")
    {
      FilterTextEnds(field, before, after, value, j);
      Prefix2(s[j..], ")]");
    }
    assert s[end] == text[close..][1] && s[end + 1] == text[close..][2];
    Prefix2(s[end..], ")]");
    IndexFromIs(s, ")]", 0, end);
    FilterTextMatches(field, before, after, value);
    FilteredParses(text, rest, Filter(field, value));
  }

  /** Whatever spells a token is read as that token, before another token or at the end. */
  lemma SpelledReads(text: string, token: Token, rest: string)
    requires Spells(text, token) && StartsToken(rest)
    ensures ParseToken(text + rest) == Some((token, |text|)) && text != "" && (text[0] == '.' || text[0] == '[')
  {
    hide ParseToken, FilterText;
    match token
    case Field(name) =>
      if text == "." + name && name != "" && AllIdentifier(name) {
        NameParses(name, true, rest);
      } else if text == "['" + name + "']" && '\'' !in name {
        NameParses(name, false, rest);
      } else {
        DoubleQuotedReads(name, rest);
      }
    case Index(index) =>
      IndexReads(text, index, rest);
    case Filter(field, value) =>
      var before: string, after: string :|
        AllBlank(before) && AllBlank(after) && text == FilterText(field, before, after, value);
      FilterReads(field, before, after, value, rest);
      var place, nameEnd, op, open, close := FilterPlaces(field, before, after, value);
      assert text[0] == text[..5][0];
  }

  // ---- Whole expressions ------------------------------------------------------------------------------------

  lemma {:induction false} TextsRead(texts: seq<string>, tokens: seq<Token>)
    requires SpellAll(texts, tokens)
    ensures StartsToken(Concat(texts)) && ParseRest(Concat(texts)) == Some(tokens)
    decreases |texts|
  {
    if texts != [] {
      hide Spells, ParseToken;
      var text, rest := texts[0], Concat(texts[1..]);
      assert SpellAll(texts[1..], tokens[1..]);
      TextsRead(texts[1..], tokens[1..]);
      SpelledReads(text, tokens[0], rest);
      assert (text + rest)[|text|..] == rest;
      assert [tokens[0]] + tokens[1..] == tokens;
    }
  }

  lemma {:induction false} ReadTexts(s: string) returns (texts: seq<string>)
    requires ParseRest(s).Some?
    ensures SpellAll(texts, ParseRest(s).value) && s == Concat(texts)
    decreases |s|
  {
    hide Spells, ParseToken;
    if s == "" {
      texts := [];
    } else {
      var (token, n) := ParseToken(s).value;
      ReadSpells(s);
      var rest := ReadTexts(s[n..]);
      texts := [s[..n]] + rest;
      assert texts[1..] == rest && s == s[..n] + s[n..];
      assert ParseRest(s).value == [token] + ParseRest(s[n..]).value;
    }
  }

  /** An expression is read as these tokens if and only if the grammar spells them so. Hence what the grammar does not
      spell is refused, and nothing is spelled in two ways. */
  lemma ParseIff(e: string, tokens: seq<Token>)
    ensures Parse(e) == Some(tokens) <==> IsExpression(e, tokens)
  {
    hide Spells, SpellAll, ParseRest, Concat;
    if Parse(e) == Some(tokens) {
      var texts := ReadTexts(e[1..]);
      assert e == "$" + Concat(texts);
    }
    if IsExpression(e, tokens) {
      var texts :| SpellAll(texts, tokens) && e == "$" + Concat(texts);
      TextsRead(texts, tokens);
      assert e[1..] == Concat(texts);
    }
  }
}
