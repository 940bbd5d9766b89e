/** What `strings.TrimSpace`, `strings.Fields` and `strings.Split` give, said by how a text is put together: of a core
    and what surrounds it, of words and the white space between them, of parts and the characters between those. */
module TextLaws {
  import opened Text

  predicate IsBlank(s: string) {
    forall i | 0 <= i < |s| :: IsSpace(s[i])
  }

  // ---- Trimming ---------------------------------------------------------------------------------------------

  predicate All(s: string, p: char -> bool) {
    forall i | 0 <= i < |s| :: p(s[i])
  }

  /** `core` is `s` without the characters of one kind at either end. */
  ghost predicate IsCore(s: string, p: char -> bool, core: string) {
    && (core != "" ==> !p(core[0]) && !p(core[|core| - 1]))
    && exists left: string, right: string :: All(left, p) && All(right, p) && s == left + core + right
  }

  lemma {:induction false} LeftTrimmed(s: string) returns (left: string)
    ensures All(left, IsSpace) && s == left + TrimLeft(s)
  {
    if s != "" && IsSpace(s[0]) {
      left := LeftTrimmed(s[1..]);
      left := [s[0]] + left;
    } else {
      left := "";
    }
  }

  lemma {:induction false} RightTrimmed(s: string) returns (right: string)
    ensures All(right, IsSpace) && s == TrimRight(s) + right
  {
    if s != "" && IsSpace(s[|s| - 1]) {
      right := RightTrimmed(s[..|s| - 1]);
      right := right + [s[|s| - 1]];
      assert s == s[..|s| - 1] + [s[|s| - 1]];
    } else {
      right := "";
    }
  }

  /** There is only one core. */
  lemma CoreOnce(s: string, p: char -> bool, core: string, core': string)
    requires IsCore(s, p, core) && IsCore(s, p, core')
    ensures core == core'
  {
    var left: string, right: string :| All(left, p) && All(right, p) && s == left + core + right;
    var left': string, right': string :| All(left', p) && All(right', p) && s == left' + core' + right';
    if core == "" {
      assert left + core == left;
      AllJoined(s, p, left, right);
      AllPIsEmpty(s, p, left', core', right');
    } else if core' == "" {
      assert left' + core' == left';
      AllJoined(s, p, left', right');
      AllPIsEmpty(s, p, left, core, right);
    } else {
      Starts(s, p, left, core, right, left', core', right');
      Starts(s, p, left', core', right', left, core, right);
      assert core == s[|left|..|s| - |right|] && core' == s[|left'|..|s| - |right'|];
    }
  }

  lemma AllJoined(s: string, p: char -> bool, left: string, right: string)
    requires All(left, p) && All(right, p) && s == left + right
    ensures All(s, p)
  {
  }

  lemma CoreHead(s: string, left: string, core: string, right: string)
    requires s == left + core + right && core != ""
    ensures |left| < |s| && s[|left|] == core[0]
  {
  }

  lemma AllPIsEmpty(s: string, p: char -> bool, left: string, core: string, right: string)
    requires All(s, p) && s == left + core + right && (core != "" ==> !p(core[0]))
    ensures core == ""
  {
    if core != "" {
      CoreHead(s, left, core, right);
    }
  }

  lemma Starts(s: string, p: char -> bool, left: string, core: string, right: string, left': string, core': string,
               right': string)
    requires All(left, p) && All(right, p) && s == left + core + right && core != ""
    requires All(left', p) && All(right', p) && s == left' + core' + right' && core' != ""
    requires !p(core[0]) && !p(core[|core| - 1]) && !p(core'[0]) && !p(core'[|core'| - 1])
    ensures |left| <= |left'| && |right| <= |right'|
  {
    assert s[|left'|] == core'[0] && s[|s| - |right'| - 1] == core'[|core'| - 1];
    assert forall i | 0 <= i < |left| :: s[i] == left[i];
    assert forall i | |s| - |right| <= i < |s| :: s[i] == right[i - (|s| - |right|)];
  }

  /** `strings.TrimSpace` gives the core with respect to white space. */
  lemma TrimIff(s: string, core: string)
    ensures TrimSpace(s) == core <==> IsCore(s, IsSpace, core)
  {
    var left := LeftTrimmed(s);
    var right := RightTrimmed(TrimLeft(s));
    assert s == left + TrimSpace(s) + right;
    assert IsCore(s, IsSpace, TrimSpace(s)) by {
      assert TrimSpace(s) != "" ==> TrimSpace(s)[0] == TrimLeft(s)[0];
    }
    if IsCore(s, IsSpace, core) {
      CoreOnce(s, IsSpace, core, TrimSpace(s));
    }
  }

  // ---- Words ------------------------------------------------------------------------------------------------

  lemma FieldsOfWord(word: string, rest: string)
    requires word != "" && forall i | 0 <= i < |word| :: !IsSpace(word[i])
    requires rest == "" || IsSpace(rest[0])
    ensures Fields(word + rest) == [word] + Fields(rest)
  {
    WordEnds(word, rest);
    assert (word + rest)[..|word|] == word && (word + rest)[|word|..] == rest;
    assert (word + rest)[0] == word[0];
  }

  lemma {:induction false} WordEnds(word: string, rest: string)
    requires forall i | 0 <= i < |word| :: !IsSpace(word[i])
    requires rest == "" || IsSpace(rest[0])
    ensures WordLength(word + rest) == |word|
  {
    if word == "" {
      assert word + rest == rest;
    } else {
      WordEnds(word[1..], rest);
      assert (word + rest)[1..] == word[1..] + rest;
    }
  }

  /** A gap, and after it, in turn, each word and the gap that follows it. */
  function Woven(gaps: seq<string>, words: seq<string>): string
    requires |gaps| == |words| + 1
  {
    if words == [] then gaps[0] else gaps[0] + words[0] + Woven(gaps[1..], words[1..])
  }

  predicate IsWord(word: string) {
    word != "" && forall i | 0 <= i < |word| :: !IsSpace(word[i])
  }

  /** All gaps are white space, and between two words there is some. */
  predicate Weaves(gaps: seq<string>, words: seq<string>) {
    && |gaps| == |words| + 1
    && (forall i | 0 <= i < |words| :: IsWord(words[i]))
    && (forall i | 0 <= i < |gaps| :: IsBlank(gaps[i]))
    && forall i | 0 < i < |words| :: gaps[i] != ""
  }

  /** The words of a text, in order. */
  ghost predicate AreWords(s: string, words: seq<string>) {
    exists gaps: seq<string> :: Weaves(gaps, words) && s == Woven(gaps, words)
  }

  lemma {:induction false} BlankFields(gap: string, s: string)
    requires IsBlank(gap)
    ensures Fields(gap + s) == Fields(s)
    decreases |gap|
  {
    if gap == "" {
      assert gap + s == s;
    } else {
      assert (gap + s)[1..] == gap[1..] + s && (gap + s)[0] == gap[0];
      BlankFields(gap[1..], s);
    }
  }

  lemma {:induction false} WovenFields(gaps: seq<string>, words: seq<string>)
    requires Weaves(gaps, words)
    ensures Fields(Woven(gaps, words)) == words
    decreases |words|
  {
    if words == [] {
      BlankFields(gaps[0], "");
      assert gaps[0] + "" == gaps[0];
    } else {
      hide Fields;
      var word, rest := words[0], Woven(gaps[1..], words[1..]);
      WovenFields(gaps[1..], words[1..]);
      assert gaps[1] == "" ==> |words| == 1;
      assert rest == "" || IsSpace(rest[0]) by {
        WovenStart(gaps[1..], words[1..]);
      }
      BlankFields(gaps[0], word + rest);
      FieldsOfWord(word, rest);
      assert gaps[0] + word + rest == gaps[0] + (word + rest);
      assert [word] + words[1..] == words;
    }
  }

  lemma WovenStart(gaps: seq<string>, words: seq<string>)
    requires |gaps| == |words| + 1 && IsBlank(gaps[0]) && (words != [] ==> gaps[0] != "")
    ensures Woven(gaps, words) == "" || IsSpace(Woven(gaps, words)[0])
  {
  }

  lemma BlankFirst(s: string)
    requires s != "" && IsSpace(s[0])
    ensures Fields(s) == Fields(s[1..]) && s == [s[0]] + s[1..]
  {
  }

  lemma WordFirst(s: string, n: nat)
    requires s != "" && !IsSpace(s[0]) && n == WordLength(s)
    ensures n > 0 && Fields(s) == [s[..n]] + Fields(s[n..]) && IsWord(s[..n]) && s == s[..n] + s[n..]
    ensures s[n..] == "" || IsSpace(s[n..][0])
    ensures s[n..] == "" ==> Fields(s[n..]) == []
  {
  }

  lemma WeavesLonger(c: char, gaps: seq<string>, words: seq<string>)
    requires Weaves(gaps, words) && IsSpace(c)
    ensures Weaves([[c] + gaps[0]] + gaps[1..], words)
  {
  }

  lemma WeavesWord(word: string, gaps: seq<string>, words: seq<string>)
    requires Weaves(gaps, words) && IsWord(word) && (words != [] ==> gaps[0] != "")
    ensures Weaves([""] + gaps, [word] + words) && Woven([""] + gaps, [word] + words) == word + Woven(gaps, words)
  {
    assert ([""] + gaps)[1..] == gaps && ([word] + words)[1..] == words;
    assert "" + word == word;
  }

  lemma {:induction false} FieldsWoven(s: string) returns (gaps: seq<string>)
    ensures Weaves(gaps, Fields(s)) && s == Woven(gaps, Fields(s))
    ensures s != "" && IsSpace(s[0]) ==> gaps[0] != ""
    decreases |s|
  {
    if s == "" {
      gaps := [""];
    } else {
      hide Fields, WordLength, Woven;
      if IsSpace(s[0]) {
        BlankFirst(s);
        var rest := FieldsWoven(s[1..]);
        gaps := [[s[0]] + rest[0]] + rest[1..];
        WovenLonger(s[0], rest, Fields(s));
        WeavesLonger(s[0], rest, Fields(s));
      } else {
        var n := WordLength(s);
        WordFirst(s, n);
        var rest := FieldsWoven(s[n..]);
        gaps := [""] + rest;
        WeavesWord(s[..n], rest, Fields(s[n..]));
      }
    }
  }

  lemma WovenLonger(c: char, gaps: seq<string>, words: seq<string>)
    requires |gaps| == |words| + 1
    ensures Woven([[c] + gaps[0]] + gaps[1..], words) == [c] + Woven(gaps, words)
  {
    var more := [[c] + gaps[0]] + gaps[1..];
    assert more[1..] == gaps[1..];
    if words != [] {
      assert [c] + gaps[0] + words[0] + Woven(gaps[1..], words[1..]) ==
        [c] + (gaps[0] + words[0] + Woven(gaps[1..], words[1..]));
    }
  }

  /** `strings.Fields` gives the words of a text, in order. */
  lemma FieldsIff(s: string, words: seq<string>)
    ensures Fields(s) == words <==> AreWords(s, words)
  {
    hide Fields, Woven;
    var gaps := FieldsWoven(s);
    if AreWords(s, words) {
      var other: seq<string> :| Weaves(other, words) && s == Woven(other, words);
      WovenFields(other, words);
    }
  }

  // ---- Parts ------------------------------------------------------------------------------------------------

  function JoinedBy(parts: seq<string>, c: char): string
    requires parts != []
  {
    if |parts| == 1 then parts[0] else parts[0] + [c] + JoinedBy(parts[1..], c)
  }

  /** The parts of a text between the occurrences of a character. */
  ghost predicate AreParts(s: string, c: char, parts: seq<string>) {
    parts != [] && (forall i | 0 <= i < |parts| :: c !in parts[i]) && s == JoinedBy(parts, c)
  }

  lemma {:induction false} PartsOfJoined(parts: seq<string>, c: char)
    requires parts != [] && forall i | 0 <= i < |parts| :: c !in parts[i]
    ensures Split(JoinedBy(parts, c), c) == parts
    decreases |parts|
  {
    if |parts| == 1 {
      SplitWithout(parts[0], c);
      assert parts == [parts[0]];
    } else {
      PartsOfJoined(parts[1..], c);
      SplitBefore(parts[0], JoinedBy(parts[1..], c), c);
      assert [parts[0]] + parts[1..] == parts;
    }
  }

  lemma {:induction false} SplitBefore(part: string, rest: string, c: char)
    requires c !in part
    ensures Split(part + [c] + rest, c) == [part] + Split(rest, c)
    decreases |part|
  {
    var s := part + [c] + rest;
    if part == "" {
      assert s[0] == c && s[1..] == rest;
    } else {
      assert s[0] == part[0] && s[1..] == part[1..] + [c] + rest;
      SplitBefore(part[1..], rest, c);
      assert [part[0]] + part[1..] == part;
      assert ([part[1..]] + Split(rest, c))[1..] == Split(rest, c);
    }
  }

  lemma {:induction false} SplitJoins(s: string, c: char)
    ensures AreParts(s, c, Split(s, c))
    decreases |s|
  {
    if s != "" {
      var rest := Split(s[1..], c);
      SplitJoins(s[1..], c);
      var parts := Split(s, c);
      assert s == [s[0]] + s[1..];
      if s[0] == c {
        assert parts[1..] == rest && "" + [c] + s[1..] == s;
      } else {
        assert parts[1..] == rest[1..] && forall i | 0 < i < |parts| :: parts[i] == rest[i];
        if |rest| > 1 {
          assert [s[0]] + rest[0] + [c] + JoinedBy(rest[1..], c) == [s[0]] + (rest[0] + [c] + JoinedBy(rest[1..], c));
        }
      }
    }
  }

  lemma SplitIff(s: string, c: char, parts: seq<string>)
    ensures Split(s, c) == parts <==> AreParts(s, c, parts)
  {
    hide Split, JoinedBy;
    SplitJoins(s, c);
    if AreParts(s, c, parts) {
      PartsOfJoined(parts, c);
    }
  }
}
