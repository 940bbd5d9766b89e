/** Filling path templates (pkg/exec/exec.go): one replacement after the other, which must not see each other. */
module PathTemplate {
  import opened Text
  import opened Wrappers

  /** `strings.ReplaceAll` for a pattern that is not empty. */
  function ReplaceAll(s: string, pattern: string, text: string): string
    requires pattern != ""
    decreases |s|
  {
    if s == "" then ""
    else if HasPrefix(s, pattern) then text + ReplaceAll(s[|pattern|..], pattern, text)
    else [s[0]] + ReplaceAll(s[1..], pattern, text)
  }

  function HexDigit(n: int): char
    requires 0 <= n < 16
  {
    "0123456789ABCDEF"[n]
  }

  /** What `url.PathEscape` leaves alone: section 2.3 of RFC 3986, and some of what section 3.3 lets into a segment. */
  predicate IsPlain(c: char) {
    || 'a' <= c <= 'z' || 'A' <= c <= 'Z' || '0' <= c <= '9'
    || c == '-' || c == '_' || c == '.' || c == '~'
    || c == '$' || c == '&' || c == '+' || c == '=' || c == ':' || c == '@'
  }

  function EscapeOne(c: char): string {
    if IsPlain(c) then [c] else ['%', HexDigit(c as int / 16 % 16), HexDigit(c as int % 16)]
  }

  /** `url.PathEscape`: a character of these strings stands for one byte. */
  function PathEscape(s: string): string {
    if s == "" then "" else PathEscape(s[..|s| - 1]) + EscapeOne(s[|s| - 1])
  }

  predicate NoBraces(s: string) {
    '{' !in s && '}' !in s
  }

  lemma {:induction false} EscapedHasNoBraces(s: string)
    ensures NoBraces(PathEscape(s))
  {
    if s != "" {
      EscapedHasNoBraces(s[..|s| - 1]);
      var n := s[|s| - 1] as int;
      HexHasNoBraces(n / 16 % 16);
      HexHasNoBraces(n % 16);
    }
  }

  lemma HexHasNoBraces(n: int)
    requires 0 <= n < 16
    ensures HexDigit(n) != '{' && HexDigit(n) != '}'
  {
    assert "0123456789ABCDEF"[n] in "0123456789ABCDEF";
  }

  function HexValue(c: char): int {
    if '0' <= c <= '9' then c as int - '0' as int else c as int - 'A' as int + 10
  }

  /** Reading an escaped text: a percent sign stands before the two hexadecimal digits of a character. */
  function Unescaped(s: string): seq<int> {
    if s == "" then []
    else if s[0] == '%' && |s| >= 3 then [HexValue(s[1]) * 16 + HexValue(s[2])] + Unescaped(s[3..])
    else [s[0] as int] + Unescaped(s[1..])
  }

  function Codes(s: string): (r: seq<int>)
    ensures |r| == |s| && forall i | 0 <= i < |s| :: r[i] == s[i] as int
  {
    seq(|s|, i requires 0 <= i < |s| => s[i] as int)
  }

  lemma HexDigits(n: int)
    requires 0 <= n < 16
    ensures HexValue(HexDigit(n)) == n
  {
    assert forall i | 0 <= i < 16 :: HexValue("0123456789ABCDEF"[i]) == i;
  }

  lemma EscapedLast(s: string)
    requires s != ""
    ensures PathEscape(s) == PathEscape(s[..|s| - 1]) + EscapeOne(s[|s| - 1])
  {
    hide EscapeOne;
  }

  lemma CodesLast(s: string)
    requires s != ""
    ensures Codes(s) == Codes(s[..|s| - 1]) + [s[|s| - 1] as int]
  {
    hide *;
    var more := Codes(s[..|s| - 1]) + [s[|s| - 1] as int];
    assert |more| == |s|;
    assert forall i | 0 <= i < |s| :: more[i] == s[i] as int;
  }

  lemma Associates<T>(a: seq<T>, b: seq<T>, c: seq<T>)
    ensures (a + b) + c == a + (b + c)
  {
  }

  lemma EscapedNothing(t: string)
    ensures Unescaped(PathEscape("") + t) == Codes("") + Unescaped(t)
  {
    assert "" + t == t;
  }

  lemma {:induction false} EscapedBefore(s: string, t: string)
    requires forall i | 0 <= i < |s| :: s[i] as int < 256
    ensures Unescaped(PathEscape(s) + t) == Codes(s) + Unescaped(t)
    decreases |s|
  {
    hide *;
    if s == "" {
      EscapedNothing(t);
    } else {
      var rest, c := s[..|s| - 1], s[|s| - 1];
      EscapedLast(s);
      CodesLast(s);
      EscapedBefore(rest, EscapeOne(c) + t);
      OneEscaped(c, t);
      Associates(PathEscape(rest), EscapeOne(c), t);
      Associates(Codes(rest), [c as int], Unescaped(t));
    }
  }

  lemma OneEscaped(c: char, t: string)
    requires c as int < 256
    ensures Unescaped(EscapeOne(c) + t) == [c as int] + Unescaped(t)
  {
    var s := EscapeOne(c) + t;
    if IsPlain(c) {
      assert s[1..] == t;
    } else {
      var high, low := c as int / 16 % 16, c as int % 16;
      HexDigits(high);
      HexDigits(low);
      hide HexDigit, HexValue;
      assert s[0] == '%' && s[1] == HexDigit(high) && s[2] == HexDigit(low) && s[3..] == t;
      assert high * 16 + low == c as int;
    }
  }

  /** Escaping can be undone, and what needs no escaping stays as it is: no two values fill a path alike. */
  lemma UnescapeInvertsEscape(s: string)
    requires forall i | 0 <= i < |s| :: s[i] as int < 256
    ensures Unescaped(PathEscape(s)) == Codes(s)
    ensures (forall i | 0 <= i < |s| :: IsPlain(s[i])) <==> PathEscape(s) == s
  {
    EscapedBefore(s, "");
    assert PathEscape(s) + "" == PathEscape(s) && Codes(s) + [] == Codes(s);
    PlainIff(s);
  }

  lemma {:induction false} PlainIff(s: string)
    ensures |PathEscape(s)| >= |s|
    ensures (forall i | 0 <= i < |s| :: IsPlain(s[i])) <==> |PathEscape(s)| == |s|
    ensures |PathEscape(s)| == |s| ==> PathEscape(s) == s
    decreases |s|
  {
    if s != "" {
      PlainIff(s[..|s| - 1]);
      assert s == s[..|s| - 1] + [s[|s| - 1]];
    }
  }

  // ---- Well-formed templates --------------------------------------------------------------------------------

  datatype Piece = Literal(text: string) | Hole(name: string)

  function Braced(name: string): string {
    "{" + name + "}"
  }

  function ShowOne(piece: Piece): string {
    match piece
    case Literal(text) => text
    case Hole(name) => Braced(name)
  }

  function Show(pieces: seq<Piece>): string {
    if pieces == [] then "" else ShowOne(pieces[0]) + Show(pieces[1..])
  }

  predicate WellFormedOne(piece: Piece) {
    match piece
    case Literal(text) => NoBraces(text)
    case Hole(name) => NoBraces(name)
  }

  /** Braces occur only around names. */
  predicate WellFormed(pieces: seq<Piece>) {
    forall i | 0 <= i < |pieces| :: WellFormedOne(pieces[i])
  }

  function PutOne(piece: Piece, name: string, text: string): Piece {
    if piece == Hole(name) then Literal(text) else piece
  }

  /** Fill every hole with this name. */
  function Put(pieces: seq<Piece>, name: string, text: string): seq<Piece> {
    if pieces == [] then [] else [PutOne(pieces[0], name, text)] + Put(pieces[1..], name, text)
  }

  lemma {:induction false} ReplaceSkips(s: string, rest: string, pattern: string, text: string)
    requires pattern != "" && pattern[0] !in s
    ensures ReplaceAll(s + rest, pattern, text) == s + ReplaceAll(rest, pattern, text)
  {
    if s == "" {
      assert s + rest == rest;
    } else {
      assert (s + rest)[0] == s[0] && (s + rest)[1..] == s[1..] + rest;
      assert s[0] in s;
      ReplaceSkips(s[1..], rest, pattern, text);
    }
  }

  /** A placeholder is found only where it stands whole. */
  lemma OtherHoleIsNoMatch(name: string, other: string, rest: string)
    requires NoBraces(name) && NoBraces(other) && name != other
    ensures !HasPrefix(Braced(other) + rest, Braced(name))
  {
    var s, pattern := Braced(other) + rest, Braced(name);
    if |other| < |name| {
      assert s[|other| + 1] == '}' && pattern[|other| + 1] == name[|other|] && name[|other|] in name;
    } else if |name| < |other| {
      assert pattern[|name| + 1] == '}' && s[|name| + 1] == other[|name|] && other[|name|] in other;
    } else {
      var i :| 0 <= i < |name| && name[i] != other[i];
      assert pattern[i + 1] == name[i] && s[i + 1] == other[i];
    }
  }

  /** Replacing a placeholder in the text of a template fills its holes and nothing else. */
  lemma {:induction false} ReplaceIsPut(pieces: seq<Piece>, name: string, text: string)
    requires WellFormed(pieces) && NoBraces(name)
    ensures ReplaceAll(Show(pieces), Braced(name), text) == Show(Put(pieces, name, text))
  {
    if pieces != [] {
      assert WellFormedOne(pieces[0]);
      ReplaceIsPut(pieces[1..], name, text);
      ReplaceInPiece(pieces[0], Show(pieces[1..]), name, text);
    }
  }

  lemma BracedStart(name: string)
    ensures Braced(name) != "" && Braced(name)[0] == '{'
  {
  }

  lemma ReplaceInPiece(piece: Piece, rest: string, name: string, text: string)
    requires WellFormedOne(piece) && NoBraces(name)
    ensures ReplaceAll(ShowOne(piece) + rest, Braced(name), text) ==
            ShowOne(PutOne(piece, name, text)) + ReplaceAll(rest, Braced(name), text)
  {
    hide ReplaceAll, Braced;
    BracedStart(name);
    match piece
    case Literal(literal) =>
      ReplaceSkips(literal, rest, Braced(name), text);
    case Hole(other) =>
      if other == name {
        ReplaceInHole(rest, name, text);
      } else {
        ReplaceInOtherHole(other, rest, name, text);
      }
  }

  lemma ReplaceInHole(rest: string, name: string, text: string)
    ensures ReplaceAll(Braced(name) + rest, Braced(name), text) == text + ReplaceAll(rest, Braced(name), text)
  {
    var s := Braced(name) + rest;
    assert s[..|Braced(name)|] == Braced(name) && s[|Braced(name)|..] == rest;
  }

  lemma ReplaceInOtherHole(other: string, rest: string, name: string, text: string)
    requires NoBraces(name) && NoBraces(other) && name != other
    ensures ReplaceAll(Braced(other) + rest, Braced(name), text) == Braced(other) + ReplaceAll(rest, Braced(name), text)
  {
    var s := Braced(other) + rest;
    OtherHoleIsNoMatch(name, other, rest);
    assert s[0] == '{' && s[1..] == (other + "}") + rest;
    ReplaceSkips(other + "}", rest, Braced(name), text);
    assert "{" + (other + "}") == Braced(other);
  }

  // ---- Sequential and simultaneous filling ------------------------------------------------------------------

  /** The template after the first `n` parameters. */
  function Sequential(template: string, names: seq<string>, values: seq<string>, n: nat): string
    requires n <= |names| && n <= |values|
  {
    if n == 0 then template
    else ReplaceAll(Sequential(template, names, values, n - 1), Braced(names[n - 1]), PathEscape(values[n - 1]))
  }

  function Least(a: nat, b: nat): nat {
    if a < b then a else b
  }

  /** `buildPath`. */
  method BuildPath(template: string, names: seq<string>, values: seq<string>) returns (path: string)
    ensures path == Sequential(template, names, values, Least(|names|, |values|))
  {
    path := template;
    for idx := 0 to |names|
      invariant idx <= |values| && path == Sequential(template, names, values, idx)
    {
      if idx >= |values| {
        break;
      }
      path := ReplaceAll(path, Braced(names[idx]), PathEscape(values[idx]));
    }
  }

  /** The first value supplied for a name. */
  function Supplied(name: string, names: seq<string>, values: seq<string>): Option<string> {
    if names == [] || values == [] then None
    else if names[0] == name then Some(values[0])
    else Supplied(name, names[1..], values[1..])
  }

  function FillOne(piece: Piece, names: seq<string>, values: seq<string>): Piece {
    match piece
    case Literal(_) => piece
    case Hole(name) =>
      match Supplied(name, names, values)
      case Some(value) => Literal(PathEscape(value))
      case None => piece
  }

  /** Every placeholder replaced by its escaped value, looked up once; one without a value stays as it is. */
  function Simultaneous(pieces: seq<Piece>, names: seq<string>, values: seq<string>): seq<Piece> {
    if pieces == [] then [] else [FillOne(pieces[0], names, values)] + Simultaneous(pieces[1..], names, values)
  }

  lemma {:induction false} SuppliedMore(name: string, names: seq<string>, values: seq<string>, n: nat)
    requires n < |names| && n < |values|
    ensures Supplied(name, names[..n + 1], values[..n + 1]) ==
      if Supplied(name, names[..n], values[..n]).Some? then Supplied(name, names[..n], values[..n])
      else if names[n] == name then Some(values[n]) else None
  {
    if n > 0 {
      SuppliedMore(name, names[1..], values[1..], n - 1);
      assert names[..n + 1][1..] == names[1..][..n] && names[..n][1..] == names[1..][..n - 1];
      assert values[..n + 1][1..] == values[1..][..n] && values[..n][1..] == values[1..][..n - 1];
    }
  }

  lemma {:induction false} SuppliedAll(name: string, names: seq<string>, values: seq<string>)
    ensures var n := Least(|names|, |values|);
      Supplied(name, names[..n], values[..n]) == Supplied(name, names, values)
  {
    if names != [] && values != [] {
      SuppliedAll(name, names[1..], values[1..]);
      var n := Least(|names|, |values|);
      assert names[..n][1..] == names[1..][..n - 1] && values[..n][1..] == values[1..][..n - 1];
    }
  }

  lemma {:induction false} FilledIsWellFormed(pieces: seq<Piece>, names: seq<string>, values: seq<string>)
    requires WellFormed(pieces)
    ensures WellFormed(Simultaneous(pieces, names, values))
  {
    if pieces != [] {
      assert WellFormedOne(pieces[0]);
      if pieces[0].Hole? && Supplied(pieces[0].name, names, values).Some? {
        EscapedHasNoBraces(Supplied(pieces[0].name, names, values).value);
      }
      FilledIsWellFormed(pieces[1..], names, values);
    }
  }

  /** Filling one more parameter; a name that has its value already is not filled again. */
  lemma {:induction false} PutIsOneMore(pieces: seq<Piece>, names: seq<string>, values: seq<string>, n: nat)
    requires n < |names| && n < |values|
    ensures Put(Simultaneous(pieces, names[..n], values[..n]), names[n], PathEscape(values[n])) ==
            Simultaneous(pieces, names[..n + 1], values[..n + 1])
  {
    if pieces != [] {
      PutIsOneMore(pieces[1..], names, values, n);
      if pieces[0].Hole? {
        SuppliedMore(pieces[0].name, names, values, n);
      }
    }
  }

  lemma SequentialStart(template: string, names: seq<string>, values: seq<string>)
    ensures Sequential(template, names, values, 0) == template
  {
  }

  lemma SequentialStep(template: string, names: seq<string>, values: seq<string>, n: nat)
    requires n < |names| && n < |values|
    ensures Sequential(template, names, values, n + 1) ==
            ReplaceAll(Sequential(template, names, values, n), Braced(names[n]), PathEscape(values[n]))
  {
  }

  /** On a well-formed template, filling one parameter after the other is substituting them all at once. */
  lemma {:induction false} SequentialIsSimultaneous(
    pieces: seq<Piece>, names: seq<string>, values: seq<string>, n: nat)
    requires WellFormed(pieces) && n <= |names| && n <= |values|
    requires forall i | 0 <= i < |names| :: NoBraces(names[i])
    ensures Sequential(Show(pieces), names, values, n) == Show(Simultaneous(pieces, names[..n], values[..n]))
  {
    hide *;
    if n == 0 {
      SequentialStart(Show(pieces), names, values);
      NothingSupplied(pieces, names[..0], values[..0]);
    } else {
      SequentialStep(Show(pieces), names, values, n - 1);
      SequentialIsSimultaneous(pieces, names, values, n - 1);
      FilledIsWellFormed(pieces, names[..n - 1], values[..n - 1]);
      ReplaceIsPut(Simultaneous(pieces, names[..n - 1], values[..n - 1]), names[n - 1], PathEscape(values[n - 1]));
      PutIsOneMore(pieces, names, values, n - 1);
    }
  }

  lemma {:induction false} NothingSupplied(pieces: seq<Piece>, names: seq<string>, values: seq<string>)
    requires names == []
    ensures Simultaneous(pieces, names, values) == pieces
  {
    if pieces != [] {
      NothingSupplied(pieces[1..], names, values);
    }
  }

  lemma {:induction false} SimultaneousAll(pieces: seq<Piece>, names: seq<string>, values: seq<string>)
    ensures var n := Least(|names|, |values|);
      Simultaneous(pieces, names[..n], values[..n]) == Simultaneous(pieces, names, values)
  {
    if pieces != [] {
      SimultaneousAll(pieces[1..], names, values);
      if pieces[0].Hole? {
        SuppliedAll(pieces[0].name, names, values);
      }
    }
  }

  /** The path that `buildPath` returns for the text of a well-formed template. */
  lemma BuildPathSubstitutes(pieces: seq<Piece>, names: seq<string>, values: seq<string>)
    requires WellFormed(pieces) && forall i | 0 <= i < |names| :: NoBraces(names[i])
    ensures Sequential(Show(pieces), names, values, Least(|names|, |values|)) ==
            Show(Simultaneous(pieces, names, values))
  {
    SequentialIsSimultaneous(pieces, names, values, Least(|names|, |values|));
    SimultaneousAll(pieces, names, values);
  }
}
