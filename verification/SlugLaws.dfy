/** How `slugify` treats names in parts (pkg/mcp/openapi/adapter.go). */
module SlugLaws {
  import opened McpOpenApi

  // Together with the fixed points these laws leave `slugify` no choice: separators and capitals begin a new word,
  // letters and digits stay, everything else vanishes.

  /** Two slugs with a dash between them, unless one is empty. */
  function Hyphenated(a: string, b: string): string {
    if a == "" then b else if b == "" then a else a + "-" + b
  }

  /** Without the dash that a separator has left at the end. */
  function Closed(raw: string): string {
    if raw != "" && raw[|raw| - 1] == '-' then raw[..|raw| - 1] else raw
  }

  lemma SlugIsClosed(value: string)
    ensures IsTidy(Raw(value)) && Slug(value) == Closed(Raw(value))
  {
    RawIsTidy(value);
    var raw := Raw(value);
    assert TrimDashesLeft(raw) == raw;
    if raw != "" && raw[|raw| - 1] == '-' {
      assert TrimDashesRight(raw) == TrimDashesRight(raw[..|raw| - 1]) == raw[..|raw| - 1];
    }
  }

  lemma RawSnoc(value: string, c: char)
    ensures Raw(value + [c]) == Grown(Raw(value), c)
  {
    assert (value + [c])[..|value|] == value;
  }

  /** What has come before does not matter behind a character that was kept, or behind a dash. */
  lemma {:induction false} RawFrom(x: string, z: string, before: string, y: string)
    requires Raw(x) == before + Raw(z)
    requires Raw(z) != "" || before == "" || before[|before| - 1] == '-'
    ensures Raw(x + y) == before + Raw(z + y)
    decreases |y|
  {
    if y == "" {
      assert x + y == x && z + y == z;
    } else {
      var y', c := y[..|y| - 1], y[|y| - 1];
      assert x + y == (x + y') + [c] && z + y == (z + y') + [c];
      RawFrom(x, z, before, y');
      RawSnoc(x + y', c);
      RawSnoc(z + y', c);
      StaysNonEmpty(z, y');
      GrownBehind(before, Raw(z + y'), c);
    }
  }

  lemma GrownBehind(before: string, raw: string, c: char)
    requires raw != "" || before == "" || before[|before| - 1] == '-'
    ensures Grown(before + raw, c) == before + Grown(raw, c)
  {
    hide Lower;
    var gap := if raw != "" && raw[|raw| - 1] != '-' then "-" else "";
    assert raw != "" ==> (before + raw)[|before + raw| - 1] == raw[|raw| - 1];
    assert raw == "" ==> before + raw == before;
    assert before + raw + gap == before + (raw + gap);
    if IsUpper(c) {
      assert before + (raw + gap) + [Lower(c)] == before + (raw + gap + [Lower(c)]);
    } else if IsPlain(c) {
      assert before + raw + [c] == before + (raw + [c]);
    }
  }

  lemma {:induction false} StaysNonEmpty(z: string, y: string)
    ensures Raw(z) != "" ==> Raw(z + y) != ""
    decreases |y|
  {
    if y == "" {
      assert z + y == z;
    } else {
      assert z + y == (z + y[..|y| - 1]) + [y[|y| - 1]];
      StaysNonEmpty(z, y[..|y| - 1]);
      RawSnoc(z + y[..|y| - 1], y[|y| - 1]);
    }
  }

  lemma ClosedBehind(before: string, raw: string)
    requires IsTidy(raw) && (before == "" || before[|before| - 1] == '-')
    ensures raw != "" ==> Closed(before + raw) == before + Closed(raw) && Closed(raw) != ""
  {
    if raw != "" {
      assert (before + raw)[..|before + raw| - 1] == before + raw[..|raw| - 1];
    }
  }

  /** A separator begins a new word. */
  lemma SeparatorParts(x: string, c: char, y: string)
    requires IsSeparator(c)
    ensures Slug(x + [c] + y) == Hyphenated(Slug(x), Slug(y))
  {
    hide Grown, Raw, Closed, Slug;
    SlugIsClosed(x);
    SlugIsClosed(y);
    SlugIsClosed(x + [c] + y);
    RawSnoc(x, c);
    SeparatorGrows(x, c);
    var before := if Slug(x) == "" then "" else Slug(x) + "-";
    assert Raw("") == "" by {
      RawOfNothing();
    }
    RawFrom(x + [c], "", before, y);
    assert "" + y == y && before + "" == before;
    ClosedBehind(before, Raw(y));
    ClosedDash(Slug(x));
    ClosedNothing(Raw(y));
  }

  lemma RawOfNothing()
    ensures Raw("") == ""
  {
  }

  lemma ClosedNothing(raw: string)
    requires IsTidy(raw)
    ensures Closed(raw) == "" <==> raw == ""
  {
  }

  lemma ClosedDash(slug: string)
    ensures Closed(slug + "-") == slug && Closed("") == ""
  {
    assert (slug + "-")[..|slug|] == slug;
  }

  lemma SeparatorGrows(x: string, c: char)
    requires IsSeparator(c)
    ensures Grown(Raw(x), c) == if Slug(x) == "" then "" else Slug(x) + "-"
  {
    hide Slug, Raw;
    SlugIsClosed(x);
    var raw := Raw(x);
    if raw != "" && raw[|raw| - 1] == '-' {
      assert raw == raw[..|raw| - 1] + "-";
    }
  }

  /** A capital begins a new word with its lower-case letter. */
  lemma CapitalParts(x: string, c: char, y: string)
    requires IsUpper(c)
    ensures Slug(x + [c] + y) == Hyphenated(Slug(x), Slug([Lower(c)] + y))
  {
    hide Grown, Raw, Closed, Slug;
    var small := [Lower(c)];
    SlugIsClosed(x);
    SlugIsClosed(small + y);
    SlugIsClosed(x + [c] + y);
    RawSnoc(x, c);
    CapitalGrows(x, c);
    RawOfSmall(Lower(c));
    var before := if Slug(x) == "" then "" else Slug(x) + "-";
    RawFrom(x + [c], small, before, y);
    StaysNonEmpty(small, y);
    ClosedBehind(before, Raw(small + y));
  }

  lemma RawOfSmall(c: char)
    requires IsPlain(c)
    ensures Raw([c]) == [c]
  {
    assert [c][..0] == "";
  }

  lemma CapitalGrows(x: string, c: char)
    requires IsUpper(c)
    ensures Grown(Raw(x), c) == (if Slug(x) == "" then "" else Slug(x) + "-") + [Lower(c)]
  {
    hide Slug, Raw;
    SlugIsClosed(x);
    var raw := Raw(x);
    if raw != "" && raw[|raw| - 1] == '-' {
      assert raw == raw[..|raw| - 1] + "-";
    }
  }

  /** Any other character leaves no trace. */
  lemma OtherVanishes(x: string, c: char, y: string)
    requires !IsUpper(c) && !IsPlain(c) && !IsSeparator(c)
    ensures Slug(x + [c] + y) == Slug(x + y)
  {
    hide Raw, Slug;
    SlugIsClosed(x + [c] + y);
    SlugIsClosed(x + y);
    RawSnoc(x, c);
    RawFrom(x + [c], x, "", y);
  }

  predicate AllPlain(s: string) {
    forall i | 0 <= i < |s| :: IsPlain(s[i])
  }

  /** The laws of `slugify`. */
  ghost predicate Slugifies(f: string -> string) {
    && (forall s | AllPlain(s) :: f(s) == s)
    && (forall x, c, y | IsSeparator(c) :: f(x + [c] + y) == Hyphenated(f(x), f(y)))
    && (forall x, c, y | IsUpper(c) :: f(x + [c] + y) == Hyphenated(f(x), f([Lower(c)] + y)))
    && (forall x, c, y | !IsUpper(c) && !IsPlain(c) && !IsSeparator(c) :: f(x + [c] + y) == f(x + y))
  }

  lemma PlainIsSlug(s: string)
    requires AllPlain(s)
    ensures Slug(s) == s
  {
    hide Slug;
    SlugifyIsIdempotent(s);
  }

  lemma SlugObeys()
    ensures Slugifies(Slug)
  {
    hide Slug, Hyphenated, AllPlain;
    forall s | AllPlain(s) ensures Slug(s) == s {
      PlainIsSlug(s);
    }
    forall x, c, y | IsSeparator(c) ensures Slug(x + [c] + y) == Hyphenated(Slug(x), Slug(y)) {
      SeparatorParts(x, c, y);
    }
    forall x, c, y | IsUpper(c) ensures Slug(x + [c] + y) == Hyphenated(Slug(x), Slug([Lower(c)] + y)) {
      CapitalParts(x, c, y);
    }
    forall x, c, y | !IsUpper(c) && !IsPlain(c) && !IsSeparator(c) ensures Slug(x + [c] + y) == Slug(x + y) {
      OtherVanishes(x, c, y);
    }
  }

  function Strange(s: string): nat {
    if s == "" then 0 else (if IsPlain(s[0]) then 0 else 1) + Strange(s[1..])
  }

  lemma {:induction false} StrangeParts(x: string, y: string)
    ensures Strange(x + y) == Strange(x) + Strange(y)
    decreases |x|
  {
    if x == "" {
      assert x + y == y;
    } else {
      assert (x + y)[1..] == x[1..] + y;
      StrangeParts(x[1..], y);
    }
  }

  lemma StrangeOne(c: char)
    ensures Strange([c]) == if IsPlain(c) then 0 else 1
  {
    assert [c][1..] == "";
  }

  /** And nothing else does. */
  lemma {:induction false} OnlySlugObeys(f: string -> string, value: string)
    requires Slugifies(f)
    ensures f(value) == Slug(value)
    decreases Strange(value)
  {
    hide Slug, Hyphenated, Strange;
    if i: nat :| i < |value| && !IsPlain(value[i]) {
      var x, c, y := value[..i], value[i], value[i + 1..];
      assert value == x + [c] + y;
      StrangeParts(x + [c], y);
      StrangeParts(x, [c]);
      StrangeParts(x, y);
      StrangeOne(c);
      OnlySlugObeys(f, x);
      if IsUpper(c) {
        StrangeParts([Lower(c)], y);
        StrangeOne(Lower(c));
        OnlySlugObeys(f, [Lower(c)] + y);
        CapitalParts(x, c, y);
        assert f(x + [c] + y) == Hyphenated(f(x), f([Lower(c)] + y));
      } else if IsSeparator(c) {
        OnlySlugObeys(f, y);
        SeparatorParts(x, c, y);
        assert f(x + [c] + y) == Hyphenated(f(x), f(y));
      } else {
        OnlySlugObeys(f, x + y);
        OtherVanishes(x, c, y);
        assert f(x + [c] + y) == f(x + y);
      }
    } else {
      PlainIsSlug(value);
      assert AllPlain(value);
    }
  }
}
