/** When the operations of an MCP server have different IDs and paths, and what its document then holds
    (pkg/mcp/openapi/adapter.go): the suffix that `uniqueValue` adds to a value in use is not looked up again, so that
    values can be given out twice. */
module OperationNames {
  import opened Wrappers
  import opened McpOpenApi

  // ---- Values given out by uniqueValue ----------------------------------------------------------------------

  /** What one call asks for, and what it falls back on without looking whether that is in use. */
  datatype Claim = Claim(base: string, suffixed: string)

  function Given(claims: seq<Claim>): (r: seq<string>)
    ensures |r| == |claims|
  {
    if claims == [] then []
    else
      var before, last := Given(claims[..|claims| - 1]), claims[|claims| - 1];
      before + [if last.base !in before then last.base else last.suffixed]
  }

  predicate Distinct(values: seq<string>) {
    forall i, j | 0 <= i < j < |values| :: values[i] != values[j]
  }

  /** Both the base and the suffixed form are in use already. */
  predicate Clashes(claims: seq<Claim>, i: nat)
    requires i < |claims|
  {
    claims[i].base in Given(claims[..i]) && claims[i].suffixed in Given(claims[..i])
  }

  lemma {:induction false} GivenPrefix(claims: seq<Claim>, n: nat)
    requires n <= |claims|
    ensures Given(claims)[..n] == Given(claims[..n])
    decreases |claims|
  {
    if n < |claims| {
      GivenPrefix(claims[..|claims| - 1], n);
      assert claims[..|claims| - 1][..n] == claims[..n];
    } else {
      assert claims[..n] == claims;
    }
  }

  lemma GivenAt(claims: seq<Claim>, i: nat)
    requires i < |claims|
    ensures Given(claims)[i] == if claims[i].base !in Given(claims[..i]) then claims[i].base else claims[i].suffixed
    ensures Given(claims)[i] in Given(claims[..i]) <==> Clashes(claims, i)
  {
    GivenPrefix(claims, i + 1);
    assert claims[..i + 1][..i] == claims[..i];
    assert Given(claims)[i] == Given(claims)[..i + 1][i];
  }

  /** The values given out are different if and only if no call meets both of its forms in use. */
  lemma DistinctIff(claims: seq<Claim>)
    ensures Distinct(Given(claims)) <==> forall i | 0 <= i < |claims| :: !Clashes(claims, i)
  {
    hide Given, Clashes;
    var values := Given(claims);
    forall i | 0 <= i < |claims|
      ensures Clashes(claims, i) <==> values[i] in values[..i]
    {
      GivenAt(claims, i);
      GivenPrefix(claims, i);
    }
    forall i, j | 0 <= i < j < |values| && values[i] == values[j]
      ensures values[j] in values[..j]
    {
      assert values[..j][i] == values[j];
    }
    forall j | 0 <= j < |values| && values[j] in values[..j]
      ensures exists i :: 0 <= i < j && values[i] == values[j]
    {
      var i :| 0 <= i < j && values[..j][i] == values[j];
    }
  }

  predicate Repeats(claims: seq<Claim>, i: nat)
    requires i < |claims|
  {
    exists h | 0 <= h < i :: claims[h].base == claims[i].base
  }

  /** No base is like a suffixed form. */
  predicate Apart(claims: seq<Claim>) {
    forall i, j | 0 <= i < |claims| && 0 <= j < |claims| :: claims[i].base != claims[j].suffixed
  }

  lemma {:induction false} BaseInUseIff(claims: seq<Claim>, n: nat, base: string)
    requires Apart(claims) && n <= |claims| && exists i | 0 <= i < |claims| :: claims[i].base == base
    ensures base in Given(claims[..n]) <==> exists h | 0 <= h < n :: claims[h].base == base
    decreases n
  {
    if n > 0 {
      BaseInUseIff(claims, n - 1, base);
      assert claims[..n][..n - 1] == claims[..n - 1];
      assert claims[n - 1].suffixed != base;
    }
  }

  lemma GivenIs(claims: seq<Claim>, i: nat)
    requires Apart(claims) && i < |claims|
    ensures Given(claims)[i] == if Repeats(claims, i) then claims[i].suffixed else claims[i].base
  {
    GivenAt(claims, i);
    BaseInUseIff(claims, i, claims[i].base);
  }

  /** Where no base is like a suffixed form, values coincide only between two repeated bases. */
  lemma ApartDistinctIff(claims: seq<Claim>)
    requires Apart(claims)
    ensures Distinct(Given(claims)) <==>
      forall j, k | 0 <= j < k < |claims| && Repeats(claims, j) && Repeats(claims, k) ::
        claims[j].suffixed != claims[k].suffixed
  {
    hide Given;
    forall i | 0 <= i < |claims|
      ensures Given(claims)[i] == if Repeats(claims, i) then claims[i].suffixed else claims[i].base
    {
      GivenIs(claims, i);
    }
  }

  // ---- Operation IDs and paths ------------------------------------------------------------------------------

  function IdClaims(tools: seq<Tool>, suffix: string -> string): (r: seq<Claim>)
    ensures |r| == |tools|
  {
    seq(|tools|, i requires 0 <= i < |tools| => Claim(tools[i].name, Suffixed(tools[i].name, tools[i], suffix)))
  }

  function PathBase(tool: Tool): string {
    OrElse(Slug(tool.name), "tool")
  }

  function PathClaims(tools: seq<Tool>, suffix: string -> string): (r: seq<Claim>)
    ensures |r| == |tools|
  {
    seq(|tools|, i requires 0 <= i < |tools| =>
      Claim(PathBase(tools[i]), Suffixed(PathBase(tools[i]), tools[i], suffix)))
  }

  function Suffixed(base: string, tool: Tool, suffix: string -> string): string {
    base + "-" + suffix(tool.name)
  }

  predicate DistinctIds(refs: seq<Ref>) {
    forall i, j | 0 <= i < j < |refs| :: refs[i].operationId != refs[j].operationId
  }

  predicate DistinctPaths(refs: seq<Ref>) {
    forall i, j | 0 <= i < j < |refs| :: refs[i].path != refs[j].path
  }

  lemma GivenMore(claims: seq<Claim>, claim: Claim)
    ensures Given(claims + [claim]) ==
      Given(claims) + [if claim.base !in Given(claims) then claim.base else claim.suffixed]
  {
    assert (claims + [claim])[..|claims|] == claims;
  }

  lemma ClaimsMore(tools: seq<Tool>, tool: Tool, suffix: string -> string)
    ensures IdClaims(tools + [tool], suffix) ==
      IdClaims(tools, suffix) + [Claim(tool.name, Suffixed(tool.name, tool, suffix))]
    ensures PathClaims(tools + [tool], suffix) ==
      PathClaims(tools, suffix) + [Claim(PathBase(tool), Suffixed(PathBase(tool), tool, suffix))]
  {
  }

  function Elements(values: seq<string>): set<string> {
    set value | value in values
  }

  lemma ElementsMore(values: seq<string>, value: string)
    ensures Elements(values + [value]) == Elements(values) + {value}
    ensures forall v :: v in Elements(values) <==> v in values
  {
  }

  /** The references that were given these values. */
  predicate RefsHold(refs: seq<Ref>, service: string, ids: seq<string>, paths: seq<string>) {
    && |refs| == |ids| == |paths|
    && forall i | 0 <= i < |refs| ::
         refs[i].operationId == ids[i] && refs[i].path == "/_mcp/" + service + "/" + paths[i]
  }

  /** What has been given out is what is in use. */
  lemma {:induction false} NamesGiven(tools: seq<Tool>, service: string, suffix: string -> string)
    ensures var ids, paths := Given(IdClaims(tools, suffix)), Given(PathClaims(tools, suffix));
      && RefsHold(Refs(tools, NOTHING, service, suffix), service, ids, paths)
      && UsedAfter(tools, NOTHING, suffix) == Used(Elements(ids), Elements(paths))
  {
    if tools != [] {
      var before, last := tools[..|tools| - 1], tools[|tools| - 1];
      NamesGiven(before, service, suffix);
      hide *;
      assert tools == before + [last];
      RefsMore(before, last, NOTHING, service, suffix);
      ClaimsMore(before, last, suffix);
      var ids, paths := Given(IdClaims(before, suffix)), Given(PathClaims(before, suffix));
      GivenMore(IdClaims(before, suffix), Claim(last.name, Suffixed(last.name, last, suffix)));
      GivenMore(PathClaims(before, suffix), Claim(PathBase(last), Suffixed(PathBase(last), last, suffix)));
      RefsHoldMore(Refs(before, NOTHING, service, suffix), service, ids, paths, last, suffix);
    }
  }

  /** The next values given out are the ones that `uniqueValue` chooses. */
  lemma RefsHoldMore(refs: seq<Ref>, service: string, ids: seq<string>, paths: seq<string>, tool: Tool,
                     suffix: string -> string)
    requires RefsHold(refs, service, ids, paths)
    ensures var id := if tool.name !in ids then tool.name else Suffixed(tool.name, tool, suffix);
            var path := if PathBase(tool) !in paths then PathBase(tool) else Suffixed(PathBase(tool), tool, suffix);
            var used := Used(Elements(ids), Elements(paths));
            && RefsHold(refs + [Named(tool, used, service, suffix)], service, ids + [id], paths + [path])
            && Taken(tool, used, suffix) == Used(Elements(ids + [id]), Elements(paths + [path]))
  {
    hide Slug, Suffixed, Elements;
    ChosenIsGiven(tool.name, ids, tool, suffix);
    ChosenIsGiven(PathBase(tool), paths, tool, suffix);
  }

  /** The next value given out is the one that `uniqueValue` chooses. */
  lemma ChosenIsGiven(base: string, values: seq<string>, tool: Tool, suffix: string -> string)
    ensures var value := if base !in values then base else Suffixed(base, tool, suffix);
      && Chosen(base, Elements(values), tool.name, suffix) == value
      && Elements(values + [value]) == Elements(values) + {value}
  {
    ElementsMore(values, if base !in values then base else Suffixed(base, tool, suffix));
  }

  /** Tool `i` meets both its name and its suffixed name in use as operation IDs. */
  predicate IdClash(tools: seq<Tool>, suffix: string -> string, i: nat)
    requires i < |tools|
  {
    var used := UsedAfter(tools[..i], NOTHING, suffix).ids;
    tools[i].name in used && Suffixed(tools[i].name, tools[i], suffix) in used
  }

  /** Tool `i` meets both its slug and its suffixed slug in use as paths. */
  predicate PathClash(tools: seq<Tool>, suffix: string -> string, i: nat)
    requires i < |tools|
  {
    var used := UsedAfter(tools[..i], NOTHING, suffix).paths;
    PathBase(tools[i]) in used && Suffixed(PathBase(tools[i]), tools[i], suffix) in used
  }

  lemma ClashesAre(tools: seq<Tool>, service: string, suffix: string -> string, i: nat)
    requires i < |tools|
    ensures IdClash(tools, suffix, i) <==> Clashes(IdClaims(tools, suffix), i)
    ensures PathClash(tools, suffix, i) <==> Clashes(PathClaims(tools, suffix), i)
  {
    hide Refs, UsedAfter, Given, Slug;
    NamesGiven(tools[..i], service, suffix);
    ElementsMore(Given(IdClaims(tools[..i], suffix)), "");
    ElementsMore(Given(PathClaims(tools[..i], suffix)), "");
    assert IdClaims(tools, suffix)[..i] == IdClaims(tools[..i], suffix);
    assert PathClaims(tools, suffix)[..i] == PathClaims(tools[..i], suffix);
  }

  lemma SamePrefix(prefix: string, a: string, b: string)
    ensures prefix + a == prefix + b <==> a == b
  {
    assert (prefix + a)[|prefix|..] == a && (prefix + b)[|prefix|..] == b;
  }

  /** The references differ exactly where what was given out for them does. */
  lemma DistinctRefs(tools: seq<Tool>, service: string, suffix: string -> string)
    ensures DistinctIds(Refs(tools, NOTHING, service, suffix)) <==> Distinct(Given(IdClaims(tools, suffix)))
    ensures DistinctPaths(Refs(tools, NOTHING, service, suffix)) <==> Distinct(Given(PathClaims(tools, suffix)))
  {
    hide Refs, UsedAfter, Given, IdClaims, PathClaims;
    NamesGiven(tools, service, suffix);
    var refs, paths := Refs(tools, NOTHING, service, suffix), Given(PathClaims(tools, suffix));
    forall i, j | 0 <= i < j < |tools|
      ensures refs[i].path == refs[j].path <==> paths[i] == paths[j]
    {
      SamePrefix("/_mcp/" + service + "/", paths[i], paths[j]);
    }
  }

  /** The operation IDs are different if and only if no tool meets both its name and its suffixed name in use; and the
      paths, if and only if no tool meets both its slug and its suffixed slug in use. */
  lemma NamesDistinctIff(tools: seq<Tool>, service: string, suffix: string -> string)
    ensures DistinctIds(Refs(tools, NOTHING, service, suffix)) <==>
      forall i | 0 <= i < |tools| :: !IdClash(tools, suffix, i)
    ensures DistinctPaths(Refs(tools, NOTHING, service, suffix)) <==>
      forall i | 0 <= i < |tools| :: !PathClash(tools, suffix, i)
  {
    hide Refs, Given, IdClaims, PathClaims, Distinct, Clashes, IdClash, PathClash, DistinctIds, DistinctPaths;
    DistinctRefs(tools, service, suffix);
    DistinctIff(IdClaims(tools, suffix));
    DistinctIff(PathClaims(tools, suffix));
    forall i | 0 <= i < |tools|
      ensures IdClash(tools, suffix, i) <==> Clashes(IdClaims(tools, suffix), i)
      ensures PathClash(tools, suffix, i) <==> Clashes(PathClaims(tools, suffix), i)
    {
      ClashesAre(tools, service, suffix, i);
    }
  }

  /** Eight hexadecimal digits. */
  const SUFFIX_LENGTH := 8

  ghost predicate FixedLength(suffix: string -> string) {
    forall name :: |suffix(name)| == SUFFIX_LENGTH
  }

  lemma SuffixedIsUnique(base: string, other: string, tool: Tool, tool': Tool, suffix: string -> string)
    requires FixedLength(suffix)
    ensures Suffixed(base, tool, suffix) == Suffixed(other, tool', suffix) <==>
      base == other && suffix(tool.name) == suffix(tool'.name)
  {
    var s, s' := Suffixed(base, tool, suffix), Suffixed(other, tool', suffix);
    assert |suffix(tool.name)| == |suffix(tool'.name)|;
    assert s[|s| - SUFFIX_LENGTH..] == suffix(tool.name) && s'[|s'| - SUFFIX_LENGTH..] == suffix(tool'.name);
    assert s[..|s| - SUFFIX_LENGTH - 1] == base && s'[..|s'| - SUFFIX_LENGTH - 1] == other;
  }

  /** Two calls for one name come after a call for the same base. */
  predicate TwoBehind(claims: seq<Claim>, names: seq<string>)
    requires |names| == |claims|
  {
    exists i, j, k | 0 <= i < j < k < |claims| :: claims[i].base == claims[j].base && names[j] == names[k]
  }

  lemma TwoRepeatIff(claims: seq<Claim>, names: seq<string>)
    requires |names| == |claims|
    requires forall j, k | 0 <= j < k < |claims| :: claims[j].suffixed == claims[k].suffixed <==> names[j] == names[k]
    requires forall j, k | 0 <= j < k < |claims| && names[j] == names[k] :: claims[j].base == claims[k].base
    ensures TwoBehind(claims, names) <==>
      !forall j, k | 0 <= j < k < |claims| && Repeats(claims, j) && Repeats(claims, k) ::
         claims[j].suffixed != claims[k].suffixed
  {
    if j, k :| && 0 <= j < k < |claims| && Repeats(claims, j) && Repeats(claims, k)
               && claims[j].suffixed == claims[k].suffixed {
      var i :| 0 <= i < j && claims[i].base == claims[j].base;
      assert names[j] == names[k];
    }
    if i, j, k :| 0 <= i < j < k < |claims| && claims[i].base == claims[j].base && names[j] == names[k] {
      assert Repeats(claims, j) && claims[i].base == claims[k].base;
      assert Repeats(claims, k);
    }
  }

  function ToolNames(tools: seq<Tool>): (r: seq<string>)
    ensures |r| == |tools|
  {
    seq(|tools|, i requires 0 <= i < |tools| => tools[i].name)
  }

  /** Three tools of one name. */
  predicate ThreeNamed(tools: seq<Tool>) {
    exists i, j, k | 0 <= i < j < k < |tools| :: tools[i].name == tools[j].name && tools[j].name == tools[k].name
  }

  /** Where no tool is named like another's suffixed name, the operation IDs are different if and only if no name
      occurs three times. */
  lemma IdsDistinctIffNoThree(tools: seq<Tool>, service: string, suffix: string -> string)
    requires FixedLength(suffix)
    requires forall i, j | 0 <= i < |tools| && 0 <= j < |tools| ::
      tools[i].name != Suffixed(tools[j].name, tools[j], suffix)
    ensures DistinctIds(Refs(tools, NOTHING, service, suffix)) <==> !ThreeNamed(tools)
  {
    hide Refs, Given, DistinctIds, FixedLength, Distinct, Suffixed, Repeats;
    var claims, names := IdClaims(tools, suffix), ToolNames(tools);
    DistinctRefs(tools, service, suffix);
    ApartDistinctIff(claims);
    forall j, k | 0 <= j < k < |tools|
      ensures claims[j].suffixed == claims[k].suffixed <==> names[j] == names[k]
    {
      SuffixedIsUnique(tools[j].name, tools[k].name, tools[j], tools[k], suffix);
    }
    TwoRepeatIff(claims, names);
    ThreeNamedIff(tools, suffix);
  }

  lemma ThreeNamedIff(tools: seq<Tool>, suffix: string -> string)
    ensures ThreeNamed(tools) <==> TwoBehind(IdClaims(tools, suffix), ToolNames(tools))
  {
    var claims, names := IdClaims(tools, suffix), ToolNames(tools);
    if i, j, k :| 0 <= i < j < k < |tools| && tools[i].name == tools[j].name && tools[j].name == tools[k].name {
      assert claims[i].base == claims[j].base && names[j] == names[k];
    }
    if i, j, k :| 0 <= i < j < k < |claims| && claims[i].base == claims[j].base && names[j] == names[k] {
      assert tools[i].name == tools[j].name && tools[j].name == tools[k].name;
    }
  }

  /** Two tools of one name behind a tool of the same slug. */
  predicate TwoBehindSlug(tools: seq<Tool>) {
    exists i, j, k | 0 <= i < j < k < |tools| ::
      PathBase(tools[i]) == PathBase(tools[j]) && tools[j].name == tools[k].name
  }

  /** Where no slug is like a suffixed one and the suffixes of different names differ, the paths are different if and
      only if no two tools of one name come after a tool of their slug. */
  lemma PathsDistinctIffNoThree(tools: seq<Tool>, service: string, suffix: string -> string)
    requires FixedLength(suffix)
    requires forall i, j | 0 <= i < |tools| && 0 <= j < |tools| ::
      PathBase(tools[i]) != Suffixed(PathBase(tools[j]), tools[j], suffix)
    requires forall i, j | 0 <= i < |tools| && 0 <= j < |tools| && suffix(tools[i].name) == suffix(tools[j].name) ::
      tools[i].name == tools[j].name
    ensures DistinctPaths(Refs(tools, NOTHING, service, suffix)) <==> !TwoBehindSlug(tools)
  {
    hide Refs, Given, DistinctPaths, FixedLength, Distinct, Suffixed, Repeats, Slug;
    var claims, names := PathClaims(tools, suffix), ToolNames(tools);
    DistinctRefs(tools, service, suffix);
    ApartDistinctIff(claims);
    forall j, k | 0 <= j < k < |tools|
      ensures claims[j].suffixed == claims[k].suffixed <==> names[j] == names[k]
      ensures names[j] == names[k] ==> claims[j].base == claims[k].base
    {
      SuffixedIsUnique(PathBase(tools[j]), PathBase(tools[k]), tools[j], tools[k], suffix);
    }
    TwoRepeatIff(claims, names);
    TwoBehindSlugIff(tools, suffix);
  }

  lemma TwoBehindSlugIff(tools: seq<Tool>, suffix: string -> string)
    ensures TwoBehindSlug(tools) <==> TwoBehind(PathClaims(tools, suffix), ToolNames(tools))
  {
    hide PathBase;
    var claims, names := PathClaims(tools, suffix), ToolNames(tools);
    if i, j, k :| && 0 <= i < j < k < |tools|
                  && PathBase(tools[i]) == PathBase(tools[j]) && tools[j].name == tools[k].name {
      assert claims[i].base == claims[j].base && names[j] == names[k];
    }
    if i, j, k :| 0 <= i < j < k < |claims| && claims[i].base == claims[j].base && names[j] == names[k] {
      assert PathBase(tools[i]) == PathBase(tools[j]) && tools[j].name == tools[k].name;
    }
  }

  // ---- The document -----------------------------------------------------------------------------------------

  ghost function PathsOf(refs: seq<Ref>): set<string> {
    set ref | ref in refs :: ref.path
  }

  /** No later reference has the same path. */
  predicate LastOfPath(refs: seq<Ref>, i: nat)
    requires i < |refs|
  {
    forall j | i < j < |refs| :: refs[j].path != refs[i].path
  }

  /** The document has an entry for each path, which is that of the last reference with this path. */
  lemma {:induction false} DocumentEntries(tools: seq<Tool>, refs: seq<Ref>, schema: Tool -> Option<string>, i: nat)
    requires Refers(refs, tools) && Document(tools, refs, schema).Ok? && i < |refs| && LastOfPath(refs, i)
    ensures var document, tool := Document(tools, refs, schema).value, Lookup(tools, refs[i].toolName);
      && schema(tool).Some? && refs[i].path in document
      && document[refs[i].path] == Operation(refs[i].operationId, tool, schema(tool).value)
    decreases |refs|
  {
    hide Lookup;
    var n := |refs| - 1;
    if i < n {
      assert refs[n].path != refs[i].path;
      assert LastOfPath(refs[..n], i) by {
        forall j | i < j < n ensures refs[..n][j].path != refs[..n][i].path {
          assert refs[j].path != refs[i].path;
        }
      }
      DocumentEntries(tools, refs[..n], schema, i);
    }
  }

  lemma {:induction false} DocumentKeys(tools: seq<Tool>, refs: seq<Ref>, schema: Tool -> Option<string>)
    requires Refers(refs, tools) && Document(tools, refs, schema).Ok?
    ensures Document(tools, refs, schema).value.Keys == PathsOf(refs)
    decreases |refs|
  {
    if refs != [] {
      hide Lookup, PathsOf;
      DocumentKeys(tools, refs[..|refs| - 1], schema);
      PathsMore(refs);
    } else {
      assert PathsOf(refs) == {};
    }
  }

  lemma PathsMore(refs: seq<Ref>)
    requires refs != []
    ensures PathsOf(refs) == PathsOf(refs[..|refs| - 1]) + {refs[|refs| - 1].path}
  {
    assert refs == refs[..|refs| - 1] + [refs[|refs| - 1]];
  }

  lemma {:induction false} PathsCount(refs: seq<Ref>)
    ensures |PathsOf(refs)| <= |refs| && (|PathsOf(refs)| == |refs| <==> DistinctPaths(refs))
  {
    if refs == [] {
      assert PathsOf(refs) == {};
    } else {
      PathsCount(refs[..|refs| - 1]);
      PathsMore(refs);
      DistinctPathsMore(refs);
      hide PathsOf, DistinctPaths;
    }
  }

  lemma DistinctPathsMore(refs: seq<Ref>)
    requires refs != []
    ensures var before := refs[..|refs| - 1];
            DistinctPaths(refs) <==> DistinctPaths(before) && refs[|refs| - 1].path !in PathsOf(before)
  {
    var before, last := refs[..|refs| - 1], refs[|refs| - 1];
    assert forall i | 0 <= i < |before| :: refs[i] == before[i];
    if last.path in PathsOf(before) {
      var ref :| ref in before && ref.path == last.path;
      var i :| 0 <= i < |before| && before[i] == ref;
      assert refs[i].path == refs[|before|].path;
    } else {
      assert forall i | 0 <= i < |before| :: before[i] in before && before[i].path != last.path;
    }
  }

  /** Every enabled operation has an entry of its own if and only if the paths are different; a path that is given out
      again overwrites the entry of an earlier operation. */
  lemma DocumentHoldsAllIff(
    tools: seq<Tool>, disabled: set<string>, service: string, suffix: string -> string, schema: Tool -> Option<string>)
    requires Build(tools, disabled, service, suffix, schema).Ok?
    ensures var built := Build(tools, disabled, service, suffix, schema).value;
      && |built.document| <= |built.filtered|
      && (|built.document| == |built.filtered| <==> DistinctPaths(built.filtered))
      && forall i | 0 <= i < |built.filtered| && LastOfPath(built.filtered, i) ::
           var ref := built.filtered[i];
           ref.path in built.document && built.document[ref.path].operationId == ref.operationId
  {
    hide Document, PassRefs, AllRefs, DistinctPaths, LastOfPath, Lookup;
    FilteredRefer(tools, disabled, service, suffix);
    var built := Build(tools, disabled, service, suffix, schema).value;
    DocumentKeys(tools, built.filtered, schema);
    PathsCount(built.filtered);
    assert |built.document.Keys| == |built.document|;
    forall i | 0 <= i < |built.filtered| && LastOfPath(built.filtered, i)
      ensures var ref := built.filtered[i];
        ref.path in built.document && built.document[ref.path].operationId == ref.operationId
    {
      DocumentEntries(tools, built.filtered, schema, i);
    }
  }

  // ---- Failure ----------------------------------------------------------------------------------------------

  /** The schema that counts for a name is that of the last tool of this name. */
  predicate Malformed(tools: seq<Tool>, name: string, schema: Tool -> Option<string>) {
    HasName(tools, name) && schema(Lookup(tools, name)).None?
  }

  /** The first reference to a malformed schema decides. */
  lemma {:induction false} DocumentFailsIff(tools: seq<Tool>, refs: seq<Ref>, schema: Tool -> Option<string>)
    requires Refers(refs, tools)
    ensures Document(tools, refs, schema).Err? <==>
      exists i | 0 <= i < |refs| :: Malformed(tools, refs[i].toolName, schema)
    ensures forall i | 0 <= i < |refs| && Malformed(tools, refs[i].toolName, schema)
      && (forall j | 0 <= j < i :: !Malformed(tools, refs[j].toolName, schema)) ::
        Document(tools, refs, schema) == Err(BadSchema(refs[i].toolName))
    decreases |refs|
  {
    if refs != [] {
      var n := |refs| - 1;
      DocumentFailsIff(tools, refs[..n], schema);
      assert forall i | 0 <= i < n :: refs[..n][i] == refs[i];
      assert HasName(tools, refs[n].toolName);
    }
  }

  /** An enabled tool in the list of the enabled ones: those before it are before it in the list of all. */
  lemma {:induction false} KeptBefore(tools: seq<Tool>, i: nat, disabled: set<string>) returns (k: nat)
    requires i < |tools| && tools[i].name !in disabled
    ensures k < |Part(tools, disabled, false)| && Part(tools, disabled, false)[k] == tools[i]
    ensures forall j | 0 <= j < k :: Part(tools, disabled, false)[j] in tools[..i]
    ensures forall j | 0 <= j < k :: Part(tools, disabled, false)[j].name !in disabled
    decreases |tools|
  {
    var n := |tools| - 1;
    if i == n {
      k := |Part(tools[..n], disabled, false)|;
      PartHas(tools[..n], disabled, false);
      assert forall j | 0 <= j < k :: Part(tools, disabled, false)[j] in Part(tools[..n], disabled, false);
    } else {
      k := KeptBefore(tools[..n], i, disabled);
      assert tools[..n][..i] == tools[..i];
    }
  }

  /** Tool `i` is enabled and the schema that counts for it malformed. */
  predicate Fails(tools: seq<Tool>, disabled: set<string>, schema: Tool -> Option<string>, i: nat)
    requires i < |tools|
  {
    tools[i].name !in disabled && Malformed(tools, tools[i].name, schema)
  }

  lemma EnabledRefs(tools: seq<Tool>, disabled: set<string>, service: string, suffix: string -> string)
    ensures var kept, refs := Part(tools, disabled, false), PassRefs(tools, disabled, false, service, suffix);
      && Refers(refs, tools) && forall i | 0 <= i < |refs| :: refs[i].toolName == kept[i].name
  {
    FilteredRefer(tools, disabled, service, suffix);
    RefsRefer(Part(tools, disabled, false), NOTHING, service, suffix);
  }

  lemma SomeRefFailsIff(
    tools: seq<Tool>, disabled: set<string>, refs: seq<Ref>, schema: Tool -> Option<string>)
    requires |refs| == |Part(tools, disabled, false)|
    requires forall i | 0 <= i < |refs| :: refs[i].toolName == Part(tools, disabled, false)[i].name
    ensures (exists i | 0 <= i < |refs| :: Malformed(tools, refs[i].toolName, schema)) <==>
            exists i | 0 <= i < |tools| :: Fails(tools, disabled, schema, i)
  {
    hide Malformed, Part;
    var kept := Part(tools, disabled, false);
    PartHas(tools, disabled, false);
    if i :| 0 <= i < |refs| && Malformed(tools, refs[i].toolName, schema) {
      assert kept[i] in kept;
      var j :| 0 <= j < |tools| && tools[j] == kept[i];
      assert Fails(tools, disabled, schema, j);
    }
    if j :| 0 <= j < |tools| && Fails(tools, disabled, schema, j) {
      assert tools[j] in kept;
      var i :| 0 <= i < |kept| && kept[i] == tools[j];
      assert Malformed(tools, refs[i].toolName, schema);
    }
  }

  lemma {:induction false} FirstRefFails(
    tools: seq<Tool>, disabled: set<string>, refs: seq<Ref>, schema: Tool -> Option<string>, i: nat)
    requires |refs| == |Part(tools, disabled, false)| && i < |tools| && Refers(refs, tools)
    requires forall k | 0 <= k < |refs| :: refs[k].toolName == Part(tools, disabled, false)[k].name
    requires Fails(tools, disabled, schema, i) && forall j | 0 <= j < i :: !Fails(tools, disabled, schema, j)
    ensures Document(tools, refs, schema) == Err(BadSchema(tools[i].name))
  {
    hide Malformed, Part, Document;
    var k := KeptBefore(tools, i, disabled);
    forall h | 0 <= h < k
      ensures !Malformed(tools, refs[h].toolName, schema)
    {
      assert Part(tools, disabled, false)[h] in tools[..i];
      var j :| 0 <= j < i && tools[..i][j] == Part(tools, disabled, false)[h];
      assert !Fails(tools, disabled, schema, j);
    }
    DocumentFailsIff(tools, refs, schema);
    assert refs[k].toolName == tools[i].name;
  }

  /** A build fails if and only if some tool lacks a name, or the last tool of the name of an enabled tool has a
      malformed schema. A missing name is what is reported, and otherwise the first such tool. */
  lemma BuildFailsIff(
    tools: seq<Tool>, disabled: set<string>, service: string, suffix: string -> string, schema: Tool -> Option<string>)
    ensures var result := Build(tools, disabled, service, suffix, schema);
      && (HasName(tools, "") ==> result == Err(NameRequired))
      && (!HasName(tools, "") ==>
            && (result.Err? <==> exists i | 0 <= i < |tools| :: Fails(tools, disabled, schema, i))
            && forall i | 0 <= i < |tools| && Fails(tools, disabled, schema, i)
                 && (forall j | 0 <= j < i :: !Fails(tools, disabled, schema, j)) ::
                 result == Err(BadSchema(tools[i].name)))
  {
    hide Document, Part, PassRefs, AllRefs, Fails, HasName;
    var refs := PassRefs(tools, disabled, false, service, suffix);
    EnabledRefs(tools, disabled, service, suffix);
    DocumentFailsIff(tools, refs, schema);
    SomeRefFailsIff(tools, disabled, refs, schema);
    forall i | 0 <= i < |tools| && Fails(tools, disabled, schema, i)
      && (forall j | 0 <= j < i :: !Fails(tools, disabled, schema, j))
      ensures Document(tools, refs, schema) == Err(BadSchema(tools[i].name))
    {
      FirstRefFails(tools, disabled, refs, schema, i);
    }
  }
}
