/** Naming the operations of an MCP server and building its OpenAPI document (pkg/mcp/openapi/adapter.go). */
module McpOpenApi {
  import opened Wrappers

  // ---- Slugs ------------------------------------------------------------------------------------------------

  predicate IsUpper(c: char) {
    'A' <= c <= 'Z'
  }

  predicate IsPlain(c: char) {
    'a' <= c <= 'z' || '0' <= c <= '9'
  }

  predicate IsSeparator(c: char) {
    c == '-' || c == '_' || c == ' ' || c == '.'
  }

  /** The lower-case letter of the same place in the alphabet. */
  function Lower(c: char): (r: char)
    requires IsUpper(c)
    ensures IsPlain(r) && r as int - 'a' as int == c as int - 'A' as int
  {
    c + ('a' - 'A')
  }

  /** What one character adds; a dash is never added first nor after another. */
  function Grown(slug: string, c: char): string {
    var gap := if slug != [] && slug[|slug| - 1] != '-' then "-" else "";
    if IsUpper(c) then slug + gap + [Lower(c)]
    else if IsPlain(c) then slug + [c]
    else if IsSeparator(c) then slug + gap
    else slug
  }

  function Raw(value: string): string {
    if value == "" then "" else Grown(Raw(value[..|value| - 1]), value[|value| - 1])
  }

  function TrimDashesLeft(s: string): string {
    if s != "" && s[0] == '-' then TrimDashesLeft(s[1..]) else s
  }

  function TrimDashesRight(s: string): (r: string)
    ensures r <= s && (r != "" ==> r[|r| - 1] != '-')
  {
    if s != "" && s[|s| - 1] == '-' then TrimDashesRight(s[..|s| - 1]) else s
  }

  function Slug(value: string): string {
    TrimDashesRight(TrimDashesLeft(Raw(value)))
  }

  /** Lower-case letters, digits, and single dashes after the first character. */
  predicate IsTidy(s: string) {
    && (forall i | 0 <= i < |s| :: IsPlain(s[i]) || s[i] == '-')
    && (s != "" ==> s[0] != '-')
    && (forall i | 0 < i < |s| :: s[i] != '-' || s[i - 1] != '-')
  }

  /** A tidy string that does not end in a dash either. */
  predicate IsSlug(s: string) {
    IsTidy(s) && (s != "" ==> s[|s| - 1] != '-')
  }

  lemma {:induction false} RawIsTidy(value: string)
    ensures IsTidy(Raw(value))
  {
    if value != "" {
      RawIsTidy(value[..|value| - 1]);
    }
  }

  /** A slug has no leading, trailing or double dash, and only lower-case letters and digits beside. */
  lemma SlugIsSlug(value: string)
    ensures IsSlug(Slug(value))
  {
    RawIsTidy(value);
  }

  lemma {:induction false} RawOfTidy(s: string)
    requires IsTidy(s)
    ensures Raw(s) == s
  {
    if s != "" {
      RawOfTidy(s[..|s| - 1]);
      assert s == s[..|s| - 1] + [s[|s| - 1]];
    }
  }

  /** Slugs are the fixed points of `slugify`, so that applying it twice changes nothing. */
  lemma SlugifyIsIdempotent(s: string)
    ensures IsSlug(s) <==> Slug(s) == s
    ensures Slug(Slug(s)) == Slug(s)
  {
    SlugIsSlug(s);
    if IsSlug(s) {
      RawOfTidy(s);
    }
    RawOfTidy(Slug(s));
  }

  lemma RawMore(value: string, i: nat)
    requires i < |value|
    ensures Raw(value[..i + 1]) == Grown(Raw(value[..i]), value[i])
  {
    assert value[..i + 1][..i] == value[..i];
  }

  /** `slugify`, with its flag for a dash that a separator has just left. */
  method Slugify(value: string) returns (slug: string)
    ensures slug == Slug(value)
  {
    if value == "" {
      return "";
    }
    var result, lastDash := "", false;
    for i := 0 to |value|
      invariant result == Raw(value[..i])
      invariant lastDash <==> result != "" && result[|result| - 1] == '-'
    {
      RawMore(value, i);
      var c := value[i];
      if IsUpper(c) {
        if |result| > 0 && !lastDash {
          result := result + ['-'];
        }
        result := result + [Lower(c)];
        lastDash := false;
      } else if IsPlain(c) {
        result := result + [c];
        lastDash := false;
      } else if IsSeparator(c) {
        if |result| > 0 && !lastDash {
          result := result + ['-'];
          lastDash := true;
        }
      }
    }
    assert value[..|value|] == value;
    slug := TrimDashes(result);
  }

  /** `bytesTrimDash`. */
  method TrimDashes(value: string) returns (trimmed: string)
    ensures trimmed == TrimDashesRight(TrimDashesLeft(value))
  {
    var start := 0;
    while start < |value| && value[start] == '-'
      invariant start <= |value| && TrimDashesLeft(value) == TrimDashesLeft(value[start..])
    {
      assert value[start..][1..] == value[start + 1..];
      start := start + 1;
    }
    var end := |value|;
    assert TrimDashesLeft(value) == value[start..end];
    while end > start && value[end - 1] == '-'
      invariant start <= end <= |value|
      invariant TrimDashesRight(value[start..]) == TrimDashesRight(value[start..end])
    {
      assert value[start..end][..end - start - 1] == value[start..end - 1];
      end := end - 1;
    }
    trimmed := value[start..end];
  }

  // ---- Names ------------------------------------------------------------------------------------------------

  /** A tool descriptor; `body` stands for its description and input schema. */
  datatype Tool = Tool(name: string, body: string)

  datatype Ref = Ref(toolName: string, operationId: string, path: string)

  const NO_REF := Ref("", "", "")

  /** What has been given out so far. */
  datatype Used = Used(ids: set<string>, paths: set<string>)

  const NOTHING := Used({}, {})

  /** `suffix` is the start of the hexadecimal SHA-256 of a name. */
  function Chosen(base: string, used: set<string>, toolName: string, suffix: string -> string): string {
    if base !in used then base else base + "-" + suffix(toolName)
  }

  function OrElse(slug: string, fallback: string): string {
    if slug == "" then fallback else slug
  }

  function PathName(tool: Tool, used: Used, suffix: string -> string): string {
    Chosen(OrElse(Slug(tool.name), "tool"), used.paths, tool.name, suffix)
  }

  function Named(tool: Tool, used: Used, service: string, suffix: string -> string): Ref {
    Ref(tool.name, Chosen(tool.name, used.ids, tool.name, suffix),
        "/_mcp/" + service + "/" + PathName(tool, used, suffix))
  }

  function Taken(tool: Tool, used: Used, suffix: string -> string): Used {
    Used(used.ids + {Chosen(tool.name, used.ids, tool.name, suffix)}, used.paths + {PathName(tool, used, suffix)})
  }

  /** What is given out after naming these tools in order. */
  function UsedAfter(tools: seq<Tool>, used: Used, suffix: string -> string): Used {
    if tools == [] then used
    else Taken(tools[|tools| - 1], UsedAfter(tools[..|tools| - 1], used, suffix), suffix)
  }

  function Refs(tools: seq<Tool>, used: Used, service: string, suffix: string -> string): (r: seq<Ref>)
    ensures |r| == |tools|
  {
    if tools == [] then []
    else
      var before, last := tools[..|tools| - 1], tools[|tools| - 1];
      Refs(before, used, service, suffix) + [Named(last, UsedAfter(before, used, suffix), service, suffix)]
  }

  /** The tools that are (`blocked`) or are not disabled, in order. */
  function Part(tools: seq<Tool>, disabled: set<string>, blocked: bool): seq<Tool> {
    if tools == [] then []
    else
      var last := tools[|tools| - 1];
      Part(tools[..|tools| - 1], disabled, blocked) + if last.name in disabled <==> blocked then [last] else []
  }

  lemma {:induction false} PartHas(tools: seq<Tool>, disabled: set<string>, blocked: bool)
    ensures forall tool :: tool in Part(tools, disabled, blocked) <==>
                           tool in tools && (tool.name in disabled <==> blocked)
  {
    if tools != [] {
      PartHas(tools[..|tools| - 1], disabled, blocked);
      assert tools == tools[..|tools| - 1] + [tools[|tools| - 1]];
    }
  }

  lemma PartMore(tools: seq<Tool>, i: nat, disabled: set<string>, blocked: bool)
    requires i < |tools|
    ensures Part(tools[..i + 1], disabled, blocked) ==
      if tools[i].name in disabled <==> blocked then Part(tools[..i], disabled, blocked) + [tools[i]]
      else Part(tools[..i], disabled, blocked)
  {
    assert tools[..i + 1][..i] == tools[..i];
  }

  lemma RefsMore(tools: seq<Tool>, tool: Tool, used: Used, service: string, suffix: string -> string)
    ensures Refs(tools + [tool], used, service, suffix) ==
      Refs(tools, used, service, suffix) + [Named(tool, UsedAfter(tools, used, suffix), service, suffix)]
    ensures UsedAfter(tools + [tool], used, suffix) == Taken(tool, UsedAfter(tools, used, suffix), suffix)
  {
    assert (tools + [tool])[..|tools|] == tools;
  }

  /** `uniqueValue`, over one of the two maps of names in use. */
  class Names {
    var used: set<string>

    constructor ()
      ensures used == {}
    {
      used := {};
    }

    method UniqueValue(base: string, toolName: string, suffix: string -> string) returns (value: string)
      modifies this
      ensures value == Chosen(base, old(used), toolName, suffix)
      ensures used == old(used) + {value}
      ensures value !in old(used) <==> base !in old(used) || base + "-" + suffix(toolName) !in old(used)
    {
      if base !in used {
        used := used + {base};
        return base;
      }
      value := base + "-" + suffix(toolName);
      used := used + {value};
    }
  }

  // ---- The document -----------------------------------------------------------------------------------------

  datatype Operation = Operation(operationId: string, tool: Tool, schema: string)

  datatype Failure = NameRequired | BadSchema(toolName: string)

  datatype Built = Built(document: map<string, Operation>, all: seq<Ref>, filtered: seq<Ref>)

  predicate HasName(tools: seq<Tool>, name: string) {
    exists tool | tool in tools :: tool.name == name
  }

  /** The last tool with a name. */
  function Lookup(tools: seq<Tool>, name: string): (r: Tool)
    requires HasName(tools, name)
    ensures r in tools && r.name == name
  {
    var last := tools[|tools| - 1];
    assert tools == tools[..|tools| - 1] + [last];
    if last.name == name then last else Lookup(tools[..|tools| - 1], name)
  }

  /** Every reference names one of the tools. */
  predicate Refers(refs: seq<Ref>, tools: seq<Tool>) {
    forall i | 0 <= i < |refs| :: HasName(tools, refs[i].toolName)
  }

  /** The operations of the references, each under its path; `schema` fails where an input schema is malformed. */
  function Document(tools: seq<Tool>, refs: seq<Ref>, schema: Tool -> Option<string>)
    : Result<map<string, Operation>, Failure>
    requires Refers(refs, tools)
  {
    if refs == [] then Ok(map[])
    else
      var before, last := refs[..|refs| - 1], refs[|refs| - 1];
      match Document(tools, before, schema)
      case Err(failure) => Err(failure)
      case Ok(document) =>
        var tool := Lookup(tools, last.toolName);
        match schema(tool)
        case None => Err(BadSchema(tool.name))
        case Some(text) => Ok(document[last.path := Operation(last.operationId, tool, text)])
  }

  // ---- Building, in two passes ------------------------------------------------------------------------------

  /** What is in use when a pass begins: disabled tools are named after all the others. */
  function StartOf(tools: seq<Tool>, disabled: set<string>, blocked: bool, suffix: string -> string): Used {
    if blocked then UsedAfter(Part(tools, disabled, false), NOTHING, suffix) else NOTHING
  }

  function PassRefs(tools: seq<Tool>, disabled: set<string>, blocked: bool, service: string, suffix: string -> string)
    : (r: seq<Ref>)
    ensures |r| == |Part(tools, disabled, blocked)|
  {
    Refs(Part(tools, disabled, blocked), StartOf(tools, disabled, blocked, suffix), service, suffix)
  }

  /** The reference that tool `i` gets in its pass, which began with `start` in use. */
  function RefAt(
    tools: seq<Tool>, disabled: set<string>, start: Used, i: nat, service: string, suffix: string -> string): Ref
    requires i < |tools|
  {
    Named(tools[i], UsedAfter(Part(tools[..i], disabled, tools[i].name in disabled), start, suffix), service, suffix)
  }

  /** All references, in the order of the tools. */
  function AllRefs(tools: seq<Tool>, disabled: set<string>, service: string, suffix: string -> string): (r: seq<Ref>)
    ensures |r| == |tools|
  {
    seq(|tools|, i requires 0 <= i < |tools| =>
      RefAt(tools, disabled, StartOf(tools, disabled, tools[i].name in disabled, suffix), i, service, suffix))
  }

  /** The references among `refs` of the tools that are, or are not, disabled. */
  function Select(refs: seq<Ref>, tools: seq<Tool>, disabled: set<string>, blocked: bool): seq<Ref>
    requires |refs| == |tools|
  {
    if tools == [] then []
    else
      Select(refs[..|refs| - 1], tools[..|tools| - 1], disabled, blocked)
      + if tools[|tools| - 1].name in disabled <==> blocked then [refs[|refs| - 1]] else []
  }

  /** The filtered operations are exactly those of the enabled tools among all operations, in order; and likewise the
      disabled ones. */
  lemma FilteredIsEnabledPart(
    tools: seq<Tool>, disabled: set<string>, blocked: bool, service: string, suffix: string -> string)
    ensures PassRefs(tools, disabled, blocked, service, suffix) ==
            Select(AllRefs(tools, disabled, service, suffix), tools, disabled, blocked)
  {
    SelectIsPass(tools, disabled, blocked, StartOf(tools, disabled, blocked, suffix),
                 AllRefs(tools, disabled, service, suffix), service, suffix);
  }

  /** The references of the tools of one pass are those of that pass. */
  predicate PassHolds(
    tools: seq<Tool>, disabled: set<string>, blocked: bool, start: Used, refs: seq<Ref>, service: string,
    suffix: string -> string)
  {
    && |refs| == |tools|
    && forall i | 0 <= i < |tools| && (tools[i].name in disabled <==> blocked) ::
         refs[i] == RefAt(tools, disabled, start, i, service, suffix)
  }

  lemma PassHoldsBefore(
    tools: seq<Tool>, disabled: set<string>, blocked: bool, start: Used, refs: seq<Ref>, service: string,
    suffix: string -> string)
    requires tools != [] && PassHolds(tools, disabled, blocked, start, refs, service, suffix)
    ensures PassHolds(tools[..|tools| - 1], disabled, blocked, start, refs[..|tools| - 1], service, suffix)
    ensures var n := |tools| - 1;
      (tools[n].name in disabled <==> blocked) ==>
        refs[n] == Named(tools[n], UsedAfter(Part(tools[..n], disabled, blocked), start, suffix), service, suffix)
  {
    hide Named, UsedAfter, Part;
    var n := |tools| - 1;
    forall i | 0 <= i < n && (tools[..n][i].name in disabled <==> blocked)
      ensures refs[..n][i] == RefAt(tools[..n], disabled, start, i, service, suffix)
    {
      assert tools[..n][i] == tools[i] && tools[..n][..i] == tools[..i];
    }
  }

  lemma {:induction false} SelectIsPass(
    tools: seq<Tool>, disabled: set<string>, blocked: bool, start: Used, refs: seq<Ref>, service: string,
    suffix: string -> string)
    requires |refs| == |tools| && PassHolds(tools, disabled, blocked, start, refs, service, suffix)
    ensures Refs(Part(tools, disabled, blocked), start, service, suffix) == Select(refs, tools, disabled, blocked)
  {
    if tools == [] {
      NoTools(disabled, blocked, start, service, suffix);
    } else {
      hide Named, Taken, UsedAfter, Part, Refs, PassHolds;
      var n := |tools| - 1;
      PassHoldsBefore(tools, disabled, blocked, start, refs, service, suffix);
      SelectIsPass(tools[..n], disabled, blocked, start, refs[..n], service, suffix);
      PartMore(tools, n, disabled, blocked);
      assert tools[..n + 1] == tools;
      if tools[n].name in disabled <==> blocked {
        RefsMore(Part(tools[..n], disabled, blocked), tools[n], start, service, suffix);
      }
    }
  }

  lemma {:induction false} RefsRefer(tools: seq<Tool>, used: Used, service: string, suffix: string -> string)
    ensures forall i | 0 <= i < |tools| :: Refs(tools, used, service, suffix)[i].toolName == tools[i].name
  {
    if tools != [] {
      RefsRefer(tools[..|tools| - 1], used, service, suffix);
    }
  }

  lemma FilteredRefer(tools: seq<Tool>, disabled: set<string>, service: string, suffix: string -> string)
    ensures var refs := PassRefs(tools, disabled, false, service, suffix);
      && Refers(refs, tools) && Refers(refs, Part(tools, disabled, false))
      && forall i | 0 <= i < |refs| :: refs[i].toolName !in disabled
  {
    var kept := Part(tools, disabled, false);
    var refs := PassRefs(tools, disabled, false, service, suffix);
    RefsRefer(kept, NOTHING, service, suffix);
    PartHas(tools, disabled, false);
    forall i | 0 <= i < |refs|
      ensures HasName(tools, refs[i].toolName) && HasName(kept, refs[i].toolName) && refs[i].toolName !in disabled
    {
      assert kept[i] in kept;
    }
  }

  /** The result of a build. */
  function Build(
    tools: seq<Tool>, disabled: set<string>, service: string, suffix: string -> string, schema: Tool -> Option<string>)
    : Result<Built, Failure>
  {
    if HasName(tools, "") then Err(NameRequired)
    else
      FilteredRefer(tools, disabled, service, suffix);
      var filtered := PassRefs(tools, disabled, false, service, suffix);
      match Document(tools, filtered, schema)
      case Err(failure) => Err(failure)
      case Ok(document) => Ok(Built(document, AllRefs(tools, disabled, service, suffix), filtered))
  }

  lemma NoTools(disabled: set<string>, blocked: bool, start: Used, service: string, suffix: string -> string)
    ensures Part([], disabled, blocked) == [] && UsedAfter([], start, suffix) == start
    ensures Refs([], start, service, suffix) == []
  {
  }

  /** The inner loop of `BuildDocumentResult`: one pass over the tools. */
  method RunPass(
    tools: seq<Tool>, disabled: set<string>, blocked: bool, ids: Names, paths: Names, refs: array<Ref>,
    filtered: seq<Ref>, service: string, suffix: string -> string, ghost start: Used)
    returns (failed: bool, filteredRefs: seq<Ref>)
    requires ids != paths && refs.Length == |tools| && start == Used(ids.used, paths.used)
    modifies ids, paths, refs
    ensures failed <==> HasName(tools, "")
    ensures !failed ==>
      && Used(ids.used, paths.used) == UsedAfter(Part(tools, disabled, blocked), start, suffix)
      && filteredRefs ==
           filtered + (if blocked then [] else Refs(Part(tools, disabled, blocked), start, service, suffix))
      && forall i | 0 <= i < |tools| ::
           refs[i] == if tools[i].name in disabled <==> blocked then RefAt(tools, disabled, start, i, service, suffix)
                      else old(refs[i])
  {
    hide Part, Refs, UsedAfter, Slug, Chosen;
    filteredRefs := filtered;
    NoTools(disabled, blocked, start, service, suffix);
    assert tools[..0] == [];
    for i := 0 to |tools|
      invariant forall j | 0 <= j < i :: tools[j].name != ""
      invariant Used(ids.used, paths.used) == UsedAfter(Part(tools[..i], disabled, blocked), start, suffix)
      invariant filteredRefs ==
        filtered + (if blocked then [] else Refs(Part(tools[..i], disabled, blocked), start, service, suffix))
      invariant forall j | 0 <= j < |tools| ::
        refs[j] == if j < i && (tools[j].name in disabled <==> blocked)
                   then RefAt(tools, disabled, start, j, service, suffix) else old(refs[j])
    {
      var tool := tools[i];
      if tool.name == "" {
        return true, [];
      }
      PartMore(tools, i, disabled, blocked);
      if (tool.name in disabled) != blocked {
        continue;
      }
      RefsMore(Part(tools[..i], disabled, blocked), tool, start, service, suffix);
      var operationId := ids.UniqueValue(tool.name, tool.name, suffix);
      var pathSlug := Slugify(tool.name);
      if pathSlug == "" {
        pathSlug := "tool";
      }
      var pathValue := paths.UniqueValue(pathSlug, tool.name, suffix);
      var ref := Ref(tool.name, operationId, "/_mcp/" + service + "/" + pathValue);
      refs[i] := ref;
      if !blocked {
        filteredRefs := filteredRefs + [ref];
      }
    }
    assert tools[..|tools|] == tools;
    return false, filteredRefs;
  }

  /** A map from each name to the last tool of that name. */
  ghost predicate ByName(toolsByName: map<string, Tool>, tools: seq<Tool>) {
    && (forall name :: name in toolsByName <==> HasName(tools, name))
    && forall name | name in toolsByName :: HasName(tools, name) && toolsByName[name] == Lookup(tools, name)
  }

  lemma LookupMore(tools: seq<Tool>, i: nat, name: string)
    requires i < |tools|
    ensures HasName(tools[..i + 1], name) <==> HasName(tools[..i], name) || name == tools[i].name
    ensures HasName(tools[..i + 1], name) ==>
      Lookup(tools[..i + 1], name) == if name == tools[i].name then tools[i] else Lookup(tools[..i], name)
  {
    var more := tools[..i + 1];
    assert more == tools[..i] + [tools[i]];
    if HasName(tools[..i], name) {
      var tool :| tool in tools[..i] && tool.name == name;
      assert tool in more;
    }
    assert tools[i] in more;
    assert more[..|more| - 1] == tools[..i];
  }

  lemma NoneByName(tools: seq<Tool>)
    ensures ByName(map[], tools[..0])
  {
  }

  lemma OneMoreByName(toolsByName: map<string, Tool>, tools: seq<Tool>, i: nat)
    requires i < |tools| && ByName(toolsByName, tools[..i])
    ensures ByName(toolsByName[tools[i].name := tools[i]], tools[..i + 1])
  {
    hide HasName, Lookup;
    var after := toolsByName[tools[i].name := tools[i]];
    forall name
      ensures name in after <==> HasName(tools[..i + 1], name)
    {
      LookupMore(tools, i, name);
      assert name != tools[i].name ==> (name in after <==> name in toolsByName);
    }
    forall name | name in after
      ensures after[name] == Lookup(tools[..i + 1], name)
    {
      LookupMore(tools, i, name);
      if name != tools[i].name {
        assert name in toolsByName && after[name] == toolsByName[name];
      }
    }
  }

  lemma IsByName(toolsByName: map<string, Tool>, tools: seq<Tool>, name: string)
    requires ByName(toolsByName, tools) && HasName(tools, name)
    ensures name in toolsByName && toolsByName[name] == Lookup(tools, name)
  {
  }

  /** `buildDocumentFromRefs`. */
  method BuildDocument(tools: seq<Tool>, refs: seq<Ref>, schema: Tool -> Option<string>)
    returns (result: Result<map<string, Operation>, Failure>)
    requires Refers(refs, tools)
    ensures result == Document(tools, refs, schema)
  {
    hide Lookup, HasName, ByName;
    var toolsByName: map<string, Tool> := map[];
    NoneByName(tools);
    for i := 0 to |tools|
      invariant ByName(toolsByName, tools[..i])
    {
      OneMoreByName(toolsByName, tools, i);
      toolsByName := toolsByName[tools[i].name := tools[i]];
    }
    assert tools[..|tools|] == tools;
    var document: map<string, Operation> := map[];
    for i := 0 to |refs|
      invariant Document(tools, refs[..i], schema) == Ok(document)
    {
      assert refs[..i + 1][..i] == refs[..i];
      assert HasName(tools, refs[i].toolName);
      IsByName(toolsByName, tools, refs[i].toolName);
      var tool := toolsByName[refs[i].toolName];
      var text := schema(tool);
      if text.None? {
        DocumentFails(tools, refs, i + 1, schema);
        return Err(BadSchema(tool.name));
      }
      document := document[refs[i].path := Operation(refs[i].operationId, tool, text.value)];
    }
    assert refs[..|refs|] == refs;
    return Ok(document);
  }

  lemma {:induction false} DocumentFails(tools: seq<Tool>, refs: seq<Ref>, n: nat, schema: Tool -> Option<string>)
    requires Refers(refs, tools) && n <= |refs| && Document(tools, refs[..n], schema).Err?
    ensures Document(tools, refs, schema) == Document(tools, refs[..n], schema)
  {
    if n == |refs| {
      assert refs[..n] == refs;
    } else {
      var before := refs[..|refs| - 1];
      assert before[..n] == refs[..n];
      DocumentFails(tools, before, n, schema);
    }
  }

  /** `BuildDocumentResult`. */
  method BuildDocumentResult(
    serviceId: string, tools: seq<Tool>, disabledTools: seq<string>, suffix: string -> string,
    schema: Tool -> Option<string>)
    returns (result: Result<Built, Failure>)
    ensures result ==
      Build(tools, (set name | name in disabledTools), OrElse(Slug(serviceId), "service"), suffix, schema)
  {
    hide Part, Refs, UsedAfter, Slug, Document, RefAt;
    var disabled := set name | name in disabledTools;
    var service := Slugify(serviceId);
    if service == "" {
      service := "service";
    }
    var ids := new Names();
    var paths := new Names();
    var refs := new Ref[|tools|](_ => NO_REF);
    var failed: bool, filtered: seq<Ref> := false, [];
    failed, filtered := RunPass(tools, disabled, false, ids, paths, refs, filtered, service, suffix, NOTHING);
    if failed {
      return Err(NameRequired);
    }
    failed, filtered := RunPass(tools, disabled, true, ids, paths, refs, filtered, service, suffix,
                                StartOf(tools, disabled, true, suffix));
    if failed {
      assert false;
    }
    var all := refs[..];
    assert all == AllRefs(tools, disabled, service, suffix);
    FilteredRefer(tools, disabled, service, suffix);
    assert filtered == PassRefs(tools, disabled, false, service, suffix);
    var document := BuildDocument(tools, filtered, schema);
    match document
    case Err(failure) => return Err(failure);
    case Ok(text) => return Ok(Built(text, all, filtered));
  }

  // ---- Disabled tools ---------------------------------------------------------------------------------------

  /** Two builds give callers the same: the same failure, or the same document and the same filtered operations. */
  predicate Agree(a: Result<Built, Failure>, b: Result<Built, Failure>) {
    match (a, b)
    case (Ok(x), Ok(y)) => x.document == y.document && x.filtered == y.filtered
    case (Err(x), Err(y)) => x == y
    case _ => false
  }

  lemma {:induction false} PartOfAll(tools: seq<Tool>)
    ensures Part(tools, {}, false) == tools
  {
    if tools != [] {
      PartOfAll(tools[..|tools| - 1]);
    }
  }

  lemma {:induction false} LookupInPart(tools: seq<Tool>, disabled: set<string>, name: string)
    requires name !in disabled && HasName(tools, name) && HasName(Part(tools, disabled, false), name)
    ensures Lookup(tools, name) == Lookup(Part(tools, disabled, false), name)
  {
    hide Part;
    var n := |tools| - 1;
    var kept := Part(tools[..n], disabled, false);
    PartMore(tools, n, disabled, false);
    assert tools[..n + 1] == tools == tools[..n] + [tools[n]];
    if tools[n].name != name {
      var tool :| tool in Part(tools, disabled, false) && tool.name == name;
      assert tool in kept;
      PartHas(tools[..n], disabled, false);
      LookupInPart(tools[..n], disabled, name);
      assert tools[n].name !in disabled ==> (kept + [tools[n]])[..|kept|] == kept;
    }
  }

  lemma {:induction false} DocumentOfPart(
    tools: seq<Tool>, disabled: set<string>, refs: seq<Ref>, schema: Tool -> Option<string>)
    requires Refers(refs, tools) && Refers(refs, Part(tools, disabled, false))
    requires forall i | 0 <= i < |refs| :: refs[i].toolName !in disabled
    ensures Document(tools, refs, schema) == Document(Part(tools, disabled, false), refs, schema)
  {
    if refs != [] {
      DocumentOfPart(tools, disabled, refs[..|refs| - 1], schema);
      LookupInPart(tools, disabled, refs[|refs| - 1].toolName);
    }
  }

  /** Disabled tools never influence the enabled ones, if and only if none of them lacks a name: even a disabled tool
      without a name fails the whole build. */
  lemma DisabledToolsDoNotMatterIff(
    tools: seq<Tool>, disabled: set<string>, service: string, suffix: string -> string, schema: Tool -> Option<string>)
    ensures Agree(Build(tools, disabled, service, suffix, schema),
                  Build(Part(tools, disabled, false), {}, service, suffix, schema))
            <==> !("" in disabled && HasName(tools, ""))
  {
    hide Part, Document, Refs, AllRefs, UsedAfter;
    var kept := Part(tools, disabled, false);
    PartOfAll(kept);
    FilteredRefer(tools, disabled, service, suffix);
    FilteredRefer(kept, {}, service, suffix);
    DocumentOfPart(tools, disabled, PassRefs(tools, disabled, false, service, suffix), schema);
    assert HasName(kept, "") <==> HasName(tools, "") && "" !in disabled by {
      PartHas(tools, disabled, false);
      if HasName(tools, "") && "" !in disabled {
        var tool :| tool in tools && tool.name == "";
        assert tool in kept;
      }
    }
    NoNameRequired(kept, PassRefs(kept, {}, false, service, suffix), schema);
  }

  lemma {:induction false} NoNameRequired(tools: seq<Tool>, refs: seq<Ref>, schema: Tool -> Option<string>)
    requires Refers(refs, tools)
    ensures Document(tools, refs, schema) != Err(NameRequired)
  {
    if refs != [] {
      NoNameRequired(tools, refs[..|refs| - 1], schema);
    }
  }

  // ---- Operation IDs ----------------------------------------------------------------------------------------

  predicate DistinctNames(tools: seq<Tool>) {
    forall i, j | 0 <= i < j < |tools| :: tools[i].name != tools[j].name
  }

  predicate NamesKept(refs: seq<Ref>) {
    forall i | 0 <= i < |refs| :: refs[i].operationId == refs[i].toolName
  }

  lemma {:induction false} NamesAreUsed(tools: seq<Tool>, suffix: string -> string)
    ensures forall tool | tool in tools :: tool.name in UsedAfter(tools, NOTHING, suffix).ids
  {
    if tools != [] {
      hide Slug;
      NamesAreUsed(tools[..|tools| - 1], suffix);
      assert tools == tools[..|tools| - 1] + [tools[|tools| - 1]];
    }
  }

  /** Without a repeated name, only names are used as operation IDs. */
  lemma {:induction false} OnlyNamesAreUsed(tools: seq<Tool>, suffix: string -> string)
    requires DistinctNames(tools)
    ensures forall id | id in UsedAfter(tools, NOTHING, suffix).ids :: HasName(tools, id)
  {
    if tools != [] {
      hide Slug;
      var before, last := tools[..|tools| - 1], tools[|tools| - 1];
      OnlyNamesAreUsed(before, suffix);
      assert tools == before + [last] && last in tools;
      assert !HasName(before, last.name);
      forall id | id in UsedAfter(tools, NOTHING, suffix).ids ensures HasName(tools, id) {
        if HasName(before, id) {
          var tool :| tool in before && tool.name == id;
          assert tool in tools;
        }
      }
    }
  }

  /** Every enabled operation is called like its tool if and only if no two enabled tools share a name. */
  lemma {:induction false} NamesKeptIff(tools: seq<Tool>, service: string, suffix: string -> string)
    ensures NamesKept(Refs(tools, NOTHING, service, suffix)) <==> DistinctNames(tools)
  {
    if tools != [] {
      var before, last := tools[..|tools| - 1], tools[|tools| - 1];
      NamesKeptIff(before, service, suffix);
      assert tools == before + [last];
      RefsMore(before, last, NOTHING, service, suffix);
      hide Refs, UsedAfter, Slug;
      var used, refs := UsedAfter(before, NOTHING, suffix), Refs(before, NOTHING, service, suffix);
      KeptOneMore(refs, Named(last, used, service, suffix));
      DistinctOneMore(before, last);
      NamesAreUsed(before, suffix);
      if DistinctNames(before) {
        OnlyNamesAreUsed(before, suffix);
      }
      if HasName(before, last.name) {
        var tool :| tool in before && tool.name == last.name;
      }
      assert (last.name + "-" + suffix(last.name))[|last.name|..] != last.name[|last.name|..];
    }
  }

  lemma KeptOneMore(refs: seq<Ref>, ref: Ref)
    ensures NamesKept(refs + [ref]) <==> NamesKept(refs) && ref.operationId == ref.toolName
  {
    assert (refs + [ref])[|refs|] == ref;
    assert forall i | 0 <= i < |refs| :: (refs + [ref])[i] == refs[i];
  }

  lemma DistinctOneMore(tools: seq<Tool>, tool: Tool)
    ensures DistinctNames(tools + [tool]) <==> DistinctNames(tools) && !HasName(tools, tool.name)
  {
    var more := tools + [tool];
    assert forall i | 0 <= i < |tools| :: more[i] == tools[i];
    assert more[|tools|] == tool;
  }

  /** Three tools of one name: the second and the third get the same operation ID. */
  lemma ThreeOfAName(service: string, suffix: string -> string)
    ensures var refs := Refs([Tool("a", ""), Tool("a", ""), Tool("a", "")], NOTHING, service, suffix);
      refs[1].operationId == refs[2].operationId
  {
    var tool := Tool("a", "");
    RefsMore([], tool, NOTHING, service, suffix);
    RefsMore([tool], tool, NOTHING, service, suffix);
    RefsMore([tool, tool], tool, NOTHING, service, suffix);
    assert [] + [tool] == [tool] && [tool] + [tool] == [tool, tool] && [tool, tool] + [tool] == [tool, tool, tool];
  }
}
