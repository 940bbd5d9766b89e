/** What MCP operations are called and what is said of them (pkg/mcp/openapi/adapter.go). */
module OperationLaws {
  import opened Wrappers
  import opened McpOpenApi
  import opened OperationNames

  /** Tool `j` is named before tool `i`: the enabled ones come first, and otherwise the order is that of the list. */
  predicate NamedBefore(tools: seq<Tool>, disabled: set<string>, j: nat, i: nat)
    requires i < |tools| && j < |tools|
  {
    if tools[j].name in disabled <==> tools[i].name in disabled then j < i else tools[i].name in disabled
  }

  function FullPath(service: string, name: string): string {
    "/_mcp/" + service + "/" + name
  }

  ghost predicate IdTaken(tools: seq<Tool>, disabled: set<string>, all: seq<Ref>, i: nat, id: string)
    requires |all| == |tools| && i < |tools|
  {
    exists j: nat | j < |tools| :: NamedBefore(tools, disabled, j, i) && all[j].operationId == id
  }

  ghost predicate PathTaken(tools: seq<Tool>, disabled: set<string>, all: seq<Ref>, i: nat, path: string)
    requires |all| == |tools| && i < |tools|
  {
    exists j: nat | j < |tools| :: NamedBefore(tools, disabled, j, i) && all[j].path == path
  }

  function BaseOf(tool: Tool): string {
    if Slug(tool.name) == "" then "tool" else Slug(tool.name)
  }

  /** Each tool has its name as operation ID and its slug as path, with a suffix where a tool named before it has it
      already. */
  ghost predicate NamedInTurn(
    tools: seq<Tool>, disabled: set<string>, service: string, suffix: string -> string, all: seq<Ref>)
  {
    && |all| == |tools|
    && forall i | 0 <= i < |tools| ::
         var name, base := tools[i].name, BaseOf(tools[i]);
         && all[i].toolName == name
         && all[i].operationId == (if IdTaken(tools, disabled, all, i, name) then name + "-" + suffix(name) else name)
         && all[i].path ==
              FullPath(service, if PathTaken(tools, disabled, all, i, FullPath(service, base))
                                then base + "-" + suffix(name) else base)
  }

  /** What is in use after a pass: what was before, and what the pass has given out. */
  lemma {:induction false} UsedAre(tools: seq<Tool>, used: Used, service: string, suffix: string -> string, x: string)
    ensures var refs, after := Refs(tools, used, service, suffix), UsedAfter(tools, used, suffix);
            && (x in after.ids <==> x in used.ids || exists ref | ref in refs :: ref.operationId == x)
            && (x in after.paths <==> x in used.paths || exists ref | ref in refs :: ref.path == FullPath(service, x))
    decreases |tools|
  {
    if tools != [] {
      var before, last := tools[..|tools| - 1], tools[|tools| - 1];
      UsedAre(before, used, service, suffix, x);
      hide Refs, UsedAfter, Slug, Chosen;
      assert tools == before + [last];
      RefsMore(before, last, used, service, suffix);
      var name := PathName(last, UsedAfter(before, used, suffix), suffix);
      SamePrefix("/_mcp/" + service + "/", name, x);
      var ref := Named(last, UsedAfter(before, used, suffix), service, suffix);
      assert forall r ::
        r in Refs(tools, used, service, suffix) <==> r in Refs(before, used, service, suffix) || r == ref;
    }
  }

  lemma {:induction false} Selected(refs: seq<Ref>, tools: seq<Tool>, disabled: set<string>, blocked: bool, ref: Ref)
    requires |refs| == |tools|
    ensures ref in Select(refs, tools, disabled, blocked) <==>
      exists j | 0 <= j < |tools| :: refs[j] == ref && (tools[j].name in disabled <==> blocked)
    decreases |tools|
  {
    if tools != [] {
      var n := |tools| - 1;
      Selected(refs[..n], tools[..n], disabled, blocked, ref);
      assert forall j | 0 <= j < n :: refs[..n][j] == refs[j] && tools[..n][j] == tools[j];
    }
  }

  /** The references given out in a pass to the first `i` tools. */
  lemma GivenInPass(tools: seq<Tool>, disabled: set<string>, blocked: bool, i: nat, service: string,
                    suffix: string -> string)
    requires i <= |tools|
    ensures var refs := AllRefs(tools, disabled, service, suffix);
      Refs(Part(tools[..i], disabled, blocked), StartOf(tools, disabled, blocked, suffix), service, suffix) ==
      Select(refs[..i], tools[..i], disabled, blocked)
  {
    hide Refs, UsedAfter, Part, Named;
    var refs := AllRefs(tools, disabled, service, suffix);
    assert PassHolds(tools[..i], disabled, blocked, StartOf(tools, disabled, blocked, suffix), refs[..i], service,
                     suffix) by {
      forall j | 0 <= j < i
        ensures tools[..i][..j] == tools[..j]
      {
      }
    }
    SelectIsPass(tools[..i], disabled, blocked, StartOf(tools, disabled, blocked, suffix), refs[..i], service, suffix);
  }

  /** What is in use when tool `i` is named is what the tools named before it have. */
  lemma InUse(tools: seq<Tool>, disabled: set<string>, service: string, suffix: string -> string, i: nat, x: string)
    requires i < |tools|
    ensures var blocked := tools[i].name in disabled;
            var start := StartOf(tools, disabled, blocked, suffix);
            var used := UsedAfter(Part(tools[..i], disabled, blocked), start, suffix);
            var all := AllRefs(tools, disabled, service, suffix);
            && (x in used.ids <==> IdTaken(tools, disabled, all, i, x))
            && (x in used.paths <==> PathTaken(tools, disabled, all, i, FullPath(service, x)))
  {
    hide Refs, UsedAfter, Part, AllRefs, Select, FullPath;
    var blocked, all := tools[i].name in disabled, AllRefs(tools, disabled, service, suffix);
    UsedAre(Part(tools[..i], disabled, blocked), StartOf(tools, disabled, blocked, suffix), service, suffix, x);
    GivenInPass(tools, disabled, blocked, i, service, suffix);
    forall ref
      ensures ref in Select(all[..i], tools[..i], disabled, blocked) <==>
        exists j | 0 <= j < i :: all[j] == ref && (tools[j].name in disabled <==> blocked)
    {
      Selected(all[..i], tools[..i], disabled, blocked, ref);
      assert forall j | 0 <= j < i :: all[..i][j] == all[j] && tools[..i][j] == tools[j];
    }
    if blocked {
      UsedAre(Part(tools, disabled, false), NOTHING, service, suffix, x);
      GivenInPass(tools, disabled, false, |tools|, service, suffix);
      assert tools[..|tools|] == tools && all[..|tools|] == all;
      forall ref
        ensures ref in Select(all, tools, disabled, false) <==>
          exists j | 0 <= j < |tools| :: all[j] == ref && tools[j].name !in disabled
      {
        Selected(all, tools, disabled, false, ref);
      }
    }
  }

  /** All operations are named in turn, in whichever of the two passes. */
  lemma AllNamedInTurn(tools: seq<Tool>, disabled: set<string>, service: string, suffix: string -> string)
    ensures NamedInTurn(tools, disabled, service, suffix, AllRefs(tools, disabled, service, suffix))
  {
    hide UsedAfter, Part, StartOf, Slug, IdTaken, PathTaken;
    var all := AllRefs(tools, disabled, service, suffix);
    forall i | 0 <= i < |tools|
      ensures var name, base := tools[i].name, BaseOf(tools[i]);
        && all[i].toolName == name
        && all[i].operationId == (if IdTaken(tools, disabled, all, i, name) then name + "-" + suffix(name) else name)
        && all[i].path ==
             FullPath(service, if PathTaken(tools, disabled, all, i, FullPath(service, base))
                               then base + "-" + suffix(name) else base)
    {
      InUse(tools, disabled, service, suffix, i, tools[i].name);
      InUse(tools, disabled, service, suffix, i, BaseOf(tools[i]));
    }
  }

  /** The last tool of a name. */
  predicate LastNamed(tools: seq<Tool>, name: string, k: nat) {
    k < |tools| && tools[k].name == name && forall l | k < l < |tools| :: tools[l].name != name
  }

  lemma {:induction false} LookupIs(tools: seq<Tool>, name: string, k: nat)
    requires LastNamed(tools, name, k)
    ensures HasName(tools, name) && Lookup(tools, name) == tools[k]
    decreases |tools|
  {
    assert tools[k] in tools;
    if k < |tools| - 1 {
      assert tools[|tools| - 1].name != name;
      LookupIs(tools[..|tools| - 1], name, k);
    }
  }

  /** If operation `i` is the last one with its path and tool `k` the last of its name, the document says so. */
  ghost predicate EntryHolds(tools: seq<Tool>, refs: seq<Ref>, schema: Tool -> Option<string>,
                             document: map<string, Operation>, i: nat, k: nat) {
    i < |refs| && LastOfPath(refs, i) && LastNamed(tools, refs[i].toolName, k) ==>
      && refs[i].path in document && schema(tools[k]).Some?
      && document[refs[i].path] == Operation(refs[i].operationId, tools[k], schema(tools[k]).value)
  }

  lemma EntryIs(tools: seq<Tool>, refs: seq<Ref>, schema: Tool -> Option<string>, i: nat, k: nat)
    requires Refers(refs, tools) && Document(tools, refs, schema).Ok?
    ensures EntryHolds(tools, refs, schema, Document(tools, refs, schema).value, i, k)
  {
    hide Document, LastOfPath, Lookup;
    if i < |refs| && LastOfPath(refs, i) && LastNamed(tools, refs[i].toolName, k) {
      DocumentEntries(tools, refs, schema, i);
      LookupIs(tools, refs[i].toolName, k);
    }
  }

  lemma PathsOfIs(refs: seq<Ref>, path: string)
    ensures path in PathsOf(refs) <==> exists i | 0 <= i < |refs| :: refs[i].path == path
  {
    if path in PathsOf(refs) {
      var ref :| ref in refs && ref.path == path;
      var i :| 0 <= i < |refs| && refs[i] == ref;
    }
    if i :| 0 <= i < |refs| && refs[i].path == path {
      assert refs[i] in refs;
    }
  }

  /** What a build that succeeds gives: all operations, named in turn; those of the enabled tools among them, in order;
      and a document that has exactly their paths, where the last operation with a path counts, with the last tool of
      its name. */
  lemma BuildGives(
    tools: seq<Tool>, disabled: set<string>, service: string, suffix: string -> string, schema: Tool -> Option<string>)
    requires Build(tools, disabled, service, suffix, schema).Ok?
    ensures var built := Build(tools, disabled, service, suffix, schema).value;
      && NamedInTurn(tools, disabled, service, suffix, built.all)
      && built.filtered == Select(built.all, tools, disabled, false)
      && (forall path :: path in built.document <==>
            exists i | 0 <= i < |built.filtered| :: built.filtered[i].path == path)
      && forall i: nat, k: nat :: EntryHolds(tools, built.filtered, schema, built.document, i, k)
  {
    hide Document, PassRefs, AllRefs, LastOfPath, Lookup, Select, NamedInTurn, LastNamed, PathsOf, Refers,
      HasName, EntryHolds;
    AllNamedInTurn(tools, disabled, service, suffix);
    FilteredRefer(tools, disabled, service, suffix);
    FilteredIsEnabledPart(tools, disabled, false, service, suffix);
    var built := Build(tools, disabled, service, suffix, schema).value;
    DocumentKeys(tools, built.filtered, schema);
    forall path
      ensures path in built.document <==>
        exists i | 0 <= i < |built.filtered| :: built.filtered[i].path == path
    {
      assert path in built.document <==> path in built.document.Keys;
      PathsOfIs(built.filtered, path);
    }
    forall i: nat, k: nat
      ensures EntryHolds(tools, built.filtered, schema, built.document, i, k)
    {
      EntryIs(tools, built.filtered, schema, i, k);
    }
  }
}
