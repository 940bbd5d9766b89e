/** The authorization envelope (internal/runtime/server.go with pkg/policy/policy.go and pkg/catalog/types.go):
    from the scopes of a caller to its tools, the catalog it sees, and the gates it passes. */
module Authorization {
  import opened Wrappers
  import opened Text

  datatype Tool = Tool(id: string, serviceId: string, requiresApproval: bool)

  datatype Service = Service(id: string)

  datatype WorkflowStep = WorkflowStep(stepId: string, toolId: string)

  datatype Workflow = Workflow(id: string, steps: seq<WorkflowStep>)

  datatype View = View(name: string, mode: string, tools: seq<Tool>)

  datatype Catalog = Catalog(tools: seq<Tool>, services: seq<Service>, workflows: seq<Workflow>, views: seq<View>)

  datatype ToolSet = ToolSet(allow: seq<string>, deny: seq<string>)

  datatype Profile = Profile(mode: string, toolSet: string)

  /** `glob` is `path.Match`, None where it reports a malformed pattern. */
  datatype Config = Config(
    defaultMode: string, defaultProfile: string, profiles: map<string, Profile>, toolSets: map<string, ToolSet>,
    deny: seq<string>, managedDeny: seq<string>, approvalRequired: seq<string>,
    glob: (string, string) -> Option<bool>)
  {
    predicate Matches(pattern: string, value: string) {
      pattern == "**" || (match glob(pattern, value) case Some(matched) => matched case None => pattern == value)
    }

    predicate MatchesSome(patterns: seq<string>, value: string) {
      exists pattern | pattern in patterns :: Matches(pattern, value)
    }

    /** What a tool set lets through: a catch-all denial beside an allow list says nothing. */
    predicate Lets(toolSet: ToolSet, id: string) {
      && (toolSet.allow != [] ==> MatchesSome(toolSet.allow, id))
      && forall pattern | pattern in toolSet.deny ::
           Matches(pattern, id) ==> pattern == "**" && toolSet.allow != []
    }

    function ToolSetNamed(name: string): ToolSet {
      if name in toolSets then toolSets[name] else ToolSet([], [])
    }

    /** The pattern checks of pkg/policy/policy.go. */
    method MatchesAny(patterns: seq<string>, value: string) returns (r: bool)
      ensures r == MatchesSome(patterns, value)
    {
      for i := 0 to |patterns|
        invariant forall j | 0 <= j < i :: !Matches(patterns[j], value)
      {
        if Matches(patterns[i], value) {
          return true;
        }
      }
      return false;
    }

    method ToolAllowed(id: string, toolSet: ToolSet) returns (r: bool)
      ensures r == Lets(toolSet, id)
    {
      if |toolSet.allow| > 0 {
        var listed := MatchesAny(toolSet.allow, id);
        if !listed {
          return false;
        }
      }
      for i := 0 to |toolSet.deny|
        invariant forall j | 0 <= j < i ::
          Matches(toolSet.deny[j], id) ==> toolSet.deny[j] == "**" && toolSet.allow != []
      {
        if toolSet.deny[i] == "**" && |toolSet.allow| > 0 {
          continue;
        }
        if Matches(toolSet.deny[i], id) {
          return false;
        }
      }
      return true;
    }
  }

  // ---- From scopes to tools ---------------------------------------------------------------------------------

  function Ids(tools: seq<Tool>): set<string> {
    set tool | tool in tools :: tool.id
  }

  function Bundle(catalog: Catalog, serviceId: string): set<string> {
    set tool | tool in catalog.tools && tool.serviceId == serviceId :: tool.id
  }

  /** The tools of an agent profile: those its tool set lets through in curated mode, else all. */
  function ProfileTools(config: Config, catalog: Catalog, name: string): set<string> {
    if name !in config.profiles then {}
    else
      var profile := config.profiles[name];
      var mode := if profile.mode == "" then config.defaultMode else profile.mode;
      if mode != "curated" then Ids(catalog.tools)
      else set tool | tool in catalog.tools && config.Lets(config.ToolSetNamed(profile.toolSet), tool.id) :: tool.id
  }

  predicate IsBroad(scope: string) {
    HasPrefix(scope, "bundle:") || HasPrefix(scope, "profile:")
  }

  /** What one bundle or profile scope gives. */
  function Given(config: Config, catalog: Catalog, scope: string): set<string> {
    if HasPrefix(scope, "bundle:") then Bundle(catalog, scope[7..])
    else if HasPrefix(scope, "profile:") then ProfileTools(config, catalog, scope[8..])
    else {}
  }

  /** The tools that bundle and profile scopes give together. */
  function Broad(config: Config, catalog: Catalog, scopes: set<string>): set<string> {
    set scope, id | scope in scopes && id in Given(config, catalog, scope) :: id
  }

  /** The tools of the catalog named by tool scopes. */
  function Named(catalog: Catalog, scopes: set<string>): set<string> {
    set id | id in Ids(catalog.tools) && "tool:" + id in scopes
  }

  predicate Denied(config: Config, id: string) {
    config.MatchesSome(config.managedDeny, id) || config.MatchesSome(config.deny, id)
  }

  /** The tools of a set of scopes: named tools narrow what bundles and profiles give, and denials always win. */
  function Envelope(config: Config, catalog: Catalog, scopes: set<string>): set<string> {
    var named, broad := Named(catalog, scopes), Broad(config, catalog, scopes);
    var granted :=
      if named == {} then broad
      else if exists scope | scope in scopes :: IsBroad(scope) then named * broad
      else named;
    set id | id in granted && !Denied(config, id)
  }

  method FindTool(catalog: Catalog, id: string) returns (r: Option<Tool>)
    ensures r == First(catalog.tools, id)
  {
    for i := 0 to |catalog.tools|
      invariant First(catalog.tools, id) == First(catalog.tools[i..], id)
    {
      if catalog.tools[i].id == id {
        return Some(catalog.tools[i]);
      }
    }
    return None;
  }

  /** The first tool with an ID. */
  function First(tools: seq<Tool>, id: string): (r: Option<Tool>)
    ensures r.Some? <==> id in Ids(tools)
    ensures r.Some? ==> r.value.id == id && r.value in tools
  {
    if tools == [] then None
    else if tools[0].id == id then Some(tools[0])
    else
      assert Ids(tools) == {tools[0].id} + Ids(tools[1..]);
      First(tools[1..], id)
  }

  method AuthorizedProfileTools(config: Config, catalog: Catalog, name: string) returns (allowed: set<string>)
    ensures allowed == ProfileTools(config, catalog, name)
  {
    allowed := {};
    if name !in config.profiles {
      return;
    }
    var profile := config.profiles[name];
    var mode := profile.mode;
    if mode == "" {
      mode := config.defaultMode;
    }
    if mode != "curated" {
      for i := 0 to |catalog.tools|
        invariant allowed == Ids(catalog.tools[..i])
      {
        allowed := allowed + {catalog.tools[i].id};
      }
      assert catalog.tools[..|catalog.tools|] == catalog.tools;
      return;
    }
    var toolSet := config.ToolSetNamed(profile.toolSet);
    for i := 0 to |catalog.tools|
      invariant allowed == set tool | tool in catalog.tools[..i] && config.Lets(toolSet, tool.id) :: tool.id
    {
      var ok := config.ToolAllowed(catalog.tools[i].id, toolSet);
      if ok {
        allowed := allowed + {catalog.tools[i].id};
      }
    }
    assert catalog.tools[..|catalog.tools|] == catalog.tools;
  }

  method BundleTools(catalog: Catalog, serviceId: string, before: set<string>) returns (union: set<string>)
    ensures union == before + Bundle(catalog, serviceId)
  {
    union := before;
    for i := 0 to |catalog.tools|
      invariant union == before + set tool | tool in catalog.tools[..i] && tool.serviceId == serviceId :: tool.id
    {
      if catalog.tools[i].serviceId == serviceId {
        union := union + {catalog.tools[i].id};
      }
    }
    assert catalog.tools[..|catalog.tools|] == catalog.tools;
  }

  /** The scopes among the first `n`. */
  function ScopeSet(scopes: seq<string>): set<string> {
    set scope | scope in scopes
  }

  lemma OneMoreScope(config: Config, catalog: Catalog, scopes: seq<string>, i: nat)
    requires i < |scopes|
    ensures ScopeSet(scopes[..i + 1]) == ScopeSet(scopes[..i]) + {scopes[i]}
    ensures Broad(config, catalog, ScopeSet(scopes[..i + 1])) ==
            Broad(config, catalog, ScopeSet(scopes[..i])) + Given(config, catalog, scopes[i])
    ensures Named(catalog, ScopeSet(scopes[..i + 1])) == Named(catalog, ScopeSet(scopes[..i])) +
            if HasPrefix(scopes[i], "tool:") && scopes[i][5..] in Ids(catalog.tools) then {scopes[i][5..]} else {}
  {
    hide Given, Ids;
    var before, after, scope := ScopeSet(scopes[..i]), ScopeSet(scopes[..i + 1]), scopes[i];
    assert scopes[..i + 1] == scopes[..i] + [scope];
    assert after == before + {scope};
    assert HasPrefix(scope, "tool:") ==> scope == "tool:" + scope[5..];
    forall id | "tool:" + id == scope ensures HasPrefix(scope, "tool:") && scope[5..] == id {
    }
    assert Named(catalog, after) == Named(catalog, before) +
      if HasPrefix(scope, "tool:") && scope[5..] in Ids(catalog.tools) then {scope[5..]} else {};
  }

  /** The loop over the scopes and the combination after it give exactly the envelope of the set of scopes. */
  method AuthorizedTools(config: Config, catalog: Catalog, scopes: seq<string>) returns (final: set<string>)
    ensures final == Envelope(config, catalog, ScopeSet(scopes))
  {
    hide Broad, Named, Given, Denied, ProfileTools, Bundle;
    var union: set<string>, explicit: set<string>, hasUnion := {}, {}, false;
    NoScopes(config, catalog);
    assert ScopeSet(scopes[..0]) == {};
    for i := 0 to |scopes|
      invariant union == Broad(config, catalog, ScopeSet(scopes[..i]))
      invariant explicit == Named(catalog, ScopeSet(scopes[..i]))
      invariant hasUnion == exists scope | scope in ScopeSet(scopes[..i]) :: IsBroad(scope)
    {
      OneMoreScope(config, catalog, scopes, i);
      var scope := scopes[i];
      ByPrefix(config, catalog, scope);
      if HasPrefix(scope, "bundle:") {
        hasUnion := true;
        union := BundleTools(catalog, scope[7..], union);
      } else if HasPrefix(scope, "profile:") {
        hasUnion := true;
        var given := AuthorizedProfileTools(config, catalog, scope[8..]);
        union := union + given;
      } else if HasPrefix(scope, "tool:") {
        var found := FindTool(catalog, scope[5..]);
        if found.Some? {
          explicit := explicit + {scope[5..]};
        }
      }
    }
    assert scopes[..|scopes|] == scopes;
    if explicit != {} && hasUnion {
      final := explicit * union;
    } else if explicit != {} {
      final := explicit;
    } else if hasUnion {
      final := union;
    } else {
      final := {};
      NothingBroad(config, catalog, ScopeSet(scopes));
      return;
    }
    final := WithoutDenied(config, final);
  }

  lemma NoScopes(config: Config, catalog: Catalog)
    ensures Broad(config, catalog, {}) == {} && Named(catalog, {}) == {}
  {
  }

  lemma ByPrefix(config: Config, catalog: Catalog, scope: string)
    ensures HasPrefix(scope, "bundle:") ==>
      Given(config, catalog, scope) == Bundle(catalog, scope[7..]) && !HasPrefix(scope, "tool:")
    ensures HasPrefix(scope, "profile:") ==>
      Given(config, catalog, scope) == ProfileTools(config, catalog, scope[8..]) && !HasPrefix(scope, "tool:")
    ensures !IsBroad(scope) ==> Given(config, catalog, scope) == {}
  {
    assert HasPrefix(scope, "bundle:") ==> scope[0] == 'b';
    assert HasPrefix(scope, "profile:") ==> scope[0] == 'p';
    assert HasPrefix(scope, "tool:") ==> scope[0] == 't';
  }

  lemma NothingBroad(config: Config, catalog: Catalog, scopes: set<string>)
    requires !exists scope | scope in scopes :: IsBroad(scope)
    ensures Broad(config, catalog, scopes) == {}
  {
    forall scope | scope in scopes ensures Given(config, catalog, scope) == {} {
      ByPrefix(config, catalog, scope);
    }
  }

  /** The deletions at the end, in whatever order the map is ranged over. */
  method WithoutDenied(config: Config, ids: set<string>) returns (final: set<string>)
    ensures final == set id | id in ids && !Denied(config, id)
  {
    final := ids;
    var todo := ids;
    while todo != {}
      invariant todo <= ids
      invariant final == set id | id in ids && (id in todo || !Denied(config, id))
      decreases todo
    {
      var id :| id in todo;
      todo := todo - {id};
      var managed := config.MatchesAny(config.managedDeny, id);
      var denied := config.MatchesAny(config.deny, id);
      if managed || denied {
        final := final - {id};
      }
    }
  }

  // ---- The filtered catalog ---------------------------------------------------------------------------------

  /** The elements that `keep` accepts, in order. */
  function Kept<T(!new)>(xs: seq<T>, keep: T -> bool): (r: seq<T>)
    ensures forall x :: x in r <==> x in xs && keep(x)
  {
    if xs == [] then []
    else Kept(xs[..|xs| - 1], keep) + if keep(xs[|xs| - 1]) then [xs[|xs| - 1]] else []
  }

  predicate AllStepsIn(workflow: Workflow, allowed: set<string>) {
    forall step | step in workflow.steps :: step.toolId in allowed
  }

  function ServicesOf(tools: seq<Tool>): set<string> {
    set tool | tool in tools :: tool.serviceId
  }

  function ToolIn(allowed: set<string>): Tool -> bool {
    (tool: Tool) => tool.id in allowed
  }

  function ServiceIn(services: set<string>): Service -> bool {
    (service: Service) => service.id in services
  }

  function StepsIn(allowed: set<string>): Workflow -> bool {
    (workflow: Workflow) => AllStepsIn(workflow, allowed)
  }

  function NarrowView(view: View, allowed: set<string>): View {
    view.(tools := Kept(view.tools, ToolIn(allowed)))
  }

  function NarrowViews(views: seq<View>, allowed: set<string>): (r: seq<View>)
    ensures |r| == |views|
  {
    seq(|views|, i requires 0 <= i < |views| => NarrowView(views[i], allowed))
  }

  /** What a caller with these tools sees. */
  function Filtered(catalog: Catalog, allowed: set<string>): Catalog {
    var tools := Kept(catalog.tools, ToolIn(allowed));
    Catalog(tools,
            Kept(catalog.services, ServiceIn(ServicesOf(tools))),
            Kept(catalog.workflows, StepsIn(allowed)),
            NarrowViews(catalog.views, allowed))
  }

  lemma KeptOneMore<T(!new)>(xs: seq<T>, i: nat, keep: T -> bool)
    requires i < |xs|
    ensures Kept(xs[..i + 1], keep) == Kept(xs[..i], keep) + if keep(xs[i]) then [xs[i]] else []
  {
    assert xs[..i + 1][..i] == xs[..i];
  }

  method FilterTools(tools: seq<Tool>, allowed: set<string>) returns (filtered: seq<Tool>, services: set<string>)
    ensures filtered == Kept(tools, ToolIn(allowed))
    ensures services == ServicesOf(filtered)
  {
    var keep := ToolIn(allowed);
    filtered, services := [], {};
    for i := 0 to |tools|
      invariant filtered == Kept(tools[..i], keep)
      invariant services == ServicesOf(filtered)
    {
      KeptOneMore(tools, i, keep);
      if tools[i].id in allowed {
        filtered := filtered + [tools[i]];
        services := services + {tools[i].serviceId};
      }
    }
    assert tools[..|tools|] == tools;
  }

  method FilterServices(all: seq<Service>, services: set<string>) returns (filtered: seq<Service>)
    ensures filtered == Kept(all, ServiceIn(services))
  {
    var keep := ServiceIn(services);
    filtered := [];
    for i := 0 to |all|
      invariant filtered == Kept(all[..i], keep)
    {
      KeptOneMore(all, i, keep);
      if all[i].id in services {
        filtered := filtered + [all[i]];
      }
    }
    assert all[..|all|] == all;
  }

  method FilterWorkflows(all: seq<Workflow>, allowed: set<string>) returns (filtered: seq<Workflow>)
    ensures filtered == Kept(all, StepsIn(allowed))
  {
    var keep := StepsIn(allowed);
    filtered := [];
    for i := 0 to |all|
      invariant filtered == Kept(all[..i], keep)
    {
      KeptOneMore(all, i, keep);
      var workflow := all[i];
      var allowedWorkflow := true;
      for j := 0 to |workflow.steps|
        invariant allowedWorkflow
        invariant forall k | 0 <= k < j :: workflow.steps[k].toolId in allowed
      {
        if workflow.steps[j].toolId !in allowed {
          allowedWorkflow := false;
          break;
        }
      }
      assert allowedWorkflow <==> AllStepsIn(workflow, allowed);
      if allowedWorkflow {
        filtered := filtered + [workflow];
      }
    }
    assert all[..|all|] == all;
  }

  method FilterViews(all: seq<View>, allowed: set<string>) returns (filtered: seq<View>)
    ensures filtered == NarrowViews(all, allowed)
  {
    hide Kept;
    filtered := [];
    for i := 0 to |all|
      invariant |filtered| == i
      invariant forall j | 0 <= j < i :: filtered[j] == NarrowView(all[j], allowed)
    {
      var tools, _ := FilterTools(all[i].tools, allowed);
      filtered := filtered + [View(all[i].name, all[i].mode, tools)];
    }
  }

  /** `filterCatalog`. */
  method FilterCatalog(catalog: Catalog, allowed: set<string>) returns (filtered: Catalog)
    ensures filtered == Filtered(catalog, allowed)
  {
    var tools, services := FilterTools(catalog.tools, allowed);
    var keptServices := FilterServices(catalog.services, services);
    var workflows := FilterWorkflows(catalog.workflows, allowed);
    var views := FilterViews(catalog.views, allowed);
    filtered := Catalog(tools, keptServices, workflows, views);
  }

  lemma KeptMore<T(!new)>(xs: seq<T>, x: T, keep: T -> bool)
    ensures Kept(xs + [x], keep) == Kept(xs, keep) + if keep(x) then [x] else []
  {
    assert (xs + [x])[..|xs|] == xs;
  }

  lemma {:induction false} KeptTwice<T(!new)>(xs: seq<T>, p: T -> bool, q: T -> bool, both: T -> bool)
    requires forall x | x in xs :: both(x) <==> p(x) && q(x)
    ensures Kept(Kept(xs, p), q) == Kept(xs, both)
  {
    if xs != [] {
      var rest, last := xs[..|xs| - 1], xs[|xs| - 1];
      KeptTwice(rest, p, q, both);
      KeptMore(Kept(rest, p), last, q);
      assert last in xs;
      if p(last) {
        assert Kept(xs, p) == Kept(rest, p) + [last];
      } else {
        assert Kept(xs, p) == Kept(rest, p);
      }
    } else {
      assert Kept(xs, p) == [];
    }
  }

  /** Filtering twice is filtering once by what both allow: in tools, services, workflows and views, and in order. */
  lemma FilteringComposes(catalog: Catalog, a: set<string>, b: set<string>)
    ensures Filtered(Filtered(catalog, a), b) == Filtered(catalog, a * b)
  {
    var once, twice, direct := Filtered(catalog, a), Filtered(Filtered(catalog, a), b), Filtered(catalog, a * b);
    KeptTwice(catalog.tools, ToolIn(a), ToolIn(b), ToolIn(a * b));
    assert twice.tools == direct.tools;
    KeptTwice(catalog.services, ServiceIn(ServicesOf(once.tools)), ServiceIn(ServicesOf(twice.tools)),
              ServiceIn(ServicesOf(direct.tools)));
    KeptTwice(catalog.workflows, StepsIn(a), StepsIn(b), StepsIn(a * b));
    forall i | 0 <= i < |catalog.views| ensures twice.views[i] == direct.views[i] {
      KeptTwice(catalog.views[i].tools, ToolIn(a), ToolIn(b), ToolIn(a * b));
    }
  }

  // ---- The gates --------------------------------------------------------------------------------------------

  datatype Context = Context(mode: string, profile: string, approved: bool)

  datatype Decision = Allowed | ManagedDeny | CuratedDeny | ApprovalRequired

  function ModeAndToolSet(config: Config, context: Context): (string, ToolSet) {
    var mode := if context.mode == "" then config.defaultMode else context.mode;
    if context.profile != "" && context.profile in config.profiles then
      var profile := config.profiles[context.profile];
      (if profile.mode != "" then profile.mode else mode, config.ToolSetNamed(profile.toolSet))
    else if config.defaultProfile != "" && config.defaultProfile in config.profiles && mode == "curated" then
      (mode, config.ToolSetNamed(config.profiles[config.defaultProfile].toolSet))
    else (mode, ToolSet([], []))
  }

  /** `policy.Decide`. */
  function Decide(config: Config, tool: Tool, context: Context): Decision {
    var (mode, toolSet) := ModeAndToolSet(config, context);
    if config.MatchesSome(config.managedDeny, tool.id) then ManagedDeny
    else if mode == "curated" && !config.Lets(toolSet, tool.id) then CuratedDeny
    else if (tool.requiresApproval || config.MatchesSome(config.approvalRequired, tool.id)) && !context.approved
    then ApprovalRequired
    else Allowed
  }

  method DecideTool(config: Config, tool: Tool, context: Context) returns (decision: Decision)
    ensures decision == Decide(config, tool, context)
  {
    var managed := config.MatchesAny(config.managedDeny, tool.id);
    if managed {
      return ManagedDeny;
    }
    var (mode, toolSet) := ModeAndToolSet(config, context);
    if mode == "curated" {
      var allowed := config.ToolAllowed(tool.id, toolSet);
      if !allowed {
        return CuratedDeny;
      }
    }
    var listed := config.MatchesAny(config.approvalRequired, tool.id);
    if (tool.requiresApproval || listed) && !context.approved {
      return ApprovalRequired;
    }
    return Allowed;
  }

  datatype Outcome =
    | NotFound
    | UnknownTool
    | AuthzDenied
    | PolicyDenied(decision: Decision)
    | Ran(steps: seq<string>)

  /** The authorization part of a gate lets the request through; policy may still deny it. */
  predicate PassesAuthz(outcome: Outcome) {
    outcome.PolicyDenied? || outcome.Ran?
  }

  /** The gates of the execute handler, in order, for an authenticated caller with these tools. */
  method ExecuteTool(config: Config, catalog: Catalog, allowed: set<string>, context: Context, id: string)
    returns (outcome: Outcome)
    ensures PassesAuthz(outcome) <==> id in Ids(Filtered(catalog, allowed).tools)
    ensures outcome == NotFound <==> id !in Ids(catalog.tools)
    ensures outcome.Ran? <==>
      id in Ids(Filtered(catalog, allowed).tools) && Decide(config, First(catalog.tools, id).value, context) == Allowed
  {
    InFiltered(catalog, allowed, id);
    var tool := FindTool(catalog, id);
    if tool.None? {
      return NotFound;
    }
    if tool.value.id !in allowed {
      return AuthzDenied;
    }
    var decision := DecideTool(config, tool.value, context);
    if decision != Allowed {
      return PolicyDenied(decision);
    }
    return Ran([]);
  }

  lemma InFiltered(catalog: Catalog, allowed: set<string>, id: string)
    ensures id in Ids(Filtered(catalog, allowed).tools) <==> id in Ids(catalog.tools) && id in allowed
  {
  }

  /** A caller sees exactly the tools of its envelope, which are exactly those the execute gate admits; the order and
      the repetition of scopes play no part, and none of these tools is denied by the managed policy. */
  lemma SeenIsAdmitted(config: Config, catalog: Catalog, scopes: seq<string>, context: Context)
    ensures var envelope := Envelope(config, catalog, ScopeSet(scopes));
      && Ids(Filtered(catalog, envelope).tools) == envelope
      && envelope <= Ids(catalog.tools)
      && forall tool | tool in Filtered(catalog, envelope).tools :: Decide(config, tool, context) != ManagedDeny
  {
    var envelope := Envelope(config, catalog, ScopeSet(scopes));
    BroadIsKnown(config, catalog, ScopeSet(scopes));
    forall id | id in envelope ensures id in Ids(Filtered(catalog, envelope).tools) {
      InFiltered(catalog, envelope, id);
    }
  }

  lemma BroadIsKnown(config: Config, catalog: Catalog, scopes: set<string>)
    ensures Broad(config, catalog, scopes) <= Ids(catalog.tools)
  {
    forall scope ensures Given(config, catalog, scope) <= Ids(catalog.tools) {
    }
  }

  /** The first workflow with an ID. */
  function FirstWorkflow(workflows: seq<Workflow>, id: string): (r: Option<Workflow>)
    ensures r.Some? ==> r.value in workflows && r.value.id == id
    ensures r.None? ==> forall workflow | workflow in workflows :: workflow.id != id
  {
    if workflows == [] then None
    else if workflows[0].id == id then Some(workflows[0])
    else FirstWorkflow(workflows[1..], id)
  }

  /** The first check that a workflow fails, None if it passes them all. */
  function Obstacle(config: Config, catalog: Catalog, allowed: set<string>, context: Context, steps: seq<WorkflowStep>)
    : Option<Outcome>
  {
    if steps == [] then None
    else
      var tool := First(catalog.tools, steps[0].toolId);
      if tool.None? then Some(UnknownTool)
      else if tool.value.id !in allowed then Some(AuthzDenied)
      else if Decide(config, tool.value, context) != Allowed
      then Some(PolicyDenied(Decide(config, tool.value, context)))
      else Obstacle(config, catalog, allowed, context, steps[1..])
  }

  function StepIds(steps: seq<WorkflowStep>): (r: seq<string>)
    ensures |r| == |steps|
  {
    seq(|steps|, i requires 0 <= i < |steps| => steps[i].stepId)
  }

  /** The run handler: the first workflow with the ID decides, and its first failing step. */
  method RunWorkflow(config: Config, catalog: Catalog, allowed: set<string>, context: Context, id: string)
    returns (outcome: Outcome)
    ensures match FirstWorkflow(catalog.workflows, id)
            case None => outcome == NotFound
            case Some(workflow) =>
              outcome == match Obstacle(config, catalog, allowed, context, workflow.steps)
                         case Some(failure) => failure
                         case None => Ran(StepIds(workflow.steps))
  {
    for i := 0 to |catalog.workflows|
      invariant FirstWorkflow(catalog.workflows, id) == FirstWorkflow(catalog.workflows[i..], id)
    {
      var workflow := catalog.workflows[i];
      if workflow.id != id {
        continue;
      }
      var steps: seq<string> := [];
      for j := 0 to |workflow.steps|
        invariant steps == StepIds(workflow.steps[..j])
        invariant Obstacle(config, catalog, allowed, context, workflow.steps) ==
                  Obstacle(config, catalog, allowed, context, workflow.steps[j..])
      {
        var tool := FindTool(catalog, workflow.steps[j].toolId);
        if tool.None? {
          return UnknownTool;
        }
        if tool.value.id !in allowed {
          return AuthzDenied;
        }
        var decision := DecideTool(config, tool.value, context);
        if decision != Allowed {
          return PolicyDenied(decision);
        }
        steps := steps + [workflow.steps[j].stepId];
      }
      assert workflow.steps[..|workflow.steps|] == workflow.steps;
      return Ran(steps);
    }
    return NotFound;
  }

  /** The tool of the step is known and the caller may use it. */
  predicate Admitted(catalog: Catalog, allowed: set<string>, step: WorkflowStep) {
    var tool := First(catalog.tools, step.toolId);
    tool.Some? && tool.value.id in allowed
  }

  /** Policy has nothing against the tool of the step. */
  predicate PolicyAllows(config: Config, catalog: Catalog, context: Context, step: WorkflowStep) {
    var tool := First(catalog.tools, step.toolId);
    tool.Some? ==> Decide(config, tool.value, context) == Allowed
  }

  lemma ObstacleStep(
    config: Config, catalog: Catalog, allowed: set<string>, context: Context, steps: seq<WorkflowStep>)
    requires steps != []
    ensures var obstacle := Obstacle(config, catalog, allowed, context, steps);
      if !Admitted(catalog, allowed, steps[0]) then obstacle.Some?
      else if !PolicyAllows(config, catalog, context, steps[0]) then obstacle.Some? && obstacle.value.PolicyDenied?
      else obstacle == Obstacle(config, catalog, allowed, context, steps[1..])
  {
  }

  lemma {:induction false} ObstacleIff(
    config: Config, catalog: Catalog, allowed: set<string>, context: Context, steps: seq<WorkflowStep>)
    ensures Obstacle(config, catalog, allowed, context, steps).None? <==>
      forall step | step in steps ::
        Admitted(catalog, allowed, step) && PolicyAllows(config, catalog, context, step)
    ensures (forall step | step in steps :: Admitted(catalog, allowed, step)) ==>
      var obstacle := Obstacle(config, catalog, allowed, context, steps);
      obstacle.None? || obstacle.value.PolicyDenied?
  {
    if steps == [] {
      assert Obstacle(config, catalog, allowed, context, []) == None;
    } else {
      hide Admitted, PolicyAllows;
      ObstacleIff(config, catalog, allowed, context, steps[1..]);
      ObstacleStep(config, catalog, allowed, context, steps);
      assert forall step :: step in steps <==> step == steps[0] || step in steps[1..];
    }
  }

  lemma AdmittedIff(catalog: Catalog, allowed: set<string>, step: WorkflowStep)
    requires allowed <= Ids(catalog.tools)
    ensures Admitted(catalog, allowed, step) <==> step.toolId in allowed
  {
  }

  /** For a workflow ID that the caller sees, the lookup and authorization checks of the run handler pass at every
      step if and only if the first workflow with this ID is one that the caller sees; and the handler runs it if and
      only if, besides, policy allows the tool of every step. */
  lemma SeenWorkflowPassesIff(
    config: Config, catalog: Catalog, allowed: set<string>, context: Context, workflow: Workflow)
    requires allowed <= Ids(catalog.tools) && workflow in Filtered(catalog, allowed).workflows
    ensures FirstWorkflow(catalog.workflows, workflow.id).Some?
    ensures var first := FirstWorkflow(catalog.workflows, workflow.id).value;
      var obstacle, seen := Obstacle(config, catalog, allowed, context, first.steps),
                            first in Filtered(catalog, allowed).workflows;
      && (seen <==> forall step | step in first.steps :: Admitted(catalog, allowed, step))
      && (obstacle.None? <==>
            seen && forall step | step in first.steps :: PolicyAllows(config, catalog, context, step))
      && (seen ==> obstacle.None? || obstacle.value.PolicyDenied?)
  {
    hide Obstacle, Admitted, PolicyAllows;
    var first := FirstWorkflow(catalog.workflows, workflow.id).value;
    ObstacleIff(config, catalog, allowed, context, first.steps);
    forall step | step in first.steps
      ensures Admitted(catalog, allowed, step) <==> step.toolId in allowed
    {
      AdmittedIff(catalog, allowed, step);
    }
  }

  /** Two workflows with one ID: the caller sees the second, and its ID is refused because of the first. */
  lemma DuplicateWorkflowIsRefused(config: Config, context: Context)
    ensures var secret, open := Tool("a", "s", false), Tool("b", "s", false);
      var hidden, seen := Workflow("w", [WorkflowStep("1", "a")]), Workflow("w", [WorkflowStep("1", "b")]);
      var catalog := Catalog([secret, open], [], [hidden, seen], []);
      && seen in Filtered(catalog, {"b"}).workflows
      && Obstacle(config, catalog, {"b"}, context, FirstWorkflow(catalog.workflows, "w").value.steps) ==
           Some(AuthzDenied)
  {
    var hidden, seen := Workflow("w", [WorkflowStep("1", "a")]), Workflow("w", [WorkflowStep("1", "b")]);
    assert seen in [hidden, seen] && AllStepsIn(seen, {"b"});
  }
}
