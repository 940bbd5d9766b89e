/** Who may do what, by scopes and configuration. */
module AuthorizationRules {
  import opened Wrappers
  import opened Text
  import opened Authorization

  // The rules of the envelope and of the policy decision, tool by tool: in terms of the scopes, the entries of the
  // configuration and the tools of the catalog alone.

  // ---- Patterns and tool sets -------------------------------------------------------------------------------

  /** Some pattern of the list hits the ID: the catch-all, a glob that matches, or a malformed one equal to it. */
  predicate Hits(config: Config, patterns: seq<string>, id: string) {
    exists i | 0 <= i < |patterns| :: HitBy(config, patterns[i], id)
  }

  predicate HitBy(config: Config, pattern: string, id: string) {
    pattern == "**" || config.glob(pattern, id) == Some(true) || (config.glob(pattern, id) == None && pattern == id)
  }

  /** The tool set of this name, if there is one, has the ID in its allow list, where it has one, and none of its
      denials hits the ID; beside an allow list the catch-all denial does not count. */
  predicate Curates(config: Config, name: string, id: string) {
    name in config.toolSets ==>
      && (config.toolSets[name].allow == [] || Hits(config, config.toolSets[name].allow, id))
      && forall i | 0 <= i < |config.toolSets[name].deny| && HitBy(config, config.toolSets[name].deny[i], id) ::
           config.toolSets[name].deny[i] == "**" && config.toolSets[name].allow != []
  }

  lemma MatchesIff(config: Config, patterns: seq<string>, id: string)
    ensures config.MatchesSome(patterns, id) <==> Hits(config, patterns, id)
  {
    assert forall pattern :: config.Matches(pattern, id) <==> HitBy(config, pattern, id);
    if config.MatchesSome(patterns, id) {
      var pattern :| pattern in patterns && config.Matches(pattern, id);
      var i :| 0 <= i < |patterns| && patterns[i] == pattern;
    }
  }

  lemma LetsIff(config: Config, name: string, id: string)
    ensures config.Lets(config.ToolSetNamed(name), id) <==> Curates(config, name, id)
  {
    var toolSet := config.ToolSetNamed(name);
    MatchesIff(config, toolSet.allow, id);
    assert forall pattern :: config.Matches(pattern, id) <==> HitBy(config, pattern, id);
  }

  // ---- The envelope -----------------------------------------------------------------------------------------

  predicate Known(catalog: Catalog, id: string) {
    exists i | 0 <= i < |catalog.tools| :: catalog.tools[i].id == id
  }

  /** A bundle scope names the service of a tool with this ID. */
  predicate InBundle(catalog: Catalog, scopes: seq<string>, id: string) {
    exists i | 0 <= i < |catalog.tools| ::
      catalog.tools[i].id == id && "bundle:" + catalog.tools[i].serviceId in scopes
  }

  /** A profile scope names a profile that is not curated, or whose tool set lets the ID through. */
  predicate InProfile(config: Config, scopes: seq<string>, id: string) {
    exists name | name in config.profiles ::
      && "profile:" + name in scopes
      && (ProfileMode(config, name) == "curated" ==> Curates(config, config.profiles[name].toolSet, id))
  }

  function ProfileMode(config: Config, name: string): string
    requires name in config.profiles
  {
    if config.profiles[name].mode != "" then config.profiles[name].mode else config.defaultMode
  }

  /** Some scope names a tool of the catalog. */
  predicate NamesTools(catalog: Catalog, scopes: seq<string>) {
    exists i | 0 <= i < |catalog.tools| :: "tool:" + catalog.tools[i].id in scopes
  }

  /** Some scope speaks of a bundle or a profile, whether there is one or not. */
  predicate SpeaksBroadly(scopes: seq<string>) {
    exists i | 0 <= i < |scopes| :: "bundle:" <= scopes[i] || "profile:" <= scopes[i]
  }

  /** A caller has a tool exactly if it is in the catalog, is not denied, is named if any tool is, and lies in a bundle
      or profile of the caller, unless tools are named and no scope speaks of bundles or profiles. */
  lemma EnvelopeIff(config: Config, catalog: Catalog, scopes: seq<string>, id: string)
    ensures id in Envelope(config, catalog, ScopeSet(scopes)) <==>
      && Known(catalog, id) && !Hits(config, config.managedDeny, id) && !Hits(config, config.deny, id)
      && (NamesTools(catalog, scopes) ==> "tool:" + id in scopes)
      && (InBundle(catalog, scopes, id) || InProfile(config, scopes, id)
          || (NamesTools(catalog, scopes) && !SpeaksBroadly(scopes)))
  {
    hide Curates, Hits, Given, Denied;
    MatchesIff(config, config.managedDeny, id);
    MatchesIff(config, config.deny, id);
    DeniedIff(config, id);
    KnownIff(catalog, id);
    BroadIff(config, catalog, scopes, id);
    NamedIff(catalog, scopes);
    BroadlyIff(scopes);
  }

  lemma DeniedIff(config: Config, id: string)
    ensures Denied(config, id) <==> Hits(config, config.managedDeny, id) || Hits(config, config.deny, id)
  {
    MatchesIff(config, config.managedDeny, id);
    MatchesIff(config, config.deny, id);
  }

  lemma KnownIff(catalog: Catalog, id: string)
    ensures id in Ids(catalog.tools) <==> Known(catalog, id)
  {
    if id in Ids(catalog.tools) {
      var tool :| tool in catalog.tools && tool.id == id;
      var i :| 0 <= i < |catalog.tools| && catalog.tools[i] == tool;
    }
  }

  lemma NamedIff(catalog: Catalog, scopes: seq<string>)
    ensures Named(catalog, ScopeSet(scopes)) != {} <==> NamesTools(catalog, scopes)
  {
    if i: nat :| i < |catalog.tools| && "tool:" + catalog.tools[i].id in scopes {
      assert catalog.tools[i] in catalog.tools;
      assert catalog.tools[i].id in Named(catalog, ScopeSet(scopes));
    }
    if Named(catalog, ScopeSet(scopes)) != {} {
      var id :| id in Named(catalog, ScopeSet(scopes));
      KnownIff(catalog, id);
    }
  }

  lemma BroadlyIff(scopes: seq<string>)
    ensures (exists scope | scope in ScopeSet(scopes) :: IsBroad(scope)) <==> SpeaksBroadly(scopes)
  {
    if scope :| scope in ScopeSet(scopes) && IsBroad(scope) {
      var i :| 0 <= i < |scopes| && scopes[i] == scope;
    }
    if i: nat :| i < |scopes| && ("bundle:" <= scopes[i] || "profile:" <= scopes[i]) {
      assert scopes[i] in ScopeSet(scopes) && IsBroad(scopes[i]);
    }
  }

  /** A bundle or profile scope, by what it names. */
  lemma GivenIff(config: Config, catalog: Catalog, scope: string, id: string)
    ensures id in Given(config, catalog, scope) <==>
      Known(catalog, id) && (InBundle(catalog, [scope], id) || InProfile(config, [scope], id))
  {
    hide Curates, Bundle, ProfileTools;
    ByPrefix(config, catalog, scope);
    if "bundle:" <= scope {
      BundleIff(catalog, scope, id);
      assert !InProfile(config, [scope], id) by {
        assert forall name :: ("profile:" + name)[0] == 'p';
      }
    } else if "profile:" <= scope {
      ProfileIff(config, catalog, scope[8..], id);
      assert scope == "profile:" + scope[8..];
      assert forall name | "profile:" + name in [scope] :: name == scope[8..] by {
        forall name | "profile:" + name in [scope] ensures name == scope[8..] {
          assert ("profile:" + name)[8..] == name;
        }
      }
      assert !InBundle(catalog, [scope], id) by {
        assert forall name :: ("bundle:" + name)[0] == 'b';
      }
    } else {
      assert forall name :: "bundle:" <= "bundle:" + name && "profile:" <= "profile:" + name;
    }
  }

  lemma BundleIff(catalog: Catalog, scope: string, id: string)
    requires "bundle:" <= scope
    ensures id in Bundle(catalog, scope[7..]) <==> Known(catalog, id) && InBundle(catalog, [scope], id)
  {
    assert scope == "bundle:" + scope[7..];
    forall name
      ensures "bundle:" + name == scope <==> name == scope[7..]
    {
      assert ("bundle:" + name)[7..] == name;
    }
    if id in Bundle(catalog, scope[7..]) {
      var tool :| tool in catalog.tools && tool.serviceId == scope[7..] && tool.id == id;
      var i :| 0 <= i < |catalog.tools| && catalog.tools[i] == tool;
    }
    if i: nat :| i < |catalog.tools| && catalog.tools[i].id == id && "bundle:" + catalog.tools[i].serviceId in [scope] {
      assert catalog.tools[i] in catalog.tools;
    }
  }

  lemma ProfileIff(config: Config, catalog: Catalog, name: string, id: string)
    ensures id in ProfileTools(config, catalog, name) <==>
      && Known(catalog, id) && name in config.profiles
      && (ProfileMode(config, name) == "curated" ==> Curates(config, config.profiles[name].toolSet, id))
  {
    hide Curates;
    KnownIff(catalog, id);
    if name in config.profiles {
      LetsIff(config, config.profiles[name].toolSet, id);
    }
  }

  lemma BroadIff(config: Config, catalog: Catalog, scopes: seq<string>, id: string)
    ensures id in Broad(config, catalog, ScopeSet(scopes)) <==>
      Known(catalog, id) && (InBundle(catalog, scopes, id) || InProfile(config, scopes, id))
  {
    hide Curates;
    if scope :| scope in ScopeSet(scopes) && id in Given(config, catalog, scope) {
      GivenIff(config, catalog, scope, id);
    }
    if i: nat :| i < |catalog.tools| && catalog.tools[i].id == id && "bundle:" + catalog.tools[i].serviceId in scopes {
      var scope := "bundle:" + catalog.tools[i].serviceId;
      assert scope in ScopeSet(scopes);
      GivenIff(config, catalog, scope, id);
    }
    if InProfile(config, scopes, id) && Known(catalog, id) {
      var name :| name in config.profiles && "profile:" + name in scopes &&
        (ProfileMode(config, name) == "curated" ==> Curates(config, config.profiles[name].toolSet, id));
      assert "profile:" + name in ScopeSet(scopes);
      GivenIff(config, catalog, "profile:" + name, id);
    }
  }

  /** More scopes can take a tool away: exactly one that is not named where some tool is, or that is in no bundle or
      profile where some scope speaks of these. */
  lemma MoreScopesLoseIff(config: Config, catalog: Catalog, scopes: seq<string>, more: seq<string>, id: string)
    requires (forall scope | scope in scopes :: scope in more) && id in Envelope(config, catalog, ScopeSet(scopes))
    ensures id !in Envelope(config, catalog, ScopeSet(more)) <==>
      || (NamesTools(catalog, more) && "tool:" + id !in more)
      || (SpeaksBroadly(more) && !InBundle(catalog, more, id) && !InProfile(config, more, id))
  {
    hide Curates, Hits, Envelope;
    EnvelopeIff(config, catalog, scopes, id);
    EnvelopeIff(config, catalog, more, id);
    assert InBundle(catalog, scopes, id) ==> InBundle(catalog, more, id);
    assert InProfile(config, scopes, id) ==> InProfile(config, more, id);
    assert NamesTools(catalog, scopes) ==> NamesTools(catalog, more);
  }

  /** A caller of one named tool that gets an unknown bundle as well is left with nothing. */
  lemma BundleTakesAway(config: Config, catalog: Catalog, id: string)
    requires catalog.tools == [Tool(id, "s", false)] && config.deny == config.managedDeny == []
    ensures id in Envelope(config, catalog, ScopeSet(["tool:" + id]))
    ensures id !in Envelope(config, catalog, ScopeSet(["tool:" + id, "bundle:t"]))
  {
    var scopes, more := ["tool:" + id], ["tool:" + id, "bundle:t"];
    assert !Hits(config, [], id);
    assert NamesTools(catalog, scopes) by {
      assert catalog.tools[0].id == id && "tool:" + id in scopes;
    }
    assert !SpeaksBroadly(scopes) by {
      assert ("tool:" + id)[0] == 't' && "bundle:"[0] == 'b' && "profile:"[0] == 'p';
    }
    assert Known(catalog, id) by {
      assert catalog.tools[0].id == id;
    }
    hide Envelope;
    EnvelopeIff(config, catalog, scopes, id);
    assert SpeaksBroadly(more) by {
      assert "bundle:" <= more[1];
    }
    assert !InBundle(catalog, more, id) by {
      assert ("bundle:" + "s")[7] == 's' && "bundle:t"[7] == 't' && ("tool:" + id)[0] == 't' && "bundle:"[0] == 'b';
    }
    assert !InProfile(config, more, id) by {
      assert forall name :: ("profile:" + name)[0] == 'p';
      assert ("tool:" + id)[0] == 't' && "bundle:t"[0] == 'b';
    }
    MoreScopesLoseIff(config, catalog, scopes, more, id);
  }

  // ---- The decision -----------------------------------------------------------------------------------------

  predicate HasProfile(config: Config, context: Context) {
    context.profile != "" && context.profile in config.profiles
  }

  /** The request is under curation: so says its own profile, or else the request, or else the configuration. */
  predicate Curated(config: Config, context: Context) {
    if HasProfile(config, context) && config.profiles[context.profile].mode != ""
    then config.profiles[context.profile].mode == "curated"
    else if context.mode != "" then context.mode == "curated"
    else config.defaultMode == "curated"
  }

  /** The profile that curates the request, its own or else the default one, keeps the tool out. */
  predicate Bars(config: Config, context: Context, id: string) {
    && Curated(config, context)
    && if HasProfile(config, context) then !Curates(config, config.profiles[context.profile].toolSet, id)
       else config.defaultProfile != "" && config.defaultProfile in config.profiles
            && !Curates(config, config.profiles[config.defaultProfile].toolSet, id)
  }

  predicate NeedsApproval(config: Config, tool: Tool, context: Context) {
    !context.approved && (tool.requiresApproval || Hits(config, config.approvalRequired, tool.id))
  }

  /** When policy decides what: a managed denial comes before curation, and curation before a missing approval. */
  lemma DecideIff(config: Config, tool: Tool, context: Context)
    ensures var managed, barred := Hits(config, config.managedDeny, tool.id), Bars(config, context, tool.id);
            var decision := Decide(config, tool, context);
            && (decision == ManagedDeny <==> managed)
            && (decision == CuratedDeny <==> !managed && barred)
            && (decision == ApprovalRequired <==> !managed && !barred && NeedsApproval(config, tool, context))
            && (decision == Allowed <==> !managed && !barred && !NeedsApproval(config, tool, context))
  {
    hide Curates, Hits;
    MatchesIff(config, config.managedDeny, tool.id);
    MatchesIff(config, config.approvalRequired, tool.id);
    EmptySetLets(config, tool.id);
    if HasProfile(config, context) {
      LetsIff(config, config.profiles[context.profile].toolSet, tool.id);
    } else if config.defaultProfile in config.profiles {
      LetsIff(config, config.profiles[config.defaultProfile].toolSet, tool.id);
    }
  }

  lemma EmptySetLets(config: Config, id: string)
    ensures config.Lets(ToolSet([], []), id)
  {
  }

  // ---- Lookups and workflows --------------------------------------------------------------------------------

  /** The tool at place `i` is the one that a lookup of its ID means. */
  predicate MeantBy(tools: seq<Tool>, id: string, i: nat) {
    i < |tools| && tools[i].id == id && forall j | 0 <= j < i :: tools[j].id != id
  }

  lemma {:induction false} FirstIs(tools: seq<Tool>, id: string, i: nat)
    requires MeantBy(tools, id, i)
    ensures First(tools, id) == Some(tools[i])
    decreases i
  {
    if i > 0 {
      FirstIs(tools[1..], id, i - 1);
    }
  }

  /** How one step of a workflow fails, if it does. */
  predicate Fails(config: Config, catalog: Catalog, allowed: set<string>, context: Context, id: string,
                  failure: Outcome) {
    match failure
    case UnknownTool => !Known(catalog, id)
    case AuthzDenied => Known(catalog, id) && id !in allowed
    case PolicyDenied(decision) =>
      && id in allowed && decision != Allowed
      && exists i: nat | i < |catalog.tools| ::
           MeantBy(catalog.tools, id, i) && Decide(config, catalog.tools[i], context) == decision
    case _ => false
  }

  predicate Succeeds(config: Config, catalog: Catalog, allowed: set<string>, context: Context, id: string) {
    && id in allowed
    && exists i: nat | i < |catalog.tools| ::
         MeantBy(catalog.tools, id, i) && Decide(config, catalog.tools[i], context) == Allowed
  }

  lemma MeantExists(tools: seq<Tool>, id: string) returns (i: nat)
    requires id in Ids(tools)
    ensures MeantBy(tools, id, i) && First(tools, id) == Some(tools[i])
  {
    i := 0;
    var tool :| tool in tools && tool.id == id;
    var at :| 0 <= at < |tools| && tools[at] == tool;
    while tools[i].id != id
      invariant i <= at && forall j | 0 <= j < i :: tools[j].id != id
      decreases at - i
    {
      i := i + 1;
    }
    FirstIs(tools, id, i);
  }

  lemma MeantOnce(tools: seq<Tool>, id: string, i: nat, j: nat)
    requires MeantBy(tools, id, i) && MeantBy(tools, id, j)
    ensures i == j
  {
  }

  lemma StepFails(config: Config, catalog: Catalog, allowed: set<string>, context: Context, steps: seq<WorkflowStep>,
                  failure: Outcome)
    requires steps != []
    ensures var id, obstacle := steps[0].toolId, Obstacle(config, catalog, allowed, context, steps);
            && (Fails(config, catalog, allowed, context, id, failure) ==> obstacle == Some(failure))
            && (Succeeds(config, catalog, allowed, context, id) ==>
                  && !Fails(config, catalog, allowed, context, id, failure)
                  && obstacle == Obstacle(config, catalog, allowed, context, steps[1..]))
            && (!Succeeds(config, catalog, allowed, context, id) && obstacle == Some(failure) ==>
                  Fails(config, catalog, allowed, context, id, failure))
            && (!Succeeds(config, catalog, allowed, context, id) ==> obstacle.Some?)
  {
    hide Decide;
    var id := steps[0].toolId;
    KnownIff(catalog, id);
    if id in Ids(catalog.tools) {
      var i := MeantExists(catalog.tools, id);
      forall j: nat | MeantBy(catalog.tools, id, j)
        ensures j == i
      {
        MeantOnce(catalog.tools, id, i, j);
      }
    }
  }

  /** The first step that does not succeed decides how a workflow is refused. */
  lemma {:induction false} ObstacleIs(config: Config, catalog: Catalog, allowed: set<string>, context: Context,
                                      steps: seq<WorkflowStep>, failure: Outcome)
    ensures Obstacle(config, catalog, allowed, context, steps) == Some(failure) <==>
      exists k: nat | k < |steps| :: FailsAt(config, catalog, allowed, context, steps, k, failure)
    ensures Obstacle(config, catalog, allowed, context, steps) == None <==>
      forall k | 0 <= k < |steps| :: Succeeds(config, catalog, allowed, context, steps[k].toolId)
    decreases |steps|
  {
    if steps != [] {
      hide Fails, Succeeds;
      var rest := steps[1..];
      StepFails(config, catalog, allowed, context, steps, failure);
      ObstacleIs(config, catalog, allowed, context, rest, failure);
      if Succeeds(config, catalog, allowed, context, steps[0].toolId) {
        if k: nat :| k < |rest| && FailsAt(config, catalog, allowed, context, rest, k, failure) {
          FailsLater(config, catalog, allowed, context, steps, k, failure);
        }
        if k: nat :| 0 < k < |steps| && FailsAt(config, catalog, allowed, context, steps, k, failure) {
          FailsLater(config, catalog, allowed, context, steps, k - 1, failure);
        }
        assert !FailsAt(config, catalog, allowed, context, steps, 0, failure);
      } else {
        assert FailsAt(config, catalog, allowed, context, steps, 0, failure) <==>
          Fails(config, catalog, allowed, context, steps[0].toolId, failure);
      }
    }
  }

  predicate FailsAt(config: Config, catalog: Catalog, allowed: set<string>, context: Context, steps: seq<WorkflowStep>,
                    k: nat, failure: Outcome) {
    && k < |steps| && Fails(config, catalog, allowed, context, steps[k].toolId, failure)
    && forall j | 0 <= j < k :: Succeeds(config, catalog, allowed, context, steps[j].toolId)
  }

  lemma FailsLater(config: Config, catalog: Catalog, allowed: set<string>, context: Context, steps: seq<WorkflowStep>,
                   k: nat, failure: Outcome)
    requires k + 1 < |steps| && Succeeds(config, catalog, allowed, context, steps[0].toolId)
    ensures FailsAt(config, catalog, allowed, context, steps, k + 1, failure) <==>
            FailsAt(config, catalog, allowed, context, steps[1..], k, failure)
  {
    hide Fails, Succeeds;
    var rest := steps[1..];
    assert rest[k] == steps[k + 1];
    assert forall j | 0 < j < |steps| :: steps[j] == rest[j - 1];
  }
}
