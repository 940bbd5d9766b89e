/** Choosing among the auth alternatives of a tool (internal/runtime/auth_resolution.go). */
module AuthPlan {
  import opened Wrappers

  datatype Requirement = Requirement(name: string, details: string)

  /** A resolved credential and where it goes. */
  datatype Credential = Credential(value: string, kind: string, name: string)

  datatype Plan = Plan(headers: map<string, string>, query: map<string, string>)

  const EMPTY := Plan(map[], map[])

  /** A failed alternative: the schemes tried, up to the one that failed, and why. */
  datatype Attempt = Attempt(schemes: seq<string>, error: Option<string>)

  datatype Tool = Tool(alternatives: seq<seq<Requirement>>, auth: seq<Requirement>)

  /** How a requirement resolves, with and without interaction. */
  type Resolver = (Requirement, bool) -> Result<Credential, string>

  /** `authAlternativesForTool`. */
  function Alternatives(tool: Tool): seq<seq<Requirement>> {
    if |tool.alternatives| > 0 then tool.alternatives
    else if |tool.auth| == 0 then []
    else [tool.auth]
  }

  // ---- What makes an alternative resolvable -----------------------------------------------------------------

  predicate Resolves(resolve: Resolver, requirement: Requirement, interactive: bool) {
    var r := resolve(requirement, interactive);
    r.Ok? && (r.value.kind == "header" || r.value.kind == "query")
  }

  function Given(resolve: Resolver, requirement: Requirement, interactive: bool): Credential
    requires Resolves(resolve, requirement, interactive)
  {
    resolve(requirement, interactive).value
  }

  predicate AllResolve(resolve: Resolver, requirements: seq<Requirement>, interactive: bool) {
    forall i | 0 <= i < |requirements| :: Resolves(resolve, requirements[i], interactive)
  }

  /** All requirements resolve, and none claims a target for another value. */
  predicate Resolvable(resolve: Resolver, requirements: seq<Requirement>, interactive: bool) {
    && AllResolve(resolve, requirements, interactive)
    && forall i, j | 0 <= i < j < |requirements| ::
         var a, b := Given(resolve, requirements[i], interactive), Given(resolve, requirements[j], interactive);
         a.kind == b.kind && a.name == b.name ==> a.value == b.value
  }

  /** `targets` holds exactly the targets of one kind, with their values. */
  ghost predicate Unites(
    targets: map<string, string>, kind: string, resolve: Resolver, requirements: seq<Requirement>, interactive: bool)
    requires AllResolve(resolve, requirements, interactive)
  {
    && (forall i | 0 <= i < |requirements| ::
          var c := Given(resolve, requirements[i], interactive);
          c.kind == kind ==> c.name in targets && targets[c.name] == c.value)
    && forall name | name in targets :: exists i | 0 <= i < |requirements| ::
         Given(resolve, requirements[i], interactive) == Credential(targets[name], kind, name)
  }

  /** The plan is the union of what the requirements resolve to. */
  ghost predicate IsUnion(plan: Plan, resolve: Resolver, requirements: seq<Requirement>, interactive: bool) {
    && Resolvable(resolve, requirements, interactive)
    && Unites(plan.headers, "header", resolve, requirements, interactive)
    && Unites(plan.query, "query", resolve, requirements, interactive)
  }

  /** The first alternative that resolves in this way. */
  function First(resolve: Resolver, alternatives: seq<seq<Requirement>>, interactive: bool): (r: Option<nat>)
    ensures r.Some? ==> r.value < |alternatives| && Resolvable(resolve, alternatives[r.value], interactive)
    ensures forall k | 0 <= k < if r.Some? then r.value else |alternatives| ::
      !Resolvable(resolve, alternatives[k], interactive)
  {
    if alternatives == [] then None
    else
      var before, last := alternatives[..|alternatives| - 1], alternatives[|alternatives| - 1];
      assert forall k | 0 <= k < |before| :: before[k] == alternatives[k];
      var earlier := First(resolve, before, interactive);
      if earlier.Some? then earlier
      else if Resolvable(resolve, last, interactive) then Some(|before|)
      else None
  }

  lemma FirstIs(resolve: Resolver, alternatives: seq<seq<Requirement>>, interactive: bool, k: nat)
    requires k < |alternatives| && Resolvable(resolve, alternatives[k], interactive)
    requires forall j | 0 <= j < k :: !Resolvable(resolve, alternatives[j], interactive)
    ensures First(resolve, alternatives, interactive) == Some(k)
  {
  }

  // ---- The code ---------------------------------------------------------------------------------------------

  /** `asked` is the trace of resolutions started. */
  class Session {
    const resolve: Resolver
    ghost var asked: seq<(Requirement, bool)>

    constructor (resolve: Resolver)
      ensures this.resolve == resolve && asked == []
    {
      this.resolve, asked := resolve, [];
    }

    method Resolve(requirement: Requirement, interactive: bool) returns (r: Result<Credential, string>)
      modifies this
      ensures r == resolve(requirement, interactive)
      ensures asked == old(asked) + [(requirement, interactive)]
    {
      r := resolve(requirement, interactive);
      asked := asked + [(requirement, interactive)];
    }

    /** No interactive resolution was started. */
    ghost predicate Quiet()
      reads this
    {
      forall i | 0 <= i < |asked| :: !asked[i].1
    }

    /** `tryResolveAlternative`. */
    method TryAlternative(requirements: seq<Requirement>, interactive: bool)
      returns (plan: Plan, attempt: Attempt, ok: bool)
      modifies this
      ensures ok <==> Resolvable(resolve, requirements, interactive)
      ensures ok ==> IsUnion(plan, resolve, requirements, interactive)
      ensures !ok ==> attempt.error.Some?
      ensures !interactive && old(Quiet()) ==> Quiet()
    {
      hide IsUnion, Resolvable;
      plan, attempt := EMPTY, Attempt([], None);
      EmptyIsUnion(resolve, interactive);
      assert requirements[..0] == [];
      for i := 0 to |requirements|
        invariant IsUnion(plan, resolve, requirements[..i], interactive)
        invariant !interactive && old(Quiet()) ==> Quiet()
      {
        var requirement := requirements[i];
        attempt := attempt.(schemes := attempt.schemes + [requirement.name]);
        var r := Resolve(requirement, interactive);
        assert requirements[..i + 1] == requirements[..i] + [requirement];
        if r.Err? {
          NotResolved(resolve, requirements, interactive, i);
          return EMPTY, attempt.(error := Some(r.error)), false;
        }
        var Credential(value, kind, name) := r.value;
        if kind == "header" {
          if name in plan.headers && plan.headers[name] != value {
            Conflict(plan, resolve, requirements, interactive, i);
            return EMPTY, attempt.(error := Some("conflicting header auth target " + name)), false;
          }
          OneMore(plan, resolve, requirements[..i], interactive, requirement);
          plan := plan.(headers := plan.headers[name := value]);
        } else if kind == "query" {
          if name in plan.query && plan.query[name] != value {
            Conflict(plan, resolve, requirements, interactive, i);
            return EMPTY, attempt.(error := Some("conflicting query auth target " + name)), false;
          }
          OneMore(plan, resolve, requirements[..i], interactive, requirement);
          plan := plan.(query := plan.query[name := value]);
        } else {
          NotResolved(resolve, requirements, interactive, i);
          return EMPTY, attempt.(error := Some("unsupported auth target " + kind)), false;
        }
      }
      assert requirements[..|requirements|] == requirements;
      UnionIsResolvable(plan, resolve, requirements, interactive);
      ok := true;
    }

    /** The plan of the first of these alternatives that resolves, quietly if any does, or an error if none does. */
    ghost predicate Settles(alternatives: seq<seq<Requirement>>, plan: Plan, error: Option<string>)
      reads this
    {
      match First(resolve, alternatives, false)
      case Some(k) => error.None? && IsUnion(plan, resolve, alternatives[k], false) && Quiet()
      case None =>
        match First(resolve, alternatives, true)
        case Some(k) => error.None? && IsUnion(plan, resolve, alternatives[k], true)
        case None => error.Some?
    }

    /** `resolveAuthPlan`: the first alternative that needs no interaction, else the first that interaction resolves. A
        tool without alternatives of its own has its requirements as the only one, and without any it needs nothing. */
    method ResolveAuthPlan(tool: Tool) returns (plan: Plan, error: Option<string>)
      requires asked == []
      modifies this
      ensures tool.alternatives != [] ==> Settles(tool.alternatives, plan, error)
      ensures tool.alternatives == [] && tool.auth != [] ==> Settles([tool.auth], plan, error)
      ensures tool.alternatives == [] && tool.auth == [] ==> error.None? && plan == EMPTY && asked == []
    {
      var alternatives := Alternatives(tool);
      var attempts: seq<Attempt> := [];
      for i := 0 to |alternatives|
        invariant |attempts| == i && forall j | 0 <= j < i :: attempts[j].error.Some?
        invariant Quiet() && (i == 0 ==> asked == [])
        invariant forall j | 0 <= j < i :: !Resolvable(resolve, alternatives[j], false)
      {
        var attempt: Attempt, ok: bool;
        plan, attempt, ok := TryAlternative(alternatives[i], false);
        if ok {
          FirstIs(resolve, alternatives, false, i);
          return plan, None;
        }
        attempts := attempts + [attempt];
      }
      for i := 0 to |alternatives|
        invariant |attempts| == |alternatives| + i && forall j | 0 <= j < |attempts| :: attempts[j].error.Some?
        invariant alternatives == [] ==> asked == []
        invariant forall j | 0 <= j < i :: !Resolvable(resolve, alternatives[j], true)
      {
        var attempt: Attempt, ok: bool;
        plan, attempt, ok := TryAlternative(alternatives[i], true);
        if ok {
          FirstIs(resolve, alternatives, true, i);
          return plan, None;
        }
        attempts := attempts + [attempt];
      }
      plan := EMPTY;
      error := JoinErrors(attempts);
    }
  }

  lemma NotResolved(resolve: Resolver, requirements: seq<Requirement>, interactive: bool, i: nat)
    requires i < |requirements| && !Resolves(resolve, requirements[i], interactive)
    ensures !Resolvable(resolve, requirements, interactive)
  {
  }

  /** A target that an earlier requirement gave another value. */
  lemma Conflict(plan: Plan, resolve: Resolver, requirements: seq<Requirement>, interactive: bool, i: nat)
    requires i < |requirements| && IsUnion(plan, resolve, requirements[..i], interactive)
    requires Resolves(resolve, requirements[i], interactive)
    requires var c := Given(resolve, requirements[i], interactive);
      var targets := if c.kind == "header" then plan.headers else plan.query;
      c.name in targets && targets[c.name] != c.value
    ensures !Resolvable(resolve, requirements, interactive)
  {
    var c := Given(resolve, requirements[i], interactive);
    var targets := if c.kind == "header" then plan.headers else plan.query;
    var j :| && 0 <= j < i
             && Given(resolve, requirements[..i][j], interactive) == Credential(targets[c.name], c.kind, c.name);
    assert requirements[..i][j] == requirements[j];
  }

  lemma UnionIsResolvable(plan: Plan, resolve: Resolver, requirements: seq<Requirement>, interactive: bool)
    requires IsUnion(plan, resolve, requirements, interactive)
    ensures Resolvable(resolve, requirements, interactive)
  {
  }

  lemma EmptyIsUnion(resolve: Resolver, interactive: bool)
    ensures IsUnion(EMPTY, resolve, [], interactive)
  {
  }

  /** One more requirement whose target is free, or has the same value already. */
  lemma OneMore(plan: Plan, resolve: Resolver, before: seq<Requirement>, interactive: bool, requirement: Requirement)
    requires IsUnion(plan, resolve, before, interactive) && Resolves(resolve, requirement, interactive)
    requires var c := Given(resolve, requirement, interactive);
      && (c.kind == "header" && c.name in plan.headers ==> plan.headers[c.name] == c.value)
      && (c.kind == "query" && c.name in plan.query ==> plan.query[c.name] == c.value)
    ensures var c := Given(resolve, requirement, interactive);
      var after := if c.kind == "header" then plan.(headers := plan.headers[c.name := c.value])
                   else plan.(query := plan.query[c.name := c.value]);
      IsUnion(after, resolve, before + [requirement], interactive)
  {
    var c := Given(resolve, requirement, interactive);
    var all := before + [requirement];
    assert forall i | 0 <= i < |before| :: all[i] == before[i];
    assert all[|before|] == requirement;
    UnitesMore(plan.headers, "header", resolve, before, interactive, requirement);
    UnitesMore(plan.query, "query", resolve, before, interactive, requirement);
    forall i, j | 0 <= i < j < |all|
      ensures var a, b := Given(resolve, all[i], interactive), Given(resolve, all[j], interactive);
        a.kind == b.kind && a.name == b.name ==> a.value == b.value
    {
    }
  }

  lemma UnitesMore(
    targets: map<string, string>, kind: string, resolve: Resolver, before: seq<Requirement>, interactive: bool,
    requirement: Requirement)
    requires AllResolve(resolve, before, interactive)
    requires Resolves(resolve, requirement, interactive)
    requires Unites(targets, kind, resolve, before, interactive)
    requires var c := Given(resolve, requirement, interactive);
      c.kind == kind && c.name in targets ==> targets[c.name] == c.value
    ensures AllResolve(resolve, before + [requirement], interactive)
    ensures var c := Given(resolve, requirement, interactive);
      Unites(if c.kind == kind then targets[c.name := c.value] else targets, kind, resolve, before + [requirement],
             interactive)
  {
    var c := Given(resolve, requirement, interactive);
    var all := before + [requirement];
    var after := if c.kind == kind then targets[c.name := c.value] else targets;
    assert forall i | 0 <= i < |before| :: all[i] == before[i];
    assert all[|before|] == requirement;
    forall name | name in after
      ensures exists i | 0 <= i < |all| :: Given(resolve, all[i], interactive) == Credential(after[name], kind, name)
    {
      if c.kind == kind && name == c.name {
        assert Given(resolve, all[|before|], interactive) == Credential(after[name], kind, name);
      } else {
        var i :| 0 <= i < |before| && Given(resolve, before[i], interactive) == Credential(targets[name], kind, name);
        assert Given(resolve, all[i], interactive) == Credential(after[name], kind, name);
      }
    }
  }

  function Joined(parts: seq<string>, separator: string): string {
    if parts == [] then ""
    else if |parts| == 1 then parts[0]
    else Joined(parts[..|parts| - 1], separator) + separator + parts[|parts| - 1]
  }

  /** One line per attempt that gives a reason, in order. */
  function Reasons(attempts: seq<Attempt>): seq<string> {
    if attempts == [] then []
    else
      var last := attempts[|attempts| - 1];
      var title := Joined(last.schemes, "+");
      Reasons(attempts[..|attempts| - 1]) +
      if last.error.None? then [] else [(if title == "" then "alternative" else title) + ": " + last.error.value]
  }

  /** `joinAlternativeErrors`. */
  method JoinErrors(attempts: seq<Attempt>) returns (error: Option<string>)
    ensures error.None? <==> attempts == []
    ensures Reasons(attempts) != [] ==> error == Some(Joined(Reasons(attempts), "; "))
  {
    if |attempts| == 0 {
      return None;
    }
    var parts: seq<string> := [];
    for i := 0 to |attempts|
      invariant parts == Reasons(attempts[..i])
    {
      assert attempts[..i + 1][..i] == attempts[..i];
      if attempts[i].error.None? {
        continue;
      }
      var title := Joined(attempts[i].schemes, "+");
      if title == "" {
        title := "alternative";
      }
      parts := parts + [title + ": " + attempts[i].error.value];
    }
    assert attempts[..|attempts|] == attempts;
    if |parts| == 0 {
      return Some("no auth alternative could be resolved");
    }
    return Some(Joined(parts, "; "));
  }
}
