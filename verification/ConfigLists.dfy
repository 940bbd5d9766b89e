/** The lists that accumulate over the configuration scopes (pkg/config/load.go): denials, approvals and tool sets, each
    the duplicate-free union of what the scopes list, in their order, with the managed denials in front. */
module ConfigLists {
  import opened Wrappers

  /** The non-empty strings of a list, each where it first occurs. */
  function Unique(items: seq<string>): (r: seq<string>)
    ensures forall item :: item in r <==> item in items && item != ""
  {
    if items == [] then []
    else
      var before, last := Unique(items[..|items| - 1]), items[|items| - 1];
      assert items == items[..|items| - 1] + [last];
      if last == "" || last in before then before else before + [last]
  }

  predicate Distinct(items: seq<string>) {
    forall i, j | 0 <= i < j < |items| :: items[i] != items[j]
  }

  /** Where an item first occurs. */
  function FirstAt(items: seq<string>, item: string): (at: nat)
    requires item in items
    ensures at < |items| && items[at] == item && item !in items[..at]
  {
    if items[0] == item then 0 else 1 + FirstAt(items[1..], item)
  }

  lemma UniqueMore(items: seq<string>, item: string)
    ensures Unique(items + [item]) ==
            if item == "" || item in Unique(items) then Unique(items) else Unique(items) + [item]
  {
    assert (items + [item])[..|items|] == items;
  }

  /** Nothing is listed twice, and the order is that of the first occurrences. */
  lemma {:induction false} UniqueIsFirstOccurrences(items: seq<string>)
    ensures Distinct(Unique(items))
    ensures forall i, j | 0 <= i < j < |Unique(items)| ::
      Unique(items)[i] in items && Unique(items)[j] in items
      && FirstAt(items, Unique(items)[i]) < FirstAt(items, Unique(items)[j])
  {
    if items != [] {
      var before, last := items[..|items| - 1], items[|items| - 1];
      UniqueIsFirstOccurrences(before);
      assert items == before + [last];
      forall item | item in before ensures FirstAt(items, item) == FirstAt(before, item) {
        FirstAtStays(before, last, item);
      }
      if last != "" && last !in Unique(before) {
        FirstAtEnd(before, last);
      }
    }
  }

  lemma {:induction false} FirstAtStays(items: seq<string>, more: string, item: string)
    requires item in items
    ensures FirstAt(items + [more], item) == FirstAt(items, item)
  {
    if items[0] != item {
      assert (items + [more])[1..] == items[1..] + [more];
      FirstAtStays(items[1..], more, item);
    }
  }

  lemma {:induction false} FirstAtEnd(items: seq<string>, item: string)
    requires item !in items
    ensures FirstAt(items + [item], item) == |items|
  {
    if items != [] {
      assert (items + [item])[1..] == items[1..] + [item];
      FirstAtEnd(items[1..], item);
    }
  }

  /** Adding to a list keeps it as a prefix: nothing that an earlier scope listed is dropped or reordered. */
  lemma {:induction false} UniqueExtends(a: seq<string>, b: seq<string>)
    ensures Unique(a) <= Unique(a + b)
  {
    if b == [] {
      assert a + b == a;
    } else {
      UniqueExtends(a, b[..|b| - 1]);
      UniqueMore(a + b[..|b| - 1], b[|b| - 1]);
      assert a + b == a + b[..|b| - 1] + [b[|b| - 1]];
    }
  }

  /** Making a list unique early loses nothing. */
  lemma {:induction false} UniqueAbsorbs(a: seq<string>, b: seq<string>)
    ensures Unique(Unique(a) + b) == Unique(a + b)
  {
    if b == [] {
      assert a + b == a && Unique(a) + b == Unique(a);
      UniqueOfUnique(a);
    } else {
      var rest, last := b[..|b| - 1], b[|b| - 1];
      UniqueAbsorbs(a, rest);
      UniqueMore(a + rest, last);
      UniqueMore(Unique(a) + rest, last);
      assert a + b == a + rest + [last] && Unique(a) + b == Unique(a) + rest + [last];
    }
  }

  lemma {:induction false} UniqueOfUnique(a: seq<string>)
    ensures Unique(Unique(a)) == Unique(a)
  {
    if a != [] {
      UniqueOfUnique(a[..|a| - 1]);
      UniqueMore(Unique(a[..|a| - 1]), a[|a| - 1]);
    }
  }

  /** One of the two loops of `uniqueStrings`, over a list that follows what was merged `before`. */
  method AddUnseen(items: seq<string>, merged: seq<string>, seen: set<string>, ghost before: seq<string>)
    returns (all: seq<string>, known: set<string>)
    requires merged == Unique(before) && forall item :: item in seen <==> item in merged
    ensures all == Unique(before + items) && forall item :: item in known <==> item in all
  {
    hide Unique;
    all, known := merged, seen;
    assert before + items[..0] == before;
    for i := 0 to |items|
      invariant all == Unique(before + items[..i])
      invariant forall item :: item in known <==> item in all
    {
      var item := items[i];
      UniqueMore(before + items[..i], item);
      assert before + items[..i + 1] == before + items[..i] + [item];
      if item == "" {
        continue;
      }
      if item in known {
        continue;
      }
      known := known + {item};
      all := all + [item];
    }
    assert items[..|items|] == items;
  }

  /** `uniqueStrings`. */
  method UniqueStrings(existing: seq<string>, additional: seq<string>) returns (merged: seq<string>)
    ensures merged == Unique(existing + additional)
  {
    var seen: set<string>;
    merged, seen := AddUnseen(existing, [], {}, []);
    assert [] + existing == existing;
    merged, seen := AddUnseen(additional, merged, seen, existing);
  }

  // ---- The scopes -------------------------------------------------------------------------------------------

  datatype Scope = Managed | User | Project | Local

  datatype ToolSet = ToolSet(allow: seq<string>, deny: seq<string>)

  datatype RawPolicy = RawPolicy(deny: seq<string>, approvalRequired: seq<string>)

  /** What one configuration file contributes; an absent map of tool sets is an empty one. */
  datatype Raw = Raw(policy: Option<RawPolicy>, toolSets: map<string, ToolSet>)

  const NO_TOOLS := ToolSet([], [])

  function Denials(raw: Raw): seq<string> {
    if raw.policy.Some? then raw.policy.value.deny else []
  }

  function Approvals(raw: Raw): seq<string> {
    if raw.policy.Some? then raw.policy.value.approvalRequired else []
  }

  function ToolSetOf(raw: Raw, key: string): ToolSet {
    if key in raw.toolSets then raw.toolSets[key] else NO_TOOLS
  }

  /** All that the scopes list, in scope order. */
  function Listed(entries: seq<(Scope, Raw)>, pick: Raw -> seq<string>): seq<string> {
    if entries == [] then [] else Listed(entries[..|entries| - 1], pick) + pick(entries[|entries| - 1].1)
  }

  function OfManaged(entries: seq<(Scope, Raw)>): seq<(Scope, Raw)> {
    if entries == [] then []
    else
      var last := entries[|entries| - 1];
      OfManaged(entries[..|entries| - 1]) + if last.0.Managed? then [last] else []
  }

  function Keys(entries: seq<(Scope, Raw)>): set<string> {
    set i, key | 0 <= i < |entries| && key in entries[i].1.toolSets :: key
  }

  function AllowOf(key: string): Raw -> seq<string> {
    (raw: Raw) => ToolSetOf(raw, key).allow
  }

  function DenyOf(key: string): Raw -> seq<string> {
    (raw: Raw) => ToolSetOf(raw, key).deny
  }

  lemma ListedMore(entries: seq<(Scope, Raw)>, entry: (Scope, Raw), pick: Raw -> seq<string>)
    ensures Listed(entries + [entry], pick) == Listed(entries, pick) + pick(entry.1)
    ensures OfManaged(entries + [entry]) == OfManaged(entries) + if entry.0.Managed? then [entry] else []
  {
    assert (entries + [entry])[..|entries|] == entries;
  }

  /** The accumulated configuration. */
  class Config {
    var deny: seq<string>
    var managedDeny: seq<string>
    var approvalRequired: seq<string>
    var toolSets: map<string, ToolSet>

    constructor ()
      ensures Holds([])
    {
      deny, managedDeny, approvalRequired, toolSets := [], [], [], map[];
    }

    /** Every list is the duplicate-free union, in scope order, of what the merged scopes list. */
    ghost predicate Holds(entries: seq<(Scope, Raw)>)
      reads this
    {
      && deny == Unique(Listed(entries, Denials))
      && managedDeny == Unique(Listed(OfManaged(entries), Denials))
      && approvalRequired == Unique(Listed(entries, Approvals))
      && toolSets.Keys == Keys(entries)
      && forall key | key in toolSets ::
           && toolSets[key].allow == Unique(Listed(entries, AllowOf(key)))
           && toolSets[key].deny == Unique(Listed(entries, DenyOf(key)))
    }

    method MergePolicy(scope: Scope, raw: RawPolicy)
      modifies this`deny, this`managedDeny, this`approvalRequired
      ensures deny == Unique(old(deny) + raw.deny)
      ensures managedDeny == if scope == Managed then Unique(old(managedDeny) + raw.deny) else old(managedDeny)
      ensures approvalRequired == Unique(old(approvalRequired) + raw.approvalRequired)
    {
      deny := UniqueStrings(deny, raw.deny);
      if scope == Managed {
        managedDeny := UniqueStrings(managedDeny, raw.deny);
      }
      approvalRequired := UniqueStrings(approvalRequired, raw.approvalRequired);
    }

    /** The tool sets of one file, in whatever order the map is ranged over. */
    method MergeToolSets(raw: map<string, ToolSet>)
      modifies this`toolSets
      ensures toolSets.Keys == old(toolSets).Keys + raw.Keys
      ensures forall key | key in toolSets :: toolSets[key] == MergedToolSet(old(toolSets), raw, key)
    {
      var todo := raw.Keys;
      while todo != {}
        invariant todo <= raw.Keys
        invariant toolSets.Keys == old(toolSets).Keys + (raw.Keys - todo)
        invariant forall key | key in toolSets ::
          toolSets[key] == if key in todo then old(toolSets)[key] else MergedToolSet(old(toolSets), raw, key)
        decreases todo
      {
        var key :| key in todo;
        todo := todo - {key};
        var current := if key in toolSets then toolSets[key] else NO_TOOLS;
        var allow := UniqueStrings(current.allow, raw[key].allow);
        var denied := UniqueStrings(current.deny, raw[key].deny);
        toolSets := toolSets[key := ToolSet(allow, denied)];
      }
    }

    method Merge(scope: Scope, raw: Raw, ghost entries: seq<(Scope, Raw)>)
      requires Holds(entries)
      modifies this
      ensures Holds(entries + [(scope, raw)])
      ensures old(deny) <= deny && old(managedDeny) <= managedDeny && old(approvalRequired) <= approvalRequired
      ensures forall key | key in old(toolSets) ::
        && key in toolSets && old(toolSets)[key].allow <= toolSets[key].allow
        && old(toolSets)[key].deny <= toolSets[key].deny
    {
      hide Unique, Listed, Keys, OfManaged;
      MergeToolSets(raw.toolSets);
      if raw.policy.Some? {
        MergePolicy(scope, raw.policy.value);
      }
      ghost var more := entries + [(scope, raw)];
      PolicyMore(entries, scope, raw);
      KeysMore(entries, scope, raw);
      forall key | key in toolSets
        ensures toolSets[key].allow == Unique(Listed(more, AllowOf(key)))
        ensures toolSets[key].deny == Unique(Listed(more, DenyOf(key)))
        ensures key in old(toolSets) ==>
          old(toolSets)[key].allow <= toolSets[key].allow && old(toolSets)[key].deny <= toolSets[key].deny
      {
        ToolSetMore(old(toolSets), entries, scope, raw, key);
      }
    }
  }

  function MergedToolSet(before: map<string, ToolSet>, raw: map<string, ToolSet>, key: string): ToolSet
    requires key in before || key in raw
  {
    var current := if key in before then before[key] else NO_TOOLS;
    if key !in raw then current
    else ToolSet(Unique(current.allow + raw[key].allow), Unique(current.deny + raw[key].deny))
  }

  lemma KeysMore(entries: seq<(Scope, Raw)>, scope: Scope, raw: Raw)
    ensures Keys(entries + [(scope, raw)]) == Keys(entries) + raw.toolSets.Keys
  {
    var more := entries + [(scope, raw)];
    assert more[..|entries|] == entries && more[|entries|] == (scope, raw);
  }

  lemma PolicyMore(entries: seq<(Scope, Raw)>, scope: Scope, raw: Raw)
    ensures var more := entries + [(scope, raw)];
      && Unique(Unique(Listed(entries, Denials)) + Denials(raw)) == Unique(Listed(more, Denials))
      && Unique(Unique(Listed(entries, Approvals)) + Approvals(raw)) == Unique(Listed(more, Approvals))
      && Unique(Listed(OfManaged(more), Denials)) ==
           (if scope.Managed? then Unique(Unique(Listed(OfManaged(entries), Denials)) + Denials(raw))
            else Unique(Listed(OfManaged(entries), Denials)))
      && Unique(Listed(entries, Denials)) <= Unique(Listed(more, Denials))
      && Unique(Listed(entries, Approvals)) <= Unique(Listed(more, Approvals))
      && Unique(Listed(OfManaged(entries), Denials)) <= Unique(Listed(OfManaged(more), Denials))
      && (raw.policy.None? ==>
            Unique(Listed(more, Denials)) == Unique(Listed(entries, Denials))
            && Unique(Listed(more, Approvals)) == Unique(Listed(entries, Approvals))
            && Unique(Listed(OfManaged(more), Denials)) == Unique(Listed(OfManaged(entries), Denials)))
  {
    hide Unique;
    Accumulates(entries, (scope, raw), Denials);
    Accumulates(entries, (scope, raw), Approvals);
    Accumulates(OfManaged(entries), (scope, raw), Denials);
    assert OfManaged(entries) + [] == OfManaged(entries);
  }

  /** One more scope appends its list. */
  lemma Accumulates(entries: seq<(Scope, Raw)>, entry: (Scope, Raw), pick: Raw -> seq<string>)
    ensures Unique(Unique(Listed(entries, pick)) + pick(entry.1)) == Unique(Listed(entries + [entry], pick))
    ensures Unique(Listed(entries, pick)) <= Unique(Listed(entries + [entry], pick))
    ensures pick(entry.1) == [] ==> Unique(Listed(entries + [entry], pick)) == Unique(Listed(entries, pick))
    ensures OfManaged(entries + [entry]) == OfManaged(entries) + if entry.0.Managed? then [entry] else []
  {
    hide Unique;
    ListedMore(entries, entry, pick);
    UniqueAbsorbs(Listed(entries, pick), pick(entry.1));
    UniqueExtends(Listed(entries, pick), pick(entry.1));
    assert pick(entry.1) == [] ==> Listed(entries, pick) + pick(entry.1) == Listed(entries, pick);
  }

  lemma ToolSetMore(before: map<string, ToolSet>, entries: seq<(Scope, Raw)>, scope: Scope, raw: Raw, key: string)
    requires key in before || key in raw.toolSets
    requires before.Keys == Keys(entries)
    requires key in before ==>
      before[key] == ToolSet(Unique(Listed(entries, AllowOf(key))), Unique(Listed(entries, DenyOf(key))))
    ensures var more := entries + [(scope, raw)];
      && MergedToolSet(before, raw.toolSets, key) ==
           ToolSet(Unique(Listed(more, AllowOf(key))), Unique(Listed(more, DenyOf(key))))
      && (key in before ==>
            before[key].allow <= MergedToolSet(before, raw.toolSets, key).allow
            && before[key].deny <= MergedToolSet(before, raw.toolSets, key).deny)
  {
    hide Unique, Listed;
    Accumulates(entries, (scope, raw), AllowOf(key));
    Accumulates(entries, (scope, raw), DenyOf(key));
    if key !in before {
      UnlistedKey(entries, key);
    }
  }

  lemma {:induction false} UnlistedKey(entries: seq<(Scope, Raw)>, key: string)
    requires key !in Keys(entries)
    ensures Listed(entries, AllowOf(key)) == [] && Listed(entries, DenyOf(key)) == []
    ensures Unique(Listed(entries, AllowOf(key))) == [] && Unique(Listed(entries, DenyOf(key))) == []
  {
    if entries != [] {
      UnlistedKey(entries[..|entries| - 1], key);
    }
  }

  // ---- The scope loop ---------------------------------------------------------------------------------------

  /** The files that exist, in the order in which the scopes are merged. */
  function Present(files: seq<(Scope, Option<Raw>)>): seq<(Scope, Raw)> {
    if files == [] then []
    else
      var (scope, raw) := files[|files| - 1];
      Present(files[..|files| - 1]) + if raw.Some? then [(scope, raw.value)] else []
  }

  /** The managed scope is merged before all others. */
  predicate ManagedFirst(entries: seq<(Scope, Raw)>) {
    forall i | 0 < i < |entries| :: !entries[i].0.Managed?
  }

  lemma {:induction false} OfManagedIsHead(entries: seq<(Scope, Raw)>)
    requires ManagedFirst(entries)
    ensures OfManaged(entries) == if entries != [] && entries[0].0.Managed? then entries[..1] else []
  {
    if |entries| > 1 {
      OfManagedIsHead(entries[..|entries| - 1]);
    }
  }

  lemma {:induction false} ListedExtends(entries: seq<(Scope, Raw)>, n: nat, pick: Raw -> seq<string>)
    requires n <= |entries|
    ensures Unique(Listed(entries[..n], pick)) <= Unique(Listed(entries, pick))
  {
    if n == |entries| {
      assert entries[..n] == entries;
    } else {
      ListedExtends(entries[..|entries| - 1], n, pick);
      assert entries[..|entries| - 1][..n] == entries[..n];
      UniqueExtends(Listed(entries[..|entries| - 1], pick), pick(entries[|entries| - 1].1));
    }
  }

  /** The managed denials head the list of denials, so that every one of them is among the denials. */
  lemma ManagedDenialsLead(entries: seq<(Scope, Raw)>)
    requires ManagedFirst(entries)
    ensures Unique(Listed(OfManaged(entries), Denials)) <= Unique(Listed(entries, Denials))
  {
    OfManagedIsHead(entries);
    if OfManaged(entries) == [] {
      assert Unique([]) == [];
    } else {
      ListedExtends(entries, 1, Denials);
    }
  }

  function One(scope: Scope, raw: Option<Raw>): seq<(Scope, Raw)> {
    if raw.Some? then [(scope, raw.value)] else []
  }

  lemma PresentMore(files: seq<(Scope, Option<Raw>)>, scope: Scope, raw: Option<Raw>)
    ensures Present(files + [(scope, raw)]) == Present(files) + One(scope, raw)
  {
    assert (files + [(scope, raw)])[..|files|] == files;
  }

  /** The four scopes in their order. */
  function Scopes(managed: Option<Raw>, user: Option<Raw>, project: Option<Raw>, local: Option<Raw>)
    : seq<(Scope, Option<Raw>)>
  {
    [(Managed, managed), (User, user), (Project, project), (Local, local)]
  }

  lemma NoScopes()
    ensures Present([]) == []
  {
  }

  /** Merging the managed scope first puts it first among the files that exist. */
  lemma {:induction false} PresentManaged(files: seq<(Scope, Option<Raw>)>)
    requires files != [] && files[0].0.Managed? && forall i | 0 < i < |files| :: !files[i].0.Managed?
    ensures ManagedFirst(Present(files)) && OfManaged(Present(files)) == One(Managed, files[0].1)
  {
    var before := files[..|files| - 1];
    var (scope, raw) := files[|files| - 1];
    assert files == before + [(scope, raw)];
    PresentMore(before, scope, raw);
    if before == [] {
      NoScopes();
      assert Present(files) == One(Managed, raw);
      if raw.Some? {
        ListedMore([], (Managed, raw.value), Denials);
        assert [] + One(Managed, raw) == One(Managed, raw);
      }
    } else {
      PresentManaged(before);
      assert Present(before) + [] == Present(before);
      assert OfManaged(Present(before)) + [] == OfManaged(Present(before));
      if raw.Some? {
        ListedMore(Present(before), (scope, raw.value), Denials);
      }
    }
  }

  // ---- What is listed, by the files -------------------------------------------------------------------------

  lemma {:induction false} ListedIff(files: seq<(Scope, Option<Raw>)>, pick: Raw -> seq<string>, item: string)
    ensures item in Listed(Present(files), pick) <==>
      exists i | 0 <= i < |files| :: files[i].1.Some? && item in pick(files[i].1.value)
  {
    if files != [] {
      var n := |files| - 1;
      var (scope, raw) := files[n];
      assert files == files[..n] + [(scope, raw)];
      hide Present, Listed;
      ListedIff(files[..n], pick, item);
      PresentMore(files[..n], scope, raw);
      assert Present(files[..n]) + [] == Present(files[..n]);
      if raw.Some? {
        ListedMore(Present(files[..n]), (scope, raw.value), pick);
      }
    }
  }

  /** Something is denied, or needs approval, if and only if the policy of some file lists it; and a tool set allows or
      denies it if and only if the tool set of this name in some file does. The empty string never counts. */
  lemma ListedSomewhereIff(files: seq<(Scope, Option<Raw>)>, key: string, item: string)
    ensures item in Unique(Listed(Present(files), Denials)) <==>
      item != "" && exists i | 0 <= i < |files| ::
        files[i].1.Some? && files[i].1.value.policy.Some? && item in files[i].1.value.policy.value.deny
    ensures item in Unique(Listed(Present(files), Approvals)) <==>
      item != "" && exists i | 0 <= i < |files| ::
        files[i].1.Some? && files[i].1.value.policy.Some? && item in files[i].1.value.policy.value.approvalRequired
    ensures item in Unique(Listed(Present(files), AllowOf(key))) <==>
      item != "" && exists i | 0 <= i < |files| ::
        && files[i].1.Some? && key in files[i].1.value.toolSets
        && item in files[i].1.value.toolSets[key].allow
    ensures item in Unique(Listed(Present(files), DenyOf(key))) <==>
      item != "" && exists i | 0 <= i < |files| ::
        && files[i].1.Some? && key in files[i].1.value.toolSets
        && item in files[i].1.value.toolSets[key].deny
  {
    hide Unique, Listed, Present;
    ListedIff(files, Denials, item);
    ListedIff(files, Approvals, item);
    ListedIff(files, AllowOf(key), item);
    ListedIff(files, DenyOf(key), item);
  }

  method LoadScopes(files: seq<(Scope, Option<Raw>)>) returns (config: Config)
    ensures fresh(config) && config.Holds(Present(files))
  {
    hide Unique, Listed, Keys, OfManaged, Present;
    NoScopes();
    assert files[..0] == [];
    config := new Config();
    for i := 0 to |files|
      invariant fresh(config) && config.Holds(Present(files[..i]))
    {
      var (scope, raw) := files[i];
      PresentMore(files[..i], scope, raw);
      assert files[..i + 1] == files[..i] + [(scope, raw)];
      assert Present(files[..i]) + [] == Present(files[..i]);
      if raw.None? {
        continue;
      }
      config.Merge(scope, raw.value, Present(files[..i]));
    }
    assert files[..|files|] == files;
  }

  /** The loop of `LoadEffective` over the four scopes, for the lists. */
  method LoadEffective(managed: Option<Raw>, user: Option<Raw>, project: Option<Raw>, local: Option<Raw>)
    returns (config: Config)
    ensures fresh(config) && config.Holds(Present(Scopes(managed, user, project, local)))
    ensures config.managedDeny == Unique(if managed.Some? then Denials(managed.value) else [])
    ensures config.managedDeny <= config.deny
    ensures Distinct(config.deny) && Distinct(config.approvalRequired)
  {
    hide Present, Keys;
    config := LoadScopes(Scopes(managed, user, project, local));
    ghost var entries := Present(Scopes(managed, user, project, local));
    assert Scopes(managed, user, project, local)[0] == (Managed, managed);
    PresentManaged(Scopes(managed, user, project, local));
    ManagedDenialsLead(entries);
    UniqueIsFirstOccurrences(Listed(entries, Denials));
    UniqueIsFirstOccurrences(Listed(entries, Approvals));
    assert Listed(One(Managed, managed), Denials) == if managed.Some? then Denials(managed.value) else [] by {
      if managed.Some? {
        ListedMore([], (Managed, managed.value), Denials);
        assert [] + [(Managed, managed.value)] == One(Managed, managed);
      }
    }
  }
}
