/** Merging a source over the configuration scopes (pkg/config/load.go, pkg/config/mcp.go). */
module SourceMerge {
  import opened Wrappers

  // Fields that belong to one kind of source or transport are reset when the kind changes, and the validators rely
  // on it.

  datatype Transport = Transport(
    kind: string, command: string, args: seq<string>, env: map<string, string>,
    url: string, headers: map<string, string>, headerSecrets: map<string, string>)

  datatype OAuth = OAuth(
    mode: string, issuer: string, authorizationUrl: string, tokenUrl: string, clientId: Option<string>,
    clientSecret: Option<string>, scopes: seq<string>, audience: string, interactive: Option<bool>,
    callbackPort: Option<int>, redirectUri: string, tokenStorage: string)

  datatype Source = Source(
    kind: string, uri: string, enabled: bool, refresh: Option<string>, transport: Option<Transport>,
    disabledTools: seq<string>, oauth: Option<OAuth>)

  /** What one file says about a source; None where it says nothing. */
  datatype RawTransport = RawTransport(
    kind: Option<string>, command: Option<string>, args: Option<seq<string>>, env: Option<map<string, string>>,
    url: Option<string>, headers: Option<map<string, string>>, headerSecrets: Option<map<string, string>>)

  datatype RawOAuth = RawOAuth(
    mode: Option<string>, issuer: Option<string>, authorizationUrl: Option<string>, tokenUrl: Option<string>,
    clientId: Option<string>, clientSecret: Option<string>, scopes: Option<seq<string>>, audience: Option<string>,
    interactive: Option<bool>, callbackPort: Option<int>, redirectUri: Option<string>, tokenStorage: Option<string>)

  datatype RawSource = RawSource(
    kind: Option<string>, uri: Option<string>, enabled: Option<bool>, refresh: Option<string>,
    transport: Option<RawTransport>, disabledTools: Option<seq<string>>, oauth: Option<RawOAuth>)

  const NO_TRANSPORT := Transport("", "", [], map[], "", map[], map[])
  const NO_OAUTH := OAuth("", "", "", "", None, None, [], "", None, None, "", "")
  const NO_SOURCE := Source("", "", false, None, None, [], None)

  function Or<T>(given: Option<T>, current: T): T {
    if given.Some? then given.value else current
  }

  function OrKeep<T>(given: Option<T>, current: Option<T>): Option<T> {
    if given.Some? then given else current
  }

  // ---- What the merge computes ------------------------------------------------------------------------------

  /** `resetTransportExclusiveFields`. */
  function ResetTransport(t: Transport, kind: string): Transport {
    if kind == "stdio" then t.(url := "", headers := map[], headerSecrets := map[])
    else if kind == "sse" || kind == "streamable-http" then t.(command := "", args := [], env := map[])
    else t
  }

  function MergedTransport(current: Option<Transport>, raw: Option<RawTransport>): Option<Transport> {
    if raw.None? then current
    else
      var given, t := raw.value, Or(current, NO_TRANSPORT);
      var typed :=
        if given.kind.Some?
        then (if given.kind.value != t.kind then ResetTransport(t, given.kind.value) else t).(kind := given.kind.value)
        else t;
      Some(Transport(typed.kind, Or(given.command, typed.command), Or(given.args, typed.args),
                     Or(given.env, typed.env), Or(given.url, typed.url), Or(given.headers, typed.headers),
                     Or(given.headerSecrets, typed.headerSecrets)))
  }

  /** `resetOAuthExclusiveFields`. */
  function ResetOAuth(oauth: OAuth, mode: string): OAuth {
    if mode == "clientCredentials"
    then oauth.(authorizationUrl := "", interactive := None, callbackPort := None, redirectUri := "") else oauth
  }

  function MergedOAuth(current: Option<OAuth>, raw: Option<RawOAuth>): Option<OAuth> {
    if raw.None? then current
    else
      var given, oauth := raw.value, Or(current, NO_OAUTH);
      var typed :=
        if given.mode.Some?
        then (if given.mode.value != oauth.mode then ResetOAuth(oauth, given.mode.value) else oauth)
               .(mode := given.mode.value)
        else oauth;
      Some(OAuth(typed.mode, Or(given.issuer, typed.issuer), Or(given.authorizationUrl, typed.authorizationUrl),
                 Or(given.tokenUrl, typed.tokenUrl), OrKeep(given.clientId, typed.clientId),
                 OrKeep(given.clientSecret, typed.clientSecret), Or(given.scopes, typed.scopes),
                 Or(given.audience, typed.audience), OrKeep(given.interactive, typed.interactive),
                 OrKeep(given.callbackPort, typed.callbackPort), Or(given.redirectUri, typed.redirectUri),
                 Or(given.tokenStorage, typed.tokenStorage)))
  }

  /** `resetSourceExclusiveFields`. */
  function ResetSource(source: Source, kind: string): Source {
    if kind == "mcp" then source.(uri := "") else source.(transport := None, disabledTools := [], oauth := None)
  }

  function Retyped(current: Source, raw: RawSource): Source {
    if raw.kind.Some? then ResetSource(current, raw.kind.value).(kind := raw.kind.value) else current
  }

  /** The file gives a transport kind other than the one so far, and one that has no OAuth. */
  predicate DropsOAuth(current: Source, raw: RawSource) {
    && raw.transport.Some? && raw.transport.value.kind.Some?
    && (current.transport.None? || current.transport.value.kind != raw.transport.value.kind.value)
    && raw.transport.value.kind.value != "streamable-http" && raw.oauth.None?
  }

  /** The source after one more file. */
  function Merged(current: Source, raw: RawSource): Source {
    var typed := Retyped(current, raw);
    Source(typed.kind, Or(raw.uri, typed.uri),
           if raw.enabled.Some? then raw.enabled.value else current == NO_SOURCE || current.enabled,
           OrKeep(raw.refresh, typed.refresh), MergedTransport(typed.transport, raw.transport),
           Or(raw.disabledTools, typed.disabledTools),
           MergedOAuth(if DropsOAuth(typed, raw) then None else typed.oauth, raw.oauth))
  }

  // ---- Fields of another kind -------------------------------------------------------------------------------

  /** The transport kind that counts after a file. */
  function TransportKind(transport: Option<Transport>): string {
    if transport.Some? then transport.value.kind else ""
  }

  function TransportKindInForce(current: Source, raw: RawSource): string {
    if raw.transport.Some? && raw.transport.value.kind.Some? then raw.transport.value.kind.value
    else if raw.kind.Some? && raw.kind.value != "mcp" then ""
    else TransportKind(current.transport)
  }

  /** The source has no field that belongs to another kind of source or transport. */
  predicate Clean(source: Source) {
    if source.kind != "mcp" then source.transport.None? && source.disabledTools == [] && source.oauth.None?
    else
      && source.uri == ""
      && (TransportKind(source.transport) == "stdio" ==>
            var t := source.transport.value;
            t.url == "" && t.headers == map[] && t.headerSecrets == map[] && source.oauth.None?)
      && (TransportKind(source.transport) == "sse" ==>
            var t := source.transport.value;
            t.command == "" && t.args == [] && t.env == map[] && source.oauth.None?)
      && (TransportKind(source.transport) == "streamable-http" ==>
            var t := source.transport.value;
            t.command == "" && t.args == [] && t.env == map[])
  }

  /** A file gives nothing but what belongs to the kind of source and of transport in force after it. */
  predicate Fits(raw: RawSource, kind: string, transportKind: string) {
    if kind != "mcp" then raw.transport.None? && Or(raw.disabledTools, []) == [] && raw.oauth.None?
    else
      && Or(raw.uri, "") == ""
      && (raw.oauth.Some? ==> transportKind != "stdio" && transportKind != "sse")
      && (raw.transport.Some? ==>
            var t := raw.transport.value;
            && (transportKind == "stdio" ==>
                  Or(t.url, "") == "" && Or(t.headers, map[]) == map[] && Or(t.headerSecrets, map[]) == map[])
            && (transportKind == "sse" || transportKind == "streamable-http" ==>
                  Or(t.command, "") == "" && Or(t.args, []) == [] && Or(t.env, map[]) == map[]))
  }

  lemma MergedTransportKind(current: Option<Transport>, raw: Option<RawTransport>)
    ensures TransportKind(MergedTransport(current, raw)) ==
      if raw.Some? && raw.value.kind.Some? then raw.value.kind.value else TransportKind(current)
  {
  }

  /** One file keeps a clean source clean if and only if it fits, through any change of kinds. */
  lemma MergeKeepsCleanIff(current: Source, raw: RawSource)
    requires Clean(current)
    ensures Clean(Merged(current, raw)) <==>
      Fits(raw, Or(raw.kind, current.kind), TransportKindInForce(current, raw))
    ensures Merged(current, raw).kind == Or(raw.kind, current.kind)
    ensures TransportKind(Merged(current, raw).transport) == TransportKindInForce(current, raw)
  {
    var typed := Retyped(current, raw);
    MergedTransportKind(typed.transport, raw.transport);
  }

  /** The same for the fields that client-credentials OAuth does not have. */
  predicate CleanOAuth(oauth: Option<OAuth>) {
    oauth.Some? && oauth.value.mode == "clientCredentials" ==>
      && oauth.value.authorizationUrl == "" && oauth.value.redirectUri == ""
      && oauth.value.interactive.None? && oauth.value.callbackPort.None?
  }

  predicate FitsOAuth(raw: Option<RawOAuth>, mode: string) {
    raw.Some? && mode == "clientCredentials" ==>
      && Or(raw.value.authorizationUrl, "") == "" && Or(raw.value.redirectUri, "") == ""
      && raw.value.interactive.None? && raw.value.callbackPort.None?
  }

  lemma MergeKeepsOAuthCleanIff(current: Option<OAuth>, raw: Option<RawOAuth>)
    requires CleanOAuth(current)
    ensures CleanOAuth(MergedOAuth(current, raw)) <==>
      FitsOAuth(raw, if raw.Some? && raw.value.mode.Some? then raw.value.mode.value else Or(current, NO_OAUTH).mode)
  {
  }

  /** The source after all files that mention it. */
  function MergedAll(raws: seq<RawSource>): Source {
    if raws == [] then NO_SOURCE else Merged(MergedAll(raws[..|raws| - 1]), raws[|raws| - 1])
  }

  /** What the files say about one source, in order. */
  function Mentions(files: seq<map<string, RawSource>>, key: string): seq<RawSource> {
    if files == [] then []
    else
      var last := files[|files| - 1];
      Mentions(files[..|files| - 1], key) + if key in last then [last[key]] else []
  }

  lemma MentionedMore(files: seq<map<string, RawSource>>, n: nat, key: string)
    requires n < |files|
    ensures var before, after := Mentions(files[..n], key), Mentions(files[..n + 1], key);
            if key in files[n]
            then after == before + [files[n][key]] && MergedAll(after) == Merged(MergedAll(before), files[n][key])
            else after == before
  {
    assert files[..n + 1][..n] == files[..n];
    if key in files[n] {
      var before := Mentions(files[..n], key);
      assert (before + [files[n][key]])[..|before|] == before;
    }
  }

  lemma NothingMentioned(files: seq<map<string, RawSource>>)
    ensures forall key :: Mentions(files[..0], key) == [] && MergedAll([]) == NO_SOURCE
  {
  }

  predicate FitsAfter(before: Source, raw: RawSource) {
    Fits(raw, Or(raw.kind, before.kind), TransportKindInForce(before, raw))
  }

  /** Every file fits the kinds in force after it. */
  ghost predicate AllFit(raws: seq<RawSource>) {
    forall n | 0 <= n < |raws| :: FitsAfter(MergedAll(raws[..n]), raws[n])
  }

  lemma FitBefore(raws: seq<RawSource>)
    requires raws != [] && AllFit(raws)
    ensures AllFit(raws[..|raws| - 1]) && FitsAfter(MergedAll(raws[..|raws| - 1]), raws[|raws| - 1])
  {
    hide FitsAfter, MergedAll;
    var before := raws[..|raws| - 1];
    forall n | 0 <= n < |before|
      ensures FitsAfter(MergedAll(before[..n]), before[n])
    {
      assert before[..n] == raws[..n] && before[n] == raws[n];
    }
  }

  /** Through any number of changes of kind, files that fit leave no field of another kind behind. */
  lemma {:induction false} FittingFilesMergeClean(raws: seq<RawSource>)
    requires AllFit(raws)
    ensures Clean(MergedAll(raws))
  {
    if raws != [] {
      hide Clean, Fits, Merged, TransportKindInForce, AllFit;
      FitBefore(raws);
      FittingFilesMergeClean(raws[..|raws| - 1]);
      MergeKeepsCleanIff(MergedAll(raws[..|raws| - 1]), raws[|raws| - 1]);
    }
  }

  /** A file that does not mention `enabled` keeps its value if and only if the source is enabled or known. */
  lemma EnabledKeptIff(current: Source, raw: RawSource)
    requires raw.enabled.None?
    ensures Merged(current, raw).enabled == current.enabled <==> current != NO_SOURCE
  {
  }

  /** So a source that the first file only disables comes back enabled. */
  lemma LoneDisableIsForgotten()
    ensures var disable := RawSource(None, None, Some(false), None, None, None, None);
      var later := RawSource(Some("openapi"), Some("https://example.com"), None, None, None, None, None);
      MergedAll([disable, later]).enabled
  {
    var disable := RawSource(None, None, Some(false), None, None, None, None);
    var later := RawSource(Some("openapi"), Some("https://example.com"), None, None, None, None, None);
    assert [disable, later][..1] == [disable] && [disable][..0] == [];
    assert MergedAll([]) == NO_SOURCE;
    assert MergedAll([disable]) == NO_SOURCE;
  }

  // ---- The validator ----------------------------------------------------------------------------------------

  datatype Rule = OnlyForMcp | NotForThisKind | Required | NotForThisMode | WrongMode

  datatype Diagnostic = Diagnostic(field: string, rule: Rule)

  /** The complaint is about a field of another kind of source or transport. */
  predicate IsForeign(diagnostic: Diagnostic) {
    diagnostic.rule.OnlyForMcp? || diagnostic.rule.NotForThisKind?
  }

  ghost predicate NoForeign(diagnostics: seq<Diagnostic>) {
    forall i | 0 <= i < |diagnostics| :: !IsForeign(diagnostics[i])
  }

  ghost predicate NoModeConflict(diagnostics: seq<Diagnostic>) {
    forall i | 0 <= i < |diagnostics| :: !diagnostics[i].rule.NotForThisMode?
  }

  /** `validateOAuthConfig`. */
  method ValidateOAuth(oauth: Option<OAuth>) returns (diagnostics: seq<Diagnostic>)
    ensures NoForeign(diagnostics)
    ensures NoModeConflict(diagnostics) <==> CleanOAuth(oauth)
  {
    diagnostics := [];
    if oauth.None? {
      return;
    }
    var o := oauth.value;
    if o.mode == "clientCredentials" {
      diagnostics := Complain(diagnostics, o.clientId.None?, Diagnostic("clientId", Required));
      diagnostics := Complain(diagnostics, o.clientSecret.None?, Diagnostic("clientSecret", Required));
      diagnostics := Complain(diagnostics, o.issuer == "" && o.tokenUrl == "", Diagnostic("oauth", Required));
      diagnostics := Complain(diagnostics, o.authorizationUrl != "", Diagnostic("authorizationURL", NotForThisMode));
      diagnostics := Complain(diagnostics, o.interactive.Some?, Diagnostic("interactive", NotForThisMode));
      diagnostics := Complain(diagnostics, o.callbackPort.Some?, Diagnostic("callbackPort", NotForThisMode));
      diagnostics := Complain(diagnostics, o.redirectUri != "", Diagnostic("redirectURI", NotForThisMode));
    } else {
      diagnostics := Complain(diagnostics, true, Diagnostic("mode", WrongMode));
    }
  }

  /** The complaints about fields that the transport must have or must not have. */
  method ValidateTransport(t: Transport, oauth: Option<OAuth>) returns (diagnostics: seq<Diagnostic>)
    ensures NoForeign(diagnostics) <==> Clean(Source("mcp", "", true, None, Some(t), [], oauth))
  {
    diagnostics := [];
    if t.kind == "stdio" {
      diagnostics := Complain(diagnostics, t.command == "", Diagnostic("command", Required));
      diagnostics := Complain(diagnostics, t.url != "", Diagnostic("url", NotForThisKind));
      diagnostics := Complain(diagnostics, t.headers != map[], Diagnostic("headers", NotForThisKind));
      diagnostics := Complain(diagnostics, t.headerSecrets != map[], Diagnostic("headerSecrets", NotForThisKind));
      diagnostics := Complain(diagnostics, oauth.Some?, Diagnostic("oauth", NotForThisKind));
    } else if t.kind == "sse" {
      diagnostics := Complain(diagnostics, t.url == "", Diagnostic("url", Required));
      diagnostics := Complain(diagnostics, t.command != "", Diagnostic("command", NotForThisKind));
      diagnostics := Complain(diagnostics, t.args != [], Diagnostic("args", NotForThisKind));
      diagnostics := Complain(diagnostics, t.env != map[], Diagnostic("env", NotForThisKind));
      diagnostics := Complain(diagnostics, oauth.Some?, Diagnostic("oauth", NotForThisKind));
    } else if t.kind == "streamable-http" {
      diagnostics := Complain(diagnostics, t.url == "", Diagnostic("url", Required));
      diagnostics := Complain(diagnostics, t.command != "", Diagnostic("command", NotForThisKind));
      diagnostics := Complain(diagnostics, t.args != [], Diagnostic("args", NotForThisKind));
      diagnostics := Complain(diagnostics, t.env != map[], Diagnostic("env", NotForThisKind));
      var more := ValidateOAuth(oauth);
      AllForeignFree(diagnostics, more);
      diagnostics := diagnostics + more;
    }
  }

  /** One check: append the diagnostic if the condition holds. */
  method Complain(diagnostics: seq<Diagnostic>, wrong: bool, diagnostic: Diagnostic) returns (all: seq<Diagnostic>)
    ensures all == if wrong then diagnostics + [diagnostic] else diagnostics
    ensures NoForeign(all) <==> NoForeign(diagnostics) && !(wrong && IsForeign(diagnostic))
    ensures NoModeConflict(all) <==> NoModeConflict(diagnostics) && !(wrong && diagnostic.rule.NotForThisMode?)
  {
    all := diagnostics;
    if wrong {
      all := all + [diagnostic];
      AllForeignFree(diagnostics, [diagnostic]);
      assert NoForeign([diagnostic]) <==> !IsForeign([diagnostic][0]);
      assert NoModeConflict(all) ==> !all[|diagnostics|].rule.NotForThisMode?;
      assert NoModeConflict(all) ==> forall i | 0 <= i < |diagnostics| :: diagnostics[i] == all[i];
    }
  }

  lemma AllForeignFree(some: seq<Diagnostic>, more: seq<Diagnostic>)
    ensures NoForeign(some + more) <==> NoForeign(some) && NoForeign(more)
  {
    if NoForeign(some + more) {
      forall i | 0 <= i < |some| ensures !IsForeign(some[i]) {
        assert (some + more)[i] == some[i];
      }
      forall i | 0 <= i < |more| ensures !IsForeign(more[i]) {
        assert (some + more)[|some| + i] == more[i];
      }
    }
  }

  /** `validateMCPConfig` for one source: it complains about a field of another kind if and only if there is one. */
  method Validate(source: Source) returns (diagnostics: seq<Diagnostic>)
    ensures NoForeign(diagnostics) <==> Clean(source)
  {
    diagnostics := [];
    if source.kind != "mcp" {
      diagnostics := Complain(diagnostics, source.transport.Some?, Diagnostic("transport", OnlyForMcp));
      diagnostics := Complain(diagnostics, |source.disabledTools| > 0, Diagnostic("disabledTools", OnlyForMcp));
      diagnostics := Complain(diagnostics, source.oauth.Some?, Diagnostic("oauth", OnlyForMcp));
      return;
    }
    diagnostics := Complain(diagnostics, source.uri != "", Diagnostic("uri", NotForThisKind));
    if source.transport.None? {
      diagnostics := Complain(diagnostics, true, Diagnostic("transport", Required));
      return;
    }
    if source.transport.value.kind == "" {
      diagnostics := Complain(diagnostics, true, Diagnostic("transport.type", Required));
      return;
    }
    var more := ValidateTransport(source.transport.value, source.oauth);
    AllForeignFree(diagnostics, more);
    diagnostics := diagnostics + more;
  }

  // ---- The merge in place -----------------------------------------------------------------------------------

  /** A transport of the configuration, changed in place by every file that mentions it. */
  class TransportRecord {
    var kind: string
    var command: string
    var args: seq<string>
    var env: map<string, string>
    var url: string
    var headers: map<string, string>
    var headerSecrets: map<string, string>

    function Value(): Transport
      reads this
    {
      Transport(kind, command, args, env, url, headers, headerSecrets)
    }

    constructor ()
      ensures Value() == NO_TRANSPORT
    {
      kind, command, args, env, url, headers, headerSecrets := "", "", [], map[], "", map[], map[];
    }

    method Reset(newKind: string)
      modifies this
      ensures Value() == ResetTransport(old(Value()), newKind)
    {
      if newKind == "stdio" {
        url, headers, headerSecrets := "", map[], map[];
      } else if newKind == "sse" || newKind == "streamable-http" {
        command, args, env := "", [], map[];
      }
    }

    /** The assignments at the end of `mergeRawTransport`. */
    method Assign(raw: RawTransport)
      modifies this
      ensures Some(Value()) == MergedTransport(Some(old(Value())), Some(raw.(kind := None)))
    {
      if raw.command.Some? {
        command := raw.command.value;
      }
      if raw.args.Some? {
        args := raw.args.value;
      }
      if raw.env.Some? {
        env := raw.env.value;
      }
      if raw.url.Some? {
        url := raw.url.value;
      }
      if raw.headers.Some? {
        headers := raw.headers.value;
      }
      if raw.headerSecrets.Some? {
        headerSecrets := raw.headerSecrets.value;
      }
    }
  }

  class OAuthRecord {
    var value: OAuth

    constructor ()
      ensures value == NO_OAUTH
    {
      value := NO_OAUTH;
    }
  }

  function TransportOf(record: TransportRecord?): Option<Transport>
    reads record
  {
    if record == null then None else Some(record.Value())
  }

  function OAuthOf(record: OAuthRecord?): Option<OAuth>
    reads record
  {
    if record == null then None else Some(record.value)
  }

  /** `mergeRawTransport`. */
  method MergeTransport(current: TransportRecord?, raw: Option<RawTransport>) returns (merged: TransportRecord?)
    modifies current
    ensures merged == current || fresh(merged)
    ensures TransportOf(merged) == MergedTransport(old(TransportOf(current)), raw)
  {
    merged := current;
    if raw.None? {
      return;
    }
    if raw.value.kind.Some? {
      if merged == null {
        merged := new TransportRecord();
      } else if merged.kind != raw.value.kind.value {
        merged.Reset(raw.value.kind.value);
      }
      merged.kind := raw.value.kind.value;
    } else if merged == null {
      merged := new TransportRecord();
    }
    merged.Assign(raw.value);
  }

  /** `mergeRawOAuth`. */
  method MergeOAuth(current: OAuthRecord?, raw: Option<RawOAuth>) returns (merged: OAuthRecord?)
    modifies current
    ensures merged == current || fresh(merged)
    ensures OAuthOf(merged) == MergedOAuth(old(OAuthOf(current)), raw)
  {
    merged := current;
    if raw.None? {
      return;
    }
    var given := raw.value;
    if given.mode.Some? {
      if merged == null {
        merged := new OAuthRecord();
      } else if merged.value.mode != given.mode.value {
        merged.value := ResetOAuth(merged.value, given.mode.value);
      }
      merged.value := merged.value.(mode := given.mode.value);
    } else if merged == null {
      merged := new OAuthRecord();
    }
    var o := merged.value;
    merged.value := OAuth(
      o.mode, Or(given.issuer, o.issuer), Or(given.authorizationUrl, o.authorizationUrl),
      Or(given.tokenUrl, o.tokenUrl), OrKeep(given.clientId, o.clientId), OrKeep(given.clientSecret, o.clientSecret),
      Or(given.scopes, o.scopes), Or(given.audience, o.audience), OrKeep(given.interactive, o.interactive),
      OrKeep(given.callbackPort, o.callbackPort), Or(given.redirectUri, o.redirectUri),
      Or(given.tokenStorage, o.tokenStorage));
  }

  /** An entry of the source map, with its two structures by reference. */
  datatype Entry = Entry(
    kind: string, uri: string, enabled: bool, refresh: Option<string>, transport: TransportRecord?,
    disabledTools: seq<string>, oauth: OAuthRecord?)

  function SourceOf(entry: Entry): Source
    reads entry.transport, entry.oauth
  {
    Source(entry.kind, entry.uri, entry.enabled, entry.refresh, TransportOf(entry.transport), entry.disabledTools,
           OAuthOf(entry.oauth))
  }

  class Config {
    var sources: map<string, Entry>

    constructor ()
      ensures sources == map[] && Valid()
    {
      sources := map[];
    }

    /** No two sources share a structure. */
    ghost predicate Valid()
      reads this
    {
      AllApart(sources)
    }

    /** The structures of one source. */
    ghost function Records(key: string): set<object?>
      reads this
    {
      if key in sources then {sources[key].transport, sources[key].oauth} else {}
    }

    function Current(key: string): Source
      reads this, Records(key)
    {
      if key in sources then SourceOf(sources[key]) else NO_SOURCE
    }

    ghost function AllRecords(): set<object?>
      reads this
    {
      set key, record | key in sources && record in Records(key) :: record
    }

    /** The loop over the sources of a file, in whatever order the map is ranged over. */
    method MergeSources(raw: map<string, RawSource>)
      requires Valid()
      modifies this, AllRecords()
      ensures Valid() && sources.Keys == old(sources.Keys) + raw.Keys
      ensures fresh(AllRecords() - old(AllRecords()) - {null})
      ensures forall key | key in raw :: Current(key) == Merged(old(Current(key)), raw[key])
      ensures forall key | key in old(sources) && key !in raw :: Current(key) == old(Current(key))
    {
      hide Merged, SourceOf, Current, Valid;
      var todo := raw.Keys;
      while todo != {}
        invariant Valid() && todo <= raw.Keys
        invariant fresh(AllRecords() - old(AllRecords()) - {null})
        invariant sources.Keys == old(sources.Keys) + (raw.Keys - todo)
        invariant forall key | key in raw && key !in todo :: Current(key) == Merged(old(Current(key)), raw[key])
        invariant forall key | key in todo || key !in raw :: Current(key) == old(Current(key))
        decreases todo
      {
        var key :| key in todo;
        MergeOne(key, raw[key]);
        todo := todo - {key};
      }
    }

    /** The scopes of a configuration one after the other, starting from nothing. */
    method MergeFiles(files: seq<map<string, RawSource>>)
      requires Valid() && sources == map[]
      modifies this
      ensures forall key :: Current(key) == MergedAll(Mentions(files, key))
      ensures forall key :: key in sources <==> Mentions(files, key) != []
    {
      hide Merged, SourceOf, MergedAll, Mentions, AllApart;
      NothingMentioned(files);
      for n := 0 to |files|
        invariant Valid() && fresh(AllRecords() - {null})
        invariant forall key :: Current(key) == MergedAll(Mentions(files[..n], key))
        invariant forall key :: key in sources <==> Mentions(files[..n], key) != []
      {
        MergeSources(files[n]);
        forall key
          ensures Current(key) == MergedAll(Mentions(files[..n + 1], key))
          ensures key in sources <==> Mentions(files[..n + 1], key) != []
        {
          MentionedMore(files, n, key);
        }
      }
      assert files[..|files|] == files;
    }

    /** `MergeSource`, with the structures of all sources for its frame. */
    method MergeOne(key: string, raw: RawSource)
      requires Valid()
      modifies this, AllRecords()
      ensures Valid() && sources.Keys == old(sources.Keys) + {key}
      ensures fresh(AllRecords() - old(AllRecords()) - {null})
      ensures Current(key) == Merged(old(Current(key)), raw)
      ensures forall other | other != key :: Current(other) == old(Current(other))
    {
      hide Merged, SourceOf;
      ghost var before := AllRecords();
      assert Records(key) <= before + {null};
      MergeSource(key, raw);
      forall other | other in sources && other != key
        ensures Records(other) <= before
      {
        assert other in old(sources) && sources[other] == old(sources)[other];
        assert forall record | record in old(Records(other)) :: record in before;
      }
    }

    /** One turn of the loop over the sources of a file: the entry becomes the merged one, no other changes. */
    method MergeSource(key: string, raw: RawSource)
      requires Valid()
      modifies this, Records(key)
      ensures Valid() && fresh(Records(key) - old(Records(key)) - {null})
      ensures sources.Keys == old(sources.Keys) + {key}
      ensures Current(key) == Merged(old(Current(key)), raw)
      ensures forall other | other in old(sources) && other != key ::
        sources[other] == old(sources)[other] && Current(other) == old(Current(other))
    {
      hide Merged, SourceOf, Apart, AllApart;
      var current := if key in sources then sources[key] else NO_ENTRY;
      NoEntryIsNoSource();
      assert SourceOf(current) == Current(key);
      ghost var others := Others(sources, key);
      OthersApart(sources, key);
      var merged := MergeApart(current, raw, others);
      OneMoreApart(sources, key, merged);
      sources := sources[key := merged];
      forall other | other in old(sources) && other != key
        ensures sources[other] == others[other] && Current(other) == old(Current(other))
      {
        assert other in others;
      }
    }
  }

  /** Two entries share no structure. */
  predicate Apart(a: Entry, b: Entry) {
    && (a.transport == null || a.transport != b.transport)
    && (a.oauth == null || a.oauth != b.oauth)
  }

  predicate AllApart(sources: map<string, Entry>) {
    forall a, b | a in sources && b in sources && a != b :: Apart(sources[a], sources[b])
  }

  ghost function Others(sources: map<string, Entry>, key: string): map<string, Entry> {
    map other | other in sources && other != key :: sources[other]
  }

  lemma OthersApart(sources: map<string, Entry>, key: string)
    requires AllApart(sources)
    ensures var entry := if key in sources then sources[key] else NO_ENTRY;
      forall other | other in Others(sources, key) :: Apart(entry, Others(sources, key)[other])
  {
  }

  lemma OneMoreApart(sources: map<string, Entry>, key: string, entry: Entry)
    requires AllApart(sources)
    requires forall other | other in Others(sources, key) :: Apart(entry, Others(sources, key)[other])
    ensures AllApart(sources[key := entry])
  {
    var more := sources[key := entry];
    forall a, b | a in more && b in more && a != b
      ensures Apart(more[a], more[b])
    {
      assert a != key ==> a in Others(sources, key);
      assert b != key ==> b in Others(sources, key);
    }
  }

  /** Merging into an entry leaves entries alone that share no structure with it. */
  method MergeApart(entry: Entry, raw: RawSource, ghost others: map<string, Entry>) returns (current: Entry)
    requires forall other | other in others :: Apart(entry, others[other])
    modifies entry.transport, entry.oauth
    ensures SourceOf(current) == Merged(old(SourceOf(entry)), raw)
    ensures current.transport in {null, entry.transport} || fresh(current.transport)
    ensures current.oauth in {null, entry.oauth} || fresh(current.oauth)
    ensures forall other | other in others ::
      Apart(current, others[other]) && SourceOf(others[other]) == old(SourceOf(others[other]))
  {
    hide Merged;
    current := MergeEntry(entry, raw);
  }

  lemma NoEntryIsNoSource()
    ensures SourceOf(NO_ENTRY) == NO_SOURCE
  {
  }

  const NO_ENTRY := Entry("", "", false, None, null, [], null)

  /** The change of kind, which forgets what belongs to the other kinds. */
  method RetypeEntry(entry: Entry, raw: RawSource) returns (current: Entry)
    ensures SourceOf(current) == Retyped(SourceOf(entry), raw)
    ensures current.transport in {null, entry.transport} && current.oauth in {null, entry.oauth}
  {
    current := entry;
    if raw.kind.Some? {
      if raw.kind.value == "mcp" {
        current := current.(uri := "");
      } else {
        current := current.(transport := null, disabledTools := [], oauth := null);
      }
      current := current.(kind := raw.kind.value);
    }
  }

  /** The fields that are simply replaced. */
  method FillEntry(entry: Entry, raw: RawSource, isNewSource: bool) returns (current: Entry)
    ensures current == entry.(
      uri := Or(raw.uri, entry.uri), refresh := OrKeep(raw.refresh, entry.refresh),
      disabledTools := Or(raw.disabledTools, entry.disabledTools),
      enabled := if raw.enabled.Some? then raw.enabled.value else isNewSource || entry.enabled)
  {
    current := entry;
    if raw.uri.Some? {
      current := current.(uri := raw.uri.value);
    }
    if raw.enabled.Some? {
      current := current.(enabled := raw.enabled.value);
    } else if isNewSource {
      current := current.(enabled := true);
    }
    if raw.refresh.Some? {
      current := current.(refresh := raw.refresh);
    }
    if raw.disabledTools.Some? {
      current := current.(disabledTools := raw.disabledTools.value);
    }
  }

  /** The body of that turn. */
  method MergeEntry(entry: Entry, raw: RawSource) returns (current: Entry)
    modifies entry.transport, entry.oauth
    ensures SourceOf(current) == Merged(old(SourceOf(entry)), raw)
    ensures current.transport in {null, entry.transport} || fresh(current.transport)
    ensures current.oauth in {null, entry.oauth} || fresh(current.oauth)
  {
    hide MergedTransport, MergedOAuth, Retyped, Or, OrKeep;
    var isNewSource := SourceOf(entry) == NO_SOURCE;
    current := RetypeEntry(entry, raw);
    ghost var typed := SourceOf(current);
    assert typed.enabled == entry.enabled by {
      RetypedKeeps(SourceOf(entry), raw);
    }
    var transportTypeChanged, newTransportType := false, "";
    if raw.transport.Some? && raw.transport.value.kind.Some? {
      newTransportType := raw.transport.value.kind.value;
      transportTypeChanged := current.transport == null || current.transport.kind != newTransportType;
    }
    var drops := transportTypeChanged && newTransportType != "streamable-http" && raw.oauth.None?;
    assert drops == DropsOAuth(typed, raw);
    current := FillEntry(current, raw, isNewSource);
    current := MergeRecords(current, raw, drops);
  }

  /** The two structures of an entry; a change of transport kind may drop the OAuth one first. */
  method MergeRecords(entry: Entry, raw: RawSource, drops: bool) returns (current: Entry)
    modifies entry.transport, entry.oauth
    ensures SourceOf(current) == old(SourceOf(entry)).(
      transport := MergedTransport(old(TransportOf(entry.transport)), raw.transport),
      oauth := MergedOAuth(if drops then None else old(OAuthOf(entry.oauth)), raw.oauth))
    ensures current.transport in {null, entry.transport} || fresh(current.transport)
    ensures current.oauth in {null, entry.oauth} || fresh(current.oauth)
  {
    hide MergedTransport, MergedOAuth;
    current := entry;
    var transport := MergeTransport(current.transport, raw.transport);
    current := current.(transport := transport);
    if drops {
      current := current.(oauth := null);
    }
    var oauth := MergeOAuth(current.oauth, raw.oauth);
    current := current.(oauth := oauth);
  }

  lemma RetypedKeeps(current: Source, raw: RawSource)
    ensures Retyped(current, raw).enabled == current.enabled && Retyped(current, raw).refresh == current.refresh
  {
  }
}
