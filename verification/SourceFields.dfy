/** Which file gives each field of a merged source (pkg/config/load.go, pkg/config/mcp.go). */
module SourceFields {
  import opened Wrappers
  import opened SourceMerge

  // ---- Fields -----------------------------------------------------------------------------------------------

  /** The fields of a source, of its transport and of its OAuth settings; `Transport` and `OAuth` are whether there are
      any. */
  datatype Field =
    | Kind | Uri | Enabled | Refresh | DisabledTools
    | HasTransport | TransportKind | Command | Args | Env | Url | Headers | HeaderSecrets
    | HasOAuth | Mode | Issuer | TokenUrl | ClientId | ClientSecret | Scopes | Audience | TokenStorage
    | AuthorizationUrl | Interactive | CallbackPort | RedirectUri

  datatype Content =
    | Word(text: string)
    | Flag(truth: bool)
    | Words(list: seq<string>)
    | Table(entries: map<string, string>)
    | Reference(reference: Option<string>)
    | Choice(choice: Option<bool>)
    | Port(port: Option<int>)

  predicate OfTransport(field: Field) {
    field in {TransportKind, Command, Args, Env, Url, Headers, HeaderSecrets}
  }

  predicate OfOAuth(field: Field) {
    || field in {Mode, Issuer, TokenUrl, ClientId, ClientSecret, Scopes, Audience, TokenStorage}
    || OfInteractive(field)
  }

  /** What client-credentials OAuth does not have. */
  predicate OfInteractive(field: Field) {
    field in {AuthorizationUrl, Interactive, CallbackPort, RedirectUri}
  }

  function TransportContent(t: Transport, field: Field): Content
    requires OfTransport(field)
  {
    match field
    case TransportKind => Word(t.kind)
    case Command => Word(t.command)
    case Args => Words(t.args)
    case Env => Table(t.env)
    case Url => Word(t.url)
    case Headers => Table(t.headers)
    case HeaderSecrets => Table(t.headerSecrets)
  }

  function OAuthContent(o: OAuth, field: Field): Content
    requires OfOAuth(field)
  {
    match field
    case Mode => Word(o.mode)
    case Issuer => Word(o.issuer)
    case TokenUrl => Word(o.tokenUrl)
    case ClientId => Reference(o.clientId)
    case ClientSecret => Reference(o.clientSecret)
    case Scopes => Words(o.scopes)
    case Audience => Word(o.audience)
    case TokenStorage => Word(o.tokenStorage)
    case AuthorizationUrl => Word(o.authorizationUrl)
    case Interactive => Choice(o.interactive)
    case CallbackPort => Port(o.callbackPort)
    case RedirectUri => Word(o.redirectUri)
  }

  /** What a field holds; the default where the structure it belongs to is missing. */
  function ContentOf(source: Source, field: Field): Content {
    if OfTransport(field) then
      if source.transport.Some? then TransportContent(source.transport.value, field) else Default(field)
    else if OfOAuth(field) then
      if source.oauth.Some? then OAuthContent(source.oauth.value, field) else Default(field)
    else
      match field
      case Kind => Word(source.kind)
      case Uri => Word(source.uri)
      case Enabled => Flag(source.enabled)
      case Refresh => Reference(source.refresh)
      case DisabledTools => Words(source.disabledTools)
      case HasTransport => Flag(source.transport.Some?)
      case HasOAuth => Flag(source.oauth.Some?)
  }

  function Default(field: Field): Content {
    match field
    case Enabled => Flag(true)
    case HasTransport => Flag(false)
    case HasOAuth => Flag(false)
    case Refresh => Reference(None)
    case ClientId => Reference(None)
    case ClientSecret => Reference(None)
    case Interactive => Choice(None)
    case CallbackPort => Port(None)
    case DisabledTools => Words([])
    case Args => Words([])
    case Scopes => Words([])
    case Env => Table(map[])
    case Headers => Table(map[])
    case HeaderSecrets => Table(map[])
    case Kind => Word("")
    case Uri => Word("")
    case TransportKind => Word("")
    case Command => Word("")
    case Url => Word("")
    case Mode => Word("")
    case Issuer => Word("")
    case TokenUrl => Word("")
    case Audience => Word("")
    case TokenStorage => Word("")
    case AuthorizationUrl => Word("")
    case RedirectUri => Word("")
  }

  function Texts(given: Option<string>): Option<Content> {
    if given.Some? then Some(Word(given.value)) else None
  }

  function Lists(given: Option<seq<string>>): Option<Content> {
    if given.Some? then Some(Words(given.value)) else None
  }

  function Tables(given: Option<map<string, string>>): Option<Content> {
    if given.Some? then Some(Table(given.value)) else None
  }

  function References(given: Option<string>): Option<Content> {
    if given.Some? then Some(Reference(given)) else None
  }

  function GivenTransport(t: RawTransport, field: Field): Option<Content>
    requires OfTransport(field)
  {
    match field
    case TransportKind => Texts(t.kind)
    case Command => Texts(t.command)
    case Args => Lists(t.args)
    case Env => Tables(t.env)
    case Url => Texts(t.url)
    case Headers => Tables(t.headers)
    case HeaderSecrets => Tables(t.headerSecrets)
  }

  function GivenOAuth(o: RawOAuth, field: Field): Option<Content>
    requires OfOAuth(field)
  {
    match field
    case Mode => Texts(o.mode)
    case Issuer => Texts(o.issuer)
    case TokenUrl => Texts(o.tokenUrl)
    case ClientId => References(o.clientId)
    case ClientSecret => References(o.clientSecret)
    case Scopes => Lists(o.scopes)
    case Audience => Texts(o.audience)
    case TokenStorage => Texts(o.tokenStorage)
    case AuthorizationUrl => Texts(o.authorizationUrl)
    case Interactive => if o.interactive.Some? then Some(Choice(o.interactive)) else None
    case CallbackPort => if o.callbackPort.Some? then Some(Port(o.callbackPort)) else None
    case RedirectUri => Texts(o.redirectUri)
  }

  /** What one file says about a field, None where it says nothing. */
  function GivenBy(raw: RawSource, field: Field): Option<Content> {
    if OfTransport(field) then if raw.transport.Some? then GivenTransport(raw.transport.value, field) else None
    else if OfOAuth(field) then if raw.oauth.Some? then GivenOAuth(raw.oauth.value, field) else None
    else
      match field
      case Kind => Texts(raw.kind)
      case Uri => Texts(raw.uri)
      case Enabled => if raw.enabled.Some? then Some(Flag(raw.enabled.value)) else None
      case Refresh => References(raw.refresh)
      case DisabledTools => Lists(raw.disabledTools)
      case HasTransport => if raw.transport.Some? then Some(Flag(true)) else None
      case HasOAuth => if raw.oauth.Some? then Some(Flag(true)) else None
  }

  // ---- Resets -----------------------------------------------------------------------------------------------

  /** The file gives a kind of source that is not MCP. */
  predicate LeavesMcp(raw: RawSource) {
    raw.kind.Some? && raw.kind.value != "mcp"
  }

  /** The transport kind that the file gives, where it is not the one in force before. */
  function NewKind(before: Source, raw: RawSource): Option<string> {
    if && raw.transport.Some? && raw.transport.value.kind.Some?
       && (before.transport.None? || before.transport.value.kind != raw.transport.value.kind.value)
    then raw.transport.value.kind else None
  }

  /** The OAuth settings so far are dropped. */
  predicate DropsSettings(before: Source, raw: RawSource) {
    || LeavesMcp(raw)
    || (NewKind(before, raw).Some? && NewKind(before, raw) != Some("streamable-http") && raw.oauth.None?)
  }

  /** A file resets a field by what it says about kinds and modes: giving the kind `mcp` resets the URI, any other kind
      resets all that MCP sources have; a new transport kind resets what the other kinds have, and the OAuth settings
      unless it has them or the file gives some; and the mode without interaction resets what the others have. A source
      of which nothing is known so far is enabled. */
  predicate Resets(before: Source, raw: RawSource, field: Field) {
    if field == Uri then raw.kind == Some("mcp")
    else if field == Enabled then before == NO_SOURCE
    else if field in {DisabledTools, HasTransport, TransportKind} then LeavesMcp(raw)
    else if field in {Command, Args, Env} then
      LeavesMcp(raw) || NewKind(before, raw) in {Some("sse"), Some("streamable-http")}
    else if field in {Url, Headers, HeaderSecrets} then LeavesMcp(raw) || NewKind(before, raw) == Some("stdio")
    else if OfInteractive(field) then
      || DropsSettings(before, raw)
      || (&& raw.oauth.Some? && raw.oauth.value.mode == Some("clientCredentials")
          && (before.oauth.Some? ==> before.oauth.value.mode != "clientCredentials"))
    else field != Kind && field != Refresh && DropsSettings(before, raw)
  }

  // ---- One file ---------------------------------------------------------------------------------------------

  /** What a file makes of a field. */
  function Replaced(given: Option<Content>, resets: bool, default: Content, before: Content): Content {
    if given.Some? then given.value else if resets then default else before
  }

  lemma TransportField(current: Option<Transport>, raw: Option<RawTransport>, field: Field, resets: bool)
    requires OfTransport(field)
    requires current.Some? ==>
      (resets <==>
         && raw.Some? && raw.value.kind.Some? && raw.value.kind.value != current.value.kind
         && (if field in {Url, Headers, HeaderSecrets} then raw.value.kind.value == "stdio"
             else field != TransportKind && raw.value.kind.value in {"sse", "streamable-http"}))
    ensures var merged := MergedTransport(current, raw);
            (if merged.Some? then TransportContent(merged.value, field) else Default(field)) ==
            Replaced(if raw.Some? then GivenTransport(raw.value, field) else None, resets, Default(field),
                     if current.Some? then TransportContent(current.value, field) else Default(field))
  {
  }

  lemma CommonField(current: Option<OAuth>, raw: Option<RawOAuth>, field: Field)
    requires OfOAuth(field) && !OfInteractive(field)
    ensures var merged := MergedOAuth(current, raw);
            (if merged.Some? then OAuthContent(merged.value, field) else Default(field)) ==
            Replaced(if raw.Some? then GivenOAuth(raw.value, field) else None, false, Default(field),
                     if current.Some? then OAuthContent(current.value, field) else Default(field))
  {
  }

  lemma InteractiveField(current: Option<OAuth>, raw: Option<RawOAuth>, field: Field, resets: bool)
    requires OfInteractive(field)
    requires current.Some? ==>
      (resets <==>
        raw.Some? && raw.value.mode == Some("clientCredentials") && current.value.mode != "clientCredentials")
    ensures var merged := MergedOAuth(current, raw);
            (if merged.Some? then OAuthContent(merged.value, field) else Default(field)) ==
            Replaced(if raw.Some? then GivenOAuth(raw.value, field) else None, resets, Default(field),
                     if current.Some? then OAuthContent(current.value, field) else Default(field))
  {
  }

  lemma MergedParts(before: Source, raw: RawSource)
    ensures var after := Merged(before, raw);
      && after.transport == MergedTransport(if LeavesMcp(raw) then None else before.transport, raw.transport)
      && after.oauth == MergedOAuth(if DropsSettings(before, raw) then None else before.oauth, raw.oauth)
  {
    hide MergedTransport, MergedOAuth;
  }

  lemma SourceField(before: Source, raw: RawSource, field: Field)
    requires !OfTransport(field) && !OfOAuth(field)
    ensures ContentOf(Merged(before, raw), field) ==
            Replaced(GivenBy(raw, field), Resets(before, raw, field), Default(field), ContentOf(before, field))
  {
  }

  lemma TransportFieldStep(before: Source, raw: RawSource, field: Field)
    requires OfTransport(field)
    ensures ContentOf(Merged(before, raw), field) ==
            Replaced(GivenBy(raw, field), Resets(before, raw, field), Default(field), ContentOf(before, field))
  {
    MergedParts(before, raw);
    hide Merged, MergedTransport, MergedOAuth, TransportContent, GivenTransport, Default;
    var current := if LeavesMcp(raw) then None else before.transport;
    TransportField(current, raw.transport, field, current.Some? && Resets(before, raw, field));
  }

  lemma OAuthFieldStep(before: Source, raw: RawSource, field: Field)
    requires OfOAuth(field)
    ensures ContentOf(Merged(before, raw), field) ==
            Replaced(GivenBy(raw, field), Resets(before, raw, field), Default(field), ContentOf(before, field))
  {
    MergedParts(before, raw);
    hide Merged, MergedTransport, MergedOAuth, OAuthContent, GivenOAuth, Default, DropsSettings;
    var current := if DropsSettings(before, raw) then None else before.oauth;
    if OfInteractive(field) {
      InteractiveField(current, raw.oauth, field, current.Some? && Resets(before, raw, field));
    } else {
      CommonField(current, raw.oauth, field);
    }
  }

  /** One more file replaces a field, resets it, or keeps it. */
  lemma FieldStep(before: Source, raw: RawSource, field: Field)
    ensures ContentOf(Merged(before, raw), field) ==
            Replaced(GivenBy(raw, field), Resets(before, raw, field), Default(field), ContentOf(before, field))
  {
    hide *;
    if OfTransport(field) {
      TransportFieldStep(before, raw, field);
    } else if OfOAuth(field) {
      OAuthFieldStep(before, raw, field);
    } else {
      SourceField(before, raw, field);
    }
  }

  // ---- All files --------------------------------------------------------------------------------------------

  /** The source after the first `i` files. */
  function After(raws: seq<RawSource>, i: nat): Source
    requires i <= |raws|
  {
    MergedAll(raws[..i])
  }

  predicate ResetsAt(raws: seq<RawSource>, i: nat, field: Field)
    requires i < |raws|
  {
    Resets(After(raws, i), raws[i], field)
  }

  /** `content` is what the last of the first `n` files says that says something about the field, and no later file
      resets it. */
  ghost predicate LastSays(raws: seq<RawSource>, n: nat, field: Field, content: Content)
    requires n <= |raws|
  {
    exists j: nat | j < n ::
      && GivenBy(raws[j], field) == Some(content)
      && forall i: nat | j < i < n :: GivenBy(raws[i], field).None? && !ResetsAt(raws, i, field)
  }

  /** Every file that says something about the field comes before a reset. */
  ghost predicate AllReset(raws: seq<RawSource>, n: nat, field: Field)
    requires n <= |raws|
  {
    forall j: nat | j < n && GivenBy(raws[j], field).Some? :: exists i: nat | j < i < n :: ResetsAt(raws, i, field)
  }

  ghost predicate FromFiles(raws: seq<RawSource>, n: nat, field: Field, content: Content)
    requires n <= |raws|
  {
    LastSays(raws, n, field, content) || (content == Default(field) && AllReset(raws, n, field))
  }

  lemma OneSays(raws: seq<RawSource>, n: nat, field: Field, some: Content, other: Content)
    requires n <= |raws| && LastSays(raws, n, field, some)
    ensures !AllReset(raws, n, field) && (LastSays(raws, n, field, other) ==> some == other)
  {
    hide GivenBy, ResetsAt;
    var j: nat :| && j < n && GivenBy(raws[j], field) == Some(some)
                  && forall i: nat | j < i < n :: GivenBy(raws[i], field).None? && !ResetsAt(raws, i, field);
    if LastSays(raws, n, field, other) {
      var k: nat :| && k < n && GivenBy(raws[k], field) == Some(other)
                    && forall i: nat | k < i < n :: GivenBy(raws[i], field).None? && !ResetsAt(raws, i, field);
      assert j == k;
    }
  }

  /** There is only one such content. */
  lemma OneContent(raws: seq<RawSource>, n: nat, field: Field, some: Content, other: Content)
    requires n <= |raws| && FromFiles(raws, n, field, some) && FromFiles(raws, n, field, other)
    ensures some == other
  {
    hide LastSays, AllReset, Default;
    if LastSays(raws, n, field, some) {
      OneSays(raws, n, field, some, other);
    } else if LastSays(raws, n, field, other) {
      OneSays(raws, n, field, other, some);
    }
  }

  /** A file that says nothing about the field and does not reset it leaves what is known of it. */
  lemma QuietAfterSaying(raws: seq<RawSource>, n: nat, field: Field, content: Content)
    requires n < |raws| && GivenBy(raws[n], field).None? && !ResetsAt(raws, n, field)
    requires LastSays(raws, n, field, content)
    ensures LastSays(raws, n + 1, field, content)
  {
    hide GivenBy, ResetsAt;
    var j: nat :| && j < n && GivenBy(raws[j], field) == Some(content)
                  && forall i: nat | j < i < n :: GivenBy(raws[i], field).None? && !ResetsAt(raws, i, field);
    forall i: nat | j < i < n + 1
      ensures GivenBy(raws[i], field).None? && !ResetsAt(raws, i, field)
    {
      if i < n {
        assert GivenBy(raws[i], field).None?;
      }
    }
  }

  lemma QuietAfterReset(raws: seq<RawSource>, n: nat, field: Field)
    requires n < |raws| && GivenBy(raws[n], field).None? && AllReset(raws, n, field)
    ensures AllReset(raws, n + 1, field)
  {
    hide GivenBy, ResetsAt;
    forall j: nat | j < n + 1 && GivenBy(raws[j], field).Some?
      ensures exists i: nat | j < i < n + 1 :: ResetsAt(raws, i, field)
    {
      var i: nat :| j < i < n && ResetsAt(raws, i, field);
    }
  }

  lemma TellingFile(raws: seq<RawSource>, n: nat, field: Field)
    requires n < |raws|
    ensures GivenBy(raws[n], field).Some? ==> LastSays(raws, n + 1, field, GivenBy(raws[n], field).value)
    ensures GivenBy(raws[n], field).None? && ResetsAt(raws, n, field) ==> AllReset(raws, n + 1, field)
  {
    hide GivenBy, ResetsAt;
  }

  lemma OneMoreFile(raws: seq<RawSource>, n: nat, field: Field, before: Content, after: Content)
    requires n < |raws| && (FromFiles(raws, n, field, before) || ResetsAt(raws, n, field))
    requires after == Replaced(GivenBy(raws[n], field), ResetsAt(raws, n, field), Default(field), before)
    ensures FromFiles(raws, n + 1, field, after)
  {
    hide GivenBy, ResetsAt, Default, LastSays, AllReset;
    TellingFile(raws, n, field);
    if GivenBy(raws[n], field).None? && !ResetsAt(raws, n, field) {
      if LastSays(raws, n, field, before) {
        QuietAfterSaying(raws, n, field, before);
      } else {
        QuietAfterReset(raws, n, field);
      }
    }
  }

  lemma AfterStep(raws: seq<RawSource>, n: nat)
    requires n < |raws|
    ensures After(raws, n + 1) == Merged(After(raws, n), raws[n])
  {
    assert raws[..n + 1][..n] == raws[..n];
  }

  lemma NothingYet(raws: seq<RawSource>, field: Field)
    ensures After(raws, 0) == NO_SOURCE
    ensures field != Enabled ==> FromFiles(raws, 0, field, ContentOf(After(raws, 0), field))
    ensures raws != [] && field == Enabled ==> ResetsAt(raws, 0, field)
  {
  }

  lemma {:induction false} PrefixFromFiles(raws: seq<RawSource>, n: nat, field: Field)
    requires n <= |raws| && (n > 0 || field != Enabled)
    ensures FromFiles(raws, n, field, ContentOf(After(raws, n), field))
    decreases n
  {
    hide FromFiles, ContentOf, GivenBy, Default, Resets, MergedAll, Merged, Replaced;
    if n == 0 {
      NothingYet(raws, field);
    } else {
      if n > 1 || field != Enabled {
        PrefixFromFiles(raws, n - 1, field);
      } else {
        NothingYet(raws, field);
      }
      AfterStep(raws, n - 1);
      FieldStep(After(raws, n - 1), raws[n - 1], field);
      OneMoreFile(raws, n - 1, field, ContentOf(After(raws, n - 1), field), ContentOf(After(raws, n), field));
    }
  }

  /** Every field of a merged source holds what the last file says that says something about it, unless a later file
      resets it by the kinds and modes it gives; the default where no file says anything. */
  lemma FieldsAreFromFiles(raws: seq<RawSource>, field: Field)
    requires raws != []
    ensures FromFiles(raws, |raws|, field, ContentOf(MergedAll(raws), field))
  {
    PrefixFromFiles(raws, |raws|, field);
    assert raws[..|raws|] == raws;
  }
}
