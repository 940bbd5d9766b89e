/** The revalidating HTTP cache of pkg/cache: freshness, conditional requests, 304 freshening and stale fallback
    (sections 4.2, 4.2.4, 4.3.1 and 4.3.4 of RFC 9111). Times and durations are nanoseconds. */
module HttpCache {
  import opened Text
  import opened Wrappers

  type Key = string
  type Body = string
  type Headers = map<string, seq<string>>

  datatype Policy = Policy(maxAge: int, manualOnly: bool, allowStaleOnError: bool, forceRefresh: bool)

  /** `expiresAt` is None for the zero time. */
  datatype Metadata = Metadata(
    key: Key, url: string, verb: string, headers: Headers, etag: string, lastModified: string, cacheControl: string,
    cachedAt: int, expiresAt: Option<int>, lastValidatedAt: int, statusCode: int, stale: bool)

  datatype Outcome = Miss | FreshHit | RevalidatedHit | Refreshed | StaleHit

  datatype FetchResult = FetchResult(body: Body, metadata: Metadata, outcome: Outcome)

  datatype FetchError = TransportFailure | BodyFailure | UnexpectedStatus(status: int)

  /** What comes back from the network; a body of None fails to read. */
  datatype Reply = NoReply | Reply(status: int, headers: Headers, body: Option<Body>)

  datatype Request = Request(key: Key, url: string, verb: string, policy: Policy, now: int)

  /** The validators of the conditional request; empty ones are not sent. */
  datatype Validators = Validators(etag: string, lastModified: string)

  type Network = Validators -> Reply

  // ---- Freshness --------------------------------------------------------------------------------------------

  const SECOND := 1_000_000_000

  /** Two's-complement wrap-around of a 64-bit product. */
  function Wrap64(n: int): int {
    (n + 0x8000_0000_0000_0000) % 0x1_0000_0000_0000_0000 - 0x8000_0000_0000_0000
  }

  /** A directive that starts with `max-age=` decides, even when its number is malformed. */
  function DirectiveMaxAge(directive: string): Option<Option<int>> {
    var lowered := ToLower(TrimSpace(directive));
    if !HasPrefix(lowered, "max-age=") then None
    else
      var seconds := Atoi(TrimSpace(lowered[8..]));
      if seconds.None? then Some(None) else Some(Some(Wrap64(seconds.value * SECOND)))
  }

  function FirstMaxAge(directives: seq<string>): Option<int> {
    if directives == [] then None
    else
      var first := DirectiveMaxAge(directives[0]);
      if first.None? then FirstMaxAge(directives[1..]) else first.value
  }

  function MaxAgeOf(cacheControl: string): Option<int> {
    FirstMaxAge(Split(cacheControl, ','))
  }

  /** `parseMaxAge`: the loop over the directives. */
  method ParseMaxAge(cacheControl: string) returns (maxAge: Option<int>)
    ensures maxAge == MaxAgeOf(cacheControl)
  {
    var directives := Split(cacheControl, ',');
    for i := 0 to |directives|
      invariant FirstMaxAge(directives) == FirstMaxAge(directives[i..])
    {
      var found := DirectiveMaxAge(directives[i]);
      if found.Some? {
        return found.value;
      }
    }
    maxAge := None;
  }

  /** A directive, as it stands in the list, that says `max-age` and this number, with any case and blanks. */
  predicate SaysMaxAge(directive: string, n: nat) {
    var lowered := ToLower(TrimSpace(directive));
    HasPrefix(lowered, "max-age=") && TrimSpace(lowered[8..]) == Itoa(n)
  }

  lemma {:induction false} FirstMaxAgeIs(directives: seq<string>, i: nat)
    requires i < |directives| && DirectiveMaxAge(directives[i]).Some?
    requires forall j | 0 <= j < i :: DirectiveMaxAge(directives[j]).None?
    ensures FirstMaxAge(directives) == DirectiveMaxAge(directives[i]).value
    decreases i
  {
    hide DirectiveMaxAge;
    if i > 0 {
      FirstMaxAgeIs(directives[1..], i - 1);
    }
  }

  /** The first directive of a list that says `max-age` gives that many seconds exactly when they fit in 64 bits of
      nanoseconds. */
  lemma MaxAgeIsSecondsIff(cacheControl: string, i: nat, n: nat)
    requires i < |Split(cacheControl, ',')| && SaysMaxAge(Split(cacheControl, ',')[i], n)
    requires forall j | 0 <= j < i :: DirectiveMaxAge(Split(cacheControl, ',')[j]).None?
    ensures MaxAgeOf(cacheControl) == Some(n * SECOND) <==> n <= 9223372036
  {
    SaidIs(Split(cacheControl, ',')[i], n);
    hide DirectiveMaxAge, SaysMaxAge, Wrap64;
    FirstMaxAgeIs(Split(cacheControl, ','), i);
    WrapsUnless(n * SECOND);
  }

  lemma SaidIs(directive: string, n: nat)
    requires SaysMaxAge(directive, n)
    ensures DirectiveMaxAge(directive) == Some(if n <= MAX_INT then Some(Wrap64(n * SECOND)) else None)
  {
    hide Atoi, Itoa, TrimSpace, ToLower, Wrap64;
    AtoiInvertsItoa(n);
  }

  lemma OneDirective(digits: string)
    requires forall c | c in digits :: IsDigit(c)
    ensures Split("max-age=" + digits, ',') == ["max-age=" + digits]
  {
    var s := "max-age=" + digits;
    assert forall c | c in s :: c in "max-age=" || c in digits;
    SplitWithout(s, ',');
  }

  /** The header `max-age=n` is such a list. */
  lemma HeaderSaysMaxAge(n: nat)
    ensures Split("max-age=" + Itoa(n), ',') == ["max-age=" + Itoa(n)] && SaysMaxAge("max-age=" + Itoa(n), n)
  {
    var digits := Itoa(n);
    var s := "max-age=" + digits;
    OneDirective(digits);
    hide TrimSpace, ToLower, LowerChar, Itoa, Split;
    assert s[0] == 'm' && s[|s| - 1] == digits[|digits| - 1] && digits[|digits| - 1] in digits && digits[0] in digits;
    TrimNothing(s);
    LowerAlready(digits);
    assert s[..8] == "max-age=" && s[8..] == digits;
    TrimNothing(digits);
  }

  /** Lowering changes neither the directive's name nor digits. */
  lemma LowerAlready(digits: string)
    requires forall c | c in digits :: IsDigit(c)
    ensures ToLower("max-age=" + digits) == "max-age=" + digits
  {
    var s := "max-age=" + digits;
    forall i | 0 <= i < |s|
      ensures LowerChar(s[i]) == s[i]
    {
      if i < 8 {
        assert s[i] == "max-age="[i];
      } else {
        assert s[i] == digits[i - 8] && digits[i - 8] in digits;
      }
    }
  }

  lemma WrapsUnless(n: int)
    ensures Wrap64(n) == n <==> -0x8000_0000_0000_0000 <= n < 0x8000_0000_0000_0000
  {
  }

  /** How long a response may be reused; None when nothing says so. */
  function Lifetime(cacheControl: string, fallback: int): Option<int> {
    if cacheControl != "" && MaxAgeOf(cacheControl).Some? then MaxAgeOf(cacheControl)
    else if fallback > 0 then Some(fallback)
    else None
  }

  /** `expiryFrom`. */
  function ExpiryFrom(now: int, cacheControl: string, fallback: int): Option<int> {
    var lifetime := Lifetime(cacheControl, fallback);
    if lifetime.None? then None else Some(now + lifetime.value)
  }

  predicate IsFresh(now: int, metadata: Metadata) {
    metadata.expiresAt.Some? && now < metadata.expiresAt.value
  }

  // ---- The store --------------------------------------------------------------------------------------------

  datatype MetadataFile = Readable(metadata: Metadata) | Garbled

  /** The files of the store by key: metadata and body are separate. */
  datatype Files = Files(metadata: map<Key, MetadataFile>, bodies: map<Key, Body>)

  datatype Loaded = Found(metadata: Metadata, body: Body) | NotFound | Corrupt

  function Lookup(files: Files, key: Key): Loaded {
    if key !in files.metadata then NotFound
    else if files.metadata[key].Garbled? || key !in files.bodies then Corrupt
    else Found(files.metadata[key].metadata, files.bodies[key])
  }

  class FileStore {
    var metadata: map<Key, MetadataFile>
    var bodies: map<Key, Body>

    constructor ()
      ensures Contents() == Files(map[], map[])
    {
      metadata, bodies := map[], map[];
    }

    ghost function Contents(): Files
      reads this
    {
      Files(metadata, bodies)
    }

    method Delete(key: Key)
      modifies this
      ensures Contents() == Files(old(metadata) - {key}, old(bodies) - {key})
    {
      metadata := metadata - {key};
      bodies := bodies - {key};
    }

    /** A pair that cannot be read is deleted. */
    method Load(key: Key) returns (loaded: Loaded)
      modifies this
      ensures loaded == Lookup(old(Contents()), key)
      ensures Contents() == AfterLoad(old(Contents()), key)
    {
      if key !in metadata {
        return NotFound;
      }
      var file := metadata[key];
      if file.Garbled? {
        Delete(key);
        return Corrupt;
      }
      if key !in bodies {
        Delete(key);
        return Corrupt;
      }
      return Found(file.metadata, bodies[key]);
    }

    /** Metadata first, then the body. */
    method Save(key: Key, entry: Metadata, body: Body)
      modifies this
      ensures Contents() == Saved(old(Contents()), key, entry, body)
    {
      metadata := metadata[key := Readable(entry.(key := key))];
      bodies := bodies[key := body];
    }
  }

  function AfterLoad(files: Files, key: Key): Files {
    if Lookup(files, key).Corrupt? then Files(files.metadata - {key}, files.bodies - {key}) else files
  }

  function Saved(files: Files, key: Key, entry: Metadata, body: Body): Files {
    Files(files.metadata[key := Readable(entry.(key := key))], files.bodies[key := body])
  }

  // ---- Fetch ------------------------------------------------------------------------------------------------

  function HeaderGet(headers: Headers, name: string): string {
    if name in headers && |headers[name]| > 0 then headers[name][0] else ""
  }

  function Coalesce(first: string, second: string): string {
    if first != "" then first else second
  }

  /** `mergeHeaders`: fields of the update replace stored ones, unless they have no value. */
  function MergeHeaders(existing: Headers, updated: Headers): Headers {
    existing + map name | name in updated && |updated[name]| > 0 :: updated[name]
  }

  function StaleResult(metadata: Metadata, body: Body): FetchResult {
    FetchResult(body, metadata.(stale := true), StaleHit)
  }

  function FreshResult(metadata: Metadata, body: Body): FetchResult {
    FetchResult(body, metadata.(stale := false), FreshHit)
  }

  /** Metadata after a 304 (section 4.3.4 of RFC 9111). */
  function Freshened(stored: Metadata, headers: Headers, now: int, fallback: int): Metadata {
    var cacheControl := Coalesce(HeaderGet(headers, "Cache-Control"), stored.cacheControl);
    stored.(stale := false, lastValidatedAt := now, cacheControl := cacheControl,
            etag := Coalesce(HeaderGet(headers, "Etag"), stored.etag),
            lastModified := Coalesce(HeaderGet(headers, "Last-Modified"), stored.lastModified),
            headers := MergeHeaders(stored.headers, headers),
            expiresAt := ExpiryFrom(now, cacheControl, fallback))
  }

  function NewMetadata(request: Request, status: int, headers: Headers): Metadata {
    var cacheControl := HeaderGet(headers, "Cache-Control");
    Metadata(request.key, request.url, request.verb, headers, HeaderGet(headers, "Etag"),
             HeaderGet(headers, "Last-Modified"), cacheControl, request.now,
             ExpiryFrom(request.now, cacheControl, request.policy.maxAge), request.now, status, false)
  }

  function ValidatorsFor(loaded: Loaded): Validators {
    if loaded.Found? then Validators(loaded.metadata.etag, loaded.metadata.lastModified) else Validators("", "")
  }

  /** What one fetch returns, what it saves, and whether it asked the network. */
  datatype Decision = Decision(
    result: Result<FetchResult, FetchError>, save: Option<(Metadata, Body)>, asked: bool)

  /** The answer without the network, when there is one. */
  function FromStore(loaded: Loaded, request: Request): Option<FetchResult> {
    if !loaded.Found? || request.policy.forceRefresh then None
    else if IsFresh(request.now, loaded.metadata) then Some(FreshResult(loaded.metadata, loaded.body))
    else if request.policy.manualOnly then Some(StaleResult(loaded.metadata, loaded.body))
    else None
  }

  function OnFailure(loaded: Loaded, request: Request, error: FetchError): Decision {
    if loaded.Found? && request.policy.allowStaleOnError
    then Decision(Ok(StaleResult(loaded.metadata, loaded.body)), None, true)
    else Decision(Err(error), None, true)
  }

  function Decide(loaded: Loaded, request: Request, network: Network): Decision {
    var stored := FromStore(loaded, request);
    if stored.Some? then Decision(Ok(stored.value), None, false)
    else
      match network(ValidatorsFor(loaded))
      case NoReply => OnFailure(loaded, request, TransportFailure)
      case Reply(status, headers, body) =>
        if status == 304 && loaded.Found? then
          var updated := Freshened(loaded.metadata, headers, request.now, request.policy.maxAge);
          Decision(Ok(FetchResult(loaded.body, updated, RevalidatedHit)), Some((updated, loaded.body)), true)
        else if body.None? then Decision(Err(BodyFailure), None, true)
        else if 200 <= status < 300 then
          var metadata := NewMetadata(request, status, headers);
          Decision(Ok(FetchResult(body.value, metadata, if loaded.NotFound? then Miss else Refreshed)),
                   Some((metadata, body.value)), true)
        else OnFailure(loaded, request, UnexpectedStatus(status))
  }

  function FilesAfter(files: Files, request: Request, network: Network): Files {
    var loaded := AfterLoad(files, request.key);
    var save := Decide(Lookup(files, request.key), request, network).save;
    if save.None? then loaded else Saved(loaded, request.key, save.value.0, save.value.1)
  }

  class Fetcher {
    const store: FileStore?

    constructor (store: FileStore?)
      ensures this.store == store
    {
      this.store := store;
    }

    /** `Fetch`, step by step over the store. */
    method Fetch(request: Request, network: Network) returns (result: Result<FetchResult, FetchError>, asked: bool)
      modifies store
      ensures var decision := Decide(if store == null then NotFound else Lookup(old(store.Contents()), request.key),
                                     request, network);
              result == decision.result && asked == decision.asked
      ensures store != null ==> store.Contents() == FilesAfter(old(store.Contents()), request, network)
    {
      var loaded := NotFound;
      if store != null {
        loaded := store.Load(request.key);
      }
      if loaded.Found? && request.policy.manualOnly && !request.policy.forceRefresh {
        return Ok(if IsFresh(request.now, loaded.metadata) then FreshResult(loaded.metadata, loaded.body)
                  else StaleResult(loaded.metadata, loaded.body)), false;
      }
      if loaded.Found? && !request.policy.forceRefresh && IsFresh(request.now, loaded.metadata) {
        return Ok(FreshResult(loaded.metadata, loaded.body)), false;
      }

      var reply := network(ValidatorsFor(loaded));
      if reply.NoReply? {
        if loaded.Found? && request.policy.allowStaleOnError {
          return Ok(StaleResult(loaded.metadata, loaded.body)), true;
        }
        return Err(TransportFailure), true;
      }
      if reply.status == 304 && loaded.Found? {
        var updated := loaded.metadata;
        updated := updated.(stale := false, lastValidatedAt := request.now);
        updated := updated.(cacheControl := Coalesce(HeaderGet(reply.headers, "Cache-Control"), updated.cacheControl));
        updated := updated.(etag := Coalesce(HeaderGet(reply.headers, "Etag"), updated.etag));
        updated := updated.(lastModified := Coalesce(HeaderGet(reply.headers, "Last-Modified"), updated.lastModified));
        updated := updated.(headers := MergeHeaders(updated.headers, reply.headers));
        updated := updated.(expiresAt := ExpiryFrom(request.now, updated.cacheControl, request.policy.maxAge));
        if store != null {
          store.Save(request.key, updated, loaded.body);
        }
        return Ok(FetchResult(loaded.body, updated, RevalidatedHit)), true;
      }
      if reply.body.None? {
        return Err(BodyFailure), true;
      }
      if 200 <= reply.status < 300 {
        var metadata := NewMetadata(request, reply.status, reply.headers);
        if store != null {
          store.Save(request.key, metadata, reply.body.value);
        }
        var outcome := if loaded.Found? || loaded.Corrupt? then Refreshed else Miss;
        return Ok(FetchResult(reply.body.value, metadata, outcome)), true;
      }
      if loaded.Found? && request.policy.allowStaleOnError {
        return Ok(StaleResult(loaded.metadata, loaded.body)), true;
      }
      return Err(UnexpectedStatus(reply.status)), true;
    }
  }

  // ---- Against the origin -----------------------------------------------------------------------------------

  /** A representation at the origin; an empty validator is one it does not have. */
  datatype Representation = Representation(body: Body, etag: string, lastModified: string)

  /** What the origin holds for each key at each moment. */
  type Origin = (Key, int) -> Representation

  /** Equal validators of one key name equal bodies, whenever they are seen. */
  ghost predicate Validating(origin: Origin) {
    forall key, t, t' ::
      var r, r' := origin(key, t), origin(key, t');
      (r.etag != "" && r.etag == r'.etag) || (r.lastModified != "" && r.lastModified == r'.lastModified) ==>
        r.body == r'.body
  }

  predicate NamesOf(headers: Headers, current: Representation) {
    && HeaderGet(headers, "Etag") in {"", current.etag}
    && HeaderGet(headers, "Last-Modified") in {"", current.lastModified}
  }

  /** The origin answers 304 only when a validator it was sent names its current representation, and sends that
      representation otherwise. Failures may be of any kind. */
  ghost predicate Honest(origin: Origin, request: Request, network: Network) {
    forall v ::
      var current, reply := origin(request.key, request.now), network(v);
      && (reply.Reply? && reply.status == 304 ==>
            && NamesOf(reply.headers, current)
            && ((v.etag != "" && v.etag == current.etag)
                || (v.lastModified != "" && v.lastModified == current.lastModified)))
      && (reply.Reply? && 200 <= reply.status < 300 ==>
            NamesOf(reply.headers, current) && (reply.body.Some? ==> reply.body.value == current.body))
  }

  /** The stored pair is a body the origin had when it was last validated, under validators that name that body. */
  ghost predicate TrueToOrigin(origin: Origin, key: Key, entry: Metadata, body: Body) {
    && body == origin(key, entry.lastValidatedAt).body
    && (forall t | entry.etag != "" && origin(key, t).etag == entry.etag :: origin(key, t).body == body)
    && (forall t | entry.lastModified != "" && origin(key, t).lastModified == entry.lastModified ::
          origin(key, t).body == body)
  }

  /** One fetch of a run. */
  datatype Event = Event(request: Request, network: Network)

  function FilesAt(files: Files, run: seq<Event>, n: nat): Files
    requires n <= |run|
  {
    if n == 0 then files else FilesAfter(FilesAt(files, run, n - 1), run[n - 1].request, run[n - 1].network)
  }

  function DecisionAt(files: Files, run: seq<Event>, n: nat): Decision
    requires n < |run|
  {
    Decide(Lookup(FilesAt(files, run, n), run[n].request.key), run[n].request, run[n].network)
  }

  /** The expiry of a stored pair comes from the response or the caller that last validated it, among the first `n`
      fetches of the run. */
  ghost predicate ExpiryExplained(run: seq<Event>, n: nat, key: Key, entry: Metadata)
    requires n <= |run|
  {
    exists j ::
      && 0 <= j < n && run[j].request.key == key && run[j].request.now == entry.lastValidatedAt
      && entry.expiresAt == ExpiryFrom(entry.lastValidatedAt, entry.cacheControl, run[j].request.policy.maxAge)
  }

  ghost predicate StoreTrue(origin: Origin, run: seq<Event>, n: nat, files: Files)
    requires n <= |run|
  {
    forall key | Lookup(files, key).Found? ::
      && TrueToOrigin(origin, key, Lookup(files, key).metadata, Lookup(files, key).body)
      && ExpiryExplained(run, n, key, Lookup(files, key).metadata)
  }

  ghost predicate GoodRun(origin: Origin, run: seq<Event>) {
    && Validating(origin)
    && (forall i | 0 <= i < |run| :: Honest(origin, run[i].request, run[i].network))
    && (forall i, j | 0 <= i < j < |run| :: run[i].request.now <= run[j].request.now)
  }

  /** A fetch that saves, saves what the origin holds now. */
  lemma SavesCurrent(origin: Origin, loaded: Loaded, request: Request, network: Network)
    requires Validating(origin) && Honest(origin, request, network)
    requires loaded.Found? ==> TrueToOrigin(origin, request.key, loaded.metadata, loaded.body)
    ensures var save := Decide(loaded, request, network).save;
            save.Some? ==>
              && TrueToOrigin(origin, request.key, save.value.0, save.value.1)
              && save.value.0.lastValidatedAt == request.now
              && save.value.1 == origin(request.key, request.now).body
              && save.value.0.expiresAt == ExpiryFrom(request.now, save.value.0.cacheControl, request.policy.maxAge)
  {
    var v := ValidatorsFor(loaded);
    var current, reply := origin(request.key, request.now), network(v);
    assert reply.Reply? && reply.status == 304 && loaded.Found? ==> loaded.body == current.body;
  }

  lemma {:induction false} RunKeepsStoreTrue(origin: Origin, run: seq<Event>, n: nat)
    requires GoodRun(origin, run) && n <= |run|
    ensures StoreTrue(origin, run, n, FilesAt(Files(map[], map[]), run, n))
    decreases n
  {
    if n > 0 {
      RunKeepsStoreTrue(origin, run, n - 1);
      var files, event := FilesAt(Files(map[], map[]), run, n - 1), run[n - 1];
      var key := event.request.key;
      SavesCurrent(origin, Lookup(files, key), event.request, event.network);
      var files' := FilesAfter(files, event.request, event.network);
      forall k | Lookup(files', k).Found?
        ensures TrueToOrigin(origin, k, Lookup(files', k).metadata, Lookup(files', k).body)
        ensures ExpiryExplained(run, n, k, Lookup(files', k).metadata)
      {
        var save := Decide(Lookup(files, key), event.request, event.network).save;
        if k == key && save.Some? {
          assert run[n - 1].request.key == k;
        } else {
          assert Lookup(files', k) == Lookup(files, k);
        }
      }
    }
  }

  /** What each kind of result means. A fresh hit is the body that the origin had when the pair was last validated,
      and the lifetime applied then has not run out; a stale hit promises only the first half. */
  ghost predicate Faithful(origin: Origin, run: seq<Event>, n: nat, result: FetchResult)
    requires n < |run|
  {
    var request := run[n].request;
    var validated := result.metadata.lastValidatedAt;
    match result.outcome
    case Miss => result.body == origin(request.key, request.now).body
    case Refreshed => result.body == origin(request.key, request.now).body
    case RevalidatedHit => result.body == origin(request.key, request.now).body && validated == request.now
    case StaleHit => result.body == origin(request.key, validated).body && validated <= request.now
    case FreshHit =>
      && result.body == origin(request.key, validated).body
      && validated <= request.now
      && exists j ::
           && 0 <= j < n && run[j].request.key == request.key && run[j].request.now == validated
           && var lifetime := Lifetime(result.metadata.cacheControl, run[j].request.policy.maxAge);
           lifetime.Some? && request.now - validated < lifetime.value
  }

  /** Over every run that starts with an empty store, every result is faithful to the origin. */
  lemma RunIsFaithful(origin: Origin, run: seq<Event>, n: nat)
    requires GoodRun(origin, run) && n < |run|
    ensures var decision := DecisionAt(Files(map[], map[]), run, n);
            decision.result.Ok? ==> Faithful(origin, run, n, decision.result.value)
  {
    RunKeepsStoreTrue(origin, run, n);
    var loaded := Lookup(FilesAt(Files(map[], map[]), run, n), run[n].request.key);
    SavesCurrent(origin, loaded, run[n].request, run[n].network);
    if loaded.Found? {
      assert ExpiryExplained(run, n, run[n].request.key, loaded.metadata);
    }
  }

  /** A fetch that fails leaves a stored pair as it is, and no fetch touches another key. */
  lemma FailureKeepsPair(files: Files, request: Request, network: Network, key: Key)
    ensures var files' := FilesAfter(files, request, network);
            && (key != request.key ==> Lookup(files', key) == Lookup(files, key))
            && (Decide(Lookup(files, request.key), request, network).result.Err? && !Lookup(files, key).Corrupt? ==>
                  Lookup(files', key) == Lookup(files, key))
  {
  }

  /** The network is asked exactly when there is no pair, the caller insists, or the pair is neither fresh nor held
      to be good enough by a manual-only caller. */
  lemma AskedIff(loaded: Loaded, request: Request, network: Network)
    ensures Decide(loaded, request, network).asked <==>
              || !loaded.Found? || request.policy.forceRefresh
              || !(request.policy.manualOnly || IsFresh(request.now, loaded.metadata))
    ensures !Decide(loaded, request, network).asked ==>
              var result := Decide(loaded, request, network).result;
              result.Ok? && (result.value.outcome.FreshHit? <==> IsFresh(request.now, loaded.metadata))
  {
  }
}
