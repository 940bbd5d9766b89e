/** For how long the HTTP cache answers from its store. */
module CacheLifetime {
  import opened Text
  import opened Wrappers
  import opened HttpCache

  // What one fetch does with each kind of reply, and what later fetches do: in terms of requests and replies
  // (pkg/cache/http.go; sections 4.2, 4.2.4 and 4.3.4 of RFC 9111).

  // ---- What a reply says ------------------------------------------------------------------------------------

  predicate IsMaxAge(directive: string) {
    HasPrefix(ToLower(TrimSpace(directive)), "max-age=")
  }

  function NumberOf(directive: string): Option<int>
    requires IsMaxAge(directive)
  {
    Atoi(TrimSpace(ToLower(TrimSpace(directive))[8..]))
  }

  predicate FirstMaxAgeAt(directives: seq<string>, i: nat) {
    i < |directives| && IsMaxAge(directives[i]) && forall j | 0 <= j < i :: !IsMaxAge(directives[j])
  }

  /** The largest number of seconds that is a 64-bit number of nanoseconds. */
  const MAX_SECONDS := 9223372036

  /** How long a pair is fresh whose Cache-Control is this, for a caller with this fallback: as many seconds as the
      first max-age directive says; the fallback, if it is positive, where there is none or its number is malformed.
      Numbers beyond the range of a 64-bit duration are left open. */
  ghost predicate Gives(cacheControl: string, fallback: int, lifetime: Option<int>) {
    var directives, otherwise := Split(cacheControl, ','), if fallback > 0 then Some(fallback) else None;
    && (forall i: nat | FirstMaxAgeAt(directives, i) ::
          match NumberOf(directives[i])
          case Some(n) => -MAX_SECONDS <= n <= MAX_SECONDS ==> lifetime == Some(n * SECOND)
          case None => lifetime == otherwise)
    && ((forall i | 0 <= i < |directives| :: !IsMaxAge(directives[i])) ==> lifetime == otherwise)
  }

  function FirstValue(headers: Headers, name: string): string {
    if name in headers && headers[name] != [] then headers[name][0] else ""
  }

  /** A header of a reply, or what was stored where the reply does not have it. */
  function NewOrStored(headers: Headers, name: string, stored: string): string {
    if FirstValue(headers, name) != "" then FirstValue(headers, name) else stored
  }

  /** The pair expires when its lifetime, counted from `now`, is over. */
  predicate ExpiresAfter(metadata: Metadata, now: int, lifetime: Option<int>) {
    metadata.expiresAt == if lifetime.Some? then Some(now + lifetime.value) else None
  }

  lemma {:induction false} MaxAgeOfDirectives(directives: seq<string>)
    ensures forall i: nat | FirstMaxAgeAt(directives, i) ::
      FirstMaxAge(directives) ==
      if NumberOf(directives[i]).Some? then Some(Wrap64(NumberOf(directives[i]).value * SECOND)) else None
    ensures (forall i | 0 <= i < |directives| :: !IsMaxAge(directives[i])) ==> FirstMaxAge(directives) == None
  {
    if directives != [] {
      hide Wrap64, Atoi, ToLower, TrimSpace;
      var rest := directives[1..];
      MaxAgeOfDirectives(rest);
      forall i: nat | FirstMaxAgeAt(directives, i) && i > 0
        ensures FirstMaxAgeAt(rest, i - 1)
      {
        assert forall j | 0 <= j < i - 1 :: rest[j] == directives[j + 1];
      }
      assert forall i | 0 <= i < |rest| :: rest[i] == directives[i + 1];
    }
  }

  lemma LifetimeGives(cacheControl: string, fallback: int)
    ensures Gives(cacheControl, fallback, Lifetime(cacheControl, fallback))
  {
    hide Atoi, ToLower, TrimSpace, Wrap64, FirstMaxAge;
    var directives := Split(cacheControl, ',');
    MaxAgeOfDirectives(directives);
    if cacheControl == "" {
      EmptyHeader();
    }
    forall i: nat, n: int | FirstMaxAgeAt(directives, i) && NumberOf(directives[i]) == Some(n)
      ensures Wrap64(n * SECOND) == n * SECOND <==> -MAX_SECONDS <= n <= MAX_SECONDS
    {
      WrapsUnless(n * SECOND);
    }
  }

  lemma EmptyHeader()
    ensures Split("", ',') == [""] && !IsMaxAge("")
  {
  }

  // ---- One fetch --------------------------------------------------------------------------------------------

  /** The validators of the stored pair, which make the request conditional. */
  function Sent(loaded: Loaded): Validators {
    if loaded.Found? then Validators(loaded.metadata.etag, loaded.metadata.lastModified) else Validators("", "")
  }

  /** There is a pair and it has not expired. */
  predicate Within(loaded: Loaded, now: int) {
    loaded.Found? && loaded.metadata.expiresAt.Some? && now < loaded.metadata.expiresAt.value
  }

  predicate Asks(loaded: Loaded, request: Request) {
    || !loaded.Found? || request.policy.forceRefresh
    || !(request.policy.manualOnly || Within(loaded, request.now))
  }

  /** Without asking: the stored pair as it is, a fresh hit exactly while it has not expired, and nothing is saved. */
  lemma StoreAnswers(files: Files, request: Request, network: Network)
    ensures var loaded := Lookup(files, request.key);
            var decision, within := Decide(loaded, request, network), Within(loaded, request.now);
            && (decision.asked <==> Asks(loaded, request))
            && (!decision.asked ==>
                  && decision.result == Ok(FetchResult(loaded.body, loaded.metadata.(stale := !within),
                                                       if within then FreshHit else StaleHit))
                  && FilesAfter(files, request, network) == files)
  {
  }

  /** A readable 2xx reply is the result, and is what the store then finds, under the validators of that reply and with
      the expiry that it or the caller gives. */
  lemma ReplyIsKept(files: Files, request: Request, network: Network)
    returns (metadata: Metadata, lifetime: Option<int>)
    requires var loaded := Lookup(files, request.key); var reply := network(Sent(loaded));
             Asks(loaded, request) && reply.Reply? && 200 <= reply.status < 300 && reply.body.Some?
    ensures var loaded := Lookup(files, request.key); var reply := network(Sent(loaded));
            && Decide(loaded, request, network).result ==
                 Ok(FetchResult(reply.body.value, metadata, if loaded.NotFound? then Miss else Refreshed))
            && Lookup(FilesAfter(files, request, network), request.key) == Found(metadata, reply.body.value)
            && metadata.headers == reply.headers && metadata.statusCode == reply.status
            && metadata.key == request.key && metadata.url == request.url && metadata.verb == request.verb
            && metadata.etag == FirstValue(reply.headers, "Etag")
            && metadata.lastModified == FirstValue(reply.headers, "Last-Modified")
            && metadata.cacheControl == FirstValue(reply.headers, "Cache-Control")
            && metadata.cachedAt == request.now && metadata.lastValidatedAt == request.now && !metadata.stale
            && Gives(metadata.cacheControl, request.policy.maxAge, lifetime)
            && ExpiresAfter(metadata, request.now, lifetime)
  {
    hide Lifetime, Gives;
    var reply := network(Sent(Lookup(files, request.key)));
    metadata := NewMetadata(request, reply.status, reply.headers);
    lifetime := Lifetime(metadata.cacheControl, request.policy.maxAge);
    LifetimeGives(metadata.cacheControl, request.policy.maxAge);
  }

  /** A 304 on a stored pair gives that body again, and keeps it under the validators and the Cache-Control of the reply
      where it has them, with a new expiry. */
  lemma NotModifiedIsKept(files: Files, request: Request, network: Network)
    returns (metadata: Metadata, lifetime: Option<int>)
    requires var loaded := Lookup(files, request.key); var reply := network(Sent(loaded));
             Asks(loaded, request) && loaded.Found? && reply.Reply? && reply.status == 304
    ensures var loaded := Lookup(files, request.key); var reply, stored := network(Sent(loaded)), loaded.metadata;
            && Decide(loaded, request, network).result == Ok(FetchResult(loaded.body, metadata, RevalidatedHit))
            && Lookup(FilesAfter(files, request, network), request.key) ==
                 Found(metadata.(key := request.key), loaded.body)
            && metadata.etag == NewOrStored(reply.headers, "Etag", stored.etag)
            && metadata.lastModified == NewOrStored(reply.headers, "Last-Modified", stored.lastModified)
            && metadata.cacheControl == NewOrStored(reply.headers, "Cache-Control", stored.cacheControl)
            && (forall name ::
                  if name in reply.headers && reply.headers[name] != []
                  then name in metadata.headers && metadata.headers[name] == reply.headers[name]
                  else (name in metadata.headers <==> name in stored.headers)
                       && (name in stored.headers ==> metadata.headers[name] == stored.headers[name]))
            && metadata.lastValidatedAt == request.now && !metadata.stale && metadata.cachedAt == stored.cachedAt
            && metadata.url == stored.url && metadata.verb == stored.verb && metadata.statusCode == stored.statusCode
            && Gives(metadata.cacheControl, request.policy.maxAge, lifetime)
            && ExpiresAfter(metadata, request.now, lifetime)
  {
    hide Lifetime, Gives;
    var stored := Lookup(files, request.key).metadata;
    var reply := network(Sent(Lookup(files, request.key)));
    metadata := Freshened(stored, reply.headers, request.now, request.policy.maxAge);
    lifetime := Lifetime(metadata.cacheControl, request.policy.maxAge);
    LifetimeGives(metadata.cacheControl, request.policy.maxAge);
  }

  /** The exchange failed: no reply, a body that cannot be read, or a status that is neither 2xx nor a 304 on a pair. */
  predicate Fails(loaded: Loaded, reply: Reply) {
    || reply.NoReply?
    || (!(reply.status == 304 && loaded.Found?) && (reply.body.None? || !(200 <= reply.status < 300)))
  }

  /** A failed exchange yields the stored pair as a stale hit if and only if there is one, the caller accepts stale
      pairs, and it was not the body of the reply that failed; otherwise it is an error, which says what failed. The
      pair stays in the store either way. */
  lemma FailureAnswers(files: Files, request: Request, network: Network)
    requires var loaded := Lookup(files, request.key); Asks(loaded, request) && Fails(loaded, network(Sent(loaded)))
    ensures var loaded := Lookup(files, request.key); var reply := network(Sent(loaded));
            var result, unread := Decide(loaded, request, network).result, reply.Reply? && reply.body.None?;
            && (if loaded.Found? && request.policy.allowStaleOnError && !unread
                then result == Ok(FetchResult(loaded.body, loaded.metadata.(stale := true), StaleHit))
                else result == Err(if reply.NoReply? then TransportFailure
                                   else if unread then BodyFailure else UnexpectedStatus(reply.status)))
            && (loaded.Found? ==> FilesAfter(files, request, network) == files)
  {
  }

  // ---- Runs -------------------------------------------------------------------------------------------------

  function LoadedAt(files: Files, run: seq<Event>, n: nat): Loaded
    requires n < |run|
  {
    Lookup(FilesAt(files, run, n), run[n].request.key)
  }

  function ReplyAt(files: Files, run: seq<Event>, n: nat): Reply
    requires n < |run|
  {
    run[n].network(Sent(LoadedAt(files, run, n)))
  }

  /** Fetch `n` asks and gets a readable 2xx reply, or a 304 on a stored pair. */
  predicate Validates(files: Files, run: seq<Event>, n: nat)
    requires n < |run|
  {
    Asks(LoadedAt(files, run, n), run[n].request) && !Fails(LoadedAt(files, run, n), ReplyAt(files, run, n))
  }

  /** The body and the Cache-Control that such a fetch leaves. */
  function BodyKept(files: Files, run: seq<Event>, n: nat): Body
    requires n < |run| && Validates(files, run, n)
  {
    if ReplyAt(files, run, n).status == 304 && LoadedAt(files, run, n).Found? then LoadedAt(files, run, n).body
    else ReplyAt(files, run, n).body.value
  }

  function ControlKept(files: Files, run: seq<Event>, n: nat): string
    requires n < |run| && Validates(files, run, n)
  {
    var loaded, headers := LoadedAt(files, run, n), ReplyAt(files, run, n).headers;
    if ReplyAt(files, run, n).status == 304 && loaded.Found?
    then NewOrStored(headers, "Cache-Control", loaded.metadata.cacheControl) else FirstValue(headers, "Cache-Control")
  }

  lemma ValidatedIsFound(files: Files, run: seq<Event>, k: nat) returns (metadata: Metadata, lifetime: Option<int>)
    requires k < |run| && Validates(files, run, k)
    ensures Lookup(FilesAt(files, run, k + 1), run[k].request.key) == Found(metadata, BodyKept(files, run, k))
    ensures metadata.cacheControl == ControlKept(files, run, k)
    ensures Gives(metadata.cacheControl, run[k].request.policy.maxAge, lifetime)
    ensures ExpiresAfter(metadata, run[k].request.now, lifetime)
  {
    hide Decide, FilesAfter, Gives, FirstValue, NewOrStored, Lookup;
    var before, request, network := FilesAt(files, run, k), run[k].request, run[k].network;
    if ReplyAt(files, run, k).status == 304 && LoadedAt(files, run, k).Found? {
      metadata, lifetime := NotModifiedIsKept(before, request, network);
      metadata := metadata.(key := request.key);
    } else {
      metadata, lifetime := ReplyIsKept(before, request, network);
    }
  }

  lemma OtherKeyStays(files: Files, request: Request, network: Network, key: Key)
    requires key != request.key
    ensures Lookup(FilesAfter(files, request, network), key) == Lookup(files, key)
  {
    hide Decide;
  }

  /** As long as no fetch of its key brings it from the origin again, a pair stays as it is. */
  lemma {:induction false} PairStays(files: Files, run: seq<Event>, k: nat, n: nat, key: Key)
    requires k <= n <= |run| && Lookup(FilesAt(files, run, k), key).Found?
    requires forall i | k <= i < n && run[i].request.key == key :: !Validates(files, run, i)
    ensures Lookup(FilesAt(files, run, n), key) == Lookup(FilesAt(files, run, k), key)
    decreases n
  {
    hide Decide, FilesAfter, Lookup, Asks, Fails;
    if k < n {
      PairStays(files, run, k, n - 1, key);
      var before, request, network := FilesAt(files, run, n - 1), run[n - 1].request, run[n - 1].network;
      if request.key == key {
        assert !Validates(files, run, n - 1);
        StoreAnswers(before, request, network);
        if Asks(LoadedAt(files, run, n - 1), request) {
          FailureAnswers(before, request, network);
        }
      } else {
        OtherKeyStays(before, request, network, key);
      }
    }
  }

  /** After a fetch that has brought a pair, and with no other one for this key in between, a fetch that does not insist
      is answered with that body as a fresh hit, and asks nothing, exactly while the lifetime that was given lasts. */
  lemma FreshIffWithin(files: Files, run: seq<Event>, k: nat, n: nat) returns (lifetime: Option<int>)
    requires k < n < |run| && run[n].request.key == run[k].request.key && Validates(files, run, k)
    requires forall i | k < i < n && run[i].request.key == run[k].request.key :: !Validates(files, run, i)
    requires !run[n].request.policy.forceRefresh
    ensures Gives(ControlKept(files, run, k), run[k].request.policy.maxAge, lifetime)
    ensures var decision := DecisionAt(files, run, n);
            && (decision.result.Ok? && decision.result.value.outcome == FreshHit <==>
                  lifetime.Some? && run[n].request.now - run[k].request.now < lifetime.value)
            && (decision.result.Ok? && decision.result.value.outcome == FreshHit ==>
                  !decision.asked && decision.result.value.body == BodyKept(files, run, k))
  {
    hide Gives, BodyKept, ControlKept, FilesAt;
    var key := run[k].request.key;
    var metadata, given := ValidatedIsFound(files, run, k);
    lifetime := given;
    PairStays(files, run, k + 1, n, key);
    StoreAnswers(FilesAt(files, run, n), run[n].request, run[n].network);
  }

  /** The same where the Cache-Control that was kept says `max-age` and a number of seconds. */
  lemma FreshForSeconds(files: Files, run: seq<Event>, k: nat, n: nat, i: nat, seconds: nat)
    requires k < n < |run| && run[n].request.key == run[k].request.key && Validates(files, run, k)
    requires forall i | k < i < n && run[i].request.key == run[k].request.key :: !Validates(files, run, i)
    requires !run[n].request.policy.forceRefresh && seconds <= MAX_SECONDS
    requires var directives := Split(ControlKept(files, run, k), ',');
             FirstMaxAgeAt(directives, i) && SaysMaxAge(directives[i], seconds)
    ensures var decision := DecisionAt(files, run, n);
            !decision.asked && decision.result.Ok? && decision.result.value.outcome == FreshHit <==>
              run[n].request.now - run[k].request.now < seconds * SECOND
  {
    hide Decide, Validates, ControlKept, Atoi, Itoa;
    AtoiInvertsItoa(seconds);
    var lifetime := FreshIffWithin(files, run, k, n);
  }

  /** And where it says nothing about its age: the fallback of the caller that brought the pair counts. */
  lemma FreshForFallback(files: Files, run: seq<Event>, k: nat, n: nat)
    requires k < n < |run| && run[n].request.key == run[k].request.key && Validates(files, run, k)
    requires forall i | k < i < n && run[i].request.key == run[k].request.key :: !Validates(files, run, i)
    requires !run[n].request.policy.forceRefresh
    requires var directives := Split(ControlKept(files, run, k), ',');
             forall i | 0 <= i < |directives| :: !IsMaxAge(directives[i])
    ensures var decision, fallback := DecisionAt(files, run, n), run[k].request.policy.maxAge;
            !decision.asked && decision.result.Ok? && decision.result.value.outcome == FreshHit <==>
              run[n].request.now - run[k].request.now < fallback && fallback > 0
  {
    hide *;
    var lifetime := FreshIffWithin(files, run, k, n);
    GivesFallback(ControlKept(files, run, k), run[k].request.policy.maxAge, lifetime);
  }

  lemma GivesFallback(cacheControl: string, fallback: int, lifetime: Option<int>)
    requires Gives(cacheControl, fallback, lifetime)
    requires forall i | 0 <= i < |Split(cacheControl, ',')| :: !IsMaxAge(Split(cacheControl, ',')[i])
    ensures lifetime == if fallback > 0 then Some(fallback) else None
  {
  }
}
