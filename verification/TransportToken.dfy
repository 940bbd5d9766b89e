/** The token cache of an MCP transport under its locks (pkg/mcp/client/auth.go). */
module TransportToken {
  import opened Wrappers

  // Client-credentials tokens (section 4.4 of RFC 6749) and their single permitted refresh (section 6), under one
  // lock per cache key. Times are nanoseconds.

  const SECOND := 1_000_000_000

  /** A cached token; `expiresAt` is None where the endpoint gave no lifetime. The zero value is "nothing cached". */
  datatype Cached = Cached(
    access: string, refresh: string, expiresAt: Option<int>, refreshExpiresAt: Option<int>,
    refreshUsed: bool, refreshFailed: bool)

  const NOTHING := Cached("", "", None, None, false, false)

  /** A token response with a non-empty access token. */
  datatype Response = Response(access: string, refresh: string, expiresIn: int, refreshExpiresIn: int)

  predicate ExpiresSoon(expiresAt: Option<int>, now: int) {
    expiresAt.Some? && now > expiresAt.value - 5 * SECOND
  }

  /** `usableCachedTransportToken`. */
  predicate Usable(token: Cached, now: int) {
    token.access != "" && !ExpiresSoon(token.expiresAt, now)
  }

  function ExpiryFromSeconds(seconds: int, now: int): Option<int> {
    if seconds <= 0 then None else Some(now + seconds * SECOND)
  }

  function FromResponse(response: Response, previousRefresh: string, refreshUsed: bool, now: int): Cached {
    Cached(response.access, if response.refresh == "" then previousRefresh else response.refresh,
           ExpiryFromSeconds(response.expiresIn, now), ExpiryFromSeconds(response.refreshExpiresIn, now),
           refreshUsed, false)
  }

  /** `markCachedTransportRefreshFailed`. */
  function MarkedFailed(token: Cached): Cached {
    token.(refreshUsed := true, refreshFailed := true, access := "", expiresAt := None)
  }

  datatype Verdict = Refuse | AskForGrant | AskForRefresh

  /** The checks at the head of `refreshCachedTransportOAuthToken`. */
  function Judge(token: Cached, now: int): Verdict {
    if token.refreshFailed || token.refreshUsed then Refuse
    else if token.access == "" || !ExpiresSoon(token.expiresAt, now) then AskForGrant
    else if token.refresh == "" || ExpiresSoon(token.refreshExpiresAt, now) then Refuse
    else AskForRefresh
  }

  // ---- The protocol -----------------------------------------------------------------------------------------

  type Caller = nat

  /** A cache entry: which storage it is in, and its key. Locks go by key alone. */
  datatype Slot = Slot(storage: string, key: string)

  datatype Outcome = Handed(access: string) | Failed

  /** Where a caller is between two of its atomic steps. From `Holding` on it has the lock of its slot's key. */
  datatype Phase =
    | Arrived(hint: Slot, slot: Slot)
    | Resolving(slot: Slot)
    | Holding(slot: Slot)
    | Checked(slot: Slot, cached: Cached)
    | AwaitingGrant(slot: Slot)
    | AwaitingRefresh(slot: Slot, cached: Cached)
    | Done(outcome: Outcome)

  predicate HasLock(phase: Phase) {
    phase.Holding? || phase.Checked? || phase.AwaitingGrant? || phase.AwaitingRefresh?
  }

  /** What passes between the callers and the token endpoint about one slot. */
  datatype Message =
    | GrantAsked
    | GrantDenied
    | GrantIssued(access: string, refresh: string)
    | RefreshAsked(refresh: string)
    | RefreshDenied
    | RefreshIssued(access: string)

  datatype State = State(
    now: int, items: map<Slot, Cached>, locks: map<string, Caller>, callers: map<Caller, Phase>,
    wire: map<Slot, seq<Message>>)

  function Item(s: State, slot: Slot): Cached {
    if slot in s.items then s.items[slot] else NOTHING
  }

  function Wire(s: State, slot: Slot): seq<Message> {
    if slot in s.wire then s.wire[slot] else []
  }

  /** `storeCachedTransportToken` skips an entry that says nothing. */
  function Stored(items: map<Slot, Cached>, slot: Slot, token: Cached): map<Slot, Cached> {
    if token.access == "" && token.refresh == "" && !token.refreshUsed && !token.refreshFailed then items
    else items[slot := token]
  }

  /** The atomic steps. `fails` and `None` stand for every way in which a read, the resolution of secrets and
      endpoint, the making of a request, or the exchange with the endpoint can fail. */
  datatype Step =
    | Wait(until: int)
    | Arrive(id: Caller, hint: Slot, slot: Slot)
    | ReadHint(id: Caller, fails: bool)
    | GiveUp(id: Caller)
    | Acquire(id: Caller)
    | ReadLocked(id: Caller, fails: bool)
    | Decide(id: Caller, secretFails: bool, requestFails: bool)
    | GrantReply(id: Caller, response: Option<Response>)
    | RefreshReply(id: Caller, response: Option<Response>, rereadFails: bool)

  predicate Enabled(s: State, step: Step) {
    match step
    case Wait(until) => s.now <= until
    case Arrive(id, hint, slot) => id !in s.callers && hint.storage == slot.storage
    case ReadHint(id, _) => id in s.callers && s.callers[id].Arrived? && s.callers[id].hint.key !in s.locks
    case GiveUp(id) => id in s.callers && s.callers[id].Resolving?
    case Acquire(id) => id in s.callers && s.callers[id].Resolving? && s.callers[id].slot.key !in s.locks
    case ReadLocked(id, _) => id in s.callers && s.callers[id].Holding?
    case Decide(id, _, _) => id in s.callers && s.callers[id].Checked?
    case GrantReply(id, response) =>
      id in s.callers && s.callers[id].AwaitingGrant? && (response.Some? ==> response.value.access != "")
    case RefreshReply(id, response, _) =>
      id in s.callers && s.callers[id].AwaitingRefresh? && (response.Some? ==> response.value.access != "")
  }

  function Finished(s: State, id: Caller, slot: Slot, outcome: Outcome): State {
    s.(callers := s.callers[id := Done(outcome)], locks := s.locks - {slot.key})
  }

  function Said(s: State, slot: Slot, message: Message): State {
    s.(wire := s.wire[slot := Wire(s, slot) + [message]])
  }

  function Next(s: State, step: Step): State
    requires Enabled(s, step)
  {
    match step
    case Wait(until) => s.(now := until)
    case Arrive(id, hint, slot) => s.(callers := s.callers[id := Arrived(hint, slot)])
    case ReadHint(id, fails) =>
      var token := Item(s, s.callers[id].hint);
      s.(callers := s.callers[id := if fails then Done(Failed)
                                    else if Usable(token, s.now) then Done(Handed(token.access))
                                    else Resolving(s.callers[id].slot)])
    case GiveUp(id) => s.(callers := s.callers[id := Done(Failed)])
    case Acquire(id) =>
      var slot := s.callers[id].slot;
      s.(callers := s.callers[id := Holding(slot)], locks := s.locks[slot.key := id])
    case ReadLocked(id, fails) =>
      var slot := s.callers[id].slot;
      var token := Item(s, slot);
      if fails then Finished(s, id, slot, Failed)
      else if Usable(token, s.now) then Finished(s, id, slot, Handed(token.access))
      else s.(callers := s.callers[id := Checked(slot, token)])
    case Decide(id, secretFails, requestFails) =>
      var Checked(slot, cached) := s.callers[id];
      (match Judge(cached, s.now)
       case Refuse => Finished(s, id, slot, Failed)
       case AskForGrant =>
         if requestFails then Finished(s, id, slot, Failed)
         else Said(s, slot, GrantAsked).(callers := s.callers[id := AwaitingGrant(slot)])
       case AskForRefresh =>
         if secretFails then Finished(s.(items := Stored(s.items, slot, MarkedFailed(cached))), id, slot, Failed)
         else if requestFails then Finished(s, id, slot, Failed)
         else Said(s, slot, RefreshAsked(cached.refresh)).(callers := s.callers[id := AwaitingRefresh(slot, cached)]))
    case GrantReply(id, response) =>
      var slot := s.callers[id].slot;
      if response.None? then Finished(Said(s, slot, GrantDenied), id, slot, Failed)
      else
        var token := FromResponse(response.value, "", false, s.now);
        Finished(Said(s, slot, GrantIssued(token.access, token.refresh)).(items := Stored(s.items, slot, token)), id,
                 slot, Handed(token.access))
    case RefreshReply(id, response, rereadFails) =>
      var AwaitingRefresh(slot, cached) := s.callers[id];
      if response.None? then
        Finished(Said(s, slot, RefreshDenied).(items := Stored(s.items, slot, MarkedFailed(cached))), id, slot, Failed)
      else
        var token := FromResponse(response.value, cached.refresh, true, s.now);
        Finished(Said(s, slot, RefreshIssued(token.access)).(items := Stored(s.items, slot, token)), id, slot,
                 if rereadFails then Failed else Handed(token.access))
  }

  function Initial(now: int): State {
    State(now, map[], map[], map[], map[])
  }

  /** A run of the protocol: states linked by enabled steps. */
  ghost predicate IsRun(states: seq<State>, steps: seq<Step>) {
    && |states| == |steps| + 1
    && states[0] == Initial(states[0].now)
    && forall i | 0 <= i < |steps| :: Enabled(states[i], steps[i]) && states[i + 1] == Next(states[i], steps[i])
  }

  // ---- What may pass on the wire of one slot ----------------------------------------------------------------

  datatype Stage =
    | Idle
    | Asking
    | Granted(access: string, refresh: string)
    | Refreshing
    | Spent(renewed: Option<string>)

  function Advance(stage: Option<Stage>, message: Message): Option<Stage> {
    match (stage, message)
    case (Some(Idle), GrantAsked) => Some(Asking)
    case (Some(Asking), GrantDenied) => Some(Idle)
    case (Some(Asking), GrantIssued(access, refresh)) => Some(Granted(access, refresh))
    case (Some(Granted(_, refresh)), RefreshAsked(sent)) => if sent == refresh then Some(Refreshing) else None
    case (Some(Refreshing), RefreshDenied) => Some(Spent(None))
    case (Some(Refreshing), RefreshIssued(access)) => Some(Spent(Some(access)))
    case _ => None
  }

  /** The stage that a conversation has reached, None if it breaks the protocol. */
  function StageOf(wire: seq<Message>): Option<Stage> {
    if wire == [] then Some(Idle) else Advance(StageOf(wire[..|wire| - 1]), wire[|wire| - 1])
  }

  function Denials(n: nat): (r: seq<Message>)
    ensures |r| == 2 * n
  {
    if n == 0 then [] else Denials(n - 1) + [GrantAsked, GrantDenied]
  }

  /** At most one successful grant, then at most one refresh, which sends the refresh token of that grant. */
  predicate Closing(rest: seq<Message>) {
    && |rest| <= 4
    && (|rest| > 0 ==> rest[0] == GrantAsked)
    && (|rest| > 1 ==> rest[1].GrantIssued?)
    && (|rest| > 2 ==> rest[2] == RefreshAsked(rest[1].refresh))
    && (|rest| > 3 ==> rest[3].RefreshDenied? || rest[3].RefreshIssued?)
  }

  /** The conversations: `n` failed grants, then what `Closing` says. */
  predicate Allowed(wire: seq<Message>, n: nat) {
    2 * n <= |wire| && wire[..2 * n] == Denials(n) && Closing(wire[2 * n..])
  }

  lemma StageSaid(wire: seq<Message>, message: Message)
    ensures StageOf(wire + [message]) == Advance(StageOf(wire), message)
  {
    assert (wire + [message])[..|wire|] == wire;
  }

  lemma {:induction false} StageOfDenials(n: nat)
    ensures StageOf(Denials(n)) == Some(Idle)
  {
    if n > 0 {
      StageOfDenials(n - 1);
      StageSaid(Denials(n - 1), GrantAsked);
      StageSaid(Denials(n - 1) + [GrantAsked], GrantDenied);
      assert Denials(n) == Denials(n - 1) + [GrantAsked] + [GrantDenied];
    }
  }

  /** Where an allowed conversation stands. */
  function StageAfter(rest: seq<Message>): Stage
    requires Closing(rest)
  {
    if |rest| == 0 then Idle
    else if |rest| == 1 then Asking
    else if |rest| == 2 then Granted(rest[1].access, rest[1].refresh)
    else if |rest| == 3 then Refreshing
    else Spent(if rest[3].RefreshIssued? then Some(rest[3].access) else None)
  }

  lemma {:induction false} AllowedStage(wire: seq<Message>, n: nat)
    requires Allowed(wire, n)
    ensures StageOf(wire) == Some(StageAfter(wire[2 * n..]))
  {
    if |wire| == 2 * n {
      assert wire == Denials(n);
      StageOfDenials(n);
    } else {
      var shorter := wire[..|wire| - 1];
      assert shorter[2 * n..] == wire[2 * n..][..|wire| - 1 - 2 * n];
      AllowedStage(shorter, n);
      StageSaid(shorter, wire[|wire| - 1]);
      assert wire == shorter + [wire[|wire| - 1]];
    }
  }

  lemma {:induction false} StagedIsAllowed(wire: seq<Message>) returns (n: nat)
    requires StageOf(wire).Some?
    ensures Allowed(wire, n)
  {
    if wire == [] {
      n := 0;
    } else {
      var shorter, last := wire[..|wire| - 1], wire[|wire| - 1];
      assert wire == shorter + [last];
      n := StagedIsAllowed(shorter);
      AllowedStage(shorter, n);
      if last == GrantDenied {
        assert shorter[2 * n..] == [GrantAsked];
        assert wire == Denials(n) + [GrantAsked, GrantDenied];
        n := n + 1;
      } else {
        assert wire[2 * n..] == shorter[2 * n..] + [last];
      }
    }
  }

  /** The stages describe exactly the allowed conversations. */
  lemma StagedIffAllowed(wire: seq<Message>)
    ensures StageOf(wire).Some? <==> exists n :: Allowed(wire, n)
  {
    if StageOf(wire).Some? {
      var n := StagedIsAllowed(wire);
    }
    if n :| Allowed(wire, n) {
      AllowedStage(wire, n);
    }
  }

  // ---- The invariant ----------------------------------------------------------------------------------------

  /** The sticky state after a failed refresh. */
  predicate Dead(token: Cached) {
    token.refreshFailed && token.refreshUsed && token.access == ""
  }

  /** What is cached at each stage of the conversation. */
  predicate Fits(stage: Stage, token: Cached) {
    match stage
    case Idle => token == NOTHING
    case Asking => token == NOTHING
    case Granted(access, refresh) => Dead(token) || Live(token, access, refresh)
    case Refreshing => token.access != "" && !token.refreshUsed && !token.refreshFailed
    case Spent(None) => Dead(token)
    case Spent(Some(access)) => token.access == access != "" && token.refreshUsed && !token.refreshFailed
  }

  /** A granted token whose refresh has not been tried. */
  predicate Live(token: Cached, access: string, refresh: string) {
    token.access == access != "" && token.refresh == refresh && !token.refreshUsed && !token.refreshFailed
  }

  function At(s: State, slot: Slot): Option<Stage> {
    StageOf(Wire(s, slot))
  }

  predicate SlotFits(s: State, slot: Slot) {
    At(s, slot).Some? && Fits(At(s, slot).value, Item(s, slot))
  }

  /** A reply is awaited. */
  predicate Open(stage: Option<Stage>) {
    stage == Some(Asking) || stage == Some(Refreshing)
  }

  predicate Awaits(phase: Phase, slot: Slot) {
    (phase.AwaitingGrant? || phase.AwaitingRefresh?) && phase.slot == slot
  }

  /** The conversation of a slot is between rounds unless a caller awaits a reply on it. */
  predicate Attended(s: State, slot: Slot) {
    Open(At(s, slot)) ==>
      slot.key in s.locks && s.locks[slot.key] in s.callers && Awaits(s.callers[s.locks[slot.key]], slot)
  }

  /** What a caller knows about its slot. */
  predicate CallerFits(s: State, id: Caller)
    requires id in s.callers
  {
    match s.callers[id]
    case Checked(slot, cached) => cached == Item(s, slot) && !Usable(cached, s.now) && !Open(At(s, slot))
    case AwaitingGrant(slot) => At(s, slot) == Some(Asking)
    case AwaitingRefresh(slot, cached) => cached == Item(s, slot) && At(s, slot) == Some(Refreshing)
    case _ => true
  }

  ghost predicate LocksFit(s: State) {
    && (forall id | id in s.callers && HasLock(s.callers[id]) ::
          s.callers[id].slot.key in s.locks && s.locks[s.callers[id].slot.key] == id)
    && (forall key | key in s.locks ::
          s.locks[key] in s.callers && HasLock(s.callers[s.locks[key]]) && s.callers[s.locks[key]].slot.key == key)
  }

  ghost predicate Inv(s: State) {
    && LocksFit(s)
    && (forall slot :: SlotFits(s, slot) && Attended(s, slot))
    && (forall id | id in s.callers :: CallerFits(s, id))
  }

  lemma InvStarts(now: int)
    ensures Inv(Initial(now))
  {
  }

  /** What a step of `id` that is about `slot` leaves alone. */
  ghost predicate OnlyAbout(s: State, s': State, id: Caller, slot: Slot) {
    && s'.now == s.now
    && s'.callers.Keys == s.callers.Keys + {id}
    && (forall other | other in s.callers && other != id :: s'.callers[other] == s.callers[other])
    && (forall other | other != slot :: Item(s', other) == Item(s, other) && Wire(s', other) == Wire(s, other))
  }

  /** A step of a caller that has the lock of its slot keeps the invariant if it keeps it for that slot. */
  lemma LockedStep(s: State, s': State, id: Caller, slot: Slot)
    requires Inv(s) && id in s.callers && HasLock(s.callers[id]) && s.callers[id].slot == slot
    requires OnlyAbout(s, s', id, slot)
    requires
      || (HasLock(s'.callers[id]) && s'.callers[id].slot == slot && s'.locks == s.locks)
      || (s'.callers[id].Done? && s'.locks == s.locks - {slot.key})
    requires SlotFits(s', slot) && CallerFits(s', id)
    requires Open(At(s', slot)) ==> Awaits(s'.callers[id], slot)
    ensures Inv(s')
  {
    hide StageOf, Fits, Usable, Item, Wire;
    assert LocksFit(s');
    forall other ensures SlotFits(s', other) && Attended(s', other) {
      assert SlotFits(s, other) && Attended(s, other);
      if other == slot {
        assert s.locks[slot.key] == id;
      }
    }
    forall other | other in s'.callers ensures CallerFits(s', other) {
      if other != id {
        assert CallerFits(s, other);
      }
    }
  }

  lemma AboutSlot(s: State, slot: Slot)
    requires Inv(s)
    ensures SlotFits(s, slot) && Attended(s, slot)
  {
  }

  lemma AboutCaller(s: State, id: Caller)
    requires Inv(s) && id in s.callers
    ensures CallerFits(s, id)
  {
  }

  lemma AboutLock(s: State, id: Caller)
    requires Inv(s) && id in s.callers && HasLock(s.callers[id])
    ensures s.callers[id].slot.key in s.locks && s.locks[s.callers[id].slot.key] == id
  {
  }

  lemma WaitStep(s: State, until: int)
    requires Inv(s) && s.now <= until
    ensures Inv(s.(now := until))
  {
    hide StageOf, Fits;
    var s' := s.(now := until);
    forall slot ensures SlotFits(s', slot) && Attended(s', slot) {
      AboutSlot(s, slot);
    }
    forall id | id in s'.callers ensures CallerFits(s', id) {
      AboutCaller(s, id);
    }
  }

  /** A step of a caller that had no lock before it leaves the cache and the wire alone. */
  lemma UnlockedStep(s: State, s': State, id: Caller)
    requires Inv(s) && (id in s.callers ==> !HasLock(s.callers[id]))
    requires s'.items == s.items && s'.wire == s.wire && s'.now == s.now
    requires s'.callers.Keys == s.callers.Keys + {id}
    requires forall other | other in s.callers && other != id :: s'.callers[other] == s.callers[other]
    requires
      || (!HasLock(s'.callers[id]) && s'.locks == s.locks)
      || (&& s'.callers[id].Holding? && s'.callers[id].slot.key !in s.locks
          && s'.locks == s.locks[s'.callers[id].slot.key := id])
    ensures Inv(s')
  {
    hide StageOf, Fits, Usable;
    assert LocksFit(s') by {
      hide Item, Wire, At;
    }
    forall slot ensures SlotFits(s', slot) && Attended(s', slot) {
      AboutSlot(s, slot);
    }
    forall other | other in s'.callers ensures CallerFits(s', other) {
      if other != id {
        AboutCaller(s, other);
      }
    }
  }

  lemma ReadLockedStep(s: State, id: Caller, fails: bool)
    requires Inv(s) && Enabled(s, ReadLocked(id, fails))
    ensures Inv(Next(s, ReadLocked(id, fails)))
  {
    hide StageOf, Fits, Inv;
    var slot := s.callers[id].slot;
    AboutSlot(s, slot);
    AboutLock(s, id);
    LockedStep(s, Next(s, ReadLocked(id, fails)), id, slot);
  }

  /** The lock is released and nothing else changes. */
  lemma FinishStep(s: State, id: Caller, slot: Slot, outcome: Outcome)
    requires Inv(s) && id in s.callers && HasLock(s.callers[id]) && s.callers[id].slot == slot
    requires !Open(At(s, slot))
    ensures Inv(Finished(s, id, slot, outcome))
  {
    hide StageOf, Fits, Inv;
    AboutSlot(s, slot);
    LockedStep(s, Finished(s, id, slot, outcome), id, slot);
  }

  /** Only an empty slot is granted a token, and only a granted and untried one is refreshed. */
  lemma DecideFollowsStage(s: State, id: Caller)
    requires Inv(s) && id in s.callers && s.callers[id].Checked?
    ensures var Checked(slot, cached) := s.callers[id];
      && cached == Item(s, slot) && !Open(At(s, slot))
      && (Judge(cached, s.now) == AskForGrant ==> At(s, slot) == Some(Idle) && cached == NOTHING)
      && (Judge(cached, s.now) == AskForRefresh ==>
            At(s, slot) == Some(Granted(cached.access, cached.refresh)) && Live(cached, cached.access, cached.refresh))
  {
    hide StageOf, Inv;
    AboutSlot(s, s.callers[id].slot);
    AboutCaller(s, id);
  }

  lemma AskForGrantStep(s: State, id: Caller, slot: Slot)
    requires Inv(s) && id in s.callers && HasLock(s.callers[id]) && s.callers[id].slot == slot
    requires At(s, slot) == Some(Idle) && Item(s, slot) == NOTHING
    ensures Inv(Said(s, slot, GrantAsked).(callers := s.callers[id := AwaitingGrant(slot)]))
  {
    hide StageOf, Inv;
    StageSaid(Wire(s, slot), GrantAsked);
    LockedStep(s, Said(s, slot, GrantAsked).(callers := s.callers[id := AwaitingGrant(slot)]), id, slot);
  }

  lemma AskForRefreshStep(s: State, id: Caller, slot: Slot, cached: Cached)
    requires Inv(s) && id in s.callers && HasLock(s.callers[id]) && s.callers[id].slot == slot
    requires At(s, slot) == Some(Granted(cached.access, cached.refresh))
    requires cached == Item(s, slot) && Live(cached, cached.access, cached.refresh)
    ensures Inv(Said(s, slot, RefreshAsked(cached.refresh)).(callers := s.callers[id := AwaitingRefresh(slot, cached)]))
    ensures Inv(Finished(s.(items := Stored(s.items, slot, MarkedFailed(cached))), id, slot, Failed))
  {
    hide StageOf, Inv;
    StageSaid(Wire(s, slot), RefreshAsked(cached.refresh));
    LockedStep(s,
               Said(s, slot, RefreshAsked(cached.refresh)).(callers := s.callers[id := AwaitingRefresh(slot, cached)]),
               id, slot);
    LockedStep(s, Finished(s.(items := Stored(s.items, slot, MarkedFailed(cached))), id, slot, Failed), id, slot);
  }

  lemma DecideStep(s: State, id: Caller, secretFails: bool, requestFails: bool)
    requires Inv(s) && Enabled(s, Decide(id, secretFails, requestFails))
    ensures Inv(Next(s, Decide(id, secretFails, requestFails)))
  {
    hide StageOf, Inv, Judge, At, Item, Said, Finished, Stored;
    var Checked(slot, cached) := s.callers[id];
    DecideFollowsStage(s, id);
    match Judge(cached, s.now)
    case Refuse => FinishStep(s, id, slot, Failed);
    case AskForGrant =>
      if requestFails {
        FinishStep(s, id, slot, Failed);
      } else {
        AskForGrantStep(s, id, slot);
      }
    case AskForRefresh =>
      if !secretFails && requestFails {
        FinishStep(s, id, slot, Failed);
      } else {
        AskForRefreshStep(s, id, slot, cached);
      }
  }

  lemma GrantReplyStep(s: State, id: Caller, response: Option<Response>)
    requires Inv(s) && Enabled(s, GrantReply(id, response))
    ensures Inv(Next(s, GrantReply(id, response)))
  {
    hide StageOf, Inv;
    var slot := s.callers[id].slot;
    AboutSlot(s, slot);
    AboutCaller(s, id);
    StageSaid(Wire(s, slot), GrantDenied);
    if response.Some? {
      StageSaid(Wire(s, slot), GrantIssued(response.value.access, response.value.refresh));
    }
    LockedStep(s, Next(s, GrantReply(id, response)), id, slot);
  }

  lemma RefreshReplyStep(s: State, id: Caller, response: Option<Response>, rereadFails: bool)
    requires Inv(s) && Enabled(s, RefreshReply(id, response, rereadFails))
    ensures Inv(Next(s, RefreshReply(id, response, rereadFails)))
  {
    hide StageOf, Inv, Usable;
    var AwaitingRefresh(slot, cached) := s.callers[id];
    AboutSlot(s, slot);
    AboutCaller(s, id);
    var s' := Next(s, RefreshReply(id, response, rereadFails));
    if response.None? {
      StageSaid(Wire(s, slot), RefreshDenied);
      LockedStep(s, s', id, slot);
    } else {
      StageSaid(Wire(s, slot), RefreshIssued(response.value.access));
      LockedStep(s, s', id, slot);
    }
  }

  lemma InvStep(s: State, step: Step)
    requires Inv(s) && Enabled(s, step)
    ensures Inv(Next(s, step))
  {
    hide Inv;
    match step
    case ReadLocked(id, fails) => ReadLockedStep(s, id, fails);
    case Decide(id, secretFails, requestFails) => DecideStep(s, id, secretFails, requestFails);
    case GrantReply(id, response) => GrantReplyStep(s, id, response);
    case RefreshReply(id, response, rereadFails) => RefreshReplyStep(s, id, response, rereadFails);
    case Wait(until) => WaitStep(s, until);
    case Arrive(id, _, _) => UnlockedStep(s, Next(s, step), id);
    case ReadHint(id, _) => UnlockedStep(s, Next(s, step), id);
    case GiveUp(id) => UnlockedStep(s, Next(s, step), id);
    case Acquire(id) => UnlockedStep(s, Next(s, step), id);
  }

  // ---- Whole runs -------------------------------------------------------------------------------------------

  lemma {:induction false} RunKeepsInv(states: seq<State>, steps: seq<Step>, i: nat)
    requires IsRun(states, steps) && i < |states|
    ensures Inv(states[i])
  {
    if i == 0 {
      InvStarts(states[0].now);
    } else {
      RunKeepsInv(states, steps, i - 1);
      InvStep(states[i - 1], steps[i - 1]);
    }
  }

  /** Under every interleaving, all that is ever said about a slot is failed grants, then at most one successful
      one, then at most one refresh. */
  lemma RequestsOfASlot(states: seq<State>, steps: seq<Step>, i: nat, slot: Slot)
    requires IsRun(states, steps) && i < |states|
    ensures exists n :: Allowed(Wire(states[i], slot), n)
  {
    RunKeepsInv(states, steps, i);
    AboutSlot(states[i], slot);
    StagedIffAllowed(Wire(states[i], slot));
  }

  lemma WireStep(s: State, step: Step, slot: Slot)
    requires Enabled(s, step)
    ensures Wire(s, slot) <= Wire(Next(s, step), slot)
  {
    hide Usable, Judge, FromResponse, Stored, MarkedFailed;
  }

  lemma {:induction false} WireOnlyGrows(states: seq<State>, steps: seq<Step>, i: nat, j: nat, slot: Slot)
    requires IsRun(states, steps) && i <= j < |states|
    ensures Wire(states[i], slot) <= Wire(states[j], slot)
  {
    hide Wire, Next, Enabled;
    if i < j {
      WireOnlyGrows(states, steps, i, j - 1, slot);
      WireStep(states[j - 1], steps[j - 1], slot);
    }
  }

  /** The slot whose entry decides what a caller does next. */
  function Consults(phase: Phase): Slot
    requires !phase.Done?
  {
    if phase.Arrived? then phase.hint else phase.slot
  }

  function Actor(step: Step): Option<Caller> {
    if step.Wait? then None else Some(step.id)
  }

  /** `access` is the access token issued last for the slot, and the one cached for it. */
  ghost predicate Latest(s: State, slot: Slot, access: string) {
    && Item(s, slot).access == access
    && (At(s, slot) == Some(Spent(Some(access))) || exists refresh :: At(s, slot) == Some(Granted(access, refresh)))
  }

  /** What is in the cache and not about to expire is the latest token. */
  lemma UsableIsLatest(s: State, slot: Slot)
    requires Inv(s) && Usable(Item(s, slot), s.now)
    requires !Open(At(s, slot))
    ensures Latest(s, slot, Item(s, slot).access)
    ensures Item(s, slot).expiresAt.Some? ==> s.now + 5 * SECOND <= Item(s, slot).expiresAt.value
  {
    hide StageOf, Inv;
    AboutSlot(s, slot);
  }

  /** Nobody reads an entry while a reply about it is awaited: all reading is under the lock of the key. */
  lemma ReadsAreQuiet(s: State, slot: Slot)
    requires Inv(s)
    requires slot.key !in s.locks || !Awaits(s.callers[s.locks[slot.key]], slot)
    ensures !Open(At(s, slot))
  {
    hide StageOf, Inv;
    AboutSlot(s, slot);
  }

  /** A token that is handed out is the one issued last for the slot that was consulted; if it came from the cache
      it is at least five seconds away from its expiry. */
  lemma HandedIsLatest(s: State, step: Step, id: Caller)
    requires Inv(s) && Enabled(s, step) && Actor(step) == Some(id) && id in s.callers
    requires Next(s, step).callers[id].Done? && Next(s, step).callers[id].outcome.Handed?
    ensures !s.callers[id].Done?
    ensures var slot := Consults(s.callers[id]);
      && Latest(Next(s, step), slot, Next(s, step).callers[id].outcome.access)
      && (step.ReadHint? || step.ReadLocked? ==>
            Item(s, slot).expiresAt.Some? ==> s.now + 5 * SECOND <= Item(s, slot).expiresAt.value)
  {
    hide Inv, StageOf, Judge, Usable, Open;
    match step
    case ReadHint(_, _) =>
      ReadsAreQuiet(s, s.callers[id].hint);
      UsableIsLatest(s, s.callers[id].hint);
    case ReadLocked(_, _) =>
      AboutLock(s, id);
      ReadsAreQuiet(s, s.callers[id].slot);
      UsableIsLatest(s, s.callers[id].slot);
    case GrantReply(_, response) =>
      GrantedIsLatest(s, id, response.value);
    case RefreshReply(_, response, rereadFails) =>
      RefreshedIsLatest(s, id, response.value, rereadFails);
    case _ =>
  }

  lemma GrantedIsLatest(s: State, id: Caller, response: Response)
    requires Inv(s) && Enabled(s, GrantReply(id, Some(response)))
    ensures Latest(Next(s, GrantReply(id, Some(response))), s.callers[id].slot, response.access)
  {
    hide Inv, StageOf;
    AboutCaller(s, id);
    StageSaid(Wire(s, s.callers[id].slot), GrantIssued(response.access, response.refresh));
    assert At(Next(s, GrantReply(id, Some(response))), s.callers[id].slot) ==
           Some(Granted(response.access, response.refresh));
  }

  lemma RefreshedIsLatest(s: State, id: Caller, response: Response, rereadFails: bool)
    requires Inv(s) && Enabled(s, RefreshReply(id, Some(response), rereadFails))
    ensures Latest(Next(s, RefreshReply(id, Some(response), rereadFails)), s.callers[id].slot, response.access)
  {
    hide Inv, StageOf;
    AboutCaller(s, id);
    StageSaid(Wire(s, s.callers[id].slot), RefreshIssued(response.access));
  }

  /** Once a refresh has failed, no step changes the entry or makes a request for the slot, and a caller that
      consults it gets no token: the decision under the lock is an error. */
  lemma DeadStep(s: State, step: Step, slot: Slot)
    requires Inv(s) && Enabled(s, step) && Dead(Item(s, slot))
    ensures Item(Next(s, step), slot) == Item(s, slot) && Wire(Next(s, step), slot) == Wire(s, slot)
    ensures Actor(step).Some? && step.id in s.callers && Consults(s.callers[step.id]) == slot ==>
      var after := Next(s, step).callers[step.id];
      && (after.Done? ==> after.outcome == Failed)
      && (step.Decide? ==> after.Done?)
      && !after.AwaitingGrant? && !after.AwaitingRefresh?
  {
    hide Inv, StageOf;
    AboutSlot(s, slot);
    if Actor(step).Some? && step.id in s.callers {
      AboutCaller(s, step.id);
    }
  }

  lemma {:induction false} FailedRefreshIsFinal(
    states: seq<State>, steps: seq<Step>, i: nat, j: nat, slot: Slot)
    requires IsRun(states, steps) && i <= j < |states| && Dead(Item(states[i], slot))
    ensures Item(states[j], slot) == Item(states[i], slot) && Wire(states[j], slot) == Wire(states[i], slot)
  {
    if i < j {
      FailedRefreshIsFinal(states, steps, i, j - 1, slot);
      RunKeepsInv(states, steps, j - 1);
      DeadStep(states[j - 1], steps[j - 1], slot);
    }
  }

  // ---- The shared maps, updated step by step ----------------------------------------------------------------

  /** The process-wide token and lock maps with the callers at work on them. */
  class Transport {
    var now: int
    var items: map<Slot, Cached>
    var locks: map<string, Caller>
    var callers: map<Caller, Phase>
    ghost var wire: map<Slot, seq<Message>>

    ghost function Current(): State
      reads this
    {
      State(now, items, locks, callers, wire)
    }

    constructor (now: int)
      ensures Current() == Initial(now) && Inv(Current())
    {
      this.now, items, locks, callers, wire := now, map[], map[], map[], map[];
      new;
      InvStarts(now);
    }

    ghost method Say(slot: Slot, message: Message)
      modifies this`wire
      ensures wire == Said(old(Current()), slot, message).wire
    {
      wire := wire[slot := Wire(Current(), slot) + [message]];
    }

    method Store(slot: Slot, token: Cached)
      modifies this`items
      ensures items == Stored(old(items), slot, token)
    {
      if token.access == "" && token.refresh == "" && !token.refreshUsed && !token.refreshFailed {
        return;
      }
      items := items[slot := token];
    }

    method Finish(id: Caller, slot: Slot, outcome: Outcome)
      modifies this`callers, this`locks
      ensures Current() == Finished(old(Current()), id, slot, outcome)
    {
      callers := callers[id := Done(outcome)];
      locks := locks - {slot.key};
    }

    method ReadHint(id: Caller, fails: bool)
      requires Inv(Current()) && Enabled(Current(), Step.ReadHint(id, fails))
      modifies this
      ensures Inv(Current()) && Current() == Next(old(Current()), Step.ReadHint(id, fails))
    {
      InvStep(Current(), Step.ReadHint(id, fails));
      var Arrived(hint, slot) := callers[id];
      if fails {
        callers := callers[id := Done(Failed)];
        return;
      }
      var cached := if hint in items then items[hint] else NOTHING;
      if Usable(cached, now) {
        callers := callers[id := Done(Handed(cached.access))];
        return;
      }
      callers := callers[id := Resolving(slot)];
    }

    method Acquire(id: Caller)
      requires Inv(Current()) && Enabled(Current(), Step.Acquire(id))
      modifies this
      ensures Inv(Current()) && Current() == Next(old(Current()), Step.Acquire(id))
    {
      InvStep(Current(), Step.Acquire(id));
      var slot := callers[id].slot;
      locks := locks[slot.key := id];
      callers := callers[id := Holding(slot)];
    }

    method ReadLocked(id: Caller, fails: bool)
      requires Inv(Current()) && Enabled(Current(), Step.ReadLocked(id, fails))
      modifies this
      ensures Inv(Current()) && Current() == Next(old(Current()), Step.ReadLocked(id, fails))
    {
      InvStep(Current(), Step.ReadLocked(id, fails));
      var slot := callers[id].slot;
      if fails {
        Finish(id, slot, Failed);
        return;
      }
      var cached := if slot in items then items[slot] else NOTHING;
      if Usable(cached, now) {
        Finish(id, slot, Handed(cached.access));
        return;
      }
      callers := callers[id := Checked(slot, cached)];
    }

    method Decide(id: Caller, secretFails: bool, requestFails: bool)
      requires Inv(Current()) && Enabled(Current(), Step.Decide(id, secretFails, requestFails))
      modifies this
      ensures Inv(Current()) && Current() == Next(old(Current()), Step.Decide(id, secretFails, requestFails))
    {
      hide Inv;
      InvStep(Current(), Step.Decide(id, secretFails, requestFails));
      var Checked(slot, cached) := callers[id];
      if cached.refreshFailed {
        Finish(id, slot, Failed);
      } else if cached.refreshUsed {
        Finish(id, slot, Failed);
      } else if cached.access == "" || !ExpiresSoon(cached.expiresAt, now) {
        if requestFails {
          Finish(id, slot, Failed);
        } else {
          Say(slot, GrantAsked);
          callers := callers[id := AwaitingGrant(slot)];
        }
      } else if cached.refresh == "" {
        Finish(id, slot, Failed);
      } else if ExpiresSoon(cached.refreshExpiresAt, now) {
        Finish(id, slot, Failed);
      } else if secretFails {
        Store(slot, MarkedFailed(cached));
        Finish(id, slot, Failed);
      } else if requestFails {
        Finish(id, slot, Failed);
      } else {
        Say(slot, RefreshAsked(cached.refresh));
        callers := callers[id := AwaitingRefresh(slot, cached)];
      }
    }

    method GrantReply(id: Caller, response: Option<Response>)
      requires Inv(Current()) && Enabled(Current(), Step.GrantReply(id, response))
      modifies this
      ensures Inv(Current()) && Current() == Next(old(Current()), Step.GrantReply(id, response))
    {
      hide Inv;
      InvStep(Current(), Step.GrantReply(id, response));
      var slot := callers[id].slot;
      if response.None? {
        Say(slot, GrantDenied);
        Finish(id, slot, Failed);
        return;
      }
      var resolved := FromResponse(response.value, "", false, now);
      Say(slot, GrantIssued(resolved.access, resolved.refresh));
      Store(slot, resolved);
      Finish(id, slot, Handed(resolved.access));
    }

    method RefreshReply(id: Caller, response: Option<Response>, rereadFails: bool)
      requires Inv(Current()) && Enabled(Current(), Step.RefreshReply(id, response, rereadFails))
      modifies this
      ensures Inv(Current()) && Current() == Next(old(Current()), Step.RefreshReply(id, response, rereadFails))
    {
      hide Inv;
      InvStep(Current(), Step.RefreshReply(id, response, rereadFails));
      var AwaitingRefresh(slot, cached) := callers[id];
      if response.None? {
        Say(slot, RefreshDenied);
        Store(slot, MarkedFailed(cached));
        Finish(id, slot, Failed);
        return;
      }
      var refreshed := FromResponse(response.value, cached.refresh, true, now);
      Say(slot, RefreshIssued(refreshed.access));
      Store(slot, refreshed);
      if rereadFails {
        Finish(id, slot, Failed);
      } else {
        Finish(id, slot, Handed(refreshed.access));
      }
    }
  }
}
