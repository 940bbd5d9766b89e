/** How long a transport token is handed out. */
module TokenLifetime {
  import opened Wrappers
  import opened TransportToken

  // When a token is handed out and when it is refreshed: in terms of the replies of the token endpoint over whole runs
  // (pkg/mcp/client/auth.go; sections 4.4 and 6 of RFC 6749).

  // ---- What the replies say ---------------------------------------------------------------------------------

  /** What the endpoint has given for a slot: nothing yet, the token of one reply (with the refresh token that goes
      with it, and whether it came from a refresh), or nothing any more after a refresh that failed. */
  datatype Credit = Never | Issued(at: int, response: Response, refresh: string, spent: bool) | Lost

  /** The slot a caller works on. */
  function SlotOf(s: State, id: Caller): Option<Slot> {
    if id in s.callers && !s.callers[id].Done? then Some(s.callers[id].slot) else None
  }

  /** A lifetime in seconds, counted from `at`, is over in five seconds or less; one of zero or less has no end. */
  predicate RunsOut(at: int, seconds: int, now: int) {
    seconds > 0 && at + seconds * SECOND < now + 5 * SECOND
  }

  /** The token can be handed out. */
  predicate Good(credit: Credit, now: int) {
    credit.Issued? && !RunsOut(credit.at, credit.response.expiresIn, now)
  }

  /** The token has run out and there is a refresh token for it that has not. */
  predicate Due(credit: Credit, now: int) {
    && credit.Issued? && !credit.spent && RunsOut(credit.at, credit.response.expiresIn, now)
    && credit.refresh != "" && !RunsOut(credit.at, credit.response.refreshExpiresIn, now)
  }

  function AfterStep(s: State, step: Step, slot: Slot, credit: Credit): Credit {
    match step
    case GrantReply(id, response) =>
      if SlotOf(s, id) == Some(slot) && response.Some? then Issued(s.now, response.value, response.value.refresh, false)
      else credit
    case RefreshReply(id, response, _) =>
      if SlotOf(s, id) != Some(slot) then credit
      else if response.None? then Lost
      else
        var kept := if credit.Issued? then credit.refresh else "";
        Issued(s.now, response.value, if response.value.refresh != "" then response.value.refresh else kept, true)
    case Decide(id, secretFails, _) =>
      if SlotOf(s, id) == Some(slot) && secretFails && Due(credit, s.now) then Lost else credit
    case Wait(_) => credit
    case Arrive(_, _, _) => credit
    case ReadHint(_, _) => credit
    case GiveUp(_) => credit
    case Acquire(_) => credit
    case ReadLocked(_, _) => credit
  }

  /** What the first `j` steps of a run leave of the endpoint's replies about a slot. */
  function Credits(states: seq<State>, steps: seq<Step>, j: nat, slot: Slot): Credit
    requires |states| == |steps| + 1 && j <= |steps|
  {
    if j == 0 then Never else AfterStep(states[j - 1], steps[j - 1], slot, Credits(states, steps, j - 1, slot))
  }

  // ---- The cache agrees with the replies --------------------------------------------------------------------

  function Until(at: int, seconds: int): Option<int> {
    if seconds > 0 then Some(at + seconds * SECOND) else None
  }

  predicate CreditFits(credit: Credit, token: Cached) {
    match credit
    case Never => token == NOTHING
    case Issued(at, response, refresh, spent) =>
      && response.access != ""
      && token == Cached(response.access, refresh, Until(at, response.expiresIn), Until(at, response.refreshExpiresIn),
                         spent, false)
    case Lost => Dead(token)
  }

  lemma UsableIff(credit: Credit, token: Cached, now: int)
    requires CreditFits(credit, token)
    ensures Usable(token, now) <==> Good(credit, now)
    ensures Good(credit, now) ==> token.access == credit.response.access
  {
  }

  lemma VerdictIs(credit: Credit, token: Cached, now: int)
    requires CreditFits(credit, token) && !Usable(token, now)
    ensures Judge(token, now) == AskForGrant <==> credit == Never
    ensures Judge(token, now) == AskForRefresh <==> Due(credit, now)
    ensures Due(credit, now) ==> token.refresh == credit.refresh
  {
  }

  lemma DecideKeepsCredit(s: State, step: Step, slot: Slot, credit: Credit)
    requires Inv(s) && Enabled(s, step) && CreditFits(credit, Item(s, slot)) && step.Decide?
    ensures CreditFits(AfterStep(s, step, slot, credit), Item(Next(s, step), slot))
  {
    hide Inv, StageOf, Usable, Judge, RunsOut;
    AboutCaller(s, step.id);
    if s.callers[step.id].slot == slot {
      VerdictIs(credit, Item(s, slot), s.now);
    }
  }

  lemma RefreshKeepsCredit(s: State, step: Step, slot: Slot, credit: Credit)
    requires Inv(s) && Enabled(s, step) && CreditFits(credit, Item(s, slot)) && step.RefreshReply?
    ensures CreditFits(AfterStep(s, step, slot, credit), Item(Next(s, step), slot))
  {
    hide Inv, StageOf, Usable, Judge, RunsOut;
    AboutCaller(s, step.id);
    AboutSlot(s, slot);
  }

  lemma CreditStep(s: State, step: Step, slot: Slot, credit: Credit)
    requires Inv(s) && Enabled(s, step) && CreditFits(credit, Item(s, slot))
    ensures CreditFits(AfterStep(s, step, slot, credit), Item(Next(s, step), slot))
  {
    if step.Decide? {
      hide *;
      DecideKeepsCredit(s, step, slot, credit);
    } else if step.RefreshReply? {
      hide *;
      RefreshKeepsCredit(s, step, slot, credit);
    } else {
      hide Inv, Usable, Judge, Due;
    }
  }

  lemma {:induction false} CreditsHold(states: seq<State>, steps: seq<Step>, j: nat, slot: Slot)
    requires IsRun(states, steps) && j < |states|
    ensures CreditFits(Credits(states, steps, j, slot), Item(states[j], slot))
  {
    hide Inv, Next, Enabled, AfterStep, CreditFits;
    if j == 0 {
      NothingAtFirst(states[0].now, slot);
    } else {
      CreditsHold(states, steps, j - 1, slot);
      RunKeepsInv(states, steps, j - 1);
      CreditStep(states[j - 1], steps[j - 1], slot, Credits(states, steps, j - 1, slot));
    }
  }

  lemma NothingAtFirst(now: int, slot: Slot)
    ensures CreditFits(Never, Item(Initial(now), slot))
  {
  }

  // ---- Reading and deciding, by the replies -----------------------------------------------------------------

  /** A look at the cache that does not fail hands out a token if and only if the endpoint has given one that still
      has five seconds; it is the one given last. */
  lemma ReadIff(states: seq<State>, steps: seq<Step>, j: nat, id: Caller)
    requires IsRun(states, steps) && j < |steps|
    requires steps[j] == Step.ReadHint(id, false) || steps[j] == Step.ReadLocked(id, false)
    ensures id in states[j].callers && !states[j].callers[id].Done? && id in states[j + 1].callers
    ensures var credit := Credits(states, steps, j, Consults(states[j].callers[id]));
            var after := states[j + 1].callers[id];
            if Good(credit, states[j].now) then after == Done(Handed(credit.response.access)) else !after.Done?
  {
    hide Inv, StageOf, CreditFits, Usable, Good;
    var s := states[j];
    assert Enabled(s, steps[j]) && states[j + 1] == Next(s, steps[j]);
    var slot := Consults(s.callers[id]);
    CreditsHold(states, steps, j, slot);
    UsableIff(Credits(states, steps, j, slot), Item(s, slot), s.now);
  }

  /** The decision under the lock: a grant is asked for if and only if the endpoint has given nothing yet, a refresh if
      and only if the token has run out and its refresh token has not been tried and has not run out, with exactly that
      refresh token; otherwise, or where the request cannot be made, the caller fails. */
  lemma DecideIff(states: seq<State>, steps: seq<Step>, j: nat, id: Caller, secretFails: bool, requestFails: bool)
    requires IsRun(states, steps) && j < |steps| && steps[j] == Step.Decide(id, secretFails, requestFails)
    ensures id in states[j].callers && states[j].callers[id].Checked? && id in states[j + 1].callers
    ensures var slot := states[j].callers[id].slot;
            var credit, after := Credits(states, steps, j, slot), states[j + 1].callers[id];
            var before, wire := Wire(states[j], slot), Wire(states[j + 1], slot);
            if credit == Never && !requestFails then after == AwaitingGrant(slot) && wire == before + [GrantAsked]
            else if Due(credit, states[j].now) && !secretFails && !requestFails then
              after.AwaitingRefresh? && after.slot == slot && wire == before + [RefreshAsked(credit.refresh)]
            else after == Done(Failed) && wire == before
  {
    hide Inv, StageOf, CreditFits, Usable, Judge, Due;
    var s := states[j];
    assert Enabled(s, steps[j]) && states[j + 1] == Next(s, steps[j]);
    var slot := s.callers[id].slot;
    RunKeepsInv(states, steps, j);
    AboutCaller(s, id);
    CreditsHold(states, steps, j, slot);
    VerdictIs(Credits(states, steps, j, slot), Item(s, slot), s.now);
  }

  // ---- The same by single replies ---------------------------------------------------------------------------

  /** The token that step `i` brings from the endpoint for a slot. */
  function ReplyAt(states: seq<State>, steps: seq<Step>, i: nat, slot: Slot): Option<Response>
    requires |states| == |steps| + 1 && i < |steps|
  {
    match steps[i]
    case GrantReply(id, response) => if SlotOf(states[i], id) == Some(slot) then response else None
    case RefreshReply(id, response, _) => if SlotOf(states[i], id) == Some(slot) then response else None
    case Wait(_) => None
    case Arrive(_, _, _) => None
    case ReadHint(_, _) => None
    case GiveUp(_) => None
    case Acquire(_) => None
    case ReadLocked(_, _) => None
    case Decide(_, _, _) => None
  }

  /** Step `i` fails to refresh the token of a slot, or to make the request for it. */
  predicate FailsAt(states: seq<State>, steps: seq<Step>, i: nat, slot: Slot)
    requires |states| == |steps| + 1 && i < |steps|
  {
    || (steps[i].RefreshReply? && SlotOf(states[i], steps[i].id) == Some(slot) && steps[i].response.None?)
    || (steps[i].Decide? && SlotOf(states[i], steps[i].id) == Some(slot) && steps[i].secretFails)
  }

  /** Step `i` brought the last token for the slot before step `j`. */
  ghost predicate LastReply(states: seq<State>, steps: seq<Step>, i: nat, j: nat, slot: Slot)
    requires |states| == |steps| + 1 && j <= |steps|
  {
    && i < j && ReplyAt(states, steps, i, slot).Some?
    && forall k | i < k < j :: ReplyAt(states, steps, k, slot).None?
  }

  /** What is credited is the token of the last reply, at the time of that reply. */
  lemma {:induction false} CreditIsLastReply(states: seq<State>, steps: seq<Step>, j: nat, slot: Slot) returns (i: nat)
    requires |states| == |steps| + 1 && j <= |steps| && Credits(states, steps, j, slot).Issued?
    ensures LastReply(states, steps, i, j, slot)
    ensures var credit := Credits(states, steps, j, slot);
      && credit.at == states[i].now && Some(credit.response) == ReplyAt(states, steps, i, slot)
      && (credit.spent <==> steps[i].RefreshReply?) && (!credit.spent ==> credit.refresh == credit.response.refresh)
    decreases j
  {
    if ReplyAt(states, steps, j - 1, slot).Some? {
      i := j - 1;
    } else {
      i := CreditIsLastReply(states, steps, j - 1, slot);
    }
  }

  lemma {:induction false} LastReplyIsCredit(states: seq<State>, steps: seq<Step>, i: nat, j: nat, slot: Slot)
    requires |states| == |steps| + 1 && j <= |steps| && LastReply(states, steps, i, j, slot)
    requires forall k | i < k < j :: !FailsAt(states, steps, k, slot)
    ensures var credit := Credits(states, steps, j, slot);
      && credit.Issued? && credit.at == states[i].now && Some(credit.response) == ReplyAt(states, steps, i, slot)
      && (credit.spent <==> steps[i].RefreshReply?) && (!credit.spent ==> credit.refresh == credit.response.refresh)
    decreases j
  {
    hide Due;
    if i < j - 1 {
      assert ReplyAt(states, steps, j - 1, slot).None? && !FailsAt(states, steps, j - 1, slot);
      LastReplyIsCredit(states, steps, i, j - 1, slot);
    }
  }

  /** A token that is handed out from the cache was brought by the last reply about the slot, and unless that reply gave
      it no lifetime, at least five seconds of that lifetime are left. */
  lemma HandedInTime(states: seq<State>, steps: seq<Step>, j: nat, id: Caller) returns (i: nat)
    requires IsRun(states, steps) && j < |steps|
    requires (steps[j].ReadHint? || steps[j].ReadLocked?) && steps[j].id == id
    requires id in states[j + 1].callers && states[j + 1].callers[id].Done? && states[j + 1].callers[id].outcome.Handed?
    ensures id in states[j].callers && !states[j].callers[id].Done?
    ensures LastReply(states, steps, i, j, Consults(states[j].callers[id]))
    ensures var response := ReplyAt(states, steps, i, Consults(states[j].callers[id])).value;
      && response.access == states[j + 1].callers[id].outcome.access
      && (response.expiresIn > 0 ==> states[j].now + 5 * SECOND <= states[i].now + response.expiresIn * SECOND)
  {
    assert Enabled(states[j], steps[j]) && states[j + 1] == Next(states[j], steps[j]);
    assert !steps[j].fails;
    ReadIff(states, steps, j, id);
    i := CreditIsLastReply(states, steps, j, Consults(states[j].callers[id]));
  }

  /** A token that still has five seconds is handed out to every caller that reads it. */
  lemma InTimeIsHanded(states: seq<State>, steps: seq<Step>, i: nat, j: nat, id: Caller, slot: Slot)
    requires IsRun(states, steps) && j < |steps|
    requires steps[j] == Step.ReadHint(id, false) || steps[j] == Step.ReadLocked(id, false)
    requires id in states[j].callers && !states[j].callers[id].Done? && Consults(states[j].callers[id]) == slot
    requires LastReply(states, steps, i, j, slot) && forall k | i < k < j :: !FailsAt(states, steps, k, slot)
    requires var expiresIn := ReplyAt(states, steps, i, slot).value.expiresIn;
             expiresIn > 0 ==> states[j].now + 5 * SECOND <= states[i].now + expiresIn * SECOND
    ensures id in states[j + 1].callers
    ensures states[j + 1].callers[id] == Done(Handed(ReplyAt(states, steps, i, slot).value.access))
  {
    LastReplyIsCredit(states, steps, i, j, slot);
    ReadIff(states, steps, j, id);
  }

  /** A granted token past that margin, whose refresh has not been tried, leads to the request that sends its refresh
      token, unless there is none or its own lifetime has run out. */
  lemma PastMarginIsRefreshed(states: seq<State>, steps: seq<Step>, i: nat, j: nat, id: Caller, slot: Slot)
    requires IsRun(states, steps) && j < |steps| && steps[j] == Step.Decide(id, false, false)
    requires SlotOf(states[j], id) == Some(slot) && LastReply(states, steps, i, j, slot) && steps[i].GrantReply?
    requires forall k | i < k < j :: !FailsAt(states, steps, k, slot)
    requires var response := ReplyAt(states, steps, i, slot).value;
      && response.expiresIn > 0 && states[i].now + response.expiresIn * SECOND < states[j].now + 5 * SECOND
      && response.refresh != ""
      && (response.refreshExpiresIn > 0 ==>
            states[j].now + 5 * SECOND <= states[i].now + response.refreshExpiresIn * SECOND)
    ensures id in states[j + 1].callers && states[j + 1].callers[id].AwaitingRefresh?
    ensures Wire(states[j + 1], slot) ==
            Wire(states[j], slot) + [RefreshAsked(ReplyAt(states, steps, i, slot).value.refresh)]
  {
    LastReplyIsCredit(states, steps, i, j, slot);
    DecideIff(states, steps, j, id, false, false);
  }
}
