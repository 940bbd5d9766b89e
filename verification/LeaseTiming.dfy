/** When session leases and drains come to their end. */
module LeaseTiming {
  import opened SessionLease
  import Text

  // ---- Timers -----------------------------------------------------------------------------------------------

  // When the timer of a lease is due and what it records, and how a drain ends: over whole runs of the server, with the
  // settings written out (internal/runtime/server.go).

  /** The time between two heartbeats times the number that may be missed, in nanoseconds. */
  function Allowance(settings: Settings): int {
    settings.heartbeatSeconds * settings.missedLimit * SECOND
  }

  /** Step `i` renews the lease of a session, and arms timer `t` for it. */
  ghost predicate ArmsAt(states: seq<State>, steps: seq<Step>, i: nat, session: string, t: nat)
    requires |states| == |steps| + 1
  {
    && i < |steps| && steps[i].CommitRenew? && steps[i].id in states[i].renewals
    && states[i].renewals[steps[i].id].session == session && |states[i].timers| == t
  }

  /** Step `b` begins the renewal `id` of a session, which is still under way at step `i`. */
  ghost predicate BeginsAt(states: seq<State>, steps: seq<Step>, b: nat, i: nat, id: nat, session: string)
    requires |states| == |steps| + 1
  {
    && b < i <= |steps| && steps[b] == BeginRenew(id, session)
    && forall k | b < k <= i :: id in states[k].renewals
  }

  /** Timers keep what they were armed with. */
  ghost predicate Kept(before: seq<Timer>, after: seq<Timer>) {
    && |before| <= |after|
    && forall t | 0 <= t < |before| ::
         && after[t].session == before[t].session && after[t].expiresAt == before[t].expiresAt
         && after[t].fireAt == before[t].fireAt
  }

  lemma StopKeeps(timers: seq<Timer>, leases: map<string, Lease>, t: nat)
    ensures Kept(timers, timers) && Kept(timers, StopTimer(timers, t)) && Kept(timers, StopAll(timers, leases))
  {
  }

  lemma PhaseKeeps(timers: seq<Timer>, t: nat, phase: TimerPhase)
    requires t < |timers|
    ensures Kept(timers, timers[t := timers[t].(phase := phase)])
  {
  }

  /** Timers keep for ever what they were armed with, and are armed one at a time by renewals. */
  lemma TimersKept(settings: Settings, s: State, step: Step)
    requires Enabled(settings, s, step)
    ensures var s' := Next(settings, s, step);
            |s'.timers| == |s.timers| + (if step.CommitRenew? then 1 else 0) && Kept(s.timers, s'.timers)
  {
    hide StopTimer, StopAll, Business, Kept;
    var session := if step.Remove? then step.session
                   else if step.CommitRenew? then s.renewals[step.id].session else "";
    var t := if session in s.leases then s.leases[session].timer else |s.timers|;
    StopKeeps(s.timers, s.leases, t);
    if step.CommitRenew? {
      RenewedTimers(settings, s, step.id);
    } else if step.Fire? || step.Expire? {
      PhaseKeeps(s.timers, step.timer, if step.Fire? then Fired else Processed);
    }
  }

  lemma RenewedTimers(settings: Settings, s: State, id: nat)
    requires id in s.renewals
    ensures |Renewed(settings, s, id).timers| == |s.timers| + 1 && Kept(s.timers, Renewed(settings, s, id).timers)
  {
    hide StopTimer;
    var Renewal(session, expiresAt) := s.renewals[id];
    StopKeeps(s.timers, s.leases, if session in s.leases then s.leases[session].timer else |s.timers|);
  }

  lemma ArmedTimer(settings: Settings, s: State, id: nat)
    requires id in s.renewals
    ensures var timer := Renewed(settings, s, id).timers[|s.timers|];
            && timer.session == s.renewals[id].session && timer.expiresAt == s.renewals[id].expiresAt
            && timer.fireAt == s.now + Allowance(settings)
  {
  }

  /** Every timer was armed by a renewal of its session, and is due the allowance after that. */
  lemma {:induction false} TimerHistory(settings: Settings, states: seq<State>, steps: seq<Step>, j: nat, t: nat)
    returns (i: nat)
    requires IsRun(settings, states, steps) && j < |states| && t < |states[j].timers|
    ensures i < j && ArmsAt(states, steps, i, states[j].timers[t].session, t)
    ensures states[j].timers[t].expiresAt == states[i].renewals[steps[i].id].expiresAt
    ensures states[j].timers[t].fireAt == states[i].now + Allowance(settings)
  {
    hide Next, Enabled;
    assert states[0].timers == [];
    var s, step := states[j - 1], steps[j - 1];
    assert Enabled(settings, s, step) && states[j] == Next(settings, s, step);
    TimersKept(settings, s, step);
    if t < |s.timers| {
      i := TimerHistory(settings, states, steps, j - 1, t);
    } else {
      i := j - 1;
      CommitMeans(settings, s, step);
      ArmedTimer(settings, s, step.id);
    }
  }

  lemma CommitMeans(settings: Settings, s: State, step: Step)
    requires Enabled(settings, s, step) && step.CommitRenew?
    ensures step.id in s.renewals && Next(settings, s, step) == Renewed(settings, s, step.id)
  {
  }

  lemma RenewalsKept(settings: Settings, s: State, step: Step, id: nat)
    requires Enabled(settings, s, step) && id in Next(settings, s, step).renewals
    ensures id in s.renewals ==> Next(settings, s, step).renewals[id] == s.renewals[id]
    ensures id !in s.renewals ==>
      && step.BeginRenew? && step.id == id
      && Next(settings, s, step).renewals[id] == Renewal(step.session, s.now + Allowance(settings))
  {
    hide Business;
  }

  /** Every renewal under way was begun by a heartbeat of its session, and records the time of that and the
      allowance. */
  lemma {:induction false} RenewalHistory(settings: Settings, states: seq<State>, steps: seq<Step>, j: nat, id: nat)
    returns (b: nat)
    requires IsRun(settings, states, steps) && j < |states| && id in states[j].renewals
    ensures BeginsAt(states, steps, b, j, id, states[j].renewals[id].session)
    ensures states[j].renewals[id].expiresAt == states[b].now + Allowance(settings)
  {
    hide Next, Enabled;
    assert states[0].renewals == map[];
    var s, step := states[j - 1], steps[j - 1];
    assert Enabled(settings, s, step) && states[j] == Next(settings, s, step);
    RenewalsKept(settings, s, step, id);
    if id in s.renewals {
      b := RenewalHistory(settings, states, steps, j - 1, id);
    } else {
      b := j - 1;
    }
  }

  /** Renewals are begun exactly where both settings are positive. */
  lemma BeginsIff(settings: Settings, s: State, id: nat, session: string)
    ensures Enabled(settings, s, BeginRenew(id, session)) <==>
            settings.heartbeatSeconds > 0 && settings.missedLimit > 0 && id !in s.renewals
    ensures Enabled(settings, s, CommitRenew(id)) <==> id in s.renewals
  {
  }

  /** The current timer of every lease was armed by the last renewal of its session, at a step `i`; it records the time
      at which that renewal began and the allowance, and so does the lease. From the time of step `i` and the allowance
      on, and not before, the timer can fire; and once it has fired its callback can run and the lease goes. */
  lemma LeaseEndsInTime(settings: Settings, states: seq<State>, steps: seq<Step>, j: nat, session: string)
    returns (b: nat, i: nat)
    requires IsRun(settings, states, steps) && j < |states| && session in states[j].leases
    ensures b < i < j && ArmsAt(states, steps, i, session, states[j].leases[session].timer)
    ensures BeginsAt(states, steps, b, i, steps[i].id, session)
    ensures states[j].leases[session].expiresAt ==
            states[b].now + settings.heartbeatSeconds * settings.missedLimit * SECOND
    ensures var s, t := states[j], states[j].leases[session].timer;
            var due := states[i].now + settings.heartbeatSeconds * settings.missedLimit * SECOND;
            && t < |s.timers| && (s.timers[t].phase == Armed || s.timers[t].phase == Fired)
            && (s.timers[t].phase == Armed ==> (Enabled(settings, s, Fire(t)) <==> due <= s.now))
            && (s.timers[t].phase == Fired ==> due <= s.now && Enabled(settings, s, Expire(t)))
            && (due <= s.now ==>
                  var fired := if s.timers[t].phase == Armed then Next(settings, s, Fire(t)) else s;
                  Enabled(settings, fired, Expire(t)) && session !in Next(settings, fired, Expire(t)).leases)
  {
    hide Inv, ArmsAt, BeginsAt;
    RunKeepsInv(settings, states, steps, j);
    OwnTimer(settings, states[j], session);
    var t := states[j].leases[session].timer;
    i := TimerHistory(settings, states, steps, j, t);
    ArmsIsRenewal(states, steps, i, session, t);
    b := RenewalHistory(settings, states, steps, i, steps[i].id);
    BeginsBefore(states, steps, b, i, steps[i].id, session);
  }

  lemma ArmsIsRenewal(states: seq<State>, steps: seq<Step>, i: nat, session: string, t: nat)
    requires |states| == |steps| + 1 && ArmsAt(states, steps, i, session, t)
    ensures i < |steps| && steps[i].CommitRenew? && steps[i].id in states[i].renewals
    ensures states[i].renewals[steps[i].id].session == session
  {
  }

  lemma BeginsBefore(states: seq<State>, steps: seq<Step>, b: nat, i: nat, id: nat, session: string)
    requires |states| == |steps| + 1 && BeginsAt(states, steps, b, i, id, session)
    ensures b < i
  {
  }

  lemma OwnTimer(settings: Settings, s: State, session: string)
    requires Inv(settings, s) && session in s.leases
    ensures var t := s.leases[session].timer;
      && t < |s.timers| && TimerFits(s, t)
      && s.timers[t].session == session && s.timers[t].expiresAt == s.leases[session].expiresAt
      && (s.timers[t].phase == Armed || s.timers[t].phase == Fired)
  {
    assert HasOwnTimer(s, session);
  }

  /** A renewal gives its session a new armed timer, leaves the one before it no longer armed, and changes no other
      lease. */
  lemma RenewalGivesLease(settings: Settings, s: State, id: nat)
    requires Inv(settings, s) && id in s.renewals
    ensures var s', session := Next(settings, s, Step.CommitRenew(id)), s.renewals[id].session;
            && s'.leases.Keys == s.leases.Keys + {session}
            && (forall other | other in s.leases && other != session :: s'.leases[other] == s.leases[other])
            && s'.leases[session].timer == |s.timers| < |s'.timers| && s'.timers[|s.timers|].phase == Armed
            && (session in s.leases ==>
                  s.leases[session].timer < |s.timers| && s'.timers[s.leases[session].timer].phase != Armed)
  {
    if s.renewals[id].session in s.leases {
      OwnTimer(settings, s, s.renewals[id].session);
    }
    hide Inv;
  }

  /** Otherwise leases only go: by closing their session or the server, or by a timer that still stands for the expiry
      they record. */
  lemma LeasesAfter(settings: Settings, s: State, step: Step)
    requires Enabled(settings, s, step) && !step.CommitRenew?
    ensures var s' := Next(settings, s, step);
            s'.leases ==
            if step.Remove? then s.leases - {step.session}
            else if step.CloseAll? then map[]
            else if && step.Expire? && s.timers[step.timer].session in s.leases
                    && s.leases[s.timers[step.timer].session].expiresAt == s.timers[step.timer].expiresAt
            then s.leases - {s.timers[step.timer].session}
            else s.leases
  {
    hide StopAll, StopTimer, Business, Renewed;
  }

  // ---- Drains -----------------------------------------------------------------------------------------------

  lemma DeletedDrains(settings: Settings, s: State, session: string, reason: Reason)
    requires session in s.leases
    ensures var s' := Deleted(settings, s, session, reason);
            && s.leases != map[] && s'.leases == s.leases - {session}
            && s'.drains == s.drains + if s'.leases == map[] && settings.ownerExits && settings.hook
                                       then [Drain(reason, Starting)] else []
  {
    if |s.leases - {session}| == 0 {
      assert (s.leases - {session}).Keys == {};
    }
  }

  lemma OtherStepsDrain(settings: Settings, s: State, step: Step)
    requires Enabled(settings, s, step) && !step.Expire? && !step.Remove?
    ensures |Next(settings, s, step).drains| == |s.drains|
  {
    hide StopTimer, StopAll, Business, Expired, Removed;
  }

  /** A drain begins with a step if and only if that step, an expiry or a close, deletes the last lease, the owner's
      exit ends the server, and there is a hook. */
  lemma DrainBeginsIff(settings: Settings, s: State, step: Step)
    requires Enabled(settings, s, step)
    ensures var s' := Next(settings, s, step);
            && (|s'.drains| > |s.drains| <==>
                  && (step.Expire? || step.Remove?) && s.leases != map[] && s'.leases == map[]
                  && settings.ownerExits && settings.hook)
            && (|s'.drains| > |s.drains| ==>
                  s'.drains == s.drains + [Drain(if step.Expire? then Expiry else Close, Starting)])
  {
    hide StopTimer, StopAll, Renewed, Deleted;
    if step.Expire? {
      var t := step.timer;
      var session, done := s.timers[t].session, s.(timers := s.timers[t := s.timers[t].(phase := Processed)]);
      if session in s.leases {
        DeletedDrains(settings, done, session, Expiry);
      }
    } else if step.Remove? {
      if step.session in s.leases {
        var done := s.(timers := StopTimer(s.timers, s.leases[step.session].timer));
        DeletedDrains(settings, done, step.session, Close);
      }
    } else {
      OtherStepsDrain(settings, s, step);
    }
  }

  /** All requests under way are for the runtime management paths. */
  ghost predicate Quiet(s: State) {
    forall request | request in s.requests :: Text.HasPrefix(s.requests[request], "/v1/runtime/")
  }

  lemma QuietIff(s: State)
    ensures Quiet(s) <==> Business(s.requests) == {}
  {
    if !Quiet(s) {
      var request :| request in s.requests && !Text.HasPrefix(s.requests[request], "/v1/runtime/");
      assert request in Business(s.requests);
    }
  }

  /** One turn of a drain that began at step `start` comes to the hook if and only if nothing but runtime management is
      under way, or the grace period since then is over; then the hook can be called, and otherwise there is another
      turn. */
  lemma DrainComesToItsEnd(settings: Settings, states: seq<State>, steps: seq<Step>, j: nat, d: nat)
    returns (start: nat)
    requires IsRun(settings, states, steps) && j < |states| && d < |states[j].drains|
    requires states[j].drains[d].wait.Looping?
    ensures start < j && steps[start] == StartDrain(d) && Enabled(settings, states[j], ReadInflight(d))
    ensures var read := Next(settings, states[j], ReadInflight(d));
            if Quiet(states[j]) then Enabled(settings, read, CallHook(d))
            else
              && Enabled(settings, read, CheckDeadline(d))
              && var checked := Next(settings, read, CheckDeadline(d));
              if states[start].now + settings.grace <= states[j].now then Enabled(settings, checked, CallHook(d))
              else checked.drains[d] == states[j].drains[d]
  {
    hide Inv, History, Business, Quiet;
    RunKeepsInv(settings, states, steps, j);
    DrainHistory(settings, states, steps, j, d);
    QuietIff(states[j]);
    CounterIsBusiness(settings, states[j]);
    start := LoopingSince(settings, states, steps, j, d);
  }

  lemma CounterIsBusiness(settings: Settings, s: State)
    requires Inv(settings, s)
    ensures s.inflight > 0 <==> Business(s.requests) != {}
  {
  }

  lemma LoopingSince(settings: Settings, states: seq<State>, steps: seq<Step>, j: nat, d: nat) returns (start: nat)
    requires |states| == |steps| + 1 && j < |states| && d < |states[j].drains|
    requires History(settings, states, steps, j, d) && states[j].drains[d].wait.Looping?
    ensures start < j && steps[start] == StartDrain(d)
    ensures states[j].drains[d].wait.deadline == states[start].now + settings.grace
  {
    start :| StartedAt(steps, j, d, start)
             && states[j].drains[d].wait.deadline == states[start].now + settings.grace;
  }

  /** A drain that has begun can start, which does nothing but begin its grace period; one that has come to the hook can
      call it. */
  lemma DrainGoesOn(settings: Settings, s: State, d: nat)
    requires d < |s.drains|
    ensures s.drains[d].wait.Starting? ==>
      Enabled(settings, s, StartDrain(d)) && Next(settings, s, StartDrain(d)).drains[d].wait.Looping?
    ensures s.drains[d].wait.Ready? ==>
      Enabled(settings, s, CallHook(d)) && Next(settings, s, CallHook(d)).drains[d].wait.Finished?
  {
  }

  /** The hook is called only after its drain has found nothing but runtime management under way, or has waited for the
      grace period. */
  lemma HookNeedsQuiet(settings: Settings, states: seq<State>, steps: seq<Step>, k: nat, d: nat)
    returns (start: nat, at: nat)
    requires IsRun(settings, states, steps) && k < |steps| && steps[k] == CallHook(d)
    ensures start < at < k && steps[start] == StartDrain(d)
    ensures Quiet(states[at]) || states[start].now + settings.grace <= states[at].now
  {
    HookIsEarned(settings, states, steps, k, d);
    start, at :| StartedAt(steps, k, d, start) && start < at < k && EarnedAt(settings, states, steps, d, start, at);
    QuietIff(states[at]);
  }
}
