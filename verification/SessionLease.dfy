/** Session leases, their timers and the drain before shutdown (internal/runtime/server.go). */
module SessionLease {
  import Text

  // Timers may fire after they were superseded; the lease map has one lock; times are nanoseconds.

  const SECOND := 1_000_000_000

  /** The configuration of the server that matters here. */
  datatype Settings = Settings(heartbeatSeconds: int, missedLimit: int, grace: int, ownerExits: bool, hook: bool) {
    predicate LifecycleEnabled() {
      heartbeatSeconds > 0 && missedLimit > 0
    }

    function Ttl(): int {
      heartbeatSeconds * missedLimit * SECOND
    }

    /** Whether emptying the lease map starts a drain. */
    predicate Drains() {
      ownerExits && hook
    }
  }

  /** `Fired`: the callback has started and waits for the lock, so that stopping the timer comes too late. */
  datatype TimerPhase = Armed | Fired | Stopped | Processed

  datatype Timer = Timer(session: string, expiresAt: int, fireAt: int, phase: TimerPhase)

  datatype Lease = Lease(expiresAt: int, timer: nat)

  /** A heartbeat that has computed its expiry and not yet taken the lock. */
  datatype Renewal = Renewal(session: string, expiresAt: int)

  datatype Reason = Expiry | Close

  /** A critical section of `expireLease` or `removeLease` that deleted a lease, and how many were left. */
  datatype Section = Section(reason: Reason, session: string, remaining: nat)

  datatype Wait = Starting | Looping(deadline: int) | Busy(deadline: int) | Ready | Finished

  datatype Drain = Drain(reason: Reason, wait: Wait)

  datatype State = State(
    now: int, leases: map<string, Lease>, timers: seq<Timer>, renewals: map<nat, Renewal>,
    requests: map<nat, string>, inflight: int, drains: seq<Drain>, log: seq<Section>)

  function Initial(now: int): State {
    State(now, map[], [], map[], map[], 0, [], [])
  }

  /** The atomic steps: critical sections of the lease lock, atomic counter operations, clock readings. */
  datatype Step =
    | Wait(until: int)
    | BeginRenew(id: nat, session: string)
    | CommitRenew(id: nat)
    | Fire(timer: nat)
    | Expire(timer: nat)
    | Remove(session: string)
    | CloseAll
    | Enter(request: nat, path: string)
    | Leave(request: nat)
    | StartDrain(drain: nat)
    | ReadInflight(drain: nat)
    | CheckDeadline(drain: nat)
    | CallHook(drain: nat)

  predicate Enabled(settings: Settings, s: State, step: Step) {
    match step
    case Wait(until) => s.now <= until
    case BeginRenew(id, _) => settings.LifecycleEnabled() && id !in s.renewals
    case CommitRenew(id) => id in s.renewals
    case Fire(t) => t < |s.timers| && s.timers[t].phase == Armed && s.timers[t].fireAt <= s.now
    case Expire(t) => t < |s.timers| && s.timers[t].phase == Fired
    case Remove(_) => true
    case CloseAll => true
    case Enter(request, _) => request !in s.requests
    case Leave(request) => request in s.requests
    case StartDrain(d) => d < |s.drains| && s.drains[d].wait.Starting?
    case ReadInflight(d) => d < |s.drains| && s.drains[d].wait.Looping?
    case CheckDeadline(d) => d < |s.drains| && s.drains[d].wait.Busy?
    case CallHook(d) => d < |s.drains| && s.drains[d].wait.Ready?
  }

  /** Stopping a timer has an effect only before it fires. */
  function StopTimer(timers: seq<Timer>, t: nat): (r: seq<Timer>)
    ensures |r| == |timers|
  {
    if t < |timers| && timers[t].phase == Armed then timers[t := timers[t].(phase := Stopped)] else timers
  }

  /** `CloseWithContext` stops the timer of every lease. */
  function StopAll(timers: seq<Timer>, leases: map<string, Lease>): (r: seq<Timer>)
    ensures |r| == |timers|
  {
    seq(|timers|, i requires 0 <= i < |timers| =>
      if timers[i].phase == Armed && exists session :: session in leases && leases[session].timer == i
      then timers[i].(phase := Stopped) else timers[i])
  }

  predicate IsBusiness(path: string) {
    !Text.HasPrefix(path, "/v1/runtime/")
  }

  /** A lease is deleted; when it was the last one and the owner's exit ends the server, a drain begins. */
  function Deleted(settings: Settings, s: State, session: string, reason: Reason): (r: State)
    ensures r.now == s.now && r.requests == s.requests && r.inflight == s.inflight && r.timers == s.timers
  {
    var leases := s.leases - {session};
    s.(leases := leases,
       log := s.log + [Section(reason, session, |leases|)],
       drains := if |leases| == 0 && settings.Drains() then s.drains + [Drain(reason, Starting)] else s.drains)
  }

  /** `renewLease` under the lock. */
  function Renewed(settings: Settings, s: State, id: nat): (r: State)
    requires id in s.renewals
    ensures r.now == s.now && r.requests == s.requests && r.inflight == s.inflight
    ensures r.drains == s.drains && r.log == s.log
  {
    var Renewal(session, expiresAt) := s.renewals[id];
    var timers := if session in s.leases then StopTimer(s.timers, s.leases[session].timer) else s.timers;
    s.(renewals := s.renewals - {id},
       timers := timers + [Timer(session, expiresAt, s.now + settings.Ttl(), Armed)],
       leases := s.leases[session := Lease(expiresAt, |timers|)])
  }

  /** `expireLease`, called by timer `t`. */
  function Expired(settings: Settings, s: State, t: nat): (r: State)
    requires t < |s.timers|
    ensures r.now == s.now && r.requests == s.requests && r.inflight == s.inflight
  {
    var Timer(session, expiresAt, _, _) := s.timers[t];
    var done := s.(timers := s.timers[t := s.timers[t].(phase := Processed)]);
    if session in s.leases && s.leases[session].expiresAt == expiresAt
    then Deleted(settings, done, session, Expiry) else done
  }

  /** `removeLease`. */
  function Removed(settings: Settings, s: State, session: string): (r: State)
    ensures r.now == s.now && r.requests == s.requests && r.inflight == s.inflight
  {
    if session in s.leases
    then Deleted(settings, s.(timers := StopTimer(s.timers, s.leases[session].timer)), session, Close) else s
  }

  function Waiting(s: State, d: nat, wait: Wait): State
    requires d < |s.drains|
  {
    s.(drains := s.drains[d := s.drains[d].(wait := wait)])
  }

  function Next(settings: Settings, s: State, step: Step): State
    requires Enabled(settings, s, step)
  {
    match step
    case Wait(until) => s.(now := until)
    case BeginRenew(id, session) =>
      s.(renewals := s.renewals[id := Renewal(session, s.now + settings.Ttl())])
    case CommitRenew(id) => Renewed(settings, s, id)
    case Fire(t) => s.(timers := s.timers[t := s.timers[t].(phase := Fired)])
    case Expire(t) => Expired(settings, s, t)
    case Remove(session) => Removed(settings, s, session)
    case CloseAll => s.(timers := StopAll(s.timers, s.leases), leases := map[])
    case Enter(request, path) =>
      s.(requests := s.requests[request := path], inflight := s.inflight + if IsBusiness(path) then 1 else 0)
    case Leave(request) =>
      s.(requests := s.requests - {request}, inflight := s.inflight - if IsBusiness(s.requests[request]) then 1 else 0)
    case StartDrain(d) => Waiting(s, d, Looping(s.now + settings.grace))
    case ReadInflight(d) => Waiting(s, d, if s.inflight > 0 then Busy(s.drains[d].wait.deadline) else Ready)
    case CheckDeadline(d) =>
      var deadline := s.drains[d].wait.deadline;
      Waiting(s, d, if s.now < deadline then Looping(deadline) else Ready)
    case CallHook(d) => Waiting(s, d, Finished)
  }

  ghost predicate IsRun(settings: Settings, states: seq<State>, steps: seq<Step>) {
    && |states| == |steps| + 1
    && states[0] == Initial(states[0].now)
    && forall i | 0 <= i < |steps| ::
         Enabled(settings, states[i], steps[i]) && states[i + 1] == Next(settings, states[i], steps[i])
  }

  // ---- The invariant ----------------------------------------------------------------------------------------

  /** A callback that has started is late enough for its lease, and no timer fires before that. */
  predicate TimerFits(s: State, t: nat)
    requires t < |s.timers|
  {
    && s.timers[t].expiresAt <= s.timers[t].fireAt
    && (s.timers[t].phase == Fired ==> s.timers[t].fireAt <= s.now)
  }

  /** Every lease has its own timer, armed or fired and unprocessed. */
  predicate HasOwnTimer(s: State, session: string)
    requires session in s.leases
  {
    var Lease(expiresAt, t) := s.leases[session];
    && t < |s.timers|
    && s.timers[t].session == session && s.timers[t].expiresAt == expiresAt
    && (s.timers[t].phase == Armed || s.timers[t].phase == Fired)
  }

  function Business(requests: map<nat, string>): set<nat> {
    set request | request in requests && IsBusiness(requests[request])
  }

  /** The reasons of the critical sections that deleted the last lease, in order. */
  function Emptyings(log: seq<Section>): seq<Reason> {
    if log == [] then []
    else
      var last := log[|log| - 1];
      Emptyings(log[..|log| - 1]) + if last.remaining == 0 then [last.reason] else []
  }

  function Reasons(drains: seq<Drain>): (r: seq<Reason>)
    ensures |r| == |drains|
  {
    seq(|drains|, i requires 0 <= i < |drains| => drains[i].reason)
  }

  /** The drains correspond one to one, in order, with the critical sections that emptied the lease map. */
  ghost predicate DrainsFit(settings: Settings, s: State) {
    Reasons(s.drains) == if settings.Drains() then Emptyings(s.log) else []
  }

  ghost predicate LeasesFit(settings: Settings, s: State) {
    && (forall t | 0 <= t < |s.timers| :: TimerFits(s, t))
    && (forall session | session in s.leases :: HasOwnTimer(s, session))
    && (forall id | id in s.renewals :: s.renewals[id].expiresAt <= s.now + settings.Ttl())
  }

  ghost predicate Inv(settings: Settings, s: State) {
    && LeasesFit(settings, s)
    && DrainsFit(settings, s)
    && s.inflight == |Business(s.requests)|
  }

  lemma InvStarts(settings: Settings, now: int)
    ensures Inv(settings, Initial(now))
  {
    assert Business(map[]) == {};
    assert Reasons([]) == [];
  }

  /** Stopping one timer leaves every other one alone. */
  lemma OtherTimerKept(timers: seq<Timer>, t: nat, stopped: nat)
    requires t < |timers| && t != stopped
    ensures StopTimer(timers, stopped)[t] == timers[t]
  {
  }

  lemma RenewedLeases(settings: Settings, s: State, id: nat)
    requires LeasesFit(settings, s) && id in s.renewals
    ensures LeasesFit(settings, Renewed(settings, s, id))
  {
    var s' := Renewed(settings, s, id);
    var stopped := s.renewals[id].session;
    forall t: nat | t < |s'.timers| ensures TimerFits(s', t) {
      if t < |s.timers| {
        assert TimerFits(s, t);
      }
    }
    assert stopped in s.leases ==> HasOwnTimer(s, stopped);
    forall session | session in s'.leases ensures HasOwnTimer(s', session) {
      if session != stopped {
        assert HasOwnTimer(s, session);
        OtherTimerKept(s.timers, s.leases[session].timer,
                       if stopped in s.leases then s.leases[stopped].timer else |s.timers|);
      }
    }
  }

  lemma ExpiredLeases(settings: Settings, s: State, t: nat)
    requires LeasesFit(settings, s) && t < |s.timers|
    ensures LeasesFit(settings, Expired(settings, s, t))
  {
    hide Emptyings;
    var s' := Expired(settings, s, t);
    assert s'.timers == s.timers[t := s.timers[t].(phase := Processed)];
    forall u: nat | u < |s'.timers| ensures TimerFits(s', u) {
      assert TimerFits(s, u);
    }
    forall session | session in s'.leases ensures HasOwnTimer(s', session) {
      assert HasOwnTimer(s, session);
      var own := s.leases[session].timer;
      assert own != t;
      assert s'.timers[own] == s.timers[own];
    }
  }

  lemma RemovedLeases(settings: Settings, s: State, removed: string)
    requires LeasesFit(settings, s)
    ensures LeasesFit(settings, Removed(settings, s, removed))
  {
    var s' := Removed(settings, s, removed);
    forall t: nat | t < |s'.timers| ensures TimerFits(s', t) {
      assert TimerFits(s, t);
    }
    assert removed in s.leases ==> HasOwnTimer(s, removed);
    forall session | session in s'.leases ensures HasOwnTimer(s', session) {
      assert HasOwnTimer(s, session);
      if removed in s.leases {
        OtherTimerKept(s.timers, s.leases[session].timer, s.leases[removed].timer);
      }
    }
  }

  lemma FiredLeases(settings: Settings, s: State, t: nat)
    requires LeasesFit(settings, s) && Enabled(settings, s, Fire(t))
    ensures LeasesFit(settings, Next(settings, s, Fire(t)))
  {
    var s' := Next(settings, s, Fire(t));
    forall u: nat | u < |s'.timers| ensures TimerFits(s', u) {
      assert TimerFits(s, u);
    }
    forall session | session in s'.leases ensures HasOwnTimer(s', session) {
      assert HasOwnTimer(s, session);
      var own := s.leases[session].timer;
      assert own != t ==> s'.timers[own] == s.timers[own];
    }
  }

  lemma LeasesStep(settings: Settings, s: State, step: Step)
    requires LeasesFit(settings, s) && Enabled(settings, s, step)
    ensures LeasesFit(settings, Next(settings, s, step))
  {
    hide Renewed, Expired, Removed;
    match step
    case CommitRenew(id) => RenewedLeases(settings, s, id);
    case Expire(t) => ExpiredLeases(settings, s, t);
    case Remove(session) => RemovedLeases(settings, s, session);
    case Fire(t) => FiredLeases(settings, s, t);
    case CloseAll =>
      var s' := Next(settings, s, step);
      forall t: nat | t < |s'.timers| ensures TimerFits(s', t) {
        assert TimerFits(s, t);
      }
    case _ =>
      var s' := Next(settings, s, step);
      assert s'.timers == s.timers && s'.leases == s.leases;
      forall t: nat | t < |s'.timers| ensures TimerFits(s', t) {
        assert TimerFits(s, t);
      }
      forall session | session in s'.leases ensures HasOwnTimer(s', session) {
        assert HasOwnTimer(s, session);
      }
  }

  lemma DeletedDrains(settings: Settings, s: State, session: string, reason: Reason)
    requires DrainsFit(settings, s)
    ensures DrainsFit(settings, Deleted(settings, s, session, reason))
  {
    var s' := Deleted(settings, s, session, reason);
    assert s'.log[..|s.log|] == s.log;
    if |s'.drains| > |s.drains| {
      assert Reasons(s'.drains) == Reasons(s.drains) + [reason];
    }
  }

  lemma DrainsStep(settings: Settings, s: State, step: Step)
    requires DrainsFit(settings, s) && Enabled(settings, s, step)
    ensures DrainsFit(settings, Next(settings, s, step))
  {
    hide StopTimer, StopAll, IsBusiness, Emptyings, Deleted;
    match step
    case Expire(t) =>
      var done := s.(timers := s.timers[t := s.timers[t].(phase := Processed)]);
      DeletedDrains(settings, done, s.timers[t].session, Expiry);
    case Remove(session) =>
      if session in s.leases {
        DeletedDrains(settings, s.(timers := StopTimer(s.timers, s.leases[session].timer)), session, Close);
      }
    case _ =>
      assert Reasons(Next(settings, s, step).drains) == Reasons(s.drains);
  }

  lemma BusinessChange(requests: map<nat, string>, request: nat, path: string)
    ensures request !in requests ==>
      |Business(requests[request := path])| == |Business(requests)| + if IsBusiness(path) then 1 else 0
    ensures request in requests && requests[request] == path ==>
      |Business(requests - {request})| == |Business(requests)| - if IsBusiness(path) then 1 else 0
  {
    hide IsBusiness;
    assert request !in requests ==>
      Business(requests[request := path]) ==
      if IsBusiness(path) then Business(requests) + {request} else Business(requests);
    assert Business(requests - {request}) == Business(requests) - {request};
  }

  lemma InflightStep(settings: Settings, s: State, step: Step)
    requires s.inflight == |Business(s.requests)| && Enabled(settings, s, step)
    ensures Next(settings, s, step).inflight == |Business(Next(settings, s, step).requests)|
  {
    hide StopTimer, StopAll, IsBusiness, Business, Expired, Removed;
    if step.Enter? {
      BusinessChange(s.requests, step.request, step.path);
    } else if step.Leave? {
      BusinessChange(s.requests, step.request, s.requests[step.request]);
    }
  }

  lemma InvStep(settings: Settings, s: State, step: Step)
    requires Inv(settings, s) && Enabled(settings, s, step)
    ensures Inv(settings, Next(settings, s, step))
  {
    hide Next, Enabled, LeasesFit, DrainsFit;
    LeasesStep(settings, s, step);
    DrainsStep(settings, s, step);
    InflightStep(settings, s, step);
  }

  // ---- What every run keeps ---------------------------------------------------------------------------------

  lemma {:induction false} RunKeepsInv(settings: Settings, states: seq<State>, steps: seq<Step>, i: nat)
    requires IsRun(settings, states, steps) && i < |states|
    ensures Inv(settings, states[i])
  {
    if i == 0 {
      InvStarts(settings, states[0].now);
    } else {
      RunKeepsInv(settings, states, steps, i - 1);
      InvStep(settings, states[i - 1], steps[i - 1]);
    }
  }

  /** A lease goes only when its session is closed, when the server is closed, or when a timer expires it at or
      after the expiry that the lease records at that moment, whatever timers have been superseded meanwhile. */
  lemma ExpiryIsDue(settings: Settings, states: seq<State>, steps: seq<Step>, i: nat, session: string)
    requires IsRun(settings, states, steps) && i < |steps|
    requires session in states[i].leases && session !in states[i + 1].leases
    ensures
      || steps[i] == Remove(session)
      || steps[i] == CloseAll
      || (steps[i].Expire? && states[i].timers[steps[i].timer].session == session &&
          states[i].leases[session].expiresAt <= states[i].now)
  {
    hide Inv, Next, Enabled;
    RunKeepsInv(settings, states, steps, i);
    assert Enabled(settings, states[i], steps[i]) && states[i + 1] == Next(settings, states[i], steps[i]);
    DeletionIsDue(settings, states[i], steps[i], session);
  }

  lemma DeletionIsDue(settings: Settings, s: State, step: Step, session: string)
    requires Inv(settings, s) && Enabled(settings, s, step)
    requires session in s.leases && session !in Next(settings, s, step).leases
    ensures
      || step == Remove(session)
      || step == CloseAll
      || (step.Expire? && s.timers[step.timer].session == session && s.leases[session].expiresAt <= s.now)
  {
    hide StopTimer, StopAll, Emptyings, Business, Inv;
    if step.Expire? {
      AboutTimer(settings, s, step.timer);
    }
  }

  lemma AboutTimer(settings: Settings, s: State, t: nat)
    requires Inv(settings, s) && t < |s.timers|
    ensures TimerFits(s, t)
  {
  }

  /** No lease is forgotten: once the own timer of a lease is due it can fire, and once it has fired, processing it
      deletes the lease. */
  lemma OwnTimerDelivers(settings: Settings, s: State, session: string)
    requires Inv(settings, s) && session in s.leases
    ensures var t := s.leases[session].timer;
      && t < |s.timers|
      && (s.timers[t].phase == Armed || s.timers[t].phase == Fired)
      && (s.timers[t].phase == Armed && s.timers[t].fireAt <= s.now ==> Enabled(settings, s, Fire(t)))
      && (s.timers[t].phase == Fired ==>
            Enabled(settings, s, Expire(t)) && session !in Next(settings, s, Expire(t)).leases)
  {
    assert HasOwnTimer(s, session);
  }

  /** The log grows exactly when an expiry or a close deletes a lease, and records how many leases are left. */
  lemma LogRecords(settings: Settings, s: State, step: Step)
    requires Enabled(settings, s, step)
    ensures var s' := Next(settings, s, step);
      && (s'.log != s.log <==> (step.Expire? || step.Remove?) && s'.leases != s.leases)
      && (s'.log != s.log ==>
            exists session ::
              && session in s.leases && s'.leases == s.leases - {session}
              && s'.log == s.log + [Section(if step.Expire? then Expiry else Close, session, |s'.leases|)])
  {
    hide StopTimer, StopAll;
    var s' := Next(settings, s, step);
    if step.Expire? || step.Remove? {
      var session := if step.Expire? then s.timers[step.timer].session else step.session;
      if session in s.leases {
        assert session !in s.leases - {session};
        assert |s.log + [Section(Expiry, session, 0)]| != |s.log|;
      }
      assert s'.log != s.log ==>
        session in s.leases && s'.leases == s.leases - {session}
        && s'.log == s.log + [Section(if step.Expire? then Expiry else Close, session, |s'.leases|)];
    }
  }

  /** Where the owner's exit ends the server, the drains are, in order and one for one, the critical sections that
      deleted the last lease; otherwise there is no drain. */
  lemma DrainsAreEmptyings(settings: Settings, states: seq<State>, steps: seq<Step>, i: nat)
    requires IsRun(settings, states, steps) && i < |states|
    ensures Reasons(states[i].drains) == if settings.Drains() then Emptyings(states[i].log) else []
  {
    RunKeepsInv(settings, states, steps, i);
  }

  // ---- Before the shutdown hook -----------------------------------------------------------------------------

  /** Drain `d` began at step `start`. */
  ghost predicate StartedAt(steps: seq<Step>, k: nat, d: nat, start: nat) {
    start < k <= |steps| && steps[start] == StartDrain(d)
  }

  /** At step `at`, drain `d` saw that no business request was in flight, or that its grace period was over. */
  ghost predicate EarnedAt(settings: Settings, states: seq<State>, steps: seq<Step>, d: nat, start: nat, at: nat)
    requires |states| == |steps| + 1 && start < at < |steps|
  {
    || (steps[at] == ReadInflight(d) && Business(states[at].requests) == {})
    || (steps[at] == CheckDeadline(d) && states[start].now + settings.grace <= states[at].now)
  }

  ghost predicate Earned(settings: Settings, states: seq<State>, steps: seq<Step>, k: nat, d: nat)
    requires |states| == |steps| + 1
  {
    exists start: nat, at: nat | StartedAt(steps, k, d, start) && start < at < k ::
      EarnedAt(settings, states, steps, d, start, at)
  }

  /** What the phase of a drain says about the past. */
  ghost predicate History(settings: Settings, states: seq<State>, steps: seq<Step>, k: nat, d: nat)
    requires |states| == |steps| + 1 && k < |states| && d < |states[k].drains|
  {
    match states[k].drains[d].wait
    case Starting => true
    case Looping(deadline) =>
      exists start: nat | StartedAt(steps, k, d, start) :: deadline == states[start].now + settings.grace
    case Busy(deadline) =>
      exists start: nat | StartedAt(steps, k, d, start) :: deadline == states[start].now + settings.grace
    case Ready => Earned(settings, states, steps, k, d)
    case Finished => Earned(settings, states, steps, k, d)
  }

  /** A step concerns drain `d`. */
  predicate Concerns(step: Step, d: nat) {
    (step.StartDrain? || step.ReadInflight? || step.CheckDeadline? || step.CallHook?) && step.drain == d
  }

  lemma DrainsKept(settings: Settings, s: State, step: Step, d: nat)
    requires Enabled(settings, s, step) && d < |s.drains|
    ensures d < |Next(settings, s, step).drains|
    ensures !Concerns(step, d) ==> Next(settings, s, step).drains[d] == s.drains[d]
  {
    hide StopTimer, StopAll;
  }

  lemma {:induction false} DrainHistory(settings: Settings, states: seq<State>, steps: seq<Step>, k: nat, d: nat)
    requires IsRun(settings, states, steps) && k < |states| && d < |states[k].drains|
    ensures History(settings, states, steps, k, d)
  {
    if k > 0 {
      var s, step := states[k - 1], steps[k - 1];
      assert Enabled(settings, s, step) && states[k] == Next(settings, s, step);
      if d < |s.drains| {
        DrainHistory(settings, states, steps, k - 1, d);
        DrainsKept(settings, s, step, d);
        HistoryStep(settings, states, steps, k, d);
      } else {
        NewDrainStarts(settings, s, step, d);
      }
    }
  }

  lemma NewDrainStarts(settings: Settings, s: State, step: Step, d: nat)
    requires Enabled(settings, s, step) && |s.drains| <= d < |Next(settings, s, step).drains|
    ensures Next(settings, s, step).drains[d].wait == Starting
  {
    hide StopTimer, StopAll, Renewed, Business, IsBusiness;
  }

  lemma StartKept(settings: Settings, states: seq<State>, steps: seq<Step>, k: nat, d: nat, deadline: int)
    returns (start: nat)
    requires |states| == |steps| + 1 && 0 < k < |states|
    requires exists start: nat | StartedAt(steps, k - 1, d, start) :: deadline == states[start].now + settings.grace
    ensures StartedAt(steps, k - 1, d, start) && StartedAt(steps, k, d, start)
    ensures deadline == states[start].now + settings.grace
  {
    start :| StartedAt(steps, k - 1, d, start) && deadline == states[start].now + settings.grace;
  }

  /** One turn of the loop either goes on or has seen what it waits for. */
  lemma TurnHistory(settings: Settings, states: seq<State>, steps: seq<Step>, k: nat, d: nat, deadline: int)
    requires IsRun(settings, states, steps) && 0 < k < |states|
    requires d < |states[k - 1].drains| && d < |states[k].drains|
    requires steps[k - 1] == ReadInflight(d) || steps[k - 1] == CheckDeadline(d)
    requires Enabled(settings, states[k - 1], steps[k - 1]) && states[k] == Next(settings, states[k - 1], steps[k - 1])
    requires states[k - 1].drains[d].wait.deadline == deadline
    requires History(settings, states, steps, k - 1, d)
    ensures History(settings, states, steps, k, d)
  {
    hide Business;
    var start := StartKept(settings, states, steps, k, d, deadline);
    if states[k].drains[d].wait.Ready? {
      NoBusiness(settings, states, steps, k - 1);
      assert EarnedAt(settings, states, steps, d, start, k - 1);
    }
  }

  lemma HistoryStep(settings: Settings, states: seq<State>, steps: seq<Step>, k: nat, d: nat)
    requires IsRun(settings, states, steps) && 0 < k < |states| && d < |states[k - 1].drains|
    requires Enabled(settings, states[k - 1], steps[k - 1]) && states[k] == Next(settings, states[k - 1], steps[k - 1])
    requires d < |states[k].drains|
    requires !Concerns(steps[k - 1], d) ==> states[k].drains[d] == states[k - 1].drains[d]
    requires History(settings, states, steps, k - 1, d)
    ensures History(settings, states, steps, k, d)
  {
    hide StopTimer, StopAll, Renewed, Expired, Removed, Business;
    var s, step := states[k - 1], steps[k - 1];
    if Concerns(step, d) {
      match step
      case StartDrain(_) => assert StartedAt(steps, k, d, k - 1);
      case CallHook(_) => EarnedStays(settings, states, steps, k, d);
      case ReadInflight(_) => TurnHistory(settings, states, steps, k, d, s.drains[d].wait.deadline);
      case CheckDeadline(_) => TurnHistory(settings, states, steps, k, d, s.drains[d].wait.deadline);
    } else {
      match s.drains[d].wait
      case Starting =>
      case Looping(deadline) => var start := StartKept(settings, states, steps, k, d, deadline);
      case Busy(deadline) => var start := StartKept(settings, states, steps, k, d, deadline);
      case Ready => EarnedStays(settings, states, steps, k, d);
      case Finished => EarnedStays(settings, states, steps, k, d);
    }
  }

  lemma EarnedStays(settings: Settings, states: seq<State>, steps: seq<Step>, k: nat, d: nat)
    requires |states| == |steps| + 1 && 0 < k < |states| && Earned(settings, states, steps, k - 1, d)
    ensures Earned(settings, states, steps, k, d)
  {
    var start: nat, at: nat :| && StartedAt(steps, k - 1, d, start) && start < at < k - 1
                               && EarnedAt(settings, states, steps, d, start, at);
    assert StartedAt(steps, k, d, start);
  }

  /** A counter read as zero means that no business request is in flight. */
  lemma NoBusiness(settings: Settings, states: seq<State>, steps: seq<Step>, i: nat)
    requires IsRun(settings, states, steps) && i < |states|
    ensures states[i].inflight <= 0 ==> Business(states[i].requests) == {}
  {
    RunKeepsInv(settings, states, steps, i);
  }

  /** The hook runs only after its own drain read the in-flight counter as zero, with no business request running,
      or after the grace period since the beginning of that drain had passed. */
  lemma HookIsEarned(settings: Settings, states: seq<State>, steps: seq<Step>, k: nat, d: nat)
    requires IsRun(settings, states, steps) && k < |steps| && steps[k] == CallHook(d)
    ensures Earned(settings, states, steps, k, d)
  {
    assert Enabled(settings, states[k], steps[k]);
    DrainHistory(settings, states, steps, k, d);
  }

  lemma {:induction false} FinishedStays(
    settings: Settings, states: seq<State>, steps: seq<Step>, i: nat, j: nat, d: nat)
    requires IsRun(settings, states, steps) && i <= j < |states|
    requires d < |states[i].drains| && states[i].drains[d].wait.Finished?
    ensures d < |states[j].drains| && states[j].drains[d].wait.Finished?
  {
    if i < j {
      FinishedStays(settings, states, steps, i, j - 1, d);
      assert Enabled(settings, states[j - 1], steps[j - 1]);
      DrainsKept(settings, states[j - 1], steps[j - 1], d);
    }
  }

  /** Each drain calls the hook at most once. */
  lemma HookOncePerDrain(settings: Settings, states: seq<State>, steps: seq<Step>, i: nat, j: nat, d: nat)
    requires IsRun(settings, states, steps) && i < |steps| && j < |steps|
    requires steps[i] == CallHook(d) && steps[j] == CallHook(d)
    ensures i == j
  {
    assert Enabled(settings, states[i], steps[i]) && Enabled(settings, states[j], steps[j]);
    if i < j {
      FinishedStays(settings, states, steps, i + 1, j, d);
    } else if j < i {
      FinishedStays(settings, states, steps, j + 1, i, d);
    }
  }

  // ---- The server's fields, updated step by step ------------------------------------------------------------

  class Server {
    const settings: Settings
    var now: int
    var leases: map<string, Lease>
    var timers: seq<Timer>
    var renewals: map<nat, Renewal>
    var requests: map<nat, string>
    var inflight: int
    var drains: seq<Drain>
    ghost var log: seq<Section>

    ghost function Current(): State
      reads this
    {
      State(now, leases, timers, renewals, requests, inflight, drains, log)
    }

    constructor (settings: Settings, now: int)
      ensures Current() == Initial(now) && this.settings == settings && Inv(settings, Current())
    {
      this.settings, this.now, leases, timers, renewals := settings, now, map[], [], map[];
      requests, inflight, drains, log := map[], 0, [], [];
      new;
      InvStarts(settings, now);
    }

    method Stop(t: nat)
      modifies this`timers
      ensures timers == StopTimer(old(timers), t)
    {
      if t < |timers| && timers[t].phase == Armed {
        timers := timers[t := timers[t].(phase := Stopped)];
      }
    }

    /** The second half of `renewLease`, under the lock. */
    method CommitRenew(id: nat)
      requires Inv(settings, Current()) && Enabled(settings, Current(), Step.CommitRenew(id))
      modifies this
      ensures Inv(settings, Current()) && Current() == Next(settings, old(Current()), Step.CommitRenew(id))
    {
      hide Inv;
      InvStep(settings, Current(), Step.CommitRenew(id));
      var Renewal(session, expiresAt) := renewals[id];
      if session in leases {
        Stop(leases[session].timer);
      }
      var lease := Lease(expiresAt, |timers|);
      timers := timers + [Timer(session, expiresAt, now + settings.Ttl(), Armed)];
      leases := leases[session := lease];
      renewals := renewals - {id};
    }

    method Expire(t: nat)
      requires Inv(settings, Current()) && Enabled(settings, Current(), Step.Expire(t))
      modifies this
      ensures Inv(settings, Current()) && Current() == Next(settings, old(Current()), Step.Expire(t))
    {
      hide Inv;
      InvStep(settings, Current(), Step.Expire(t));
      var Timer(session, expiresAt, _, _) := timers[t];
      timers := timers[t := timers[t].(phase := Processed)];
      if session !in leases || leases[session].expiresAt != expiresAt {
        return;
      }
      leases := leases - {session};
      var remaining := |leases|;
      log := log + [Section(Expiry, session, remaining)];
      if remaining == 0 && settings.ownerExits && settings.hook {
        drains := drains + [Drain(Expiry, Starting)];
      }
    }

    method Remove(session: string)
      requires Inv(settings, Current())
      modifies this
      ensures Inv(settings, Current()) && Current() == Next(settings, old(Current()), Step.Remove(session))
    {
      hide Inv;
      InvStep(settings, Current(), Step.Remove(session));
      var ok := session in leases;
      if ok {
        Stop(leases[session].timer);
        leases := leases - {session};
        log := log + [Section(Close, session, |leases|)];
      }
      var remaining := |leases|;
      if ok && remaining == 0 && settings.ownerExits && settings.hook {
        drains := drains + [Drain(Close, Starting)];
      }
    }

    /** The loop of `CloseWithContext`: every lease goes, with its timer stopped, in any order. */
    method StopEvery()
      modifies this`leases, this`timers
      ensures leases == map[] && timers == StopAll(old(timers), old(leases))
    {
      hide StopTimer, StopAll;
      ghost var all, before, stopped := leases, timers, map[];
      StopNone(timers);
      while leases != map[]
        invariant all == leases + stopped && leases.Keys !! stopped.Keys
        invariant timers == StopAll(before, stopped)
        decreases leases.Keys
      {
        var session :| session in leases;
        var lease := leases[session];
        StopOneMore(before, stopped, session, lease);
        MoveEntry(leases, stopped, session);
        Stop(lease.timer);
        stopped := stopped[session := lease];
        leases := leases - {session};
      }
      assert stopped == all;
    }

    method CloseAll()
      requires Inv(settings, Current())
      modifies this`leases, this`timers
      ensures Inv(settings, Current()) && Current() == Next(settings, old(Current()), Step.CloseAll)
    {
      hide Inv, StopTimer, StopAll;
      InvStep(settings, Current(), Step.CloseAll);
      StopEvery();
    }

    /** One turn of the loop in `drainInflightAndShutdown`, up to its reading of the counter. */
    method ReadInflight(d: nat)
      requires Inv(settings, Current()) && Enabled(settings, Current(), Step.ReadInflight(d))
      modifies this
      ensures Inv(settings, Current()) && Current() == Next(settings, old(Current()), Step.ReadInflight(d))
    {
      hide Inv;
      InvStep(settings, Current(), Step.ReadInflight(d));
      if inflight > 0 {
        drains := drains[d := drains[d].(wait := Busy(drains[d].wait.deadline))];
      } else {
        drains := drains[d := drains[d].(wait := Ready)];
      }
    }

    /** The other half of the loop condition. */
    method CheckDeadline(d: nat)
      requires Inv(settings, Current()) && Enabled(settings, Current(), Step.CheckDeadline(d))
      modifies this
      ensures Inv(settings, Current()) && Current() == Next(settings, old(Current()), Step.CheckDeadline(d))
    {
      hide Inv;
      InvStep(settings, Current(), Step.CheckDeadline(d));
      var deadline := drains[d].wait.deadline;
      if now < deadline {
        drains := drains[d := drains[d].(wait := Looping(deadline))];
      } else {
        drains := drains[d := drains[d].(wait := Ready)];
      }
    }
  }

  lemma MoveEntry(from: map<string, Lease>, to: map<string, Lease>, session: string)
    requires session in from && from.Keys !! to.Keys
    ensures from + to == (from - {session}) + to[session := from[session]]
    ensures (from - {session}).Keys !! to[session := from[session]].Keys
    ensures (from - {session}).Keys < from.Keys
  {
  }

  lemma StopNone(timers: seq<Timer>)
    ensures StopAll(timers, map[]) == timers
  {
  }

  /** Stopping the timers of some leases and then that of one more stops the timers of them all. */
  lemma StopOneMore(timers: seq<Timer>, some: map<string, Lease>, session: string, lease: Lease)
    requires session !in some
    ensures StopTimer(StopAll(timers, some), lease.timer) == StopAll(timers, some[session := lease])
  {
    var more := some[session := lease];
    assert forall other | other in some :: other in more && more[other] == some[other];
    assert session in more && more[session].timer == lease.timer;
  }
}
