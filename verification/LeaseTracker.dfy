/** The standalone lease tracker (internal/runtime/lease.go): a polling monitor, in-flight requests and explicit
    closes, all of which meet in one once-guard around the shutdown. Times are nanoseconds. */
module LeaseTracker {
  const SECOND := 1_000_000_000

  datatype Config = Config(heartbeatInterval: int, missedLimit: int, grace: int, hook: bool) {
    /** How `NewLeaseTracker` fills in what is not positive. */
    function Normalized(): (r: Config)
      ensures r.heartbeatInterval > 0 && r.missedLimit > 0 && r.grace > 0
    {
      Config(if heartbeatInterval <= 0 then 15 * SECOND else heartbeatInterval,
             if missedLimit <= 0 then 1 else missedLimit,
             if grace <= 0 then 5 * SECOND else grace, hook)
    }

    function StaleAfter(): int {
      heartbeatInterval * missedLimit
    }
  }

  /** A call of `triggerShutdown`. The monitor makes its call as `MONITOR`. */
  datatype Phase = AtGuard | Inside | AfterClose | Returned

  const MONITOR: nat := 0

  datatype Once = Untouched | Running(caller: nat) | Over

  datatype Monitor =
    | Polling
    | Ticked(at: int)
    | Expired
    | Waiting
    | Looping(deadline: int)
    | Busy(deadline: int)
    | Gone

  /** `closes` and `hooks` count how often the channel was closed and the hook was called. */
  datatype State = State(
    now: int, lastBeat: int, inflight: int, once: Once, closes: nat, hooks: nat,
    callers: map<nat, Phase>, monitor: Monitor)

  function Initial(now: int): State {
    State(now, now, 0, Untouched, 0, 0, map[], Polling)
  }

  datatype Step =
    | Wait(until: int)
    | Heartbeat
    | Acquire
    | Release
    | Close(id: nat)
    | Enter(id: nat)
    | CloseChannel(id: nat)
    | CallHook(id: nat)
    | StopMonitor
    | Tick(at: int)
    | Judge
    | FirstRead
    | SetDeadline
    | ReadInflight
    | CheckDeadline

  predicate Enabled(s: State, step: Step) {
    match step
    case Wait(until) => s.now <= until
    case Heartbeat => true
    case Acquire => true
    case Release => true
    case Close(id) => id != MONITOR && id !in s.callers
    case Enter(id) => id in s.callers && s.callers[id] == AtGuard && !s.once.Running?
    case CloseChannel(id) => id in s.callers && s.callers[id] == Inside
    case CallHook(id) => id in s.callers && s.callers[id] == AfterClose
    case StopMonitor => s.monitor.Polling?
    case Tick(at) => s.monitor.Polling? && at <= s.now
    case Judge => s.monitor.Ticked?
    case FirstRead => s.monitor.Expired?
    case SetDeadline => s.monitor.Waiting?
    case ReadInflight => s.monitor.Looping?
    case CheckDeadline => s.monitor.Busy?
  }

  /** The monitor leaves its loop and calls `triggerShutdown`. */
  function Triggered(s: State): State {
    s.(monitor := Gone, callers := s.callers[MONITOR := AtGuard])
  }

  function Next(config: Config, s: State, step: Step): State
    requires Enabled(s, step)
  {
    match step
    case Wait(until) => s.(now := until)
    case Heartbeat => s.(lastBeat := s.now)
    case Acquire => s.(inflight := s.inflight + 1)
    case Release => s.(inflight := s.inflight - 1)
    case Close(id) => s.(callers := s.callers[id := AtGuard])
    case Enter(id) =>
      if s.once.Untouched? then s.(once := Running(id), callers := s.callers[id := Inside])
      else s.(callers := s.callers[id := Returned])
    case CloseChannel(id) => s.(closes := s.closes + 1, callers := s.callers[id := AfterClose])
    case CallHook(id) =>
      s.(hooks := s.hooks + if config.hook then 1 else 0, callers := s.callers[id := Returned], once := Over)
    case StopMonitor => s.(monitor := Gone)
    case Tick(at) => s.(monitor := Ticked(at))
    case Judge =>
      s.(monitor := if s.monitor.at - s.lastBeat > config.Normalized().StaleAfter() then Expired else Polling)
    case FirstRead => if s.inflight == 0 then Triggered(s) else s.(monitor := Waiting)
    case SetDeadline => s.(monitor := Looping(s.now + config.Normalized().grace))
    case ReadInflight => if s.inflight > 0 then s.(monitor := Busy(s.monitor.deadline)) else Triggered(s)
    case CheckDeadline =>
      if s.now < s.monitor.deadline then s.(monitor := Looping(s.monitor.deadline)) else Triggered(s)
  }

  ghost predicate IsRun(config: Config, states: seq<State>, steps: seq<Step>) {
    && |states| == |steps| + 1
    && states[0] == Initial(states[0].now)
    && forall i | 0 <= i < |steps| :: Enabled(states[i], steps[i]) && states[i + 1] == Next(config, states[i], steps[i])
  }

  /** How far the guarded shutdown has come. */
  ghost predicate Inv(config: Config, s: State) {
    && (MONITOR in s.callers ==> s.monitor.Gone?)
    && (forall id | id in s.callers && (s.callers[id] == Inside || s.callers[id] == AfterClose) ::
          s.once == Running(id))
    && (forall id | id in s.callers && s.callers[id] == Returned :: s.once == Over)
    && match s.once
       case Untouched => s.closes == 0 && s.hooks == 0
       case Running(id) =>
         id in s.callers && s.hooks == 0
         && ((s.callers[id] == Inside && s.closes == 0) || (s.callers[id] == AfterClose && s.closes == 1))
       case Over => s.closes == 1 && s.hooks == if config.hook then 1 else 0
  }

  lemma InvStep(config: Config, s: State, step: Step)
    requires Inv(config, s) && Enabled(s, step)
    ensures Inv(config, Next(config, s, step))
  {
  }

  lemma {:induction false} RunKeepsInv(config: Config, states: seq<State>, steps: seq<Step>, i: nat)
    requires IsRun(config, states, steps) && i < |states|
    ensures Inv(config, states[i])
  {
    if i > 0 {
      RunKeepsInv(config, states, steps, i - 1);
      InvStep(config, states[i - 1], steps[i - 1]);
    }
  }

  /** However closes and the expiry interleave, the channel is closed at most once (a second close would panic) and
      the hook runs at most once; and when any call of the shutdown has returned, both have happened. */
  lemma ShutdownHappensOnce(config: Config, states: seq<State>, steps: seq<Step>, i: nat)
    requires IsRun(config, states, steps) && i < |states|
    ensures states[i].closes <= 1 && states[i].hooks <= 1
    ensures (exists id :: id in states[i].callers && states[i].callers[id] == Returned) ==>
      states[i].closes == 1 && states[i].hooks == if config.hook then 1 else 0
  {
    RunKeepsInv(config, states, steps, i);
  }

  // ---- The expiry path --------------------------------------------------------------------------------------

  /** At step `j` the monitor found the lease stale. */
  ghost predicate StaleAt(config: Config, states: seq<State>, steps: seq<Step>, j: nat)
    requires |states| == |steps| + 1
  {
    && j < |steps| && steps[j] == Judge && states[j].monitor.Ticked? && states[j].monitor.at <= states[j].now
    && states[j].lastBeat + config.Normalized().StaleAfter() < states[j].now
  }

  /** The monitor set its deadline at step `j`. */
  ghost predicate DeadlineSetAt(config: Config, states: seq<State>, steps: seq<Step>, j: nat, deadline: int)
    requires |states| == |steps| + 1
  {
    j < |steps| && steps[j] == SetDeadline && deadline == states[j].now + config.Normalized().grace
  }

  /** At step `j` the monitor read that no request was in flight, or found its grace period, begun at `start`, over. */
  ghost predicate QuietOrLateAt(config: Config, states: seq<State>, steps: seq<Step>, start: nat, j: nat)
    requires |states| == |steps| + 1
  {
    && j < |steps|
    && (((steps[j] == FirstRead || steps[j] == ReadInflight) && states[j].inflight <= 0)
        || (steps[j] == CheckDeadline && start < j && steps[start] == SetDeadline
            && states[start].now + config.Normalized().grace <= states[j].now))
  }

  ghost predicate WasStale(config: Config, states: seq<State>, steps: seq<Step>, k: nat)
    requires |states| == |steps| + 1
  {
    exists j: nat | j < k :: StaleAt(config, states, steps, j)
  }

  ghost predicate WasDue(config: Config, states: seq<State>, steps: seq<Step>, k: nat)
    requires |states| == |steps| + 1
  {
    exists stale: nat, start: nat, j: nat | stale < j < k ::
      StaleAt(config, states, steps, stale) && QuietOrLateAt(config, states, steps, start, j)
  }

  ghost predicate HasDeadline(config: Config, states: seq<State>, steps: seq<Step>, k: nat, deadline: int)
    requires |states| == |steps| + 1
  {
    exists start: nat | start < k :: DeadlineSetAt(config, states, steps, start, deadline)
  }

  /** What the phase of the monitor says about the past. */
  ghost predicate History(config: Config, states: seq<State>, steps: seq<Step>, k: nat)
    requires |states| == |steps| + 1 && k < |states|
  {
    && (MONITOR in states[k].callers ==> WasDue(config, states, steps, k))
    && match states[k].monitor
       case Polling => true
       case Ticked(at) => at <= states[k].now
       case Expired => WasStale(config, states, steps, k)
       case Waiting => WasStale(config, states, steps, k)
       case Looping(deadline) => WasStale(config, states, steps, k) && HasDeadline(config, states, steps, k, deadline)
       case Busy(deadline) => WasStale(config, states, steps, k) && HasDeadline(config, states, steps, k, deadline)
       case Gone => true
  }

  lemma PastStays(config: Config, states: seq<State>, steps: seq<Step>, k: nat)
    requires |states| == |steps| + 1 && k < |steps|
    ensures WasStale(config, states, steps, k) ==> WasStale(config, states, steps, k + 1)
    ensures WasDue(config, states, steps, k) ==> WasDue(config, states, steps, k + 1)
    ensures forall deadline ::
      HasDeadline(config, states, steps, k, deadline) ==> HasDeadline(config, states, steps, k + 1, deadline)
  {
  }

  lemma {:induction false} MonitorHistory(config: Config, states: seq<State>, steps: seq<Step>, k: nat)
    requires IsRun(config, states, steps) && k < |states|
    ensures History(config, states, steps, k)
  {
    if k > 0 {
      var j := k - 1;
      MonitorHistory(config, states, steps, j);
      RunKeepsInv(config, states, steps, j);
      assert Enabled(states[j], steps[j]) && states[k] == Next(config, states[j], steps[j]);
      MonitorStep(config, states, steps, j);
    }
  }

  lemma MonitorStep(config: Config, states: seq<State>, steps: seq<Step>, j: nat)
    requires |states| == |steps| + 1 && j < |steps|
    requires Enabled(states[j], steps[j]) && states[j + 1] == Next(config, states[j], steps[j])
    requires History(config, states, steps, j)
    ensures History(config, states, steps, j + 1)
  {
    PastStays(config, states, steps, j);
    hide WasStale, WasDue, HasDeadline;
    match steps[j]
    case Judge =>
      if states[j + 1].monitor.Expired? {
        assert StaleAt(config, states, steps, j);
        assert WasStale(config, states, steps, j + 1) by { FoundStale(config, states, steps, j); }
      }
    case SetDeadline => SetNow(config, states, steps, j);
    case FirstRead => DueNow(config, states, steps, 0, j);
    case ReadInflight => DueNow(config, states, steps, 0, j);
    case CheckDeadline => LateNow(config, states, steps, j);
    case _ =>
  }

  lemma FoundStale(config: Config, states: seq<State>, steps: seq<Step>, j: nat)
    requires |states| == |steps| + 1 && j < |steps| && StaleAt(config, states, steps, j)
    ensures WasStale(config, states, steps, j + 1)
  {
  }

  lemma SetNow(config: Config, states: seq<State>, steps: seq<Step>, j: nat)
    requires |states| == |steps| + 1 && j < |steps| && steps[j] == SetDeadline
    ensures HasDeadline(config, states, steps, j + 1, states[j].now + config.Normalized().grace)
  {
    assert DeadlineSetAt(config, states, steps, j, states[j].now + config.Normalized().grace);
  }

  lemma DueNow(config: Config, states: seq<State>, steps: seq<Step>, start: nat, j: nat)
    requires |states| == |steps| + 1 && j < |steps| && WasStale(config, states, steps, j)
    ensures QuietOrLateAt(config, states, steps, start, j) ==> WasDue(config, states, steps, j + 1)
  {
    var stale: nat :| stale < j && StaleAt(config, states, steps, stale);
  }

  lemma LateNow(config: Config, states: seq<State>, steps: seq<Step>, j: nat)
    requires |states| == |steps| + 1 && j < |steps| && WasStale(config, states, steps, j)
    requires steps[j] == CheckDeadline && states[j].monitor.Busy?
    requires HasDeadline(config, states, steps, j, states[j].monitor.deadline)
    ensures states[j].now >= states[j].monitor.deadline ==> WasDue(config, states, steps, j + 1)
  {
    var start: nat :| start < j && DeadlineSetAt(config, states, steps, start, states[j].monitor.deadline);
    DueNow(config, states, steps, start, j);
  }

  /** The monitor shuts down only after it found the last heartbeat older than the limit and then either read that
      no request was in flight or waited for the whole grace period. */
  lemma ExpiryIsEarned(config: Config, states: seq<State>, steps: seq<Step>, k: nat)
    requires IsRun(config, states, steps) && k < |states| && MONITOR in states[k].callers
    ensures WasDue(config, states, steps, k)
  {
    MonitorHistory(config, states, steps, k);
  }

  // ---- Progress ---------------------------------------------------------------------------------------------

  /** How long heartbeats may stay away, with the defaults. */
  function Patience(config: Config): int {
    (if config.heartbeatInterval > 0 then config.heartbeatInterval else 15 * SECOND) *
    (if config.missedLimit > 0 then config.missedLimit else 1)
  }

  /** The monitor gives up the lease exactly on a tick that is later than that after the last heartbeat. */
  lemma StaleIff(config: Config, states: seq<State>, steps: seq<Step>, j: nat)
    requires IsRun(config, states, steps) && j < |steps| && steps[j] == Judge
    ensures states[j].monitor.Ticked?
    ensures states[j + 1].monitor ==
            if states[j].lastBeat + Patience(config) < states[j].monitor.at then Expired else Polling
  {
    assert Enabled(states[j], steps[j]) && states[j + 1] == Next(config, states[j], steps[j]);
  }

  /** When the wait for running requests ends at the latest, if it began at `start`. */
  function Patient(config: Config, states: seq<State>, start: nat): int
    requires start < |states|
  {
    states[start].now + if config.grace > 0 then config.grace else 5 * SECOND
  }

  lemma {:induction false} WaitIsBounded(config: Config, states: seq<State>, steps: seq<Step>, start: nat, k: nat)
    requires IsRun(config, states, steps) && start < k < |states| && steps[start] == SetDeadline
    ensures states[k].monitor in {Looping(Patient(config, states, start)), Busy(Patient(config, states, start)), Gone}
    decreases k
  {
    var j := k - 1;
    assert Enabled(states[j], steps[j]) && states[k] == Next(config, states[j], steps[j]);
    if j > start {
      WaitIsBounded(config, states, steps, start, j);
    }
  }

  /** An expired monitor calls for shutdown as soon as it reads that nothing is in flight, and at any rate at its
      first look at the clock after the grace period that began at `start`; until then it goes on. */
  lemma ExpiredMonitorEnds(config: Config, states: seq<State>, steps: seq<Step>, start: nat, k: nat)
    requires IsRun(config, states, steps) && k < |steps|
    ensures steps[k] == FirstRead ==>
      states[k + 1].monitor == if states[k].inflight == 0 then Gone else Waiting
    ensures start < k && steps[start] == SetDeadline && steps[k] == ReadInflight ==>
      (states[k].inflight <= 0 <==> states[k + 1].monitor.Gone?)
    ensures start < k && steps[start] == SetDeadline && steps[k] == CheckDeadline ==>
      (Patient(config, states, start) <= states[k].now <==> states[k + 1].monitor.Gone?)
    ensures steps[k] in {FirstRead, ReadInflight, CheckDeadline} && states[k + 1].monitor.Gone? ==>
      MONITOR in states[k + 1].callers
  {
    assert Enabled(states[k], steps[k]) && states[k + 1] == Next(config, states[k], steps[k]);
    if start < k && steps[start] == SetDeadline {
      WaitIsBounded(config, states, steps, start, k);
    }
  }

  // ---- The tracker's fields, updated step by step -----------------------------------------------------------

  class Tracker {
    const config: Config
    var now: int
    var lastBeat: int
    var inflight: int
    var once: Once
    var closes: nat
    var hooks: nat
    var callers: map<nat, Phase>
    var monitor: Monitor

    ghost function Current(): State
      reads this
    {
      State(now, lastBeat, inflight, once, closes, hooks, callers, monitor)
    }

    constructor (config: Config, now: int)
      ensures Current() == Initial(now) && this.config == config && Inv(config, Current())
    {
      this.config, this.now, lastBeat, inflight := config, now, now, 0;
      once, closes, hooks, callers, monitor := Untouched, 0, 0, map[], Polling;
    }

    method Heartbeat()
      requires Inv(config, Current())
      modifies this
      ensures Inv(config, Current()) && Current() == Next(config, old(Current()), Step.Heartbeat)
    {
      lastBeat := now;
    }

    /** The head of `once.Do`. */
    method Enter(id: nat)
      requires Inv(config, Current()) && Enabled(Current(), Step.Enter(id))
      modifies this
      ensures Inv(config, Current()) && Current() == Next(config, old(Current()), Step.Enter(id))
    {
      InvStep(config, Current(), Step.Enter(id));
      if once.Untouched? {
        once := Running(id);
        callers := callers[id := Inside];
      } else {
        callers := callers[id := Returned];
      }
    }

    /** The guarded body; the channel must be open. */
    method CloseChannel(id: nat)
      requires Inv(config, Current()) && Enabled(Current(), Step.CloseChannel(id))
      modifies this
      ensures old(closes) == 0
      ensures Inv(config, Current()) && Current() == Next(config, old(Current()), Step.CloseChannel(id))
    {
      InvStep(config, Current(), Step.CloseChannel(id));
      closes := closes + 1;
      callers := callers[id := AfterClose];
    }

    method CallHook(id: nat)
      requires Inv(config, Current()) && Enabled(Current(), Step.CallHook(id))
      modifies this
      ensures old(hooks) == 0
      ensures Inv(config, Current()) && Current() == Next(config, old(Current()), Step.CallHook(id))
    {
      InvStep(config, Current(), Step.CallHook(id));
      if config.hook {
        hooks := hooks + 1;
      }
      callers := callers[id := Returned];
      once := Over;
    }

    /** `isLeaseStale` and the branch on it. */
    method Judge()
      requires Inv(config, Current()) && Enabled(Current(), Step.Judge)
      modifies this
      ensures Inv(config, Current()) && Current() == Next(config, old(Current()), Step.Judge)
    {
      InvStep(config, Current(), Step.Judge);
      var cfg := config.Normalized();
      var staleAfter := cfg.heartbeatInterval * cfg.missedLimit;
      if monitor.at - lastBeat > staleAfter {
        monitor := Expired;
      } else {
        monitor := Polling;
      }
    }

    method FirstRead()
      requires Inv(config, Current()) && Enabled(Current(), Step.FirstRead)
      modifies this
      ensures Inv(config, Current()) && Current() == Next(config, old(Current()), Step.FirstRead)
    {
      InvStep(config, Current(), Step.FirstRead);
      if inflight == 0 {
        monitor := Gone;
        callers := callers[MONITOR := AtGuard];
        return;
      }
      monitor := Waiting;
    }

    method AcquireInflight()
      requires Inv(config, Current())
      modifies this
      ensures Inv(config, Current()) && Current() == Next(config, old(Current()), Step.Acquire)
    {
      inflight := inflight + 1;
    }

    method ReleaseInflight()
      requires Inv(config, Current())
      modifies this
      ensures Inv(config, Current()) && Current() == Next(config, old(Current()), Step.Release)
    {
      inflight := inflight - 1;
    }

    /** The two halves of the loop condition in `handleExpiry`. */
    method ReadInflight()
      requires Inv(config, Current()) && Enabled(Current(), Step.ReadInflight)
      modifies this
      ensures Inv(config, Current()) && Current() == Next(config, old(Current()), Step.ReadInflight)
    {
      InvStep(config, Current(), Step.ReadInflight);
      if inflight > 0 {
        monitor := Busy(monitor.deadline);
      } else {
        monitor := Gone;
        callers := callers[MONITOR := AtGuard];
      }
    }

    method CheckDeadline()
      requires Inv(config, Current()) && Enabled(Current(), Step.CheckDeadline)
      modifies this
      ensures Inv(config, Current()) && Current() == Next(config, old(Current()), Step.CheckDeadline)
    {
      InvStep(config, Current(), Step.CheckDeadline);
      if now < monitor.deadline {
        monitor := Looping(monitor.deadline);
      } else {
        monitor := Gone;
        callers := callers[MONITOR := AtGuard];
      }
    }
  }
}
