/** The restart policy of one peer connection. Times are nanoseconds of a clock that never runs back. */
module PeerLifecycle {

  const SECOND := 1_000_000_000
  const MINUTE := 60_000_000_000
  const DEADLINE := 20_000_000_000

  datatype State = Connecting | Connected | Backoff | Restarting | Failed | Closed
  datatype Failure = NoFailure | DirectConnectTimeout | RestartLimit | RemoteClosed
  datatype Action = NoAction | RestartIce | ClosePeer

  /** An event for this generation reaches a peer that has neither failed nor closed. */
  predicate Admits(state: State, generation: nat, g: nat) {
    g == generation && !state.Closed? && !state.Failed?
  }

  datatype Policy = Policy(
    generation: nat, restartRevision: nat, due: int, attempts: seq<int>, state: State, failure: Failure)
  {
    predicate Terminal() { state.Failed? || state.Closed? }

    predicate Accepts(g: nat) { Admits(state, generation, g) }

    function Fail(f: Failure): Policy { this.(failure := f, state := Failed) }

    /** After the current attempt is abandoned: back off, unless the minute is used up. */
    function Schedule(now: int): Policy {
      var recent := Recent(attempts, now);
      if |recent| >= 3 then this.(attempts := recent).Fail(RestartLimit)
      else this.(attempts := recent, state := Backoff, due := now + BackoffDelay(|recent|))
    }
  }

  function Initial(generation: nat, now: int): Policy {
    Policy(generation, 0, now + DEADLINE, [], Connecting, NoFailure)
  }

  /** The attempts left once those a minute old have been dropped from the front. */
  function Recent(attempts: seq<int>, now: int): seq<int> {
    if attempts != [] && now - attempts[0] >= MINUTE then Recent(attempts[1..], now) else attempts
  }

  /** Half a second, doubled for each recent attempt. */
  function BackoffDelay(count: nat): int
    requires count < 3
  {
    if count == 0 then 500_000_000 else if count == 1 then 1_000_000_000 else 2_000_000_000
  }

  function OnConnected(p: Policy, g: nat, now: int): (Policy, bool) {
    if !p.Accepts(g) then (p, false)
    else if p.state.Connecting? && now >= p.due then (p.Fail(DirectConnectTimeout), false)
    else (p.(state := Connected), true)
  }

  function OnDisconnected(p: Policy, g: nat, now: int): (Policy, bool) {
    if !p.Accepts(g) then (p, false)
    else if p.state.Connected? then (p.Schedule(now), true)
    else (p, true)
  }

  function OnRemoteClosed(p: Policy, g: nat): (Policy, bool) {
    if p.Accepts(g) then (p.Fail(RemoteClosed), true) else (p, false)
  }

  function OnTick(p: Policy, now: int): (Policy, Action) {
    if p.state.Failed? then (p, ClosePeer)
    else if p.state.Closed? || p.state.Connected? || now < p.due then (p, NoAction)
    else if p.state.Connecting? then (p.Fail(DirectConnectTimeout), ClosePeer)
    else if p.state.Restarting? then
      var next := p.Schedule(now);
      (next, if next.state.Failed? then ClosePeer else NoAction)
    else
      var recent := Recent(p.attempts, now);
      if |recent| >= 3 then (p.(attempts := recent).Fail(RestartLimit), ClosePeer)
      else (p.(attempts := recent + [now], restartRevision := p.restartRevision + 1,
               state := Restarting, due := now + DEADLINE), RestartIce)
  }

  // ----- the object -----

  class PeerConnectionLifecycle {
    var generation: nat
    var restartRevision: nat
    var due: int
    var attempts: seq<int>
    var state: State
    var failure: Failure

    ghost function View(): Policy
      reads this
    {
      Policy(generation, restartRevision, due, attempts, state, failure)
    }

    constructor (generation: nat, now: int)
      ensures View() == Initial(generation, now)
    {
      this.generation, restartRevision, due := generation, 0, now + DEADLINE;
      attempts, state, failure := [], State.Connecting, NoFailure;
    }

    method Fail(f: Failure)
      modifies this
      ensures View() == old(View()).Fail(f)
    {
      failure, state := f, State.Failed;
    }

    method Prune(now: int)
      modifies this
      ensures View() == old(View()).(attempts := Recent(old(attempts), now))
    {
      while attempts != [] && now - attempts[0] >= MINUTE
        invariant View() == old(View()).(attempts := attempts)
        invariant Recent(attempts, now) == Recent(old(attempts), now)
        decreases |attempts|
      {
        attempts := attempts[1..];
      }
    }

    method Schedule(now: int)
      modifies this
      ensures View() == old(View()).Schedule(now)
    {
      Prune(now);
      if |attempts| >= 3 {
        Fail(RestartLimit);
        return;
      }
      state := State.Backoff;
      due := now + BackoffDelay(|attempts|);
    }

    method Connected(g: nat, now: int) returns (accepted: bool)
      modifies this
      ensures (View(), accepted) == OnConnected(old(View()), g, now)
    {
      if !Admits(state, generation, g) { return false; }
      if state == State.Connecting && now >= due {
        Fail(DirectConnectTimeout);
        return false;
      }
      state := State.Connected;
      accepted := true;
    }

    method Disconnected(g: nat, now: int) returns (accepted: bool)
      modifies this
      ensures (View(), accepted) == OnDisconnected(old(View()), g, now)
    {
      if !Admits(state, generation, g) { return false; }
      if state == State.Connected { Schedule(now); }
      accepted := true;
    }

    method RequestRestart(g: nat, now: int) returns (accepted: bool)
      modifies this
      ensures (View(), accepted) == OnDisconnected(old(View()), g, now)
    {
      accepted := Disconnected(g, now);
    }

    method RemoteClosed(g: nat) returns (accepted: bool)
      modifies this
      ensures (View(), accepted) == OnRemoteClosed(old(View()), g)
    {
      if !Admits(state, generation, g) { return false; }
      Fail(Failure.RemoteClosed);
      accepted := true;
    }

    method Close()
      modifies this
      ensures View() == old(View()).(state := Closed)
    {
      state := State.Closed;
    }

    method Tick(now: int) returns (action: Action)
      modifies this
      ensures (View(), action) == OnTick(old(View()), now)
    {
      if state == State.Failed { return ClosePeer; }
      if state == State.Closed || state == State.Connected || now < due { return NoAction; }
      if state == State.Connecting {
        Fail(DirectConnectTimeout);
        return ClosePeer;
      }
      if state == State.Restarting {
        Schedule(now);
        return if state == State.Failed then ClosePeer else NoAction;
      }
      Prune(now);
      if |attempts| >= 3 {
        Fail(RestartLimit);
        return ClosePeer;
      }
      attempts := attempts + [now];
      restartRevision := restartRevision + 1;
      state := State.Restarting;
      due := now + DEADLINE;
      action := RestartIce;
    }
  }
}

/** The policy over whole runs: any events, in any order, at nondecreasing times. */
module PeerLifecycleRuns {
  import opened PeerLifecycle

  datatype Cause = ConnectedEvent(g: nat) | DisconnectedEvent(g: nat) | RestartRequest(g: nat) | RemoteClosedEvent(g: nat) | CloseCall | TickCall
  datatype Event = Event(at: int, cause: Cause)

  /** What a run leaves behind: accepted connections and dispatched restarts, in order. */
  datatype Mark = Accepted | Restarted(at: int)
  datatype History = History(policy: Policy, log: seq<Mark>)

  function React(p: Policy, e: Event): (Policy, seq<Mark>) {
    match e.cause
    case ConnectedEvent(g) =>
      var (next, accepted) := OnConnected(p, g, e.at);
      (next, if accepted then [Accepted] else [])
    case DisconnectedEvent(g) => (OnDisconnected(p, g, e.at).0, [])
    case RestartRequest(g) => (OnDisconnected(p, g, e.at).0, [])
    case RemoteClosedEvent(g) => (OnRemoteClosed(p, g).0, [])
    case CloseCall => (p.(state := Closed), [])
    case TickCall =>
      var (next, action) := OnTick(p, e.at);
      (next, if action.RestartIce? then [Restarted(e.at)] else [])
  }

  function Step(h: History, e: Event): History {
    var (next, marks) := React(h.policy, e);
    History(next, h.log + marks)
  }

  function Run(generation: nat, start: int, events: seq<Event>): History {
    if events == [] then History(Initial(generation, start), [])
    else Step(Run(generation, start, events[..|events| - 1]), events[|events| - 1])
  }

  predicate Timed(start: int, events: seq<Event>) {
    events == [] ||
    (Timed(start, events[..|events| - 1]) && End(start, events[..|events| - 1]) <= events[|events| - 1].at)
  }

  function End(start: int, events: seq<Event>): int {
    if events == [] then start else events[|events| - 1].at
  }

  /** The restart times of a log. */
  function Restarts(log: seq<Mark>): seq<int> {
    if log == [] then []
    else match log[|log| - 1]
         case Accepted => Restarts(log[..|log| - 1])
         case Restarted(at) => Restarts(log[..|log| - 1]) + [at]
  }

  /** How many restarts follow the last accepted connection. */
  function Unanswered(log: seq<Mark>): (n: nat)
    ensures n <= |Restarts(log)|
  {
    if log == [] || log[|log| - 1].Accepted? then 0 else 1 + Unanswered(log[..|log| - 1])
  }

  lemma LogGrows(log: seq<Mark>, mark: Mark)
    ensures Restarts(log + [mark]) == if mark.Accepted? then Restarts(log) else Restarts(log) + [mark.at]
    ensures Unanswered(log + [mark]) == if mark.Accepted? then 0 else 1 + Unanswered(log)
  {
    assert (log + [mark])[..|log|] == log;
  }

  /** The attempts kept are the latest restarts; all older ones are at least a minute past. */
  ghost predicate Keeps(attempts: seq<int>, r: seq<int>, now: int) {
    && |attempts| <= |r| && attempts == r[|r| - |attempts|..]
    && forall i :: 0 <= i < |r| - |attempts| ==> now - r[i] >= MINUTE
  }

  ghost predicate Spaced(r: seq<int>, now: int) {
    && (forall i :: 0 <= i < |r| ==> r[i] <= now)
    && (forall i, j :: 0 <= i < j < |r| ==> r[j] - r[i] >= SECOND)
    && (forall i, j :: 0 <= i && i + 3 <= j < |r| ==> r[j] - r[i] >= MINUTE)
  }

  /** Restarts that nobody answered are a whole deadline apart. */
  ghost predicate Waited(r: seq<int>, unanswered: nat)
    requires unanswered <= |r|
  {
    forall i, j :: |r| - unanswered <= i < j < |r| ==> r[j] - r[i] >= DEADLINE
  }

  ghost predicate Ledger(attempts: seq<int>, r: seq<int>, unanswered: nat, now: int)
    requires unanswered <= |r|
  {
    Keeps(attempts, r, now) && Spaced(r, now) && Waited(r, unanswered) && |attempts| <= 3
  }

  /** How the state and the deadline fit the restarts so far. */
  ghost predicate Fits(p: Policy, r: seq<int>, unanswered: nat) {
    && p.restartRevision == |r|
    && (p.state.Connecting? ==> r == [])
    && (p.state.Connected? ==> unanswered == 0)
    && (p.state.Restarting? ==> p.attempts != [] && r != [] && p.due == r[|r| - 1] + DEADLINE)
    && (p.state.Backoff? ==> |p.attempts| < 3)
    && (p.state.Backoff? && r != [] ==>
          p.due >= r[|r| - 1] + SECOND && (unanswered > 0 ==> p.due >= r[|r| - 1] + DEADLINE))
    && (!p.Terminal() ==> p.failure.NoFailure?)
    && (p.failure.RestartLimit? ==> unanswered < 3 <= |r|)
  }

  /** Everything begins with an accepted connection, unless nothing has begun. */
  ghost predicate Opened(h: History) {
    && (h.log != [] ==> h.log[0].Accepted?)
    && (h.log == [] ==> h.policy.Terminal() || h.policy.state.Connecting?)
    && (h.policy.state.Connecting? || h.policy.failure.DirectConnectTimeout? ==> h.log == [])
    && (h.policy.failure.DirectConnectTimeout? ==> h.policy.Terminal())
  }

  ghost predicate Consistent(h: History, now: int) {
    Good(h.policy, Restarts(h.log), Unanswered(h.log), now) && Opened(h)
  }

  lemma {:induction false} RecentKeeps(attempts: seq<int>, r: seq<int>, now: int)
    requires Keeps(attempts, r, now)
    ensures Keeps(Recent(attempts, now), r, now)
    ensures |Recent(attempts, now)| <= |attempts|
    ensures Recent(attempts, now) != [] ==> now - Recent(attempts, now)[0] < MINUTE
  {
    if attempts != [] && now - attempts[0] >= MINUTE {
      assert Keeps(attempts[1..], r, now);
      RecentKeeps(attempts[1..], r, now);
    }
  }

  lemma LedgerPrune(attempts: seq<int>, r: seq<int>, unanswered: nat, before: int, now: int)
    requires unanswered <= |r| && Ledger(attempts, r, unanswered, before) && before <= now
    ensures Ledger(attempts, r, unanswered, now) && Ledger(Recent(attempts, now), r, unanswered, now)
    ensures Recent(attempts, now) != [] ==> now - Recent(attempts, now)[0] < MINUTE
    ensures |Recent(attempts, now)| <= |attempts|
    ensures Recent(attempts, now) == [] && r != [] ==> now - r[|r| - 1] >= MINUTE
  {
    assert Keeps(attempts, r, now);
    RecentKeeps(attempts, r, now);
  }

  /** Three recent attempts cannot all be unanswered: they would span a minute. */
  lemma LedgerLimit(attempts: seq<int>, r: seq<int>, unanswered: nat, now: int)
    requires unanswered <= |r| && Ledger(attempts, r, unanswered, now) && |attempts| == 3
    requires now - attempts[0] < MINUTE
    requires unanswered > 0 ==> now - r[|r| - 1] >= DEADLINE
    ensures unanswered < 3
  {
    var n := |r|;
    var first, second, third := r[n - 3], r[n - 2], r[n - 1];
    assert attempts[0] == first;
  }

  lemma KeepsPush(attempts: seq<int>, r: seq<int>, now: int)
    requires Keeps(attempts, r, now)
    ensures Keeps(attempts + [now], r + [now], now)
  {
    var next := r + [now];
    assert attempts + [now] == next[|next| - |attempts + [now]|..];
  }

  lemma SpacedPush(attempts: seq<int>, r: seq<int>, now: int)
    requires Keeps(attempts, r, now) && Spaced(r, now) && |attempts| < 3
    requires r != [] ==> now >= r[|r| - 1] + SECOND
    ensures Spaced(r + [now], now)
  {
    var next := r + [now];
    forall i | 0 <= i < |r| ensures now - r[i] >= SECOND && (i + 3 <= |r| ==> now - r[i] >= MINUTE) {
      var last := r[|r| - 1];
      assert i < |r| - 1 ==> last - r[i] >= SECOND;
    }
  }

  lemma WaitedPush(r: seq<int>, unanswered: nat, now: int)
    requires unanswered <= |r| && Waited(r, unanswered)
    requires forall i :: 0 <= i < |r| ==> r[i] <= now
    requires unanswered > 0 ==> now >= r[|r| - 1] + DEADLINE
    ensures Waited(r + [now], unanswered + 1)
  {
    if unanswered > 0 {
      var last := r[|r| - 1];
      forall i | |r| - unanswered <= i < |r| ensures now - r[i] >= DEADLINE {
        assert i < |r| - 1 ==> last - r[i] >= DEADLINE;
      }
    }
  }

  lemma LedgerPush(attempts: seq<int>, r: seq<int>, unanswered: nat, now: int)
    requires unanswered <= |r| && Ledger(attempts, r, unanswered, now) && |attempts| < 3
    requires r != [] ==> now >= r[|r| - 1] + SECOND
    requires unanswered > 0 ==> now >= r[|r| - 1] + DEADLINE
    ensures Ledger(attempts + [now], r + [now], unanswered + 1, now)
  {
    KeepsPush(attempts, r, now);
    SpacedPush(attempts, r, now);
    WaitedPush(r, unanswered, now);
    hide Keeps, Spaced, Waited;
  }

  ghost predicate Good(p: Policy, r: seq<int>, unanswered: nat, now: int) {
    match p
    case Policy(_, _, _, attempts, _, _) =>
      unanswered <= |r| && Ledger(attempts, r, unanswered, now) && Fits(p, r, unanswered)
  }

  lemma ScheduleKeeps(p: Policy, r: seq<int>, unanswered: nat, before: int, now: int)
    requires Good(p, r, unanswered, before) && before <= now
    requires p.state.Connected? || (p.state.Restarting? && now >= p.due)
    ensures Good(p.Schedule(now), r, unanswered, now)
  {
    LedgerPrune(p.attempts, r, unanswered, before, now);
    var recent := Recent(p.attempts, now);
    if |recent| == 3 { LedgerLimit(recent, r, unanswered, now); }
  }

  lemma Age(p: Policy, r: seq<int>, unanswered: nat, before: int, now: int)
    requires Good(p, r, unanswered, before) && before <= now
    ensures Good(p, r, unanswered, now)
  {
    LedgerPrune(p.attempts, r, unanswered, before, now);
  }

  lemma DisconnectedKeeps(p: Policy, r: seq<int>, unanswered: nat, before: int, g: nat, now: int)
    requires Good(p, r, unanswered, before) && before <= now
    ensures Good(OnDisconnected(p, g, now).0, r, unanswered, now)
  {
    if p.Accepts(g) && p.state.Connected? {
      hide Good;
      ScheduleKeeps(p, r, unanswered, before, now);
    } else {
      Age(p, r, unanswered, before, now);
    }
  }

  lemma RestartKeeps(p: Policy, r: seq<int>, unanswered: nat, before: int, now: int)
    requires Good(p, r, unanswered, before) && before <= now && p.state.Backoff? && now >= p.due
    ensures OnTick(p, now).1.RestartIce? && Good(OnTick(p, now).0, r + [now], unanswered + 1, now)
  {
    hide Ledger, Recent;
    LedgerPrune(p.attempts, r, unanswered, before, now);
    LedgerPush(Recent(p.attempts, now), r, unanswered, now);
  }

  lemma EndKeeps(p: Policy, r: seq<int>, unanswered: nat, before: int, g: nat, now: int)
    requires Good(p, r, unanswered, before) && before <= now
    ensures Good(OnRemoteClosed(p, g).0, r, unanswered, now) && Good(p.(state := Closed), r, unanswered, now)
    ensures p.state.Connecting? ==> Good(p.Fail(DirectConnectTimeout), r, unanswered, now)
  {
    Age(p, r, unanswered, before, now);
  }

  lemma TickKeeps(p: Policy, r: seq<int>, unanswered: nat, before: int, now: int)
    requires Good(p, r, unanswered, before) && before <= now
    ensures var (next, action) := OnTick(p, now);
      if action.RestartIce? then Good(next, r + [now], unanswered + 1, now) else Good(next, r, unanswered, now)
  {
    hide Good;
    if p.state.Restarting? && now >= p.due {
      ScheduleKeeps(p, r, unanswered, before, now);
    } else if p.state.Backoff? && now >= p.due {
      RestartKeeps(p, r, unanswered, before, now);
    } else {
      Age(p, r, unanswered, before, now);
      EndKeeps(p, r, unanswered, before, p.generation, now);
    }
  }

  lemma ConnectedKeeps(p: Policy, r: seq<int>, unanswered: nat, before: int, g: nat, now: int)
    requires Good(p, r, unanswered, before) && before <= now
    ensures var (next, accepted) := OnConnected(p, g, now);
      Good(next, r, if accepted then 0 else unanswered, now)
  {
    Age(p, r, unanswered, before, now);
    var next := OnConnected(p, g, now).0;
    assert Ledger(next.attempts, r, 0, now);
  }

  lemma ReactKeeps(p: Policy, r: seq<int>, unanswered: nat, before: int, e: Event)
    requires Good(p, r, unanswered, before) && before <= e.at
    ensures var (next, marks) := React(p, e);
      || (marks == [] && Good(next, r, unanswered, e.at))
      || (marks == [Accepted] && Good(next, r, 0, e.at))
      || (marks == [Restarted(e.at)] && Good(next, r + [e.at], unanswered + 1, e.at))
  {
    hide Good, OnConnected, OnDisconnected, OnRemoteClosed, OnTick;
    match e.cause
    case ConnectedEvent(g) => ConnectedKeeps(p, r, unanswered, before, g, e.at);
    case DisconnectedEvent(g) => DisconnectedKeeps(p, r, unanswered, before, g, e.at);
    case RestartRequest(g) => DisconnectedKeeps(p, r, unanswered, before, g, e.at);
    case RemoteClosedEvent(g) => EndKeeps(p, r, unanswered, before, g, e.at);
    case CloseCall => EndKeeps(p, r, unanswered, before, 0, e.at);
    case TickCall => TickKeeps(p, r, unanswered, before, e.at);
  }

  lemma OpenedKeeps(h: History, e: Event)
    requires Opened(h)
    ensures Opened(Step(h, e))
  {
  }

  lemma StepKeeps(h: History, before: int, e: Event)
    requires Consistent(h, before) && before <= e.at
    ensures Consistent(Step(h, e), e.at)
  {
    hide Good, React, Opened;
    OpenedKeeps(h, e);
    ReactKeeps(h.policy, Restarts(h.log), Unanswered(h.log), before, e);
    var marks := React(h.policy, e).1;
    if marks == [] {
      assert h.log + marks == h.log;
    } else {
      LogGrows(h.log, marks[0]);
      assert marks == [marks[0]];
    }
  }

  lemma {:induction false} RunKeeps(generation: nat, start: int, events: seq<Event>)
    requires Timed(start, events)
    ensures Consistent(Run(generation, start, events), End(start, events))
  {
    if events != [] {
      var init := events[..|events| - 1];
      RunKeeps(generation, start, init);
      StepKeeps(Run(generation, start, init), End(start, init), events[|events| - 1]);
    }
  }

  /** At most three restarts in any minute, and never two within a second. */
  lemma RestartBudget(generation: nat, start: int, events: seq<Event>, i: nat, j: nat)
    requires Timed(start, events) && i < j < |Restarts(Run(generation, start, events).log)|
    ensures var r := Restarts(Run(generation, start, events).log);
      r[j] - r[i] >= 1_000_000_000 && (i + 3 <= j ==> r[j] - r[i] >= 60_000_000_000)
  {
    RunKeeps(generation, start, events);
  }

  /** Before the first accepted connection nothing restarts; a direct-connect timeout means none was accepted. */
  lemma RestartNeedsConnection(generation: nat, start: int, events: seq<Event>)
    requires Timed(start, events)
    ensures var h := Run(generation, start, events);
      (h.log != [] ==> h.log[0].Accepted?) && (h.policy.failure.DirectConnectTimeout? ==> h.log == [])
  {
    RunKeeps(generation, start, events);
  }

  /** Once failed or closed, no later event is accepted or restarts anything. */
  lemma {:induction false} TerminalForever(generation: nat, start: int, events: seq<Event>, more: seq<Event>)
    requires Run(generation, start, events).policy.Terminal()
    ensures var h, after := Run(generation, start, events), Run(generation, start, events + more);
      after.policy.Terminal() && after.log == h.log && after.policy.failure == h.policy.failure
  {
    if more == [] {
      assert events + more == events;
    } else {
      var init := more[..|more| - 1];
      TerminalForever(generation, start, events, init);
      assert (events + more)[..|events + more| - 1] == events + init;
    }
  }

  /** And from then on every call is refused and changes nothing; a tick never restarts. */
  lemma TerminalRefuses(generation: nat, start: int, events: seq<Event>, more: seq<Event>, g: nat, now: int)
    requires Run(generation, start, events).policy.Terminal()
    ensures var p := Run(generation, start, events + more).policy;
      && OnConnected(p, g, now) == (p, false) && OnDisconnected(p, g, now) == (p, false)
      && OnRemoteClosed(p, g) == (p, false)
      && OnTick(p, now).0 == p && !OnTick(p, now).1.RestartIce?
  {
    TerminalForever(generation, start, events, more);
    hide Run;
  }

  /** Only flapping trips the budget: the limit is reached only if some connection was accepted
      after the oldest of the last three restarts. Timeouts alone never reach it. */
  lemma LimitMeansFlapping(generation: nat, start: int, events: seq<Event>) returns (oldest: nat, answer: nat)
    requires Timed(start, events)
    requires Run(generation, start, events).policy.failure.RestartLimit?
    ensures var log := Run(generation, start, events).log;
      && oldest < answer < |log| && log[oldest].Restarted? && |Restarts(log[oldest..])| == 3
      && log[answer].Accepted?
  {
    RunKeeps(generation, start, events);
    oldest, answer := ThirdFromLast(Run(generation, start, events).log);
  }

  lemma {:induction false} RestartsSplit(log: seq<Mark>, i: nat)
    requires i <= |log|
    ensures Restarts(log) == Restarts(log[..i]) + Restarts(log[i..])
  {
    if i == |log| {
      assert log[..i] == log && log[i..] == [];
    } else {
      var init := log[..|log| - 1];
      RestartsSplit(init, i);
      assert init[..i] == log[..i] && log[i..][..|log| - i - 1] == init[i..];
    }
  }

  lemma {:induction false} CountFrom(log: seq<Mark>, n: nat) returns (i: nat)
    requires 0 < n <= |Restarts(log)|
    ensures i < |log| && log[i].Restarted? && |Restarts(log[i..])| == n
  {
    var init := log[..|log| - 1];
    var last := log[|log| - 1];
    if last.Restarted? && n == 1 {
      i := |log| - 1;
      assert log[i..] == [last] && [last][..0] == [];
    } else {
      i := CountFrom(init, if last.Restarted? then n - 1 else n);
      assert log[i..] == init[i..] + [last];
      LogGrows(init[i..], last);
    }
  }

  lemma {:induction false} NoAnswerAfter(log: seq<Mark>, i: nat)
    requires i < |log| && forall j :: i <= j < |log| ==> log[j].Restarted?
    ensures Unanswered(log) >= |log| - i && |Restarts(log[i..])| == |log| - i
  {
    var init, last := log[..|log| - 1], log[|log| - 1];
    assert log == init + [last];
    if i < |init| {
      NoAnswerAfter(init, i);
      assert log[i..] == init[i..] + [last];
      LogGrows(init[i..], last);
    } else {
      assert log[i..] == [] + [last];
      LogGrows([], last);
    }
  }

  lemma ThirdFromLast(log: seq<Mark>) returns (oldest: nat, answer: nat)
    requires Unanswered(log) < 3 <= |Restarts(log)|
    ensures oldest < answer < |log| && log[oldest].Restarted? && |Restarts(log[oldest..])| == 3
    ensures log[answer].Accepted?
  {
    oldest := CountFrom(log, 3);
    if forall j :: oldest <= j < |log| ==> log[j].Restarted? {
      NoAnswerAfter(log, oldest);
      assert false;
    }
    answer :| oldest <= answer < |log| && log[answer].Accepted?;
  }

  // ----- the limit is reached -----

  const G := 1
  const UP := ConnectedEvent(G)
  const DOWN := DisconnectedEvent(G)

  /** A connection that comes up, breaks at once, and is restarted when due. */
  function AfterRound(before: seq<Event>, at: int, due: int): seq<Event> {
    before + [Event(at, UP)] + [Event(at, DOWN)] + [Event(due, TickCall)]
  }

  function ThreeRounds(): seq<Event> {
    AfterRound(AfterRound(AfterRound([], 0, 500_000_000), 500_000_000, 1_500_000_000), 1_500_000_000, 3_500_000_000)
  }

  function Flapping(): seq<Event> {
    ThreeRounds() + [Event(3_500_000_000, UP)] + [Event(3_500_000_000, DOWN)]
  }

  lemma RunMore(generation: nat, start: int, events: seq<Event>, e: Event)
    ensures Run(generation, start, events + [e]) == Step(Run(generation, start, events), e)
    ensures Timed(start, events + [e]) <==> Timed(start, events) && End(start, events) <= e.at
  {
    assert (events + [e])[..|events|] == events;
  }

  /** Fresh, or just restarted, after these restarts. */
  predicate RestartedAt(h: History, times: seq<int>) {
    && h.policy.attempts == times == Restarts(h.log)
    && h.policy.generation == G && |times| == h.policy.restartRevision && h.policy.failure.NoFailure?
    && (h.policy.state.Restarting? || (h.policy.state.Connecting? && h.policy.due == DEADLINE && times == []))
  }

  /** The policy through one round, while the minute has room. */
  lemma RoundPolicy(h: History, times: seq<int>, at: int, due: int)
    requires RestartedAt(h, times) && |times| < 3 && at < DEADLINE && due == at + BackoffDelay(|times|)
    requires times != [] ==> due - times[0] < MINUTE && at <= due
    ensures var t := Step(Step(Step(h, Event(at, UP)), Event(at, DOWN)), Event(due, TickCall));
      t == History(Policy(G, |times| + 1, due + DEADLINE, times + [due], Restarting, NoFailure), h.log + [Accepted] + [Restarted(due)])
  {
    hide Restarts;
    var up := Step(h, Event(at, UP));
    assert up == History(h.policy.(state := Connected), h.log + [Accepted]);
    assert Recent(times, at) == times && Recent(times, due) == times;
    var down := Step(up, Event(at, DOWN));
    assert up.log + [] == up.log;
    assert down == History(up.policy.(state := Backoff, due := due), up.log);
  }

  lemma RoundLog(log: seq<Mark>, due: int)
    ensures Restarts(log + [Accepted] + [Restarted(due)]) == Restarts(log) + [due]
  {
    LogGrows(log, Accepted);
    LogGrows(log + [Accepted], Restarted(due));
  }

  lemma Round(before: seq<Event>, times: seq<int>, at: int, due: int)
    requires Timed(0, before) && End(0, before) <= at && RestartedAt(Run(G, 0, before), times)
    requires |times| < 3 && at < DEADLINE && due == at + BackoffDelay(|times|)
    requires times != [] ==> due - times[0] < MINUTE && at <= due
    ensures var events := AfterRound(before, at, due);
      Timed(0, events) && End(0, events) == due && RestartedAt(Run(G, 0, events), times + [due])
  {
    var h, up := Run(G, 0, before), before + [Event(at, UP)];
    RunMore(G, 0, before, Event(at, UP));
    RunMore(G, 0, up, Event(at, DOWN));
    RunMore(G, 0, up + [Event(at, DOWN)], Event(due, TickCall));
    RoundPolicy(h, times, at, due);
    RoundLog(h.log, due);
    hide Run, Timed, Restarts, Step, Recent;
  }

  lemma ThreeRoundsRun()
    ensures Timed(0, ThreeRounds()) && End(0, ThreeRounds()) == 3_500_000_000
    ensures RestartedAt(Run(G, 0, ThreeRounds()), [500_000_000, 1_500_000_000, 3_500_000_000])
  {
    var a := AfterRound([], 0, 500_000_000);
    var b := AfterRound(a, 500_000_000, 1_500_000_000);
    assert RestartedAt(Run(G, 0, []), []) && Timed(0, []) && End(0, []) == 0;
    hide Run, Timed, AfterRound, RestartedAt;
    Round([], [], 0, 500_000_000);
    assert [] + [500_000_000] == [500_000_000];
    Round(a, [500_000_000], 500_000_000, 1_500_000_000);
    assert [500_000_000] + [1_500_000_000] == [500_000_000, 1_500_000_000];
    Round(b, [500_000_000, 1_500_000_000], 1_500_000_000, 3_500_000_000);
    assert [500_000_000, 1_500_000_000] + [3_500_000_000] == [500_000_000, 1_500_000_000, 3_500_000_000];
  }

  /** The restart limit can be reached, in three and a half seconds. */
  lemma FlappingReachesLimit()
    ensures Timed(0, Flapping()) && Run(G, 0, Flapping()).policy.failure.RestartLimit?
    ensures Restarts(Run(G, 0, Flapping()).log) == [500_000_000, 1_500_000_000, 3_500_000_000]
  {
    ThreeRoundsRun();
    var events := ThreeRounds();
    var log := Run(G, 0, events).log;
    RunMore(G, 0, events, Event(3_500_000_000, UP));
    RunMore(G, 0, events + [Event(3_500_000_000, UP)], Event(3_500_000_000, DOWN));
    assert log + [Accepted] + [] == log + [Accepted];
    LogGrows(log, Accepted);
    hide Run, Timed, Restarts, ThreeRounds;
  }
}
