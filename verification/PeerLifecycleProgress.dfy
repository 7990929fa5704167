/** When a peer restarts, is given up, or is left alone: stated in times and events of whole runs. */
module PeerLifecycleProgress {
  import opened PeerLifecycle
  import opened PeerLifecycleRuns

  /** How many of these restarts are less than a minute old. */
  function InLastMinute(restarts: seq<int>, now: int): nat {
    if restarts == [] then 0
    else InLastMinute(restarts[..|restarts| - 1], now)
         + if now - restarts[|restarts| - 1] < 60_000_000_000 then 1 else 0
  }

  /** Half a second, one second, two seconds. */
  function Wait(k: nat): int
    requires k < 3
  {
    500_000_000 * [1, 2, 4][k]
  }

  /** Repeated losses and restart requests, notices for other generations, and ticks before this time. */
  predicate Idle(e: Event, generation: nat, due: int) {
    match e.cause
    case ConnectedEvent(g) => g != generation
    case DisconnectedEvent(_) => true
    case RestartRequest(_) => true
    case RemoteClosedEvent(g) => g != generation
    case CloseCall => false
    case TickCall => e.at < due
  }

  predicate AllIdle(events: seq<Event>, generation: nat, due: int) {
    forall e :: e in events ==> Idle(e, generation, due)
  }

  predicate IsLoss(cause: Cause, generation: nat) {
    cause == DisconnectedEvent(generation) || cause == RestartRequest(generation)
  }

  // ----- counting the recent attempts -----

  lemma {:induction false} NoneRecent(restarts: seq<int>, now: int)
    requires forall i :: 0 <= i < |restarts| ==> now - restarts[i] >= 60_000_000_000
    ensures InLastMinute(restarts, now) == 0
  {
    if restarts != [] { NoneRecent(restarts[..|restarts| - 1], now); }
  }

  lemma {:induction false} LastAreRecent(restarts: seq<int>, n: nat, now: int)
    requires n <= |restarts|
    requires forall i :: 0 <= i < |restarts| - n ==> now - restarts[i] >= 60_000_000_000
    requires forall i :: |restarts| - n <= i < |restarts| ==> now - restarts[i] < 60_000_000_000
    ensures InLastMinute(restarts, now) == n
  {
    if n == 0 {
      NoneRecent(restarts, now);
    } else {
      LastAreRecent(restarts[..|restarts| - 1], n - 1, now);
    }
  }

  /** What the policy keeps after pruning are the restarts of the last minute. */
  lemma PrunedAreRecent(p: Policy, r: seq<int>, unanswered: nat, before: int, now: int)
    requires Good(p, r, unanswered, before) && before <= now
    ensures |Recent(p.attempts, now)| == InLastMinute(r, now) <= 3
  {
    LedgerPrune(p.attempts, r, unanswered, before, now);
    var recent := Recent(p.attempts, now);
    var n := |recent|;
    assert recent == r[|r| - n..];
    forall i | |r| - n <= i < |r| ensures now - r[i] < 60_000_000_000 {
      assert r[|r| - n] == recent[0] && r[i] >= r[|r| - n];
    }
    LastAreRecent(r, n, now);
  }

  lemma RecentInRun(generation: nat, start: int, events: seq<Event>, now: int)
    requires Timed(start, events) && End(start, events) <= now
    ensures var h := Run(generation, start, events);
      |Recent(h.policy.attempts, now)| == InLastMinute(Restarts(h.log), now) <= 3
  {
    RunKeeps(generation, start, events);
    var h := Run(generation, start, events);
    PrunedAreRecent(h.policy, Restarts(h.log), Unanswered(h.log), End(start, events), now);
  }

  // ----- waiting -----

  lemma {:induction false} SameGeneration(generation: nat, start: int, events: seq<Event>)
    ensures Run(generation, start, events).policy.generation == generation
  {
    if events != [] {
      var init := events[..|events| - 1];
      SameGeneration(generation, start, init);
      StepGeneration(Run(generation, start, init), events[|events| - 1]);
      hide Step;
    }
  }

  lemma StepGeneration(h: History, e: Event)
    ensures Step(h, e).policy.generation == h.policy.generation
  {
    hide Recent;
  }

  lemma IdleStep(h: History, e: Event)
    requires !h.policy.Terminal() && !h.policy.state.Connected?
    requires Idle(e, h.policy.generation, h.policy.due)
    ensures Step(h, e) == h
  {
    assert h.log + [] == h.log;
  }

  /** Nothing idle moves a peer that waits for its deadline. */
  lemma {:induction false} Waiting(generation: nat, start: int, events: seq<Event>, idle: seq<Event>)
    requires var p := Run(generation, start, events).policy;
      !p.Terminal() && !p.state.Connected? && AllIdle(idle, generation, p.due)
    ensures Run(generation, start, events + idle) == Run(generation, start, events)
  {
    if idle == [] {
      assert events + idle == events;
    } else {
      var init, last := idle[..|idle| - 1], idle[|idle| - 1];
      Waiting(generation, start, events, init);
      SameGeneration(generation, start, events);
      assert events + idle == (events + init) + [last];
      RunMore(generation, start, events + init, last);
      IdleStep(Run(generation, start, events), last);
      hide Run;
    }
  }

  lemma {:induction false} TimedPrefix(start: int, events: seq<Event>, more: seq<Event>)
    requires Timed(start, events + more)
    ensures Timed(start, events) && End(start, events) <= End(start, events + more)
  {
    if more == [] {
      assert events + more == events;
    } else {
      assert (events + more)[..|events + more| - 1] == events + more[..|more| - 1];
      TimedPrefix(start, events, more[..|more| - 1]);
    }
  }

  /** A peer that gave up an attempt at this time, with k restarts in the minute before. */
  predicate Abandoned(h: History, at: int) {
    var k := InLastMinute(Restarts(h.log), at);
    if k < 3 then h.policy.state.Backoff? && h.policy.due == at + Wait(k)
    else h.policy.state.Failed? && h.policy.failure.RestartLimit?
  }

  lemma LimitFails(h: History, at: int)
    ensures Abandoned(h, at) && InLastMinute(Restarts(h.log), at) >= 3 ==> h.policy.failure.RestartLimit?
  {
  }

  lemma ScheduleAbandons(generation: nat, start: int, events: seq<Event>, at: int)
    requires Timed(start, events) && End(start, events) <= at
    ensures var h := Run(generation, start, events);
      Abandoned(History(h.policy.Schedule(at), h.log), at)
  {
    RecentInRun(generation, start, events, at);
    hide Run, Timed, Recent, InLastMinute, Restarts;
  }

  /** Backing off since a time: the restart is dispatched by every tick from the deadline on and by none before. */
  lemma BackoffEnds(generation: nat, start: int, events: seq<Event>, idle: seq<Event>, at: int, now: int)
    requires var h := Run(generation, start, events);
      && InLastMinute(Restarts(h.log), at) < 3 && Abandoned(h, at)
      && AllIdle(idle, generation, at + Wait(InLastMinute(Restarts(h.log), at)))
    requires Timed(start, events + idle) && End(start, events + idle) <= now
    ensures var h := Run(generation, start, events);
      var due := at + Wait(InLastMinute(Restarts(h.log), at));
      var ticked := Run(generation, start, events + idle + [Event(now, TickCall)]);
      && Run(generation, start, events + idle) == h
      && Restarts(ticked.log) == (if now >= due then Restarts(h.log) + [now] else Restarts(h.log))
      && OnTick(h.policy, now).1 == (if now >= due then RestartIce else NoAction)
  {
    var h := Run(generation, start, events);
    Waiting(generation, start, events, idle);
    RunMore(generation, start, events + idle, Event(now, TickCall));
    RunKeeps(generation, start, events + idle);
    RestartIsDue(h, End(start, events + idle), now);
  }

  lemma RestartIsDue(h: History, before: int, now: int)
    requires Good(h.policy, Restarts(h.log), Unanswered(h.log), before) && before <= now && h.policy.state.Backoff?
    ensures OnTick(h.policy, now).1 == if now >= h.policy.due then RestartIce else NoAction
    ensures Restarts(Step(h, Event(now, TickCall)).log) ==
      if now >= h.policy.due then Restarts(h.log) + [now] else Restarts(h.log)
  {
    if now >= h.policy.due {
      RestartKeeps(h.policy, Restarts(h.log), Unanswered(h.log), before, now);
      LogGrows(h.log, Restarted(now));
    } else {
      assert h.log + [] == h.log;
    }
  }

  // ----- the theorems -----

  /** A connection is up after these events: it was accepted by the last of them. */
  predicate JustConnected(generation: nat, start: int, events: seq<Event>) {
    && events != []
    && Run(generation, start, events).log == Run(generation, start, events[..|events| - 1]).log + [Accepted]
  }

  lemma ConnectedIsUp(generation: nat, start: int, events: seq<Event>)
    requires JustConnected(generation, start, events)
    ensures Run(generation, start, events).policy.state.Connected?
  {
    var h := Run(generation, start, events[..|events| - 1]);
    var e := events[|events| - 1];
    var marks := React(h.policy, e).1;
    assert (h.log + marks)[|h.log|] == Accepted;
  }

  /** A connection that is up is left alone by ticks, further connections and foreign notices. */
  predicate LeavesAlone(e: Event, generation: nat) {
    match e.cause
    case ConnectedEvent(_) => true
    case DisconnectedEvent(g) => g != generation
    case RestartRequest(g) => g != generation
    case RemoteClosedEvent(g) => g != generation
    case CloseCall => false
    case TickCall => true
  }

  lemma StaysUpStep(h: History, e: Event)
    requires h.policy.state.Connected? && LeavesAlone(e, h.policy.generation)
    ensures Step(h, e).policy == h.policy && Restarts(Step(h, e).log) == Restarts(h.log)
  {
    var (next, marks) := React(h.policy, e);
    assert next == h.policy && (marks == [] || marks == [Accepted]);
    LogGrows(h.log, Accepted);
    assert h.log + [] == h.log;
    hide Restarts, React;
  }

  lemma {:induction false} StaysUp(generation: nat, start: int, events: seq<Event>, calm: seq<Event>)
    requires JustConnected(generation, start, events) && (forall e :: e in calm ==> LeavesAlone(e, generation))
    ensures var h, after := Run(generation, start, events), Run(generation, start, events + calm);
      && after.policy == h.policy && after.policy.state.Connected? && Restarts(after.log) == Restarts(h.log)
  {
    if calm == [] {
      assert events + calm == events;
      ConnectedIsUp(generation, start, events);
    } else {
      var init, last := calm[..|calm| - 1], calm[|calm| - 1];
      StaysUp(generation, start, events, init);
      SameGeneration(generation, start, events + init);
      assert events + calm == (events + init) + [last];
      RunMore(generation, start, events + init, last);
      hide Run, JustConnected, Restarts, Step;
      StaysUpStep(Run(generation, start, events + init), last);
    }
  }

  /** A lost connection is restarted half a second, one or two seconds after the loss, by the number of
      restarts in the last minute; repeated notices of the loss neither postpone nor hasten it. With three
      restarts in the last minute the peer fails at once instead. */
  lemma LossIsRestarted(generation: nat, start: int, up: seq<Event>, calm: seq<Event>, loss: Event, idle: seq<Event>, now: int)
    requires JustConnected(generation, start, up) && (forall e :: e in calm ==> LeavesAlone(e, generation))
    requires IsLoss(loss.cause, generation)
    requires Timed(start, up + calm + [loss] + idle) && End(start, up + calm + [loss] + idle) <= now
    ensures var h := Run(generation, start, up + calm);
      var k := InLastMinute(Restarts(h.log), loss.at);
      if k >= 3 then
        Run(generation, start, up + calm + [loss]).policy.failure.RestartLimit?
      else AllIdle(idle, generation, loss.at + Wait(k)) ==>
        var due := loss.at + Wait(k);
        var ticked := Run(generation, start, up + calm + [loss] + idle + [Event(now, TickCall)]);
        Restarts(ticked.log) == if now >= due then Restarts(h.log) + [now] else Restarts(h.log)
  {
    var calmly := up + calm;
    StaysUp(generation, start, up, calm);
    SameGeneration(generation, start, calmly);
    RunMore(generation, start, calmly, loss);
    TimedPrefix(start, calmly + [loss], idle);
    var h := Run(generation, start, calmly);
    ScheduleAbandons(generation, start, calmly, loss.at);
    assert h.log + [] == h.log;
    assert Run(generation, start, calmly + [loss]) == History(h.policy.Schedule(loss.at), h.log);
    var k := InLastMinute(Restarts(h.log), loss.at);
    hide Run, Timed, Restarts, InLastMinute;
    if k < 3 && AllIdle(idle, generation, loss.at + Wait(k)) {
      BackoffEnds(generation, start, calmly + [loss], idle, loss.at, now);
    }
  }

  /** A restart was dispatched by the last of these events. */
  predicate JustRestarted(generation: nat, start: int, events: seq<Event>) {
    && events != []
    && Run(generation, start, events).log
       == Run(generation, start, events[..|events| - 1]).log + [Restarted(events[|events| - 1].at)]
  }

  lemma RestartedIsRestarting(generation: nat, start: int, events: seq<Event>)
    requires JustRestarted(generation, start, events)
    ensures var p := Run(generation, start, events).policy;
      p.state.Restarting? && p.due == events[|events| - 1].at + 20_000_000_000
  {
    var h := Run(generation, start, events[..|events| - 1]);
    var e := events[|events| - 1];
    assert Run(generation, start, events) == Step(h, e);
    hide Run;
    MarkedRestarted(h, e);
  }

  lemma MarkedRestarted(h: History, e: Event)
    requires Step(h, e).log == h.log + [Restarted(e.at)]
    ensures Step(h, e).policy.state.Restarting? && Step(h, e).policy.due == e.at + 20_000_000_000
  {
    var marks := React(h.policy, e).1;
    assert (h.log + marks)[|h.log|] == Restarted(e.at);
  }

  /** A restart that nobody answers is given up by the first tick twenty seconds after it, and by none before;
      with three restarts in the last minute the peer fails then. */
  lemma UnansweredIsGivenUp(generation: nat, start: int, restarted: seq<Event>, idle: seq<Event>, tick: Event)
    requires JustRestarted(generation, start, restarted) && tick.cause == TickCall
    requires AllIdle(idle, generation, restarted[|restarted| - 1].at + 20_000_000_000)
    requires Timed(start, restarted + idle) && End(start, restarted + idle) <= tick.at
    ensures var h, after := Run(generation, start, restarted), Run(generation, start, restarted + idle + [tick]);
      && after.log == h.log
      && if tick.at < restarted[|restarted| - 1].at + 20_000_000_000 then after == h
         else Abandoned(after, tick.at)
              && (InLastMinute(Restarts(h.log), tick.at) >= 3 ==> after.policy.failure.RestartLimit?)
  {
    RestartedIsRestarting(generation, start, restarted);
    Waiting(generation, start, restarted, idle);
    RunMore(generation, start, restarted + idle, tick);
    ScheduleAbandons(generation, start, restarted + idle, tick.at);
    hide Run, Timed, Abandoned, JustRestarted, AllIdle, Restarts, InLastMinute;
    var h := Run(generation, start, restarted);
    assert h.log + [] == h.log;
    LimitFails(Run(generation, start, restarted + idle + [tick]), tick.at);
  }

  /** Given up with fewer restarts in the last minute, it is restarted again half a second, one or two seconds
      after that tick. */
  lemma UnansweredIsRetried(generation: nat, start: int, restarted: seq<Event>, idle: seq<Event>, tick: Event,
                            more: seq<Event>, now: int)
    requires JustRestarted(generation, start, restarted) && tick.cause == TickCall
    requires AllIdle(idle, generation, restarted[|restarted| - 1].at + 20_000_000_000)
    requires tick.at >= restarted[|restarted| - 1].at + 20_000_000_000
    requires var k := InLastMinute(Restarts(Run(generation, start, restarted).log), tick.at);
      k < 3 && AllIdle(more, generation, tick.at + Wait(k))
    requires Timed(start, restarted + idle + [tick] + more) && End(start, restarted + idle + [tick] + more) <= now
    ensures var r := Restarts(Run(generation, start, restarted).log);
      var due := tick.at + Wait(InLastMinute(r, tick.at));
      Restarts(Run(generation, start, restarted + idle + [tick] + more + [Event(now, TickCall)]).log)
      == if now >= due then r + [now] else r
  {
    var given := restarted + idle + [tick];
    TimedPrefix(start, given, more);
    RunMore(generation, start, restarted + idle, tick);
    UnansweredIsGivenUp(generation, start, restarted, idle, tick);
    var k := InLastMinute(Restarts(Run(generation, start, restarted).log), tick.at);
    hide Run, Timed, End, Restarts, InLastMinute, JustRestarted, AllIdle, Abandoned;
    BackoffEnds(generation, start, given, more, tick.at, now);
  }

  /** Until it is connected, lost or ended, a peer waits twenty seconds from its start: every tick from then on
      closes it, none before does, and a connection is accepted exactly until then. */
  lemma FirstConnection(generation: nat, start: int, idle: seq<Event>, now: int)
    requires AllIdle(idle, generation, start + 20_000_000_000)
    ensures var p := Run(generation, start, idle).policy;
      && OnTick(p, now).1 == (if now >= start + 20_000_000_000 then ClosePeer else NoAction)
      && (OnTick(p, now).0.failure.DirectConnectTimeout? <==> now >= start + 20_000_000_000)
      && (OnConnected(p, generation, now).1 <==> now < start + 20_000_000_000)
  {
    Waiting(generation, start, [], idle);
    assert [] + idle == idle;
    hide AllIdle;
  }

  lemma {:induction false} ConnectingSinceStart(generation: nat, start: int, events: seq<Event>)
    ensures var p := Run(generation, start, events).policy;
      p.state.Connecting? ==> p == Policy(generation, 0, start + 20_000_000_000, [], Connecting, NoFailure)
  {
    if events != [] {
      var init := events[..|events| - 1];
      ConnectingSinceStart(generation, start, init);
      StillConnecting(Run(generation, start, init), events[|events| - 1]);
      hide Step;
    }
  }

  lemma StillConnecting(h: History, e: Event)
    ensures Step(h, e).policy.state.Connecting? ==> Step(h, e).policy == h.policy
  {
    hide Recent;
  }

  /** Which connections are accepted: those of its own generation, before the peer failed or was closed, the
      first one within twenty seconds. */
  lemma AcceptedExactly(generation: nat, start: int, events: seq<Event>, g: nat, now: int)
    requires Timed(start, events) && End(start, events) <= now
    ensures var h := Run(generation, start, events);
      var ended := h.policy.state == Failed || h.policy.state == Closed;
      JustConnected(generation, start, events + [Event(now, ConnectedEvent(g))])
      <==> g == generation && !ended && (Accepted in h.log || now < start + 20_000_000_000)
  {
    var e := Event(now, ConnectedEvent(g));
    RunMore(generation, start, events, e);
    assert (events + [e])[..|events + [e]| - 1] == events;
    RunKeeps(generation, start, events);
    SameGeneration(generation, start, events);
    ConnectingSinceStart(generation, start, events);
    var h := Run(generation, start, events);
    hide Run, Timed, Good;
    if h.log != [] { assert h.log[0] == Accepted; }
    assert |h.log + [Accepted]| != |h.log|;
  }

  /** The other side hanging up fails a peer that has neither failed nor closed, whatever it waits for, and the
      next tick closes it; so does the limit. A peer closed here is not closed again. */
  lemma EndsAtOnce(generation: nat, start: int, events: seq<Event>, at: int, now: int)
    ensures var p := Run(generation, start, events).policy;
      var hungUp := Run(generation, start, events + [Event(at, RemoteClosedEvent(generation))]).policy;
      && (p.state != Failed && p.state != Closed ==>
            hungUp.state == Failed && hungUp.failure.RemoteClosed? && OnTick(hungUp, now).1 == ClosePeer)
      && (p.state == Failed ==> OnTick(p, now).1 == ClosePeer)
    ensures var closed := Run(generation, start, events + [Event(at, CloseCall)]).policy;
      closed.state == Closed && OnTick(closed, now).1 == NoAction
  {
    RunMore(generation, start, events, Event(at, RemoteClosedEvent(generation)));
    RunMore(generation, start, events, Event(at, CloseCall));
    SameGeneration(generation, start, events);
    hide Run;
  }
}
