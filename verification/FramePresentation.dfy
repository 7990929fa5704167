/** A presentation session: a backend made on demand, recovered when its device is lost, and given up
    when recovery is, until the owner clears it. */
module FramePresentation {
  import P = PresentationRecovery

  const E_FAIL := -2147467259

  datatype PresentationOutcome = Unknown | Presented | Busy | Occluded | Minimized | Unavailable | Backoff | Failed

  datatype Statistics = Statistics(
    errors: nat, recoveries: nat, maximumFrameLatency: nat, hardwareAccelerated: bool, terminal: bool, lastError: P.Code,
    outcome: PresentationOutcome,
    busyDrops: nat, occludedDrops: nat, minimizedDrops: nat, unavailableDrops: nat, backoffDrops: nat)
  {
    function Counted(): Statistics {
      match outcome
      case Busy => this.(busyDrops := busyDrops + 1)
      case Occluded => this.(occludedDrops := occludedDrops + 1)
      case Minimized => this.(minimizedDrops := minimizedDrops + 1)
      case Unavailable => this.(unavailableDrops := unavailableDrops + 1)
      case _ => this
    }

    function Drops(): nat { busyDrops + occludedDrops + minimizedDrops + unavailableDrops + backoffDrops }
  }

  const NO_STATISTICS := Statistics(0, 0, 0, false, false, P.Ok, Unknown, 0, 0, 0, 0, 0)

  /** Making a backend: it is made, nothing is made, or the factory fails. */
  datatype Factory = Made | Nothing | FactoryError(code: P.Code) | FactoryException

  /** The time of a call, and what the foreign code does in it. */
  datatype World = World(now: int, factory: Factory, operation: P.Render, last: PresentationOutcome, latency: nat, accelerated: bool)

  /** Calls on the factory and the backend. */
  datatype BackendCall = Create(at: int) | Operate(at: int) | Reset

  datatype Session = Session(backend: bool, policy: P.Policy, statistics: Statistics, calls: seq<BackendCall>) {
    /** What the guarded callback does: make the backend if there is none, then operate it. */
    function Rendered(w: World): P.Render {
      if backend then w.operation
      else match w.factory
           case Made => w.operation
           case Nothing => P.OtherException
           case FactoryError(c) => P.PresentationError(c)
           case FactoryException => P.OtherException
    }

    function Invoked(w: World): Session {
      var made := if backend then calls else calls + [Create(w.now)];
      var equipped := backend || w.factory.Made?;
      Session(equipped, policy,
              match Rendered(w)
              case Shown(_) => statistics
              case PresentationError(c) => statistics.(errors := statistics.errors + 1, lastError := c, outcome := Failed)
              case OtherException => statistics.(errors := statistics.errors + 1, lastError := P.OtherCode(E_FAIL), outcome := Failed),
              if equipped then made + [Operate(w.now)] else made)
    }

    function ResetBackend(): Session {
      if backend then this.(calls := calls + [Reset]) else this
    }

    function Noted(w: World, invoked: bool, failed: bool, result: bool): Session {
      var s := statistics;
      var seen :=
        if !invoked then s.(outcome := Backoff, backoffDrops := s.backoffDrops + 1)
        else if result then s.(outcome := Presented)
        else if !failed then s.(outcome := w.last)
        else s;
      this.(statistics := seen.Counted())
    }

    function Finished(w: World, result: bool): (Session, bool) {
      (this.(statistics := statistics.(recoveries := policy.recoveries, maximumFrameLatency := if backend then w.latency else 0,
                                       hardwareAccelerated := backend && w.accelerated)), result)
    }

    function GivenUp(): (Session, bool) {
      var s := ResetBackend();
      (s.(statistics := s.statistics.(recoveries := policy.recoveries, maximumFrameLatency := 0, hardwareAccelerated := false, terminal := true)), false)
    }

    /** The policy is asked; if it renders, the callback runs, and a recoverable failure resets the backend. */
    function Attempted(w: World, frame: bool): (Session, P.Outcome) {
      var render, invoked := Rendered(w), policy.Renders(w.now);
      var (next, outcome) := policy.Present(w.now, frame, render);
      var tried := (if invoked then Invoked(w) else this).(policy := next);
      (if invoked && render.PresentationError? && P.Recoverable(render.code) then tried.ResetBackend() else tried, outcome)
    }

    function Run(w: World, frame: bool): (Session, bool) {
      if statistics.terminal then (this, false)
      else
        var (tried, outcome) := Attempted(w, frame);
        match outcome
        case Thrown => tried.GivenUp()
        case Returned(result) =>
          (if frame then tried.Noted(w, policy.Renders(w.now), !Rendered(w).Shown?, result) else tried).Finished(w, result)
    }

    function Clear(): Session {
      var s := ResetBackend();
      s.(policy := P.UNUSED,
         statistics := s.statistics.(recoveries := 0, maximumFrameLatency := 0, hardwareAccelerated := false, terminal := false,
                                     lastError := P.Ok, outcome := Unknown))
    }
  }

  class FramePresentationSession {
    var backend: bool
    var recovery: P.PresentationRecovery
    var statistics: Statistics
    ghost var calls: seq<BackendCall>

    ghost function View(): Session
      reads this, recovery
    {
      Session(backend, recovery.View(), statistics, calls)
    }

    constructor ()
      ensures View() == Session(false, P.UNUSED, NO_STATISTICS, []) && fresh(recovery)
    {
      backend, statistics, calls := false, NO_STATISTICS, [];
      recovery := new P.PresentationRecovery();
    }

    /** The guarded callback. What it throws is its result here. */
    method Invoke(w: World) returns (render: P.Render)
      modifies this`backend, this`statistics, this`calls
      ensures View() == old(View()).Invoked(w) && render == old(View()).Rendered(w)
    {
      render := P.OtherException;
      if !backend {
        calls := calls + [Create(w.now)];
        backend := w.factory.Made?;
        if w.factory.FactoryError? { render := P.PresentationError(w.factory.code); }
      }
      if backend {
        calls := calls + [Operate(w.now)];
        render := w.operation;
      }
      match render {
        case Shown(_) =>
        case PresentationError(c) =>
          statistics := statistics.(errors := statistics.errors + 1, lastError := c, outcome := Failed);
        case OtherException =>
          statistics := statistics.(errors := statistics.errors + 1, lastError := P.OtherCode(E_FAIL), outcome := Failed);
      }
    }

    method ResetBackend()
      modifies this`calls
      ensures View() == old(View()).ResetBackend()
    {
      if backend { calls := calls + [Reset]; }
    }

    method Attempt(w: World, frame: bool) returns (outcome: P.Outcome, invoked: bool, failed: bool)
      modifies this`backend, this`statistics, this`calls, recovery
      ensures (View(), outcome) == old(View()).Attempted(w, frame)
      ensures invoked == old(View()).policy.Renders(w.now) && (invoked ==> failed == !old(View()).Rendered(w).Shown?)
    {
      hide P.Policy.Present;
      NotRendering(recovery.View(), w.now, frame, P.Shown(false), View().Rendered(w));
      var render := P.Shown(false);
      if !recovery.terminal && w.now >= recovery.retryAfter {
        render := Invoke(w);
      }
      var reset;
      outcome, invoked, reset := recovery.Present(render, w.now, frame);
      failed := !render.Shown?;
      if reset { ResetBackend(); }
    }

    /** Notes what became of a frame. */
    method Note(w: World, invoked: bool, failed: bool, result: bool)
      modifies this`statistics
      ensures View() == old(View()).Noted(w, invoked, failed, result)
    {
      if !invoked {
        statistics := statistics.(outcome := Backoff, backoffDrops := statistics.backoffDrops + 1);
      } else if result {
        statistics := statistics.(outcome := Presented);
      } else if !failed {
        statistics := statistics.(outcome := w.last);
      }
      statistics := statistics.Counted();
    }

    method GiveUp()
      modifies this`statistics, this`calls
      ensures (View(), false) == old(View()).GivenUp()
    {
      ResetBackend();
      statistics := statistics.(recoveries := recovery.recoveries, maximumFrameLatency := 0, hardwareAccelerated := false, terminal := true);
    }

    method Run(w: World, frame: bool) returns (result: bool)
      modifies this, recovery
      ensures (View(), result) == old(View()).Run(w, frame) && recovery == old(recovery)
    {
      hide Session.Attempted, Session.Noted, Session.GivenUp;
      if statistics.terminal { return false; }
      NotedUninvoked(View(), w);
      var outcome, invoked, failed := Attempt(w, frame);
      if outcome.Thrown? {
        GiveUp();
        return false;
      }
      result := outcome.presented;
      if frame { Note(w, invoked, failed, result); }
      statistics := statistics.(recoveries := recovery.recoveries, maximumFrameLatency := if backend then w.latency else 0,
                                hardwareAccelerated := backend && w.accelerated);
    }

    method Clear()
      modifies this
      ensures View() == old(View()).Clear() && fresh(recovery)
    {
      ResetBackend();
      recovery := new P.PresentationRecovery();
      statistics := statistics.(recoveries := 0, maximumFrameLatency := 0, hardwareAccelerated := false, terminal := false,
                                lastError := P.Ok, outcome := Unknown);
    }

    method Release()
      modifies this`backend
      ensures View() == old(View()).(backend := false)
    {
      backend := false;
    }
  }

  /** Without a call it does not matter what the callback would have done. */
  lemma NotedUninvoked(s: Session, w: World)
    ensures forall t: Session, a, b, result :: t.Noted(w, false, a, result) == t.Noted(w, false, b, result)
  {
  }

  lemma NotRendering(p: P.Policy, now: int, frame: bool, a: P.Render, b: P.Render)
    ensures !p.Renders(now) ==> p.Present(now, frame, a) == p.Present(now, frame, b)
  {
  }

  // ----- whole sessions -----

  /** A frame is presented, the last image redrawn, the session cleared, or its backend released. */
  datatype Event = PresentFrame(w: World) | Update(w: World) | ClearAll | ReleaseBackend

  /** The session, and what its recovery policy was asked since the last clear. */
  datatype Play = Play(session: Session, attempts: seq<P.Attempt>)

  function Step(p: Play, e: Event): Play {
    match e
    case PresentFrame(w) => Play(p.session.Run(w, true).0, Asked(p, w, true))
    case Update(w) => Play(p.session.Run(w, false).0, Asked(p, w, false))
    case ClearAll => Play(p.session.Clear(), [])
    case ReleaseBackend => Play(p.session.(backend := false), p.attempts)
  }

  function Asked(p: Play, w: World, frame: bool): seq<P.Attempt> {
    if p.session.statistics.terminal then p.attempts
    else p.attempts + [P.Attempt(w.now, frame, p.session.Rendered(w))]
  }

  function Played(events: seq<Event>): Play {
    if events == [] then Play(Session(false, P.UNUSED, NO_STATISTICS, []), [])
    else Step(Played(events[..|events| - 1]), events[|events| - 1])
  }

  /** The policy is that of the attempts, and the statistics agree with it. */
  ghost predicate Agrees(p: Play) {
    match p
    case Play(Session(_, policy, statistics, _), attempts) =>
      && policy == P.After(attempts).policy
      && statistics.recoveries == policy.recoveries
      && (policy.terminal ==> statistics.terminal)
  }

  lemma AfterMore(attempts: seq<P.Attempt>, a: P.Attempt)
    ensures P.After(attempts + [a]) == P.Step(P.After(attempts), a)
  {
    assert (attempts + [a])[..|attempts|] == attempts;
  }

  lemma RunPolicy(s: Session, w: World, frame: bool)
    ensures var t := s.Run(w, frame).0;
      if s.statistics.terminal then t == s
      else
        t.policy == s.policy.Present(w.now, frame, s.Rendered(w)).0 && t.statistics.recoveries == t.policy.recoveries &&
        (t.statistics.terminal <==> s.policy.Present(w.now, frame, s.Rendered(w)).1.Thrown?)
  {
    hide P.Policy.Present;
  }

  lemma {:induction false} PlayedAgrees(events: seq<Event>)
    ensures Agrees(Played(events))
  {
    if events != [] {
      var p, e := Played(events[..|events| - 1]), events[|events| - 1];
      PlayedAgrees(events[..|events| - 1]);
      if e.PresentFrame? || e.Update? {
        var frame := e.PresentFrame?;
        RunPolicy(p.session, e.w, frame);
        if !p.session.statistics.terminal {
          AfterMore(p.attempts, P.Attempt(e.w.now, frame, p.session.Rendered(e.w)));
        }
        hide Session.Run, P.After;
      }
    }
  }

  /** Since the last clear a session recovers at most three times, and three more for every thirty frames
      presented; updates do not count. */
  lemma SessionRecoveriesAreBounded(events: seq<Event>)
    ensures var p := Played(events);
      p.session.statistics.recoveries <= 3 * (1 + P.After(p.attempts).presented / 30)
  {
    PlayedAgrees(events);
    P.RecoveriesAreBounded(Played(events).attempts);
  }

  /** The calls added by one event. */
  ghost predicate Adds(before: seq<BackendCall>, after: seq<BackendCall>, now: int, rendering: bool) {
    && before <= after
    && forall i :: |before| <= i < |after| ==> after[i] == Reset || (rendering && (after[i] == Create(now) || after[i] == Operate(now)))
  }

  lemma RunCalls(s: Session, w: World, frame: bool)
    ensures Adds(s.calls, s.Run(w, frame).0.calls, w.now, !s.statistics.terminal && s.policy.Renders(w.now))
  {
    hide P.Policy.Present;
    RenderCalls(s, w);
  }

  lemma RenderCalls(s: Session, w: World)
    ensures var t := s.Invoked(w);
      && Adds(s.calls, t.calls, w.now, true) && Adds(s.calls, t.calls + [Reset], w.now, true) && Adds(s.calls, t.calls + [Reset] + [Reset], w.now, true)
      && Adds(s.calls, s.calls + [Reset], w.now, false)
  {
  }

  /** The backend is not made or operated within 250 ms of any recovery since the last clear. */
  lemma NothingSoonAfterRecovery(events: seq<Event>, w: World, frame: bool, i: nat, j: nat)
    requires var p := Played(events);
      && i < |P.After(p.attempts).recovered|
      && |p.session.calls| <= j < |p.session.Run(w, frame).0.calls| && !p.session.Run(w, frame).0.calls[j].Reset?
    ensures var p := Played(events);
      p.session.Run(w, frame).0.calls[j].at == w.now >= P.After(p.attempts).recovered[i] + P.RETRY_DELAY
  {
    var p := Played(events);
    PlayedAgrees(events);
    RunCalls(p.session, w, frame);
    P.NoRenderSoonAfter(p.attempts, P.Attempt(w.now, frame, p.session.Rendered(w)), i);
  }

  /** Once a session has given up, it stays silent until it is cleared: nothing is made, presented,
      updated or reset, whatever is asked. */
  lemma {:induction false} SilentUntilCleared(events: seq<Event>, more: seq<Event>)
    requires Played(events).session.statistics.terminal && forall i :: 0 <= i < |more| ==> !more[i].ClearAll?
    ensures var s, t := Played(events).session, Played(events + more).session;
      t.calls == s.calls && t.statistics == s.statistics && t.policy == s.policy
  {
    if more == [] {
      assert events + more == events;
    } else {
      SilentUntilCleared(events, more[..|more| - 1]);
      assert (events + more)[..|events + more| - 1] == events + more[..|more| - 1];
    }
  }

  /** A session gives up exactly when a call throws: recovery exhausted, or a failure recovery is not for. */
  lemma WhenSessionsEnd(events: seq<Event>, w: World, frame: bool)
    requires !Played(events).session.statistics.terminal
    ensures var s := Played(events).session;
      s.Run(w, frame).0.statistics.terminal <==>
        s.policy.Renders(w.now) && !s.Rendered(w).Shown? &&
        (s.policy.attempts == 3
         || !(s.Rendered(w).PresentationError? &&
              s.Rendered(w).code in {P.DeviceRemoved, P.DeviceReset, P.DeviceHung, P.DriverInternalError}))
  {
    PlayedAgrees(events);
    RunPolicy(Played(events).session, w, frame);
    hide Session.Run;
  }

  /** A frame handed to a live session is shown, or is a drop counted once, or an error counted once, or
      leaves the backend's own verdict as the outcome. */
  lemma EveryFrameIsAccountedFor(s: Session, w: World)
    requires !s.statistics.terminal
    ensures var (t, result) := s.Run(w, true);
      var drops, errors := t.statistics.Drops() - s.statistics.Drops(), t.statistics.errors - s.statistics.errors;
      && drops + errors <= 1
      && (result ==> drops + errors == 0 && t.statistics.outcome.Presented?)
      && (errors == 1 <==> s.policy.Renders(w.now) && !s.Rendered(w).Shown?)
      && (drops == 0 && errors == 0 && !s.policy.terminal ==> t.statistics.outcome in {Presented, Unknown, Backoff, Failed})
  {
  }

  // ----- one frame, case by case -----

  /** A live session whose last recovery is a quarter of a second past, or that never had one. */
  predicate Live(s: Session, now: int) {
    !s.statistics.terminal && !s.policy.terminal && now >= s.policy.retryAfter
  }

  /** The calls that present a frame: the factory's, when there is no backend, then the backend's, when there is one. */
  function Presenting(s: Session, w: World): seq<BackendCall> {
    (if s.backend then [] else [Create(w.now)]) + (if s.backend || w.factory.Made? then [Operate(w.now)] else [])
  }

  predicate Operates(s: Session, w: World, operation: P.Render) {
    (s.backend || w.factory.Made?) && w.operation == operation
  }

  /** During the back-off a frame costs one drop and calls nothing. */
  lemma BackoffDrops(s: Session, w: World)
    requires !s.statistics.terminal && !s.policy.terminal && w.now < s.policy.retryAfter
    ensures var (t, result) := s.Run(w, true);
      && !result && t.calls == s.calls && t.backend == s.backend && t.policy == s.policy
      && t.statistics.outcome == Backoff && t.statistics.backoffDrops == s.statistics.backoffDrops + 1
      && t.statistics.errors == s.statistics.errors && !t.statistics.terminal
  {
  }

  /** Otherwise the backend is made if need be and shows the frame, or says why it could not: one drop of that kind. */
  lemma FrameIsShown(s: Session, w: World, shown: bool)
    requires Live(s, w.now) && Operates(s, w, P.Shown(shown))
    ensures var (t, result) := s.Run(w, true);
      && result == shown && t.backend && t.calls == s.calls + Presenting(s, w) && !t.statistics.terminal
      && t.statistics.outcome == (if shown then Presented else w.last)
      && t.statistics.errors == s.statistics.errors && t.statistics.recoveries == t.policy.recoveries == s.policy.recoveries
      && t.statistics.busyDrops == s.statistics.busyDrops + (if !shown && w.last == Busy then 1 else 0)
      && t.statistics.occludedDrops == s.statistics.occludedDrops + (if !shown && w.last == Occluded then 1 else 0)
      && t.statistics.minimizedDrops == s.statistics.minimizedDrops + (if !shown && w.last == Minimized then 1 else 0)
      && t.statistics.unavailableDrops == s.statistics.unavailableDrops + (if !shown && w.last == Unavailable then 1 else 0)
      && t.statistics.backoffDrops == s.statistics.backoffDrops
  {
    CallsAppend(s, w);
  }

  lemma CallsAppend(s: Session, w: World)
    ensures s.Invoked(w).calls == s.calls + Presenting(s, w)
  {
    assert s.calls + [Create(w.now)] + [Operate(w.now)] == s.calls + ([Create(w.now)] + [Operate(w.now)]);
    assert s.calls + ([Create(w.now)] + []) == s.calls + [Create(w.now)];
    assert s.calls + ([] + [Operate(w.now)]) == s.calls + [Operate(w.now)];
  }

  /** What the failing call reports, of the backend or of the factory. */
  predicate Fails(s: Session, w: World, c: P.Code) {
    Operates(s, w, P.PresentationError(c)) || (!s.backend && w.factory == FactoryError(c))
  }

  predicate Loss(c: P.Code) {
    c in {P.DeviceRemoved, P.DeviceReset, P.DeviceHung, P.DriverInternalError}
  }

  /** A lost device is reset and costs one of three attempts; when they are used up, or for any other error, the
      session gives up, resetting once more. Either way the failure is counted once and remembered. */
  lemma FailureIsHandled(s: Session, w: World, c: P.Code)
    requires Live(s, w.now) && Fails(s, w, c)
    ensures var (t, result) := s.Run(w, true);
      && !result && t.statistics.errors == s.statistics.errors + 1 && t.statistics.lastError == c
      && t.statistics.outcome == Failed && t.statistics.Drops() == s.statistics.Drops()
      && (if Loss(c) && s.policy.attempts != 3 then
            && !t.statistics.terminal && t.statistics.recoveries == s.policy.recoveries + 1
            && t.policy.retryAfter == w.now + 250
          else t.statistics.terminal)
      && t.calls == s.calls + Presenting(s, w) + Resets(s, w, if Loss(c) && s.policy.attempts == 3 then 2 else 1)
  {
    CallsAppend(s, w);
    assert s.Invoked(w).calls + [Reset] + [Reset] == s.Invoked(w).calls + [Reset, Reset];
    assert s.Invoked(w).calls + [] == s.Invoked(w).calls;
    hide Presenting;
  }

  /** Only a backend that is there is reset. */
  function Resets(s: Session, w: World, n: nat): seq<BackendCall>
    requires n <= 2
  {
    if !s.backend && !w.factory.Made? then [] else if n == 2 then [Reset, Reset] else if n == 1 then [Reset] else []
  }

  /** Anything else that is thrown, and a factory that makes nothing, ends the session with a general error. */
  lemma ExceptionIsHandled(s: Session, w: World)
    requires Live(s, w.now)
    requires Operates(s, w, P.OtherException) || (!s.backend && (w.factory.Nothing? || w.factory.FactoryException?))
    ensures var (t, result) := s.Run(w, true);
      && !result && t.statistics.terminal && t.statistics.outcome == Failed
      && t.statistics.errors == s.statistics.errors + 1 && t.statistics.lastError == P.OtherCode(-2147467259)
      && t.calls == s.calls + Presenting(s, w) + Resets(s, w, 1)
  {
    CallsAppend(s, w);
    assert s.Invoked(w).calls + [] == s.Invoked(w).calls;
    hide Presenting;
  }
}
