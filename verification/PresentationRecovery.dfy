/** Rebuilding a presenter after its graphics device was lost: at most so often, and never at once.
    Times are milliseconds of the clock the caller reads. */
module PresentationRecovery {

  const RETRY_DELAY := 250
  const ATTEMPT_LIMIT := 3
  const HEALTHY_FRAMES := 30

  datatype Code = Ok | DeviceRemoved | DeviceReset | DeviceHung | DriverInternalError | OtherCode(code: int)

  predicate Recoverable(c: Code) {
    c.DeviceRemoved? || c.DeviceReset? || c.DeviceHung? || c.DriverInternalError?
  }

  /** What the render callback does when it is called. */
  datatype Render = Shown(presented: bool) | PresentationError(code: Code) | OtherException

  datatype Outcome = Returned(presented: bool) | Thrown

  datatype Policy = Policy(retryAfter: int, recoveries: nat, attempts: nat, healthy: nat, lastError: Code, terminal: bool) {
    predicate Renders(now: int) { !terminal && now >= retryAfter }

    function Present(now: int, freshFrame: bool, render: Render): (Policy, Outcome) {
      if terminal then (this, Thrown)
      else if now < retryAfter then (this, Returned(false))
      else match render
           case Shown(presented) =>
             (if presented && freshFrame && healthy < HEALTHY_FRAMES then
                this.(healthy := healthy + 1, attempts := if healthy + 1 == HEALTHY_FRAMES then 0 else attempts)
              else this, Returned(presented))
           case PresentationError(c) => if Recoverable(c) then Rebuild(now, c) else (this, Thrown)
           case OtherException => (this, Thrown)
    }

    function Rebuild(now: int, c: Code): (Policy, Outcome) {
      var noted := this.(lastError := c, healthy := 0);
      if attempts == ATTEMPT_LIMIT then (noted.(terminal := true), Thrown)
      else (noted.(attempts := attempts + 1, recoveries := recoveries + 1, retryAfter := now + RETRY_DELAY), Returned(false))
    }
  }

  const UNUSED := Policy(0, 0, 0, 0, Ok, false)

  class PresentationRecovery {
    var retryAfter: int
    var recoveries: nat
    var attempts: nat
    var healthyFrames: nat
    var lastError: Code
    var terminal: bool

    ghost function View(): Policy
      reads this
    {
      Policy(retryAfter, recoveries, attempts, healthyFrames, lastError, terminal)
    }

    constructor ()
      ensures View() == UNUSED
    {
      retryAfter, recoveries, attempts, healthyFrames, lastError, terminal := 0, 0, 0, 0, Ok, false;
    }

    /** `render` is what the callback would do; `reset` tells whether the caller's reset was called. */
    method Present(render: Render, now: int, freshFrame: bool) returns (outcome: Outcome, invoked: bool, reset: bool)
      modifies this
      ensures (View(), outcome) == old(View()).Present(now, freshFrame, render)
      ensures invoked == old(View()).Renders(now)
      ensures reset == (invoked && render.PresentationError? && Recoverable(render.code))
    {
      invoked, reset := false, false;
      if terminal { return Thrown, invoked, reset; }
      if now < retryAfter { return Returned(false), invoked, reset; }
      invoked := true;
      match render {
        case Shown(presented) =>
          if presented && freshFrame && healthyFrames < HEALTHY_FRAMES {
            healthyFrames := healthyFrames + 1;
            if healthyFrames == HEALTHY_FRAMES { attempts := 0; }
          }
          outcome := Returned(presented);
        case PresentationError(c) =>
          if !Recoverable(c) { return Thrown, invoked, reset; }
          lastError, healthyFrames, reset := c, 0, true;
          if attempts == ATTEMPT_LIMIT {
            terminal := true;
            return Thrown, invoked, reset;
          }
          attempts, recoveries, retryAfter := attempts + 1, recoveries + 1, now + RETRY_DELAY;
          outcome := Returned(false);
        case OtherException => outcome := Thrown;
      }
    }
  }

  // ----- whole runs -----

  datatype Attempt = Attempt(now: int, freshFrame: bool, render: Render)

  /** The policy, and what happened: renders and recoveries with their times, fresh frames presented. */
  datatype Run = Run(policy: Policy, renders: seq<int>, recovered: seq<int>, presented: nat)

  function Step(r: Run, a: Attempt): Run {
    var (next, outcome) := r.policy.Present(a.now, a.freshFrame, a.render);
    Run(next,
        if r.policy.Renders(a.now) then r.renders + [a.now] else r.renders,
        if next.recoveries > r.policy.recoveries then r.recovered + [a.now] else r.recovered,
        r.presented + if r.policy.Renders(a.now) && a.freshFrame && outcome == Returned(true) then 1 else 0)
  }

  function After(attempts: seq<Attempt>): Run {
    if attempts == [] then Run(UNUSED, [], [], 0) else Step(After(attempts[..|attempts| - 1]), attempts[|attempts| - 1])
  }

  /** `renewals` full rows of healthy frames so far have paid for all recoveries but the latest attempts. */
  ghost predicate Paid(r: Run, renewals: nat) {
    match r
    case Run(policy, _, recovered, presented) =>
      && policy.recoveries == |recovered|
      && policy.attempts <= ATTEMPT_LIMIT && policy.healthy <= HEALTHY_FRAMES
      && policy.recoveries <= 3 * renewals + policy.attempts
      && 30 * renewals + (if policy.healthy < HEALTHY_FRAMES then policy.healthy else 0) <= presented
      && (policy.healthy == HEALTHY_FRAMES ==> policy.attempts == 0)
  }

  lemma StepPays(r: Run, a: Attempt, renewals: nat) returns (more: nat)
    requires Paid(r, renewals)
    ensures Paid(Step(r, a), more)
  {
    var next := Step(r, a).policy;
    more := if r.policy.healthy < HEALTHY_FRAMES && next.healthy == HEALTHY_FRAMES then renewals + 1 else renewals;
  }

  lemma {:induction false} RunPays(attempts: seq<Attempt>) returns (renewals: nat)
    ensures Paid(After(attempts), renewals)
  {
    renewals := 0;
    if attempts != [] {
      renewals := RunPays(attempts[..|attempts| - 1]);
      renewals := StepPays(After(attempts[..|attempts| - 1]), attempts[|attempts| - 1], renewals);
    }
  }

  /** At most three recoveries, and three more for every thirty fresh frames presented. */
  lemma RecoveriesAreBounded(attempts: seq<Attempt>)
    ensures var r := After(attempts);
      |r.recovered| == r.policy.recoveries <= 3 * (1 + r.presented / 30)
  {
    var renewals := RunPays(attempts);
    var r := After(attempts);
    assert renewals <= r.presented / 30;
  }

  /** Renders at most up to the last recovery's back-off, and recoveries a back-off apart. */
  ghost predicate BackedOff(r: Run) {
    match r
    case Run(policy, renders, recovered, _) =>
      forall i :: 0 <= i < |recovered| ==> recovered[i] + RETRY_DELAY <= policy.retryAfter && recovered[i] in renders
  }

  lemma {:induction false} RunBacksOff(attempts: seq<Attempt>)
    ensures BackedOff(After(attempts))
  {
    if attempts != [] {
      RunBacksOff(attempts[..|attempts| - 1]);
    }
  }

  /** Whatever the clock does, no render comes within 250 ms of a recovery before it. */
  lemma {:induction false} NoRenderSoonAfter(attempts: seq<Attempt>, more: Attempt, i: nat)
    requires i < |After(attempts).recovered| && After(attempts).policy.Renders(more.now)
    ensures more.now >= After(attempts).recovered[i] + 250
  {
    RunBacksOff(attempts);
  }

  /** Recovery is given up exactly when a device is lost for the fourth time without thirty fresh frames
      presented in a row in between; any other failure leaves the policy as it was. */
  lemma WhenItEnds(p: Policy, a: Attempt)
    requires !p.terminal
    ensures var (next, outcome) := p.Present(a.now, a.freshFrame, a.render);
      && (next.terminal <==> p.Renders(a.now) && p.attempts == ATTEMPT_LIMIT && a.render.PresentationError? && Recoverable(a.render.code))
      && (outcome.Thrown? && !next.terminal ==> next == p)
      && (outcome.Thrown? <==> next.terminal || (p.Renders(a.now) && !a.render.Shown? && !(a.render.PresentationError? && Recoverable(a.render.code))))
  {
  }

  /** Three recoveries in a row without a single fresh frame are possible, and a fourth loss is the end. */
  lemma FourLosses(c: Code)
    requires Recoverable(c)
    ensures var lost := seq(4, i => Attempt(250 * i, true, PresentationError(c)));
      After(lost[..3]).policy.recoveries == 3 && !After(lost[..3]).policy.terminal && After(lost).policy.terminal
  {
    var lost := seq(4, i => Attempt(250 * i, true, PresentationError(c)));
    assert lost[..3][..2] == lost[..2] && lost[..2][..1] == lost[..1] && lost[..1][..0] == [];
    assert After([]) == Run(UNUSED, [], [], 0);
    assert After(lost[..1]).policy == Policy(250, 1, 1, 0, c, false);
    assert After(lost[..2]).policy == Policy(500, 2, 2, 0, c, false);
    assert After(lost[..3]).policy == Policy(750, 3, 3, 0, c, false);
  }

  // ----- what is recovered from, and when it goes on -----

  /** The four ways to lose a device are recovered from: the caller resets, waits a quarter of a second and has one
      attempt less, until the third has been used. Every other error is passed on and changes nothing. */
  lemma LossIsRecovered(p: Policy, now: int, freshFrame: bool, c: Code)
    requires !p.terminal && now >= p.retryAfter
    ensures var (next, outcome) := p.Present(now, freshFrame, PresentationError(c));
      if c == DeviceRemoved || c == DeviceReset || c == DeviceHung || c == DriverInternalError then
        && next.lastError == c && next.healthy == 0
        && if p.attempts == 3 then next.terminal && outcome == Thrown
           else outcome == Returned(false) && !next.terminal && next.retryAfter == now + 250
                && next.attempts == p.attempts + 1 && next.recoveries == p.recoveries + 1
      else outcome == Thrown && next == p
  {
  }

  /** The callback is called by every attempt, except during the quarter of a second after the latest recovery and
      once recovery has ended. */
  lemma {:induction false} WhenRendered(attempts: seq<Attempt>, now: int)
    ensures var r := After(attempts);
      r.policy.Renders(now) <==>
        !r.policy.terminal && now >= if r.recovered == [] then 0 else r.recovered[|r.recovered| - 1] + 250
  {
    RetryIsDue(attempts);
    hide After;
  }

  lemma {:induction false} RetryIsDue(attempts: seq<Attempt>)
    ensures var r := After(attempts);
      r.policy.retryAfter == if r.recovered == [] then 0 else r.recovered[|r.recovered| - 1] + 250
  {
    if attempts != [] {
      RetryIsDue(attempts[..|attempts| - 1]);
    }
  }

  /** A fresh frame that is presented. */
  predicate Healthy(a: Attempt, retryAfter: int) {
    a.freshFrame && a.render == Shown(true) && a.now >= retryAfter
  }

  lemma {:induction false} FramesCount(attempts: seq<Attempt>, frames: seq<Attempt>)
    requires var p := After(attempts).policy;
      !p.terminal && p.healthy <= 30 && (p.healthy == 30 ==> p.attempts == 0) && forall a :: a in frames ==> Healthy(a, p.retryAfter)
    ensures var p, q := After(attempts).policy, After(attempts + frames).policy;
      && !q.terminal && q.retryAfter == p.retryAfter && q.recoveries == p.recoveries
      && q.healthy == (if p.healthy + |frames| < 30 then p.healthy + |frames| else 30)
      && q.attempts == (if p.healthy + |frames| < 30 then p.attempts else 0)
  {
    if frames == [] {
      assert attempts + frames == attempts;
    } else {
      FramesCount(attempts, frames[..|frames| - 1]);
      assert (attempts + frames)[..|attempts + frames| - 1] == attempts + frames[..|frames| - 1];
      assert Healthy(frames[|frames| - 1], After(attempts).policy.retryAfter);
    }
  }

  /** Thirty fresh frames presented in a row give all three attempts back. */
  lemma ThirtyFramesRenew(attempts: seq<Attempt>, frames: seq<Attempt>)
    requires var p := After(attempts).policy; !p.terminal && |frames| == 30 && forall a :: a in frames ==> Healthy(a, p.retryAfter)
    ensures var p := After(attempts + frames).policy; !p.terminal && p.attempts == 0
  {
    var renewals := RunPays(attempts);
    FramesCount(attempts, frames);
  }
}
