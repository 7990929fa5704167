/** What the session answers to each command and what the command then has done: over the whole way of a
    command from submission to reply, in the limits and codes of the program. */
module SessionProgress {
  import opened Bytes
  import opened HostMediaSession
  import opened SessionRuns

  predicate Stays(report: Report) {
    report.state != CaptureClosed && report.state != CaptureStopped && report.state != CaptureFailed
  }

  /** Who is still there after a refresh with this report. */
  function Left(c: Core, report: Report): map<nat, nat> {
    if c.capture && Stays(report) then c.viewers - report.failed else map[]
  }

  // ----- a refresh -----

  lemma DropFailedIs(c: Core, failed: set<nat>)
    requires c.distribution == Some(c.viewers.Keys)
    ensures var d := c.DropFailed(failed);
      && d.viewers == c.viewers - failed && d.distribution == Some(d.viewers.Keys)
      && d.capture == c.capture && d.lastConnection == c.lastConnection
      && d.current.state == c.current.state && d.current.generation == c.current.generation
      && d.current.viewerCount == |d.viewers|
  {
    var gone := failed * c.viewers.Keys;
    assert c.viewers - gone == c.viewers - failed;
    assert (c.viewers - gone).Keys == c.viewers.Keys - gone;
  }

  lemma ObservedIs(c: Core, report: Report)
    requires c.Valid() && c.capture
    ensures var seen := c.Observed(report.state);
      && seen.current.generation == c.current.generation && seen.lastConnection == c.lastConnection
      && if Stays(report) then
           seen.capture && seen.viewers == c.viewers && seen.distribution == Some(c.viewers.Keys)
         else !seen.capture && seen.viewers == map[] && seen.distribution.None? && seen.current.viewerCount == 0
  {
  }

  /** A refresh ends the session when capture reports that it closed, stopped or failed; otherwise it drops
      exactly the viewers whose consumers failed. */
  lemma RefreshIs(c: Core, report: Report)
    requires c.Valid()
    ensures var r := c.Refresh(report);
      && r.capture == (c.capture && Stays(report)) && r.viewers == Left(c, report)
      && r.distribution == (if r.capture then Some(r.viewers.Keys) else None)
      && r.current.generation == c.current.generation && r.lastConnection == c.lastConnection
      && r.current.viewerCount == |r.viewers|
  {
    if c.capture {
      ObservedIs(c, report);
      hide Core.Observed;
      if Stays(report) { DropFailedIs(c.Observed(report.state), report.failed); }
      hide Core.DropFailed;
    }
  }

  /** What a refresh shows: the state of capture, or that it runs without viewers. */
  lemma RefreshShows(c: Core, report: Report)
    requires c.Valid() && c.capture
    ensures c.Refresh(report).current.state ==
      match report.state
      case CaptureStarting => Starting
      case CaptureRecovering => Recovering
      case CaptureRunning => if forall v :: v in c.viewers ==> v in report.failed then WaitingForViewers else Running
      case CaptureMinimized => Minimized
      case CaptureUnavailable => SourceUnavailable
      case CaptureClosed => SourceClosed
      case CaptureStopped => Stopped
      case CaptureFailed => Failed
  {
    ObservedIs(c, report);
    ObservedShows(c, report.state);
    hide Core.Observed;
    if Stays(report) {
      DropFailedIs(c.Observed(report.state), report.failed);
      NoneLeft(c.viewers, report.failed);
    }
    hide Core.DropFailed, Core.Valid;
  }

  lemma ObservedShows(c: Core, state: CaptureState)
    ensures c.Observed(state).current.state ==
      match state
      case CaptureStarting => Starting
      case CaptureRecovering => Recovering
      case CaptureRunning => if c.viewers == map[] then WaitingForViewers else Running
      case CaptureMinimized => Minimized
      case CaptureUnavailable => SourceUnavailable
      case CaptureClosed => SourceClosed
      case CaptureStopped => Stopped
      case CaptureFailed => Failed
  {
  }

  lemma NoneLeft(viewers: map<nat, nat>, failed: set<nat>)
    ensures viewers - failed == map[] <==> forall v :: v in viewers ==> v in failed
    ensures viewers == map[] ==> viewers - failed == map[]
  {
    if v :| v in viewers && v !in failed {
      assert v in viewers - failed;
    }
  }

  /** The viewer remembered as failed is the highest of those dropped. */
  lemma RefreshRemembers(c: Core, report: Report, viewer: nat)
    requires c.Valid() && c.capture && Stays(report)
    requires viewer in c.viewers && viewer in report.failed
    requires forall v :: v in c.viewers && v in report.failed ==> v <= viewer
    ensures var r := c.Refresh(report).current;
      r.lastFailedViewer == viewer && r.lastFailedConnection == c.viewers[viewer]
  {
    var gone := report.failed * c.viewers.Keys;
    assert viewer in gone && Largest(gone) == viewer;
    var seen := c.Observed(report.state);
    ObservedIs(c, report);
    DropRemembers(seen, report.failed);
    hide Core.Observed, Core.DropFailed, Core.Valid;
  }

  lemma DropRemembers(c: Core, failed: set<nat>)
    requires failed * c.viewers.Keys != {}
    ensures var m := Largest(failed * c.viewers.Keys);
      c.DropFailed(failed).current.lastFailedViewer == m && c.DropFailed(failed).current.lastFailedConnection == c.viewers[m]
  {
  }

  // ----- the way of a command -----

  /** A worker between two turns, with nothing waiting. */
  ghost predicate Free(s: Session) {
    Valid(s) && !s.closing && !s.exited && s.active.None? && s.queue == []
  }

  function Serve(s: Session, request: Request, world: World): Session {
    Run(s, [Submitted(request), Taken, Performed(world), Answered])
  }

  lemma RunOn(s: Session, e: Event, rest: seq<Event>)
    ensures Run(s, [e] + rest) == Run(Step(s, e), rest)
  {
    assert ([e] + rest)[1..] == rest;
  }

  lemma RunThree(s: Session, a: Event, b: Event, c: Event)
    ensures Run(s, [a, b, c]) == Step(Step(Step(s, a), b), c)
  {
    RunOn(s, a, [b, c]);
    RunOn(Step(s, a), b, [c]);
    RunOn(Step(Step(s, a), b), c, []);
    assert [a] + [b, c] == [a, b, c] && [b] + [c] == [b, c] && [c] + [] == [c];
    hide Step;
  }

  lemma RunFour(s: Session, a: Event, b: Event, c: Event, d: Event)
    ensures Run(s, [a, b, c, d]) == Step(Step(Step(Step(s, a), b), c), d)
  {
    RunOn(s, a, [b, c, d]);
    assert [a] + [b, c, d] == [a, b, c, d];
    RunThree(Step(s, a), b, c, d);
    hide Step;
  }

  /** What the worker sees when it takes up a command: its core, marked with the operation. */
  function Marked(c: Core, operation: nat): Core {
    c.(current := c.current.(activeOperation := operation))
  }

  lemma Served(s: Session, request: Request, world: World)
    requires Free(s) && (request.Stop? ==> request.generation == s.published.generation)
    ensures var op, t := s.nextOperation + 1, Serve(s, request, world);
      var (next, error) := Marked(s.core, op).Turn(Some(request), world);
      && t.replies == s.replies[op := OperationResult(op, next.current.generation, error)]
      && t.core == Marked(next, 0) && t.published == t.core.current
      && t.active.None? && t.queue == [] && t.nextOperation == op
  {
    var op := s.nextOperation + 1;
    RunFour(s, Submitted(request), Taken, Performed(world), Answered);
    hide Core.Turn;
    var a := s.Submit(request);
    assert CancelAll(s.replies, s.queue, s.published.generation) == s.replies;
    assert a == s.(nextOperation := op, queue := [Command(op, request)]);
    hide CancelAll, Session.Submit, Run;
    assert [Command(op, request)][1..] == [];
    var b := a.Take();
    assert b.active == Some(Command(op, request)) && b.core == Marked(s.core, op) && b.queue == [];
  }

  /** A turn without a foreign exception: refresh, run, refresh. */
  lemma CleanTurn(c: Core, request: Request, world: World)
    requires c.Valid() && world.fault.NoFault?
    ensures var ready := c.Refresh(world.before);
      var (ran, error) := ready.Run(request);
      ready.Valid() && ran.Valid() && c.Turn(Some(request), world) == (ran.Refresh(world.after), error)
  {
    RefreshValid(c, world.before);
    RunValid(c.Refresh(world.before), request);
    hide Core.Refresh, Core.Run, Core.Valid;
  }

  lemma MarkedSame(c: Core, operation: nat, report: Report)
    requires c.Valid()
    ensures Marked(c, operation).Valid() && Left(Marked(c, operation), report) == Left(c, report)
  {
  }

  // ----- adding -----

  /** Why an add is refused, in the order of the checks, if it is. */
  lemma AddRuns(ready: Core, generation: nat, viewer: nat, connection: nat, hasDeliver: bool)
    ensures ready.RunAdd(generation, viewer, connection, hasDeliver).1 ==
      if generation != ready.current.generation then StaleGeneration
      else if !ready.capture then InvalidState
      else if viewer == 0 || viewer in ready.viewers || !hasDeliver then InvalidViewer
      else if connection == 0 || connection <= ready.lastConnection then StaleGeneration
      else if |ready.viewers| < 63 then NoError
      else Capacity
    ensures var (ran, error) := ready.RunAdd(generation, viewer, connection, hasDeliver);
      && ran.capture == ready.capture && ran.current.generation == ready.current.generation
      && ran.viewers == (if error.NoError? then ready.viewers[viewer := connection] else ready.viewers)
      && ran.lastConnection == (if error.NoError? then connection else ready.lastConnection)
  {
  }

  /** An add succeeds if and only if it names the current session, capture is still there, the viewer is not zero
      and not subscribed, there is a callback, the connection is above all before it, and fewer than 63 viewers are
      there; the first check that fails gives the answer. It is then subscribed unless the closing report drops it. */
  lemma AddIsAnswered(s: Session, generation: nat, viewer: nat, connection: nat, hasDeliver: bool, world: World)
    requires Free(s) && world.fault.NoFault?
    ensures var op, left := s.nextOperation + 1, Left(s.core, world.before);
      var t := Serve(s, AddViewer(generation, viewer, connection, hasDeliver), world);
      && op in t.replies
      && t.replies[op] == OperationResult(op, s.core.current.generation,
           if generation != s.core.current.generation then StaleGeneration
           else if !s.core.capture || !Stays(world.before) then InvalidState
           else if viewer == 0 || viewer in left || !hasDeliver then InvalidViewer
           else if connection == 0 || connection <= s.core.lastConnection then StaleGeneration
           else if |left| < 63 then NoError
           else Capacity)
      && (var there := if t.replies[op].error.NoError? then left[viewer := connection] else left;
          t.core.viewers == if Stays(world.after) then there - world.after.failed else map[])
  {
    var request := AddViewer(generation, viewer, connection, hasDeliver);
    var c := Marked(s.core, s.nextOperation + 1);
    Served(s, request, world);
    MarkedSame(s.core, s.nextOperation + 1, world.before);
    CleanTurn(c, request, world);
    RefreshIs(c, world.before);
    var ready := c.Refresh(world.before);
    AddRuns(ready, generation, viewer, connection, hasDeliver);
    RefreshIs(ready.RunAdd(generation, viewer, connection, hasDeliver).0, world.after);
    hide Core.Turn, Core.Refresh, Core.RunAdd, Core.Valid, Valid, Serve;
    NothingToDrop(map[], world.after.failed);
  }

  lemma NothingToDrop(none: map<nat, nat>, failed: set<nat>)
    ensures none == map[] ==> none - failed == map[]
  {
  }

  // ----- removing, starting, stopping -----

  lemma RemoveRuns(ready: Core, generation: nat, viewer: nat, connection: nat)
    ensures var (ran, error) := ready.RunRemove(generation, viewer, connection);
      && error == (if generation != ready.current.generation || (viewer in ready.viewers && ready.viewers[viewer] != connection)
                   then StaleGeneration else NoError)
      && ran.capture == ready.capture && ran.current.generation == ready.current.generation
      && ran.viewers == (if error.NoError? then ready.viewers - {viewer} else ready.viewers)
  {
  }

  /** A removal finds its viewer gone, replaced, or takes it away; other viewers stay. */
  lemma RemoveIsAnswered(s: Session, generation: nat, viewer: nat, connection: nat, world: World)
    requires Free(s) && world.fault.NoFault?
    ensures var op, left := s.nextOperation + 1, Left(s.core, world.before);
      var t := Serve(s, RemoveViewer(generation, viewer, connection), world);
      && op in t.replies
      && t.replies[op] == OperationResult(op, s.core.current.generation,
           if generation != s.core.current.generation || (viewer in left && left[viewer] != connection) then StaleGeneration
           else NoError)
      && (var there := if t.replies[op].error.NoError? then left - {viewer} else left;
          t.core.viewers == if Stays(world.after) then there - world.after.failed else map[])
  {
    var request := RemoveViewer(generation, viewer, connection);
    var c := Marked(s.core, s.nextOperation + 1);
    Served(s, request, world);
    MarkedSame(s.core, s.nextOperation + 1, world.before);
    CleanTurn(c, request, world);
    RefreshIs(c, world.before);
    var ready := c.Refresh(world.before);
    RemoveRuns(ready, generation, viewer, connection);
    RefreshIs(ready.RunRemove(generation, viewer, connection).0, world.after);
    hide Core.Turn, Core.Refresh, Core.RunRemove, Core.Valid, Valid, Serve;
    NothingToDrop(map[], {viewer});
    NothingToDrop(map[], world.after.failed);
  }

  lemma StartRuns(ready: Core, hasFactory: bool)
    requires ready.Valid()
    ensures var (ran, error) := ready.RunStart(hasFactory);
      if hasFactory && !ready.capture then
        && error == NoError && ran.capture && ran.viewers == map[] && ran.lastConnection == 0
        && ran.current.generation == ready.current.generation + 1
      else error == InvalidState && ran == ready
  {
  }

  /** A start needs a factory and a worker without capture; it opens the next generation, empty, and forgets the
      connections of the one before. */
  lemma StartIsAnswered(s: Session, hasFactory: bool, world: World)
    requires Free(s) && world.fault.NoFault?
    ensures var op, t := s.nextOperation + 1, Serve(s, Start(hasFactory), world);
      var starts := hasFactory && !(s.core.capture && Stays(world.before));
      && op in t.replies
      && t.replies[op] == (if starts then OperationResult(op, s.core.current.generation + 1, NoError)
                           else OperationResult(op, s.core.current.generation, InvalidState))
      && (starts ==> t.core.viewers == map[] && t.core.lastConnection == 0 && t.core.capture == Stays(world.after))
  {
    var request := Start(hasFactory);
    var c := Marked(s.core, s.nextOperation + 1);
    Served(s, request, world);
    MarkedSame(s.core, s.nextOperation + 1, world.before);
    CleanTurn(c, request, world);
    RefreshIs(c, world.before);
    var ready := c.Refresh(world.before);
    StartRuns(ready, hasFactory);
    RefreshIs(ready.RunStart(hasFactory).0, world.after);
    hide Core.Turn, Core.Refresh, Core.Valid, Core.RunStart, Valid, Serve;
    NothingToDrop(map[], world.after.failed);
  }

  /** A stop of the current session succeeds and leaves nothing of it. */
  lemma StopIsAnswered(s: Session, world: World)
    requires Free(s) && world.fault.NoFault?
    ensures var op, t := s.nextOperation + 1, Serve(s, Stop(s.core.current.generation), world);
      && op in t.replies && t.replies[op] == OperationResult(op, s.core.current.generation, NoError)
      && t.core.viewers == map[] && !t.core.capture && t.core.current.state == Stopped
  {
    var request := Stop(s.core.current.generation);
    var c := Marked(s.core, s.nextOperation + 1);
    Served(s, request, world);
    MarkedSame(s.core, s.nextOperation + 1, world.before);
    CleanTurn(c, request, world);
    RefreshIs(c, world.before);
    var ran := c.Refresh(world.before).RunStop(s.core.current.generation).0;
    assert !ran.capture && ran.viewers == map[] && ran.Refresh(world.after) == ran;
    hide Core.Turn, Core.Refresh, Core.Valid, Valid, Serve;
  }

  /** A foreign exception, wherever it strikes, ends the session; the command is answered with an internal error,
      unless it was refused before it got to the call that throws. */
  lemma FaultIsAnswered(s: Session, request: Request, world: World)
    requires Free(s) && (request.Stop? ==> request.generation == s.core.current.generation)
    requires world.fault.BeforeRun? || world.fault.AfterRun?
             || (world.fault.InRun? && Marked(s.core, s.nextOperation + 1).Refresh(world.before).Run(request).1.NoError?)
    ensures var op, t := s.nextOperation + 1, Serve(s, request, world);
      && op in t.replies && t.replies[op].error == Internal
      && t.core.viewers == map[] && !t.core.capture && t.core.current.state == Failed
  {
    Served(s, request, world);
    hide Core.Refresh, Core.Run, Core.Valid, Valid, Serve;
  }

  // ----- the queue -----

  /** Where a submitted command goes: it waits behind fewer than 64 others, or it is answered at once. */
  lemma SubmitIsAnswered(s: Session, request: Request)
    requires Valid(s)
    ensures var op, t := s.nextOperation + 1, s.Submit(request);
      var stale := request.Stop? && request.generation != s.published.generation;
      && (Command(op, request) in t.queue <==> !stale && !s.closing && (request.Stop? || |s.queue| < 64))
      && (Command(op, request) in t.queue <==> op !in t.replies)
      && (op in t.replies ==> t.replies[op] == OperationResult(op, s.published.generation,
            if stale then StaleGeneration else if s.closing then Cancelled else Capacity))
      && (!request.Stop? || stale || s.closing ==> s.queue <= t.queue)
  {
    var op := s.nextOperation + 1;
    assert Places(s.replies, s.queue, s.active, op) == 0;
    QueuedIs(s.queue, op);
    CancelAllAnswers(s.replies, s.queue, s.published.generation, op);
    assert Command(op, request) !in s.queue;
    hide Accounted, CancelAll, Queued, Core.Valid;
  }

  function Rounds(worlds: seq<World>): seq<Event> {
    if worlds == [] then [] else [Taken, Performed(worlds[0]), Answered] + Rounds(worlds[1..])
  }

  lemma {:induction false} RunAppend(s: Session, a: seq<Event>, b: seq<Event>)
    ensures Run(s, a + b) == Run(Run(s, a), b)
    decreases |a|
  {
    if a == [] {
      assert a + b == b;
    } else {
      assert (a + b)[0] == a[0] && (a + b)[1..] == a[1..] + b;
      RunAppend(Step(s, a[0]), a[1..], b);
    }
  }

  /** One round of the worker answers the oldest command that waits and leaves the others in order. */
  lemma RoundAnswers(s: Session, world: World)
    requires Valid(s) && !s.closing && !s.exited && s.active.None? && s.queue != []
    ensures var t := Run(s, [Taken, Performed(world), Answered]);
      && Valid(t) && !t.closing && !t.exited && t.active.None?
      && t.queue == s.queue[1..] && s.queue[0].operation in t.replies
      && (forall op :: op in s.replies ==> op in t.replies)
  {
    RunThree(s, Taken, Performed(world), Answered);
    StepValid(s, Taken);
    StepValid(s.Take(), Performed(world));
    StepValid(s.Take().Perform(world), Answered);
    hide Run, Valid, Core.Turn, Core.Teardown, CancelAll;
  }

  /** As many rounds as commands wait answer them all, whatever happens in them, and leave the worker free. */
  lemma {:induction false} QueueDrains(s: Session, worlds: seq<World>)
    requires Valid(s) && !s.closing && !s.exited && s.active.None? && |worlds| == |s.queue|
    ensures var t := Run(s, Rounds(worlds));
      && Free(t)
      && (forall op :: op in s.replies ==> op in t.replies)
      && (forall c :: c in s.queue ==> c.operation in t.replies)
    decreases |worlds|
  {
    if worlds != [] {
      var round := [Taken, Performed(worlds[0]), Answered];
      RunAppend(s, round, Rounds(worlds[1..]));
      RoundAnswers(s, worlds[0]);
      var next := Run(s, round);
      QueueDrains(next, worlds[1..]);
      assert s.queue == [s.queue[0]] + s.queue[1..];
      hide Run, Valid;
    }
  }

  /** After close the worker finishes what it has in hand and leaves. */
  lemma ClosedLeaves(s: Session, world: World)
    requires Valid(s)
    ensures Run(s, [ClosedDown, Performed(world), Answered, Taken]).exited
  {
    RunFour(s, ClosedDown, Performed(world), Answered, Taken);
    hide Run, Core.Turn, CancelAll;
  }
}
