/** The capture session over whole runs: submitters and the worker interleave in any order. */
module SessionRuns {
  import opened Bytes
  import opened HostMediaSession

  datatype Event = Submitted(request: Request) | Taken | Performed(world: World) | Answered | ClosedDown

  function Step(s: Session, e: Event): Session {
    match e
    case Submitted(request) => s.Submit(request)
    case Taken => s.Take()
    case Performed(world) => s.Perform(world)
    case Answered => s.Answer()
    case ClosedDown => s.Close()
  }

  function Run(s: Session, events: seq<Event>): Session
    decreases |events|
  {
    if events == [] then s else Run(Step(s, events[0]), events[1..])
  }

  // ----- one reply for each command -----

  /** How often an operation number stands in a queue. */
  function Queued(queue: seq<Command>, op: nat): nat {
    if queue == [] then 0
    else Queued(queue[..|queue| - 1], op) + if queue[|queue| - 1].operation == op then 1 else 0
  }

  function Replied(replies: map<nat, OperationResult>, op: nat): nat {
    if op in replies then 1 else 0
  }

  function Held(active: Option<Command>, op: nat): nat {
    if active.Some? && active.value.operation == op then 1 else 0
  }

  /** In how many places an operation number is: answered, queued, or in the worker's hands. */
  function Places(replies: map<nat, OperationResult>, queue: seq<Command>, active: Option<Command>, op: nat): nat {
    Replied(replies, op) + Queued(queue, op) + Held(active, op)
  }

  /** Each number handed out is in exactly one place, no other number is anywhere, and none is counted twice. */
  ghost predicate Accounted(s: Session) {
    match s
    case Session(queue, _, next, _, _, _, active, _, replies) =>
      && |queue| <= QUEUE_LIMIT
      && next == |replies| + |queue| + (if active.Some? then 1 else 0)
      && (forall op: nat :: Places(replies, queue, active, op) == if 1 <= op <= next then 1 else 0)
      && (forall op :: op in replies ==> replies[op].operation == op)
  }

  ghost predicate Valid(s: Session) {
    && Accounted(s) && s.core.Valid()
    && s.published.generation == s.core.current.generation
    && (s.outcome.Some? ==> s.active.Some?)
    && (s.exited ==> s.closing && s.queue == [] && s.active.None? && !s.core.capture)
  }

  lemma FreshIsValid()
    ensures Valid(FRESH)
  {
  }

  lemma QueuedAppend(queue: seq<Command>, c: Command, op: nat)
    ensures Queued(queue + [c], op) == Queued(queue, op) + if c.operation == op then 1 else 0
  {
    assert (queue + [c])[..|queue|] == queue;
  }

  lemma {:induction false} QueuedHead(queue: seq<Command>, op: nat)
    requires queue != []
    ensures Queued(queue, op) == (if queue[0].operation == op then 1 else 0) + Queued(queue[1..], op)
  {
    if |queue| > 1 {
      var init := queue[..|queue| - 1];
      QueuedHead(init, op);
      assert queue[1..][..|queue| - 2] == init[1..];
    } else {
      assert queue[1..] == [] && queue[..0] == [];
    }
  }

  lemma {:induction false} QueuedIs(queue: seq<Command>, op: nat)
    ensures Queued(queue, op) > 0 <==> exists c :: c in queue && c.operation == op
  {
    if queue != [] {
      QueuedIs(queue[..|queue| - 1], op);
      assert queue == queue[..|queue| - 1] + [queue[|queue| - 1]];
    }
  }

  /** Draining a queue answers what was in it and leaves the other answers alone. */
  lemma {:induction false} CancelAllAnswers(replies: map<nat, OperationResult>, queue: seq<Command>, g: nat, op: nat)
    ensures var all := CancelAll(replies, queue, g);
      && (op in all <==> op in replies || Queued(queue, op) > 0)
      && (op in all ==> all[op] == if Queued(queue, op) > 0 then OperationResult(op, g, Cancelled) else replies[op])
  {
    if queue != [] { CancelAllAnswers(replies, queue[..|queue| - 1], g, op); }
  }

  lemma {:induction false} CancelAllSize(replies: map<nat, OperationResult>, queue: seq<Command>, g: nat)
    requires forall op: nat :: Replied(replies, op) + Queued(queue, op) <= 1
    ensures |CancelAll(replies, queue, g)| == |replies| + |queue|
  {
    if queue != [] {
      var init, last := queue[..|queue| - 1], queue[|queue| - 1];
      forall op: nat ensures Replied(replies, op) + Queued(init, op) <= 1 {
        assert Replied(replies, op) + Queued(queue, op) <= 1;
      }
      CancelAllSize(replies, init, g);
      CancelAllAnswers(replies, init, g, last.operation);
      assert Replied(replies, last.operation) + Queued(queue, last.operation) <= 1;
      InsertSize(CancelAll(replies, init, g), last.operation, OperationResult(last.operation, g, Cancelled));
    }
  }

  lemma InsertSize(m: map<nat, OperationResult>, k: nat, v: OperationResult)
    requires k !in m
    ensures |m[k := v]| == |m| + 1
  {
    assert m[k := v].Keys == m.Keys + {k};
  }

  lemma ReplyAccounted(s: Session, g: nat, error: OperationError)
    requires Accounted(s)
    ensures Accounted(s.(nextOperation := s.nextOperation + 1).Reply(s.nextOperation + 1, g, error))
  {
    var op := s.nextOperation + 1;
    var replies := s.replies[op := OperationResult(op, g, error)];
    assert Places(s.replies, s.queue, s.active, op) == 0;
    InsertSize(s.replies, op, OperationResult(op, g, error));
    hide Queued;
    forall k: nat ensures Places(replies, s.queue, s.active, k) == if 1 <= k <= op then 1 else 0 {
      assert Places(s.replies, s.queue, s.active, k) == if 1 <= k < op then 1 else 0;
    }
  }

  lemma EnqueueAccounted(s: Session, request: Request)
    requires Accounted(s) && |s.queue| < QUEUE_LIMIT
    ensures Accounted(s.(nextOperation := s.nextOperation + 1, queue := s.queue + [Command(s.nextOperation + 1, request)]))
  {
    var c := Command(s.nextOperation + 1, request);
    var queue := s.queue + [c];
    hide Queued;
    forall k: nat ensures Places(s.replies, queue, s.active, k) == if 1 <= k <= c.operation then 1 else 0 {
      QueuedAppend(s.queue, c, k);
      assert Places(s.replies, s.queue, s.active, k) == if 1 <= k < c.operation then 1 else 0;
    }
  }

  lemma CancelAccounted(s: Session, g: nat)
    requires Accounted(s)
    ensures Accounted(s.(replies := CancelAll(s.replies, s.queue, g), queue := []))
  {
    var all := CancelAll(s.replies, s.queue, g);
    forall k: nat ensures Places(all, [], s.active, k) == Places(s.replies, s.queue, s.active, k) {
      CancelAllAnswers(s.replies, s.queue, g, k);
      assert Places(s.replies, s.queue, s.active, k) <= 1;
    }
    forall k | k in all ensures all[k].operation == k {
      CancelAllAnswers(s.replies, s.queue, g, k);
    }
    forall k: nat ensures Replied(s.replies, k) + Queued(s.queue, k) <= 1 {
      assert Places(s.replies, s.queue, s.active, k) <= 1;
    }
    CancelAllSize(s.replies, s.queue, g);
  }

  lemma SubmitAccounted(s: Session, request: Request)
    requires Accounted(s)
    ensures Accounted(s.Submit(request))
  {
    hide Accounted, CancelAll;
    var g := s.published.generation;
    CancelAccounted(s, g);
    var cleared := s.(replies := CancelAll(s.replies, s.queue, g), queue := []);
    ReplyAccounted(s, g, StaleGeneration);
    ReplyAccounted(s, g, Cancelled);
    ReplyAccounted(s, g, Capacity);
    if |s.queue| < QUEUE_LIMIT { EnqueueAccounted(s, request); }
    EnqueueAccounted(cleared, request);
  }

  /** Only the ledger fields matter. */
  lemma SameLedger(s: Session, t: Session)
    requires Accounted(s) && s.queue == t.queue && s.replies == t.replies && s.nextOperation == t.nextOperation && s.active == t.active
    ensures Accounted(t)
  {
  }

  lemma DequeueAccounted(s: Session)
    requires Accounted(s) && s.queue != [] && s.active.None?
    ensures Accounted(s.(active := Some(s.queue[0]), queue := s.queue[1..]))
  {
    var first, rest := s.queue[0], s.queue[1..];
    hide Queued;
    forall k: nat ensures Places(s.replies, rest, Some(first), k) == Places(s.replies, s.queue, s.active, k) {
      QueuedHead(s.queue, k);
    }
  }

  lemma TakeAccounted(s: Session)
    requires Accounted(s)
    ensures Accounted(s.Take())
  {
    hide Accounted, CancelAll;
    if !s.exited && s.active.None? {
      if s.closing {
        CancelAccounted(s, s.core.current.generation);
        SameLedger(s.(replies := CancelAll(s.replies, s.queue, s.core.current.generation), queue := []), s.Take());
      } else if s.queue != [] {
        DequeueAccounted(s);
        SameLedger(s.(active := Some(s.queue[0]), queue := s.queue[1..]), s.Take());
      } else {
        SameLedger(s, s.Take());
      }
    }
  }

  lemma AnswerAccounted(s: Session)
    requires Accounted(s)
    ensures Accounted(s.Answer())
  {
    if s.active.Some? && s.outcome.Some? {
      var t := s.Answer();
      var op := s.active.value.operation;
      assert Places(s.replies, s.queue, s.active, op) == 1;
      InsertSize(s.replies, op, t.replies[op]);
      hide Queued;
      forall k: nat ensures Places(t.replies, t.queue, t.active, k) == Places(s.replies, s.queue, s.active, k) {
      }
    }
  }

  lemma PerformAccounted(s: Session, world: World)
    requires Accounted(s)
    ensures Accounted(s.Perform(world))
  {
    hide Accounted, Core.Turn;
    SameLedger(s, s.Perform(world));
  }

  lemma CloseAccounted(s: Session)
    requires Accounted(s)
    ensures Accounted(s.Close())
  {
    hide Accounted;
    SameLedger(s, s.Close());
  }

  lemma ObservedValid(c: Core, state: CaptureState)
    requires c.Valid() && c.capture
    ensures c.Observed(state).Valid()
  {
  }

  lemma DropFailedValid(c: Core, failed: set<nat>)
    requires c.Valid()
    ensures c.DropFailed(failed).Valid()
  {
    var gone := failed * c.viewers.Keys;
    assert (c.viewers - gone).Keys == c.viewers.Keys - gone;
    SmallerMap(c.viewers, gone);
  }

  lemma RefreshValid(c: Core, report: Report)
    requires c.Valid()
    ensures c.Refresh(report).Valid()
  {
    if c.capture {
      ObservedValid(c, report.state);
      var seen := c.Observed(report.state);
      if seen.distribution.Some? { DropFailedValid(seen, report.failed); }
    }
  }

  /** The worker state moved on without a new generation or a new subscription. */
  ghost predicate Shrinks(before: Core, after: Core) {
    match after
    case Core(current, capture, _, viewers, lastConnection) =>
      && current.generation == before.current.generation && lastConnection == before.lastConnection
      && (capture ==> before.capture)
      && (forall v :: v in viewers ==> v in before.viewers && before.viewers[v] == viewers[v])
  }

  lemma ObservedShrinks(c: Core, state: CaptureState)
    ensures Shrinks(c, c.Observed(state))
  {
  }

  lemma DropFailedShrinks(before: Core, c: Core, failed: set<nat>)
    requires Shrinks(before, c)
    ensures Shrinks(before, c.DropFailed(failed))
  {
  }

  lemma StateShrinks(before: Core, c: Core, state: MediaState)
    requires Shrinks(before, c)
    ensures Shrinks(before, c.WithState(state))
  {
  }

  /** A refresh keeps the generation and admits nobody. */
  lemma RefreshShrinks(c: Core, report: Report)
    ensures Shrinks(c, c.Refresh(report))
  {
    if c.capture {
      hide Shrinks, Core.Observed, Core.DropFailed, Core.WithState;
      ObservedShrinks(c, report.state);
      var seen := c.Observed(report.state);
      DropFailedShrinks(c, seen, report.failed);
      StateShrinks(c, seen.DropFailed(report.failed), WaitingForViewers);
    }
  }

  lemma SmallerMap(m: map<nat, nat>, gone: set<nat>)
    ensures |m - gone| <= |m|
  {
    assert (m - gone).Keys <= m.Keys;
    SmallerSet((m - gone).Keys, m.Keys);
    assert |(m - gone).Keys| == |m - gone| && |m.Keys| == |m|;
  }

  lemma SmallerSet(a: set<nat>, b: set<nat>)
    requires a <= b
    ensures |a| <= |b|
  {
    assert b == a + (b - a);
  }

  lemma AddValid(c: Core, g: nat, viewer: nat, connection: nat, hasDeliver: bool)
    requires c.Valid()
    ensures c.RunAdd(g, viewer, connection, hasDeliver).0.Valid()
  {
    if viewer !in c.viewers {
      var next := c.viewers[viewer := connection];
      assert next.Keys == c.viewers.Keys + {viewer} && |next| == |c.viewers| + 1;
    }
  }

  lemma RemoveValid(c: Core, g: nat, viewer: nat, connection: nat)
    requires c.Valid()
    ensures c.RunRemove(g, viewer, connection).0.Valid()
  {
    SmallerMap(c.viewers, {viewer});
    assert (c.viewers - {viewer}).Keys == c.viewers.Keys - {viewer};
  }

  lemma TeardownValid(c: Core, state: MediaState)
    ensures c.Teardown().WithState(state).Valid() && !c.Teardown().WithState(state).capture
  {
  }

  lemma StartValid(c: Core, hasFactory: bool)
    requires c.Valid()
    ensures c.RunStart(hasFactory).0.Valid()
  {
  }

  lemma RunValid(c: Core, request: Request)
    requires c.Valid()
    ensures c.Run(request).0.Valid()
  {
    hide Core.Valid, Core.RunStart, Core.RunAdd, Core.RunRemove, Core.Teardown, Core.WithState;
    match request
    case Start(hasFactory) => StartValid(c, hasFactory);
    case AddViewer(g, viewer, connection, hasDeliver) => AddValid(c, g, viewer, connection, hasDeliver);
    case RemoveViewer(g, viewer, connection) => RemoveValid(c, g, viewer, connection);
    case Stop(_) => TeardownValid(c, Stopped);
  }

  lemma TurnValid(c: Core, request: Option<Request>, world: World)
    requires c.Valid()
    ensures c.Turn(request, world).0.Valid()
  {
    hide Core.Refresh, Core.Run, Core.Valid, Core.Teardown, Core.WithState;
    RefreshValid(c, world.before);
    var ready := c.Refresh(world.before);
    if request.Some? { RunValid(ready, request.value); }
    var ran := if request.Some? then ready.Run(request.value).0 else ready;
    RefreshValid(ran, world.after);
    TeardownValid(ready, Failed);
    TeardownValid(ready.NextGeneration(), Failed);
    TeardownValid(ran, Failed);
  }

  lemma WorkingValid(c: Core, operation: nat)
    requires c.Valid()
    ensures c.(current := c.current.(activeOperation := operation)).Valid()
  {
  }

  lemma StepValid(s: Session, e: Event)
    requires Valid(s)
    ensures Valid(Step(s, e))
  {
    hide Accounted, Core.Valid, CancelAll, Core.Turn, Core.Teardown, Core.WithState;
    match e
    case Submitted(request) => SubmitAccounted(s, request);
    case Taken =>
      TakeAccounted(s);
      TeardownValid(s.core, Stopped);
      WorkingValid(s.core, 0);
      if s.queue != [] { WorkingValid(s.core, s.queue[0].operation); }
    case Performed(world) =>
      if !s.exited && s.outcome.None? {
        var request := if s.active.Some? then Some(s.active.value.request) else None;
        TurnValid(s.core, request, world);
        WorkingValid(s.core.Turn(request, world).0, 0);
        PerformAccounted(s, world);
      }
    case Answered => AnswerAccounted(s);
    case ClosedDown => CloseAccounted(s);
  }

  lemma {:induction false} RunValidity(s: Session, events: seq<Event>)
    requires Valid(s)
    ensures Valid(Run(s, events))
    decreases |events|
  {
    if events != [] {
      StepValid(s, events[0]);
      RunValidity(Step(s, events[0]), events[1..]);
    }
  }

  /** Submitted = replied + queued + at most one in the worker's hands; the queue is bounded; and every
      number handed out is in exactly one of these places. */
  lemma Conservation(events: seq<Event>, op: nat)
    ensures var s := Run(FRESH, events);
      && s.nextOperation == |s.replies| + |s.queue| + (if s.active.Some? then 1 else 0) && |s.queue| <= 64
      && Places(s.replies, s.queue, s.active, op) == if 1 <= op <= s.nextOperation then 1 else 0
  {
    FreshIsValid();
    RunValidity(FRESH, events);
  }

  lemma RepliedElsewhere(s: Session, op: nat)
    requires Accounted(s) && op in s.replies
    ensures op != s.nextOperation + 1 && Queued(s.queue, op) == 0
    ensures s.active.Some? ==> op != s.active.value.operation
  {
    assert Places(s.replies, s.queue, s.active, op) <= 1;
    assert Places(s.replies, s.queue, s.active, s.nextOperation + 1) == 0;
  }

  lemma StepReplies(s: Session, e: Event, op: nat)
    requires Valid(s) && op in s.replies
    ensures op in Step(s, e).replies && Step(s, e).replies[op] == s.replies[op]
  {
    hide Accounted, CancelAll, Core.Turn, Core.Valid, Queued;
    RepliedElsewhere(s, op);
    CancelAllAnswers(s.replies, s.queue, s.published.generation, op);
    CancelAllAnswers(s.replies, s.queue, s.core.current.generation, op);
  }

  /** A reply is given once and never changes. */
  lemma {:induction false} RepliesAreFinal(s: Session, events: seq<Event>, op: nat)
    requires Valid(s) && op in s.replies
    ensures op in Run(s, events).replies && Run(s, events).replies[op] == s.replies[op]
    decreases |events|
  {
    if events != [] {
      StepValid(s, events[0]);
      StepReplies(s, events[0], op);
      RepliesAreFinal(Step(s, events[0]), events[1..], op);
    }
  }

  /** When the worker has left, every command ever submitted has its reply, later ones included. */
  lemma ExitAnswersAll(events: seq<Event>, op: nat)
    requires Run(FRESH, events).exited && 1 <= op <= Run(FRESH, events).nextOperation
    ensures op in Run(FRESH, events).replies
  {
    FreshIsValid();
    RunValidity(FRESH, events);
    var s := Run(FRESH, events);
    assert Places(s.replies, s.queue, s.active, op) == 1;
  }

  // ----- stopping -----

  /** A stop for the current generation is always queued before close, alone, whatever the pressure. */
  lemma CurrentStopIsAccepted(s: Session, c: Command)
    requires Valid(s) && !s.closing
    ensures var t := s.Submit(Stop(s.published.generation));
      && t.queue == [Command(s.nextOperation + 1, Stop(s.published.generation))]
      && (c in s.queue ==> c.operation in t.replies && t.replies[c.operation].error == Cancelled)
  {
    hide Accounted, CancelAll, Core.Valid, Queued;
    CancelAllAnswers(s.replies, s.queue, s.published.generation, c.operation);
    QueuedIs(s.queue, c.operation);
  }

  /** A stop for another generation is answered at once and touches nothing else. */
  lemma StaleStopChangesNothing(s: Session, g: nat)
    requires g != s.published.generation
    ensures var op := s.nextOperation + 1;
      s.Submit(Stop(g)) == s.(nextOperation := op,
                              replies := s.replies[op := OperationResult(op, s.published.generation, StaleGeneration)])
    ensures forall c: Core :: c.current.generation == s.published.generation ==> c.Run(Stop(g)).0 == c
  {
  }

  // ----- incarnations -----

  lemma TurnMonotone(c: Core, request: Option<Request>, world: World)
    ensures var next := c.Turn(request, world).0;
      && next.current.generation >= c.current.generation
      && (next.current.generation == c.current.generation ==> next.lastConnection >= c.lastConnection && (next.capture ==> c.capture))
  {
    hide Core.Refresh;
    RefreshShrinks(c, world.before);
    var ready := c.Refresh(world.before);
    var ran := if request.Some? then ready.Run(request.value).0 else ready;
    RefreshShrinks(ran, world.after);
  }

  lemma {:induction false} RunMonotone(s: Session, events: seq<Event>)
    requires Valid(s)
    ensures var a, b := s.core, Run(s, events).core;
      && b.current.generation >= a.current.generation
      && (b.current.generation == a.current.generation ==> b.lastConnection >= a.lastConnection && (b.capture ==> a.capture))
    decreases |events|
  {
    hide Core.Turn, Accounted, Core.Valid, CancelAll;
    if events != [] {
      StepValid(s, events[0]);
      match events[0] {
        case Performed(world) =>
          TurnMonotone(s.core, if s.active.Some? then Some(s.active.value.request) else None, world);
        case _ =>
      }
      RunMonotone(Step(s, events[0]), events[1..]);
    }
  }

  /** A snapshot published in the middle of a turn carries the generation from before the turn or from after it. */
  lemma AnnouncedGeneration(c: Core, request: Request, world: World, published: Snapshot)
    requires !world.fault.BeforeRun? && published.generation == c.current.generation
    ensures Announced(c.Refresh(world.before), request, published).generation in
            {published.generation, c.Turn(Some(request), world).0.current.generation}
  {
    hide Core.Refresh;
    RefreshShrinks(c, world.before);
    var ran := c.Refresh(world.before).Run(request).0;
    RefreshShrinks(ran, world.after);
  }

  /** A turn in which the add succeeded has counted its connection, even if the viewer was dropped again
      in the same turn, or the turn failed after the add. */
  lemma AdmissionIsCounted(c: Core, generation: nat, viewer: nat, connection: nat, hasDeliver: bool, world: World)
    requires !world.fault.BeforeRun? && !world.fault.InRun?
    requires c.Refresh(world.before).RunAdd(generation, viewer, connection, hasDeliver).1.NoError?
    ensures var after := c.Turn(Some(AddViewer(generation, viewer, connection, hasDeliver)), world).0;
      after.current.generation == generation && after.lastConnection >= connection
  {
    hide Core.Refresh;
    var ran := c.Refresh(world.before).RunAdd(generation, viewer, connection, hasDeliver).0;
    RefreshShrinks(ran, world.after);
  }

  /** An add is answered with success only when it succeeded. */
  lemma SuccessMeansAdmitted(c: Core, generation: nat, viewer: nat, connection: nat, hasDeliver: bool, world: World)
    requires c.Turn(Some(AddViewer(generation, viewer, connection, hasDeliver)), world).1.NoError?
    ensures !world.fault.BeforeRun? && !world.fault.InRun?
    ensures c.Refresh(world.before).RunAdd(generation, viewer, connection, hasDeliver).1.NoError?
  {
    hide Core.Refresh;
  }

  /** A connection counted once is refused for the rest of that session, for every viewer, whatever
      happens in between. */
  lemma NeverReadmitted(s: Session, events: seq<Event>, connection: nat, viewer: nat, hasDeliver: bool)
    requires Valid(s) && connection <= s.core.lastConnection
    ensures Run(s, events).core.RunAdd(s.core.current.generation, viewer, connection, hasDeliver).1 != NoError
  {
    RunMonotone(s, events);
  }

  /** So an incarnation whose add was answered with success is never admitted again in that session. */
  lemma AdmittedOnlyOnce(s: Session, world: World, events: seq<Event>, other: nat, hasDeliver: bool)
    requires Valid(s) && !s.exited && s.outcome.None? && s.active.Some? && s.active.value.request.AddViewer?
    requires s.Perform(world).outcome == Some(NoError)
    ensures var add := s.active.value.request;
      Run(s.Perform(world), events).core.RunAdd(add.generation, other, add.connection, hasDeliver).1 != NoError
  {
    var add := s.active.value.request;
    SuccessMeansAdmitted(s.core, add.generation, add.viewer, add.connection, add.hasDeliver, world);
    AdmissionIsCounted(s.core, add.generation, add.viewer, add.connection, add.hasDeliver, world);
    StepValid(s, Performed(world));
    hide Core.Turn, Core.Refresh, Core.RunAdd, Accounted, Core.Valid;
    NeverReadmitted(s.Perform(world), events, add.connection, other, hasDeliver);
  }
}
