/** What a reply to a removal or a stop lets the other side conclude about the capture session,
    now and for ever after. */
module SubscriptionSafety {
  import opened Bytes
  import opened HostMediaSession
  import opened SessionRuns

  /** One viewer's connection in one session. */
  datatype Incarnation = Incarnation(session: nat, viewer: nat, connection: nat)

  predicate Adds(request: Request, i: Incarnation) {
    request.AddViewer? && request.generation == i.session && request.viewer == i.viewer && request.connection == i.connection
  }

  predicate Removes(request: Request, i: Incarnation) {
    request == RemoveViewer(i.session, i.viewer, i.connection)
  }

  ghost predicate Subscribed(c: Core, i: Incarnation) {
    c.current.generation == i.session && i.viewer in c.viewers && c.viewers[i.viewer] == i.connection
  }

  /** A command the worker has not executed yet. */
  predicate Awaits(s: Session, c: Command) {
    c in s.queue || (s.active == Some(c) && s.outcome.None?)
  }

  ghost predicate InOrder(queue: seq<Command>, low: int, high: int) {
    && (forall i, j :: 0 <= i < j < |queue| ==> queue[i].operation < queue[j].operation)
    && (forall i :: 0 <= i < |queue| ==> low < queue[i].operation <= high)
  }

  /** Commands leave the queue in the order of their numbers. */
  ghost predicate Fifo(s: Session) {
    match s
    case Session(queue, _, next, _, _, _, active, outcome, replies) =>
      && InOrder(queue, if active.Some? then active.value.operation else 0, next)
      && (active.Some? ==> active.value.operation <= next)
      && (outcome.Some? ==> active.Some?)
      && (forall op :: op in replies ==> op <= next)
  }

  lemma InOrderSteps(queue: seq<Command>, low: int, high: int, c: Command)
    requires InOrder(queue, low, high)
    ensures InOrder(queue, low, high + 1) && (low <= high ==> InOrder([], low, high + 1))
    ensures c.operation == high + 1 && low <= high ==> InOrder(queue + [c], low, high + 1) && InOrder([c], low, high + 1)
    ensures queue != [] ==> InOrder(queue[1..], queue[0].operation, high) && queue[0].operation <= high
    ensures low >= 0 ==> InOrder(queue, 0, high)
  {
  }

  lemma QueuedBelow(queue: seq<Command>, low: int, high: int, op: nat)
    requires InOrder(queue, low, high) && Queued(queue, op) > 0
    ensures op <= high
  {
    QueuedIs(queue, op);
  }

  lemma RepliesBelow(s: Session, e: Event, op: nat)
    requires Fifo(s) && op in Step(s, e).replies
    ensures op <= Step(s, e).nextOperation
  {
    hide Core.Turn, Core.Teardown, Queued, CancelAll, InOrder;
    CancelAllAnswers(s.replies, s.queue, s.published.generation, op);
    CancelAllAnswers(s.replies, s.queue, s.core.current.generation, op);
    if Queued(s.queue, op) > 0 {
      QueuedBelow(s.queue, if s.active.Some? then s.active.value.operation else 0, s.nextOperation, op);
    }
  }

  /** The queue side of the order, without the replies. */
  ghost predicate Lined(s: Session) {
    match s
    case Session(queue, _, next, _, _, _, active, outcome, _) =>
      && InOrder(queue, if active.Some? then active.value.operation else 0, next)
      && (active.Some? ==> active.value.operation <= next)
      && (outcome.Some? ==> active.Some?)
  }

  lemma SubmitQueue(s: Session, request: Request)
    ensures var t, c := s.Submit(request), Command(s.nextOperation + 1, request);
      && (t.queue == s.queue || t.queue == s.queue + [c] || t.queue == [] || t.queue == [c])
      && t.nextOperation == s.nextOperation + 1 && t.active == s.active && t.outcome == s.outcome
  {
    hide CancelAll;
    assert [] + [Command(s.nextOperation + 1, request)] == [Command(s.nextOperation + 1, request)];
  }

  lemma SubmitLined(s: Session, request: Request)
    requires Lined(s)
    ensures Lined(s.Submit(request))
  {
    hide InOrder, Session.Submit;
    SubmitQueue(s, request);
    var low := if s.active.Some? then s.active.value.operation else 0;
    InOrderSteps(s.queue, low, s.nextOperation, Command(s.nextOperation + 1, request));
    assert InOrder(s.Submit(request).queue, low, s.nextOperation + 1);
  }

  lemma TakeLined(s: Session)
    requires Lined(s)
    ensures Lined(s.Take())
  {
    InOrderSteps(s.queue, if s.active.Some? then s.active.value.operation else 0, s.nextOperation, Command(0, Start(false)));
    assert InOrder([], 0, s.nextOperation);
    hide InOrder, CancelAll, Core.Teardown;
  }

  lemma OtherLined(s: Session, e: Event)
    requires Lined(s) && !e.Submitted? && !e.Taken?
    ensures Lined(Step(s, e))
  {
    InOrderSteps(s.queue, if s.active.Some? then s.active.value.operation else 0, s.nextOperation, Command(0, Start(false)));
    hide InOrder, Core.Turn;
  }

  lemma FifoKeeps(s: Session, e: Event)
    requires Fifo(s)
    ensures Fifo(Step(s, e))
  {
    var t := Step(s, e);
    forall op | op in t.replies ensures op <= t.nextOperation {
      RepliesBelow(s, e, op);
    }
    match e {
      case Submitted(request) => SubmitLined(s, request);
      case Taken => TakeLined(s);
      case _ => OtherLined(s, e);
    }
    hide InOrder, Step;
  }

  // ----- a subscription that is gone -----

  /** Not subscribed, and nothing waiting could subscribe it. */
  ghost predicate Gone(s: Session, i: Incarnation) {
    match s
    case Session(_, _, _, _, _, core, _, _, _) =>
      !Subscribed(core, i) && forall c :: Awaits(s, c) ==> !Adds(c.request, i)
  }

  lemma ShrinksKeepsOut(a: Core, b: Core, i: Incarnation)
    requires Shrinks(a, b) && !Subscribed(a, i)
    ensures !Subscribed(b, i)
  {
  }

  lemma RunKeepsOut(c: Core, request: Request, i: Incarnation)
    requires !Subscribed(c, i) && !Adds(request, i) && c.Valid()
    ensures !Subscribed(c.Run(request).0, i)
  {
  }

  lemma NobodyAfterCrash(c: Core, i: Incarnation)
    ensures !Subscribed(c.Crash(), i)
  {
  }

  lemma TurnKeepsOut(c: Core, request: Option<Request>, world: World, i: Incarnation)
    requires !Subscribed(c, i) && c.Valid() && (request.Some? ==> !Adds(request.value, i))
    ensures !Subscribed(c.Turn(request, world).0, i)
  {
    hide Core.Refresh, Core.Run, Core.Crash, Subscribed, Shrinks, Core.Valid, Core.NextGeneration, Adds;
    RefreshShrinks(c, world.before);
    RefreshValid(c, world.before);
    var ready := c.Refresh(world.before);
    ShrinksKeepsOut(c, ready, i);
    NobodyAfterCrash(ready, i);
    NobodyAfterCrash(ready.NextGeneration(), i);
    if request.Some? { RunKeepsOut(ready, request.value, i); }
    var ran := if request.Some? then ready.Run(request.value).0 else ready;
    RefreshShrinks(ran, world.after);
    ShrinksKeepsOut(ran, ran.Refresh(world.after), i);
    NobodyAfterCrash(ran, i);
  }

  lemma AwaitsAfter(s: Session, e: Event, c: Command)
    requires Awaits(Step(s, e), c)
    ensures Awaits(s, c) || (e.Submitted? && c == Command(s.nextOperation + 1, e.request))
  {
    hide CancelAll, Core.Turn, Core.Teardown, Session.Submit;
    if e.Submitted? { SubmitQueue(s, e.request); }
    if e.Taken? && s.queue != [] { assert forall x :: x in s.queue[1..] ==> x in s.queue; }
  }

  lemma CoreOnlyByPerform(s: Session, e: Event, i: Incarnation)
    requires !e.Performed? && !Subscribed(s.core, i)
    ensures !Subscribed(Step(s, e).core, i)
  {
    hide CancelAll;
  }

  /** Gone is for ever, as long as nobody submits the same incarnation again. */
  lemma GoneKeeps(s: Session, e: Event, i: Incarnation)
    requires Valid(s) && Gone(s, i) && !(e.Submitted? && Adds(e.request, i))
    ensures Gone(Step(s, e), i)
  {
    forall c | Awaits(Step(s, e), c) ensures !Adds(c.request, i) {
      AwaitsAfter(s, e, c);
    }
    hide CancelAll, Accounted, Adds, Subscribed, Core.Turn, Core.Valid;
    if e.Performed? {
      var request := if s.active.Some? then Some(s.active.value.request) else None;
      if !s.exited && s.outcome.None? {
        if s.active.Some? { assert Awaits(s, s.active.value); }
        TurnKeepsOut(s.core, request, e.world, i);
        IdleSame(s.core.Turn(request, e.world).0, i);
      }
    } else {
      CoreOnlyByPerform(s, e, i);
    }
  }

  lemma IdleSame(c: Core, i: Incarnation)
    ensures Subscribed(c.(current := c.current.(activeOperation := 0)), i) == Subscribed(c, i)
  {
  }

  // ----- a removal under way -----

  /** `op` removes the incarnation; whatever would add it stands before it; a settled reply means gone. */
  ghost predicate Pursues(s: Session, i: Incarnation, op: nat) {
    match s
    case Session(_, _, nextOperation, _, _, _, active, outcome, replies) =>
      && op <= nextOperation
      && (forall c :: Awaits(s, c) && Adds(c.request, i) ==> c.operation < op)
      && (forall c :: Awaits(s, c) && c.operation == op ==> Removes(c.request, i))
      && (op in replies && Settled(replies[op].error) ==> Gone(s, i))
      && (active.Some? && active.value.operation == op && outcome.Some? && Settled(outcome.value) ==> Gone(s, i))
  }

  lemma AwaitsBelow(s: Session, c: Command)
    requires Fifo(s) && Awaits(s, c)
    ensures c.operation <= s.nextOperation
  {
  }

  lemma PursuesStarts(s: Session, i: Incarnation)
    requires Fifo(s)
    ensures Pursues(s.Submit(RemoveViewer(i.session, i.viewer, i.connection)), i, s.nextOperation + 1)
  {
    hide CancelAll, Gone, Queued;
    var t := s.Submit(RemoveViewer(i.session, i.viewer, i.connection));
    forall c | Awaits(t, c) ensures Awaits(s, c) || c == Command(s.nextOperation + 1, RemoveViewer(i.session, i.viewer, i.connection)) {
    }
    forall c | Awaits(s, c) ensures c.operation <= s.nextOperation {
      AwaitsBelow(s, c);
    }
  }

  lemma RemovalRemoves(c: Core, request: Request, world: World, i: Incarnation)
    requires Removes(request, i) && c.Valid()
    ensures Settled(c.Turn(Some(request), world).1) ==> !Subscribed(c.Turn(Some(request), world).0, i)
  {
    hide Core.Refresh, Core.Crash, Shrinks, Core.Valid, Core.RunStart, Core.RunAdd, Core.RunStop;
    var ready := c.Refresh(world.before);
    var ran := ready.Run(request).0;
    assert Settled(ready.Run(request).1) ==> !Subscribed(ran, i);
    RefreshShrinks(ran, world.after);
    if !Subscribed(ran, i) {
      ShrinksKeepsOut(ran, ran.Refresh(world.after), i);
    }
  }

  /** When the removal itself is executed, everything that could add the incarnation has been executed before. */
  lemma PursuesPerform(s: Session, world: World, i: Incarnation, op: nat)
    requires Valid(s) && Fifo(s) && Pursues(s, i, op) && !s.exited
    requires s.active.Some? && s.active.value.operation == op && s.outcome.None?
    ensures var t := s.Perform(world); Settled(t.outcome.value) ==> Gone(t, i)
  {
    hide Accounted, Core.Turn, Core.Valid, Subscribed, Removes, Settled;
    var c := s.active.value;
    assert Awaits(s, c);
    RemovalRemoves(s.core, c.request, world, i);
    IdleSame(s.core.Turn(Some(c.request), world).0, i);
    var t := s.Perform(world);
    forall d | Awaits(t, d) ensures !Adds(d.request, i) {
      assert d in s.queue && Awaits(s, d);
    }
  }

  /** When a settled answer to the removal is there, or is reached in this step, the incarnation is gone. */
  lemma PursuesSettles(s: Session, e: Event, i: Incarnation, op: nat)
    requires Valid(s) && Fifo(s) && Pursues(s, i, op) && !(e.Submitted? && Adds(e.request, i))
    ensures var t := Step(s, e);
      && (op in t.replies && Settled(t.replies[op].error) ==> Gone(t, i))
      && (t.active.Some? && t.active.value.operation == op && t.outcome.Some? && Settled(t.outcome.value) ==> Gone(t, i))
  {
    hide Valid, Fifo, Gone, Adds, Removes, Awaits;
    if Gone(s, i) { GoneKeeps(s, e, i); }
    if e.Performed? && !s.exited && s.active.Some? && s.active.value.operation == op && s.outcome.None? {
      PursuesPerform(s, e.world, i, op);
    }
    RepliesSettle(s, e, op);
    OutcomeFrom(s, e);
    hide Step;
  }

  /** An outcome was there before, or the worker has just performed its command. */
  lemma OutcomeFrom(s: Session, e: Event)
    ensures var t := Step(s, e);
      t.active.Some? && t.outcome.Some? ==>
        (s.active == t.active && s.outcome == t.outcome) ||
        (e.Performed? && !s.exited && s.outcome.None? && s.active == t.active && t == s.Perform(e.world))
    ensures Step(s, e).nextOperation >= s.nextOperation
  {
    hide CancelAll, Core.Turn, Core.Teardown;
  }

  lemma PursuesKeeps(s: Session, e: Event, i: Incarnation, op: nat)
    requires Valid(s) && Fifo(s) && Pursues(s, i, op) && !(e.Submitted? && Adds(e.request, i))
    ensures Pursues(Step(s, e), i, op)
  {
    var t := Step(s, e);
    PursuesSettles(s, e, i, op);
    OutcomeFrom(s, e);
    hide Step, Valid, Fifo, Gone, Adds, Removes, Awaits;
    forall c | Awaits(t, c)
      ensures (Adds(c.request, i) ==> c.operation < op) && (c.operation == op ==> Removes(c.request, i))
    {
      AwaitsAfter(s, e, c);
    }
  }

  /** A settled reply to an earlier command was one before, or is the outcome the worker reached. */
  lemma RepliesSettle(s: Session, e: Event, op: nat)
    requires op <= s.nextOperation
    ensures var t := Step(s, e);
      op in t.replies && Settled(t.replies[op].error) ==>
        || (op in s.replies && Settled(s.replies[op].error))
        || (s.active.Some? && s.active.value.operation == op && s.outcome.Some? && Settled(s.outcome.value))
  {
    hide Core.Turn, Core.Teardown, Queued, CancelAll;
    CancelAllAnswers(s.replies, s.queue, s.published.generation, op);
    CancelAllAnswers(s.replies, s.queue, s.core.current.generation, op);
  }

  // ----- a session that has ended -----

  /** Past that generation, or in it with capture torn down: nobody is or ever will be subscribed in it. */
  predicate Ended(c: Core, generation: nat) {
    c.current.generation > generation || (c.current.generation == generation && !c.capture)
  }

  lemma EndedKeeps(s: Session, e: Event, generation: nat)
    requires Ended(s.core, generation)
    ensures Ended(Step(s, e).core, generation)
  {
    hide CancelAll, Core.Turn;
    if e.Performed? && !s.exited && s.outcome.None? {
      TurnMonotone(s.core, if s.active.Some? then Some(s.active.value.request) else None, e.world);
    }
  }

  lemma EndedHoldsNobody(s: Session, i: Incarnation)
    requires Valid(s) && Ended(s.core, i.session)
    ensures !Subscribed(s.core, i)
  {
  }

  ghost predicate StopPursues(s: Session, generation: nat, op: nat) {
    match s
    case Session(_, _, nextOperation, _, _, core, active, outcome, replies) =>
      && op <= nextOperation && core.current.generation >= generation
      && (forall c :: Awaits(s, c) && c.operation == op ==> c.request == Stop(generation))
      && (op in replies && Settled(replies[op].error) ==> Ended(core, generation))
      && (active.Some? && active.value.operation == op && outcome.Some? && Settled(outcome.value) ==> Ended(core, generation))
  }

  lemma StopPursuesStarts(s: Session, generation: nat)
    requires Valid(s) && Fifo(s) && s.core.current.generation >= generation
    ensures StopPursues(s.Submit(Stop(generation)), generation, s.nextOperation + 1)
  {
    hide CancelAll, Queued, Accounted, Core.Valid;
    var t := s.Submit(Stop(generation));
    forall c | Awaits(t, c) ensures Awaits(s, c) || c == Command(s.nextOperation + 1, Stop(generation)) {
    }
    forall c | Awaits(s, c) ensures c.operation <= s.nextOperation {
      AwaitsBelow(s, c);
    }
    CancelAllAnswers(s.replies, s.queue, s.published.generation, s.nextOperation + 1);
  }

  lemma StopStops(c: Core, generation: nat, world: World)
    requires c.current.generation >= generation
    ensures Settled(c.Turn(Some(Stop(generation)), world).1) ==> Ended(c.Turn(Some(Stop(generation)), world).0, generation)
  {
    hide Core.Refresh, Core.Crash, Shrinks, Core.RunStart, Core.RunAdd, Core.RunRemove;
    RefreshShrinks(c, world.before);
    var ready := c.Refresh(world.before);
    var ran := ready.Run(Stop(generation)).0;
    assert Shrinks(c, ready) ==> ready.current.generation >= generation by { ShrinksGeneration(c, ready); }
    assert Settled(ready.Run(Stop(generation)).1) ==> Ended(ran, generation);
    RefreshShrinks(ran, world.after);
    ShrinksGeneration(ran, ran.Refresh(world.after));
  }

  lemma ShrinksGeneration(a: Core, b: Core)
    requires Shrinks(a, b)
    ensures b.current.generation == a.current.generation && (b.capture ==> a.capture)
  {
  }

  /** When the stop itself is executed and settles, the session is over. */
  lemma StopPerforms(s: Session, world: World, generation: nat, op: nat)
    requires StopPursues(s, generation, op) && !s.exited
    requires s.active.Some? && s.active.value.operation == op && s.outcome.None?
    ensures var t := s.Perform(world); Settled(t.outcome.value) ==> Ended(t.core, generation)
  {
    assert Awaits(s, s.active.value);
    hide Core.Turn;
    StopStops(s.core, generation, world);
  }

  lemma StopSettles(s: Session, e: Event, generation: nat, op: nat)
    requires Valid(s) && StopPursues(s, generation, op)
    ensures var t := Step(s, e);
      && (op in t.replies && Settled(t.replies[op].error) ==> Ended(t.core, generation))
      && (t.active.Some? && t.active.value.operation == op && t.outcome.Some? && Settled(t.outcome.value) ==> Ended(t.core, generation))
  {
    hide Valid, Ended, Awaits;
    if Ended(s.core, generation) { EndedKeeps(s, e, generation); }
    if e.Performed? && !s.exited && s.active.Some? && s.active.value.operation == op && s.outcome.None? {
      StopPerforms(s, e.world, generation, op);
    }
    RepliesSettle(s, e, op);
    OutcomeFrom(s, e);
    hide Step;
  }

  lemma GenerationKeeps(s: Session, e: Event)
    requires Valid(s)
    ensures Step(s, e).core.current.generation >= s.core.current.generation
  {
    hide Valid, CancelAll, Core.Turn;
    if e.Performed? {
      TurnMonotone(s.core, if s.active.Some? then Some(s.active.value.request) else None, e.world);
    }
  }

  lemma StopPursuesKeeps(s: Session, e: Event, generation: nat, op: nat)
    requires Valid(s) && Fifo(s) && StopPursues(s, generation, op)
    ensures StopPursues(Step(s, e), generation, op)
  {
    var t := Step(s, e);
    StopSettles(s, e, generation, op);
    OutcomeFrom(s, e);
    GenerationKeeps(s, e);
    hide Step, Valid, Fifo, Ended, Awaits;
    forall c | Awaits(t, c) && c.operation == op ensures c.request == Stop(generation) {
      AwaitsAfter(s, e, c);
    }
  }
}
