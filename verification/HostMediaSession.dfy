/** The capture session: a bounded command queue, one worker, and a reply for each command.
    Each locked section of the program is one step here; steps of submitters and worker interleave freely. */
module HostMediaSession {
  import opened Bytes

  const QUEUE_LIMIT := 64
  const VIEWER_LIMIT := 63

  datatype OperationError = NoError | InvalidState | StaleGeneration | InvalidViewer | Capacity | Cancelled | Internal

  /** A removal or stop that succeeded, or found nothing left to do. */
  predicate Settled(error: OperationError) {
    error.NoError? || error.StaleGeneration?
  }

  datatype OperationResult = OperationResult(operation: nat, generation: nat, error: OperationError)

  datatype MediaState =
    | Idle | Starting | WaitingForViewers | Running | Recovering | Stopping | Stopped | Failed
    | Minimized | SourceClosed | SourceUnavailable

  datatype CaptureState =
    | CaptureStarting | CaptureRunning | CaptureRecovering | CaptureClosed | CaptureFailed | CaptureStopped
    | CaptureMinimized | CaptureUnavailable

  datatype Snapshot = Snapshot(
    state: MediaState, generation: nat, viewerCount: nat, activeOperation: nat,
    lastFailedViewer: nat, lastFailedConnection: nat)

  datatype Request =
    | Start(hasFactory: bool)
    | AddViewer(generation: nat, viewer: nat, connection: nat, hasDeliver: bool)
    | RemoveViewer(generation: nat, viewer: nat, connection: nat)
    | Stop(generation: nat)

  datatype Command = Command(operation: nat, request: Request)

  /** What capture and its consumers report at one refresh. */
  datatype Report = Report(state: CaptureState, failed: set<nat>)

  /** Where a foreign call throws while a command runs, if it does. */
  datatype Fault = NoFault | BeforeRun | InRun | AfterRun
  datatype World = World(before: Report, after: Report, fault: Fault)

  // ----- the state only the worker touches -----

  datatype Core = Core(
    current: Snapshot, capture: bool, distribution: Option<set<nat>>, viewers: map<nat, nat>, lastConnection: nat)
  {
    ghost predicate Valid() {
      match this
      case Core(current, capture, distribution, viewers, lastConnection) =>
        && capture == distribution.Some?
        && (!capture ==> viewers == map[])
        && (capture ==> distribution.value == viewers.Keys)
        && |viewers| <= VIEWER_LIMIT && current.viewerCount == |viewers|
        && (forall v :: v in viewers ==> v != 0 && 0 < viewers[v] <= lastConnection)
    }

    function Teardown(): Core {
      this.(capture := false, distribution := None, viewers := map[], current := current.(viewerCount := 0))
    }

    function WithState(state: MediaState): Core {
      this.(current := current.(state := state))
    }

    function Without(gone: set<nat>): Core
      requires gone <= viewers.Keys
    {
      var marked := if gone == {} then current
        else current.(lastFailedViewer := Largest(gone), lastFailedConnection := viewers[Largest(gone)]);
      this.(viewers := viewers - gone, current := marked,
            distribution := if distribution.Some? then Some(distribution.value - gone) else None)
    }

    /** Consumers that failed lose their subscription; the last of them is remembered. */
    function DropFailed(failed: set<nat>): Core {
      var kept := Without(failed * viewers.Keys);
      kept.(current := kept.current.(viewerCount := |kept.viewers|))
    }

    function Observed(state: CaptureState): Core {
      match state
      case CaptureStarting => WithState(Starting)
      case CaptureRecovering => WithState(Recovering)
      case CaptureRunning => WithState(if viewers == map[] then WaitingForViewers else Running)
      case CaptureMinimized => WithState(Minimized)
      case CaptureUnavailable => WithState(SourceUnavailable)
      case CaptureClosed => Teardown().WithState(SourceClosed)
      case CaptureStopped => Teardown().WithState(Stopped)
      case CaptureFailed => Teardown().WithState(Failed)
    }

    function Refresh(report: Report): Core {
      if !capture then this
      else
        var seen := Observed(report.state);
        if seen.distribution.None? then seen
        else
          var kept := seen.DropFailed(report.failed);
          if kept.current.state.Running? && kept.viewers == map[] then kept.WithState(WaitingForViewers) else kept
    }

    function RunStart(hasFactory: bool): (Core, OperationError) {
      if !hasFactory || capture then (this, InvalidState)
      else (NextGeneration().(distribution := Some({}), capture := true), NoError)
    }

    function NextGeneration(): Core {
      this.(current := Snapshot(Starting, current.generation + 1, 0, 0, 0, 0), lastConnection := 0)
    }

    function RunAdd(generation: nat, viewer: nat, connection: nat, hasDeliver: bool): (Core, OperationError) {
      if generation != current.generation then (this, StaleGeneration)
      else if !capture then (this, InvalidState)
      else if viewer == 0 || !hasDeliver || viewer in viewers then (this, InvalidViewer)
      else if connection == 0 || connection <= lastConnection then (this, StaleGeneration)
      else if |viewers| >= VIEWER_LIMIT then (this, Capacity)
      else
        var next := viewers[viewer := connection];
        (this.(viewers := next, lastConnection := connection, current := current.(viewerCount := |next|),
               distribution := Some(distribution.GetOr({}) + {viewer})), NoError)
    }

    function RunRemove(generation: nat, viewer: nat, connection: nat): (Core, OperationError) {
      if generation != current.generation then (this, StaleGeneration)
      else if viewer in viewers && viewers[viewer] != connection then (this, StaleGeneration)
      else
        var next := viewers - {viewer};
        (this.(viewers := next, current := current.(viewerCount := |next|),
               distribution := if distribution.Some? then Some(distribution.value - {viewer}) else None), NoError)
    }

    function RunStop(generation: nat): (Core, OperationError) {
      if generation != current.generation then (this, StaleGeneration)
      else (Teardown().WithState(Stopped), NoError)
    }

    function Run(request: Request): (Core, OperationError) {
      match request
      case Start(hasFactory) => RunStart(hasFactory)
      case AddViewer(g, v, c, hasDeliver) => RunAdd(g, v, c, hasDeliver)
      case RemoveViewer(g, v, c) => RunRemove(g, v, c)
      case Stop(g) => RunStop(g)
    }

    function Crash(): Core { Teardown().WithState(Failed) }

    /** One turn of the worker around an optional command. */
    function Turn(request: Option<Request>, world: World): (Core, OperationError) {
      var ready := Refresh(world.before);
      if world.fault.BeforeRun? then (ready.Crash(), Internal)
      else
        var (ran, error) := if request.Some? then ready.Run(request.value) else (ready, NoError);
        if world.fault.InRun? && request.Some? && error.NoError? then
          ((if request.value.Start? then ready.NextGeneration() else ready).Crash(), Internal)
        else if world.fault.AfterRun? then (ran.Crash(), Internal)
        else (ran.Refresh(world.after), error)
    }
  }

  /** A command ran as specified, or it got as far as its foreign call and that threw. */
  ghost predicate RunOutcome(before: Core, request: Request, throws: bool, after: Core, error: OperationError, thrown: bool) {
    match before.Run(request)
    case (next, e) =>
      if throws && e.NoError? then
        thrown && after.Crash() == (if request.Start? then before.NextGeneration() else before).Crash()
      else !thrown && after == next && error == e
  }

  /** What a command publishes before its foreign call: the start of a generation, or that it is stopping. */
  function Announced(before: Core, request: Request, published: Snapshot): Snapshot {
    match request
    case Start(hasFactory) => if hasFactory && !before.capture then before.NextGeneration().current else published
    case Stop(g) => if g == before.current.generation then before.current.(state := Stopping) else published
    case _ => published
  }

  function Largest(s: set<nat>): (m: nat)
    requires s != {}
    ensures m in s && forall x :: x in s ==> x <= m
  {
    LargestExists(s);
    var m :| m in s && forall x :: x in s ==> x <= m;
    m
  }

  lemma LargestExists(s: set<nat>)
    requires s != {}
    ensures exists m :: m in s && forall x :: x in s ==> x <= m
  {
    var m := FindLargest(s);
  }

  lemma {:induction false} FindLargest(s: set<nat>) returns (m: nat)
    requires s != {}
    ensures m in s && forall x :: x in s ==> x <= m
  {
    var x :| x in s;
    m := x;
    var above := set y | y in s && y > x;
    assert x !in above && forall y :: y in s ==> y in above || y <= x;
    if above != {} {
      m := FindLargest(above);
    }
  }

  function Smallest(s: set<nat>): (m: nat)
    requires s != {}
    ensures m in s && forall x :: x in s ==> m <= x
  {
    SmallestExists(s);
    var m :| m in s && forall x :: x in s ==> m <= x;
    m
  }

  lemma SmallestExists(s: set<nat>)
    requires s != {}
    ensures exists m :: m in s && forall x :: x in s ==> m <= x
  {
    var m := FindSmallest(s);
  }

  lemma {:induction false} FindSmallest(s: set<nat>) returns (m: nat)
    requires s != {}
    ensures m in s && forall x :: x in s ==> m <= x
  {
    var x :| x in s;
    m := x;
    var below := set y | y in s && y < x;
    assert x !in below && forall y :: y in s ==> y in below || y >= x;
    if below != {} {
      m := FindSmallest(below);
    }
  }

  /** Dropping consumers in ascending order, one at a time. */
  lemma WithoutStep(c: Core, gone: set<nat>, id: nat)
    requires gone <= c.viewers.Keys && id in c.viewers && forall v :: v in gone ==> v < id
    ensures var was, now := c.Without(gone), c.Without(gone + {id});
      now == was.(viewers := was.viewers - {id},
                  distribution := if was.distribution.Some? then Some(was.distribution.value - {id}) else None,
                  current := was.current.(lastFailedViewer := id, lastFailedConnection := c.viewers[id]))
  {
    assert Largest(gone + {id}) == id;
    assert c.viewers - gone - {id} == c.viewers - (gone + {id});
    if c.distribution.Some? {
      assert c.distribution.value - gone - {id} == c.distribution.value - (gone + {id});
    }
  }

  ghost predicate Precedes(gone: set<nat>, todo: set<nat>) {
    forall v, u :: v in gone && u in todo ==> v < u
  }

  lemma PrecedesStep(gone: set<nat>, todo: set<nat>, id: nat, more: set<nat>)
    requires Precedes(gone, todo) && id in todo && more <= {id} && forall u :: u in todo ==> id <= u
    ensures Precedes(gone + more, todo - {id})
    ensures forall v :: v in gone ==> v < id
  {
  }

  lemma PrecedesNothing(todo: set<nat>)
    ensures Precedes({}, todo)
  {
  }

  lemma WithoutNone(c: Core)
    ensures c.Without({}) == c
  {
    assert c.viewers - {} == c.viewers;
    if c.distribution.Some? { assert c.distribution.value - {} == c.distribution.value; }
  }

  // ----- the shared state -----

  datatype Session = Session(
    queue: seq<Command>, published: Snapshot, nextOperation: nat, closing: bool, exited: bool,
    core: Core, active: Option<Command>, outcome: Option<OperationError>, replies: map<nat, OperationResult>)
  {
    function Reply(operation: nat, generation: nat, error: OperationError): Session {
      this.(replies := replies[operation := OperationResult(operation, generation, error)])
    }

    function Submit(request: Request): Session {
      var op := nextOperation + 1;
      var numbered := this.(nextOperation := op);
      if request.Stop? && request.generation != published.generation then
        numbered.Reply(op, published.generation, StaleGeneration)
      else
        var cleared :=
          if request.Stop? && !closing then
            numbered.(replies := CancelAll(replies, queue, published.generation), queue := [])
          else numbered;
        if closing then cleared.Reply(op, published.generation, Cancelled)
        else if |cleared.queue| >= QUEUE_LIMIT then cleared.Reply(op, published.generation, Capacity)
        else cleared.(queue := cleared.queue + [Command(op, request)])
    }

    /** The worker's locked section: drain and leave when closing, else take the oldest command. */
    function Take(): Session {
      if exited || active.Some? then this
      else if closing then
        var gone := core.Teardown().WithState(Stopped);
        this.(replies := CancelAll(replies, queue, core.current.generation), queue := [], exited := true,
              core := gone, published := gone.current)
      else if queue == [] then this.Working(0)
      else this.(active := Some(queue[0]), queue := queue[1..], outcome := None).Working(queue[0].operation)
    }

    function Working(operation: nat): Session {
      var busy := core.(current := core.current.(activeOperation := operation));
      this.(core := busy, published := busy.current)
    }

    /** The worker's unlocked section, with or without a command. */
    function Perform(world: World): Session {
      if exited || outcome.Some? then this
      else
        var (next, error) := core.Turn(if active.Some? then Some(active.value.request) else None, world);
        var idle := next.(current := next.current.(activeOperation := 0));
        this.(core := idle, published := idle.current, outcome := if active.Some? then Some(error) else None)
    }

    function Answer(): Session {
      if active.None? || outcome.None? then this
      else Reply(active.value.operation, core.current.generation, outcome.value).(active := None, outcome := None)
    }

    function Close(): Session { this.(closing := true) }
  }

  const IDLE := Snapshot(Idle, 0, 0, 0, 0, 0)
  const FRESH := Session([], IDLE, 0, false, false, Core(IDLE, false, None, map[], 0), None, None, map[])

  function CancelAll(replies: map<nat, OperationResult>, queue: seq<Command>, generation: nat): map<nat, OperationResult> {
    if queue == [] then replies
    else
      var last := queue[|queue| - 1];
      CancelAll(replies, queue[..|queue| - 1], generation)[last.operation := OperationResult(last.operation, generation, Cancelled)]
  }

  // ----- the object -----

  class HostMediaSession {
    var queue: seq<Command>
    var published: Snapshot
    var nextOperation: nat
    var closing: bool
    var exited: bool
    var current: Snapshot
    var capture: bool
    var distribution: Option<set<nat>>
    var viewers: map<nat, nat>
    var lastConnectionGeneration: nat
    var active: Option<Command>
    var outcome: Option<OperationError>
    /** The promises already kept; the futures handed out read from here. */
    var replies: map<nat, OperationResult>

    ghost function CoreView(): Core
      reads this
    {
      Core(current, capture, distribution, viewers, lastConnectionGeneration)
    }

    ghost function View(): Session
      reads this
    {
      Session(queue, published, nextOperation, closing, exited, CoreView(), active, outcome, replies)
    }

    constructor ()
      ensures View() == FRESH
    {
      queue, published, nextOperation, closing, exited := [], IDLE, 0, false, false;
      current, capture, distribution, viewers, lastConnectionGeneration := IDLE, false, None, map[], 0;
      active, outcome, replies := None, None, map[];
    }

    method SetValue(operation: nat, generation: nat, error: OperationError)
      modifies this`replies
      ensures replies == old(replies)[operation := OperationResult(operation, generation, error)]
    {
      replies := replies[operation := OperationResult(operation, generation, error)];
    }

    method CancelQueued(generation: nat)
      modifies this`replies, this`queue
      ensures queue == [] && replies == CancelAll(old(replies), old(queue), generation)
    {
      for i := 0 to |queue|
        invariant queue == old(queue) && replies == CancelAll(old(replies), queue[..i], generation)
      {
        assert queue[..i + 1][..i] == queue[..i];
        SetValue(queue[i].operation, generation, Cancelled);
      }
      assert queue[..|queue|] == queue;
      queue := [];
    }

    method Submit(request: Request) returns (operation: nat)
      modifies this
      ensures View() == old(View()).Submit(request) && operation == nextOperation
    {
      nextOperation := nextOperation + 1;
      operation := nextOperation;
      if request.Stop? && request.generation != published.generation {
        SetValue(operation, published.generation, StaleGeneration);
        return;
      }
      if request.Stop? && !closing { CancelQueued(published.generation); }
      if closing || |queue| >= QUEUE_LIMIT {
        SetValue(operation, published.generation, if closing then Cancelled else Capacity);
      } else {
        queue := queue + [Command(operation, request)];
      }
    }

    method Teardown()
      modifies this`capture, this`distribution, this`viewers, this`current
      ensures CoreView() == old(CoreView()).Teardown()
    {
      capture, distribution, viewers := false, None, map[];
      current := current.(viewerCount := 0);
    }

    method DropOne(id: nat)
      requires distribution.Some? && id in viewers
      modifies this`distribution, this`viewers, this`current
      ensures var was := old(CoreView());
        CoreView() == was.(viewers := was.viewers - {id}, distribution := Some(was.distribution.value - {id}),
                           current := was.current.(lastFailedViewer := id, lastFailedConnection := was.viewers[id]))
    {
      current := current.(lastFailedViewer := id, lastFailedConnection := viewers[id]);
      distribution := Some(distribution.value - {id});
      viewers := viewers - {id};
    }

    /** Looks at one consumer, all lower ones having been looked at. */
    method Visit(id: nat, failed: set<nat>, ghost core: Core, ghost gone: set<nat>) returns (ghost dropped: set<nat>)
      requires distribution.Some? && gone <= core.viewers.Keys && CoreView() == core.Without(gone)
      requires id in core.viewers && id !in gone && forall v :: v in gone ==> v < id
      modifies this`distribution, this`viewers, this`current
      ensures dropped == gone + (failed * {id}) && dropped <= core.viewers.Keys
      ensures CoreView() == core.Without(dropped) && distribution.Some?
    {
      dropped := gone + (failed * {id});
      if id in failed {
        WithoutStep(core, gone, id);
        assert dropped == gone + {id};
        DropOne(id);
      } else {
        assert dropped == gone;
      }
    }

    method DropFailed(failed: set<nat>)
      requires distribution.Some?
      modifies this`distribution, this`viewers, this`current
      ensures CoreView() == old(CoreView()).DropFailed(failed)
    {
      hide Core.Without, Precedes;
      ghost var core := CoreView();
      ghost var gone: set<nat> := {};
      WithoutNone(core);
      var todo := viewers.Keys;
      PrecedesNothing(todo);
      while todo != {}
        invariant todo <= core.viewers.Keys && gone == failed * (core.viewers.Keys - todo)
        invariant Precedes(gone, todo)
        invariant CoreView() == core.Without(gone) && distribution.Some?
        decreases |todo|
      {
        var id := Smallest(todo);
        PrecedesStep(gone, todo, id, failed * {id});
        gone := Visit(id, failed, core, gone);
        todo := todo - {id};
      }
      assert core.viewers.Keys - {} == core.viewers.Keys;
      current := current.(viewerCount := |viewers|);
    }

    method Observe(state: CaptureState)
      modifies this`capture, this`distribution, this`viewers, this`current
      ensures CoreView() == old(CoreView()).Observed(state)
    {
      match state {
        case CaptureStarting => current := current.(state := Starting);
        case CaptureRecovering => current := current.(state := Recovering);
        case CaptureRunning => current := current.(state := if viewers == map[] then WaitingForViewers else Running);
        case CaptureMinimized => current := current.(state := Minimized);
        case CaptureUnavailable => current := current.(state := SourceUnavailable);
        case CaptureClosed => Teardown(); current := current.(state := SourceClosed);
        case CaptureStopped => Teardown(); current := current.(state := Stopped);
        case CaptureFailed => Teardown(); current := current.(state := Failed);
      }
    }

    method Refresh(report: Report)
      modifies this`published, this`capture, this`distribution, this`viewers, this`current
      ensures CoreView() == old(CoreView()).Refresh(report)
      ensures published == if old(capture) then current else old(published)
    {
      if !capture { return; }
      Observe(report.state);
      if distribution.Some? {
        DropFailed(report.failed);
        if current.state == Running && viewers == map[] { current := current.(state := WaitingForViewers); }
      }
      published := current;
    }

    /** The bodies of the queued commands; a foreign call in them may throw once they got that far. */
    method RunStart(hasFactory: bool, throws: bool) returns (error: OperationError, thrown: bool)
      modifies this`published, this`capture, this`distribution, this`viewers, this`current, this`lastConnectionGeneration
      ensures RunOutcome(old(CoreView()), Start(hasFactory), throws, CoreView(), error, thrown)
      ensures published == Announced(old(CoreView()), Start(hasFactory), old(published))
    {
      if !hasFactory || capture { return InvalidState, false; }
      current := Snapshot(Starting, current.generation + 1, 0, 0, 0, 0);
      lastConnectionGeneration := 0;
      published := current;
      if throws { return Internal, true; }
      distribution := Some({});
      capture := true;
      return NoError, false;
    }

    method RunAdd(generation: nat, viewer: nat, connection: nat, hasDeliver: bool, throws: bool)
      returns (error: OperationError, thrown: bool)
      modifies this`distribution, this`viewers, this`current, this`lastConnectionGeneration
      ensures RunOutcome(old(CoreView()), AddViewer(generation, viewer, connection, hasDeliver), throws, CoreView(), error, thrown)
    {
      if generation != current.generation { return StaleGeneration, false; }
      if !capture { return InvalidState, false; }
      if viewer == 0 || !hasDeliver || viewer in viewers { return InvalidViewer, false; }
      if connection == 0 || connection <= lastConnectionGeneration { return StaleGeneration, false; }
      if |viewers| >= VIEWER_LIMIT { return Capacity, false; }
      if throws { return Internal, true; }
      distribution := Some(distribution.GetOr({}) + {viewer});
      viewers := viewers[viewer := connection];
      lastConnectionGeneration := connection;
      current := current.(viewerCount := |viewers|);
      return NoError, false;
    }

    method RunRemove(generation: nat, viewer: nat, connection: nat, throws: bool)
      returns (error: OperationError, thrown: bool)
      modifies this`distribution, this`viewers, this`current
      ensures RunOutcome(old(CoreView()), RemoveViewer(generation, viewer, connection), throws, CoreView(), error, thrown)
    {
      if generation != current.generation { return StaleGeneration, false; }
      if viewer in viewers && viewers[viewer] != connection { return StaleGeneration, false; }
      if throws { return Internal, true; }
      if distribution.Some? { distribution := Some(distribution.value - {viewer}); }
      viewers := viewers - {viewer};
      current := current.(viewerCount := |viewers|);
      return NoError, false;
    }

    method RunStop(generation: nat, throws: bool) returns (error: OperationError, thrown: bool)
      modifies this`published, this`capture, this`distribution, this`viewers, this`current
      ensures RunOutcome(old(CoreView()), Stop(generation), throws, CoreView(), error, thrown)
      ensures published == Announced(old(CoreView()), Stop(generation), old(published))
    {
      if generation != current.generation { return StaleGeneration, false; }
      current := current.(state := Stopping);
      published := current;
      if throws { return Internal, true; }
      Teardown();
      current := current.(state := Stopped);
      return NoError, false;
    }

    method Run(request: Request, throws: bool) returns (error: OperationError, thrown: bool)
      modifies this`published, this`capture, this`distribution, this`viewers, this`current, this`lastConnectionGeneration
      ensures RunOutcome(old(CoreView()), request, throws, CoreView(), error, thrown)
      ensures published == Announced(old(CoreView()), request, old(published))
    {
      hide RunOutcome;
      match request {
        case Start(hasFactory) => error, thrown := RunStart(hasFactory, throws);
        case AddViewer(g, v, c, hasDeliver) => error, thrown := RunAdd(g, v, c, hasDeliver, throws);
        case RemoveViewer(g, v, c) => error, thrown := RunRemove(g, v, c, throws);
        case Stop(g) => error, thrown := RunStop(g, throws);
      }
    }

    method Take()
      modifies this
      ensures View() == old(View()).Take()
    {
      hide CancelAll;
      if exited || active.Some? { return; }
      if closing {
        CancelQueued(current.generation);
        exited := true;
        current := current.(state := Stopping);
        published := current;
        Teardown();
        current := current.(state := Stopped);
        published := current;
        return;
      }
      if queue != [] {
        active, outcome, queue := Some(queue[0]), None, queue[1..];
      }
      current := current.(activeOperation := if active.Some? then active.value.operation else 0);
      published := current;
    }

    method Turn(request: Option<Request>, world: World) returns (error: OperationError)
      modifies this`published, this`capture, this`distribution, this`viewers, this`current, this`lastConnectionGeneration
      ensures (CoreView(), error) == old(CoreView()).Turn(request, world)
    {
      error := NoError;
      var thrown := world.fault.BeforeRun?;
      Refresh(world.before);
      if !thrown && request.Some? {
        error, thrown := Run(request.value, world.fault.InRun?);
      }
      if !thrown {
        if world.fault.AfterRun? { thrown := true; } else { Refresh(world.after); }
      }
      if thrown {
        Teardown();
        current := current.(state := Failed);
        error := Internal;
      }
    }

    method Perform(world: World)
      modifies this
      ensures View() == old(View()).Perform(world)
    {
      hide Core.Turn;
      if exited || outcome.Some? { return; }
      var error := Turn(if active.Some? then Some(active.value.request) else None, world);
      current := current.(activeOperation := 0);
      published := current;
      if active.Some? { outcome := Some(error); }
    }

    method Answer()
      modifies this
      ensures View() == old(View()).Answer()
    {
      if active.Some? && outcome.Some? {
        SetValue(active.value.operation, current.generation, outcome.value);
        active, outcome := None, None;
      }
    }

    method Close()
      modifies this
      ensures View() == old(View()).Close()
    {
      closing := true;
    }
  }
}
