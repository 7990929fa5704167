/** The viewer's input queue: pointer motion and pad states are coalesced, everything else is kept in order. */
module InputQueue {
  import opened Bytes
  import opened MappingSei

  const QUEUED_LIMIT := 512

  datatype Kind = MouseMove | MouseButton | MouseScroll | Key | GamepadState | RequestControl | ReleaseControl

  datatype Pad = Pad(
    schemaVersion: byte, controllerSlot: byte, buttons: u16, leftTrigger: byte, rightTrigger: byte,
    thumbLX: int, thumbLY: int, thumbRX: int, thumbRY: int)

  datatype InputEvent = InputEvent(
    kind: Kind, normX: real, normY: real, relativeMouse: bool, button: int, pressed: bool,
    scrollX: int, scrollY: int, key: int, scancode: int, requestedCapabilities: nat,
    gamepad: Pad, sourceMapping: FrameMapping)
  {
    /** Motion and pad states are superseded by later ones; all other events are discrete. */
    predicate Discrete() { !kind.MouseMove? && !kind.GamepadState? }

    predicate PadOf(slot: byte) { kind.GamepadState? && gamepad.controllerSlot == slot }
  }

  lemma Associates<T>(a: seq<T>, b: seq<T>, c: seq<T>)
    ensures a + b + c == a + (b + c)
  {
  }

  lemma SplitLast<T>(s: seq<T>)
    requires s != []
    ensures s == s[..|s| - 1] + [s[|s| - 1]]
  {
  }

  lemma NothingMore<T>(s: seq<T>)
    ensures s + [] == s && [] + s == s
  {
  }

  // ----- what enqueueing does -----

  function RemoveAt(q: seq<InputEvent>, i: nat): seq<InputEvent>
    requires i < |q|
  {
    q[..i] + q[i + 1..]
  }

  /** The index of the first event of a slot, or the length. */
  function FindPad(q: seq<InputEvent>, slot: byte): (i: nat)
    ensures i <= |q| && (i < |q| ==> q[i].PadOf(slot)) && forall j :: 0 <= j < i ==> !q[j].PadOf(slot)
  {
    if q == [] || q[0].PadOf(slot) then 0 else 1 + FindPad(q[1..], slot)
  }

  function FindMotion(q: seq<InputEvent>): (i: nat)
    ensures i <= |q| && (i < |q| ==> !q[i].Discrete()) && forall j :: 0 <= j < i ==> q[j].Discrete()
  {
    if q == [] || !q[0].Discrete() then 0 else 1 + FindMotion(q[1..])
  }

  function WithoutPad(q: seq<InputEvent>, slot: byte): (r: seq<InputEvent>)
    ensures |r| <= |q|
  {
    if FindPad(q, slot) < |q| then RemoveAt(q, FindPad(q, slot)) else q
  }

  /** The oldest motion or pad state goes first; only an all-discrete queue gives up its front. */
  function Sacrifice(q: seq<InputEvent>): seq<InputEvent>
    requires q != []
  {
    if FindMotion(q) < |q| then RemoveAt(q, FindMotion(q)) else q[1..]
  }

  function Enqueue(q: seq<InputEvent>, e: InputEvent): seq<InputEvent> {
    if e.kind.MouseMove? && q != [] && q[|q| - 1].kind.MouseMove? then q[..|q| - 1] + [e]
    else
      var kept := Fresh(q, e);
      (if |kept| >= QUEUED_LIMIT then Sacrifice(kept) else kept) + [e]
  }

  function Fresh(q: seq<InputEvent>, e: InputEvent): seq<InputEvent> {
    if e.kind.GamepadState? then WithoutPad(q, e.gamepad.controllerSlot) else q
  }

  /** Enqueueing had to give something up. */
  predicate Overflows(q: seq<InputEvent>, e: InputEvent) {
    !(e.kind.MouseMove? && q != [] && q[|q| - 1].kind.MouseMove?) && |Fresh(q, e)| >= QUEUED_LIMIT
  }

  /** Nothing but discrete events is waiting, and there is no room for another. */
  predicate Full(q: seq<InputEvent>) {
    |q| >= QUEUED_LIMIT && forall i :: 0 <= i < |q| ==> q[i].Discrete()
  }

  // ----- the object -----

  class MemorySessionRuntimeControl {
    var inputQueue: seq<InputEvent>

    constructor ()
      ensures inputQueue == []
    {
      inputQueue := [];
    }

    method FirstPad(slot: byte) returns (stale: nat)
      ensures stale == FindPad(inputQueue, slot)
    {
      stale := 0;
      while stale < |inputQueue| && !inputQueue[stale].PadOf(slot)
        invariant stale <= |inputQueue|
        invariant forall j :: 0 <= j < stale ==> !inputQueue[j].PadOf(slot)
      {
        stale := stale + 1;
      }
    }

    method FirstMotion() returns (stale: nat)
      ensures stale == FindMotion(inputQueue)
    {
      stale := 0;
      while stale < |inputQueue| && inputQueue[stale].Discrete()
        invariant stale <= |inputQueue|
        invariant forall j :: 0 <= j < stale ==> inputQueue[j].Discrete()
      {
        stale := stale + 1;
      }
    }

    method EnqueueInput(event: InputEvent)
      modifies this
      ensures inputQueue == Enqueue(old(inputQueue), event)
    {
      hide FindPad, FindMotion, RemoveAt;
      if event.kind == Kind.MouseMove && inputQueue != [] && inputQueue[|inputQueue| - 1].kind == Kind.MouseMove {
        inputQueue := inputQueue[|inputQueue| - 1 := event];
        return;
      }
      if event.kind == Kind.GamepadState {
        var stale := FirstPad(event.gamepad.controllerSlot);
        if stale < |inputQueue| { inputQueue := RemoveAt(inputQueue, stale); }
      }
      if |inputQueue| >= QUEUED_LIMIT {
        var stale := FirstMotion();
        if stale < |inputQueue| {
          inputQueue := RemoveAt(inputQueue, stale);
        } else {
          inputQueue := inputQueue[1..];
        }
      }
      inputQueue := inputQueue + [event];
    }

    method DrainInput() returns (drained: seq<InputEvent>)
      modifies this
      ensures drained == old(inputQueue) && inputQueue == []
    {
      drained := inputQueue;
      inputQueue := [];
    }
  }

  // ----- between two drains -----

  /** What is waiting after these events arrived on an empty queue. */
  function Waiting(events: seq<InputEvent>): seq<InputEvent> {
    if events == [] then [] else Enqueue(Waiting(events[..|events| - 1]), events[|events| - 1])
  }

  ghost predicate OnePadPerSlot(q: seq<InputEvent>) {
    forall i, j :: 0 <= i < j < |q| && q[i].kind.GamepadState? && q[j].kind.GamepadState? ==>
      q[i].gamepad.controllerSlot != q[j].gamepad.controllerSlot
  }

  lemma EnqueueShape(q: seq<InputEvent>, e: InputEvent)
    requires |q| <= QUEUED_LIMIT && OnePadPerSlot(q)
    ensures var t := Enqueue(q, e); 0 < |t| <= QUEUED_LIMIT && OnePadPerSlot(t) && t[|t| - 1] == e
  {
    var kept := Fresh(q, e);
    assert OnePadPerSlot(kept);
    if e.kind.GamepadState? { NoPadLeft(q, e.gamepad.controllerSlot); }
  }

  lemma NoPadLeft(q: seq<InputEvent>, slot: byte)
    requires OnePadPerSlot(q)
    ensures forall i :: 0 <= i < |WithoutPad(q, slot)| ==> !WithoutPad(q, slot)[i].PadOf(slot)
  {
  }

  /** At most 512 wait, one pad state per slot, and the last event is always there, at the back. */
  lemma {:induction false} WaitingShape(events: seq<InputEvent>)
    ensures var q := Waiting(events);
      && |q| <= 512 && OnePadPerSlot(q)
      && (events != [] ==> q != [] && q[|q| - 1] == events[|events| - 1])
  {
    if events != [] {
      var init := events[..|events| - 1];
      WaitingShape(init);
      EnqueueShape(Waiting(init), events[|events| - 1]);
    }
  }

  // ----- nothing is reordered or made up -----

  ghost predicate Selects(from: seq<InputEvent>, at: seq<nat>, q: seq<InputEvent>) {
    && |at| == |q|
    && (forall k :: 0 <= k < |at| ==> at[k] < |from| && q[k] == from[at[k]])
    && (forall j, k :: 0 <= j < k < |at| ==> at[j] < at[k])
  }

  lemma SelectsWithout(from: seq<InputEvent>, at: seq<nat>, q: seq<InputEvent>, i: nat)
    requires Selects(from, at, q) && i < |q|
    ensures Selects(from, at[..i] + at[i + 1..], RemoveAt(q, i))
  {
  }

  lemma SelectsMore(from: seq<InputEvent>, at: seq<nat>, q: seq<InputEvent>, e: InputEvent)
    requires Selects(from, at, q)
    ensures Selects(from + [e], at + [|from|], q + [e])
  {
  }

  lemma KeptSelects(from: seq<InputEvent>, at: seq<nat>, q: seq<InputEvent>, kept: seq<InputEvent>) returns (next: seq<nat>)
    requires Selects(from, at, q)
    requires kept == q || exists i: nat :: i < |q| && kept == RemoveAt(q, i)
    ensures Selects(from, next, kept)
  {
    next := at;
    if kept != q {
      var i: nat :| i < |q| && kept == RemoveAt(q, i);
      SelectsWithout(from, at, q, i);
      next := at[..i] + at[i + 1..];
    }
  }

  lemma FreshRemoves(q: seq<InputEvent>, e: InputEvent)
    ensures Fresh(q, e) == q || exists i: nat :: i < |q| && Fresh(q, e) == RemoveAt(q, i)
  {
    hide FindPad, RemoveAt;
  }

  lemma SacrificeRemoves(q: seq<InputEvent>)
    requires q != []
    ensures exists i: nat :: i < |q| && Sacrifice(q) == RemoveAt(q, i)
  {
    assert q[1..] == RemoveAt(q, 0);
    hide FindMotion, RemoveAt;
  }

  lemma EnqueueSelects(from: seq<InputEvent>, at: seq<nat>, q: seq<InputEvent>, e: InputEvent) returns (next: seq<nat>)
    requires Selects(from, at, q)
    ensures Selects(from + [e], next, Enqueue(q, e))
  {
    var some := Fresh(q, e);
    var kept := if |some| >= QUEUED_LIMIT then Sacrifice(some) else some;
    FreshRemoves(q, e);
    if |some| >= QUEUED_LIMIT { SacrificeRemoves(some); }
    if e.kind.MouseMove? && q != [] && q[|q| - 1].kind.MouseMove? {
      kept := q[..|q| - 1];
      assert kept == RemoveAt(q, |q| - 1);
      assert Enqueue(q, e) == kept + [e];
      hide *;
      next := KeptSelects(from, at, q, kept);
    } else {
      assert Enqueue(q, e) == kept + [e];
      hide *;
      next := KeptSelects(from, at, q, some);
      next := KeptSelects(from, next, some, kept);
    }
    SelectsMore(from, next, kept, e);
    next := next + [|from|];
  }

  /** What waits is a selection of what arrived, in the order it arrived. */
  lemma {:induction false} WaitingSelects(events: seq<InputEvent>) returns (at: seq<nat>)
    ensures Selects(events, at, Waiting(events))
  {
    at := [];
    if events != [] {
      var init := events[..|events| - 1];
      at := WaitingSelects(init);
      at := EnqueueSelects(init, at, Waiting(init), events[|events| - 1]);
      assert init + [events[|events| - 1]] == events;
    }
  }

  // ----- discrete events -----

  function Discretes(q: seq<InputEvent>): (r: seq<InputEvent>)
    ensures |r| <= |q|
  {
    if q == [] then []
    else
      var last := q[|q| - 1];
      Discretes(q[..|q| - 1]) + if last.Discrete() then [last] else []
  }

  lemma {:induction false} DiscretesAppend(a: seq<InputEvent>, b: seq<InputEvent>)
    ensures Discretes(a + b) == Discretes(a) + Discretes(b)
  {
    if b == [] {
      assert a + b == a;
    } else {
      DiscretesAppend(a, b[..|b| - 1]);
      assert (a + b)[..|a + b| - 1] == a + b[..|b| - 1];
    }
  }

  lemma DiscretesOne(e: InputEvent)
    ensures Discretes([e]) == if e.Discrete() then [e] else []
  {
    assert [e][..0] == [];
  }

  lemma DiscretesWithout(q: seq<InputEvent>, i: nat)
    requires i < |q| && !q[i].Discrete()
    ensures Discretes(RemoveAt(q, i)) == Discretes(q)
  {
    hide Discretes;
    assert q == q[..i] + [q[i]] + q[i + 1..];
    DiscretesMiddle(q[..i], q[i], q[i + 1..]);
  }

  lemma DiscretesMiddle(a: seq<InputEvent>, e: InputEvent, b: seq<InputEvent>)
    requires !e.Discrete()
    ensures Discretes(a + [e] + b) == Discretes(a + b)
  {
    DiscretesOne(e);
    DiscretesAppend(a, b);
    DiscretesAppend(a, [e]);
    DiscretesAppend(a + [e], b);
    hide Discretes;
    assert Discretes(a) + [] == Discretes(a);
  }

  lemma {:induction false} DiscretesAll(q: seq<InputEvent>)
    requires forall i :: 0 <= i < |q| ==> q[i].Discrete()
    ensures Discretes(q) == q
  {
    if q != [] { DiscretesAll(q[..|q| - 1]); }
  }

  /** One arrival costs a discrete event exactly when the queue is full of them, and then the oldest. */
  lemma EnqueueDiscretes(q: seq<InputEvent>, e: InputEvent)
    requires |q| <= QUEUED_LIMIT
    ensures Discretes(Enqueue(q, e)) ==
            (if Full(q) then Discretes(q)[1..] else Discretes(q)) + (if e.Discrete() then [e] else [])
  {
    DiscretesOne(e);
    if e.kind.MouseMove? && q != [] && q[|q| - 1].kind.MouseMove? {
      BackDiscretes(q);
      assert Enqueue(q, e) == q[..|q| - 1] + [e];
      hide *;
      DiscretesAppend(q[..|q| - 1], [e]);
    } else {
      var kept := Fresh(q, e);
      var room := if |kept| >= QUEUED_LIMIT then Sacrifice(kept) else kept;
      assert Enqueue(q, e) == room + [e];
      FreshFull(q, e);
      FreshDiscretes(q, e);
      if |kept| >= QUEUED_LIMIT { SacrificeDiscretes(q); }
      assert Full(q) ==> |kept| >= QUEUED_LIMIT;
      hide *;
      DiscretesAppend(room, [e]);
    }
  }

  lemma BackDiscretes(q: seq<InputEvent>)
    requires q != [] && q[|q| - 1].kind.MouseMove?
    ensures Discretes(q[..|q| - 1]) == Discretes(q) && !Full(q)
  {
  }

  lemma FreshFull(q: seq<InputEvent>, e: InputEvent)
    requires |q| <= QUEUED_LIMIT
    ensures Full(q) || |Fresh(q, e)| >= QUEUED_LIMIT ==> Fresh(q, e) == q
  {
  }

  lemma FreshDiscretes(q: seq<InputEvent>, e: InputEvent)
    ensures Discretes(Fresh(q, e)) == Discretes(q)
  {
    if e.kind.GamepadState? && FindPad(q, e.gamepad.controllerSlot) < |q| {
      DiscretesWithout(q, FindPad(q, e.gamepad.controllerSlot));
    }
  }

  lemma SacrificeDiscretes(q: seq<InputEvent>)
    requires |q| >= QUEUED_LIMIT
    ensures Discretes(Sacrifice(q)) == if Full(q) then Discretes(q)[1..] else Discretes(q)
  {
    var i := FindMotion(q);
    if i < |q| {
      DiscretesWithout(q, i);
      assert !Full(q);
    } else {
      DiscretesAll(q);
      DiscretesAll(q[1..]);
    }
  }

  /** Some arrival found nothing but discrete events and no room. */
  predicate Crowded(events: seq<InputEvent>) {
    events != [] && (Crowded(events[..|events| - 1]) || Full(Waiting(events[..|events| - 1])))
  }

  /** How many arrivals did. */
  function Losses(events: seq<InputEvent>): nat {
    if events == [] then 0
    else Losses(events[..|events| - 1]) + if Full(Waiting(events[..|events| - 1])) then 1 else 0
  }

  lemma Tails(all: seq<InputEvent>, more: seq<InputEvent>, k: nat)
    requires k <= |all|
    ensures all[k..] + more == (all + more)[k..]
    ensures k < |all| ==> all[k..][1..] + more == (all + more)[k + 1..]
  {
  }

  lemma LastArrival(events: seq<InputEvent>)
    requires events != []
    ensures var init, e := events[..|events| - 1], events[|events| - 1];
      && Waiting(events) == Enqueue(Waiting(init), e)
      && Discretes(events) == Discretes(init) + (if e.Discrete() then [e] else [])
      && Losses(events) == Losses(init) + if Full(Waiting(init)) then 1 else 0
  {
    hide Enqueue, Full;
  }

  lemma FullHolds(q: seq<InputEvent>)
    requires Full(q)
    ensures |Discretes(q)| > 0
  {
    DiscretesAll(q);
  }

  /** The discrete events waiting are the latest that arrived: all but as many as arrivals that found no room. */
  lemma {:induction false} DiscreteSuffix(events: seq<InputEvent>)
    ensures Losses(events) <= |Discretes(events)|
    ensures Discretes(Waiting(events)) == Discretes(events)[Losses(events)..]
  {
    if events != [] {
      var init, e := events[..|events| - 1], events[|events| - 1];
      WaitingShape(init);
      LastArrival(events);
      hide *;
      DiscreteSuffix(init);
      EnqueueDiscretes(Waiting(init), e);
      if Full(Waiting(init)) { FullHolds(Waiting(init)); }
      Tails(Discretes(init), if e.Discrete() then [e] else [], Losses(init));
    } else {
      assert Discretes([])[0..] == [];
    }
  }

  /** No click, key, scroll or control request is ever lost, unless 512 of them were already waiting. */
  lemma NothingDiscreteLost(events: seq<InputEvent>)
    ensures Discretes(Waiting(events)) == Discretes(events) <==> !Crowded(events)
  {
    DiscreteSuffix(events);
    LossesCrowd(events);
  }

  lemma {:induction false} LossesCrowd(events: seq<InputEvent>)
    ensures Crowded(events) <==> Losses(events) > 0
  {
    if events != [] { LossesCrowd(events[..|events| - 1]); }
  }

  // ----- what the host sees -----

  /** The motion in force, if any. */
  function LastMove(q: seq<InputEvent>): Option<InputEvent> {
    if q == [] then None
    else if q[|q| - 1].kind.MouseMove? then Some(q[|q| - 1])
    else LastMove(q[..|q| - 1])
  }

  /** The pad state of a slot, if any. */
  function LastPad(q: seq<InputEvent>, slot: byte): Option<InputEvent> {
    if q == [] then None
    else if q[|q| - 1].PadOf(slot) then Some(q[|q| - 1])
    else LastPad(q[..|q| - 1], slot)
  }

  datatype Seen = Seen(event: InputEvent, pointer: Option<InputEvent>)

  /** Each discrete event, with the motion in force when it is replayed. */
  function Observed(q: seq<InputEvent>): seq<Seen> {
    if q == [] then []
    else
      var init, last := q[..|q| - 1], q[|q| - 1];
      Observed(init) + if last.Discrete() then [Seen(last, LastMove(init))] else []
  }

  /** The same discrete events under the same pointer, and the same pointer and pads at the end. */
  ghost predicate SameReplay(q: seq<InputEvent>, r: seq<InputEvent>) {
    Observed(q) == Observed(r) && LastMove(q) == LastMove(r) && forall slot :: LastPad(q, slot) == LastPad(r, slot)
  }

  lemma ReplayOne(q: seq<InputEvent>, e: InputEvent)
    ensures Observed(q + [e]) == Observed(q) + if e.Discrete() then [Seen(e, LastMove(q))] else []
    ensures LastMove(q + [e]) == if e.kind.MouseMove? then Some(e) else LastMove(q)
    ensures forall slot :: LastPad(q + [e], slot) == if e.PadOf(slot) then Some(e) else LastPad(q, slot)
  {
    assert (q + [e])[..|q|] == q;
  }

  lemma ReplayMore(q: seq<InputEvent>, r: seq<InputEvent>, e: InputEvent)
    requires SameReplay(q, r)
    ensures SameReplay(q + [e], r + [e])
  {
    ReplayOne(q, e);
    ReplayOne(r, e);
    hide Observed, LastMove, LastPad;
  }

  /** A pad state that is superseded leaves no trace, except in its slot. */
  lemma {:induction false} PadLeavesNoTrace(q: seq<InputEvent>, i: nat)
    requires i < |q| && q[i].kind.GamepadState?
    ensures var r := RemoveAt(q, i);
      Observed(q) == Observed(r) && LastMove(q) == LastMove(r) &&
      forall slot :: slot != q[i].gamepad.controllerSlot ==> LastPad(q, slot) == LastPad(r, slot)
  {
    var init, last := q[..|q| - 1], q[|q| - 1];
    assert q == init + [last];
    ReplayOne(init, last);
    if i == |q| - 1 {
      assert RemoveAt(q, i) == init;
    } else {
      PadLeavesNoTrace(init, i);
      ReplayOne(RemoveAt(init, i), last);
      assert RemoveAt(q, i) == RemoveAt(init, i) + [last];
    }
    hide Observed, LastMove, LastPad;
  }

  /** One arrival with room to spare replays as if it had simply been appended. */
  lemma EnqueueReplays(q: seq<InputEvent>, e: InputEvent)
    requires !Overflows(q, e)
    ensures SameReplay(Enqueue(q, e), q + [e])
  {
    hide Observed, LastMove, LastPad, FindPad, FindMotion;
    ReplayOne(q, e);
    if e.kind.MouseMove? && q != [] && q[|q| - 1].kind.MouseMove? {
      var init := q[..|q| - 1];
      assert q == init + [q[|q| - 1]];
      ReplayOne(init, q[|q| - 1]);
      ReplayOne(init, e);
    } else {
      ReplayOne(Fresh(q, e), e);
      if e.kind.GamepadState? && FindPad(q, e.gamepad.controllerSlot) < |q| {
        PadLeavesNoTrace(q, FindPad(q, e.gamepad.controllerSlot));
      }
    }
  }

  predicate Roomy(events: seq<InputEvent>) {
    events == [] ||
    (Roomy(events[..|events| - 1]) && !Overflows(Waiting(events[..|events| - 1]), events[|events| - 1]))
  }

  /** Without overflow the host sees the same: every click and key under the same pointer, and the same
      pointer and pads at the end, as if every event had been sent. */
  lemma {:induction false} CoalescingReplays(events: seq<InputEvent>)
    requires Roomy(events)
    ensures SameReplay(Waiting(events), events)
  {
    if events != [] {
      var init, e := events[..|events| - 1], events[|events| - 1];
      assert Waiting(events) == Enqueue(Waiting(init), e) && !Overflows(Waiting(init), e) && Roomy(init);
      hide *;
      CoalescingReplays(init);
      EnqueueReplays(Waiting(init), e);
      ReplayMore(Waiting(init), init, e);
      SplitLast(events);
      SameVia(Enqueue(Waiting(init), e), Waiting(init) + [e], init + [e]);
    }
  }

  // ----- whole sessions, with drains -----

  datatype Action = Enqueued(event: InputEvent) | Drained

  /** The queue, everything drained from it so far, and everything that arrived. */
  datatype Stream = Stream(queue: seq<InputEvent>, delivered: seq<InputEvent>, arrived: seq<InputEvent>, roomy: bool, crowded: bool)

  function Step(s: Stream, a: Action): Stream {
    match a
    case Enqueued(e) =>
      Stream(Enqueue(s.queue, e), s.delivered, s.arrived + [e], s.roomy && !Overflows(s.queue, e), s.crowded || Full(s.queue))
    case Drained => s.(queue := [], delivered := s.delivered + s.queue)
  }

  function Run(actions: seq<Action>): Stream {
    if actions == [] then Stream([], [], [], true, false) else Step(Run(actions[..|actions| - 1]), actions[|actions| - 1])
  }

  function Rebase(seen: seq<Seen>, base: Option<InputEvent>): (r: seq<Seen>)
    ensures |r| == |seen| && forall i :: 0 <= i < |r| ==> r[i] == if seen[i].pointer.None? then seen[i].(pointer := base) else seen[i]
  {
    seq(|seen|, i requires 0 <= i < |seen| => if seen[i].pointer.None? then seen[i].(pointer := base) else seen[i])
  }

  lemma RebaseMore(seen: seq<Seen>, more: seq<Seen>, base: Option<InputEvent>)
    ensures Rebase(seen + more, base) == Rebase(seen, base) + Rebase(more, base)
  {
  }

  lemma ReplayNothing(d: seq<InputEvent>)
    ensures d + [] == d && LastMove([]) == None && forall slot :: LastPad([], slot) == None
    ensures Observed(d) + Rebase(Observed([]), LastMove(d)) == Observed(d)
  {
    assert Rebase([], LastMove(d)) == [];
  }

  lemma RebaseOne(init: seq<InputEvent>, d: seq<InputEvent>, e: InputEvent)
    ensures Rebase([Seen(e, LastMove(init))], LastMove(d)) ==
            [Seen(e, if LastMove(init).Some? then LastMove(init) else LastMove(d))]
    ensures Rebase([], LastMove(d)) == []
  {
  }

  /** Replaying after something else depends on the later part only through its own replay. */
  lemma {:induction false} ReplayAfter(d: seq<InputEvent>, q: seq<InputEvent>)
    ensures Observed(d + q) == Observed(d) + Rebase(Observed(q), LastMove(d))
    ensures LastMove(d + q) == if LastMove(q).Some? then LastMove(q) else LastMove(d)
    ensures forall slot :: LastPad(d + q, slot) == if LastPad(q, slot).Some? then LastPad(q, slot) else LastPad(d, slot)
  {
    hide Observed, LastMove, LastPad, Rebase;
    if q == [] {
      ReplayNothing(d);
    } else {
      var init, last := q[..|q| - 1], q[|q| - 1];
      assert q == init + [last] && d + q == d + init + [last];
      ReplayAfter(d, init);
      ReplayOne(d + init, last);
      ReplayOne(init, last);
      RebaseOne(init, d, last);
      var more := if last.Discrete() then [Seen(last, LastMove(init))] else [];
      RebaseMore(Observed(init), more, LastMove(d));
      Associates(Observed(d), Rebase(Observed(init), LastMove(d)), Rebase(more, LastMove(d)));
    }
  }

  lemma SameAfter(d: seq<InputEvent>, q: seq<InputEvent>, r: seq<InputEvent>)
    requires SameReplay(q, r)
    ensures SameReplay(d + q, d + r)
  {
    ReplayAfter(d, q);
    ReplayAfter(d, r);
    hide Observed, LastMove, LastPad, Rebase;
  }

  lemma SameVia(a: seq<InputEvent>, b: seq<InputEvent>, c: seq<InputEvent>)
    requires SameReplay(a, b) && SameReplay(b, c)
    ensures SameReplay(a, c)
  {
  }

  lemma StepReplays(delivered: seq<InputEvent>, q: seq<InputEvent>, arrived: seq<InputEvent>, e: InputEvent)
    requires SameReplay(delivered + q, arrived) && !Overflows(q, e)
    ensures SameReplay(delivered + Enqueue(q, e), arrived + [e])
  {
    EnqueueReplays(q, e);
    hide *;
    SameAfter(delivered, Enqueue(q, e), q + [e]);
    ReplayMore(delivered + q, arrived, e);
    Associates(delivered, q, [e]);
    SameVia(delivered + Enqueue(q, e), delivered + q + [e], arrived + [e]);
  }

  /** However enqueueing and draining interleave: what was delivered, followed by what waits, replays as
      everything that arrived, as long as nothing overflowed. */
  lemma {:induction false} StreamReplays(actions: seq<Action>)
    requires Run(actions).roomy
    ensures SameReplay(Run(actions).delivered + Run(actions).queue, Run(actions).arrived)
  {
    if actions != [] {
      var s, a, t := Run(actions[..|actions| - 1]), actions[|actions| - 1], Run(actions);
      assert t == Step(s, a);
      hide Run, Enqueue, SameReplay, Overflows;
      StreamReplays(actions[..|actions| - 1]);
      if a.Enqueued? {
        StepReplays(s.delivered, s.queue, s.arrived, a.event);
      } else {
        NothingMore(t.delivered);
      }
    }
  }

  lemma StepDiscretes(delivered: seq<InputEvent>, q: seq<InputEvent>, arrived: seq<InputEvent>, e: InputEvent)
    requires Discretes(delivered + q) == Discretes(arrived) && |q| <= QUEUED_LIMIT && !Full(q)
    ensures Discretes(delivered + Enqueue(q, e)) == Discretes(arrived + [e])
  {
    EnqueueDiscretes(q, e);
    DiscretesOne(e);
    hide *;
    DiscretesAppend(delivered, q);
    DiscretesAppend(delivered, Enqueue(q, e));
    DiscretesAppend(arrived, [e]);
    var more := Discretes([e]);
    Associates(Discretes(delivered), Discretes(q), more);
  }

  /** Discrete events are never duplicated, and lost exactly when some arrival found 512 of them waiting. */
  lemma StepCounts(delivered: seq<InputEvent>, q: seq<InputEvent>, arrived: seq<InputEvent>, e: InputEvent)
    requires |q| <= QUEUED_LIMIT && |Discretes(delivered + q)| <= |Discretes(arrived)|
    ensures var now, all := |Discretes(delivered + Enqueue(q, e))|, |Discretes(arrived + [e])|;
      now - |Discretes(delivered + q)| + (if Full(q) then 1 else 0) == all - |Discretes(arrived)|
  {
    EnqueueDiscretes(q, e);
    DiscretesOne(e);
    if Full(q) { DiscretesAll(q); }
    assert Full(q) ==> |q| > 0;
    hide *;
    DiscretesAppend(delivered, q);
    DiscretesAppend(delivered, Enqueue(q, e));
    DiscretesAppend(arrived, [e]);
  }

  lemma {:induction false} StreamCounts(actions: seq<Action>)
    ensures var s := Run(actions);
      && |s.queue| <= QUEUED_LIMIT && |Discretes(s.delivered + s.queue)| <= |Discretes(s.arrived)|
      && (s.crowded ==> |Discretes(s.delivered + s.queue)| < |Discretes(s.arrived)|)
  {
    if actions != [] {
      var s, a, t := Run(actions[..|actions| - 1]), actions[|actions| - 1], Run(actions);
      assert t == Step(s, a);
      StreamCounts(actions[..|actions| - 1]);
      StreamConservesDiscretes(actions);
      hide Run, Enqueue, Discretes, OnePadPerSlot, Full;
      if a.Enqueued? {
        StepCounts(s.delivered, s.queue, s.arrived, a.event);
      } else {
        NothingMore(t.delivered);
      }
    }
  }

  /** Over any interleaving of arrivals and drains the discrete events delivered or waiting are exactly those
      that arrived, each once and in order, if and only if no arrival found 512 of them waiting. */
  lemma StreamLosesExactly(actions: seq<Action>)
    ensures var s := Run(actions);
      Discretes(s.delivered + s.queue) == Discretes(s.arrived) <==> !s.crowded
  {
    StreamConservesDiscretes(actions);
    StreamCounts(actions);
  }

  /** Unless some arrival found 512 discrete events waiting, none is lost. */
  lemma {:induction false} StreamConservesDiscretes(actions: seq<Action>)
    ensures var s := Run(actions);
      && |s.queue| <= QUEUED_LIMIT && OnePadPerSlot(s.queue)
      && (!s.crowded ==> Discretes(s.delivered + s.queue) == Discretes(s.arrived))
  {
    if actions != [] {
      var s, a, t := Run(actions[..|actions| - 1]), actions[|actions| - 1], Run(actions);
      assert t == Step(s, a);
      StreamConservesDiscretes(actions[..|actions| - 1]);
      if a.Enqueued? {
        EnqueueShape(s.queue, a.event);
        hide Run, Enqueue, Discretes, OnePadPerSlot, Full;
        if !t.crowded { StepDiscretes(s.delivered, s.queue, s.arrived, a.event); }
      } else {
        hide Run, Enqueue, Discretes;
        NothingMore(t.delivered);
      }
    }
  }

  // ----- what coalescing does not keep -----

  function Blank(kind: Kind): InputEvent {
    InputEvent(kind, 0.0, 0.0, false, 0, false, 0, 0, 0, 0, 0, Pad(1, 0, 0, 0, 0, 0, 0, 0, 0), NO_MAPPING)
  }

  // ----- summed motion -----

  datatype Axis = Horizontal | Vertical

  /** What an event adds to the motion counts: only relative moves do. */
  function Share(e: InputEvent, axis: Axis): real {
    if e.kind.MouseMove? && e.relativeMouse then (if axis.Horizontal? then e.normX else e.normY) else 0.0
  }

  function Travel(q: seq<InputEvent>, axis: Axis): real {
    if q == [] then 0.0 else Travel(q[..|q| - 1], axis) + Share(q[|q| - 1], axis)
  }

  lemma {:induction false} TravelAppend(a: seq<InputEvent>, b: seq<InputEvent>, axis: Axis)
    ensures Travel(a + b, axis) == Travel(a, axis) + Travel(b, axis)
  {
    if b == [] {
      NothingMore(a);
    } else {
      TravelAppend(a, b[..|b| - 1], axis);
      assert (a + b)[..|a + b| - 1] == a + b[..|b| - 1];
    }
  }

  lemma TravelOne(e: InputEvent, axis: Axis)
    ensures Travel([e], axis) == Share(e, axis)
  {
    assert [e][..0] == [];
  }

  lemma TravelWithout(q: seq<InputEvent>, i: nat, axis: Axis)
    requires i < |q|
    ensures Travel(RemoveAt(q, i), axis) == Travel(q, axis) - Share(q[i], axis)
  {
    var a, e, b := q[..i], q[i], q[i + 1..];
    TravelOne(e, axis);
    TravelAppend(a, b, axis);
    TravelAppend(a, [e], axis);
    TravelAppend(a + [e], b, axis);
    hide Travel;
    assert q == a + [e] + b;
  }

  /** The move at the back that an arriving move replaces. */
  function Overwritten(q: seq<InputEvent>, e: InputEvent, axis: Axis): real {
    if e.kind.MouseMove? && q != [] && q[|q| - 1].kind.MouseMove? then Share(q[|q| - 1], axis) else 0.0
  }

  /** The oldest motion that an arrival pushes out of a queue without room. */
  function Sacrificed(q: seq<InputEvent>, e: InputEvent, axis: Axis): real {
    var kept := Fresh(q, e);
    if Overflows(q, e) && FindMotion(kept) < |kept| then Share(kept[FindMotion(kept)], axis) else 0.0
  }

  lemma FreshTravel(q: seq<InputEvent>, e: InputEvent, axis: Axis)
    ensures Travel(Fresh(q, e), axis) == Travel(q, axis)
  {
    if e.kind.GamepadState? && FindPad(q, e.gamepad.controllerSlot) < |q| {
      TravelWithout(q, FindPad(q, e.gamepad.controllerSlot), axis);
    }
  }

  lemma SacrificeTravel(q: seq<InputEvent>, axis: Axis)
    requires q != []
    ensures Travel(Sacrifice(q), axis) == Travel(q, axis) - if FindMotion(q) < |q| then Share(q[FindMotion(q)], axis) else 0.0
  {
    if FindMotion(q) < |q| {
      TravelWithout(q, FindMotion(q), axis);
    } else {
      TravelWithout(q, 0, axis);
      assert RemoveAt(q, 0) == q[1..];
    }
  }

  /** One arrival adds its own motion and costs what it overwrites or pushes out, nothing else. */
  lemma EnqueueTravel(q: seq<InputEvent>, e: InputEvent, axis: Axis)
    ensures Travel(Enqueue(q, e), axis) + Overwritten(q, e, axis) + Sacrificed(q, e, axis) == Travel(q, axis) + Share(e, axis)
  {
    TravelOne(e, axis);
    if e.kind.MouseMove? && q != [] && q[|q| - 1].kind.MouseMove? {
      var init := q[..|q| - 1];
      TravelAppend(init, [e], axis);
      TravelAppend(init, [q[|q| - 1]], axis);
      TravelOne(q[|q| - 1], axis);
      SplitLast(q);
      hide Travel;
    } else {
      var kept := Fresh(q, e);
      var room := if |kept| >= QUEUED_LIMIT then Sacrifice(kept) else kept;
      assert Enqueue(q, e) == room + [e] && Overflows(q, e) == (|kept| >= QUEUED_LIMIT);
      FreshTravel(q, e, axis);
      if |kept| >= QUEUED_LIMIT { SacrificeTravel(kept, axis); }
      TravelAppend(room, [e], axis);
      hide Travel, Enqueue, Sacrifice, Fresh, FindMotion, FindPad;
    }
  }

  /** So an arrival keeps the motion counts exactly when what it replaces or pushes out did not move. */
  lemma EnqueueKeepsTravel(q: seq<InputEvent>, e: InputEvent, axis: Axis)
    ensures Travel(Enqueue(q, e), axis) == Travel(q, axis) + Share(e, axis) <==>
            Overwritten(q, e, axis) == 0.0 && Sacrificed(q, e, axis) == 0.0
  {
    EnqueueTravel(q, e, axis);
    hide Travel, Enqueue;
  }

  /** What all arrivals overwrote and pushed out. */
  function MotionLost(events: seq<InputEvent>, axis: Axis): real {
    if events == [] then 0.0
    else
      var init, e := events[..|events| - 1], events[|events| - 1];
      MotionLost(init, axis) + Overwritten(Waiting(init), e, axis) + Sacrificed(Waiting(init), e, axis)
  }

  /** The motion that waits is the motion that arrived, less what was overwritten and pushed out. */
  lemma {:induction false} MotionIsAccountedFor(events: seq<InputEvent>, axis: Axis)
    ensures Travel(Waiting(events), axis) + MotionLost(events, axis) == Travel(events, axis)
    ensures Travel(Waiting(events), axis) == Travel(events, axis) <==> MotionLost(events, axis) == 0.0
  {
    if events != [] {
      MotionIsAccountedFor(events[..|events| - 1], axis);
      EnqueueTravel(Waiting(events[..|events| - 1]), events[|events| - 1], axis);
      hide Enqueue, Overwritten, Sacrificed, Share;
    }
  }

  function StreamMotionLost(actions: seq<Action>, axis: Axis): real {
    if actions == [] then 0.0
    else
      var s, a := Run(actions[..|actions| - 1]), actions[|actions| - 1];
      StreamMotionLost(actions[..|actions| - 1], axis) +
      if a.Enqueued? then Overwritten(s.queue, a.event, axis) + Sacrificed(s.queue, a.event, axis) else 0.0
  }

  /** The same over any interleaving of arrivals and drains. */
  lemma {:induction false} StreamMotion(actions: seq<Action>, axis: Axis)
    ensures var s := Run(actions);
      && Travel(s.delivered + s.queue, axis) + StreamMotionLost(actions, axis) == Travel(s.arrived, axis)
      && (Travel(s.delivered + s.queue, axis) == Travel(s.arrived, axis) <==> StreamMotionLost(actions, axis) == 0.0)
  {
    if actions != [] {
      var s, a, t := Run(actions[..|actions| - 1]), actions[|actions| - 1], Run(actions);
      assert t == Step(s, a);
      StreamMotion(actions[..|actions| - 1], axis);
      if a.Enqueued? {
        EnqueueTravel(s.queue, a.event, axis);
        TravelAppend(s.delivered, s.queue, axis);
        TravelAppend(s.delivered, t.queue, axis);
        TravelAppend(s.arrived, [a.event], axis);
        TravelOne(a.event, axis);
      } else {
        NothingMore(t.delivered);
      }
      hide Run, Enqueue, Travel, Overwritten, Sacrificed, Share;
    }
  }

  /** Of two relative moves in a row only the second counts. */
  lemma RelativeMotionIsLost(x: real)
    requires x != 0.0
    ensures var e := Blank(MouseMove).(relativeMouse := true, normX := x);
      Waiting([e, e]) == [e] && Travel(Waiting([e, e]), Horizontal) != Travel([e, e], Horizontal)
  {
    var e := Blank(MouseMove).(relativeMouse := true, normX := x);
    assert [e, e][..1] == [e] && [e][..0] == [];
    assert Waiting([]) == [] && Waiting([e]) == [] + [e] && Waiting([e, e]) == [e];
    assert Travel([e], Horizontal) == x;
  }

  // ----- a discrete event can be lost -----

  /** Presses of keys 0, 1, 2 and so on. */
  function Keys(n: nat): (q: seq<InputEvent>)
    ensures |q| == n && forall i :: 0 <= i < n ==> q[i] == Blank(Key).(pressed := true, key := i)
  {
    seq(n, i => Blank(Key).(pressed := true, key := i))
  }

  lemma {:induction false} KeysWait(n: nat)
    requires n <= QUEUED_LIMIT
    ensures Waiting(Keys(n)) == Keys(n) && !Crowded(Keys(n))
  {
    if n > 0 {
      assert Keys(n)[..n - 1] == Keys(n - 1);
      KeysWait(n - 1);
      assert Keys(n) == Keys(n - 1) + [Keys(n)[n - 1]];
    }
  }

  lemma KeysFill(n: nat)
    requires n == QUEUED_LIMIT
    ensures var all := Keys(n + 1);
      all[..n] == Keys(n) && Full(Keys(n)) && Crowded(all) && Waiting(all) == Enqueue(Keys(n), all[n])
  {
    assert Keys(n + 1)[..n] == Keys(n);
    KeysWait(n);
    hide Enqueue;
  }

  lemma PushedOut(q: seq<InputEvent>, e: InputEvent)
    requires Full(q) && |q| <= QUEUED_LIMIT && e.Discrete()
    ensures Discretes(Enqueue(q, e)) == (q + [e])[1..] && Discretes(q + [e]) == q + [e]
  {
    var all := q + [e];
    DiscretesAll(q);
    DiscretesAll(all);
    assert q != [];
    hide *;
    EnqueueDiscretes(q, e);
    assert q[1..] + [e] == all[1..];
  }

  lemma OneKeyMore(n: nat)
    requires n == QUEUED_LIMIT
    ensures var all := Keys(n + 1); Crowded(all) && Discretes(Waiting(all)) == all[1..] && Discretes(all) == all
  {
    var all := Keys(n + 1);
    KeysFill(n);
    assert all == Keys(n) + [all[n]] && all[n].Discrete();
    hide *;
    PushedOut(Keys(n), all[n]);
  }

  /** The 513th key press pushes out the first, which the comment says is always kept. */
  lemma KeyIsLost()
    ensures Crowded(Keys(513)) && Discretes(Waiting(Keys(513))) == Keys(513)[1..] && Discretes(Keys(513)) == Keys(513)
  {
    OneKeyMore(512);
    hide *;
  }

  /** Two moves can wait side by side, when the pad state between them has been superseded. */
  lemma MovesCanBeAdjacent()
    ensures var m, p := Blank(MouseMove), Blank(GamepadState); Waiting([m, p, m, p]) == [m, m, p]
  {
    var m, p := Blank(MouseMove), Blank(GamepadState);
    assert [m][..0] == [] && [m, p][..1] == [m] && [m, p, m][..2] == [m, p] && [m, p, m, p][..3] == [m, p, m];
    assert Waiting([]) == [] && Waiting([m]) == [m];
    assert Fresh([m], p) == [m] && Waiting([m, p]) == [m, p];
    assert Waiting([m, p, m]) == [m, p, m];
    assert RemoveAt([m, p, m], 1) == [m, m];
    assert FindPad([m, p, m], 0) == 1;
  }

  // ----- one arrival, kind by kind -----

  /** The first position from the front with a motion or pad state. */
  predicate OldestMotion(q: seq<InputEvent>, i: nat) {
    && i < |q| && q[i].kind in {MouseMove, GamepadState}
    && forall j :: 0 <= j < i ==> q[j].kind in {MouseButton, MouseScroll, Key, RequestControl, ReleaseControl}
  }

  /** The first position with a state of this pad. */
  predicate StalePad(q: seq<InputEvent>, e: InputEvent, i: nat) {
    && e.kind == GamepadState && i < |q| && q[i].kind == GamepadState && q[i].gamepad.controllerSlot == e.gamepad.controllerSlot
    && forall j :: 0 <= j < i ==> !(q[j].kind == GamepadState && q[j].gamepad.controllerSlot == e.gamepad.controllerSlot)
  }

  predicate MovesOn(q: seq<InputEvent>, e: InputEvent) {
    e.kind == MouseMove && q != [] && q[|q| - 1].kind == MouseMove
  }

  /** A move behind a move takes its place, and a pad state the place of the one before it at the back. */
  lemma Superseding(q: seq<InputEvent>, e: InputEvent, i: nat)
    requires |q| <= 512
    ensures MovesOn(q, e) ==> Enqueue(q, e) == q[..|q| - 1] + [e]
    ensures StalePad(q, e, i) ==> Enqueue(q, e) == q[..i] + q[i + 1..] + [e]
  {
    if StalePad(q, e, i) {
      var k := FindPad(q, e.gamepad.controllerSlot);
      assert k == i;
      hide FindPad;
    }
  }

  /** Anything else goes to the back; the 513th costs the oldest motion or pad state, or, when only buttons, scrolls,
      keys and control requests wait, the oldest of them. */
  lemma GoingToTheBack(q: seq<InputEvent>, e: InputEvent, i: nat)
    requires |q| <= 512 && !MovesOn(q, e) && forall j: nat :: !StalePad(q, e, j)
    ensures |q| < 512 ==> Enqueue(q, e) == q + [e]
    ensures |q| == 512 && OldestMotion(q, i) ==> Enqueue(q, e) == q[..i] + q[i + 1..] + [e]
    ensures |q| == 512 && (forall j: nat :: !OldestMotion(q, j)) ==> Enqueue(q, e) == q[1..] + [e]
  {
    assert e.kind == GamepadState ==> !StalePad(q, e, FindPad(q, e.gamepad.controllerSlot));
    assert Fresh(q, e) == q;
    var k := FindMotion(q);
    assert k < |q| ==> OldestMotion(q, k);
    if OldestMotion(q, i) { assert k == i; }
    hide FindPad, FindMotion, Fresh;
  }
}
