/** Peer ownership and capture subscriptions together, for a registry bound to a capture session:
    what a row's disappearance and a shutdown guarantee, now and ever after. */
module HostSafety {
  import opened Bytes
  import opened HostPeerRegistry
  import opened HostRuns
  import L = PeerLifecycle
  import R = PeerLifecycleRuns
  import M = HostMediaSession
  import S = SessionRuns
  import opened SubscriptionSafety

  /** The host, and every incarnation whose peer the registry has closed so far. */
  datatype World = World(host: Host, retired: set<Incarnation>)

  function RowIncarnation(h: Host, v: nat): Incarnation
    requires v in h.registry.peers
  {
    Incarnation(h.registry.sessionGeneration, v, h.registry.peers[v].status.generation)
  }

  function Closed(h: Host): set<Incarnation> {
    set v | v in h.registry.peers && h.registry.peers[v].closed :: RowIncarnation(h, v)
  }

  function Step(w: World, e: Event): World {
    var next := Act(w.host, e);
    World(next, w.retired + Closed(next))
  }

  /** Somebody asks to subscribe the incarnation although its peer has been closed. */
  predicate AsksLate(w: World, e: Event, i: Incarnation) {
    e.SessionStep? && e.e.Submitted? && i in w.retired && Adds(e.e.request, i)
  }

  /** Closing a peer cancels its queued work: nobody subscribes the incarnation watched once it is retired. */
  predicate Allowed(w: World, e: Event, watched: Incarnation) {
    Owned(w.host, e) && !AsksLate(w, e, watched)
  }

  // What is claimed of subscriptions is claimed of one incarnation, whatever is done to the others.

  ghost predicate Out(s: M.Session, i: Incarnation, watched: Incarnation) {
    match s
    case Session(_, _, _, _, _, _, _, _, _) => i == watched ==> SubscriptionSafety.Gone(s, i)
  }

  ghost predicate Chased(s: M.Session, i: Incarnation, op: nat, watched: Incarnation) {
    match s
    case Session(_, _, _, _, _, _, _, _, _) =>
      (i == watched ==> Pursues(s, i, op)) &&
      (i == watched && op in s.replies && M.Settled(s.replies[op].error) ==> SubscriptionSafety.Gone(s, i))
  }

  lemma OutKeeps(s: M.Session, e: S.Event, i: Incarnation, watched: Incarnation)
    requires S.Valid(s) && Out(s, i, watched) && !(e.Submitted? && i == watched && Adds(e.request, i))
    ensures Out(S.Step(s, e), i, watched)
  {
    hide S.Step, S.Valid, SubscriptionSafety.Gone;
    if i == watched { GoneKeeps(s, e, i); }
  }

  lemma ChasedKeeps(s: M.Session, e: S.Event, i: Incarnation, op: nat, watched: Incarnation)
    requires S.Valid(s) && Fifo(s) && Chased(s, i, op, watched) && !(e.Submitted? && i == watched && Adds(e.request, i))
    ensures Chased(S.Step(s, e), i, op, watched)
  {
    if i == watched {
      PursuesKeeps(s, e, i, op);
      ChasedFrom(S.Step(s, e), i, op, watched);
    }
    hide *;
  }

  lemma ChasedFrom(s: M.Session, i: Incarnation, op: nat, watched: Incarnation)
    requires Pursues(s, i, op)
    ensures Chased(s, i, op, watched)
  {
    hide SubscriptionSafety.Gone;
  }

  lemma ChasedStarts(s: M.Session, i: Incarnation, watched: Incarnation)
    requires Fifo(s)
    ensures Chased(s.Submit(M.RemoveViewer(i.session, i.viewer, i.connection)), i, s.nextOperation + 1, watched)
  {
    PursuesStarts(s, i);
    hide M.Session.Submit, Pursues, Fifo;
    ChasedFrom(s.Submit(M.RemoveViewer(i.session, i.viewer, i.connection)), i, s.nextOperation + 1, watched);
  }

  ghost predicate RowSafe(s: M.Session, generation: nat, v: nat, entry: Entry, last: nat, watched: Incarnation) {
    match entry
    case Entry(_, status, closed, removeRequested, cleanup) =>
      var i := Incarnation(generation, v, status.generation);
      && status.viewer == v && status.generation <= last
      && (!closed ==> !status.cleanupPending && !removeRequested)
      && (closed && !status.cleanupPending ==> Out(s, i, watched))
      && (cleanup.Some? ==> closed && status.cleanupPending && Chased(s, i, cleanup.value, watched))
  }

  /** The capture side: shutdown under way, and how far it got. */
  ghost predicate StopSafe(h: Host) {
    match h
    case Host(r, s, _, _) =>
      && S.Valid(s) && Fifo(s) && r.bound && s.core.current.generation >= r.sessionGeneration
      && (r.stopCapture.Some? ==> r.stopping && r.stopError.NoError? && StopPursues(s, r.sessionGeneration, r.stopCapture.value))
      && (r.stopped ==> r.stopping && r.peers == map[] && Ended(s.core, r.sessionGeneration))
      && (r.stopping && !r.stopped && r.stopCapture.None? ==> !M.Settled(r.stopError))
      && (!r.stopping ==> r.stopError.NoError?)
  }

  ghost predicate RowsSafe(h: Host, watched: Incarnation) {
    match h
    case Host(r, s, _, _) => forall v :: v in r.peers ==> RowSafe(s, r.sessionGeneration, v, r.peers[v], r.lastGeneration, watched)
  }

  predicate Holds(h: Host, i: Incarnation) {
    i.viewer in h.registry.peers && h.registry.peers[i.viewer].closed && h.registry.peers[i.viewer].status.generation == i.connection
  }

  ghost predicate RetiredSafe(h: Host, retired: set<Incarnation>, watched: Incarnation) {
    match h
    case Host(r, s, _, _) =>
      && Closed(h) <= retired
      && forall i :: i in retired ==>
           (i.session == r.sessionGeneration && i.connection <= r.lastGeneration &&
            (Out(s, i, watched) || Holds(h, i) || Ended(s.core, i.session)))
  }

  // ----- the capture session takes a step -----

  lemma SessionRow(s: M.Session, e: S.Event, generation: nat, v: nat, entry: Entry, last: nat, watched: Incarnation)
    requires S.Valid(s) && Fifo(s) && RowSafe(s, generation, v, entry, last, watched)
    requires e.Submitted? && entry.closed && Incarnation(generation, v, entry.status.generation) == watched ==> !Adds(e.request, watched)
    ensures RowSafe(S.Step(s, e), generation, v, entry, last, watched)
  {
    hide S.Step, S.Valid, Fifo, Out, Chased, Adds;
    var i := Incarnation(generation, v, entry.status.generation);
    if entry.closed && !entry.status.cleanupPending { OutKeeps(s, e, i, watched); }
    if entry.cleanup.Some? { ChasedKeeps(s, e, i, entry.cleanup.value, watched); }
  }

  lemma SessionStop(h: Host, e: S.Event)
    requires StopSafe(h)
    ensures StopSafe(h.(session := S.Step(h.session, e)))
  {
    hide S.Step, S.Valid, Fifo, StopPursues, Ended;
    var s, r := h.session, h.registry;
    S.StepValid(s, e);
    FifoKeeps(s, e);
    GenerationKeeps(s, e);
    if r.stopCapture.Some? { StopPursuesKeeps(s, e, r.sessionGeneration, r.stopCapture.value); }
    if r.stopped { EndedKeeps(s, e, r.sessionGeneration); }
  }

  lemma SessionRetired(h: Host, e: S.Event, i: Incarnation, watched: Incarnation)
    requires S.Valid(h.session) && !(e.Submitted? && i == watched && Adds(e.request, i))
    requires Out(h.session, i, watched) || Holds(h, i) || Ended(h.session.core, i.session)
    ensures var t := h.(session := S.Step(h.session, e));
      Out(t.session, i, watched) || Holds(t, i) || Ended(t.session.core, i.session)
  {
    hide S.Step, S.Valid, Out, Ended;
    if Out(h.session, i, watched) { OutKeeps(h.session, e, i, watched); }
    if Ended(h.session.core, i.session) { EndedKeeps(h.session, e, i.session); }
  }

  lemma SessionStepSafe(h: Host, retired: set<Incarnation>, e: S.Event, watched: Incarnation)
    requires StopSafe(h) && RowsSafe(h, watched) && RetiredSafe(h, retired, watched)
    requires e.Submitted? && watched in retired ==> !Adds(e.request, watched)
    ensures var t := h.(session := S.Step(h.session, e)); StopSafe(t) && RowsSafe(t, watched) && RetiredSafe(t, retired, watched)
  {
    var t := h.(session := S.Step(h.session, e));
    SessionStop(h, e);
    assert S.Valid(h.session) && Fifo(h.session);
    forall v | v in h.registry.peers
      ensures RowSafe(t.session, h.registry.sessionGeneration, v, h.registry.peers[v], h.registry.lastGeneration, watched)
    {
      if h.registry.peers[v].closed { ClosedIsRetired(h, retired, v, watched); }
      SessionRow(h.session, e, h.registry.sessionGeneration, v, h.registry.peers[v], h.registry.lastGeneration, watched);
    }
    hide S.Step, S.Valid, Fifo, RowSafe, StopSafe, Adds, Out, Ended;
    forall i | i in retired
      ensures Out(t.session, i, watched) || Holds(t, i) || Ended(t.session.core, i.session)
    {
      SessionRetired(h, e, i, watched);
    }
    assert Closed(t) == Closed(h);
  }

  lemma ClosedIsRetired(h: Host, retired: set<Incarnation>, v: nat, watched: Incarnation)
    requires RetiredSafe(h, retired, watched) && v in h.registry.peers && h.registry.peers[v].closed
    ensures RowIncarnation(h, v) in retired
  {
    assert RowIncarnation(h, v) in Closed(h);
  }

  // ----- the registry takes a step -----

  /** Peers and policies do not matter to the capture side. */
  lemma SameSides(h: Host, t: Host, retired: set<Incarnation>, watched: Incarnation)
    requires t.registry == h.registry && t.session == h.session
    ensures StopSafe(h) == StopSafe(t) && RowsSafe(h, watched) == RowsSafe(t, watched) && RetiredSafe(h, retired, watched) == RetiredSafe(t, retired, watched)
  {
    assert Closed(h) == Closed(t);
    assert forall i :: Holds(h, i) == Holds(t, i);
    hide RowSafe, Out, Ended;
  }

  /** A row changes, keeps its incarnation, and does not reopen. */
  lemma RowChanges(h: Host, retired: set<Incarnation>, v: nat, entry: Entry, watched: Incarnation)
    requires StopSafe(h) && RowsSafe(h, watched) && RetiredSafe(h, retired, watched) && v in h.registry.peers
    requires RowSafe(h.session, h.registry.sessionGeneration, v, entry, h.registry.lastGeneration, watched)
    requires entry.status.generation == h.registry.peers[v].status.generation
    requires h.registry.peers[v].closed ==> entry.closed
    ensures var t := h.SetRow(v, entry); StopSafe(t) && RowsSafe(t, watched) && RetiredSafe(t, retired + Closed(t), watched)
    ensures entry.closed == h.registry.peers[v].closed ==> RetiredSafe(h.SetRow(v, entry), retired, watched)
  {
    hide RowSafe, Out, Ended, S.Valid, Fifo, StopPursues;
    var t := h.SetRow(v, entry);
    assert v in h.registry.peers ==> h.registry.peers != map[];
    forall i | i in retired ensures Holds(h, i) ==> Holds(t, i) {
    }
    forall i | i in Closed(t) ensures Holds(t, i) && i.session == h.registry.sessionGeneration && i.connection <= h.registry.lastGeneration {
      ClosedHolds(t, i, watched);
    }
    if entry.closed == h.registry.peers[v].closed {
      assert Closed(t) <= Closed(h) by {
        forall i | i in Closed(t) ensures i in Closed(h) {
          var u :| u in t.registry.peers && t.registry.peers[u].closed && i == RowIncarnation(t, u);
          assert i == RowIncarnation(h, u);
        }
      }
    }
  }

  lemma ClosedHolds(h: Host, i: Incarnation, watched: Incarnation)
    requires RowsSafe(h, watched) && i in Closed(h)
    ensures Holds(h, i) && i.session == h.registry.sessionGeneration && i.connection <= h.registry.lastGeneration
  {
    var u :| u in h.registry.peers && h.registry.peers[u].closed && i == RowIncarnation(h, u);
    hide Out, Chased;
  }

  ghost predicate AllSafe(h: Host, retired: set<Incarnation>, watched: Incarnation) {
    match h
    case Host(_, _, _, _) => StopSafe(h) && RowsSafe(h, watched) && RetiredSafe(h, retired, watched)
  }

  lemma PollSafe(h: Host, retired: set<Incarnation>, v: nat, watched: Incarnation)
    requires AllSafe(h, retired, watched) && v in h.registry.peers
    ensures AllSafe(h.PollCleanup(v), retired, watched)
  {
    var entry := h.registry.peers[v];
    var sg := h.registry.sessionGeneration;
    var i := Incarnation(sg, v, entry.status.generation);
    assert RowSafe(h.session, sg, v, entry, h.registry.lastGeneration, watched);
    if entry.status.cleanupPending {
      if entry.cleanup.Some? {
        if entry.cleanup.value in h.session.replies {
          var error := h.session.replies[entry.cleanup.value].error;
          var next := entry.(cleanup := None, status := entry.status.(cleanupError := error, cleanupPending := !M.Settled(error)));
          RowChanges(h, retired, v, next, watched) by {
            assert RowSafe(h.session, sg, v, next, h.registry.lastGeneration, watched) by { hide StopSafe, RetiredSafe, Out; }
          }
        }
      } else {
        PollSubmits(h, retired, v, watched);
      }
    }
  }

  lemma CleanupMarked(h: Host, retired: set<Incarnation>, v: nat, op: nat, watched: Incarnation)
    requires AllSafe(h, retired, watched) && v in h.registry.peers
    requires h.registry.peers[v].status.cleanupPending && Chased(h.session, RowIncarnation(h, v), op, watched)
    ensures AllSafe(h.SetRow(v, h.registry.peers[v].(cleanup := Some(op))), retired, watched)
  {
    var entry := h.registry.peers[v];
    var next := entry.(cleanup := Some(op));
    assert RowSafe(h.session, h.registry.sessionGeneration, v, entry, h.registry.lastGeneration, watched);
    assert RowSafe(h.session, h.registry.sessionGeneration, v, next, h.registry.lastGeneration, watched) by { hide Out, Chased, StopSafe, RetiredSafe; }
    RowChanges(h, retired, v, next, watched);
    hide StopSafe, RowsSafe, RetiredSafe, RowSafe;
  }

  lemma PollSubmits(h: Host, retired: set<Incarnation>, v: nat, watched: Incarnation)
    requires AllSafe(h, retired, watched) && v in h.registry.peers
    requires h.registry.peers[v].status.cleanupPending && h.registry.peers[v].cleanup.None?
    ensures AllSafe(h.PollCleanup(v), retired, watched)
  {
    hide AllSafe, M.Session.Submit, Chased, Fifo, S.Valid;
    var entry := h.registry.peers[v];
    var i := RowIncarnation(h, v);
    var request := M.RemoveViewer(i.session, v, i.connection);
    OpenRow(h, retired, v, watched);
    SessionOrdered(h, retired, watched);
    StepOfSession(h, retired, S.Submitted(request), watched);
    ChasedStarts(h.session, i, watched);
    var t := h.(session := h.session.Submit(request));
    var op := h.session.nextOperation + 1;
    CleanupMarked(t, retired, v, op, watched);
    assert h.PollCleanup(v) == t.SetRow(v, entry.(cleanup := Some(op)));
  }

  lemma SessionOrdered(h: Host, retired: set<Incarnation>, watched: Incarnation)
    requires AllSafe(h, retired, watched)
    ensures S.Valid(h.session) && Fifo(h.session) && h.session.core.current.generation >= h.registry.sessionGeneration && h.registry.bound
  {
    hide RowsSafe, RetiredSafe, S.Valid, Fifo;
  }

  /** Closing an open row, whatever has been noted in it. */
  lemma CloseSafe(h: Host, retired: set<Incarnation>, v: nat, entry: Entry, watched: Incarnation)
    requires AllSafe(h, retired, watched) && v in h.registry.peers && !h.registry.peers[v].closed
    requires !entry.closed && entry.cleanup.None? && entry.status.viewer == v
    requires entry.status.generation == h.registry.peers[v].status.generation
    ensures var t := h.SetRow(v, entry).CloseEntry(v); AllSafe(t, retired + Closed(t), watched)
  {
    var g := h.SetRow(v, entry);
    var status := FinalStatus(entry.status, g.PolicyOf(entry.peer));
    var closed := entry.(closed := true, status := status.(peerClosed := true, cleanupPending := h.registry.bound && !h.registry.stopped));
    assert RowSafe(h.session, h.registry.sessionGeneration, v, h.registry.peers[v], h.registry.lastGeneration, watched);
    assert h.registry.bound && !h.registry.stopped by { assert h.registry.peers != map[]; }
    assert RowSafe(h.session, h.registry.sessionGeneration, v, closed, h.registry.lastGeneration, watched) by { hide Out, Chased, StopSafe, RetiredSafe; }
    RowChanges(h, retired, v, closed, watched);
    var shut := g.Shut(v);
    var plain := h.SetRow(v, closed);
    assert h.registry.peers[v := entry][v := closed] == h.registry.peers[v := closed];
    hide RowSafe, StopSafe, RowsSafe, RetiredSafe, Host.PollCleanup;
    assert shut.registry == plain.registry && shut.session == plain.session;
    SameSides(plain, shut, retired + Closed(plain), watched);
    assert Closed(shut) == Closed(plain);
    PollSafe(shut, retired + Closed(shut), v, watched);
    PollKeepsClosed(shut, v);
  }

  lemma SetRowKeepsClosed(h: Host, v: nat, entry: Entry)
    requires v in h.registry.peers && entry.closed == h.registry.peers[v].closed
    requires entry.status.generation == h.registry.peers[v].status.generation
    ensures Closed(h.SetRow(v, entry)) == Closed(h)
  {
    var t := h.SetRow(v, entry);
    forall i | i in Closed(t) ensures i in Closed(h) {
      var u :| u in t.registry.peers && t.registry.peers[u].closed && i == RowIncarnation(t, u);
      assert i == RowIncarnation(h, u);
    }
    forall i | i in Closed(h) ensures i in Closed(t) {
      var u :| u in h.registry.peers && h.registry.peers[u].closed && i == RowIncarnation(h, u);
      assert i == RowIncarnation(t, u);
    }
  }

  lemma PollKeepsClosed(h: Host, v: nat)
    requires v in h.registry.peers
    ensures Closed(h.PollCleanup(v)) == Closed(h)
  {
    var entry := h.registry.peers[v];
    SetRowKeepsClosed(h, v, entry.(cleanup := Some(h.session.nextOperation + 1)));
    if entry.cleanup.Some? && entry.cleanup.value in h.session.replies {
      var error := h.session.replies[entry.cleanup.value].error;
      SetRowKeepsClosed(h, v, entry.(cleanup := None, status := entry.status.(cleanupError := error, cleanupPending := !M.Settled(error))));
    }
    SessionKeepsClosed(h.PollCleanup(v), h.session);
    hide M.Session.Submit, Closed;
  }

  lemma SessionKeepsClosed(h: Host, session: M.Session)
    ensures Closed(h.(session := session)) == Closed(h)
  {
  }

  lemma OpenRow(h: Host, retired: set<Incarnation>, v: nat, watched: Incarnation)
    requires AllSafe(h, retired, watched) && v in h.registry.peers
    ensures h.registry.peers[v].status.viewer == v
    ensures !h.registry.peers[v].closed ==> h.registry.peers[v].cleanup.None? && !h.registry.peers[v].removeRequested
    ensures Closed(h) <= retired
  {
    assert RowSafe(h.session, h.registry.sessionGeneration, v, h.registry.peers[v], h.registry.lastGeneration, watched);
    hide Out, Chased;
  }

  lemma TickRowSafe(h: Host, retired: set<Incarnation>, v: nat, now: int, polled: bool, accepted: bool, watched: Incarnation)
    requires AllSafe(h, retired, watched) && v in h.registry.peers
    ensures var t := h.TickRow(v, now, polled, accepted); AllSafe(t, retired + Closed(t), watched)
  {
    hide AllSafe, Host.PollCleanup, Host.CloseEntry, L.OnTick;
    var entry := h.registry.peers[v];
    OpenRow(h, retired, v, watched);
    if entry.closed {
      PollSafe(h, retired, v, watched);
      PollKeepsClosed(h, v);
      assert retired + Closed(h.PollCleanup(v)) == retired;
    } else {
      var (next, action) := L.OnTick(h.PolicyOf(entry.peer), now);
      var ticked := h.(policies := h.policies[entry.peer := next]);
      SameAll(h, ticked, retired, watched);
      CloseSafe(ticked, retired, v, entry, watched);
      assert ticked.registry.peers[v := entry] == ticked.registry.peers;
      assert ticked.SetRow(v, entry) == ticked;
      var called := ticked.Called(entry.peer, Polled);
      SameAll(h, called, retired, watched);
      CloseSafe(called, retired, v, entry.(status := entry.status.(operationFailed := true)), watched);
      var sent := called.Called(entry.peer, Restarted(next.restartRevision, now));
      SameAll(h, sent, retired, watched);
      CloseSafe(sent, retired, v, entry.(status := entry.status.(restartDispatchFailed := true)), watched);
    }
  }

  lemma SameAll(h: Host, t: Host, retired: set<Incarnation>, watched: Incarnation)
    requires AllSafe(h, retired, watched) && t.registry == h.registry && t.session == h.session
    ensures AllSafe(t, retired, watched) && Closed(t) == Closed(h) && AllSafe(t, retired + Closed(t), watched)
  {
    SameSides(h, t, retired, watched);
    assert Closed(h) == Closed(t);
    assert retired + Closed(t) == retired by { hide StopSafe, RowsSafe; }
  }

  lemma EraseSafe(h: Host, retired: set<Incarnation>, v: nat, watched: Incarnation)
    requires AllSafe(h, retired, watched) && h.Removable(v)
    ensures AllSafe(h.Erase(v), retired, watched) && Closed(h.Erase(v)) <= retired
    ensures Out(h.session, RowIncarnation(h, v), watched) && RowIncarnation(h, v) in retired
  {
    var t := h.Erase(v);
    assert RowSafe(h.session, h.registry.sessionGeneration, v, h.registry.peers[v], h.registry.lastGeneration, watched);
    ClosedIsRetired(h, retired, v, watched);
    hide Out, Ended, S.Valid, Fifo, StopPursues, Chased;
    forall i | i in retired ensures Out(t.session, i, watched) || Holds(t, i) || Ended(t.session.core, i.session) {
      if Holds(h, i) && i.viewer == v { assert i == RowIncarnation(h, v); }
    }
    forall i | i in Closed(t) ensures i in Closed(h) {
      var u :| u in t.registry.peers && t.registry.peers[u].closed && i == RowIncarnation(t, u);
      assert i == RowIncarnation(h, u);
    }
    hide RowSafe;
  }

  lemma AddSafe(h: Host, retired: set<Incarnation>, viewer: nat, given: Option<nat>, watched: Incarnation)
    requires AllSafe(h, retired, watched)
    ensures var t := h.Add(viewer, given).0; AllSafe(t, retired, watched) && Closed(t) <= retired
  {
    var t := h.Add(viewer, given).0;
    if given.None? || h.Refuses(viewer, h.PolicyOf(given.value).generation) {
      SameAll(h, t, retired, watched);
      assert Closed(t) <= retired by { hide StopSafe, RowsSafe; }
    } else {
      hide Out, Ended, S.Valid, Fifo, StopPursues, Chased;
      forall v | v in t.registry.peers
        ensures RowSafe(t.session, t.registry.sessionGeneration, v, t.registry.peers[v], t.registry.lastGeneration, watched)
      {
        if v != viewer {
          assert RowSafe(h.session, h.registry.sessionGeneration, v, h.registry.peers[v], h.registry.lastGeneration, watched);
        }
      }
      hide RowSafe;
      forall i | i in Closed(t) ensures i in Closed(h) {
        var u :| u in t.registry.peers && t.registry.peers[u].closed && i == RowIncarnation(t, u);
        assert i == RowIncarnation(h, u);
      }
      assert forall i :: Holds(h, i) ==> Holds(t, i);
    }
  }

  lemma RemoveSafe(h: Host, retired: set<Incarnation>, v: nat, generation: nat, watched: Incarnation)
    requires AllSafe(h, retired, watched)
    ensures var t := h.Remove(v, generation).0; AllSafe(t, retired + Closed(t), watched)
  {
    if h.Remove(v, generation).1 {
      OpenRow(h, retired, v, watched);
      var entry := h.registry.peers[v].(removeRequested := true);
      var closed := h.SetRow(v, entry).CloseEntry(v);
      if h.registry.peers[v].closed {
        MarkedSafe(h, retired, v, watched);
        assert closed == h.SetRow(v, entry);
        if closed.Removable(v) {
          EraseSafe(closed, retired, v, watched);
          hide AllSafe, Host.Erase;
          assert retired + Closed(closed.Erase(v)) == retired;
        } else {
          hide AllSafe;
          assert retired + Closed(closed) == retired;
        }
      } else {
        CloseSafe(h, retired, v, entry, watched);
        ClosePending(h.SetRow(v, entry), retired, v) by { assert h.registry.peers != map[]; }
      }
    } else {
      SameAll(h, h, retired, watched);
    }
  }

  lemma MarkedSafe(h: Host, retired: set<Incarnation>, v: nat, watched: Incarnation)
    requires AllSafe(h, retired, watched) && v in h.registry.peers && h.registry.peers[v].closed
    ensures var t := h.SetRow(v, h.registry.peers[v].(removeRequested := true)); AllSafe(t, retired, watched) && Closed(t) <= retired
  {
    var entry := h.registry.peers[v].(removeRequested := true);
    assert RowSafe(h.session, h.registry.sessionGeneration, v, h.registry.peers[v], h.registry.lastGeneration, watched);
    assert RowSafe(h.session, h.registry.sessionGeneration, v, entry, h.registry.lastGeneration, watched) by { hide Out, Chased, StopSafe, RetiredSafe; }
    RowChanges(h, retired, v, entry, watched);
    hide RowSafe, StopSafe, RowsSafe, Out, Ended;
  }

  /** With capture bound a freshly closed row always waits for its cleanup. */
  lemma ClosePending(h: Host, retired: set<Incarnation>, v: nat)
    requires v in h.registry.peers && !h.registry.peers[v].closed && h.registry.bound && !h.registry.stopped
    requires h.registry.peers[v].cleanup.None?
    ensures !h.CloseEntry(v).Removable(v)
  {
    hide M.Session.Submit, FinalStatus;
  }

  // ----- shutdown -----

  /** Once the stop has settled, closing the rows leaves the capture side alone. */
  lemma {:induction false} ShutRowsLeaves(h: Host, todo: set<nat>)
    requires todo <= h.registry.peers.Keys && h.registry.stopped
    requires forall v :: v in todo && !h.registry.peers[v].closed ==> !h.registry.peers[v].status.cleanupPending
    ensures var t := h.ShutRows(todo);
      t.session == h.session && t.registry == h.registry.(peers := t.registry.peers)
    decreases |todo|
  {
    if todo != {} {
      var v := M.Smallest(todo);
      CloseKeepsRows(h, v);
      CloseCloses(h, v);
      CloseStoppedLeaves(h, v);
      hide Host.CloseEntry;
      ShutRowsLeaves(h.CloseEntry(v), todo - {v});
    }
  }

  lemma CloseStoppedLeaves(h: Host, v: nat)
    requires v in h.registry.peers && h.registry.stopped
    ensures var t := h.CloseEntry(v); t.session == h.session && t.registry == h.registry.(peers := t.registry.peers)
  {
    hide M.Session.Submit, FinalStatus;
  }

  lemma PollStopSafe(h: Host, retired: set<Incarnation>, watched: Incarnation)
    requires AllSafe(h, retired, watched) && h.registry.stopping
    ensures var t := h.PollStop(); AllSafe(t, retired, watched) && Closed(t) <= retired
    ensures h.PollStop().registry.stopped ==> Ended(h.session.core, h.registry.sessionGeneration)
    ensures h.PollStop().session == h.session
    ensures h.PollStop().registry.stopped || h.PollStop().registry.peers == h.registry.peers
  {
    var r := h.registry;
    if !r.stopped {
      var read := h.ReadStop();
      if read.registry.stopCapture.Some? || !M.Settled(read.registry.stopError) {
        ReadSafe(h, retired, watched);
      } else {
        assert Ended(h.session.core, r.sessionGeneration) by { hide RowSafe, Out, Ended, S.Valid; }
        StoppedSafe(h, read, retired, watched);
      }
    } else {
      SameAll(h, h, retired, watched);
      assert Closed(h) <= retired by { hide StopSafe, RowsSafe; }
    }
  }

  lemma ReadSafe(h: Host, retired: set<Incarnation>, watched: Incarnation)
    requires AllSafe(h, retired, watched) && h.registry.stopping && !h.registry.stopped
    requires h.ReadStop().registry.stopCapture.Some? || !M.Settled(h.ReadStop().registry.stopError)
    ensures AllSafe(h.ReadStop(), retired, watched) && Closed(h.ReadStop()) <= retired
  {
    var t := h.ReadStop();
    assert Closed(t) == Closed(h);
    assert forall i :: Holds(h, i) == Holds(t, i);
    hide RowSafe, Out, Ended, StopPursues, S.Valid, Fifo;
  }

  lemma StoppedSafe(h: Host, read: Host, retired: set<Incarnation>, watched: Incarnation)
    requires AllSafe(h, retired, watched) && h.registry.stopping && !h.registry.stopped && read == h.ReadStop()
    requires read.registry.stopCapture.None? && M.Settled(read.registry.stopError)
    requires Ended(h.session.core, h.registry.sessionGeneration)
    ensures var t := h.PollStop(); AllSafe(t, retired, watched) && Closed(t) <= retired && t.session == h.session && t.registry.stopped
  {
    var marked := read.(registry := read.registry.(stopped := true));
    var todo := read.registry.peers.Keys;
    forall v | v in todo && !marked.registry.peers[v].closed ensures !marked.registry.peers[v].status.cleanupPending {
      assert RowSafe(h.session, h.registry.sessionGeneration, v, h.registry.peers[v], h.registry.lastGeneration, watched);
    }
    ShutRowsLeaves(marked, todo);
    hide Host.ShutRows, AllSafe, Ended;
    var t := h.PollStop();
    assert t == marked.ShutRows(todo).ReleaseAll();
    Finished(h, t, retired, watched);
  }

  lemma Finished(h: Host, t: Host, retired: set<Incarnation>, watched: Incarnation)
    requires AllSafe(h, retired, watched) && h.registry.stopping && Ended(h.session.core, h.registry.sessionGeneration)
    requires t.session == h.session && t.registry == h.registry.(peers := map[], stopped := true, stopCapture := None, stopError := t.registry.stopError)
    ensures AllSafe(t, retired, watched) && Closed(t) <= retired
  {
    assert Closed(t) == {};
    hide RowSafe, Out, StopPursues, S.Valid, Fifo, Ended;
  }

  lemma BeginStopSafe(h: Host, retired: set<Incarnation>, watched: Incarnation)
    requires AllSafe(h, retired, watched)
    ensures var t := h.BeginStop(); AllSafe(t, retired, watched) && Closed(t) <= retired
    ensures h.BeginStop().registry.stopped && !h.registry.stopped ==>
      h.registry.stopping || Ended(h.BeginStop().session.core, h.registry.sessionGeneration)
    ensures !h.registry.stopping && !h.BeginStop().registry.stopped ==> h.BeginStop().registry.peers == h.registry.peers
    ensures h.registry.stopping ==> h.BeginStop() == h
  {
    var r := h.registry;
    if r.stopping || r.stopped {
      SameAll(h, h, retired, watched);
      assert Closed(h) <= retired by { hide StopSafe, RowsSafe; }
    } else {
      BeganSafe(h, retired, watched);
      var t := h.(registry := r.(stopping := true, stopCapture := Some(h.session.nextOperation + 1)),
                  session := h.session.Submit(M.Stop(r.sessionGeneration)));
      PollStopSafe(t, retired, watched);
      assert h.BeginStop() == t.PollStop() by { hide Host.PollStop, M.Session.Submit, RowSafe, Out; }
      hide AllSafe, Host.PollStop, M.Session.Submit, Ended, StopSafe;
    }
  }

  lemma BeganSafe(h: Host, retired: set<Incarnation>, watched: Incarnation)
    requires AllSafe(h, retired, watched) && !h.registry.stopping && !h.registry.stopped
    ensures var r := h.registry;
      AllSafe(h.(registry := r.(stopping := true, stopCapture := Some(h.session.nextOperation + 1)),
                 session := h.session.Submit(M.Stop(r.sessionGeneration))), retired, watched)
  {
    hide AllSafe, M.Session.Submit, StopPursues, Fifo, S.Valid;
    var r := h.registry;
    SessionOrdered(h, retired, watched);
    StepOfSession(h, retired, S.Submitted(M.Stop(r.sessionGeneration)), watched);
    StopPursuesStarts(h.session, r.sessionGeneration);
    Begins(h.(session := h.session.Submit(M.Stop(r.sessionGeneration))), retired, h.session.nextOperation + 1, watched);
  }

  /** Nothing but the flags of the shutdown changes. */
  lemma Begins(h: Host, retired: set<Incarnation>, op: nat, watched: Incarnation)
    requires AllSafe(h, retired, watched) && !h.registry.stopping && !h.registry.stopped
    requires StopPursues(h.session, h.registry.sessionGeneration, op)
    ensures AllSafe(h.(registry := h.registry.(stopping := true, stopCapture := Some(op))), retired, watched)
  {
    hide RowSafe, Out, Ended, StopPursues, S.Valid, Fifo;
    var t := h.(registry := h.registry.(stopping := true, stopCapture := Some(op)));
    assert Closed(t) == Closed(h);
    assert forall i :: Holds(h, i) == Holds(t, i);
  }

  lemma StopAgainSafe(h: Host, retired: set<Incarnation>, watched: Incarnation)
    requires AllSafe(h, retired, watched)
    ensures var t := h.StopAgain(); AllSafe(t, retired, watched) && Closed(t) <= retired
    ensures h.StopAgain().registry.stopped && !h.registry.stopped ==> Ended(h.StopAgain().session.core, h.registry.sessionGeneration)
    ensures !h.StopAgain().registry.stopped ==> h.StopAgain().registry.peers == h.registry.peers
  {
    var r := h.registry;
    if r.stopped {
      SameAll(h, h, retired, watched);
      assert Closed(h) <= retired by { hide StopSafe, RowsSafe; }
    } else {
      BeginStopSafe(h, retired, watched);
      if r.stopping && !M.Settled(r.stopError) {
        var again := h.(registry := r.(stopping := false, stopError := M.NoError));
        AgainSafe(h, retired, watched);
        BeginStopSafe(again, retired, watched);
      }
      hide AllSafe, Host.PollStop, M.Session.Submit, Ended, StopSafe;
    }
  }

  lemma AgainSafe(h: Host, retired: set<Incarnation>, watched: Incarnation)
    requires AllSafe(h, retired, watched) && !h.registry.stopped && h.registry.stopping && !M.Settled(h.registry.stopError)
    ensures AllSafe(h.(registry := h.registry.(stopping := false, stopError := M.NoError)), retired, watched)
  {
    var t := h.(registry := h.registry.(stopping := false, stopError := M.NoError));
    assert Closed(t) == Closed(h);
    assert forall i :: Holds(h, i) == Holds(t, i);
    hide RowSafe, Out, Ended, StopPursues, S.Valid, Fifo;
  }

  // ----- every step -----

  lemma ActSafe(h: Host, retired: set<Incarnation>, e: Event, watched: Incarnation)
    requires AllSafe(h, retired, watched) && Allowed(World(h, retired), e, watched)
    ensures AllSafe(Act(h, e), retired + Closed(Act(h, e)), watched)
  {
    var t := Act(h, e);
    hide AllSafe, Host.TickRow, Host.Add, Host.Remove, Host.BeginStop, Host.PollStop, Host.StopAgain, Host.Erase, S.Step, R.React;
    match e {
      case SessionStep(step) =>
        StepOfSession(h, retired, step, watched);
      case NewPeer(_, _, _) => SameAll(h, t, retired, watched);
      case PeerEvent(_, _) => SameAll(h, t, retired, watched);
      case AddPeer(viewer, given) => AddSafe(h, retired, viewer, given, watched);
      case AskRestart(_, _, _) => SameAll(h, t, retired, watched);
      case RowTick(v, at, polled, accepted) =>
        if v in h.registry.peers { TickRowSafe(h, retired, v, at, polled, accepted, watched); }
        SameAll(h, h, retired, watched);
      case EraseRow(v) =>
        if h.Removable(v) { EraseSafe(h, retired, v, watched); }
        SameAll(h, h, retired, watched);
      case RemovePeer(v, generation) => RemoveSafe(h, retired, v, generation, watched);
      case BeginStop => BeginStopSafe(h, retired, watched);
      case PollStop =>
        if h.registry.stopping { PollStopSafe(h, retired, watched); }
        SameAll(h, h, retired, watched);
      case StopAgain => StopAgainSafe(h, retired, watched);
    }
    if Closed(t) <= retired { assert retired + Closed(t) == retired; }
  }

  lemma StepOfSession(h: Host, retired: set<Incarnation>, step: S.Event, watched: Incarnation)
    requires AllSafe(h, retired, watched)
    requires step.Submitted? && watched in retired ==> !Adds(step.request, watched)
    ensures var t := h.(session := S.Step(h.session, step)); AllSafe(t, retired, watched) && Closed(t) <= retired
  {
    SessionStepSafe(h, retired, step, watched);
    SessionKeepsClosed(h, S.Step(h.session, step));
    hide S.Step, RowsSafe, StopSafe, Out, Ended;
  }

  // ----- whole runs -----

  function Run(w: World, events: seq<Event>): World
    decreases |events|
  {
    if events == [] then w else Run(Step(w, events[0]), events[1..])
  }

  predicate AllowedRun(w: World, events: seq<Event>, watched: Incarnation)
    decreases |events|
  {
    events == [] || (Allowed(w, events[0], watched) && AllowedRun(Step(w, events[0]), events[1..], watched))
  }

  ghost predicate Safe(w: World, watched: Incarnation) { AllSafe(w.host, w.retired, watched) }

  /** A new registry, bound to a session that has been started, is safe. */
  lemma InitiallySafe(h: Host, watched: Incarnation)
    requires h.registry == Registry(map[], 0, false, false, M.NoError, None, true, h.registry.sessionGeneration)
    requires S.Valid(h.session) && Fifo(h.session) && h.session.core.current.generation >= h.registry.sessionGeneration
    ensures Safe(World(h, {}), watched)
  {
    assert Closed(h) == {};
    hide S.Valid, Fifo;
  }

  lemma {:induction false} RunSafe(w: World, events: seq<Event>, watched: Incarnation)
    requires Safe(w, watched) && AllowedRun(w, events, watched)
    ensures Safe(Run(w, events), watched)
    decreases |events|
  {
    if events != [] {
      hide AllSafe, Act;
      ActSafe(w.host, w.retired, events[0], watched);
      RunSafe(Step(w, events[0]), events[1..], watched);
    }
  }

  /** No row, open or closed, carries the incarnation. */
  predicate Absent(h: Host, i: Incarnation) {
    i.viewer in h.registry.peers ==> h.registry.peers[i.viewer].status.generation != i.connection
  }

  /** Rows keep their generation; a new row gets a higher one than any before. */
  ghost predicate Descends(h: Host, t: Host) {
    match t
    case Host(r, _, _, _) =>
      && r.lastGeneration >= h.registry.lastGeneration
      && forall v :: v in r.peers ==>
           if v in h.registry.peers then r.peers[v].status.generation == h.registry.peers[v].status.generation
           else r.peers[v].status.generation > h.registry.lastGeneration
  }

  lemma CloseDescends(h: Host, v: nat)
    requires v in h.registry.peers
    ensures Descends(h, h.CloseEntry(v)) && Descends(h, h.PollCleanup(v))
    ensures h.CloseEntry(v).registry.lastGeneration == h.registry.lastGeneration
  {
    PollDescends(h, v);
    if !h.registry.peers[v].closed {
      var shut := h.Shut(v);
      ShutDescends(h, v);
      PollDescends(shut, v);
      PollKeepsRows(shut, v);
      hide Host.PollCleanup, Host.Shut, Descends;
      DescendsVia(h, shut, shut.PollCleanup(v));
    } else {
      SameDescends(h, h);
    }
  }

  lemma PollDescends(h: Host, v: nat)
    requires v in h.registry.peers
    ensures Descends(h, h.PollCleanup(v)) && h.PollCleanup(v).registry.lastGeneration == h.registry.lastGeneration
  {
    hide M.Session.Submit;
    var entry := h.registry.peers[v];
    SameDescends(h, h);
    RowDescends(h, v, entry.(cleanup := Some(h.session.nextOperation + 1)));
    if entry.cleanup.Some? && entry.cleanup.value in h.session.replies {
      var error := h.session.replies[entry.cleanup.value].error;
      RowDescends(h, v, entry.(cleanup := None, status := entry.status.(cleanupError := error, cleanupPending := !M.Settled(error))));
    }
    DescendsTo(h, h.SetRow(v, entry.(cleanup := Some(h.session.nextOperation + 1))), h.PollCleanup(v));
    hide Descends;
  }

  /** Only the rows and the last generation count. */
  lemma DescendsTo(h: Host, t: Host, u: Host)
    requires Descends(h, t)
    ensures u.registry == t.registry ==> Descends(h, u)
  {
  }

  lemma ShutDescends(h: Host, v: nat)
    requires v in h.registry.peers
    ensures Descends(h, h.Shut(v)) && h.Shut(v).registry.lastGeneration == h.registry.lastGeneration
    ensures v in h.Shut(v).registry.peers
  {
  }

  lemma DescendsVia(a: Host, b: Host, c: Host)
    requires Descends(a, b) && Descends(b, c) && b.registry.lastGeneration == a.registry.lastGeneration
    requires c.registry.peers.Keys <= b.registry.peers.Keys
    ensures Descends(a, c)
  {
  }

  lemma RowDescends(h: Host, v: nat, entry: Entry)
    requires v in h.registry.peers && entry.status.generation == h.registry.peers[v].status.generation
    ensures Descends(h, h.SetRow(v, entry))
  {
  }

  lemma TickRowDescends(h: Host, v: nat, now: int, polled: bool, accepted: bool)
    requires v in h.registry.peers
    ensures Descends(h, h.TickRow(v, now, polled, accepted))
  {
    hide Descends, Host.PollCleanup, Host.CloseEntry, L.OnTick;
    var entry := h.registry.peers[v];
    CloseDescends(h, v);
    var (next, action) := L.OnTick(h.PolicyOf(entry.peer), now);
    var ticked := h.(policies := h.policies[entry.peer := next]);
    SameDescends(h, ticked);
    CloseDescends(ticked, v);
    CloseKeepsRows(ticked, v);
    DescendsVia(h, ticked, ticked.CloseEntry(v));
    var called := ticked.Called(entry.peer, Polled);
    SameDescends(h, called);
    MarkedDescends(h, called, v, entry.(status := entry.status.(operationFailed := true)));
    var sent := called.Called(entry.peer, Restarted(next.restartRevision, now));
    SameDescends(h, sent);
    MarkedDescends(h, sent, v, entry.(status := entry.status.(restartDispatchFailed := true)));
  }

  lemma SameDescends(h: Host, t: Host)
    requires t.registry.peers == h.registry.peers && t.registry.lastGeneration == h.registry.lastGeneration
    ensures Descends(h, t)
  {
  }

  lemma MarkedDescends(h: Host, t: Host, v: nat, entry: Entry)
    requires v in h.registry.peers && t.registry == h.registry
    requires entry.status.generation == h.registry.peers[v].status.generation
    ensures Descends(h, t.SetRow(v, entry).CloseEntry(v))
  {
    hide Host.CloseEntry, Descends;
    RowDescends(t, v, entry);
    CloseDescends(t.SetRow(v, entry), v);
    CloseKeepsRows(t.SetRow(v, entry), v);
    DescendsVia(t, t.SetRow(v, entry), t.SetRow(v, entry).CloseEntry(v));
    DescendsSame(h, t, t.SetRow(v, entry).CloseEntry(v));
  }

  lemma DescendsSame(h: Host, t: Host, u: Host)
    requires t.registry == h.registry && Descends(t, u)
    ensures Descends(h, u)
  {
  }

  lemma RemoveDescends(h: Host, v: nat, generation: nat)
    ensures Descends(h, h.Remove(v, generation).0)
  {
    if h.Remove(v, generation).1 {
      var entry := h.registry.peers[v].(removeRequested := true);
      MarkedDescends(h, h, v, entry);
      CloseCloses(h.SetRow(v, entry), v);
      hide Host.CloseEntry;
    }
  }

  lemma StopDescends(h: Host)
    ensures (h.PollStop().registry.peers == h.registry.peers || h.PollStop().registry.peers == map[])
    ensures AllStopped(h) ==> Descends(h, h.PollStop())
  {
    if !h.registry.stopped {
      var read := h.ReadStop();
      if read.registry.stopCapture.None? && M.Settled(read.registry.stopError) {
        hide Host.ShutRows;
        var marked := read.(registry := read.registry.(stopped := true));
        if AllStopped(h) { ShutRowsLeaves(marked, read.registry.peers.Keys); }
      }
    }
  }

  /** Open rows have no cleanup pending. */
  predicate AllStopped(h: Host) {
    forall v :: v in h.registry.peers && !h.registry.peers[v].closed ==> !h.registry.peers[v].status.cleanupPending
  }

  lemma OpenRowsQuiet(h: Host, retired: set<Incarnation>, watched: Incarnation)
    requires AllSafe(h, retired, watched)
    ensures AllStopped(h)
  {
    forall v | v in h.registry.peers && !h.registry.peers[v].closed ensures !h.registry.peers[v].status.cleanupPending {
      assert RowSafe(h.session, h.registry.sessionGeneration, v, h.registry.peers[v], h.registry.lastGeneration, watched);
    }
  }

  lemma BeginStopDescends(h: Host)
    requires AllStopped(h)
    ensures Descends(h, h.BeginStop()) && h.BeginStop().registry.peers.Keys <= h.registry.peers.Keys
  {
    if h.registry.stopping || h.registry.stopped {
      SameDescends(h, h);
    } else {
      var t := if h.registry.bound then
        h.(registry := h.registry.(stopping := true, stopCapture := Some(h.session.nextOperation + 1)),
           session := h.session.Submit(M.Stop(h.registry.sessionGeneration)))
        else h.(registry := h.registry.(stopping := true));
      SameDescends(h, t);
      StopDescends(t);
      DescendsVia(h, t, t.PollStop());
      hide Host.PollStop, M.Session.Submit;
    }
  }

  lemma ActDescends(h: Host, e: Event)
    requires AllStopped(h)
    ensures Descends(h, Act(h, e))
  {
    hide Descends, Host.TickRow, Host.Remove, Host.BeginStop, Host.PollStop, S.Step, R.React;
    SameDescends(h, h);
    match e
    case SessionStep(_) => SameDescends(h, Act(h, e));
    case NewPeer(_, _, _) => SameDescends(h, Act(h, e));
    case PeerEvent(_, _) => SameDescends(h, Act(h, e));
    case AddPeer(viewer, given) => AddDescends(h, viewer, given);
    case AskRestart(_, _, _) => SameDescends(h, Act(h, e));
    case RowTick(v, at, polled, accepted) =>
      if v in h.registry.peers { TickRowDescends(h, v, at, polled, accepted); }
    case EraseRow(v) => if v in h.registry.peers { EraseDescends(h, v); }
    case RemovePeer(v, generation) => RemoveDescends(h, v, generation);
    case BeginStop => BeginStopDescends(h);
    case PollStop => StopDescends(h);
    case StopAgain =>
      BeginStopDescends(h);
      var again := h.(registry := h.registry.(stopping := false, stopError := M.NoError));
      SameDescends(h, again);
      BeginStopDescends(again);
      DescendsVia(h, again, again.BeginStop());
  }

  lemma AddDescends(h: Host, viewer: nat, given: Option<nat>)
    ensures Descends(h, h.Add(viewer, given).0)
  {
  }

  lemma EraseDescends(h: Host, v: nat)
    requires v in h.registry.peers
    ensures Descends(h, h.Erase(v))
  {
  }

  lemma AbsentKeeps(h: Host, t: Host, i: Incarnation)
    requires Descends(h, t) && Absent(h, i) && i.connection <= h.registry.lastGeneration
    ensures Absent(t, i) && i.connection <= t.registry.lastGeneration
  {
  }

  /** Nothing can subscribe an incarnation once its peer is closed and its row is gone. */
  lemma {:induction false} StaysOut(w: World, events: seq<Event>, i: Incarnation)
    requires Safe(w, i) && AllowedRun(w, events, i)
    requires i.session == w.host.registry.sessionGeneration && i.connection <= w.host.registry.lastGeneration
    requires Absent(w.host, i) && (i in w.retired || Ended(w.host.session.core, i.session))
    ensures !Subscribed(Run(w, events).host.session.core, i)
    decreases |events|
  {
    if events == [] {
      OutNow(w, i);
    } else {
      var t := Step(w, events[0]);
      ActSafe(w.host, w.retired, events[0], i);
      OpenRowsQuiet(w.host, w.retired, i);
      ActDescends(w.host, events[0]);
      AbsentKeeps(w.host, t.host, i);
      ActEnded(w.host, events[0], i.session);
      hide Act, AllSafe, Ended, Absent, Subscribed, Descends, Allowed;
      StaysOut(t, events[1..], i);
    }
  }

  lemma OutNow(w: World, i: Incarnation)
    requires Safe(w, i) && Absent(w.host, i) && (i in w.retired || Ended(w.host.session.core, i.session))
    ensures !Subscribed(w.host.session.core, i)
  {
    assert !Holds(w.host, i);
    assert S.Valid(w.host.session) by { hide RowsSafe, RetiredSafe, S.Valid; }
    if Ended(w.host.session.core, i.session) { EndedHoldsNobody(w.host.session, i); }
    hide RowsSafe, StopSafe, Ended, S.Valid;
  }

  /** The registry submits to the session and otherwise leaves it alone; what has ended stays ended. */
  lemma ActEnded(h: Host, e: Event, generation: nat)
    ensures Act(h, e).registry.sessionGeneration == h.registry.sessionGeneration
    ensures Ended(h.session.core, generation) ==> Ended(Act(h, e).session.core, generation)
  {
    hide Host.PollCleanup, Host.Shut, L.OnTick, S.Step, R.React, Host.ShutRows, Host.ReadStop, M.Session.Submit, Ended, FinalStatus;
    SubmitsOnly(h, e);
    if e.SessionStep? && Ended(h.session.core, generation) { EndedKeeps(h.session, e.e, generation); }
  }

  /** The registry's own steps leave the worker's state and the session binding alone. */
  lemma SubmitsOnly(h: Host, e: Event)
    ensures !e.SessionStep? ==> Act(h, e).session.core == h.session.core
    ensures Act(h, e).registry.sessionGeneration == h.registry.sessionGeneration
  {
    hide Host.TickRow, Host.Remove, Host.BeginStop, Host.PollStop, Host.StopAgain, S.Step, R.React;
    match e
    case RowTick(v, at, polled, accepted) =>
      if v in h.registry.peers { TickRowCore(h, v, at, polled, accepted); }
    case RemovePeer(v, generation) => RemoveCore(h, v, generation);
    case BeginStop => BeginStopCore(h);
    case PollStop => PollStopCore(h);
    case StopAgain => StopAgainCore(h);
    case _ =>
  }

  predicate SameCore(h: Host, t: Host) {
    t.session.core == h.session.core && t.registry.sessionGeneration == h.registry.sessionGeneration
  }

  lemma CloseCore(h: Host, v: nat)
    requires v in h.registry.peers
    ensures SameCore(h, h.CloseEntry(v)) && SameCore(h, h.PollCleanup(v))
  {
    hide M.CancelAll, FinalStatus;
  }

  lemma TickRowCore(h: Host, v: nat, now: int, polled: bool, accepted: bool)
    requires v in h.registry.peers
    ensures SameCore(h, h.TickRow(v, now, polled, accepted))
  {
    hide Host.PollCleanup, Host.CloseEntry, L.OnTick;
    var entry := h.registry.peers[v];
    CloseCore(h, v);
    var (next, action) := L.OnTick(h.PolicyOf(entry.peer), now);
    var ticked := h.(policies := h.policies[entry.peer := next]);
    CloseCore(ticked, v);
    var called := ticked.Called(entry.peer, Polled);
    CloseCore(called.SetRow(v, entry.(status := entry.status.(operationFailed := true))), v);
    var sent := called.Called(entry.peer, Restarted(next.restartRevision, now));
    CloseCore(sent.SetRow(v, entry.(status := entry.status.(restartDispatchFailed := true))), v);
  }

  lemma RemoveCore(h: Host, v: nat, generation: nat)
    ensures SameCore(h, h.Remove(v, generation).0)
  {
    if h.Remove(v, generation).1 {
      CloseCore(h.SetRow(v, h.registry.peers[v].(removeRequested := true)), v);
      hide Host.CloseEntry;
    }
  }

  lemma {:induction false} ShutRowsCore(h: Host, todo: set<nat>)
    requires todo <= h.registry.peers.Keys
    ensures SameCore(h, h.ShutRows(todo))
    decreases |todo|
  {
    if todo != {} {
      var v := M.Smallest(todo);
      CloseKeepsRows(h, v);
      CloseCore(h, v);
      hide Host.CloseEntry;
      ShutRowsCore(h.CloseEntry(v), todo - {v});
    }
  }

  lemma PollStopCore(h: Host)
    ensures SameCore(h, h.PollStop())
  {
    hide Host.ShutRows;
    var read := h.ReadStop();
    ShutRowsCore(read.(registry := read.registry.(stopped := true)), read.registry.peers.Keys);
  }

  lemma BeginStopCore(h: Host)
    ensures SameCore(h, h.BeginStop())
  {
    hide Host.PollStop, M.CancelAll;
    var r := h.registry;
    PollStopCore(h.(registry := r.(stopping := true, stopCapture := Some(h.session.nextOperation + 1)),
                    session := h.session.Submit(M.Stop(r.sessionGeneration))));
    PollStopCore(h.(registry := r.(stopping := true)));
  }

  lemma StopAgainCore(h: Host)
    ensures SameCore(h, h.StopAgain())
  {
    hide Host.BeginStop;
    BeginStopCore(h);
    BeginStopCore(h.(registry := h.registry.(stopping := false, stopError := M.NoError)));
  }

  /** When a row disappears, capture holds no subscription for its connection, and will hold none as long as
      nobody asks for that one again, whatever reply ended the cleanup and whatever is asked for others. */
  lemma RowGoneForGood(w: World, e: Event, events: seq<Event>, v: nat)
    requires v in w.host.registry.peers && v !in Step(w, e).host.registry.peers
    requires var i := RowIncarnation(w.host, v); Safe(w, i) && Allowed(w, e, i) && AllowedRun(Step(w, e), events, i)
    ensures !Subscribed(Run(Step(w, e), events).host.session.core, RowIncarnation(w.host, v))
  {
    var i := RowIncarnation(w.host, v);
    ActSafe(w.host, w.retired, e, i);
    ErasedIsRetired(w, e, v, i);
    OpenRowsQuiet(w.host, w.retired, i);
    ActDescends(w.host, e);
    ActEnded(w.host, e, i.session);
    assert i.connection <= w.host.registry.lastGeneration by {
      assert RowSafe(w.host.session, w.host.registry.sessionGeneration, v, w.host.registry.peers[v], w.host.registry.lastGeneration, i);
    }
    assert Step(w, e).host.registry.lastGeneration >= w.host.registry.lastGeneration;
    hide Act, AllSafe, Subscribed, Descends, Ended;
    StaysOut(Step(w, e), events, i);
  }

  lemma ErasedIsRetired(w: World, e: Event, v: nat, watched: Incarnation)
    requires Safe(w, watched) && v in w.host.registry.peers && v !in Act(w.host, e).registry.peers
    ensures RowIncarnation(w.host, v) in w.retired || Ended(Act(w.host, e).session.core, w.host.registry.sessionGeneration)
  {
    var h := w.host;
    assert !h.registry.stopped by { assert h.registry.peers != map[]; }
    hide Host.TickRow, Host.BeginStop, Host.PollStop, Host.StopAgain, S.Step, R.React, Host.CloseEntry, AllSafe, Ended;
    match e {
      case RowTick(u, at, polled, accepted) =>
        if u in h.registry.peers { TickRowKeepsRows(h, u, at, polled, accepted); }
      case EraseRow(u) =>
        if h.Removable(u) { EraseSafe(h, w.retired, u, watched); }
      case RemovePeer(u, generation) => RemovedIsRetired(w, u, generation, v, watched);
      case BeginStop => BeginStopSafe(h, w.retired, watched);
      case PollStop => if h.registry.stopping { PollStopSafe(h, w.retired, watched); }
      case StopAgain => StopAgainSafe(h, w.retired, watched);
      case _ =>
    }
  }

  lemma RemovedIsRetired(w: World, u: nat, generation: nat, v: nat, watched: Incarnation)
    requires Safe(w, watched) && v in w.host.registry.peers && v !in w.host.Remove(u, generation).0.registry.peers
    ensures RowIncarnation(w.host, v) in w.retired
  {
    var h := w.host;
    var entry := h.registry.peers[u].(removeRequested := true);
    CloseKeepsRows(h.SetRow(u, entry), u);
    assert u == v by { hide Host.CloseEntry; }
    OpenRow(h, w.retired, u, watched);
    assert h.registry.bound && !h.registry.stopped by { assert h.registry.peers != map[]; }
    if h.registry.peers[u].closed {
      ClosedIsRetired(h, w.retired, u, watched);
    } else {
      ClosePending(h.SetRow(u, entry), w.retired, u);
      hide Host.CloseEntry;
    }
  }

  /** During shutdown a peer that was still open is closed only after the capture stop has settled:
      by then capture is torn down, or belongs to a later session. */
  lemma StopClosesLate(w: World, e: Event, v: nat, watched: Incarnation)
    requires Safe(w, watched) && w.host.registry.stopping && v in w.host.registry.peers && !w.host.registry.peers[v].closed
    requires var t := Act(w.host, e); v !in t.registry.peers || t.registry.peers[v].closed
    ensures Ended(Act(w.host, e).session.core, w.host.registry.sessionGeneration)
  {
    var h := w.host;
    assert !h.registry.stopped by { assert h.registry.peers != map[]; }
    hide AllSafe, Host.PollStop, Host.StopAgain, S.Step, R.React, Host.CloseEntry, Host.TickRow, Ended;
    if e.PollStop? { PollStopSafe(h, w.retired, watched); }
    if e.StopAgain? { StopAgainSafe(h, w.retired, watched); }
  }

  /** The same over whole runs: whoever had a row and no longer has it, under that connection, is not subscribed. */
  lemma {:induction false} GoneRowIsOut(w: World, events: seq<Event>, v: nat)
    requires v in w.host.registry.peers
    requires Safe(w, RowIncarnation(w.host, v)) && AllowedRun(w, events, RowIncarnation(w.host, v))
    requires Absent(Run(w, events).host, RowIncarnation(w.host, v))
    ensures !Subscribed(Run(w, events).host.session.core, RowIncarnation(w.host, v))
    decreases |events|
  {
    if events != [] {
      var e, rest, t := events[0], events[1..], Step(w, events[0]);
      var i := RowIncarnation(w.host, v);
      ActSafe(w.host, w.retired, e, i);
      OpenRowsQuiet(w.host, w.retired, i);
      ActDescends(w.host, e);
      ActEnded(w.host, e, w.host.registry.sessionGeneration);
      if v in t.host.registry.peers {
        assert RowIncarnation(t.host, v) == i;
        hide Act, AllSafe, Descends, Allowed, Absent, Subscribed, RowIncarnation;
        GoneRowIsOut(t, rest, v);
      } else {
        hide Act, AllSafe, Descends, Allowed, Absent, Subscribed;
        RowGoneForGood(w, e, rest, v);
      }
    }
  }

  predicate OwnedRun(w: World, events: seq<Event>)
    decreases |events|
  {
    events == [] || (Owned(w.host, events[0]) && OwnedRun(Step(w, events[0]), events[1..]))
  }

  /** Along the run somebody asks to subscribe the incarnation after its peer was closed. */
  predicate AskedLate(w: World, events: seq<Event>, i: Incarnation)
    decreases |events|
  {
    events != [] && (AsksLate(w, events[0], i) || AskedLate(Step(w, events[0]), events[1..], i))
  }

  lemma {:induction false} AllowedExactly(w: World, events: seq<Event>, i: Incarnation)
    ensures AllowedRun(w, events, i) <==> OwnedRun(w, events) && !AskedLate(w, events, i)
    decreases |events|
  {
    if events != [] {
      hide Step, Owned, AsksLate;
      AllowedExactly(Step(w, events[0]), events[1..], i);
    }
  }

  /** In any run at all: an incarnation is subscribed after its row is gone only if somebody asked for it
      after its peer had been closed. */
  lemma SubscribedOnlyIfAsked(w: World, events: seq<Event>, v: nat)
    requires v in w.host.registry.peers && Safe(w, RowIncarnation(w.host, v)) && OwnedRun(w, events)
    requires Absent(Run(w, events).host, RowIncarnation(w.host, v))
    requires Subscribed(Run(w, events).host.session.core, RowIncarnation(w.host, v))
    ensures AskedLate(w, events, RowIncarnation(w.host, v))
  {
    AllowedExactly(w, events, RowIncarnation(w.host, v));
    hide AllowedRun, OwnedRun, AskedLate, Safe, Run, Absent, Subscribed, RowIncarnation;
    if !AskedLate(w, events, RowIncarnation(w.host, v)) { GoneRowIsOut(w, events, v); }
  }

  /** In particular a tick that erases a row leaves its incarnation out. */
  lemma TickErasesSafely(w: World, now: int, polled: set<nat>, accepted: set<nat>, v: nat)
    requires v in w.host.registry.peers && v !in w.host.Tick(now, polled, accepted).registry.peers
    requires Safe(w, RowIncarnation(w.host, v))
    ensures !Subscribed(w.host.Tick(now, polled, accepted).session.core, RowIncarnation(w.host, v))
  {
    var events := TickEvents(w.host, now, polled, accepted);
    TickIsRun(w.host, now, polled, accepted);
    TickIsQuiet(w.host, now, polled, accepted);
    QuietIsAllowed(w, events, RowIncarnation(w.host, v));
    RunHost(w, events);
    hide Host.Tick, AllSafe, Subscribed, TickEvents, HostRuns.Run;
    GoneRowIsOut(w, events, v);
  }

  /** Events that neither hand over a peer nor submit to the session. */
  predicate Quiet(events: seq<Event>) {
    forall i :: 0 <= i < |events| ==> !events[i].AddPeer? && !(events[i].SessionStep? && events[i].e.Submitted?)
  }

  lemma {:induction false} RowTicksQuiet(todo: set<nat>, now: int, polled: set<nat>, accepted: set<nat>)
    ensures Quiet(RowTicks(todo, now, polled, accepted))
    decreases |todo|
  {
    if todo != {} { RowTicksQuiet(todo - {M.Smallest(todo)}, now, polled, accepted); }
  }

  lemma {:induction false} RowErasuresQuiet(todo: set<nat>)
    ensures Quiet(RowErasures(todo))
    decreases |todo|
  {
    if todo != {} { RowErasuresQuiet(todo - {M.Smallest(todo)}); }
  }

  lemma TickIsQuiet(h: Host, now: int, polled: set<nat>, accepted: set<nat>)
    ensures Quiet(TickEvents(h, now, polled, accepted))
  {
    RowTicksQuiet(h.registry.peers.Keys, now, polled, accepted);
    RowErasuresQuiet(h.registry.peers.Keys);
    hide RowTicks, RowErasures;
  }

  lemma {:induction false} RunHost(w: World, events: seq<Event>)
    ensures Run(w, events).host == HostRuns.Run(w.host, events)
    decreases |events|
  {
    if events != [] {
      hide Act;
      RunHost(Step(w, events[0]), events[1..]);
    }
  }

  lemma {:induction false} QuietIsAllowed(w: World, events: seq<Event>, watched: Incarnation)
    requires Quiet(events)
    ensures AllowedRun(w, events, watched)
    decreases |events|
  {
    if events != [] {
      hide Act;
      QuietIsAllowed(Step(w, events[0]), events[1..], watched);
    }
  }
}
