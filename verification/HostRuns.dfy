/** Registry, capture session and peers together: every step any of them can take, in any order. */
module HostRuns {
  import opened Bytes
  import opened HostPeerRegistry
  import L = PeerLifecycle
  import R = PeerLifecycleRuns
  import M = HostMediaSession
  import S = SessionRuns

  datatype Event =
    | SessionStep(e: S.Event)
    | NewPeer(peer: nat, generation: nat, at: int)
    | PeerEvent(peer: nat, event: R.Event)
    | AddPeer(viewer: nat, given: Option<nat>)
    | AskRestart(viewer: nat, generation: nat, at: int)
    | RowTick(viewer: nat, at: int, polled: bool, accepted: bool)
    | EraseRow(viewer: nat)
    | RemovePeer(viewer: nat, generation: nat)
    | BeginStop
    | PollStop
    | StopAgain

  /** What the registry, the session and the policies do at one step. */
  function Act(h: Host, e: Event): Host {
    match e
    case SessionStep(step) => h.(session := S.Step(h.session, step))
    case NewPeer(peer, generation, at) => h.(policies := h.policies[peer := L.Initial(generation, at)])
    case PeerEvent(peer, event) => h.(policies := h.policies[peer := R.React(h.PolicyOf(peer), event).0])
    case AddPeer(viewer, given) => h.Add(viewer, given).0
    case AskRestart(viewer, generation, at) => h.RequestRestart(viewer, generation, at).0
    case RowTick(viewer, at, polled, accepted) =>
      if h.registry.stopping || viewer !in h.registry.peers then h else h.TickRow(viewer, at, polled, accepted)
    case EraseRow(viewer) => if h.registry.stopping || !h.Removable(viewer) then h else h.Erase(viewer)
    case RemovePeer(viewer, generation) => h.Remove(viewer, generation).0
    case BeginStop => h.BeginStop()
    case PollStop => if h.registry.stopping then h.PollStop() else h
    case StopAgain => h.StopAgain()
  }

  function Run(h: Host, events: seq<Event>): Host
    decreases |events|
  {
    if events == [] then h else Run(Act(h, events[0]), events[1..])
  }

  // ----- a tick is a run of row events -----

  function RowTicks(todo: set<nat>, now: int, polled: set<nat>, accepted: set<nat>): seq<Event> {
    if todo == {} then []
    else
      var v := M.Smallest(todo);
      [RowTick(v, now, v in polled, v in accepted)] + RowTicks(todo - {v}, now, polled, accepted)
  }

  function RowErasures(todo: set<nat>): seq<Event> {
    if todo == {} then [] else [EraseRow(M.Smallest(todo))] + RowErasures(todo - {M.Smallest(todo)})
  }

  function TickEvents(h: Host, now: int, polled: set<nat>, accepted: set<nat>): seq<Event> {
    if h.registry.stopping then [PollStop]
    else RowTicks(h.registry.peers.Keys, now, polled, accepted) + RowErasures(h.registry.peers.Keys)
  }

  lemma {:induction false} RunAppend(h: Host, a: seq<Event>, b: seq<Event>)
    ensures Run(h, a + b) == Run(Run(h, a), b)
    decreases |a|
  {
    hide Act;
    if a == [] {
      assert a + b == b;
    } else {
      assert (a + b)[1..] == a[1..] + b;
      RunAppend(Act(h, a[0]), a[1..], b);
    }
  }

  lemma CloseRunning(h: Host, v: nat)
    requires v in h.registry.peers
    ensures h.CloseEntry(v).registry.stopping == h.registry.stopping && h.PollCleanup(v).registry.stopping == h.registry.stopping
  {
    hide M.Session.Submit, FinalStatus;
  }

  lemma TickRowRunning(h: Host, v: nat, now: int, polled: bool, accepted: bool)
    requires v in h.registry.peers
    ensures h.TickRow(v, now, polled, accepted).registry.stopping == h.registry.stopping
  {
    hide Host.PollCleanup, Host.CloseEntry, L.OnTick;
    var entry := h.registry.peers[v];
    CloseRunning(h, v);
    var (next, action) := L.OnTick(h.PolicyOf(entry.peer), now);
    var ticked := h.(policies := h.policies[entry.peer := next]);
    CloseRunning(ticked, v);
    var called := ticked.Called(entry.peer, Polled);
    CloseRunning(called.SetRow(v, entry.(status := entry.status.(operationFailed := true))), v);
    var sent := called.Called(entry.peer, Restarted(next.restartRevision, now));
    CloseRunning(sent.SetRow(v, entry.(status := entry.status.(restartDispatchFailed := true))), v);
  }

  lemma {:induction false} RowTicksRun(h: Host, todo: set<nat>, now: int, polled: set<nat>, accepted: set<nat>)
    requires !h.registry.stopping && todo <= h.registry.peers.Keys
    ensures var t := h.TickRows(todo, now, polled, accepted);
      Run(h, RowTicks(todo, now, polled, accepted)) == t && !t.registry.stopping && t.registry.peers.Keys == h.registry.peers.Keys
    decreases |todo|
  {
    if todo != {} {
      var v := M.Smallest(todo);
      TickRowKeepsRows(h, v, now, v in polled, v in accepted);
      TickRowRunning(h, v, now, v in polled, v in accepted);
      hide Host.TickRow;
      var next := h.TickRow(v, now, v in polled, v in accepted);
      var e := RowTick(v, now, v in polled, v in accepted);
      assert Act(h, e) == next;
      RowTicksRun(next, todo - {v}, now, polled, accepted);
      var rest := RowTicks(todo - {v}, now, polled, accepted);
      assert RowTicks(todo, now, polled, accepted) == [e] + rest;
      assert h.TickRows(todo, now, polled, accepted) == next.TickRows(todo - {v}, now, polled, accepted);
      hide Act, Host.TickRows, RowTicks;
      assert ([e] + rest)[1..] == rest;
    }
  }

  lemma {:induction false} RowErasuresRun(h: Host, todo: set<nat>)
    requires !h.registry.stopping && todo <= h.registry.peers.Keys
    ensures Run(h, RowErasures(todo)) == h.EraseRows(todo)
    decreases |todo|
  {
    if todo != {} {
      var v := M.Smallest(todo);
      var next := if h.Removable(v) then h.Erase(v) else h;
      RowErasuresRun(next, todo - {v});
      assert RowErasures(todo)[1..] == RowErasures(todo - {v});
    }
  }

  /** The registry's tick is this run: rows in ascending order, then the rows that can go. */
  lemma TickIsRun(h: Host, now: int, polled: set<nat>, accepted: set<nat>)
    ensures Run(h, TickEvents(h, now, polled, accepted)) == h.Tick(now, polled, accepted)
  {
    hide Host.TickRows, Host.EraseRows, Host.PollStop, RowTicks, RowErasures;
    if h.registry.stopping {
      assert TickEvents(h, now, polled, accepted)[1..] == [];
    } else {
      RowTicksRun(h, h.registry.peers.Keys, now, polled, accepted);
      RowErasuresRun(h.TickRows(h.registry.peers.Keys, now, polled, accepted), h.registry.peers.Keys);
      RunAppend(h, RowTicks(h.registry.peers.Keys, now, polled, accepted), RowErasures(h.registry.peers.Keys));
    }
  }

  /** A peer handed over is owned by nobody else: the program passes a unique pointer. */
  predicate Owned(h: Host, e: Event) {
    e.AddPeer? && e.given.Some? ==> e.given.value in h.policies && e.given.value !in h.calls
  }

  // ----- each peer is closed once and then left alone -----

  datatype Phase = Open | Shut | Gone

  function Next(phase: Phase, call: PeerCall): Option<Phase> {
    match call
    case Polled => if phase.Open? then Some(Open) else None
    case Restarted(_, _) => if phase.Open? then Some(Open) else None
    case ShutDown => if phase.Open? then Some(Shut) else None
    case Released => if phase.Shut? then Some(Gone) else None
  }

  /** Where a sequence of calls leaves a peer; None when a call came out of order. */
  function PhaseOf(calls: seq<PeerCall>): Option<Phase> {
    if calls == [] then Some(Open)
    else
      var before := PhaseOf(calls[..|calls| - 1]);
      if before.None? then None else Next(before.value, calls[|calls| - 1])
  }

  lemma PhaseStep(calls: seq<PeerCall>, call: PeerCall)
    ensures PhaseOf(calls + [call]) == if PhaseOf(calls).None? then None else Next(PhaseOf(calls).value, call)
  {
    assert (calls + [call])[..|calls|] == calls;
  }

  ghost predicate Distinct(rows: map<nat, Entry>) {
    forall v, u :: v in rows && u in rows && v != u ==> rows[v].peer != rows[u].peer
  }

  ghost predicate Phased(rows: map<nat, Entry>, calls: map<nat, seq<PeerCall>>) {
    forall v :: v in rows ==>
      rows[v].peer in calls && PhaseOf(calls[rows[v].peer]) == Some(if rows[v].closed then Shut else Open)
  }

  ghost predicate RemovedClosed(rows: map<nat, Entry>) {
    forall v :: v in rows && rows[v].removeRequested ==> rows[v].closed
  }

  predicate Held(rows: map<nat, Entry>, p: nat) {
    exists v :: v in rows && rows[v].peer == p
  }

  ghost predicate Accounted(rows: map<nat, Entry>, calls: map<nat, seq<PeerCall>>) {
    forall p :: p in calls ==> Held(rows, p) || PhaseOf(calls[p]) == Some(Gone)
  }

  /** Every row holds its own peer, open exactly when the row is; every other peer is gone. */
  ghost predicate Kept(h: Host) {
    match h
    case Host(registry, _, _, calls) =>
      Distinct(registry.peers) && Phased(registry.peers, calls) && RemovedClosed(registry.peers) && Accounted(registry.peers, calls)
  }

  lemma HeldBy(rows: map<nat, Entry>, v: nat)
    requires v in rows
    ensures Held(rows, rows[v].peer)
  {
  }

  /** Changed rows that hold the same peers hold the same peers. */
  lemma HeldSame(rows: map<nat, Entry>, next: map<nat, Entry>, p: nat)
    requires forall v :: v in rows ==> v in next && next[v].peer == rows[v].peer
    ensures Held(rows, p) ==> Held(next, p)
  {
    if Held(rows, p) {
      var v :| v in rows && rows[v].peer == p;
      assert next[v].peer == p;
    }
  }

  // A row and the peer it holds take a step.

  lemma DistinctUpdate(rows: map<nat, Entry>, v: nat, entry: Entry)
    requires Distinct(rows) && v in rows && entry.peer == rows[v].peer
    ensures Distinct(rows[v := entry])
  {
  }

  lemma PhasedUpdate(rows: map<nat, Entry>, calls: map<nat, seq<PeerCall>>, v: nat, entry: Entry, more: seq<PeerCall>)
    requires Distinct(rows) && Phased(rows, calls) && v in rows && entry.peer == rows[v].peer
    requires PhaseOf(more) == Some(if entry.closed then Shut else Open)
    ensures Phased(rows[v := entry], calls[entry.peer := more])
  {
    hide PhaseOf;
  }

  lemma RemovedUpdate(rows: map<nat, Entry>, v: nat, entry: Entry)
    requires RemovedClosed(rows) && (entry.removeRequested ==> entry.closed)
    ensures RemovedClosed(rows[v := entry])
  {
  }

  lemma AccountedUpdate(rows: map<nat, Entry>, calls: map<nat, seq<PeerCall>>, v: nat, entry: Entry, more: seq<PeerCall>)
    requires Accounted(rows, calls) && v in rows && entry.peer == rows[v].peer
    ensures Accounted(rows[v := entry], calls[entry.peer := more])
  {
    hide PhaseOf, Held;
    HeldBy(rows[v := entry], v);
    forall p | p in calls[entry.peer := more] && p != entry.peer
      ensures Held(rows[v := entry], p) || PhaseOf(calls[p]) == Some(Gone)
    {
      HeldSame(rows, rows[v := entry], p);
    }
  }

  /** One row changes with its peer's calls. */
  lemma UpdateKept(h: Host, t: Host, v: nat, entry: Entry, more: seq<PeerCall>)
    requires Kept(h) && v in h.registry.peers && entry.peer == h.registry.peers[v].peer
    requires PhaseOf(more) == Some(if entry.closed then Shut else Open) && (entry.removeRequested ==> entry.closed)
    requires t.registry.peers == h.registry.peers[v := entry] && t.calls == h.calls[entry.peer := more]
    ensures Kept(t)
  {
    hide PhaseOf, Distinct, Phased, RemovedClosed, Accounted;
    DistinctUpdate(h.registry.peers, v, entry);
    PhasedUpdate(h.registry.peers, h.calls, v, entry, more);
    RemovedUpdate(h.registry.peers, v, entry);
    AccountedUpdate(h.registry.peers, h.calls, v, entry, more);
  }

  /** Rows hold the same peers, open or closed as before. */
  ghost predicate Alike(a: Host, b: Host) {
    match b
    case Host(registry, _, _, calls) =>
      && calls == a.calls && registry.peers.Keys == a.registry.peers.Keys
      && forall v :: v in registry.peers ==>
           var x, y := a.registry.peers[v], registry.peers[v];
           x.peer == y.peer && x.closed == y.closed && x.removeRequested == y.removeRequested
  }

  lemma AlikeRows(rows: map<nat, Entry>, next: map<nat, Entry>, calls: map<nat, seq<PeerCall>>)
    requires next.Keys == rows.Keys
    requires forall v :: v in next ==> next[v].peer == rows[v].peer && next[v].closed == rows[v].closed && next[v].removeRequested == rows[v].removeRequested
    ensures Distinct(rows) ==> Distinct(next)
    ensures Phased(rows, calls) ==> Phased(next, calls)
    ensures RemovedClosed(rows) ==> RemovedClosed(next)
  {
    hide PhaseOf;
  }

  lemma AlikeAccounted(rows: map<nat, Entry>, next: map<nat, Entry>, calls: map<nat, seq<PeerCall>>)
    requires forall v :: v in rows ==> v in next && next[v].peer == rows[v].peer
    requires Accounted(rows, calls)
    ensures Accounted(next, calls)
  {
    hide PhaseOf, Held;
    forall p | p in calls ensures Held(next, p) || PhaseOf(calls[p]) == Some(Gone) {
      HeldSame(rows, next, p);
    }
  }

  lemma AlikeKept(a: Host, b: Host)
    requires Kept(a) && Alike(a, b)
    ensures Kept(b)
  {
    hide Distinct, Phased, RemovedClosed, Accounted;
    AlikeRows(a.registry.peers, b.registry.peers, a.calls);
    AlikeAccounted(a.registry.peers, b.registry.peers, a.calls);
  }

  lemma SetRowAlike(h: Host, v: nat, entry: Entry)
    requires v in h.registry.peers
    requires var was := h.registry.peers[v]; entry.peer == was.peer && entry.closed == was.closed && entry.removeRequested == was.removeRequested
    ensures forall session: M.Session :: Alike(h, h.SetRow(v, entry).(session := session))
  {
    SetRowKeepsRows(h, v, entry);
  }

  lemma PollAlike(h: Host, v: nat)
    requires v in h.registry.peers
    ensures Alike(h, h.PollCleanup(v))
  {
    hide M.Session.Submit;
    var entry := h.registry.peers[v];
    assert Alike(h, h);
    SetRowAlike(h, v, entry.(cleanup := Some(h.session.nextOperation + 1)));
    if entry.cleanup.Some? && entry.cleanup.value in h.session.replies {
      var error := h.session.replies[entry.cleanup.value].error;
      var next := entry.(cleanup := None, status := entry.status.(cleanupError := error, cleanupPending := !M.Settled(error)));
      SetRowAlike(h, v, next);
      assert Alike(h, h.SetRow(v, next).(session := h.session));
    }
    hide Alike;
  }

  /** Calling an open peer, or closing it, touches only that peer. */
  lemma CalledKept(h: Host, v: nat, call: PeerCall, entry: Entry)
    requires Kept(h) && v in h.registry.peers && !h.registry.peers[v].closed && !call.Released?
    requires entry.peer == h.registry.peers[v].peer && entry.closed == call.ShutDown?
    requires entry.removeRequested ==> entry.closed
    ensures Kept(h.Called(entry.peer, call).SetRow(v, entry))
  {
    RowPhase(h, v);
    PhaseStep(h.calls[entry.peer], call);
    hide PhaseOf, Kept;
    UpdateKept(h, h.Called(entry.peer, call).SetRow(v, entry), v, entry, h.calls[entry.peer] + [call]);
  }

  lemma RowPhase(h: Host, v: nat)
    requires Kept(h) && v in h.registry.peers
    ensures var row := h.registry.peers[v];
      row.peer in h.calls && PhaseOf(h.calls[row.peer]) == Some(if row.closed then Shut else Open) && (row.removeRequested ==> row.closed)
  {
    hide PhaseOf, Distinct, Accounted;
  }

  lemma EraseAccounted(rows: map<nat, Entry>, calls: map<nat, seq<PeerCall>>, v: nat, more: seq<PeerCall>)
    requires Accounted(rows, calls) && v in rows && PhaseOf(more) == Some(Gone)
    ensures Accounted(rows - {v}, calls[rows[v].peer := more])
  {
    hide PhaseOf;
    var next := rows - {v};
    forall p | p in calls[rows[v].peer := more] && p != rows[v].peer ensures Held(next, p) || PhaseOf(calls[p]) == Some(Gone) {
      if Held(rows, p) {
        var u :| u in rows && rows[u].peer == p;
        assert u in next && next[u].peer == p;
      }
    }
  }

  lemma EraseRowsKept(rows: map<nat, Entry>, calls: map<nat, seq<PeerCall>>, v: nat, more: seq<PeerCall>)
    requires Distinct(rows) && Phased(rows, calls) && RemovedClosed(rows) && v in rows
    ensures Distinct(rows - {v}) && Phased(rows - {v}, calls[rows[v].peer := more]) && RemovedClosed(rows - {v})
  {
    hide PhaseOf;
  }

  lemma EraseKept(h: Host, v: nat)
    requires Kept(h) && v in h.registry.peers && h.registry.peers[v].closed
    ensures Kept(h.Erase(v))
  {
    RowPhase(h, v);
    var more := h.calls[h.registry.peers[v].peer] + [Released];
    PhaseStep(h.calls[h.registry.peers[v].peer], Released);
    hide PhaseOf, Distinct, Phased, RemovedClosed, Accounted;
    EraseRowsKept(h.registry.peers, h.calls, v, more);
    EraseAccounted(h.registry.peers, h.calls, v, more);
  }

  lemma CloseKept(h: Host, v: nat)
    requires Kept(h) && v in h.registry.peers
    ensures Kept(h.CloseEntry(v))
  {
    hide Kept, Host.PollCleanup, Host.Shut;
    var entry := h.registry.peers[v];
    if !entry.closed {
      CloseOpenKept(h, v, entry);
      assert h.registry.peers[v := entry] == h.registry.peers;
      assert h.SetRow(v, entry) == h;
    }
  }

  /** Closing a row whose peer is open, whatever has already been noted in the row. */
  lemma CloseOpenKept(h: Host, v: nat, entry: Entry)
    requires Kept(h) && v in h.registry.peers && !h.registry.peers[v].closed
    requires entry.peer == h.registry.peers[v].peer && !entry.closed
    ensures Kept(h.SetRow(v, entry).CloseEntry(v))
  {
    hide Host.PollCleanup, FinalStatus, Kept, Alike, PhaseOf;
    var g := h.SetRow(v, entry);
    var status := FinalStatus(entry.status, g.PolicyOf(entry.peer));
    var closed := entry.(closed := true, status := status.(peerClosed := true, cleanupPending := h.registry.bound && !h.registry.stopped));
    CalledKept(h, v, ShutDown, closed);
    var shut := g.Shut(v);
    assert h.registry.peers[v := entry][v := closed] == h.registry.peers[v := closed];
    assert shut.registry.peers == h.registry.peers[v := closed];
    assert shut == h.Called(entry.peer, ShutDown).SetRow(v, closed).(policies := shut.policies);
    PoliciesKept(h.Called(entry.peer, ShutDown).SetRow(v, closed), shut.policies);
    PollAlike(shut, v);
    AlikeKept(shut, shut.PollCleanup(v));
  }

  lemma PoliciesKept(h: Host, policies: map<nat, L.Policy>)
    requires Kept(h)
    ensures Kept(h.(policies := policies))
  {
    hide Distinct, Phased, RemovedClosed, Accounted;
  }

  lemma SameRowKept(h: Host, v: nat, call: PeerCall)
    requires Kept(h) && v in h.registry.peers && !h.registry.peers[v].closed && !call.Released? && !call.ShutDown?
    ensures Kept(h.Called(h.registry.peers[v].peer, call))
  {
    var t := h.Called(h.registry.peers[v].peer, call);
    var entry := h.registry.peers[v];
    RowPhase(h, v);
    hide PhaseOf, Kept;
    CalledKept(h, v, call, entry);
    assert t.registry.peers[v := entry] == t.registry.peers;
    assert t == t.SetRow(v, entry);
  }

  lemma TickRowKept(h: Host, v: nat, now: int, polled: bool, accepted: bool)
    requires Kept(h) && v in h.registry.peers
    ensures Kept(h.TickRow(v, now, polled, accepted))
  {
    hide Kept, Host.PollCleanup, Host.CloseEntry, L.OnTick, PhaseOf;
    var entry := h.registry.peers[v];
    if entry.closed {
      PollAlike(h, v);
      AlikeKept(h, h.PollCleanup(v));
    } else {
      var (next, action) := L.OnTick(h.PolicyOf(entry.peer), now);
      var ticked := h.(policies := h.policies[entry.peer := next]);
      PoliciesKept(h, ticked.policies);
      CloseKept(ticked, v);
      SameRowKept(ticked, v, Polled);
      var called := ticked.Called(entry.peer, Polled);
      CloseOpenKept(called, v, entry.(status := entry.status.(operationFailed := true)));
      SameRowKept(called, v, Restarted(next.restartRevision, now));
      var sent := called.Called(entry.peer, Restarted(next.restartRevision, now));
      CloseOpenKept(sent, v, entry.(status := entry.status.(restartDispatchFailed := true)));
    }
  }

  lemma AddKept(h: Host, viewer: nat, given: Option<nat>)
    requires Kept(h) && (given.Some? ==> given.value !in h.calls)
    ensures Kept(h.Add(viewer, given).0)
  {
    if given.Some? {
      var p := given.value;
      RefusedKept(h, p);
      if !h.Refuses(viewer, h.PolicyOf(p).generation) { AddedKept(h, h.Add(viewer, given).0, viewer, NewEntry(viewer, h.PolicyOf(p).generation, p)); }
      hide Kept;
    }
  }

  lemma AddRows(rows: map<nat, Entry>, calls: map<nat, seq<PeerCall>>, v: nat, entry: Entry)
    requires Distinct(rows) && Phased(rows, calls) && RemovedClosed(rows) && v !in rows && entry.peer !in calls
    requires !entry.closed && !entry.removeRequested && PhaseOf([]) == Some(Open)
    ensures Distinct(rows[v := entry]) && Phased(rows[v := entry], calls[entry.peer := []]) && RemovedClosed(rows[v := entry])
  {
    hide PhaseOf;
    assert forall u :: u in rows ==> rows[u].peer in calls;
  }

  lemma AddAccounted(rows: map<nat, Entry>, calls: map<nat, seq<PeerCall>>, v: nat, entry: Entry)
    requires Accounted(rows, calls) && v !in rows
    ensures Accounted(rows[v := entry], calls[entry.peer := []])
  {
    hide PhaseOf, Held;
    HeldBy(rows[v := entry], v);
    forall p | p in calls[entry.peer := []] && p != entry.peer
      ensures Held(rows[v := entry], p) || PhaseOf(calls[p]) == Some(Gone)
    {
      HeldSame(rows, rows[v := entry], p);
    }
  }

  lemma AddedKept(h: Host, t: Host, v: nat, entry: Entry)
    requires Kept(h) && v !in h.registry.peers && t.registry.peers == h.registry.peers[v := entry]
    requires entry.peer !in h.calls && t.calls == h.calls[entry.peer := []]
    requires !entry.closed && !entry.removeRequested
    ensures Kept(t)
  {
    assert PhaseOf([]) == Some(Open);
    hide PhaseOf, Distinct, Phased, RemovedClosed, Accounted;
    AddRows(h.registry.peers, h.calls, v, entry);
    AddAccounted(h.registry.peers, h.calls, v, entry);
  }

  /** A peer nobody holds does not matter to the rows. */
  lemma GoneApart(rows: map<nat, Entry>, calls: map<nat, seq<PeerCall>>, p: nat, more: seq<PeerCall>)
    requires Phased(rows, calls) && Accounted(rows, calls) && p !in calls && PhaseOf(more) == Some(Gone)
    ensures Phased(rows, calls[p := more]) && Accounted(rows, calls[p := more])
  {
    hide PhaseOf, Held;
    assert forall u :: u in rows ==> rows[u].peer in calls;
  }

  lemma RefusedKept(h: Host, p: nat)
    requires Kept(h) && p !in h.calls
    ensures Kept(h.Called(p, ShutDown).Called(p, Released))
  {
    PhaseStep([], ShutDown);
    PhaseStep([ShutDown], Released);
    assert [] + [ShutDown] == [ShutDown] && [ShutDown] + [Released] == [ShutDown, Released] && PhaseOf([]) == Some(Open);
    assert PhaseOf([ShutDown, Released]) == Some(Gone);
    hide PhaseOf, Distinct, Phased, RemovedClosed, Accounted;
    assert h.Called(p, ShutDown).Called(p, Released).calls == h.calls[p := [ShutDown, Released]];
    GoneApart(h.registry.peers, h.calls, p, [ShutDown, Released]);
  }

  lemma RemoveKept(h: Host, v: nat, generation: nat)
    requires Kept(h)
    ensures Kept(h.Remove(v, generation).0)
  {
    if h.Remove(v, generation).1 {
      var entry := h.registry.peers[v].(removeRequested := true);
      var marked := h.SetRow(v, entry);
      if h.registry.peers[v].closed {
        MarkedKept(h, v);
      } else {
        CloseOpenKept(h, v, entry);
      }
      CloseCloses(marked, v);
      var closed := marked.CloseEntry(v);
      if closed.Removable(v) {
        hide Host.CloseEntry;
        EraseKept(closed, v);
      }
    }
  }

  lemma MarkedKept(h: Host, v: nat)
    requires Kept(h) && v in h.registry.peers && h.registry.peers[v].closed
    ensures Kept(h.SetRow(v, h.registry.peers[v].(removeRequested := true)))
  {
    RowPhase(h, v);
    var entry := h.registry.peers[v].(removeRequested := true);
    hide PhaseOf, Kept;
    assert h.calls[entry.peer := h.calls[entry.peer]] == h.calls;
    UpdateKept(h, h.SetRow(v, entry), v, entry, h.calls[entry.peer]);
  }

  lemma CloseCloses(h: Host, v: nat)
    requires v in h.registry.peers
    ensures v in h.CloseEntry(v).registry.peers && h.CloseEntry(v).registry.peers[v].closed
    ensures forall u :: u in h.registry.peers && u != v ==>
      u in h.CloseEntry(v).registry.peers && h.CloseEntry(v).registry.peers[u] == h.registry.peers[u]
  {
    hide M.Session.Submit, FinalStatus;
  }

  lemma {:induction false} ShutRowsKept(h: Host, todo: set<nat>)
    requires Kept(h) && todo <= h.registry.peers.Keys && forall v :: v in h.registry.peers && v !in todo ==> h.registry.peers[v].closed
    ensures Kept(h.ShutRows(todo)) && forall v :: v in h.ShutRows(todo).registry.peers ==> h.ShutRows(todo).registry.peers[v].closed
    decreases |todo|
  {
    if todo != {} {
      var v := M.Smallest(todo);
      CloseKept(h, v);
      CloseCloses(h, v);
      CloseKeepsRows(h, v);
      hide Host.CloseEntry, Kept;
      ShutRowsKept(h.CloseEntry(v), todo - {v});
    }
  }

  lemma ReleasedKept(h: Host)
    requires h.registry.peers == map[] && forall p :: p in h.calls ==> PhaseOf(h.calls[p]) == Some(Gone)
    ensures Kept(h)
  {
    hide PhaseOf;
  }

  lemma ReleaseAllKept(h: Host)
    requires Kept(h) && forall v :: v in h.registry.peers ==> h.registry.peers[v].closed
    ensures Kept(h.ReleaseAll())
  {
    var t := h.ReleaseAll();
    hide Distinct, RemovedClosed;
    forall p | p in t.calls ensures PhaseOf(t.calls[p]) == Some(Gone) {
      PhaseStep(h.calls[p], Released);
      hide PhaseOf;
      if exists v :: v in h.registry.peers && h.registry.peers[v].peer == p {
        var v :| v in h.registry.peers && h.registry.peers[v].peer == p;
        RowPhase(h, v);
        assert t.calls[p] == h.calls[p] + [Released];
      } else {
        assert !Held(h.registry.peers, p);
      }
    }
    ReleasedKept(t);
  }

  lemma RegistryOnlyKept(h: Host, t: Host)
    requires Kept(h) && t.registry.peers == h.registry.peers && t.calls == h.calls
    ensures Kept(t)
  {
    hide Distinct, Phased, RemovedClosed, Accounted;
  }

  lemma PollStopKept(h: Host)
    requires Kept(h)
    ensures Kept(h.PollStop())
  {
    hide Kept, Host.ShutRows, PhaseOf;
    if !h.registry.stopped {
      var read := h.ReadStop();
      RegistryOnlyKept(h, read);
      if read.registry.stopCapture.None? && M.Settled(read.registry.stopError) {
        var marked := read.(registry := read.registry.(stopped := true));
        RegistryOnlyKept(read, marked);
        ShutRowsKept(marked, read.registry.peers.Keys);
        ReleaseAllKept(marked.ShutRows(read.registry.peers.Keys));
      }
    }
  }

  lemma BeginStopKept(h: Host)
    requires Kept(h)
    ensures Kept(h.BeginStop())
  {
    hide Kept, Host.PollStop, PhaseOf, M.Session.Submit;
    if !h.registry.stopping && !h.registry.stopped {
      var t := if h.registry.bound then
        h.(registry := h.registry.(stopping := true, stopCapture := Some(h.session.nextOperation + 1)),
           session := h.session.Submit(M.Stop(h.registry.sessionGeneration)))
        else h.(registry := h.registry.(stopping := true));
      RegistryOnlyKept(h, t);
      PollStopKept(t);
    }
  }

  lemma ActKept(h: Host, e: Event)
    requires Kept(h) && Owned(h, e)
    ensures Kept(Act(h, e))
  {
    hide Kept, Host.TickRow, Host.Add, Host.Remove, Host.BeginStop, Host.PollStop, Host.Erase, S.Step, R.React, PhaseOf;
    match e
    case SessionStep(step) => RegistryOnlyKept(h, Act(h, e));
    case NewPeer(_, _, _) => RegistryOnlyKept(h, Act(h, e));
    case PeerEvent(_, _) => RegistryOnlyKept(h, Act(h, e));
    case AddPeer(viewer, given) => AddKept(h, viewer, given);
    case AskRestart(_, _, _) => RegistryOnlyKept(h, Act(h, e));
    case RowTick(v, at, polled, accepted) =>
      if v in h.registry.peers { TickRowKept(h, v, at, polled, accepted); }
    case EraseRow(v) =>
      if h.Removable(v) { RemovableIsClosed(h, v); EraseKept(h, v); }
    case RemovePeer(v, generation) => RemoveKept(h, v, generation);
    case BeginStop => BeginStopKept(h);
    case PollStop => PollStopKept(h);
    case StopAgain =>
      BeginStopKept(h);
      var again := h.(registry := h.registry.(stopping := false, stopError := M.NoError));
      RegistryOnlyKept(h, again);
      BeginStopKept(again);
  }

  lemma RemovableIsClosed(h: Host, v: nat)
    requires Kept(h) && h.Removable(v)
    ensures h.registry.peers[v].closed
  {
    RowPhase(h, v);
  }

  /** A peer that is gone was polled or restarted only before it was closed, closed once, and released once. */
  lemma {:induction false} GoneShape(calls: seq<PeerCall>, i: nat)
    requires PhaseOf(calls) == Some(Gone) && i < |calls|
    ensures |calls| >= 2 && calls[|calls| - 1] == Released && calls[|calls| - 2] == ShutDown
    ensures i < |calls| - 2 ==> calls[i].Polled? || calls[i].Restarted?
  {
    var init := calls[..|calls| - 1];
    assert PhaseOf(init) == Some(Shut);
    var opening := init[..|init| - 1];
    assert init != [] && PhaseOf(opening) == Some(Open);
    if i < |opening| { OpenShape(opening, i); }
  }

  lemma {:induction false} OpenShape(calls: seq<PeerCall>, i: nat)
    requires PhaseOf(calls) == Some(Open) && i < |calls|
    ensures calls[i].Polled? || calls[i].Restarted?
  {
    if i < |calls| - 1 { OpenShape(calls[..|calls| - 1], i); }
  }
}
