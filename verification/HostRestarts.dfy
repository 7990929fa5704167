/** From the policies to the peers: the restart requests the registry actually makes obey each
    peer's restart budget, and a peer that is gone is never called again. */
module HostRestarts {
  import opened Bytes
  import opened HostPeerRegistry
  import opened HostRuns
  import L = PeerLifecycle
  import R = PeerLifecycleRuns
  import M = HostMediaSession
  import S = SessionRuns

  /** When the restarts in a sequence of calls were requested. */
  function Times(calls: seq<PeerCall>): seq<int> {
    if calls == [] then []
    else match calls[|calls| - 1]
         case Restarted(_, at) => Times(calls[..|calls| - 1]) + [at]
         case _ => Times(calls[..|calls| - 1])
  }

  /** Restart requests carry the revisions 1, 2, 3 and so on. */
  predicate Numbered(calls: seq<PeerCall>) {
    calls == [] ||
    (Numbered(calls[..|calls| - 1]) &&
     (calls[|calls| - 1].Restarted? ==> calls[|calls| - 1].revision == |Times(calls)|))
  }

  lemma CallsGrow(calls: seq<PeerCall>, call: PeerCall)
    ensures Times(calls + [call]) == if call.Restarted? then Times(calls) + [call.at] else Times(calls)
    ensures Numbered(calls + [call]) <==> Numbered(calls) && (call.Restarted? ==> call.revision == |Times(calls)| + 1)
    ensures PhaseOf(calls + [call]) == if PhaseOf(calls).None? then None else Next(PhaseOf(calls).value, call)
  {
    assert (calls + [call])[..|calls|] == calls;
  }

  /** The policy has seen exactly these restarts. */
  ghost predicate Tracks(policy: L.Policy, times: seq<int>, now: int) {
    exists unanswered: nat :: R.Good(policy, times, unanswered, now)
  }

  ghost predicate Paced(policy: L.Policy, calls: seq<PeerCall>, now: int) {
    && R.Spaced(Times(calls), now) && Numbered(calls)
    && (PhaseOf(calls) == Some(Open) ==> Tracks(policy, Times(calls), now))
  }

  ghost predicate AllPaced(h: Host, now: int) {
    match h
    case Host(_, _, policies, calls) =>
      calls.Keys <= policies.Keys && forall p :: p in policies ==> Paced(policies[p], h.CallsOf(p), now)
  }

  lemma TracksAge(policy: L.Policy, times: seq<int>, before: int, now: int)
    requires Tracks(policy, times, before) && before <= now
    ensures Tracks(policy, times, now)
  {
    var unanswered: nat :| R.Good(policy, times, unanswered, before);
    hide R.Good;
    R.Age(policy, times, unanswered, before, now);
  }

  lemma PacedAge(policy: L.Policy, calls: seq<PeerCall>, before: int, now: int)
    requires Paced(policy, calls, before) && before <= now
    ensures Paced(policy, calls, now)
  {
    hide Times, Numbered, PhaseOf, Tracks;
    if PhaseOf(calls) == Some(Open) { TracksAge(policy, Times(calls), before, now); }
  }

  /** Another event reaches an open peer's policy, and it is not a tick. */
  lemma TracksReact(policy: L.Policy, times: seq<int>, before: int, e: R.Event)
    requires Tracks(policy, times, before) && before <= e.at && !e.cause.TickCall?
    ensures Tracks(R.React(policy, e).0, times, e.at)
  {
    var unanswered: nat :| R.Good(policy, times, unanswered, before);
    R.ReactKeeps(policy, times, unanswered, before, e);
    hide R.Good, L.OnConnected, L.OnDisconnected, L.OnRemoteClosed;
    assert R.React(policy, e).1 == [] || R.React(policy, e).1 == [R.Accepted];
    assert R.Good(R.React(policy, e).0, times, unanswered, e.at) || R.Good(R.React(policy, e).0, times, 0, e.at);
  }

  lemma TracksTick(policy: L.Policy, times: seq<int>, before: int, now: int)
    requires Tracks(policy, times, before) && before <= now
    ensures var (next, action) := L.OnTick(policy, now);
      if action.RestartIce? then
        Tracks(next, times + [now], now) && next.restartRevision == |times| + 1 && R.Spaced(times + [now], now)
      else Tracks(next, times, now)
  {
    var unanswered: nat :| R.Good(policy, times, unanswered, before);
    R.TickKeeps(policy, times, unanswered, before, now);
    hide L.OnTick, R.Spaced, R.Keeps, R.Waited;
  }

  lemma NewTracks(generation: nat, at: int)
    ensures Tracks(L.Initial(generation, at), [], at)
  {
    assert R.Good(L.Initial(generation, at), [], 0, at);
  }

  // ----- what closing and releasing do to the calls -----

  /** Peers are only closed and released, and policies of other peers stay. */
  ghost predicate Winds(h: Host, t: Host) {
    match t
    case Host(_, _, policies, calls) =>
      && h.policies.Keys == policies.Keys && h.calls.Keys <= calls.Keys <= h.calls.Keys + policies.Keys
      && forall p :: p in policies ==> Wound(h.policies[p], h.CallsOf(p), policies[p], t.CallsOf(p))
  }

  ghost predicate Wound(policy: L.Policy, before: seq<PeerCall>, next: L.Policy, after: seq<PeerCall>) {
    || (after == before && next == policy)
    || after == before + [ShutDown] || after == before + [Released] || after == before + [ShutDown, Released]
  }

  /** The peers of all rows have policies. */
  ghost predicate Known(h: Host) {
    match h
    case Host(registry, _, policies, calls) =>
      calls.Keys <= policies.Keys && forall v :: v in registry.peers ==> registry.peers[v].peer in calls
  }

  lemma KnownFrom(h: Host, now: int)
    requires Kept(h) && AllPaced(h, now)
    ensures Known(h)
  {
    hide PhaseOf, Paced;
  }

  /** Closing an open row: its peer is shut down, and nothing else happens to any peer. */
  lemma CloseExact(h: Host, v: nat)
    requires v in h.registry.peers
    ensures var p, t := h.registry.peers[v].peer, h.CloseEntry(v);
      if h.registry.peers[v].closed then t == h
      else t.calls == h.calls[p := h.CallsOf(p) + [ShutDown]] &&
           t.policies == h.policies[p := h.PolicyOf(p).(state := L.Closed)]
  {
    hide M.Session.Submit, FinalStatus;
  }

  lemma CloseKeepsPeers(h: Host, v: nat)
    requires v in h.registry.peers
    ensures var t := h.CloseEntry(v);
      t.registry.peers.Keys == h.registry.peers.Keys &&
      forall u :: u in h.registry.peers ==> t.registry.peers[u].peer == h.registry.peers[u].peer
  {
    CloseKeepsRows(h, v);
    if !h.registry.peers[v].closed {
      var shut := h.Shut(v);
      ShutRow(h, v);
      PollAlike(shut, v);
      hide Host.PollCleanup, FinalStatus;
    }
  }

  lemma PollExact(h: Host, v: nat)
    requires v in h.registry.peers
    ensures h.PollCleanup(v).calls == h.calls && h.PollCleanup(v).policies == h.policies
  {
    hide M.Session.Submit;
  }

  /** A wound-down peer keeps its pace: it was not asked to restart, and is open only if untouched. */
  lemma WoundPaced(policy: L.Policy, before: seq<PeerCall>, next: L.Policy, after: seq<PeerCall>, now: int)
    requires Paced(policy, before, now) && Wound(policy, before, next, after)
    ensures Paced(next, after, now)
  {
    CallsGrow(before, ShutDown);
    CallsGrow(before, Released);
    CallsGrow(before + [ShutDown], Released);
    assert before + [ShutDown] + [Released] == before + [ShutDown, Released];
    hide Times, Numbered, PhaseOf, R.Spaced, Tracks;
  }

  lemma WindsPaced(h: Host, t: Host, now: int)
    requires AllPaced(h, now) && Winds(h, t)
    ensures AllPaced(t, now)
  {
    hide Wound, Paced;
    forall p | p in t.policies ensures Paced(t.policies[p], t.CallsOf(p), now) {
      WoundPaced(h.policies[p], h.CallsOf(p), t.policies[p], t.CallsOf(p), now);
    }
  }

  lemma SameWinds(h: Host, t: Host)
    requires t.policies == h.policies && t.calls == h.calls
    ensures Winds(h, t)
  {
  }

  lemma AddWinds(h: Host, viewer: nat, given: Option<nat>)
    requires Owned(h, AddPeer(viewer, given)) && h.calls.Keys <= h.policies.Keys
    ensures Winds(h, h.Add(viewer, given).0)
  {
    if given.Some? {
      var p := given.value;
      var t := h.Add(viewer, given).0;
      assert [] + [ShutDown] + [Released] == [ShutDown, Released] && h.CallsOf(p) == [];
      forall q | q in t.policies ensures Wound(h.policies[q], h.CallsOf(q), t.policies[q], t.CallsOf(q)) {
        assert q != p ==> t.CallsOf(q) == h.CallsOf(q);
      }
    }
  }

  lemma RemoveWinds(h: Host, v: nat, generation: nat)
    requires Kept(h) && Known(h)
    ensures Winds(h, h.Remove(v, generation).0)
  {
    hide Kept, Known, Winds, Host.CloseEntry, Host.Erase;
    if h.Remove(v, generation).1 {
      var entry := h.registry.peers[v].(removeRequested := true);
      var marked := h.SetRow(v, entry);
      CloseExact(marked, v);
      CloseKeepsPeers(marked, v);
      EraseWound(h, marked.CloseEntry(v), v, entry);
    } else {
      SameWinds(h, h);
    }
  }

  /** A row whose peer was just closed, or had been: it may now give the peer up. */
  lemma EraseWound(h: Host, closed: Host, v: nat, entry: Entry)
    requires Known(h) && v in h.registry.peers && h.registry.peers[v].peer == entry.peer
    requires v in closed.registry.peers && closed.registry.peers[v].peer == entry.peer
    requires
      || (closed.calls == h.calls && closed.policies == h.policies)
      || (closed.calls == h.calls[entry.peer := h.CallsOf(entry.peer) + [ShutDown]] &&
          closed.policies == h.policies[entry.peer := h.PolicyOf(entry.peer).(state := L.Closed)])
    ensures Winds(h, closed) && Winds(h, closed.Erase(v))
  {
    var t := closed.Erase(v);
    assert h.CallsOf(entry.peer) + [ShutDown] + [Released] == h.CallsOf(entry.peer) + [ShutDown, Released];
    forall p | p in t.policies
      ensures Wound(h.policies[p], h.CallsOf(p), closed.policies[p], closed.CallsOf(p))
      ensures Wound(h.policies[p], h.CallsOf(p), t.policies[p], t.CallsOf(p))
    {
      assert p != entry.peer ==> t.CallsOf(p) == h.CallsOf(p) && closed.CallsOf(p) == h.CallsOf(p);
    }
  }

  lemma EraseWinds(h: Host, v: nat)
    requires Known(h) && v in h.registry.peers
    ensures Winds(h, h.Erase(v))
  {
  }

  /** Some of these peers were shut down, once; all others were left alone. */
  ghost predicate Closes(h: Host, t: Host, some: set<nat>) {
    match t
    case Host(_, _, policies, calls) =>
      && policies.Keys == h.policies.Keys && calls.Keys == h.calls.Keys && calls.Keys <= policies.Keys
      && (forall p :: p in calls ==>
            ((calls[p] == h.calls[p] && policies[p] == h.policies[p]) || (p in some && calls[p] == h.calls[p] + [ShutDown])))
      && (forall p :: p in policies && p !in calls ==> policies[p] == h.policies[p])
  }

  lemma ClosesBoth(a: Host, b: Host, c: Host, some: set<nat>, more: set<nat>)
    requires Closes(a, b, some) && Closes(b, c, more) && some !! more
    ensures Closes(a, c, some + more)
  {
  }

  function PeersOf(h: Host, todo: set<nat>): set<nat>
    requires todo <= h.registry.peers.Keys
  {
    set v | v in todo :: h.registry.peers[v].peer
  }

  lemma CloseOne(h: Host, v: nat)
    requires Known(h) && Distinct(h.registry.peers) && v in h.registry.peers
    ensures var t := h.CloseEntry(v);
      Known(t) && Distinct(t.registry.peers) && Closes(h, t, {h.registry.peers[v].peer})
  {
    CloseExact(h, v);
    CloseKeepsPeers(h, v);
    hide Host.CloseEntry;
  }

  lemma PeersSplit(h: Host, t: Host, v: nat, todo: set<nat>)
    requires Distinct(h.registry.peers) && v in todo && todo <= h.registry.peers.Keys && t.registry.peers.Keys == h.registry.peers.Keys
    requires forall u :: u in h.registry.peers ==> t.registry.peers[u].peer == h.registry.peers[u].peer
    ensures PeersOf(h, todo) == {h.registry.peers[v].peer} + PeersOf(t, todo - {v})
    ensures h.registry.peers[v].peer !in PeersOf(t, todo - {v})
  {
    var p := h.registry.peers[v].peer;
    assert p in PeersOf(h, todo);
    forall u | u in todo && u != v ensures h.registry.peers[u].peer in PeersOf(t, todo - {v}) {
      assert u in todo - {v} && t.registry.peers[u].peer == h.registry.peers[u].peer;
    }
    forall u | u in todo - {v} ensures t.registry.peers[u].peer != p {
      assert t.registry.peers[u].peer == h.registry.peers[u].peer;
    }
  }

  /** Shutting down row after row: the peer of each open row is closed once. */
  lemma {:induction false} ShutRowsExact(h: Host, todo: set<nat>)
    requires Known(h) && Distinct(h.registry.peers) && todo <= h.registry.peers.Keys
    ensures Closes(h, h.ShutRows(todo), PeersOf(h, todo))
    decreases |todo|
  {
    if todo != {} {
      var v := M.Smallest(todo);
      var next := h.CloseEntry(v);
      CloseOne(h, v);
      CloseKeepsPeers(h, v);
      PeersSplit(h, next, v, todo);
      hide Host.CloseEntry, Known, Distinct, Closes, PeersOf;
      ShutRowsExact(next, todo - {v});
      ClosesBoth(h, next, next.ShutRows(todo - {v}), {h.registry.peers[v].peer}, PeersOf(next, todo - {v}));
    }
  }

  lemma PollStopWinds(h: Host)
    requires Kept(h) && Known(h)
    ensures Winds(h, h.PollStop())
  {
    if h.registry.stopped {
      SameWinds(h, h);
    } else {
      var read := h.ReadStop();
      if read.registry.stopCapture.Some? || !M.Settled(read.registry.stopError) {
        SameWinds(h, read);
      } else {
        var marked := read.(registry := read.registry.(stopped := true));
        assert Distinct(h.registry.peers) by { hide Phased, Accounted; }
        hide Kept, Host.ShutRows;
        ShutRowsExact(marked, marked.registry.peers.Keys);
        ReleaseWinds(marked, marked.ShutRows(marked.registry.peers.Keys), PeersOf(marked, marked.registry.peers.Keys));
        WindsSame(h, marked, h.PollStop());
      }
    }
  }

  /** A peer that was closed or left alone, and then perhaps released. */
  lemma ReleasedWound(policy: L.Policy, before: seq<PeerCall>, next: L.Policy, closed: seq<PeerCall>, after: seq<PeerCall>)
    requires (closed == before && next == policy) || closed == before + [ShutDown]
    requires after == closed || after == closed + [Released]
    ensures Wound(policy, before, next, after)
  {
    assert before + [ShutDown] + [Released] == before + [ShutDown, Released];
  }

  lemma ReleaseWinds(h: Host, t: Host, some: set<nat>)
    requires Closes(h, t, some)
    ensures Winds(h, t.ReleaseAll())
  {
    var u := t.ReleaseAll();
    assert u.calls.Keys == t.calls.Keys;
    hide Wound;
    forall p | p in u.policies ensures Wound(h.policies[p], h.CallsOf(p), u.policies[p], u.CallsOf(p)) {
      ReleasedWound(h.policies[p], h.CallsOf(p), t.policies[p], t.CallsOf(p), u.CallsOf(p));
    }
  }

  lemma BeginStopWinds(h: Host)
    requires Kept(h) && Known(h)
    ensures Winds(h, h.BeginStop())
  {
    hide Kept, Known, Winds, Host.PollStop, M.Session.Submit;
    if h.registry.stopping || h.registry.stopped {
      SameWinds(h, h);
    } else {
      var t := if h.registry.bound then
        h.(registry := h.registry.(stopping := true, stopCapture := Some(h.session.nextOperation + 1)),
           session := h.session.Submit(M.Stop(h.registry.sessionGeneration)))
        else h.(registry := h.registry.(stopping := true));
      KnownSame(h, t);
      RegistryOnlyKept(h, t);
      PollStopWinds(t);
      WindsSame(h, t, t.PollStop());
    }
  }

  lemma KnownSame(h: Host, t: Host)
    requires Known(h) && t.registry.peers == h.registry.peers && t.policies == h.policies && t.calls == h.calls
    ensures Known(t)
  {
  }

  lemma WindsSame(h: Host, g: Host, t: Host)
    requires g.policies == h.policies && g.calls == h.calls && Winds(g, t)
    ensures Winds(h, t)
  {
  }

  lemma StopAgainWinds(h: Host)
    requires Kept(h) && Known(h)
    ensures Winds(h, h.StopAgain())
  {
    SameWinds(h, h);
    BeginStopWinds(h);
    var again := h.(registry := h.registry.(stopping := false, stopError := M.NoError));
    KnownSame(h, again);
    RegistryOnlyKept(h, again);
    hide Kept, Known, Host.BeginStop, Winds;
    BeginStopWinds(again);
    WindsSame(h, again, again.BeginStop());
  }

  // ----- a tick -----

  /** Only one peer is called, and it keeps its pace. */
  lemma OnePaced(h: Host, t: Host, p: nat, before: int, now: int)
    requires AllPaced(h, before) && before <= now && p in h.policies
    requires t.policies == h.policies[p := t.PolicyOf(p)] && t.calls == h.calls[p := t.CallsOf(p)]
    requires Paced(t.PolicyOf(p), t.CallsOf(p), now)
    ensures AllPaced(t, now)
  {
    hide Paced;
    forall q | q in t.policies ensures Paced(t.policies[q], t.CallsOf(q), now) {
      if q != p {
        assert t.CallsOf(q) == h.CallsOf(q);
        PacedAge(h.policies[q], h.CallsOf(q), before, now);
      }
    }
  }

  /** A peer that was just closed no longer has to be tracked. */
  lemma ShutPaced(policy: L.Policy, calls: seq<PeerCall>, now: int)
    requires R.Spaced(Times(calls), now) && Numbered(calls)
    ensures Paced(policy, calls + [ShutDown], now)
  {
    CallsGrow(calls, ShutDown);
    hide Times, Numbered, R.Spaced;
  }

  /** What is known of the peer of a row. */
  lemma RowPaced(h: Host, v: nat, now: int)
    requires Kept(h) && AllPaced(h, now) && v in h.registry.peers
    ensures var entry := h.registry.peers[v];
      && Known(h) && entry.peer in h.policies && entry.peer in h.calls && Paced(h.policies[entry.peer], h.CallsOf(entry.peer), now)
      && (!entry.closed ==> PhaseOf(h.CallsOf(entry.peer)) == Some(Open))
  {
    KnownFrom(h, now);
    RowPhase(h, v);
    hide Kept, PhaseOf, Paced;
  }

  lemma TickRowPaced(h: Host, v: nat, before: int, now: int, polled: bool, accepted: bool)
    requires Kept(h) && AllPaced(h, before) && before <= now && v in h.registry.peers
    ensures AllPaced(h.TickRow(v, now, polled, accepted), now)
  {
    hide Kept, AllPaced, Paced, PhaseOf, Known;
    RowPaced(h, v, before);
    var p := h.registry.peers[v].peer;
    var t := h.TickRow(v, now, polled, accepted);
    PacedAge(h.policies[p], h.CallsOf(p), before, now);
    if h.registry.peers[v].closed {
      PollExact(h, v);
      assert h.policies[p := h.policies[p]] == h.policies && h.calls[p := h.calls[p]] == h.calls;
    } else {
      TickedPeer(h, v, before, now, polled, accepted);
      hide Host.TickRow;
    }
    OnePaced(h, t, p, before, now);
  }

  lemma TickedPeer(h: Host, v: nat, before: int, now: int, polled: bool, accepted: bool)
    requires Known(h) && v in h.registry.peers && !h.registry.peers[v].closed && before <= now
    requires PhaseOf(h.CallsOf(h.registry.peers[v].peer)) == Some(Open)
    requires Paced(h.PolicyOf(h.registry.peers[v].peer), h.CallsOf(h.registry.peers[v].peer), before)
    ensures var p, t := h.registry.peers[v].peer, h.TickRow(v, now, polled, accepted);
      && t.policies == h.policies[p := t.PolicyOf(p)] && t.calls == h.calls[p := t.CallsOf(p)]
      && Paced(t.PolicyOf(p), t.CallsOf(p), now)
  {
    var entry := h.registry.peers[v];
    var p := entry.peer;
    var calls := h.CallsOf(p);
    var (next, action) := L.OnTick(h.PolicyOf(p), now);
    TracksTick(h.PolicyOf(p), Times(calls), before, now);
    PacedAge(h.PolicyOf(p), calls, before, now);
    CallsGrow(calls, Polled);
    CallsGrow(calls + [Polled], Restarted(next.restartRevision, now));
    ShutPaced(next.(state := L.Closed), calls, now);
    ShutPaced(next.(state := L.Closed), calls + [Polled], now);
    if action.RestartIce? { ShutPaced(next.(state := L.Closed), calls + [Polled] + [Restarted(next.restartRevision, now)], now); }
    hide Times, Numbered, PhaseOf, R.Spaced, Tracks, L.OnTick;
    TickedExact(h, v, now, polled, accepted);
    hide Host.TickRow, Known;
  }

  /** What a tick does to the peer of an open row, and to no other. */
  lemma TickedExact(h: Host, v: nat, now: int, polled: bool, accepted: bool)
    requires Known(h) && v in h.registry.peers && !h.registry.peers[v].closed
    ensures var p, t := h.registry.peers[v].peer, h.TickRow(v, now, polled, accepted);
      var (next, action) := L.OnTick(h.PolicyOf(p), now);
      var calls, gone := h.CallsOf(p), next.(state := L.Closed);
      var restart := Restarted(next.restartRevision, now);
      && t.policies == h.policies[p := t.PolicyOf(p)] && t.calls == h.calls[p := t.CallsOf(p)]
      && (t.PolicyOf(p), t.CallsOf(p)) ==
         if action.ClosePeer? then (gone, calls + [ShutDown])
         else if !polled then (gone, calls + [Polled] + [ShutDown])
         else if !action.RestartIce? then (next, calls + [Polled])
         else if accepted then (next, calls + [Polled] + [restart])
         else (gone, calls + [Polled] + [restart] + [ShutDown])
  {
    hide Host.CloseEntry, L.OnTick;
    var entry := h.registry.peers[v];
    var (next, action) := L.OnTick(h.PolicyOf(entry.peer), now);
    var ticked := h.(policies := h.policies[entry.peer := next]);
    CloseExact(ticked, v);
    var called := ticked.Called(entry.peer, Polled);
    CloseExact(called.SetRow(v, entry.(status := entry.status.(operationFailed := true))), v);
    var sent := called.Called(entry.peer, Restarted(next.restartRevision, now));
    CloseExact(sent.SetRow(v, entry.(status := entry.status.(restartDispatchFailed := true))), v);
  }

  // ----- whole runs -----

  function Instant(e: Event, now: int): int {
    match e
    case NewPeer(_, _, at) => at
    case PeerEvent(_, event) => event.at
    case AskRestart(_, _, at) => at
    case RowTick(_, at, _, _) => at
    case _ => now
  }

  /** A handle names one native peer, handed over once; only the registry ticks a policy; time does not run back. */
  predicate Proper(h: Host, e: Event, now: int) {
    && Owned(h, e) && now <= Instant(e, now)
    && (e.NewPeer? ==> e.peer !in h.policies)
    && (e.PeerEvent? ==> e.peer in h.policies && !e.event.cause.TickCall?)
  }

  lemma PolicyPaced(h: Host, p: nat, next: L.Policy, before: int, now: int)
    requires AllPaced(h, before) && before <= now && p in h.policies
    requires PhaseOf(h.CallsOf(p)) == Some(Open) ==> Tracks(next, Times(h.CallsOf(p)), now)
    ensures AllPaced(h.(policies := h.policies[p := next]), now)
  {
    var t := h.(policies := h.policies[p := next]);
    assert Paced(h.policies[p], h.CallsOf(p), before);
    PacedAge(h.policies[p], h.CallsOf(p), before, now);
    hide Times, Numbered, PhaseOf, Tracks, R.Spaced;
    forall q | q in t.policies ensures Paced(t.policies[q], t.CallsOf(q), now) {
      assert t.CallsOf(q) == h.CallsOf(q);
      if q != p { PacedAge(h.policies[q], h.CallsOf(q), before, now); }
    }
  }

  lemma NewPeerPaced(h: Host, p: nat, generation: nat, before: int, now: int)
    requires AllPaced(h, before) && before <= now && p !in h.policies
    ensures AllPaced(h.(policies := h.policies[p := L.Initial(generation, now)]), now)
  {
    var t := h.(policies := h.policies[p := L.Initial(generation, now)]);
    NewTracks(generation, now);
    assert Paced(L.Initial(generation, now), [], now);
    hide Paced, L.Initial;
    forall q | q in t.policies ensures Paced(t.policies[q], t.CallsOf(q), now) {
      assert t.CallsOf(q) == h.CallsOf(q);
      if q != p { PacedAge(h.policies[q], h.CallsOf(q), before, now); }
    }
  }

  lemma ReactPaced(h: Host, p: nat, e: R.Event, before: int)
    requires AllPaced(h, before) && before <= e.at && p in h.policies && !e.cause.TickCall?
    ensures AllPaced(h.(policies := h.policies[p := R.React(h.policies[p], e).0]), e.at)
  {
    assert Paced(h.policies[p], h.CallsOf(p), before);
    if PhaseOf(h.CallsOf(p)) == Some(Open) { TracksReact(h.policies[p], Times(h.CallsOf(p)), before, e); }
    hide Paced, R.React, PhaseOf;
    PolicyPaced(h, p, R.React(h.policies[p], e).0, before, e.at);
  }

  lemma AskPaced(h: Host, viewer: nat, generation: nat, before: int, now: int)
    requires AllPaced(h, before) && Known(h) && before <= now
    ensures AllPaced(h.RequestRestart(viewer, generation, now).0, now)
  {
    hide Paced, L.OnDisconnected;
    if viewer in h.registry.peers {
      ReactPaced(h, h.registry.peers[viewer].peer, R.Event(now, R.RestartRequest(generation)), before);
    }
    AllAge(h, before, now);
  }

  lemma AllAge(h: Host, before: int, now: int)
    requires AllPaced(h, before) && before <= now
    ensures AllPaced(h, now)
  {
    hide Paced;
    forall p | p in h.policies ensures Paced(h.policies[p], h.CallsOf(p), now) {
      PacedAge(h.policies[p], h.CallsOf(p), before, now);
    }
  }

  /** Events that at most close and release peers. */
  predicate Winding(e: Event) {
    e.SessionStep? || e.AddPeer? || e.EraseRow? || e.RemovePeer? || e.BeginStop? || e.PollStop? || e.StopAgain?
  }

  lemma ActWinds(h: Host, e: Event)
    requires Kept(h) && Known(h) && Owned(h, e) && Winding(e)
    ensures Winds(h, Act(h, e))
  {
    SameWinds(h, h);
    hide Kept, Winds, Known, Host.TickRow, Host.Add, Host.Remove, Host.BeginStop, Host.PollStop, Host.StopAgain, Host.Erase, S.Step;
    match e
    case SessionStep(step) => SameWinds(h, Act(h, e));
    case AddPeer(viewer, given) => KnownCalls(h); AddWinds(h, viewer, given);
    case EraseRow(v) => if h.Removable(v) { EraseWinds(h, v); }
    case RemovePeer(v, generation) => RemoveWinds(h, v, generation);
    case BeginStop => BeginStopWinds(h);
    case PollStop => PollStopWinds(h);
    case StopAgain => StopAgainWinds(h);
    case _ =>
  }

  lemma KnownCalls(h: Host)
    requires Known(h)
    ensures h.calls.Keys <= h.policies.Keys
  {
  }

  lemma ActPaced(h: Host, e: Event, now: int)
    requires Kept(h) && AllPaced(h, now) && Proper(h, e, now)
    ensures AllPaced(Act(h, e), Instant(e, now))
  {
    hide Kept, AllPaced, Known, Winds, Act;
    KnownFrom(h, now);
    if Winding(e) {
      ActWinds(h, e);
      WindsPaced(h, Act(h, e), now);
    } else {
      OpenPaced(h, e, now);
    }
  }

  /** The other events reach the policies, or one row. */
  lemma OpenPaced(h: Host, e: Event, now: int)
    requires Kept(h) && AllPaced(h, now) && Known(h) && Proper(h, e, now) && !Winding(e)
    ensures AllPaced(Act(h, e), Instant(e, now))
  {
    hide Kept, AllPaced, Known, Host.TickRow, Host.RequestRestart, R.React, L.Initial;
    AllAge(h, now, Instant(e, now));
    match e
    case NewPeer(p, generation, at) => NewPeerPaced(h, p, generation, now, at);
    case PeerEvent(p, event) => ReactPaced(h, p, event, now);
    case AskRestart(viewer, generation, at) => AskPaced(h, viewer, generation, now, at);
    case RowTick(v, at, polled, accepted) => if v in h.registry.peers { TickRowPaced(h, v, now, at, polled, accepted); }
    case _ =>
  }

  predicate ProperRun(h: Host, events: seq<Event>, now: int)
    decreases |events|
  {
    events == [] || (Proper(h, events[0], now) && ProperRun(Act(h, events[0]), events[1..], Instant(events[0], now)))
  }

  lemma {:induction false} RunPaced(h: Host, events: seq<Event>, now: int) returns (end: int)
    requires Kept(h) && AllPaced(h, now) && ProperRun(h, events, now)
    ensures Kept(Run(h, events)) && AllPaced(Run(h, events), end)
    decreases |events|
  {
    end := now;
    if events != [] {
      hide Kept, AllPaced, Act;
      ActKept(h, events[0]);
      ActPaced(h, events[0], now);
      end := RunPaced(Act(h, events[0]), events[1..], Instant(events[0], now));
    }
  }

  /** A registry as it is built: no rows, and no peer made yet. */
  predicate Empty(h: Host) {
    h.registry.peers == map[] && h.policies == map[] && h.calls == map[]
  }

  /** For every peer and every run: requests to restart are a second apart, four of them span a minute,
      and they carry consecutive revisions. */
  lemma DispatchBudget(h: Host, events: seq<Event>, now: int, p: nat, i: nat, j: nat)
    requires Empty(h) && ProperRun(h, events, now)
    ensures var calls := Run(h, events).CallsOf(p);
      && Numbered(calls)
      && (i < j < |Times(calls)| ==>
            Times(calls)[j] - Times(calls)[i] >= 1_000_000_000 && (i + 3 <= j ==> Times(calls)[j] - Times(calls)[i] >= 60_000_000_000))
  {
    var end := RunPaced(h, events, now);
    var t := Run(h, events);
    if p in t.policies { assert Paced(t.policies[p], t.CallsOf(p), end); }
    hide PhaseOf, Tracks, Run;
  }

  /** Every peer whose row is gone, and every peer that was refused, was closed once and released once,
      after its last poll or restart; a peer in a row is open exactly when the row is. */
  lemma ClosedExactlyOnce(h: Host, events: seq<Event>, now: int, p: nat)
    requires Empty(h) && ProperRun(h, events, now) && p in Run(h, events).calls
    ensures var t := Run(h, events);
      || PhaseOf(t.calls[p]) == Some(Gone)
      || exists v :: v in t.registry.peers && t.registry.peers[v].peer == p &&
                     PhaseOf(t.calls[p]) == Some(if t.registry.peers[v].closed then Shut else Open)
  {
    var end := RunPaced(h, events, now);
    hide PhaseOf, AllPaced, Run;
  }

  // ----- calls only accumulate -----

  ghost predicate Extends(h: Host, t: Host) {
    match t
    case Host(_, _, _, calls) => forall p :: p in h.calls ==> p in calls && h.calls[p] <= calls[p]
  }

  lemma WindsExtends(h: Host, t: Host)
    requires Winds(h, t) && h.calls.Keys <= h.policies.Keys
    ensures Extends(h, t)
  {
  }

  lemma ActExtends(h: Host, e: Event)
    requires Kept(h) && Known(h) && Owned(h, e)
    ensures Extends(h, Act(h, e))
  {
    KnownCalls(h);
    SameExtends(h, h);
    hide Kept, Known, Winds, Extends, Host.TickRow, Host.RequestRestart, R.React;
    if Winding(e) {
      hide Act;
      ActWinds(h, e);
      WindsExtends(h, Act(h, e));
    } else if e.RowTick? {
      if e.viewer in h.registry.peers { TickExtends(h, e.viewer, e.at, e.polled, e.accepted); }
    } else {
      if e.AskRestart? { AskCalls(h, e.viewer, e.generation, e.at); }
      SameExtends(h, Act(h, e));
    }
  }

  lemma AskCalls(h: Host, viewer: nat, generation: nat, at: int)
    ensures h.RequestRestart(viewer, generation, at).0.calls == h.calls
  {
  }

  lemma SameExtends(h: Host, t: Host)
    requires t.calls == h.calls
    ensures Extends(h, t)
  {
  }

  lemma TickExtends(h: Host, v: nat, now: int, polled: bool, accepted: bool)
    requires Known(h) && v in h.registry.peers
    ensures Extends(h, h.TickRow(v, now, polled, accepted))
  {
    if h.registry.peers[v].closed {
      PollExact(h, v);
    } else {
      TickedExact(h, v, now, polled, accepted);
    }
    hide Host.TickRow, L.OnTick;
  }

  lemma {:induction false} GoneAccepts(calls: seq<PeerCall>, more: seq<PeerCall>)
    requires PhaseOf(calls) == Some(Gone) && calls <= more && PhaseOf(more) != None
    ensures more == calls
  {
    assert forall call :: Next(Gone, call) == None;
    if |calls| < |more| { GoneAccepts(calls, more[..|more| - 1]); }
  }

  lemma KeptHasPhase(h: Host, p: nat)
    requires Kept(h) && p in h.calls
    ensures PhaseOf(h.calls[p]) != None
  {
    if Held(h.registry.peers, p) {
      var v :| v in h.registry.peers && h.registry.peers[v].peer == p;
      RowPhase(h, v);
    }
    hide PhaseOf, Phased, Distinct;
  }

  /** Once a peer is gone nothing is ever called on it again. */
  lemma {:induction false} GoneForGood(h: Host, events: seq<Event>, now: int, p: nat)
    requires Kept(h) && AllPaced(h, now) && ProperRun(h, events, now)
    requires p in h.calls && PhaseOf(h.calls[p]) == Some(Gone)
    ensures p in Run(h, events).calls && Run(h, events).calls[p] == h.calls[p]
    decreases |events|
  {
    if events != [] {
      var t := Act(h, events[0]);
      KnownFrom(h, now);
      hide Kept, AllPaced, Act, PhaseOf, Known;
      ActKept(h, events[0]);
      ActPaced(h, events[0], now);
      ActExtends(h, events[0]);
      KeptHasPhase(t, p);
      GoneAccepts(h.calls[p], t.calls[p]);
      GoneForGood(t, events[1..], Instant(events[0], now), p);
    }
  }
}
