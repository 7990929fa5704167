/** What one tick of the registry does to every row: each open peer gets its turn, and rows that can go are gone. */
module HostTicks {
  import opened Bytes
  import opened HostPeerRegistry
  import opened HostRuns
  import opened HostRestarts
  import L = PeerLifecycle
  import M = HostMediaSession

  /** One turn of an open peer: its policy advances; if that does not close it, it is polled; if a restart is due, that
      is requested; whatever fails closes it. */
  function Turn(policy: L.Policy, calls: seq<PeerCall>, now: int, polled: bool, accepted: bool): (L.Policy, seq<PeerCall>) {
    var (next, action) := L.OnTick(policy, now);
    var gone := next.(state := L.Closed);
    var restart := Restarted(next.restartRevision, now);
    if action == L.ClosePeer then (gone, calls + [ShutDown])
    else if !polled then (gone, calls + [Polled] + [ShutDown])
    else if action == L.NoAction then (next, calls + [Polled])
    else if accepted then (next, calls + [Polled] + [restart])
    else (gone, calls + [Polled] + [restart] + [ShutDown])
  }

  /** Only this row may have changed, and it still holds its peer. */
  ghost predicate OnlyAt(before: map<nat, Entry>, after: map<nat, Entry>, u: nat) {
    && u in before && u in after && after == before[u := after[u]]
    && after[u].peer == before[u].peer && after[u].removeRequested == before[u].removeRequested
    && (before[u].closed ==> after[u].closed)
  }

  lemma OnlyTwice(a: map<nat, Entry>, b: map<nat, Entry>, c: map<nat, Entry>, u: nat)
    requires OnlyAt(a, b, u) && OnlyAt(b, c, u)
    ensures OnlyAt(a, c, u)
  {
  }

  lemma OnlySet(rows: map<nat, Entry>, u: nat, entry: Entry)
    requires u in rows && entry.peer == rows[u].peer && entry.removeRequested == rows[u].removeRequested
    requires rows[u].closed ==> entry.closed
    ensures OnlyAt(rows, rows[u := entry], u)
  {
  }

  lemma PollOnly(h: Host, u: nat)
    requires u in h.registry.peers
    ensures OnlyAt(h.registry.peers, h.PollCleanup(u).registry.peers, u)
  {
    hide M.Session.Submit, OnlyAt;
    var rows, row := h.registry.peers, h.registry.peers[u];
    assert rows[u := row] == rows;
    OnlySet(rows, u, row);
    OnlySet(rows, u, row.(cleanup := Some(h.session.nextOperation + 1)));
    if row.cleanup.Some? && row.cleanup.value in h.session.replies {
      var error := h.session.replies[row.cleanup.value].error;
      OnlySet(rows, u, row.(cleanup := None, status := row.status.(cleanupError := error, cleanupPending := !M.Settled(error))));
    }
  }

  lemma CloseOnly(h: Host, u: nat)
    requires u in h.registry.peers
    ensures OnlyAt(h.registry.peers, h.CloseEntry(u).registry.peers, u)
  {
    hide Host.PollCleanup, FinalStatus;
    var rows := h.registry.peers;
    assert rows[u := rows[u]] == rows;
    if !rows[u].closed {
      assert OnlyAt(rows, h.Shut(u).registry.peers, u);
      hide OnlyAt;
      PollOnly(h.Shut(u), u);
      OnlyTwice(rows, h.Shut(u).registry.peers, h.CloseEntry(u).registry.peers, u);
    }
  }

  lemma MarkedOnly(h: Host, called: Host, u: nat, entry: Entry)
    requires u in h.registry.peers && called.registry == h.registry
    requires entry.peer == h.registry.peers[u].peer && entry.removeRequested == h.registry.peers[u].removeRequested
    requires h.registry.peers[u].closed ==> entry.closed
    ensures OnlyAt(h.registry.peers, called.SetRow(u, entry).CloseEntry(u).registry.peers, u)
  {
    hide Host.CloseEntry;
    OnlySet(h.registry.peers, u, entry);
    CloseOnly(called.SetRow(u, entry), u);
    OnlyTwice(h.registry.peers, h.registry.peers[u := entry], called.SetRow(u, entry).CloseEntry(u).registry.peers, u);
  }

  lemma TickOnly(h: Host, u: nat, now: int, polled: bool, accepted: bool)
    requires u in h.registry.peers
    ensures OnlyAt(h.registry.peers, h.TickRow(u, now, polled, accepted).registry.peers, u)
  {
    hide Host.PollCleanup, Host.CloseEntry, L.OnTick, OnlyAt;
    var row := h.registry.peers[u];
    var (next, action) := L.OnTick(h.PolicyOf(row.peer), now);
    var ticked := h.(policies := h.policies[row.peer := next]);
    PollOnly(h, u);
    CloseOnly(ticked, u);
    OnlySet(h.registry.peers, u, row);
    assert h.registry.peers[u := row] == h.registry.peers;
    var called := ticked.Called(row.peer, Polled);
    MarkedOnly(h, called, u, row.(status := row.status.(operationFailed := true)));
    MarkedOnly(h, called.Called(row.peer, Restarted(next.restartRevision, now)), u,
               row.(status := row.status.(restartDispatchFailed := true)));
  }

  // ----- one row's turn, seen from every row -----

  /** What holds while rows take their turns. */
  ghost predicate Orderly(h: Host) { Known(h) && Distinct(h.registry.peers) }

  lemma TickTurns(h: Host, u: nat, v: nat, now: int, polled: bool, accepted: bool)
    requires Orderly(h) && u in h.registry.peers && v in h.registry.peers
    ensures var p, t := h.registry.peers[v].peer, h.TickRow(u, now, polled, accepted);
      && Orderly(t) && t.registry.peers.Keys == h.registry.peers.Keys
      && t.registry.peers[v].peer == p && t.registry.peers[v].removeRequested == h.registry.peers[v].removeRequested
      && (u != v ==> t.registry.peers[v] == h.registry.peers[v])
      && (t.PolicyOf(p), t.CallsOf(p)) ==
         if u == v && !h.registry.peers[v].closed then Turn(h.PolicyOf(p), h.CallsOf(p), now, polled, accepted)
         else (h.PolicyOf(p), h.CallsOf(p))
  {
    var t := h.TickRow(u, now, polled, accepted);
    TickOnly(h, u, now, polled, accepted);
    TickRowKeepsRows(h, u, now, polled, accepted);
    TickCalls(h, u, now, polled, accepted);
    hide Host.TickRow, Turn;
    DistinctUpdate(h.registry.peers, u, t.registry.peers[u]);
  }

  /** Nothing happens to other peers. */
  lemma TickCalls(h: Host, u: nat, now: int, polled: bool, accepted: bool)
    requires Known(h) && u in h.registry.peers
    ensures var q, t := h.registry.peers[u].peer, h.TickRow(u, now, polled, accepted);
      && t.policies.Keys == h.policies.Keys && t.calls.Keys == h.calls.Keys
      && (forall p :: p != q ==> t.PolicyOf(p) == h.PolicyOf(p) && t.CallsOf(p) == h.CallsOf(p))
      && (t.PolicyOf(q), t.CallsOf(q)) ==
         if h.registry.peers[u].closed then (h.PolicyOf(q), h.CallsOf(q))
         else Turn(h.PolicyOf(q), h.CallsOf(q), now, polled, accepted)
  {
    if h.registry.peers[u].closed {
      PollExact(h, u);
    } else {
      TickedExact(h, u, now, polled, accepted);
      hide Host.TickRow, L.OnTick;
    }
  }

  /** All rows take their turns; each open peer gets exactly one. */
  lemma {:induction false} RowsTakeTurns(h: Host, todo: set<nat>, now: int, polled: set<nat>, accepted: set<nat>, v: nat)
    requires Orderly(h) && todo <= h.registry.peers.Keys && v in h.registry.peers
    ensures var p, t := h.registry.peers[v].peer, h.TickRows(todo, now, polled, accepted);
      && Orderly(t) && v in t.registry.peers && t.registry.peers[v].peer == p
      && t.registry.peers[v].removeRequested == h.registry.peers[v].removeRequested
      && (t.PolicyOf(p), t.CallsOf(p)) ==
         if v in todo && !h.registry.peers[v].closed then
           Turn(h.PolicyOf(p), h.CallsOf(p), now, v in polled, v in accepted)
         else (h.PolicyOf(p), h.CallsOf(p))
    decreases |todo|
  {
    if todo != {} {
      var u := M.Smallest(todo);
      TickTurns(h, u, v, now, u in polled, u in accepted);
      var next := h.TickRow(u, now, u in polled, u in accepted);
      hide Host.TickRow, Turn, Orderly;
      RowsTakeTurns(next, todo - {u}, now, polled, accepted, v);
    }
  }

  // ----- the rows that can go -----

  lemma EraseOne(h: Host, u: nat)
    requires Distinct(h.registry.peers) && u in h.registry.peers
    ensures var t := h.Erase(u);
      && t.registry.peers == h.registry.peers - {u} && Distinct(t.registry.peers) && t.policies == h.policies
      && t.CallsOf(h.registry.peers[u].peer) == h.CallsOf(h.registry.peers[u].peer) + [Released]
      && forall v :: v in h.registry.peers && v != u ==> t.CallsOf(h.registry.peers[v].peer) == h.CallsOf(h.registry.peers[v].peer)
  {
  }

  /** Exactly the rows that were asked to go and wait for no cleanup are erased, and their peers released. */
  lemma {:induction false} RowsGo(h: Host, todo: set<nat>, v: nat)
    requires Distinct(h.registry.peers) && todo <= h.registry.peers.Keys && v in h.registry.peers
    ensures var row, t := h.registry.peers[v], h.EraseRows(todo);
      var goes := v in todo && row.removeRequested && !row.status.cleanupPending;
      && (v in t.registry.peers <==> !goes) && (!goes ==> t.registry.peers[v] == row) && t.policies == h.policies
      && t.CallsOf(row.peer) == if goes then h.CallsOf(row.peer) + [Released] else h.CallsOf(row.peer)
    decreases |todo|
  {
    if todo != {} {
      var u := M.Smallest(todo);
      EraseOne(h, u);
      var next := if h.Removable(u) then h.Erase(u) else h;
      hide Host.Erase, Distinct;
      if u == v && h.Removable(u) {
        RowsGone(next, todo - {u}, v, h.registry.peers[v].peer);
      } else {
        RowsGo(next, todo - {u}, v);
      }
    }
  }

  /** Erasing other rows touches no peer that none of them holds. */
  lemma {:induction false} RowsGone(h: Host, todo: set<nat>, v: nat, p: nat)
    requires todo <= h.registry.peers.Keys && v !in h.registry.peers
    requires forall u :: u in h.registry.peers ==> h.registry.peers[u].peer != p
    ensures var t := h.EraseRows(todo); v !in t.registry.peers && t.CallsOf(p) == h.CallsOf(p) && t.policies == h.policies
    decreases |todo|
  {
    if todo != {} {
      var u := M.Smallest(todo);
      RowsGone(if h.Removable(u) then h.Erase(u) else h, todo - {u}, v, p);
    }
  }

  // ----- the tick -----

  /** In every tick, until shutdown begins, each open peer takes exactly one turn and keeps its row; each closed one is
      left alone; and every row that was asked to go and then waits for no cleanup is gone. */
  lemma TickReachesAll(h: Host, now: int, polled: set<nat>, accepted: set<nat>, v: nat)
    requires Kept(h) && Known(h) && !h.registry.stopping && v in h.registry.peers
    ensures var row, t := h.registry.peers[v], h.Tick(now, polled, accepted);
      && (!row.closed ==>
            && v in t.registry.peers && t.registry.peers[v].peer == row.peer
            && (t.PolicyOf(row.peer), t.CallsOf(row.peer)) ==
               Turn(h.PolicyOf(row.peer), h.CallsOf(row.peer), now, v in polled, v in accepted))
      && (row.closed ==>
            && t.PolicyOf(row.peer) == h.PolicyOf(row.peer)
            && t.CallsOf(row.peer) == if v in t.registry.peers then h.CallsOf(row.peer) else h.CallsOf(row.peer) + [Released])
      && (v in t.registry.peers ==> !(t.registry.peers[v].removeRequested && !t.registry.peers[v].status.cleanupPending))
  {
    RowPhase(h, v);
    assert Orderly(h) by { hide PhaseOf, Phased, Accounted; }
    hide Kept, Known, PhaseOf, Turn, Host.TickRows, Host.EraseRows, Distinct;
    RowsTakeTurns(h, h.registry.peers.Keys, now, polled, accepted, v);
    var ticked := h.TickRows(h.registry.peers.Keys, now, polled, accepted);
    RowsGo(ticked, ticked.registry.peers.Keys, v);
  }

  /** A removal is accepted exactly for the row of that generation before shutdown; without a session the row goes at
      once and its peer, if it was open, is closed and released. */
  lemma RemoveIsAccepted(h: Host, v: nat, generation: nat)
    requires v in h.registry.peers && !h.registry.bound && !h.registry.peers[v].status.cleanupPending
    ensures var row, (t, accepted) := h.registry.peers[v], h.Remove(v, generation);
      && (accepted <==> !h.registry.stopping && !h.registry.stopped && row.status.generation == generation)
      && (!accepted ==> t == h)
      && (accepted ==>
            && t.registry.peers.Keys == h.registry.peers.Keys - {v}
            && t.CallsOf(row.peer) == h.CallsOf(row.peer) + (if row.closed then [] else [ShutDown]) + [Released])
  {
    hide FinalStatus;
  }
}
