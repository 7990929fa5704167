/** The owner of a host session's peers. Native peers are handles here; their lifecycle objects are
    the restart policies, and every call the registry makes on a peer is recorded. */
module HostPeerRegistry {
  import opened Bytes
  import L = PeerLifecycle
  import M = HostMediaSession

  const PEER_LIMIT := 63

  /** Calls on a native peer; the last one gives up its ownership. */
  datatype PeerCall = Polled | Restarted(revision: nat, at: int) | ShutDown | Released

  datatype Status = Status(
    viewer: nat, generation: nat, restartRevision: nat, state: L.State, failure: L.Failure,
    restartDispatchFailed: bool, operationFailed: bool, peerClosed: bool,
    cleanupPending: bool, cleanupError: M.OperationError)

  datatype Entry = Entry(peer: nat, status: Status, closed: bool, removeRequested: bool, cleanup: Option<nat>)

  datatype Registry = Registry(
    peers: map<nat, Entry>, lastGeneration: nat, stopped: bool, stopping: bool,
    stopError: M.OperationError, stopCapture: Option<nat>, bound: bool, sessionGeneration: nat)

  function NewEntry(viewer: nat, generation: nat, peer: nat): Entry {
    Entry(peer,
          Status(viewer, generation, 0, L.Connecting, L.NoFailure, false, false, false, false, M.NoError),
          false, false, None)
  }

  function ReadStatus(status: Status, policy: L.Policy): Status {
    status.(state := policy.state, failure := policy.failure, restartRevision := policy.restartRevision)
  }

  function FinalStatus(status: Status, policy: L.Policy): Status {
    var seen := ReadStatus(status, policy);
    if seen.restartDispatchFailed || seen.operationFailed then seen.(state := L.Failed)
    else if !seen.state.Failed? then seen.(state := L.Closed)
    else seen
  }

  /** The registry, the capture session it is bound to, and the peers it was given. */
  datatype Host = Host(registry: Registry, session: M.Session, policies: map<nat, L.Policy>, calls: map<nat, seq<PeerCall>>) {
    function PolicyOf(peer: nat): L.Policy {
      if peer in policies then policies[peer] else L.Initial(0, 0)
    }

    function CallsOf(peer: nat): seq<PeerCall> {
      if peer in calls then calls[peer] else []
    }

    function Called(peer: nat, call: PeerCall): Host {
      this.(calls := calls[peer := CallsOf(peer) + [call]])
    }

    function SetRow(viewer: nat, entry: Entry): Host {
      this.(registry := registry.(peers := registry.peers[viewer := entry]))
    }

    function PollCleanup(viewer: nat): Host
      requires viewer in registry.peers
    {
      var entry := registry.peers[viewer];
      if !entry.status.cleanupPending then this
      else if entry.cleanup.Some? then
        if entry.cleanup.value !in session.replies then this
        else
          var error := session.replies[entry.cleanup.value].error;
          SetRow(viewer, entry.(cleanup := None,
                                status := entry.status.(cleanupError := error, cleanupPending := !M.Settled(error))))
      else
        SetRow(viewer, entry.(cleanup := Some(session.nextOperation + 1)))
          .(session := session.Submit(M.RemoveViewer(registry.sessionGeneration, entry.status.viewer, entry.status.generation)))
    }

    /** Closes the native peer, once, and turns to the capture side. */
    function Shut(viewer: nat): Host
      requires viewer in registry.peers
    {
      var entry := registry.peers[viewer];
      var status := FinalStatus(entry.status, PolicyOf(entry.peer));
      Called(entry.peer, ShutDown)
        .SetRow(viewer, entry.(closed := true, status := status.(peerClosed := true, cleanupPending := registry.bound && !registry.stopped)))
        .(policies := policies[entry.peer := PolicyOf(entry.peer).(state := L.Closed)])
    }

    function CloseEntry(viewer: nat): Host
      requires viewer in registry.peers
    {
      if registry.peers[viewer].closed then this else Shut(viewer).PollCleanup(viewer)
    }

    function Erase(viewer: nat): Host
      requires viewer in registry.peers
    {
      Called(registry.peers[viewer].peer, Released).(registry := registry.(peers := registry.peers - {viewer}))
    }

    function Refuses(viewer: nat, generation: nat): bool {
      registry.stopping || registry.stopped || viewer == 0 || viewer in registry.peers ||
      |registry.peers| >= PEER_LIMIT || generation <= registry.lastGeneration
    }

    function Add(viewer: nat, peer: Option<nat>): (Host, bool) {
      if peer.None? then (this, false)
      else
        var generation := PolicyOf(peer.value).generation;
        if Refuses(viewer, generation) then (Called(peer.value, ShutDown).Called(peer.value, Released), false)
        else
          (this.(registry := registry.(peers := registry.peers[viewer := NewEntry(viewer, generation, peer.value)],
                                       lastGeneration := generation),
                 calls := calls[peer.value := CallsOf(peer.value)]), true)
    }

    function RequestRestart(viewer: nat, generation: nat, now: int): (Host, bool) {
      if registry.stopping || registry.stopped || viewer !in registry.peers then (this, false)
      else
        var entry := registry.peers[viewer];
        if entry.closed || entry.status.generation != generation then (this, false)
        else
          var (next, accepted) := L.OnDisconnected(PolicyOf(entry.peer), generation, now);
          (this.(policies := policies[entry.peer := next]), accepted)
    }

    /** An open row whose policy did not ask to close it: poll, then dispatch a restart if one is due. */
    function PollRow(viewer: nat, revision: nat, restart: bool, now: int, polled: bool, accepted: bool): Host
      requires viewer in registry.peers
    {
      var entry := registry.peers[viewer];
      var called := Called(entry.peer, Polled);
      if !polled then
        called.SetRow(viewer, entry.(status := entry.status.(operationFailed := true))).CloseEntry(viewer)
      else if restart then
        var sent := called.Called(entry.peer, Restarted(revision, now));
        if accepted then sent
        else sent.SetRow(viewer, entry.(status := entry.status.(restartDispatchFailed := true))).CloseEntry(viewer)
      else called
    }

    /** One row of a tick: clean up a closed one, else advance its policy, poll it, dispatch a restart. */
    function TickRow(viewer: nat, now: int, polled: bool, accepted: bool): Host
      requires viewer in registry.peers
    {
      var entry := registry.peers[viewer];
      if entry.closed then PollCleanup(viewer)
      else
        var (next, action) := L.OnTick(PolicyOf(entry.peer), now);
        var ticked := this.(policies := policies[entry.peer := next]);
        if action.ClosePeer? then ticked.CloseEntry(viewer)
        else ticked.PollRow(viewer, next.restartRevision, action.RestartIce?, now, polled, accepted)
    }

    predicate Removable(viewer: nat) {
      viewer in registry.peers && registry.peers[viewer].removeRequested && !registry.peers[viewer].status.cleanupPending
    }

    function TickRows(todo: set<nat>, now: int, polled: set<nat>, accepted: set<nat>): Host
      requires todo <= registry.peers.Keys
      decreases |todo|
    {
      if todo == {} then this
      else
        var viewer := M.Smallest(todo);
        TickRowKeepsRows(this, viewer, now, viewer in polled, viewer in accepted);
        TickRow(viewer, now, viewer in polled, viewer in accepted).TickRows(todo - {viewer}, now, polled, accepted)
    }

    function EraseRows(todo: set<nat>): Host
      requires todo <= registry.peers.Keys
      decreases |todo|
    {
      if todo == {} then this
      else
        var viewer := M.Smallest(todo);
        (if Removable(viewer) then Erase(viewer) else this).EraseRows(todo - {viewer})
    }

    function Tick(now: int, polled: set<nat>, accepted: set<nat>): Host {
      if registry.stopping then PollStop()
      else
        var ticked := TickRows(registry.peers.Keys, now, polled, accepted);
        ticked.EraseRows(ticked.registry.peers.Keys)
    }

    function Remove(viewer: nat, generation: nat): (Host, bool) {
      if registry.stopping || registry.stopped || viewer !in registry.peers ||
         registry.peers[viewer].status.generation != generation then (this, false)
      else
        var closed := SetRow(viewer, registry.peers[viewer].(removeRequested := true)).CloseEntry(viewer);
        (if closed.Removable(viewer) then closed.Erase(viewer) else closed, true)
    }

    function BeginStop(): Host {
      if registry.stopping || registry.stopped then this
      else if registry.bound then
        this.(registry := registry.(stopping := true, stopCapture := Some(session.nextOperation + 1)),
              session := session.Submit(M.Stop(registry.sessionGeneration))).PollStop()
      else this.(registry := registry.(stopping := true)).PollStop()
    }

    /** The stop's answer, once it is there. */
    function ReadStop(): Host {
      if registry.stopCapture.None? || registry.stopCapture.value !in session.replies then this
      else
        this.(registry := registry.(stopError := session.replies[registry.stopCapture.value].error, stopCapture := None))
    }

    function ShutRows(todo: set<nat>): Host
      requires todo <= registry.peers.Keys
      decreases |todo|
    {
      if todo == {} then this
      else
        var viewer := M.Smallest(todo);
        CloseKeepsRows(this, viewer);
        CloseEntry(viewer).ShutRows(todo - {viewer})
    }

    function PollStop(): Host {
      if registry.stopped then this
      else
        var read := ReadStop();
        if read.registry.stopCapture.Some? || !M.Settled(read.registry.stopError) then read
        else
          read.(registry := read.registry.(stopped := true)).ShutRows(read.registry.peers.Keys).ReleaseAll()
    }

    /** Every row gives up its peer. */
    function ReleaseAll(): Host {
      this.(registry := registry.(peers := map[]),
            calls := map p | p in calls :: if exists v :: v in registry.peers && registry.peers[v].peer == p then calls[p] + [Released] else calls[p])
    }

    /** The explicit stop: a failed shutdown is tried again. Waiting for the answer is up to the caller. */
    function StopAgain(): Host {
      if registry.stopped then this
      else if registry.stopping && !M.Settled(registry.stopError) then
        this.(registry := registry.(stopping := false, stopError := M.NoError)).BeginStop()
      else BeginStop()
    }
  }

  lemma SetRowKeepsRows(h: Host, viewer: nat, entry: Entry)
    requires viewer in h.registry.peers
    ensures h.SetRow(viewer, entry).registry.peers.Keys == h.registry.peers.Keys
  {
    assert h.registry.peers.Keys + {viewer} == h.registry.peers.Keys;
  }

  lemma PollKeepsRows(h: Host, viewer: nat)
    requires viewer in h.registry.peers
    ensures h.PollCleanup(viewer).registry.peers.Keys == h.registry.peers.Keys
  {
    hide M.Session.Submit;
    assert h.registry.peers.Keys + {viewer} == h.registry.peers.Keys;
  }

  lemma CloseKeepsRows(h: Host, viewer: nat)
    requires viewer in h.registry.peers
    ensures h.CloseEntry(viewer).registry.peers.Keys == h.registry.peers.Keys
  {
    hide Host.PollCleanup, FinalStatus;
    if !h.registry.peers[viewer].closed {
      assert h.registry.peers.Keys + {viewer} == h.registry.peers.Keys;
      PollKeepsRows(h.Shut(viewer), viewer);
    }
  }

  lemma TickRowKeepsRows(h: Host, viewer: nat, now: int, polled: bool, accepted: bool)
    requires viewer in h.registry.peers
    ensures h.TickRow(viewer, now, polled, accepted).registry.peers.Keys == h.registry.peers.Keys
  {
    hide Host.PollCleanup, Host.CloseEntry, Host.SetRow, L.OnTick;
    PollKeepsRows(h, viewer);
    var entry := h.registry.peers[viewer];
    var (next, action) := L.OnTick(h.PolicyOf(entry.peer), now);
    var ticked := h.(policies := h.policies[entry.peer := next]);
    CloseKeepsRows(ticked, viewer);
    var called := ticked.Called(entry.peer, Polled);
    var failed := entry.(status := entry.status.(operationFailed := true));
    SetRowKeepsRows(called, viewer, failed);
    CloseKeepsRows(called.SetRow(viewer, failed), viewer);
    var sent := called.Called(entry.peer, Restarted(next.restartRevision, now));
    var refused := entry.(status := entry.status.(restartDispatchFailed := true));
    SetRowKeepsRows(sent, viewer, refused);
    CloseKeepsRows(sent.SetRow(viewer, refused), viewer);
  }

  // ----- the object -----

  class HostPeerRegistry {
    var peers: map<nat, Entry>
    var lastGeneration: nat
    var stopped: bool
    var stopping: bool
    var stopError: M.OperationError
    var stopCapture: Option<nat>
    const capture: M.HostMediaSession?
    const sessionGeneration: nat
    /** The lifecycle objects of the peers, by handle. */
    var policies: map<nat, L.Policy>
    ghost var calls: map<nat, seq<PeerCall>>

    ghost function View(): Host
      reads this, capture
    {
      Host(Registry(peers, lastGeneration, stopped, stopping, stopError, stopCapture, capture != null, sessionGeneration),
           if capture == null then M.FRESH else capture.View(), policies, calls)
    }

    /** A bound capture session whenever some cleanup is pending: every row was closed by CloseEntry. */
    ghost predicate Sound()
      reads this
    {
      capture != null || (stopCapture.None? && forall v :: v in peers ==> !peers[v].status.cleanupPending)
    }

    constructor (capture: M.HostMediaSession?, sessionGeneration: nat, policies: map<nat, L.Policy>)
      ensures View() == Host(Registry(map[], 0, false, false, M.NoError, None, capture != null, sessionGeneration),
                             if capture == null then M.FRESH else capture.View(), policies, map[])
      ensures this.capture == capture && Sound()
    {
      this.capture, this.sessionGeneration, this.policies := capture, sessionGeneration, policies;
      peers, lastGeneration, stopped, stopping := map[], 0, false, false;
      stopError, stopCapture, calls := M.NoError, None, map[];
    }

    function PolicyOf(peer: nat): L.Policy
      reads this
    {
      if peer in policies then policies[peer] else L.Initial(0, 0)
    }

    ghost method Note(peer: nat, call: PeerCall)
      modifies this`calls
      ensures calls == old(calls)[peer := (if peer in old(calls) then old(calls)[peer] else []) + [call]]
    {
      calls := calls[peer := (if peer in calls then calls[peer] else []) + [call]];
    }

    method PollCleanup(viewer: nat)
      requires viewer in peers && (peers[viewer].status.cleanupPending ==> capture != null)
      modifies this`peers, capture
      ensures View() == old(View()).PollCleanup(viewer)
    {
      hide M.Session.Submit;
      var entry := peers[viewer];
      if !entry.status.cleanupPending { return; }
      if entry.cleanup.Some? {
        if entry.cleanup.value !in capture.replies { return; }
        var result := capture.replies[entry.cleanup.value];
        peers := peers[viewer := entry.(cleanup := None, status := entry.status.(cleanupError := result.error,
                                        cleanupPending := !M.Settled(result.error)))];
        return;
      }
      ghost var next := capture.nextOperation + 1;
      var operation := capture.Submit(M.RemoveViewer(sessionGeneration, entry.status.viewer, entry.status.generation));
      SubmitNumbers(old(capture.View()), M.RemoveViewer(sessionGeneration, entry.status.viewer, entry.status.generation));
      peers := peers[viewer := entry.(cleanup := Some(operation))];
    }

    method ReadFinal(viewer: nat) returns (status: Status)
      requires viewer in peers
      ensures status == FinalStatus(peers[viewer].status, View().PolicyOf(peers[viewer].peer))
    {
      var entry := peers[viewer];
      status := ReadStatus(entry.status, PolicyOf(entry.peer));
      if status.restartDispatchFailed || status.operationFailed {
        status := status.(state := L.Failed);
      } else if status.state != L.Failed {
        status := status.(state := L.Closed);
      }
    }

    method Shut(viewer: nat)
      requires viewer in peers
      modifies this`peers, this`policies, this`calls
      ensures View() == old(View()).Shut(viewer)
    {
      hide FinalStatus;
      var entry := peers[viewer];
      var status := ReadFinal(viewer);
      policies := policies[entry.peer := PolicyOf(entry.peer).(state := L.Closed)];
      Note(entry.peer, ShutDown);
      peers := peers[viewer := entry.(closed := true,
                                      status := status.(peerClosed := true, cleanupPending := capture != null && !stopped))];
    }

    method CloseEntry(viewer: nat)
      requires viewer in peers && (peers[viewer].status.cleanupPending ==> capture != null)
      modifies this`peers, this`policies, this`calls, capture
      ensures View() == old(View()).CloseEntry(viewer)
    {
      if peers[viewer].closed { return; }
      ShutRow(View(), viewer);
      hide Host.PollCleanup, Host.Shut;
      Shut(viewer);
      PollCleanup(viewer);
    }

    method Add(viewer: nat, peer: Option<nat>) returns (added: bool)
      requires Sound()
      modifies this`peers, this`lastGeneration, this`calls
      ensures (View(), added) == old(View()).Add(viewer, peer) && Sound()
    {
      if peer.None? { return false; }
      var generation := PolicyOf(peer.value).generation;
      if stopping || stopped || viewer == 0 || viewer in peers || |peers| >= PEER_LIMIT || generation <= lastGeneration {
        Note(peer.value, ShutDown);
        Note(peer.value, Released);
        return false;
      }
      lastGeneration := generation;
      peers := peers[viewer := NewEntry(viewer, generation, peer.value)];
      calls := calls[peer.value := if peer.value in calls then calls[peer.value] else []];
      added := true;
    }

    method RequestRestart(viewer: nat, generation: nat, now: int) returns (accepted: bool)
      requires Sound()
      modifies this`policies
      ensures (View(), accepted) == old(View()).RequestRestart(viewer, generation, now) && Sound()
    {
      if stopping || stopped || viewer !in peers { return false; }
      var entry := peers[viewer];
      if entry.closed || entry.status.generation != generation { return false; }
      var next, ok := Lifecycle(PolicyOf(entry.peer), generation, now);
      policies := policies[entry.peer := next];
      accepted := ok;
    }

    method Lifecycle(policy: L.Policy, generation: nat, now: int) returns (next: L.Policy, accepted: bool)
      ensures (next, accepted) == L.OnDisconnected(policy, generation, now)
    {
      var pair := L.OnDisconnected(policy, generation, now);
      next, accepted := pair.0, pair.1;
    }

    /** Notes a failure in an open row and closes it. */
    method MarkAndClose(viewer: nat, entry: Entry)
      requires viewer in peers && (entry.status.cleanupPending ==> capture != null)
      modifies this`peers, this`policies, this`calls, capture
      ensures View() == old(View()).SetRow(viewer, entry).CloseEntry(viewer)
    {
      hide Host.CloseEntry;
      peers := peers[viewer := entry];
      assert View() == old(View()).SetRow(viewer, entry);
      CloseEntry(viewer);
    }

    method TickRow(viewer: nat, now: int, polled: bool, accepted: bool)
      requires viewer in peers && (peers[viewer].status.cleanupPending ==> capture != null)
      modifies this`peers, this`policies, this`calls, capture
      ensures View() == old(View()).TickRow(viewer, now, polled, accepted)
    {
      hide Host.PollCleanup, Host.CloseEntry;
      var entry := peers[viewer];
      if entry.closed {
        PollCleanup(viewer);
        return;
      }
      TickOpenRow(viewer, now, polled, accepted);
    }

    method TickOpenRow(viewer: nat, now: int, polled: bool, accepted: bool)
      requires viewer in peers && !peers[viewer].closed && (peers[viewer].status.cleanupPending ==> capture != null)
      modifies this`peers, this`policies, this`calls, capture
      ensures View() == old(View()).TickRow(viewer, now, polled, accepted)
    {
      hide Host.PollCleanup, Host.CloseEntry, Host.PollRow, L.OnTick;
      ghost var start := View();
      var entry := peers[viewer];
      var ticked := L.OnTick(PolicyOf(entry.peer), now);
      policies := policies[entry.peer := ticked.0];
      assert View() == start.(policies := start.policies[entry.peer := ticked.0]);
      if ticked.1 == L.ClosePeer {
        CloseEntry(viewer);
      } else {
        PollRow(viewer, policies[entry.peer].restartRevision, ticked.1 == L.RestartIce, now, polled, accepted);
      }
    }

    method PollRow(viewer: nat, revision: nat, restart: bool, now: int, polled: bool, accepted: bool)
      requires viewer in peers && (peers[viewer].status.cleanupPending ==> capture != null)
      modifies this`peers, this`policies, this`calls, capture
      ensures View() == old(View()).PollRow(viewer, revision, restart, now, polled, accepted)
    {
      hide Host.PollCleanup, Host.CloseEntry, Host.Shut;
      ghost var start := View();
      var entry := peers[viewer];
      Note(entry.peer, Polled);
      ghost var called := start.Called(entry.peer, Polled);
      assert View() == called;
      if !polled {
        MarkAndClose(viewer, entry.(status := entry.status.(operationFailed := true)));
      } else if restart {
        Note(entry.peer, Restarted(revision, now));
        assert View() == called.Called(entry.peer, Restarted(revision, now));
        if !accepted {
          MarkAndClose(viewer, entry.(status := entry.status.(restartDispatchFailed := true)));
        }
      }
    }

    method Erase(viewer: nat)
      requires viewer in peers
      modifies this`peers, this`calls
      ensures View() == old(View()).Erase(viewer)
    {
      Note(peers[viewer].peer, Released);
      peers := peers - {viewer};
    }

    method Tick(now: int, polled: set<nat>, accepted: set<nat>)
      requires Sound()
      modifies this, capture
      ensures View() == old(View()).Tick(now, polled, accepted) && Sound()
    {
      hide Host.TickRow, Host.PollStop;
      if stopping {
        PollStop();
        return;
      }
      var todo := peers.Keys;
      ghost var start := View();
      while todo != {}
        invariant todo <= peers.Keys && Sound()
        invariant View().TickRows(todo, now, polled, accepted) == start.TickRows(start.registry.peers.Keys, now, polled, accepted)
        decreases |todo|
      {
        var viewer := M.Smallest(todo);
        ghost var before := View();
        TickRowKeepsRows(before, viewer, now, viewer in polled, viewer in accepted);
        TickRowSound(before, viewer, now, viewer in polled, viewer in accepted);
        TickRow(viewer, now, viewer in polled, viewer in accepted);
        todo := todo - {viewer};
      }
      ghost var ticked := View();
      todo := peers.Keys;
      while todo != {}
        invariant todo <= peers.Keys && Sound()
        invariant View().EraseRows(todo) == ticked.EraseRows(ticked.registry.peers.Keys)
        decreases |todo|
      {
        var viewer := M.Smallest(todo);
        ghost var before := View();
        if peers[viewer].removeRequested && !peers[viewer].status.cleanupPending {
          EraseSound(before, viewer);
          Erase(viewer);
        }
        todo := todo - {viewer};
      }
    }

    method Remove(viewer: nat, generation: nat) returns (accepted: bool)
      requires Sound()
      modifies this, capture
      ensures (View(), accepted) == old(View()).Remove(viewer, generation) && Sound()
    {
      hide Host.CloseEntry;
      if stopping || stopped || viewer !in peers || peers[viewer].status.generation != generation { return false; }
      peers := peers[viewer := peers[viewer].(removeRequested := true)];
      ghost var before := View();
      CloseKeepsRows(before, viewer);
      CloseSound(before, viewer);
      CloseEntry(viewer);
      ClosedMark(before, viewer);
      if !peers[viewer].status.cleanupPending {
        Erase(viewer);
      }
      accepted := true;
    }

    method PollStop()
      requires Sound()
      modifies this, capture
      ensures View() == old(View()).PollStop() && Sound()
    {
      hide Host.ShutRows;
      if stopped { return; }
      ghost var start := View();
      if stopCapture.Some? {
        if stopCapture.value !in capture.replies { return; }
        stopError := capture.replies[stopCapture.value].error;
        stopCapture := None;
      }
      assert View() == start.ReadStop();
      if !M.Settled(stopError) { return; }
      stopped := true;
      ShutAll();
      ReleaseAll();
    }

    method ShutAll()
      requires Sound()
      modifies this`peers, this`policies, this`calls, capture
      ensures View() == old(View()).ShutRows(old(View()).registry.peers.Keys) && Sound()
    {
      hide Host.CloseEntry;
      var todo := peers.Keys;
      ghost var start := View();
      while todo != {}
        invariant todo <= peers.Keys && Sound()
        invariant View().ShutRows(todo) == start.ShutRows(start.registry.peers.Keys)
        decreases |todo|
      {
        var viewer := M.Smallest(todo);
        ghost var before := View();
        CloseKeepsRows(before, viewer);
        CloseSound(before, viewer);
        CloseEntry(viewer);
        todo := todo - {viewer};
      }
    }

    method ReleaseAll()
      requires Sound()
      modifies this`peers, this`calls
      ensures View() == old(View()).ReleaseAll() && Sound()
    {
      calls := map p | p in calls :: if exists v :: v in peers && peers[v].peer == p then calls[p] + [Released] else calls[p];
      peers := map[];
    }

    method BeginStop()
      requires Sound()
      modifies this, capture
      ensures View() == old(View()).BeginStop() && Sound()
    {
      hide Host.PollStop, M.Session.Submit;
      if stopping || stopped { return; }
      stopping := true;
      if capture != null {
        var operation := capture.Submit(M.Stop(sessionGeneration));
        SubmitNumbers(old(capture.View()), M.Stop(sessionGeneration));
        stopCapture := Some(operation);
      }
      PollStop();
    }

    method StopAgain()
      requires Sound()
      modifies this, capture
      ensures View() == old(View()).StopAgain() && Sound()
    {
      hide Host.BeginStop;
      if stopped { return; }
      if stopping && !M.Settled(stopError) {
        stopping, stopError := false, M.NoError;
      }
      BeginStop();
    }

    /** After the wait: reads the answer. An unfinished shutdown is the caller's exception. */
    method FinishStop() returns (completed: bool)
      requires Sound() && (stopCapture.Some? ==> capture != null && stopCapture.value in capture.replies)
      modifies this, capture
      ensures View() == old(View()).PollStop() && Sound() && completed == stopped
      ensures completed <==> old(stopped) || M.Settled(old(View()).ReadStop().registry.stopError)
    {
      ghost var start := View();
      PollStop();
      completed := stopped;
      PollStopStops(start);
    }
  }

  /** With its answer there, polling completes the shutdown exactly when the answer has settled. */
  lemma PollStopStops(h: Host)
    requires h.registry.stopCapture.Some? ==> h.registry.stopCapture.value in h.session.replies
    ensures h.PollStop().registry.stopped <==> h.registry.stopped || M.Settled(h.ReadStop().registry.stopError)
  {
    if !h.registry.stopped {
      var marked := h.ReadStop().(registry := h.ReadStop().registry.(stopped := true));
      ShutRowsStopped(marked, marked.registry.peers.Keys);
      hide Host.ShutRows;
    }
  }

  lemma {:induction false} ShutRowsStopped(h: Host, todo: set<nat>)
    requires todo <= h.registry.peers.Keys
    ensures h.ShutRows(todo).registry.stopped == h.registry.stopped
    decreases |todo|
  {
    if todo != {} {
      var viewer := M.Smallest(todo);
      CloseKeepsRows(h, viewer);
      CloseStopped(h, viewer);
      hide Host.CloseEntry;
      ShutRowsStopped(h.CloseEntry(viewer), todo - {viewer});
    }
  }

  lemma CloseStopped(h: Host, viewer: nat)
    requires viewer in h.registry.peers
    ensures h.CloseEntry(viewer).registry.stopped == h.registry.stopped
  {
    hide M.Session.Submit, FinalStatus;
  }

  lemma ShutRow(h: Host, viewer: nat)
    requires viewer in h.registry.peers
    ensures viewer in h.Shut(viewer).registry.peers
    ensures h.Shut(viewer).registry.peers[viewer].status.cleanupPending ==> h.registry.bound
  {
    hide FinalStatus;
  }

  lemma SubmitNumbers(s: M.Session, request: M.Request)
    ensures s.Submit(request).nextOperation == s.nextOperation + 1
  {
    hide M.CancelAll;
  }

  /** Without a capture session no cleanup is ever pending. */
  ghost predicate SoundHost(h: Host) {
    h.registry.bound ||
    (h.registry.stopCapture.None? && forall v :: v in h.registry.peers ==> !h.registry.peers[v].status.cleanupPending)
  }

  lemma PollSound(h: Host, viewer: nat)
    requires viewer in h.registry.peers && SoundHost(h)
    ensures SoundHost(h.PollCleanup(viewer))
  {
    hide M.Session.Submit;
  }

  lemma CloseSound(h: Host, viewer: nat)
    requires viewer in h.registry.peers && SoundHost(h)
    ensures SoundHost(h.CloseEntry(viewer))
  {
    hide Host.PollCleanup, FinalStatus;
    if !h.registry.peers[viewer].closed { PollSound(h.Shut(viewer), viewer); }
  }

  lemma TickRowSound(h: Host, viewer: nat, now: int, polled: bool, accepted: bool)
    requires viewer in h.registry.peers && SoundHost(h)
    ensures SoundHost(h.TickRow(viewer, now, polled, accepted))
  {
    hide Host.PollCleanup, Host.CloseEntry, L.OnTick;
    PollSound(h, viewer);
    var entry := h.registry.peers[viewer];
    var (next, action) := L.OnTick(h.PolicyOf(entry.peer), now);
    var ticked := h.(policies := h.policies[entry.peer := next]);
    CloseSound(ticked, viewer);
    var called := ticked.Called(entry.peer, Polled);
    CloseSound(called.SetRow(viewer, entry.(status := entry.status.(operationFailed := true))), viewer);
    var sent := called.Called(entry.peer, Restarted(next.restartRevision, now));
    CloseSound(sent.SetRow(viewer, entry.(status := entry.status.(restartDispatchFailed := true))), viewer);
  }

  lemma EraseSound(h: Host, viewer: nat)
    requires viewer in h.registry.peers && SoundHost(h)
    ensures SoundHost(h.Erase(viewer))
  {
  }

  lemma ClosedMark(h: Host, viewer: nat)
    requires viewer in h.registry.peers
    ensures viewer in h.CloseEntry(viewer).registry.peers
    ensures h.CloseEntry(viewer).registry.peers[viewer].removeRequested == h.registry.peers[viewer].removeRequested
  {
    hide M.Session.Submit, FinalStatus;
  }
}
