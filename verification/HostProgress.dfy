/** What moves rows forward: a cleanup that did not settle is tried again, a settled one lets its row go, and
    peers, restarts and the shutdown are accepted and finished when they should be. */
module HostProgress {
  import opened Bytes
  import opened HostPeerRegistry
  import opened HostRuns
  import L = PeerLifecycle
  import M = HostMediaSession
  import S = SessionRuns
  import P = SessionProgress

  // ----- the cleanup of a closed row -----

  /** A closed row whose subscription is still to be removed. */
  predicate Cleaning(h: Host, v: nat) {
    && !h.registry.stopping && v in h.registry.peers
    && h.registry.peers[v].closed && h.registry.peers[v].status.cleanupPending
  }

  /** It waits for the answer to this removal. */
  predicate Awaits(h: Host, v: nat, op: nat) {
    Cleaning(h, v) && h.registry.peers[v].cleanup == Some(op)
  }

  /** A removal that did not take effect: everything but success and staleness. */
  predicate Unsettled(error: M.OperationError) {
    error == M.Capacity || error == M.Cancelled || error == M.Internal || error == M.InvalidState || error == M.InvalidViewer
  }

  /** Rows, policies and calls other than this row are as they were. */
  ghost predicate OnlyRow(before: Host, after: Host, v: nat) {
    && v in before.registry.peers && v in after.registry.peers
    && after.registry == before.registry.(peers := before.registry.peers[v := after.registry.peers[v]])
    && after.policies == before.policies && after.calls == before.calls
  }

  /** The same peer and incarnation. */
  predicate SameRow(a: Entry, b: Entry) {
    && a.peer == b.peer && a.closed == b.closed && a.removeRequested == b.removeRequested
    && a.status.viewer == b.status.viewer && a.status.generation == b.status.generation
  }

  /** A number is taken: its command waits or has its answer. */
  predicate Issued(s: M.Session, op: nat, request: M.Request) {
    M.Command(op, request) in s.queue || op in s.replies
  }

  lemma SubmitIssues(s: M.Session, request: M.Request)
    ensures s.Submit(request).nextOperation == s.nextOperation + 1
    ensures Issued(s.Submit(request), s.nextOperation + 1, request)
  {
    hide M.CancelAll;
  }

  /** Until the answer is there a tick of the row does nothing. */
  lemma CleanupWaits(h: Host, v: nat, op: nat, at: int, polled: bool, accepted: bool)
    requires Awaits(h, v, op) && op !in h.session.replies
    ensures Act(h, RowTick(v, at, polled, accepted)) == h
  {
  }

  /** Then the tick reads it, and the row is done exactly when the answer is success or staleness. */
  lemma AnswerIsRead(h: Host, v: nat, op: nat, at: int, polled: bool, accepted: bool)
    requires Awaits(h, v, op) && op in h.session.replies
    ensures var t := Act(h, RowTick(v, at, polled, accepted));
      var error := h.session.replies[op].error;
      && t.session == h.session && OnlyRow(h, t, v) && SameRow(h.registry.peers[v], t.registry.peers[v])
      && t.registry.peers[v].cleanup == None && t.registry.peers[v].status.cleanupError == error
      && (t.registry.peers[v].status.cleanupPending <==> Unsettled(error))
      && (!t.registry.peers[v].status.cleanupPending <==> error == M.NoError || error == M.StaleGeneration)
  {
  }

  /** A row that waits for no answer submits its removal. */
  lemma CleanupIsSubmitted(h: Host, v: nat, at: int, polled: bool, accepted: bool)
    requires Cleaning(h, v) && h.registry.peers[v].cleanup == None
    ensures var row, n := h.registry.peers[v], h.session.nextOperation + 1;
      var t := Act(h, RowTick(v, at, polled, accepted));
      && t.session.nextOperation == n
      && Issued(t.session, n, M.RemoveViewer(h.registry.sessionGeneration, row.status.viewer, row.status.generation))
      && OnlyRow(h, t, v) && SameRow(row, t.registry.peers[v]) && Awaits(t, v, n)
  {
    var row := h.registry.peers[v];
    SubmitIssues(h.session, M.RemoveViewer(h.registry.sessionGeneration, row.status.viewer, row.status.generation));
    hide M.Session.Submit;
  }

  predicate IsSessionStep(e: Event) { e.SessionStep? }

  lemma {:induction false} SessionSteps(h: Host, steps: seq<Event>)
    requires forall e :: e in steps ==> IsSessionStep(e)
    ensures Run(h, steps).registry == h.registry && Run(h, steps).policies == h.policies && Run(h, steps).calls == h.calls
    decreases |steps|
  {
    if steps != [] {
      assert IsSessionStep(steps[0]);
      hide S.Step;
      SessionSteps(Act(h, steps[0]), steps[1..]);
    }
  }

  lemma RunLast(h: Host, events: seq<Event>, e: Event)
    ensures Run(h, events + [e]) == Act(Run(h, events), e)
  {
    RunAppend(h, events, [e]);
    assert [e][1..] == [];
    hide Act;
  }

  /** An unsettled removal is tried again: whatever the session does in between, after two ticks of the row a new
      command of the same removal has been submitted, and the row waits for it. */
  lemma UnsettledIsRetried(h: Host, v: nat, op: nat, first: Event, steps: seq<Event>, second: Event)
    requires Awaits(h, v, op) && op in h.session.replies && Unsettled(h.session.replies[op].error)
    requires first.RowTick? && first.viewer == v && second.RowTick? && second.viewer == v
    requires forall e :: e in steps ==> IsSessionStep(e)
    ensures var row, m, t := h.registry.peers[v], Run(h, [first] + steps), Run(h, [first] + steps + [second]);
      && (steps == [] ==> m.session == h.session)
      && t.session.nextOperation == m.session.nextOperation + 1
      && Issued(t.session, t.session.nextOperation,
                M.RemoveViewer(h.registry.sessionGeneration, row.status.viewer, row.status.generation))
      && OnlyRow(h, t, v) && SameRow(row, t.registry.peers[v]) && Awaits(t, v, t.session.nextOperation)
  {
    AnswerIsRead(h, v, op, first.at, first.polled, first.accepted);
    var read := Act(h, first);
    RunAppend(h, [first], steps);
    assert Run(h, [first]) == read by { RunLast(h, [], first); assert [] + [first] == [first]; }
    SessionSteps(read, steps);
    var m := Run(read, steps);
    RunLast(h, [first] + steps, second);
    hide Act, Run;
    CleanupIsSubmitted(m, v, second.at, second.polled, second.accepted);
    hide Issued;
    RowsAgain(h, read, Act(m, second), v);
  }

  lemma RowsAgain(a: Host, b: Host, c: Host, v: nat)
    requires OnlyRow(a, b, v) && v in c.registry.peers
    requires c.registry == b.registry.(peers := b.registry.peers[v := c.registry.peers[v]])
    requires c.policies == b.policies && c.calls == b.calls
    ensures OnlyRow(a, c, v)
  {
  }

  /** After a settled answer the next tick lets a row go that was asked to: it is taken from the registry and its
      peer is released. A row nobody asked to remove stays, to show its end. */
  lemma SettledIsErased(h: Host, v: nat, op: nat, tick: Event)
    requires Awaits(h, v, op) && op in h.session.replies && tick.RowTick? && tick.viewer == v
    requires h.session.replies[op].error == M.NoError || h.session.replies[op].error == M.StaleGeneration
    ensures var row, t := h.registry.peers[v], Run(h, [tick] + [EraseRow(v)]);
      && t.session == h.session
      && (v in t.registry.peers <==> !row.removeRequested)
      && (row.removeRequested ==> t.registry.peers == h.registry.peers - {v} && t.CallsOf(row.peer) == h.CallsOf(row.peer) + [Released])
  {
    AnswerIsRead(h, v, op, tick.at, tick.polled, tick.accepted);
    var read := Act(h, tick);
    RunLast(h, [tick], EraseRow(v));
    RunLast(h, [], tick);
    assert [] + [tick] == [tick];
    assert read.registry.peers - {v} == h.registry.peers - {v};
    hide Run;
  }

  /** A removal asked of an open row, from request to disappearance: the registry submits it, an idle session
      answers it, and the next tick of the row lets the row and its peer go; nobody is subscribed for it then. */
  lemma RemovalCompletes(h: Host, v: nat, world: M.World, tick: Event)
    requires h.registry.bound && !h.registry.stopping && !h.registry.stopped
    requires v in h.registry.peers && !h.registry.peers[v].closed && h.registry.peers[v].cleanup.None?
    requires h.registry.peers[v].status.viewer == v
    requires P.Free(h.session) && world.fault.NoFault? && tick.RowTick? && tick.viewer == v
    ensures var row := h.registry.peers[v];
      var t := Run(h, [RemovePeer(v, row.status.generation)] + Turns(world) + [tick] + [EraseRow(v)]);
      && v !in t.registry.peers
      && t.CallsOf(row.peer) == h.CallsOf(row.peer) + [ShutDown] + [Released]
      && !(v in t.session.core.viewers && t.session.core.viewers[v] == row.status.generation
           && h.registry.sessionGeneration == t.session.core.current.generation)
  {
    var row := h.registry.peers[v];
    var request := M.RemoveViewer(h.registry.sessionGeneration, v, row.status.generation);
    var remove, op := RemovePeer(v, row.status.generation), h.session.nextOperation + 1;
    RemovalIsSubmitted(h, v);
    var a := Act(h, remove);
    RunLast(h, [], remove);
    assert [] + [remove] == [remove];
    RunAppend(h, [remove], Turns(world));
    TurnsServe(h, a, request, world);
    var b := Run(a, Turns(world));
    P.RemoveIsAnswered(h.session, h.registry.sessionGeneration, v, row.status.generation, world);
    ServedGeneration(h.session, request, world);
    RunAppend(h, [remove] + Turns(world), [tick] + [EraseRow(v)]);
    assert [remove] + Turns(world) + [tick] + [EraseRow(v)] == [remove] + Turns(world) + ([tick] + [EraseRow(v)]);
    hide Act, Run, P.Serve, P.Free, Turns;
    SettledIsErased(b, v, op, tick);
  }

  /** The worker takes a command up, performs it and answers. */
  function Turns(world: M.World): seq<Event> {
    [SessionStep(S.Taken), SessionStep(S.Performed(world)), SessionStep(S.Answered)]
  }

  lemma RemovalIsSubmitted(h: Host, v: nat)
    requires h.registry.bound && !h.registry.stopping && !h.registry.stopped
    requires v in h.registry.peers && !h.registry.peers[v].closed && h.registry.peers[v].cleanup.None?
    ensures var row := h.registry.peers[v];
      var request := M.RemoveViewer(h.registry.sessionGeneration, row.status.viewer, row.status.generation);
      var t := Act(h, RemovePeer(v, row.status.generation));
      && t.session == h.session.Submit(request) && t.registry == h.registry.(peers := t.registry.peers)
      && Awaits(t, v, h.session.nextOperation + 1) && t.registry.peers[v].peer == row.peer
      && t.registry.peers[v].removeRequested && t.CallsOf(row.peer) == h.CallsOf(row.peer) + [ShutDown]
  {
    var row := h.registry.peers[v];
    var asked := h.SetRow(v, row.(removeRequested := true));
    RowShut(asked, v);
    hide M.Session.Submit, Host.CloseEntry;
    UpdatedTwice(h.registry.peers, v, asked.registry.peers[v], asked.CloseEntry(v).registry.peers[v]);
  }

  lemma TurnsServe(h: Host, a: Host, request: M.Request, world: M.World)
    requires a.session == h.session.Submit(request)
    ensures Run(a, Turns(world)) == a.(session := P.Serve(h.session, request, world))
  {
    var s := a.session;
    P.RunFour(h.session, S.Submitted(request), S.Taken, S.Performed(world), S.Answered);
    var b := a.(session := s.Take());
    var c := b.(session := s.Take().Perform(world));
    var d := c.(session := s.Take().Perform(world).Answer());
    assert Act(a, SessionStep(S.Taken)) == b && Act(b, SessionStep(S.Performed(world))) == c && Act(c, SessionStep(S.Answered)) == d;
    hide Act, M.Session.Take, M.Session.Perform, M.Session.Answer, M.Session.Submit;
    RunLast(a, [], SessionStep(S.Taken));
    RunLast(a, [SessionStep(S.Taken)], SessionStep(S.Performed(world)));
    RunLast(a, [SessionStep(S.Taken), SessionStep(S.Performed(world))], SessionStep(S.Answered));
    assert [] + [SessionStep(S.Taken)] == [SessionStep(S.Taken)];
    assert [SessionStep(S.Taken)] + [SessionStep(S.Performed(world))] == [SessionStep(S.Taken), SessionStep(S.Performed(world))];
    assert [SessionStep(S.Taken), SessionStep(S.Performed(world))] + [SessionStep(S.Answered)] == Turns(world);
  }

  lemma ServedGeneration(s: M.Session, request: M.Request, world: M.World)
    requires P.Free(s) && world.fault.NoFault? && request.RemoveViewer?
    ensures P.Serve(s, request, world).core.current.generation == s.core.current.generation
  {
    var op := s.nextOperation + 1;
    var c := P.Marked(s.core, op);
    P.Served(s, request, world);
    P.MarkedSame(s.core, op, world.before);
    P.CleanTurn(c, request, world);
    P.RefreshIs(c, world.before);
    var ready := c.Refresh(world.before);
    P.RemoveRuns(ready, request.generation, request.viewer, request.connection);
    P.RefreshIs(ready.RunRemove(request.generation, request.viewer, request.connection).0, world.after);
    hide M.Core.Turn, M.Core.Refresh, M.Core.RunRemove, M.Core.Valid, S.Valid, P.Serve;
  }

  // ----- open rows -----

  /** What a row shows once it is closed, of the policy it had and of what went wrong. */
  predicate ShowsEnd(shown: Status, was: Status, policy: L.Policy, pending: bool) {
    && shown.peerClosed && shown.failure == policy.failure && shown.restartRevision == policy.restartRevision
    && shown.operationFailed == was.operationFailed && shown.restartDispatchFailed == was.restartDispatchFailed
    && shown.viewer == was.viewer && shown.generation == was.generation && shown.cleanupPending == pending
    && shown.state == if was.operationFailed || was.restartDispatchFailed || policy.state == L.Failed then L.Failed else L.Closed
  }

  /** The row is closed in place; its removal is submitted if there is a session to remove it from. */
  ghost predicate RowClosed(h: Host, t: Host, v: nat, was: Status, policy: L.Policy) {
    && v in h.registry.peers && v in t.registry.peers
    && t.registry == h.registry.(peers := h.registry.peers[v := t.registry.peers[v]])
    && t.registry.peers[v].closed && t.registry.peers[v].peer == h.registry.peers[v].peer
    && t.registry.peers[v].removeRequested == h.registry.peers[v].removeRequested
    && ShowsEnd(t.registry.peers[v].status, was, policy, h.registry.bound && !h.registry.stopped)
    && if h.registry.bound && !h.registry.stopped then
         t.session == h.session.Submit(M.RemoveViewer(h.registry.sessionGeneration, was.viewer, was.generation))
         && t.registry.peers[v].cleanup == Some(h.session.nextOperation + 1)
       else t.session == h.session
  }

  lemma FinalShows(status: Status, policy: L.Policy, pending: bool)
    ensures ShowsEnd(FinalStatus(status, policy).(peerClosed := true, cleanupPending := pending), status, policy, pending)
  {
  }

  lemma RowShut(h: Host, v: nat)
    requires v in h.registry.peers && !h.registry.peers[v].closed && h.registry.peers[v].cleanup.None?
    ensures var row := h.registry.peers[v];
      && RowClosed(h, h.CloseEntry(v), v, row.status, h.PolicyOf(row.peer))
      && h.CloseEntry(v).CallsOf(row.peer) == h.CallsOf(row.peer) + [ShutDown]
  {
    var row := h.registry.peers[v];
    FinalShows(row.status, h.PolicyOf(row.peer), h.registry.bound && !h.registry.stopped);
    hide M.Session.Submit, FinalStatus;
    UpdatedTwice(h.registry.peers, v, h.Shut(v).registry.peers[v], h.CloseEntry(v).registry.peers[v]);
    hide ShowsEnd;
  }

  lemma UpdatedTwice(rows: map<nat, Entry>, v: nat, a: Entry, b: Entry)
    ensures rows[v := a][v := b] == rows[v := b]
  {
  }

  /** A row marked before it is closed. */
  lemma MarkedShut(h: Host, called: Host, v: nat, marked: Entry)
    requires v in h.registry.peers && called.registry == h.registry && called.session == h.session && !marked.closed
    requires marked.cleanup.None? && marked.peer == h.registry.peers[v].peer
    requires marked.removeRequested == h.registry.peers[v].removeRequested
    ensures RowClosed(h, called.SetRow(v, marked).CloseEntry(v), v, marked.status, called.PolicyOf(marked.peer))
  {
    var noted := called.SetRow(v, marked);
    RowShut(noted, v);
    hide Host.CloseEntry, M.Session.Submit, ShowsEnd;
    UpdatedTwice(h.registry.peers, v, marked, noted.CloseEntry(v).registry.peers[v]);
  }

  /** When a tick closes an open row: its policy says so, polling it failed, or a due restart was not accepted; what
      the row shows then, and that its removal is submitted. */
  lemma RowCloses(h: Host, v: nat, at: int, polled: bool, accepted: bool)
    requires !h.registry.stopping && v in h.registry.peers && !h.registry.peers[v].closed && h.registry.peers[v].cleanup.None?
    ensures var row, t := h.registry.peers[v], Act(h, RowTick(v, at, polled, accepted));
      var (policy, action) := L.OnTick(h.PolicyOf(row.peer), at);
      if action == L.ClosePeer then RowClosed(h, t, v, row.status, policy)
      else if !polled then RowClosed(h, t, v, row.status.(operationFailed := true), policy)
      else if action == L.RestartIce && !accepted then RowClosed(h, t, v, row.status.(restartDispatchFailed := true), policy)
      else t.registry == h.registry && t.session == h.session
  {
    var row := h.registry.peers[v];
    var (policy, action) := L.OnTick(h.PolicyOf(row.peer), at);
    var ticked := h.(policies := h.policies[row.peer := policy]);
    hide L.OnTick, Host.CloseEntry, Host.PollRow, RowClosed;
    assert Act(h, RowTick(v, at, polled, accepted)) == h.TickRow(v, at, polled, accepted);
    assert ticked.PolicyOf(row.peer) == policy;
    SameRows(h, ticked, v);
    PollCloses(h, ticked, v, policy.restartRevision, action == L.RestartIce, at, polled, accepted);
    hide Act, Host.PolicyOf;
  }

  lemma PollCloses(h: Host, ticked: Host, v: nat, revision: nat, restart: bool, at: int, polled: bool, accepted: bool)
    requires h.registry == ticked.registry && h.session == ticked.session
    requires v in h.registry.peers && !h.registry.peers[v].closed && h.registry.peers[v].cleanup.None?
    ensures var row, t := h.registry.peers[v], ticked.PollRow(v, revision, restart, at, polled, accepted);
      var policy := ticked.PolicyOf(row.peer);
      if !polled then RowClosed(h, t, v, row.status.(operationFailed := true), policy)
      else if restart && !accepted then RowClosed(h, t, v, row.status.(restartDispatchFailed := true), policy)
      else t.registry == h.registry && t.session == h.session
  {
    var row := h.registry.peers[v];
    var called := ticked.Called(row.peer, Polled);
    var sent := called.Called(row.peer, Restarted(revision, at));
    MarkedShut(h, called, v, row.(status := row.status.(operationFailed := true)));
    MarkedShut(h, sent, v, row.(status := row.status.(restartDispatchFailed := true)));
    hide Host.CloseEntry, RowClosed;
  }

  lemma SameRows(h: Host, ticked: Host, v: nat)
    requires h.registry == ticked.registry && h.session == ticked.session
    requires v in h.registry.peers && !h.registry.peers[v].closed && h.registry.peers[v].cleanup.None?
    ensures RowClosed(h, ticked.CloseEntry(v), v, h.registry.peers[v].status, ticked.PolicyOf(h.registry.peers[v].peer))
  {
    RowShut(ticked, v);
    hide Host.CloseEntry, M.Session.Submit, ShowsEnd;
  }

  // ----- accepting -----

  /** A peer is taken exactly while the registry is not stopping, under a viewer that is not zero and has no row,
      with fewer than 63 rows, and above every generation before it; then it has an open, connecting row. */
  lemma AddIsAccepted(h: Host, v: nat, p: nat)
    ensures var generation, t := h.PolicyOf(p).generation, Act(h, AddPeer(v, Some(p)));
      && (h.Add(v, Some(p)).1 <==>
            && !h.registry.stopping && !h.registry.stopped && v != 0 && v !in h.registry.peers
            && |h.registry.peers| < 63 && generation > h.registry.lastGeneration)
      && (if h.Add(v, Some(p)).1 then
            && v in t.registry.peers && t.registry.lastGeneration == generation
            && (forall u :: u in h.registry.peers ==> u in t.registry.peers && t.registry.peers[u] == h.registry.peers[u])
            && t.registry.peers[v].peer == p && !t.registry.peers[v].closed && !t.registry.peers[v].removeRequested
            && t.registry.peers[v].status.viewer == v && t.registry.peers[v].status.generation == generation
          else t.registry == h.registry && t.CallsOf(p) == h.CallsOf(p) + [ShutDown] + [Released])
  {
  }

  /** A restart is asked of the policy exactly for an open row of that generation while the registry is not stopping. */
  lemma RestartReachesPeer(h: Host, v: nat, generation: nat, at: int)
    ensures var (t, accepted) := h.RequestRestart(v, generation, at);
      var open := !h.registry.stopping && !h.registry.stopped && v in h.registry.peers && !h.registry.peers[v].closed
                  && h.registry.peers[v].status.generation == generation;
      && (accepted <==> open && L.OnDisconnected(h.PolicyOf(h.registry.peers[v].peer), generation, at).1)
      && (open ==> t.PolicyOf(h.registry.peers[v].peer) == L.OnDisconnected(h.PolicyOf(h.registry.peers[v].peer), generation, at).0)
      && (!open ==> t == h)
  {
    hide L.OnDisconnected;
  }

  // ----- shutting down -----

  lemma {:induction false} ShutRowsQuiet(h: Host, todo: set<nat>)
    requires h.registry.stopped && todo <= h.registry.peers.Keys
    ensures var t := h.ShutRows(todo);
      t.session == h.session && t.registry.stopped && t.registry.stopping == h.registry.stopping
    decreases |todo|
  {
    if todo != {} {
      var v := M.Smallest(todo);
      CloseKeepsRows(h, v);
      CloseQuiet(h, v);
      hide Host.CloseEntry;
      ShutRowsQuiet(h.CloseEntry(v), todo - {v});
    }
  }

  lemma CloseQuiet(h: Host, v: nat)
    requires h.registry.stopped && v in h.registry.peers
    ensures var t := h.CloseEntry(v);
      t.session == h.session && t.registry.stopped && t.registry.stopping == h.registry.stopping
  {
    hide FinalStatus;
  }

  /** A poll of the shutdown waits for the stop's answer; once that has settled every row and peer is gone; an
      answer that has not settled is kept, and polling again changes nothing. */
  lemma ShutdownPolls(h: Host)
    requires !h.registry.stopped
    ensures var t, asked := h.PollStop(), h.registry.stopCapture;
      var error := if asked.Some? && asked.value in h.session.replies then h.session.replies[asked.value].error else h.registry.stopError;
      if asked.Some? && asked.value !in h.session.replies then t == h
      else if error == M.NoError || error == M.StaleGeneration then
        t.registry.stopped && t.registry.stopping == h.registry.stopping && t.registry.peers == map[] && t.session == h.session
      else
        t == h.(registry := h.registry.(stopError := error, stopCapture := None)) && t.PollStop() == t
  {
    var read := h.ReadStop();
    if read.registry.stopCapture.None? && M.Settled(read.registry.stopError) {
      var marked := read.(registry := read.registry.(stopped := true));
      ShutRowsQuiet(marked, marked.registry.peers.Keys);
      hide Host.ShutRows;
    }
  }

  /** Shutdown begins with the submission of a stop for the registry's session; without a session it is done at once. */
  lemma ShutdownBegins(h: Host)
    requires !h.registry.stopping && !h.registry.stopped && h.registry.stopCapture.None? && h.registry.stopError == M.NoError
    ensures var t, request, n := Act(h, BeginStop), M.Stop(h.registry.sessionGeneration), h.session.nextOperation + 1;
      && t.registry.stopping
      && (h.registry.bound ==> t.session == h.session.Submit(request))
      && (h.registry.bound && n !in t.session.replies ==>
            t.registry.stopCapture == Some(n) && M.Command(n, request) in t.session.queue && t.registry.peers == h.registry.peers)
      && (!h.registry.bound ==> t.registry.stopped && t.registry.peers == map[] && t.session == h.session)
  {
    var stopping := h.(registry := h.registry.(stopping := true));
    var request := M.Stop(h.registry.sessionGeneration);
    SubmitIssues(h.session, request);
    hide M.Session.Submit;
    ShutdownPolls(stopping);
    var n := h.session.nextOperation + 1;
    ShutdownPolls(stopping.(registry := stopping.registry.(stopCapture := Some(n)), session := h.session.Submit(request)));
    hide Host.PollStop;
  }

  /** A stop that did not settle is tried again by an explicit stop, and only by that. */
  lemma StopIsRetried(h: Host)
    requires h.registry.bound && h.registry.stopping && !h.registry.stopped && h.registry.stopCapture.None?
    requires Unsettled(h.registry.stopError)
    ensures var t := Act(h, StopAgain);
      && t.session == h.session.Submit(M.Stop(h.registry.sessionGeneration))
      && t.session.nextOperation == h.session.nextOperation + 1
      && Issued(t.session, t.session.nextOperation, M.Stop(h.registry.sessionGeneration))
    ensures Act(h, PollStop) == h && Act(h, BeginStop) == h
  {
    var again := h.(registry := h.registry.(stopping := false, stopError := M.NoError));
    SubmitIssues(h.session, M.Stop(h.registry.sessionGeneration));
    ShutdownBegins(again);
    ShutdownPolls(h);
    assert Act(h, StopAgain) == again.BeginStop() && Act(again, BeginStop) == again.BeginStop();
    hide M.Session.Submit, Issued, Host.BeginStop, Host.StopAgain;
  }
}
