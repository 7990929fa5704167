/** A run of the program from its very beginning in which a subscription outlives the row of its peer,
    because it is asked for after the peer was closed. */
module HostWitness {
  import opened Bytes
  import opened HostPeerRegistry
  import opened HostRuns
  import opened HostSafety
  import opened SubscriptionSafety
  import L = PeerLifecycle
  import M = HostMediaSession
  import S = SessionRuns

  const CALM_REPORT := M.Report(M.CaptureRunning, {})
  const CALM := M.World(CALM_REPORT, CALM_REPORT, M.NoFault)
  const LIVE := M.Snapshot(M.WaitingForViewers, 1, 0, 0, 0, 0)
  const WATCHED := Incarnation(1, 1, 1)

  const START := M.Start(true)
  const REMOVE := M.RemoveViewer(1, 1, 1)
  const ADD := M.AddViewer(1, 1, 1, true)

  /** A registry and a capture session as they are built; the registry is for the session's first generation. */
  const BEGIN := Host(Registry(map[], 0, false, false, M.NoError, None, true, 1), M.FRESH, map[], map[])

  /** One command through the worker. */
  function Executed(s: M.Session, request: M.Request): M.Session {
    s.Submit(request).Take().Perform(CALM).Answer()
  }

  function Ready(operations: nat, replies: map<nat, M.OperationResult>): M.Session {
    M.Session([], LIVE, operations, false, false, M.Core(LIVE, true, Some({}), map[], 0), None, None, replies)
  }

  const STARTED := Ready(1, map[1 := M.OperationResult(1, 1, M.NoError)])
  const CONFIRMED := Ready(2, map[1 := M.OperationResult(1, 1, M.NoError), 2 := M.OperationResult(2, 1, M.NoError)])

  // ----- the capture session -----

  lemma CalmRefresh(c: M.Core)
    requires c.capture && c.viewers == map[] && c.distribution == Some({}) && c.current.viewerCount == 0
    ensures c.Refresh(CALM_REPORT) == c.WithState(M.WaitingForViewers)
  {
    var seen := c.Observed(M.CaptureRunning);
    assert {} * seen.viewers.Keys == {};
    M.WithoutNone(seen);
  }

  lemma Takes(s: M.Session, request: M.Request)
    requires s.queue == [] && s.active.None? && !s.closing && !s.exited && !request.Stop?
    ensures var op := s.nextOperation + 1;
      var busy := s.core.(current := s.core.current.(activeOperation := op));
      s.Submit(request).Take() == s.(nextOperation := op, active := Some(M.Command(op, request)), outcome := None, core := busy, published := busy.current)
  {
    var op := s.nextOperation + 1;
    assert s.Submit(request) == s.(nextOperation := op, queue := [] + [M.Command(op, request)]);
    assert ([] + [M.Command(op, request)])[1..] == [];
    hide M.CancelAll, M.Session.Submit;
  }

  lemma Starts()
    ensures Executed(M.FRESH, START) == STARTED
  {
    Takes(M.FRESH, START);
    var busy := M.FRESH.core.(current := M.IDLE.(activeOperation := 1));
    assert busy.Refresh(CALM_REPORT) == busy;
    var ran := busy.Run(START).0;
    assert ran == M.Core(M.Snapshot(M.Starting, 1, 0, 0, 0, 0), true, Some({}), map[], 0);
    CalmRefresh(ran);
    hide M.Core.Refresh, M.Core.Run, M.Session.Submit, M.Session.Take;
    assert busy.Turn(Some(START), CALM) == (ran.WithState(M.WaitingForViewers), M.NoError);
  }

  lemma Removes()
    ensures Executed(STARTED, REMOVE) == CONFIRMED
  {
    Takes(STARTED, REMOVE);
    var busy := STARTED.core.(current := LIVE.(activeOperation := 2));
    CalmRefresh(busy);
    assert busy.WithState(M.WaitingForViewers) == busy;
    var none: map<nat, nat> := map[];
    assert none - {1} == none;
    assert busy.Run(REMOVE) == (busy, M.NoError);
    hide M.Core.Refresh, M.Core.Run, M.Session.Submit, M.Session.Take;
    assert busy.Turn(Some(REMOVE), CALM) == (busy, M.NoError);
  }

  lemma AddsAgain()
    ensures Subscribed(CONFIRMED.Submit(ADD).Take().Perform(CALM).core, WATCHED)
  {
    Takes(CONFIRMED, ADD);
    var busy := CONFIRMED.core.(current := LIVE.(activeOperation := 3));
    CalmRefresh(busy);
    var ran := busy.WithState(M.WaitingForViewers).Run(ADD).0;
    assert ran.viewers == map[1 := 1] && ran.capture && ran.distribution == Some({1});
    var seen := ran.Observed(M.CaptureRunning);
    assert {} * seen.viewers.Keys == {};
    M.WithoutNone(seen);
    assert ran.Refresh(CALM_REPORT).viewers == map[1 := 1] && ran.Refresh(CALM_REPORT).current.generation == 1;
    hide M.Core.Refresh, M.Core.Run, M.Session.Submit, M.Session.Take;
    assert busy.Turn(Some(ADD), CALM).0 == ran.Refresh(CALM_REPORT);
  }

  // ----- the registry -----

  const POLICY := L.Initial(1, 0)

  /** The first viewer's row: taken, closed with its cleanup submitted, and with its cleanup confirmed. */
  const TAKEN := NewEntry(1, 1, 7)
  const CLOSED_ROW := Entry(7, Status(1, 1, 0, L.Closed, L.NoFailure, false, false, true, true, M.NoError), true, true, Some(2))
  const CLEAN_ROW := CLOSED_ROW.(cleanup := None, status := CLOSED_ROW.status.(cleanupPending := false))

  function With(row: Entry, session: M.Session, policy: L.Policy, calls: seq<PeerCall>): Host {
    Host(BEGIN.registry.(peers := map[1 := row], lastGeneration := 1), session, map[7 := policy], map[7 := calls])
  }

  lemma Hands()
    ensures var given := BEGIN.(session := STARTED, policies := map[7 := POLICY]);
      Act(Act(BEGIN.(session := STARTED), NewPeer(7, 1, 0)), AddPeer(1, Some(7))) == With(TAKEN, STARTED, POLICY, [])
  {
  }

  lemma ClosesRow()
    ensures Act(With(TAKEN, STARTED, POLICY, []), RemovePeer(1, 1)) ==
            With(CLOSED_ROW, STARTED.Submit(REMOVE), POLICY.(state := L.Closed), [ShutDown])
  {
    hide M.Session.Submit;
    var h := With(TAKEN, STARTED, POLICY, []);
    var entry := TAKEN.(removeRequested := true);
    var g := h.SetRow(1, entry);
    assert g.registry.peers == map[1 := entry];
    var shut := g.Shut(1);
    var closed := CLOSED_ROW.(cleanup := None);
    assert [] + [ShutDown] == [ShutDown];
    assert shut == With(closed, STARTED, POLICY.(state := L.Closed), [ShutDown]);
    assert shut.PollCleanup(1) == With(CLOSED_ROW, STARTED.Submit(REMOVE), POLICY.(state := L.Closed), [ShutDown]);
    assert g.CloseEntry(1) == shut.PollCleanup(1);
  }

  lemma ReadsReply()
    ensures Act(With(CLOSED_ROW, CONFIRMED, POLICY.(state := L.Closed), [ShutDown]), RowTick(1, 0, true, true)) ==
            With(CLEAN_ROW, CONFIRMED, POLICY.(state := L.Closed), [ShutDown])
  {
    hide M.Session.Submit;
  }

  lemma ErasesRow(h: Host)
    requires h.registry.peers == map[1 := CLEAN_ROW] && !h.registry.stopping
    ensures Act(h, EraseRow(1)) == h.Erase(1) && 1 !in h.Erase(1).registry.peers && h.Erase(1).session == h.session
  {
    assert h.Removable(1);
  }

  // ----- the run -----

  const TURN: seq<Event> := [SessionStep(S.Taken), SessionStep(S.Performed(CALM))]
  const SERVE: seq<Event> := TURN + [SessionStep(S.Answered)]
  const STARTING: seq<Event> := [SessionStep(S.Submitted(START))] + SERVE
  const HANDING: seq<Event> := [NewPeer(7, 1, 0)] + [AddPeer(1, Some(7))]
  const REMOVING: seq<Event> := [RemovePeer(1, 1)] + SERVE + [RowTick(1, 0, true, true)]
  const LATE: seq<Event> := [SessionStep(S.Submitted(ADD))] + TURN + [EraseRow(1)]

  lemma RunOne(h: Host, e: Event)
    ensures HostRuns.Run(h, [e]) == Act(h, e)
  {
    hide Act;
    assert [e][1..] == [];
  }

  lemma RunTurn(h: Host)
    ensures HostRuns.Run(h, TURN) == h.(session := h.session.Take().Perform(CALM))
    ensures HostRuns.Run(h, SERVE) == h.(session := h.session.Take().Perform(CALM).Answer())
  {
    hide M.Session.Take, M.Session.Perform, M.Session.Answer;
    var a, b, c := SessionStep(S.Taken), SessionStep(S.Performed(CALM)), SessionStep(S.Answered);
    assert TURN == [a] + [b];
    RunOne(h, a);
    RunOne(Act(h, a), b);
    RunAppend(h, [a], [b]);
    RunOne(Act(Act(h, a), b), c);
    RunAppend(h, TURN, [c]);
    hide HostRuns.Run;
  }

  lemma RunSubmitted(h: Host, request: M.Request)
    ensures HostRuns.Run(h, [SessionStep(S.Submitted(request))] + TURN) == h.(session := h.session.Submit(request).Take().Perform(CALM))
    ensures HostRuns.Run(h, [SessionStep(S.Submitted(request))] + SERVE) == h.(session := Executed(h.session, request))
  {
    hide M.Session.Take, M.Session.Perform, M.Session.Answer, M.Session.Submit;
    var e := SessionStep(S.Submitted(request));
    RunOne(h, e);
    RunTurn(Act(h, e));
    RunAppend(h, [e], TURN);
    RunAppend(h, [e], SERVE);
    hide HostRuns.Run;
  }

  const HELD := BEGIN.(session := STARTED)
  const CLEANED := With(CLEAN_ROW, CONFIRMED, POLICY.(state := L.Closed), [ShutDown])

  lemma RunStarting()
    ensures HostRuns.Run(BEGIN, STARTING) == HELD
  {
    Starts();
    RunSubmitted(BEGIN, START);
    hide HostRuns.Run, Executed;
  }

  lemma RunRemoving()
    ensures HostRuns.Run(HELD, HANDING + REMOVING) == CLEANED
  {
    Hands();
    ClosesRow();
    Removes();
    ReadsReply();
    hide Act, With, M.Session.Submit, M.Session.Take, M.Session.Perform, M.Session.Answer;
    var taken := With(TAKEN, STARTED, POLICY, []);
    RunOne(HELD, NewPeer(7, 1, 0));
    RunOne(Act(HELD, NewPeer(7, 1, 0)), AddPeer(1, Some(7)));
    RunAppend(HELD, [NewPeer(7, 1, 0)], [AddPeer(1, Some(7))]);
    RunAppend(HELD, HANDING, REMOVING);
    var closed := Act(taken, RemovePeer(1, 1));
    RunOne(taken, RemovePeer(1, 1));
    RunTurn(closed);
    WithSession(CLOSED_ROW, STARTED.Submit(REMOVE), CONFIRMED);
    RunAppend(taken, [RemovePeer(1, 1)], SERVE);
    var served := With(CLOSED_ROW, CONFIRMED, POLICY.(state := L.Closed), [ShutDown]);
    RunOne(served, RowTick(1, 0, true, true));
    RunAppend(taken, [RemovePeer(1, 1)] + SERVE, [RowTick(1, 0, true, true)]);
    hide HostRuns.Run;
  }

  lemma WithSession(row: Entry, a: M.Session, b: M.Session)
    ensures var h := With(row, a, POLICY.(state := L.Closed), [ShutDown]);
      h.session == a && h.(session := b) == With(row, b, POLICY.(state := L.Closed), [ShutDown])
  {
  }

  lemma RunLate()
    ensures var t := HostRuns.Run(CLEANED, LATE);
      1 !in t.registry.peers && Subscribed(t.session.core, WATCHED)
  {
    AddsAgain();
    RunSubmitted(CLEANED, ADD);
    var asked := CLEANED.(session := CONFIRMED.Submit(ADD).Take().Perform(CALM));
    ErasesRow(asked);
    RunOne(asked, EraseRow(1));
    RunAppend(CLEANED, [SessionStep(S.Submitted(ADD))] + TURN, [EraseRow(1)]);
    hide HostRuns.Run, Act, Subscribed, M.Session.Submit, M.Session.Take, M.Session.Perform;
  }

  /** From the beginning: started, a viewer taken and removed, its cleanup confirmed; then a subscription is asked
      for, granted, and still there when the row is gone. */
  lemma LateSubscriptionSurvives()
    ensures var t := HostRuns.Run(BEGIN, STARTING + (HANDING + REMOVING) + LATE);
      1 !in t.registry.peers && Subscribed(t.session.core, WATCHED)
  {
    RunStarting();
    RunRemoving();
    RunLate();
    RunAppend(BEGIN, STARTING, HANDING + REMOVING);
    RunAppend(BEGIN, STARTING + (HANDING + REMOVING), LATE);
    hide HostRuns.Run, Subscribed;
  }

  // ----- only the last part breaks the rule -----

  lemma AllowedOne(w: World, e: Event, i: Incarnation)
    ensures AllowedRun(w, [e], i) <==> Allowed(w, e, i)
    ensures HostSafety.Run(w, [e]) == HostSafety.Step(w, e)
  {
    hide Allowed, HostSafety.Step;
    assert [e][1..] == [];
  }

  lemma {:induction false} AllowedAppend(w: World, a: seq<Event>, b: seq<Event>, i: Incarnation)
    ensures AllowedRun(w, a + b, i) <==> AllowedRun(w, a, i) && AllowedRun(HostSafety.Run(w, a), b, i)
    decreases |a|
  {
    hide HostSafety.Step, Allowed;
    if a == [] {
      assert a + b == b;
    } else {
      assert (a + b)[1..] == a[1..] + b;
      AllowedAppend(HostSafety.Step(w, a[0]), a[1..], b, i);
    }
  }

  lemma HandingIsAllowed(w: World)
    requires w.host == HELD
    ensures AllowedRun(w, HANDING, WATCHED)
  {
    var a, b := NewPeer(7, 1, 0), AddPeer(1, Some(7));
    var next := HostSafety.Step(w, a);
    assert next.host == HELD.(policies := map[7 := POLICY]);
    assert Allowed(w, a, WATCHED) && Allowed(next, b, WATCHED);
    hide HostSafety.Step, Act, Allowed, HostSafety.Run, AllowedRun;
    AllowedOne(w, a, WATCHED);
    AllowedOne(next, b, WATCHED);
    AllowedAppend(w, [a], [b], WATCHED);
  }

  lemma RemovingIsQuiet()
    ensures Quiet(REMOVING)
  {
    assert REMOVING == [RemovePeer(1, 1), SessionStep(S.Taken), SessionStep(S.Performed(CALM)), SessionStep(S.Answered), RowTick(1, 0, true, true)];
  }

  lemma CleanedIsRetired(w: World)
    requires w.host == CLEANED && Safe(w, WATCHED)
    ensures WATCHED in w.retired && AsksLate(w, LATE[0], WATCHED)
  {
    assert RowIncarnation(CLEANED, 1) == WATCHED && 1 in CLEANED.registry.peers && CLEANED.registry.peers[1].closed;
    hide StopSafe, RowsSafe;
    ClosedIsRetired(w.host, w.retired, 1, WATCHED);
  }

  /** Up to the confirmed cleanup the run is allowed and safe; the next event is the one that asks late. */
  lemma SafeUntilAskedLate()
    ensures AllowedRun(World(HELD, {}), HANDING + REMOVING, WATCHED)
    ensures var w := HostSafety.Run(World(HELD, {}), HANDING + REMOVING);
      w.host == CLEANED && Safe(w, WATCHED) && AsksLate(w, LATE[0], WATCHED)
  {
    hide HostSafety.Run, HostRuns.Run, AllowedRun, Safe, Quiet, AsksLate, With;
    var w := World(HELD, {});
    StartedIsSafe();
    HandingIsAllowed(w);
    RemovingIsQuiet();
    QuietIsAllowed(HostSafety.Run(w, HANDING), REMOVING, WATCHED);
    AllowedAppend(w, HANDING, REMOVING, WATCHED);
    RunSafe(w, HANDING + REMOVING, WATCHED);
    RunRemoving();
    RunHost(w, HANDING + REMOVING);
    CleanedIsRetired(HostSafety.Run(w, HANDING + REMOVING));
  }

  lemma StartedIsSafe()
    ensures Safe(World(HELD, {}), WATCHED)
  {
    assert S.Valid(STARTED) by {
      forall op: nat ensures S.Places(STARTED.replies, [], None, op) == if 1 <= op <= 1 then 1 else 0 {
      }
    }
    assert Fifo(STARTED);
    hide S.Valid, Fifo;
    InitiallySafe(HELD, WATCHED);
  }
}
