/** The roster over whole runs: hook discipline for each id, and convergence of the membership. */
module RosterRuns {
  import opened Bytes
  import opened RoomPeerRoster

  datatype Event =
    | Snapshot(generation: nat, revision: nat, peers: seq<string>, hooks: Hooks)
    | Retry(hooks: Hooks)
    | Loss(generation: nat)
    | Fail(id: string)
    | Destroy

  const EMPTY := Roster(map[], {}, 0, None, false)

  function Step(r: Roster, e: Event): Roster {
    match e
    case Snapshot(g, rev, peers, hooks) => r.Apply(g, rev, peers, hooks).0
    case Retry(hooks) => r.Retried(hooks)
    case Loss(g) => r.Lost(g)
    case Fail(id) => r.FailedPeer(id)
    case Destroy => r.Cleared()
  }

  /** The calls one event makes for one id: what the methods of the roster promise. */
  function Calls(r: Roster, e: Event, id: string): seq<Call> {
    match e
    case Snapshot(g, rev, peers, hooks) => ApplyCalls(r, g, rev, peers, hooks, id)
    case Retry(hooks) => RetryCalls(r.StatusOf(id), hooks, id)
    case Loss(g) => if g < r.generation then [] else LeaveCalls(r.StatusOf(id), id)
    case Fail(peer) => if id == peer && r.StatusOf(id).Active? then [Removed(id)] else []
    case Destroy => LeaveCalls(r.StatusOf(id), id)
  }

  function Run(events: seq<Event>): Roster {
    if events == [] then EMPTY else Step(Run(events[..|events| - 1]), events[|events| - 1])
  }

  function Trace(events: seq<Event>, id: string): seq<Call> {
    if events == [] then []
    else Trace(events[..|events| - 1], id) + Calls(Run(events[..|events| - 1]), events[|events| - 1], id)
  }

  // ----- hook discipline -----

  /** The only order in which an id may meet the hooks; None when a call breaks it. */
  function Walk(s: Option<Status>, calls: seq<Call>): Option<Status>
    decreases |calls|
  {
    if calls == [] || s.None? then s else Walk(After(s.value, calls[0]), calls[1..])
  }

  function After(s: Status, c: Call): Option<Status> {
    match c
    case Joined(_) => if s.Absent? then Some(Pending) else None
    case Added(_, ok) => if s.Pending? then Some(if ok then Active else Failed) else None
    case Removed(_) => if s.Active? then Some(Failed) else None
    case Left(_) => if s.Pending? || s.Failed? then Some(Absent) else None
  }

  lemma {:induction false} WalkAppend(s: Option<Status>, a: seq<Call>, b: seq<Call>)
    ensures Walk(s, a + b) == Walk(Walk(s, a), b)
    decreases |a|
  {
    if a == [] || s.None? {
      assert a == [] ==> a + b == b;
    } else {
      assert (a + b)[1..] == a[1..] + b;
      WalkAppend(After(s.value, a[0]), a[1..], b);
    }
  }

  lemma LeaveWalk(s: Status, id: string)
    ensures Walk(Some(s), LeaveCalls(s, id)) == Some(Absent)
  {
    match s
    case Absent =>
    case Active =>
      assert [Removed(id), Left(id)][1..] == [Left(id)];
      assert Walk(Some(Failed), [Left(id)]) == Walk(Some(Absent), [Left(id)][1..]);
    case _ =>
      assert Walk(Some(s), [Left(id)]) == Walk(Some(Absent), [Left(id)][1..]);
  }

  lemma OneWalk(s: Status, c: Call)
    ensures Walk(Some(s), [c]) == After(s, c)
  {
    assert [c][1..] == [];
  }

  lemma JoinWalk(r: Roster, members: set<string>, member: bool, id: string)
    requires member == (id in members)
    ensures Walk(Some(r.StatusOf(id)), JoinCalls(r.StatusOf(id), member, id)) == Some(r.Joining(members).StatusOf(id))
  {
    LeaveWalk(r.StatusOf(id), id);
    OneWalk(Absent, Joined(id));
  }

  lemma RetryWalk(r: Roster, hooks: Hooks, id: string)
    requires r.Valid()
    ensures Walk(Some(r.StatusOf(id)), RetryCalls(r.StatusOf(id), hooks, id)) == Some(r.Retried(hooks).StatusOf(id))
  {
    OneWalk(Pending, Added(id, id in hooks.accepts));
  }

  lemma ApplyWalk(r: Roster, g: nat, rev: nat, peers: seq<string>, hooks: Hooks, id: string)
    requires r.Valid()
    ensures Walk(Some(r.StatusOf(id)), ApplyCalls(r, g, rev, peers, hooks, id)) ==
            Some(r.Apply(g, rev, peers, hooks).0.StatusOf(id))
  {
    if ValidSnapshot(g, peers) && !r.Stale(g, rev) {
      var renewed := r.Renewed(g);
      var joined := renewed.Joining(Members(peers));
      var a := if g > r.generation then LeaveCalls(r.StatusOf(id), id) else [];
      var b := JoinCalls(renewed.StatusOf(id), id in peers, id);
      var c := RetryCalls(joined.StatusOf(id), hooks, id);
      LeaveWalk(r.StatusOf(id), id);
      assert Walk(Some(r.StatusOf(id)), a) == Some(renewed.StatusOf(id));
      WalkAppend(Some(r.StatusOf(id)), a, b);
      JoinWalk(renewed, Members(peers), id in peers, id);
      WalkAppend(Some(r.StatusOf(id)), a + b, c);
      RetryWalk(joined, hooks, id);
    }
  }

  lemma StepWalk(r: Roster, e: Event, id: string)
    requires r.Valid()
    ensures Step(r, e).Valid()
    ensures Walk(Some(r.StatusOf(id)), Calls(r, e, id)) == Some(Step(r, e).StatusOf(id))
  {
    match e
    case Snapshot(g, rev, peers, hooks) => ApplyWalk(r, g, rev, peers, hooks, id);
    case Retry(hooks) => RetryWalk(r, hooks, id);
    case Loss(g) => LeaveWalk(r.StatusOf(id), id);
    case Fail(peer) => OneWalk(Active, Removed(id));
    case Destroy => LeaveWalk(r.StatusOf(id), id);
  }

  /** Every run obeys the order, for every id, and the roster knows where each id stands in it. */
  lemma {:induction false} Discipline(events: seq<Event>, id: string)
    ensures Run(events).Valid()
    ensures Walk(Some(Absent), Trace(events, id)) == Some(Run(events).StatusOf(id))
  {
    if events != [] {
      var init, last := events[..|events| - 1], events[|events| - 1];
      Discipline(init, id);
      StepWalk(Run(init), last, id);
      WalkAppend(Some(Absent), Trace(init, id), Calls(Run(init), last, id));
    }
  }

  function Count(calls: seq<Call>, removed: bool): nat {
    if calls == [] then 0
    else Count(calls[1..], removed) +
         if (removed && calls[0].Removed?) || (!removed && calls[0].Added? && calls[0].ok) then 1 else 0
  }

  lemma {:induction false} Balance(s: Status, calls: seq<Call>)
    requires Walk(Some(s), calls).Some?
    ensures var t := Walk(Some(s), calls).value;
      Count(calls, false) + (if s.Active? then 1 else 0) == Count(calls, true) + (if t.Active? then 1 else 0)
    decreases |calls|
  {
    if calls != [] {
      Balance(After(s, calls[0]).value, calls[1..]);
    }
  }

  /** Successful adds and removes pair up, but for a peer still active; destruction settles all of them. */
  lemma AddsMatchRemoves(events: seq<Event>, id: string)
    ensures Count(Trace(events, id), false) ==
            Count(Trace(events, id), true) + if Run(events).StatusOf(id).Active? then 1 else 0
    ensures Count(Trace(events + [Destroy], id), false) == Count(Trace(events + [Destroy], id), true)
  {
    Discipline(events, id);
    Balance(Absent, Trace(events, id));
    Discipline(events + [Destroy], id);
    Balance(Absent, Trace(events + [Destroy], id));
  }

  lemma {:induction false} WalkAt(s: Status, calls: seq<Call>, i: nat) returns (t: Status)
    requires Walk(Some(s), calls).Some? && i < |calls|
    ensures Walk(Some(s), calls[..i]) == Some(t) && After(t, calls[i]).Some?
    ensures Walk(After(t, calls[i]), calls[i + 1..]).Some?
  {
    assert calls == calls[..i] + calls[i..];
    WalkAppend(Some(s), calls[..i], calls[i..]);
    var reached := Walk(Some(s), calls[..i]);
    t := reached.value;
    assert calls[i..][1..] == calls[i + 1..];
  }

  /** Until an id leaves, a failed one meets no hook at all. */
  lemma {:induction false} FailedWaits(calls: seq<Call>, j: nat)
    requires Walk(Some(Failed), calls).Some? && j < |calls| && forall k :: 0 <= k < j ==> !calls[k].Left?
    ensures calls[j].Left? && j == 0
  {
    var t := WalkAt(Failed, calls, 0);
    assert calls[..0] == [];
    assert calls[0].Left?;
  }

  /** A failed add is tried again only after the id left: by leave, newer generation or transport loss. */
  lemma FailedAddWaits(events: seq<Event>, id: string, i: nat, j: nat)
    requires i < j < |Trace(events, id)|
    requires Trace(events, id)[i].Added? && !Trace(events, id)[i].ok && Trace(events, id)[j].Added?
    ensures Trace(events, id)[i + 1].Left?
  {
    Discipline(events, id);
    var calls := Trace(events, id);
    var t := WalkAt(Absent, calls, i);
    FailedWaits(calls[i + 1..], 0);
  }

  /** An id leaves only when the event drops it from the membership or resets the roster. */
  lemma LeavingIsAuthoritative(r: Roster, e: Event, id: string)
    requires exists k :: 0 <= k < |Calls(r, e, id)| && Calls(r, e, id)[k].Left?
    ensures id !in Step(r, e).active || (e.Snapshot? && e.generation > r.generation)
  {
  }

  // ----- convergence -----

  /** Where an authoritative event stands: a loss is above every revision of its generation. */
  datatype Stamp = Stamp(generation: nat, lost: bool, revision: int)

  predicate Below(a: Stamp, b: Stamp) {
    a.generation < b.generation ||
    (a.generation == b.generation && ((!a.lost && b.lost) || (!a.lost && !b.lost && a.revision < b.revision)))
  }

  predicate Authoritative(e: Event) {
    e.Loss? || (e.Snapshot? && ValidSnapshot(e.generation, e.peers))
  }

  function StampOf(e: Event): Stamp
    requires Authoritative(e)
  {
    if e.Loss? then Stamp(e.generation, true, 0) else Stamp(e.generation, false, e.revision)
  }

  function MembersOf(e: Event): set<string> {
    if e.Snapshot? then Members(e.peers) else {}
  }

  /** Where the roster stands. */
  function Standing(r: Roster): Stamp {
    Stamp(r.generation, r.suspended, if r.suspended then 0 else if r.revision.None? then -1 else r.revision.value)
  }

  ghost predicate Sensible(r: Roster) {
    (r.revision.None? && !r.suspended ==> r.generation == 0) && (r.suspended ==> r.active.Keys == {})
  }

  /** Events that agree: the same revision always names the same members. */
  ghost predicate Agreeing(events: seq<Event>) {
    forall i, j | 0 <= i < |events| && 0 <= j < |events| && Authoritative(events[i]) && Authoritative(events[j]) ::
      StampOf(events[i]) == StampOf(events[j]) ==> MembersOf(events[i]) == MembersOf(events[j])
  }

  lemma StepStands(r: Roster, e: Event)
    requires Sensible(r) && !e.Destroy?
    ensures Sensible(Step(r, e))
    ensures if Authoritative(e) && Below(Standing(r), StampOf(e))
      then Standing(Step(r, e)) == StampOf(e) && Step(r, e).active.Keys == MembersOf(e)
      else Standing(Step(r, e)) == Standing(r) && Step(r, e).active.Keys == r.active.Keys
  {
    if e.Snapshot? && Authoritative(e) && Below(Standing(r), StampOf(e)) {
      assert !r.Stale(e.generation, e.revision);
    }
  }

  /** The roster always shows the greatest authoritative event seen, whatever order they came in. */
  lemma {:induction false} Converges(events: seq<Event>)
    requires Destroy !in events && Agreeing(events)
    ensures Sensible(Run(events))
    ensures forall i :: 0 <= i < |events| && Authoritative(events[i]) ==> !Below(Standing(Run(events)), StampOf(events[i]))
    ensures (Standing(Run(events)) == Standing(EMPTY) && Run(events).active.Keys == {}) ||
            exists i :: 0 <= i < |events| && Authoritative(events[i]) &&
              Standing(Run(events)) == StampOf(events[i]) && Run(events).active.Keys == MembersOf(events[i])
  {
    if events != [] {
      var init, last := events[..|events| - 1], events[|events| - 1];
      assert events == init + [last];
      assert Destroy !in init;
      assert Agreeing(init) by {
        forall i, j | 0 <= i < |init| && 0 <= j < |init| && Authoritative(init[i]) && Authoritative(init[j]) && StampOf(init[i]) == StampOf(init[j])
          ensures MembersOf(init[i]) == MembersOf(init[j])
        {
          assert init[i] == events[i] && init[j] == events[j];
        }
      }
      Converges(init);
      StepStands(Run(init), last);
      assert forall i :: 0 <= i < |init| ==> events[i] == init[i];
      if Authoritative(last) && Below(Standing(Run(init)), StampOf(last)) {
        assert events[|init|] == last;
      }
    }
  }

  /** Some authoritative event stands there. */
  predicate Reaches(events: seq<Event>, s: Stamp) {
    exists i :: 0 <= i < |events| && Authoritative(events[i]) && StampOf(events[i]) == s
  }

  /** Two deliveries of the same snapshots and losses, in any order, with any repetition, retries and
      failures in between and any answers of the hooks, end with the same members. */
  lemma OrderDoesNotMatter(a: seq<Event>, b: seq<Event>)
    requires Destroy !in a && Destroy !in b && Agreeing(a + b)
    requires forall s :: Reaches(a, s) <==> Reaches(b, s)
    ensures Run(a).active.Keys == Run(b).active.Keys && Standing(Run(a)) == Standing(Run(b))
  {
    AgreeingParts(a, b);
    Converges(a);
    Converges(b);
    Dominates(a, b);
    Dominates(b, a);
    var s, t := Standing(Run(a)), Standing(Run(b));
    SensibleStamps(Run(a), Run(b));
    assert s == t;
    if s == Standing(EMPTY) {
      BottomIsEmpty(a);
      BottomIsEmpty(b);
    } else {
      var i :| 0 <= i < |a| && Authoritative(a[i]) && s == StampOf(a[i]) && Run(a).active.Keys == MembersOf(a[i]);
      var j :| 0 <= j < |b| && Authoritative(b[j]) && t == StampOf(b[j]) && Run(b).active.Keys == MembersOf(b[j]);
      assert (a + b)[i] == a[i] && (a + b)[|a| + j] == b[j];
    }
  }

  lemma AgreeingParts(a: seq<Event>, b: seq<Event>)
    requires Agreeing(a + b)
    ensures Agreeing(a) && Agreeing(b)
  {
    forall i, j | 0 <= i < |a| && 0 <= j < |a| && Authoritative(a[i]) && Authoritative(a[j]) && StampOf(a[i]) == StampOf(a[j])
      ensures MembersOf(a[i]) == MembersOf(a[j])
    {
      assert (a + b)[i] == a[i] && (a + b)[j] == a[j];
    }
    forall i, j | 0 <= i < |b| && 0 <= j < |b| && Authoritative(b[i]) && Authoritative(b[j]) && StampOf(b[i]) == StampOf(b[j])
      ensures MembersOf(b[i]) == MembersOf(b[j])
    {
      assert (a + b)[|a| + i] == b[i] && (a + b)[|a| + j] == b[j];
    }
  }

  lemma Dominates(a: seq<Event>, b: seq<Event>)
    requires Destroy !in a && Destroy !in b && Agreeing(a) && Agreeing(b)
    requires forall s :: Reaches(b, s) ==> Reaches(a, s)
    ensures !Below(Standing(Run(a)), Standing(Run(b)))
  {
    Converges(a);
    Converges(b);
    forall j | 0 <= j < |b| && Authoritative(b[j]) ensures !Below(Standing(Run(a)), StampOf(b[j])) {
      assert Reaches(b, StampOf(b[j]));
      var i :| 0 <= i < |a| && Authoritative(a[i]) && StampOf(a[i]) == StampOf(b[j]);
    }
  }

  lemma SensibleStamps(p: Roster, q: Roster)
    requires Sensible(p) && Sensible(q)
    requires !Below(Standing(p), Standing(q)) && !Below(Standing(q), Standing(p))
    ensures Standing(p) == Standing(q)
  {
  }

  lemma BottomIsEmpty(events: seq<Event>)
    requires Destroy !in events && Agreeing(events) && Standing(Run(events)) == Standing(EMPTY)
    ensures Run(events).active.Keys == {}
  {
    Converges(events);
  }
}
