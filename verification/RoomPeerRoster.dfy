/** Room membership: complete snapshots and transport losses drive the add and remove hooks. */
module RoomPeerRoster {
  import opened Bytes

  datatype Result = Applied | Ignored | Invalid

  /** Hook calls, and the two membership changes that frame them. */
  datatype Call = Joined(id: string) | Added(id: string, ok: bool) | Removed(id: string) | Left(id: string)

  datatype Status = Absent | Pending | Active | Failed

  predicate IdByte(c: char) {
    'a' <= c <= 'z' || 'A' <= c <= 'Z' || '0' <= c <= '9' || c == '_' || c == '-'
  }

  predicate ValidId(id: string) {
    0 < |id| <= 128 && forall c :: c in id ==> IdByte(c)
  }

  predicate ValidSnapshot(generation: nat, peers: seq<string>) {
    && generation != 0 && |peers| <= 63
    && (forall i, j :: 0 <= i < j < |peers| ==> peers[i] != peers[j])
    && forall id :: id in peers ==> ValidId(id)
  }

  function Members(peers: seq<string>): set<string> { set id | id in peers }

  /** What the hooks answer during one call: which ids are ready, and whose addition succeeds. */
  datatype Hooks = Hooks(ready: set<string>, accepts: set<string>)

  datatype Roster = Roster(
    active: map<string, bool>, pending: set<string>, generation: nat, revision: Option<nat>, suspended: bool)
  {
    ghost predicate Valid() {
      forall id :: id in pending ==> id in active && !active[id]
    }

    function StatusOf(id: string): Status {
      if id !in active then Absent else if active[id] then Active else if id in pending then Pending else Failed
    }

    function Cleared(): Roster { this.(active := map[], pending := {}) }

    /** Ids that left are gone; ids that came are pending. */
    function Joining(members: set<string>): Roster {
      this.(active := map id | id in members :: id in active && active[id],
            pending := set id | id in members && (id in pending || id !in active))
    }

    function Retried(hooks: Hooks): Roster {
      this.(active := map id | id in active :: if id in pending && id in hooks.ready then id in hooks.accepts else active[id],
            pending := pending - hooks.ready)
    }

    predicate Stale(g: nat, rev: nat) {
      g < generation || (g == generation && (suspended || (revision.Some? && rev <= revision.value)))
    }

    function Renewed(g: nat): Roster {
      if g > generation then Cleared().(generation := g, revision := None, suspended := false) else this
    }

    function Apply(g: nat, rev: nat, peers: seq<string>, hooks: Hooks): (Roster, Result) {
      if !ValidSnapshot(g, peers) then (this, Invalid)
      else if Stale(g, rev) then (this, Ignored)
      else (Renewed(g).Joining(Members(peers)).Retried(hooks).(revision := Some(rev)), Applied)
    }

    function Lost(g: nat): Roster {
      if g < generation then this
      else Cleared().(generation := g, revision := None, suspended := true)
    }

    function FailedPeer(id: string): Roster {
      if StatusOf(id).Active? then this.(active := active[id := false]) else this
    }
  }

  // ----- hook calls, seen by one id -----

  function LeaveCalls(s: Status, id: string): seq<Call> {
    match s case Absent => [] case Active => [Removed(id), Left(id)] case _ => [Left(id)]
  }

  function JoinCalls(s: Status, member: bool, id: string): seq<Call> {
    if !member then LeaveCalls(s, id) else if s.Absent? then [Joined(id)] else []
  }

  function RetryCalls(s: Status, hooks: Hooks, id: string): seq<Call> {
    if s.Pending? && id in hooks.ready then [Added(id, id in hooks.accepts)] else []
  }

  function ApplyCalls(r: Roster, g: nat, rev: nat, peers: seq<string>, hooks: Hooks, id: string): seq<Call> {
    if !ValidSnapshot(g, peers) || r.Stale(g, rev) then []
    else
      var renewed := r.Renewed(g);
      var joined := renewed.Joining(Members(peers));
      (if g > r.generation then LeaveCalls(r.StatusOf(id), id) else []) +
      JoinCalls(renewed.StatusOf(id), id in peers, id) + RetryCalls(joined.StatusOf(id), hooks, id)
  }

  function After(before: seq<Call>, calls: seq<Call>): (all: seq<Call>)
    ensures all == before + calls
  {
    if calls == [] then before else before + calls
  }

  ghost predicate Extended(before: string -> seq<Call>, now: string -> seq<Call>, id: string, calls: seq<Call>) {
    now(id) == before(id) + calls && forall k :: k != id ==> now(k) == before(k)
  }

  // ----- the loops, one id at a time -----

  function Shrunk(r: Roster, members: set<string>, todo: set<string>): Roster {
    r.(active := map id | id in r.active && (id in todo || id in members) :: r.active[id],
       pending := set id | id in r.pending && (id in todo || id in members || id !in r.active))
  }

  lemma ShrunkStart(r: Roster, members: set<string>, trace: string -> seq<Call>)
    ensures Shrunk(r, members, r.active.Keys) == r
    ensures ShrunkTrace(trace, trace, r, members, r.active.Keys)
  {
    assert Shrunk(r, members, r.active.Keys).active == r.active;
    assert Shrunk(r, members, r.active.Keys).pending == r.pending;
  }

  lemma ShrunkStep(r: Roster, members: set<string>, todo: set<string>, id: string)
    requires id in todo && todo <= r.active.Keys
    ensures id in Shrunk(r, members, todo).active && Shrunk(r, members, todo).active[id] == r.active[id]
    ensures id in Shrunk(r, members, todo).pending <==> id in r.pending
    ensures var now, next := Shrunk(r, members, todo), Shrunk(r, members, todo - {id});
      next == if id in members then now else now.(active := now.active - {id}, pending := now.pending - {id})
    ensures Shrunk(r, members, todo).StatusOf(id) == r.StatusOf(id)
  {
    var now, next := Shrunk(r, members, todo), Shrunk(r, members, todo - {id});
    if id in members {
      assert next.active == now.active && next.pending == now.pending;
    } else {
      assert next.active == now.active - {id} && next.pending == now.pending - {id};
    }
  }

  function Grown(r: Roster, come: set<string>): Roster {
    r.(active := map id | id in r.active.Keys + come :: id in r.active && r.active[id],
       pending := r.pending + (come - r.active.Keys))
  }

  lemma GrownStart(r: Roster, trace: string -> seq<Call>)
    ensures Grown(r, {}) == r
    ensures GrownTrace(trace, trace, r, {})
  {
    assert Grown(r, {}).active == r.active;
  }

  lemma GrownStep(r: Roster, come: set<string>, id: string)
    ensures var now, next := Grown(r, come), Grown(r, come + {id});
      next == if id in now.active then now else now.(active := now.active[id := false], pending := now.pending + {id})
    ensures Grown(r, come).active.Keys == r.active.Keys + come
  {
    var now, next := Grown(r, come), Grown(r, come + {id});
    if id in now.active {
      assert next.active == now.active && next.pending == now.pending;
    } else {
      assert next.active == now.active[id := false] && next.pending == now.pending + {id};
    }
  }

  lemma GrownEnd(r: Roster, members: set<string>)
    requires r.active.Keys <= members && r.pending <= r.active.Keys
    ensures Grown(r, members) == r.Joining(members)
  {
    assert Grown(r, members).active == r.Joining(members).active;
    assert Grown(r, members).pending == r.Joining(members).pending;
  }

  /** Pending ids retried, except those still to do. */
  function RetriedBut(r: Roster, hooks: Hooks, todo: set<string>): Roster {
    r.(active := map id | id in r.active :: if id in r.pending && id !in todo && id in hooks.ready then id in hooks.accepts else r.active[id],
       pending := set id | id in r.pending && (id in todo || id !in hooks.ready))
  }

  lemma RetriedStart(r: Roster, hooks: Hooks)
    ensures RetriedBut(r, hooks, r.pending) == r
    ensures RetriedBut(r, hooks, {}) == r.Retried(hooks)
  {
    assert RetriedBut(r, hooks, r.pending).active == r.active;
    assert RetriedBut(r, hooks, r.pending).pending == r.pending;
    assert RetriedBut(r, hooks, {}).active == r.Retried(hooks).active;
    assert RetriedBut(r, hooks, {}).pending == r.Retried(hooks).pending;
  }

  lemma RetriedStep(r: Roster, hooks: Hooks, todo: set<string>, id: string)
    requires r.Valid() && id in todo && todo <= r.pending
    ensures var now, next := RetriedBut(r, hooks, todo), RetriedBut(r, hooks, todo - {id});
      next == if id !in hooks.ready then now
              else now.(active := now.active[id := id in hooks.accepts], pending := now.pending - {id})
  {
    var now, next := RetriedBut(r, hooks, todo), RetriedBut(r, hooks, todo - {id});
    if id !in hooks.ready {
      assert next.active == now.active && next.pending == now.pending;
    } else {
      assert next.active == now.active[id := id in hooks.accepts];
      assert next.pending == now.pending - {id};
    }
  }

  lemma ApplyStates(r: Roster, renewed: Roster, members: set<string>)
    requires r.Valid() && renewed in {r, r.Cleared().(generation := renewed.generation, revision := None, suspended := false)}
    ensures Shrunk(renewed, members, {}).Joining(members) == renewed.Joining(members)
    ensures renewed.Joining(members).Valid()
  {
    var s := Shrunk(renewed, members, {});
    assert s.Joining(members).active == renewed.Joining(members).active;
    assert s.Joining(members).pending == renewed.Joining(members).pending;
  }

  lemma ApplyTrace(r: Roster, g: nat, rev: nat, peers: seq<string>, hooks: Hooks, id: string,
                   t0: seq<Call>, t1: seq<Call>, t2: seq<Call>, t3: seq<Call>, t4: seq<Call>)
    requires ValidSnapshot(g, peers) && !r.Stale(g, rev)
    requires t1 == if g > r.generation then After(t0, LeaveCalls(r.StatusOf(id), id)) else t0
    requires t2 == After(t1, if id in Members(peers) then [] else LeaveCalls(r.Renewed(g).StatusOf(id), id))
    requires t3 == After(t2, if id in peers && id !in Shrunk(r.Renewed(g), Members(peers), {}).active then [Joined(id)] else [])
    requires t4 == After(t3, RetryCalls(r.Renewed(g).Joining(Members(peers)).StatusOf(id), hooks, id))
    ensures t4 == After(t0, ApplyCalls(r, g, rev, peers, hooks, id))
  {
    var renewed := r.Renewed(g);
    var a := if g > r.generation then LeaveCalls(r.StatusOf(id), id) else [];
    var b1 := if id in peers then [] else LeaveCalls(renewed.StatusOf(id), id);
    var b2 := if id in peers && id !in Shrunk(renewed, Members(peers), {}).active then [Joined(id)] else [];
    var b := JoinCalls(renewed.StatusOf(id), id in peers, id);
    var c := RetryCalls(renewed.Joining(Members(peers)).StatusOf(id), hooks, id);
    assert b1 + b2 == b;
    assert ApplyCalls(r, g, rev, peers, hooks, id) == a + b + c;
    Chain(t0, a, b1, b2, c);
  }

  lemma Chain(t: seq<Call>, a: seq<Call>, b1: seq<Call>, b2: seq<Call>, c: seq<Call>)
    ensures t + a + b1 + b2 + c == t + (a + (b1 + b2) + c)
  {
  }

  ghost predicate ShrunkTrace(before: string -> seq<Call>, now: string -> seq<Call>, r: Roster, members: set<string>, todo: set<string>) {
    match r
    case Roster(_, _, _, _, _) =>
      forall id :: now(id) == After(before(id), if id in todo || id in members then [] else LeaveCalls(r.StatusOf(id), id))
  }

  lemma ShrunkTraceStep(before: string -> seq<Call>, now: string -> seq<Call>, next: string -> seq<Call>,
                        r: Roster, members: set<string>, todo: set<string>, id: string)
    requires id in todo && ShrunkTrace(before, now, r, members, todo)
    requires if id in members then next == now else Extended(now, next, id, LeaveCalls(r.StatusOf(id), id))
    ensures ShrunkTrace(before, next, r, members, todo - {id})
  {
  }

  ghost predicate GrownTrace(before: string -> seq<Call>, now: string -> seq<Call>, r: Roster, come: set<string>) {
    match r
    case Roster(active, _, _, _, _) =>
      forall id :: now(id) == After(before(id), if id in come && id !in active then [Joined(id)] else [])
  }

  lemma GrownTraceStep(before: string -> seq<Call>, now: string -> seq<Call>, next: string -> seq<Call>,
                       r: Roster, come: set<string>, id: string)
    requires GrownTrace(before, now, r, come)
    requires if id in r.active.Keys + come then next == now else Extended(now, next, id, [Joined(id)])
    ensures GrownTrace(before, next, r, come + {id})
  {
  }

  ghost predicate RetriedTrace(before: string -> seq<Call>, now: string -> seq<Call>, r: Roster, hooks: Hooks, todo: set<string>) {
    match r
    case Roster(_, pending, _, _, _) =>
      forall id :: now(id) == After(before(id), if id in pending && id in todo then [] else RetryCalls(r.StatusOf(id), hooks, id))
  }

  lemma RetriedTraceStep(before: string -> seq<Call>, now: string -> seq<Call>, next: string -> seq<Call>,
                         r: Roster, hooks: Hooks, todo: set<string>, id: string)
    requires r.Valid() && id in todo && todo <= r.pending && RetriedTrace(before, now, r, hooks, todo)
    requires if id in hooks.ready then Extended(now, next, id, [Added(id, id in hooks.accepts)]) else next == now
    ensures RetriedTrace(before, next, r, hooks, todo - {id})
  {
  }

  // ----- the object -----

  class RoomPeerRoster {
    var active: map<string, bool>
    var pending: set<string>
    var generation: nat
    var revision: Option<nat>
    var suspended: bool
    /** The hook calls made so far for each id. */
    ghost var trace: string -> seq<Call>

    ghost function View(): Roster
      reads this
    {
      Roster(active, pending, generation, revision, suspended)
    }

    constructor ()
      ensures View() == Roster(map[], {}, 0, None, false) && forall id :: trace(id) == []
    {
      active, pending, generation, revision, suspended := map[], {}, 0, None, false;
      trace := id => [];
    }

    ghost method Note(call: Call)
      modifies this`trace
      ensures Extended(old(trace), trace, call.id, [call])
    {
      var before := trace;
      trace := id => if id == call.id then before(id) + [call] else before(id);
    }

    /** The remove hook for an active id, then the id is no longer a member. */
    method Retire(id: string, ghost status: Status)
      requires id in active && status == if active[id] then Active else if id in pending then Pending else Failed
      modifies this`trace
      ensures Extended(old(trace), trace, id, LeaveCalls(status, id))
    {
      if active[id] { Note(Removed(id)); }
      Note(Left(id));
    }

    method Clear()
      modifies this
      ensures View() == old(View()).Cleared()
      ensures forall id :: trace(id) == After(old(trace)(id), LeaveCalls(old(View()).StatusOf(id), id))
    {
      ghost var r := View();
      var todo := active.Keys;
      while todo != {}
        invariant View() == r && todo <= active.Keys
        invariant forall id :: trace(id) == After(old(trace)(id), if id in todo then [] else LeaveCalls(r.StatusOf(id), id))
        decreases |todo|
      {
        var id :| id in todo;
        Retire(id, r.StatusOf(id));
        todo := todo - {id};
      }
      active, pending := map[], {};
    }

    method Shrink(members: set<string>)
      modifies this
      ensures View() == Shrunk(old(View()), members, {})
      ensures ShrunkTrace(old(trace), trace, old(View()), members, {})
    {
      hide Shrunk, ShrunkTrace;
      ghost var r := View();
      var todo := active.Keys;
      ShrunkStart(r, members, trace);
      while todo != {}
        invariant todo <= r.active.Keys && View() == Shrunk(r, members, todo)
        invariant ShrunkTrace(old(trace), trace, r, members, todo)
        decreases |todo|
      {
        var id :| id in todo;
        ShrunkStep(r, members, todo, id);
        ghost var before := trace;
        if id !in members {
          Retire(id, r.StatusOf(id));
          pending := pending - {id};
          active := active - {id};
        }
        ShrunkTraceStep(old(trace), before, trace, r, members, todo, id);
        todo := todo - {id};
      }
    }

    method Grow(peers: seq<string>)
      requires active.Keys <= Members(peers) && pending <= active.Keys
      modifies this
      ensures View() == old(View()).Joining(Members(peers))
      ensures GrownTrace(old(trace), trace, old(View()), Members(peers))
    {
      hide Grown, GrownTrace;
      ghost var r, come: set<string> := View(), {};
      GrownStart(r, trace);
      for i := 0 to |peers|
        invariant come == Members(peers[..i]) && View() == Grown(r, come)
        invariant GrownTrace(old(trace), trace, r, come)
      {
        var id := peers[i];
        assert peers[..i + 1] == peers[..i] + [id];
        GrownStep(r, come, id);
        ghost var before := trace;
        if id !in active {
          active := active[id := false];
          pending := pending + {id};
          Note(Joined(id));
        }
        GrownTraceStep(old(trace), before, trace, r, come, id);
        come := come + {id};
      }
      assert peers[..|peers|] == peers;
      GrownEnd(r, Members(peers));
    }

    method Try(id: string, added: bool)
      modifies this
      ensures View() == old(View()).(active := old(active)[id := added], pending := old(pending) - {id})
      ensures Extended(old(trace), trace, id, [Added(id, added)])
    {
      Note(Added(id, added));
      active := active[id := added];
      pending := pending - {id};
    }

    method RetryPending(hooks: Hooks)
      requires View().Valid()
      modifies this
      ensures View() == old(View()).Retried(hooks)
      ensures forall id :: trace(id) == After(old(trace)(id), RetryCalls(old(View()).StatusOf(id), hooks, id))
    {
      ghost var r := View();
      var todo := pending;
      RetriedStart(r, hooks);
      while todo != {}
        invariant todo <= r.pending && View() == RetriedBut(r, hooks, todo)
        invariant RetriedTrace(old(trace), trace, r, hooks, todo)
        decreases |todo|
      {
        var id :| id in todo;
        RetriedStep(r, hooks, todo, id);
        ghost var before := trace;
        if id in hooks.ready {
          Try(id, id in hooks.accepts);
        }
        RetriedTraceStep(old(trace), before, trace, r, hooks, todo, id);
        todo := todo - {id};
      }
    }

    method Apply(g: nat, rev: nat, peers: seq<string>, hooks: Hooks) returns (result: Result)
      requires View().Valid()
      modifies this
      ensures (View(), result) == old(View()).Apply(g, rev, peers, hooks)
      ensures forall id :: trace(id) == After(old(trace)(id), ApplyCalls(old(View()), g, rev, peers, hooks, id))
    {
      if !ValidSnapshot(g, peers) { return Invalid; }
      if g < generation || (g == generation && (suspended || (revision.Some? && rev <= revision.value))) {
        return Ignored;
      }
      ghost var r, t0 := View(), trace;
      if g > generation {
        Clear();
        generation, revision, suspended := g, None, false;
      }
      ghost var renewed, t1 := View(), trace;
      Shrink(Members(peers));
      ghost var shrunk, t2 := View(), trace;
      Grow(peers);
      ApplyStates(r, renewed, Members(peers));
      ghost var joined, t3 := View(), trace;
      RetryPending(hooks);
      forall id ensures trace(id) == After(t0(id), ApplyCalls(r, g, rev, peers, hooks, id)) {
        ApplyTrace(r, g, rev, peers, hooks, id, t0(id), t1(id), t2(id), t3(id), trace(id));
      }
      revision := Some(rev);
      result := Applied;
    }

    method TransportLost(g: nat)
      modifies this
      ensures View() == old(View()).Lost(g)
      ensures forall id :: trace(id) == After(old(trace)(id), if g < old(generation) then [] else LeaveCalls(old(View()).StatusOf(id), id))
    {
      if g < generation { return; }
      Clear();
      generation, revision, suspended := g, None, true;
    }

    method Fail(peer: string)
      modifies this
      ensures View() == old(View()).FailedPeer(peer)
      ensures forall id :: trace(id) == After(old(trace)(id), if id == peer && old(View()).StatusOf(id).Active? then [Removed(id)] else [])
    {
      if peer !in active || !active[peer] { return; }
      Note(Removed(peer));
      active := active[peer := false];
    }

    method ActiveCount() returns (count: nat)
      ensures count == |set id | id in active && View().StatusOf(id).Active?|
    {
      count := |set id | id in active && active[id]|;
      assert (set id | id in active && active[id]) == (set id | id in active && View().StatusOf(id).Active?);
    }

    method FailedCount() returns (count: int)
      requires View().Valid()
      ensures count == |set id | id in active && View().StatusOf(id).Failed?|
    {
      var activeCount := ActiveCount();
      FailedCountExact(View());
      count := |active| - activeCount - |pending|;
    }
  }

  lemma ThreeParts(all: set<string>, a: set<string>, b: set<string>, c: set<string>)
    requires all == a + b + c && a !! b && (a + b) !! c
    ensures |all| == |a| + |b| + |c|
  {
  }

  /** The subtraction never goes below zero: it counts the failed ids. */
  lemma FailedCountExact(r: Roster)
    requires r.Valid()
    ensures |r.active| - |set id | id in r.active && r.StatusOf(id).Active?| - |r.pending| ==
            |set id | id in r.active && r.StatusOf(id).Failed?|
  {
    var a := set id | id in r.active && r.StatusOf(id).Active?;
    var f := set id | id in r.active && r.StatusOf(id).Failed?;
    forall id ensures id in r.active <==> id in a + r.pending + f {
    }
    forall id | id in r.pending ensures id !in a && id !in f {
    }
    assert r.active.Keys == a + r.pending + f;
    ThreeParts(r.active.Keys, a, r.pending, f);
    assert |r.active.Keys| == |r.active|;
  }
}
