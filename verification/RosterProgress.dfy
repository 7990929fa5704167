/** Which snapshots the roster applies, and what an applied one does to each id at once. */
module RosterProgress {
  import opened Bytes
  import opened RoomPeerRoster
  import opened RosterRuns

  /** The code points a to z, A to Z, 0 to 9, underscore and hyphen. */
  predicate IdCode(code: int) {
    97 <= code <= 122 || 65 <= code <= 90 || 48 <= code <= 57 || code == 95 || code == 45
  }

  predicate WellNamed(id: string) {
    1 <= |id| <= 128 && forall k :: 0 <= k < |id| ==> IdCode(id[k] as int)
  }

  predicate WellFormed(g: nat, peers: seq<string>) {
    && g > 0 && |peers| <= 63
    && (forall i, j :: 0 <= i < j < |peers| ==> peers[i] != peers[j])
    && (forall i :: 0 <= i < |peers| ==> WellNamed(peers[i]))
  }

  lemma NamedExactly(id: string)
    ensures ValidId(id) <==> WellNamed(id)
  {
    if ValidId(id) {
      forall k | 0 <= k < |id| ensures IdCode(id[k] as int) { assert IdByte(id[k]); }
    }
    if WellNamed(id) {
      forall c | c in id ensures IdByte(c) {
        var k :| 0 <= k < |id| && id[k] == c;
        assert IdCode(id[k] as int);
      }
    }
  }

  lemma FormedExactly(g: nat, peers: seq<string>)
    ensures ValidSnapshot(g, peers) <==> WellFormed(g, peers)
  {
    forall i | 0 <= i < |peers| ensures ValidId(peers[i]) <==> WellNamed(peers[i]) {
      NamedExactly(peers[i]);
    }
    hide ValidId, WellNamed;
    if ValidSnapshot(g, peers) {
      forall i | 0 <= i < |peers| ensures WellNamed(peers[i]) { assert peers[i] in peers; }
    }
  }

  /** A loss, or a snapshot that is well formed. */
  predicate Counts(e: Event) {
    e.Loss? || (e.Snapshot? && WellFormed(e.generation, e.peers))
  }

  /** Everything the roster was told stands below this. */
  ghost predicate Newest(events: seq<Event>, s: Stamp) {
    forall i :: 0 <= i < |events| && Counts(events[i]) ==> Below(StampAt(events[i]), s)
  }

  function StampAt(e: Event): Stamp {
    match e
    case Loss(g) => Stamp(g, true, 0)
    case Snapshot(g, rev, _, _) => Stamp(g, false, rev)
    case _ => Stamp(0, false, -1)
  }

  lemma CountsExactly(e: Event)
    ensures Counts(e) <==> Authoritative(e)
    ensures Authoritative(e) ==> StampAt(e) == StampOf(e)
  {
    if e.Snapshot? { FormedExactly(e.generation, e.peers); }
    hide WellFormed, ValidSnapshot;
  }

  lemma {:induction false} StandsAboveAll(events: seq<Event>, s: Stamp)
    requires Destroy !in events && Below(Standing(EMPTY), s)
    ensures Sensible(Run(events)) && (Below(Standing(Run(events)), s) <==> Newest(events, s))
  {
    if events != [] {
      var init, last := events[..|events| - 1], events[|events| - 1];
      StandsAboveAll(init, s);
      CountsExactly(last);
      StepStands(Run(init), last);
      assert Newest(events, s) <==> Newest(init, s) && (Counts(last) ==> Below(StampAt(last), s)) by {
        assert forall i :: 0 <= i < |init| ==> events[i] == init[i];
        assert events[|init|] == last;
      }
      hide Newest, Counts, Authoritative, Sensible, Step, Standing;
    }
  }

  /** A snapshot is invalid unless it names a generation and at most 63 different ids of 1 to 128 plain characters;
      a valid one is applied exactly when it is newer than every snapshot and loss before it, and else ignored. */
  lemma AppliedExactly(events: seq<Event>, g: nat, rev: nat, peers: seq<string>, hooks: Hooks)
    requires Destroy !in events
    ensures Run(events).Apply(g, rev, peers, hooks).1 ==
      if !WellFormed(g, peers) then Invalid
      else if Newest(events, Stamp(g, false, rev)) then Applied
      else Ignored
  {
    FormedExactly(g, peers);
    StandsAboveAll(events, Stamp(g, false, rev));
    hide Run, Newest, WellFormed, ValidSnapshot;
  }

  /** A transport loss takes effect exactly when no later generation has been seen; then nobody is left. */
  lemma LossEmpties(r: Roster, g: nat, id: string)
    ensures var t := r.Lost(g);
      if g < r.generation then t == r
      else t.active.Keys == {} && t.pending == {} && t.generation == g && t.suspended && t.revision == None
    ensures Calls(r, Loss(g), id) ==
      if g < r.generation || r.StatusOf(id).Absent? then []
      else if r.StatusOf(id).Active? then [Removed(id), Left(id)]
      else [Left(id)]
  {
  }

  /** What an applied snapshot does to an id, at once: who is not named leaves, and is removed if active; who is new is
      pending, and is added if ready; who is known stays, and is tried again only if still pending. In a later
      generation everybody leaves first. */
  lemma SnapshotTreats(r: Roster, g: nat, rev: nat, peers: seq<string>, hooks: Hooks, id: string)
    requires r.Valid() && r.Apply(g, rev, peers, hooks).1.Applied?
    ensures var t, calls := r.Apply(g, rev, peers, hooks).0, Calls(r, Snapshot(g, rev, peers, hooks), id);
      var was := r.StatusOf(id);
      var leaves := if was.Absent? then [] else if was.Active? then [Removed(id), Left(id)] else [Left(id)];
      var tried := if id in hooks.ready then [Added(id, id in hooks.accepts)] else [];
      var outcome := if id !in hooks.ready then Pending else if id in hooks.accepts then Active else Failed;
      && t.generation == g && t.revision == Some(rev) && !t.suspended
      && (t.StatusOf(id), calls) ==
         if id !in peers then (Absent, leaves)
         else if g > r.generation then (outcome, leaves + [Joined(id)] + tried)
         else match was
              case Absent => (outcome, [Joined(id)] + tried)
              case Pending => (outcome, tried)
              case _ => (was, [])
  {
    assert id in Members(peers) <==> id in peers;
    var renewed := r.Renewed(g);
    var joined := renewed.Joining(Members(peers));
    var none: seq<Call> := [];
    assert forall a: seq<Call> :: none + a == a && a + none == a;
    assert joined.StatusOf(id) ==
      if id !in peers then Absent else if renewed.StatusOf(id).Absent? then Pending else renewed.StatusOf(id);
    assert joined.Retried(hooks).StatusOf(id) ==
      if joined.StatusOf(id).Pending? && id in hooks.ready then (if id in hooks.accepts then Active else Failed)
      else joined.StatusOf(id);
    hide ValidSnapshot, Members;
  }

  /** A retry tries every ready id that is pending, once, and no other. */
  lemma RetryTries(r: Roster, hooks: Hooks, id: string)
    requires r.Valid()
    ensures (r.Retried(hooks).StatusOf(id), Calls(r, Retry(hooks), id)) ==
      if r.StatusOf(id).Pending? && id in hooks.ready then
        (if id in hooks.accepts then Active else Failed, [Added(id, id in hooks.accepts)])
      else (r.StatusOf(id), [])
  {
  }
}
