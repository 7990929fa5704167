/** A bounded history that keeps how things started, how they are now, and the first thing that failed. */
module DiagnosticHistory {
  import opened Bytes

  datatype Record = Record(atMs: nat, numbers: map<string, real>, labels: map<string, string>)

  datatype Snapshot = Snapshot(records: seq<Record>, omitted: nat, startedUtcMs: nat, elapsedMs: nat, firstFailure: Option<Record>)

  predicate StandsAt(s: string, part: string, i: nat) {
    i + |part| <= |s| && s[i..i + |part|] == part
  }

  predicate Contains(s: string, part: string) {
    exists i: nat :: i <= |s| && StandsAt(s, part, i)
  }

  predicate FailingLabel(key: string, text: string) {
    (key == "state" && text == "failed") ||
    (key == "event" && (Contains(text, "failed") || Contains(text, "failure") || Contains(text, "-error")))
  }

  predicate Failing(r: Record) {
    exists key :: key in r.labels && FailingLabel(key, r.labels[key])
  }

  // ----- what is kept of a whole history -----

  /** Everything while it fits; then the first records and the latest ones. */
  function Retained(all: seq<Record>, limit: nat, first: nat): (r: seq<Record>)
    requires first < limit
    ensures |r| == if |all| <= limit then |all| else limit
  {
    if |all| <= limit then all else all[..first] + all[|all| - (limit - first)..]
  }

  function FirstFailing(all: seq<Record>): Option<Record> {
    if all == [] then None
    else
      var before := FirstFailing(all[..|all| - 1]);
      if before.Some? then before
      else if Failing(all[|all| - 1]) then Some(all[|all| - 1])
      else None
  }

  function Limit(limit: nat): (n: nat)
    ensures n >= 1
  {
    if limit == 0 then 1 else limit
  }

  function Startup(limit: nat, keepStartup: bool): (n: nat)
    ensures n < Limit(limit) && n <= 16
  {
    if !keepStartup then 0 else if Limit(limit) / 4 < 16 then Limit(limit) / 4 else 16
  }

  // ----- the object -----

  class DiagnosticHistory {
    const limit: nat
    const retainFirst: nat
    const startedUtcMs: nat
    var records: seq<Record>
    var omitted: nat
    var cached: Option<seq<Record>>
    var firstFailure: Option<Record>
    /** Every record ever added. */
    ghost var all: seq<Record>

    ghost predicate Valid()
      reads this
    {
      && retainFirst < limit
      && records == Retained(all, limit, retainFirst)
      && omitted + |records| == |all|
      && firstFailure == FirstFailing(all)
      && (cached.Some? ==> cached.value == records)
    }

    constructor (limit: nat, keepStartup: bool, startedUtcMs: nat)
      ensures Valid() && all == [] && this.startedUtcMs == startedUtcMs
      ensures this.limit == Limit(limit) && retainFirst == Startup(limit, keepStartup)
    {
      this.limit, retainFirst, this.startedUtcMs := Limit(limit), Startup(limit, keepStartup), startedUtcMs;
      records, omitted, cached, firstFailure := [], 0, None, None;
      all := [];
    }

    method HasFailure(value: Record) returns (found: bool)
      ensures found == Failing(value)
    {
      found := false;
      var todo := value.labels.Keys;
      while todo != {}
        invariant todo <= value.labels.Keys
        invariant !found && forall key :: key in value.labels && key !in todo ==> !FailingLabel(key, value.labels[key])
        decreases |todo|
      {
        var key :| key in todo;
        if FailingLabel(key, value.labels[key]) { return true; }
        todo := todo - {key};
      }
    }

    method AddLocked(value: Record, elapsedMs: nat)
      requires Valid()
      modifies this
      ensures Valid() && all == old(all) + [value.(atMs := elapsedMs)]
    {
      var stamped := value.(atMs := elapsedMs);
      RetainedGrows(all, limit, retainFirst, stamped);
      FirstFailingGrows(all, stamped);
      if firstFailure.None? {
        var failed := HasFailure(stamped);
        if failed { firstFailure := Some(stamped); }
      }
      if |records| == limit {
        records := records[..retainFirst] + records[retainFirst + 1..];
        omitted := omitted + 1;
      }
      records := records + [stamped];
      cached := None;
      all := all + [stamped];
    }

    method Add(value: Record, elapsedMs: nat)
      requires Valid()
      modifies this
      ensures Valid() && all == old(all) + [value.(atMs := elapsedMs)]
    {
      AddLocked(value, elapsedMs);
    }

    /** `owned` says whether the lock was free; a contended record is refused, not queued. */
    method TryAdd(value: Record, elapsedMs: nat, owned: bool) returns (added: bool)
      requires Valid()
      modifies this
      ensures Valid() && added == owned
      ensures all == if owned then old(all) + [value.(atMs := elapsedMs)] else old(all)
    {
      if !owned { return false; }
      AddLocked(value, elapsedMs);
      added := true;
    }

    /** Reading shows the retained history, cached or not, and changes nothing in it. */
    method Read(elapsedMs: nat) returns (s: Snapshot)
      requires Valid()
      modifies this`cached
      ensures Valid()
      ensures s == Snapshot(Retained(all, limit, retainFirst), |all| - |records|, startedUtcMs, elapsedMs, FirstFailing(all))
    {
      if cached.None? { cached := Some(records); }
      s := Snapshot(cached.value, omitted, startedUtcMs, elapsedMs, firstFailure);
    }
  }

  // ----- what retention promises -----

  /** One record more: the oldest one after the startup records makes room for it. */
  lemma RetainedGrows(all: seq<Record>, limit: nat, first: nat, x: Record)
    requires first < limit
    ensures var r := Retained(all, limit, first);
      Retained(all + [x], limit, first) == (if |r| == limit then r[..first] + r[first + 1..] else r) + [x]
  {
    var r := Retained(all, limit, first);
    if |all| > limit {
      assert (all + [x])[..first] == all[..first];
      assert r[first + 1..] == all[|all| - (limit - first) + 1..];
      assert (all + [x])[|all| + 1 - (limit - first)..] == all[|all| + 1 - (limit - first)..] + [x];
    } else if |all| == limit {
      assert (all + [x])[..first] == all[..first];
      assert (all + [x])[first + 1..] == all[first + 1..] + [x];
    }
  }

  lemma FirstFailingGrows(all: seq<Record>, x: Record)
    ensures FirstFailing(all + [x]) ==
            if FirstFailing(all).Some? then FirstFailing(all) else if Failing(x) then Some(x) else None
  {
    assert (all + [x])[..|all|] == all;
  }

  /** The startup records and the latest ones are always there. */
  lemma EndsAreKept(all: seq<Record>, limit: nat, first: nat, i: nat)
    requires first < limit && i < |all| && (i < first || |all| - i <= limit - first)
    ensures all[i] in Retained(all, limit, first)
  {
    var r := Retained(all, limit, first);
    if |all| <= limit {
      assert r[i] == all[i];
    } else if i < first {
      assert r[i] == all[i];
    } else {
      assert r[i - (|all| - limit)] == all[i];
    }
  }

  /** The first failure is exactly that: it failed, nothing before it did, and it is remembered even when
      the record itself is no longer retained. */
  lemma {:induction false} FirstFailureIsFirst(all: seq<Record>) returns (i: nat)
    ensures i <= |all| && (forall j :: 0 <= j < i ==> !Failing(all[j]))
    ensures if i == |all| then FirstFailing(all).None? else Failing(all[i]) && FirstFailing(all) == Some(all[i])
  {
    i := 0;
    if all != [] {
      var init := all[..|all| - 1];
      i := FirstFailureIsFirst(init);
      if i == |init| && !Failing(all[|init|]) { i := |all|; }
    }
  }

  /** Once seen, the first failure never changes. */
  lemma {:induction false} FirstFailureIsFinal(all: seq<Record>, more: seq<Record>)
    requires FirstFailing(all).Some?
    ensures FirstFailing(all + more) == FirstFailing(all)
  {
    if more == [] {
      assert all + more == all;
    } else {
      FirstFailureIsFinal(all, more[..|more| - 1]);
      assert (all + more)[..|all + more| - 1] == all + more[..|more| - 1];
    }
  }

  /** Retention never reorders: what is kept is what was added, less one stretch after the startup records. */
  lemma RetainedIsSplice(all: seq<Record>, limit: nat, first: nat)
    requires first < limit && |all| > limit
    ensures var r, gone := Retained(all, limit, first), all[first..|all| - (limit - first)];
      all == r[..first] + gone + r[first..] && |gone| == |all| - limit
  {
    var r := Retained(all, limit, first);
    assert r[first..] == all[|all| - (limit - first)..];
  }

  // ----- in words and figures -----

  /** A record fails exactly when its state is "failed" or its event mentions a failure. */
  lemma FailsExactly(r: Record)
    ensures Failing(r) <==>
      || ("state" in r.labels && r.labels["state"] == "failed")
      || ("event" in r.labels && exists i: nat, part | part in {"failed", "failure", "-error"} ::
            StandsAt(r.labels["event"], part, i))
  {
    if "state" in r.labels && FailingLabel("state", r.labels["state"]) { assert Failing(r); }
    if "event" in r.labels {
      var text := r.labels["event"];
      if i: nat, part :| part in {"failed", "failure", "-error"} && StandsAt(text, part, i) {
        assert Contains(text, part);
        assert FailingLabel("event", text);
      }
    }
    if key :| key in r.labels && FailingLabel(key, r.labels[key]) {
      if key == "event" {
        var text := r.labels[key];
        var part := if Contains(text, "failed") then "failed" else if Contains(text, "failure") then "failure" else "-error";
        var i: nat :| i <= |text| && StandsAt(text, part, i);
        assert part in {"failed", "failure", "-error"};
      }
    }
  }

  /** With startup records kept, the first quarter of what fits is never given up, up to sixteen records; the last
      three quarters, or without them everything, are the latest records. */
  lemma KeepsStartAndEnd(all: seq<Record>, limit: nat, keepStartup: bool, i: nat)
    requires limit >= 1 && i < |all|
    requires (keepStartup && i < 16 && 4 * (i + 1) <= limit) || 4 * (|all| - i) <= 3 * limit || (!keepStartup && |all| - i <= limit)
    ensures all[i] in Retained(all, Limit(limit), Startup(limit, keepStartup))
    ensures |Retained(all, Limit(limit), Startup(limit, keepStartup))| == if |all| <= limit then |all| else limit
  {
    EndsAreKept(all, limit, Startup(limit, keepStartup), i);
  }
}
