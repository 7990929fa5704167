/** The receiving end of both telemetry messages: one binding at a time, increasing sequence numbers, a
    limit on packets per second. Times are nanoseconds of a local clock. */
module TelemetryInbox {
  import opened Bytes

  const SECOND := 1_000_000_000
  const LEASE := 3_000_000_000

  /** A decoded packet. */
  datatype Letter<V> = Letter(connection: seq<byte>, sequence: u64, value: V)

  datatype Status<V> = Status(observation: Option<V>, stale: bool, ageSeconds: Option<u32>)

  datatype Inbox<V> = Inbox(
    connection: seq<byte>, sequence: u64, accepted: nat, value: Option<V>, sampled: int, nextWindow: int)
  {
    function Bind(c: seq<byte>): Inbox<V> {
      if c == connection then this else Inbox(c, 0, 0, None, 0, 0)
    }

    /** `letter` is what the packet decodes to, if it does. */
    function Receive(letter: Option<Letter<V>>, now: int, cap: nat): (Inbox<V>, bool) {
      if connection == [] then (this, false)
      else
        var started := if now >= nextWindow then this.(nextWindow := now + SECOND, accepted := 0) else this;
        if started.accepted >= cap then (started.(accepted := cap), false)
        else
          var counted := started.(accepted := started.accepted + 1);
          if letter.None? || letter.value.connection != connection || letter.value.sequence <= sequence then (counted, false)
          else (counted.(sequence := letter.value.sequence, value := Some(letter.value.value), sampled := now), true)
    }

    function Read(now: int): Status<V> {
      var stale := value.Some? && now - sampled >= LEASE;
      Status(if stale then None else value, stale, if value.Some? then Some(Age(now - sampled)) else None)
    }
  }

  /** Whole seconds, within what the status can hold. */
  function Age(d: int): u32 {
    if d < 0 then 0 else if d / SECOND > 0xFFFF_FFFF then 0xFFFF_FFFF else d / SECOND
  }

  // ----- whole runs -----

  datatype Event<V> = Bound(connection: seq<byte>) | Received(letter: Option<Letter<V>>, at: int)

  datatype Acceptance<V> = Acceptance(at: int, sequence: u64, value: V)

  /** The inbox, what it accepted since it was last bound anew, and the latest time. */
  datatype Run<V> = Run(inbox: Inbox<V>, log: seq<Acceptance<V>>, now: int)

  function Step<V(==)>(r: Run<V>, e: Event<V>, cap: nat): Run<V> {
    match e
    case Bound(c) => Run(r.inbox.Bind(c), if c == r.inbox.connection then r.log else [], r.now)
    case Received(letter, at) =>
      var (next, accepted) := r.inbox.Receive(letter, at, cap);
      Run(next, if accepted then r.log + [Acceptance(at, next.sequence, letter.value.value)] else r.log, at)
  }

  function After<V(==)>(events: seq<Event<V>>, start: int, cap: nat): Run<V> {
    if events == [] then Run(Inbox([], 0, 0, None, 0, 0), [], start)
    else Step(After(events[..|events| - 1], start, cap), events[|events| - 1], cap)
  }

  predicate Timed<V(==)>(events: seq<Event<V>>, start: int, cap: nat) {
    events == [] ||
    (var init, last := events[..|events| - 1], events[|events| - 1];
     Timed(init, start, cap) && (last.Received? ==> last.at >= After(init, start, cap).now))
  }

  /** Sequence numbers increase, and the inbox shows the latest acceptance. */
  ghost predicate Ordered<V>(r: Run<V>) {
    match r
    case Run(Inbox(_, sequence, _, value, sampled, _), log, _) =>
      && (forall i, j :: 0 <= i < j < |log| ==> log[i].sequence < log[j].sequence)
      && (if log == [] then sequence == 0 && value.None?
          else var last := log[|log| - 1]; sequence == last.sequence && value == Some(last.value) && sampled == last.at)
  }

  lemma StepOrders<V>(r: Run<V>, e: Event<V>, cap: nat)
    requires Ordered(r)
    ensures Ordered(Step(r, e, cap))
  {
    assert r.log != [] ==> forall i :: 0 <= i < |r.log| ==> r.log[i].sequence <= r.inbox.sequence;
  }

  lemma {:induction false} RunOrders<V>(events: seq<Event<V>>, start: int, cap: nat)
    ensures Ordered(After(events, start, cap))
  {
    if events != [] {
      RunOrders(events[..|events| - 1], start, cap);
      StepOrders(After(events[..|events| - 1], start, cap), events[|events| - 1], cap);
    }
  }

  /** What is stored is what the highest sequence number carried, and when it came. */
  lemma {:induction false} StoredIsGreatest<V>(events: seq<Event<V>>, start: int, cap: nat, i: nat)
    requires i < |After(events, start, cap).log|
    ensures var r := After(events, start, cap);
      var last := r.log[|r.log| - 1];
      && r.inbox.value == Some(last.value) && r.inbox.sequence == last.sequence && r.inbox.sampled == last.at
      && (i < |r.log| - 1 ==> r.log[i].sequence < last.sequence)
  {
    RunOrders(events, start, cap);
  }

  /** A packet that is not accepted, for whatever reason, renews nothing. */
  lemma RejectionRenewsNothing<V>(inbox: Inbox<V>, letter: Option<Letter<V>>, now: int, cap: nat, later: int)
    requires !inbox.Receive(letter, now, cap).1
    ensures var next := inbox.Receive(letter, now, cap).0;
      next.Read(later) == inbox.Read(later) && next.sequence == inbox.sequence && next.sampled == inbox.sampled
  {
  }

  /** An observation is shown exactly while the latest acceptance is less than three seconds old. */
  lemma {:induction false} ShownWhileFresh<V>(events: seq<Event<V>>, start: int, cap: nat, now: int)
    ensures var r := After(events, start, cap);
      r.inbox.Read(now).observation ==
        if r.log != [] && now - r.log[|r.log| - 1].at < 3_000_000_000 then Some(r.log[|r.log| - 1].value) else None
    ensures var r := After(events, start, cap);
      r.inbox.Read(now).stale <==> r.log != [] && now - r.log[|r.log| - 1].at >= 3_000_000_000
  {
    RunOrders(events, start, cap);
  }

  // ----- the rate -----

  /** All but the `recent` latest came before the window opened, and all but `cap` more a window earlier. */
  ghost predicate Windowed<V>(r: Run<V>, recent: nat, cap: nat) {
    match r
    case Run(Inbox(_, _, accepted, _, _, nextWindow), log, now) =>
      && recent <= accepted <= cap && recent <= |log|
      && (forall i :: 0 <= i < |log| ==> log[i].at <= now)
      && (recent < |log| ==> nextWindow - SECOND <= now)
      && (forall i :: 0 <= i < |log| - recent ==> log[i].at <= nextWindow - SECOND)
      && (forall i :: 0 <= i < |log| - recent - cap ==> log[i].at <= nextWindow - 2 * SECOND)
  }

  ghost predicate Rated<V>(log: seq<Acceptance<V>>, cap: nat) {
    forall i, j :: 0 <= i && i + 2 * cap <= j < |log| ==> log[j].at - log[i].at >= SECOND
  }

  lemma OpenWindow<V>(r: Run<V>, recent: nat, cap: nat, at: int)
    requires Windowed(r, recent, cap) && at >= r.now
    ensures at >= r.inbox.nextWindow ==>
      Windowed(Run(r.inbox.(nextWindow := at + SECOND, accepted := 0), r.log, at), 0, cap)
    ensures Windowed(r.(now := at), recent, cap)
  {
  }

  lemma Accept<V>(r: Run<V>, recent: nat, cap: nat, inbox: Inbox<V>, a: Acceptance<V>)
    requires Windowed(r, recent, cap) && Rated(r.log, cap) && r.inbox.accepted < cap && a.at == r.now
    requires inbox.accepted == r.inbox.accepted + 1 && inbox.nextWindow == r.inbox.nextWindow
    ensures Windowed(Run(inbox, r.log + [a], r.now), recent + 1, cap) && Rated(r.log + [a], cap)
  {
  }

  lemma StepWindows<V>(r: Run<V>, e: Event<V>, recent: nat, cap: nat) returns (next: nat)
    requires Windowed(r, recent, cap) && Rated(r.log, cap) && (e.Received? ==> e.at >= r.now)
    ensures Windowed(Step(r, e, cap), next, cap) && Rated(Step(r, e, cap).log, cap)
  {
    next := recent;
    match e {
      case Bound(c) =>
        if c != r.inbox.connection { next := 0; }
      case Received(letter, at) =>
        OpenWindow(r, recent, cap, at);
        if r.inbox.connection != [] {
          var renewed := at >= r.inbox.nextWindow;
          var started := if renewed then r.inbox.(nextWindow := at + SECOND, accepted := 0) else r.inbox;
          next := if renewed then 0 else recent;
          var now := Run(started, r.log, at);
          assert Windowed(now, next, cap);
          var (after, accepted) := r.inbox.Receive(letter, at, cap);
          if accepted {
            Accept(now, next, cap, after, Acceptance(at, after.sequence, letter.value.value));
            next := next + 1;
          }
        }
    }
  }

  lemma {:induction false} RunWindows<V>(events: seq<Event<V>>, start: int, cap: nat) returns (recent: nat)
    requires Timed(events, start, cap)
    ensures var r := After(events, start, cap); Windowed(r, recent, cap) && Rated(r.log, cap)
  {
    recent := 0;
    if events != [] {
      var init := events[..|events| - 1];
      recent := RunWindows(init, start, cap);
      recent := StepWindows(After(init, start, cap), events[|events| - 1], recent, cap);
    }
  }

  /** No second sees more than twice the cap accepted: of any 2·cap + 1 acceptances the last comes at
      least a second after the first. */
  lemma RateIsBounded<V>(events: seq<Event<V>>, start: int, cap: nat, i: nat, j: nat)
    requires Timed(events, start, cap) && i + 2 * cap <= j < |After(events, start, cap).log|
    ensures After(events, start, cap).log[j].at - After(events, start, cap).log[i].at >= 1_000_000_000
  {
    var recent := RunWindows(events, start, cap);
  }

  // ----- what is heard -----

  /** How many packets came at this time or later, since the latest binding to another connection. */
  function ReceivedSince<V(==)>(events: seq<Event<V>>, start: int, cap: nat, time: int): nat {
    if events == [] then 0
    else
      var init := events[..|events| - 1];
      match events[|events| - 1]
      case Bound(c) => if c == After(init, start, cap).inbox.connection then ReceivedSince(init, start, cap, time) else 0
      case Received(_, at) => ReceivedSince(init, start, cap, time) + if at >= time then 1 else 0
  }

  /** The window counts no packet twice, and none from before it opened. */
  lemma {:induction false} WindowCounts<V>(events: seq<Event<V>>, start: int, cap: nat)
    requires Timed(events, start, cap) && start >= 0
    ensures var r := After(events, start, cap);
      && r.inbox.accepted <= ReceivedSince(events, start, cap, r.inbox.nextWindow - SECOND)
      && r.inbox.nextWindow - SECOND <= r.now && start <= r.now
  {
    if events != [] {
      WindowCounts(events[..|events| - 1], start, cap);
    }
  }

  lemma {:induction false} LaterIsFewer<V>(events: seq<Event<V>>, start: int, cap: nat, early: int, late: int)
    requires early <= late
    ensures ReceivedSince(events, start, cap, late) <= ReceivedSince(events, start, cap, early)
  {
    if events != [] {
      LaterIsFewer(events[..|events| - 1], start, cap, early, late);
      hide After;
    }
  }

  /** A packet is accepted when it decodes, is for the bound connection and carries a higher sequence number than
      any accepted before, unless as many packets as the cap, good or bad, came within the second before it. */
  lemma QuietIsHeard<V>(events: seq<Event<V>>, start: int, cap: nat, letter: Option<Letter<V>>, now: int)
    requires Timed(events, start, cap) && start >= 0
    requires ReceivedSince(events, start, cap, now - 999_999_999) < cap
    ensures var r := After(events, start, cap);
      r.inbox.Receive(letter, now, cap).1 <==>
        && letter.Some? && r.inbox.connection != [] && letter.value.connection == r.inbox.connection
        && letter.value.sequence > if r.log == [] then 0 else r.log[|r.log| - 1].sequence
  {
    RunOrders(events, start, cap);
    hide After, ReceivedSince, Inbox.Receive;
    RoomWhenQuiet(events, start, cap, now);
    RoomIsUsed(After(events, start, cap).inbox, letter, now, cap);
  }

  lemma RoomWhenQuiet<V>(events: seq<Event<V>>, start: int, cap: nat, now: int)
    requires Timed(events, start, cap) && start >= 0 && ReceivedSince(events, start, cap, now - 999_999_999) < cap
    ensures var inbox := After(events, start, cap).inbox; now < inbox.nextWindow ==> inbox.accepted < cap
  {
    hide After, ReceivedSince, Timed;
    WindowCounts(events, start, cap);
    var inbox := After(events, start, cap).inbox;
    if now < inbox.nextWindow {
      LaterIsFewer(events, start, cap, now - 999_999_999, inbox.nextWindow - SECOND);
    }
  }

  lemma RoomIsUsed<V>(inbox: Inbox<V>, letter: Option<Letter<V>>, now: int, cap: nat)
    requires cap > 0 && (now < inbox.nextWindow ==> inbox.accepted < cap)
    ensures inbox.Receive(letter, now, cap).1 <==>
      && letter.Some? && inbox.connection != [] && letter.value.connection == inbox.connection
      && letter.value.sequence > inbox.sequence
  {
  }
}
