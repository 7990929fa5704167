/** The host's share state as a telemetry packet, and the viewer's inbox for it. */
module HostShareTelemetry {
  import opened Bytes
  import T = TelemetryInbox

  const PACKET_CAP := 8
  const SIGNATURE: seq<byte> := [0x53, 0x48, 0x53, 1]

  datatype HostShareState = Live | VideoPaused | SourceUnavailable | SourceMinimized | Recovering

  datatype Message = Message(connection: seq<byte>, sequence: u64, state: HostShareState)

  function Code(s: HostShareState): (b: byte)
    ensures b <= 4
  {
    match s
    case Live => 0
    case VideoPaused => 1
    case SourceUnavailable => 2
    case SourceMinimized => 3
    case Recovering => 4
  }

  function StateOf(b: byte): HostShareState
    requires b <= 4
  {
    if b == 0 then Live else if b == 1 then VideoPaused else if b == 2 then SourceUnavailable
    else if b == 3 then SourceMinimized else Recovering
  }

  predicate Encodable(m: Message) {
    1 <= |m.connection| <= 128 && m.sequence != 0
  }

  function Encode(m: Message): seq<byte> {
    if !Encodable(m) then []
    else SIGNATURE + [|m.connection|, Code(m.state)] + BigEndian(m.sequence, 8) + m.connection
  }

  predicate Framed(b: seq<byte>) {
    15 <= |b| <= 142 && b[..4] == SIGNATURE && 1 <= b[4] <= 128 && |b| == 14 + b[4] && b[5] <= 4
  }

  function Decode(b: seq<byte>): Option<Message> {
    if !Framed(b) then None
    else
      FieldBounds(b[6..14]);
      var sequence := Number(b[6..14]);
      if sequence == 0 then None else Some(Message(b[14..], sequence, StateOf(b[5])))
  }

  method EncodeHostShare(m: Message) returns (bytes: seq<byte>)
    ensures bytes == Encode(m)
  {
    if |m.connection| == 0 || |m.connection| > 128 || m.sequence == 0 { return []; }
    bytes := SIGNATURE + [|m.connection|, Code(m.state)];
    bytes := Put(bytes, m.sequence, 8);
    bytes := bytes + m.connection;
  }

  method DecodeHostShare(bytes: seq<byte>) returns (message: Option<Message>)
    ensures message == Decode(bytes)
  {
    if |bytes| < 15 || |bytes| > 142 || bytes[0] != 0x53 || bytes[1] != 0x48 || bytes[2] != 0x53 || bytes[3] != 1 ||
       bytes[4] == 0 || bytes[4] > 128 || |bytes| != 14 + bytes[4] || bytes[5] > 4 {
      return None;
    }
    var sequence := Get(bytes, 6, 8);
    FieldBounds(bytes[6..14]);
    if sequence == 0 { return None; }
    message := Some(Message(bytes[14..], sequence, StateOf(bytes[5])));
  }

  /** Decoding an encoded message gives it back; a message that cannot be encoded gives no packet at all. */
  lemma DecodeEncode(m: Message)
    ensures Decode(Encode(m)) == if Encodable(m) then Some(m) else None
  {
    if Encodable(m) {
      var b := Encode(m);
      FieldRoundTrip(m.sequence, 8);
      assert b[6..14] == BigEndian(m.sequence, 8);
      assert b[14..] == m.connection;
      assert b[..4] == SIGNATURE;
    }
  }

  /** An accepted packet is exactly the encoding of what it decodes to. */
  lemma EncodeDecode(b: seq<byte>)
    requires Decode(b).Some?
    ensures Encodable(Decode(b).value) && Encode(Decode(b).value) == b
  {
    var m := Decode(b).value;
    BigEndianOfNumber(b[6..14]);
    assert b == b[..4] + [b[4], b[5]] + b[6..14] + b[14..];
  }

  function Opened(b: seq<byte>): Option<T.Letter<HostShareState>> {
    match Decode(b)
    case None => None
    case Some(m) => Some(T.Letter(m.connection, m.sequence, m.state))
  }

  class HostShareInbox {
    var connection: seq<byte>
    var sequence: u64
    var value: Option<HostShareState>
    var sampled: int
    var nextWindow: int
    var accepted: nat

    ghost function View(): T.Inbox<HostShareState>
      reads this
    {
      T.Inbox(connection, sequence, accepted, value, sampled, nextWindow)
    }

    constructor ()
      ensures View() == T.Inbox([], 0, 0, None, 0, 0)
    {
      connection, sequence, value, sampled, nextWindow, accepted := [], 0, None, 0, 0, 0;
    }

    method Bind(c: seq<byte>)
      modifies this
      ensures View() == old(View()).Bind(c)
    {
      if connection == c { return; }
      connection, sequence, value, sampled, nextWindow, accepted := c, 0, None, 0, 0, 0;
    }

    method Receive(bytes: seq<byte>, now: int) returns (taken: bool)
      modifies this
      ensures (View(), taken) == old(View()).Receive(Opened(bytes), now, PACKET_CAP)
    {
      if connection == [] { return false; }
      if now >= nextWindow { nextWindow, accepted := now + T.SECOND, 0; }
      accepted := accepted + 1;
      if accepted > PACKET_CAP {
        accepted := PACKET_CAP;
        return false;
      }
      var message := DecodeHostShare(bytes);
      if message.None? || message.value.connection != connection || message.value.sequence <= sequence { return false; }
      sequence, value, sampled := message.value.sequence, Some(message.value.state), now;
      taken := true;
    }

    method Read(now: int) returns (status: T.Status<HostShareState>)
      ensures status == View().Read(now)
    {
      var stale := value.Some? && now - sampled >= T.LEASE;
      status := T.Status(if stale then None else value, stale, if value.Some? then Some(T.Age(now - sampled)) else None);
    }
  }

  /** A well-formed packet for the bound connection with a new sequence number is heard while fewer than eight
      packets came within the second before it. */
  lemma EightAreHeard(events: seq<T.Event<HostShareState>>, start: int, bytes: seq<byte>, now: int)
    requires T.Timed(events, start, PACKET_CAP) && start >= 0
    requires T.ReceivedSince(events, start, PACKET_CAP, now - 999_999_999) < 8
    ensures var r, m := T.After(events, start, PACKET_CAP), Decode(bytes);
      r.inbox.Receive(Opened(bytes), now, PACKET_CAP).1 <==>
        && m.Some? && r.inbox.connection != [] && m.value.connection == r.inbox.connection
        && m.value.sequence > if r.log == [] then 0 else r.log[|r.log| - 1].sequence
  {
    T.QuietIsHeard(events, start, PACKET_CAP, Opened(bytes), now);
    hide T.After, T.ReceivedSince, T.Inbox.Receive;
  }

  /** No second sees more than sixteen accepted. */
  lemma AtMostSixteenASecond(events: seq<T.Event<HostShareState>>, start: int, i: nat, j: nat)
    requires T.Timed(events, start, PACKET_CAP) && i + 16 <= j < |T.After(events, start, PACKET_CAP).log|
    ensures T.After(events, start, PACKET_CAP).log[j].at - T.After(events, start, PACKET_CAP).log[i].at >= 1_000_000_000
  {
    T.RateIsBounded(events, start, PACKET_CAP, i, j);
  }

  // ----- the packet, field by field -----

  /** A packet is written exactly for a connection of 1 to 128 bytes and a sequence number above zero: four letters and
      figures, length, state, sequence number in network order, connection. */
  lemma WireFormat(m: Message)
    ensures Encode(m) != [] <==> 1 <= |m.connection| <= 128 && m.sequence > 0
    ensures Encode(m) != [] ==>
      var b := Encode(m);
      && |b| == 14 + |m.connection| && b[14..] == m.connection
      && b[0] == 0x53 && b[1] == 0x48 && b[2] == 0x53 && b[3] == 1 && b[4] == |m.connection|
      && b[5] == (match m.state
                  case Live => 0 case VideoPaused => 1 case SourceUnavailable => 2 case SourceMinimized => 3 case Recovering => 4)
      && Number(b[6..14]) == m.sequence
  {
    if Encodable(m) {
      FieldRoundTrip(m.sequence, 8);
      assert Encode(m)[6..14] == BigEndian(m.sequence, 8);
    }
  }
}
