/** What the receiver makes of a packet, unit by unit and message by message: types, limits and the layout of
    the mapping in figures. Writing and reading are stated against a list of messages, not against each other. */
module MappingReceiver {
  import opened Bytes
  import opened AnnexB
  import opened Emulation
  import opened MappingSei
  import opened MappingRoundTrip
  import opened MappingTransparency
  import opened H264Bitstream

  /** One supplemental enhancement message: its payload type and its payload. */
  datatype Message = Message(kind: nat, payload: seq<byte>)

  /** A number as 255s and a rest below 255, section 7.3.2.3.1 of ITU-T H.264. */
  function Coded(n: nat): (s: seq<byte>)
    ensures s != []
  {
    if n >= 255 then [255] + Coded(n - 255) else [n]
  }

  function Head(m: Message): seq<byte> {
    Coded(m.kind) + Coded(|m.payload|) + m.payload
  }

  /** The messages one after the other, and the stop bit. */
  function Payload(messages: seq<Message>): seq<byte> {
    if messages == [] then [0x80] else Head(messages[0]) + Payload(messages[1..])
  }

  function Zeros(n: nat): seq<byte> { seq(n, i => 0) }

  /** A unit of these messages, followed by zeros as a byte stream allows. */
  function Unit(header: byte, messages: seq<Message>, zeros: nat): seq<byte> {
    [header] + Escape(Payload(messages), 0) + Zeros(zeros)
  }

  /** The bytes that mark a user data message as a mapping. */
  predicate Marked(payload: seq<byte>) {
    |payload| >= 16 &&
    payload[..16] == [0x71, 0x53, 0x49, 0x4e, 0x90, 0x21, 0x42, 0x91, 0x83, 0x15, 0x62, 0x07, 0x4d, 0x50, 0x01, 0x01]
  }

  predicate Foreign(m: Message) { !(m.kind == 5 && Marked(m.payload)) }

  /** What is understood of the messages, with the mapping found so far: all up to one of type 128, whose code
      looks like the stop bit; nothing at all when a mapping is malformed or is not the only one. */
  function Understood(messages: seq<Message>, found: FrameMapping): Option<FrameMapping> {
    if messages == [] || messages[0].kind == 128 then Some(found)
    else if Foreign(messages[0]) then Understood(messages[1..], found)
    else if |messages[0].payload| != 36 || found.generation != 0 then None
    else
      var m := ParseFields(messages[0].payload[16..36]);
      if m.Valid() then Understood(messages[1..], m) else None
  }

  // ----- messages -----

  lemma {:induction false} CodedIsRead(t: seq<byte>, at: nat, n: nat)
    requires at + |Coded(n)| <= |t| && t[at..at + |Coded(n)|] == Coded(n)
    ensures FfCode(t, at) == Some((n, at + |Coded(n)|))
    decreases n
  {
    var c := Coded(n);
    assert t[at] == t[at..at + |c|][0];
    if n >= 255 {
      assert t[at + 1..at + |c|] == t[at..at + |c|][1..] == Coded(n - 255);
      CodedIsRead(t, at + 1, n - 255);
    }
  }

  lemma CutHead(m: Message, rest: seq<byte>, t: seq<byte>, at: nat)
    requires at <= |t| && t[at..] == Head(m) + rest
    ensures var a := at + |Coded(m.kind)|;
      var b := a + |Coded(|m.payload|)|;
      var c := b + |m.payload|;
      c <= |t| && t[at..a] == Coded(m.kind) && t[a..b] == Coded(|m.payload|) && t[b..c] == m.payload && t[c..] == rest
  {
    var kind, size := Coded(m.kind), Coded(|m.payload|);
    assert t[at..] == kind + size + m.payload + rest;
    hide *;
    Concatenated(kind + size, m.payload, rest);
    ThreeParts(kind, size, m.payload + rest);
    var length, n := |t| - at, |kind| + |size|;
    assert t[at..at + length] == t[at..];
    Subslice(t, at, length, 0, |kind|);
    Subslice(t, at, length, |kind|, n);
    Subslice(t, at, length, n, n + |m.payload|);
    Subslice(t, at, length, n + |m.payload|, length);
    var u := m.payload + rest;
    assert u[..|m.payload|] == m.payload && u[|m.payload|..] == rest;
  }

  /** The bytes 5 and 36 and 16 marking bytes are found exactly where a message has them. */
  lemma MarkIsFound(m: Message, t: seq<byte>, at: nat)
    requires at + |m.payload| <= |t| && t[at..at + |m.payload|] == m.payload
    ensures IsMapping(t, m.kind, |m.payload|, at) <==> !Foreign(m)
    ensures |m.payload| == 36 ==> t[at + 16..at + 36] == m.payload[16..36]
  {
    if |m.payload| >= 16 {
      assert t[at..at + 16] == m.payload[..16];
    }
  }

  lemma {:induction false} MessagesAreRead(t: seq<byte>, at: nat, messages: seq<Message>, found: FrameMapping)
    requires at <= |t| && t[at..] == Payload(messages)
    ensures Messages(t, at, found) == Understood(messages, found)
    decreases |messages|
  {
    if messages != [] {
      var m := messages[0];
      var c := HeadIsRead(t, at, messages, found);
      MessagesNext(messages, found);
      hide Payload, Foreign, Understood, Messages, ParseFields, FrameMapping.Valid;
      MessagesAreRead(t, c, messages[1..], found);
      if |m.payload| == 36 {
        MessagesAreRead(t, c, messages[1..], ParseFields(m.payload[16..36]));
      }
    } else {
      assert |t[at..]| == 1;
    }
  }

  /** Reading goes on from `c` as after this message. */
  predicate GoesOn(t: seq<byte>, at: nat, m: Message, c: nat, found: FrameMapping) {
    Messages(t, at, found) ==
      if m.kind == 128 then Some(found)
      else if Foreign(m) then Messages(t, c, found)
      else if |m.payload| != 36 || found.generation != 0 then None
      else if ParseFields(m.payload[16..36]).Valid() then Messages(t, c, ParseFields(m.payload[16..36]))
      else None
  }

  /** Reading one message and going on behind it. */
  lemma HeadIsRead(t: seq<byte>, at: nat, messages: seq<Message>, found: FrameMapping) returns (c: nat)
    requires at <= |t| && messages != [] && t[at..] == Payload(messages)
    ensures at < c <= |t| && t[c..] == Payload(messages[1..])
    ensures GoesOn(t, at, messages[0], c, found)
  {
    var m := messages[0];
    assert Payload(messages) == Head(m) + Payload(messages[1..]);
    PayloadEnds(messages[1..]);
    hide *;
    var a, b := HeadParts(t, at, m, Payload(messages[1..]));
    MessagesStep(t, at, m, a, b, found);
    c := b + |m.payload|;
  }

  lemma HeadParts(t: seq<byte>, at: nat, m: Message, rest: seq<byte>) returns (a: nat, b: nat)
    requires at <= |t| && t[at..] == Head(m) + rest && rest != []
    ensures at < a < b && b + |m.payload| < |t| && t[b + |m.payload|..] == rest
    ensures FfCode(t, at) == Some((m.kind, a)) && FfCode(t, a) == Some((|m.payload|, b))
    ensures (t[at] == 0x80 <==> m.kind == 128) && (IsMapping(t, m.kind, |m.payload|, b) <==> !Foreign(m))
    ensures |m.payload| == 36 ==> t[b + 16..b + 36] == m.payload[16..36]
  {
    a := at + |Coded(m.kind)|;
    b := a + |Coded(|m.payload|)|;
    hide *;
    CutHead(m, rest, t, at);
    CodedIsRead(t, at, m.kind);
    CodedIsRead(t, a, |m.payload|);
    MarkIsFound(m, t, b);
    CodedStarts(t, at, m.kind);
  }

  lemma CodedStarts(t: seq<byte>, at: nat, n: nat)
    requires at + |Coded(n)| <= |t| && t[at..at + |Coded(n)|] == Coded(n)
    ensures t[at] == 0x80 <==> n == 128
  {
    assert t[at] == t[at..at + |Coded(n)|][0];
  }

  lemma MessagesNext(messages: seq<Message>, found: FrameMapping)
    requires messages != []
    ensures Understood(messages, found) ==
      if messages[0].kind == 128 then Some(found)
      else if Foreign(messages[0]) then Understood(messages[1..], found)
      else if |messages[0].payload| != 36 || found.generation != 0 then None
      else if ParseFields(messages[0].payload[16..36]).Valid() then
        Understood(messages[1..], ParseFields(messages[0].payload[16..36]))
      else None
  {
  }

  lemma MessagesStep(t: seq<byte>, at: nat, m: Message, a: nat, b: nat, found: FrameMapping)
    requires at < a < b && b + |m.payload| < |t| && FfCode(t, at) == Some((m.kind, a)) && FfCode(t, a) == Some((|m.payload|, b))
    requires (t[at] == 0x80 <==> m.kind == 128) && (IsMapping(t, m.kind, |m.payload|, b) <==> !Foreign(m))
    requires |m.payload| == 36 ==> t[b + 16..b + 36] == m.payload[16..36]
    ensures GoesOn(t, at, m, b + |m.payload|, found)
  {
    hide FfCode, IsMapping, Foreign;
  }

  // ----- units -----

  lemma {:induction false} PayloadEnds(messages: seq<Message>)
    ensures var p := Payload(messages); p != [] && p[|p| - 1] == 0x80
  {
    if messages != [] { PayloadEnds(messages[1..]); }
  }

  lemma {:induction false} ZerosUnescape(n: nat, zeros: nat)
    ensures Unescape(Zeros(n), zeros) == Some(Zeros(n))
    decreases n
  {
    if n > 0 {
      assert Zeros(n)[1..] == Zeros(n - 1);
      ZerosUnescape(n - 1, zeros + 1);
      assert [0] + Zeros(n - 1) == Zeros(n);
    }
  }

  lemma {:induction false} ZerosStrip(n: nat)
    ensures StripZeros(Zeros(n)) == []
  {
    if n > 0 {
      assert Zeros(n)[..n - 1] == Zeros(n - 1);
      ZerosStrip(n - 1);
    }
  }

  lemma UnitIsUnescaped(messages: seq<Message>, zeros: nat)
    ensures Unescape(Escape(Payload(messages), 0) + Zeros(zeros), 0) == Some(Payload(messages) + Zeros(zeros))
    ensures StripZeros(Payload(messages) + Zeros(zeros)) == Payload(messages)
  {
    var p := Payload(messages);
    PayloadEnds(messages);
    hide Payload, Zeros, Escape, Unescape, StripZeros;
    UnescapeEscape(p, 0, Zeros(zeros));
    ZerosUnescape(zeros, ZerosAfter(p, 0));
    StripAppend(p, Zeros(zeros));
    ZerosStrip(zeros);
    assert p + [] == p;
  }

  /** Any well-formed unit is read as its messages are understood: whatever its payload types and sizes, up to
      4096 bytes, with any zeros behind it. */
  lemma UnitIsUnderstood(header: byte, messages: seq<Message>, zeros: nat, found: FrameMapping)
    requires header % 32 == 6 && |Unit(header, messages, zeros)| <= 4096
    ensures ReadUnit(Unit(header, messages, zeros), found) == Understood(messages, found)
  {
    var unit := Unit(header, messages, zeros);
    var p := Payload(messages);
    assert unit[1..] == Escape(p, 0) + Zeros(zeros);
    UnitIsUnescaped(messages, zeros);
    PayloadEnds(messages);
    assert p[0..] == p;
    MessagesAreRead(p, 0, messages, found);
    hide Payload, Zeros, Escape, Unescape, StripZeros, Messages, Understood, Unit;
  }

  /** Units that are not SEI, which is type 6, leave what was found alone; SEI units over 4096 bytes end reading. */
  lemma OtherTypes(unit: seq<byte>, found: FrameMapping)
    ensures unit == [] || unit[0] % 32 != 6 ==> ReadUnit(unit, found) == Some(found)
    ensures unit != [] && unit[0] % 32 == 6 && |unit| > 4096 ==> ReadUnit(unit, found) == None
  {
    hide Unescape, Trimmed;
  }

  lemma {:induction false} ForeignIsPassedOver(messages: seq<Message>, found: FrameMapping)
    requires forall m :: m in messages ==> Foreign(m)
    ensures Understood(messages, found) == Some(found)
  {
    if messages != [] {
      assert Foreign(messages[0]);
      ForeignIsPassedOver(messages[1..], found);
    }
  }

  /** A unit the mapping has nothing to do with: of another type, or SEI of other messages. */
  ghost predicate Ordinary(u: seq<byte>) {
    u == [] || u[0] % 32 != 6 ||
    (|u| <= 4096 && exists header: byte, messages, zeros :: IsUnit(u, header, messages, zeros))
  }

  ghost predicate IsUnit(u: seq<byte>, header: byte, messages: seq<Message>, zeros: nat) {
    u == Unit(header, messages, zeros) && forall m :: m in messages ==> Foreign(m)
  }

  lemma OrdinaryIsClean(u: seq<byte>)
    requires Ordinary(u)
    ensures Clean(u)
  {
    OtherTypes(u, NO_MAPPING);
    if u != [] && u[0] % 32 == 6 {
      var header: byte, messages, zeros :| IsUnit(u, header, messages, zeros);
      assert u[0] == header;
      ForeignIsPassedOver(messages, NO_MAPPING);
      UnitIsUnderstood(header, messages, zeros, NO_MAPPING);
    }
    hide ReadUnit, Unit, Understood;
  }

  // ----- packets -----

  predicate Fair(m: FrameMapping) {
    && m.generation != 0 && 2 <= m.width <= 3840 && 2 <= m.height <= 2160 && m.imageWidth >= 2 && m.imageHeight >= 2
    && m.left + m.imageWidth <= m.width && m.top + m.imageHeight <= m.height
  }

  predicate OpensWithCode(p: seq<byte>) {
    (|p| >= 3 && p[0] == 0 && p[1] == 0 && p[2] == 1) ||
    (|p| >= 4 && p[0] == 0 && p[1] == 0 && p[2] == 0 && p[3] == 1)
  }

  /** In a packet that opens with a start code and whose other units are ordinary, the receiver finds the mapping
      that was inserted, up to sixteen mebibytes and no further. */
  lemma OrdinaryPacket(p: seq<byte>, m: FrameMapping)
    requires Fair(m) && OpensWithCode(p)
    requires forall u :: u in Split(Before(p) + [0]).units || u in Split(After(p)).units ==> Ordinary(u)
    ensures Read(Insert(p, m)) == m <==> |Insert(p, m)| <= 16_777_216
    ensures |p| + 83 <= 16_777_216 ==> Read(Insert(p, m)) == m
  {
    forall u | u in Split(Before(p) + [0]).units || u in Split(After(p)).units ensures Clean(u) {
      OrdinaryIsClean(u);
    }
    hide Ordinary, Clean, Before, After, Split;
    assert m.Valid();
    FramedTail(p, m);
    RoundTrip(p, m);
    SplitInsert(p, m);
    BodyFacts(m);
    hide Insert, Read, NalBody, TailAllowed;
  }

  /** A header byte behind a start code. */
  predicate HeaderAt(p: seq<byte>, k: nat) {
    3 <= k < |p| && p[k - 3] == 0 && p[k - 2] == 0 && p[k - 1] == 1
  }

  /** Where a unit stands: right behind a start code. */
  lemma {:induction false} UnitStands(p: seq<byte>, u: seq<byte>) returns (at: nat)
    requires u in Split(p).units && u != []
    ensures HeaderAt(p, at) && p[at] == u[0]
    decreases |p|
  {
    if StartsCode(p) {
      SplitCode(p);
      var rest := Split(p[3..]);
      SplitIsExact(p[3..]);
      hide Split, Join;
      if u == rest.lead {
        assert p[3..][0] == u[0];
        at := 3;
      } else {
        var k := UnitStands(p[3..], u);
        at := k + 3;
      }
    } else {
      assert p != [];
      SplitByte(p);
      hide Split;
      var k := UnitStands(p[1..], u);
      at := k + 1;
    }
  }

  /** So a packet that opens with a start code and holds no SEI unit, like every keyframe and slice of the encoder,
      gives the mapping back: read off its bytes, no start code in it is followed by a byte of type 6. */
  lemma PacketWithoutSei(p: seq<byte>, m: FrameMapping)
    requires Fair(m) && OpensWithCode(p) && |p| + 83 <= 16_777_216
    requires forall k: nat :: HeaderAt(p, k) ==> p[k] % 32 != 6
    ensures Read(Insert(p, m)) == m
  {
    OtherUnits(p);
    forall u | u in Split(Before(p) + [0]).units || u in Split(After(p)).units ensures Ordinary(u) {
      NotSei(p, u);
    }
    hide Split, Ordinary, Before, After;
    OrdinaryPacket(p, m);
  }

  lemma NotSei(p: seq<byte>, u: seq<byte>)
    requires forall k: nat :: HeaderAt(p, k) ==> p[k] % 32 != 6
    requires u in Split(Before(p) + [0]).units || u in Split(After(p)).units
    ensures u == [] || u[0] % 32 != 6
  {
    var a, b := Before(p), After(p);
    if u != [] {
      if u in Split(b).units {
        var k := UnitStands(b, u);
        assert HeaderAt(p, |a| + k) && p[|a| + k] == b[k];
      } else {
        var k := UnitStands(a + [0], u);
        if k < |a| { assert HeaderAt(p, k) && p[k] == a[k]; }
      }
    }
  }

  // ----- what is written -----

  /** The mapping as a message, field by field. */
  function MappingMessage(m: FrameMapping): Message {
    Message(5, [0x71, 0x53, 0x49, 0x4e, 0x90, 0x21, 0x42, 0x91, 0x83, 0x15, 0x62, 0x07, 0x4d, 0x50, 0x01, 0x01] +
               BigEndian(m.generation, 8) + BigEndian(m.width, 2) + BigEndian(m.height, 2) + BigEndian(m.left, 2) +
               BigEndian(m.top, 2) + BigEndian(m.imageWidth, 2) + BigEndian(m.imageHeight, 2))
  }

  /** What is spliced in is a four-byte start code and a unit of type 6 of that one message. */
  lemma WrittenUnit(m: FrameMapping)
    ensures Nal(m) == [0, 0, 0, 1] + Unit(6, [MappingMessage(m)], 0)
  {
    var message := MappingMessage(m);
    hide BigEndian;
    assert |message.payload| == 36;
    assert Coded(5) == [5] && Coded(36) == [36];
    assert [message][1..] == [] && Payload([message]) == Head(message) + [0x80];
    assert Payload([message]) == Rbsp(m);
    assert Zeros(0) == [];
    assert [6] + Escape(Rbsp(m), 0) + [] == NalBody(m);
  }

  /** The header byte of a coded slice, types 1 and 5. */
  predicate SliceHeader(p: seq<byte>, k: nat) { HeaderAt(p, k) && p[k] % 32 in {1, 5} }

  ghost predicate FirstHeader(p: seq<byte>, k: nat) {
    SliceHeader(p, k) && forall j: nat {:trigger SliceHeader(p, j)} :: j < k ==> !SliceHeader(p, j)
  }

  /** It goes right before the start code of the first slice, and so behind all parameter sets before it. The one
      slice overlooked is a single byte at the very end behind a three-byte start code. */
  lemma InsertedBeforeSlice(p: seq<byte>, m: FrameMapping, k: nat)
    requires Fair(m) && FirstHeader(p, k)
    ensures var long := k >= 4 && p[k - 4] == 0;
      var at := if long then k - 4 else if k + 1 < |p| then k - 3 else 0;
      Insert(p, m) == p[..at] + Nal(m) + p[at..]
  {
    var long := k >= 4 && p[k - 4] == 0;
    if long || k + 1 < |p| {
      var at := if long then k - 4 else k - 3;
      assert SliceAt(p, at);
      forall j: nat | j < at ensures !SliceAt(p, j) {
        assert !SliceHeader(p, j + 3);
        if j + 4 < k { assert !SliceHeader(p, j + 4); }
      }
      var i := InsertionPoint(p);
      assert i == at;
    } else {
      forall j: nat ensures !SliceAt(p, j) {
        if j + 4 < |p| { assert !SliceHeader(p, j + 3); }
        if j + 4 < k { assert !SliceHeader(p, j + 4); }
      }
    }
  }

  /** Without a slice it goes to the front; and only a mapping that fits the frame is written at all. */
  lemma InsertedInFront(p: seq<byte>, m: FrameMapping)
    requires forall j: nat {:trigger SliceHeader(p, j)} :: !SliceHeader(p, j)
    ensures Insert(p, m) == if Fair(m) then Nal(m) + p else p
  {
    forall j: nat ensures !SliceAt(p, j) {
      assert !SliceHeader(p, j + 3) && !SliceHeader(p, j + 4);
    }
    assert p[..0] == [] && p[0..] == p && [] + Nal(m) == Nal(m);
  }

  lemma UnfairIsNotWritten(p: seq<byte>, m: FrameMapping)
    ensures !Fair(m) <==> Insert(p, m) == p
  {
    if m.Valid() { assert |Insert(p, m)| > |p|; }
  }

  /** A mapping behind a message of type 128 in the same unit is not found: that type is coded as the stop bit. */
  lemma HiddenMapping(m: FrameMapping)
    ensures ReadUnit(Unit(6, [Message(128, []), MappingMessage(m)], 0), NO_MAPPING) == Some(NO_MAPPING)
  {
    var first, second := Message(128, []), MappingMessage(m);
    hide BigEndian;
    assert |second.payload| == 36 && [first, second][1..] == [second] && [second][1..] == [];
    assert Payload([second]) == Head(second) + [0x80];
    assert Payload([first, second]) == Head(first) + Payload([second]);
    assert Coded(128) == [128] && Coded(0) == [0] && Coded(5) == [5] && Coded(36) == [36];
    assert |Head(first)| == 2 && |Head(second)| == 38;
    EscapeIsSafe(Payload([first, second]), 0);
    assert |Unit(6, [first, second], 0)| <= 4096;
    assert Understood([first, second], NO_MAPPING) == Some(NO_MAPPING);
    hide *;
    UnitIsUnderstood(6, [first, second], 0, NO_MAPPING);
  }

  // ----- what ends reading -----

  /** A unit of this payload, well formed or not. */
  function Escaped(header: byte, payload: seq<byte>): seq<byte> {
    [header] + Escape(payload, 0)
  }

  lemma EscapedIsRead(header: byte, payload: seq<byte>, found: FrameMapping)
    requires header % 32 == 6 && |Escaped(header, payload)| <= 4096
    ensures ReadUnit(Escaped(header, payload), found) == Trimmed(payload, found)
  {
    var e := Escape(payload, 0);
    assert Escaped(header, payload)[1..] == e && e + [] == e && payload + [] == payload;
    hide Escape, Unescape, Trimmed;
    UnescapeEscape(payload, 0, []);
    UnescapeNothing(ZerosAfter(payload, 0));
  }

  /** Some byte is not zero, and the last such byte is this. */
  ghost predicate EndsIn(payload: seq<byte>, last: byte) {
    exists k: nat :: LastAt(payload, k) && payload[k] == last
  }

  predicate LastAt(payload: seq<byte>, k: nat) {
    k < |payload| && payload[k] != 0 && forall j :: k < j < |payload| ==> payload[j] == 0
  }

  /** Zeros aside, a unit that does not end in the stop bit alone in its byte ends reading. */
  lemma UnstoppedEndsReading(header: byte, payload: seq<byte>, found: FrameMapping)
    requires header % 32 == 6 && |Escaped(header, payload)| <= 4096 && !EndsIn(payload, 0x80)
    ensures ReadUnit(Escaped(header, payload), found) == None
  {
    EscapedIsRead(header, payload, found);
    var t := StripZeros(payload);
    hide Escaped, StripZeros, Messages, ReadUnit;
    if t != [] {
      assert payload[|t| - 1] == t[|t| - 1];
      assert LastAt(payload, |t| - 1);
    }
  }

  /** So does one with an escape byte that protects nothing. */
  lemma BadEscapeEndsReading(unit: seq<byte>, k: nat, found: FrameMapping)
    requires unit != [] && unit[0] % 32 == 6 && BadEscape(unit[1..], k)
    ensures ReadUnit(unit, found) == None
  {
    UnescapeRefuses(unit[1..]);
    hide Unescape, Trimmed;
  }

  /** Messages, and behind them one that claims more bytes than there are. */
  function Overrun(messages: seq<Message>, kind: nat, size: nat, rest: seq<byte>): seq<byte> {
    if messages == [] then Coded(kind) + (Coded(size) + rest) else Head(messages[0]) + Overrun(messages[1..], kind, size, rest)
  }

  ghost predicate Plain(messages: seq<Message>) {
    forall m :: m in messages ==> Foreign(m) && m.kind != 128
  }

  lemma {:induction false} OverrunEnds(messages: seq<Message>, kind: nat, size: nat, rest: seq<byte>)
    requires rest != []
    ensures var t := Overrun(messages, kind, size, rest); t != [] && t[|t| - 1] == rest[|rest| - 1]
  {
    if messages != [] { OverrunEnds(messages[1..], kind, size, rest); }
  }

  lemma {:induction false} OverrunFails(t: seq<byte>, at: nat, messages: seq<Message>, kind: nat, size: nat, rest: seq<byte>, found: FrameMapping)
    requires Plain(messages) && kind != 128 && |rest| < size && rest != []
    requires at <= |t| && t[at..] == Overrun(messages, kind, size, rest)
    ensures Messages(t, at, found) == None
    decreases |messages|
  {
    if messages == [] {
      OverrunHere(t, at, kind, size, rest, found);
    } else {
      var m, tail := messages[0], Overrun(messages[1..], kind, size, rest);
      assert m in messages && Plain(messages[1..]) && t[at..] == Head(m) + tail;
      OverrunEnds(messages[1..], kind, size, rest);
      hide *;
      var c := HeadPassed(t, at, m, tail, found);
      OverrunFails(t, c, messages[1..], kind, size, rest, found);
    }
  }

  lemma HeadPassed(t: seq<byte>, at: nat, m: Message, tail: seq<byte>, found: FrameMapping) returns (c: nat)
    requires Foreign(m) && m.kind != 128 && at <= |t| && t[at..] == Head(m) + tail && tail != []
    ensures at < c <= |t| && t[c..] == tail && Messages(t, at, found) == Messages(t, c, found)
  {
    hide Head, Foreign, Messages, FfCode, IsMapping;
    var a, b := HeadParts(t, at, m, tail);
    MessagesStep(t, at, m, a, b, found);
    c := b + |m.payload|;
  }

  lemma TwoParts(t: seq<byte>, at: nat, first: seq<byte>, second: seq<byte>)
    requires at <= |t| && t[at..] == first + second
    ensures at + |first| <= |t| && t[at..at + |first|] == first && t[at + |first|..] == second
  {
    assert t[at..][..|first|] == first && t[at..][|first|..] == second;
  }

  lemma OverrunHere(t: seq<byte>, at: nat, kind: nat, size: nat, rest: seq<byte>, found: FrameMapping)
    requires kind != 128 && |rest| < size && at <= |t| && t[at..] == Coded(kind) + (Coded(size) + rest)
    ensures Messages(t, at, found) == None
  {
    var a := at + |Coded(kind)|;
    var b := a + |Coded(size)|;
    hide Coded, FfCode, Messages;
    TwoParts(t, at, Coded(kind), Coded(size) + rest);
    TwoParts(t, a, Coded(size), rest);
    CodedIsRead(t, at, kind);
    CodedIsRead(t, a, size);
    CodedStarts(t, at, kind);
    TooLong(t, at, kind, a, size, b, found);
  }

  lemma TooLong(t: seq<byte>, at: nat, kind: nat, a: nat, size: nat, b: nat, found: FrameMapping)
    requires at + 2 <= |t| && t[at] != 0x80 && FfCode(t, at) == Some((kind, a)) && FfCode(t, a) == Some((size, b)) && size > |t| - b
    ensures Messages(t, at, found) == None
  {
    hide FfCode;
  }

  /** So does a message, behind any others, that claims more bytes than there are. */
  lemma OverrunEndsReading(header: byte, messages: seq<Message>, kind: nat, size: nat, rest: seq<byte>, found: FrameMapping)
    requires Plain(messages) && kind != 128 && |rest| < size
    requires rest != [] && rest[|rest| - 1] == 0x80 && header % 32 == 6
    requires |Escaped(header, Overrun(messages, kind, size, rest))| <= 4096
    ensures ReadUnit(Escaped(header, Overrun(messages, kind, size, rest)), found) == None
  {
    var t := Overrun(messages, kind, size, rest);
    OverrunEnds(messages, kind, size, rest);
    hide Overrun;
    EscapedIsRead(header, t, found);
    assert t[0..] == t && StripZeros(t) == t;
    hide Escaped, Messages, ReadUnit, StripZeros;
    OverrunFails(t, 0, messages, kind, size, rest, found);
  }

  /** One unit that ends reading, wherever it stands, leaves the packet without a mapping. */
  lemma {:induction false} OneBadUnit(units: seq<seq<byte>>, u: seq<byte>, found: FrameMapping)
    requires u in units && forall f: FrameMapping :: ReadUnit(u, f) == None
    ensures ReadUnits(units, found) == None
  {
    if units[0] != u && ReadUnit(units[0], found).Some? {
      OneBadUnit(units[1..], u, ReadUnit(units[0], found).value);
    }
    hide ReadUnit;
  }

  lemma BadUnitDisables(p: seq<byte>, u: seq<byte>)
    requires u in Split(p).units && forall f: FrameMapping :: ReadUnit(u, f) == None
    ensures Read(p) == FrameMapping(0, 0, 0, 0, 0, 0, 0)
  {
    OneBadUnit(Split(p).units, u, NO_MAPPING);
    hide ReadUnit, Split, ReadUnits;
  }
}
