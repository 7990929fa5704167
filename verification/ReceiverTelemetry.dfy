/** The viewer's video statistics as a telemetry packet, in three versions, and the host's inbox for them. */
module ReceiverTelemetry {
  import opened Bytes
  import T = TelemetryInbox

  const PACKET_CAP := 4
  const SIGNATURE: seq<byte> := [0x53, 0x56, 0x54]
  const INT64_MAX := 0x7FFF_FFFF_FFFF_FFFF

  datatype Presentation = Presentation(presented: u64, dropped: u64, queued: byte, outcome: byte)

  datatype Video = Video(
    width: u32, height: u32, framesDecoded: u32, fpsMilli: Option<u32>, presentation: Option<Presentation>,
    decoderDrops: Option<u32>, jitterBufferMeanMs: Option<u32>, decoder: byte, jitterBufferRecentMs: Option<u32>)
  {
    predicate Valid() {
      && 2 <= width <= 3840 && 2 <= height <= 2160 && width % 2 == 0 && height % 2 == 0
      && (fpsMilli.Some? ==> fpsMilli.value <= 240000)
      && (presentation.Some? ==>
            presentation.value.queued <= 1 && presentation.value.outcome <= 7 &&
            presentation.value.presented <= INT64_MAX && presentation.value.dropped <= INT64_MAX)
      && (jitterBufferMeanMs.Some? ==> jitterBufferMeanMs.value <= 60000)
      && (jitterBufferRecentMs.Some? ==> jitterBufferRecentMs.value <= 60000)
      && decoder <= 2
    }

    /** Some field that version 1 has no room for. */
    predicate Extended() {
      presentation.Some? || decoderDrops.Some? || jitterBufferMeanMs.Some? || jitterBufferRecentMs.Some? || decoder != 0
    }

    function Version(): (v: byte)
      ensures 1 <= v <= 3
    {
      if jitterBufferRecentMs.Some? then 3 else if Extended() then 2 else 1
    }

    function Flags(): (f: byte)
      ensures f <= 31
    {
      Bit(fpsMilli.Some?, 1) + Bit(presentation.Some?, 2) + Bit(decoderDrops.Some?, 4) +
      Bit(jitterBufferMeanMs.Some?, 8) + Bit(jitterBufferRecentMs.Some?, 16)
    }
  }

  datatype Message = Message(connection: seq<byte>, sequence: u64, video: Video)

  function Bit(on: bool, weight: byte): (b: byte)
    ensures b == if on then weight else 0
  {
    if on then weight else 0
  }

  predicate Set(flags: byte, weight: byte)
    requires weight in {1, 2, 4, 8, 16}
  {
    flags / weight % 2 == 1
  }

  lemma FlagsRead(v: Video)
    ensures var f := v.Flags();
      && Set(f, 1) == v.fpsMilli.Some? && Set(f, 2) == v.presentation.Some? && Set(f, 4) == v.decoderDrops.Some?
      && Set(f, 8) == v.jitterBufferMeanMs.Some? && Set(f, 16) == v.jitterBufferRecentMs.Some?
  {
  }

  lemma FlagsAdd(f: byte)
    requires f <= 31
    ensures f == Bit(Set(f, 1), 1) + Bit(Set(f, 2), 2) + Bit(Set(f, 4), 4) + Bit(Set(f, 8), 8) + Bit(Set(f, 16), 16)
    ensures f <= 15 ==> !Set(f, 16)
    ensures f <= 1 ==> !Set(f, 2) && !Set(f, 4) && !Set(f, 8)
  {
  }

  // ----- the blocks of a packet -----

  /** What every version carries. */
  datatype Common = Common(sequence: u64, width: u16, height: u16, framesDecoded: u32, fps: u32) {
    function Bytes(): (s: seq<byte>)
      ensures |s| == 20
    {
      BigEndian(sequence, 8) + BigEndian(width, 2) + BigEndian(height, 2) + BigEndian(framesDecoded, 4) + BigEndian(fps, 4)
    }
  }

  /** What versions 2 and 3 add. */
  datatype Extra = Extra(presented: u64, dropped: u64, queued: byte, outcome: byte, drops: u32, jitter: u32, decoder: byte) {
    function Bytes(): (s: seq<byte>)
      ensures |s| == 27
    {
      BigEndian(presented, 8) + BigEndian(dropped, 8) + BigEndian(queued, 1) + BigEndian(outcome, 1) +
      BigEndian(drops, 4) + BigEndian(jitter, 4) + BigEndian(decoder, 1)
    }
  }

  const NO_EXTRA := Extra(0, 0, 0, 0, 0, 0, 0)

  function ParseCommon(s: seq<byte>): Common
    requires |s| == 20
  {
    FieldBounds(s[0..8]);
    FieldBounds(s[8..10]);
    FieldBounds(s[10..12]);
    FieldBounds(s[12..16]);
    FieldBounds(s[16..20]);
    Common(Number(s[0..8]), Number(s[8..10]), Number(s[10..12]), Number(s[12..16]), Number(s[16..20]))
  }

  function ParseExtra(s: seq<byte>): Extra
    requires |s| == 27
  {
    FieldBounds(s[0..8]);
    FieldBounds(s[8..16]);
    FieldBounds(s[16..17]);
    FieldBounds(s[17..18]);
    FieldBounds(s[18..22]);
    FieldBounds(s[22..26]);
    FieldBounds(s[26..27]);
    Extra(Number(s[0..8]), Number(s[8..16]), Number(s[16..17]), Number(s[17..18]), Number(s[18..22]), Number(s[22..26]), Number(s[26..27]))
  }

  lemma CommonForth(c: Common)
    ensures ParseCommon(c.Bytes()) == c
  {
    var s := c.Bytes();
    FieldRoundTrip(c.sequence, 8);
    FieldRoundTrip(c.width, 2);
    FieldRoundTrip(c.height, 2);
    FieldRoundTrip(c.framesDecoded, 4);
    FieldRoundTrip(c.fps, 4);
    assert s[0..8] == BigEndian(c.sequence, 8);
    assert s[8..10] == BigEndian(c.width, 2);
    assert s[10..12] == BigEndian(c.height, 2);
    assert s[12..16] == BigEndian(c.framesDecoded, 4);
    assert s[16..20] == BigEndian(c.fps, 4);
  }

  lemma CommonBack(s: seq<byte>)
    requires |s| == 20
    ensures ParseCommon(s).Bytes() == s
  {
    BigEndianOfNumber(s[0..8]);
    BigEndianOfNumber(s[8..10]);
    BigEndianOfNumber(s[10..12]);
    BigEndianOfNumber(s[12..16]);
    BigEndianOfNumber(s[16..20]);
    hide BigEndian, Number;
    assert s == s[0..8] + s[8..10] + s[10..12] + s[12..16] + s[16..20];
  }

  lemma ExtraForth(x: Extra)
    ensures ParseExtra(x.Bytes()) == x
  {
    var s := x.Bytes();
    FieldRoundTrip(x.presented, 8);
    FieldRoundTrip(x.dropped, 8);
    FieldRoundTrip(x.queued, 1);
    FieldRoundTrip(x.outcome, 1);
    FieldRoundTrip(x.drops, 4);
    FieldRoundTrip(x.jitter, 4);
    FieldRoundTrip(x.decoder, 1);
    hide BigEndian, Number;
    SevenBlocks(BigEndian(x.presented, 8), BigEndian(x.dropped, 8), BigEndian(x.queued, 1), BigEndian(x.outcome, 1),
                BigEndian(x.drops, 4), BigEndian(x.jitter, 4), BigEndian(x.decoder, 1));
  }

  lemma SevenBlocks(a: seq<byte>, b: seq<byte>, c: seq<byte>, d: seq<byte>, e: seq<byte>, f: seq<byte>, g: seq<byte>)
    requires |a| == 8 && |b| == 8 && |c| == 1 && |d| == 1 && |e| == 4 && |f| == 4 && |g| == 1
    ensures var s := a + b + c + d + e + f + g;
      && s[0..8] == a && s[8..16] == b && s[16..17] == c && s[17..18] == d && s[18..22] == e && s[22..26] == f && s[26..27] == g
  {
  }

  lemma ExtraBack(s: seq<byte>)
    requires |s| == 27
    ensures ParseExtra(s).Bytes() == s
  {
    BigEndianOfNumber(s[0..8]);
    BigEndianOfNumber(s[8..16]);
    BigEndianOfNumber(s[16..17]);
    BigEndianOfNumber(s[17..18]);
    BigEndianOfNumber(s[18..22]);
    BigEndianOfNumber(s[22..26]);
    BigEndianOfNumber(s[26..27]);
    hide BigEndian, Number;
    ExtraSlices(s);
  }

  lemma ExtraSlices(s: seq<byte>)
    requires |s| == 27
    ensures s == s[0..8] + s[8..16] + s[16..17] + s[17..18] + s[18..22] + s[22..26] + s[26..27]
  {
  }

  // ----- messages -----

  predicate Encodable(m: Message) {
    1 <= |m.connection| <= 128 && m.sequence != 0 && m.video.Valid()
  }

  function CommonOf(m: Message): Common
    requires m.video.Valid()
  {
    Common(m.sequence, m.video.width, m.video.height, m.video.framesDecoded, m.video.fpsMilli.GetOr(0))
  }

  function ExtraOf(v: Video): Extra {
    var p := v.presentation.GetOr(Presentation(0, 0, 0, 0));
    Extra(p.presented, p.dropped, p.queued, p.outcome, v.decoderDrops.GetOr(0), v.jitterBufferMeanMs.GetOr(0), v.decoder)
  }

  function Head(version: byte, length: byte, flags: byte): (s: seq<byte>)
    ensures |s| == 6
  {
    SIGNATURE + [version, length, flags]
  }

  function Packed(version: byte, flags: byte, common: seq<byte>, extra: seq<byte>, recent: seq<byte>, connection: seq<byte>): seq<byte>
    requires |connection| <= 128
  {
    Head(version, |connection|, flags) + common + extra + recent + connection
  }

  function Encode(m: Message): seq<byte> {
    if !Encodable(m) then []
    else
      var v := m.video;
      Packed(v.Version(), v.Flags(), CommonOf(m).Bytes(),
             if v.Extended() then ExtraOf(v).Bytes() else [],
             if v.jitterBufferRecentMs.Some? then BigEndian(v.jitterBufferRecentMs.value, 4) else [],
             m.connection)
  }

  function HeaderSize(version: byte): nat {
    if version == 1 then 26 else if version == 2 then 53 else 57
  }

  predicate Framed(b: seq<byte>) {
    && 27 <= |b| <= 185 && b[..3] == SIGNATURE && 1 <= b[3] <= 3 && 1 <= b[4] <= 128
    && |b| == HeaderSize(b[3]) + b[4]
    && b[5] <= (if b[3] == 1 then 1 else if b[3] == 2 then 15 else 31)
    && (b[3] == 3 ==> Set(b[5], 16))
  }

  /** A field that is not flagged has to be zero. */
  predicate Clean(flags: byte, c: Common, x: Extra) {
    && (!Set(flags, 1) ==> c.fps == 0)
    && (!Set(flags, 2) ==> x.presented == 0 && x.dropped == 0 && x.queued == 0 && x.outcome == 0)
    && (!Set(flags, 4) ==> x.drops == 0)
    && (!Set(flags, 8) ==> x.jitter == 0)
  }

  function Optional(on: bool, value: u32): Option<u32> {
    if on then Some(value) else None
  }

  function VideoOf(flags: byte, c: Common, x: Extra, recent: Option<u32>): Video {
    Video(c.width, c.height, c.framesDecoded, Optional(Set(flags, 1), c.fps),
          if Set(flags, 2) then Some(Presentation(x.presented, x.dropped, x.queued, x.outcome)) else None,
          Optional(Set(flags, 4), x.drops), Optional(Set(flags, 8), x.jitter), x.decoder, recent)
  }

  function Recent(b: seq<byte>): Option<u32>
    requires Framed(b)
  {
    FieldBounds(if b[3] == 3 then b[53..57] else []);
    if b[3] == 3 then Some(Number(b[53..57])) else None
  }

  function Decode(b: seq<byte>): Option<Message> {
    if !Framed(b) then None
    else
      var c := ParseCommon(b[6..26]);
      var x := if b[3] >= 2 then ParseExtra(b[26..53]) else NO_EXTRA;
      var m := Message(b[HeaderSize(b[3])..], c.sequence, VideoOf(b[5], c, x, Recent(b)));
      if !Clean(b[5], c, x) || m.sequence == 0 || !m.video.Valid() then None else Some(m)
  }

  /** Taking a message apart into blocks and putting it together again. */
  lemma BlocksForth(m: Message)
    requires Encodable(m)
    ensures var v, c, x := m.video, CommonOf(m), if m.video.Extended() then ExtraOf(m.video) else NO_EXTRA;
      Clean(v.Flags(), c, x) && VideoOf(v.Flags(), c, x, v.jitterBufferRecentMs) == v
  {
    FlagsRead(m.video);
    hide Set, Bit;
  }

  lemma BlocksBack(flags: byte, c: Common, x: Extra, recent: Option<u32>, connection: seq<byte>)
    requires flags <= 31 && Set(flags, 16) == recent.Some? && Clean(flags, c, x)
    requires VideoOf(flags, c, x, recent).Valid()
    ensures var v := VideoOf(flags, c, x, recent);
      v.Flags() == flags && CommonOf(Message(connection, c.sequence, v)) == c && ExtraOf(v) == x
  {
    FlagsAdd(flags);
    hide Set, Bit;
  }

  lemma Unpack(version: byte, flags: byte, common: seq<byte>, extra: seq<byte>, recent: seq<byte>, connection: seq<byte>)
    requires 1 <= version <= 3 && 1 <= |connection| <= 128 && |common| == 20
    requires |extra| == (if version >= 2 then 27 else 0) && |recent| == if version == 3 then 4 else 0
    ensures var b := Packed(version, flags, common, extra, recent, connection);
      && |b| == HeaderSize(version) + |connection| && b[..3] == SIGNATURE
      && b[3] == version && b[4] == |connection| && b[5] == flags && b[6..26] == common
      && (version >= 2 ==> b[26..53] == extra) && (version == 3 ==> b[53..57] == recent)
      && b[HeaderSize(version)..] == connection
  {
  }

  lemma EncodedBlocks(m: Message)
    requires Encodable(m)
    ensures var b, v := Encode(m), m.video;
      && Framed(b) && b[3] == v.Version() && b[5] == v.Flags() && b[6..26] == CommonOf(m).Bytes()
      && (b[3] >= 2 ==> b[26..53] == ExtraOf(v).Bytes())
      && (b[3] == 3 ==> b[53..57] == BigEndian(v.jitterBufferRecentMs.value, 4))
      && b[HeaderSize(b[3])..] == m.connection
  {
    var v := m.video;
    var recent := if v.jitterBufferRecentMs.Some? then BigEndian(v.jitterBufferRecentMs.value, 4) else [];
    FlagsRead(v);
    FlagsBound(v);
    hide Set, Bit, Common.Bytes, Extra.Bytes, BigEndian, Packed, Video.Flags;
    Unpack(v.Version(), v.Flags(), CommonOf(m).Bytes(), if v.Extended() then ExtraOf(v).Bytes() else [], recent, m.connection);
  }

  /** Decoding an encoded message gives it back, in whichever version it was sent; a message that cannot
      be encoded gives no packet at all. */
  lemma DecodeEncode(m: Message)
    ensures Decode(Encode(m)) == if Encodable(m) then Some(m) else None
  {
    if Encodable(m) {
      var v := m.video;
      EncodedBlocks(m);
      CommonForth(CommonOf(m));
      ExtraForth(ExtraOf(v));
      if v.jitterBufferRecentMs.Some? { FieldRoundTrip(v.jitterBufferRecentMs.value, 4); }
      BlocksForth(m);
      hide Set, Bit, Common.Bytes, Extra.Bytes, ParseCommon, ParseExtra, BigEndian, Number, Video.Valid, Clean, VideoOf,
           Encode, Framed, ExtraOf, Video.Flags;
    }
  }

  lemma FlagsBound(v: Video)
    ensures v.Version() == 1 ==> v.Flags() <= 1
    ensures v.Version() == 2 ==> v.Flags() <= 15
  {
  }

  lemma Repack(b: seq<byte>)
    requires Framed(b)
    ensures b == Packed(b[3], b[5], b[6..26], if b[3] >= 2 then b[26..53] else [], if b[3] == 3 then b[53..57] else [], b[HeaderSize(b[3])..])
  {
    assert b == b[..6] + b[6..];
    assert b[..6] == SIGNATURE + [b[3], b[4], b[5]];
    assert b[6..] == b[6..26] + b[26..];
    if b[3] >= 2 { assert b[26..] == b[26..53] + b[53..]; }
    if b[3] == 3 { assert b[53..] == b[53..57] + b[57..]; }
  }

  /** The same packet under version 1, its extended block dropped. */
  function AsVersion1(b: seq<byte>): seq<byte>
    requires Framed(b)
  {
    Packed(1, b[5], b[6..26], [], [], b[HeaderSize(b[3])..])
  }

  /** An accepted packet is the encoding of what it decodes to, except that a version 2 packet without any
      extended field would be sent as version 1. */
  lemma EncodeDecode(b: seq<byte>)
    requires Decode(b).Some?
    ensures var m := Decode(b).value;
      Encodable(m) && Encode(m) == if b[3] == 2 && !m.video.Extended() then AsVersion1(b) else b
  {
    var m := Decode(b).value;
    var c := ParseCommon(b[6..26]);
    var x := if b[3] >= 2 then ParseExtra(b[26..53]) else NO_EXTRA;
    FlagsAdd(b[5]);
    Repack(b);
    CommonBack(b[6..26]);
    if b[3] >= 2 { ExtraBack(b[26..53]); }
    if b[3] == 3 { BigEndianOfNumber(b[53..57]); }
    BlocksBack(b[5], c, x, Recent(b), m.connection);
    assert b[3] == 1 ==> !m.video.Extended();
    assert b[3] == 3 <==> m.video.jitterBufferRecentMs.Some?;
    hide Set, Bit, Common.Bytes, Extra.Bytes, ParseCommon, ParseExtra, BigEndian, Number, Clean, VideoOf, Packed, Video.Flags, Video.Valid;
  }

  /** So only that packet is not sent back as it came. */
  lemma SameBytesExactly(b: seq<byte>)
    requires Decode(b).Some?
    ensures Encode(Decode(b).value) == b <==> !(b[3] == 2 && !Decode(b).value.video.Extended())
  {
    EncodeDecode(b);
  }

  /** And nothing is lost by sending it back as version 1. */
  lemma Version1SaysTheSame(b: seq<byte>)
    requires Decode(b).Some? && b[3] == 2 && !Decode(b).value.video.Extended()
    ensures Decode(AsVersion1(b)) == Decode(b)
  {
    EncodeDecode(b);
    DecodeEncode(Decode(b).value);
  }

  // ----- the writer, the reader and the inbox -----

  method PutCommon(bytes: seq<byte>, c: Common) returns (out: seq<byte>)
    ensures out == bytes + c.Bytes()
  {
    hide BigEndian;
    out := Put(bytes, c.sequence, 8);
    out := Put(out, c.width, 2);
    out := Put(out, c.height, 2);
    out := Put(out, c.framesDecoded, 4);
    out := Put(out, c.fps, 4);
    Flatten(bytes, BigEndian(c.sequence, 8), BigEndian(c.width, 2), BigEndian(c.height, 2), BigEndian(c.framesDecoded, 4), BigEndian(c.fps, 4));
  }

  lemma Flatten(a: seq<byte>, b: seq<byte>, c: seq<byte>, d: seq<byte>, e: seq<byte>, f: seq<byte>)
    ensures a + b + c + d + e + f == a + (b + c + d + e + f)
  {
  }

  method PutExtra(bytes: seq<byte>, x: Extra) returns (out: seq<byte>)
    ensures out == bytes + x.Bytes()
  {
    hide BigEndian;
    out := Put(bytes, x.presented, 8);
    out := Put(out, x.dropped, 8);
    out := Put(out, x.queued, 1);
    out := Put(out, x.outcome, 1);
    out := Put(out, x.drops, 4);
    out := Put(out, x.jitter, 4);
    out := Put(out, x.decoder, 1);
    var first := BigEndian(x.presented, 8) + BigEndian(x.dropped, 8) + BigEndian(x.queued, 1);
    Flatten(bytes, BigEndian(x.presented, 8), BigEndian(x.dropped, 8), BigEndian(x.queued, 1), [], []);
    Flatten(bytes, first, BigEndian(x.outcome, 1), BigEndian(x.drops, 4), BigEndian(x.jitter, 4), BigEndian(x.decoder, 1));
  }

  method EncodeReceiverTelemetry(m: Message) returns (bytes: seq<byte>)
    ensures bytes == Encode(m)
  {
    hide Common.Bytes, Extra.Bytes, BigEndian, Video.Valid;
    if |m.connection| == 0 || |m.connection| > 128 || m.sequence == 0 || !m.video.Valid() { return []; }
    var v := m.video;
    var extended := v.presentation.Some? || v.decoderDrops.Some? || v.jitterBufferMeanMs.Some? || v.jitterBufferRecentMs.Some? || v.decoder != 0;
    var flags := (if v.fpsMilli.Some? then 1 else 0) + (if v.presentation.Some? then 2 else 0) +
                 (if v.decoderDrops.Some? then 4 else 0) + (if v.jitterBufferMeanMs.Some? then 8 else 0) +
                 (if v.jitterBufferRecentMs.Some? then 16 else 0);
    var version: byte := if v.jitterBufferRecentMs.Some? then 3 else if extended then 2 else 1;
    assert flags == v.Flags() && version == v.Version() && extended == v.Extended();
    bytes := SIGNATURE + [version, |m.connection|, flags];
    ghost var head := bytes;
    bytes := PutCommon(bytes, CommonOf(m));
    ghost var common := CommonOf(m).Bytes();
    ghost var extra, recent := [], [];
    if extended {
      bytes := PutExtra(bytes, ExtraOf(v));
      extra := ExtraOf(v).Bytes();
      if v.jitterBufferRecentMs.Some? {
        bytes := Put(bytes, v.jitterBufferRecentMs.value, 4);
        recent := BigEndian(v.jitterBufferRecentMs.value, 4);
      }
    }
    NothingBetween(head + common, extra, recent);
    bytes := bytes + m.connection;
    hide ExtraOf, CommonOf, Video.Flags, Video.Version;
    assert bytes == head + common + extra + recent + m.connection;
  }

  lemma NothingBetween(a: seq<byte>, b: seq<byte>, c: seq<byte>)
    ensures a + [] == a && a + b + [] == a + b && a + [] + [] == a
  {
  }

  /** The checks before anything is read. */
  method CheckFrame(bytes: seq<byte>) returns (framed: bool)
    ensures framed == Framed(bytes)
  {
    if |bytes| < 27 || |bytes| > 185 || bytes[0] != 0x53 || bytes[1] != 0x56 || bytes[2] != 0x54 ||
       bytes[3] < 1 || bytes[3] > 3 || bytes[4] == 0 || bytes[4] > 128 ||
       |bytes| != (if bytes[3] == 1 then 26 else if bytes[3] == 2 then 53 else 57) + bytes[4] ||
       bytes[5] > (if bytes[3] == 1 then 1 else if bytes[3] == 2 then 15 else 31) ||
       (bytes[3] == 3 && !Set(bytes[5], 16)) {
      return false;
    }
    assert bytes[..3] == SIGNATURE;
    framed := true;
  }

  method GetRecent(bytes: seq<byte>) returns (recent: Option<u32>)
    requires Framed(bytes)
    ensures recent == Recent(bytes)
  {
    if bytes[3] != 3 { return None; }
    var number := Get(bytes, 53, 4);
    FieldBounds(bytes[53..57]);
    recent := Some(number);
  }

  method DecodeReceiverTelemetry(bytes: seq<byte>) returns (message: Option<Message>)
    ensures message == Decode(bytes)
  {
    hide ParseCommon, ParseExtra, Number, Set, Video.Valid, Recent;
    var framed := CheckFrame(bytes);
    if !framed { return None; }
    var flags := bytes[5];
    var c := GetCommon(bytes, 6);
    if !Set(flags, 1) && c.fps != 0 { return None; }
    var x := NO_EXTRA;
    if bytes[3] >= 2 {
      x := GetExtra(bytes, 26);
      if !Set(flags, 2) && (x.presented != 0 || x.dropped != 0 || x.queued != 0 || x.outcome != 0) { return None; }
      if !Set(flags, 4) && x.drops != 0 { return None; }
      if !Set(flags, 8) && x.jitter != 0 { return None; }
    }
    var recent := GetRecent(bytes);
    assert Clean(flags, c, x);
    var video := VideoOf(flags, c, x, recent);
    if c.sequence == 0 || !video.Valid() { return None; }
    message := Some(Message(bytes[|bytes| - bytes[4]..], c.sequence, video));
  }

  method GetCommon(bytes: seq<byte>, at: nat) returns (c: Common)
    requires at + 20 <= |bytes|
    ensures c == ParseCommon(bytes[at..at + 20])
  {
    hide Number;
    var sequence := Get(bytes, at, 8);
    var width := Get(bytes, at + 8, 2);
    var height := Get(bytes, at + 10, 2);
    var frames := Get(bytes, at + 12, 4);
    var fps := Get(bytes, at + 16, 4);
    ghost var s := bytes[at..at + 20];
    Subslice(bytes, at, 20, 0, 8);
    Subslice(bytes, at, 20, 8, 10);
    Subslice(bytes, at, 20, 10, 12);
    Subslice(bytes, at, 20, 12, 16);
    Subslice(bytes, at, 20, 16, 20);
    FieldBounds(s[0..8]);
    FieldBounds(s[8..10]);
    FieldBounds(s[10..12]);
    FieldBounds(s[12..16]);
    FieldBounds(s[16..20]);
    c := Common(sequence, width, height, frames, fps);
  }

  method GetExtra(bytes: seq<byte>, at: nat) returns (x: Extra)
    requires at + 27 <= |bytes|
    ensures x == ParseExtra(bytes[at..at + 27])
  {
    hide Number;
    var presented := Get(bytes, at, 8);
    var dropped := Get(bytes, at + 8, 8);
    var queued := Get(bytes, at + 16, 1);
    var outcome := Get(bytes, at + 17, 1);
    var drops := Get(bytes, at + 18, 4);
    var jitter := Get(bytes, at + 22, 4);
    var decoder := Get(bytes, at + 26, 1);
    ghost var s := bytes[at..at + 27];
    Subslice(bytes, at, 27, 0, 8);
    Subslice(bytes, at, 27, 8, 16);
    Subslice(bytes, at, 27, 16, 17);
    Subslice(bytes, at, 27, 17, 18);
    Subslice(bytes, at, 27, 18, 22);
    Subslice(bytes, at, 27, 22, 26);
    Subslice(bytes, at, 27, 26, 27);
    FieldBounds(s[0..8]);
    FieldBounds(s[8..16]);
    FieldBounds(s[16..17]);
    FieldBounds(s[17..18]);
    FieldBounds(s[18..22]);
    FieldBounds(s[22..26]);
    FieldBounds(s[26..27]);
    x := Extra(presented, dropped, queued, outcome, drops, jitter, decoder);
  }

  function Opened(b: seq<byte>): Option<T.Letter<Video>> {
    match Decode(b)
    case None => None
    case Some(m) => Some(T.Letter(m.connection, m.sequence, m.video))
  }

  class ReceiverTelemetryInbox {
    var connection: seq<byte>
    var sequence: u64
    var acceptedInWindow: nat
    var value: Option<Video>
    var sampled: int
    var nextWindow: int

    ghost function View(): T.Inbox<Video>
      reads this
    {
      T.Inbox(connection, sequence, acceptedInWindow, value, sampled, nextWindow)
    }

    constructor ()
      ensures View() == T.Inbox([], 0, 0, None, 0, 0)
    {
      connection, sequence, acceptedInWindow, value, sampled, nextWindow := [], 0, 0, None, 0, 0;
    }

    method Bind(c: seq<byte>)
      modifies this
      ensures View() == old(View()).Bind(c)
    {
      if connection == c { return; }
      connection, sequence, value, sampled, nextWindow, acceptedInWindow := c, 0, None, 0, 0, 0;
    }

    method Receive(bytes: seq<byte>, now: int) returns (taken: bool)
      modifies this
      ensures (View(), taken) == old(View()).Receive(Opened(bytes), now, PACKET_CAP)
    {
      hide Decode;
      if connection == [] { return false; }
      if now >= nextWindow { nextWindow, acceptedInWindow := now + T.SECOND, 0; }
      acceptedInWindow := acceptedInWindow + 1;
      if acceptedInWindow > PACKET_CAP {
        acceptedInWindow := PACKET_CAP;
        return false;
      }
      var message := DecodeReceiverTelemetry(bytes);
      if message.None? || message.value.connection != connection || message.value.sequence <= sequence { return false; }
      sequence, value, sampled := message.value.sequence, Some(message.value.video), now;
      taken := true;
    }

    method Read(now: int) returns (status: T.Status<Video>)
      ensures status == View().Read(now)
    {
      var stale := value.Some? && now - sampled >= T.LEASE;
      status := T.Status(if stale then None else value, stale, if value.Some? then Some(T.Age(now - sampled)) else None);
    }
  }

  /** A well-formed packet for the bound connection with a new sequence number is heard while fewer than four
      packets came within the second before it. */
  lemma FourAreHeard(events: seq<T.Event<Video>>, start: int, bytes: seq<byte>, now: int)
    requires T.Timed(events, start, PACKET_CAP) && start >= 0
    requires T.ReceivedSince(events, start, PACKET_CAP, now - 999_999_999) < 4
    ensures var r, m := T.After(events, start, PACKET_CAP), Decode(bytes);
      r.inbox.Receive(Opened(bytes), now, PACKET_CAP).1 <==>
        && m.Some? && r.inbox.connection != [] && m.value.connection == r.inbox.connection
        && m.value.sequence > if r.log == [] then 0 else r.log[|r.log| - 1].sequence
  {
    T.QuietIsHeard(events, start, PACKET_CAP, Opened(bytes), now);
    hide T.After, T.ReceivedSince, T.Inbox.Receive;
  }

  /** No second sees more than eight accepted. */
  lemma AtMostEightASecond(events: seq<T.Event<Video>>, start: int, i: nat, j: nat)
    requires T.Timed(events, start, PACKET_CAP) && i + 8 <= j < |T.After(events, start, PACKET_CAP).log|
    ensures T.After(events, start, PACKET_CAP).log[j].at - T.After(events, start, PACKET_CAP).log[i].at >= 1_000_000_000
  {
    T.RateIsBounded(events, start, PACKET_CAP, i, j);
  }

  // ----- the packet, field by field -----

  /** What can be sent, in figures. */
  predicate Sendable(m: Message) {
    var v := m.video;
    && 1 <= |m.connection| <= 128 && m.sequence > 0
    && 2 <= v.width <= 3840 && v.width % 2 == 0 && 2 <= v.height <= 2160 && v.height % 2 == 0
    && (v.fpsMilli.Some? ==> v.fpsMilli.value <= 240_000)
    && (v.presentation.Some? ==>
          var p := v.presentation.value;
          p.queued <= 1 && p.outcome <= 7 && p.presented <= 9_223_372_036_854_775_807 && p.dropped <= 9_223_372_036_854_775_807)
    && (v.jitterBufferMeanMs.Some? ==> v.jitterBufferMeanMs.value <= 60_000)
    && (v.jitterBufferRecentMs.Some? ==> v.jitterBufferRecentMs.value <= 60_000)
    && v.decoder <= 2
  }

  /** A packet is written exactly for what can be sent: three letters, version, length, flags, then the fields in
      network order at fixed places, and the connection behind them. */
  lemma WireFormat(m: Message)
    ensures Encode(m) != [] <==> Sendable(m)
    ensures Sendable(m) ==>
      var b, v := Encode(m), m.video;
      var size := if b[3] == 1 then 26 else if b[3] == 2 then 53 else 57;
      && |b| == size + |m.connection| && b[size..] == m.connection
      && b[0] == 0x53 && b[1] == 0x56 && b[2] == 0x54 && b[4] == |m.connection|
      && (b[3] == 3 <==> v.jitterBufferRecentMs.Some?)
      && (b[3] == 1 <==> v.presentation.None? && v.decoderDrops.None? && v.jitterBufferMeanMs.None? && v.jitterBufferRecentMs.None? && v.decoder == 0)
      && b[3] in {1, 2, 3} && b[5] == FlagSum(v)
      && Number(b[6..14]) == m.sequence && Number(b[14..16]) == v.width && Number(b[16..18]) == v.height
      && Number(b[18..22]) == v.framesDecoded && Number(b[22..26]) == v.fpsMilli.GetOr(0)
  {
    if Encodable(m) {
      var b, v, c := Encode(m), m.video, CommonOf(m);
      EncodedBlocks(m);
      CommonForth(c);
      var s := b[6..26];
      hide Encode, Common.Bytes, Extra.Bytes, BigEndian, Video.Valid, Number;
      assert ParseCommon(s) == c;
      Subslice(b, 6, 20, 0, 8);
      Subslice(b, 6, 20, 8, 10);
      Subslice(b, 6, 20, 10, 12);
      Subslice(b, 6, 20, 12, 16);
      Subslice(b, 6, 20, 16, 20);
    }
  }

  /** One bit for each optional field that is there. */
  function FlagSum(v: Video): int {
    (if v.fpsMilli.Some? then 1 else 0) + (if v.presentation.Some? then 2 else 0) + (if v.decoderDrops.Some? then 4 else 0)
    + (if v.jitterBufferMeanMs.Some? then 8 else 0) + (if v.jitterBufferRecentMs.Some? then 16 else 0)
  }

  /** The extended fields of versions 2 and 3, zero where there is nothing to say. */
  lemma ExtendedFormat(m: Message)
    requires Sendable(m) && Encode(m) != [] && |Encode(m)| > 3 && Encode(m)[3] >= 2
    ensures var b, v := Encode(m), m.video;
      var p := v.presentation.GetOr(Presentation(0, 0, 0, 0));
      && |b| > 53
      && Number(b[26..34]) == p.presented && Number(b[34..42]) == p.dropped && Number(b[42..43]) == p.queued
      && Number(b[43..44]) == p.outcome && Number(b[44..48]) == v.decoderDrops.GetOr(0)
      && Number(b[48..52]) == v.jitterBufferMeanMs.GetOr(0) && Number(b[52..53]) == v.decoder
      && (b[3] == 3 ==> |b| > 57 && Number(b[53..57]) == v.jitterBufferRecentMs.GetOr(0))
  {
    var b, v := Encode(m), m.video;
    WireFormat(m);
    EncodedBlocks(m);
    if v.jitterBufferRecentMs.Some? { FieldRoundTrip(v.jitterBufferRecentMs.value, 4); }
    hide Encode, Common.Bytes, Extra.Bytes, BigEndian, Video.Valid, Number;
    ExtraPlaces(b, ExtraOf(v));
  }

  lemma ExtraPlaces(b: seq<byte>, x: Extra)
    requires |b| >= 53 && b[26..53] == x.Bytes()
    ensures Number(b[26..34]) == x.presented && Number(b[34..42]) == x.dropped && Number(b[42..43]) == x.queued
    ensures Number(b[43..44]) == x.outcome && Number(b[44..48]) == x.drops && Number(b[48..52]) == x.jitter && Number(b[52..53]) == x.decoder
  {
    ExtraForth(x);
    var s := b[26..53];
    hide Extra.Bytes, BigEndian, Number;
    assert ParseExtra(s) == x;
    Subslice(b, 26, 27, 0, 8);
    Subslice(b, 26, 27, 8, 16);
    Subslice(b, 26, 27, 16, 17);
    Subslice(b, 26, 27, 17, 18);
    Subslice(b, 26, 27, 18, 22);
    Subslice(b, 26, 27, 22, 26);
    Subslice(b, 26, 27, 26, 27);
  }
}
