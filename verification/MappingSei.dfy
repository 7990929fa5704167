/** The frame mapping carried in the access unit itself, as a user_data_unregistered SEI message
    (sections 7.3.2.3.1 and D.1.6 of ITU-T H.264). */
module MappingSei {
  import opened Bytes
  import opened AnnexB
  import opened Emulation

  datatype FrameMapping = FrameMapping(
    generation: u64, width: u16, height: u16, left: u16, top: u16, imageWidth: u16, imageHeight: u16)
  {
    predicate Valid() {
      generation != 0 && 2 <= width <= 3840 && 2 <= height <= 2160 &&
      2 <= imageWidth && 2 <= imageHeight && left + imageWidth <= width && top + imageHeight <= height
    }

    function Fields(): (s: seq<byte>)
      ensures |s| == 20
    {
      BigEndian(generation, 8) + BigEndian(width, 2) + BigEndian(height, 2) + BigEndian(left, 2) +
      BigEndian(top, 2) + BigEndian(imageWidth, 2) + BigEndian(imageHeight, 2)
    }
  }

  const NO_MAPPING := FrameMapping(0, 0, 0, 0, 0, 0, 0)

  const MAPPING_UUID: seq<byte> :=
    [0x71, 0x53, 0x49, 0x4e, 0x90, 0x21, 0x42, 0x91, 0x83, 0x15, 0x62, 0x07, 0x4d, 0x50, 0x01, 0x01]

  const PACKET_LIMIT := 16 * 1024 * 1024
  const UNIT_LIMIT := 4096

  function ParseFields(s: seq<byte>): FrameMapping
    requires |s| == 20
  {
    FieldBounds(s[0..8]);
    FieldBounds(s[8..10]);
    FieldBounds(s[10..12]);
    FieldBounds(s[12..14]);
    FieldBounds(s[14..16]);
    FieldBounds(s[16..18]);
    FieldBounds(s[18..20]);
    FrameMapping(Number(s[0..8]), Number(s[8..10]), Number(s[10..12]), Number(s[12..14]),
                 Number(s[14..16]), Number(s[16..18]), Number(s[18..20]))
  }

  lemma FieldsRoundTrip(m: FrameMapping)
    ensures ParseFields(m.Fields()) == m
  {
    var s := m.Fields();
    FieldRoundTrip(m.generation, 8);
    FieldRoundTrip(m.width, 2);
    FieldRoundTrip(m.height, 2);
    FieldRoundTrip(m.left, 2);
    FieldRoundTrip(m.top, 2);
    FieldRoundTrip(m.imageWidth, 2);
    FieldRoundTrip(m.imageHeight, 2);
    assert s[0..8] == BigEndian(m.generation, 8);
    assert s[8..10] == BigEndian(m.width, 2);
    assert s[10..12] == BigEndian(m.height, 2);
    assert s[12..14] == BigEndian(m.left, 2);
    assert s[14..16] == BigEndian(m.top, 2);
    assert s[16..18] == BigEndian(m.imageWidth, 2);
    assert s[18..20] == BigEndian(m.imageHeight, 2);
  }

  // ----- writing -----

  /** Payload type 5, size 36, the payload, and the stop bit. */
  function Rbsp(m: FrameMapping): (s: seq<byte>)
    ensures |s| == 39
  {
    [5, 36] + MAPPING_UUID + m.Fields() + [0x80]
  }

  function NalBody(m: FrameMapping): seq<byte> {
    [6] + Escape(Rbsp(m), 0)
  }

  function Nal(m: FrameMapping): seq<byte> {
    [0, 0, 0, 1] + NalBody(m)
  }

  /** A coded slice (types 1 and 5) with at least one byte beyond a three-byte code's header. */
  predicate SliceAt(p: seq<byte>, i: nat) {
    i + 4 < |p| && p[i] == 0 && p[i + 1] == 0 &&
    ((p[i + 2] == 1 && p[i + 3] % 32 in {1, 5}) ||
     (p[i + 2] == 0 && p[i + 3] == 1 && p[i + 4] % 32 in {1, 5}))
  }

  ghost predicate FirstSlice(p: seq<byte>, i: nat) {
    SliceAt(p, i) && forall j: nat {:trigger SliceAt(p, j)} :: j < i ==> !SliceAt(p, j)
  }

  ghost predicate NoSlice(p: seq<byte>) {
    forall j: nat {:trigger SliceAt(p, j)} :: !SliceAt(p, j)
  }

  function FindSlice(p: seq<byte>, i: nat): (at: nat)
    ensures i <= |p| ==> at <= |p|
    ensures (forall j: nat {:trigger SliceAt(p, j)} :: j < i ==> !SliceAt(p, j)) ==>
              FirstSlice(p, at) || (NoSlice(p) && at == 0)
    decreases |p| - i
  {
    if i + 4 >= |p| then 0 else if SliceAt(p, i) then i else FindSlice(p, i + 1)
  }

  /** Where the new unit goes: before the first slice, or at the front when there is none. */
  function InsertionPoint(p: seq<byte>): (at: nat)
    ensures at <= |p|
    ensures FirstSlice(p, at) || (NoSlice(p) && at == 0)
  {
    FindSlice(p, 0)
  }

  function Insert(p: seq<byte>, m: FrameMapping): seq<byte> {
    if m.Valid() then p[..InsertionPoint(p)] + Nal(m) + p[InsertionPoint(p)..] else p
  }

  method BuildRbsp(m: FrameMapping) returns (rbsp: seq<byte>)
    ensures rbsp == Rbsp(m)
  {
    hide BigEndian;
    ghost var head := [5, 36] + MAPPING_UUID;
    rbsp := Put([5, 36] + MAPPING_UUID, m.generation, 8);
    rbsp := Put(rbsp, m.width, 2);
    rbsp := Put(rbsp, m.height, 2);
    rbsp := Put(rbsp, m.left, 2);
    assert rbsp == head + (BigEndian(m.generation, 8) + BigEndian(m.width, 2) + BigEndian(m.height, 2) + BigEndian(m.left, 2));
    rbsp := Put(rbsp, m.top, 2);
    rbsp := Put(rbsp, m.imageWidth, 2);
    rbsp := Put(rbsp, m.imageHeight, 2);
    assert rbsp == head + m.Fields();
    rbsp := rbsp + [0x80];
  }

  method FindInsertion(packet: seq<byte>) returns (insertion: nat)
    ensures insertion == InsertionPoint(packet)
  {
    insertion := 0;
    var i := 0;
    while i + 4 < |packet|
      invariant insertion == 0
      invariant FindSlice(packet, 0) == FindSlice(packet, i)
    {
      if packet[i] == 0 && packet[i + 1] == 0 {
        var prefix := if packet[i + 2] == 1 then 3 else if packet[i + 2] == 0 && packet[i + 3] == 1 then 4 else 0;
        if prefix != 0 && i + prefix < |packet| {
          var kind := packet[i + prefix] % 32;
          if kind == 1 || kind == 5 {
            insertion := i;
            break;
          }
        }
      }
      i := i + 1;
    }
  }

  method InsertMappingSei(packet: seq<byte>, mapping: FrameMapping) returns (out: seq<byte>)
    ensures out == Insert(packet, mapping)
  {
    if !mapping.Valid() { return packet; }
    var rbsp := BuildRbsp(mapping);
    var nal := EscapeOnto([0, 0, 0, 1, 6], rbsp);
    assert nal == Nal(mapping);
    var insertion := FindInsertion(packet);
    out := packet[..insertion] + nal + packet[insertion..];
  }

  // ----- reading -----

  /** A number coded as a run of 255s and a final smaller byte, with the position after it. */
  function FfCode(t: seq<byte>, at: nat): (r: Option<(nat, nat)>)
    ensures r.Some? ==> at < r.value.1 <= |t|
    decreases |t| - at
  {
    if at >= |t| then None
    else if t[at] == 255 then
      match FfCode(t, at + 1) case None => None case Some(r) => Some((r.0 + 255, r.1))
    else Some((t[at], at + 1))
  }

  function StripZeros(t: seq<byte>): (r: seq<byte>)
    ensures r <= t && (r == [] || r[|r| - 1] != 0)
    ensures forall k :: |r| <= k < |t| ==> t[k] == 0
  {
    if t != [] && t[|t| - 1] == 0 then StripZeros(t[..|t| - 1]) else t
  }

  predicate IsMapping(t: seq<byte>, kind: nat, size: nat, at: nat) {
    kind == 5 && size >= 16 && at + 16 <= |t| && t[at..at + 16] == MAPPING_UUID
  }

  /** The messages of one SEI unit from `at`, with the mapping found so far. */
  function Messages(t: seq<byte>, at: nat, found: FrameMapping): Option<FrameMapping>
    decreases |t| - at
  {
    if at + 2 <= |t| && t[at] != 0x80 then
      match FfCode(t, at)
      case None => None
      case Some((kind, at1)) =>
        match FfCode(t, at1)
        case None => None
        case Some((size, at2)) =>
          if size > |t| - at2 then None
          else if IsMapping(t, kind, size, at2) then
            if size != 36 || found.generation != 0 then None
            else
              var m := ParseFields(t[at2 + 16..at2 + 36]);
              if m.Valid() then Messages(t, at2 + size, m) else None
          else Messages(t, at2 + size, found)
    else Some(found)
  }

  predicate IsSei(unit: seq<byte>) {
    unit != [] && unit[0] % 32 == 6
  }

  function Trimmed(rbsp: seq<byte>, found: FrameMapping): Option<FrameMapping> {
    var t := StripZeros(rbsp);
    if t == [] || t[|t| - 1] != 0x80 then None else Messages(t, 0, found)
  }

  function ReadUnit(unit: seq<byte>, found: FrameMapping): Option<FrameMapping> {
    if !IsSei(unit) then Some(found)
    else if |unit| > UNIT_LIMIT then None
    else match Unescape(unit[1..], 0) case None => None case Some(rbsp) => Trimmed(rbsp, found)
  }

  function ReadUnits(units: seq<seq<byte>>, found: FrameMapping): Option<FrameMapping> {
    if units == [] then Some(found)
    else match ReadUnit(units[0], found)
         case None => None
         case Some(next) => ReadUnits(units[1..], next)
  }

  /** What a receiver sees in a packet. */
  function Read(p: seq<byte>): FrameMapping {
    if |p| > PACKET_LIMIT then NO_MAPPING else ReadUnits(Split(p).units, NO_MAPPING).GetOr(NO_MAPPING)
  }

  method FindCode(p: seq<byte>, from: nat) returns (at: nat)
    requires from <= |p|
    ensures from <= at <= |p| && (at == |p| || CodeAt(p, at))
    ensures Split(p[from..]) == Stream(p[from..at], Split(p[at..]).units)
  {
    at := from;
    while at + 3 <= |p|
      invariant from <= at <= |p|
      invariant forall j: nat {:trigger CodeAt(p, j)} :: from <= j < at ==> !CodeAt(p, j)
    {
      if p[at] == 0 && p[at + 1] == 0 && p[at + 2] == 1 { break; }
      at := at + 1;
    }
    if at + 3 > |p| { at := |p|; }
    forall j: nat | j < at - from ensures !CodeAt(p[from..], j) {
      assert !CodeAt(p, from + j);
    }
    SplitFree(p[from..], at - from);
    assert p[from..][..at - from] == p[from..at] && p[from..][at - from..] == p[at..];
    assert Split(p[at..]).lead == [];
  }

  method ReadFfCode(t: seq<byte>, from: nat) returns (code: Option<(nat, nat)>)
    ensures code == FfCode(t, from)
  {
    var value: nat, at: nat := 0, from;
    while at < |t| && t[at] == 255
      invariant FfCode(t, from) ==
                (match FfCode(t, at) case None => None case Some(r) => Some((r.0 + value, r.1)))
      decreases |t| - at
    {
      value, at := value + 255, at + 1;
    }
    if at >= |t| { return None; }
    code := Some((value + t[at], at + 1));
  }

  method Strip(rbsp: seq<byte>) returns (t: seq<byte>)
    ensures t == StripZeros(rbsp)
  {
    t := rbsp;
    while t != [] && t[|t| - 1] == 0
      invariant StripZeros(t) == StripZeros(rbsp)
    {
      t := t[..|t| - 1];
    }
  }

  method ReadMessages(t: seq<byte>, found: FrameMapping) returns (result: Option<FrameMapping>)
    ensures result == Messages(t, 0, found)
  {
    var current, at: nat := found, 0;
    while at + 2 <= |t| && t[at] != 0x80
      invariant Messages(t, 0, found) == Messages(t, at, current)
      decreases |t| - at
    {
      var kind := ReadFfCode(t, at);
      if kind.None? { return None; }
      var size := ReadFfCode(t, kind.value.1);
      if size.None? { return None; }
      var start := size.value.1;
      if size.value.0 > |t| - start { return None; }
      if IsMapping(t, kind.value.0, size.value.0, start) {
        if size.value.0 != 36 || current.generation != 0 { return None; }
        current := ReadFields(t, start + 16);
        if !current.Valid() { return None; }
      }
      at := start + size.value.0;
    }
    result := Some(current);
  }

  method ReadFields(t: seq<byte>, at: nat) returns (m: FrameMapping)
    requires at + 20 <= |t|
    ensures m == ParseFields(t[at..at + 20])
  {
    ghost var s := t[at..at + 20];
    forall i: nat, j: nat | i <= j <= 20 ensures s[i..j] == t[at + i..at + j] {
      Subslice(t, at, 20, i, j);
    }
    ghost var parsed := ParseFields(s);
    var generation := Get(t, at, 8);
    assert s[0..8] == t[at..at + 8];
    var width := Get(t, at + 8, 2);
    var height := Get(t, at + 10, 2);
    var left := Get(t, at + 12, 2);
    var top := Get(t, at + 14, 2);
    var imageWidth := Get(t, at + 16, 2);
    var imageHeight := Get(t, at + 18, 2);
    assert width == parsed.width && height == parsed.height && left == parsed.left && top == parsed.top;
    assert generation == parsed.generation && imageWidth == parsed.imageWidth && imageHeight == parsed.imageHeight;
    m := FrameMapping(generation, width, height, left, top, imageWidth, imageHeight);
  }

  /** The unit at a start code is read first, then what follows it. */
  lemma ReadFirst(p: seq<byte>, begin: nat, end: nat, found: FrameMapping)
    requires CodeAt(p, begin) && begin + 3 <= end <= |p|
    requires Split(p[begin + 3..]) == Stream(p[begin + 3..end], Split(p[end..]).units)
    ensures ReadUnits(Split(p[begin..]).units, found) ==
            match ReadUnit(p[begin + 3..end], found)
            case None => None
            case Some(next) => ReadUnits(Split(p[end..]).units, next)
  {
    var unit, rest := p[begin + 3..end], Split(p[end..]).units;
    assert p[begin..][3..] == p[begin + 3..];
    SplitCode(p[begin..]);
    hide Split, ReadUnit;
    assert ([unit] + rest)[1..] == rest;
  }

  lemma ReadNothing()
    ensures Split([]).units == [] && forall found :: ReadUnits([], found) == Some(found)
  {
  }

  method ReadMappingSei(packet: seq<byte>) returns (result: FrameMapping)
    ensures result == Read(packet)
  {
    hide Unescape, StripZeros, Messages, Split, ReadUnits;
    ReadNothing();
    if |packet| > PACKET_LIMIT { return NO_MAPPING; }
    result := NO_MAPPING;
    assert packet[0..] == packet;
    var begin := FindCode(packet, 0);
    while begin < |packet|
      invariant begin == |packet| || CodeAt(packet, begin)
      invariant ReadUnits(Split(packet).units, NO_MAPPING) == ReadUnits(Split(packet[begin..]).units, result)
      decreases |packet| - begin
    {
      var header := begin + 3;
      var end := FindCode(packet, header);
      var unit := packet[header..end];
      ReadFirst(packet, begin, end, result);
      if header >= |packet| {
        assert packet[end..] == [];
        return result;
      }
      if header == end { assert packet[header] == 0; }
      if packet[header] % 32 == 6 {
        if end - header > UNIT_LIMIT { return NO_MAPPING; }
        assert unit[1..] == packet[header + 1..end];
        var rbsp := Unescaped(packet[header + 1..end]);
        if rbsp.None? { return NO_MAPPING; }
        var t := Strip(rbsp.value);
        if t == [] || t[|t| - 1] != 0x80 { return NO_MAPPING; }
        var next := ReadMessages(t, result);
        if next.None? { return NO_MAPPING; }
        result := next.value;
      }
      begin := end;
    }
    assert packet[begin..] == [];
  }
}
