/** What the inspection of an access unit reports, in terms of its bytes: unit types 5, 7 and 8 by name. */
module H264Reports {
  import opened Bytes
  import opened AnnexB
  import opened H264Bitstream

  /** One of the three flags. */
  function Reported(info: AccessUnitInfo, kind: int): bool
    requires kind in {5, 7, 8}
  {
    if kind == 5 then info.hasIdrSlice else if kind == 7 then info.hasSps else info.hasPps
  }

  /** After a start code, and any zeros behind it, comes a header of this type. */
  predicate Marks(p: seq<byte>, i: nat, k: nat, kind: int) {
    && i + 3 <= k < |p| && p[i] == 0 && p[i + 1] == 0 && p[i + 2] == 1
    && (forall j :: i + 3 <= j < k ==> p[j] == 0)
    && p[k] % 32 == kind
  }

  /** The first byte that is not zero has this type. */
  predicate BeginsAt(u: seq<byte>, k: nat, kind: int) {
    k < |u| && (forall j :: 0 <= j < k ==> u[j] == 0) && u[k] != 0 && u[k] % 32 == kind
  }

  ghost predicate Begins(u: seq<byte>, kind: int) {
    exists k: nat :: BeginsAt(u, k, kind)
  }

  ghost predicate SomeBegins(units: seq<seq<byte>>, kind: int) {
    exists u :: u in units && Begins(u, kind)
  }

  // ----- byte streams -----

  lemma {:induction false} HeaderBegins(u: seq<byte>, kind: int)
    ensures kind in Kind(HeaderByte(u)) <==> Begins(u, kind)
  {
    if u == [] {
    } else if u[0] != 0 {
      if u[0] % 32 == kind { assert BeginsAt(u, 0, kind); }
    } else {
      HeaderBegins(u[1..], kind);
      if k: nat :| BeginsAt(u, k, kind) { assert BeginsAt(u[1..], k - 1, kind); }
      if k: nat :| BeginsAt(u[1..], k, kind) { assert BeginsAt(u, k + 1, kind); }
    }
  }

  lemma {:induction false} KindsBegin(units: seq<seq<byte>>, kind: int)
    ensures kind in StreamKinds(units) <==> SomeBegins(units, kind)
  {
    if units != [] {
      HeaderBegins(units[0], kind);
      KindsBegin(units[1..], kind);
      hide Begins, HeaderByte;
    }
  }

  /** A byte stream of any units is reported by the first nonzero byte of each: an IDR slice for type 5, a
      sequence parameter set for type 7, a picture parameter set for type 8, and nothing for any other. */
  lemma UnitsAreReported(lead: seq<byte>, units: seq<seq<byte>>, kind: int)
    requires CodeFree(lead) && (forall u :: u in units ==> CodeFree(u)) && units != [] && kind in {5, 7, 8}
    ensures Reported(Inspect(lead + Join(units)), kind) <==> SomeBegins(units, kind)
  {
    SplitIsOnly(lead, units);
    KindsBegin(units, kind);
    hide Split, CodeFree, SomeBegins, StreamKinds;
  }

  predicate Leads(p: seq<byte>, k: nat, kind: int) {
    k < |p| && (forall j :: 0 <= j < k ==> p[j] == 0) && p[k] % 32 == kind
  }

  ghost predicate Led(p: seq<byte>, kind: int) {
    exists k: nat :: Leads(p, k, kind)
  }

  ghost predicate Marked(p: seq<byte>, kind: int) {
    exists i: nat, k: nat :: Marks(p, i, k, kind)
  }

  /** Up to the next start code the first byte that is not zero is the first of the bytes themselves. */
  lemma {:induction false} LeadBegins(p: seq<byte>, kind: int)
    requires kind in {5, 7, 8}
    ensures kind in Kind(HeaderByte(Split(p).lead)) <==> Led(p, kind)
  {
    if StartsCode(p) {
      if k: nat :| Leads(p, k, kind) { assert k <= 2; }
    } else if p != [] {
      SplitByte(p);
      hide Split;
      assert Split(p).lead[1..] == Split(p[1..]).lead;
      if p[0] != 0 {
        if p[0] % 32 == kind { assert Leads(p, 0, kind); }
      } else {
        LeadBegins(p[1..], kind);
        if k: nat :| Leads(p, k, kind) { assert Leads(p[1..], k - 1, kind); }
        if k: nat :| Leads(p[1..], k, kind) { assert Leads(p, k + 1, kind); }
      }
    }
  }

  lemma MarkedCode(p: seq<byte>, kind: int)
    requires StartsCode(p)
    ensures Marked(p, kind) <==> Led(p[3..], kind) || Marked(p[3..], kind)
  {
    var q := p[3..];
    if i: nat, k: nat :| Marks(p, i, k, kind) {
      if i == 0 { assert Leads(q, k - 3, kind); } else { assert i >= 3 && Marks(q, i - 3, k - 3, kind); }
    }
    if k: nat :| Leads(q, k, kind) {
      forall j | 3 <= j < k + 3 ensures p[j] == 0 { assert q[j - 3] == 0; }
      assert Marks(p, 0, k + 3, kind);
    }
    if i: nat, k: nat :| Marks(q, i, k, kind) {
      forall j | i + 6 <= j < k + 3 ensures p[j] == 0 { assert q[j - 3] == 0; }
      assert Marks(p, i + 3, k + 3, kind);
    }
  }

  lemma MarkedByte(p: seq<byte>, kind: int)
    requires p != [] && !StartsCode(p)
    ensures Marked(p, kind) <==> Marked(p[1..], kind)
  {
    var q := p[1..];
    if i: nat, k: nat :| Marks(p, i, k, kind) { assert Marks(q, i - 1, k - 1, kind); }
    if i: nat, k: nat :| Marks(q, i, k, kind) {
      forall j | i + 4 <= j < k + 1 ensures p[j] == 0 { assert q[j - 1] == 0; }
      assert Marks(p, i + 1, k + 1, kind);
    }
  }

  lemma {:induction false} StreamMarks(p: seq<byte>, kind: int)
    requires kind in {5, 7, 8}
    ensures kind in StreamKinds(Split(p).units) <==> Marked(p, kind)
    decreases |p|
  {
    if StartsCode(p) {
      SplitCode(p);
      LeadBegins(p[3..], kind);
      MarkedCode(p, kind);
      StreamMarks(p[3..], kind);
      hide Split, Marked, Led, HeaderByte;
      var rest := Split(p[3..]);
      assert ([rest.lead] + rest.units)[1..] == rest.units;
    } else if p != [] {
      SplitByte(p);
      MarkedByte(p, kind);
      StreamMarks(p[1..], kind);
    }
  }

  /** The same in any packet in which 00 00 01 occurs, by the positions of its bytes alone. */
  lemma StreamIsReported(p: seq<byte>, at: nat, kind: int)
    requires at + 3 <= |p| && p[at] == 0 && p[at + 1] == 0 && p[at + 2] == 1 && kind in {5, 7, 8}
    ensures Reported(Inspect(p), kind) <==> exists i: nat, k: nat :: Marks(p, i, k, kind)
  {
    assert CodeAt(p, at);
    NoUnitExactly(p);
    StreamMarks(p, kind);
    hide Split, StreamKinds;
  }

  // ----- length-prefixed packets -----

  ghost predicate SomeFirst(units: seq<seq<byte>>, kind: int) {
    exists u :: u in units && u != [] && u[0] % 32 == kind
  }

  lemma {:induction false} FirstBytes(units: seq<seq<byte>>, kind: int)
    ensures kind in FirstByteKinds(units) <==> SomeFirst(units, kind)
  {
    if units != [] {
      FirstBytes(units[1..], kind);
      if u :| u in units && u != [] && u[0] % 32 == kind {
        if u != units[0] { assert u in units[1..]; }
      }
    }
  }

  /** Units behind their lengths, in a packet without a start code, are reported by the first byte of each. */
  lemma LengthsAreReported(units: seq<seq<byte>>, width: nat, kind: int)
    requires width in {2, 4} && units != [] && Fits(units, width) && kind in {5, 7, 8}
    requires CodeFree(Serialize(units, width)) && (width == 2 ==> !IsPrefixed(Serialize(units, width), 4))
    ensures Reported(Inspect(Serialize(units, width)), kind) <==> SomeFirst(units, kind)
  {
    ReadByLengths(units, width);
    FirstBytes(units, kind);
    hide Inspect, Serialize, CodeFree, SomeFirst, FirstByteKinds;
  }

  /** Bytes that are neither report nothing. */
  lemma NothingIsReported(p: seq<byte>)
    requires CodeFree(p) && !IsPrefixed(p, 4) && !IsPrefixed(p, 2)
    ensures Inspect(p) == AccessUnitInfo(false, false, false)
  {
    NoUnitExactly(p);
    hide Split, CodeFree;
  }

  // ----- a keyframe in each framing -----

  const KEYFRAME: seq<byte> := [0, 0, 1, 0x67, 0x42, 0, 0, 1, 0x68, 0xce, 0, 0, 1, 0x65, 0x88]
  const LONG_CODES: seq<byte> := [0, 0, 0, 1, 0x67, 0x42, 0, 0, 0, 1, 0x68, 0xce, 0, 0, 0, 1, 0x65, 0x88]
  const LONG_LENGTHS: seq<byte> := [0, 0, 0, 2, 0x67, 0x42, 0, 0, 0, 2, 0x68, 0xce, 0, 0, 0, 2, 0x65, 0x88]
  const SHORT_LENGTHS: seq<byte> := [0, 2, 0x67, 0x42, 0, 2, 0x68, 0xce, 0, 2, 0x65, 0x88]

  lemma MarkIsReported(p: seq<byte>, i: nat, k: nat, kind: int)
    requires Marks(p, i, k, kind) && kind in {5, 7, 8}
    ensures Reported(Inspect(p), kind)
  {
    StreamIsReported(p, i, kind);
    hide Inspect, Reported;
  }

  lemma StreamKeyframes()
    ensures Inspect(KEYFRAME) == AccessUnitInfo(true, true, true)
    ensures Inspect(LONG_CODES) == AccessUnitInfo(true, true, true)
  {
    hide Inspect;
    MarkIsReported(KEYFRAME, 0, 3, 7);
    MarkIsReported(KEYFRAME, 5, 8, 8);
    MarkIsReported(KEYFRAME, 10, 13, 5);
    MarkIsReported(LONG_CODES, 1, 4, 7);
    MarkIsReported(LONG_CODES, 7, 10, 8);
    MarkIsReported(LONG_CODES, 13, 16, 5);
  }

  function Units(): seq<seq<byte>> { [[0x67, 0x42], [0x68, 0xce], [0x65, 0x88]] }

  lemma Length(width: nat)
    requires width in {2, 4}
    ensures BigEndian(2, width) == if width == 2 then [0, 2] else [0, 0, 0, 2]
  {
    assert BigEndian(0, 0) == [] && BigEndian(0, 1) == [0] && BigEndian(0, 2) == [0, 0] && BigEndian(0, 3) == [0, 0, 0];
  }

  lemma SerializedUnit(unit: seq<byte>, units: seq<seq<byte>>, width: nat, rest: seq<byte>)
    requires width in {2, 4} && |unit| == 2 && Fits(units, width) && Serialize(units, width) == rest
    ensures Serialize([unit] + units, width) == (if width == 2 then [0, 2] else [0, 0, 0, 2]) + unit + rest
    ensures Fits([unit] + units, width)
  {
    Length(width);
    Widths();
    SerializeCons(unit, units, width);
    hide *;
  }

  lemma Serialized(width: nat)
    requires width in {2, 4}
    ensures Serialize(Units(), width) == if width == 2 then SHORT_LENGTHS else LONG_LENGTHS
    ensures Fits(Units(), width)
  {
    var units := Units();
    assert units == [units[0]] + ([units[1]] + ([units[2]] + []));
    var length: seq<byte> := if width == 2 then [0, 2] else [0, 0, 0, 2];
    var third := length + units[2] + [];
    var second := length + units[1] + third;
    assert length + units[0] + second == if width == 2 then SHORT_LENGTHS else LONG_LENGTHS;
    hide Serialize, Fits;
    SerializeNone(width);
    SerializedUnit(units[2], [], width, []);
    SerializedUnit(units[1], [units[2]] + [], width, third);
    SerializedUnit(units[0], [units[1]] + ([units[2]] + []), width, second);
  }

  lemma LengthKeyframe(width: nat)
    requires width in {2, 4}
    ensures Inspect(if width == 2 then SHORT_LENGTHS else LONG_LENGTHS) == AccessUnitInfo(true, true, true)
  {
    hide *;
    Serialized(width);
    UnitsBegin();
    LengthsAreFree();
    NotLong();
    LengthsAreReported(Units(), width, 5);
    LengthsAreReported(Units(), width, 7);
    LengthsAreReported(Units(), width, 8);
    AllReported(Inspect(if width == 2 then SHORT_LENGTHS else LONG_LENGTHS));
  }

  lemma AllReported(info: AccessUnitInfo)
    ensures Reported(info, 5) && Reported(info, 7) && Reported(info, 8) ==> info == AccessUnitInfo(true, true, true)
  {
  }

  lemma UnitsBegin()
    ensures Units() != [] && SomeFirst(Units(), 7) && SomeFirst(Units(), 8) && SomeFirst(Units(), 5)
  {
    var units := Units();
    assert units[0] in units && units[1] in units && units[2] in units;
  }

  lemma LengthsAreFree()
    ensures CodeFree(SHORT_LENGTHS) && CodeFree(LONG_LENGTHS)
  {
  }

  lemma NotLong()
    ensures !IsPrefixed(SHORT_LENGTHS, 4)
  {
    var head: seq<byte> := [0, 2, 0x67, 0x42];
    assert SHORT_LENGTHS[..4] == head;
    assert head[..3] == [0, 2, 0x67] && [0, 2, 0x67][..2] == [0, 2] && [0, 2][..1] == [0] && [0][..0] == [];
    assert Number([0]) == 0 && Number([0, 2]) == 2 && Number([0, 2, 0x67]) == 2 * 256 + 0x67;
    assert Number(head) == (2 * 256 + 0x67) * 256 + 0x42;
  }
}
