/** Which unit types an access unit holds, in either framing. */
module H264Bitstream {
  import opened Bytes
  import opened AnnexB

  datatype AccessUnitInfo = AccessUnitInfo(hasIdrSlice: bool, hasSps: bool, hasPps: bool)

  const NO_FLAGS := AccessUnitInfo(false, false, false)

  function Flags(kinds: set<int>): AccessUnitInfo {
    AccessUnitInfo(5 in kinds, 7 in kinds, 8 in kinds)
  }

  /** The first byte of a unit that is not zero. */
  function HeaderByte(unit: seq<byte>): Option<byte> {
    if unit == [] then None else if unit[0] != 0 then Some(unit[0]) else HeaderByte(unit[1..])
  }

  function Kind(header: Option<byte>): set<int> {
    match header case None => {} case Some(b) => {b % 32}
  }

  function StreamKinds(units: seq<seq<byte>>): set<int> {
    if units == [] then {} else Kind(HeaderByte(units[0])) + StreamKinds(units[1..])
  }

  /** The units of a length-prefixed packet, when the lengths account for every byte. */
  function Prefixed(p: seq<byte>, width: nat): Option<seq<seq<byte>>>
    requires 0 < width
    decreases |p|
  {
    if p == [] then Some([])
    else if |p| < width then None
    else
      var length := Number(p[..width]);
      if length == 0 || length > |p| - width then None
      else match Prefixed(p[width + length..], width)
           case None => None
           case Some(units) => Some([p[width..width + length]] + units)
  }

  function FirstByteKinds(units: seq<seq<byte>>): set<int> {
    if units == [] then {}
    else (if units[0] == [] then {} else {units[0][0] % 32}) + FirstByteKinds(units[1..])
  }

  predicate IsPrefixed(p: seq<byte>, width: nat)
    requires 0 < width
  {
    p != [] && Prefixed(p, width).Some?
  }

  /** How a packet is read: as a byte stream, by lengths of so many bytes, or not at all. */
  datatype Framing = ByteStream | Lengths(width: nat) | Unframed

  /** Annex B wins whenever a start code occurs anywhere, then four-byte and two-byte lengths. */
  function FramingOf(p: seq<byte>): (f: Framing)
    ensures f.Lengths? ==> f.width > 0 && IsPrefixed(p, f.width)
  {
    if Split(p).units != [] then ByteStream
    else if IsPrefixed(p, 4) then Lengths(4)
    else if IsPrefixed(p, 2) then Lengths(2)
    else Unframed
  }

  function Inspect(p: seq<byte>): AccessUnitInfo {
    match FramingOf(p)
    case ByteStream => Flags(StreamKinds(Split(p).units))
    case Lengths(width) => Flags(FirstByteKinds(Prefixed(p, width).value))
    case Unframed => NO_FLAGS
  }

  // ----- the length-prefixed framing -----

  function Serialize(units: seq<seq<byte>>, width: nat): seq<byte> {
    if units == [] then [] else BigEndian(|units[0]|, width) + units[0] + Serialize(units[1..], width)
  }

  predicate Fits(units: seq<seq<byte>>, width: nat) {
    forall u :: u in units ==> 0 < |u| < Pow256(width)
  }

  lemma ThreeParts(a: seq<byte>, b: seq<byte>, c: seq<byte>)
    ensures var p := a + b + c; p[..|a|] == a && p[|a|..|a| + |b|] == b && p[|a| + |b|..] == c
  {
  }

  lemma CutTwice(p: seq<byte>, i: nat, j: nat)
    requires i <= j <= |p|
    ensures p == p[..i] + p[i..j] + p[j..]
  {
  }

  /** The first unit is parsed off, then the rest. */
  lemma PrefixedCons(unit: seq<byte>, rest: seq<byte>, width: nat)
    requires 0 < width && 0 < |unit| < Pow256(width)
    ensures var p := BigEndian(|unit|, width) + unit + rest;
      Prefixed(p, width) ==
        match Prefixed(rest, width) case None => None case Some(units) => Some([unit] + units)
  {
    NumberOfBigEndian(|unit|, width);
    hide BigEndian, Number;
    ThreeParts(BigEndian(|unit|, width), unit, rest);
  }

  lemma {:induction false} PrefixedOfSerialized(units: seq<seq<byte>>, width: nat)
    requires 0 < width && Fits(units, width)
    ensures Prefixed(Serialize(units, width), width) == Some(units)
  {
    if units != [] {
      var rest := Serialize(units[1..], width);
      assert Serialize(units, width) == BigEndian(|units[0]|, width) + units[0] + rest;
      assert 0 < |units[0]| < Pow256(width) && Fits(units[1..], width);
      assert [units[0]] + units[1..] == units;
      hide Prefixed, Serialize, BigEndian, Fits, Pow256;
      PrefixedOfSerialized(units[1..], width);
      PrefixedCons(units[0], rest, width);
    }
  }

  lemma SerializeNone(width: nat)
    ensures Serialize([], width) == [] && Fits([], width)
  {
  }

  lemma SerializeCons(unit: seq<byte>, units: seq<seq<byte>>, width: nat)
    ensures Serialize([unit] + units, width) == BigEndian(|unit|, width) + unit + Serialize(units, width)
    ensures Fits(units, width) && 0 < |unit| < Pow256(width) ==> Fits([unit] + units, width)
  {
    assert ([unit] + units)[1..] == units;
  }

  lemma {:induction false} SerializedOfPrefixed(p: seq<byte>, width: nat)
    requires 0 < width && Prefixed(p, width).Some?
    ensures Serialize(Prefixed(p, width).value, width) == p && Fits(Prefixed(p, width).value, width)
    decreases |p|
  {
    hide Number, BigEndian, Serialize, Fits;
    if p != [] {
      var length := Number(p[..width]);
      var unit, rest := p[width..width + length], p[width + length..];
      BigEndianOfNumber(p[..width]);
      SerializedOfPrefixed(rest, width);
      SerializeCons(unit, Prefixed(rest, width).value, width);
      CutTwice(p, width, width + length);
    } else {
      SerializeNone(width);
    }
  }

  /** Parsing accepts exactly the serializations of nonempty units, and gives the units back. */
  lemma PrefixedExact(p: seq<byte>, width: nat, units: seq<seq<byte>>)
    requires 0 < width
    ensures Prefixed(p, width) == Some(units) <==> p == Serialize(units, width) && Fits(units, width)
  {
    if Prefixed(p, width) == Some(units) {
      SerializedOfPrefixed(p, width);
    }
    if Fits(units, width) {
      PrefixedOfSerialized(units, width);
    }
  }

  lemma SerializedIsSomething(units: seq<seq<byte>>, width: nat)
    requires 0 < width && units != []
    ensures Serialize(units, width) != []
  {
    hide BigEndian;
  }

  /** A length-prefixed packet is read by its lengths exactly when no start code occurs in it, and for
      two-byte lengths only if it does not happen to parse with four-byte ones; then all its units count. */
  lemma ReadByLengths(units: seq<seq<byte>>, width: nat)
    requires width in {2, 4} && units != [] && Fits(units, width)
    ensures var p := Serialize(units, width);
      && (FramingOf(p) == Lengths(width) <==> CodeFree(p) && (width == 2 ==> !IsPrefixed(p, 4)))
      && (CodeFree(p) && (width == 2 ==> !IsPrefixed(p, 4)) ==> Inspect(p) == Flags(FirstByteKinds(units)))
      && (!CodeFree(p) ==> FramingOf(p) == ByteStream)
  {
    var p := Serialize(units, width);
    PrefixedOfSerialized(units, width);
    SerializedIsSomething(units, width);
    NoUnitExactly(p);
    hide Split, CodeFree, Serialize, Prefixed, Fits, FirstByteKinds, StreamKinds;
  }

  /** Where a unit's length stands in the packet. */
  lemma {:induction false} LengthStands(units: seq<seq<byte>>, width: nat, i: nat) returns (k: nat)
    requires i < |units|
    ensures var p := Serialize(units, width);
      k + width <= |p| && p[k..k + width] == BigEndian(|units[i]|, width)
    decreases |units|
  {
    var first, rest := BigEndian(|units[0]|, width) + units[0], Serialize(units[1..], width);
    assert Serialize(units, width) == first + rest;
    hide BigEndian, Serialize;
    if i == 0 {
      k := 0;
      assert (first + rest)[..width] == BigEndian(|units[0]|, width);
    } else {
      var j := LengthStands(units[1..], width, i - 1);
      k := |first| + j;
      assert (first + rest)[k..k + width] == rest[j..j + width];
    }
  }

  /** The four length bytes of a unit of 256 to 511 bytes begin with a start code. */
  lemma LengthIsCode(n: nat)
    requires 256 <= n <= 511
    ensures BigEndian(n, 4) == [0, 0, 1, n - 256]
  {
    assert n / 256 == 1 && n % 256 == n - 256;
    assert BigEndian(1, 3) == BigEndian(0, 2) + [1];
    assert BigEndian(0, 2) == BigEndian(0, 1) + [0] && BigEndian(0, 1) == BigEndian(0, 0) + [0];
  }

  /** So every packet with such a unit is taken for a byte stream, whatever else is in it. */
  lemma MediumUnitsAreMisread(units: seq<seq<byte>>, i: nat)
    requires i < |units| && 256 <= |units[i]| <= 511
    ensures FramingOf(Serialize(units, 4)) == ByteStream
  {
    var p := Serialize(units, 4);
    var k := LengthStands(units, 4, i);
    LengthIsCode(|units[i]|);
    assert p[k] == p[k..k + 4][0] && p[k + 1] == p[k..k + 4][1] && p[k + 2] == p[k..k + 4][2];
    assert CodeAt(p, k);
    NoUnitExactly(p);
    hide Serialize, Split;
  }

  const ZEROS: seq<byte> := seq(260, i => 0)
  const CODED_SLICE: seq<byte> := [1] + ZEROS

  lemma {:induction false} ZerosAreNothing(s: seq<byte>)
    requires forall i :: 0 <= i < |s| ==> s[i] == 0
    ensures HeaderByte(s) == None && CodeFree(s)
  {
    if s != [] { ZerosAreNothing(s[1..]); }
  }

  /** What follows the start code in the length: one unit that seems to begin with 5. */
  lemma SliceStream()
    ensures Serialize([CODED_SLICE], 4) == [0, 0, 1] + ([5] + CODED_SLICE)
    ensures Split(Serialize([CODED_SLICE], 4)).units == [[5] + CODED_SLICE]
  {
    var units: seq<seq<byte>>, unit: seq<byte> := [CODED_SLICE], [5] + CODED_SLICE;
    assert units[1..] == [] && Serialize([], 4) == [];
    LengthIsCode(261);
    var p := Serialize(units, 4);
    assert p == [0, 0, 1] + unit;
    ZerosAreNothing(ZEROS);
    var none: seq<byte> := [];
    assert CodeFree(none) && CodeFree(unit);
    assert [unit][1..] == [] && Join([unit][1..]) == [];
    assert none + Join([unit]) == p;
    hide Split, Serialize, CodeFree;
    SplitIsOnly(none, [unit]);
  }

  /** One non-IDR slice of 261 bytes behind its length is reported as an IDR slice: the last length byte
      is taken for the unit's header. */
  lemma SliceReportedAsIdr()
    ensures Fits([CODED_SLICE], 4) && FirstByteKinds([CODED_SLICE]) == {1}
    ensures Inspect(Serialize([CODED_SLICE], 4)) == AccessUnitInfo(true, false, false)
  {
    SliceStream();
    Widths();
    var unit: seq<byte> := [5] + CODED_SLICE;
    assert [CODED_SLICE][1..] == [] && [unit][1..] == [];
    assert HeaderByte(unit) == Some(5);
    hide Split, Serialize;
    assert StreamKinds([unit]) == {5};
  }

  // ----- the scanners -----

  datatype StartCode = StartCode(offset: nat, length: nat) {
    /** Where the three-byte code begins: a four-byte code is one with a zero before it. */
    function Core(): int { offset + length - 3 }

    predicate In(bytes: seq<byte>) {
      length in {3, 4} && CodeAt(bytes, offset + length - 3) && (length == 4 ==> bytes[offset] == 0)
    }
  }

  /** The units from a start code on. */
  ghost function Remaining(bytes: seq<byte>, code: Option<StartCode>): seq<seq<byte>>
    requires code.Some? ==> code.value.In(bytes)
  {
    if code.Some? then Split(bytes[code.value.Core()..]).units else []
  }

  ghost predicate IsNextCode(bytes: seq<byte>, offset: nat, code: Option<StartCode>)
    requires offset <= |bytes|
  {
    && (code.Some? ==> code.value.In(bytes) && offset <= code.value.offset)
    && Split(bytes[offset..]) ==
       Stream(bytes[offset..if code.Some? then code.value.Core() else |bytes|], Remaining(bytes, code))
  }

  /** One step of the scan: a unit, possibly with the zero of a four-byte code, then the rest. */
  lemma Advance(bytes: seq<byte>, code: StartCode, next: Option<StartCode>) returns (unit: seq<byte>)
    requires code.In(bytes) && IsNextCode(bytes, code.Core() + 3, next)
    ensures Remaining(bytes, Some(code)) == [unit] + Remaining(bytes, next)
    ensures var start, end := code.Core() + 3, if next.Some? then next.value.offset else |bytes|;
      unit == bytes[start..end] || unit == bytes[start..end] + [0]
  {
    var start := code.Core() + 3;
    assert bytes[code.Core()..][3..] == bytes[start..];
    unit := Split(bytes[start..]).lead;
    if next.Some? && next.value.length == 4 {
      assert unit == bytes[start..next.value.offset] + [0];
    }
  }

  lemma HasUnit(bytes: seq<byte>, code: StartCode)
    requires code.In(bytes)
    ensures Remaining(bytes, Some(code)) != []
  {
    assert StartsCode(bytes[code.Core()..]);
  }

  method FindAnnexBStartCode(bytes: seq<byte>, offset: nat) returns (code: Option<StartCode>)
    requires offset <= |bytes|
    ensures IsNextCode(bytes, offset, code)
  {
    hide Split;
    var i := offset;
    while i + 2 < |bytes|
      invariant offset <= i
      invariant forall j: nat {:trigger CodeAt(bytes, j)} :: offset <= j < i ==> !CodeAt(bytes, j)
    {
      if bytes[i] == 0 && bytes[i + 1] == 0 {
        if bytes[i + 2] == 1 {
          Lead(bytes, offset, i);
          return Some(StartCode(i, 3));
        }
        if i + 3 < |bytes| && bytes[i + 2] == 0 && bytes[i + 3] == 1 {
          assert !CodeAt(bytes, i);
          Lead(bytes, offset, i + 1);
          return Some(StartCode(i, 4));
        }
      }
      i := i + 1;
    }
    code := None;
    Lead(bytes, offset, |bytes|);
    SplitNothing(bytes);
  }

  lemma SplitNothing(bytes: seq<byte>)
    ensures Split(bytes[|bytes|..]) == Stream([], [])
  {
  }

  lemma Lead(bytes: seq<byte>, offset: nat, at: nat)
    requires offset <= at <= |bytes| && (at == |bytes| || CodeAt(bytes, at))
    requires forall j: nat {:trigger CodeAt(bytes, j)} :: offset <= j < at ==> !CodeAt(bytes, j)
    ensures Split(bytes[offset..]) == Stream(bytes[offset..at], Split(bytes[at..]).units)
  {
    var p := bytes[offset..];
    forall j: nat | j < at - offset ensures !CodeAt(p, j) {
      assert CodeAt(p, j) ==> CodeAt(bytes, offset + j);
    }
    SplitFree(p, at - offset);
    assert p[..at - offset] == bytes[offset..at] && p[at - offset..] == bytes[at..];
    assert Split(bytes[at..]).lead == [];
  }

  lemma {:induction false} HeaderByteTrailingZero(unit: seq<byte>)
    ensures HeaderByte(unit + [0]) == HeaderByte(unit)
  {
    if unit == [] {
      assert (unit + [0])[1..] == [];
    } else {
      assert (unit + [0])[1..] == unit[1..] + [0];
      HeaderByteTrailingZero(unit[1..]);
    }
  }

  function AddNalUnit(info: AccessUnitInfo, header: byte): AccessUnitInfo {
    match header % 32
    case 5 => info.(hasIdrSlice := true)
    case 7 => info.(hasSps := true)
    case 8 => info.(hasPps := true)
    case _ => info
  }

  lemma AddedKind(kinds: set<int>, header: byte)
    ensures AddNalUnit(Flags(kinds), header) == Flags(kinds + {header % 32})
  {
  }

  method SkipZeros(bytes: seq<byte>, from: nat, end: nat) returns (at: nat)
    requires from <= end <= |bytes|
    ensures from <= at <= end
    ensures HeaderByte(bytes[from..end]) == if at < end then Some(bytes[at]) else None
  {
    at := from;
    while at < end && bytes[at] == 0
      invariant from <= at <= end
      invariant HeaderByte(bytes[from..end]) == HeaderByte(bytes[at..end])
    {
      assert bytes[at..end][1..] == bytes[at + 1..end];
      at := at + 1;
    }
  }

  /** `unit` may run one zero past `end`, when a four-byte start code follows. */
  method AddUnit(bytes: seq<byte>, start: nat, end: nat, ghost unit: seq<byte>, before: AccessUnitInfo, ghost kinds: set<int>)
    returns (info: AccessUnitInfo)
    requires start <= end <= |bytes| && before == Flags(kinds)
    requires unit == bytes[start..end] || unit == bytes[start..end] + [0]
    ensures info == Flags(kinds + Kind(HeaderByte(unit)))
  {
    info := before;
    HeaderByteTrailingZero(bytes[start..end]);
    var at := SkipZeros(bytes, start, end);
    if at < end {
      info := AddNalUnit(info, bytes[at]);
    }
  }

  lemma UnionAssociates(a: set<int>, b: set<int>, c: set<int>)
    ensures a + b + c == a + (b + c)
  {
  }

  lemma NoKinds()
    ensures StreamKinds([]) == {}
  {
  }

  lemma KindsCons(unit: seq<byte>, units: seq<seq<byte>>)
    ensures StreamKinds([unit] + units) == Kind(HeaderByte(unit)) + StreamKinds(units)
  {
    assert ([unit] + units)[1..] == units;
  }

  method InspectAnnexB(bytes: seq<byte>) returns (found: bool, info: AccessUnitInfo)
    ensures found <==> Split(bytes).units != []
    ensures info == Flags(StreamKinds(Split(bytes).units))
  {
    hide Split, StreamKinds, Kind, HeaderByte;
    info := NO_FLAGS;
    assert bytes[0..] == bytes;
    var code := FindAnnexBStartCode(bytes, 0);
    assert Split(bytes).units == Remaining(bytes, code);
    if code.None? { NoKinds(); return false, info; }
    HasUnit(bytes, code.value);
    ghost var kinds := {};
    while code.Some?
      invariant code.Some? ==> code.value.In(bytes)
      invariant info == Flags(kinds)
      invariant StreamKinds(Split(bytes).units) == kinds + StreamKinds(Remaining(bytes, code))
      decreases if code.Some? then |bytes| - code.value.Core() else 0
    {
      var nalStart := code.value.offset + code.value.length;
      var next := FindAnnexBStartCode(bytes, nalStart);
      var nalEnd := if next.Some? then next.value.offset else |bytes|;
      ghost var unit := Advance(bytes, code.value, next);
      info := AddUnit(bytes, nalStart, nalEnd, unit, info, kinds);
      KindsCons(unit, Remaining(bytes, next));
      UnionAssociates(kinds, Kind(HeaderByte(unit)), StreamKinds(Remaining(bytes, next)));
      kinds := kinds + Kind(HeaderByte(unit));
      code := next;
    }
    NoKinds();
    found := true;
  }

  /** What is left to parse decides acceptance, and adds its kinds to those found. */
  ghost predicate Accounts(p: seq<byte>, width: nat, kinds: set<int>, rest: seq<byte>)
    requires 0 < width
  {
    var all, more := Prefixed(p, width), Prefixed(rest, width);
    all.Some? == more.Some? && (all.Some? ==> FirstByteKinds(all.value) == kinds + FirstByteKinds(more.value))
  }

  lemma AccountsStart(p: seq<byte>, width: nat)
    requires 0 < width
    ensures Accounts(p, width, {}, p)
  {
  }

  lemma AccountsStep(p: seq<byte>, width: nat, kinds: set<int>, rest: seq<byte>)
    requires 0 < width < |rest| && 0 < Number(rest[..width]) <= |rest| - width
    requires Accounts(p, width, kinds, rest)
    ensures Accounts(p, width, kinds + {rest[width] % 32}, rest[width + Number(rest[..width])..])
  {
    var unit := rest[width..width + Number(rest[..width])];
    var after := Prefixed(rest[width + Number(rest[..width])..], width);
    if after.Some? {
      assert ([unit] + after.value)[1..] == after.value;
      UnionAssociates(kinds, {rest[width] % 32}, FirstByteKinds(after.value));
    }
  }

  lemma AccountsEnd(p: seq<byte>, width: nat, kinds: set<int>, rest: seq<byte>)
    requires 0 < width && Accounts(p, width, kinds, rest)
    requires |rest| < width || Number(rest[..width]) == 0 || Number(rest[..width]) > |rest| - width
    ensures Prefixed(p, width).Some? <==> rest == []
    ensures rest == [] ==> FirstByteKinds(Prefixed(p, width).value) == kinds
  {
  }

  method InspectLengthPrefixed(bytes: seq<byte>, width: nat) returns (complete: bool, info: AccessUnitInfo)
    requires 0 < width
    ensures complete <==> IsPrefixed(bytes, width)
    ensures complete ==> info == Flags(FirstByteKinds(Prefixed(bytes, width).value))
  {
    hide Prefixed, FirstByteKinds, Accounts, Number;
    info := NO_FLAGS;
    var offset, sawNalUnit := 0, false;
    ghost var kinds: set<int>, rest := {}, bytes;
    AccountsStart(bytes, width);
    while offset + width <= |bytes|
      invariant offset <= |bytes| && rest == bytes[offset..] && sawNalUnit == (offset > 0)
      invariant info == Flags(kinds)
      invariant Accounts(bytes, width, kinds, rest)
      decreases |bytes| - offset
    {
      var nalBytes := Get(bytes, offset, width);
      assert rest[..width] == bytes[offset..offset + width];
      offset := offset + width;
      if nalBytes == 0 || nalBytes > |bytes| - offset {
        AccountsEnd(bytes, width, kinds, rest);
        return false, info;
      }
      AccountsStep(bytes, width, kinds, rest);
      assert rest[width] == bytes[offset] && rest[width + nalBytes..] == bytes[offset + nalBytes..];
      AddedKind(kinds, bytes[offset]);
      kinds, rest := kinds + {rest[width] % 32}, rest[width + nalBytes..];
      info := AddNalUnit(info, bytes[offset]);
      sawNalUnit := true;
      offset := offset + nalBytes;
    }
    AccountsEnd(bytes, width, kinds, rest);
    complete := sawNalUnit && offset == |bytes|;
  }

  lemma {:induction false} StreamKindsAppend(a: seq<seq<byte>>, b: seq<seq<byte>>)
    ensures StreamKinds(a + b) == StreamKinds(a) + StreamKinds(b)
  {
    if a == [] {
      assert a + b == b;
    } else {
      assert (a + b)[1..] == a[1..] + b;
      StreamKindsAppend(a[1..], b);
    }
  }

  method InspectH264AccessUnit(bytes: seq<byte>) returns (info: AccessUnitInfo)
    ensures info == Inspect(bytes)
  {
    if bytes == [] { return NO_FLAGS; }
    var found, annexB := InspectAnnexB(bytes);
    if found { return annexB; }
    var four, info4 := InspectLengthPrefixed(bytes, 4);
    if four { return info4; }
    var two, info2 := InspectLengthPrefixed(bytes, 2);
    if two { return info2; }
    info := annexB;
  }
}

/** Splicing the mapping does not change what the bitstream inspection reports. */
module MappingTransparency {
  import opened Bytes
  import opened AnnexB
  import opened MappingSei
  import opened MappingRoundTrip
  import opened H264Bitstream

  lemma KindsTrailingZero(a: seq<byte>)
    ensures StreamKinds(Split(a + [0]).units) == StreamKinds(Split(a).units)
  {
    SplitTrailingZero(a);
    var units := Split(a).units;
    if units != [] {
      var init, last := units[..|units| - 1], units[|units| - 1];
      assert units == init + [last];
      StreamKindsAppend(init, [last]);
      StreamKindsAppend(init, [last + [0]]);
      HeaderByteTrailingZero(last);
    }
  }

  /** The other units, in order, are those of the packet; at most the one before gains a zero byte. */
  lemma OtherUnits(p: seq<byte>)
    ensures StreamKinds(Split(p).units) ==
            StreamKinds(Split(Before(p) + [0]).units) + StreamKinds(Split(After(p)).units)
    ensures (Split(p).units == Split(Before(p)).units + Split(After(p)).units ||
             Split(p).units == Split(Before(p) + [0]).units + Split(After(p)).units)
    ensures Split(Before(p) + [0]) == WithZero(Split(Before(p)))
  {
    var a, b := Before(p), After(p);
    assert p == a + b;
    KindsTrailingZero(a);
    SplitTrailingZero(a);
    if FirstSlice(p, InsertionPoint(p)) {
      SplitAtCode(a, b);
    } else {
      assert a == [] && b == p;
    }
    StreamKindsAppend(Split(a).units, Split(b).units);
    StreamKindsAppend(Split(a + [0]).units, Split(b).units);
  }

  lemma StreamInfo(p: seq<byte>)
    requires Split(p).units != []
    ensures Inspect(p) == Flags(StreamKinds(Split(p).units))
  {
  }

  lemma OwnKinds(m: FrameMapping, lead: seq<byte>)
    ensures StreamKinds([NalBody(m) + lead]) == {6}
  {
    var own := NalBody(m) + lead;
    assert own[0] == 6;
    assert StreamKinds([own]) == Kind(HeaderByte(own)) + StreamKinds([own][1..]);
  }

  /** With a start code anywhere, inspection is unchanged; without one the packet turns into a
      stream that holds the mapping alone. */
  lemma InsertIsTransparent(p: seq<byte>, m: FrameMapping)
    requires m.Valid()
    ensures Inspect(Insert(p, m)) == if Split(p).units != [] then Inspect(p) else NO_FLAGS
  {
    hide Insert, Inspect, NalBody, Nal, Before, After, Split;
    SplitInsert(p, m);
    OtherUnits(p);
    OwnKinds(m, Split(After(p)).lead);
    var x, own, y := Split(Before(p) + [0]).units, NalBody(m) + Split(After(p)).lead, Split(After(p)).units;
    StreamKindsAppend(x + [own], y);
    StreamKindsAppend(x, [own]);
    StreamInfo(Insert(p, m));
    if Split(p).units != [] {
      StreamInfo(p);
    }
  }
}
