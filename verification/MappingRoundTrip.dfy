/** What a receiver reads from a packet after a mapping was spliced into it. */
module MappingRoundTrip {
  import opened Bytes
  import opened AnnexB
  import opened Emulation
  import opened MappingSei

  lemma BodyFacts(m: FrameMapping)
    ensures Safe(NalBody(m), 0) && CodeFree(NalBody(m))
    ensures 40 <= |NalBody(m)| <= 79 && NalBody(m)[|NalBody(m)| - 1] == 0x80
    ensures NalBody(m)[1..] == Escape(Rbsp(m), 0) && ZerosAfter(Rbsp(m), 0) == 0
    ensures Rbsp(m)[38] == 0x80
  {
    EscapeIsSafe(Rbsp(m), 0);
    assert NalBody(m)[1..] == Escape(Rbsp(m), 0);
    SafeIsCodeFree(NalBody(m), 0);
    assert Rbsp(m) == Rbsp(m)[..38] + [0x80];
    EscapeLast(Rbsp(m)[..38], 0, 0x80);
  }

  /** The spliced unit contains no triple a decoder could take for a start code or an escape. */
  lemma BodyHasNoForbiddenTriple(m: FrameMapping, k: nat)
    requires k + 2 < |NalBody(m)|
    ensures !(NalBody(m)[k] == 0 && NalBody(m)[k + 1] == 0 && NalBody(m)[k + 2] <= 2)
  {
    BodyFacts(m);
    SafeTriples(NalBody(m), 0, k);
  }

  // ----- one unit -----

  /** The unit parses, and carries no mapping. */
  predicate Clean(unit: seq<byte>) {
    ReadUnit(unit, NO_MAPPING) == Some(NO_MAPPING)
  }

  lemma {:induction false} MessagesOnce(t: seq<byte>, at: nat, found: FrameMapping)
    requires found.generation != 0
    ensures Messages(t, at, found) in {None, Some(found)}
    ensures Messages(t, at, found) == Some(found) <==> Messages(t, at, NO_MAPPING) == Some(NO_MAPPING)
    decreases |t| - at
  {
    if at + 2 <= |t| && t[at] != 0x80 && FfCode(t, at).Some? && FfCode(t, FfCode(t, at).value.1).Some? {
      var kind := FfCode(t, at).value;
      var size := FfCode(t, kind.1).value;
      if size.0 <= |t| - size.1 {
        if IsMapping(t, kind.0, size.0, size.1) {
          if size.0 == 36 {
            var m := ParseFields(t[size.1 + 16..size.1 + 36]);
            if m.Valid() { MessagesOnce(t, size.1 + size.0, m); }
          }
        } else {
          MessagesOnce(t, size.1 + size.0, found);
        }
      }
    }
  }

  lemma ReadUnitOnce(unit: seq<byte>, found: FrameMapping)
    requires found.generation != 0
    ensures ReadUnit(unit, found) in {None, Some(found)}
    ensures ReadUnit(unit, found) == Some(found) <==> Clean(unit)
  {
    if IsSei(unit) && |unit| <= UNIT_LIMIT && Unescape(unit[1..], 0).Some? {
      MessagesOnce(StripZeros(Unescape(unit[1..], 0).value), 0, found);
    }
  }

  lemma {:induction false} ReadUnitsOnce(units: seq<seq<byte>>, found: FrameMapping)
    requires found.generation != 0
    ensures ReadUnits(units, found) in {None, Some(found)}
    ensures ReadUnits(units, found) == Some(found) <==> forall u :: u in units ==> Clean(u)
  {
    if units != [] {
      ReadUnitOnce(units[0], found);
      ReadUnitsOnce(units[1..], found);
      assert forall u :: u in units <==> u == units[0] || u in units[1..];
    }
  }

  lemma {:induction false} MessagesFind(t: seq<byte>, at: nat, found: FrameMapping)
    ensures var r := Messages(t, at, found); r.Some? ==> r.value == found || r.value.generation != 0
    decreases |t| - at
  {
    if found.generation != 0 {
      MessagesOnce(t, at, found);
    } else if at + 2 <= |t| && t[at] != 0x80 && FfCode(t, at).Some? && FfCode(t, FfCode(t, at).value.1).Some? {
      var kind := FfCode(t, at).value;
      var size := FfCode(t, kind.1).value;
      if size.0 <= |t| - size.1 {
        if !IsMapping(t, kind.0, size.0, size.1) {
          MessagesFind(t, size.1 + size.0, found);
        } else if size.0 == 36 {
          MessagesFind(t, size.1 + size.0, ParseFields(t[size.1 + 16..size.1 + 36]));
        }
      }
    }
  }

  lemma ReadUnitFind(u: seq<byte>)
    ensures var r := ReadUnit(u, NO_MAPPING); r.Some? && r.value != NO_MAPPING ==> r.value.generation != 0
  {
    if IsSei(u) && |u| <= UNIT_LIMIT && Unescape(u[1..], 0).Some? {
      MessagesFind(StripZeros(Unescape(u[1..], 0).value), 0, NO_MAPPING);
    }
  }

  /** Reading a clean stretch keeps "no mapping"; anything else fails or finds one. */
  lemma {:induction false} ReadUnitsClean(units: seq<seq<byte>>)
    ensures ReadUnits(units, NO_MAPPING) == Some(NO_MAPPING) <==> forall u :: u in units ==> Clean(u)
    ensures var r := ReadUnits(units, NO_MAPPING); r.Some? && r.value != NO_MAPPING ==> r.value.generation != 0
  {
    if units != [] {
      var u := units[0];
      var first := ReadUnit(u, NO_MAPPING);
      ReadUnitFind(u);
      assert forall v :: v in units <==> v == u || v in units[1..];
      if first == Some(NO_MAPPING) {
        ReadUnitsClean(units[1..]);
      } else {
        assert u in units && !Clean(u);
        if first.Some? {
          ReadUnitsOnce(units[1..], first.value);
        }
      }
    }
  }

  lemma {:induction false} ReadUnitsAppend(a: seq<seq<byte>>, b: seq<seq<byte>>, found: FrameMapping)
    ensures ReadUnits(a + b, found) ==
            (match ReadUnits(a, found) case None => None case Some(next) => ReadUnits(b, next))
  {
    if a == [] {
      assert a + b == b;
    } else {
      assert (a + b)[1..] == a[1..] + b;
      if ReadUnit(a[0], found).Some? {
        ReadUnitsAppend(a[1..], b, ReadUnit(a[0], found).value);
      }
    }
  }

  // ----- the spliced unit -----

  lemma {:induction false} StripAppend(a: seq<byte>, b: seq<byte>)
    requires a != [] && a[|a| - 1] != 0
    ensures StripZeros(a + b) == a + StripZeros(b)
  {
    if b != [] && b[|b| - 1] == 0 {
      assert (a + b)[..|a + b| - 1] == a + b[..|b| - 1];
      StripAppend(a, b[..|b| - 1]);
    } else if b == [] {
      assert a + b == a;
    }
  }

  /** A payload that declares itself a mapping of 36 bytes. */
  lemma DeclaredMapping(t: seq<byte>, found: FrameMapping)
    requires |t| >= 2 && t[0] == 5 && t[1] == 36
    ensures |t| < 38 ==> Messages(t, 0, found) == None
    ensures |t| >= 38 && t[2..18] == MAPPING_UUID && ParseFields(t[18..38]).Valid() ==>
      Messages(t, 0, found) == if found.generation != 0 then None else Messages(t, 38, ParseFields(t[18..38]))
  {
    assert FfCode(t, 0) == Some((5, 1)) && FfCode(t, 1) == Some((36, 2));
  }

  lemma RbspMessages(m: FrameMapping, t: seq<byte>, found: FrameMapping)
    requires m.Valid() && Rbsp(m) <= t
    ensures Messages(t, 0, found) == if found.generation == 0 then Some(m) else None
  {
    var r := Rbsp(m);
    assert r[0] == 5 && r[1] == 36 && r[38] == 0x80 && r[2..18] == MAPPING_UUID && r[18..38] == m.Fields();
    assert Messages(t, 38, m) == Some(m) by { assert t[38] == r[38]; }
    hide Messages, Rbsp;
    assert t[0] == r[0] && t[1] == r[1] && t[2..18] == r[2..18] && t[18..38] == r[18..38];
    FieldsRoundTrip(m);
    DeclaredMapping(t, found);
  }

  /** What may stand between the spliced unit's stop bit and the next start code. */
  predicate TailAllowed(m: FrameMapping, lead: seq<byte>) {
    |NalBody(m)| + |lead| <= UNIT_LIMIT &&
    match Unescape(lead, 0)
    case None => false
    case Some(tail) => StripZeros(tail) == [] || StripZeros(tail)[|StripZeros(tail)| - 1] == 0x80
  }

  lemma OwnUnit(m: FrameMapping, lead: seq<byte>, found: FrameMapping)
    requires m.Valid()
    ensures ReadUnit(NalBody(m) + lead, found) ==
            if found.generation == 0 && TailAllowed(m, lead) then Some(m) else None
  {
    hide Escape, StripZeros, Messages, Rbsp;
    BodyFacts(m);
    var unit := NalBody(m) + lead;
    assert unit[1..] == Escape(Rbsp(m), 0) + lead;
    hide NalBody, Unescape;
    UnescapeEscape(Rbsp(m), 0, lead);
    var tail := Unescape(lead, 0);
    if tail.Some? {
      var t := StripZeros(Rbsp(m) + tail.value);
      StripAppend(Rbsp(m), tail.value);
      RbspMessages(m, t, found);
    }
  }

  lemma ZeroAlone()
    ensures Unescape([0], 0) == Some([0]) && StripZeros([0]) == []
    ensures Split([0]) == Stream([0], [])
  {
    var zero: seq<byte> := [0];
    assert zero[1..] == [] && zero + [] == zero;
    assert Unescape(zero[1..], Zeros(0, 0)) == Some([]);
    assert StripZeros(zero) == StripZeros(zero[..0]);
  }

  lemma ZeroTail(m: FrameMapping)
    ensures TailAllowed(m, []) && TailAllowed(m, [0])
  {
    BodyFacts(m);
    ZeroAlone();
  }

  // ----- the packet -----

  function Before(p: seq<byte>): seq<byte> { p[..InsertionPoint(p)] }

  function After(p: seq<byte>): seq<byte> { p[InsertionPoint(p)..] }

  lemma SplitInsert(p: seq<byte>, m: FrameMapping)
    requires m.Valid()
    ensures Split(Insert(p, m)).units ==
            Split(Before(p) + [0]).units + [NalBody(m) + Split(After(p)).lead] + Split(After(p)).units
    ensures |Insert(p, m)| == |p| + |Nal(m)|
  {
    BodyFacts(m);
    SplitSplice(Before(p), NalBody(m), After(p));
  }

  /** Exactly the packets from which the receiver gets the mapping back: they fit, the other SEI
      units parse and carry no mapping, and what the new unit swallows of an unframed packet is harmless. */
  ghost predicate Readable(p: seq<byte>, m: FrameMapping) {
    && |p| + |Nal(m)| <= PACKET_LIMIT
    && (forall u :: u in Split(Before(p) + [0]).units ==> Clean(u))
    && TailAllowed(m, Split(After(p)).lead)
    && (forall u :: u in Split(After(p)).units ==> Clean(u))
  }

  lemma RoundTrip(p: seq<byte>, m: FrameMapping)
    requires m.Valid()
    ensures Read(Insert(p, m)) == m <==> Readable(p, m)
  {
    SplitInsert(p, m);
    var before := Split(Before(p) + [0]).units;
    var own := NalBody(m) + Split(After(p)).lead;
    var after := Split(After(p)).units;
    ReadUnitsAppend(before + [own], after, NO_MAPPING);
    ReadUnitsAppend(before, [own], NO_MAPPING);
    ReadUnitsClean(before);
    var first := ReadUnits(before, NO_MAPPING);
    if first.Some? {
      OwnUnit(m, Split(After(p)).lead, first.value);
      assert ReadUnits([own], first.value) == ReadUnit(own, first.value);
    }
    ReadUnitsOnce(after, m);
  }

  /** A slice, or a packet that opens with a start code, leaves nothing for the new unit to swallow. */
  lemma FramedTail(p: seq<byte>, m: FrameMapping)
    requires FirstSlice(p, InsertionPoint(p)) || StartsCode(p) || (|p| >= 4 && p[0] == 0 && StartsCode(p[1..])) || p == []
    ensures TailAllowed(m, Split(After(p)).lead)
  {
    ZeroTail(m);
    var b := After(p);
    if p == [] {
      assert b == [];
    } else {
      if !FirstSlice(p, InsertionPoint(p)) { assert b == p; }
      SplitAtCode([], b);
    }
  }

  /** A second mapping in the packet always disables both. */
  lemma DuplicateDisables(p: seq<byte>, m1: FrameMapping, m2: FrameMapping)
    requires m1.Valid() && m2.Valid()
    ensures Read(Insert(Insert(p, m1), m2)) == NO_MAPPING
  {
    var q := Insert(p, m1);
    SplitInsert(q, m2);
    var before := Split(Before(q) + [0]).units;
    var lead := Split(After(q)).lead;
    var after := Split(After(q)).units;
    ReadUnitsAppend(before + [NalBody(m2) + lead], after, NO_MAPPING);
    if ReadUnits(before + [NalBody(m2) + lead], NO_MAPPING).Some? {
      MappingThenFails(before, m2, lead);
      if FirstSlice(p, InsertionPoint(p)) {
        FirstMappingBefore(p, m1, m2, lead);
      } else {
        FirstMappingAfter(p, m1, m2);
      }
    }
  }

  /** Before the second insertion stands the first mapping, as the last unit. */
  lemma UnitsBeforeSecond(p: seq<byte>, m: FrameMapping)
    requires m.Valid() && FirstSlice(p, InsertionPoint(p))
    ensures Split(Before(Insert(p, m)) + [0]).units == Split(Before(p) + [0]).units + [NalBody(m) + [0]]
  {
    SecondInsertion(p, m);
    BodyFacts(m);
    ZeroAlone();
    var none: seq<seq<byte>> := [];
    assert Split([0]).lead == [0] && Split([0]).units == none;
    hide Split, NalBody, Before, Insert, FirstSlice;
    SplitSplice(Before(p), NalBody(m), [0]);
    var units := Split(Before(p) + [0]).units;
    assert units + [NalBody(m) + [0]] + none == units + [NalBody(m) + [0]];
  }

  lemma FirstMappingBefore(p: seq<byte>, m1: FrameMapping, m2: FrameMapping, lead: seq<byte>)
    requires m1.Valid() && m2.Valid() && FirstSlice(p, InsertionPoint(p))
    ensures ReadUnits(Split(Before(Insert(p, m1)) + [0]).units + [NalBody(m2) + lead], NO_MAPPING) == None
  {
    UnitsBeforeSecond(p, m1);
    var units := Split(Before(p) + [0]).units;
    var before := units + [NalBody(m1) + [0]];
    hide Split, NalBody, Before, Insert, FirstSlice, FrameMapping.Valid;
    MappingThenFails(units, m1, [0]);
    ReadUnitsAppend(before, [NalBody(m2) + lead], NO_MAPPING);
    OneUnit(NalBody(m2) + lead, m1);
    ValidIsSet(m1);
    OwnUnit(m2, lead, m1);
    hide ReadUnits, ReadUnit;
  }

  lemma OneUnit(unit: seq<byte>, found: FrameMapping)
    ensures ReadUnits([unit], found) == ReadUnit(unit, found)
  {
    hide ReadUnit;
    assert [unit][1..] == [];
  }

  lemma ValidIsSet(m: FrameMapping)
    requires m.Valid()
    ensures m.generation != 0
  {
  }

  lemma FirstMappingAfter(p: seq<byte>, m1: FrameMapping, m2: FrameMapping)
    requires m1.Valid() && m2.Valid() && !FirstSlice(p, InsertionPoint(p))
    ensures ReadUnits(Split(After(Insert(p, m1))).units, m2) == None
  {
    SecondInsertion(p, m1);
    BodyFacts(m1);
    SplitSplice([], NalBody(m1), p);
    ZeroAlone();
    var none: seq<byte> := [];
    assert none + [0] == [0] && none + Nal(m1) + p == Nal(m1) + p;
    OwnUnit(m1, Split(p).lead, m2);
  }

  lemma MappingThenFails(units: seq<seq<byte>>, m: FrameMapping, lead: seq<byte>)
    requires m.Valid()
    ensures var r := ReadUnits(units + [NalBody(m) + lead], NO_MAPPING); r.Some? ==> r.value == m
  {
    ReadUnitsAppend(units, [NalBody(m) + lead], NO_MAPPING);
    var first := ReadUnits(units, NO_MAPPING);
    if first.Some? {
      OwnUnit(m, lead, first.value);
      assert ReadUnits([NalBody(m) + lead], first.value) == ReadUnit(NalBody(m) + lead, first.value);
    }
  }

  /** The first slice of a packet is still the first slice behind a spliced unit. */
  lemma SecondInsertion(p: seq<byte>, m: FrameMapping)
    requires m.Valid()
    ensures FirstSlice(p, InsertionPoint(p)) ==>
              Before(Insert(p, m)) == Before(p) + Nal(m) && After(Insert(p, m)) == After(p)
    ensures !FirstSlice(p, InsertionPoint(p)) ==> Before(Insert(p, m)) == [] && After(Insert(p, m)) == Nal(m) + p
  {
    var at := InsertionPoint(p);
    var q := Insert(p, m);
    var shift := |Nal(m)|;
    BodyFacts(m);
    assert q[at..at + shift] == Nal(m);
    assert q[at + shift..] == p[at..];
    forall j: nat | j < at + shift ensures !SliceAt(q, j) {
      if j < at { NoSliceBefore(p, m, j); } else { NoSliceInside(p, m, j); }
    }
    forall j: nat | at <= j ensures SliceAt(q, j + shift) == SliceAt(p, j) {
    }
    if FirstSlice(p, at) {
      assert SliceAt(q, at + shift);
      assert InsertionPoint(q) == at + shift;
      assert Before(q) == Before(p) + Nal(m);
    } else {
      forall j: nat ensures !SliceAt(q, j) {
        if j >= shift { assert SliceAt(q, (j - shift) + shift) == SliceAt(p, j - shift); }
      }
      assert q == Nal(m) + p;
    }
  }

  lemma NoSliceBefore(p: seq<byte>, m: FrameMapping, j: nat)
    requires m.Valid() && j < InsertionPoint(p)
    ensures !SliceAt(Insert(p, m), j)
  {
    var at := InsertionPoint(p);
    var q := Insert(p, m);
    assert SliceAt(p, at) && !SliceAt(p, j);
    assert forall k :: 0 <= k < at ==> q[k] == p[k];
    assert q[at] == 0 && q[at + 1] == 0 && q[at + 2] == 0 && q[at + 3] == 1;
  }

  lemma NoSliceInside(p: seq<byte>, m: FrameMapping, j: nat)
    requires m.Valid() && InsertionPoint(p) <= j < InsertionPoint(p) + |Nal(m)|
    ensures !SliceAt(Insert(p, m), j)
  {
    var at := InsertionPoint(p);
    var q := Insert(p, m);
    BodyFacts(m);
    hide Safe, Zeros, InsertionPoint;
    assert q[at..at + |Nal(m)|] == Nal(m);
    assert q[at] == 0 && q[at + 1] == 0 && q[at + 2] == 0 && q[at + 3] == 1 && q[at + 4] == 6;
    if j >= at + 4 {
      var k: nat := j - at - 4;
      assert q[j..at + |Nal(m)|] == NalBody(m)[k..];
      var body := NalBody(m);
      assert q[at + |Nal(m)| - 1] == 0x80;
      if k + 2 < |body| {
        SafeTriples(body, 0, k);
        assert q[j] == body[k] && q[j + 1] == body[k + 1] && q[j + 2] == body[k + 2];
      }
    }
  }

  // ----- truncation -----

  lemma SplitPrefix(m: FrameMapping, k: nat)
    requires k < |Nal(m)|
    ensures k < 4 ==> Split(Nal(m)[..k]).units == []
    ensures k >= 4 ==> Split(Nal(m)[..k]).units == [NalBody(m)[..k - 4]]
  {
    var p := Nal(m)[..k];
    if k < 4 {
      assert p == [0, 0, 0, 1][..k];
      SplitNone(p);
    } else {
      var x := NalBody(m)[..k - 4];
      BodyFacts(m);
      forall j: nat ensures !CodeAt(x, j) {
        assert CodeAt(x, j) ==> CodeAt(NalBody(m), j);
      }
      assert p == [0] + ([0, 0, 1] + x);
      SplitAppend([0], [0, 0, 1] + x);
      assert ([0, 0, 1] + x)[3..] == x;
      SplitNone(x);
      ZeroAlone();
    }
  }

  lemma ShortRbsp(m: FrameMapping, t: seq<byte>)
    requires t <= Rbsp(m)[..38]
    ensures |t| < 38 ==> Trimmed(t, NO_MAPPING) == None
    ensures |t| == 38 && m.Valid() ==>
      Trimmed(t, NO_MAPPING) == if m.imageHeight % 256 == 0x80 then Some(m) else None
  {
    var r := Rbsp(m);
    assert r[0] == 5 && r[1] == 36 && r[2..18] == MAPPING_UUID && r[18..38] == m.Fields();
    assert r[37] == m.imageHeight % 256 by { assert r[37] == BigEndian(m.imageHeight, 2)[1]; }
    hide Rbsp, Messages, StripZeros;
    var s := StripZeros(t);
    assert s <= r;
    if |s| >= 2 {
      assert s[0] == r[0] && s[1] == r[1];
      DeclaredMapping(s, NO_MAPPING);
    }
    if |s| == 38 {
      assert s[2..18] == r[2..18] && s[18..38] == r[18..38] && s[37] == r[37];
      FieldsRoundTrip(m);
      NothingLeft(s, m);
    } else if |t| == 38 {
      assert t[37] == r[37];
    }
  }

  lemma NothingLeft(t: seq<byte>, m: FrameMapping)
    requires |t| == 38
    ensures Messages(t, 38, m) == Some(m)
  {
  }

  /** The escaped payload without its stop byte. */
  lemma Unstopped(m: FrameMapping)
    ensures |Rbsp(m)[..38]| == 38 && NalBody(m)[1..] == Escape(Rbsp(m)[..38], 0) + [0x80]
  {
    BodyFacts(m);
    var r := Rbsp(m)[..38];
    assert Rbsp(m) == r + [0x80];
    hide Rbsp;
    EscapeLast(r, 0, 0x80);
  }

  /** What a prefix of the escaped payload reads as. */
  lemma TruncatedPayload(m: FrameMapping, k: nat)
    requires m.Valid() && k <= |Escape(Rbsp(m)[..38], 0)|
    ensures var r := Unescape(Escape(Rbsp(m)[..38], 0)[..k], 0);
      (if r.None? then None else Trimmed(r.value, NO_MAPPING)) ==
        if k == |Escape(Rbsp(m)[..38], 0)| && m.imageHeight % 256 == 0x80 then Some(m) else None
  {
    var r := Rbsp(m)[..38];
    var e := Escape(r, 0);
    hide Escape, Unescape, Rbsp, Trimmed, ZerosAfter;
    if k == |e| {
      assert e[..k] == e + [];
      UnescapeEscape(r, 0, []);
      UnescapeNothing(ZerosAfter(r, 0));
      assert r + [] == r;
      ShortRbsp(m, r);
    } else {
      var j := UnescapeCut(r, 0, k);
      ShortRbsp(m, r[..j]);
    }
  }

  lemma UnescapeNothing(zeros: nat)
    ensures Unescape([], zeros) == Some([])
  {
  }

  lemma TruncatedUnit(m: FrameMapping, n: nat)
    requires m.Valid() && 1 <= n < |NalBody(m)|
    ensures ReadUnit(NalBody(m)[..n], NO_MAPPING) ==
            if n == |NalBody(m)| - 1 && m.imageHeight % 256 == 0x80 then Some(m) else None
  {
    BodyFacts(m);
    Unstopped(m);
    var x, e := NalBody(m)[..n], Escape(Rbsp(m)[..38], 0);
    assert x[0] == 6 && |x| <= UNIT_LIMIT;
    hide Escape, Unescape, Rbsp, Trimmed, NalBody;
    assert x[1..] == e[..n - 1] by {
      assert x[1..] == NalBody(m)[1..][..n - 1];
    }
    TruncatedPayload(m, n - 1);
  }

  /** Cutting the encoding short loses the mapping, except when the byte cut off is the stop byte
      and the last field byte before it can stand in for it. */
  lemma TruncationReads(m: FrameMapping, k: nat)
    requires m.Valid() && k < |Nal(m)|
    ensures Read(Nal(m)[..k]) == m <==> k == |Nal(m)| - 1 && m.imageHeight % 256 == 0x80
    ensures Read(Nal(m)[..k]) in {m, NO_MAPPING}
  {
    BodyFacts(m);
    SplitPrefix(m, k);
    if k == 4 {
      assert ReadUnit([], NO_MAPPING) == Some(NO_MAPPING);
    } else if k > 4 {
      TruncatedUnit(m, k - 4);
    }
    if k >= 4 {
      var units := Split(Nal(m)[..k]).units;
      assert units[1..] == [];
      assert ReadUnits(units, NO_MAPPING) == ReadUnit(units[0], NO_MAPPING);
    }
  }

  /** A 384-pixel-high image shows that a truncated encoding is not always rejected. */
  lemma TruncatedStillReads(generation: u64) returns (m: FrameMapping, k: nat)
    requires generation != 0
    ensures m.Valid() && k < |Nal(m)| && Read(Nal(m)[..k]) == m
  {
    m := FrameMapping(generation, 640, 480, 0, 48, 640, 384);
    k := |Nal(m)| - 1;
    TruncationReads(m, k);
  }
}
