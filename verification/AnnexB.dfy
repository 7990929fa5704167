/** The byte stream format of Annex B of ITU-T H.264, read as a list of units. Both scanners
    of the repository are proved against this one definition. */
module AnnexB {
  import opened Bytes

  /** The bytes before the first start code, then the bytes between start codes. */
  datatype Stream = Stream(lead: seq<byte>, units: seq<seq<byte>>)

  predicate StartsCode(p: seq<byte>) {
    |p| >= 3 && p[0] == 0 && p[1] == 0 && p[2] == 1
  }

  predicate CodeAt(p: seq<byte>, k: nat) {
    k + 3 <= |p| && p[k] == 0 && p[k + 1] == 0 && p[k + 2] == 1
  }

  function Split(p: seq<byte>): (s: Stream)
    ensures StartsCode(p) ==> s.lead == []
    decreases |p|
  {
    if StartsCode(p) then
      var rest := Split(p[3..]);
      Stream([], [rest.lead] + rest.units)
    else if p == [] then
      Stream([], [])
    else
      var rest := Split(p[1..]);
      Stream([p[0]] + rest.lead, rest.units)
  }

  function Join(units: seq<seq<byte>>): seq<byte> {
    if units == [] then [] else [0, 0, 1] + units[0] + Join(units[1..])
  }

  ghost predicate CodeFree(p: seq<byte>) {
    forall k: nat {:trigger CodeAt(p, k)} :: !CodeAt(p, k)
  }

  lemma CodeFreeCons(p: seq<byte>)
    requires p != [] && CodeFree(p[1..]) && !StartsCode(p)
    ensures CodeFree(p)
  {
    forall k: nat ensures !CodeAt(p, k) {
      if k > 0 { assert CodeAt(p, k) == CodeAt(p[1..], k - 1); }
    }
  }

  lemma NothingIsCodeFree()
    ensures CodeFree([])
  {
  }

  lemma SplitCode(p: seq<byte>)
    requires StartsCode(p)
    ensures Split(p) == Stream([], [Split(p[3..]).lead] + Split(p[3..]).units)
  {
  }

  lemma SplitByte(p: seq<byte>)
    requires p != [] && !StartsCode(p)
    ensures Split(p) == Stream([p[0]] + Split(p[1..]).lead, Split(p[1..]).units)
  {
  }

  lemma JoinCons(unit: seq<byte>, units: seq<seq<byte>>)
    ensures Join([unit] + units) == [0, 0, 1] + unit + Join(units)
  {
    assert ([unit] + units)[1..] == units;
  }

  /** Splitting loses nothing. */
  lemma {:induction false} SplitIsExact(p: seq<byte>)
    ensures Split(p).lead + Join(Split(p).units) == p
    decreases |p|
  {
    if StartsCode(p) {
      hide Split, Join;
      SplitCode(p);
      SplitIsExact(p[3..]);
      var rest := Split(p[3..]);
      JoinCons(rest.lead, rest.units);
      Concatenated([0, 0, 1], rest.lead, Join(rest.units));
      assert p == [0, 0, 1] + p[3..];
    } else if p != [] {
      hide Split, Join;
      SplitByte(p);
      SplitIsExact(p[1..]);
      var rest := Split(p[1..]);
      Concatenated([p[0]], rest.lead, Join(rest.units));
      assert p == [p[0]] + p[1..];
    }
  }

  /** No unit hides a start code. */
  lemma {:induction false} SplitLeavesNoCode(p: seq<byte>)
    ensures CodeFree(Split(p).lead) && forall u :: u in Split(p).units ==> CodeFree(u)
    decreases |p|
  {
    NothingIsCodeFree();
    if StartsCode(p) {
      hide Split, CodeFree;
      SplitCode(p);
      SplitLeavesNoCode(p[3..]);
    } else if p != [] {
      hide Split, CodeFree, Join;
      SplitByte(p);
      SplitLeavesNoCode(p[1..]);
      SplitIsExact(p);
      var lead := Split(p).lead;
      assert lead[1..] == Split(p[1..]).lead;
      assert lead <= p;
      CodeFreeCons(lead);
    }
  }

  ghost predicate NoCodeIn(p: seq<byte>, k: nat) {
    forall j: nat {:trigger CodeAt(p, j)} :: j < k ==> !CodeAt(p, j)
  }

  /** Bytes without a start code only lengthen what precedes the next one. */
  lemma {:induction false} SplitFree(p: seq<byte>, k: nat)
    requires k <= |p| && NoCodeIn(p, k)
    ensures Split(p) == Stream(p[..k] + Split(p[k..]).lead, Split(p[k..]).units)
    decreases k
  {
    if k == 0 {
      assert p[0..] == p;
    } else {
      var q := p[1..];
      NoCodeInTail(p, k);
      SplitFree(q, k - 1);
      assert !CodeAt(p, 0);
      SplitByte(p);
      hide Split;
      assert q[k - 1..] == p[k..];
      assert p[..k] == [p[0]] + q[..k - 1];
      Concatenated([p[0]], q[..k - 1], Split(p[k..]).lead);
    }
  }

  lemma NoCodeInTail(p: seq<byte>, k: nat)
    requires 0 < k <= |p| && NoCodeIn(p, k)
    ensures NoCodeIn(p[1..], k - 1)
  {
    forall j: nat | j < k - 1 ensures !CodeAt(p[1..], j) {
      assert !CodeAt(p, j + 1);
    }
  }

  lemma SplitNone(p: seq<byte>)
    requires CodeFree(p)
    ensures Split(p) == Stream(p, [])
  {
    SplitFree(p, |p|);
    assert p[|p|..] == [] && p[..|p|] == p;
  }

  /** No start code straddles the join with bytes that begin with two zeros and a code. */
  lemma {:induction false} SplitAppend(a: seq<byte>, b: seq<byte>)
    requires StartsCode(b)
    ensures Split(a + b) == Stream(Split(a).lead, Split(a).units + Split(b).units)
    decreases |a|
  {
    if a == [] {
      assert a + b == b;
    } else if StartsCode(a) {
      hide Split;
      SplitAppend(a[3..], b);
      assert (a + b)[3..] == a[3..] + b;
      SplitCode(a);
      SplitCode(a + b);
      var rest := Split(a[3..]);
      Concatenated([rest.lead], rest.units, Split(b).units);
    } else {
      hide Split;
      SplitAppend(a[1..], b);
      SplitByte(a);
      SplitByte(a + b);
      assert (a + b)[1..] == a[1..] + b;
      assert !StartsCode(a + b) by {
        if |a| >= 3 { assert (a + b)[..3] == a[..3]; }
      }
    }
  }

  /** The split is the only one: units that hide no start code are found again, whatever zeros end them. */
  lemma {:induction false} SplitIsOnly(lead: seq<byte>, units: seq<seq<byte>>)
    requires CodeFree(lead) && forall u :: u in units ==> CodeFree(u)
    ensures Split(lead + Join(units)) == Stream(lead, units)
    decreases |units|
  {
    hide CodeFree, Split;
    SplitNone(lead);
    if units == [] {
      assert lead + [] == lead;
    } else {
      var code, unit, rest := [0, 0, 1], units[0], units[1..];
      var tail := unit + Join(rest);
      SplitIsOnly(unit, rest);
      Concatenated(code, unit, Join(rest));
      assert Join(units) == code + tail && (code + tail)[3..] == tail;
      SplitCode(code + tail);
      SplitAppend(lead, code + tail);
      assert [unit] + rest == units && [] + units == units;
    }
  }

  /** Exactly the byte strings without a start code have no unit. */
  lemma NoUnitExactly(p: seq<byte>)
    ensures Split(p).units == [] <==> CodeFree(p)
  {
    SplitLeavesNoCode(p);
    SplitIsExact(p);
    if CodeFree(p) { SplitNone(p); }
    var lead := Split(p).lead;
    assert lead + [] == lead;
    hide Split, CodeFree;
  }

  /** A run of bytes that holds no start code and does not end in zero joins what follows it. */
  lemma SplitBody(x: seq<byte>, b: seq<byte>)
    requires CodeFree(x)
    requires x != [] && x[|x| - 1] > 1
    ensures Split(x + b) == Stream(x + Split(b).lead, Split(b).units)
  {
    var p := x + b;
    assert p[|x| - 1] == x[|x| - 1];
    forall j: nat | j < |x| ensures !CodeAt(p, j) {
      assert CodeAt(p, j) ==> CodeAt(x, j);
    }
    SplitFree(p, |x|);
    assert p[..|x|] == x && p[|x|..] == b;
  }

  /** A zero at the end belongs to the last unit. */
  function WithZero(s: Stream): Stream {
    if s.units == [] then s.(lead := s.lead + [0])
    else s.(units := s.units[..|s.units| - 1] + [s.units[|s.units| - 1] + [0]])
  }

  lemma WithZeroCons(b: byte, s: Stream)
    ensures WithZero(Stream([b] + s.lead, s.units)) == Stream([b] + WithZero(s).lead, WithZero(s).units)
  {
    assert [b] + (s.lead + [0]) == [b] + s.lead + [0];
  }

  lemma WithZeroCode(s: Stream)
    ensures WithZero(Stream([], [s.lead] + s.units)) == Stream([], [WithZero(s).lead] + WithZero(s).units)
  {
    var all := [s.lead] + s.units;
    if s.units == [] {
      assert all == [s.lead] && [s.lead][..0] == [];
    } else {
      assert all[..|all| - 1] == [s.lead] + s.units[..|s.units| - 1];
    }
  }

  lemma {:induction false} SplitTrailingZero(a: seq<byte>)
    ensures Split(a + [0]) == WithZero(Split(a))
    decreases |a|
  {
    if a == [] {
      assert a + [0] == [0];
      assert Split([0][1..]) == Stream([], []);
      assert Split([0]) == Stream([0], []);
    } else if StartsCode(a) {
      hide Split, WithZero;
      SplitTrailingZero(a[3..]);
      assert (a + [0])[3..] == a[3..] + [0];
      SplitCode(a);
      SplitCode(a + [0]);
      WithZeroCode(Split(a[3..]));
    } else {
      hide Split, WithZero;
      SplitTrailingZero(a[1..]);
      assert (a + [0])[1..] == a[1..] + [0];
      assert !StartsCode(a + [0]) by {
        if |a| >= 3 { assert (a + [0])[..3] == a[..3]; }
      }
      SplitByte(a);
      SplitByte(a + [0]);
      WithZeroCons(a[0], Split(a[1..]));
    }
  }

  /** Splices a unit behind a four-byte start code, whatever surrounds it. */
  lemma SplitSplice(a: seq<byte>, body: seq<byte>, b: seq<byte>)
    requires CodeFree(body)
    requires body != [] && body[|body| - 1] > 1
    ensures Split(a + ([0, 0, 0, 1] + body) + b) ==
            Stream(Split(a + [0]).lead, Split(a + [0]).units + [body + Split(b).lead] + Split(b).units)
  {
    hide Split, CodeFree;
    var tail := [0, 0, 1] + (body + b);
    assert a + ([0, 0, 0, 1] + body) + b == (a + [0]) + tail;
    SplitAppend(a + [0], tail);
    assert tail[3..] == body + b;
    SplitCode(tail);
    SplitBody(body, b);
    Concatenated(Split(a + [0]).units, [body + Split(b).lead], Split(b).units);
  }

  /** Cutting a stream right before a three- or four-byte start code. */
  lemma SplitAtCode(a: seq<byte>, b: seq<byte>)
    requires StartsCode(b) || (|b| >= 4 && b[0] == 0 && StartsCode(b[1..]))
    ensures StartsCode(b) ==> Split(a + b).units == Split(a).units + Split(b).units && Split(b).lead == []
    ensures !StartsCode(b) ==> Split(a + b).units == Split(a + [0]).units + Split(b).units && Split(b).lead == [0]
  {
    if StartsCode(b) {
      SplitAppend(a, b);
    } else {
      assert a + b == (a + [0]) + b[1..];
      SplitAppend(a + [0], b[1..]);
    }
  }
}
