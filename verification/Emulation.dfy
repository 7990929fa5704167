/** Emulation prevention, section 7.4.1 of ITU-T H.264: the escaping layer inside a NAL unit. */
module Emulation {
  import opened Bytes
  import opened AnnexB

  /** The zero run after one more byte. */
  function Zeros(zeros: nat, b: byte): nat {
    if b == 0 then zeros + 1 else 0
  }

  function Escape(s: seq<byte>, zeros: nat): seq<byte> {
    if s == [] then []
    else if zeros >= 2 && s[0] <= 3 then [3, s[0]] + Escape(s[1..], Zeros(0, s[0]))
    else [s[0]] + Escape(s[1..], Zeros(zeros, s[0]))
  }

  /** Drops escape bytes; None when one is followed by a byte that needed none, or by nothing. */
  function Unescape(s: seq<byte>, zeros: nat): Option<seq<byte>> {
    if s == [] then Some([])
    else if zeros >= 2 && s[0] == 3 then
      if |s| == 1 || s[1] > 3 then None else Unescape(s[1..], 0)
    else Prepend([s[0]], Unescape(s[1..], Zeros(zeros, s[0])))
  }

  function Prepend(s: seq<byte>, rest: Option<seq<byte>>): Option<seq<byte>> {
    match rest case None => None case Some(r) => Some(s + r)
  }

  /** No triple 00 00 00/01/02 starts in `s`, given a run of zeros before it. */
  predicate Safe(s: seq<byte>, zeros: nat) {
    s == [] || (!(zeros >= 2 && s[0] <= 2) && Safe(s[1..], Zeros(zeros, s[0])))
  }

  lemma {:induction false} EscapeIsSafe(s: seq<byte>, zeros: nat)
    ensures Safe(Escape(s, zeros), zeros)
    ensures |s| <= |Escape(s, zeros)| <= 2 * |s|
  {
    if s != [] {
      var e := Escape(s, zeros);
      if zeros >= 2 && s[0] <= 3 {
        EscapeIsSafe(s[1..], Zeros(0, s[0]));
        assert e[1..] == [s[0]] + Escape(s[1..], Zeros(0, s[0]));
        assert e[1..][1..] == Escape(s[1..], Zeros(0, s[0]));
        assert Safe(e[1..], 0);
      } else {
        EscapeIsSafe(s[1..], Zeros(zeros, s[0]));
        assert e[1..] == Escape(s[1..], Zeros(zeros, s[0]));
      }
    }
  }

  /** What `Safe` says in terms of positions: the forbidden triples occur nowhere. */
  lemma {:induction false} SafeTriples(s: seq<byte>, zeros: nat, k: nat)
    requires Safe(s, zeros) && k + 2 < |s|
    ensures !(s[k] == 0 && s[k + 1] == 0 && s[k + 2] <= 2)
  {
    if k == 0 {
      assert s[1..][1..] == s[2..];
      assert Safe(s[1..], Zeros(zeros, s[0])) && Safe(s[2..], Zeros(Zeros(zeros, s[0]), s[1]));
    } else {
      SafeTriples(s[1..], Zeros(zeros, s[0]), k - 1);
    }
  }

  lemma SafeIsCodeFree(s: seq<byte>, zeros: nat)
    requires Safe(s, zeros)
    ensures CodeFree(s)
  {
    forall k: nat ensures !CodeAt(s, k) {
      if k + 2 < |s| { SafeTriples(s, zeros, k); }
    }
  }

  function ZerosAfter(s: seq<byte>, zeros: nat): nat {
    if s == [] then zeros
    else if zeros >= 2 && s[0] <= 3 then ZerosAfter(s[1..], Zeros(0, s[0]))
    else ZerosAfter(s[1..], Zeros(zeros, s[0]))
  }

  lemma UnescapePlain(b: byte, rest: seq<byte>, zeros: nat)
    requires !(zeros >= 2 && b == 3)
    ensures Unescape([b] + rest, zeros) == Prepend([b], Unescape(rest, Zeros(zeros, b)))
  {
    assert ([b] + rest)[1..] == rest;
  }

  /** An escape byte and the byte it protects. */
  lemma UnescapeMarked(b: byte, rest: seq<byte>, zeros: nat)
    requires zeros >= 2 && b <= 3
    ensures Unescape([3, b] + rest, zeros) == Prepend([b], Unescape(rest, Zeros(0, b)))
  {
    assert ([3, b] + rest)[1..] == [b] + rest;
    UnescapePlain(b, rest, 0);
  }

  /** Unescaping undoes escaping, and goes on with whatever follows. */
  lemma {:induction false} UnescapeEscape(s: seq<byte>, zeros: nat, tail: seq<byte>)
    ensures Unescape(Escape(s, zeros) + tail, zeros) == Prepend(s, Unescape(tail, ZerosAfter(s, zeros)))
  {
    if s == [] {
      assert Escape(s, zeros) + tail == tail;
      PrependNothing(Unescape(tail, zeros));
    } else {
      var escaped := zeros >= 2 && s[0] <= 3;
      var after := Zeros(if escaped then 0 else zeros, s[0]);
      var rest := Escape(s[1..], after);
      assert ZerosAfter(s, zeros) == ZerosAfter(s[1..], after);
      assert Escape(s, zeros) == (if escaped then [3, s[0]] else [s[0]]) + rest;
      hide Unescape, Escape, Prepend, ZerosAfter;
      UnescapeEscape(s[1..], after, tail);
      Concatenated(if escaped then [3, s[0]] else [s[0]], rest, tail);
      if escaped {
        UnescapeMarked(s[0], rest + tail, zeros);
      } else {
        UnescapePlain(s[0], rest + tail, zeros);
      }
      PrependTwice([s[0]], s[1..], Unescape(tail, ZerosAfter(s, zeros)));
      assert s == [s[0]] + s[1..];
    }
  }

  lemma PrependTwice(a: seq<byte>, b: seq<byte>, rest: Option<seq<byte>>)
    ensures Prepend(a, Prepend(b, rest)) == Prepend(a + b, rest)
  {
    if rest.Some? { assert a + (b + rest.value) == a + b + rest.value; }
  }

  lemma PrependNothing(rest: Option<seq<byte>>)
    ensures Prepend([], rest) == rest
  {
    if rest.Some? { assert [] + rest.value == rest.value; }
  }

  /** A cut escape either fails or yields a shorter prefix of what was escaped. */
  lemma {:induction false} UnescapeCut(s: seq<byte>, zeros: nat, k: nat) returns (j: nat)
    requires k < |Escape(s, zeros)|
    ensures j < |s|
    ensures Unescape(Escape(s, zeros)[..k], zeros) in {None, Some(s[..j])}
  {
    var e := Escape(s, zeros);
    if k == 0 {
      assert e[..0] == [];
      j := 0;
    } else if zeros >= 2 && s[0] <= 3 {
      var rest := Escape(s[1..], Zeros(0, s[0]));
      if k == 1 {
        assert e[..1] == [3];
        j := 0;
      } else {
        j := UnescapeCut(s[1..], Zeros(0, s[0]), k - 2);
        assert e[..k][1..] == [s[0]] + rest[..k - 2];
        assert e[..k][1..][1..] == rest[..k - 2];
        assert s[..j + 1] == [s[0]] + s[1..][..j];
        j := j + 1;
      }
    } else {
      j := UnescapeCut(s[1..], Zeros(zeros, s[0]), k - 1);
      assert e[..k][1..] == Escape(s[1..], Zeros(zeros, s[0]))[..k - 1];
      assert s[..j + 1] == [s[0]] + s[1..][..j];
      j := j + 1;
    }
  }

  lemma {:induction false} EscapeLast(s: seq<byte>, zeros: nat, last: byte)
    requires last > 3
    ensures Escape(s + [last], zeros) == Escape(s, zeros) + [last]
    ensures ZerosAfter(s + [last], zeros) == 0
  {
    if s == [] {
      assert s + [last] == [last];
    } else {
      assert (s + [last])[1..] == s[1..] + [last];
      EscapeLast(s[1..], if zeros >= 2 && s[0] <= 3 then Zeros(0, s[0]) else Zeros(zeros, s[0]), last);
    }
  }

  /** Three bytes a writer has to break up. */
  predicate NeedsEscape(s: seq<byte>, k: nat) {
    k + 2 < |s| && s[k] == 0 && s[k + 1] == 0 && s[k + 2] <= 3
  }

  /** As for a string with a run of zeros before it. */
  ghost predicate Needs(s: seq<byte>, zeros: nat) {
    || (zeros >= 2 && |s| >= 1 && s[0] <= 3)
    || (zeros >= 1 && |s| >= 2 && s[0] == 0 && s[1] <= 3)
    || exists k: nat :: NeedsEscape(s, k)
  }

  lemma NeedsLater(s: seq<byte>, zeros: nat)
    requires s != [] && !(zeros >= 2 && s[0] <= 3)
    ensures Needs(s, zeros) <==> Needs(s[1..], Zeros(zeros, s[0]))
  {
    if k: nat :| NeedsEscape(s, k) {
      if k > 0 { assert NeedsEscape(s[1..], k - 1); }
    }
    if k: nat :| NeedsEscape(s[1..], k) { assert NeedsEscape(s, k + 1); }
    if |s| >= 3 && s[0] == 0 && s[1] == 0 && s[2] <= 3 { assert NeedsEscape(s, 0); }
  }

  lemma {:induction false} EscapeChanges(s: seq<byte>, zeros: nat)
    ensures Escape(s, zeros) == s <==> !Needs(s, zeros)
  {
    if s != [] {
      if zeros >= 2 && s[0] <= 3 {
        EscapeIsSafe(s[1..], Zeros(0, s[0]));
      } else {
        EscapeChanges(s[1..], Zeros(zeros, s[0]));
        NeedsLater(s, zeros);
        hide Needs;
        assert s == [s[0]] + s[1..];
        assert Escape(s, zeros)[1..] == Escape(s[1..], Zeros(zeros, s[0]));
      }
    }
  }

  /** A string is written as it is exactly when nowhere two zeros are followed by a byte up to 3. */
  lemma EscapeOnlyWhereNeeded(s: seq<byte>)
    ensures Escape(s, 0) == s <==> forall k: nat :: !NeedsEscape(s, k)
  {
    EscapeChanges(s, 0);
  }

  /** An escape that protects nothing. */
  predicate BadEscape(s: seq<byte>, k: nat) {
    k + 2 < |s| && s[k] == 0 && s[k + 1] == 0 && s[k + 2] == 3 && (k + 3 == |s| || s[k + 3] > 3)
  }

  ghost predicate Bad(s: seq<byte>, zeros: nat) {
    || (zeros >= 2 && |s| >= 1 && s[0] == 3 && (|s| == 1 || s[1] > 3))
    || (zeros >= 1 && |s| >= 2 && s[0] == 0 && s[1] == 3 && (|s| == 2 || s[2] > 3))
    || exists k: nat :: BadEscape(s, k)
  }

  lemma BadLater(s: seq<byte>, zeros: nat)
    requires s != [] && !(zeros >= 2 && s[0] == 3 && (|s| == 1 || s[1] > 3))
    ensures Bad(s, zeros) <==> Bad(s[1..], Zeros(zeros, s[0]))
  {
    if k: nat :| BadEscape(s, k) {
      if k > 0 { assert BadEscape(s[1..], k - 1); }
    }
    if k: nat :| BadEscape(s[1..], k) { assert BadEscape(s, k + 1); }
    if |s| >= 3 && s[0] == 0 && s[1] == 0 && s[2] == 3 && (|s| == 3 || s[3] > 3) { assert BadEscape(s, 0); }
  }

  lemma {:induction false} UnescapeFails(s: seq<byte>, zeros: nat)
    ensures Unescape(s, zeros).None? <==> Bad(s, zeros)
  {
    if s != [] {
      if !(zeros >= 2 && s[0] == 3 && (|s| == 1 || s[1] > 3)) {
        BadLater(s, zeros);
        UnescapeFails(s[1..], Zeros(zeros, s[0]));
      }
    }
  }

  /** A string is refused exactly when somewhere 00 00 03 is followed by a byte above 3 or by nothing. */
  lemma UnescapeRefuses(s: seq<byte>)
    ensures Unescape(s, 0).None? <==> exists k: nat :: BadEscape(s, k)
  {
    UnescapeFails(s, 0);
  }

  method EscapeOnto(nal: seq<byte>, s: seq<byte>) returns (out: seq<byte>)
    ensures out == nal + Escape(s, 0)
  {
    out := nal;
    var zeros: nat := 0;
    for i := 0 to |s|
      invariant nal + Escape(s, 0) == out + Escape(s[i..], zeros)
    {
      var value := s[i];
      assert s[i..][1..] == s[i + 1..];
      if zeros >= 2 && value <= 3 {
        out := out + [3];
        zeros := 0;
      }
      out := out + [value];
      zeros := if value == 0 then zeros + 1 else 0;
    }
  }

  method Unescaped(s: seq<byte>) returns (rbsp: Option<seq<byte>>)
    ensures rbsp == Unescape(s, 0)
  {
    var out: seq<byte> := [];
    var zeros: nat := 0;
    assert s[0..] == s;
    PrependNothing(Unescape(s, 0));
    for i := 0 to |s|
      invariant Unescape(s, 0) == Prepend(out, Unescape(s[i..], zeros))
    {
      var value := s[i];
      assert s[i..][1..] == s[i + 1..];
      PrependTwice(out, [value], Unescape(s[i + 1..], Zeros(zeros, value)));
      if zeros >= 2 && value == 3 {
        if i + 1 >= |s| || s[i + 1] > 3 { return None; }
        zeros := 0;
      } else {
        out := out + [value];
        zeros := if value == 0 then zeros + 1 else 0;
      }
    }
    assert s[|s|..] == [] && out + [] == out;
    rbsp := Some(out);
  }
}
