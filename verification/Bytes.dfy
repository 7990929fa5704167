/** Bytes, fixed-width unsigned fields and network byte order, shared by every codec. */
module Bytes {

  type byte = x: int | 0 <= x < 0x100
  type u16 = x: int | 0 <= x < 0x1_0000
  type u32 = x: int | 0 <= x < 0x1_0000_0000
  type u64 = x: int | 0 <= x < 0x1_0000_0000_0000_0000

  datatype Option<+T> = None | Some(value: T) {
    function GetOr(default: T): T {
      if Some? then value else default
    }
  }

  lemma Concatenated<T>(a: seq<T>, b: seq<T>, c: seq<T>)
    ensures a + b + c == a + (b + c)
  {
  }

  lemma Subslice(t: seq<byte>, at: nat, length: nat, i: nat, j: nat)
    requires at + length <= |t| && i <= j <= length
    ensures t[at..at + length][i..j] == t[at + i..at + j]
  {
    var u := t[at..at + length];
    forall k | 0 <= k < j - i ensures u[i..j][k] == t[at + i..at + j][k] {
    }
  }

  function Pow256(n: nat): (p: int)
    ensures 0 < p
  {
    if n == 0 then 1 else 256 * Pow256(n - 1)
  }

  /** The low `count` bytes of `value`, most significant first. */
  function BigEndian(value: nat, count: nat): (s: seq<byte>)
    ensures |s| == count
  {
    if count == 0 then [] else BigEndian(value / 256, count - 1) + [value % 256]
  }

  /** The number that `s` spells, most significant byte first. */
  function Number(s: seq<byte>): nat {
    if s == [] then 0 else Number(s[..|s| - 1]) * 256 + s[|s| - 1]
  }

  lemma {:induction false} NumberOfBigEndian(value: nat, count: nat)
    requires value < Pow256(count)
    ensures Number(BigEndian(value, count)) == value
  {
    if count != 0 {
      NumberOfBigEndian(value / 256, count - 1);
      assert BigEndian(value, count)[..count - 1] == BigEndian(value / 256, count - 1);
    }
  }

  lemma {:induction false} BigEndianOfNumber(s: seq<byte>)
    ensures BigEndian(Number(s), |s|) == s
    ensures Number(s) < Pow256(|s|)
  {
    if s != [] {
      BigEndianOfNumber(s[..|s| - 1]);
      assert s == s[..|s| - 1] + [s[|s| - 1]];
    }
  }

  function Word(high: int, low: int): int { 0x100 * high + low }

  /** Network order: the first byte counts most, in fields of every width the packets use. */
  lemma NetworkOrder(s: seq<byte>)
    ensures |s| == 2 ==> Number(s) == Word(s[0], s[1])
    ensures |s| == 4 ==> Number(s) == 0x1_0000 * Word(s[0], s[1]) + Word(s[2], s[3])
    ensures |s| == 8 ==> Number(s) == 0x1_0000_0000 * (0x1_0000 * Word(s[0], s[1]) + Word(s[2], s[3]))
                                      + (0x1_0000 * Word(s[4], s[5]) + Word(s[6], s[7]))
  {
    if |s| in {2, 4, 8} {
      NumberOfTwo(s[..2]);
      if |s| >= 4 { NumberOfTwoMore(s[..4]); }
      if |s| == 8 {
        NumberOfTwoMore(s[..6]);
        NumberOfTwoMore(s);
        assert s[..6][..4] == s[..4];
      }
    }
    assert s[..|s|] == s;
  }

  lemma NumberOfTwo(s: seq<byte>)
    requires |s| == 2
    ensures Number(s) == Word(s[0], s[1])
  {
    assert Number(s[..0]) == 0 && s[..1][..0] == s[..0];
    assert Number(s[..1]) == s[0];
  }

  lemma NumberOfTwoMore(s: seq<byte>)
    requires |s| >= 2
    ensures Number(s) == 0x1_0000 * Number(s[..|s| - 2]) + Word(s[|s| - 2], s[|s| - 1])
  {
    assert s[..|s| - 1][..|s| - 2] == s[..|s| - 2];
  }

  lemma Widths()
    ensures Pow256(1) == 0x100 && Pow256(2) == 0x1_0000 && Pow256(4) == 0x1_0000_0000
    ensures Pow256(8) == 0x1_0000_0000_0000_0000
  {
    assert Pow256(3) == 256 * Pow256(2) && Pow256(5) == 256 * Pow256(4);
    assert Pow256(6) == 256 * Pow256(5) && Pow256(7) == 256 * Pow256(6);
  }

  /** Round trip of one field of the widths the packets use. */
  lemma FieldRoundTrip(value: nat, count: nat)
    requires (count == 1 && value < 0x100) || (count == 2 && value < 0x1_0000) ||
             (count == 4 && value < 0x1_0000_0000) || (count == 8 && value < 0x1_0000_0000_0000_0000)
    ensures Number(BigEndian(value, count)) == value
  {
    Widths();
    NumberOfBigEndian(value, count);
  }

  lemma FieldBounds(s: seq<byte>)
    ensures |s| == 1 ==> Number(s) == s[0] < 0x100
    ensures |s| == 2 ==> Number(s) < 0x1_0000
    ensures |s| == 4 ==> Number(s) < 0x1_0000_0000
    ensures |s| == 8 ==> Number(s) < 0x1_0000_0000_0000_0000
  {
    Widths();
    BigEndianOfNumber(s);
    if |s| == 1 { assert Number(s[..0]) == 0; }
  }

  /** `value` shifted right by `count` bytes. */
  function ShiftRight(value: nat, count: nat): nat {
    if count == 0 then value else ShiftRight(value, count - 1) / 256
  }

  /** Appends a field byte by byte from the top, as the packet writers do. */
  method Put(bytes: seq<byte>, value: nat, count: nat) returns (out: seq<byte>)
    ensures out == bytes + BigEndian(value, count)
  {
    out := bytes;
    var remaining: nat := count;
    assert BigEndian(ShiftRight(value, count), 0) == [];
    while remaining > 0
      invariant remaining <= count
      invariant out == bytes + BigEndian(ShiftRight(value, remaining), count - remaining)
    {
      remaining := remaining - 1;
      out := out + [ShiftRight(value, remaining) % 256];
    }
  }

  /** Reads a field at a cursor, shifting one byte in at a time. */
  method Get(bytes: seq<byte>, at: nat, count: nat) returns (number: nat)
    requires at + count <= |bytes|
    ensures number == Number(bytes[at..at + count])
  {
    number := 0;
    for i := 0 to count
      invariant number == Number(bytes[at..at + i])
    {
      assert bytes[at..at + i + 1][..i] == bytes[at..at + i];
      number := number * 256 + bytes[at + i];
    }
  }
}
