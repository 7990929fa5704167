/** The visible part of a decoded NV12 frame: which apertures are accepted, and how the rows are copied.
    A frame of even width w and height h is w·h luma bytes followed by h/2 rows of w chroma bytes. */
module Nv12Crop {
  import opened Bytes

  datatype Area = Area(left: nat, top: nat, width: nat, height: nat)

  /** The metadata of one aperture: absent, of the wrong size, or offsets with fractions and an extent. */
  datatype Aperture = Absent | Malformed | Aperture(offsetX: int, fractX: nat, offsetY: int, fractY: nat, cx: int, cy: int)

  datatype Reading = NotThere | Invalid | Found(area: Area)

  predicate Inside(a: Area, codedWidth: int, codedHeight: int) {
    a.left + a.width <= codedWidth && a.top + a.height <= codedHeight
  }

  predicate Even(a: Area) {
    a.left % 2 == 0 && a.top % 2 == 0 && a.width % 2 == 0 && a.height % 2 == 0
  }

  /** An area that can be cropped from a frame of that size. */
  predicate Visible(a: Area, codedWidth: int, codedHeight: int) {
    Inside(a, codedWidth, codedHeight) && Even(a) && a.width > 0 && a.height > 0
  }

  function Read(m: Aperture, codedWidth: int, codedHeight: int): Reading {
    match m
    case Absent => NotThere
    case Malformed => Invalid
    case Aperture(x, fx, y, fy, cx, cy) =>
      if x >= 0 && y >= 0 && cx > 0 && cy > 0 && fx == 0 && fy == 0 && Visible(Area(x, y, cx, cy), codedWidth, codedHeight)
      then Found(Area(x, y, cx, cy)) else Invalid
  }

  method TryReadVideoArea(m: Aperture, codedWidth: int, codedHeight: int) returns (r: Reading)
    ensures r == Read(m, codedWidth, codedHeight)
    ensures r.Found? ==> Visible(r.area, codedWidth, codedHeight)
  {
    if m.Absent? { return NotThere; }
    if m.Malformed? { return Invalid; }
    var left, top, width, height := m.offsetX, m.offsetY, m.cx, m.cy;
    if left < 0 || top < 0 || width <= 0 || height <= 0 ||
       left > codedWidth || width > codedWidth - left ||
       top > codedHeight || height > codedHeight - top ||
       m.fractX != 0 || m.fractY != 0 ||
       left % 2 != 0 || top % 2 != 0 || width % 2 != 0 || height % 2 != 0 {
      return Invalid;
    }
    r := Found(Area(left, top, width, height));
  }

  /** The first aperture that is there decides; without any the whole frame is visible. */
  function Select(apertures: seq<Aperture>, codedWidth: nat, codedHeight: nat): Reading {
    if apertures == [] then Found(Area(0, 0, codedWidth, codedHeight))
    else if apertures[0].Absent? then Select(apertures[1..], codedWidth, codedHeight)
    else Read(apertures[0], codedWidth, codedHeight)
  }

  method SelectVisibleFrameArea(apertures: seq<Aperture>, codedWidth: nat, codedHeight: nat) returns (r: Reading)
    ensures r == Select(apertures, codedWidth, codedHeight)
  {
    for i := 0 to |apertures|
      invariant Select(apertures, codedWidth, codedHeight) == Select(apertures[i..], codedWidth, codedHeight)
    {
      var area := TryReadVideoArea(apertures[i], codedWidth, codedHeight);
      assert apertures[i..][1..] == apertures[i + 1..];
      if !area.NotThere? { return area; }
    }
    r := Found(Area(0, 0, codedWidth, codedHeight));
  }

  /** Whatever is selected can be cropped from the frame. */
  lemma {:induction false} SelectedIsVisible(apertures: seq<Aperture>, codedWidth: nat, codedHeight: nat)
    requires codedWidth > 0 && codedHeight > 0 && codedWidth % 2 == 0 && codedHeight % 2 == 0
    ensures var r := Select(apertures, codedWidth, codedHeight);
      !r.NotThere? && (r.Found? ==> Visible(r.area, codedWidth, codedHeight))
  {
    if apertures != [] && apertures[0].Absent? { SelectedIsVisible(apertures[1..], codedWidth, codedHeight); }
  }

  // ----- rows -----

  /** Where row y starts when rows are `stride` apart. */
  function RowStart(y: nat, stride: nat): nat { y * stride }

  lemma NextRow(y: nat, stride: nat)
    ensures RowStart(0, stride) == 0 && RowStart(y + 1, stride) == RowStart(y, stride) + stride
  {
  }

  lemma {:induction false} EarlierRow(y: nat, n: nat, stride: nat)
    requires y < n
    ensures RowStart(y, stride) + stride <= RowStart(n, stride)
  {
    hide RowStart;
    NextRow(n - 1, stride);
    if y < n - 1 { EarlierRow(y, n - 1, stride); }
  }

  /** `n` rows of `width` bytes, the first at `at`, one every `stride` bytes, stay inside. */
  predicate Fits(size: nat, stride: nat, at: nat, width: nat, n: nat) {
    n == 0 || at + RowStart(n - 1, stride) + width <= size
  }

  lemma FitsFewer(size: nat, stride: nat, at: nat, width: nat, n: nat, m: nat)
    requires Fits(size, stride, at, width, n) && m <= n
    ensures Fits(size, stride, at, width, m)
  {
    hide RowStart;
    if 0 < m < n { EarlierRow(m - 1, n - 1, stride); }
  }

  function Slice(s: seq<byte>, from: nat, n: nat): (r: seq<byte>)
    requires from + n <= |s|
    ensures |r| == n && forall x :: 0 <= x < n ==> r[x] == s[from + x]
  {
    s[from..from + n]
  }

  /** These rows, one after the other. */
  function Rows(s: seq<byte>, stride: nat, at: nat, width: nat, n: nat): (r: seq<byte>)
    requires Fits(|s|, stride, at, width, n)
    ensures |r| == RowStart(n, width)
  {
    NextRow(if n == 0 then 0 else n - 1, width);
    if n == 0 then []
    else
      FitsFewer(|s|, stride, at, width, n, n - 1);
      Rows(s, stride, at, width, n - 1) + Slice(s, at + RowStart(n - 1, stride), width)
  }

  lemma RowsStep(s: seq<byte>, stride: nat, at: nat, width: nat, n: nat)
    requires Fits(|s|, stride, at, width, n)
    ensures n == 0 ==> Rows(s, stride, at, width, n) == []
    ensures n > 0 ==>
      Fits(|s|, stride, at, width, n - 1) &&
      Rows(s, stride, at, width, n) == Rows(s, stride, at, width, n - 1) + Slice(s, at + RowStart(n - 1, stride), width)
  {
    if n > 0 { FitsFewer(|s|, stride, at, width, n, n - 1); }
  }

  /** Byte by byte: column x of row y. */
  lemma {:induction false} RowsAt(s: seq<byte>, stride: nat, at: nat, width: nat, n: nat, y: nat, x: nat)
    requires Fits(|s|, stride, at, width, n) && y < n && x < width
    ensures RowStart(y, width) + x < RowStart(n, width) && at + RowStart(y, stride) + x < |s|
    ensures Rows(s, stride, at, width, n)[RowStart(y, width) + x] == s[at + RowStart(y, stride) + x]
    decreases n
  {
    hide RowStart, Slice, Rows;
    EarlierRow(y, n, width);
    FitsFewer(|s|, stride, at, width, n, n - 1);
    NextRow(n - 1, width);
    RowsStep(s, stride, at, width, n);
    if y < n - 1 { RowsAt(s, stride, at, width, n - 1, y, x); }
  }

  lemma SameSlices(a: seq<byte>, from: nat, b: seq<byte>, to: nat, n: nat)
    requires from + n <= |a| && to + n <= |b|
    requires forall x :: 0 <= x < n ==> Slice(a, from, n)[x] == Slice(b, to, n)[x]
    ensures Slice(a, from, n) == Slice(b, to, n)
  {
  }

  lemma OneRow(s: seq<byte>, stride: nat, at: nat, width: nat, n: nat, y: nat, left: nat, inner: nat)
    requires Fits(|s|, stride, at, width, n) && y < n && left + inner <= width
    ensures RowStart(y, width) + width <= RowStart(n, width) && at + RowStart(y, stride) + width <= |s|
    ensures Slice(Rows(s, stride, at, width, n), RowStart(y, width) + left, inner) == Slice(s, at + RowStart(y, stride) + left, inner)
  {
    hide RowStart, Slice, Rows;
    EarlierRow(y, n, width);
    FitsFewer(|s|, stride, at, width, n, y + 1);
    var r := Rows(s, stride, at, width, n);
    var from, to := RowStart(y, width) + left, at + RowStart(y, stride) + left;
    forall x | 0 <= x < inner ensures Slice(r, from, inner)[x] == Slice(s, to, inner)[x] {
      RowsAt(s, stride, at, width, n, y, left + x);
    }
    SameSlices(r, from, s, to, inner);
  }

  lemma RowsAdd(a: nat, b: nat, stride: nat)
    ensures RowStart(a + b, stride) == RowStart(a, stride) + RowStart(b, stride)
  {
  }

  lemma InnerFits(size: nat, stride: nat, at: nat, width: nat, n: nat, left: nat, top: nat, inner: nat, m: nat)
    requires Fits(size, stride, at, width, n) && left + inner <= width && top + m <= n
    ensures Fits(RowStart(n, width), width, RowStart(top, width) + left, inner, m)
    ensures Fits(size, stride, at + RowStart(top, stride) + left, inner, m)
  {
    hide RowStart;
    if m > 0 {
      RowsAdd(top, m - 1, width);
      RowsAdd(top, m - 1, stride);
      EarlierRow(top + m - 1, n, width);
      FitsFewer(size, stride, at, width, n, top + m);
    }
  }

  /** Rows of rows are rows of the original. */
  lemma {:induction false} RowsOfRows(s: seq<byte>, stride: nat, at: nat, width: nat, n: nat, left: nat, top: nat, inner: nat, m: nat)
    requires Fits(|s|, stride, at, width, n) && left + inner <= width && top + m <= n
    requires Fits(RowStart(n, width), width, RowStart(top, width) + left, inner, m)
    requires Fits(|s|, stride, at + RowStart(top, stride) + left, inner, m)
    ensures Rows(Rows(s, stride, at, width, n), width, RowStart(top, width) + left, inner, m) ==
            Rows(s, stride, at + RowStart(top, stride) + left, inner, m)
  {
    hide RowStart, Slice, Rows, Fits;
    var r := Rows(s, stride, at, width, n);
    RowsStep(r, width, RowStart(top, width) + left, inner, m);
    RowsStep(s, stride, at + RowStart(top, stride) + left, inner, m);
    if m > 0 {
      var y := top + m - 1;
      InnerFits(|s|, stride, at, width, n, left, top, inner, m - 1);
      RowsOfRows(s, stride, at, width, n, left, top, inner, m - 1);
      RowsAdd(top, m - 1, width);
      RowsAdd(top, m - 1, stride);
      OneRow(s, stride, at, width, n, y, left, inner);
    }
  }

  lemma SlicesOfParts(a: seq<byte>, b: seq<byte>, from: nat, n: nat)
    ensures from + n <= |a| ==> Slice(a + b, from, n) == Slice(a, from, n)
    ensures from + n <= |b| ==> Slice(a + b, |a| + from, n) == Slice(b, from, n)
  {
  }

  /** Rows that lie in one part of a frame do not see the other part. */
  lemma {:induction false} RowsInFront(a: seq<byte>, b: seq<byte>, stride: nat, at: nat, width: nat, n: nat)
    requires Fits(|a|, stride, at, width, n)
    ensures Fits(|a + b|, stride, at, width, n) && Rows(a + b, stride, at, width, n) == Rows(a, stride, at, width, n)
    decreases n
  {
    hide RowStart, Slice;
    if n > 0 {
      FitsFewer(|a|, stride, at, width, n, n - 1);
      RowsInFront(a, b, stride, at, width, n - 1);
      SlicesOfParts(a, b, at + RowStart(n - 1, stride), width);
    }
  }

  lemma {:induction false} RowsInBack(a: seq<byte>, b: seq<byte>, stride: nat, at: nat, width: nat, n: nat)
    requires Fits(|b|, stride, at, width, n)
    ensures Fits(|a + b|, stride, |a| + at, width, n) && Rows(a + b, stride, |a| + at, width, n) == Rows(b, stride, at, width, n)
    decreases n
  {
    hide RowStart, Slice;
    if n > 0 {
      FitsFewer(|b|, stride, at, width, n, n - 1);
      RowsInBack(a, b, stride, at, width, n - 1);
      SlicesOfParts(a, b, at + RowStart(n - 1, stride), width);
    }
  }

  // ----- frames -----

  /** Luma and chroma bytes of a frame. */
  function FrameBytes(width: nat, height: nat): nat {
    RowStart(height, width) + RowStart(height, width) / 2
  }

  lemma HalfRows(height: nat, width: nat)
    requires height % 2 == 0
    ensures RowStart(height, width) / 2 == RowStart(height / 2, width)
    ensures FrameBytes(width, height) == RowStart(height, width) + RowStart(height / 2, width)
  {
    assert RowStart(height, width) == 2 * RowStart(height / 2, width) by { RowsAdd(height / 2, height / 2, width); }
  }

  predicate Croppable(size: nat, width: nat, height: nat, a: Area) {
    Visible(a, width, height) && height % 2 == 0 && FrameBytes(width, height) <= size
  }

  function LumaStart(width: nat, a: Area): nat { RowStart(a.top, width) + a.left }

  function ChromaStart(width: nat, height: nat, a: Area): nat { RowStart(height, width) + RowStart(a.top / 2, width) + a.left }

  lemma WholeFits(size: nat, width: nat, at: nat, n: nat)
    requires at + RowStart(n, width) <= size
    ensures Fits(size, width, at, width, n)
  {
    hide RowStart;
    if n > 0 { NextRow(n - 1, width); }
  }

  lemma CropFits(size: nat, width: nat, height: nat, a: Area)
    requires Croppable(size, width, height, a)
    ensures Fits(size, width, LumaStart(width, a), a.width, a.height)
    ensures Fits(size, width, ChromaStart(width, height, a), a.width, a.height / 2)
  {
    HalfRows(height, width);
    hide RowStart, FrameBytes;
    WholeFits(size, width, 0, height);
    WholeFits(size, width, RowStart(height, width), height / 2);
    InnerFits(size, width, 0, width, height, a.left, a.top, a.width, a.height);
    InnerFits(size, width, RowStart(height, width), width, height / 2, a.left, a.top / 2, a.width, a.height / 2);
  }

  /** The visible rows of both planes. */
  function CropOf(s: seq<byte>, width: nat, height: nat, a: Area): (r: seq<byte>)
    requires Croppable(|s|, width, height, a)
    ensures |r| == FrameBytes(a.width, a.height)
  {
    CropFits(|s|, width, height, a);
    HalfRows(a.height, a.width);
    Rows(s, width, LumaStart(width, a), a.width, a.height) +
    Rows(s, width, ChromaStart(width, height, a), a.width, a.height / 2)
  }

  /** Copies one row to where it belongs. */
  method CopyRow(destination: array<byte>, to: nat, source: seq<byte>, from: nat, n: nat)
    requires to + n <= destination.Length && from + n <= |source|
    modifies destination
    ensures forall k :: 0 <= k < to ==> destination[k] == old(destination[k])
    ensures forall k :: to <= k < to + n ==> destination[k] == source[from + k - to]
  {
    for x := 0 to n
      invariant forall k :: 0 <= k < to ==> destination[k] == old(destination[k])
      invariant forall k :: to <= k < to + x ==> destination[k] == source[from + k - to]
    {
      destination[to + x] := source[from + x];
    }
  }

  /** Copies `n` rows behind what is already there. */
  method CopyRows(destination: array<byte>, to: nat, source: seq<byte>, stride: nat, at: nat, width: nat, n: nat)
    requires Fits(|source|, stride, at, width, n) && to + RowStart(n, width) <= destination.Length
    modifies destination
    ensures destination[..to] == old(destination[..to])
    ensures destination[to..to + RowStart(n, width)] == Rows(source, stride, at, width, n)
  {
    hide RowStart, Rows, Fits, Slice;
    NextRow(0, width);
    FitsFewer(|source|, stride, at, width, n, 0);
    RowsStep(source, stride, at, width, 0);
    for y := 0 to n
      invariant to + RowStart(y, width) <= destination.Length && Fits(|source|, stride, at, width, y)
      invariant destination[..to] == old(destination[..to])
      invariant destination[to..to + RowStart(y, width)] == Rows(source, stride, at, width, y)
    {
      FitsFewer(|source|, stride, at, width, n, y + 1);
      RowInside(|source|, stride, at, width, y + 1);
      NextRow(y, width);
      EarlierRow(y, n, width);
      RowsStep(source, stride, at, width, y + 1);
      ghost var before := destination[..];
      var k := to + RowStart(y, width);
      CopyRow(destination, k, source, at + RowStart(y, stride), width);
      Appended(before, destination[..], to, k, Slice(source, at + RowStart(y, stride), width));
    }
  }

  lemma RowInside(size: nat, stride: nat, at: nat, width: nat, n: nat)
    requires n > 0 && Fits(size, stride, at, width, n)
    ensures at + RowStart(n - 1, stride) + width <= size
  {
  }

  lemma Appended(before: seq<byte>, after: seq<byte>, to: nat, k: nat, row: seq<byte>)
    requires |before| == |after| && to <= k && k + |row| <= |after|
    requires forall i :: 0 <= i < k ==> after[i] == before[i]
    requires forall i :: 0 <= i < |row| ==> after[k + i] == row[i]
    ensures after[..to] == before[..to] && after[to..k + |row|] == before[to..k] + row
  {
  }

  /** The crop, or nothing when the buffer is too short for the frame it claims to hold. */
  method CopyVisibleNv12(source: seq<byte>, codedWidth: nat, codedHeight: nat, visible: Area) returns (cropped: Option<seq<byte>>)
    requires Visible(visible, codedWidth, codedHeight) && codedHeight % 2 == 0
    ensures cropped.None? <==> |source| < FrameBytes(codedWidth, codedHeight)
    ensures cropped.Some? ==> cropped.value == CropOf(source, codedWidth, codedHeight, visible)
  {
    var codedLumaBytes := codedWidth * codedHeight;
    var visibleLumaBytes := visible.width * visible.height;
    assert RowStart(codedHeight, codedWidth) == codedLumaBytes && RowStart(visible.height, visible.width) == visibleLumaBytes;
    if codedLumaBytes + codedLumaBytes / 2 > |source| { return None; }
    var luma, chroma := visible.top * codedWidth + visible.left, codedLumaBytes + (visible.top / 2) * codedWidth + visible.left;
    assert luma == LumaStart(codedWidth, visible) && chroma == ChromaStart(codedWidth, codedHeight, visible);
    CropFits(|source|, codedWidth, codedHeight, visible);
    HalfRows(visible.height, visible.width);
    var size := visibleLumaBytes + visibleLumaBytes / 2;
    assert size == FrameBytes(visible.width, visible.height);
    hide RowStart, Rows, Fits, FrameBytes, LumaStart, ChromaStart;
    var destination := new byte[size];
    CopyRows(destination, 0, source, codedWidth, luma, visible.width, visible.height);
    ghost var first := destination[..visibleLumaBytes];
    assert first == destination[0..0 + visibleLumaBytes];
    CopyRows(destination, visibleLumaBytes, source, codedWidth, chroma, visible.width, visible.height / 2);
    Halves(destination[..], visibleLumaBytes);
    cropped := Some(destination[..]);
  }

  lemma Halves(s: seq<byte>, k: nat)
    requires k <= |s|
    ensures s == s[..k] + s[k..|s|]
  {
  }

  /** Every byte of the crop is the coded byte at the shifted position, luma and chroma alike. */
  lemma CropIsExact(s: seq<byte>, width: nat, height: nat, a: Area, x: nat, y: nat)
    requires Croppable(|s|, width, height, a) && x < a.width && y < a.height
    ensures var c := CropOf(s, width, height, a);
      && RowStart(y, a.width) + x < |c| && RowStart(a.top + y, width) + a.left + x < |s|
      && c[RowStart(y, a.width) + x] == s[RowStart(a.top + y, width) + a.left + x]
    ensures y < a.height / 2 ==>
      var c, from, to := CropOf(s, width, height, a), RowStart(height, width) + RowStart(a.top / 2 + y, width), RowStart(a.height, a.width) + RowStart(y, a.width);
      to + x < |c| && from + a.left + x < |s| && c[to + x] == s[from + a.left + x]
  {
    hide Rows, Fits, RowStart, FrameBytes;
    CropFits(|s|, width, height, a);
    HalfRows(a.height, a.width);
    RowsAt(s, width, LumaStart(width, a), a.width, a.height, y, x);
    RowsAdd(a.top, y, width);
    if y < a.height / 2 {
      RowsAt(s, width, ChromaStart(width, height, a), a.width, a.height / 2, y, x);
      RowsAdd(a.top / 2, y, width);
    }
  }

  function Shifted(a: Area, b: Area): Area {
    Area(a.left + b.left, a.top + b.top, b.width, b.height)
  }

  /** Cropping a crop is one crop at the summed offset. */
  lemma CropOfCrop(s: seq<byte>, width: nat, height: nat, a: Area, b: Area)
    requires Croppable(|s|, width, height, a) && Visible(b, a.width, a.height)
    ensures Croppable(|s|, width, height, Shifted(a, b))
    ensures CropOf(CropOf(s, width, height, a), a.width, a.height, b) == CropOf(s, width, height, Shifted(a, b))
  {
    hide RowStart, Rows, Fits, FrameBytes;
    var c := Shifted(a, b);
    CropFits(|s|, width, height, a);
    CropFits(|s|, width, height, c);
    HalfRows(a.height, a.width);
    var luma := Rows(s, width, LumaStart(width, a), a.width, a.height);
    var chroma := Rows(s, width, ChromaStart(width, height, a), a.width, a.height / 2);
    InnerFits(|s|, width, LumaStart(width, a), a.width, a.height, b.left, b.top, b.width, b.height);
    InnerFits(|s|, width, ChromaStart(width, height, a), a.width, a.height / 2, b.left, b.top / 2, b.width, b.height / 2);
    RowsInFront(luma, chroma, a.width, LumaStart(a.width, b), b.width, b.height);
    RowsInBack(luma, chroma, a.width, RowStart(b.top / 2, a.width) + b.left, b.width, b.height / 2);
    RowsOfRows(s, width, LumaStart(width, a), a.width, a.height, b.left, b.top, b.width, b.height);
    RowsOfRows(s, width, ChromaStart(width, height, a), a.width, a.height / 2, b.left, b.top / 2, b.width, b.height / 2);
    RowsAdd(a.top, b.top, width);
    RowsAdd(a.top / 2, b.top / 2, width);
    assert c.top / 2 == a.top / 2 + b.top / 2;
  }

  lemma {:induction false} WholeRows(s: seq<byte>, width: nat, at: nat, n: nat)
    requires at + RowStart(n, width) <= |s| && Fits(|s|, width, at, width, n)
    ensures Rows(s, width, at, width, n) == Slice(s, at, RowStart(n, width))
  {
    hide RowStart, Rows, Fits;
    RowsStep(s, width, at, width, n);
    NextRow(0, width);
    if n > 0 {
      NextRow(n - 1, width);
      WholeRows(s, width, at, n - 1);
    }
  }

  /** Cropping to the whole frame is the frame. */
  lemma WholeCropIsFrame(s: seq<byte>, width: nat, height: nat)
    requires Croppable(|s|, width, height, Area(0, 0, width, height))
    ensures CropOf(s, width, height, Area(0, 0, width, height)) == s[..FrameBytes(width, height)]
  {
    CropFits(|s|, width, height, Area(0, 0, width, height));
    HalfRows(height, width);
    NextRow(0, width);
    hide RowStart, Rows, Fits, FrameBytes;
    WholeRows(s, width, 0, height);
    WholeRows(s, width, RowStart(height, width), height / 2);
  }

  // ----- which areas are accepted -----

  /** An aperture is accepted exactly when its offsets are whole and not negative, its extent is positive, all four are
      even and it ends inside the coded frame; then it is the area. */
  lemma AcceptedExactly(m: Aperture, codedWidth: int, codedHeight: int)
    ensures m.Absent? <==> Read(m, codedWidth, codedHeight) == NotThere
    ensures m.Aperture? ==>
      var fits := m.offsetX >= 0 && m.offsetY >= 0 && m.fractX == 0 && m.fractY == 0 && m.cx > 0 && m.cy > 0
        && m.offsetX % 2 == 0 && m.offsetY % 2 == 0 && m.cx % 2 == 0 && m.cy % 2 == 0
        && m.offsetX + m.cx <= codedWidth && m.offsetY + m.cy <= codedHeight;
      if fits then Read(m, codedWidth, codedHeight) == Found(Area(m.offsetX, m.offsetY, m.cx, m.cy))
      else Read(m, codedWidth, codedHeight) == Invalid
    ensures m.Malformed? ==> Read(m, codedWidth, codedHeight) == Invalid
  {
  }

  /** The first aperture that is there decides alone; with none there the whole frame is the area. */
  lemma {:induction false} FirstApertureDecides(apertures: seq<Aperture>, n: nat, codedWidth: nat, codedHeight: nat)
    requires n <= |apertures| && (forall i :: 0 <= i < n ==> apertures[i].Absent?) && (n < |apertures| ==> !apertures[n].Absent?)
    ensures Select(apertures, codedWidth, codedHeight) ==
      if n == |apertures| then Found(Area(0, 0, codedWidth, codedHeight)) else Read(apertures[n], codedWidth, codedHeight)
    decreases n
  {
    if n > 0 { FirstApertureDecides(apertures[1..], n - 1, codedWidth, codedHeight); }
  }
}
