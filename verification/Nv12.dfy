/**
 scripts/bmp_to_nv12.py: fixed-point colour conversion of a 24-bit image, then packing into a luma
 plane and a plane of interleaved chroma pairs.  Division of Python integers rounds down, as does
 Dafny's for the positive divisors used here; `>> 8` is division by 256.
 */
module Nv12 {
  import opened Options
  import opened RowMajor

  type Byte = x: int | 0 <= x < 256

  // ----- colour

  function Luma(r: int, g: int, b: int): int {
    (66 * r + 129 * g + 25 * b + 128) / 256 + 16
  }

  function ChromaU(r: int, g: int, b: int): int {
    (-38 * r - 74 * g + 112 * b + 128) / 256 + 128
  }

  function ChromaV(r: int, g: int, b: int): int {
    (112 * r - 94 * g - 18 * b + 128) / 256 + 128
  }

  /** Limited range: luma in 16..235, chroma in 16..240, so every value fits its byte. */
  lemma LimitedRange(r: Byte, g: Byte, b: Byte)
    ensures 16 <= Luma(r, g, b) <= 235
    ensures 16 <= ChromaU(r, g, b) <= 240
    ensures 16 <= ChromaV(r, g, b) <= 240
  {
  }

  /** The weighted sum of section 2.5 of ITU-R BT.601-7. */
  ghost function ExactLuma(r: int, g: int, b: int): real {
    0.299 * r as real + 0.587 * g as real + 0.114 * b as real
  }

  ghost function ExactY(r: int, g: int, b: int): real {
    16.0 + 219.0 / 255.0 * ExactLuma(r, g, b)
  }

  ghost function ExactU(r: int, g: int, b: int): real {
    128.0 + 224.0 / 255.0 * ((b as real - ExactLuma(r, g, b)) / 1.772)
  }

  ghost function ExactV(r: int, g: int, b: int): real {
    128.0 + 224.0 / 255.0 * ((r as real - ExactLuma(r, g, b)) / 1.402)
  }

  ghost predicate Near(code: int, exact: real) {
    -1.0 < code as real - exact < 1.0
  }

  /** The fixed-point values are less than one code value away from the standard's formulas. */
  lemma CloseToStandard(r: Byte, g: Byte, b: Byte)
    ensures Near(Luma(r, g, b), ExactY(r, g, b))
    ensures Near(ChromaU(r, g, b), ExactU(r, g, b))
    ensures Near(ChromaV(r, g, b), ExactV(r, g, b))
  {
  }

  /** `code` is `offset` plus the sum over 256, rounded to the nearest integer, halves up. */
  ghost predicate Rounds(code: int, sum: int, offset: int) {
    -128 <= sum - 256 * (code - offset) < 128
  }

  /** What the luma byte of a colour has to be; the first conjunct leaves one value only. */
  ghost predicate LumaOf(code: int, r: int, g: int, b: int) {
    Rounds(code, 66 * r + 129 * g + 25 * b, 16) && Near(code, ExactY(r, g, b))
  }

  ghost predicate UOf(code: int, r: int, g: int, b: int) {
    Rounds(code, -38 * r - 74 * g + 112 * b, 128) && Near(code, ExactU(r, g, b))
  }

  ghost predicate VOf(code: int, r: int, g: int, b: int) {
    Rounds(code, 112 * r - 94 * g - 18 * b, 128) && Near(code, ExactV(r, g, b))
  }

  lemma ColourMeans(r: Byte, g: Byte, b: Byte)
    ensures LumaOf(Luma(r, g, b), r, g, b) && UOf(ChromaU(r, g, b), r, g, b) && VOf(ChromaV(r, g, b), r, g, b)
  {
    CloseToStandard(r, g, b);
    hide ExactY, ExactU, ExactV, Near;
  }

  lemma GreyHasNoColour(v: Byte)
    ensures ChromaU(v, v, v) == 128 && ChromaV(v, v, v) == 128
  {
  }

  // ----- conversion to 4:4:4

  ghost function YAt(pixels: seq<Byte>, p: nat): int
    requires 3 * p + 2 < |pixels|
  {
    Luma(pixels[3 * p + 2], pixels[3 * p + 1], pixels[3 * p])
  }

  ghost function UAt(pixels: seq<Byte>, p: nat): int
    requires 3 * p + 2 < |pixels|
  {
    ChromaU(pixels[3 * p + 2], pixels[3 * p + 1], pixels[3 * p])
  }

  ghost function VAt(pixels: seq<Byte>, p: nat): int
    requires 3 * p + 2 < |pixels|
  {
    ChromaV(pixels[3 * p + 2], pixels[3 * p + 1], pixels[3 * p])
  }

  /** Pixels 0..count hold luma and chroma in place of blue, green and red. */
  ghost predicate Converted(pixels: seq<Byte>, converted: seq<Byte>, count: int) {
    && |converted| == |pixels| && 3 * count <= |pixels|
    && forall p :: 0 <= p < count ==>
      && converted[3 * p] == YAt(pixels, p)
      && converted[3 * p + 1] == UAt(pixels, p)
      && converted[3 * p + 2] == VAt(pixels, p)
  }

  /** Every pixel holds the luma and chroma of its colour; blue, green and red are its bytes 0, 1 and 2. */
  ghost predicate Coloured(pixels: seq<Byte>, converted: seq<Byte>) {
    && |converted| == |pixels|
    && forall p: nat :: 3 * p + 2 < |pixels| ==>
      && LumaOf(converted[3 * p], pixels[3 * p + 2], pixels[3 * p + 1], pixels[3 * p])
      && UOf(converted[3 * p + 1], pixels[3 * p + 2], pixels[3 * p + 1], pixels[3 * p])
      && VOf(converted[3 * p + 2], pixels[3 * p + 2], pixels[3 * p + 1], pixels[3 * p])
  }

  lemma ConvertedColoured(pixels: seq<Byte>, converted: seq<Byte>, count: nat)
    requires Converted(pixels, converted, count) && |pixels| == 3 * count
    ensures Coloured(pixels, converted)
  {
    hide LumaOf, UOf, VOf, Luma, ChromaU, ChromaV;
    forall p: nat | 3 * p + 2 < |pixels|
      ensures LumaOf(YAt(pixels, p), pixels[3 * p + 2], pixels[3 * p + 1], pixels[3 * p])
      ensures UOf(UAt(pixels, p), pixels[3 * p + 2], pixels[3 * p + 1], pixels[3 * p])
      ensures VOf(VAt(pixels, p), pixels[3 * p + 2], pixels[3 * p + 1], pixels[3 * p])
    {
      ColourMeans(pixels[3 * p + 2], pixels[3 * p + 1], pixels[3 * p]);
    }
  }

  lemma ConvertOne(pixels: seq<Byte>, converted: seq<Byte>, i: nat, y: Byte, u: Byte, v: Byte)
    requires |converted| == |pixels| && 3 * i + 2 < |pixels| && Converted(pixels, converted, i)
    requires y == YAt(pixels, i) && u == UAt(pixels, i) && v == VAt(pixels, i)
    ensures Converted(pixels, converted[3 * i := y][3 * i + 1 := u][3 * i + 2 := v], i + 1)
  {
    hide YAt, UAt, VAt;
  }

  lemma NothingConverted(pixels: seq<Byte>, converted: seq<Byte>)
    requires |converted| == |pixels|
    ensures Converted(pixels, converted, 0)
  {
  }

  method ConvertPixel(pixels: seq<Byte>, i: nat) returns (y: Byte, u: Byte, v: Byte)
    requires 3 * i + 2 < |pixels|
    ensures y == YAt(pixels, i) && u == UAt(pixels, i) && v == VAt(pixels, i)
  {
    var r, g, b := pixels[i * 3 + 2], pixels[i * 3 + 1], pixels[i * 3];
    LimitedRange(r, g, b);
    hide Luma, ChromaU, ChromaV;
    y, u, v := Luma(r, g, b), ChromaU(r, g, b), ChromaV(r, g, b);
  }

  method ConvertPixels(pixels: seq<Byte>, count: nat) returns (converted: array<Byte>)
    requires |pixels| == 3 * count
    ensures fresh(converted) && converted.Length == |pixels|
    ensures Converted(pixels, converted[..], count) && Coloured(pixels, converted[..])
  {
    hide Converted, Coloured, YAt, UAt, VAt;
    converted := new Byte[|pixels|](k requires 0 <= k < |pixels| => pixels[k]);
    NothingConverted(pixels, converted[..]);
    for i := 0 to count
      invariant converted.Length == |pixels| && Converted(pixels, converted[..], i)
    {
      var y, u, v := ConvertPixel(pixels, i);
      ghost var was: seq<Byte> := converted[..];
      ConvertOne(pixels, was, i, y, u, v);
      converted[i * 3] := y;
      converted[i * 3 + 1] := u;
      converted[i * 3 + 2] := v;
      assert converted[..] == was[3 * i := y][3 * i + 1 := u][3 * i + 2 := v];
    }
    ConvertedColoured(pixels, converted[..], count);
  }

  method ExtractY(pixels: seq<Byte>, converted: array<Byte>, count: nat) returns (y: array<Byte>)
    requires |pixels| == 3 * count && Converted(pixels, converted[..], count)
    ensures fresh(y) && y.Length == count
    ensures forall p :: 0 <= p < count ==> y[p] == YAt(pixels, p)
    ensures forall p :: 0 <= p < count ==> LumaOf(y[p], pixels[3 * p + 2], pixels[3 * p + 1], pixels[3 * p])
  {
    ConvertedColoured(pixels, converted[..], count);
    hide YAt, LumaOf, UOf, VOf;
    y := new Byte[count];
    for i := 0 to count
      invariant forall p :: 0 <= p < i ==> y[p] == converted[3 * p]
    {
      y[i] := converted[..][i * 3];
    }
  }

  // ----- chroma downsampling

  function Area(w: nat, h: nat): nat { w * h }

  function ChromaCount(w: nat, h: nat): nat { Area(w, h) / 2 }

  /** The two pixels whose chroma is averaged into the pair at byte i of the chroma plane. */
  function UpperPixel(w: nat, i: nat): nat
    requires w > 0
  {
    i / w * 2 * w + i % w
  }

  function LowerPixel(w: nat, i: nat): nat
    requires w > 0
  {
    i / w * 2 * w + w + i % w
  }

  /** The pair at byte i can be computed and stored. */
  ghost predicate PairFits(w: nat, h: nat, i: nat) {
    w > 0 && LowerPixel(w, i) < Area(w, h) && i + 1 < ChromaCount(w, h)
  }

  /** No access of the downsampling loop is out of bounds. */
  ghost predicate AllPairsFit(w: nat, h: nat) {
    forall i: nat :: i < ChromaCount(w, h) && i % 2 == 0 ==> PairFits(w, h, i)
  }

  ghost function PairStart(k: nat): nat { k - k % 2 }

  function Mean(a: int, b: int): int { (a + b) / 2 }

  /** Byte k of the chroma plane: U at even, V at odd places. */
  ghost function ChromaByte(converted: seq<Byte>, w: nat, k: nat): int
    requires w > 0
    requires 3 * UpperPixel(w, PairStart(k)) + 2 < |converted| && 3 * LowerPixel(w, PairStart(k)) + 2 < |converted|
  {
    Mean(converted[3 * UpperPixel(w, PairStart(k)) + 1 + k % 2], converted[3 * LowerPixel(w, PairStart(k)) + 1 + k % 2])
  }

  lemma UpperBeforeLower(w: nat, i: nat)
    requires w > 0
    ensures UpperPixel(w, i) + w == LowerPixel(w, i)
  {
  }

  ghost predicate ByteInPlace(converted: seq<Byte>, w: nat, h: nat, uv: seq<Byte>, k: nat) {
    && |converted| == 3 * Area(w, h) && k < |uv|
    && PairFits(w, h, PairStart(k))
    && 3 * UpperPixel(w, PairStart(k)) + 2 < |converted|
    && uv[k] == ChromaByte(converted, w, k)
  }

  /** Bytes 0..count of the chroma plane are in place. */
  ghost predicate Downsampled(converted: seq<Byte>, w: nat, h: nat, uv: seq<Byte>, count: int) {
    forall k: nat :: k < count ==> ByteInPlace(converted, w, h, uv, k)
  }

  /** The places 0, 1, ..., n - 1, each once. */
  ghost function UpTo(n: nat): seq<nat> {
    seq(n, i requires 0 <= i < n => i)
  }

  /** None stands for the IndexError that ends the script; `written` lists the writes to the plane in order. */
  method Downsample(converted: seq<Byte>, w: nat, h: nat) returns (r: Option<seq<Byte>>, ghost written: seq<nat>)
    requires |converted| == 3 * Area(w, h)
    ensures r.Some? ==> written == UpTo(ChromaCount(w, h))
    ensures r.Some? <==> AllPairsFit(w, h)
    ensures r.Some? ==> |r.value| == ChromaCount(w, h) && Downsampled(converted, w, h, r.value, ChromaCount(w, h))
  {
    hide Area, UpperPixel, LowerPixel, Downsampled;
    var count := Area(w, h) / 2;
    var uv := new Byte[count];
    NothingDownsampled(converted, w, h, uv[..]);
    var i := 0;
    written := [];
    while i < count
      invariant i % 2 == 0 && i <= count && written == UpTo(i)
      invariant forall k: nat :: k < i && k % 2 == 0 ==> PairFits(w, h, k)
      invariant Downsampled(converted, w, h, uv[..], i)
    {
      SomeWidth(w, h);
      var upper, lower := UpperPixel(w, i), LowerPixel(w, i);
      UpperBeforeLower(w, i);
      if lower * 3 + 2 >= |converted| || i + 1 >= count {
        assert !PairFits(w, h, i);
        r := None;
        return;
      }
      ghost var was: seq<Byte> := uv[..];
      var u: Byte := Mean(converted[upper * 3 + 1], converted[lower * 3 + 1]);
      var v: Byte := Mean(converted[upper * 3 + 2], converted[lower * 3 + 2]);
      uv[i] := u;
      uv[i + 1] := v;
      written := written + [i, i + 1];
      DownsampleOne(converted, w, h, was, i, u, v);
      assert uv[..] == was[i := u][i + 1 := v];
      i := i + 2;
    }
    r := Some(uv[..]);
  }

  lemma NothingDownsampled(converted: seq<Byte>, w: nat, h: nat, uv: seq<Byte>)
    ensures Downsampled(converted, w, h, uv, 0)
  {
  }

  lemma SomeWidth(w: nat, h: nat)
    requires Area(w, h) > 0
    ensures w > 0 && h > 0
  {
  }

  lemma DownsampleOne(converted: seq<Byte>, w: nat, h: nat, uv: seq<Byte>, i: nat, u: Byte, v: Byte)
    requires i % 2 == 0 && i + 1 < |uv| && |converted| == 3 * Area(w, h)
    requires PairFits(w, h, i) && Downsampled(converted, w, h, uv, i)
    requires 3 * UpperPixel(w, i) + 2 < |converted|
    requires u == Mean(converted[3 * UpperPixel(w, i) + 1], converted[3 * LowerPixel(w, i) + 1])
    requires v == Mean(converted[3 * UpperPixel(w, i) + 2], converted[3 * LowerPixel(w, i) + 2])
    ensures Downsampled(converted, w, h, uv[i := u][i + 1 := v], i + 2)
  {
    hide UpperPixel, LowerPixel, ChromaCount, Mean;
    var next := uv[i := u][i + 1 := v];
    forall k: nat | k < i + 2 ensures ByteInPlace(converted, w, h, next, k) {
      if k < i {
        assert ByteInPlace(converted, w, h, uv, k);
      }
    }
  }

  // ----- which image sizes work

  lemma LowerPixelRow(w: nat, q: nat, c: nat, i: nat)
    requires c < w && i == q * w + c
    ensures LowerPixel(w, i) == (2 * q + 1) * w + c
    ensures UpperPixel(w, i) == 2 * q * w + c
  {
    DivMod(q, w, c);
  }

  /** The lower row of a pair lies in the image. */
  lemma RowFits(w: nat, h: nat, q: nat, c: nat, i: nat)
    requires c < w && i == q * w + c
    ensures LowerPixel(w, i) < Area(w, h) <==> 2 * q + 1 < h
  {
    LowerPixelRow(w, q, c, i);
    if 2 * q + 1 < h {
      RowsBelow(2 * q + 1, h, w);
    } else {
      MulMonotone(h, 2 * q + 1, w);
    }
  }

  lemma EvenHeightFits(w: nat, h: nat, i: nat)
    requires h % 2 == 0 && i < ChromaCount(w, h)
    ensures w > 0 && LowerPixel(w, i) < Area(w, h)
  {
    var m := h / 2;
    assert Area(w, h) == 2 * (m * w);
    SomeWidth(w, h);
    QuotientBelow(i, m, w);
    RowFits(w, h, i / w, i % w, i);
  }

  lemma OddHeightCount(w: nat, m: nat)
    ensures ChromaCount(w, 2 * m + 1) == m * w + w / 2
  {
    assert Area(w, 2 * m + 1) == 2 * (m * w) + w;
  }

  /** With an odd height the last, unpaired row is reached by any even place past m full chroma rows. */
  lemma OddHeightFits(w: nat, m: nat, i: nat)
    requires i < ChromaCount(w, 2 * m + 1)
    ensures w > 0
    ensures LowerPixel(w, i) < Area(w, 2 * m + 1) <==> i < m * w
  {
    OddHeightCount(w, m);
    if i < m * w {
      QuotientBelow(i, m, w);
      RowFits(w, 2 * m + 1, i / w, i % w, i);
    } else {
      RowFits(w, 2 * m + 1, m, i - m * w, i);
    }
  }

  /**
   An even number of chroma bytes, and an even height, or at most one column, or three columns and
   a height of 3 modulo 4.
   */
  predicate SizeWorks(w: nat, h: nat) {
    ChromaCount(w, h) % 2 == 0 && (h % 2 == 0 || w <= 1 || (w == 3 && h % 4 == 3))
  }

  /** The script gets through exactly for these sizes. */
  lemma FitsIff(w: nat, h: nat)
    ensures AllPairsFit(w, h) <==> SizeWorks(w, h)
  {
    var count := ChromaCount(w, h);
    hide ChromaCount, Area, LowerPixel;
    if count % 2 == 1 {
      assert !PairFits(w, h, count - 1);
    } else if h % 2 == 0 {
      forall i: nat | i < count && i % 2 == 0 ensures PairFits(w, h, i) {
        EvenHeightFits(w, h, i);
      }
    } else {
      OddHeightFitsIff(w, h / 2);
    }
  }

  lemma OddHeightFitsIff(w: nat, m: nat)
    requires ChromaCount(w, 2 * m + 1) % 2 == 0
    ensures AllPairsFit(w, 2 * m + 1) <==> w <= 1 || (w == 3 && m % 2 == 1)
  {
    var h := 2 * m + 1;
    OddHeightCount(w, m);
    hide ChromaCount, Area, LowerPixel;
    var full := m * w;
    if full % 2 == 0 && full < ChromaCount(w, h) {
      OddHeightFits(w, m, full);
      assert !PairFits(w, h, full);
      assert w != 3 || m % 2 == 0 by { ThreeColumns(w, m); }
    } else if full % 2 == 1 && full + 1 < ChromaCount(w, h) {
      OddHeightFits(w, m, full + 1);
      assert !PairFits(w, h, full + 1);
    } else {
      forall i: nat | i < ChromaCount(w, h) && i % 2 == 0 ensures PairFits(w, h, i) {
        OddHeightFits(w, m, i);
      }
      assert w <= 1 || (w == 3 && m % 2 == 1) by { ThreeColumns(w, m); }
    }
  }

  lemma ThreeColumns(w: nat, m: nat)
    ensures w == 2 ==> (m * w) % 2 == 0
    ensures w == 3 ==> (m * w) % 2 == m % 2
  {
  }

  // ----- the whole script

  /** Byte k of the chroma plane in terms of the image: the mean over the pixel and the one below it. */
  ghost function PlaneByte(pixels: seq<Byte>, w: nat, k: nat): int
    requires w > 0 && 3 * UpperPixel(w, PairStart(k)) + 2 < |pixels| && 3 * LowerPixel(w, PairStart(k)) + 2 < |pixels|
  {
    var upper, lower := UpperPixel(w, PairStart(k)), LowerPixel(w, PairStart(k));
    if k % 2 == 0 then Mean(UAt(pixels, upper), UAt(pixels, lower)) else Mean(VAt(pixels, upper), VAt(pixels, lower))
  }

  ghost predicate ChromaPlane(pixels: seq<Byte>, w: nat, h: nat, uv: seq<Byte>) {
    && |pixels| == 3 * Area(w, h) && |uv| == ChromaCount(w, h)
    && forall k: nat :: k < |uv| ==>
      && PairFits(w, h, PairStart(k))
      && 3 * UpperPixel(w, PairStart(k)) + 2 < |pixels|
      && uv[k] == PlaneByte(pixels, w, k)
  }

  lemma ChromaFromConverted(pixels: seq<Byte>, converted: seq<Byte>, w: nat, h: nat, uv: seq<Byte>)
    requires |pixels| == 3 * Area(w, h) && Converted(pixels, converted, Area(w, h))
    requires |uv| == ChromaCount(w, h) && Downsampled(converted, w, h, uv, ChromaCount(w, h))
    ensures ChromaPlane(pixels, w, h, uv)
  {
    hide Area, ChromaCount, UpperPixel, LowerPixel, UAt, VAt, YAt, Mean;
    forall k: nat | k < |uv|
      ensures PairFits(w, h, PairStart(k)) && 3 * UpperPixel(w, PairStart(k)) + 2 < |pixels|
      ensures uv[k] == PlaneByte(pixels, w, k)
    {
      assert ByteInPlace(converted, w, h, uv, k);
    }
  }

  /**
   Byte k of the chroma plane, from the bytes of the image: the mean of U (at even places) or V (at odd
   places) over two pixels, one below the other.
   */
  ghost predicate ChromaMean(pixels: seq<Byte>, w: nat, k: nat, code: int, a: int, b: int) {
    w > 0 &&
    var i := k - k % 2;
    var upper := i / w * 2 * w + i % w;
    var lower := upper + w;
    && 3 * lower + 2 < |pixels| && code == (a + b) / 2
    && (if k % 2 == 0 then
          && UOf(a, pixels[3 * upper + 2], pixels[3 * upper + 1], pixels[3 * upper])
          && UOf(b, pixels[3 * lower + 2], pixels[3 * lower + 1], pixels[3 * lower])
        else
          && VOf(a, pixels[3 * upper + 2], pixels[3 * upper + 1], pixels[3 * upper])
          && VOf(b, pixels[3 * lower + 2], pixels[3 * lower + 1], pixels[3 * lower]))
  }

  ghost predicate IsMean(pixels: seq<Byte>, w: nat, k: nat, code: int) {
    exists a, b :: ChromaMean(pixels, w, k, code, a, b)
  }

  ghost predicate AllMeans(pixels: seq<Byte>, w: nat, uv: seq<Byte>) {
    forall k: nat :: k < |uv| ==> IsMean(pixels, w, k, uv[k])
  }

  lemma PlaneMeans(pixels: seq<Byte>, w: nat, h: nat, uv: seq<Byte>)
    requires ChromaPlane(pixels, w, h, uv)
    ensures AllMeans(pixels, w, uv)
  {
    hide ChromaPlane, IsMean;
    forall k: nat | k < |uv| ensures IsMean(pixels, w, k, uv[k]) {
      ByteMeans(pixels, w, h, uv, k);
    }
  }

  lemma ByteMeans(pixels: seq<Byte>, w: nat, h: nat, uv: seq<Byte>, k: nat)
    requires ChromaPlane(pixels, w, h, uv) && k < |uv|
    ensures IsMean(pixels, w, k, uv[k])
  {
    hide Area, ChromaCount, Luma, ChromaU, ChromaV, UOf, VOf;
    var upper, lower := UpperPixel(w, PairStart(k)), LowerPixel(w, PairStart(k));
    UpperBeforeLower(w, PairStart(k));
    ColourMeans(pixels[3 * upper + 2], pixels[3 * upper + 1], pixels[3 * upper]);
    ColourMeans(pixels[3 * lower + 2], pixels[3 * lower + 1], pixels[3 * lower]);
    if k % 2 == 0 {
      assert ChromaMean(pixels, w, k, uv[k], UAt(pixels, upper), UAt(pixels, lower));
    } else {
      assert ChromaMean(pixels, w, k, uv[k], VAt(pixels, upper), VAt(pixels, lower));
    }
  }

  /** Both planes, or None when the script ends with an IndexError. */
  method Convert(pixels: seq<Byte>, w: nat, h: nat) returns (r: Option<(seq<Byte>, seq<Byte>)>)
    requires |pixels| == 3 * Area(w, h)
    ensures r.Some? <==> SizeWorks(w, h)
    ensures r.Some? ==>
      && |r.value.0| == Area(w, h)
      && (forall p :: 0 <= p < Area(w, h) ==> r.value.0[p] == YAt(pixels, p))
      && ChromaPlane(pixels, w, h, r.value.1)
    ensures r.Some? ==> |r.value.0| == w * h && |r.value.1| == w * h / 2
    ensures r.Some? ==> forall p :: 0 <= p < |r.value.0| ==>
      LumaOf(r.value.0[p], pixels[3 * p + 2], pixels[3 * p + 1], pixels[3 * p])
    ensures r.Some? ==> AllMeans(pixels, w, r.value.1)
  {
    PlaneSizes(w, h);
    hide Area, ChromaCount, ChromaPlane, Downsampled, AllPairsFit, YAt, LumaOf, AllMeans, Converted, Coloured;
    FitsIff(w, h);
    var converted := ConvertPixels(pixels, Area(w, h));
    var uv, _ := Downsample(converted[..], w, h);
    if uv.None? {
      return None;
    }
    ChromaFromConverted(pixels, converted[..], w, h, uv.value);
    var y := ExtractY(pixels, converted, Area(w, h));
    PlaneLength(pixels, w, h, uv.value);
    PlaneMeans(pixels, w, h, uv.value);
    return Some((y[..], uv.value));
  }

  lemma PlaneSizes(w: nat, h: nat)
    ensures Area(w, h) == w * h && ChromaCount(w, h) == w * h / 2
  {
  }

  /** In every image, luma bytes are in 16..235 and packed chroma bytes in 16..240. */
  lemma PlanesInRange(pixels: seq<Byte>, w: nat, h: nat, uv: seq<Byte>)
    requires ChromaPlane(pixels, w, h, uv)
    ensures forall p: nat :: p < Area(w, h) ==> 16 <= YAt(pixels, p) <= 235
    ensures forall k: nat :: k < |uv| ==> 16 <= uv[k] <= 240
  {
    hide Area, ChromaCount, UpperPixel, LowerPixel;
    forall p: nat | p < Area(w, h)
      ensures 16 <= YAt(pixels, p) <= 235 && 16 <= UAt(pixels, p) <= 240 && 16 <= VAt(pixels, p) <= 240
    {
      LimitedRange(pixels[3 * p + 2], pixels[3 * p + 1], pixels[3 * p]);
    }
    hide YAt, UAt, VAt;
  }

  /** A grey image has chroma 128 everywhere. */
  lemma GreyImage(pixels: seq<Byte>, w: nat, h: nat, uv: seq<Byte>)
    requires ChromaPlane(pixels, w, h, uv)
    requires forall p: nat :: 3 * p + 2 < |pixels| ==> pixels[3 * p] == pixels[3 * p + 1] == pixels[3 * p + 2]
    ensures forall k: nat :: k < |uv| ==> uv[k] == 128
  {
    hide Area, ChromaCount, UpperPixel, LowerPixel;
    forall p: nat | p < Area(w, h) ensures UAt(pixels, p) == 128 && VAt(pixels, p) == 128 {
      GreyHasNoColour(pixels[3 * p]);
    }
    hide UAt, VAt;
  }

  /**
   For even sizes: the pair at chroma row r and even column c holds the means of U and of V over the
   pixels (2r, c) and (2r + 1, c).
   */
  lemma EvenImagePair(pixels: seq<Byte>, w: nat, h: nat, uv: seq<Byte>, r: nat, c: nat, k: nat, upper: nat, lower: nat)
    requires ChromaPlane(pixels, w, h, uv)
    requires w % 2 == 0 && h % 2 == 0 && r < h / 2 && c < w && c % 2 == 0
    requires k == r * w + c && upper == 2 * r * w + c && lower == (2 * r + 1) * w + c
    ensures k + 1 < |uv| && 3 * upper + 2 < |pixels| && 3 * lower + 2 < |pixels|
    ensures uv[k] == Mean(UAt(pixels, upper), UAt(pixels, lower))
    ensures uv[k + 1] == Mean(VAt(pixels, upper), VAt(pixels, lower))
  {
    hide Area, ChromaCount, UpperPixel, LowerPixel, UAt, VAt, Mean;
    EvenMultiple(r, w);
    PlaceInPlane(w, h, r, c, k);
    LowerPixelRow(w, r, c, k);
    PairInPlane(pixels, w, h, uv, k);
  }

  lemma PairInPlane(pixels: seq<Byte>, w: nat, h: nat, uv: seq<Byte>, k: nat)
    requires ChromaPlane(pixels, w, h, uv) && k % 2 == 0 && k + 1 < |uv|
    ensures PairFits(w, h, k) && 3 * UpperPixel(w, k) + 2 < |pixels| && 3 * LowerPixel(w, k) + 2 < |pixels|
    ensures uv[k] == Mean(UAt(pixels, UpperPixel(w, k)), UAt(pixels, LowerPixel(w, k)))
    ensures uv[k + 1] == Mean(VAt(pixels, UpperPixel(w, k)), VAt(pixels, LowerPixel(w, k)))
  {
    hide Area, ChromaCount, UpperPixel, LowerPixel, UAt, VAt, Mean;
    assert PairStart(k) == k && PairStart(k + 1) == k;
  }

  lemma EvenMultiple(r: nat, w: nat)
    requires w % 2 == 0
    ensures (r * w) % 2 == 0
  {
    var v := w / 2;
    assert r * w == 2 * (r * v);
  }

  lemma PlaceInPlane(w: nat, h: nat, r: nat, c: nat, k: nat)
    requires w % 2 == 0 && h % 2 == 0 && r < h / 2 && c < w && c % 2 == 0 && k == r * w + c
    ensures k + 1 < ChromaCount(w, h)
  {
    var m := h / 2;
    assert Area(w, h) == 2 * (m * w);
    RowsBelow(r, m, w);
  }

  // ----- even sizes

  /** With an even width and height no access is out of bounds. */
  lemma EvenSizesWork(w: nat, h: nat)
    requires w % 2 == 0 && h % 2 == 0
    ensures SizeWorks(w, h) && AllPairsFit(w, h)
  {
    var v, m := w / 2, h / 2;
    assert w * h == 4 * (v * m);
    FitsIff(w, h);
  }

  // ----- two pixels instead of a block of four

  /** The mean of one column of a 2 x 2 block against the mean of the block. */
  lemma ColumnMeanIff(a: int, b: int, c: int, d: int)
    ensures Mean(a, b) == (a + b + c + d) / 4
       <==> -((a + b) % 2) <= c + d - 2 * Mean(a, b) <= 3 - (a + b) % 2
  {
  }

  /**
   4:2:0 sampling asks for the mean over a 2 x 2 block; the script takes the left column only.  For
   even sizes the stored byte is the mean over the block exactly when the right column's sum is close
   enough to twice the left column's mean.
   */
  lemma BlockMeanIff(pixels: seq<Byte>, w: nat, h: nat, uv: seq<Byte>, r: nat, c: nat, k: nat, upper: nat, lower: nat)
    requires ChromaPlane(pixels, w, h, uv)
    requires w % 2 == 0 && h % 2 == 0 && r < h / 2 && c < w && c % 2 == 0
    requires k == r * w + c && upper == 2 * r * w + c && lower == (2 * r + 1) * w + c
    ensures k + 1 < |uv| && 3 * upper + 5 < |pixels| && 3 * lower + 5 < |pixels|
    ensures var (a, b) := (UAt(pixels, upper), UAt(pixels, lower));
      var (a', b') := (UAt(pixels, upper + 1), UAt(pixels, lower + 1));
      uv[k] == (a + b + a' + b') / 4 <==> -((a + b) % 2) <= a' + b' - 2 * Mean(a, b) <= 3 - (a + b) % 2
    ensures var (a, b) := (VAt(pixels, upper), VAt(pixels, lower));
      var (a', b') := (VAt(pixels, upper + 1), VAt(pixels, lower + 1));
      uv[k + 1] == (a + b + a' + b') / 4 <==> -((a + b) % 2) <= a' + b' - 2 * Mean(a, b) <= 3 - (a + b) % 2
  {
    hide ChromaPlane, UAt, VAt;
    EvenImagePair(pixels, w, h, uv, r, c, k, upper, lower);
    RightNeighbour(pixels, w, h, uv, r, c, upper, lower);
    ColumnMeanIff(UAt(pixels, upper), UAt(pixels, lower), UAt(pixels, upper + 1), UAt(pixels, lower + 1));
    ColumnMeanIff(VAt(pixels, upper), VAt(pixels, lower), VAt(pixels, upper + 1), VAt(pixels, lower + 1));
  }

  /** The right half of the block lies in the image. */
  lemma RightNeighbour(pixels: seq<Byte>, w: nat, h: nat, uv: seq<Byte>, r: nat, c: nat, upper: nat, lower: nat)
    requires ChromaPlane(pixels, w, h, uv)
    requires w % 2 == 0 && h % 2 == 0 && r < h / 2 && c < w && c % 2 == 0
    requires upper == 2 * r * w + c && lower == (2 * r + 1) * w + c
    ensures 3 * upper + 5 < |pixels| && 3 * lower + 5 < |pixels|
  {
    RowsBelow(2 * r + 1, h, w);
    assert (2 * r + 1) * w == 2 * r * w + w;
  }

  /** A black column beside a blue one: the stored U is 128, the mean over the block is 184. */
  const BLACK_AND_BLUE: seq<Byte> := [0, 0, 0, 255, 0, 0, 0, 0, 0, 255, 0, 0]

  lemma BlockMeanFails(uv: seq<Byte>)
    requires ChromaPlane(BLACK_AND_BLUE, 2, 2, uv)
    ensures |uv| == 2 && uv[0] == 128
    ensures var p := BLACK_AND_BLUE; (UAt(p, 0) + UAt(p, 1) + UAt(p, 2) + UAt(p, 3)) / 4 == 184
  {
    hide UAt, VAt, ChromaPlane;
    EvenImagePair(BLACK_AND_BLUE, 2, 2, uv, 0, 0, 0, 0, 2);
    PlaneLength(BLACK_AND_BLUE, 2, 2, uv);
    BlackAndBlueValues();
  }

  lemma PlaneLength(pixels: seq<Byte>, w: nat, h: nat, uv: seq<Byte>)
    requires ChromaPlane(pixels, w, h, uv)
    ensures |uv| == ChromaCount(w, h)
  {
  }

  lemma BlackAndBlueValues()
    ensures UAt(BLACK_AND_BLUE, 0) == UAt(BLACK_AND_BLUE, 2) == 128
    ensures UAt(BLACK_AND_BLUE, 1) == UAt(BLACK_AND_BLUE, 3) == 240
  {
  }

  /** Two columns and three rows: the loop reads past the last row. */
  lemma TwoByThreeFails()
    ensures !SizeWorks(2, 3) && !AllPairsFit(2, 3)
  {
    FitsIff(2, 3);
  }
}
