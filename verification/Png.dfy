/** Undoing the row filters of a PNG image (section 6 of RFC 2083), as the icon
    importer does it: one flat buffer of pixels, filled byte by byte. */
module Png {

  import opened Bytes

  datatype Result<T> = Ok(value: T) | TooShort | BadFilter(filter: Byte)

  // ---- The predictors ----

  function Abs(x: int): nat {
    if x < 0 then -x else x
  }

  function Paeth(a: Byte, b: Byte, c: Byte): Byte {
    var p := a + b - c;
    var (pa, pb, pc) := (Abs(p - a), Abs(p - b), Abs(p - c));
    if pa <= pb && pa <= pc then a
    else if pb <= pc then b
    else c
  }

  /** The neighbour nearest to a + b - c; on a tie the left one, then the upper one. */
  predicate IsNearest(t: int, a: int, b: int, c: int) {
    var p := a + b - c;
    && (t == a || t == b || t == c)
    && Abs(p - t) <= Abs(p - a) && Abs(p - t) <= Abs(p - b) && Abs(p - t) <= Abs(p - c)
    && (t != a ==> Abs(p - t) < Abs(p - a))
    && (t != a && t != b ==> Abs(p - t) < Abs(p - b))
  }

  /** The predictor picks the neighbour nearest to a + b - c; on a tie the left
      one goes before the upper one, and that before the upper left one. */
  lemma PaethIsNearest(a: Byte, b: Byte, c: Byte)
    ensures IsNearest(Paeth(a, b, c), a, b, c)
  {
  }

  /** What filter type `filter` adds to a byte whose left, upper and upper left neighbours are a, b and c. */
  function Predict(filter: Byte, a: Byte, b: Byte, c: Byte): Byte
    requires filter <= 4
  {
    if filter == 0 then 0
    else if filter == 1 then a
    else if filter == 2 then b
    else if filter == 3 then (a + b) / 2
    else Paeth(a, b, c)
  }

  function WrappingAdd(a: Byte, b: Byte): Byte {
    if a + b < 256 then a + b else a + b - 256
  }

  function WrappingSub(a: Byte, b: Byte): Byte {
    if a >= b then a - b else a - b + 256
  }

  // ---- One row ----

  /** A byte of a row, 0 to the left of its start. */
  function At(row: seq<Byte>, i: int): Byte
    requires i < |row|
  {
    if i < 0 then 0 else row[i]
  }

  /** The row whose filtered form is `line`, below the row `prev`; `bpp` is the size of a pixel. */
  function UnfilterRow(filter: Byte, line: seq<Byte>, prev: seq<Byte>, bpp: nat): (row: seq<Byte>)
    requires filter <= 4 && |prev| == |line| && bpp > 0
    ensures |row| == |line|
  {
    if line == [] then []
    else
      var n := |line| - 1;
      var row := UnfilterRow(filter, line[..n], prev[..n], bpp);
      row + [WrappingAdd(line[n], Predict(filter, At(row, n - bpp), prev[n], At(prev, n - bpp)))]
  }

  /** The filter an encoder applies to a row. */
  function FilterRow(filter: Byte, row: seq<Byte>, prev: seq<Byte>, bpp: nat): (line: seq<Byte>)
    requires filter <= 4 && |prev| == |row| && bpp > 0
    ensures |line| == |row|
  {
    seq(|row|, x requires 0 <= x < |row| =>
      WrappingSub(row[x], Predict(filter, At(row, x - bpp), prev[x], At(prev, x - bpp))))
  }

  lemma {:induction false} UnfilterInvertsFilter(filter: Byte, row: seq<Byte>, prev: seq<Byte>, bpp: nat)
    requires filter <= 4 && |prev| == |row| && bpp > 0
    ensures UnfilterRow(filter, FilterRow(filter, row, prev, bpp), prev, bpp) == row
  {
    if row != [] {
      var n := |row| - 1;
      var line := FilterRow(filter, row, prev, bpp);
      assert line[..n] == FilterRow(filter, row[..n], prev[..n], bpp);
      UnfilterInvertsFilter(filter, row[..n], prev[..n], bpp);
    }
  }

  lemma WrapsBack(a: Byte, b: Byte)
    ensures WrappingSub(WrappingAdd(a, b), b) == a
  {
  }

  /** A row's last byte, filtered, and the bytes before it. */
  lemma FilterLast(filter: Byte, row: seq<Byte>, prev: seq<Byte>, bpp: nat)
    requires filter <= 4 && |prev| == |row| > 0 && bpp > 0
    ensures var n := |row| - 1;
            FilterRow(filter, row, prev, bpp) ==
            FilterRow(filter, row[..n], prev[..n], bpp)
            + [WrappingSub(row[n], Predict(filter, At(row[..n], n - bpp), prev[n], At(prev, n - bpp)))]
  {
    hide Predict, WrappingSub;
  }

  /** Filtering what was unfiltered gives the line back: no two lines stand for one row. */
  lemma {:induction false} FilterInvertsUnfilter(filter: Byte, line: seq<Byte>, prev: seq<Byte>, bpp: nat)
    requires filter <= 4 && |prev| == |line| && bpp > 0
    ensures FilterRow(filter, UnfilterRow(filter, line, prev, bpp), prev, bpp) == line
  {
    hide FilterRow, Predict, WrappingAdd, WrappingSub;
    if line == [] {
      assert FilterRow(filter, [], prev, bpp) == [];
    } else {
      var n := |line| - 1;
      var row := UnfilterRow(filter, line, prev, bpp);
      assert row[..n] == UnfilterRow(filter, line[..n], prev[..n], bpp);
      FilterInvertsUnfilter(filter, line[..n], prev[..n], bpp);
      FilterLast(filter, row, prev, bpp);
      WrapsBack(line[n], Predict(filter, At(row[..n], n - bpp), prev[n], At(prev, n - bpp)));
      assert line == line[..n] + [line[n]];
    }
  }

  /** A longer line unfolds to a longer row with the same beginning. */
  lemma UnfilterStep(filter: Byte, line: seq<Byte>, prev: seq<Byte>, bpp: nat, x: nat)
    requires filter <= 4 && |prev| == |line| && bpp > 0 && x < |line|
    ensures UnfilterRow(filter, line[..x + 1], prev[..x + 1], bpp)
         == UnfilterRow(filter, line[..x], prev[..x], bpp)
            + [WrappingAdd(line[x], Predict(filter, At(UnfilterRow(filter, line[..x], prev[..x], bpp), x - bpp),
                                            prev[x], At(prev, x - bpp)))]
  {
    assert line[..x + 1][..x] == line[..x] && prev[..x + 1][..x] == prev[..x];
  }

  // ---- The image ----

  /** Where row `y` begins in the raw data and in the pixels: a row of raw data
      has its filter type in front. */
  function RawAt(stride: nat, y: nat): nat {
    y * (stride + 1)
  }

  function PixelAt(stride: nat, y: nat): nat {
    y * stride
  }

  lemma RowsFollow(stride: nat, y: nat)
    ensures RawAt(stride, y + 1) == RawAt(stride, y) + stride + 1
    ensures PixelAt(stride, y + 1) == PixelAt(stride, y) + stride
  {
  }

  lemma {:induction false} RowsFit(stride: nat, y: nat, height: nat)
    requires y <= height
    ensures RawAt(stride, y) <= RawAt(stride, height) && PixelAt(stride, y) <= PixelAt(stride, height)
    decreases height - y
  {
    if y < height {
      RowsFollow(stride, y);
      RowsFit(stride, y + 1, height);
    }
  }

  /** Each of the first `n` rows names one of the five filters. */
  ghost predicate FiltersOk(raw: seq<Byte>, stride: nat, height: nat, n: nat)
    requires n <= height && RawAt(stride, height) <= |raw|
  {
    forall y :: 0 <= y < n ==> FilterOf(raw, stride, height, y) <= 4
  }

  function FilterOf(raw: seq<Byte>, stride: nat, height: nat, y: nat): Byte
    requires y < height && RawAt(stride, height) <= |raw|
  {
    RowsFit(stride, y + 1, height);
    RowsFollow(stride, y);
    raw[RawAt(stride, y)]
  }

  function LineOf(raw: seq<Byte>, stride: nat, height: nat, y: nat): (line: seq<Byte>)
    requires y < height && RawAt(stride, height) <= |raw|
    ensures |line| == stride
  {
    RowsFit(stride, y + 1, height);
    RowsFollow(stride, y);
    raw[RawAt(stride, y) + 1..RawAt(stride, y) + 1 + stride]
  }

  /** The row above the one that begins at the end of `pixels`. */
  function Above(pixels: seq<Byte>, stride: nat): (prev: seq<Byte>)
    ensures |prev| == stride
  {
    if |pixels| < stride || pixels == [] then Zeros(stride) else pixels[|pixels| - stride..]
  }

  /** The first `n` rows of pixels. */
  ghost function Pixels(raw: seq<Byte>, stride: nat, bpp: nat, height: nat, n: nat): (pixels: seq<Byte>)
    requires n <= height && bpp > 0 && RawAt(stride, height) <= |raw| && FiltersOk(raw, stride, height, n)
    ensures |pixels| == PixelAt(stride, n)
  {
    if n == 0 then []
    else
      RowsFollow(stride, n - 1);
      var pixels := Pixels(raw, stride, bpp, height, n - 1);
      pixels + UnfilterRow(FilterOf(raw, stride, height, n - 1), LineOf(raw, stride, height, n - 1),
                           Above(pixels, stride), bpp)
  }

  /** The encoder's side: one row of an image with its filter type in front. */
  function EncodeRow(pixels: seq<Byte>, filter: Byte, stride: nat, bpp: nat, from: nat): (raw: seq<Byte>)
    requires filter <= 4 && bpp > 0 && from + stride <= |pixels|
    ensures |raw| == stride + 1 && raw[0] == filter
  {
    [filter] + FilterRow(filter, pixels[from..from + stride], Above(pixels[..from], stride), bpp)
  }

  /** The first `n` rows of an image, each with its own choice of filter. */
  ghost function Encode(pixels: seq<Byte>, filters: seq<Byte>, stride: nat, bpp: nat, n: nat): (raw: seq<Byte>)
    requires n <= |filters| && bpp > 0 && PixelAt(stride, n) <= |pixels|
    requires forall y :: 0 <= y < |filters| ==> filters[y] <= 4
    ensures |raw| == RawAt(stride, n)
  {
    if n == 0 then []
    else
      RowsFollow(stride, n - 1);
      Encode(pixels, filters, stride, bpp, n - 1)
      + EncodeRow(pixels, filters[n - 1], stride, bpp, PixelAt(stride, n - 1))
  }

  /** The three neighbours of a byte, where the flat buffer has them. */
  lemma Neighbours(pixels: seq<Byte>, stride: nat, y: nat, x: nat, bpp: nat)
    requires x < stride && bpp > 0 && PixelAt(stride, y) + stride <= |pixels|
    ensures 0 <= y * stride + x < |pixels|
    ensures var prev := Above(pixels[..PixelAt(stride, y)], stride);
            var row := pixels[PixelAt(stride, y)..PixelAt(stride, y) + x];
            && (x >= bpp ==> 0 <= y * stride + x - bpp < |pixels|)
            && (y > 0 ==> 0 <= (y - 1) * stride + x < |pixels|)
            && (y > 0 && x >= bpp ==> 0 <= (y - 1) * stride + x - bpp < |pixels|)
            && At(row, x - bpp) == (if x >= bpp then pixels[y * stride + x - bpp] else 0)
            && prev[x] == (if y > 0 then pixels[(y - 1) * stride + x] else 0)
            && At(prev, x - bpp) == (if y > 0 && x >= bpp then pixels[(y - 1) * stride + x - bpp] else 0)
  {
    if y > 0 {
      RowsFollow(stride, y - 1);
      assert (y - 1) * stride == PixelAt(stride, y) - stride;
    }
  }

  /** A row that lies in its place in a buffer obeys its filter's formula there. */
  lemma LineObeysFormula(raw: seq<Byte>, pixels: seq<Byte>, done: seq<Byte>, filter: Byte, stride: nat, bpp: nat, height: nat, y: nat, x: nat)
    requires bpp > 0 && y < height && RawAt(stride, height) <= |raw| && filter <= 4 && x < stride
    requires PixelAt(stride, y) + stride <= |pixels| && done == pixels[..PixelAt(stride, y)]
    requires pixels[PixelAt(stride, y)..PixelAt(stride, y) + stride]
          == UnfilterRow(filter, LineOf(raw, stride, height, y), Above(done, stride), bpp)
    ensures LineLaw(raw, pixels, filter, stride, bpp, y, x)
  {
    hide LineLaw, UnfilterRow, LineOf, Above;
    var end := PixelAt(stride, y) + stride;
    var row := pixels[PixelAt(stride, y)..end];
    LastRowLaw(raw, done, row, filter, stride, bpp, height, y, x);
    LawStays(raw, done + row, pixels[end..], filter, stride, bpp, y, x);
    assert pixels == done + row + pixels[end..];
  }

  /** The inner loop: row `y` from the raw data and the rows already there. */
  method UnfilterLine(raw: seq<Byte>, pixels: array<Byte>, filter: Byte, y: nat, stride: nat, height: nat, channels: nat)
    requires channels > 0 && stride > 0 && y < height && filter <= 4
    requires RawAt(stride, height) <= |raw| && PixelAt(stride, y) + stride <= pixels.Length
    modifies pixels
    ensures pixels[..PixelAt(stride, y)] == old(pixels[..PixelAt(stride, y)])
    ensures pixels[PixelAt(stride, y)..PixelAt(stride, y) + stride]
         == UnfilterRow(filter, LineOf(raw, stride, height, y), Above(old(pixels[..PixelAt(stride, y)]), stride), channels)
    ensures forall x: nat :: x < stride ==> LineLaw(raw, pixels[..], filter, stride, channels, y, x)
  {
    hide UnfilterRow, Predict, WrappingAdd, LineOf, Above;
    var line := LineOf(raw, stride, height, y);
    ghost var from := PixelAt(stride, y);
    ghost var done := pixels[..from];
    ghost var prev := Above(done, stride);
    for x := 0 to stride
      invariant pixels[..from] == done
      invariant pixels[from..from + x] == UnfilterRow(filter, line[..x], prev[..x], channels)
    {
      ghost var before := pixels[..];
      assert before[..from] == done && before[from..from + x] == pixels[from..from + x];
      Neighbours(before, stride, y, x, channels);
      var a := if x >= channels then pixels[y * stride + x - channels] else 0;
      var b := if y > 0 then pixels[(y - 1) * stride + x] else 0;
      var c := if y > 0 && x >= channels then pixels[(y - 1) * stride + x - channels] else 0;
      UnfilterStep(filter, line, prev, channels, x);
      var v := WrappingAdd(line[x], Predict(filter, a, b, c));
      pixels[y * stride + x] := v;
      assert pixels[..] == before[from + x := v];
      assert pixels[from..from + x + 1] == before[from..from + x] + [v];
      assert pixels[..from] == before[..from];
    }
    assert line[..stride] == line && prev[..stride] == prev;
    forall x: nat | x < stride ensures LineLaw(raw, pixels[..], filter, stride, channels, y, x) {
      LineObeysFormula(raw, pixels[..], done, filter, stride, channels, height, y, x);
    }
  }

  /** Row `y` is the first whose filter type, the byte in front of it, is none of the five. */
  ghost predicate FirstBad(raw: seq<Byte>, stride: nat, height: nat, y: nat) {
    y < height && Look(raw, y * (stride + 1)) > 4 && forall z: nat :: z < y ==> FilterIsKnown(raw, stride, z)
  }

  ghost predicate FilterIsKnown(raw: seq<Byte>, stride: nat, y: nat) {
    Look(raw, y * (stride + 1)) <= 4
  }

  lemma PixelsStep(raw: seq<Byte>, stride: nat, bpp: nat, height: nat, y: nat)
    requires bpp > 0 && y < height && RawAt(stride, height) <= |raw| && FiltersOk(raw, stride, height, y + 1)
    ensures Pixels(raw, stride, bpp, height, y + 1)
         == Pixels(raw, stride, bpp, height, y)
            + UnfilterRow(FilterOf(raw, stride, height, y), LineOf(raw, stride, height, y),
                          Above(Pixels(raw, stride, bpp, height, y), stride), bpp)
  {
  }

  lemma TakeMore(s: seq<Byte>, from: nat, n: nat, to: nat)
    requires from + n == to <= |s|
    ensures s[..to] == s[..from] + s[from..from + n]
  {
  }

  /** One more row of pixels, in the place it has in a buffer. */
  lemma NextRow(raw: seq<Byte>, stride: nat, channels: nat, height: nat, y: nat, after: seq<Byte>, done: seq<Byte>)
    requires channels > 0 && y < height && RawAt(stride, height) <= |raw| && FiltersOk(raw, stride, height, y + 1)
    requires PixelAt(stride, y) + stride <= |after|
    requires done == Pixels(raw, stride, channels, height, y) == after[..PixelAt(stride, y)]
    requires after[PixelAt(stride, y)..PixelAt(stride, y) + stride]
          == UnfilterRow(FilterOf(raw, stride, height, y), LineOf(raw, stride, height, y), Above(done, stride), channels)
    ensures PixelAt(stride, y + 1) <= |after|
    ensures after[..PixelAt(stride, y + 1)] == Pixels(raw, stride, channels, height, y + 1)
  {
    RowsFollow(stride, y);
    PixelsStep(raw, stride, channels, height, y);
    TakeMore(after, PixelAt(stride, y), stride, PixelAt(stride, y + 1));
  }

  /** Where a row's filter type lies. */
  lemma FilterLies(raw: seq<Byte>, stride: nat, height: nat, y: nat)
    requires y < height && RawAt(stride, height) <= |raw|
    ensures 0 <= y * (stride + 1) < |raw| && raw[y * (stride + 1)] == FilterOf(raw, stride, height, y)
    ensures PixelAt(stride, y) + stride <= PixelAt(stride, height)
  {
    RowsFollow(stride, y);
    RowsFit(stride, y + 1, height);
  }

  lemma IsFirstBad(raw: seq<Byte>, stride: nat, height: nat, y: nat)
    requires y < height && RawAt(stride, height) <= |raw| && FiltersOk(raw, stride, height, y)
    requires FilterOf(raw, stride, height, y) > 4
    ensures FirstBad(raw, stride, height, y)
  {
    FilterLies(raw, stride, height, y);
    forall z: nat | z < y ensures FilterIsKnown(raw, stride, z) {
      FilterLies(raw, stride, height, z);
    }
  }

  /** The outer loops of the decoder: check the size, then fill the pixels in place, row by row. */
  method Unfilter(raw: seq<Byte>, stride: nat, height: nat, channels: nat) returns (r: Result<array<Byte>>)
    requires stride > 0 && channels > 0
    ensures r.TooShort? <==> |raw| < (stride + 1) * height
    ensures r.Ok? ==> RawAt(stride, height) <= |raw| && FiltersOk(raw, stride, height, height)
    ensures r.Ok? ==> fresh(r.value) && r.value[..] == Pixels(raw, stride, channels, height, height)
    ensures r.Ok? ==> r.value.Length == stride * height
                      && forall y: nat, x: nat :: y < height && x < stride ==> ByteLaw(raw, r.value[..], stride, channels, y, x)
    ensures r.BadFilter? ==> exists y: nat :: FirstBad(raw, stride, height, y) && r.filter == Look(raw, y * (stride + 1))
  {
    if |raw| < (stride + 1) * height {
      return TooShort;
    }
    assert RawAt(stride, height) <= |raw|;
    var pixels := new Byte[stride * height](_ => 0);
    assert pixels.Length == PixelAt(stride, height);
    assert pixels[..0] == [];
    for y := 0 to height
      invariant FiltersOk(raw, stride, height, y)
      invariant PixelAt(stride, y) <= pixels.Length
      invariant pixels[..][..PixelAt(stride, y)] == Pixels(raw, stride, channels, height, y)
    {
      FilterLies(raw, stride, height, y);
      var filter := raw[y * (stride + 1)];
      if filter > 4 {
        IsFirstBad(raw, stride, height, y);
        return BadFilter(filter);
      }
      ghost var done := pixels[..PixelAt(stride, y)];
      assert done == pixels[..][..PixelAt(stride, y)];
      UnfilterLine(raw, pixels, filter, y, stride, height, channels);
      assert pixels[..][..PixelAt(stride, y)] == pixels[..PixelAt(stride, y)];
      assert pixels[..][PixelAt(stride, y)..PixelAt(stride, y) + stride]
          == pixels[PixelAt(stride, y)..PixelAt(stride, y) + stride];
      NextRow(raw, stride, channels, height, y, pixels[..], done);
    }
    assert pixels[..] == pixels[..][..PixelAt(stride, height)];
    forall y: nat, x: nat | y < height && x < stride ensures ByteLaw(raw, pixels[..], stride, channels, y, x) {
      PixelsObeyFormulas(raw, stride, channels, height, height, y, x);
    }
    return Ok(pixels);
  }

  // ---- The five formulas, at the bytes ----

  /** What each filter type of the standard adds: None, Sub, Up, Average and Paeth. */
  predicate Adds(filter: int, t: int, left: int, up: int, corner: int) {
    || (filter == 0 && t == 0)
    || (filter == 1 && t == left)
    || (filter == 2 && t == up)
    || (filter == 3 && t == (left + up) / 2)
    || (filter == 4 && IsNearest(t, left, up, corner))
  }

  /** The byte at a place, 0 outside. */
  function Look(b: seq<Byte>, i: int): Byte {
    if 0 <= i < |b| then b[i] else 0
  }

  /** The pixel bytes to the left, above, and above to the left, 0 outside the image. */
  function LeftOf(pixels: seq<Byte>, stride: nat, bpp: nat, y: nat, x: nat): Byte {
    if x >= bpp then Look(pixels, y * stride + x - bpp) else 0
  }

  function UpOf(pixels: seq<Byte>, stride: nat, y: nat, x: nat): Byte {
    if y > 0 then Look(pixels, (y - 1) * stride + x) else 0
  }

  function CornerOf(pixels: seq<Byte>, stride: nat, bpp: nat, y: nat, x: nat): Byte {
    if y > 0 && x >= bpp then Look(pixels, (y - 1) * stride + x - bpp) else 0
  }

  /** A byte is the raw byte plus what the filter adds, in one byte. */
  ghost predicate Formula(filter: int, pixel: int, byte: int, left: int, up: int, corner: int) {
    exists t: int :: Adds(filter, t, left, up, corner) && pixel == (byte + t) % 256
  }

  /** Byte `x` of pixel row `y` is its raw byte plus what filter type `filter` adds. */
  ghost predicate LineLaw(raw: seq<Byte>, pixels: seq<Byte>, filter: Byte, stride: nat, bpp: nat, y: nat, x: nat) {
    Formula(filter, Look(pixels, y * stride + x), Look(raw, y * (stride + 1) + 1 + x),
            LeftOf(pixels, stride, bpp, y, x), UpOf(pixels, stride, y, x), CornerOf(pixels, stride, bpp, y, x))
  }

  /** The same with the filter type in front of the row. */
  ghost predicate ByteLaw(raw: seq<Byte>, pixels: seq<Byte>, stride: nat, bpp: nat, y: nat, x: nat) {
    LineLaw(raw, pixels, Look(raw, y * (stride + 1)), stride, bpp, y, x)
  }

  lemma PredictAdds(filter: Byte, a: Byte, b: Byte, c: Byte)
    requires filter <= 4
    ensures Adds(filter, Predict(filter, a, b, c), a, b, c)
  {
    PaethIsNearest(a, b, c);
  }

  lemma AddWraps(a: Byte, b: Byte)
    ensures WrappingAdd(a, b) == (a + b) % 256
  {
  }

  /** Byte `x` of a row that was unfiltered. */
  lemma {:induction false} RowByte(filter: Byte, line: seq<Byte>, prev: seq<Byte>, bpp: nat, x: nat)
    requires filter <= 4 && |prev| == |line| && bpp > 0 && x < |line|
    ensures var row := UnfilterRow(filter, line, prev, bpp);
            && row[x] == WrappingAdd(line[x], Predict(filter, At(row[..x], x - bpp), prev[x], At(prev, x - bpp)))
    decreases |line|
  {
    hide Predict, WrappingAdd;
    var n := |line| - 1;
    if x < n {
      RowByte(filter, line[..n], prev[..n], bpp, x);
      var (row, init) := (UnfilterRow(filter, line, prev, bpp), UnfilterRow(filter, line[..n], prev[..n], bpp));
      assert row[..n] == init && row[..x] == init[..x];
    } else {
      assert UnfilterRow(filter, line, prev, bpp)[..n] == UnfilterRow(filter, line[..n], prev[..n], bpp);
    }
  }

  lemma RowsNest(y: nat, n: nat, stride: nat, x: nat)
    requires y < n && x < stride
    ensures 0 <= y * stride && y * stride + x < n * stride
    ensures y > 0 ==> 0 <= (y - 1) * stride && (y - 1) * stride + stride == y * stride
  {
    RowsFollow(stride, y);
    RowsFit(stride, y + 1, n);
    if y > 0 {
      RowsFollow(stride, y - 1);
    }
  }

  /** More rows do not touch the rows before. */
  lemma LawStays(raw: seq<Byte>, pixels: seq<Byte>, more: seq<Byte>, filter: Byte, stride: nat, bpp: nat, y: nat, x: nat)
    requires LineLaw(raw, pixels, filter, stride, bpp, y, x) && x < stride && y * stride + x < |pixels|
    ensures LineLaw(raw, pixels + more, filter, stride, bpp, y, x)
  {
    hide Formula;
    RowsNest(y, y + 1, stride, x);
    assert LeftOf(pixels + more, stride, bpp, y, x) == LeftOf(pixels, stride, bpp, y, x);
    assert UpOf(pixels + more, stride, y, x) == UpOf(pixels, stride, y, x);
    assert CornerOf(pixels + more, stride, bpp, y, x) == CornerOf(pixels, stride, bpp, y, x);
  }

  /** The neighbours in a buffer are those of the row and of the row above. */
  lemma NeighboursAre(pixels: seq<Byte>, row: seq<Byte>, stride: nat, bpp: nat, y: nat, x: nat)
    requires bpp > 0 && |pixels| == PixelAt(stride, y) && |row| == stride && x < stride
    ensures var (all, prev) := (pixels + row, Above(pixels, stride));
            && Look(all, y * stride + x) == row[x]
            && LeftOf(all, stride, bpp, y, x) == At(row[..x], x - bpp)
            && UpOf(all, stride, y, x) == prev[x]
            && CornerOf(all, stride, bpp, y, x) == At(prev, x - bpp)
  {
    var all := pixels + row;
    RowsNest(y, y + 1, stride, x);
    assert all[..PixelAt(stride, y)] == pixels;
    assert all[PixelAt(stride, y)..PixelAt(stride, y) + x] == row[..x];
    Neighbours(all, stride, y, x, bpp);
  }

  /** The law for the row just added. */
  lemma LastRowLaw(raw: seq<Byte>, pixels: seq<Byte>, row: seq<Byte>, filter: Byte, stride: nat, bpp: nat, height: nat, y: nat, x: nat)
    requires bpp > 0 && y < height && RawAt(stride, height) <= |raw| && filter <= 4
    requires |pixels| == PixelAt(stride, y) && x < stride
    requires row == UnfilterRow(filter, LineOf(raw, stride, height, y), Above(pixels, stride), bpp)
    ensures LineLaw(raw, pixels + row, filter, stride, bpp, y, x)
  {
    hide UnfilterRow, Predict, WrappingAdd, Adds, Above, LineOf, FilterOf, LeftOf, UpOf, CornerOf, Look;
    var (line, prev) := (LineOf(raw, stride, height, y), Above(pixels, stride));
    RowByte(filter, line, prev, bpp, x);
    RawPlaces(raw, stride, height, y, x);
    NeighboursAre(pixels, row, stride, bpp, y, x);
    var (a, b, c) := (At(row[..x], x - bpp), prev[x], At(prev, x - bpp));
    PredictAdds(filter, a, b, c);
    AddWraps(line[x], Predict(filter, a, b, c));
  }

  /** Where a row's filter type and bytes lie in the raw data. */
  lemma RawPlaces(raw: seq<Byte>, stride: nat, height: nat, y: nat, x: nat)
    requires y < height && RawAt(stride, height) <= |raw| && x < stride
    ensures Look(raw, y * (stride + 1)) == FilterOf(raw, stride, height, y)
    ensures Look(raw, y * (stride + 1) + 1 + x) == LineOf(raw, stride, height, y)[x]
  {
    RowsFollow(stride, y);
    RowsFit(stride, y + 1, height);
  }

  /** Main result: every byte of the decoded rows obeys the formula of its row's filter. */
  lemma {:induction false} PixelsObeyFormulas(raw: seq<Byte>, stride: nat, bpp: nat, height: nat, n: nat, y: nat, x: nat)
    requires n <= height && bpp > 0 && RawAt(stride, height) <= |raw| && FiltersOk(raw, stride, height, n)
    requires y < n && x < stride
    ensures ByteLaw(raw, Pixels(raw, stride, bpp, height, n), stride, bpp, y, x)
    decreases n
  {
    hide LineLaw, UnfilterRow, LineOf, FilterOf, Above, Look;
    RawPlaces(raw, stride, height, y, x);
    var before := Pixels(raw, stride, bpp, height, n - 1);
    PixelsStep(raw, stride, bpp, height, n - 1);
    var row := UnfilterRow(FilterOf(raw, stride, height, n - 1), LineOf(raw, stride, height, n - 1), Above(before, stride), bpp);
    if y == n - 1 {
      LastRowLaw(raw, before, row, FilterOf(raw, stride, height, y), stride, bpp, height, y, x);
    } else {
      PixelsObeyFormulas(raw, stride, bpp, height, n - 1, y, x);
      RowsNest(y, n - 1, stride, x);
      LawStays(raw, before, row, FilterOf(raw, stride, height, y), stride, bpp, y, x);
    }
  }

  // ---- Reconstruction inverts filtering ----

  /** A row that lies at its place in the raw data is found there. */
  lemma RowFound(before: seq<Byte>, row: seq<Byte>, tail: seq<Byte>, stride: nat, n: nat, y: nat)
    requires y < n && |row| == stride + 1 && |before| == RawAt(stride, y) && RawAt(stride, n) <= |before + row + tail|
    ensures FilterOf(before + row + tail, stride, n, y) == row[0]
    ensures LineOf(before + row + tail, stride, n, y) == row[1..]
  {
    RowsFollow(stride, y);
    RowsFit(stride, y + 1, n);
  }

  lemma EncodedRow(pixels: seq<Byte>, filters: seq<Byte>, stride: nat, bpp: nat, n: nat, m: nat, tail: seq<Byte>, y: nat)
    requires y < n <= |filters| && n <= m && bpp > 0 && PixelAt(stride, n) <= |pixels|
    requires forall z :: 0 <= z < |filters| ==> filters[z] <= 4
    requires RawAt(stride, m) <= |Encode(pixels, filters, stride, bpp, n) + tail|
    ensures PixelAt(stride, y) + stride <= |pixels|
    ensures FilterOf(Encode(pixels, filters, stride, bpp, n) + tail, stride, m, y) == filters[y]
    ensures LineOf(Encode(pixels, filters, stride, bpp, n) + tail, stride, m, y)
         == EncodeRow(pixels, filters[y], stride, bpp, PixelAt(stride, y))[1..]
    decreases n
  {
    hide EncodeRow, FilterOf, LineOf;
    RowsFollow(stride, n - 1);
    var before := Encode(pixels, filters, stride, bpp, n - 1);
    var row := EncodeRow(pixels, filters[n - 1], stride, bpp, PixelAt(stride, n - 1));
    if y == n - 1 {
      RowFound(before, row, tail, stride, m, y);
    } else {
      assert before + row + tail == before + (row + tail);
      EncodedRow(pixels, filters, stride, bpp, n - 1, m, row + tail, y);
    }
  }

  /** Unfiltering one encoded row, below the right row, gives its pixels. */
  lemma RowDecodes(pixels: seq<Byte>, filter: Byte, stride: nat, bpp: nat, from: nat)
    requires filter <= 4 && bpp > 0 && from + stride <= |pixels|
    ensures UnfilterRow(filter, EncodeRow(pixels, filter, stride, bpp, from)[1..], Above(pixels[..from], stride), bpp)
         == pixels[from..from + stride]
  {
    UnfilterInvertsFilter(filter, pixels[from..from + stride], Above(pixels[..from], stride), bpp);
    assert EncodeRow(pixels, filter, stride, bpp, from)[1..]
        == FilterRow(filter, pixels[from..from + stride], Above(pixels[..from], stride), bpp);
  }

  /** One more row, if the raw data holds its encoding. */
  lemma PixelsGrow(raw: seq<Byte>, pixels: seq<Byte>, stride: nat, bpp: nat, height: nat, y: nat)
    requires bpp > 0 && y < height && RawAt(stride, height) <= |raw| && FiltersOk(raw, stride, height, y + 1)
    requires PixelAt(stride, y) + stride <= |pixels|
    requires LineOf(raw, stride, height, y)
          == EncodeRow(pixels, FilterOf(raw, stride, height, y), stride, bpp, PixelAt(stride, y))[1..]
    requires Pixels(raw, stride, bpp, height, y) == pixels[..PixelAt(stride, y)]
    ensures PixelAt(stride, y + 1) <= |pixels|
    ensures Pixels(raw, stride, bpp, height, y + 1) == pixels[..PixelAt(stride, y + 1)]
  {
    RowsFollow(stride, y);
    RowDecodes(pixels, FilterOf(raw, stride, height, y), stride, bpp, PixelAt(stride, y));
    PixelsStep(raw, stride, bpp, height, y);
    TakeMore(pixels, PixelAt(stride, y), stride, PixelAt(stride, y + 1));
  }

  /** The raw data holds, in its place, the encoding of every row. */
  ghost predicate Holds(raw: seq<Byte>, pixels: seq<Byte>, stride: nat, bpp: nat, height: nat)
    requires bpp > 0 && RawAt(stride, height) <= |raw|
  {
    && FiltersOk(raw, stride, height, height)
    && forall y :: 0 <= y < height ==>
         && PixelAt(stride, y) + stride <= |pixels|
         && LineOf(raw, stride, height, y)
         == EncodeRow(pixels, FilterOf(raw, stride, height, y), stride, bpp, PixelAt(stride, y))[1..]
  }

  lemma PrefixGrows(raw: seq<Byte>, pixels: seq<Byte>, stride: nat, bpp: nat, height: nat, y: nat)
    requires y < height && bpp > 0 && RawAt(stride, height) <= |raw| && Holds(raw, pixels, stride, bpp, height)
    requires Pixels(raw, stride, bpp, height, y) <= pixels
    ensures Pixels(raw, stride, bpp, height, y + 1) <= pixels
  {
    assert PixelAt(stride, y) + stride <= |pixels|;
    PixelsGrow(raw, pixels, stride, bpp, height, y);
  }

  lemma PixelsOfEncoding(raw: seq<Byte>, pixels: seq<Byte>, stride: nat, bpp: nat, height: nat)
    requires bpp > 0 && RawAt(stride, height) <= |raw| && Holds(raw, pixels, stride, bpp, height)
    ensures Pixels(raw, stride, bpp, height, height) <= pixels
  {
    for y := 0 to height
      invariant Pixels(raw, stride, bpp, height, y) <= pixels
    {
      PrefixGrows(raw, pixels, stride, bpp, height, y);
    }
  }

  /** Main result: for every image, pixel size and choice of filters row by row,
      unfiltering the filtered rows, whatever follows them, gives the image back. */
  lemma UnfilterInvertsEncode(pixels: seq<Byte>, filters: seq<Byte>, stride: nat, bpp: nat, tail: seq<Byte>)
    requires bpp > 0 && |pixels| == PixelAt(stride, |filters|)
    requires forall z :: 0 <= z < |filters| ==> filters[z] <= 4
    ensures var raw := Encode(pixels, filters, stride, bpp, |filters|) + tail;
            && RawAt(stride, |filters|) <= |raw|
            && FiltersOk(raw, stride, |filters|, |filters|)
            && Pixels(raw, stride, bpp, |filters|, |filters|) == pixels
  {
    var raw := Encode(pixels, filters, stride, bpp, |filters|) + tail;
    forall y | 0 <= y < |filters|
      ensures FilterOf(raw, stride, |filters|, y) == filters[y]
      ensures PixelAt(stride, y) + stride <= |pixels|
      ensures LineOf(raw, stride, |filters|, y) == EncodeRow(pixels, filters[y], stride, bpp, PixelAt(stride, y))[1..]
    {
      EncodedRow(pixels, filters, stride, bpp, |filters|, |filters|, tail, y);
    }
    PixelsOfEncoding(raw, pixels, stride, bpp, |filters|);
  }
}
