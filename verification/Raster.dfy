/** Fills and blits of graphics/raster.c, proved against a definition that tests every pixel. */
module Raster {
  type Color = c: int | 0 <= c < 0x1_0000

  datatype Rect = Rect(x: int, y: int, width: nat, height: nat)

  /** `pixels` is the source bitmap, row by row. */
  datatype Options = Options(
    pixels: seq<Color>, bitmapWidth: nat, bitmapHeight: nat, source: Rect, destination: Rect,
    rotation: nat, mirrorX: bool, mirrorY: bool, opacity: nat, keyEnabled: bool, keyLow: Color, keyHigh: Color)

  const ROTATE_0 := 0
  const ROTATE_90 := 1
  const ROTATE_180 := 2
  const ROTATE_270 := 3

  // ----- Colours -----

  function Red(c: Color): nat { c / 2048 % 32 }
  function Green(c: Color): nat { c / 32 % 64 }
  function Blue(c: Color): nat { c % 32 }

  predicate Keyed(c: Color, low: Color, high: Color) {
    && Red(low) <= Red(c) <= Red(high)
    && Green(low) <= Green(c) <= Green(high)
    && Blue(low) <= Blue(c) <= Blue(high)
  }

  lemma Product(a: int, b: int)
    requires a >= 0 && b >= 0
    ensures a * b >= 0
  {
  }

  function Mix(source: nat, destination: nat, opacity: nat): nat
    requires opacity <= 255
  {
    Product(source, opacity);
    Product(destination, 255 - opacity);
    (source * opacity + destination * (255 - opacity) + 127) / 255
  }

  function Blend(source: Color, destination: Color, opacity: nat): (r: Color)
    requires opacity <= 255
  {
    MixWithin(Red(source), Red(destination), opacity, 31);
    MixWithin(Green(source), Green(destination), opacity, 63);
    MixWithin(Blue(source), Blue(destination), opacity, 31);
    Mix(Red(source), Red(destination), opacity) * 2048
    + Mix(Green(source), Green(destination), opacity) * 32
    + Mix(Blue(source), Blue(destination), opacity)
  }

  /** A mixed channel lies between the two it mixes. */
  lemma MixWithin(source: nat, destination: nat, opacity: nat, most: nat)
    requires opacity <= 255 && source <= most && destination <= most
    ensures Mix(source, destination, opacity) <= most
    ensures source <= destination ==> source <= Mix(source, destination, opacity) <= destination
    ensures destination <= source ==> destination <= Mix(source, destination, opacity) <= source
  {
    if source <= destination {
      MixBetween(source, destination, opacity);
    } else {
      MixBetween(destination, source, 255 - opacity);
      assert source * opacity + destination * (255 - opacity)
          == destination * (255 - opacity) + source * (255 - (255 - opacity));
    }
  }

  lemma MixBetween(low: nat, high: nat, opacity: nat)
    requires opacity <= 255 && low <= high
    ensures low <= Mix(low, high, opacity) <= high
  {
    var sum := low * opacity + high * (255 - opacity);
    Product(high - low, 255 - opacity);
    Product(high - low, opacity);
    assert sum - low * 255 == (high - low) * (255 - opacity);
    assert high * 255 - sum == (high - low) * opacity;
  }

  /** Blending mixes each channel by itself. */
  lemma BlendChannels(source: Color, destination: Color, opacity: nat)
    requires opacity <= 255
    ensures var r := Blend(source, destination, opacity);
            && Red(r) == Mix(Red(source), Red(destination), opacity)
            && Green(r) == Mix(Green(source), Green(destination), opacity)
            && Blue(r) == Mix(Blue(source), Blue(destination), opacity)
  {
    MixWithin(Red(source), Red(destination), opacity, 31);
    MixWithin(Green(source), Green(destination), opacity, 63);
    MixWithin(Blue(source), Blue(destination), opacity, 31);
    var red, green := Mix(Red(source), Red(destination), opacity), Mix(Green(source), Green(destination), opacity);
    var blue := Mix(Blue(source), Blue(destination), opacity);
    assert Blend(source, destination, opacity) == red * 2048 + green * 32 + blue;
    Compose(red, green, blue);
  }

  lemma Compose(red: nat, green: nat, blue: nat)
    requires red <= 31 && green <= 63 && blue <= 31
    ensures var c := red * 2048 + green * 32 + blue;
            0 <= c < 0x1_0000 && c / 2048 % 32 == red && c / 32 % 64 == green && c % 32 == blue
  {
  }

  /** An opaque source replaces the destination, a transparent one leaves it. */
  lemma BlendEnds(source: Color, destination: Color)
    ensures Blend(source, destination, 255) == source && Blend(source, destination, 0) == destination
  {
    MixEnds(Red(source), Red(destination));
    MixEnds(Green(source), Green(destination));
    MixEnds(Blue(source), Blue(destination));
    Recompose(source);
    Recompose(destination);
  }

  lemma MixEnds(source: nat, destination: nat)
    ensures Mix(source, destination, 255) == source && Mix(source, destination, 0) == destination
  {
    assert source * 255 + destination * (255 - 255) + 127 == source * 255 + 127;
    assert source * 0 + destination * (255 - 0) + 127 == destination * 255 + 127;
  }

  lemma Recompose(c: Color)
    ensures Red(c) * 2048 + Green(c) * 32 + Blue(c) == c
  {
  }

  // ----- One pixel of a blit -----

  /** The checks the source makes before it draws anything. */
  predicate Drawable(o: Options) {
    && o.bitmapWidth > 0 && o.bitmapHeight > 0
    && o.source.width > 0 && o.source.height > 0 && o.destination.width > 0 && o.destination.height > 0
    && o.source.x >= 0 && o.source.y >= 0
    && o.source.x + o.source.width <= o.bitmapWidth && o.source.y + o.source.height <= o.bitmapHeight
    && o.rotation <= ROTATE_270
  }

  /** What every caller owes: a bitmap of the stated size and an 8-bit opacity. */
  predicate Supplied(o: Options) {
    |o.pixels| >= o.bitmapWidth * o.bitmapHeight && o.opacity <= 255
  }

  predicate Turned(o: Options) {
    o.rotation == ROTATE_90 || o.rotation == ROTATE_270
  }

  function RotatedWidth(o: Options): nat {
    if Turned(o) then o.source.height else o.source.width
  }

  function RotatedHeight(o: Options): nat {
    if Turned(o) then o.source.width else o.source.height
  }

  /** Nearest-neighbour position on one axis. */
  function Scale(d: nat, rotated: nat, size: nat): (r: nat)
    requires d < size && rotated > 0
    ensures r < rotated
    ensures rotated == size ==> r == d
  {
    ScaleBounds(d, rotated, size);
    d * rotated / size
  }

  lemma QuotientBelow(a: nat, b: nat, size: nat)
    requires size > 0 && a < b * size
    ensures a / size < b
  {
    var q := a / size;
    assert q * size <= a;
    assert q >= b ==> (q - b) * size >= 0;
    assert q >= b ==> q * size >= b * size;
  }

  lemma QuotientExact(d: int, size: int)
    requires d >= 0 && size > 0
    ensures d * size / size == d
  {
    Product(d, size);
    var q := d * size / size;
    var r := d * size % size;
    assert (d - q) * size == r;
    assert d - q >= 1 ==> (d - q) * size >= size;
    assert d - q <= -1 ==> (d - q) * size <= -size;
  }

  lemma ScaleBounds(d: nat, rotated: nat, size: nat)
    requires d < size && rotated > 0
    ensures 0 <= d * rotated && d * rotated / size < rotated
    ensures rotated == size ==> d * rotated / size == d
  {
    Product(d, rotated);
    Product(size - d - 1, rotated);
    assert (size - d - 1) * rotated == rotated * size - d * rotated - rotated;
    QuotientBelow(d * rotated, rotated, size);
    QuotientExact(d, size);
  }

  /** Column and row inside the source rectangle for a destination offset. */
  function SourceOffset(o: Options, dx: nat, dy: nat): (s: (nat, nat))
    requires Drawable(o) && dx < o.destination.width && dy < o.destination.height
    ensures s.0 < o.source.width && s.1 < o.source.height
  {
    Turn(o, Scale(dx, RotatedWidth(o), o.destination.width), Scale(dy, RotatedHeight(o), o.destination.height))
  }

  /** Column and row inside the source rectangle for a position in the turned and mirrored source. */
  function Turn(o: Options, rx: nat, ry: nat): (s: (nat, nat))
    requires rx < RotatedWidth(o) && ry < RotatedHeight(o) && o.rotation <= ROTATE_270
    ensures s.0 < o.source.width && s.1 < o.source.height
  {
    var w, h := o.source.width, o.source.height;
    var turned :=
      if o.rotation == ROTATE_90 then (w - 1 - ry, rx)
      else if o.rotation == ROTATE_180 then (w - 1 - rx, h - 1 - ry)
      else if o.rotation == ROTATE_270 then (ry, h - 1 - rx)
      else (rx, ry);
    (if o.mirrorX then w - 1 - turned.0 else turned.0, if o.mirrorY then h - 1 - turned.1 else turned.1)
  }

  lemma BitmapIndex(x: nat, y: nat, width: nat, height: nat)
    requires x < width && y < height
    ensures 0 <= y * width + x < width * height
  {
    assert y * width <= (height - 1) * width;
  }

  function BitmapAt(o: Options, x: nat, y: nat): Color
    requires Supplied(o) && x < o.bitmapWidth && y < o.bitmapHeight
  {
    BitmapIndex(x, y, o.bitmapWidth, o.bitmapHeight);
    o.pixels[y * o.bitmapWidth + x]
  }

  function Sample(o: Options, dx: nat, dy: nat): Color
    requires Drawable(o) && Supplied(o) && dx < o.destination.width && dy < o.destination.height
  {
    var s := SourceOffset(o, dx, dy);
    BitmapAt(o, o.source.x + s.0, o.source.y + s.1)
  }

  /** What a sampled source pixel makes of the pixel under it. */
  function Paint(o: Options, sample: Color, was: Color): Color
    requires o.opacity <= 255
  {
    if o.keyEnabled && Keyed(sample, o.keyLow, o.keyHigh) then was
    else if o.opacity == 255 then sample
    else Blend(sample, was, o.opacity)
  }

  predicate Covers(o: Options, x: int, y: int) {
    && o.destination.x <= x < o.destination.x + o.destination.width
    && o.destination.y <= y < o.destination.y + o.destination.height
  }

  /** A blit, pixel by pixel: every framebuffer position is tested against the destination. */
  function BlitPixel(o: Options, x: nat, y: nat, was: Color): Color
    requires Drawable(o) && Supplied(o)
  {
    if Covers(o, x, y) then Paint(o, Sample(o, x - o.destination.x, y - o.destination.y), was) else was
  }

  // ----- Sampling -----

  /** Turning by 180 degrees is mirroring both ways. */
  lemma HalfTurnIsTwoMirrors(o: Options, dx: nat, dy: nat)
    requires Drawable(o) && dx < o.destination.width && dy < o.destination.height && o.rotation == ROTATE_180
    ensures SourceOffset(o, dx, dy)
         == SourceOffset(o.(rotation := ROTATE_0, mirrorX := !o.mirrorX, mirrorY := !o.mirrorY), dx, dy)
  {
  }

  /** Turning by 270 degrees is turning by 90 and mirroring both ways. */
  lemma ThreeQuartersIsQuarterAndMirrors(o: Options, dx: nat, dy: nat)
    requires Drawable(o) && dx < o.destination.width && dy < o.destination.height && o.rotation == ROTATE_270
    ensures SourceOffset(o, dx, dy)
         == SourceOffset(o.(rotation := ROTATE_90, mirrorX := !o.mirrorX, mirrorY := !o.mirrorY), dx, dy)
  {
  }

  /** Without scaling, whatever the rotation and mirrors, no source pixel is drawn twice. */
  lemma UnscaledDrawsOnce(o: Options, dx: nat, dy: nat, ex: nat, ey: nat)
    requires Drawable(o) && o.destination.width == RotatedWidth(o) && o.destination.height == RotatedHeight(o)
    requires dx < o.destination.width && dy < o.destination.height
    requires ex < o.destination.width && ey < o.destination.height
    requires SourceOffset(o, dx, dy) == SourceOffset(o, ex, ey)
    ensures dx == ex && dy == ey
  {
  }

  lemma UnscaledOffset(o: Options, dx: nat, dy: nat)
    requires Drawable(o) && o.destination.width == RotatedWidth(o) && o.destination.height == RotatedHeight(o)
    requires dx < o.destination.width && dy < o.destination.height
    ensures SourceOffset(o, dx, dy) == Turn(o, dx, dy)
  {
  }

  lemma TurnBack(o: Options, sx: nat, sy: nat) returns (rx: nat, ry: nat)
    requires sx < o.source.width && sy < o.source.height && o.rotation <= ROTATE_270
    ensures rx < RotatedWidth(o) && ry < RotatedHeight(o) && Turn(o, rx, ry) == (sx, sy)
  {
    var w, h := o.source.width, o.source.height;
    var tx := if o.mirrorX then w - 1 - sx else sx;
    var ty := if o.mirrorY then h - 1 - sy else sy;
    if o.rotation == ROTATE_90 {
      rx, ry := ty, w - 1 - tx;
    } else if o.rotation == ROTATE_180 {
      rx, ry := w - 1 - tx, h - 1 - ty;
    } else if o.rotation == ROTATE_270 {
      rx, ry := h - 1 - ty, tx;
    } else {
      rx, ry := tx, ty;
    }
  }

  /** Without scaling every source pixel is drawn. */
  lemma UnscaledDrawsAll(o: Options, sx: nat, sy: nat) returns (dx: nat, dy: nat)
    requires Drawable(o) && o.destination.width == RotatedWidth(o) && o.destination.height == RotatedHeight(o)
    requires sx < o.source.width && sy < o.source.height
    ensures dx < o.destination.width && dy < o.destination.height && SourceOffset(o, dx, dy) == (sx, sy)
  {
    dx, dy := TurnBack(o, sx, sy);
    UnscaledOffset(o, dx, dy);
  }

  /** An unrotated, unmirrored, unscaled, opaque blit: the source's span path. */
  predicate Plain(o: Options) {
    && o.rotation == ROTATE_0 && !o.mirrorX && !o.mirrorY && o.opacity == 255
    && o.source.width == o.destination.width && o.source.height == o.destination.height
  }

  lemma PlainOffset(o: Options, dx: nat, dy: nat)
    requires Drawable(o) && Plain(o) && dx < o.destination.width && dy < o.destination.height
    ensures SourceOffset(o, dx, dy) == (dx, dy)
  {
  }

  // ----- Rows of a framebuffer -----

  predicate InRect(r: Rect, x: int, y: int) {
    r.x <= x < r.x + r.width && r.y <= y < r.y + r.height
  }

  /** A framebuffer row after a fill: `width` pixels are visible, the rest is padding. */
  function FilledRow(r: Rect, color: Color, width: nat, y: nat, was: seq<Color>): seq<Color> {
    seq(|was|, x requires 0 <= x < |was| => if x < width && InRect(r, x, y) then color else was[x])
  }

  /** A framebuffer row after a blit. */
  function BlitRow(o: Options, width: nat, y: nat, was: seq<Color>): seq<Color>
    requires Drawable(o) && Supplied(o)
  {
    seq(|was|, x requires 0 <= x < |was| => if x < width then BlitPixel(o, x, y, was[x]) else was[x])
  }

  lemma RowsApart(y: int, r: int, stride: int)
    requires 0 <= y < r && stride >= 0
    ensures (y + 1) * stride <= r * stride
  {
    Product(r - y - 1, stride);
    assert (r - y - 1) * stride == r * stride - (y + 1) * stride;
  }

  // ----- Spans -----

  /** Which source colours the key keeps from being drawn. */
  function Hides(o: Options): Color -> bool {
    (c: Color) => o.keyEnabled && Keyed(c, o.keyLow, o.keyHigh)
  }

  /** A row after the colours of `span` that are not hidden are written from position `to` on. */
  function SpannedRow(hides: Color -> bool, to: nat, span: seq<Color>, was: seq<Color>): (row: seq<Color>) {
    seq(|was|, x requires 0 <= x < |was| =>
      if to <= x < to + |span| && !hides(span[x - to]) then span[x - to] else was[x])
  }

  method SkipHidden(hides: Color -> bool, span: seq<Color>, from: nat) returns (stop: nat)
    requires from <= |span|
    ensures from <= stop <= |span| && (stop < |span| ==> !hides(span[stop]))
    ensures forall i :: from <= i < stop ==> hides(span[i])
  {
    stop := from;
    while stop < |span| && hides(span[stop])
      invariant from <= stop <= |span|
      invariant forall i :: from <= i < stop ==> hides(span[i])
    {
      stop := stop + 1;
    }
  }

  method SkipVisible(hides: Color -> bool, span: seq<Color>, from: nat) returns (stop: nat)
    requires from <= |span|
    ensures from <= stop <= |span| && (from < |span| && !hides(span[from]) ==> from < stop)
    ensures forall i :: from <= i < stop ==> !hides(span[i])
  {
    stop := from;
    while stop < |span| && !hides(span[stop])
      invariant from <= stop <= |span|
      invariant forall i :: from <= i < stop ==> !hides(span[i])
    {
      stop := stop + 1;
    }
  }

  /** Skipping a hidden run and copying the run after it carries a spanned row further. */
  lemma SpannedFurther(hides: Color -> bool, to: nat, span: seq<Color>, column: nat, start: nat, end: nat,
                       first: seq<Color>, was: seq<Color>, now: seq<Color>)
    requires column <= start <= end <= |span| && |first| == |was| == |now|
    requires forall i :: column <= i < start ==> hides(span[i])
    requires forall i :: start <= i < end ==> !hides(span[i])
    requires was == SpannedRow(hides, to, span[..column], first)
    requires forall x :: 0 <= x < |now| ==>
               now[x] == if to + start <= x < to + end then span[x - to] else was[x]
    ensures now == SpannedRow(hides, to, span[..end], first)
  {
    forall x | 0 <= x < |now| ensures now[x] == SpannedRow(hides, to, span[..end], first)[x] {
      if to + column <= x < to + end {
        assert hides(span[x - to]) <==> x < to + start;
      }
    }
  }

  lemma PlainSample(o: Options, dx: nat, dy: nat)
    requires Drawable(o) && Supplied(o) && Plain(o) && dx < o.destination.width && dy < o.destination.height
    ensures var at := (o.source.y + dy) * o.bitmapWidth + o.source.x + dx;
            0 <= at < |o.pixels| && Sample(o, dx, dy) == o.pixels[at]
  {
    PlainOffset(o, dx, dy);
    BitmapIndex(o.source.x + dx, o.source.y + dy, o.bitmapWidth, o.bitmapHeight);
  }

  /** A plain blit draws the pixel at its place in the bitmap unless the key hides it. */
  lemma PlainPixel(o: Options, x: nat, y: nat, at: int, was: Color)
    requires Drawable(o) && Supplied(o) && Plain(o) && Covers(o, x, y)
    requires at == (o.source.y + (y - o.destination.y)) * o.bitmapWidth + o.source.x + (x - o.destination.x)
    ensures 0 <= at < |o.pixels|
    ensures BlitPixel(o, x, y, was) == if Hides(o)(o.pixels[at]) then was else o.pixels[at]
  {
    PlainSample(o, x - o.destination.x, y - o.destination.y);
  }

  /** The clipped span is what the definition draws in that row. */
  lemma SpanIsBlit(o: Options, width: nat, y: nat, to: nat, from: nat, count: nat, was: seq<Color>)
    requires Drawable(o) && Supplied(o) && Plain(o) && o.destination.y <= y < o.destination.y + o.destination.height
    requires to == (if o.destination.x < 0 then 0 else o.destination.x) && to + count <= width <= |was|
    requires to + count == width || to + count == o.destination.x + o.destination.width
    requires to + count <= o.destination.x + o.destination.width
    requires from == (o.source.y + (y - o.destination.y)) * o.bitmapWidth + o.source.x + (to - o.destination.x)
    requires from + count <= |o.pixels|
    ensures SpannedRow(Hides(o), to, o.pixels[from..from + count], was) == BlitRow(o, width, y, was)
  {
    var span := o.pixels[from..from + count];
    forall x | 0 <= x < |was| ensures SpannedRow(Hides(o), to, span, was)[x] == BlitRow(o, width, y, was)[x] {
      if to <= x < to + count {
        assert span[x - to] == o.pixels[from + (x - to)];
        PlainPixel(o, x, y, from + (x - to), was[x]);
      } else {
        assert x < width ==> !Covers(o, x, y);
      }
    }
  }

  // ----- The general path, pixel by pixel -----

  /** Drawing the pixel at `x` carries a row drawn up to `x` one further. */
  lemma OnePixelFurther(o: Options, x: nat, y: nat, first: seq<Color>, was: seq<Color>, now: seq<Color>)
    requires Drawable(o) && Supplied(o) && Covers(o, x, y) && x < |first| == |was|
    requires was == BlitRow(o, x, y, first)
    requires now == was[x := Paint(o, Sample(o, x - o.destination.x, y - o.destination.y), was[x])]
    ensures now == BlitRow(o, x + 1, y, first)
  {
    assert now[x] == BlitPixel(o, x, y, first[x]);
  }

  /** Past the destination there is nothing left to draw. */
  lemma NoneFurther(o: Options, x: nat, width: nat, y: nat, first: seq<Color>)
    requires Drawable(o) && Supplied(o) && x <= width
    requires x == width || x >= o.destination.x + o.destination.width
    ensures BlitRow(o, x, y, first) == BlitRow(o, width, y, first)
  {
  }

  class Framebuffer {
    const width: nat
    const height: nat
    const stride: nat
    const pixels: array<Color>

    constructor (width: nat, height: nat, stride: nat, pixels: array<Color>)
      requires width <= stride && height * stride <= pixels.Length
      ensures Valid() && this.pixels == pixels
      ensures this.width == width && this.height == height && this.stride == stride
    {
      this.width, this.height, this.stride, this.pixels := width, height, stride, pixels;
    }

    ghost predicate Valid() {
      width <= stride && height * stride <= pixels.Length
    }

    /** Where a row starts; the row lies inside the buffer. */
    function RowStart(y: nat): (at: nat)
      requires Valid() && y < height
      ensures at == y * stride && at + stride <= height * stride
    {
      RowsApart(y, height, stride);
      Product(y, stride);
      y * stride
    }

    ghost function Row(y: nat): (row: seq<Color>)
      requires Valid() && y < height
      reads pixels
      ensures |row| == stride
    {
      pixels[RowStart(y)..RowStart(y) + stride]
    }

    /** Memory behind the last row. */
    ghost function Rest(): seq<Color>
      requires Valid()
      reads pixels
    {
      Product(height, stride);
      pixels[height * stride..]
    }

    /** The buffer differs from `before` in one row at most, and there pixel by pixel as told. */
    lemma OneRowChanged(before: seq<Color>, y: nat)
      requires Valid() && y < height && |before| == pixels.Length
      requires forall k :: 0 <= k < RowStart(y) ==> pixels[k] == before[k]
      requires forall k :: RowStart(y) + stride <= k < pixels.Length ==> pixels[k] == before[k]
      ensures forall r: nat :: r < height && r != y ==> Row(r) == before[RowStart(r)..RowStart(r) + stride]
      ensures Rest() == before[height * stride..]
    {
      forall r: nat | r < height && r != y ensures Row(r) == before[RowStart(r)..RowStart(r) + stride] {
        if r < y {
          RowsApart(r, y, stride);
        } else {
          RowsApart(y, r, stride);
        }
      }
    }

    /** raster_fill_span at a position of a row. */
    method FillSpan(y: nat, from: nat, count: nat, color: Color)
      requires Valid() && y < height && from + count <= stride
      modifies pixels
      ensures Rest() == old(Rest())
      ensures forall r: nat :: r < height && r != y ==> Row(r) == old(Row(r))
      ensures forall x :: 0 <= x < stride ==>
                Row(y)[x] == if from <= x < from + count then color else old(Row(y))[x]
    {
      ghost var before := pixels[..];
      var at := RowStart(y) + from;
      for k := 0 to count
        invariant forall i :: 0 <= i < pixels.Length ==>
                    pixels[i] == if at <= i < at + k then color else before[i]
      {
        pixels[at + k] := color;
      }
      OneRowChanged(before, y);
    }

    /** raster_copy_span at a position of a row. */
    method CopySpan(y: nat, to: nat, source: seq<Color>, from: nat, count: nat)
      requires Valid() && y < height && to + count <= stride && from + count <= |source|
      modifies pixels
      ensures Rest() == old(Rest())
      ensures forall r: nat :: r < height && r != y ==> Row(r) == old(Row(r))
      ensures forall x :: 0 <= x < stride ==>
                Row(y)[x] == if to <= x < to + count then source[from + (x - to)] else old(Row(y))[x]
    {
      ghost var before := pixels[..];
      var at := RowStart(y) + to;
      for k := 0 to count
        invariant forall i :: 0 <= i < pixels.Length ==>
                    pixels[i] == if at <= i < at + k then source[from + (i - at)] else before[i]
      {
        pixels[at + k] := source[from + k];
      }
      OneRowChanged(before, y);
    }

    /** raster_fill: every visible pixel inside the rectangle, and no other, takes the colour. */
    method Fill(r: Rect, color: Color)
      requires Valid()
      modifies pixels
      ensures Rest() == old(Rest())
      ensures forall y: nat :: y < height ==> Row(y) == FilledRow(r, color, width, y, old(Row(y)))
    {
      var right, bottom := r.x + r.width, r.y + r.height;
      var left := if r.x < 0 then 0 else r.x;
      var top := if r.y < 0 then 0 else r.y;
      var clippedRight := if right > width then width else right;
      var clippedBottom := if bottom > height then height else bottom;
      if r.width == 0 || r.height == 0 || right <= 0 || bottom <= 0 || clippedRight <= left || clippedBottom <= top {
        return;
      }
      for row := top to clippedBottom
        invariant Rest() == old(Rest())
        invariant forall y: nat :: y < height ==>
                    Row(y) == if y < row then FilledRow(r, color, width, y, old(Row(y))) else old(Row(y))
      {
        FillSpan(row, left, clippedRight - left, color);
        assert Row(row) == FilledRow(r, color, width, row, old(Row(row)));
      }
    }

    /** Copy the runs of a span that the key does not hide. */
    method CopyRuns(hides: Color -> bool, y: nat, to: nat, source: seq<Color>, from: nat, count: nat)
      requires Valid() && y < height && to + count <= stride && from + count <= |source|
      modifies pixels
      ensures Rest() == old(Rest())
      ensures forall r: nat :: r < height && r != y ==> Row(r) == old(Row(r))
      ensures Row(y) == SpannedRow(hides, to, source[from..from + count], old(Row(y)))
    {
      var span := source[from..from + count];
      var column := 0;
      while column < count
        invariant 0 <= column <= count
        invariant Rest() == old(Rest())
        invariant forall r: nat :: r < height && r != y ==> Row(r) == old(Row(r))
        invariant Row(y) == SpannedRow(hides, to, span[..column], old(Row(y)))
      {
        ghost var was := Row(y);
        var start := SkipHidden(hides, span, column);
        var end := SkipVisible(hides, span, start);
        CopySpan(y, to + start, source, from + start, end - start);
        SpannedFurther(hides, to, span, column, start, end, old(Row(y)), was, Row(y));
        column := end;
      }
      assert span[..count] == span;
    }

    /** Copy a span, with or without colour key. */
    method PaintSpan(o: Options, y: nat, to: nat, from: nat, count: nat)
      requires Valid() && y < height && to + count <= stride && from + count <= |o.pixels|
      modifies pixels
      ensures Rest() == old(Rest())
      ensures forall r: nat :: r < height && r != y ==> Row(r) == old(Row(r))
      ensures Row(y) == SpannedRow(Hides(o), to, o.pixels[from..from + count], old(Row(y)))
    {
      if o.keyEnabled {
        CopyRuns(Hides(o), y, to, o.pixels, from, count);
      } else {
        CopySpan(y, to, o.pixels, from, count);
      }
    }

    /** One row of the span path: clip the destination row to the framebuffer and copy the rest. */
    method SpanRow(o: Options, row: nat)
      requires Valid() && Drawable(o) && Supplied(o) && Plain(o) && row < o.destination.height
      modifies pixels
      ensures Rest() == old(Rest())
      ensures forall y: nat :: y < height ==>
                Row(y) == if y == o.destination.y + row then BlitRow(o, width, y, old(Row(y))) else old(Row(y))
    {
      var outputY := o.destination.y + row;
      if outputY < 0 || outputY >= height {
        return;
      }
      var outputX, skipped, count := o.destination.x, 0, o.destination.width;
      if outputX < 0 {
        skipped := -outputX;
        if skipped >= count {
          NothingVisible(o, outputY);
          return;
        }
        outputX := 0;
        count := count - skipped;
      }
      if outputX >= width {
        NothingVisible(o, outputY);
        return;
      }
      if count > width - outputX {
        count := width - outputX;
      }
      var from := (o.source.y + row) * o.bitmapWidth + o.source.x + skipped;
      BitmapIndex(o.source.x + skipped + count - 1, o.source.y + row, o.bitmapWidth, o.bitmapHeight);
      BitmapIndex(o.source.x, o.source.y + row, o.bitmapWidth, o.bitmapHeight);
      PaintSpan(o, outputY, outputX, from, count);
      SpanIsBlit(o, width, outputY, outputX, from, count, old(Row(outputY)));
    }

    /** A row whose destination lies left or right of the framebuffer stays as it is. */
    lemma NothingVisible(o: Options, y: nat)
      requires Valid() && y < height && Drawable(o) && Supplied(o)
      requires o.destination.x + o.destination.width <= 0 || o.destination.x >= width || width == 0
      ensures BlitRow(o, width, y, Row(y)) == Row(y)
    {
    }

    method BlitSpans(o: Options)
      requires Valid() && Drawable(o) && Supplied(o) && Plain(o)
      modifies pixels
      ensures Rest() == old(Rest())
      ensures forall y: nat :: y < height ==> Row(y) == BlitRow(o, width, y, old(Row(y)))
    {
      for row := 0 to o.destination.height
        invariant Rest() == old(Rest())
        invariant forall y: nat :: y < height ==>
                    Row(y) == if y < o.destination.y + row then BlitRow(o, width, y, old(Row(y))) else old(Row(y))
      {
        SpanRow(o, row);
      }
    }

    /** Draw one sampled pixel. */
    method PaintPixel(o: Options, sample: Color, y: nat, x: nat)
      requires Valid() && y < height && x < stride && o.opacity <= 255
      modifies pixels
      ensures Rest() == old(Rest())
      ensures forall r: nat :: r < height && r != y ==> Row(r) == old(Row(r))
      ensures Row(y) == old(Row(y))[x := Paint(o, sample, old(Row(y))[x])]
    {
      if o.keyEnabled && Keyed(sample, o.keyLow, o.keyHigh) {
        return;
      }
      ghost var before := pixels[..];
      var at := RowStart(y) + x;
      pixels[at] := if o.opacity == 255 then sample else Blend(sample, pixels[at], o.opacity);
      OneRowChanged(before, y);
    }

    /** The inner loop of the general path: the visible part of one destination row. */
    method PaintRow(o: Options, dy: nat, firstX: nat, endX: nat)
      requires Valid() && Drawable(o) && Supplied(o) && dy < o.destination.height
      requires 0 <= o.destination.y + dy < height && firstX < endX <= o.destination.width
      requires firstX == (if o.destination.x < 0 then -o.destination.x else 0)
      requires o.destination.x + endX <= width && (endX < o.destination.width ==> o.destination.x + endX == width)
      modifies pixels
      ensures Rest() == old(Rest())
      ensures forall y: nat :: y < height ==>
                Row(y) == if y == o.destination.y + dy then BlitRow(o, width, y, old(Row(y))) else old(Row(y))
    {
      var y := o.destination.y + dy;
      ghost var first := Row(y);
      for dx := firstX to endX
        invariant Rest() == old(Rest())
        invariant forall r: nat :: r < height && r != y ==> Row(r) == old(Row(r))
        invariant Row(y) == BlitRow(o, o.destination.x + dx, y, first)
      {
        ghost var was := Row(y);
        var sample := Sample(o, dx, dy);
        PaintPixel(o, sample, y, o.destination.x + dx);
        OnePixelFurther(o, o.destination.x + dx, y, first, was, Row(y));
      }
      NoneFurther(o, o.destination.x + endX, width, y, first);
    }

    /** Clip the destination to the framebuffer, then draw row by row. */
    method BlitGeneral(o: Options)
      requires Valid() && Drawable(o) && Supplied(o)
      modifies pixels
      ensures Rest() == old(Rest())
      ensures forall y: nat :: y < height ==> Row(y) == BlitRow(o, width, y, old(Row(y)))
    {
      var left, top := o.destination.x, o.destination.y;
      var right, bottom := left + o.destination.width, top + o.destination.height;
      var clippedLeft := if left < 0 then 0 else left;
      var clippedTop := if top < 0 then 0 else top;
      var clippedRight := if right > width then width else right;
      var clippedBottom := if bottom > height then height else bottom;
      if clippedLeft >= clippedRight || clippedTop >= clippedBottom {
        NothingCovered(o);
        return;
      }
      for dy := clippedTop - top to clippedBottom - top
        invariant Rest() == old(Rest())
        invariant forall y: nat :: y < height ==>
                    Row(y) == if y < top + dy then BlitRow(o, width, y, old(Row(y))) else old(Row(y))
      {
        PaintRow(o, dy, clippedLeft - left, clippedRight - left);
      }
    }

    /** Nothing is drawn when no row or no column of the destination is visible. */
    lemma NothingCovered(o: Options)
      requires Valid() && Drawable(o) && Supplied(o)
      requires forall x: nat, y: nat :: x < width && y < height ==> !Covers(o, x, y)
      ensures forall y: nat :: y < height ==> BlitRow(o, width, y, Row(y)) == Row(y)
    {
    }

    /** A blit draws what testing every framebuffer pixel against the destination would draw, whichever path runs. */
    method Blit(o: Options) returns (ok: bool)
      requires Valid() && Supplied(o)
      modifies pixels
      ensures Rest() == old(Rest())
      ensures ok == Drawable(o)
      ensures forall y: nat :: y < height ==> Row(y) == if ok then BlitRow(o, width, y, old(Row(y))) else old(Row(y))
    {
      if !Drawable(o) {
        return false;
      }
      if Plain(o) {
        BlitSpans(o);
      } else {
        BlitGeneral(o);
      }
      return true;
    }
  }
}
