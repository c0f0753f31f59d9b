/** Which source pixel a blit of graphics/raster.c draws where, and what it makes of the pixel under it. */
module RasterSampling {
  import opened Raster

  /** A colour of five, six and five bits. */
  function Rgb(red: nat, green: nat, blue: nat): (c: Color)
    requires red < 32 && green < 64 && blue < 32
  {
    red * 2048 + green * 32 + blue
  }

  lemma Channels(red: nat, green: nat, blue: nat)
    requires red < 32 && green < 64 && blue < 32
    ensures var c := Rgb(red, green, blue); Red(c) == red && Green(c) == green && Blue(c) == blue
  {
    ChannelsOf(Rgb(red, green, blue), red, red * 64 + green, green, blue);
  }

  lemma ChannelsOf(c: Color, red: nat, upper: nat, green: nat, blue: nat)
    requires upper == red * 64 + green && c == upper * 32 + blue && red < 32 && green < 64 && blue < 32
    ensures Red(c) == red && Green(c) == green && Blue(c) == blue
  {
    assert c / 32 == upper && c % 32 == blue;
    assert c / 2048 == red;
    assert upper % 64 == green && red % 32 == red;
  }

  lemma KeyedBy(c: Color, low: Color, high: Color, r: nat, g: nat, b: nat, r0: nat, g0: nat, b0: nat, r1: nat, g1: nat,
                b1: nat)
    requires Red(c) == r && Green(c) == g && Blue(c) == b && Red(low) == r0 && Green(low) == g0 && Blue(low) == b0
    requires Red(high) == r1 && Green(high) == g1 && Blue(high) == b1
    ensures Keyed(c, low, high) <==> r0 <= r <= r1 && g0 <= g <= g1 && b0 <= b <= b1
  {
  }

  /** The key hides the colours whose three channels lie in its three ranges. */
  lemma KeyIsRange(r: nat, g: nat, b: nat, r0: nat, g0: nat, b0: nat, r1: nat, g1: nat, b1: nat)
    requires r < 32 && g < 64 && b < 32 && r0 < 32 && g0 < 64 && b0 < 32 && r1 < 32 && g1 < 64 && b1 < 32
    ensures Keyed(Rgb(r, g, b), Rgb(r0, g0, b0), Rgb(r1, g1, b1))
       <==> r0 <= r <= r1 && g0 <= g <= g1 && b0 <= b <= b1
  {
    Channels(r, g, b);
    Channels(r0, g0, b0);
    Channels(r1, g1, b1);
    KeyedBy(Rgb(r, g, b), Rgb(r0, g0, b0), Rgb(r1, g1, b1), r, g, b, r0, g0, b0, r1, g1, b1);
  }

  /** `mixed` is the integer nearest to the mean of two channels weighted by opacity. */
  predicate Nearest(mixed: nat, source: nat, destination: nat, opacity: nat) {
    -127 <= 255 * mixed - (source * opacity + destination * (255 - opacity)) <= 127
  }

  lemma MixNearest(source: nat, destination: nat, opacity: nat)
    requires opacity <= 255
    ensures Nearest(Mix(source, destination, opacity), source, destination, opacity)
  {
    Product(source, opacity);
    Product(destination, 255 - opacity);
  }

  /** Blending two colours gives, channel by channel, the nearest weighted mean. */
  lemma BlendIsNearest(r: nat, g: nat, b: nat, r0: nat, g0: nat, b0: nat, opacity: nat)
    returns (r1: nat, g1: nat, b1: nat)
    requires r < 32 && g < 64 && b < 32 && r0 < 32 && g0 < 64 && b0 < 32 && opacity <= 255
    ensures r1 < 32 && g1 < 64 && b1 < 32
    ensures Nearest(r1, r, r0, opacity) && Nearest(g1, g, g0, opacity) && Nearest(b1, b, b0, opacity)
    ensures Blend(Rgb(r, g, b), Rgb(r0, g0, b0), opacity) == Rgb(r1, g1, b1)
  {
    Channels(r, g, b);
    Channels(r0, g0, b0);
    r1, g1, b1 := Mix(r, r0, opacity), Mix(g, g0, opacity), Mix(b, b0, opacity);
    MixWithin(r, r0, opacity, 31);
    MixWithin(g, g0, opacity, 63);
    MixWithin(b, b0, opacity, 31);
    MixNearest(r, r0, opacity);
    MixNearest(g, g0, opacity);
    MixNearest(b, b0, opacity);
  }

  // ----- Which pixel is drawn -----

  /** A blit is refused exactly when a rectangle is empty, the source does not lie in the bitmap, or the rotation is
      none of the four. */
  lemma RefusedExactly(o: Options)
    ensures Drawable(o) <==>
      && 0 < o.destination.width && 0 < o.destination.height && 0 < o.source.width && 0 < o.source.height
      && 0 <= o.source.x && o.source.x + o.source.width <= o.bitmapWidth
      && 0 <= o.source.y && o.source.y + o.source.height <= o.bitmapHeight && o.rotation < 4
  {
  }

  /** Cell `r` of `cells` is the one that `d` of `size` falls in. */
  predicate FallsIn(d: nat, size: nat, r: nat, cells: nat) {
    r * size <= d * cells < (r + 1) * size
  }

  lemma ScaleFallsIn(d: nat, cells: nat, size: nat)
    requires d < size && cells > 0
    ensures FallsIn(d, size, Scale(d, cells, size), cells)
  {
    Product(d, cells);
    var q := d * cells / size;
    assert d * cells == q * size + d * cells % size;
  }

  lemma FallsInOne(d: nat, size: nat, r: nat, q: nat, cells: nat)
    requires FallsIn(d, size, r, cells) && FallsIn(d, size, q, cells)
    ensures r == q
  {
    if r < q {
      RowsApart(r, q, size);
    } else if q < r {
      RowsApart(q, r, size);
    }
  }

  /** What a pixel makes of the one under it. */
  predicate Draws(o: Options, sample: Color, was: Color, now: Color)
    requires o.opacity <= 255
  {
    if o.keyEnabled && Keyed(sample, o.keyLow, o.keyHigh) then now == was
    else if o.opacity == 255 then now == sample
    else now == Blend(sample, was, o.opacity)
  }

  /** Where column rx and row ry of the turned source come from: a quarter turn clockwise puts the last row of the
      source in the first column. */
  predicate ComesFrom(o: Options, rx: nat, ry: nat, sx: int, sy: int) {
    var w, h := o.source.width, o.source.height;
    var tx := if o.mirrorX then w - 1 - sx else sx;
    var ty := if o.mirrorY then h - 1 - sy else sy;
    match o.rotation
    case 0 => tx == rx && ty == ry
    case 1 => tx == w - 1 - ry && ty == rx
    case 2 => tx == w - 1 - rx && ty == h - 1 - ry
    case _ => tx == ry && ty == h - 1 - rx
  }

  lemma SampledFrom(o: Options, dx: nat, dy: nat, rx: nat, ry: nat, sx: nat, sy: nat)
    requires Drawable(o) && dx < o.destination.width && dy < o.destination.height
    requires sx < o.source.width && sy < o.source.height && ComesFrom(o, rx, ry, sx, sy)
    requires FallsIn(dx, o.destination.width, rx, RotatedWidth(o))
    requires FallsIn(dy, o.destination.height, ry, RotatedHeight(o))
    ensures SourceOffset(o, dx, dy) == (sx, sy)
  {
    ScaleFallsIn(dx, RotatedWidth(o), o.destination.width);
    ScaleFallsIn(dy, RotatedHeight(o), o.destination.height);
    FallsInOne(dx, o.destination.width, rx, Scale(dx, RotatedWidth(o), o.destination.width), RotatedWidth(o));
    FallsInOne(dy, o.destination.height, ry, Scale(dy, RotatedHeight(o), o.destination.height), RotatedHeight(o));
  }

  /** Every destination pixel inside the framebuffer is drawn from the source pixel that its place in the turned,
      mirrored and scaled source falls in. */
  lemma PixelDrawn(o: Options, width: nat, was: seq<Color>, dx: nat, dy: nat, rx: nat, ry: nat, sx: nat, sy: nat)
    requires Drawable(o) && Supplied(o) && dx < o.destination.width && dy < o.destination.height
    requires sx < o.source.width && sy < o.source.height && ComesFrom(o, rx, ry, sx, sy)
    requires var (w, h) := if o.rotation == 1 || o.rotation == 3 then (o.source.height, o.source.width)
                           else (o.source.width, o.source.height);
             FallsIn(dx, o.destination.width, rx, w) && FallsIn(dy, o.destination.height, ry, h)
    requires 0 <= o.destination.x + dx < width <= |was| && 0 <= o.destination.y + dy
    ensures var x, at := o.destination.x + dx, (o.source.y + sy) * o.bitmapWidth + (o.source.x + sx);
            && 0 <= at < |o.pixels|
            && Draws(o, o.pixels[at], was[x], BlitRow(o, width, o.destination.y + dy, was)[x])
  {
    SampledFrom(o, dx, dy, rx, ry, sx, sy);
    BitmapIndex(o.source.x + sx, o.source.y + sy, o.bitmapWidth, o.bitmapHeight);
  }

  /** And every other pixel of a row stays. */
  lemma OthersStay(o: Options, width: nat, y: nat, was: seq<Color>, x: nat)
    requires Drawable(o) && Supplied(o) && x < |was|
    requires x >= width || x < o.destination.x || x >= o.destination.x + o.destination.width
          || y < o.destination.y || y >= o.destination.y + o.destination.height
    ensures BlitRow(o, width, y, was)[x] == was[x]
  {
  }

  /** Without scaling, where a source pixel lands when the source is turned. */
  lemma PixelLands(o: Options, width: nat, was: seq<Color>, sx: nat, sy: nat)
    requires Drawable(o) && Supplied(o) && !o.mirrorX && !o.mirrorY && sx < o.source.width && sy < o.source.height
    requires var (w, h) := if o.rotation == 1 || o.rotation == 3 then (o.source.height, o.source.width)
                           else (o.source.width, o.source.height);
             o.destination.width == w && o.destination.height == h
    ensures var w, h := o.source.width, o.source.height;
            var (dx, dy) := match o.rotation
                            case 0 => (sx, sy)
                            case 1 => (sy, w - 1 - sx)
                            case 2 => (w - 1 - sx, h - 1 - sy)
                            case _ => (h - 1 - sy, sx);
            Lands(o, width, was, sx, sy, dx, dy)
  {
    var w, h := o.source.width, o.source.height;
    var (dx, dy) := match o.rotation
                    case 0 => (sx, sy)
                    case 1 => (sy, w - 1 - sx)
                    case 2 => (w - 1 - sx, h - 1 - sy)
                    case _ => (h - 1 - sy, sx);
    LandsAt(o, width, was, sx, sy, dx, dy);
  }

  /** The source pixel is what is drawn at that destination offset. */
  predicate Lands(o: Options, width: nat, was: seq<Color>, sx: nat, sy: nat, dx: int, dy: int)
    requires Drawable(o) && Supplied(o) && sx < o.source.width && sy < o.source.height
  {
    var x, y, at := o.destination.x + dx, o.destination.y + dy, (o.source.y + sy) * o.bitmapWidth + (o.source.x + sx);
    && 0 <= at < |o.pixels| && 0 <= dx < o.destination.width && 0 <= dy < o.destination.height
    && (0 <= x < width <= |was| && 0 <= y ==> Draws(o, o.pixels[at], was[x], BlitRow(o, width, y, was)[x]))
  }

  lemma LandsAt(o: Options, width: nat, was: seq<Color>, sx: nat, sy: nat, dx: nat, dy: nat)
    requires Drawable(o) && Supplied(o) && sx < o.source.width && sy < o.source.height
    requires dx < o.destination.width && dy < o.destination.height && ComesFrom(o, dx, dy, sx, sy)
    requires var (w, h) := if o.rotation == 1 || o.rotation == 3 then (o.source.height, o.source.width)
                           else (o.source.width, o.source.height);
             o.destination.width == w && o.destination.height == h
    ensures Lands(o, width, was, sx, sy, dx, dy)
  {
    BitmapIndex(o.source.x + sx, o.source.y + sy, o.bitmapWidth, o.bitmapHeight);
    if 0 <= o.destination.x + dx < width <= |was| && 0 <= o.destination.y + dy {
      PixelDrawn(o, width, was, dx, dy, dx, dy, sx, sy);
    }
  }

  /** Mirroring alone draws the columns, or the rows, of the source in the other order. */
  lemma MirrorLands(o: Options, width: nat, was: seq<Color>, sx: nat, sy: nat)
    requires Drawable(o) && Supplied(o) && o.rotation == 0 && sx < o.source.width && sy < o.source.height
    requires o.destination.width == o.source.width && o.destination.height == o.source.height
    ensures o.mirrorX && !o.mirrorY ==> Lands(o, width, was, sx, sy, o.source.width - 1 - sx, sy)
    ensures !o.mirrorX && o.mirrorY ==> Lands(o, width, was, sx, sy, sx, o.source.height - 1 - sy)
  {
    if o.mirrorX && !o.mirrorY {
      LandsAt(o, width, was, sx, sy, o.source.width - 1 - sx, sy);
    } else if !o.mirrorX && o.mirrorY {
      LandsAt(o, width, was, sx, sy, sx, o.source.height - 1 - sy);
    }
  }

  /** A fill gives the colour to exactly the visible pixels of the rectangle. */
  lemma FilledExactly(r: Rect, color: Color, width: nat, y: nat, was: seq<Color>, x: nat)
    requires x < |was|
    ensures FilledRow(r, color, width, y, was)[x]
         == if x < width && x - r.x >= 0 && y - r.y >= 0 && x - r.x < r.width && y - r.y < r.height then color
            else was[x]
  {
  }
}
