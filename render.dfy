/**
 * Render bookkeeping (src/lib.rs): naming screen sizes, splitting the
 * image into horizontal bands, one per thread, and each band into square
 * blocks of `quality` pixels that share one colour.  The colour of a block
 * (colour_pixel at the block's corner) is a parameter; threads, the
 * cancel flag and the progress mutex are not modelled.
 */
module Render {
  import opened Strings
  import opened LayerRules

  /** The number of render threads. */
  const THREADS: nat := 12

  datatype ScreenDimensions = ScreenDimensions(x: nat, y: nat)

  const DIMS_1080P := ScreenDimensions(1920, 1080)
  const DIMS_4K := ScreenDimensions(3840, 2160)
  const DIMS_8K := ScreenDimensions(7680, 4320)

  /** "W" + "x" + "H" in decimal. */
  function SizeString(d: ScreenDimensions): (s: string)
    ensures 'x' in s
  {
    NatToString(d.x) + "x" + NatToString(d.y)
  }

  /** as_string: the three preset sizes by name, any other size as WxH. */
  function AsString(d: ScreenDimensions): (s: string)
    ensures d == DIMS_1080P ==> s == "1080p"
    ensures d == DIMS_4K ==> s == "4k"
    ensures d == DIMS_8K ==> s == "8k"
    ensures d !in {DIMS_1080P, DIMS_4K, DIMS_8K} ==> s == SizeString(d)
  {
    if d == DIMS_1080P then "1080p"
    else if d == DIMS_4K then "4k"
    else if d == DIMS_8K then "8k"
    else SizeString(d)
  }

  /** The width can be read back from a WxH string: it is everything before the 'x'. */
  lemma {:induction false} SizeStringSplits(d: ScreenDimensions)
    ensures var s := SizeString(d); var w := NatToString(d.x);
      |w| < |s| && s[..|w|] == w && s[|w|] == 'x' && s[|w| + 1..] == NatToString(d.y) && 'x' !in w
  {
    var w := NatToString(d.x);
    assert forall k :: 0 <= k < |w| ==> w[k] != 'x';
  }

  /** Different sizes get different names. */
  lemma AsStringInjective(d: ScreenDimensions, e: ScreenDimensions)
    requires AsString(d) == AsString(e)
    ensures d == e
  {
    var s := AsString(d);
    if d in {DIMS_1080P, DIMS_4K, DIMS_8K} || e in {DIMS_1080P, DIMS_4K, DIMS_8K} {
      assert 'x' !in "1080p" && 'x' !in "4k" && 'x' !in "8k";
    } else {
      SizeStringSplits(d);
      SizeStringSplits(e);
      var wd, we := NatToString(d.x), NatToString(e.x);
      assert |wd| == |we|;
      assert wd == s[..|wd|] == we;
      NatStringInjective(d.x, e.x);
      NatStringInjective(d.y, e.y);
    }
  }

  /** numpixels. */
  function NumPixels(d: ScreenDimensions): nat
  {
    d.x * d.y
  }

  // ---------------------------------------------------------------
  // blocks
  // ---------------------------------------------------------------

  /** ThreadSplitter: the index of the last block in each axis and the size of that last block. */
  datatype ThreadSplitter = ThreadSplitter(xExcess: nat, yExcess: nat, xEnd: nat, yEnd: nat)

  /** The split render_image makes of a band `width` wide and `threadHeight` high. */
  function Split(width: nat, threadHeight: nat, quality: nat): (s: ThreadSplitter)
    requires quality >= 1
    ensures s.xEnd * quality + s.xExcess == width && s.xExcess < quality
    ensures s.yEnd * quality + s.yExcess == threadHeight && s.yExcess < quality
  {
    ThreadSplitter(width % quality, threadHeight % quality, width / quality, threadHeight / quality)
  }

  /** set_pixels: every block is `quality` wide except the last, which takes the excess. */
  function BlockWidth(s: ThreadSplitter, quality: nat, x: nat): nat
  {
    if x == s.xEnd then s.xExcess else quality
  }

  function BlockHeight(s: ThreadSplitter, quality: nat, y: nat): nat
  {
    if y == s.yEnd then s.yExcess else quality
  }

  /** The columns the first blockX blocks cover. */
  function ColsBefore(s: ThreadSplitter, quality: nat, blockX: nat): nat
  {
    if blockX <= s.xEnd then blockX * quality else s.xEnd * quality + s.xExcess
  }

  function RowsBefore(s: ThreadSplitter, quality: nat, blockY: nat): nat
  {
    if blockY <= s.yEnd then blockY * quality else s.yEnd * quality + s.yExcess
  }

  /** The index of the block that pixel p falls in, counting blocks from `origin`. */
  function BlockOf(p: nat, origin: nat, quality: nat): nat
    requires quality >= 1
  {
    if p < origin then 0 else (p - origin) / quality
  }

  lemma BlockIndex(c: nat, quality: nat, b: nat)
    requires quality >= 1 && b * quality <= c < b * quality + quality
    ensures c / quality == b
  {
    var d := c / quality;
    assert c == d * quality + c % quality;
    MulMono(d + 1, b, quality);
    MulMono(b + 1, d, quality);
  }

  /**
   * set_pixels: paints one block in the block's colour and reports how
   * many pixels it wrote.
   */
  method SetPixels(image: array2<Color>, colour: Color, x: nat, y: nat, startY: nat, quality: nat,
                   s: ThreadSplitter) returns (count: nat)
    requires x * quality + BlockWidth(s, quality, x) <= image.Length0
    requires startY + y * quality + BlockHeight(s, quality, y) <= image.Length1
    modifies image
    ensures count == BlockWidth(s, quality, x) * BlockHeight(s, quality, y)
    ensures forall c, r :: 0 <= c < image.Length0 && 0 <= r < image.Length1 ==>
      image[c, r] == if x * quality <= c < x * quality + BlockWidth(s, quality, x) &&
                        startY + y * quality <= r < startY + y * quality + BlockHeight(s, quality, y)
                     then colour else old(image[c, r])
  {
    var width := BlockWidth(s, quality, x);
    var height := BlockHeight(s, quality, y);
    var left, top := x * quality, startY + y * quality;
    for i := 0 to width
      invariant forall c, r :: 0 <= c < image.Length0 && 0 <= r < image.Length1 ==>
        image[c, r] == if left <= c < left + i && top <= r < top + height then colour else old(image[c, r])
    {
      PaintPixelColumn(image, left + i, top, height, colour);
    }
    count := width * height;
  }

  /** set_pixels' inner loop: rows top .. top + height of column c0. */
  method PaintPixelColumn(image: array2<Color>, c0: nat, top: nat, height: nat, colour: Color)
    requires c0 < image.Length0 && top + height <= image.Length1
    modifies image
    ensures forall c, r :: 0 <= c < image.Length0 && 0 <= r < image.Length1 ==>
      image[c, r] == if c == c0 && top <= r < top + height then colour else old(image[c, r])
  {
    for j := 0 to height
      invariant forall c, r :: 0 <= c < image.Length0 && 0 <= r < image.Length1 ==>
        image[c, r] == if c == c0 && top <= r < top + j then colour else old(image[c, r])
    {
      image[c0, top + j] := colour;
    }
  }

  /** The blocks of column blockX, top to bottom (the inner loop of render_double). */
  method RenderColumn(image: array2<Color>, blockX: nat, startY: nat, quality: nat, s: ThreadSplitter,
                      colourOf: (nat, nat) -> Color) returns (count: nat)
    requires quality >= 1 && blockX <= s.xEnd && s.yExcess < quality
    requires blockX * quality + BlockWidth(s, quality, blockX) <= image.Length0
    requires startY + RowsBefore(s, quality, s.yEnd + 1) <= image.Length1
    modifies image
    ensures count == BlockWidth(s, quality, blockX) * RowsBefore(s, quality, s.yEnd + 1)
    ensures forall c, r :: 0 <= c < image.Length0 && 0 <= r < image.Length1 ==>
      image[c, r] == if blockX * quality <= c < blockX * quality + BlockWidth(s, quality, blockX) &&
                        startY <= r < startY + RowsBefore(s, quality, s.yEnd + 1)
                     then colourOf(blockX, BlockOf(r, startY, quality)) else old(image[c, r])
  {
    var w := BlockWidth(s, quality, blockX);
    ghost var top := 0;
    count := 0;
    for blockY := 0 to s.yEnd + 1
      invariant top == RowsBefore(s, quality, blockY) && count == w * top
      invariant forall c, r :: 0 <= c < image.Length0 && 0 <= r < image.Length1 ==>
        image[c, r] == if blockX * quality <= c < blockX * quality + w && startY <= r < startY + top
                       then colourOf(blockX, BlockOf(r, startY, quality)) else old(image[c, r])
    {
      RowsStep(s, quality, blockY, startY);
      var n := SetPixels(image, colourOf(blockX, blockY), blockX, blockY, startY, quality, s);
      MulAddRight(w, top, BlockHeight(s, quality, blockY));
      top := top + BlockHeight(s, quality, blockY);
      count := count + n;
    }
  }

  lemma MulAddRight(w: nat, a: nat, b: nat)
    ensures w * a + w * b == w * (a + b)
  {
  }

  /** The next block row covers the rows just below those already painted. */
  lemma RowsStep(s: ThreadSplitter, quality: nat, blockY: nat, startY: nat)
    requires quality >= 1 && blockY <= s.yEnd && s.yExcess < quality
    ensures blockY * quality == RowsBefore(s, quality, blockY)
    ensures RowsBefore(s, quality, blockY + 1) == RowsBefore(s, quality, blockY) + BlockHeight(s, quality, blockY)
    ensures RowsBefore(s, quality, blockY + 1) <= RowsBefore(s, quality, s.yEnd + 1)
    ensures forall r: nat :: startY + blockY * quality <= r < startY + blockY * quality + BlockHeight(s, quality, blockY) ==>
      BlockOf(r, startY, quality) == blockY
  {
    forall r: nat | startY + blockY * quality <= r < startY + blockY * quality + BlockHeight(s, quality, blockY)
      ensures BlockOf(r, startY, quality) == blockY
    {
      BlockIndex(r - startY, quality, blockY);
    }
    MulMono(blockY + 1, s.yEnd, quality);
  }

  /**
   * render_double's two loops for one thread: every pixel of the band is
   * painted with the colour of the block it falls in, nothing outside the
   * band changes, and the progress count grows by the band's area.
   */
  method RenderThread(image: array2<Color>, width: nat, startY: nat, threadHeight: nat, quality: nat,
                      colourOf: (nat, nat) -> Color) returns (progress: nat)
    requires quality >= 1
    requires width <= image.Length0 && startY + threadHeight <= image.Length1
    modifies image
    ensures progress == width * threadHeight
    ensures forall c, r :: 0 <= c < image.Length0 && 0 <= r < image.Length1 ==>
      image[c, r] == if c < width && startY <= r < startY + threadHeight
                     then colourOf(BlockOf(c, 0, quality), BlockOf(r, startY, quality)) else old(image[c, r])
  {
    var s := Split(width, threadHeight, quality);
    ghost var left := 0;
    progress := 0;
    for blockX := 0 to s.xEnd + 1
      invariant left == ColsBefore(s, quality, blockX) && progress == left * threadHeight
      invariant forall c, r :: 0 <= c < image.Length0 && 0 <= r < image.Length1 ==>
        image[c, r] == if c < left && startY <= r < startY + threadHeight
                       then colourOf(BlockOf(c, 0, quality), BlockOf(r, startY, quality)) else old(image[c, r])
    {
      ColsStep(s, quality, blockX, threadHeight);
      var n := RenderColumn(image, blockX, startY, quality, s, colourOf);
      left := left + BlockWidth(s, quality, blockX);
      progress := progress + n;
    }
  }

  /** The next block column covers the columns just right of those already painted. */
  lemma ColsStep(s: ThreadSplitter, quality: nat, blockX: nat, threadHeight: nat)
    requires quality >= 1 && blockX <= s.xEnd && s.xExcess < quality
    requires threadHeight == s.yEnd * quality + s.yExcess
    ensures blockX * quality == ColsBefore(s, quality, blockX)
    ensures ColsBefore(s, quality, blockX + 1) == ColsBefore(s, quality, blockX) + BlockWidth(s, quality, blockX)
    ensures ColsBefore(s, quality, blockX + 1) <= ColsBefore(s, quality, s.xEnd + 1)
    ensures RowsBefore(s, quality, s.yEnd + 1) == threadHeight
    ensures forall c: nat :: blockX * quality <= c < blockX * quality + BlockWidth(s, quality, blockX) ==>
      BlockOf(c, 0, quality) == blockX
  {
    forall c: nat | blockX * quality <= c < blockX * quality + BlockWidth(s, quality, blockX)
      ensures BlockOf(c, 0, quality) == blockX
    {
      BlockIndex(c, quality, blockX);
    }
    MulMono(blockX + 1, s.xEnd, quality);
  }

  // ---------------------------------------------------------------
  // bands
  // ---------------------------------------------------------------

  /** generate_given_image: every thread gets height / THREADS rows. */
  function ThreadHeight(height: nat): nat
  {
    height / THREADS
  }

  /** The first row of thread t's band. */
  function ThreadStart(height: nat, t: nat): nat
  {
    t * ThreadHeight(height)
  }

  /** Row r belongs to thread t's band. */
  predicate InBand(height: nat, t: nat, r: nat)
  {
    ThreadStart(height, t) <= r < ThreadStart(height, t) + ThreadHeight(height)
  }

  /**
   * The bands of different threads are disjoint, every row above
   * THREADS * (height / THREADS) lies in exactly the band r / thread height,
   * and the remaining height % THREADS rows at the bottom lie in none.
   */
  lemma BandsPartition(height: nat, r: nat)
    ensures forall t: nat, u: nat :: t < THREADS && u < THREADS && InBand(height, t, r) && InBand(height, u, r) ==> t == u
    ensures r < THREADS * ThreadHeight(height) ==>
      (ThreadHeight(height) > 0 && r / ThreadHeight(height) < THREADS && InBand(height, r / ThreadHeight(height), r))
    ensures r >= THREADS * ThreadHeight(height) ==> forall t: nat :: t < THREADS ==> !InBand(height, t, r)
  {
    var h := ThreadHeight(height);
    forall t: nat, u: nat | t < THREADS && u < THREADS && InBand(height, t, r) && InBand(height, u, r)
      ensures t == u
    {
      BandOrder(h, t, u, r);
      BandOrder(h, u, t, r);
    }
    if r < THREADS * h {
      BandOfRow(r, h);
    } else {
      forall t: nat | t < THREADS
        ensures !InBand(height, t, r)
      {
        MulMono(t + 1, THREADS, h);
      }
    }
  }

  /** Row r lies in the band of index r / h. */
  lemma BandOfRow(r: nat, h: nat)
    requires r < THREADS * h
    ensures h > 0 && r / h < THREADS && (r / h) * h <= r < (r / h) * h + h
  {
    assert h > 0;
    assert r == (r / h) * h + r % h;
    DivBelow(r, h, THREADS);
  }

  lemma BandOrder(h: nat, t: nat, u: nat, r: nat)
    ensures t < u && t * h <= r < t * h + h ==> !(u * h <= r)
  {
    MulMono(t + 1, u, h);
  }

  lemma MulMono(a: nat, b: nat, h: nat)
    ensures a <= b ==> a * h <= b * h
  {
  }

  lemma DivBelow(r: nat, h: nat, n: nat)
    requires h > 0 && r < n * h
    ensures r / h < n
  {
    if r / h >= n {
      MulMono(n, r / h, h);
    }
  }

  /** The threads together write THREADS * (height / THREADS) rows of the image. */
  lemma ThreadsCover(d: ScreenDimensions)
    ensures THREADS * (d.x * ThreadHeight(d.y)) == d.x * (d.y - d.y % THREADS)
    ensures d.y - d.y % THREADS > d.y - THREADS
  {
    assert d.y == THREADS * ThreadHeight(d.y) + d.y % THREADS;
  }
}
