/**
 * The integer raster operations of src/image_procs.rs: the in-place
 * per-pixel filters (`to_n_val_channels`, `add`, `pinkize`), the frame of
 * `to_mc_pic`, and the fresh-buffer rescalers `upscale` and `downscale`.
 *
 * An image is an `array2<Rgb>` indexed `[x, y]` as `get_pixel(x, y)` is:
 * `Length0` is the width, `Length1` the height.
 */
module Filters {
  import opened Convs

  // ---------------------------------------------------------------------
  // Per-pixel functions

  /** The quantisation step of `to_n_val_channels`: `255 / n`. */
  function Step(n: byte): (s: byte)
    requires n > 0
    ensures 1 <= s && s * n <= 255 < (s + 1) * n
  {
    255 / n
  }

  /**
   * One channel of `to_n_val_channels`: `(p / s) * s`. The source divides in
   * f32, which is exact for two bytes, so truncating integer division is the
   * same; the product never exceeds `p` and so never overflows a byte.
   */
  function Quantise(p: byte, s: byte): (q: byte)
    requires s > 0
    ensures q <= p && p < q + s
  {
    Fundamental(p, s);
    (p / s) * s
  }

  /** The quantised value is a multiple of the step, so quantising again changes nothing. */
  lemma {:induction false} QuantiseIdempotent(p: byte, s: byte)
    requires s > 0
    ensures Quantise(p, s) % s == 0
    ensures Quantise(Quantise(p, s), s) == Quantise(p, s)
  {
    DivUnique(Quantise(p, s), s, p / s, 0);
  }

  // Facts about truncating division used by the scaling code.

  lemma Fundamental(p: int, s: int)
    requires s > 0
    ensures p == (p / s) * s + p % s && 0 <= p % s < s
  {
  }

  lemma MulMono(a: int, b: int, k: nat)
    requires a <= b
    ensures a * k <= b * k
  {
  }

  lemma DivUnique(a: int, s: int, q: int, r: int)
    requires s > 0 && a == q * s + r && 0 <= r < s
    ensures a / s == q && a % s == r
  {
    Fundamental(a, s);
    assert (q + 1) * s == q * s + s;
    assert (a / s + 1) * s == (a / s) * s + s;
  }

  lemma DivBelow(j: nat, k: nat, x: nat)
    requires k > 0 && j < x * k
    ensures j / k < x
  {
    Fundamental(j, k);
    if j / k >= x {
      MulMono(x, j / k, k);
    }
  }

  lemma SampledBelow(c: nat, k: nat, x: nat)
    requires k > 0 && c * k < x
    ensures c < x / k + 1
  {
    Fundamental(x, k);
    assert (x / k + 1) * k == (x / k) * k + k;
    if c >= x / k + 1 {
      MulMono(x / k + 1, c, k);
    }
  }

  function QuantisePixel(p: Rgb, s: byte): (q: Rgb)
    requires s > 0
    ensures forall i :: 0 <= i < 3 ==> q.Chan(i) == Quantise(p.Chan(i), s)
  {
    Rgb(Quantise(p.r, s), Quantise(p.g, s), Quantise(p.b, s))
  }

  function Max3(a: byte, b: byte, c: byte): byte
  {
    if c >= (if a >= b then a else b) then c else if a >= b then a else b
  }

  function Min3(a: byte, b: byte, c: byte): byte
  {
    if c <= (if a <= b then a else b) then c else if a <= b then a else b
  }

  /**
   * One pixel of `pinkize`: red becomes the largest channel, green the
   * smallest, blue `(max as f32 * 0.8) as u8`, which for a byte is
   * `4 * max / 5`.
   */
  function Pink(p: Rgb): (q: Rgb)
    ensures q.r >= p.r && q.r >= p.g && q.r >= p.b
    ensures q.r == p.r || q.r == p.g || q.r == p.b
    ensures q.g <= p.r && q.g <= p.g && q.g <= p.b
    ensures q.g == p.r || q.g == p.g || q.g == p.b
    ensures q.b <= q.r
  {
    var hi := Max3(p.r, p.g, p.b);
    Rgb(hi, Min3(p.r, p.g, p.b), (hi * 4) / 5)
  }

  /** `pinkize` forgets the order of the channels. */
  lemma PinkIgnoresOrder(p: Rgb)
    ensures Pink(p) == Pink(Rgb(p.g, p.b, p.r)) == Pink(Rgb(p.b, p.r, p.g))
    ensures Pink(p) == Pink(Rgb(p.g, p.r, p.b))
  {
  }

  /** A grey pixel keeps its red and green level under `pinkize`. */
  lemma PinkOfGrey(n: byte)
    ensures Pink(U8ToRgb(n)).r == n && Pink(U8ToRgb(n)).g == n
  {
  }

  // ---------------------------------------------------------------------
  // In-place filters

  /** `to_n_val_channels`: every channel snapped down to a multiple of `255 / n`. */
  method ToNValChannels(img: array2<Rgb>, n: byte)
    requires n > 0
    modifies img
    ensures forall j, i :: 0 <= j < img.Length0 && 0 <= i < img.Length1 ==>
      img[j, i] == QuantisePixel(old(img[j, i]), Step(n))
  {
    var s := Step(n);
    var x, y := img.Length0, img.Length1;
    for i := 0 to y
      invariant forall j', i' :: 0 <= j' < x && 0 <= i' < y ==>
        img[j', i'] == if i' < i then QuantisePixel(old(img[j', i']), s) else old(img[j', i'])
    {
      for j := 0 to x
        invariant forall j', i' :: 0 <= j' < x && 0 <= i' < y ==>
          img[j', i'] == if i' < i || (i' == i && j' < j) then QuantisePixel(old(img[j', i']), s) else old(img[j', i'])
      {
        img[j, i] := QuantisePixel(img[j, i], s);
      }
    }
  }

  /** `add`: every pixel saturating-added to `color`. */
  method Add(img: array2<Rgb>, color: Rgb)
    modifies img
    ensures forall j, i :: 0 <= j < img.Length0 && 0 <= i < img.Length1 ==>
      img[j, i] == RgbAdd(old(img[j, i]), color)
  {
    var x, y := img.Length0, img.Length1;
    for i := 0 to y
      invariant forall j', i' :: 0 <= j' < x && 0 <= i' < y ==>
        img[j', i'] == if i' < i then RgbAdd(old(img[j', i']), color) else old(img[j', i'])
    {
      for j := 0 to x
        invariant forall j', i' :: 0 <= j' < x && 0 <= i' < y ==>
          img[j', i'] == if i' < i || (i' == i && j' < j) then RgbAdd(old(img[j', i']), color) else old(img[j', i'])
      {
        img[j, i] := RgbAdd(img[j, i], color);
      }
    }
  }

  /** `pinkize`: every pixel replaced by `Pink` of itself. */
  method Pinkize(img: array2<Rgb>)
    modifies img
    ensures forall j, i :: 0 <= j < img.Length0 && 0 <= i < img.Length1 ==>
      img[j, i] == Pink(old(img[j, i]))
  {
    var x, y := img.Length0, img.Length1;
    for i := 0 to y
      invariant forall j', i' :: 0 <= j' < x && 0 <= i' < y ==>
        img[j', i'] == if i' < i then Pink(old(img[j', i'])) else old(img[j', i'])
    {
      for j := 0 to x
        invariant forall j', i' :: 0 <= j' < x && 0 <= i' < y ==>
          img[j', i'] == if i' < i || (i' == i && j' < j) then Pink(old(img[j', i'])) else old(img[j', i'])
      {
        img[j, i] := Pink(img[j, i]);
      }
    }
  }

  // ---------------------------------------------------------------------
  // The frame of `to_mc_pic`

  /**
   * The pixels `to_mc_pic` paints: in every row but the last, the first and
   * last `width` columns; in every column but the last, the first and last
   * `width` rows.
   */
  predicate InFrame(j: int, i: int, x: int, y: int, width: int)
  {
    (i < y - 1 && (j < width || j >= x - width)) ||
    (j < x - 1 && (i < width || i >= y - width))
  }

  /** The bottom-right pixel is never painted. */
  lemma FrameSparesCorner(x: int, y: int, width: int)
    requires 1 <= x && 1 <= y
    ensures !InFrame(x - 1, y - 1, x, y, width)
  {
  }

  /** With a frame at least one pixel wide, the rest of the border is painted. */
  lemma FrameCoversBorder(j: int, i: int, x: int, y: int, width: int)
    requires 1 <= width && 0 <= j < x && 0 <= i < y
    requires j == 0 || i == 0 || j == x - 1 || i == y - 1
    requires !(j == x - 1 && i == y - 1)
    ensures InFrame(j, i, x, y, width)
  {
  }

  /** Pixels further than `width` from every edge are never painted. */
  lemma FrameLeavesInterior(j: int, i: int, x: int, y: int, width: int)
    requires width <= j < x - width && width <= i < y - width
    ensures !InFrame(j, i, x, y, width)
  {
  }

  /**
   * `to_mc_pic`: paint a frame `width` pixels wide in `frameColor`. The
   * source computes `x - 1` and `y - 1` in u32, so both dimensions must be
   * at least 1. The row loop runs only when `y >= 2`, and it writes
   * columns `w` and `x - 1 - w`, so it needs `width <= x`. The column loop
   * runs only when `x >= 2`, and it writes rows `w` and `y - 1 - w`, so it
   * needs `width <= y`.
   */
  method ToMcPic(img: array2<Rgb>, width: nat, frameColor: Rgb)
    requires 1 <= img.Length0 && 1 <= img.Length1
    requires img.Length1 >= 2 ==> width <= img.Length0
    requires img.Length0 >= 2 ==> width <= img.Length1
    modifies img
    ensures forall j, i :: 0 <= j < img.Length0 && 0 <= i < img.Length1 ==>
      img[j, i] == if InFrame(j, i, img.Length0, img.Length1, width) then frameColor else old(img[j, i])
  {
    var x, y := img.Length0, img.Length1;
    for i := 0 to y - 1
      invariant forall j', i' :: 0 <= j' < x && 0 <= i' < y ==>
        img[j', i'] == if i' < i && (j' < width || j' >= x - width) then frameColor else old(img[j', i'])
    {
      for w := 0 to width
        invariant forall j', i' :: 0 <= j' < x && 0 <= i' < y ==>
          img[j', i'] == if (i' < i && (j' < width || j' >= x - width)) || (i' == i && (j' < w || j' >= x - w))
                         then frameColor else old(img[j', i'])
      {
        img[0 + w, i] := frameColor;
        img[x - 1 - w, i] := frameColor;
      }
    }
    for j := 0 to x - 1
      invariant forall j', i' :: 0 <= j' < x && 0 <= i' < y ==>
        img[j', i'] == if (i' < y - 1 && (j' < width || j' >= x - width)) || (j' < j && (i' < width || i' >= y - width))
                       then frameColor else old(img[j', i'])
    {
      for w := 0 to width
        invariant forall j', i' :: 0 <= j' < x && 0 <= i' < y ==>
          img[j', i'] == if (i' < y - 1 && (j' < width || j' >= x - width)) || (j' < j && (i' < width || i' >= y - width))
                            || (j' == j && (i' < w || i' >= y - w))
                         then frameColor else old(img[j', i'])
      {
        img[j, 0 + w] := frameColor;
        img[j, y - 1 - w] := frameColor;
      }
    }
  }

  // ---------------------------------------------------------------------
  // Rescaling into a fresh buffer

  /** Every position of a `k`-fold enlargement maps back into the source. */
  lemma EnlargedMapsBack(w: nat, x: nat, k: nat)
    requires k > 0 && w == x * k
    ensures forall j :: 0 <= j < w ==> j / k < x
  {
    forall j | 0 <= j < w ensures j / k < x {
      DivBelow(j, k, x);
    }
  }

  /** `upscale`: each source pixel becomes a `k` by `k` block. */
  method Upscale(img: array2<Rgb>, k: nat) returns (nimg: array2<Rgb>)
    ensures fresh(nimg)
    ensures nimg.Length0 == img.Length0 * k && nimg.Length1 == img.Length1 * k
    ensures forall j, i :: 0 <= j < nimg.Length0 && 0 <= i < nimg.Length1 ==>
      j / k < img.Length0 && i / k < img.Length1 && nimg[j, i] == img[j / k, i / k]
  {
    var x, y := img.Length0, img.Length1;
    nimg := new Rgb[x * k, y * k]((j, i) => Black);
    if k > 0 {
      EnlargedMapsBack(nimg.Length0, x, k);
      EnlargedMapsBack(nimg.Length1, y, k);
      FillEnlarged(img, nimg, k);
    }
  }

  /** The two loops of `upscale` over the freshly allocated image. */
  method FillEnlarged(img: array2<Rgb>, nimg: array2<Rgb>, k: nat)
    requires k > 0 && nimg != img
    requires forall j :: 0 <= j < nimg.Length0 ==> j / k < img.Length0
    requires forall i :: 0 <= i < nimg.Length1 ==> i / k < img.Length1
    modifies nimg
    ensures forall j, i :: 0 <= j < nimg.Length0 && 0 <= i < nimg.Length1 ==> nimg[j, i] == img[j / k, i / k]
  {
    for i := 0 to nimg.Length1
      invariant forall j', i' :: 0 <= j' < nimg.Length0 && 0 <= i' < i ==> nimg[j', i'] == img[j' / k, i' / k]
    {
      UpscaleRow(img, nimg, k, i, i / k);
    }
  }

  /** The inner loop of `upscale`: fill row `i` of the enlarged image from source row `si`. */
  method UpscaleRow(img: array2<Rgb>, nimg: array2<Rgb>, k: nat, i: nat, si: nat)
    requires nimg != img && k > 0 && i < nimg.Length1 && si < img.Length1
    requires forall j :: 0 <= j < nimg.Length0 ==> j / k < img.Length0
    modifies nimg
    ensures forall j :: 0 <= j < nimg.Length0 ==> nimg[j, i] == img[j / k, si]
    ensures forall j, i' :: 0 <= j < nimg.Length0 && 0 <= i' < nimg.Length1 && i' != i ==>
      nimg[j, i'] == old(nimg[j, i'])
  {
    for j := 0 to nimg.Length0
      invariant forall j' :: 0 <= j' < j ==> nimg[j', i] == img[j' / k, si]
      invariant forall j', i' :: 0 <= j' < nimg.Length0 && 0 <= i' < nimg.Length1 && i' != i ==>
        nimg[j', i'] == old(nimg[j', i'])
    {
      var sj := j / k;
      nimg[j, i] := img[sj, si];
    }
  }

  /** Once `n` steps of `k` reach `bound`, every multiple of `k` below `bound` was visited. */
  lemma StepsCover(n: nat, k: nat, bound: nat)
    requires k > 0 && n * k >= bound
    ensures forall c: nat :: c * k < bound ==> c < n
  {
    forall c: nat | c * k < bound ensures c < n {
      if c >= n { MulMono(n, c, k); }
    }
  }

  /**
   * `downscale`: keep every `k`-th pixel of every `k`-th row. The result is
   * `x / k + 1` by `y / k + 1`; positions that sample nothing stay black.
   */
  method Downscale(img: array2<Rgb>, k: nat) returns (nimg: array2<Rgb>)
    requires k > 0
    ensures fresh(nimg)
    ensures nimg.Length0 == img.Length0 / k + 1 && nimg.Length1 == img.Length1 / k + 1
    ensures forall jc, ic :: 0 <= jc < nimg.Length0 && 0 <= ic < nimg.Length1 ==>
      nimg[jc, ic] == if jc * k < img.Length0 && ic * k < img.Length1 then img[jc * k, ic * k] else Black
  {
    var x, y := img.Length0, img.Length1;
    nimg := new Rgb[x / k + 1, y / k + 1]((j, i) => Black);
    var ic: nat := 0;
    var i: nat := 0;
    while i < y
      invariant i == ic * k && nimg != img
      invariant nimg.Length0 == x / k + 1 && nimg.Length1 == y / k + 1
      invariant forall jc, ic' :: 0 <= jc < nimg.Length0 && 0 <= ic' < nimg.Length1 ==>
        nimg[jc, ic'] == if jc * k < x && ic' * k < y && ic' < ic then img[jc * k, ic' * k] else Black
    {
      DownscaleRow(img, nimg, k, ic, i);
      ic := ic + 1;
      i := i + k;
    }
    StepsCover(ic, k, y);
  }

  /** The inner loop of `downscale`: sample row `i = ic * k` into row `ic`. */
  method DownscaleRow(img: array2<Rgb>, nimg: array2<Rgb>, k: nat, ic: nat, i: nat)
    requires k > 0 && nimg != img && i == ic * k && i < img.Length1
    requires nimg.Length0 == img.Length0 / k + 1 && nimg.Length1 == img.Length1 / k + 1
    modifies nimg
    ensures ic < nimg.Length1
    ensures forall jc, ic' :: 0 <= jc < nimg.Length0 && 0 <= ic' < nimg.Length1 ==>
      nimg[jc, ic'] == if ic' == ic && jc * k < img.Length0 then img[jc * k, i] else old(nimg[jc, ic'])
  {
    var x := img.Length0;
    SampledBelow(ic, k, img.Length1);
    var jc: nat := 0;
    var j: nat := 0;
    while j < x
      invariant j == jc * k
      invariant forall jc', ic' :: 0 <= jc' < nimg.Length0 && 0 <= ic' < nimg.Length1 ==>
        nimg[jc', ic'] == if ic' == ic && jc' < jc && jc' * k < x then img[jc' * k, i] else old(nimg[jc', ic'])
    {
      SampledBelow(jc, k, x);
      nimg[jc, ic] := img[j, i];
      jc := jc + 1;
      j := j + k;
    }
    StepsCover(jc, k, x);
  }
}
