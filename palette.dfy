/**
 * Colour matching and palettes of src/image_procs.rs: `measure_equal`, the
 * in-place recolouring `edit_color`, the palette extraction `to_colors` and
 * the nearest-palette-entry choice `closest_color`.
 */
module Palette {
  import opened Convs

  // ---------------------------------------------------------------------
  // measure_equal and edit_color

  /** `measure_equal`: every channel of `two` lies within `measure` of `one`. */
  predicate MeasureEqual(one: Rgb, two: Rgb, measure: int)
  {
    forall i :: 0 <= i < 3 ==> Dist(two.Chan(i), one.Chan(i)) <= measure
  }

  /** The tolerance test is symmetric; it holds of a colour and itself iff the tolerance is not negative. */
  lemma MeasureEqualSymmetric(one: Rgb, two: Rgb, measure: int)
    ensures MeasureEqual(one, two, measure) == MeasureEqual(two, one, measure)
    ensures MeasureEqual(one, one, measure) <==> measure >= 0
  {
    assert Dist(one.Chan(0), one.Chan(0)) == 0;
  }

  /** Tolerance 0 is colour equality; tolerance 255 accepts everything. */
  lemma MeasureEqualExtremes(one: Rgb, two: Rgb)
    ensures MeasureEqual(one, two, 0) <==> one == two
    ensures MeasureEqual(one, two, 255)
  {
    if MeasureEqual(one, two, 0) {
      assert Dist(two.Chan(0), one.Chan(0)) <= 0;
      assert Dist(two.Chan(1), one.Chan(1)) <= 0;
      assert Dist(two.Chan(2), one.Chan(2)) <= 0;
    }
  }

  /**
   * What `edit_color` does to one pixel: the list holds (source, target)
   * pairs; each pair in order replaces the CURRENT pixel by its target when
   * the pixel is within `measure` of its source.
   */
  function EditPixel(p: Rgb, colors: seq<Rgb>, measure: int): Rgb
    requires |colors| % 2 == 0
    decreases |colors|
  {
    if colors == [] then p
    else
      var q := EditPixel(p, colors[..|colors| - 2], measure);
      if MeasureEqual(colors[|colors| - 2], q, measure) then colors[|colors| - 1] else q
  }

  /** A pixel that matches no source colour is left as it is. */
  lemma {:induction false} EditNoMatch(p: Rgb, colors: seq<Rgb>, measure: int)
    requires |colors| % 2 == 0
    requires forall k :: 0 <= k < |colors| && k % 2 == 0 ==> !MeasureEqual(colors[k], p, measure)
    ensures EditPixel(p, colors, measure) == p
    decreases |colors|
  {
    if colors != [] {
      var front := colors[..|colors| - 2];
      forall k | 0 <= k < |front| && k % 2 == 0 ensures !MeasureEqual(front[k], p, measure) {
        assert front[k] == colors[k];
      }
      EditNoMatch(p, front, measure);
    }
  }

  /** The edited pixel is the original or the target of some pair. */
  lemma {:induction false} EditResultIsTarget(p: Rgb, colors: seq<Rgb>, measure: int)
    requires |colors| % 2 == 0
    ensures EditPixel(p, colors, measure) == p ||
            exists k :: 0 <= k < |colors| && k % 2 == 1 && EditPixel(p, colors, measure) == colors[k]
    decreases |colors|
  {
    if colors != [] {
      var front := colors[..|colors| - 2];
      EditResultIsTarget(p, front, measure);
      var q := EditPixel(p, front, measure);
      if MeasureEqual(colors[|colors| - 2], q, measure) {
        assert EditPixel(p, colors, measure) == colors[|colors| - 1];
      } else if q != p {
        var k :| 0 <= k < |front| && k % 2 == 1 && q == front[k];
        assert colors[k] == front[k];
      }
    }
  }

  /** Applying two lists of pairs in turn is applying their concatenation. */
  lemma {:induction false} EditSequential(p: Rgb, first: seq<Rgb>, second: seq<Rgb>, measure: int)
    requires |first| % 2 == 0 && |second| % 2 == 0
    ensures EditPixel(p, first + second, measure) == EditPixel(EditPixel(p, first, measure), second, measure)
    decreases |second|
  {
    if second == [] {
      assert first + second == first;
    } else {
      var all := first + second;
      assert all[..|all| - 2] == first + second[..|second| - 2];
      EditSequential(p, first, second[..|second| - 2], measure);
    }
  }

  /**
   * `edit_color`: recolour every pixel with `EditPixel`. The source indexes
   * `colors[k + 1]` for every even `k`, so the list must hold whole pairs.
   */
  method EditColor(img: array2<Rgb>, colors: seq<Rgb>, measure: int)
    requires |colors| % 2 == 0
    modifies img
    ensures forall j, i :: 0 <= j < img.Length0 && 0 <= i < img.Length1 ==>
      img[j, i] == EditPixel(old(img[j, i]), colors, measure)
  {
    var x, y := img.Length0, img.Length1;
    for i := 0 to y
      invariant forall j', i' :: 0 <= j' < x && 0 <= i' < y ==>
        img[j', i'] == if i' < i then EditPixel(old(img[j', i']), colors, measure) else old(img[j', i'])
    {
      for j := 0 to x
        invariant forall j', i' :: 0 <= j' < x && 0 <= i' < y ==>
          img[j', i'] == if i' < i || (i' == i && j' < j) then EditPixel(old(img[j', i']), colors, measure) else old(img[j', i'])
      {
        EditOnePixel(img, j, i, colors, measure);
      }
    }
  }

  /** The innermost loop of `edit_color`: run through the pairs on pixel (j, i). */
  method EditOnePixel(img: array2<Rgb>, j: nat, i: nat, colors: seq<Rgb>, measure: int)
    requires j < img.Length0 && i < img.Length1 && |colors| % 2 == 0
    modifies img
    ensures img[j, i] == EditPixel(old(img[j, i]), colors, measure)
    ensures forall j', i' :: 0 <= j' < img.Length0 && 0 <= i' < img.Length1 && (j', i') != (j, i) ==>
      img[j', i'] == old(img[j', i'])
  {
    var k := 0;
    while k < |colors|
      invariant 0 <= k <= |colors| && k % 2 == 0
      invariant img[j, i] == EditPixel(old(img[j, i]), colors[..k], measure)
      invariant forall j', i' :: 0 <= j' < img.Length0 && 0 <= i' < img.Length1 && (j', i') != (j, i) ==>
        img[j', i'] == old(img[j', i'])
    {
      assert colors[..k + 2][..k] == colors[..k];
      if MeasureEqual(colors[k], img[j, i], measure) {
        img[j, i] := colors[k + 1];
      }
      k := k + 2;
    }
    assert colors[..k] == colors;
  }

  // ---------------------------------------------------------------------
  // to_colors

  predicate NoDup<T(==)>(s: seq<T>)
  {
    forall p, q :: 0 <= p < q < |s| ==> s[p] != s[q]
  }

  /** The distinct elements of `s`, each kept at its first appearance. */
  function Dedup(s: seq<Arr3>): (r: seq<Arr3>)
    ensures NoDup(r)
    ensures forall c :: c in r <==> c in s
  {
    if s == [] then []
    else
      var d := Dedup(s[..|s| - 1]);
      assert s == s[..|s| - 1] + [s[|s| - 1]];
      if s[|s| - 1] in d then d else d + [s[|s| - 1]]
  }

  lemma DedupSnoc(s: seq<Arr3>, c: Arr3)
    ensures Dedup(s + [c]) == if c in Dedup(s) then Dedup(s) else Dedup(s) + [c]
  {
    assert (s + [c])[..|s|] == s;
  }

  /** Index of the first occurrence of `c` in `s`. */
  function FirstIndex<T(==)>(s: seq<T>, c: T): (k: nat)
    requires c in s
    ensures k < |s| && s[k] == c && forall m :: 0 <= m < k ==> s[m] != c
  {
    if s[0] == c then 0 else 1 + FirstIndex(s[1..], c)
  }

  lemma FirstIndexExtend(s: seq<Arr3>, c: Arr3, e: Arr3)
    requires c in s
    ensures FirstIndex(s + [e], c) == FirstIndex(s, c)
  {
    var k := FirstIndex(s, c);
    var k' := FirstIndex(s + [e], c);
    assert (s + [e])[k] == c;
  }

  /** `Dedup` keeps the order of first appearance. */
  lemma {:induction false} DedupOrder(s: seq<Arr3>, p: nat, q: nat)
    requires p < q < |Dedup(s)|
    ensures FirstIndex(s, Dedup(s)[p]) < FirstIndex(s, Dedup(s)[q])
    decreases |s|
  {
    var front, e := s[..|s| - 1], s[|s| - 1];
    assert s == front + [e];
    var d := Dedup(front);
    var r := Dedup(s);
    if e in d {
      assert r == d;
      DedupOrder(front, p, q);
      FirstIndexExtend(front, r[p], e);
      FirstIndexExtend(front, r[q], e);
    } else {
      assert r == d + [e];
      FirstIndexExtend(front, r[p], e);
      if q < |d| {
        DedupOrder(front, p, q);
        FirstIndexExtend(front, r[q], e);
      } else {
        assert r[q] == e && e !in front;
        var fq := FirstIndex(s, e);
        assert fq == |front|;
      }
    }
  }

  /** The pixels of row `i`, columns `0 .. n`, as `[i32; 3]`. */
  ghost function RowColours(img: array2<Rgb>, i: nat, n: nat): (s: seq<Arr3>)
    reads img
    requires i < img.Length1 && n <= img.Length0
    ensures |s| == n
  {
    if n == 0 then [] else RowColours(img, i, n - 1) + [RgbToArr(img[n - 1, i])]
  }

  /** The pixels of rows `0 .. i` in row-major order, as `[i32; 3]`. */
  ghost function ScanColours(img: array2<Rgb>, i: nat): seq<Arr3>
    reads img
    requires i <= img.Length1
  {
    if i == 0 then [] else ScanColours(img, i - 1) + RowColours(img, i - 1, img.Length0)
  }

  lemma {:induction false} RowColoursHold(img: array2<Rgb>, i: nat, n: nat, j: nat)
    requires i < img.Length1 && j < n <= img.Length0
    ensures RowColours(img, i, n)[j] == RgbToArr(img[j, i])
    decreases n
  {
    if j < n - 1 {
      RowColoursHold(img, i, n - 1, j);
    }
  }

  /** A colour is in the row-major scan iff some pixel has it. */
  lemma {:induction false} ScanColoursHold(img: array2<Rgb>, i: nat, c: Arr3)
    requires i <= img.Length1
    ensures c in ScanColours(img, i) <==>
      exists j', i' :: 0 <= j' < img.Length0 && 0 <= i' < i && c == RgbToArr(img[j', i'])
    decreases i
  {
    if i > 0 {
      ScanColoursHold(img, i - 1, c);
      var row := RowColours(img, i - 1, img.Length0);
      if c in row {
        var j' :| 0 <= j' < |row| && row[j'] == c;
        RowColoursHold(img, i - 1, img.Length0, j');
      }
      var r := i - 1;
      if exists j' :: 0 <= j' < img.Length0 && c == RgbToArr(img[j', r]) {
        var j' :| 0 <= j' < img.Length0 && c == RgbToArr(img[j', r]);
        RowColoursHold(img, r, img.Length0, j');
        assert row[j'] == c;
      }
    }
  }

  /**
   * `to_colors`: the distinct pixel colours in row-major order of first
   * appearance. Only reads the image.
   */
  method ToColors(img: array2<Rgb>) returns (colors: seq<Arr3>)
    ensures colors == Dedup(ScanColours(img, img.Length1))
    ensures NoDup(colors)
    ensures forall c :: c in colors <==>
      exists j, i :: 0 <= j < img.Length0 && 0 <= i < img.Length1 && c == RgbToArr(img[j, i])
  {
    var x, y := img.Length0, img.Length1;
    colors := [];
    for i := 0 to y
      invariant colors == Dedup(ScanColours(img, i))
    {
      assert ScanColours(img, i) + RowColours(img, i, 0) == ScanColours(img, i);
      for j := 0 to x
        invariant colors == Dedup(ScanColours(img, i) + RowColours(img, i, j))
      {
        var color := RgbToArr(img[j, i]);
        ghost var seen := ScanColours(img, i) + RowColours(img, i, j);
        assert ScanColours(img, i) + RowColours(img, i, j + 1) == seen + [color];
        DedupSnoc(seen, color);
        if color !in colors {
          colors := colors + [color];
        }
      }
    }
    forall c ensures c in colors <==>
      exists j, i :: 0 <= j < x && 0 <= i < y && c == RgbToArr(img[j, i])
    {
      ScanColoursHold(img, y, c);
    }
  }

  // ---------------------------------------------------------------------
  // closest_color

  /** Rust `u16`, the type of `rgb_dist`. */
  type u16 = x: int | 0 <= x < 0x1_0000

  /** `k` is the first index of `pal` at minimal distance to `to`. */
  ghost predicate IsFirstMin(pal: seq<Arr3>, to: Arr3, dist: (Arr3, Arr3) -> u16, k: int)
  {
    0 <= k < |pal| &&
    (forall m :: 0 <= m < |pal| ==> dist(pal[k], to) <= dist(pal[m], to)) &&
    (forall m :: 0 <= m < k ==> dist(pal[m], to) > dist(pal[k], to))
  }

  /** There is at most one first minimum. */
  lemma FirstMinUnique(pal: seq<Arr3>, to: Arr3, dist: (Arr3, Arr3) -> u16, k: int, k': int)
    requires IsFirstMin(pal, to, dist, k) && IsFirstMin(pal, to, dist, k')
    ensures k == k'
  {
    assert dist(pal[k], to) == dist(pal[k'], to);
  }

  /**
   * `closest_color`: the palette entry nearest to `colorTo` (the first one
   * on a tie), each channel clamped to a byte. `rgb_dist`, an f32 square
   * root truncated to u16, is the parameter `dist`. The source reads
   * `colors_from[0]` after the loop, so the palette must not be empty.
   */
  method ClosestColor(colorsFrom: seq<Arr3>, colorTo: Arr3, dist: (Arr3, Arr3) -> u16) returns (c: Rgb)
    requires |colorsFrom| > 0
    ensures exists k :: IsFirstMin(colorsFrom, colorTo, dist, k) && c == ArrToRgb(colorsFrom[k])
  {
    var mindist: u16 := 65535;
    var colorIndex: nat := 0;
    for ci := 0 to |colorsFrom|
      invariant colorIndex < |colorsFrom|
      invariant forall m :: 0 <= m < ci ==> mindist <= dist(colorsFrom[m], colorTo)
      invariant mindist < 65535 ==>
        colorIndex < ci && dist(colorsFrom[colorIndex], colorTo) == mindist &&
        forall m :: 0 <= m < colorIndex ==> dist(colorsFrom[m], colorTo) > mindist
      invariant mindist == 65535 ==> colorIndex == 0
    {
      var d := dist(colorsFrom[ci], colorTo);
      if d < mindist {
        mindist := d;
        colorIndex := ci;
      }
    }
    c := ArrToRgb(colorsFrom[colorIndex]);
    assert IsFirstMin(colorsFrom, colorTo, dist, colorIndex);
  }
}
