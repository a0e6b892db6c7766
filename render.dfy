/**
 * The skeleton of `raytrace` in src/image_procs.rs: the pre-pass that
 * collects light objects, the nearest-hit selection of one bounce with the
 * source's `!=` on objects, and the raster loop that writes every pixel of
 * a `res[1]` by `res[0]` image once. Ray geometry and shading stay abstract:
 * the colour a primary ray brings back is a parameter.
 */
module Render {
  import opened Convs

  /** At most this many lights take part in shading. */
  const MaxLights: nat := 100

  // ---------------------------------------------------------------------
  // Light pre-pass

  /** All light-flagged objects, in scene order. */
  function LightObjects(objects: seq<Object>): (r: seq<Object>)
    ensures |r| <= |objects|
  {
    if objects == [] then []
    else
      var o := objects[|objects| - 1];
      LightObjects(objects[..|objects| - 1]) + if o.light then [o] else []
  }

  /** The first `n` elements, or all of them if there are fewer. */
  function FirstN<T>(s: seq<T>, n: nat): (r: seq<T>)
    ensures |r| == if |s| <= n then |s| else n
    ensures forall k :: 0 <= k < |r| ==> r[k] == s[k]
  {
    if |s| <= n then s else s[..n]
  }

  /** `LightObjects` keeps exactly the lights of the scene. */
  lemma {:induction false} LightObjectsExact(objects: seq<Object>)
    ensures forall o :: o in LightObjects(objects) <==> o in objects && o.light
  {
    if objects != [] {
      var front := objects[..|objects| - 1];
      LightObjectsExact(front);
      assert objects == front + [objects[|objects| - 1]];
    }
  }

  /** The light loop of `raytrace`: a light is kept while fewer than 100 are kept. */
  method CollectLights(objects: seq<Object>) returns (lights: seq<Object>)
    ensures lights == FirstN(LightObjects(objects), MaxLights)
    ensures |lights| <= MaxLights
    ensures forall k :: 0 <= k < |lights| ==> lights[k].light && lights[k] in objects
  {
    lights := [];
    for oi := 0 to |objects|
      invariant lights == FirstN(LightObjects(objects[..oi]), MaxLights)
    {
      assert objects[..oi + 1][..oi] == objects[..oi];
      if objects[oi].light && |lights| < MaxLights {
        lights := lights + [objects[oi]];
      }
    }
    assert objects[..|objects|] == objects;
    LightObjectsExact(objects);
  }

  // ---------------------------------------------------------------------
  // Nearest hit of one bounce

  /** The distance a bounce starts from; it stays put when nothing is hit. */
  const FarAway: real := 99999.0

  /**
   * A hit can be taken: it is not the null intersection, it is nearer than
   * the start distance and its object is `!=` the one the ray comes from
   * (the source's `!=`: different position and different kind).
   */
  predicate Eligible(pre: Intersection, last: Object)
  {
    pre.t != -1.0 && pre.t < FarAway && ObjNe(pre.hitObj, last)
  }

  /** Object `k` gives the first eligible hit of least distance. */
  ghost predicate IsFirstNearest(objects: seq<Object>, last: Object, hitOf: Object -> Intersection, k: int)
  {
    0 <= k < |objects| && Eligible(hitOf(objects[k]), last) &&
    (forall j :: 0 <= j < |objects| && Eligible(hitOf(objects[j]), last) ==> hitOf(objects[k]).t <= hitOf(objects[j]).t) &&
    (forall j :: 0 <= j < k && Eligible(hitOf(objects[j]), last) ==> hitOf(objects[k]).t < hitOf(objects[j]).t)
  }

  /**
   * The object loop of one bounce: every object is checked against the ray
   * (`hitOf` stands for `check` on the current ray) and a hit replaces the
   * best one when it is nearer. Without any eligible hit the carried
   * intersection keeps its fields, with distance `FarAway`.
   */
  method NearestHit(objects: seq<Object>, last: Object, carried: Intersection,
                    hitOf: Object -> Intersection) returns (best: Intersection)
    ensures (forall j :: 0 <= j < |objects| ==> !Eligible(hitOf(objects[j]), last)) ==>
              best == carried.(t := FarAway)
    ensures (exists j :: 0 <= j < |objects| && Eligible(hitOf(objects[j]), last)) ==>
              exists k :: IsFirstNearest(objects, last, hitOf, k) && best == hitOf(objects[k])
  {
    best := carried.(t := FarAway);
    ghost var chosen := -1;
    for i := 0 to |objects|
      invariant -1 <= chosen < i || (chosen == -1 && i == 0)
      invariant chosen == -1 ==> best == carried.(t := FarAway)
      invariant chosen == -1 ==> forall j :: 0 <= j < i ==> !Eligible(hitOf(objects[j]), last)
      invariant chosen >= 0 ==> chosen < i && best == hitOf(objects[chosen]) && Eligible(best, last)
      invariant chosen >= 0 ==> forall j :: 0 <= j < i && Eligible(hitOf(objects[j]), last) ==> best.t <= hitOf(objects[j]).t
      invariant chosen >= 0 ==> forall j :: 0 <= j < chosen && Eligible(hitOf(objects[j]), last) ==> best.t < hitOf(objects[j]).t
    {
      var pre := hitOf(objects[i]);
      if pre.t != -1.0 && pre.t < best.t && ObjNe(pre.hitObj, last) {
        best := pre;
        chosen := i;
      }
    }
    if chosen >= 0 {
      assert IsFirstNearest(objects, last, hitOf, chosen);
    }
  }

  /** The object a ray has just left is never hit again, since `!=` is irreflexive. */
  lemma NeverHitsLastAgain(pre: Intersection)
    ensures !Eligible(pre, pre.hitObj)
  {
    BothIrreflexive(pre.hitObj);
  }

  /** After a hit, no object of the same kind can be hit next: `!=` also demands a different kind. */
  lemma SameKindNeverNext(pre: Intersection, last: Object)
    requires pre.hitObj.objType == last.objType
    ensures !Eligible(pre, last)
  {
  }

  /** On the first bounce (coming from `Object::null`) an object placed at the origin is skipped. */
  lemma FirstBounceSkipsOrigin(pre: Intersection)
    requires pre.hitObj.pos == Origin
    ensures !Eligible(pre, NullObject())
  {
  }

  // ---------------------------------------------------------------------
  // Raster

  /** The pixels of row `y` in the order they are written. */
  function Row(y: nat, w: nat): (r: seq<(nat, nat)>)
    ensures |r| == w && forall x :: 0 <= x < w ==> r[x] == (x, y)
  {
    seq(w, x requires 0 <= x => (x, y))
  }

  /** The pixels of the first `h` rows, row by row. */
  function RowMajor(h: nat, w: nat): seq<(nat, nat)>
  {
    if h == 0 then [] else RowMajor(h - 1, w) + Row(h - 1, w)
  }

  /** Every pixel of a `w` by `h` image is listed, nothing else is, and none twice. */
  lemma {:induction false} RowMajorExactlyOnce(h: nat, w: nat)
    ensures forall p :: p in RowMajor(h, w) <==> p.0 < w && p.1 < h
    ensures forall i, j :: 0 <= i < j < |RowMajor(h, w)| ==> RowMajor(h, w)[i] != RowMajor(h, w)[j]
  {
    if h > 0 {
      RowMajorExactlyOnce(h - 1, w);
      var before := RowMajor(h - 1, w);
      var all := RowMajor(h, w);
      forall p | p in all ensures p.0 < w && p.1 < h {
        if p !in before {
          var x :| 0 <= x < w && Row(h - 1, w)[x] == p;
        }
      }
      forall p: (nat, nat) | p.0 < w && p.1 < h ensures p in all {
        if p.1 == h - 1 {
          assert all[|before| + p.0] == Row(h - 1, w)[p.0];
        } else {
          assert p in before;
        }
      }
      forall i, j | 0 <= i < j < |all| ensures all[i] != all[j] {
        if j >= |before| && i < |before| {
          assert all[i] == before[i] && all[i] in before;
        }
      }
    }
  }

  /** What lands in a pixel: the background when the primary ray hit nothing, else the traced colour. */
  function PixelColour(traced: Option<Rgb>, bgd: Rgb): Rgb
  {
    if traced.None? then bgd else traced.value
  }

  /**
   * The pixel loops of `raytrace`. `trace(x, y, lights)` is the colour the
   * bounces of pixel (x, y) bring back, or `None` when the first ray hits
   * nothing. The image is `res1` wide and `res0` tall; `writes` lists the
   * `put_pixel` calls in order.
   */
  method Raytrace(objects: seq<Object>, res0: nat, res1: nat, bgd: Rgb,
                  trace: (nat, nat, seq<Object>) -> Option<Rgb>)
    returns (img: array2<Rgb>, ghost writes: seq<(nat, nat)>)
    ensures fresh(img)
    ensures img.Length0 == res1 && img.Length1 == res0
    ensures forall x, y :: 0 <= x < res1 && 0 <= y < res0 ==>
      img[x, y] == PixelColour(trace(x, y, FirstN(LightObjects(objects), MaxLights)), bgd)
    ensures writes == RowMajor(res0, res1)
  {
    img := new Rgb[res1, res0]((x, y) => Black);
    var lights := CollectLights(objects);
    writes := [];
    for y := 0 to res0
      invariant writes == RowMajor(y, res1)
      invariant forall x', y' :: 0 <= x' < res1 && 0 <= y' < y ==>
        img[x', y'] == PixelColour(trace(x', y', lights), bgd)
    {
      for x := 0 to res1
        invariant writes == RowMajor(y, res1) + Row(y, res1)[..x]
        invariant forall x', y' :: 0 <= x' < res1 && 0 <= y' < y ==>
          img[x', y'] == PixelColour(trace(x', y', lights), bgd)
        invariant forall x' :: 0 <= x' < x ==> img[x', y] == PixelColour(trace(x', y, lights), bgd)
      {
        var traced := trace(x, y, lights);
        if traced.None? {
          img[x, y] := bgd;
        } else {
          img[x, y] := traced.value;
        }
        writes := writes + [(x, y)];
        assert Row(y, res1)[..x + 1] == Row(y, res1)[..x] + [(x, y)];
      }
      assert Row(y, res1)[..res1] == Row(y, res1);
    }
  }
}
