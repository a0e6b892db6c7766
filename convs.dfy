/**
 * Integer, colour and scene-object conversions of src/types_n_convs.rs:
 * saturating byte arithmetic, the `Basic` clamps, channel-wise colour
 * arithmetic, the scene object record with its constructors, the null
 * intersection and the object equality the renderer relies on.
 */
module Convs {

  /** A value, or none where the source would panic or find nothing. */
  datatype Option<T> = None | Some(value: T)

  /** Rust `u8`. */
  type byte = x: int | 0 <= x < 256

  /** Rust `i8` (the object kind tag). */
  type i8 = x: int | -128 <= x < 128

  const I32_MIN: int := -0x8000_0000
  const I32_MAX: int := 0x7FFF_FFFF

  predicate IsI32(x: int) { I32_MIN <= x <= I32_MAX }

  /** Rust `i32`. */
  type i32 = x: int | IsI32(x)

  /** `Rgb<u8>`: three bytes, red, green, blue. */
  datatype Rgb = Rgb(r: byte, g: byte, b: byte)
  {
    /** Channel `i` of the pixel, as `pixel[i]` in the source. */
    function Chan(i: nat): byte
      requires i < 3
    {
      if i == 0 then r else if i == 1 then g else b
    }
  }

  const Black: Rgb := Rgb(0, 0, 0)

  /** `[i32; 3]`, the colour form used by the palette code. */
  datatype Arr3 = Arr3(c0: i32, c1: i32, c2: i32)

  // ---------------------------------------------------------------------
  // The `Basic` conversions for u8 and i32

  /** `<u8 as Basic>::to_i32`: widening, never changes the value. */
  function U8ToI32(v: byte): i32
  {
    v
  }

  /** `<i32 as Basic>::to_u8`: clamp to [0, 255]. */
  function I32ToU8(v: int): (r: byte)
    ensures v > 255 ==> r == 255
    ensures v < 0 ==> r == 0
    ensures 0 <= v <= 255 ==> r == v
  {
    if v > 255 then 255 else if v < 0 then 0 else v
  }

  /** The clamp picks the byte nearest to its argument. */
  lemma ClampIsNearest(v: int, b: byte)
    ensures Dist(I32ToU8(v), v) <= Dist(b, v)
  {
  }

  function Dist(a: int, b: int): nat
  {
    if a <= b then b - a else a - b
  }

  /** Widening a byte and clamping it back gives the same byte. */
  lemma {:induction false} WidenThenClamp(b: byte)
    ensures I32ToU8(U8ToI32(b)) == b
  {
  }

  /** The clamp is monotone. */
  lemma ClampMonotone(v: int, w: int)
    requires v <= w
    ensures I32ToU8(v) <= I32ToU8(w)
  {
  }

  // ---------------------------------------------------------------------
  // i32 and saturating u8 arithmetic

  /** `i32_add`: plain i32 addition of the widened operands (overflow panics). */
  function I32Add(one: i32, two: i32): (r: i32)
    requires IsI32(one + two)
    ensures r - two == one
  {
    one + two
  }

  /** `i32_sub`: plain i32 subtraction of the widened operands (overflow panics). */
  function I32Sub(one: i32, two: i32): (r: i32)
    requires IsI32(one - two)
    ensures r + two == one
  {
    one - two
  }

  /** Adding then subtracting the same operand is the identity. */
  lemma I32AddSubRoundTrip(a: i32, b: i32)
    requires IsI32(a + b)
    ensures I32Sub(I32Add(a, b), b) == a
  {
  }

  /** `u8_add`: the sum, clamped to the byte range. */
  function U8Add(one: i32, two: i32): (r: byte)
    requires IsI32(one + two)
    ensures one + two > 255 ==> r == 255
    ensures one + two < 0 ==> r == 0
    ensures 0 <= one + two <= 255 ==> r == one + two
  {
    I32ToU8(one + two)
  }

  /** `u8_sub`: the difference, clamped to the byte range. */
  function U8Sub(one: i32, two: i32): (r: byte)
    requires IsI32(one - two)
    ensures one - two > 255 ==> r == 255
    ensures one - two < 0 ==> r == 0
    ensures 0 <= one - two <= 255 ==> r == one - two
  {
    I32ToU8(one - two)
  }

  /** On bytes, subtracting at least as much as is there gives zero. */
  lemma U8SubFloor(a: byte, b: byte)
    requires a <= b
    ensures U8Sub(a, b) == 0
  {
  }

  /** On bytes, adding never goes below the larger operand and saturates at 255. */
  lemma U8AddBounds(a: byte, b: byte)
    ensures a <= U8Add(a, b) && b <= U8Add(a, b)
    ensures U8Add(a, b) == 255 <==> a + b >= 255
  {
  }

  // ---------------------------------------------------------------------
  // Colour helpers

  /** `rgb_to_arr`: the channels as i32, each in [0, 255]. */
  function RgbToArr(one: Rgb): (r: Arr3)
    ensures 0 <= r.c0 <= 255 && 0 <= r.c1 <= 255 && 0 <= r.c2 <= 255
    ensures r.c0 == one.r && r.c1 == one.g && r.c2 == one.b
  {
    Arr3(one.r, one.g, one.b)
  }

  /** The per-channel clamp `closest_color` applies to the palette entry it picked. */
  function ArrToRgb(a: Arr3): (r: Rgb)
    ensures 0 <= a.c0 <= 255 ==> r.r == a.c0
    ensures 0 <= a.c1 <= 255 ==> r.g == a.c1
    ensures 0 <= a.c2 <= 255 ==> r.b == a.c2
    ensures (a.c0 < 0 ==> r.r == 0) && (a.c0 > 255 ==> r.r == 255)
    ensures (a.c1 < 0 ==> r.g == 0) && (a.c1 > 255 ==> r.g == 255)
    ensures (a.c2 < 0 ==> r.b == 0) && (a.c2 > 255 ==> r.b == 255)
  {
    Rgb(I32ToU8(a.c0), I32ToU8(a.c1), I32ToU8(a.c2))
  }

  /** Clamping back undoes `rgb_to_arr`. */
  lemma {:induction false} ArrRoundTrip(c: Rgb)
    ensures ArrToRgb(RgbToArr(c)) == c
  {
  }

  /** `u8_to_rgb`: the grey of level `n`. */
  function U8ToRgb(n: byte): (r: Rgb)
    ensures forall i :: 0 <= i < 3 ==> r.Chan(i) == n
  {
    Rgb(n, n, n)
  }

  /** `rgb_add`: channel-wise saturating addition. */
  function RgbAdd(one: Rgb, two: Rgb): (r: Rgb)
    ensures forall i :: 0 <= i < 3 ==> r.Chan(i) == U8Add(one.Chan(i), two.Chan(i))
  {
    Rgb(U8Add(one.r, two.r), U8Add(one.g, two.g), U8Add(one.b, two.b))
  }

  /** `rgb_sub`: channel-wise saturating subtraction. */
  function RgbSub(one: Rgb, two: Rgb): (r: Rgb)
    ensures forall i :: 0 <= i < 3 ==> r.Chan(i) == U8Sub(one.Chan(i), two.Chan(i))
  {
    Rgb(U8Sub(one.r, two.r), U8Sub(one.g, two.g), U8Sub(one.b, two.b))
  }

  /** Black is the identity of `rgb_add` and a right identity of `rgb_sub`. */
  lemma BlackIsNeutral(c: Rgb)
    ensures RgbAdd(c, Black) == c && RgbAdd(Black, c) == c
    ensures RgbSub(c, Black) == c
  {
  }

  /** `rgb_add` is commutative. */
  lemma RgbAddCommutes(a: Rgb, b: Rgb)
    ensures RgbAdd(a, b) == RgbAdd(b, a)
  {
  }

  /** A colour minus itself is black, and so is anything minus white. */
  lemma RgbSubSelf(c: Rgb)
    ensures RgbSub(c, c) == Black
    ensures RgbSub(c, U8ToRgb(255)) == Black
  {
  }

  /** Without saturation, subtracting what was added gives the colour back. */
  lemma RgbAddSubRoundTrip(a: Rgb, b: Rgb)
    requires a.r + b.r <= 255 && a.g + b.g <= 255 && a.b + b.b <= 255
    ensures RgbSub(RgbAdd(a, b), b) == a
  {
  }

  // ---------------------------------------------------------------------
  // Scene objects

  /** `Xyz`: three f32 coordinates (modelled as reals). */
  datatype Xyz = Xyz(x: real, y: real, z: real)

  const Origin: Xyz := Xyz(0.0, 0.0, 0.0)

  /**
   * `Object`: one record for every kind; `objType` is 0 for a plane,
   * 1 for a sphere, 2 for a triangle and -1 for the null object. `pos` is a
   * plane's normal, a sphere's centre and a triangle's shading normal; `a` is
   * the plane offset or sphere radius; `b`, `c`, `d` are a triangle's vertices.
   */
  datatype Object = Object(objType: i8, pos: Xyz, col: Rgb, a: real,
                           b: Xyz, c: Xyz, d: Xyz, rfty: real, light: bool)

  const PlaneKind: i8 := 0
  const SphereKind: i8 := 1
  const TriangleKind: i8 := 2
  const NullKind: i8 := -1

  /** `Object::null`. */
  function NullObject(): (o: Object)
    ensures o.objType == NullKind && o.pos == Origin && o.col == Black
    ensures o.a == 0.0 && o.rfty == 0.0 && !o.light
    ensures o.b == Origin && o.c == Origin && o.d == Origin
  {
    Object(NullKind, Origin, Black, 0.0, Origin, Origin, Origin, 0.0, false)
  }

  /** `Object::new_plane`: kind 0, vertices zeroed. */
  function NewPlane(pos: Xyz, col: Rgb, a: real, rfty: real, light: bool): (o: Object)
    ensures o.objType == PlaneKind && o.b == o.c == o.d == Origin
    ensures o.pos == pos && o.col == col && o.a == a && o.rfty == rfty && o.light == light
  {
    Object(PlaneKind, pos, col, a, Origin, Origin, Origin, rfty, light)
  }

  /** `Object::new_sphere`: kind 1, vertices zeroed. */
  function NewSphere(pos: Xyz, col: Rgb, a: real, rfty: real, light: bool): (o: Object)
    ensures o.objType == SphereKind && o.b == o.c == o.d == Origin
    ensures o.pos == pos && o.col == col && o.a == a && o.rfty == rfty && o.light == light
  {
    Object(SphereKind, pos, col, a, Origin, Origin, Origin, rfty, light)
  }

  /** `Object::new_triangle`: kind 2, `a` zeroed. */
  function NewTriangle(pos: Xyz, col: Rgb, b: Xyz, c: Xyz, d: Xyz, rfty: real, light: bool): (o: Object)
    ensures o.objType == TriangleKind && o.a == 0.0
    ensures o.pos == pos && o.col == col && o.b == b && o.c == c && o.d == d
    ensures o.rfty == rfty && o.light == light
  {
    Object(TriangleKind, pos, col, 0.0, b, c, d, rfty, light)
  }

  /** `Intersection`: distance `t`, normal, hit point and the object hit. */
  datatype Intersection = Intersection(t: real, n: Xyz, hit: Xyz, hitObj: Object)

  /** `Intersection::null`: the "no hit" sentinel, distance -1. */
  function NullIntersection(): (i: Intersection)
    ensures i.t == -1.0 && i.n == Origin && i.hit == Origin && i.hitObj == NullObject()
  {
    Intersection(-1.0, Origin, Origin, NullObject())
  }

  /**
   * `Object::check`: dispatch on the kind tag. The three ray/primitive tests
   * are floating-point geometry and are parameters here; every other tag
   * yields the null intersection.
   */
  function Check(o: Object, ro: Xyz, rd: Xyz,
                 plane: (Object, Xyz, Xyz) -> Intersection,
                 sphere: (Object, Xyz, Xyz) -> Intersection,
                 triangle: (Object, Xyz, Xyz) -> Intersection): (i: Intersection)
    ensures o.objType == PlaneKind ==> i == plane(o, ro, rd)
    ensures o.objType == SphereKind ==> i == sphere(o, ro, rd)
    ensures o.objType == TriangleKind ==> i == triangle(o, ro, rd)
    ensures !(0 <= o.objType <= 2) ==> i == NullIntersection()
  {
    match o.objType
    case 0 => plane(o, ro, rd)
    case 1 => sphere(o, ro, rd)
    case 2 => triangle(o, ro, rd)
    case _ => NullIntersection()
  }

  /** The null object never intersects anything. */
  lemma NullObjectMisses(ro: Xyz, rd: Xyz,
                         plane: (Object, Xyz, Xyz) -> Intersection,
                         sphere: (Object, Xyz, Xyz) -> Intersection,
                         triangle: (Object, Xyz, Xyz) -> Intersection)
    ensures Check(NullObject(), ro, rd, plane, sphere, triangle) == NullIntersection()
  {
  }

  // ---------------------------------------------------------------------
  // Object equality as the source defines it

  /** `Object == Object`: same position and DIFFERENT kind. */
  predicate ObjEq(one: Object, other: Object)
  {
    one.pos == other.pos && one.objType != other.objType
  }

  /** `Object != Object`: different position and different kind (not the negation of `==`). */
  predicate ObjNe(one: Object, other: Object)
  {
    one.pos != other.pos && one.objType != other.objType
  }

  /** Neither `==` nor `!=` holds of an object and itself. */
  lemma BothIrreflexive(o: Object)
    ensures !ObjEq(o, o) && !ObjNe(o, o)
  {
  }

  /** Both relations are symmetric, and they never hold together. */
  lemma SymmetricAndExclusive(o: Object, p: Object)
    ensures ObjEq(o, p) == ObjEq(p, o) && ObjNe(o, p) == ObjNe(p, o)
    ensures !(ObjEq(o, p) && ObjNe(o, p))
  {
  }

  /** `!=` is `!(==)` exactly when the kinds differ; with equal kinds both are false. */
  lemma NeIsNotNegationOfEq(o: Object, p: Object)
    ensures o.objType == p.objType ==> !ObjEq(o, p) && !ObjNe(o, p)
    ensures o.objType != p.objType ==> (ObjNe(o, p) <==> !ObjEq(o, p))
  {
  }

  /** Two distinct triangles sharing a position are neither equal nor unequal. */
  lemma TrianglesNeverCompare(pos: Xyz, col: Rgb, b: Xyz, c: Xyz, d: Xyz, b': Xyz, rfty: real, light: bool)
    requires b != b'
    ensures NewTriangle(pos, col, b, c, d, rfty, light) != NewTriangle(pos, col, b', c, d, rfty, light)
    ensures !ObjEq(NewTriangle(pos, col, b, c, d, rfty, light), NewTriangle(pos, col, b', c, d, rfty, light))
    ensures !ObjNe(NewTriangle(pos, col, b, c, d, rfty, light), NewTriangle(pos, col, b', c, d, rfty, light))
  {
  }

  /** A plane and a sphere at the same position are "equal", whatever their other fields. */
  lemma PlaneEqualsSphereAtSamePos(pos: Xyz, col: Rgb, col': Rgb, a: real, a': real,
                                   rfty: real, rfty': real, light: bool, light': bool)
    ensures ObjEq(NewPlane(pos, col, a, rfty, light), NewSphere(pos, col', a', rfty', light'))
  {
  }
}
