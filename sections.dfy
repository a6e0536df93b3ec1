/** Cross-sections: the ring of points an element's tube passes through at
    one longitudinal position. A point's first coordinate is that position
    along the element; the other two are horizontal and vertical offsets.

    `math.pi`, `cos` and `sin` are not computed here: they come in as a
    `Trig` value, and properties that need the identity cos^2 + sin^2 = 1
    assume it of that value. */
module Sections {
  import opened Lattice
  import Lookup

  datatype Vec3 = Vec3(x: real, y: real, z: real)

  type Section = seq<Vec3>

  /** `pi`, `cos` and `sin` from Python's `math` module. */
  datatype Trig = Trig(pi: real, cos: real -> real, sin: real -> real)

  ghost predicate Pythagorean(g: Trig) {
    forall a :: g.cos(a) * g.cos(a) + g.sin(a) * g.sin(a) == 1.0
  }

  /** Two corners of a rectangle share an edge. */
  predicate Neighbours(p: Vec3, q: Vec3) {
    p.y == q.y || p.z == q.z
  }

  /** `p` reflected through the centre of its section's plane. */
  function Opposite(p: Vec3): Vec3 {
    Vec3(p.x, -p.y, -p.z)
  }

  /** `box_section(X, haperture, vaperture)`: the four corners (+-h, +-v)
      in the plane at X, taken around the rectangle, so neighbouring
      corners (the last and the first included) share an edge and opposite
      corners are mirror images through the centre. */
  function BoxSection(X: real, h: real, v: real): (r: Section)
    ensures |r| == 4
    ensures forall i :: 0 <= i < 4 ==> r[i].x == X && (r[i].y == h || r[i].y == -h) && (r[i].z == v || r[i].z == -v)
    ensures Neighbours(r[0], r[1]) && Neighbours(r[1], r[2]) && Neighbours(r[2], r[3]) && Neighbours(r[3], r[0])
    ensures r[2] == Opposite(r[0]) && r[3] == Opposite(r[1])
    ensures r[0] == Vec3(X, h, v) && r[1] == Vec3(X, -h, v)
  {
    [Vec3(X, h, v), Vec3(X, -h, v), Vec3(X, -h, -v), Vec3(X, h, -v)]
  }

  /** Python's `range(n)` has no elements when n <= 0. */
  function Count(n: int): nat {
    if n > 0 then n else 0
  }

  /** The angle of point i of an n-point ellipse section: `2*pi*i/n`. */
  function EllipseAngle(g: Trig, n: int, i: int): real
    requires n > 0
  {
    2.0 * g.pi * i as real / n as real
  }

  /** The angle of point i of a 2n-point multipole section: `pi*i/n + pi/(2*n)`. */
  function MultipoleAngle(g: Trig, n: int, i: int): real
    requires n > 0
  {
    g.pi * i as real / n as real + g.pi / (2 * n) as real
  }

  /** `ellipse_section(X, haperture, vaperture, n=30)`: n points in the
      plane at X, point i at angle 2*pi*i/n on the ellipse with half-axes h
      and v. */
  function EllipseSection(g: Trig, X: real, h: real, v: real, n: int := 30): (r: Section)
    ensures |r| == Count(n)
    ensures forall i :: 0 <= i < |r| ==>
      r[i] == Vec3(X, h * g.cos(EllipseAngle(g, n, i)), v * g.sin(EllipseAngle(g, n, i)))
  {
    seq(Count(n), i requires 0 <= i < Count(n) =>
      Vec3(X, h * g.cos(EllipseAngle(g, n, i)), v * g.sin(EllipseAngle(g, n, i))))
  }

  /** `multipole_section(X, aperture, n)`: 2n points in the plane at X on
      the circle of radius `aperture`, at angles pi*i/n + pi/(2n), half-way
      between the pole directions of a 2n-pole magnet. */
  function MultipoleSection(g: Trig, X: real, aperture: real, n: int): (r: Section)
    ensures |r| == Count(2 * n)
    ensures forall i :: 0 <= i < |r| ==>
      r[i] == Vec3(X, aperture * g.cos(MultipoleAngle(g, n, i)), aperture * g.sin(MultipoleAngle(g, n, i)))
  {
    seq(Count(2 * n), i requires 0 <= i < Count(2 * n) =>
      Vec3(X, aperture * g.cos(MultipoleAngle(g, n, i)), aperture * g.sin(MultipoleAngle(g, n, i))))
  }

  /** With a true cos/sin pair, the points of an ellipse section lie on the
      ellipse (y/h)^2 + (z/v)^2 = 1. */
  lemma EllipseOnEllipse(g: Trig, X: real, h: real, v: real, n: int, i: nat)
    requires Pythagorean(g) && h != 0.0 && v != 0.0 && i < Count(n)
    ensures var p := EllipseSection(g, X, h, v, n)[i];
      (p.y / h) * (p.y / h) + (p.z / v) * (p.z / v) == 1.0
  {
    var p := EllipseSection(g, X, h, v, n)[i];
    var a := EllipseAngle(g, n, i);
    assert p.y / h == g.cos(a);
    assert p.z / v == g.sin(a);
  }

  /** With a true cos/sin pair, the points of a multipole section lie on the
      circle of radius `aperture`. */
  lemma MultipoleOnCircle(g: Trig, X: real, aperture: real, n: int, i: nat)
    requires Pythagorean(g) && i < Count(2 * n)
    ensures var p := MultipoleSection(g, X, aperture, n)[i];
      p.y * p.y + p.z * p.z == aperture * aperture
  {
    var p := MultipoleSection(g, X, aperture, n)[i];
    var a := MultipoleAngle(g, n, i);
    var c, s := g.cos(a), g.sin(a);
    assert c * c + s * s == 1.0;
    calc {
      p.y * p.y + p.z * p.z;
      (aperture * c) * (aperture * c) + (aperture * s) * (aperture * s);
      aperture * aperture * (c * c + s * s);
    }
  }

  /** `Matrix.Rotation(t, 4, 'Z')` applied to a point. */
  function RotateZ(g: Trig, t: real, p: Vec3): Vec3 {
    Vec3(g.cos(t) * p.x - g.sin(t) * p.y, g.sin(t) * p.x + g.cos(t) * p.y, p.z)
  }

  /** `Matrix.Translation(d)` applied to a point. */
  function Translate(d: Vec3, p: Vec3): Vec3 {
    Vec3(p.x + d.x, p.y + d.y, p.z + d.z)
  }

  /** The threshold below which a bend's angle or length counts as zero. */
  const Tiny: real := 0.00001

  function Abs(a: real): real {
    if a < 0.0 then -a else a
  }

  /** A bend is drawn straight when its angle or length is below `Tiny`. */
  predicate IsStraight(b: Bend, L: real) {
    Abs(b.angle) < Tiny || Abs(L) < Tiny
  }

  /** Where the composed matrix m3*m2*m1*m0 of `ele_section` sends the
      baseline point `p` of a bend of length L at position s: m0 turns the
      section by the edge angle interpolated between -e1 at the entrance and
      e2 at the exit; m1, m2, m3 move it along the arc of radius L/angle. */
  function BendPoint(g: Trig, b: Bend, L: real, s: real, p: Vec3): (q: Vec3)
    requires !IsStraight(b, L)
    ensures q.z == p.z
  {
    var rho := L / b.angle;
    assert rho != 0.0 by {
      assert rho * b.angle == L;
    }
    var f := s / L + 0.5;
    var edge := b.e2 * f + (-1.0) * b.e1 * (1.0 - f);
    var m0p := RotateZ(g, edge, p);
    var m1p := Translate(Vec3(0.0, rho, 0.0), m0p);
    var m2p := RotateZ(g, -s / rho, m1p);
    Translate(Vec3(0.0, -rho, 0.0), m2p)
  }

  /** The points of each element type's section: 8 for a quadrupole, 12 for
      a sextupole, 4 for a bend or a wiggler, 30 for everything else. */
  function SectionSize(key: string): nat {
    if key == "QUADRUPOLE" then 8
    else if key == "SEXTUPOLE" then 12
    else if key == "SBEND" then 4
    else if key == "WIGGLER" then 4
    else 30
  }

  /** An element whose key asks for bend parameters has them, as every
      element `map_table_dict` builds does. */
  predicate HasBendData(ele: Element) {
    ele.key == "SBEND" ==> ele.bend.Some?
  }

  /** The section `ele_section(s_rel, ele)` returns. Its size depends only
      on the element's type. Apart from a bend drawn curved, it lies in the
      plane at `s`. A curved bend's section keeps the vertical offsets +-sc
      of its baseline box, since the bend turns about the vertical axis. */
  function SectionOf(g: Trig, s: real, ele: Element): (r: Section)
    requires HasBendData(ele)
    ensures |r| == SectionSize(ele.key)
    ensures ele.key != "SBEND" || IsStraight(ele.bend.value, ele.L) ==>
      forall i :: 0 <= i < |r| ==> r[i].x == s
    ensures ele.key == "SBEND" ==>
      forall i :: 0 <= i < |r| ==> r[i].z == Lookup.XScale(ele) || r[i].z == -Lookup.XScale(ele)
  {
    var sc := Lookup.XScale(ele);
    if ele.key == "QUADRUPOLE" then MultipoleSection(g, s, sc, 4)
    else if ele.key == "SEXTUPOLE" then MultipoleSection(g, s, sc, 6)
    else if ele.key == "SBEND" then
      (if IsStraight(ele.bend.value, ele.L) then BoxSection(s, sc, sc)
       else BentSection(g, ele.bend.value, ele.L, s, sc))
    else if ele.key == "WIGGLER" then BoxSection(s, sc, 2.0 * sc)
    else EllipseSection(g, s, sc, sc)
  }

  /** The baseline box of half-size sc, carried to position s of a curved bend. */
  function BentSection(g: Trig, b: Bend, L: real, s: real, sc: real): (r: Section)
    requires !IsStraight(b, L)
    ensures |r| == 4
    ensures forall i :: 0 <= i < 4 ==> r[i].z == sc || r[i].z == -sc
  {
    var s0 := BoxSection(0.0, sc, sc);
    [BendPoint(g, b, L, s, s0[0]), BendPoint(g, b, L, s, s0[1]),
     BendPoint(g, b, L, s, s0[2]), BendPoint(g, b, L, s, s0[3])]
  }

  /** `ele_section(s_rel, ele)`. */
  method EleSection(g: Trig, s: real, ele: Element) returns (sec: Section)
    requires HasBendData(ele)
    ensures sec == SectionOf(g, s, ele)
  {
    var sc := Lookup.EleXScale(ele);
    if ele.key == "QUADRUPOLE" {
      return MultipoleSection(g, s, sc, 4);
    }
    if ele.key == "SEXTUPOLE" {
      return MultipoleSection(g, s, sc, 6);
    } else if ele.key == "SBEND" {
      var a := ele.bend.value.angle;
      if Abs(a) < 0.00001 || Abs(ele.L) < 0.00001 {
        return BoxSection(s, sc, sc);
      }
      var L := ele.L;
      var s0 := BoxSection(0.0, sc, sc);
      sec := [];
      for i := 0 to |s0|
        invariant sec == BentSection(g, ele.bend.value, L, s, sc)[..i]
      {
        var v := BendPoint(g, ele.bend.value, L, s, s0[i]);
        sec := sec + [v];
      }
      return sec;
    } else if ele.key == "WIGGLER" {
      return BoxSection(s, sc, 2.0 * sc);
    } else {
      return EllipseSection(g, s, sc, sc);
    }
  }
}
