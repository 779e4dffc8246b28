/**
 * Duct geometry, the fixed air properties and the Darcy-Weisbach friction
 * model with the Altshul-Tsal friction factor, shared by every sizing mode.
 */
module Duct {

  /** The cross-section families offered by the calculator. */
  datatype DuctType = Circular | Square | Rectangular | Oval

  /** Air density in kg/m³. */
  const Density: real := 1.034
  /** Dynamic viscosity of air in Pa·s. */
  const Viscosity: real := 0.00001557
  /** Absolute wall roughness (galvanised sheet) in m. */
  const Roughness: real := 0.00015
  /** Fixed allowance for fittings, in Pa/m, added to every reported drop. */
  const PressureMargin: real := 0.35
  /** The double nearest to π, written as a decimal. */
  const Pi: real := 3.141592653589793

  /** A strictly positive length in metres. */
  type Size = d: real | d > 0.0 witness 1.0

  /**
   * The fractional powers the calculator takes from its maths library, kept
   * uninterpreted: `sqrt` is the square root, `fourthRoot` is x^0.25, and
   * `deCore(a, b)` is (a·b)^0.625 / (a+b)^0.25 of the equivalent-diameter
   * formula.
   */
  datatype Maths = Maths(sqrt: real -> real, fourthRoot: real -> real, deCore: (real, real) -> real)

  /** The fourth root is positive on positive arguments. */
  ghost predicate PositiveRoots(m: Maths)
  {
    forall x :: x > 0.0 ==> m.fourthRoot(x) > 0.0
  }

  /** The square root is exact on non-negative arguments. */
  ghost predicate ExactSqrt(m: Maths)
  {
    forall x :: x >= 0.0 ==> m.sqrt(x) >= 0.0 && m.sqrt(x) * m.sqrt(x) == x
  }

  /** Converts m³/h to m³/s. */
  function PerSecond(flowPerHour: real): (qs: real)
    ensures qs * 3600.0 == flowPerHour
    ensures qs > 0.0 <==> flowPerHour > 0.0
  {
    flowPerHour / 3600.0
  }

  /**
   * Hydraulic diameter 2ab/(a+b) of an a × b rectangle: four times its area
   * over its perimeter, lying between the two sides.
   */
  function HydraulicDiameter(a: real, b: real): (dh: real)
    requires a > 0.0 && b > 0.0
    ensures dh * (2.0 * (a + b)) == 4.0 * (a * b)
    ensures a <= b ==> a <= dh <= b
    ensures b <= a ==> b <= dh <= a
    ensures a == b ==> dh == a
  {
    var dh := 2.0 * a * b / (a + b);
    HarmonicBetween(a, b);
    dh
  }

  lemma HarmonicBetween(a: real, b: real)
    requires a > 0.0 && b > 0.0
    ensures a <= b ==> a <= 2.0 * a * b / (a + b) <= b
    ensures b <= a ==> b <= 2.0 * a * b / (a + b) <= a
  {
    var s := a + b;
    var dh := 2.0 * a * b / s;
    assert dh * s == 2.0 * a * b;
    if a <= b {
      HarmonicOrdered(a, b, s, dh);
    }
    if b <= a {
      assert dh * s == 2.0 * b * a;
      HarmonicOrdered(b, a, s, dh);
    }
  }

  /** With lo ≤ hi and dh·(lo+hi) = 2·lo·hi, dh lies between lo and hi. */
  lemma HarmonicOrdered(lo: real, hi: real, s: real, dh: real)
    requires 0.0 < lo <= hi && s == lo + hi && dh * s == 2.0 * lo * hi
    ensures lo <= dh <= hi
  {
    MulLe(lo, lo, hi);
    MulLe(hi, lo, hi);
    assert lo * s == lo * lo + lo * hi;
    assert hi * s == lo * hi + hi * hi;
    if dh < lo {
      MulLt(s, dh, lo);
      assert false;
    }
    if dh > hi {
      MulLt(s, hi, dh);
      assert false;
    }
  }

  lemma MulLe(c: real, x: real, y: real)
    requires c > 0.0 && x <= y
    ensures x * c <= y * c && c * x <= c * y
  {
    assert c * (y - x) >= 0.0;
  }

  lemma MulLt(c: real, x: real, y: real)
    requires c > 0.0 && x < y
    ensures x * c < y * c && c * x < c * y
  {
    assert c * (y - x) > 0.0;
  }

  /**
   * Friction pressure drop in Pa/m of a duct of cross-section `area` (m²) and
   * hydraulic diameter `dh` (m) carrying `qs` m³/s: zero for a degenerate
   * geometry, otherwise the drop at the mean velocity Q/A.
   */
  function FrictionDrop(qs: real, area: real, dh: real, m: Maths): (drop: real)
    requires qs > 0.0
    ensures area <= 0.0 || dh <= 0.0 ==> drop == 0.0
    ensures PositiveRoots(m) && area > 0.0 && dh > 0.0 ==> drop > 0.0
  {
    if area <= 0.0 || dh <= 0.0 then 0.0
    else DropAtVelocity(qs / area, dh, m)
  }

  /**
   * Darcy-Weisbach drop f/Dh · ρv²/2 at mean velocity `v`, with the
   * Altshul-Tsal factor f = 0.11·(ε/Dh + 68/Re)^0.25 and Re = ρ·v·Dh/μ.
   */
  function DropAtVelocity(v: real, dh: real, m: Maths): (drop: real)
    requires v > 0.0 && dh > 0.0
    ensures PositiveRoots(m) ==> drop > 0.0
  {
    var re := Density * v * dh / Viscosity;
    assert re > 0.0 by {
      ProductPositive(Density, v, Density * v);
      ProductPositive(Density * v, dh, Density * v * dh);
    }
    var f := 0.11 * m.fourthRoot(Roughness / dh + 68.0 / re);
    var pd := 0.5 * Density * v * v;
    assert PositiveRoots(m) ==> f * (1.0 / dh) * pd > 0.0 by {
      if PositiveRoots(m) {
        assert Roughness / dh + 68.0 / re > 0.0;
        ProductPositive(f, 1.0 / dh, f * (1.0 / dh));
        ProductPositive(f * (1.0 / dh), pd, f * (1.0 / dh) * pd);
      }
    }
    f * (1.0 / dh) * pd
  }

  /** A named product of two positive reals is positive. */
  lemma ProductPositive(x: real, y: real, p: real)
    requires x > 0.0 && y > 0.0 && p == x * y
    ensures p > 0.0
  {
  }

  /**
   * The friction drop depends on the flow and the area only through the mean
   * velocity Q/A: scaling both by the same factor leaves it unchanged.
   */
  lemma FrictionDependsOnVelocity(qs: real, area: real, dh: real, k: real, m: Maths)
    requires qs > 0.0 && k > 0.0
    ensures FrictionDrop(k * qs, k * area, dh, m) == FrictionDrop(qs, area, dh, m)
  {
    if area > 0.0 && dh > 0.0 {
      var v := qs / area;
      var qs', area' := k * qs, k * area;
      assert area' > 0.0;
      assert qs' == v * area';
      assert qs' / area' == v;
    } else if area <= 0.0 {
      assert k * area <= 0.0;
    }
  }
}
