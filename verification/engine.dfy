/**
 * The duct-sizing calculation: the three sizing modes, the post-processing
 * shared by all of them, and the guards that decide between clearing the
 * results, leaving them as they are, and producing a new calculation.
 */
module Engine {
  import opened Options
  import opened Duct
  import opened Bisection

  /** What the user fixes: the velocity, the dimensions, or the pressure drop. */
  datatype Mode = ByVelocity | ByDimensions | ByPressure

  /**
   * The form as the calculation reads it, every number already parsed and 0
   * where a field is empty or unparsable: flow in m³/h, velocity in m/s,
   * pressure in Pa/m, lengths in mm. `fixedWidth` is the diameter of a
   * circular duct in the dimensions mode.
   */
  datatype Inputs = Inputs(
    flow: real,
    ductType: DuctType,
    mode: Mode,
    maxVelocity: real,
    targetPressure: real,
    fixedWidth: real,
    fixedHeight: real,
    optionalHeight: real)

  /**
   * The working values of one calculation before post-processing: width,
   * height and diameter in mm, area in m², velocity in m/s (0 = not yet set).
   */
  datatype Section = Section(width: real, height: real, diameter: real, area: real, velocity: real)

  /** The area (m²) and hydraulic diameter (m) of a trial duct in the pressure search. */
  datatype Trial = Trial(area: real, dh: real)

  /** The hydraulic diameter (m) and equivalent diameter (mm) of a finished cross-section. */
  datatype Metrics = Metrics(dh: real, de: real)

  /** A finished calculation, as kept for saving a segment; `de` in mm, `pressDrop` in Pa/m. */
  datatype Calc = Calc(
    width: real,
    height: real,
    diameter: real,
    velocity: real,
    de: real,
    pressDrop: real,
    flow: real,
    ductType: DuctType)

  /**
   * The effect of one recalculation: the displayed results are cleared, the
   * recalculation is abandoned with everything left as it was, or a new
   * calculation is produced.
   */
  datatype Outcome = Cleared | Aborted | Computed(result: Calc)

  /** Rectangular and oval ducts honour a positive optional height; all others are sized square. */
  predicate KeepsHeight(t: DuctType, h: real)
  {
    (t == Rectangular || t == Oval) && h > 0.0
  }

  function Sq(x: real): real
  {
    x * x
  }

  /** Cross-section area in m² of a duct whose dimensions are given in mm. */
  function GeometricArea(t: DuctType, width: real, height: real, diameter: real): real
  {
    if t == Circular then Pi * Sq(diameter / 1000.0) / 4.0
    else (width / 1000.0) * (height / 1000.0)
  }

  // ---------------------------------------------------------------- velocity

  /**
   * Velocity mode: the area that carries the flow at the maximum velocity,
   * shaped as a circle, as a width over the fixed height, or as a square.
   */
  function SizeByVelocity(t: DuctType, qs: real, vMax: real, hFix: real, m: Maths): (s: Section)
    requires qs > 0.0 && vMax > 0.0
    ensures s.area > 0.0 && s.area * vMax == qs && qs / s.area == vMax
    ensures s.velocity == 0.0
    ensures KeepsHeight(t, hFix) ==> s.height == hFix && s.width * s.height == s.area * 1000000.0
    ensures t != Circular && !KeepsHeight(t, hFix) ==> s.width == s.height
    ensures t != Circular ==> s.diameter == 0.0
    ensures t == Circular ==> s.width == 0.0 && s.height == 0.0
    ensures ExactSqrt(m) ==> GeometricArea(t, s.width, s.height, s.diameter) == s.area
    ensures ExactSqrt(m) && t == Circular ==> s.diameter > 0.0
    ensures ExactSqrt(m) && t != Circular ==> s.width > 0.0 && s.height > 0.0
  {
    var area := qs / vMax;
    FlowOverVelocity(qs, vMax);
    var square := Section(m.sqrt(area) * 1000.0, m.sqrt(area) * 1000.0, 0.0, area, 0.0);
    var s := match t
      case Rectangular | Oval =>
        if hFix > 0.0 then Section(area * 1000000.0 / hFix, hFix, 0.0, area, 0.0) else square
      case Square => square
      case Circular => Section(0.0, 0.0, m.sqrt(4.0 * area / Pi) * 1000.0, area, 0.0);
    VelocityAreas(t, area, hFix, s, m);
    s
  }

  lemma FlowOverVelocity(qs: real, v: real)
    requires qs > 0.0 && v > 0.0
    ensures qs / v > 0.0 && (qs / v) * v == qs && qs / (qs / v) == v
  {
    var a := qs / v;
    assert a * v == qs;
    assert a > 0.0;
    assert qs / a == v;
  }

  lemma VelocityAreas(t: DuctType, area: real, hFix: real, s: Section, m: Maths)
    requires area > 0.0
    requires KeepsHeight(t, hFix) ==> s == Section(area * 1000000.0 / hFix, hFix, 0.0, area, 0.0)
    requires t != Circular && !KeepsHeight(t, hFix) ==>
      s == Section(m.sqrt(area) * 1000.0, m.sqrt(area) * 1000.0, 0.0, area, 0.0)
    requires t == Circular ==> s == Section(0.0, 0.0, m.sqrt(4.0 * area / Pi) * 1000.0, area, 0.0)
    ensures KeepsHeight(t, hFix) ==> s.width * s.height == area * 1000000.0
    ensures ExactSqrt(m) ==> GeometricArea(t, s.width, s.height, s.diameter) == area
  {
    if KeepsHeight(t, hFix) {
      assert s.width * hFix == area * 1000000.0;
      assert (s.width / 1000.0) * (hFix / 1000.0) == (s.width * hFix) / 1000000.0;
    } else if ExactSqrt(m) {
      if t == Circular {
        var x := 4.0 * area / Pi;
        var r := m.sqrt(x);
        assert r * r == x;
        assert s.diameter / 1000.0 == r;
        assert Pi * (r * r) / 4.0 == area;
      } else {
        var r := m.sqrt(area);
        assert r * r == area;
        assert s.width / 1000.0 == r && s.height / 1000.0 == r;
      }
    }
  }

  // -------------------------------------------------------------- dimensions

  /** The dimensions mode rejects a non-positive width, and a non-positive height where one is read. */
  predicate DimensionsInvalid(t: DuctType, width: real, height: real)
  {
    width <= 0.0 || (t != Circular && t != Square && height <= 0.0)
  }

  /**
   * Dimensions mode: the area of the given cross-section (a square copies its
   * width into its height) and the velocity the flow has through it.
   */
  function SizeByDimensions(t: DuctType, qs: real, width: real, height: real): (r: Option<Section>)
    requires qs > 0.0
    ensures r.None? <==> DimensionsInvalid(t, width, height)
    ensures r.Some? ==>
      && r.value.area > 0.0
      && r.value.velocity > 0.0
      && r.value.velocity * r.value.area == qs
      && r.value.area == GeometricArea(t, r.value.width, r.value.height, r.value.diameter)
    ensures r.Some? && t == Circular ==> r.value.diameter == width
    ensures r.Some? && t != Circular ==> r.value.width == width && r.value.diameter == 0.0
    ensures r.Some? && t == Square ==> r.value.height == r.value.width
    ensures r.Some? && (t == Rectangular || t == Oval) ==> r.value.height == height
  {
    if t == Circular then
      var diameter := width;
      if diameter <= 0.0 then None
      else
        var side := diameter / 1000.0;
        var square := Sq(side);
        ProductPositive(side, side, square);
        var area := Pi * square / 4.0;
        Some(Section(0.0, 0.0, diameter, area, qs / area))
    else
      var h := if t == Square then width else height;
      if width <= 0.0 || (h <= 0.0 && t != Square) then None
      else
        var area := (width / 1000.0) * (h / 1000.0);
        ProductPositive(width / 1000.0, h / 1000.0, area);
        Some(Section(width, h, 0.0, area, qs / area))
  }

  // ---------------------------------------------------------------- pressure

  /** The friction share of the target: the target less the margin, floored at 0.001 Pa/m. */
  function FrictionTarget(targetTotal: real): (ft: real)
    ensures ft >= 0.001
    ensures ft == Max(0.001, targetTotal - PressureMargin)
  {
    var ft := targetTotal - PressureMargin;
    if ft <= 0.001 then 0.001 else ft
  }

  /**
   * Area (m²) and hydraulic diameter (m) of the trial duct of characteristic
   * size `d` (m): a circle of diameter d, a d-wide duct of the fixed height,
   * or a d-sided square.
   */
  function TrialGeometry(t: DuctType, hFix: real, d: Size): (g: Trial)
    ensures g.area > 0.0 && g.dh > 0.0
  {
    if t == Circular then
      var pd := Pi * d;
      var a := pd * d;
      ProductPositive(Pi, d, pd);
      ProductPositive(pd, d, a);
      Trial(a / 4.0, d)
    else if KeepsHeight(t, hFix) then
      var h := hFix / 1000.0;
      var a := d * h;
      ProductPositive(d, h, a);
      Trial(a, HydraulicDiameter(d, h))
    else
      var a := d * d;
      ProductPositive(d, d, a);
      Trial(a, d)
  }

  /** The friction drop of the trial duct of each size, the function the search runs on. */
  function TrialDrop(t: DuctType, hFix: real, qs: real, m: Maths): Size -> real
    requires qs > 0.0
  {
    (d: Size) => FrictionDrop(qs, TrialGeometry(t, hFix, d).area, TrialGeometry(t, hFix, d).dh, m)
  }

  /** The size the pressure mode accepts for a positive target. */
  function PressureSize(t: DuctType, qs: real, targetTotal: real, hFix: real, m: Maths): Size
    requires qs > 0.0
  {
    Search(TrialDrop(t, hFix, qs, m), FrictionTarget(targetTotal))
  }

  /** The final dimensions built from the accepted size `d`, as the trial builds them. */
  function SectionOfSize(t: DuctType, hFix: real, d: Size): (s: Section)
    ensures s.area == TrialGeometry(t, hFix, d).area
    ensures s.area == GeometricArea(t, s.width, s.height, s.diameter)
    ensures s.velocity == 0.0
    ensures t == Circular ==> s.diameter == d * 1000.0 && s.width == 0.0 && s.height == 0.0
    ensures t != Circular ==> s.width == d * 1000.0 && s.diameter == 0.0
    ensures KeepsHeight(t, hFix) ==> s.height == hFix
    ensures t != Circular && !KeepsHeight(t, hFix) ==> s.height == s.width
  {
    if t == Circular then
      Section(0.0, 0.0, d * 1000.0, Pi * d * d / 4.0, 0.0)
    else if KeepsHeight(t, hFix) then
      var width := d * 1000.0;
      Section(width, hFix, 0.0, (width / 1000.0) * (hFix / 1000.0), 0.0)
    else
      Section(d * 1000.0, d * 1000.0, 0.0, d * d, 0.0)
  }

  /**
   * Pressure mode: a non-positive target is rejected; otherwise the duct is
   * built from the size the search accepts, which lies strictly inside
   * (0.05 m, 5.0 m).
   */
  function SizeByPressure(t: DuctType, qs: real, targetTotal: real, hFix: real, m: Maths): (r: Option<Section>)
    requires qs > 0.0
    ensures r.None? <==> targetTotal <= 0.0
    ensures r.Some? ==>
      && r.value.velocity == 0.0
      && r.value.area > 0.0
      && r.value.area == GeometricArea(t, r.value.width, r.value.height, r.value.diameter)
    ensures r.Some? && t == Circular ==> 50.0 < r.value.diameter < 5000.0
    ensures r.Some? && t != Circular ==> 50.0 < r.value.width < 5000.0 && r.value.diameter == 0.0
    ensures r.Some? && KeepsHeight(t, hFix) ==> r.value.height == hFix
    ensures r.Some? && t != Circular && !KeepsHeight(t, hFix) ==> r.value.height == r.value.width
  {
    if targetTotal <= 0.0 then None
    else Some(SectionOfSize(t, hFix, PressureSize(t, qs, targetTotal, hFix, m)))
  }

  // --------------------------------------------------------- post-processing

  /** Hydraulic diameter (m) and equivalent diameter (mm) of an a × b rectangle in m, if both sides are positive. */
  function RectMetrics(a: real, b: real, m: Maths, otherwise: Metrics): (r: Metrics)
  {
    if a > 0.0 && b > 0.0 then Metrics(HydraulicDiameter(a, b), 1.30 * m.deCore(a, b) * 1000.0) else otherwise
  }

  /**
   * Hydraulic diameter (m) and equivalent diameter (mm) of a finished
   * cross-section. Oval ducts pass through the rectangular formulas twice,
   * as the calculator does.
   */
  function ShapeMetrics(t: DuctType, width: real, height: real, diameter: real, m: Maths): (r: Metrics)
    ensures t == Circular ==> r.dh == diameter / 1000.0 && r.de == diameter
    ensures t != Circular && width > 0.0 && height > 0.0 ==>
      r.dh * (2.0 * (width / 1000.0 + height / 1000.0)) == 4.0 * ((width / 1000.0) * (height / 1000.0))
    ensures t != Circular && width > 0.0 && height > 0.0 ==>
      r.de == 1.30 * m.deCore(width / 1000.0, height / 1000.0) * 1000.0
    ensures t != Circular && width > 0.0 && width == height ==> r.dh == width / 1000.0
    ensures t != Circular && !(width > 0.0 && height > 0.0) ==> r == Metrics(0.0, 0.0)
  {
    if t == Circular then Metrics(diameter / 1000.0, diameter)
    else
      var first := RectMetrics(width / 1000.0, height / 1000.0, m, Metrics(0.0, 0.0));
      if t == Oval then RectMetrics(width / 1000.0, height / 1000.0, m, first) else first
  }

  /**
   * Post-processing: the velocity from the area where no mode set it, a
   * circle's diameter copied into its width and height, and the reported
   * drop as the friction drop at the final geometry plus the fixed margin.
   */
  function Finish(t: DuctType, qs: real, flow: real, s: Section, m: Maths): (c: Calc)
    requires qs > 0.0 && s.area > 0.0
    requires s.velocity == 0.0 || s.velocity * s.area == qs
    ensures c.flow == flow && c.ductType == t && c.diameter == s.diameter
    ensures t == Circular ==> c.width == s.diameter && c.height == s.diameter
    ensures t != Circular ==> c.width == s.width && c.height == s.height
    ensures c.velocity > 0.0 && c.velocity * s.area == qs
    ensures GeometricArea(t, c.width, c.height, c.diameter) == GeometricArea(t, s.width, s.height, s.diameter)
    ensures s.velocity == 0.0 ==> c.velocity == qs / s.area
    ensures c.pressDrop - PressureMargin == FrictionDrop(qs, s.area, ShapeMetrics(t, c.width, c.height, c.diameter, m).dh, m)
    ensures c.de == ShapeMetrics(t, c.width, c.height, c.diameter, m).de
    ensures EquivalentDiameterReported(c, m)
    ensures PositiveRoots(m) ==> c.pressDrop >= PressureMargin
  {
    var velocity := if s.velocity == 0.0 && s.area > 0.0 then qs / s.area else s.velocity;
    var width := if t == Circular then s.diameter else s.width;
    var height := if t == Circular then s.diameter else s.height;
    var metrics := ShapeMetrics(t, width, height, s.diameter, m);
    var friction := FrictionDrop(qs, s.area, metrics.dh, m);
    Calc(width, height, s.diameter, velocity, metrics.de, friction + PressureMargin, flow, t)
  }

  // ------------------------------------------------------------- calculation

  /** The mode parameter the current mode reads is missing or out of range. */
  predicate ParametersInvalid(inp: Inputs)
  {
    match inp.mode
    case ByVelocity => inp.maxVelocity <= 0.0
    case ByDimensions => DimensionsInvalid(inp.ductType, inp.fixedWidth, inp.fixedHeight)
    case ByPressure => inp.targetPressure <= 0.0
  }

  /** The mode branch of the calculation: `None` when its parameter is rejected. */
  function SizeFor(inp: Inputs, qs: real, m: Maths): (r: Option<Section>)
    requires qs > 0.0
    ensures r.None? <==> ParametersInvalid(inp)
    ensures r.Some? ==> r.value.area > 0.0
    ensures r.Some? ==> r.value.velocity == 0.0 || r.value.velocity * r.value.area == qs
    ensures r.Some? && inp.mode == ByVelocity ==> r.value.velocity == 0.0 && qs / r.value.area == inp.maxVelocity
    ensures r.Some? && inp.ductType != Circular ==> r.value.diameter == 0.0
    ensures r.Some? && (inp.mode != ByVelocity || ExactSqrt(m)) ==>
      r.value.area == GeometricArea(inp.ductType, r.value.width, r.value.height, r.value.diameter)
  {
    match inp.mode
    case ByVelocity =>
      if inp.maxVelocity <= 0.0 then None
      else Some(SizeByVelocity(inp.ductType, qs, inp.maxVelocity, inp.optionalHeight, m))
    case ByDimensions => SizeByDimensions(inp.ductType, qs, inp.fixedWidth, inp.fixedHeight)
    case ByPressure => SizeByPressure(inp.ductType, qs, inp.targetPressure, inp.optionalHeight, m)
  }

  /**
   * The reported equivalent diameter (mm): a circle's diameter; for the
   * other shapes 1.30·(ab)^0.625/(a+b)^0.25 of the sides in m, times 1000,
   * when both sides are positive, and 0 otherwise.
   */
  predicate EquivalentDiameterReported(c: Calc, m: Maths)
  {
    && (c.ductType == Circular ==> c.de == c.diameter)
    && (c.ductType != Circular && c.width > 0.0 && c.height > 0.0 ==>
          c.de == 1.30 * m.deCore(c.width / 1000.0, c.height / 1000.0) * 1000.0)
    && (c.ductType != Circular && !(c.width > 0.0 && c.height > 0.0) ==> c.de == 0.0)
  }

  /**
   * One recalculation. A non-positive flow clears the results; a rejected
   * mode parameter abandons the recalculation; otherwise the calculation has
   * the input flow and duct type, a positive velocity (the maximum velocity
   * itself in the velocity mode), a circle's width and height equal to its
   * diameter, no diameter for the other shapes, and a reported drop of at
   * least the fixed margin when the fourth root is positive.
   */
  function Calculate(inp: Inputs, m: Maths): (r: Outcome)
    ensures r.Cleared? <==> inp.flow <= 0.0
    ensures r.Aborted? <==> inp.flow > 0.0 && ParametersInvalid(inp)
    ensures r.Computed? ==>
      && r.result.flow == inp.flow
      && r.result.ductType == inp.ductType
      && r.result.velocity > 0.0
      && (inp.ductType == Circular ==> r.result.width == r.result.diameter && r.result.height == r.result.diameter)
      && (inp.ductType != Circular ==> r.result.diameter == 0.0)
      && (inp.mode == ByVelocity ==> r.result.velocity == inp.maxVelocity)
      && (PositiveRoots(m) ==> r.result.pressDrop >= PressureMargin)
      && EquivalentDiameterReported(r.result, m)
  {
    var qs := PerSecond(inp.flow);
    if qs <= 0.0 then Cleared
    else
      match SizeFor(inp, qs, m)
      case None => Aborted
      case Some(s) =>
        Computed(Finish(inp.ductType, qs, inp.flow, s, m))
  }

  // ----------------------------------------------------------------- lemmas

  /** Velocity times the area of the reported cross-section is `qs`. */
  predicate CarriesFlow(c: Calc, qs: real)
  {
    c.velocity * GeometricArea(c.ductType, c.width, c.height, c.diameter) == qs
  }

  /**
   * Continuity: in every mode, the reported velocity times the area of the
   * reported cross-section is the flow in m³/s (in the velocity mode, given
   * exact square roots).
   */
  lemma Continuity(inp: Inputs, m: Maths)
    requires inp.flow > 0.0 && !ParametersInvalid(inp)
    requires inp.mode == ByVelocity ==> ExactSqrt(m)
    ensures Calculate(inp, m).Computed?
    ensures CarriesFlow(Calculate(inp, m).result, PerSecond(inp.flow))
  {
    CalculateComputes(inp, m);
    ComputedContinuity(inp, m, Calculate(inp, m).result);
  }

  /** Continuity of a given calculation. */
  lemma ComputedContinuity(inp: Inputs, m: Maths, c: Calc)
    requires inp.mode == ByVelocity ==> ExactSqrt(m)
    requires Calculate(inp, m) == Computed(c)
    ensures CarriesFlow(c, PerSecond(inp.flow))
  {
    CalculateComputes(inp, m);
    var qs := PerSecond(inp.flow);
    var s := SizeFor(inp, qs, m).value;
    SectionMatchesArea(inp, qs, m, s);
    FinishContinuity(inp.ductType, qs, inp.flow, s, m, c);
  }

  /** The section a mode produces carries the flow and has the area of its own dimensions. */
  lemma SectionMatchesArea(inp: Inputs, qs: real, m: Maths, s: Section)
    requires qs > 0.0 && SizeFor(inp, qs, m) == Some(s)
    requires inp.mode == ByVelocity ==> ExactSqrt(m)
    ensures s.area > 0.0
    ensures s.velocity == 0.0 || s.velocity * s.area == qs
    ensures s.area == GeometricArea(inp.ductType, s.width, s.height, s.diameter)
  {
  }

  /** Post-processing keeps velocity times area equal to the flow, on an area that matches its section. */
  lemma FinishContinuity(t: DuctType, qs: real, flow: real, s: Section, m: Maths, c: Calc)
    requires qs > 0.0 && s.area > 0.0
    requires s.velocity == 0.0 || s.velocity * s.area == qs
    requires s.area == GeometricArea(t, s.width, s.height, s.diameter)
    requires c == Finish(t, qs, flow, s, m)
    ensures c.velocity * GeometricArea(c.ductType, c.width, c.height, c.diameter) == qs
  {
    assert GeometricArea(c.ductType, c.width, c.height, c.diameter) == s.area;
  }

  /** A positive flow with an accepted mode parameter yields the post-processed section of that mode. */
  lemma CalculateComputes(inp: Inputs, m: Maths)
    requires inp.flow > 0.0 && !ParametersInvalid(inp)
    ensures PerSecond(inp.flow) > 0.0 && SizeFor(inp, PerSecond(inp.flow), m).Some?
    ensures var qs := PerSecond(inp.flow);
      Calculate(inp, m) == Computed(Finish(inp.ductType, qs, inp.flow, SizeFor(inp, qs, m).value, m))
  {
  }

  /**
   * The velocity mode reports the maximum velocity itself, honours a
   * positive optional height for rectangular and oval ducts, and otherwise
   * reports a square (or a circle).
   */
  lemma VelocityModeShape(inp: Inputs, m: Maths)
    requires inp.mode == ByVelocity && Calculate(inp, m).Computed?
    ensures var c := Calculate(inp, m).result;
      && c.velocity == inp.maxVelocity
      && (KeepsHeight(inp.ductType, inp.optionalHeight) ==> c.height == inp.optionalHeight)
      && (inp.ductType != Circular && !KeepsHeight(inp.ductType, inp.optionalHeight) ==> c.width == c.height)
      && (inp.ductType == Circular ==> c.width == c.height == c.diameter)
      && (ExactSqrt(m) && inp.ductType == Circular ==> c.diameter > 0.0)
      && (ExactSqrt(m) && inp.ductType != Circular ==> c.width > 0.0 && c.height > 0.0)
  {
    var qs := PerSecond(inp.flow);
    var s := SizeByVelocity(inp.ductType, qs, inp.maxVelocity, inp.optionalHeight, m);
    assert SizeFor(inp, qs, m) == Some(s);
  }

  /**
   * The dimensions mode reports the dimensions it was given: a circle's
   * diameter, a square's width in both directions, and the width and height
   * of a rectangular or oval duct.
   */
  lemma DimensionsModeKeepsInput(inp: Inputs, m: Maths)
    requires inp.mode == ByDimensions && inp.flow > 0.0
    requires !DimensionsInvalid(inp.ductType, inp.fixedWidth, inp.fixedHeight)
    ensures Calculate(inp, m).Computed?
    ensures var c := Calculate(inp, m).result;
      && (inp.ductType == Circular ==> c.diameter == c.width == c.height == inp.fixedWidth)
      && (inp.ductType != Circular ==> c.width == inp.fixedWidth)
      && (inp.ductType == Square ==> c.height == inp.fixedWidth)
      && (inp.ductType == Rectangular || inp.ductType == Oval ==> c.height == inp.fixedHeight)
  {
    var qs := PerSecond(inp.flow);
    assert SizeFor(inp, qs, m) == SizeByDimensions(inp.ductType, qs, inp.fixedWidth, inp.fixedHeight);
  }

  /**
   * The pressure mode reports the size the search accepted, and a drop equal
   * to the trial drop at that size plus the margin: the final geometry is
   * the trial geometry of the accepted size.
   */
  lemma PressureModeReportsTrial(inp: Inputs, m: Maths)
    requires inp.mode == ByPressure && inp.flow > 0.0 && inp.targetPressure > 0.0
    ensures Calculate(inp, m).Computed?
    ensures var qs := PerSecond(inp.flow);
      var d := PressureSize(inp.ductType, qs, inp.targetPressure, inp.optionalHeight, m);
      var c := Calculate(inp, m).result;
      && c.pressDrop == TrialDrop(inp.ductType, inp.optionalHeight, qs, m)(d) + PressureMargin
      && (inp.ductType == Circular ==> c.diameter == d * 1000.0)
      && (inp.ductType != Circular ==> c.width == d * 1000.0)
  {
    var qs := PerSecond(inp.flow);
    var t := inp.ductType;
    var hFix := inp.optionalHeight;
    var d := PressureSize(t, qs, inp.targetPressure, hFix, m);
    var s := SectionOfSize(t, hFix, d);
    assert SizeFor(inp, qs, m) == Some(s);
    var c := Finish(t, qs, inp.flow, s, m);
    TrialMetrics(t, hFix, d, m);
  }

  /** The hydraulic diameter of the final section is the one the trial used for the same size. */
  lemma TrialMetrics(t: DuctType, hFix: real, d: Size, m: Maths)
    ensures var s := SectionOfSize(t, hFix, d);
      var w := if t == Circular then s.diameter else s.width;
      var h := if t == Circular then s.diameter else s.height;
      ShapeMetrics(t, w, h, s.diameter, m).dh == TrialGeometry(t, hFix, d).dh
  {
    if t != Circular && KeepsHeight(t, hFix) {
      assert (d * 1000.0) / 1000.0 == d;
    } else if t != Circular {
      assert (d * 1000.0) / 1000.0 == d;
    }
  }

  /**
   * Square, rectangular and oval ducts with the same sides get the same
   * hydraulic and equivalent diameters: the oval block only repeats the
   * rectangular result, and the diameter field plays no part.
   */
  lemma NonCircularMetricsAgree(width: real, height: real, d1: real, d2: real, m: Maths)
    ensures ShapeMetrics(Oval, width, height, d1, m) == ShapeMetrics(Rectangular, width, height, d2, m)
    ensures ShapeMetrics(Square, width, height, d1, m) == ShapeMetrics(Rectangular, width, height, d2, m)
  {
  }

  /**
   * When the trial drop strictly decreases with size and meets the friction
   * target at some size inside the searched range, the pressure mode
   * reports a size within one resolution step of it.
   */
  lemma PressureModeAccuracy(inp: Inputs, m: Maths, x: Size)
    requires inp.mode == ByPressure && inp.flow > 0.0 && inp.targetPressure > 0.0
    requires Decreasing(TrialDrop(inp.ductType, inp.optionalHeight, PerSecond(inp.flow), m))
    requires Lower < x < Upper
    requires TrialDrop(inp.ductType, inp.optionalHeight, PerSecond(inp.flow), m)(x) == FrictionTarget(inp.targetPressure)
    ensures Calculate(inp, m).Computed?
    ensures var c := Calculate(inp, m).result;
      var size := (if inp.ductType == Circular then c.diameter else c.width) / 1000.0;
      -Resolution() <= size - x <= Resolution()
  {
    var qs := PerSecond(inp.flow);
    var drop := TrialDrop(inp.ductType, inp.optionalHeight, qs, m);
    SearchIsAccurate(drop, FrictionTarget(inp.targetPressure), x);
    PressureModeReportsTrial(inp, m);
  }

  /**
   * An oval duct is computed exactly as a rectangular one with the same
   * inputs: only the recorded duct type differs.
   */
  lemma OvalMatchesRectangular(inp: Inputs, m: Maths)
    requires inp.ductType == Rectangular
    ensures var o := Calculate(inp.(ductType := Oval), m);
      var r := Calculate(inp, m);
      && (o.Cleared? <==> r.Cleared?)
      && (o.Aborted? <==> r.Aborted?)
      && (o.Computed? ==> r.Computed? && o.result == r.result.(ductType := Oval))
  {
    var oval := inp.(ductType := Oval);
    var qs := PerSecond(inp.flow);
    if qs > 0.0 && !ParametersInvalid(inp) {
      OvalSizedAsRectangular(inp, qs, m);
      var s := SizeFor(inp, qs, m).value;
      assert ShapeMetrics(Oval, s.width, s.height, s.diameter, m) == ShapeMetrics(Rectangular, s.width, s.height, s.diameter, m);
      CalculateComputes(oval, m);
      CalculateComputes(inp, m);
    }
  }

  /** Every sizing mode gives an oval duct the section it gives a rectangular one. */
  lemma OvalSizedAsRectangular(inp: Inputs, qs: real, m: Maths)
    requires inp.ductType == Rectangular && qs > 0.0
    ensures SizeFor(inp.(ductType := Oval), qs, m) == SizeFor(inp, qs, m)
  {
    var h := inp.optionalHeight;
    if inp.mode == ByPressure && inp.targetPressure > 0.0 {
      var oval := TrialDrop(Oval, h, qs, m);
      var rect := TrialDrop(Rectangular, h, qs, m);
      forall d: Size
        ensures oval(d) == rect(d)
      {
        assert TrialGeometry(Oval, h, d) == TrialGeometry(Rectangular, h, d);
      }
      SearchDependsOnValues(oval, rect, FrictionTarget(inp.targetPressure));
      var d := PressureSize(Rectangular, qs, inp.targetPressure, h, m);
      assert PressureSize(Oval, qs, inp.targetPressure, h, m) == d;
      assert SectionOfSize(Oval, h, d) == SectionOfSize(Rectangular, h, d);
      assert SizeFor(inp.(ductType := Oval), qs, m) == SizeByPressure(Oval, qs, inp.targetPressure, h, m);
      assert SizeFor(inp, qs, m) == SizeByPressure(Rectangular, qs, inp.targetPressure, h, m);
      assert SizeByPressure(Oval, qs, inp.targetPressure, h, m) == Some(SectionOfSize(Oval, h, d));
      assert SizeByPressure(Rectangular, qs, inp.targetPressure, h, m) == Some(SectionOfSize(Rectangular, h, d));
    } else if inp.mode == ByVelocity && inp.maxVelocity > 0.0 {
      assert SizeByVelocity(Oval, qs, inp.maxVelocity, h, m) == SizeByVelocity(Rectangular, qs, inp.maxVelocity, h, m);
    } else if inp.mode == ByDimensions {
      DimensionsIgnoreOval(qs, inp.fixedWidth, inp.fixedHeight);
    }
  }

  /** The dimensions mode sizes an oval duct as a rectangular one. */
  lemma DimensionsIgnoreOval(qs: real, width: real, height: real)
    requires qs > 0.0
    ensures SizeByDimensions(Oval, qs, width, height) == SizeByDimensions(Rectangular, qs, width, height)
  {
    var o := SizeByDimensions(Oval, qs, width, height);
    var r := SizeByDimensions(Rectangular, qs, width, height);
    if o.Some? {
      assert o.value.width == r.value.width && o.value.height == r.value.height;
      assert o.value.area == r.value.area && o.value.velocity == r.value.velocity;
    }
  }

  /**
   * A 500 m³/h flow through a square duct 300 mm wide: the height is 300 mm
   * and the velocity is the flow per second over 0.09 m².
   */
  lemma SquareDuctScenario(m: Maths)
    ensures var inp := Inputs(500.0, Square, ByDimensions, 0.0, 0.0, 300.0, 0.0, 0.0);
      var r := Calculate(inp, m);
      && r.Computed?
      && r.result.width == 300.0 && r.result.height == 300.0 && r.result.diameter == 0.0
      && r.result.velocity == (500.0 / 3600.0) / 0.09
  {
    var inp := Inputs(500.0, Square, ByDimensions, 0.0, 0.0, 300.0, 0.0, 0.0);
    var qs := PerSecond(500.0);
    assert SizeFor(inp, qs, m) == SizeByDimensions(Square, qs, 300.0, 0.0);
  }
}
