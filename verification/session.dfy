/**
 * The calculator's session: the form inputs, the outlets pending on the
 * segment being drawn with their deduction, the saved segments, the last
 * calculation (kept for saving) and the results on display. Every user
 * action is a function from one session to the next.
 */
module Session {
  import opened Options
  import opened Duct
  import opened Engine
  import opened Outlets

  /** A segment's dimensions as saved: the diameter of a circular duct, width × height of any other, in mm. */
  datatype Dimensions = Round(diameter: real) | Sides(width: real, height: real)

  /**
   * A saved segment: its sequence number (from 1), its flow in m³/h, duct
   * type, dimensions, velocity in m/s, pressure drop in Pa/m, the outlets it
   * feeds and their total flow.
   */
  datatype Segment = Segment(
    id: nat,
    flow: real,
    ductType: DuctType,
    dimensions: Dimensions,
    velocity: real,
    pressure: real,
    outlets: seq<Outlet>,
    deduction: real)

  /**
   * The session. `current` is the last calculation produced, the one a save
   * stores; `shown` is what the results panel displays, which a non-positive
   * flow clears while `current` stays.
   */
  datatype State = State(
    inputs: Inputs,
    outlets: seq<Outlet>,
    deduction: real,
    segments: seq<Segment>,
    current: Option<Calc>,
    shown: Option<Calc>)

  /** Why an action left the session as it was. */
  datatype Refusal = MissingIdOrFlow | NoCalculation | Declined

  /** The result of an action that may be refused. */
  datatype Step = Accepted(next: State) | Rejected(reason: Refusal)

  /** A fresh session on the given form: nothing pending, nothing saved, nothing calculated. */
  function Initial(inputs: Inputs): (s: State)
    ensures s.inputs == inputs
    ensures s.outlets == [] && s.segments == []
    ensures s.current.None? && s.shown.None?
    ensures Valid(s)
  {
    State(inputs, [], 0.0, [], None, None)
  }

  /**
   * The session invariant: the deduction is the sum of the pending outlets'
   * totals, every outlet is well formed, segments are numbered 1, 2, 3, …
   * and each carries the sum of its own outlets, and the results on display
   * are the last calculation.
   */
  ghost predicate Valid(s: State)
  {
    && s.deduction == Sum(s.outlets)
    && AllWellFormed(s.outlets)
    && (forall i :: 0 <= i < |s.segments| ==> SegmentValid(s.segments[i], i))
    && (s.shown.Some? ==> s.shown == s.current)
  }

  /** The segment at position `i` of the list. */
  ghost predicate SegmentValid(seg: Segment, i: nat)
  {
    && seg.id == i + 1
    && seg.deduction == Sum(seg.outlets)
    && AllWellFormed(seg.outlets)
  }

  // ---------------------------------------------------------- recalculation

  /**
   * Recalculate from the form: a non-positive flow blanks the results but
   * keeps the last calculation, a rejected mode parameter changes nothing,
   * and a calculation replaces both the last calculation and the display.
   * Outlets and segments are never touched.
   */
  function Recalculate(s: State, m: Maths): (r: State)
    ensures r.inputs == s.inputs && r.outlets == s.outlets && r.deduction == s.deduction && r.segments == s.segments
    ensures s.inputs.flow <= 0.0 ==> r.current == s.current && r.shown.None?
    ensures s.inputs.flow > 0.0 && ParametersInvalid(s.inputs) ==> r == s
    ensures s.inputs.flow > 0.0 && !ParametersInvalid(s.inputs) ==>
      && r.current.Some?
      && r.shown == r.current
      && Calculate(s.inputs, m) == Computed(r.current.value)
  {
    match Calculate(s.inputs, m)
    case Cleared => s.(shown := None)
    case Aborted => s
    case Computed(c) => s.(current := Some(c), shown := Some(c))
  }

  /** Editing the form: the new inputs take effect and the calculation reruns. */
  function SetInputs(s: State, inputs: Inputs, m: Maths): (r: State)
    ensures r.inputs == inputs
    ensures r.outlets == s.outlets && r.deduction == s.deduction && r.segments == s.segments
    ensures inputs.flow <= 0.0 ==> r.current == s.current && r.shown.None?
    ensures inputs.flow > 0.0 && ParametersInvalid(inputs) ==> r.current == s.current && r.shown == s.shown
    ensures inputs.flow > 0.0 && !ParametersInvalid(inputs) ==>
      && r.current.Some?
      && r.shown == r.current
      && Calculate(inputs, m) == Computed(r.current.value)
  {
    Recalculate(s.(inputs := inputs), m)
  }

  // ---------------------------------------------------------------- outlets

  /**
   * Add an outlet from the form fields. A blank id or a non-positive flow
   * is refused; otherwise the outlet goes to the end of the list and the
   * deduction is recomputed over the list.
   */
  function AddOutlet(s: State, rawId: string, kind: string, rawQty: int, flow: real): (r: Step)
    ensures r.Rejected? <==> Blank(rawId) || flow <= 0.0
    ensures r.Rejected? ==> r.reason == MissingIdOrFlow
    ensures r.Accepted? ==>
      && |r.next.outlets| == |s.outlets| + 1
      && r.next.outlets[..|s.outlets|] == s.outlets
      && Some(r.next.outlets[|s.outlets|]) == MakeOutlet(rawId, kind, rawQty, flow)
      && r.next.deduction == Sum(r.next.outlets)
      && r.next == s.(outlets := r.next.outlets, deduction := r.next.deduction)
  {
    match MakeOutlet(rawId, kind, rawQty, flow)
    case None => Rejected(MissingIdOrFlow)
    case Some(o) =>
      var outlets := s.outlets + [o];
      assert outlets[..|s.outlets|] == s.outlets;
      Accepted(s.(outlets := outlets, deduction := Sum(outlets)))
  }

  /** Adding an outlet raises the deduction by the outlet's total, quantity × flow, and keeps the session valid. */
  lemma AddOutletDeduction(s: State, rawId: string, kind: string, rawQty: int, flow: real)
    requires Valid(s)
    requires !Blank(rawId) && flow > 0.0
    ensures var r := AddOutlet(s, rawId, kind, rawQty, flow);
      && r.Accepted?
      && r.next.deduction == s.deduction + EffectiveQuantity(rawQty) as real * flow
      && Valid(r.next)
  {
    var o := MakeOutlet(rawId, kind, rawQty, flow).value;
    SumAppend(s.outlets, o);
    var next := AddOutlet(s, rawId, kind, rawQty, flow).next;
    assert next.outlets == s.outlets + [o];
    assert AllWellFormed(next.outlets) by {
      forall i | 0 <= i < |next.outlets|
        ensures WellFormed(next.outlets[i])
      {
        if i < |s.outlets| {
          assert next.outlets[i] == s.outlets[i];
        }
      }
    }
  }

  /**
   * Remove the outlet at a list position (a one-element splice) and
   * recompute the deduction; nothing else changes.
   */
  function RemoveOutlet(s: State, index: int): (r: State)
    ensures r.outlets == RemoveAt(s.outlets, index)
    ensures r.deduction == Sum(r.outlets)
    ensures r == s.(outlets := r.outlets, deduction := r.deduction)
  {
    var outlets := RemoveAt(s.outlets, index);
    s.(outlets := outlets, deduction := Sum(outlets))
  }

  /** Removing an outlet takes its total off the deduction and keeps the session valid. */
  lemma RemoveOutletDeduction(s: State, index: int)
    requires Valid(s)
    ensures var r := RemoveOutlet(s, index);
      var k := SpliceStart(|s.outlets|, index);
      && (k < |s.outlets| ==> r.deduction == s.deduction - s.outlets[k].total)
      && (k == |s.outlets| ==> r == s)
      && Valid(r)
  {
    var k := SpliceStart(|s.outlets|, index);
    if k < |s.outlets| {
      RemoveAtSum(s.outlets, index);
    }
    RemoveAtWellFormed(s.outlets, index);
  }

  // ----------------------------------------------------------------- saving

  /** The aspect-ratio guard: a rectangular or oval duct with both sides positive and one side more than four times the other. */
  predicate NeedsConfirmation(c: Calc)
  {
    && (c.ductType == Rectangular || c.ductType == Oval)
    && c.width > 0.0 && c.height > 0.0
    && Max(c.width / c.height, c.height / c.width) > 4.0
  }

  /** The guard without division: it asks exactly when one side exceeds four times the other. */
  lemma NeedsConfirmationSides(c: Calc)
    ensures NeedsConfirmation(c) <==>
      && (c.ductType == Rectangular || c.ductType == Oval)
      && c.width > 0.0 && c.height > 0.0
      && (c.width > 4.0 * c.height || c.height > 4.0 * c.width)
  {
    if c.width > 0.0 && c.height > 0.0 {
      RatioAbove(c.width, c.height);
      RatioAbove(c.height, c.width);
    }
  }

  lemma RatioAbove(a: real, b: real)
    requires a > 0.0 && b > 0.0
    ensures a / b > 4.0 <==> a > 4.0 * b
  {
    assert a / b * b == a;
    if a / b > 4.0 {
      MulLt(b, 4.0, a / b);
    } else {
      MulLe(b, a / b, 4.0);
    }
  }

  /** The dimensions a calculation is saved with. */
  function DimensionsOf(c: Calc): (d: Dimensions)
    ensures d.Round? <==> c.ductType == Circular
    ensures d.Round? ==> d.diameter == c.diameter
    ensures d.Sides? ==> d.width == c.width && d.height == c.height
  {
    if c.ductType == Circular then Round(c.diameter) else Sides(c.width, c.height)
  }

  /** The segment a calculation is saved as, with the pending outlets and their deduction. */
  function SegmentOf(id: nat, c: Calc, outlets: seq<Outlet>, deduction: real): (seg: Segment)
    ensures seg.id == id && seg.outlets == outlets && seg.deduction == deduction
    ensures seg.flow == c.flow && seg.ductType == c.ductType && seg.dimensions == DimensionsOf(c)
    ensures seg.velocity == c.velocity && seg.pressure == c.pressDrop
  {
    Segment(id, c.flow, c.ductType, DimensionsOf(c), c.velocity, c.pressDrop, outlets, deduction)
  }

  /**
   * Save the last calculation as a segment. Without a calculation, or when
   * the aspect-ratio guard asks and the user declines, nothing changes.
   * Otherwise the segment is appended with the next sequence number, the
   * pending outlets and the deduction; the form's flow becomes what is
   * left, max(0, flow − deduction); the outlet list is emptied; and the
   * calculation reruns. `confirmed` is the user's answer to the guard's
   * question, read only when the guard asks.
   */
  function SaveSegment(s: State, confirmed: bool, m: Maths): (r: Step)
    ensures r.Rejected? && r.reason == NoCalculation <==> s.current.None?
    ensures r.Rejected? && r.reason == Declined <==>
      s.current.Some? && NeedsConfirmation(s.current.value) && !confirmed
    ensures r.Rejected? ==> r.reason != MissingIdOrFlow
    ensures r.Accepted? ==>
      var c := s.current.value;
      && |r.next.segments| == |s.segments| + 1
      && r.next.segments[..|s.segments|] == s.segments
      && r.next.segments[|s.segments|] == SegmentOf(|s.segments| + 1, c, s.outlets, s.deduction)
      && r.next.inputs == s.inputs.(flow := r.next.inputs.flow)
      && r.next.inputs.flow >= 0.0
      && r.next.inputs.flow >= c.flow - s.deduction
      && (r.next.inputs.flow == 0.0 || r.next.inputs.flow == c.flow - s.deduction)
      && r.next.outlets == [] && r.next.deduction == 0.0
    ensures r.Accepted? && r.next.inputs.flow <= 0.0 ==>
      r.next.current == s.current && r.next.shown.None?
    ensures r.Accepted? && r.next.inputs.flow > 0.0 && ParametersInvalid(r.next.inputs) ==>
      r.next.current == s.current && r.next.shown == s.shown
    ensures r.Accepted? && r.next.inputs.flow > 0.0 && !ParametersInvalid(r.next.inputs) ==>
      && r.next.current.Some?
      && r.next.shown == r.next.current
      && Calculate(r.next.inputs, m) == Computed(r.next.current.value)
  {
    match s.current
    case None => Rejected(NoCalculation)
    case Some(c) =>
      if NeedsConfirmation(c) && !confirmed then Rejected(Declined)
      else
        var segments := s.segments + [SegmentOf(|s.segments| + 1, c, s.outlets, s.deduction)];
        assert segments[..|s.segments|] == s.segments;
        var remaining := Max(0.0, c.flow - s.deduction);
        Accepted(Recalculate(State(s.inputs.(flow := remaining), [], 0.0, segments, s.current, s.shown), m))
  }

  /** Saving keeps the session valid. */
  lemma SaveSegmentValid(s: State, confirmed: bool, m: Maths)
    requires Valid(s)
    ensures var r := SaveSegment(s, confirmed, m);
      r.Accepted? ==> Valid(r.next)
  {
    var r := SaveSegment(s, confirmed, m);
    if r.Accepted? {
      var n := |s.segments|;
      var segs := r.next.segments;
      forall i | 0 <= i < |segs|
        ensures SegmentValid(segs[i], i)
      {
        if i < n {
          assert segs[i] == segs[..n][i];
        }
      }
      assert Sum([]) == 0.0;
    }
  }

  /** Recalculating and editing the form keep the session valid. */
  lemma SetInputsValid(s: State, inputs: Inputs, m: Maths)
    requires Valid(s)
    ensures Valid(SetInputs(s, inputs, m))
    ensures Valid(Recalculate(s, m))
  {
  }

  /**
   * When the pending outlets take all of the segment's flow, the next flow
   * is 0: the display is blanked but the saved calculation stays the last
   * one, so a second save stores the same calculation again.
   */
  lemma ExhaustedFlowKeepsCalculation(s: State, confirmed: bool, m: Maths)
    requires s.current.Some? && !NeedsConfirmation(s.current.value)
    requires s.current.value.flow <= s.deduction
    ensures var r := SaveSegment(s, confirmed, m);
      && r.Accepted?
      && r.next.inputs.flow == 0.0
      && r.next.current == s.current
      && r.next.shown.None?
      && var again := SaveSegment(r.next, confirmed, m);
        && again.Accepted?
        && again.next.segments[|s.segments| + 1] == SegmentOf(|s.segments| + 2, s.current.value, [], 0.0)
  {
  }

  /**
   * A worked session: 1000 m³/h through a 300 mm square duct, one outlet
   * "O1" of two 50 m³/h grilles, then a save. The saved segment carries the
   * 1000 m³/h and the 100 m³/h deduction, and the calculation reruns on the
   * remaining 900 m³/h.
   */
  lemma SaveScenario(m: Maths)
    ensures var inp := Inputs(1000.0, Square, ByDimensions, 0.0, 0.0, 300.0, 0.0, 0.0);
      var s1 := SetInputs(Initial(inp), inp, m);
      var a := AddOutlet(s1, "O1", "grille", 2, 50.0);
      && a.Accepted?
      && a.next.deduction == 100.0
      && var saved := SaveSegment(a.next, false, m);
        && saved.Accepted?
        && saved.next.segments == [SegmentOf(1, s1.current.value, a.next.outlets, 100.0)]
        && s1.current.value.flow == 1000.0
        && saved.next.inputs.flow == 900.0
        && saved.next.current.Some?
        && saved.next.current.value.flow == 900.0
        && saved.next.outlets == []
  {
    var inp := Inputs(1000.0, Square, ByDimensions, 0.0, 0.0, 300.0, 0.0, 0.0);
    var s1 := SetInputs(Initial(inp), inp, m);
    FirstCalculation(inp, m);
    OneOutlet(s1);
    var a := AddOutlet(s1, "O1", "grille", 2, 50.0);
    SaveRemainder(a.next, m);
  }

  /** A positive flow on a valid form computes a calculation for it on a fresh session. */
  lemma FirstCalculation(inp: Inputs, m: Maths)
    requires inp.flow > 0.0 && !ParametersInvalid(inp)
    ensures var s := SetInputs(Initial(inp), inp, m);
      && Valid(s)
      && s.outlets == [] && s.deduction == 0.0 && s.segments == []
      && s.current.Some? && s.current.value.flow == inp.flow && s.current.value.ductType == inp.ductType
  {
    CalculateComputes(inp, m);
  }

  /** Adding two 50 m³/h grilles under the id "O1" to an empty list gives a 100 m³/h deduction. */
  lemma OneOutlet(s: State)
    requires Valid(s) && s.outlets == []
    ensures var a := AddOutlet(s, "O1", "grille", 2, 50.0);
      && a.Accepted?
      && a.next.deduction == 100.0
      && a.next.current == s.current && a.next.inputs == s.inputs && a.next.segments == s.segments
  {
    assert !Blank("O1") by {
      assert !IsSpace("O1"[0]);
    }
    AddOutletDeduction(s, "O1", "grille", 2, 50.0);
  }

  /** Saving a square-duct calculation of 1000 m³/h with a 100 m³/h deduction reruns the calculation on 900 m³/h. */
  lemma SaveRemainder(s: State, m: Maths)
    requires s.current.Some? && s.current.value.flow == 1000.0 && s.current.value.ductType == Square
    requires s.deduction == 100.0
    requires s.inputs.ductType == Square && s.inputs.mode == ByDimensions && s.inputs.fixedWidth == 300.0
    ensures var saved := SaveSegment(s, false, m);
      && saved.Accepted?
      && saved.next.segments == s.segments + [SegmentOf(|s.segments| + 1, s.current.value, s.outlets, 100.0)]
      && saved.next.inputs.flow == 900.0
      && saved.next.current.Some?
      && saved.next.current.value.flow == 900.0
      && saved.next.outlets == []
  {
    var next := s.inputs.(flow := 900.0);
    CalculateComputes(next, m);
  }
}
