# CalculaDutos duct sizing, modelled in Dafny

CalculaDutos is a browser calculator for HVAC air ducts. From an air flow in
m³/h, a duct type (circular, square, rectangular, oval) and one of three
sizing modes, it computes the duct's dimensions, velocity, hydraulic and
equivalent diameter, and friction pressure drop:

- **velocity mode**: the maximum velocity is given;
- **dimensions mode**: the cross-section is given;
- **pressure mode**: a target pressure drop is given, and a fixed
  30-step bisection finds the duct size.

Around the calculation sits a small session:

- outlets are added to the segment being drawn, and their total flow is
  deducted from it;
- a segment is saved together with its outlets, which seeds the next
  segment's flow with what is left;
- the saved segments are flattened into report rows.

The project models that core of `script.js`, and proves what the code
guarantees, as pure functions over exact reals:

| file | module | contents |
|---|---|---|
| `options.dfy` | `Options` | `Option` and `Max` |
| `duct.dfy` | `Duct` | duct types, the air and duct constants, flow conversion, hydraulic diameter, the Darcy–Weisbach friction drop with the Altshul–Tsal factor |
| `bisection.dfy` | `Bisection` | the 30-step bisection, generic over any drop function |
| `engine.dfy` | `Engine` | the three sizing modes, post-processing, and `Calculate`, one recalculation |
| `outlets.dfy` | `Outlets` | JavaScript `trim`, building an outlet, the deduction sum, and `splice`-based removal |
| `session.dfy` | `Session` | the session record and its actions: recalculate, add or remove an outlet, save a segment |
| `report.dfy` | `Report` | the report rows |

Square root, the fourth root of the Altshul–Tsal factor and the
`(ab)^0.625/(a+b)^0.25` core of the equivalent diameter are the fields of
a `Maths` record. The model treats them as uninterpreted. What a proof
needs of them it takes as an explicit hypothesis:

- `PositiveRoots`: fourth roots of positive numbers are positive;
- `ExactSqrt`: `sqrt(x) ≥ 0` and `sqrt(x)·sqrt(x) = x` for x ≥ 0.

The results that matter are these:

- **Input guards.** The calculation clears the results exactly when the
  flow is not positive. It aborts, changing nothing, exactly when the
  mode's parameter is rejected.
- **Continuity.** In every mode, velocity × area of the reported section
  equals the flow in m³/s (in the velocity mode, given exact square
  roots).
- **Bisection.** The search keeps 0.05 ≤ lo < hi ≤ 5.0 and halves the
  bracket each step. It accepts a size strictly inside the range.
  - For a non-increasing drop, the bracket separates the sizes that are
    too small from those that are large enough.
  - For a strictly decreasing drop that meets the target, the accepted
    size is within (5.0 − 0.05)/2³⁰ m of the crossing.
- **Oval ducts.** An oval duct is computed exactly as a rectangular one.
- **Session invariant.** These facts are kept by every action:
  - the deduction equals the sum of the pending outlets' totals;
  - outlets are well formed;
  - segments are numbered 1, 2, 3, … and each carries the sum of its
    own outlets;
  - the results on display are the last calculation.
- **Saving.** A save appends a segment with the next number and seeds
  the flow with max(0, Q − deduction). It is refused without a
  calculation, and when the aspect-ratio guard asks and the user
  declines.
- **Report.** The report has one row per (segment, outlet) pair, plus one
  placeholder row per segment without outlets, in segment order and then
  outlet order.

Details of the code that the model keeps:

- **Outlet quantity.** Any non-zero parsed integer is kept, negative ones
  included; only 0 (an absent or unparsable field) becomes 1.
- **Outlet ids.** Outlet ids are not checked for uniqueness.
- **Removing outlets.** Outlets are removed by list position with
  `splice`, including `splice`'s handling of negative and out-of-range
  positions.
- **Search range.** A comment in the code gives the search range as
  0.05 m to 3.0 m, but the code searches [0.05, 5.0]. The model uses 5.0.
- **Stale calculation.** After a non-positive flow the last calculation
  stays saved even though the display is cleared. A save at that point
  stores the old calculation again
  (`Session.ExhaustedFlowKeepsCalculation`). This happens in particular
  after a save whose outlets took the whole flow.

## Model

| member | source | states |
|---|---|---|
| Duct.PerSecond | script.js:123-127 | the flow in m³/s is the m³/h flow over 3600, and is positive exactly when the input flow is |
| Duct.HydraulicDiameter | script.js:290-295 | 2ab/(a+b) is four times the area over the perimeter, lies between the two sides, and equals the side when a = b |
| Duct.FrictionDrop | script.js:152-165 | the drop is 0 when the area or the hydraulic diameter is not positive, and positive otherwise when fourth roots are positive |
| Duct.DropAtVelocity | script.js:154-164 | the Darcy–Weisbach drop with the Altshul–Tsal factor is positive for positive velocity and diameter when fourth roots are positive |
| Duct.FrictionDependsOnVelocity | script.js:152-165 | the drop depends on flow and area only through the mean velocity Q/A |
| Engine.SizeByVelocity | script.js:169-190 | area × v_max = Q_s and Q_s/area = v_max; a kept fixed height gives width × height = area·10⁶; other non-circular ducts get width = height; with exact roots the dimensions are positive and reproduce the area |
| Engine.VelocityModeShape | script.js:169-190 | the velocity mode reports v_max itself, honours a positive optional height for rectangular and oval ducts, and reports a square otherwise; with exact roots the reported dimensions are positive |
| Engine.SizeByDimensions | script.js:192-204 | rejected exactly when the width, or the height of a non-square non-circular duct, is not positive; otherwise velocity × area = Q_s and a square's height is its width |
| Engine.DimensionsModeKeepsInput | script.js:192-204 | the dimensions mode reports the given diameter, width and height, with a square's height copied from its width |
| Engine.SquareDuctScenario | script.js:192-204 | 500 m³/h through a 300 mm square duct gives 300 × 300 mm, no diameter, and velocity (500/3600)/0.09 m/s |
| Engine.FrictionTarget | script.js:207-216 | the friction target is max(0.001, target − 0.35), so it is at least 0.001 |
| Engine.TrialGeometry | script.js:226-241 | the trial area and hydraulic diameter of every positive size are positive |
| Engine.TrialDrop | script.js:225-243 | the drop the search runs on at size d is the friction drop of the trial geometry at d; `Engine.TrialMetrics` ties that geometry to the finished section's metrics |
| Engine.SectionOfSize | script.js:253-268 | the final geometry of the accepted size is its trial geometry: diameter or width d·1000, the fixed height or a square, and the same area |
| Engine.SizeByPressure | script.js:206-268 | rejected exactly when the target is not positive; otherwise the diameter or width lies strictly inside (50, 5000) mm, and the area matches the dimensions |
| Engine.PressureModeReportsTrial | script.js:222-268 | the reported drop is the trial drop at the accepted size plus 0.35, and the reported size is the accepted size in mm |
| Engine.PressureModeAccuracy | script.js:218-268 | for a strictly decreasing trial drop that meets the target inside the range, the reported size is within one resolution step of the crossing |
| Engine.ShapeMetrics | script.js:281-306 | a circle's hydraulic and equivalent diameters are its diameter; other shapes with both sides positive get four times area over perimeter as hydraulic diameter and 1.30·(ab)^0.625/(a+b)^0.25·1000 as equivalent diameter, the hydraulic one equal to the side when the sides are equal; both are 0 unless both sides are positive |
| Engine.NonCircularMetricsAgree | script.js:285-306 | square, rectangular and oval ducts with the same sides get the same metrics; the oval block repeats the rectangular result |
| Engine.Finish | script.js:271-310 | velocity × area = Q_s with a positive velocity; a circle gets width = height = diameter; the drop is the friction drop at the final geometry plus 0.35; the reported equivalent diameter is the one the shape's metrics give |
| Engine.ParametersInvalid | script.js:169-208 | the guards of the three modes: v_max ≤ 0, a non-positive diameter or side (the square reading its width twice), a target ≤ 0; `Engine.SizeFor` and `Engine.Calculate` prove a branch is rejected exactly when it holds |
| Engine.SizeFor | script.js:167-269 | a mode branch is rejected exactly when its parameter is invalid; otherwise its section has positive area and carries the flow |
| Engine.Calculate | script.js:121-327 | results are cleared exactly when the flow is not positive and aborted exactly on a rejected mode parameter; a calculation keeps the flow and type, has a positive velocity, and has a drop of at least 0.35; its equivalent diameter is the diameter for a circle, 1.30·(ab)^0.625/(a+b)^0.25·1000 for other shapes with both sides positive, and 0 otherwise |
| Engine.Continuity | script.js:173-274 | in every mode, the reported velocity times the area of the reported section equals Q_s |
| Engine.CalculateComputes | script.js:121-327 | a positive flow with a valid mode parameter always yields a calculation |
| Engine.OvalMatchesRectangular | script.js:175-306 | an oval duct is cleared, aborted or computed exactly as a rectangular one with the same inputs, with the same numbers |
| Engine.OvalSizedAsRectangular | script.js:175-268 | each sizing mode gives an oval duct the section it gives a rectangular one |
| Bisection.Halve | script.js:223-250 | one iteration: the last midpoint is the bracket's midpoint, the width halves, the lower end moves only to a midpoint whose drop is above the target and the upper end only to one whose drop is not |
| Bisection.HalveFacts | script.js:222-251 | one iteration keeps the new bracket inside the old one, halves its width, places the midpoint strictly inside at one end, and preserves the bracket invariant |
| Bisection.After | script.js:219-251 | the state after n iterations; `Bisection.AfterFacts` proves its bounds, width and bracket invariant, and `Bisection.SearchLoop` that the loop ends in After(30) |
| Bisection.AfterFacts | script.js:219-251 | after n iterations, 0.05 ≤ lo < hi ≤ 5.0, the width is 4.95/2ⁿ, the last midpoint is at one end strictly inside the range, and the bracket invariant holds |
| Bisection.Search | script.js:219-251 | the accepted size lies strictly inside (0.05, 5.0) |
| Bisection.SearchLoop | script.js:219-251 | the 30-pass loop ends in the state the iteration function describes and returns the search's size |
| Bisection.SearchSeparates | script.js:245-249 | for a non-increasing drop, every size up to the final lower end is too small and every size from the final upper end on is large enough, except at the original ends |
| Bisection.SearchIsAccurate | script.js:219-251 | for a strictly decreasing drop crossing the target inside the range, the accepted size is within (5.0 − 0.05)/2³⁰ m of the crossing |
| Bisection.SearchDependsOnValues | script.js:243-249 | two drop functions that agree everywhere give the same size |
| Outlets.Leading | script.js:350 | the count of leading whitespace characters: all of them are whitespace and the next is not |
| Outlets.Trailing | script.js:350 | the count of trailing whitespace characters: all of them are whitespace and the one before is not |
| Outlets.Trim | script.js:350 | the trimmed id is the piece of the input after its leading whitespace, followed only by whitespace, with non-space ends, and empty exactly when the input is blank |
| Outlets.TrimIdempotent | script.js:350 | trimming twice is trimming once |
| Outlets.EffectiveQuantity | script.js:352 | an absent or zero quantity becomes 1 and any other is kept |
| Outlets.MakeOutlet | script.js:349-358 | rejected exactly when the trimmed id is empty or the flow is not positive; otherwise a well-formed outlet with the trimmed id and total = quantity × flow |
| Outlets.Sum | script.js:371-377 | the sum of the outlets' totals; `Outlets.SumConcat` and `Outlets.SumAppend` prove it additive, and `Outlets.TotalDeduction` that the running total equals it |
| Outlets.TotalDeduction | script.js:369-390 | the running total over the list equals the sum of the outlets' totals |
| Outlets.SpliceStart | script.js:392-395 | the splice position is the index when in range, counts from the end when negative (floored at 0), and is clamped to the length |
| Outlets.RemoveAt | script.js:392-395 | exactly the outlet at the splice position is removed and the others keep their order; at the end position nothing changes |
| Outlets.RemoveAtSum | script.js:392-395 | removing an outlet takes its total off the sum |
| Outlets.RemoveAtWellFormed | script.js:392-395 | removing keeps every remaining outlet well formed |
| Session.Initial | script.js:3-10 | a fresh session has no outlets, segments or calculation, and is valid |
| Session.Recalculate | script.js:121-327 | a non-positive flow blanks the display and keeps the last calculation; a rejected parameter changes nothing; a calculation replaces both; outlets and segments are untouched |
| Session.SetInputs | script.js:59-67 | a form edit keeps the outlets and segments; a non-positive flow clears the display and keeps the last calculation; invalid parameters leave both as they were; otherwise the display shows a fresh calculation of the new inputs |
| Session.SetInputsValid | script.js:59-67 | editing the form keeps the session invariant |
| Session.AddOutlet | script.js:349-367 | rejected exactly on a blank id or a non-positive flow; otherwise the outlet is appended at the end, and only the list and the deduction change |
| Session.AddOutletDeduction | script.js:349-390 | an accepted outlet raises the deduction by quantity × flow and keeps the session invariant |
| Session.RemoveOutlet | script.js:392-395 | the list loses the outlet at the splice position and the deduction is its new sum; nothing else changes |
| Session.RemoveOutletDeduction | script.js:392-395 | removing lowers the deduction by the removed total, changes nothing at the end position, and keeps the session invariant |
| Session.NeedsConfirmation | script.js:404-409 | the aspect-ratio guard max(w/h, h/w) > 4 for rectangular and oval ducts with positive sides; `Session.NeedsConfirmationSides` proves it equal to the division-free form |
| Session.NeedsConfirmationSides | script.js:404-409 | the guard asks exactly for rectangular and oval ducts with positive sides where one side exceeds four times the other |
| Session.DimensionsOf | script.js:421 | a circular segment keeps its diameter, and any other its width and height |
| Session.SegmentOf | script.js:417-426 | the saved segment carries the number, the calculation's flow, type, dimensions, velocity and drop, the outlets and the deduction |
| Session.SaveSegment | script.js:398-441 | refused without a calculation, or when the guard asks and the user declines; otherwise appends the segment numbered count + 1, sets the flow to max(0, Q − deduction), empties the outlets, and reruns the calculation on the new flow (display cleared when it is 0, left as it was when the mode parameter is rejected, a fresh calculation otherwise) |
| Session.SaveSegmentValid | script.js:398-441 | saving keeps the session invariant: sequential numbers, each segment's deduction the sum of its outlets |
| Session.ExhaustedFlowKeepsCalculation | script.js:127-130 | when the outlets take the whole flow, the next flow is 0, the display is blank, and the old calculation can be saved again |
| Session.SaveScenario | script.js:349-441 | 1000 m³/h through a 300 mm square duct with outlet O1 of 2 × 50 m³/h gives deduction 100, a saved segment of 1000 m³/h, and a recalculation on 900 m³/h |
| Report.RowsPer | script.js:482-501 | a segment contributes max(1, number of outlets) rows |
| Report.SegmentRows | script.js:470-502 | a segment's rows all carry its columns; the k-th carries its k-th outlet, or the placeholders when it has none |
| Report.RowCount | script.js:470-503 | the sum over segments of max(1, number of outlets); `Report.RowsLength` proves it is the report's length and `Report.OffsetsIncrease` that it gives each segment's first row |
| Report.Rows | script.js:470-503 | the rows segment after segment; `Report.RowAt` places every row and `Report.BuildRows` proves the nested loops build exactly this list |
| Report.RowsLength | script.js:470-503 | the report has the sum over segments of max(1, number of outlets) rows |
| Report.OffsetsIncrease | script.js:470-503 | each segment's rows start where the previous segments' rows end and fit inside the report |
| Report.RowAt | script.js:470-503 | the row at a segment's offset plus k carries that segment's columns and its k-th outlet (or the placeholders), so rows follow segment and then outlet order |
| Report.GenerateReport | script.js:464-503 | an empty segment list is refused; otherwise the report is the segment-then-outlet row list (placed row by row as `Report.RowAt` states), RowCount rows long, starting with the first segment |
| Report.BuildRows | script.js:468-503 | the nested loop over segments and outlets builds exactly the report rows |

## Left out

- DOM access, showing and hiding elements, mode and label switching, and
  event wiring are not modelled. Inputs arrive already parsed, with 0 for
  an empty or unparsable field, as `parseFloat(...) || 0` gives.
  `parseInt` is likewise pre-applied to the outlet quantity. A fractional
  `splice` index is not modelled: the index is an integer.
- `alert` is not modelled; a refused action returns the reason instead.
  `confirm` is the boolean answer passed to `SaveSegment`.
- Clearing the outlet form fields after an add is not modelled. A save
  writes back only the flow field, and the model does the same.
- Rendering is not modelled: the HTML of the outlet and segment lists,
  and `toFixed`. Saved segments keep velocity, drop and dimensions as
  reals, not as formatted strings.
- The XLSX export, column widths and the dated file name are file I/O
  through a foreign library. The model stops at the rows.
- `Math.sqrt`, the fourth root and the equivalent-diameter core are
  uninterpreted functions. `Math.PI` is the decimal 3.141592653589793,
  and `Math.pow(x, 2)` is x·x.
- IEEE-754 rounding is not modelled; all arithmetic is exact.
- Duct type and mode values outside the four types and three modes are not
  modelled. The duct type comes from the type select, and the mode from the
  `data-mode` of the toggle buttons (script.js:53-56, 76-77); neither offers
  another value.
- Engine.SizeByVelocity: the dimensions are positive and match the area
  only under the `ExactSqrt` hypothesis, because the code's square root is
  not modelled.
- Engine.VelocityModeShape: the reported dimensions are positive only
  under the `ExactSqrt` hypothesis, for the same reason.
- Engine.Continuity: in the velocity mode it holds only under the
  `ExactSqrt` hypothesis, for the same reason.
- Engine.Calculate: the drop is at least 0.35 only under the
  `PositiveRoots` hypothesis, because the code's fourth root is not
  modelled.
- Bisection.SearchIsAccurate: holds only for a strictly decreasing drop.
  Monotonicity of the friction drop in the duct size needs real analysis
  of the fourth root, and is a hypothesis here.
- Engine.PressureModeAccuracy: holds only for a strictly decreasing trial
  drop, for the same reason.
