/**
 * The rows of the segment report: one row per outlet of every saved
 * segment, in segment order and then outlet order, each repeating its
 * segment's columns; a segment without outlets gets a single row whose
 * outlet columns are '-'.
 */
module Report {
  import opened Options
  import opened Duct
  import opened Outlets
  import opened Session

  /** The segment columns every row of a segment repeats. */
  datatype RowBase = RowBase(
    segmentId: nat,
    flow: real,
    ductType: DuctType,
    dimensions: Dimensions,
    velocity: real,
    pressure: real,
    outletCount: nat,
    deduction: real)

  /** One report row: its segment's columns and one outlet, or `None` for the '-' placeholders. */
  datatype Row = Row(base: RowBase, outlet: Option<Outlet>)

  /** The segment columns of a segment; the outlet count is the length of its outlet list. */
  function BaseOf(seg: Segment): RowBase
  {
    RowBase(seg.id, seg.flow, seg.ductType, seg.dimensions, seg.velocity, seg.pressure, |seg.outlets|, seg.deduction)
  }

  /** How many rows a segment contributes: one per outlet, and one when it has none. */
  function RowsPer(seg: Segment): (n: nat)
    ensures n >= 1
    ensures n >= |seg.outlets|
    ensures n == 1 || n == |seg.outlets|
  {
    if |seg.outlets| == 0 then 1 else |seg.outlets|
  }

  /** The rows of one segment. */
  function SegmentRows(seg: Segment): (rows: seq<Row>)
    ensures |rows| == RowsPer(seg)
    ensures forall i :: 0 <= i < |rows| ==> rows[i].base == BaseOf(seg)
    ensures |seg.outlets| == 0 ==> rows[0].outlet.None?
    ensures forall i :: 0 <= i < |seg.outlets| ==> rows[i].outlet == Some(seg.outlets[i])
  {
    if |seg.outlets| == 0 then [Row(BaseOf(seg), None)]
    else seq(|seg.outlets|, i requires 0 <= i < |seg.outlets| => Row(BaseOf(seg), Some(seg.outlets[i])))
  }

  /** The number of rows of a segment list: the sum over its segments of max(1, number of outlets). */
  function RowCount(segs: seq<Segment>): nat
  {
    if |segs| == 0 then 0 else RowCount(segs[..|segs| - 1]) + RowsPer(segs[|segs| - 1])
  }

  /** The rows of a segment list, segment after segment. */
  function Rows(segs: seq<Segment>): seq<Row>
  {
    if |segs| == 0 then [] else Rows(segs[..|segs| - 1]) + SegmentRows(segs[|segs| - 1])
  }

  /** The report has exactly RowCount rows. */
  lemma {:induction false} RowsLength(segs: seq<Segment>)
    ensures |Rows(segs)| == RowCount(segs)
  {
    if |segs| > 0 {
      RowsLength(segs[..|segs| - 1]);
    }
  }

  /**
   * The rows of segment `j` start where the rows of the segments before it
   * end, and are followed by the rows of the segments after it; in
   * particular they fit inside the report.
   */
  lemma {:induction false} OffsetsIncrease(segs: seq<Segment>, j: nat)
    requires j < |segs|
    ensures RowCount(segs[..j + 1]) == RowCount(segs[..j]) + RowsPer(segs[j])
    ensures RowCount(segs[..j + 1]) <= RowCount(segs)
  {
    assert segs[..j + 1][..j] == segs[..j];
    if j + 1 < |segs| {
      var init := segs[..|segs| - 1];
      assert init[..j + 1] == segs[..j + 1];
      assert init[..j] == segs[..j];
      OffsetsIncrease(init, j);
    } else {
      assert segs[..j + 1] == segs;
    }
  }

  /**
   * Row RowCount(segs[..j]) + k of the report is row k of segment `j`: it
   * carries segment `j`'s columns and its k-th outlet, or the placeholders
   * when segment `j` has no outlets. So the rows follow segment order and,
   * inside a segment, outlet order.
   */
  lemma {:induction false} RowAt(segs: seq<Segment>, j: nat, k: nat)
    requires j < |segs| && k < RowsPer(segs[j])
    ensures RowCount(segs[..j]) + k < |Rows(segs)|
    ensures Rows(segs)[RowCount(segs[..j]) + k] == SegmentRows(segs[j])[k]
    ensures Rows(segs)[RowCount(segs[..j]) + k].base == BaseOf(segs[j])
    ensures segs[j].outlets == [] ==> Rows(segs)[RowCount(segs[..j]) + k].outlet.None?
    ensures segs[j].outlets != [] ==> Rows(segs)[RowCount(segs[..j]) + k].outlet == Some(segs[j].outlets[k])
  {
    var n := |segs| - 1;
    var init := segs[..n];
    RowsLength(init);
    RowsLength(segs);
    if j == n {
      assert init == segs[..j];
    } else {
      assert init[..j] == segs[..j];
      assert init[j] == segs[j];
      RowAt(init, j, k);
    }
  }

  /**
   * The report of the saved segments: refused when there are none,
   * otherwise the rows of every segment in order (placed as RowAt says),
   * RowCount of them in all.
   */
  function GenerateReport(segs: seq<Segment>): (r: Option<seq<Row>>)
    ensures r.None? <==> segs == []
    ensures r.Some? ==> r.value == Rows(segs)
    ensures r.Some? ==> |r.value| == RowCount(segs)
    ensures r.Some? ==> r.value[0].base == BaseOf(segs[0])
  {
    if segs == [] then None
    else
      RowsLength(segs);
      RowAt(segs, 0, 0);
      assert segs[..0] == [];
      Some(Rows(segs))
  }

  /**
   * The report rows built as the calculator builds them: for each segment in
   * turn, one row per outlet, or a placeholder row when it has none.
   */
  method BuildRows(segs: seq<Segment>) returns (rows: seq<Row>)
    ensures rows == Rows(segs)
  {
    rows := [];
    for i := 0 to |segs|
      invariant rows == Rows(segs[..i])
    {
      var seg := segs[i];
      var base := BaseOf(seg);
      if |seg.outlets| == 0 {
        rows := rows + [Row(base, None)];
      } else {
        for k := 0 to |seg.outlets|
          invariant rows == Rows(segs[..i]) + SegmentRows(seg)[..k]
        {
          rows := rows + [Row(base, Some(seg.outlets[k]))];
        }
        assert SegmentRows(seg)[..|seg.outlets|] == SegmentRows(seg);
      }
      assert segs[..i + 1][..i] == segs[..i];
    }
    assert segs[..|segs|] == segs;
  }
}
