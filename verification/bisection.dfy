/**
 * The fixed-step bisection of the target-pressure mode: thirty halvings of
 * the size range [0.05 m, 5.0 m], moving the lower end up while the friction
 * drop at the midpoint is above the target and the upper end down otherwise.
 * The drop function is a parameter, so every fact here holds for whatever
 * drop the engine supplies.
 */
module Bisection {
  import opened Duct

  /** Smallest and largest characteristic size searched, in m. */
  const Lower: Size := 0.05
  const Upper: Size := 5.0
  /** Number of halvings; there is no early exit. */
  const Steps: nat := 30

  /** The search state: the bracket [lo, hi] and the last midpoint tried. */
  datatype Interval = Interval(lo: Size, hi: Size, best: Size)

  /** The state before the first iteration; the last midpoint starts at the upper end. */
  const Start: Interval := Interval(Lower, Upper, Upper)

  /** A width `w` halved `n` times, that is w / 2^n. */
  function Halved(w: real, n: nat): (h: real)
    ensures w > 0.0 ==> 0.0 < h <= w
    decreases n
  {
    if n == 0 then w else Halved(w, n - 1) / 2.0
  }

  /** Width of the final bracket: (5.0 − 0.05) / 2^30 m. */
  function Resolution(): (w: real)
    ensures w > 0.0
  {
    Halved(Upper - Lower, Steps)
  }

  /**
   * The bracket invariant: the drop is above the target at the lower end and
   * at or below it at the upper end, except where an end is still the
   * original one.
   */
  ghost predicate Bracketed(iv: Interval, drop: Size -> real, target: real)
  {
    && (iv.lo == Lower || drop(iv.lo) > target)
    && (iv.hi == Upper || drop(iv.hi) <= target)
  }

  /**
   * One iteration of the search loop: halve the bracket at its midpoint,
   * which becomes the last midpoint tried. Each end either stays put or
   * moves to the midpoint, the lower end only to a size whose drop is above
   * the target and the upper end only to one whose drop is not.
   */
  function Halve(iv: Interval, drop: Size -> real, target: real): (r: Interval)
    ensures r.best == (iv.lo + iv.hi) / 2.0
    ensures r.hi - r.lo == (iv.hi - iv.lo) / 2.0
    ensures r.lo == iv.lo || (r.lo == r.best && drop(r.best) > target)
    ensures r.hi == iv.hi || (r.hi == r.best && drop(r.best) <= target)
  {
    var mid: Size := (iv.lo + iv.hi) / 2.0;
    if drop(mid) > target then Interval(mid, iv.hi, mid) else Interval(iv.lo, mid, mid)
  }

  /**
   * One iteration keeps the new bracket inside the old one, halves its
   * width, leaves the last midpoint strictly inside the old bracket at one
   * of the new ends, and keeps the bracket invariant.
   */
  lemma HalveFacts(iv: Interval, drop: Size -> real, target: real)
    requires iv.lo < iv.hi
    ensures var r := Halve(iv, drop, target);
      && iv.lo <= r.lo < r.hi <= iv.hi
      && r.hi - r.lo == (iv.hi - iv.lo) / 2.0
      && iv.lo < r.best < iv.hi
      && (r.best == r.lo || r.best == r.hi)
      && (Bracketed(iv, drop, target) ==> Bracketed(r, drop, target))
  {
  }

  /** The search state after `n` iterations. */
  function After(n: nat, drop: Size -> real, target: real): Interval
  {
    if n == 0 then Start else Halve(After(n - 1, drop, target), drop, target)
  }

  /**
   * After `n` iterations the state is a bracket inside the range, of width
   * (5.0 − 0.05)/2^n, that keeps the bracket invariant, with the last
   * midpoint at one of its ends.
   */
  lemma {:induction false} AfterFacts(n: nat, drop: Size -> real, target: real)
    ensures var r := After(n, drop, target);
      && Lower <= r.lo < r.hi <= Upper
      && r.hi - r.lo == Halved(Upper - Lower, n)
      && (n > 0 ==> Lower < r.best < Upper && (r.best == r.lo || r.best == r.hi))
      && Bracketed(r, drop, target)
  {
    if n > 0 {
      AfterFacts(n - 1, drop, target);
      HalveFacts(After(n - 1, drop, target), drop, target);
    }
  }

  /** The size accepted by the search: the midpoint of the thirtieth iteration. */
  function Search(drop: Size -> real, target: real): (best: Size)
    ensures Lower < best < Upper
  {
    AfterFacts(Steps, drop, target);
    After(Steps, drop, target).best
  }

  /**
   * The search loop with the calculator's three variables; it ends in the
   * state `After` describes, so it keeps the bracket inside the range, halves
   * it on every pass and accepts the last midpoint.
   */
  method SearchLoop(drop: Size -> real, target: real) returns (minD: Size, maxD: Size, bestD: Size)
    ensures Interval(minD, maxD, bestD) == After(Steps, drop, target)
    ensures bestD == Search(drop, target)
  {
    minD, maxD := Lower, Upper;
    bestD := maxD;
    for i := 0 to Steps
      invariant Interval(minD, maxD, bestD) == After(i, drop, target)
    {
      var midD: Size := (minD + maxD) / 2.0;
      if drop(midD) > target {
        minD := midD;
      } else {
        maxD := midD;
      }
      bestD := midD;
    }
  }

  /** The drop does not increase with size on the searched range. */
  ghost predicate NonIncreasing(drop: Size -> real)
  {
    forall x: Size, y: Size :: Lower <= x <= y <= Upper ==> drop(y) <= drop(x)
  }

  /** The drop strictly decreases with size on the searched range. */
  ghost predicate Decreasing(drop: Size -> real)
  {
    forall x: Size, y: Size :: Lower <= x < y <= Upper ==> drop(y) < drop(x)
  }

  /**
   * For a drop that does not increase with size, every size up to the final
   * lower end is too small and every size from the final upper end on is
   * large enough, except at the original ends of the range.
   */
  lemma SearchSeparates(drop: Size -> real, target: real)
    requires NonIncreasing(drop)
    ensures var r := After(Steps, drop, target);
      && (forall d: Size :: Lower <= d <= r.lo && Lower < r.lo ==> drop(d) > target)
      && (forall d: Size :: r.hi <= d <= Upper && r.hi < Upper ==> drop(d) <= target)
  {
    var r := After(Steps, drop, target);
    AfterFacts(Steps, drop, target);
    BracketSeparates(drop, target, r);
  }

  /** A bracket of a non-increasing drop splits the range into too-small and large-enough sizes. */
  lemma BracketSeparates(drop: Size -> real, target: real, r: Interval)
    requires NonIncreasing(drop)
    requires Bracketed(r, drop, target) && Lower <= r.lo < r.hi <= Upper
    ensures forall d: Size :: Lower <= d <= r.lo && Lower < r.lo ==> drop(d) > target
    ensures forall d: Size :: r.hi <= d <= Upper && r.hi < Upper ==> drop(d) <= target
  {
    forall d: Size | Lower <= d <= r.lo && Lower < r.lo
      ensures drop(d) > target
    {
      assert drop(r.lo) <= drop(d);
    }
    forall d: Size | r.hi <= d <= Upper && r.hi < Upper
      ensures drop(d) <= target
    {
      assert drop(d) <= drop(r.hi);
    }
  }

  /**
   * For a strictly decreasing drop that meets the target at some size x
   * inside the range, the accepted size is within one resolution step of x.
   */
  lemma SearchIsAccurate(drop: Size -> real, target: real, x: Size)
    requires Decreasing(drop)
    requires Lower < x < Upper && drop(x) == target
    ensures -Resolution() <= Search(drop, target) - x <= Resolution()
  {
    var r := After(Steps, drop, target);
    AfterFacts(Steps, drop, target);
    CrossingInBracket(drop, target, x, r);
  }

  /** A bracket of a strictly decreasing drop contains the size where the drop meets the target. */
  lemma CrossingInBracket(drop: Size -> real, target: real, x: Size, r: Interval)
    requires Decreasing(drop)
    requires Lower < x < Upper && drop(x) == target
    requires Bracketed(r, drop, target) && Lower <= r.lo < r.hi <= Upper
    ensures r.lo < x <= r.hi
  {
  }

  /** The search only looks at the drop's values: two drops that agree everywhere give the same size. */
  lemma SearchDependsOnValues(drop: Size -> real, other: Size -> real, target: real)
    requires forall d: Size :: drop(d) == other(d)
    ensures Search(drop, target) == Search(other, target)
  {
    AfterDependsOnValues(drop, other, target, Steps);
  }

  lemma {:induction false} AfterDependsOnValues(drop: Size -> real, other: Size -> real, target: real, n: nat)
    requires forall d: Size :: drop(d) == other(d)
    ensures After(n, drop, target) == After(n, other, target)
  {
    if n > 0 {
      AfterDependsOnValues(drop, other, target, n - 1);
      HalveDependsOnValues(After(n - 1, drop, target), drop, other, target);
    }
  }

  lemma HalveDependsOnValues(iv: Interval, drop: Size -> real, other: Size -> real, target: real)
    requires drop((iv.lo + iv.hi) / 2.0) == other((iv.lo + iv.hi) / 2.0)
    ensures Halve(iv, drop, target) == Halve(iv, other, target)
  {
  }
}
