/**
 * The outlets pending on the segment being drawn: validating and adding one,
 * removing one by position with the semantics of a one-element array
 * splice, and the deduction, the running sum of the outlets' total flows.
 */
module Outlets {
  import opened Options

  /**
   * One outlet: its identifier, its kind (a free-form label), how many
   * identical outlets it stands for, the flow of each in m³/h, and their
   * total flow.
   */
  datatype Outlet = Outlet(id: string, kind: string, qty: int, flow: real, total: real)

  // ------------------------------------------------------------ whitespace

  /**
   * The characters the JavaScript `trim` removes: the WhiteSpace and
   * LineTerminator productions of the language, that is tab, line feed,
   * vertical tab, form feed, carriage return, space, no-break space, the
   * space separators U+1680, U+2000–U+200A, U+202F, U+205F, U+3000, the line
   * and paragraph separators and the byte order mark.
   */
  const Whitespace: set<char> := {
    '\t', '\n', '\U{000B}', '\U{000C}', '\r', ' ', '\U{00A0}', '\U{1680}',
    '\U{2000}', '\U{2001}', '\U{2002}', '\U{2003}', '\U{2004}', '\U{2005}',
    '\U{2006}', '\U{2007}', '\U{2008}', '\U{2009}', '\U{200A}',
    '\U{2028}', '\U{2029}', '\U{202F}', '\U{205F}', '\U{3000}', '\U{FEFF}'
  }

  predicate IsSpace(c: char)
  {
    c in Whitespace
  }

  /** Every character of `s` is whitespace (in particular, the empty string). */
  predicate Blank(s: string)
  {
    forall i :: 0 <= i < |s| ==> IsSpace(s[i])
  }

  /** The number of whitespace characters `s` starts with. */
  function Leading(s: string): (n: nat)
    ensures n <= |s|
    ensures forall i :: 0 <= i < n ==> IsSpace(s[i])
    ensures n < |s| ==> !IsSpace(s[n])
  {
    if |s| == 0 || !IsSpace(s[0]) then 0 else 1 + Leading(s[1..])
  }

  /** The number of whitespace characters `s` ends with. */
  function Trailing(s: string): (n: nat)
    ensures n <= |s|
    ensures forall i :: |s| - n <= i < |s| ==> IsSpace(s[i])
    ensures n < |s| ==> !IsSpace(s[|s| - 1 - n])
  {
    if |s| == 0 || !IsSpace(s[|s| - 1]) then 0 else 1 + Trailing(s[..|s| - 1])
  }

  /**
   * `s` without leading and trailing whitespace: the piece of `s` after its
   * leading whitespace, everything behind which is whitespace, starting and
   * ending with a non-space character; it is empty exactly when `s` is
   * blank.
   */
  function Trim(s: string): (r: string)
    ensures Leading(s) + |r| <= |s|
    ensures forall i :: 0 <= i < |r| ==> r[i] == s[Leading(s) + i]
    ensures forall i :: Leading(s) + |r| <= i < |s| ==> IsSpace(s[i])
    ensures r == [] || (!IsSpace(r[0]) && !IsSpace(r[|r| - 1]))
    ensures r == [] <==> Blank(s)
  {
    var a := Leading(s);
    if a == |s| then []
    else
      var b := |s| - Trailing(s);
      assert a < b by {
        assert !IsSpace(s[a]);
      }
      s[a..b]
  }

  /** A non-empty string with no whitespace at either end. */
  predicate Trimmed(s: string)
  {
    s != [] && !IsSpace(s[0]) && !IsSpace(s[|s| - 1])
  }

  /** Trimming leaves a trimmed string as it is. */
  lemma TrimmedIsFixed(s: string)
    requires Trimmed(s)
    ensures Trim(s) == s
  {
    assert Leading(s) == 0;
    assert Trailing(s) == 0;
    assert s[0..|s|] == s;
  }

  /** Trimming a trimmed string changes nothing. */
  lemma TrimIdempotent(s: string)
    ensures Trim(Trim(s)) == Trim(s)
  {
    var r := Trim(s);
    if r != [] {
      TrimmedIsFixed(r);
    }
  }

  // --------------------------------------------------------------- adding

  /** The quantity field as read: 0 (absent, unparsable or zero) falls back to 1, any other value is kept. */
  function EffectiveQuantity(raw: int): (q: int)
    ensures q != 0
    ensures raw != 0 ==> q == raw
    ensures raw == 0 ==> q == 1
  {
    if raw == 0 then 1 else raw
  }

  /** An outlet as the list holds it: a trimmed non-empty id, a positive flow, a non-zero quantity, and total = quantity × flow. */
  ghost predicate WellFormed(o: Outlet)
  {
    && Trimmed(o.id)
    && o.flow > 0.0
    && o.qty != 0
    && o.total == o.qty as real * o.flow
  }

  ghost predicate AllWellFormed(os: seq<Outlet>)
  {
    forall i :: 0 <= i < |os| ==> WellFormed(os[i])
  }

  /**
   * The outlet the form describes, or `None` when the trimmed id is empty
   * or the flow is not positive. `rawQty` and `flow` are the parsed fields,
   * 0 when absent.
   */
  function MakeOutlet(rawId: string, kind: string, rawQty: int, flow: real): (r: Option<Outlet>)
    ensures r.None? <==> Blank(rawId) || flow <= 0.0
    ensures r.Some? ==>
      && r.value.id == Trim(rawId)
      && r.value.kind == kind
      && r.value.qty == EffectiveQuantity(rawQty)
      && r.value.flow == flow
      && WellFormed(r.value)
  {
    var id := Trim(rawId);
    var qty := EffectiveQuantity(rawQty);
    if id == [] || flow <= 0.0 then None
    else
      Some(Outlet(id, kind, qty, flow, qty as real * flow))
  }

  // ------------------------------------------------------------ deduction

  /** The sum of the outlets' totals, accumulated from the first to the last. */
  function Sum(os: seq<Outlet>): real
  {
    if |os| == 0 then 0.0 else Sum(os[..|os| - 1]) + os[|os| - 1].total
  }

  /** The sum of a concatenation is the sum of its parts. */
  lemma {:induction false} SumConcat(xs: seq<Outlet>, ys: seq<Outlet>)
    ensures Sum(xs + ys) == Sum(xs) + Sum(ys)
  {
    if |ys| > 0 {
      var zs := xs + ys;
      assert zs[..|zs| - 1] == xs + ys[..|ys| - 1];
      SumConcat(xs, ys[..|ys| - 1]);
    } else {
      assert xs + ys == xs;
    }
  }

  /** Appending an outlet adds its total. */
  lemma SumAppend(os: seq<Outlet>, o: Outlet)
    ensures Sum(os + [o]) == Sum(os) + o.total
  {
    assert (os + [o])[..|os|] == os;
  }

  /** The deduction as the outlet list is rendered: a running total over the list, in order. */
  method TotalDeduction(os: seq<Outlet>) returns (total: real)
    ensures total == Sum(os)
  {
    total := 0.0;
    for i := 0 to |os|
      invariant total == Sum(os[..i])
    {
      assert os[..i + 1][..i] == os[..i];
      total := total + os[i].total;
    }
    assert os[..|os|] == os;
  }

  // ------------------------------------------------------------- removing

  /**
   * Where a one-element splice at `index` starts on a list of length `len`:
   * a negative index counts from the end (floored at 0), an index past the
   * end is clamped to the length.
   */
  function SpliceStart(len: nat, index: int): (k: nat)
    ensures k <= len
    ensures 0 <= index <= len ==> k == index
    ensures -(len as int) <= index < 0 ==> k + (-index) == len
    ensures index < -(len as int) ==> k == 0
    ensures index > len ==> k == len
  {
    if index < 0 then (if len + index < 0 then 0 else len + index)
    else if index > len then len
    else index
  }

  /**
   * The list after a one-element splice at `index`: the element at the
   * splice position is removed and the rest keep their order; when the
   * position is the end of the list nothing is removed.
   */
  function RemoveAt(os: seq<Outlet>, index: int): (r: seq<Outlet>)
    ensures var k := SpliceStart(|os|, index);
      && (k == |os| ==> r == os)
      && (k < |os| ==>
        && |r| == |os| - 1
        && (forall j :: 0 <= j < k ==> r[j] == os[j])
        && (forall j :: k <= j < |r| ==> r[j] == os[j + 1])
        && multiset(r) + multiset{os[k]} == multiset(os))
  {
    var k := SpliceStart(|os|, index);
    if k == |os| then os
    else
      assert os == os[..k] + [os[k]] + os[k + 1..];
      os[..k] + os[k + 1..]
  }

  /** Removing an outlet takes its total off the sum. */
  lemma RemoveAtSum(os: seq<Outlet>, index: int)
    requires SpliceStart(|os|, index) < |os|
    ensures Sum(RemoveAt(os, index)) == Sum(os) - os[SpliceStart(|os|, index)].total
  {
    var k := SpliceStart(|os|, index);
    Split(os, k);
    assert RemoveAt(os, index) == os[..k] + os[k + 1..];
    SumWithout(os[..k], os[k], os[k + 1..]);
  }

  lemma Split(os: seq<Outlet>, k: nat)
    requires k < |os|
    ensures os == os[..k] + [os[k]] + os[k + 1..]
  {
  }

  /** The sum with one outlet taken out of the middle. */
  lemma SumWithout(xs: seq<Outlet>, o: Outlet, ys: seq<Outlet>)
    ensures Sum(xs + [o] + ys) == Sum(xs + ys) + o.total
  {
    SumConcat(xs + [o], ys);
    SumAppend(xs, o);
    SumConcat(xs, ys);
  }

  /** Removing keeps every remaining outlet well formed. */
  lemma RemoveAtWellFormed(os: seq<Outlet>, index: int)
    requires AllWellFormed(os)
    ensures AllWellFormed(RemoveAt(os, index))
  {
    var k := SpliceStart(|os|, index);
    var r := RemoveAt(os, index);
    if k < |os| {
      forall j | 0 <= j < |r|
        ensures WellFormed(r[j])
      {
        if j >= k {
          assert r[j] == os[j + 1];
        }
      }
    }
  }
}
