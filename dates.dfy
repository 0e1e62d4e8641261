/**
 * Dates as the charts see them: a date is a real number, and a reduction over an
 * empty pandas column yields NaN, which compares false against everything.
 */
module Dates {

  /** The value of a pandas `min()`/`max()` reduction: a date, or NaN for an empty column. */
  datatype Stamp = NaN | Time(t: real)

  /** Python's `a < b` on two such values: false as soon as one side is NaN. */
  predicate Less(a: Stamp, b: Stamp)
  {
    a.Time? && b.Time? && a.t < b.t
  }

  /** `m` is one of `xs` and no element of `xs` is smaller. */
  predicate IsLeast(m: real, xs: seq<real>)
  {
    m in xs && forall i :: 0 <= i < |xs| ==> m <= xs[i]
  }

  /** `m` is one of `xs` and no element of `xs` is larger. */
  predicate IsGreatest(m: real, xs: seq<real>)
  {
    m in xs && forall i :: 0 <= i < |xs| ==> xs[i] <= m
  }

  /** pandas `Series.min()` over a column of dates. */
  function ColumnMin(xs: seq<real>): (r: Stamp)
    ensures r == NaN <==> xs == []
    ensures r.Time? ==> IsLeast(r.t, xs)
  {
    if xs == [] then NaN
    else
      var rest := ColumnMin(xs[..|xs| - 1]);
      var x := xs[|xs| - 1];
      assert xs == xs[..|xs| - 1] + [x];
      if rest.Time? && rest.t <= x then rest else Time(x)
  }

  /** pandas `Series.max()` over a column of dates. */
  function ColumnMax(xs: seq<real>): (r: Stamp)
    ensures r == NaN <==> xs == []
    ensures r.Time? ==> IsGreatest(r.t, xs)
  {
    if xs == [] then NaN
    else
      var rest := ColumnMax(xs[..|xs| - 1]);
      var x := xs[|xs| - 1];
      assert xs == xs[..|xs| - 1] + [x];
      if rest.Time? && x <= rest.t then rest else Time(x)
  }
}
