/**
 * The two computations of the chart script (src/timeline.py) that are not
 * rendering: the alternating heights of event labels, and the date range
 * shared by every chart's x axis.
 */
module Driver {
  import opened Wrappers
  import opened Dates
  import opened TimelineData

  // ---------------------------------------------------------------------------
  // Event label levels
  // ---------------------------------------------------------------------------

  /** `numpy.tile(pattern, k)`: `pattern` repeated `k` times. */
  function Tile(pattern: seq<int>, k: nat): (r: seq<int>)
    ensures |r| == k * |pattern|
  {
    if k == 0 then [] else Tile(pattern, k - 1) + pattern
  }

  /** Element `i` of a two-element pattern tiled `k` times is the pattern's element `i % 2`. */
  lemma {:induction false} TileTwoAt(pattern: seq<int>, k: nat, i: nat)
    requires |pattern| == 2 && i < 2 * k
    ensures Tile(pattern, k)[i] == pattern[i % 2]
  {
    if i < 2 * (k - 1) {
      TileTwoAt(pattern, k - 1, i);
    } else {
      assert Tile(pattern, k)[i] == pattern[i - 2 * (k - 1)];
    }
  }

  /**
   * The stem height of each event label: `[2, 1]` tiled `ceil(n / 2)` times and
   * cut to `n` entries, so labels alternate between two heights.
   */
  function Levels(numItems: nat): (r: seq<int>)
    ensures |r| == numItems
    ensures forall i :: 0 <= i < numItems ==> r[i] == (if i % 2 == 0 then 2 else 1)
  {
    var tiled := Tile([2, 1], (numItems + 1) / 2);
    assert forall i :: 0 <= i < numItems ==> tiled[i] == [2, 1][i % 2] by {
      forall i | 0 <= i < numItems
        ensures tiled[i] == [2, 1][i % 2]
      {
        TileTwoAt([2, 1], (numItems + 1) / 2, i);
      }
    }
    tiled[..numItems]
  }

  /** Neighbouring labels never share a height. */
  lemma LevelsAlternate(numItems: nat)
    ensures forall i :: 0 <= i < numItems - 1 ==> Levels(numItems)[i] != Levels(numItems)[i + 1]
  {
    var r := Levels(numItems);
    forall i | 0 <= i < numItems - 1
      ensures r[i] != r[i + 1]
    {
      assert (i % 2 == 0) != ((i + 1) % 2 == 0);
    }
  }

  // ---------------------------------------------------------------------------
  // The date range of the figure
  // ---------------------------------------------------------------------------

  /** A database whose dates bound the x axis: area databases take no part. */
  datatype Base = Gantt(gantt: GanttDatabase) | Linear(linear: Database) | Events(events: EventDatabase)

  /** `base.minDate()`: NaN exactly when the base has no dates, otherwise its least date. */
  function MinDateOf(b: Base): (r: Stamp)
    ensures r == NaN <==> LowerDates(b) == []
    ensures r.Time? ==> IsLeast(r.t, LowerDates(b))
  {
    match b
    case Gantt(g) => assert |Starts(g.rows)| == |g.rows|; GanttMinDate(g)
    case Linear(l) => IndexMinDate(l)
    case Events(e) => EventMinDate(e)
  }

  /** `base.maxDate()`: NaN exactly when the base has no dates, otherwise its greatest date. */
  function MaxDateOf(b: Base): (r: Stamp)
    ensures r == NaN <==> UpperDates(b) == []
    ensures r.Time? ==> IsGreatest(r.t, UpperDates(b))
  {
    match b
    case Gantt(g) => assert |Ends(g.rows)| == |g.rows|; GanttMaxDate(g)
    case Linear(l) => IndexMaxDate(l)
    case Events(e) => EventMaxDate(e)
  }

  /** The dates a base's `minDate()` ranges over: Gantt starts, an index, or event dates. */
  function LowerDates(b: Base): seq<real>
  {
    match b
    case Gantt(g) => Starts(g.rows)
    case Linear(l) => l.index
    case Events(e) => e.dates
  }

  /** The dates a base's `maxDate()` ranges over: Gantt ends, an index, or event dates. */
  function UpperDates(b: Base): seq<real>
  {
    match b
    case Gantt(g) => Ends(g.rows)
    case Linear(l) => l.index
    case Events(e) => e.dates
  }

  /** `ganttData + linearData + eventData`, in that order. */
  function Bases(gantt: seq<GanttDatabase>, linear: seq<Database>, events: seq<EventDatabase>): (r: seq<Base>)
    ensures |r| == |gantt| + |linear| + |events|
    ensures forall i :: 0 <= i < |gantt| ==> r[i] == Gantt(gantt[i])
    ensures forall i :: 0 <= i < |linear| ==> r[|gantt| + i] == Linear(linear[i])
    ensures forall i :: 0 <= i < |events| ==> r[|gantt| + |linear| + i] == Events(events[i])
  {
    seq(|gantt|, i requires 0 <= i < |gantt| => Gantt(gantt[i]))
    + seq(|linear|, i requires 0 <= i < |linear| => Linear(linear[i]))
    + seq(|events|, i requires 0 <= i < |events| => Events(events[i]))
  }

  function MinDates(bs: seq<Base>): (r: seq<Stamp>)
    ensures |r| == |bs| && forall i :: 0 <= i < |bs| ==> r[i] == MinDateOf(bs[i])
  {
    seq(|bs|, i requires 0 <= i < |bs| => MinDateOf(bs[i]))
  }

  function MaxDates(bs: seq<Base>): (r: seq<Stamp>)
    ensures |r| == |bs| && forall i :: 0 <= i < |bs| ==> r[i] == MaxDateOf(bs[i])
  {
    seq(|bs|, i requires 0 <= i < |bs| => MaxDateOf(bs[i]))
  }

  /**
   * What the left edge of the figure ends up as, given each base's `minDate()`
   * in order: nothing without bases; NaN, for good, when the first base is
   * empty (no later comparison against NaN succeeds); otherwise the least of
   * the dates, where the NaN of a later empty base never wins.
   */
  predicate IsFoldedMin(r: Option<Stamp>, xs: seq<Stamp>)
  {
    && (r.None? <==> xs == [])
    && (xs != [] && xs[0] == NaN ==> r == Some(NaN))
    && (xs != [] && xs[0].Time? ==>
          && r.Some? && r.value.Time? && r.value in xs
          && forall i :: 0 <= i < |xs| && xs[i].Time? ==> r.value.t <= xs[i].t)
  }

  /** The right edge likewise: the greatest of the `maxDate()`s, NaN only from the first base. */
  predicate IsFoldedMax(r: Option<Stamp>, xs: seq<Stamp>)
  {
    && (r.None? <==> xs == [])
    && (xs != [] && xs[0] == NaN ==> r == Some(NaN))
    && (xs != [] && xs[0].Time? ==>
          && r.Some? && r.value.Time? && r.value in xs
          && forall i :: 0 <= i < |xs| && xs[i].Time? ==> xs[i].t <= r.value.t)
  }

  /**
   * The loop over `ganttData + linearData + eventData` that sets the shared
   * x range: a base's bound replaces the current one when there is none yet or
   * when it compares smaller (larger), with Python's comparisons against NaN.
   */
  method DateRange(gantt: seq<GanttDatabase>, linear: seq<Database>, events: seq<EventDatabase>)
    returns (minDate: Option<Stamp>, maxDate: Option<Stamp>)
    ensures IsFoldedMin(minDate, MinDates(Bases(gantt, linear, events)))
    ensures IsFoldedMax(maxDate, MaxDates(Bases(gantt, linear, events)))
  {
    var bases := Bases(gantt, linear, events);
    minDate, maxDate := None, None;
    for i := 0 to |bases|
      invariant IsFoldedMin(minDate, MinDates(bases)[..i])
      invariant IsFoldedMax(maxDate, MaxDates(bases)[..i])
    {
      var base := bases[i];
      ghost var min0, max0 := minDate, maxDate;
      if minDate.None? || Less(MinDateOf(base), minDate.value) {
        minDate := Some(MinDateOf(base));
      }
      if maxDate.None? || Less(maxDate.value, MaxDateOf(base)) {
        maxDate := Some(MaxDateOf(base));
      }
      FoldMinStep(min0, MinDates(bases), i);
      FoldMaxStep(max0, MaxDates(bases), i);
    }
    assert MinDates(bases)[..|bases|] == MinDates(bases);
    assert MaxDates(bases)[..|bases|] == MaxDates(bases);
  }

  /** One turn of the loop keeps the left edge folded over the bases seen so far. */
  lemma FoldMinStep(r: Option<Stamp>, xs: seq<Stamp>, i: nat)
    requires i < |xs| && IsFoldedMin(r, xs[..i])
    ensures IsFoldedMin(if r.None? || Less(xs[i], r.value) then Some(xs[i]) else r, xs[..i + 1])
  {
    assert xs[..i + 1] == xs[..i] + [xs[i]];
    if i > 0 {
      assert xs[..i + 1][0] == xs[..i][0];
    }
  }

  /** One turn of the loop keeps the right edge folded over the bases seen so far. */
  lemma FoldMaxStep(r: Option<Stamp>, xs: seq<Stamp>, i: nat)
    requires i < |xs| && IsFoldedMax(r, xs[..i])
    ensures IsFoldedMax(if r.None? || Less(r.value, xs[i]) then Some(xs[i]) else r, xs[..i + 1])
  {
    assert xs[..i + 1] == xs[..i] + [xs[i]];
    if i > 0 {
      assert xs[..i + 1][0] == xs[..i][0];
    }
  }

  /**
   * When the first base has dates, the figure's range covers every date of
   * every base: no Gantt start, index date or event lies left of it, and no
   * Gantt end, index date or event lies right of it.  Later empty bases do not
   * matter.
   */
  lemma RangeCoversEveryDate(bs: seq<Base>, lo: Option<Stamp>, hi: Option<Stamp>)
    requires bs != [] && LowerDates(bs[0]) != [] && UpperDates(bs[0]) != []
    requires IsFoldedMin(lo, MinDates(bs)) && IsFoldedMax(hi, MaxDates(bs))
    ensures lo.Some? && lo.value.Time? && hi.Some? && hi.value.Time?
    ensures forall k, j :: 0 <= k < |bs| && 0 <= j < |LowerDates(bs[k])| ==> lo.value.t <= LowerDates(bs[k])[j]
    ensures forall k, j :: 0 <= k < |bs| && 0 <= j < |UpperDates(bs[k])| ==> UpperDates(bs[k])[j] <= hi.value.t
  {
    forall k | 0 <= k < |bs|
      ensures LowerDates(bs[k]) != [] ==> MinDates(bs)[k].Time? && IsLeast(MinDates(bs)[k].t, LowerDates(bs[k]))
      ensures UpperDates(bs[k]) != [] ==> MaxDates(bs)[k].Time? && IsGreatest(MaxDates(bs)[k].t, UpperDates(bs[k]))
    {
    }
  }
}
