/**
 * The greedy stacking of Gantt dashes into display rows (src/timeline.py,
 * the loop before the plotting of each Gantt database).  Each dash, in row
 * order, joins the first stack whose last dash has ended by the dash's start,
 * or opens a new stack; the stacks are then reversed for display.
 *
 * A ghost `lane` sequence records, for each dash, the stack it joined
 * (numbered in creation order, before the reversal).
 */
module Stacking {
  import opened TimelineData

  // ---------------------------------------------------------------------------
  // Lane assignments
  // ---------------------------------------------------------------------------

  /** The dashes of `ds[..|lane|]` assigned to lane `k`, in input order. */
  function Select(ds: seq<Dash>, lane: seq<nat>, k: nat): (s: seq<Dash>)
    requires |lane| <= |ds|
    ensures |s| <= |lane|
    decreases |lane|
  {
    if lane == [] then []
    else Select(ds, lane[..|lane| - 1], k) + (if lane[|lane| - 1] == k then [ds[|lane| - 1]] else [])
  }

  /** The index of the last dash assigned to lane `k`, or -1 when there is none. */
  function LastIn(lane: seq<nat>, k: nat): (j: int)
    ensures -1 <= j < |lane|
    ensures j >= 0 ==> lane[j] == k
  {
    if lane == [] then -1
    else if lane[|lane| - 1] == k then |lane| - 1
    else LastIn(lane[..|lane| - 1], k)
  }

  /** The number of lanes in use: one more than the highest lane index. */
  function LaneCount(lane: seq<nat>): (c: nat)
    ensures forall i :: 0 <= i < |lane| ==> lane[i] < c
    ensures c == 0 <==> lane == []
  {
    if lane == [] then 0
    else
      var init := LaneCount(lane[..|lane| - 1]);
      var l := lane[|lane| - 1];
      if init < l + 1 then l + 1 else init
  }

  /**
   * Putting dash `ds[|prior|]` into lane `l` is the first-fit choice: every
   * lower lane is in use and its last dash ends after this dash starts; lane
   * `l` either ends by this dash's start or is a new lane appended after all
   * existing ones.
   */
  predicate FirstFitChoice(ds: seq<Dash>, prior: seq<nat>, l: nat)
    requires |prior| < |ds|
  {
    var d := ds[|prior|];
    && (forall k :: 0 <= k < l ==> LastIn(prior, k) >= 0 && ds[LastIn(prior, k)].end > d.start)
    && (if LastIn(prior, l) >= 0 then ds[LastIn(prior, l)].end <= d.start else l == LaneCount(prior))
  }

  /** Every dash of `ds[..|lane|]` was placed by the first-fit rule. */
  predicate FirstFit(ds: seq<Dash>, lane: seq<nat>)
    requires |lane| <= |ds|
    decreases |lane|
  {
    lane == [] || (FirstFit(ds, lane[..|lane| - 1]) && FirstFitChoice(ds, lane[..|lane| - 1], lane[|lane| - 1]))
  }

  /** Consecutive dashes of a stack do not overlap: each ends by the time the next starts. */
  ghost predicate NonOverlapping(stack: seq<Dash>)
  {
    forall i :: 0 <= i < |stack| - 1 ==> stack[i].end <= stack[i + 1].start
  }

  /** The test for joining a stack: it is empty, or its last dash ends by the dash's start. */
  predicate Fits(stack: seq<Dash>, d: Dash)
  {
    |stack| < 1 || stack[|stack| - 1].end <= d.start
  }

  /** Stack `k` holds exactly the dashes of lane `k`, and none is empty. */
  predicate StacksAreLanes(ds: seq<Dash>, lane: seq<nat>, stacks: seq<seq<Dash>>)
    requires |lane| <= |ds|
  {
    forall k :: 0 <= k < |stacks| ==> stacks[k] == Select(ds, lane, k) && stacks[k] != []
  }

  function Flatten(stacks: seq<seq<Dash>>): seq<Dash>
  {
    if stacks == [] then [] else stacks[0] + Flatten(stacks[1..])
  }

  /** Python's `list.reverse()` on the list of stacks. */
  function Reverse(stacks: seq<seq<Dash>>): (r: seq<seq<Dash>>)
    ensures |r| == |stacks|
    ensures forall k :: 0 <= k < |r| ==> r[k] == stacks[|stacks| - 1 - k]
  {
    if stacks == [] then [] else Reverse(stacks[1..]) + [stacks[0]]
  }

  // ---------------------------------------------------------------------------
  // Facts about lane assignments
  // ---------------------------------------------------------------------------

  lemma SelectExtend(ds: seq<Dash>, lane: seq<nat>, l: nat, k: nat)
    requires |lane| < |ds|
    ensures Select(ds, lane + [l], k) == Select(ds, lane, k) + (if l == k then [ds[|lane|]] else [])
    ensures LastIn(lane + [l], k) == if l == k then |lane| else LastIn(lane, k)
  {
    assert (lane + [l])[..|lane|] == lane;
  }

  /** A lane's dashes are empty exactly when it has no last dash, and otherwise end with that dash. */
  lemma {:induction false} SelectLast(ds: seq<Dash>, lane: seq<nat>, k: nat)
    requires |lane| <= |ds|
    ensures Select(ds, lane, k) == [] <==> LastIn(lane, k) < 0
    ensures LastIn(lane, k) >= 0 ==> Select(ds, lane, k)[|Select(ds, lane, k)| - 1] == ds[LastIn(lane, k)]
    decreases |lane|
  {
    if lane != [] {
      SelectLast(ds, lane[..|lane| - 1], k);
    }
  }

  /** The first-fit rule never puts a dash into a lane whose last dash is still running. */
  lemma {:induction false} FirstFitLanesNonOverlapping(ds: seq<Dash>, lane: seq<nat>, k: nat)
    requires |lane| <= |ds| && FirstFit(ds, lane)
    ensures NonOverlapping(Select(ds, lane, k))
    decreases |lane|
  {
    if lane != [] {
      var prior := lane[..|lane| - 1];
      FirstFitLanesNonOverlapping(ds, prior, k);
      SelectLast(ds, prior, k);
    }
  }

  /** Every lane of a first-fit assignment is non-overlapping. */
  lemma AllLanesNonOverlapping(ds: seq<Dash>, lane: seq<nat>)
    requires |lane| <= |ds| && FirstFit(ds, lane)
    ensures forall k: nat :: NonOverlapping(Select(ds, lane, k))
  {
    forall k: nat ensures NonOverlapping(Select(ds, lane, k)) {
      FirstFitLanesNonOverlapping(ds, lane, k);
    }
  }

  /** Extending the stacks with one dash adds exactly that dash to their flattening. */
  lemma {:induction false} FlattenUpdate(stacks: seq<seq<Dash>>, k: nat, d: Dash)
    requires k < |stacks|
    ensures multiset(Flatten(stacks[k := stacks[k] + [d]])) == multiset(Flatten(stacks)) + multiset{d}
    decreases |stacks|
  {
    var updated := stacks[k := stacks[k] + [d]];
    if k == 0 {
      assert updated[1..] == stacks[1..];
    } else {
      assert updated[1..] == stacks[1..][k - 1 := stacks[k] + [d]];
      FlattenUpdate(stacks[1..], k - 1, d);
    }
  }

  lemma {:induction false} FlattenAppend(stacks: seq<seq<Dash>>, s: seq<Dash>)
    ensures multiset(Flatten(stacks + [s])) == multiset(Flatten(stacks)) + multiset(s)
    decreases |stacks|
  {
    if stacks == [] {
      assert Flatten([s]) == s + Flatten([]);
    } else {
      assert (stacks + [s])[1..] == stacks[1..] + [s];
      FlattenAppend(stacks[1..], s);
    }
  }

  /** Reversing the list of stacks keeps the same dashes. */
  lemma {:induction false} FlattenReverse(stacks: seq<seq<Dash>>)
    ensures multiset(Flatten(Reverse(stacks))) == multiset(Flatten(stacks))
    decreases |stacks|
  {
    if stacks != [] {
      FlattenReverse(stacks[1..]);
      FlattenAppend(Reverse(stacks[1..]), stacks[0]);
    }
  }

  /** The indices of the dashes of `ds` ending at or after `t`. */
  function EndingFrom(ds: seq<Dash>, t: real): set<int>
  {
    set j | 0 <= j < |ds| && ds[j].end >= t
  }

  /** The set of dashes ending at or after `t` among `ds` has `CountEndsFrom(ds, t)` members. */
  lemma {:induction false} CountEndsFromIsCardinality(ds: seq<Dash>, t: real)
    ensures CountEndsFrom(ds, t) == |EndingFrom(ds, t)|
    decreases |ds|
  {
    if ds != [] {
      var n := |ds| - 1;
      var init := ds[..n];
      CountEndsFromIsCardinality(init, t);
      var before := EndingFrom(init, t);
      var after := EndingFrom(ds, t);
      if ds[n].end >= t {
        assert after == before + {n};
      } else {
        assert after == before;
      }
    }
  }

  /** The indices of the last dashes of lanes 0..c-1. */
  function LastDashes(lane: seq<nat>, c: nat): set<int>
  {
    set k | 0 <= k < c :: LastIn(lane, k)
  }

  /** When lanes 0..c-1 are all in use, their last dashes are c distinct dashes. */
  lemma {:induction false} LastDashesDistinct(lane: seq<nat>, c: nat)
    requires forall k :: 0 <= k < c ==> LastIn(lane, k) >= 0
    ensures |LastDashes(lane, c)| == c
    decreases c
  {
    if c > 0 {
      LastDashesDistinct(lane, c - 1);
      LastDashesStep(lane, c);
      LastDashIsNew(lane, c);
    }
  }

  /** Lane c-1 contributes its own last dash to the set. */
  lemma LastDashesStep(lane: seq<nat>, c: nat)
    requires c > 0
    ensures LastDashes(lane, c) == LastDashes(lane, c - 1) + {LastIn(lane, c - 1)}
  {
    var before, after, x := LastDashes(lane, c - 1), LastDashes(lane, c), LastIn(lane, c - 1);
    forall y | y in after
      ensures y in before + {x}
    {
      var k :| 0 <= k < c && y == LastIn(lane, k);
      if k < c - 1 {
        assert y in before;
      }
    }
    forall y | y in before + {x}
      ensures y in after
    {
      if y != x {
        var k :| 0 <= k < c - 1 && y == LastIn(lane, k);
      }
    }
  }

  /** Distinct lanes in use have distinct last dashes. */
  lemma LastDashIsNew(lane: seq<nat>, c: nat)
    requires c > 0 && LastIn(lane, c - 1) >= 0
    ensures LastIn(lane, c - 1) !in LastDashes(lane, c - 1)
  {
    var x := LastIn(lane, c - 1);
    forall k | 0 <= k < c - 1
      ensures LastIn(lane, k) != x
    {
      if LastIn(lane, k) >= 0 {
        assert lane[LastIn(lane, k)] == k;
      }
    }
  }

  lemma SubsetCardinality(a: set<int>, b: set<int>)
    requires a <= b
    ensures |a| <= |b|
  {
    assert b == a + (b - a);
  }

  /** When each of lanes 0..l-1 has a last dash still running at `ds[|prior|].start`, at least l earlier dashes are. */
  lemma RunningLanesCounted(ds: seq<Dash>, prior: seq<nat>, l: nat)
    requires |prior| < |ds|
    requires forall k :: 0 <= k < l ==> LastIn(prior, k) >= 0 && ds[LastIn(prior, k)].end > ds[|prior|].start
    ensures l <= CountEndsFrom(ds[..|prior|], ds[|prior|].start)
  {
    var i, t := |prior|, ds[|prior|].start;
    var lasts, running := LastDashes(prior, l), EndingFrom(ds[..i], t);
    LastDashesDistinct(prior, l);
    forall j | j in lasts
      ensures j in running
    {
      var k :| 0 <= k < l && j == LastIn(prior, k);
      assert 0 <= j < i;
      assert ds[..i][j] == ds[j];
    }
    assert lasts <= running;
    SubsetCardinality(lasts, running);
    CountEndsFromIsCardinality(ds[..i], t);
  }

  /**
   * A new lane is opened only when every open lane's last dash is still running,
   * so the lane count never exceeds the overlap count of the dashes placed so far.
   */
  lemma {:induction false} LaneCountWithinOverlaps(ds: seq<Dash>, lane: seq<nat>)
    requires |lane| <= |ds| && FirstFit(ds, lane)
    ensures LaneCount(lane) <= MaxConcurrent(ds, |lane|)
    decreases |lane|
  {
    if lane != [] {
      var i := |lane| - 1;
      var prior := lane[..i];
      var l := lane[i];
      LaneCountWithinOverlaps(ds, prior);
      if LastIn(prior, l) < 0 {
        RunningLanesCounted(ds, prior, l);
        assert LaneCount(lane) <= ConcurrentAt(ds, i);
      }
    }
  }

  // ---------------------------------------------------------------------------
  // The stacking loop
  // ---------------------------------------------------------------------------

  /**
   * The greedy first-fit stacking.  `lane[i]` is the stack (in creation order)
   * that dash `i` joined; the returned stacks are in reverse creation order.
   */
  method StackDashes(ds: seq<Dash>) returns (stacks: seq<seq<Dash>>, ghost lane: seq<nat>)
    ensures |lane| == |ds| && FirstFit(ds, lane) && |stacks| == LaneCount(lane)
    ensures forall k :: 0 <= k < |stacks| ==> stacks[k] == Select(ds, lane, |stacks| - 1 - k)
    ensures forall k :: 0 <= k < |stacks| ==> stacks[k] != [] && NonOverlapping(stacks[k])
    ensures multiset(Flatten(stacks)) == multiset(ds)
    ensures |stacks| <= MaxOverlapsOf(ds)
  {
    stacks, lane := BuildStacks(ds);
    ghost var created := stacks;
    stacks := Reverse(stacks);
    ReversalKeepsLanes(ds, lane, created, stacks);
  }

  /** The state of the stacking loop after placing the dashes `ds[..|lane|]`. */
  ghost predicate Stacked(ds: seq<Dash>, lane: seq<nat>, stacks: seq<seq<Dash>>)
  {
    && |lane| <= |ds| && FirstFit(ds, lane) && |stacks| == LaneCount(lane)
    && StacksAreLanes(ds, lane, stacks)
  }

  /** The stacking loop itself, before the reversal: stack `k` holds lane `k`. */
  method BuildStacks(ds: seq<Dash>) returns (stacks: seq<seq<Dash>>, ghost lane: seq<nat>)
    ensures |lane| == |ds| && FirstFit(ds, lane) && |stacks| == LaneCount(lane)
    ensures StacksAreLanes(ds, lane, stacks)
    ensures multiset(Flatten(stacks)) == multiset(ds)
  {
    stacks := [];
    lane := [];
    for i := 0 to |ds|
      invariant |lane| == i && Stacked(ds, lane, stacks)
      invariant multiset(Flatten(stacks)) == multiset(ds[..i])
    {
      var dash := ds[i];
      ghost var stacks0, lane0 := stacks, lane;
      var k := FirstFitting(stacks, dash);
      if k < |stacks| {
        stacks := stacks[k := stacks[k] + [dash]];
      } else {
        stacks := stacks + [[dash]];
      }
      lane := lane + [k];
      Placement(ds, stacks0, lane0, k, stacks);
      PlacementAddsDash(ds, i, stacks0, k, stacks);
    }
    PrefixGrows(ds, |ds|);
  }

  /**
   * The inner search of the stacking loop: the index of the first stack the
   * dash fits on, or `|stacks|` when it fits on none.
   */
  method FirstFitting(stacks: seq<seq<Dash>>, dash: Dash) returns (k: nat)
    ensures k <= |stacks|
    ensures forall j :: 0 <= j < k ==> !Fits(stacks[j], dash)
    ensures k < |stacks| ==> Fits(stacks[k], dash)
  {
    k := 0;
    while k < |stacks|
      invariant k <= |stacks|
      invariant forall j :: 0 <= j < k ==> !Fits(stacks[j], dash)
    {
      if Fits(stacks[k], dash) {
        return;
      }
      k := k + 1;
    }
  }

  /** What the final reversal keeps: each stack's contents, the dashes overall, and the stack count. */
  lemma ReversalKeepsLanes(ds: seq<Dash>, lane: seq<nat>, created: seq<seq<Dash>>, stacks: seq<seq<Dash>>)
    requires |lane| == |ds| && FirstFit(ds, lane) && |created| == LaneCount(lane)
    requires StacksAreLanes(ds, lane, created)
    requires multiset(Flatten(created)) == multiset(ds)
    requires stacks == Reverse(created)
    ensures forall k :: 0 <= k < |stacks| ==> stacks[k] == Select(ds, lane, |stacks| - 1 - k)
    ensures forall k :: 0 <= k < |stacks| ==> stacks[k] != [] && NonOverlapping(stacks[k])
    ensures multiset(Flatten(stacks)) == multiset(ds)
    ensures |stacks| <= MaxOverlapsOf(ds)
  {
    ReversedStacksAreLanes(ds, lane, created, stacks);
    ReversedStacksNonOverlapping(ds, lane, created, stacks);
    FlattenReverse(created);
    LaneCountWithinOverlaps(ds, lane);
  }

  lemma ReversedStacksAreLanes(ds: seq<Dash>, lane: seq<nat>, created: seq<seq<Dash>>, stacks: seq<seq<Dash>>)
    requires |lane| <= |ds| && StacksAreLanes(ds, lane, created)
    requires stacks == Reverse(created)
    ensures forall k :: 0 <= k < |stacks| ==> stacks[k] == Select(ds, lane, |stacks| - 1 - k)
  {
  }

  lemma ReversedStacksNonOverlapping(ds: seq<Dash>, lane: seq<nat>, created: seq<seq<Dash>>, stacks: seq<seq<Dash>>)
    requires |lane| <= |ds| && FirstFit(ds, lane) && StacksAreLanes(ds, lane, created)
    requires stacks == Reverse(created)
    ensures forall k :: 0 <= k < |stacks| ==> stacks[k] != [] && NonOverlapping(stacks[k])
  {
    AllLanesNonOverlapping(ds, lane);
  }

  lemma PrefixGrows(ds: seq<Dash>, i: nat)
    requires i <= |ds|
    ensures i < |ds| ==> multiset(ds[..i + 1]) == multiset(ds[..i]) + multiset{ds[i]}
    ensures i == |ds| ==> multiset(ds[..i]) == multiset(ds)
  {
    if i < |ds| {
      assert ds[..i + 1] == ds[..i] + [ds[i]];
    } else {
      assert ds[..i] == ds;
    }
  }

  /** One step of the stacking loop keeps its invariant. */
  lemma Placement(ds: seq<Dash>, stacks0: seq<seq<Dash>>, lane0: seq<nat>, k: nat, stacks: seq<seq<Dash>>)
    requires |lane0| < |ds| && Stacked(ds, lane0, stacks0)
    requires k <= |stacks0|
    requires forall j :: 0 <= j < k ==> !Fits(stacks0[j], ds[|lane0|])
    requires k < |stacks0| ==> Fits(stacks0[k], ds[|lane0|])
    requires stacks == (if k < |stacks0| then stacks0[k := stacks0[k] + [ds[|lane0|]]] else stacks0 + [[ds[|lane0|]]])
    ensures Stacked(ds, lane0 + [k], stacks)
  {
    PlacementIsFirstFit(ds, stacks0, lane0, k);
    PlacementKeepsStacks(ds, stacks0, lane0, k, stacks);
  }

  /** Each open stack's last dash is its lane's last dash. */
  lemma StackTops(ds: seq<Dash>, stacks0: seq<seq<Dash>>, lane0: seq<nat>)
    requires |lane0| <= |ds|
    requires StacksAreLanes(ds, lane0, stacks0)
    ensures forall j :: 0 <= j < |stacks0| ==> LastIn(lane0, j) >= 0 && ds[LastIn(lane0, j)] == stacks0[j][|stacks0[j]| - 1]
  {
    forall j | 0 <= j < |stacks0|
      ensures LastIn(lane0, j) >= 0 && ds[LastIn(lane0, j)] == stacks0[j][|stacks0[j]| - 1]
    {
      SelectLast(ds, lane0, j);
    }
  }

  /** The stack the inner loop picks for dash `ds[|lane0|]` is the first-fit choice. */
  lemma PlacementIsFirstFit(ds: seq<Dash>, stacks0: seq<seq<Dash>>, lane0: seq<nat>, k: nat)
    requires |lane0| < |ds| && FirstFit(ds, lane0) && |stacks0| == LaneCount(lane0)
    requires StacksAreLanes(ds, lane0, stacks0)
    requires k <= |stacks0|
    requires forall j :: 0 <= j < k ==> !Fits(stacks0[j], ds[|lane0|])
    requires k < |stacks0| ==> Fits(stacks0[k], ds[|lane0|])
    ensures FirstFit(ds, lane0 + [k])
  {
    StackTops(ds, stacks0, lane0);
    if k == |stacks0| {
      assert LastIn(lane0, k) < 0;
    }
    assert FirstFitChoice(ds, lane0, k);
    assert (lane0 + [k])[..|lane0|] == lane0;
  }

  /** The placement adds exactly the placed dash to the stacks' contents. */
  lemma PlacementAddsDash(ds: seq<Dash>, n: nat, stacks0: seq<seq<Dash>>, k: nat, stacks: seq<seq<Dash>>)
    requires n < |ds| && k <= |stacks0|
    requires multiset(Flatten(stacks0)) == multiset(ds[..n])
    requires stacks == (if k < |stacks0| then stacks0[k := stacks0[k] + [ds[n]]] else stacks0 + [[ds[n]]])
    ensures multiset(Flatten(stacks)) == multiset(ds[..n + 1])
  {
    if k < |stacks0| {
      FlattenUpdate(stacks0, k, ds[n]);
    } else {
      FlattenAppend(stacks0, [ds[n]]);
    }
    PrefixGrows(ds, n);
  }

  /** After the placement, stack j still holds exactly the dashes of lane j. */
  lemma PlacementKeepsStacks(ds: seq<Dash>, stacks0: seq<seq<Dash>>, lane0: seq<nat>, k: nat, stacks: seq<seq<Dash>>)
    requires |lane0| < |ds| && |stacks0| == LaneCount(lane0)
    requires StacksAreLanes(ds, lane0, stacks0)
    requires k <= |stacks0|
    requires stacks == (if k < |stacks0| then stacks0[k := stacks0[k] + [ds[|lane0|]]] else stacks0 + [[ds[|lane0|]]])
    ensures |stacks| == LaneCount(lane0 + [k])
    ensures StacksAreLanes(ds, lane0 + [k], stacks)
  {
    assert (lane0 + [k])[..|lane0|] == lane0;
    forall j | 0 <= j < |stacks|
      ensures stacks[j] == Select(ds, lane0 + [k], j) && stacks[j] != []
    {
      SelectExtend(ds, lane0, k, j);
      if j == |stacks0| {
        assert LastIn(lane0, j) < 0;
        SelectLast(ds, lane0, j);
      }
    }
  }
}
