/**
 * The Gantt core of src/timelineData.py: the `Dash` task record, the Gantt
 * database (rows kept sorted by start date), its date range, and the
 * `maxOverlaps` sweep that counts how many tasks run at the same time.
 * The other two database kinds appear only through their date columns.
 */
module TimelineData {
  import opened Dates

  /** A task: a name and a start and end date. Nothing checks that start <= end. */
  datatype Dash = Dash(name: string, start: real, end: real)

  /** `Dash.duration()`: the length of the bar drawn from `start`; negative for a task that ends before it starts. */
  function Duration(d: Dash): (r: real)
    ensures d.start + r == d.end
    ensures r >= 0.0 <==> d.start <= d.end
  {
    d.end - d.start
  }

  /** A Gantt database is its rows of (name, start, end). */
  datatype GanttDatabase = GanttDatabase(rows: seq<Dash>)

  /** A CSV database, through the dates of its index column (the numeric columns play no part here). */
  datatype Database = Database(index: seq<real>)

  /** An event database: its date column (the briefs play no part here). */
  datatype EventDatabase = EventDatabase(dates: seq<real>)

  predicate SortedByStart(ds: seq<Dash>)
  {
    forall i, j :: 0 <= i <= j < |ds| ==> ds[i].start <= ds[j].start
  }

  /** The constructor sorts the rows by start date, so every Gantt database in use is sorted. */
  predicate Valid(db: GanttDatabase)
  {
    SortedByStart(db.rows)
  }

  function Starts(ds: seq<Dash>): (r: seq<real>)
    ensures |r| == |ds| && forall i :: 0 <= i < |ds| ==> r[i] == ds[i].start
  {
    seq(|ds|, i requires 0 <= i < |ds| => ds[i].start)
  }

  function Ends(ds: seq<Dash>): (r: seq<real>)
    ensures |r| == |ds| && forall i :: 0 <= i < |ds| ==> r[i] == ds[i].end
  {
    seq(|ds|, i requires 0 <= i < |ds| => ds[i].end)
  }

  // ---------------------------------------------------------------------------
  // Date range of each kind of database
  // ---------------------------------------------------------------------------

  /** `minStartDate()`: the earliest start; NaN without rows. */
  function MinStartDate(db: GanttDatabase): (r: Stamp)
    ensures r == NaN <==> db.rows == []
    ensures r.Time? ==> IsLeast(r.t, Starts(db.rows))
  {
    ColumnMin(Starts(db.rows))
  }

  /** `maxStartDate()`: the latest start; NaN without rows. */
  function MaxStartDate(db: GanttDatabase): (r: Stamp)
    ensures r == NaN <==> db.rows == []
    ensures r.Time? ==> IsGreatest(r.t, Starts(db.rows))
  {
    ColumnMax(Starts(db.rows))
  }

  /** `minEndDate()`: the earliest end; NaN without rows. */
  function MinEndDate(db: GanttDatabase): (r: Stamp)
    ensures r == NaN <==> db.rows == []
    ensures r.Time? ==> IsLeast(r.t, Ends(db.rows))
  {
    ColumnMin(Ends(db.rows))
  }

  /** `maxEndDate()`: the latest end; NaN without rows. */
  function MaxEndDate(db: GanttDatabase): (r: Stamp)
    ensures r == NaN <==> db.rows == []
    ensures r.Time? ==> IsGreatest(r.t, Ends(db.rows))
  {
    ColumnMax(Ends(db.rows))
  }

  /** `GanttDatabase.minDate()`: the left edge of the chart is the earliest start. */
  function GanttMinDate(db: GanttDatabase): (r: Stamp)
    ensures r == NaN <==> db.rows == []
    ensures r.Time? ==> IsLeast(r.t, Starts(db.rows))
  {
    MinStartDate(db)
  }

  /** `GanttDatabase.maxDate()`: the right edge of the chart is the latest END, not the latest start. */
  function GanttMaxDate(db: GanttDatabase): (r: Stamp)
    ensures r == NaN <==> db.rows == []
    ensures r.Time? ==> IsGreatest(r.t, Ends(db.rows))
    ensures r.Time? ==> forall i :: 0 <= i < |db.rows| ==> db.rows[i].end <= r.t
  {
    MaxEndDate(db)
  }

  /** On a sorted database the earliest start is the first row's start ("start date of the first task"). */
  lemma MinDateIsFirstStart(db: GanttDatabase)
    requires Valid(db) && db.rows != []
    ensures GanttMinDate(db) == Time(db.rows[0].start)
  {
    var m := GanttMinDate(db);
    var k :| 0 <= k < |db.rows| && Starts(db.rows)[k] == m.t;
    assert db.rows[0].start <= db.rows[k].start;
  }

  /** `Database.minDate()`: the smallest date of the index. */
  function IndexMinDate(db: Database): (r: Stamp)
    ensures r == NaN <==> db.index == []
    ensures r.Time? ==> IsLeast(r.t, db.index)
  {
    ColumnMin(db.index)
  }

  /** `Database.maxDate()`: the largest date of the index. */
  function IndexMaxDate(db: Database): (r: Stamp)
    ensures r == NaN <==> db.index == []
    ensures r.Time? ==> IsGreatest(r.t, db.index)
  {
    ColumnMax(db.index)
  }

  /** `EventDatabase.minDate()`: the earliest event. */
  function EventMinDate(db: EventDatabase): (r: Stamp)
    ensures r == NaN <==> db.dates == []
    ensures r.Time? ==> IsLeast(r.t, db.dates)
  {
    ColumnMin(db.dates)
  }

  /** `EventDatabase.maxDate()`: the latest event. */
  function EventMaxDate(db: EventDatabase): (r: Stamp)
    ensures r == NaN <==> db.dates == []
    ensures r.Time? ==> IsGreatest(r.t, db.dates)
  {
    ColumnMax(db.dates)
  }

  // ---------------------------------------------------------------------------
  // The overlap count: specification
  // ---------------------------------------------------------------------------

  /** How many of `ds` end at or after `t`. */
  function CountEndsFrom(ds: seq<Dash>, t: real): (c: nat)
    ensures c <= |ds|
  {
    if ds == [] then 0
    else CountEndsFrom(ds[..|ds| - 1], t) + (if ds[|ds| - 1].end >= t then 1 else 0)
  }

  /** Tasks counted as running when task `i` starts: itself and every earlier task that has not ended before. */
  function ConcurrentAt(ds: seq<Dash>, i: nat): (c: nat)
    requires i < |ds|
    ensures 1 <= c <= i + 1
  {
    1 + CountEndsFrom(ds[..i], ds[i].start)
  }

  /** The largest `ConcurrentAt` among the first `n` tasks; 0 when there are none. */
  function MaxConcurrent(ds: seq<Dash>, n: nat): (m: nat)
    requires n <= |ds|
    ensures m == 0 <==> n == 0
    ensures m <= n
  {
    if n == 0 then 0
    else
      var prev := MaxConcurrent(ds, n - 1);
      var here := ConcurrentAt(ds, n - 1);
      if prev < here then here else prev
  }

  /** `MaxConcurrent` is the maximum: no task's count exceeds it, and some task's count equals it. */
  lemma {:induction false} MaxConcurrentIsMaximum(ds: seq<Dash>, n: nat)
    requires n <= |ds|
    ensures forall i :: 0 <= i < n ==> ConcurrentAt(ds, i) <= MaxConcurrent(ds, n)
    ensures n > 0 ==> exists i :: 0 <= i < n && ConcurrentAt(ds, i) == MaxConcurrent(ds, n)
  {
    if n > 0 {
      MaxConcurrentIsMaximum(ds, n - 1);
      if n == 1 {
        assert ConcurrentAt(ds, 0) == MaxConcurrent(ds, 1);
      }
    }
  }

  /** What `maxOverlaps()` computes: the maximum over i of 1 + #{j < i : end_j >= start_i}. */
  function MaxOverlapsOf(ds: seq<Dash>): nat
  {
    MaxConcurrent(ds, |ds|)
  }

  // ---------------------------------------------------------------------------
  // The overlap count: the sweep as written
  // ---------------------------------------------------------------------------

  /** The numpy mask `a[a >= t]`: the elements of `a` that are at least `t`, in order. */
  function KeepAtLeast(a: seq<real>, t: real): (r: seq<real>)
    ensures |r| <= |a|
    ensures forall x :: x in r <==> x in a && x >= t
  {
    if a == [] then []
    else
      var init := KeepAtLeast(a[..|a| - 1], t);
      var x := a[|a| - 1];
      assert a == a[..|a| - 1] + [x];
      if x >= t then init + [x] else init
  }

  lemma {:induction false} KeepAtLeastAppend(a: seq<real>, b: seq<real>, t: real)
    ensures KeepAtLeast(a + b, t) == KeepAtLeast(a, t) + KeepAtLeast(b, t)
    decreases |b|
  {
    if b != [] {
      var b' := b[..|b| - 1];
      assert (a + b)[..|a + b| - 1] == a + b';
      KeepAtLeastAppend(a, b', t);
    } else {
      assert a + b == a;
    }
  }

  /** Filtering by a lower bound and then by a higher one is filtering by the higher one. */
  lemma {:induction false} KeepAtLeastTwice(a: seq<real>, lo: real, hi: real)
    requires lo <= hi
    ensures KeepAtLeast(KeepAtLeast(a, lo), hi) == KeepAtLeast(a, hi)
    decreases |a|
  {
    if a != [] {
      var init := a[..|a| - 1];
      var x := a[|a| - 1];
      KeepAtLeastTwice(init, lo, hi);
      if x >= lo {
        KeepAtLeastAppend(KeepAtLeast(init, lo), [x], hi);
      }
    }
  }

  /** The ends of `ds` that survive the mask `>= t` are exactly `CountEndsFrom(ds, t)` many. */
  lemma {:induction false} KeepAtLeastCount(ds: seq<Dash>, t: real)
    ensures |KeepAtLeast(Ends(ds), t)| == CountEndsFrom(ds, t)
    decreases |ds|
  {
    if ds != [] {
      var init := ds[..|ds| - 1];
      assert Ends(ds)[..|ds| - 1] == Ends(init);
      KeepAtLeastCount(init, t);
    }
  }

  /** One step of the sweep: masking the remembered ends by the next start gives the earlier ends not yet passed. */
  lemma SweepStep(ds: seq<Dash>, i: nat)
    requires SortedByStart(ds) && 0 < i < |ds|
    ensures KeepAtLeast(KeepAtLeast(Ends(ds[..i - 1]), ds[i - 1].start) + [ds[i - 1].end], ds[i].start)
         == KeepAtLeast(Ends(ds[..i]), ds[i].start)
  {
    var prior := Ends(ds[..i - 1]);
    var s, e := ds[i - 1].start, ds[i - 1].end;
    KeepAtLeastAppend(KeepAtLeast(prior, s), [e], ds[i].start);
    KeepAtLeastTwice(prior, s, ds[i].start);
    assert Ends(ds[..i]) == prior + [e];
    KeepAtLeastAppend(prior, [e], ds[i].start);
  }

  /**
   * `GanttDatabase.maxOverlaps()`: sweep the tasks in start order, keeping the
   * end dates not yet passed, and report the largest number of them ever held.
   */
  method MaxOverlaps(db: GanttDatabase) returns (maximum: nat)
    requires Valid(db)
    ensures maximum == MaxOverlapsOf(db.rows)
    ensures db.rows == [] ==> maximum == 0
    ensures db.rows != [] ==> 1 <= maximum <= |db.rows|
  {
    var ds := db.rows;
    maximum := 0;
    var currentOverlaps: seq<real> := [];
    for i := 0 to |ds|
      invariant Swept(ds, i, currentOverlaps, maximum)
    {
      SweepTurn(ds, i, currentOverlaps, maximum);
      currentOverlaps := KeepAtLeast(currentOverlaps, ds[i].start) + [ds[i].end];
      maximum := if maximum < |currentOverlaps| then |currentOverlaps| else maximum;
    }
  }

  /**
   * The sweep's state once it has passed the first `i` tasks: the earlier ends
   * not before task `i - 1`'s start, then that task's own end; and the largest
   * count seen so far.
   */
  predicate Swept(ds: seq<Dash>, i: nat, current: seq<real>, maximum: nat)
    requires i <= |ds|
  {
    && maximum == MaxConcurrent(ds, i)
    && if i == 0 then current == []
       else current == KeepAtLeast(Ends(ds[..i - 1]), ds[i - 1].start) + [ds[i - 1].end]
  }

  /**
   * One turn of the sweep: masking the held ends by task `i`'s start, adding
   * its end and taking the larger count keeps `Swept`, with `ConcurrentAt(ds, i)`
   * ends held.
   */
  lemma SweepTurn(ds: seq<Dash>, i: nat, current: seq<real>, maximum: nat)
    requires SortedByStart(ds) && i < |ds| && Swept(ds, i, current, maximum)
    ensures var next := KeepAtLeast(current, ds[i].start) + [ds[i].end];
      && |next| == ConcurrentAt(ds, i)
      && Swept(ds, i + 1, next, if maximum < |next| then |next| else maximum)
  {
    if i > 0 {
      SweepStep(ds, i);
    } else {
      assert Ends(ds[..0]) == [];
    }
    KeepAtLeastCount(ds[..i], ds[i].start);
  }

  /** Touching tasks count as simultaneous: (0,2) then (2,4) gives 2, because an end equal to the next start is kept. */
  lemma TouchingTasksOverlap()
    ensures MaxOverlapsOf([Dash("a", 0.0, 2.0), Dash("b", 2.0, 4.0)]) == 2
  {
    var ds := [Dash("a", 0.0, 2.0), Dash("b", 2.0, 4.0)];
    assert ds[..1] == [ds[0]];
    assert ConcurrentAt(ds, 1) == 2;
  }

  // ---------------------------------------------------------------------------
  // The overlap count read as "tasks sharing an instant"
  // ---------------------------------------------------------------------------

  /** How many tasks, as closed intervals [start, end], contain the instant `t`. */
  function Containing(ds: seq<Dash>, t: real): (c: nat)
    ensures c <= |ds|
  {
    if ds == [] then 0
    else Containing(ds[..|ds| - 1], t) + (if ds[|ds| - 1].start <= t <= ds[|ds| - 1].end then 1 else 0)
  }

  predicate WellFormed(ds: seq<Dash>)
  {
    forall i :: 0 <= i < |ds| ==> ds[i].start <= ds[i].end
  }

  /** A task containing `t >= s` ends at or after `s`. */
  lemma {:induction false} ContainingAtMostEndsFrom(ds: seq<Dash>, s: real, t: real)
    requires s <= t
    ensures Containing(ds, t) <= CountEndsFrom(ds, s)
    decreases |ds|
  {
    if ds != [] {
      ContainingAtMostEndsFrom(ds[..|ds| - 1], s, t);
    }
  }

  /** When every task has started by `t`, each one that ends at or after `t` contains `t`. */
  lemma {:induction false} EndsFromAtMostContaining(ds: seq<Dash>, t: real)
    requires forall i :: 0 <= i < |ds| ==> ds[i].start <= t
    ensures CountEndsFrom(ds, t) <= Containing(ds, t)
    decreases |ds|
  {
    if ds != [] {
      EndsFromAtMostContaining(ds[..|ds| - 1], t);
    }
  }

  lemma {:induction false} ContainingPrefix(ds: seq<Dash>, n: nat, t: real)
    requires n <= |ds|
    ensures Containing(ds[..n], t) <= Containing(ds, t)
    decreases |ds|
  {
    if n < |ds| {
      var init := ds[..|ds| - 1];
      assert init[..n] == ds[..n];
      ContainingPrefix(init, n, t);
    } else {
      assert ds[..n] == ds;
    }
  }

  lemma {:induction false} ContainingWithinMaxConcurrent(ds: seq<Dash>, n: nat, t: real)
    requires n <= |ds|
    ensures Containing(ds[..n], t) <= MaxConcurrent(ds, n)
    decreases n
  {
    if n > 0 {
      var last := ds[n - 1];
      assert ds[..n][..n - 1] == ds[..n - 1];
      if last.start <= t {
        ContainingAtMostEndsFrom(ds[..n - 1], last.start, t);
        assert Containing(ds[..n], t) <= ConcurrentAt(ds, n - 1);
      } else {
        ContainingWithinMaxConcurrent(ds, n - 1, t);
      }
    }
  }

  /** No instant is covered by more tasks than `maxOverlaps()` reports (whatever the order of the rows). */
  lemma NoInstantExceedsMaxOverlaps(ds: seq<Dash>, t: real)
    ensures Containing(ds, t) <= MaxOverlapsOf(ds)
  {
    ContainingWithinMaxConcurrent(ds, |ds|, t);
    assert ds[..|ds|] == ds;
  }

  /**
   * On sorted, well-formed rows the count is reached: some instant (a start date)
   * is covered by exactly `maxOverlaps()` tasks.
   */
  lemma MaxOverlapsIsAttained(ds: seq<Dash>)
    requires SortedByStart(ds) && WellFormed(ds)
    ensures exists t :: Containing(ds, t) == MaxOverlapsOf(ds)
  {
    if ds == [] {
      assert Containing(ds, 0.0) == 0;
    } else {
      MaxConcurrentIsMaximum(ds, |ds|);
      var i :| 0 <= i < |ds| && ConcurrentAt(ds, i) == MaxOverlapsOf(ds);
      ContainingAtStart(ds, i);
      NoInstantExceedsMaxOverlaps(ds, ds[i].start);
    }
  }

  /** At the start of task `i`, every task counted by `ConcurrentAt(ds, i)` is running. */
  lemma ContainingAtStart(ds: seq<Dash>, i: nat)
    requires SortedByStart(ds) && WellFormed(ds) && i < |ds|
    ensures ConcurrentAt(ds, i) <= Containing(ds, ds[i].start)
  {
    var t := ds[i].start;
    EndsFromAtMostContaining(ds[..i], t);
    assert ds[..i + 1][..i] == ds[..i];
    assert Containing(ds[..i + 1], t) == Containing(ds[..i], t) + 1;
    ContainingPrefix(ds, i + 1, t);
  }
}
