/**
 * `Database.parseSerieses` (src/timelineData.py): turning the optional JSON
 * header of a data file into the list of series to plot.
 *
 * The data frame is abstracted to its column names and the parsed JSON to a
 * `Config` record.  A Python `KeyError` becomes a `Failure`: reading `"min"`
 * when only `"min"` is given (the bound is read from the `"max"` key), or
 * naming a column the data frame does not have.
 */
module Serieses {
  import opened Wrappers

  /** One entry of an axis's `"columns"` list. */
  datatype ColumnSpec = ColumnSpec(name: string, style: Option<string>)

  /** A `"primaryAxis"` or `"secondaryAxis"` object; a missing key is `None`. */
  datatype AxisSpec = AxisSpec(
    max: Option<real>, min: Option<real>, interval: Option<real>, columns: Option<seq<ColumnSpec>>)

  /** The JSON header, once parsed. */
  datatype Config = Config(primaryAxis: Option<AxisSpec>, secondaryAxis: Option<AxisSpec>)

  /** A series to plot: its column, its axis, and its line style. */
  datatype Series = Series(name: string, isPrimary: bool, isDashed: bool)

  /** The axis attributes the parse sets (`primaryMax`, `primaryMin`, `primaryInterval`, ...). */
  datatype AxisBounds = AxisBounds(max: Option<real>, min: Option<real>, interval: Option<real>)

  /**
   * What the parse leaves in the database: the series, and the bounds of each
   * axis (`None` when no JSON header was present, so none were assigned).
   */
  datatype SeriesSetup = SeriesSetup(serieses: seq<Series>, primary: Option<AxisBounds>, secondary: Option<AxisBounds>)

  /** The `KeyError`s the parse can raise. */
  datatype ParseError = MissingMax | MissingColumn(name: string)

  // ---------------------------------------------------------------------------
  // Specification
  // ---------------------------------------------------------------------------

  function Names(ss: seq<Series>): (r: seq<string>)
    ensures |r| == |ss| && forall i :: 0 <= i < |ss| ==> r[i] == ss[i].name
  {
    seq(|ss|, i requires 0 <= i < |ss| => ss[i].name)
  }

  function ColumnsOf(ax: AxisSpec): seq<ColumnSpec>
  {
    if ax.columns.Some? then ax.columns.value else []
  }

  /** The bounds an axis object yields; the min bound is read from the `"max"` key. */
  function BoundsOf(ax: AxisSpec): (r: Result<AxisBounds, ParseError>)
    ensures r.Failure? <==> ax.min.Some? && ax.max.None?
    ensures r.Failure? ==> r.error == MissingMax
    ensures r.Success? ==> r.value.max == ax.max && r.value.interval == ax.interval
    ensures r.Success? ==> (r.value.min.Some? <==> ax.min.Some?) && (r.value.min.Some? ==> r.value.min == r.value.max)
  {
    if ax.min.Some? && ax.max.None? then Failure(MissingMax)
    else Success(AxisBounds(ax.max, if ax.min.Some? then ax.max else None, ax.interval))
  }

  /** The series for an axis's column entries, or the first entry naming no column. */
  function AxisSerieses(specs: seq<ColumnSpec>, columns: seq<string>, isPrimary: bool): Result<seq<Series>, ParseError>
  {
    if specs == [] then Success([])
    else
      var c := specs[|specs| - 1];
      match AxisSerieses(specs[..|specs| - 1], columns, isPrimary)
      case Failure(e) => Failure(e)
      case Success(s) =>
        if c.name in columns then Success(s + [Series(c.name, isPrimary, c.style == Some("dashed"))])
        else Failure(MissingColumn(c.name))
  }

  /** The columns not already added, as primary solid series, in column order. */
  function Remaining(columns: seq<string>, added: seq<string>): seq<Series>
  {
    if columns == [] then []
    else
      var c := columns[|columns| - 1];
      Remaining(columns[..|columns| - 1], added) + (if c !in added then [Series(c, true, false)] else [])
  }

  /** One axis: its bounds and its series (an absent axis has no bounds and no series). */
  function AxisOf(ax: Option<AxisSpec>, columns: seq<string>, isPrimary: bool): Result<(AxisBounds, seq<Series>), ParseError>
  {
    match ax
    case None => Success((AxisBounds(None, None, None), []))
    case Some(a) =>
      match BoundsOf(a)
      case Failure(e) => Failure(e)
      case Success(b) =>
        match AxisSerieses(ColumnsOf(a), columns, isPrimary)
        case Failure(e) => Failure(e)
        case Success(s) => Success((b, s))
  }

  /** The outcome of the parse: primary-axis series, then secondary-axis series, then the rest. */
  function Expected(columns: seq<string>, config: Option<Config>): Result<SeriesSetup, ParseError>
  {
    match config
    case None => Success(SeriesSetup(Remaining(columns, []), None, None))
    case Some(cfg) =>
      match AxisOf(cfg.primaryAxis, columns, true)
      case Failure(e) => Failure(e)
      case Success(p) =>
        match AxisOf(cfg.secondaryAxis, columns, false)
        case Failure(e) => Failure(e)
        case Success(s) =>
          var named := p.1 + s.1;
          Success(SeriesSetup(named + Remaining(columns, Names(named)), Some(p.0), Some(s.0)))
  }

  // ---------------------------------------------------------------------------
  // The parse
  // ---------------------------------------------------------------------------

  /**
   * `parseSerieses`: the series named by each axis, in order, then every other
   * column as a primary solid series.
   */
  method ParseSerieses(columns: seq<string>, config: Option<Config>) returns (r: Result<SeriesSetup, ParseError>)
    ensures r == Expected(columns, config)
  {
    var serieses: seq<Series> := [];
    var addedColumns: seq<string> := [];
    var primary: Option<AxisBounds> := None;
    var secondary: Option<AxisBounds> := None;
    if config.Some? {
      var p := ParseAxis(config.value.primaryAxis, columns, true, serieses, addedColumns);
      if p.Failure? {
        return Failure(p.error);
      }
      primary, serieses, addedColumns := Some(p.value.0), p.value.1, p.value.2;
      var s := ParseAxis(config.value.secondaryAxis, columns, false, serieses, addedColumns);
      if s.Failure? {
        return Failure(s.error);
      }
      secondary, serieses, addedColumns := Some(s.value.0), s.value.1, s.value.2;
      assert serieses == AxisOf(config.value.primaryAxis, columns, true).value.1
                       + AxisOf(config.value.secondaryAxis, columns, false).value.1;
    }
    ghost var named := serieses;
    assert addedColumns == Names(named);
    assert config.None? ==> named == [];
    for i := 0 to |columns|
      invariant serieses == named + Remaining(columns[..i], addedColumns)
    {
      var column := columns[i];
      assert columns[..i + 1][..i] == columns[..i];
      if column !in addedColumns {
        serieses := serieses + [Series(column, true, false)];
      }
    }
    assert columns[..|columns|] == columns;
    if config.None? {
      assert serieses == Remaining(columns, []);
    }
    return Success(SeriesSetup(serieses, primary, secondary));
  }

  /**
   * The handling of one axis object: its bounds, then one series per entry of
   * its `"columns"` list, appended to `serieses` and recorded in `added`.
   */
  method ParseAxis(ax: Option<AxisSpec>, columns: seq<string>, isPrimary: bool, serieses: seq<Series>, added: seq<string>)
    returns (r: Result<(AxisBounds, seq<Series>, seq<string>), ParseError>)
    requires added == Names(serieses)
    ensures AxisOf(ax, columns, isPrimary).Failure? <==> r.Failure?
    ensures r.Failure? ==> r.error == AxisOf(ax, columns, isPrimary).error
    ensures r.Success? ==> r.value.0 == AxisOf(ax, columns, isPrimary).value.0
    ensures r.Success? ==> r.value.1 == serieses + AxisOf(ax, columns, isPrimary).value.1
    ensures r.Success? ==> r.value.2 == Names(r.value.1)
  {
    if ax.None? {
      return Success((AxisBounds(None, None, None), serieses, added));
    }
    var axSpec := ax.value;
    var b := BoundsOf(axSpec);
    if b.Failure? {
      return Failure(b.error);
    }
    var bounds := b.value;
    var out, outAdded := serieses, added;
    if axSpec.columns.Some? {
      var specs := axSpec.columns.value;
      for i := 0 to |specs|
        invariant AxisSerieses(specs[..i], columns, isPrimary).Success?
        invariant out == serieses + AxisSerieses(specs[..i], columns, isPrimary).value
        invariant outAdded == Names(out)
      {
        var column := specs[i];
        assert specs[..i + 1][..i] == specs[..i];
        if column.name !in columns {
          FailureStays(specs, i + 1, columns, isPrimary);
          assert specs[..|specs|] == specs;
          return Failure(MissingColumn(column.name));
        }
        out := out + [Series(column.name, isPrimary, column.style == Some("dashed"))];
        outAdded := outAdded + [column.name];
      }
      assert specs[..|specs|] == specs;
    }
    return Success((bounds, out, outAdded));
  }

  /** Once an entry names no column, the whole list fails with that entry's name. */
  lemma {:induction false} FailureStays(specs: seq<ColumnSpec>, n: nat, columns: seq<string>, isPrimary: bool)
    requires 0 < n <= |specs| && AxisSerieses(specs[..n], columns, isPrimary).Failure?
    ensures AxisSerieses(specs, columns, isPrimary) == AxisSerieses(specs[..n], columns, isPrimary)
    decreases |specs| - n
  {
    if n < |specs| {
      assert specs[..n + 1][..n] == specs[..n];
      FailureStays(specs, n + 1, columns, isPrimary);
    } else {
      assert specs[..n] == specs;
    }
  }

  // ---------------------------------------------------------------------------
  // Properties
  // ---------------------------------------------------------------------------

  /**
   * An axis's series follow its column entries one for one: same name, the
   * axis's flag, and dashed exactly when the entry's style is `"dashed"`.
   */
  lemma {:induction false} AxisSeriesesFollowEntries(specs: seq<ColumnSpec>, columns: seq<string>, isPrimary: bool)
    requires AxisSerieses(specs, columns, isPrimary).Success?
    ensures var s := AxisSerieses(specs, columns, isPrimary).value;
      && |s| == |specs|
      && forall i :: 0 <= i < |s| ==>
        s[i] == Series(specs[i].name, isPrimary, specs[i].style == Some("dashed")) && specs[i].name in columns
  {
    if specs != [] {
      AxisSeriesesFollowEntries(specs[..|specs| - 1], columns, isPrimary);
    }
  }

  /**
   * An axis's entries fail exactly when one names no column, and the error
   * names the first such entry.
   */
  lemma {:induction false} AxisSeriesesFailure(specs: seq<ColumnSpec>, columns: seq<string>, isPrimary: bool)
    ensures AxisSerieses(specs, columns, isPrimary).Failure? <==> exists i :: 0 <= i < |specs| && specs[i].name !in columns
    ensures AxisSerieses(specs, columns, isPrimary).Failure? ==>
      exists i :: 0 <= i < |specs| && AxisSerieses(specs, columns, isPrimary).error == MissingColumn(specs[i].name)
        && specs[i].name !in columns && forall j :: 0 <= j < i ==> specs[j].name in columns
  {
    if specs != [] {
      var init := specs[..|specs| - 1];
      AxisSeriesesFailure(init, columns, isPrimary);
      if AxisSerieses(init, columns, isPrimary).Failure? {
        var i :| 0 <= i < |init| && AxisSerieses(init, columns, isPrimary).error == MissingColumn(init[i].name)
          && init[i].name !in columns && forall j :: 0 <= j < i ==> init[j].name in columns;
        assert specs[i] == init[i];
      } else {
        assert forall j :: 0 <= j < |init| ==> specs[j].name in columns;
      }
    }
  }

  /** The remaining series are the columns not already added, each once, in column order, primary and solid. */
  lemma {:induction false} RemainingColumns(columns: seq<string>, added: seq<string>)
    ensures forall s :: s in Remaining(columns, added) ==> s.name in columns && s.name !in added && s.isPrimary && !s.isDashed
    ensures forall c :: c in columns && c !in added ==> Series(c, true, false) in Remaining(columns, added)
    ensures added == [] ==> Names(Remaining(columns, added)) == columns
  {
    if columns != [] {
      var init := columns[..|columns| - 1];
      RemainingColumns(init, added);
      assert columns == init + [columns[|columns| - 1]];
    }
  }

  /** Without a JSON header, every column becomes a primary solid series, in column order, and no bounds are set. */
  lemma NoHeaderPlotsEveryColumn(columns: seq<string>)
    ensures Expected(columns, None).Success?
    ensures Names(Expected(columns, None).value.serieses) == columns
    ensures forall s :: s in Expected(columns, None).value.serieses ==> s.isPrimary && !s.isDashed
    ensures Expected(columns, None).value.primary.None? && Expected(columns, None).value.secondary.None?
  {
    RemainingColumns(columns, []);
  }

  /** The entries of an axis object, or none when the axis is absent. */
  function EntriesOf(ax: Option<AxisSpec>): seq<ColumnSpec>
  {
    if ax.Some? then ColumnsOf(ax.value) else []
  }

  /** A successful parse is the two axes' series followed by the remaining columns. */
  lemma SuccessParts(columns: seq<string>, cfg: Config)
    requires Expected(columns, Some(cfg)).Success?
    ensures AxisSerieses(EntriesOf(cfg.primaryAxis), columns, true).Success?
    ensures AxisSerieses(EntriesOf(cfg.secondaryAxis), columns, false).Success?
    ensures var named := AxisSerieses(EntriesOf(cfg.primaryAxis), columns, true).value
                       + AxisSerieses(EntriesOf(cfg.secondaryAxis), columns, false).value;
      Expected(columns, Some(cfg)).value.serieses == named + Remaining(columns, Names(named))
  {
  }

  /** The names of the two axes' series are the names of their entries. */
  lemma NamedNames(columns: seq<string>, P: seq<ColumnSpec>, S: seq<ColumnSpec>)
    requires AxisSerieses(P, columns, true).Success? && AxisSerieses(S, columns, false).Success?
    ensures var names := Names(AxisSerieses(P, columns, true).value + AxisSerieses(S, columns, false).value);
      && |names| == |P| + |S|
      && (forall i :: 0 <= i < |P| ==> names[i] == P[i].name)
      && (forall i :: 0 <= i < |S| ==> names[|P| + i] == S[i].name)
  {
    var a, b := AxisSerieses(P, columns, true).value, AxisSerieses(S, columns, false).value;
    NamesAppend(a, b);
    AxisNames(P, columns, true);
    AxisNames(S, columns, false);
    var na, nb := Names(a), Names(b);
    forall i | 0 <= i < |S|
      ensures (na + nb)[|P| + i] == nb[i]
    {
    }
  }

  /** The names an axis records are its entries' names, in order. */
  lemma AxisNames(specs: seq<ColumnSpec>, columns: seq<string>, isPrimary: bool)
    requires AxisSerieses(specs, columns, isPrimary).Success?
    ensures var names := Names(AxisSerieses(specs, columns, isPrimary).value);
      |names| == |specs| && forall i :: 0 <= i < |specs| ==> names[i] == specs[i].name
  {
    AxisSeriesesFollowEntries(specs, columns, isPrimary);
  }

  /** Recording the names of two runs of series one after the other gives their names in that order. */
  lemma NamesAppend(a: seq<Series>, b: seq<Series>)
    ensures Names(a + b) == Names(a) + Names(b)
  {
    var l, r := Names(a + b), Names(a) + Names(b);
    forall i | 0 <= i < |l|
      ensures l[i] == r[i]
    {
      if i >= |a| {
        assert (a + b)[i] == b[i - |a|];
      }
    }
  }

  /** A successful parse starts with the primary axis's entries, in order, on the primary axis. */
  lemma PrimaryEntriesFirst(columns: seq<string>, cfg: Config)
    requires Expected(columns, Some(cfg)).Success?
    ensures var ss, P := Expected(columns, Some(cfg)).value.serieses, EntriesOf(cfg.primaryAxis);
      && |P| <= |ss|
      && forall i :: 0 <= i < |P| ==> ss[i] == Series(P[i].name, true, P[i].style == Some("dashed"))
  {
    var P, S := EntriesOf(cfg.primaryAxis), EntriesOf(cfg.secondaryAxis);
    SuccessParts(columns, cfg);
    var a := AxisSerieses(P, columns, true).value;
    var rest := AxisSerieses(S, columns, false).value + Remaining(columns, Names(a + AxisSerieses(S, columns, false).value));
    AxisSeriesesFollowEntries(P, columns, true);
    assert Expected(columns, Some(cfg)).value.serieses == a + rest;
  }

  /** The secondary axis's entries come next, in order, on the secondary axis. */
  lemma SecondaryEntriesNext(columns: seq<string>, cfg: Config)
    requires Expected(columns, Some(cfg)).Success?
    ensures var ss, P, S := Expected(columns, Some(cfg)).value.serieses, EntriesOf(cfg.primaryAxis), EntriesOf(cfg.secondaryAxis);
      && |P| + |S| <= |ss|
      && forall i :: 0 <= i < |S| ==> ss[|P| + i] == Series(S[i].name, false, S[i].style == Some("dashed"))
  {
    var P, S := EntriesOf(cfg.primaryAxis), EntriesOf(cfg.secondaryAxis);
    SuccessParts(columns, cfg);
    var a, b := AxisSerieses(P, columns, true).value, AxisSerieses(S, columns, false).value;
    AxisSeriesesLength(P, columns, true);
    SecondaryRun(Expected(columns, Some(cfg)).value.serieses, a, S, columns, Remaining(columns, Names(a + b)));
  }

  /** Series built from the secondary entries, placed right after `a`, follow those entries one for one. */
  lemma SecondaryRun(ss: seq<Series>, a: seq<Series>, S: seq<ColumnSpec>, columns: seq<string>, rest: seq<Series>)
    requires AxisSerieses(S, columns, false).Success?
    requires ss == a + AxisSerieses(S, columns, false).value + rest
    ensures |a| + |S| <= |ss|
    ensures forall i :: 0 <= i < |S| ==> ss[|a| + i] == Series(S[i].name, false, S[i].style == Some("dashed"))
  {
    MiddleRun(ss, a, AxisSerieses(S, columns, false).value, rest);
    AxisSeriesesFollowEntries(S, columns, false);
  }

  /** In `a + b + rest`, the run `b` starts right after `a`. */
  lemma MiddleRun(ss: seq<Series>, a: seq<Series>, b: seq<Series>, rest: seq<Series>)
    requires ss == a + b + rest
    ensures |a| + |b| <= |ss|
    ensures forall i :: 0 <= i < |b| ==> ss[|a| + i] == b[i]
  {
    forall i | 0 <= i < |b|
      ensures ss[|a| + i] == b[i]
    {
      assert (a + b)[|a| + i] == b[i];
    }
  }

  /** After the named entries come the columns named by neither axis, primary and solid. */
  lemma OtherColumnsLast(columns: seq<string>, cfg: Config)
    requires Expected(columns, Some(cfg)).Success?
    ensures var ss, P, S := Expected(columns, Some(cfg)).value.serieses, EntriesOf(cfg.primaryAxis), EntriesOf(cfg.secondaryAxis);
      forall i :: |P| + |S| <= i < |ss| ==>
        && ss[i].isPrimary && !ss[i].isDashed && ss[i].name in columns
        && (forall j :: 0 <= j < |P| ==> ss[i].name != P[j].name)
        && (forall j :: 0 <= j < |S| ==> ss[i].name != S[j].name)
  {
    var P, S := EntriesOf(cfg.primaryAxis), EntriesOf(cfg.secondaryAxis);
    SuccessParts(columns, cfg);
    var named := AxisSerieses(P, columns, true).value + AxisSerieses(S, columns, false).value;
    var rest := Remaining(columns, Names(named));
    var ss := Expected(columns, Some(cfg)).value.serieses;
    assert |named| == |P| + |S| by {
      AxisSeriesesLength(P, columns, true);
      AxisSeriesesLength(S, columns, false);
    }
    forall i | |P| + |S| <= i < |ss|
      ensures ss[i] in rest
    {
      assert ss[i] == rest[i - |named|];
    }
    RemainingColumns(columns, Names(named));
    NamedNames(columns, P, S);
  }

  /** An axis yields one series per entry. */
  lemma {:induction false} AxisSeriesesLength(specs: seq<ColumnSpec>, columns: seq<string>, isPrimary: bool)
    requires AxisSerieses(specs, columns, isPrimary).Success?
    ensures |AxisSerieses(specs, columns, isPrimary).value| == |specs|
  {
    if specs != [] {
      AxisSeriesesLength(specs[..|specs| - 1], columns, isPrimary);
    }
  }

  /** After a successful parse, every column is plotted and every series plots a column. */
  lemma EveryColumnPlotted(columns: seq<string>, config: Option<Config>)
    requires Expected(columns, config).Success?
    ensures forall c :: c in columns ==> c in Names(Expected(columns, config).value.serieses)
    ensures forall s :: s in Expected(columns, config).value.serieses ==> s.name in columns
  {
    if config.None? {
      RemainingColumns(columns, []);
    } else {
      NamedColumnsPlotted(columns, config.value);
      OtherColumnsPlotted(columns, config.value);
    }
  }

  /** Every series an axis's entries yield plots a column of the data frame. */
  lemma AxisSeriesesInColumns(specs: seq<ColumnSpec>, columns: seq<string>, isPrimary: bool)
    requires AxisSerieses(specs, columns, isPrimary).Success?
    ensures forall x :: x in AxisSerieses(specs, columns, isPrimary).value ==> x.name in columns
  {
    var s := AxisSerieses(specs, columns, isPrimary).value;
    AxisSeriesesFollowEntries(specs, columns, isPrimary);
    forall x | x in s
      ensures x.name in columns
    {
      var k :| 0 <= k < |s| && s[k] == x;
    }
  }

  /** Every series of a successful parse plots a column of the data frame. */
  lemma NamedColumnsPlotted(columns: seq<string>, cfg: Config)
    requires Expected(columns, Some(cfg)).Success?
    ensures forall s :: s in Expected(columns, Some(cfg)).value.serieses ==> s.name in columns
  {
    var P, S := EntriesOf(cfg.primaryAxis), EntriesOf(cfg.secondaryAxis);
    SuccessParts(columns, cfg);
    AxisSeriesesInColumns(P, columns, true);
    AxisSeriesesInColumns(S, columns, false);
    var a, b := AxisSerieses(P, columns, true).value, AxisSerieses(S, columns, false).value;
    RemainingColumns(columns, Names(a + b));
    assert Expected(columns, Some(cfg)).value.serieses == a + b + Remaining(columns, Names(a + b));
  }

  /** Every column of the data frame has a series after a successful parse. */
  lemma OtherColumnsPlotted(columns: seq<string>, cfg: Config)
    requires Expected(columns, Some(cfg)).Success?
    ensures forall c :: c in columns ==> c in Names(Expected(columns, Some(cfg)).value.serieses)
  {
    var P, S := EntriesOf(cfg.primaryAxis), EntriesOf(cfg.secondaryAxis);
    SuccessParts(columns, cfg);
    var named := AxisSerieses(P, columns, true).value + AxisSerieses(S, columns, false).value;
    var rest := Remaining(columns, Names(named));
    RemainingColumns(columns, Names(named));
    var ss := Expected(columns, Some(cfg)).value.serieses;
    forall c | c in columns
      ensures c in Names(ss)
    {
      if c in Names(named) {
        var k :| 0 <= k < |named| && Names(named)[k] == c;
        assert Names(ss)[k] == c;
      } else {
        var k :| 0 <= k < |rest| && rest[k] == Series(c, true, false);
        assert Names(ss)[|named| + k] == c;
      }
    }
  }

  /** When an axis gives `"min"`, the min bound is the `"max"` value (and `"max"` must be present). */
  lemma MinReadFromMax(columns: seq<string>, cfg: Config)
    requires Expected(columns, Some(cfg)).Success?
    ensures cfg.primaryAxis.Some? && cfg.primaryAxis.value.min.Some? ==>
      && cfg.primaryAxis.value.max.Some?
      && Expected(columns, Some(cfg)).value.primary == Some(AxisBounds(cfg.primaryAxis.value.max, cfg.primaryAxis.value.max, cfg.primaryAxis.value.interval))
    ensures cfg.secondaryAxis.Some? && cfg.secondaryAxis.value.min.Some? ==>
      && cfg.secondaryAxis.value.max.Some?
      && Expected(columns, Some(cfg)).value.secondary == Some(AxisBounds(cfg.secondaryAxis.value.max, cfg.secondaryAxis.value.max, cfg.secondaryAxis.value.interval))
  {
  }

  /** An axis object is rejected when it gives `"min"` without `"max"` or names a missing column. */
  ghost predicate AxisRejected(ax: Option<AxisSpec>, columns: seq<string>)
  {
    && ax.Some?
    && ((ax.value.min.Some? && ax.value.max.None?)
        || exists i :: 0 <= i < |ColumnsOf(ax.value)| && ColumnsOf(ax.value)[i].name !in columns)
  }

  /** The parse fails exactly when one of the two axis objects is rejected. */
  lemma ParseFailsIff(columns: seq<string>, cfg: Config)
    ensures Expected(columns, Some(cfg)).Failure? <==>
      AxisRejected(cfg.primaryAxis, columns) || AxisRejected(cfg.secondaryAxis, columns)
  {
    if cfg.primaryAxis.Some? {
      AxisSeriesesFailure(ColumnsOf(cfg.primaryAxis.value), columns, true);
    }
    if cfg.secondaryAxis.Some? {
      AxisSeriesesFailure(ColumnsOf(cfg.secondaryAxis.value), columns, false);
    }
  }
}
