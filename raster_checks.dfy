/**
 * The species-map validator (gapanalysis/data.py, CheckHabitatMaps): every
 * raster's Describe properties and statistics are compared with the wanted
 * ones, and its attribute table is read row by row; the raster's path or
 * name is appended to each list whose check fails, and the eleven lists are
 * returned in a dictionary.
 *
 * What arcpy reports about a raster is an input (RasterInfo): its Describe
 * properties, its statistics (None where not computed; Python 2 orders None
 * below every number, so a missing statistic never exceeds a threshold) and
 * the rows its SearchCursor yielded. A COUNT of None stands for NaN, which
 * no comparison satisfies.
 */
module RasterChecks {
  import opened Wrappers
  import opened Cursors

  datatype TableRow = TableRow(value: int, count: Option<int>)

  datatype RasterInfo = RasterInfo(
    path: string,          // `r`, as listed
    name: string,          // `rasObj.name`
    projection: string,
    format: string,
    pixelType: string,
    nodata: Option<int>,
    maximum: Option<real>,
    minimum: Option<real>,
    table: Cursor<TableRow>)

  /** The wanted properties: `nodata`, `Format`, `pixel_type`, `maximum`, `minimum`. */
  datatype Wanted = Wanted(nodata: int, format: string, pixelType: string, maximum: real, minimum: real)

  /** The keyword defaults of CheckHabitatMaps. */
  const Defaults := Wanted(0, "TIFF", "U8", 3.0, 3.0)

  /** The eleven lists. */
  datatype Report = Report(
    wrongProjection: seq<string>, wrongNoData: seq<string>, wrongPixelType: seq<string>,
    wrongFormat: seq<string>, wrongMinimum: seq<string>, wrongMaximum: seq<string>,
    badCount: seq<string>, cursorProblem: seq<string>, overMax: seq<string>,
    noRows: seq<string>, zeros: seq<string>)

  const Empty := Report([], [], [], [], [], [], [], [], [], [], [])

  /** Appending one report after another, list by list. */
  function Join(a: Report, b: Report): Report
  {
    Report(a.wrongProjection + b.wrongProjection, a.wrongNoData + b.wrongNoData, a.wrongPixelType + b.wrongPixelType,
      a.wrongFormat + b.wrongFormat, a.wrongMinimum + b.wrongMinimum, a.wrongMaximum + b.wrongMaximum,
      a.badCount + b.badCount, a.cursorProblem + b.cursorProblem, a.overMax + b.overMax,
      a.noRows + b.noRows, a.zeros + b.zeros)
  }

  lemma JoinAssociates(a: Report, b: Report, c: Report)
    ensures Join(Join(a, b), c) == Join(a, Join(b, c))
  {
    assert a.wrongProjection + b.wrongProjection + c.wrongProjection == a.wrongProjection + (b.wrongProjection + c.wrongProjection);
  }

  lemma JoinEmpty(a: Report)
    ensures Join(a, Empty) == a && Join(Empty, a) == a
  {
    assert a.wrongProjection + [] == a.wrongProjection && [] + a.wrongProjection == a.wrongProjection;
    assert a.wrongNoData + [] == a.wrongNoData && [] + a.wrongNoData == a.wrongNoData;
    assert a.wrongPixelType + [] == a.wrongPixelType && [] + a.wrongPixelType == a.wrongPixelType;
    assert a.wrongFormat + [] == a.wrongFormat && [] + a.wrongFormat == a.wrongFormat;
    assert a.wrongMinimum + [] == a.wrongMinimum && [] + a.wrongMinimum == a.wrongMinimum;
    assert a.wrongMaximum + [] == a.wrongMaximum && [] + a.wrongMaximum == a.wrongMaximum;
    assert a.badCount + [] == a.badCount && [] + a.badCount == a.badCount;
    assert a.cursorProblem + [] == a.cursorProblem && [] + a.cursorProblem == a.cursorProblem;
    assert a.overMax + [] == a.overMax && [] + a.overMax == a.overMax;
    assert a.noRows + [] == a.noRows && [] + a.noRows == a.noRows;
    assert a.zeros + [] == a.zeros && [] + a.zeros == a.zeros;
  }

  // ------------------------------------------------------- the code's steps

  /** The property and statistics checks, each appending `r`. */
  function CheckProperties(w: Wanted, rep: Report, r: RasterInfo): Report
  {
    var rep1 := if r.projection != "Albers" then rep.(wrongProjection := rep.wrongProjection + [r.path]) else rep;
    var rep2 := if r.format != w.format then rep1.(wrongFormat := rep1.wrongFormat + [r.path]) else rep1;
    var rep3 := if r.pixelType != w.pixelType then rep2.(wrongPixelType := rep2.wrongPixelType + [r.path]) else rep2;
    var rep4 := if r.nodata != Some(w.nodata) then rep3.(wrongNoData := rep3.wrongNoData + [r.path]) else rep3;
    var rep5 := if r.maximum.Some? && r.maximum.value > w.maximum then rep4.(wrongMaximum := rep4.wrongMaximum + [r.path]) else rep4;
    if r.minimum.Some? && r.minimum.value > w.minimum then rep5.(wrongMinimum := rep5.wrongMinimum + [r.path]) else rep5
  }

  /** One attribute-table row: a COUNT of at most 0 is bad; a VALUE over the maximum or equal to 0 is listed. */
  function CheckRow(w: Wanted, rep: Report, name: string, row: TableRow): Report
  {
    var rep1 := if row.count.Some? && row.count.value <= 0 then rep.(badCount := rep.badCount + [name]) else rep;
    var rep2 := if row.value as real > w.maximum then rep1.(overMax := rep1.overMax + [name]) else rep1;
    if row.value == 0 then rep2.(zeros := rep2.zeros + [name]) else rep2
  }

  /** The rows in the order the cursor yields them. */
  function CheckRows(w: Wanted, rep: Report, name: string, rows: seq<TableRow>): Report
    decreases |rows|
  {
    if rows == [] then rep
    else CheckRow(w, CheckRows(w, rep, name, rows[..|rows| - 1]), name, rows[|rows| - 1])
  }

  /** Whether some row set `RowsOK`: any finite COUNT does. */
  predicate RowsOK(rows: seq<TableRow>)
  {
    exists k :: 0 <= k < |rows| && rows[k].count.Some?
  }

  /**
   * The table check: a cursor that raises adds the raster to CursorProblem
   * and skips the NoRows test; the rows it yielded have been checked.
   */
  function CheckTable(w: Wanted, rep: Report, name: string, table: Cursor<TableRow>): Report
  {
    var rep1 := CheckRows(w, rep, name, table.rows);
    if table.failed then rep1.(cursorProblem := rep1.cursorProblem + [name])
    else if !RowsOK(table.rows) then rep1.(noRows := rep1.noRows + [name])
    else rep1
  }

  function CheckRaster(w: Wanted, rep: Report, r: RasterInfo): Report
  {
    CheckTable(w, CheckProperties(w, rep, r), r.name, r.table)
  }

  /** The loop over the rasters; None when `arcpy.Raster` or `Describe` raises, which ends the call. */
  function CheckAll(w: Wanted, rasters: seq<Option<RasterInfo>>): Option<Report>
    decreases |rasters|
  {
    if rasters == [] then Some(Empty)
    else
      var n := |rasters| - 1;
      match CheckAll(w, rasters[..n])
      case None => None
      case Some(rep) => if rasters[n].None? then None else Some(CheckRaster(w, rep, rasters[n].value))
  }

  // ------------------------------------------------ what one raster adds

  function Repeat(s: string, n: nat): (r: seq<string>)
    ensures |r| == n && forall k :: 0 <= k < n ==> r[k] == s
  {
    seq(n, _ => s)
  }

  function BadRows(rows: seq<TableRow>): nat
  {
    if rows == [] then 0 else (if rows[0].count.Some? && rows[0].count.value <= 0 then 1 else 0) + BadRows(rows[1..])
  }

  function OverRows(rows: seq<TableRow>, maximum: real): nat
  {
    if rows == [] then 0 else (if rows[0].value as real > maximum then 1 else 0) + OverRows(rows[1..], maximum)
  }

  function ZeroRows(rows: seq<TableRow>): nat
  {
    if rows == [] then 0 else (if rows[0].value == 0 then 1 else 0) + ZeroRows(rows[1..])
  }

  function Listed(b: bool, s: string): seq<string>
  {
    if b then [s] else []
  }

  /**
   * The findings about one raster: its path in each property list whose
   * check fails; its name once per bad-count row, once per row over the
   * maximum and once per zero row; in CursorProblem when the cursor raised,
   * and otherwise in NoRows when no row carried a finite COUNT.
   */
  function Findings(w: Wanted, r: RasterInfo): Report
  {
    var rows := r.table.rows;
    Report(
      Listed(r.projection != "Albers", r.path),
      Listed(r.nodata != Some(w.nodata), r.path),
      Listed(r.pixelType != w.pixelType, r.path),
      Listed(r.format != w.format, r.path),
      Listed(r.minimum.Some? && r.minimum.value > w.minimum, r.path),
      Listed(r.maximum.Some? && r.maximum.value > w.maximum, r.path),
      Repeat(r.name, BadRows(rows)),
      Listed(r.table.failed, r.name),
      Repeat(r.name, OverRows(rows, w.maximum)),
      Listed(!r.table.failed && !RowsOK(rows), r.name),
      Repeat(r.name, ZeroRows(rows)))
  }

  function RowCounts(name: string, bad: nat, over: nat, zero: nat): Report
  {
    Empty.(badCount := Repeat(name, bad), overMax := Repeat(name, over), zeros := Repeat(name, zero))
  }

  lemma RepeatSnoc(s: string, n: nat, b: bool)
    ensures Repeat(s, n) + Listed(b, s) == Repeat(s, n + if b then 1 else 0)
  {
  }

  lemma BadRowsSnoc(rows: seq<TableRow>, row: TableRow)
    ensures BadRows(rows + [row]) == BadRows(rows) + if row.count.Some? && row.count.value <= 0 then 1 else 0
    decreases |rows|
  {
    if rows != [] {
      assert (rows + [row])[1..] == rows[1..] + [row];
      BadRowsSnoc(rows[1..], row);
    }
  }

  lemma OverRowsSnoc(rows: seq<TableRow>, row: TableRow, maximum: real)
    ensures OverRows(rows + [row], maximum) == OverRows(rows, maximum) + if row.value as real > maximum then 1 else 0
    decreases |rows|
  {
    if rows != [] {
      assert (rows + [row])[1..] == rows[1..] + [row];
      OverRowsSnoc(rows[1..], row, maximum);
    }
  }

  lemma ZeroRowsSnoc(rows: seq<TableRow>, row: TableRow)
    ensures ZeroRows(rows + [row]) == ZeroRows(rows) + if row.value == 0 then 1 else 0
    decreases |rows|
  {
    if rows != [] {
      assert (rows + [row])[1..] == rows[1..] + [row];
      ZeroRowsSnoc(rows[1..], row);
    }
  }

  /** Each row check appends the raster's name once per failing row, in the three row lists only. */
  lemma {:induction false} CheckRowsCounts(w: Wanted, rep: Report, name: string, rows: seq<TableRow>)
    ensures CheckRows(w, rep, name, rows) == Join(rep, RowCounts(name, BadRows(rows), OverRows(rows, w.maximum), ZeroRows(rows)))
    decreases |rows|
  {
    if rows == [] {
      JoinEmpty(rep);
    } else {
      var n := |rows| - 1;
      var row := rows[n];
      assert rows == rows[..n] + [row];
      CheckRowsCounts(w, rep, name, rows[..n]);
      BadRowsSnoc(rows[..n], row);
      OverRowsSnoc(rows[..n], row, w.maximum);
      ZeroRowsSnoc(rows[..n], row);
      var bad := row.count.Some? && row.count.value <= 0;
      var over := row.value as real > w.maximum;
      var zero := row.value == 0;
      ListSnoc(rep.badCount, name, BadRows(rows[..n]), bad, BadRows(rows));
      ListSnoc(rep.overMax, name, OverRows(rows[..n], w.maximum), over, OverRows(rows, w.maximum));
      ListSnoc(rep.zeros, name, ZeroRows(rows[..n]), zero, ZeroRows(rows));
    }
  }

  /** A list that has had the name n times and gets it once more when b holds has it total times. */
  lemma ListSnoc(prefix: seq<string>, name: string, n: nat, b: bool, total: nat)
    requires total == n + if b then 1 else 0
    ensures prefix + Repeat(name, n) + Listed(b, name) == prefix + Repeat(name, total)
  {
    RepeatSnoc(name, n, b);
    assert prefix + Repeat(name, n) + Listed(b, name) == prefix + (Repeat(name, n) + Listed(b, name));
  }

  /** The property part of a raster's findings. */
  function PropertyFindings(w: Wanted, r: RasterInfo): Report
  {
    var f := Findings(w, r);
    Empty.(wrongProjection := f.wrongProjection, wrongNoData := f.wrongNoData,
      wrongPixelType := f.wrongPixelType, wrongFormat := f.wrongFormat, wrongMinimum := f.wrongMinimum,
      wrongMaximum := f.wrongMaximum)
  }

  /** The table part of a raster's findings, after its rows. */
  function TableFindings(w: Wanted, r: RasterInfo): Report
  {
    var f := Findings(w, r);
    Empty.(cursorProblem := f.cursorProblem, noRows := f.noRows)
  }

  /** The three parts make up the findings. */
  lemma FindingsParts(w: Wanted, r: RasterInfo)
    ensures Join(Join(PropertyFindings(w, r), RowCounts(r.name, BadRows(r.table.rows), OverRows(r.table.rows, w.maximum), ZeroRows(r.table.rows))),
                 TableFindings(w, r)) == Findings(w, r)
  {
    var f := Findings(w, r);
    assert f.wrongProjection + [] + [] == f.wrongProjection;
    assert f.wrongNoData + [] + [] == f.wrongNoData;
    assert f.wrongPixelType + [] + [] == f.wrongPixelType;
    assert f.wrongFormat + [] + [] == f.wrongFormat;
    assert f.wrongMinimum + [] + [] == f.wrongMinimum;
    assert f.wrongMaximum + [] + [] == f.wrongMaximum;
    assert [] + f.badCount + [] == f.badCount;
    assert [] + [] + f.cursorProblem == f.cursorProblem;
    assert [] + f.overMax + [] == f.overMax;
    assert [] + [] + f.noRows == f.noRows;
    assert [] + f.zeros + [] == f.zeros;
  }

  /** The table check after the rows appends the table part. */
  lemma TableTail(w: Wanted, rep: Report, r: RasterInfo)
    ensures CheckTable(w, rep, r.name, r.table) == Join(CheckRows(w, rep, r.name, r.table.rows), TableFindings(w, r))
  {
    var rep1 := CheckRows(w, rep, r.name, r.table.rows);
    JoinEmpty(rep1);
  }

  /** Checking a raster appends exactly its findings to every list, and nothing else changes. */
  lemma CheckRasterFindings(w: Wanted, rep: Report, r: RasterInfo)
    ensures CheckRaster(w, rep, r) == Join(rep, Findings(w, r))
  {
    var rows := r.table.rows;
    var p, rc, t := PropertyFindings(w, r), RowCounts(r.name, BadRows(rows), OverRows(rows, w.maximum), ZeroRows(rows)), TableFindings(w, r);
    var props := CheckProperties(w, rep, r);
    CheckPropertiesFindings(w, rep, r);
    CheckRowsCounts(w, props, r.name, rows);
    TableTail(w, props, r);
    assert CheckRaster(w, rep, r) == Join(Join(Join(rep, p), rc), t);
    JoinAssociates(rep, p, rc);
    JoinAssociates(rep, Join(p, rc), t);
    FindingsParts(w, r);
  }

  /** The property checks append the path to the failing property lists only. */
  lemma CheckPropertiesFindings(w: Wanted, rep: Report, r: RasterInfo)
    ensures CheckProperties(w, rep, r) == Join(rep, PropertyFindings(w, r))
  {
    var f := Findings(w, r);
    var rep1 := if r.projection != "Albers" then rep.(wrongProjection := rep.wrongProjection + [r.path]) else rep;
    assert rep1 == rep.(wrongProjection := rep.wrongProjection + f.wrongProjection);
    var rep2 := if r.format != w.format then rep1.(wrongFormat := rep1.wrongFormat + [r.path]) else rep1;
    assert rep2 == rep1.(wrongFormat := rep.wrongFormat + f.wrongFormat);
    var rep3 := if r.pixelType != w.pixelType then rep2.(wrongPixelType := rep2.wrongPixelType + [r.path]) else rep2;
    assert rep3 == rep2.(wrongPixelType := rep.wrongPixelType + f.wrongPixelType);
    var rep4 := if r.nodata != Some(w.nodata) then rep3.(wrongNoData := rep3.wrongNoData + [r.path]) else rep3;
    assert rep4 == rep3.(wrongNoData := rep.wrongNoData + f.wrongNoData);
    var rep5 := if r.maximum.Some? && r.maximum.value > w.maximum then rep4.(wrongMaximum := rep4.wrongMaximum + [r.path]) else rep4;
    assert rep5 == rep4.(wrongMaximum := rep.wrongMaximum + f.wrongMaximum);
    assert rep.badCount + [] == rep.badCount && rep.cursorProblem + [] == rep.cursorProblem && rep.overMax + [] == rep.overMax;
    assert rep.noRows + [] == rep.noRows && rep.zeros + [] == rep.zeros;
  }

  /** The findings of a list of readable rasters, in input order. */
  function AllFindings(w: Wanted, rasters: seq<RasterInfo>): Report
    decreases |rasters|
  {
    if rasters == [] then Empty else Join(AllFindings(w, rasters[..|rasters| - 1]), Findings(w, rasters[|rasters| - 1]))
  }

  predicate Readable(rasters: seq<Option<RasterInfo>>)
  {
    forall k :: 0 <= k < |rasters| ==> rasters[k].Some?
  }

  function Values(rasters: seq<Option<RasterInfo>>): (vs: seq<RasterInfo>)
    requires Readable(rasters)
    ensures |vs| == |rasters| && forall k :: 0 <= k < |rasters| ==> vs[k] == rasters[k].value
  {
    seq(|rasters|, k requires 0 <= k < |rasters| => rasters[k].value)
  }

  /** One more readable raster appends its findings. */
  lemma CheckAllStep(w: Wanted, rasters: seq<Option<RasterInfo>>)
    requires rasters != [] && Readable(rasters) && Readable(rasters[..|rasters| - 1])
    requires CheckAll(w, rasters[..|rasters| - 1]) == Some(AllFindings(w, Values(rasters[..|rasters| - 1])))
    ensures CheckAll(w, rasters) == Some(AllFindings(w, Values(rasters)))
  {
    var n := |rasters| - 1;
    var vs := Values(rasters);
    ValuesPrefix(rasters, n);
    CheckRasterFindings(w, AllFindings(w, vs[..n]), vs[n]);
  }

  lemma ValuesPrefix(rasters: seq<Option<RasterInfo>>, n: nat)
    requires Readable(rasters) && n <= |rasters| && Readable(rasters[..n])
    ensures Values(rasters)[..n] == Values(rasters[..n])
  {
  }

  /**
   * The validator returns a report exactly when every raster could be
   * opened, and then each list holds the rasters' findings in input order.
   */
  lemma {:induction false} CheckAllFindings(w: Wanted, rasters: seq<Option<RasterInfo>>)
    ensures CheckAll(w, rasters).Some? <==> Readable(rasters)
    ensures Readable(rasters) ==> CheckAll(w, rasters) == Some(AllFindings(w, Values(rasters)))
    decreases |rasters|
  {
    CheckAllReadable(w, rasters);
    if rasters != [] && Readable(rasters) {
      var n := |rasters| - 1;
      assert Readable(rasters[..n]) by {
        forall k | 0 <= k < n ensures rasters[..n][k].Some? {
          assert rasters[..n][k] == rasters[k];
        }
      }
      CheckAllFindings(w, rasters[..n]);
      CheckAllStep(w, rasters);
    }
  }

  /** The loop runs to the end exactly when every raster opens. */
  lemma CheckAllReadable(w: Wanted, rasters: seq<Option<RasterInfo>>)
    ensures CheckAll(w, rasters).Some? <==> Readable(rasters)
  {
    if Readable(rasters) {
      ReadableRuns(w, rasters);
    } else {
      UnreadableStops(w, rasters);
    }
  }

  lemma {:induction false} ReadableRuns(w: Wanted, rasters: seq<Option<RasterInfo>>)
    requires Readable(rasters)
    ensures CheckAll(w, rasters).Some?
    decreases |rasters|
  {
    if rasters != [] {
      var n := |rasters| - 1;
      assert Readable(rasters[..n]) by {
        forall k | 0 <= k < n ensures rasters[..n][k].Some? {
          assert rasters[..n][k] == rasters[k];
        }
      }
      ReadableRuns(w, rasters[..n]);
    }
  }

  lemma {:induction false} UnreadableStops(w: Wanted, rasters: seq<Option<RasterInfo>>)
    requires !Readable(rasters)
    ensures CheckAll(w, rasters).None?
    decreases |rasters|
  {
    var n := |rasters| - 1;
    if rasters[n].Some? {
      var k :| 0 <= k < |rasters| && rasters[k].None?;
      assert rasters[..n][k] == rasters[k];
      UnreadableStops(w, rasters[..n]);
    }
  }

  /** Checking a list after another appends the second list's findings after the first's. */
  lemma {:induction false} AllFindingsConcat(w: Wanted, a: seq<RasterInfo>, b: seq<RasterInfo>)
    ensures AllFindings(w, a + b) == Join(AllFindings(w, a), AllFindings(w, b))
    decreases |b|
  {
    if b == [] {
      assert a + b == a;
      JoinEmpty(AllFindings(w, a));
    } else {
      var n := |b| - 1;
      assert (a + b)[..|a + b| - 1] == a + b[..n];
      AllFindingsConcat(w, a, b[..n]);
      JoinAssociates(AllFindings(w, a), AllFindings(w, b[..n]), Findings(w, b[n]));
    }
  }

  /**
   * A raster is in NoRows or CursorProblem, never both; when every COUNT is
   * finite it is in NoRows exactly when its cursor yielded no row.
   */
  lemma TableOutcome(w: Wanted, r: RasterInfo)
    ensures Findings(w, r).noRows == [] || Findings(w, r).cursorProblem == []
    ensures (forall k :: 0 <= k < |r.table.rows| ==> r.table.rows[k].count.Some?) ==>
      (Findings(w, r).noRows != [] <==> !r.table.failed && r.table.rows == [])
  {
    if r.table.rows != [] && (forall k :: 0 <= k < |r.table.rows| ==> r.table.rows[k].count.Some?) {
      assert r.table.rows[0].count.Some?;
    }
  }

  /** A raster that passes every check appears in no list. */
  lemma CleanRaster(w: Wanted, r: RasterInfo)
    requires r.projection == "Albers" && r.format == w.format && r.pixelType == w.pixelType && r.nodata == Some(w.nodata)
    requires r.maximum.Some? && r.maximum.value <= w.maximum && r.minimum.Some? && r.minimum.value <= w.minimum
    requires !r.table.failed && |r.table.rows| > 0
    requires forall k :: 0 <= k < |r.table.rows| ==> r.table.rows[k].count.Some? && r.table.rows[k].count.value > 0
    requires forall k :: 0 <= k < |r.table.rows| ==> r.table.rows[k].value != 0 && r.table.rows[k].value as real <= w.maximum
    ensures Findings(w, r) == Empty
  {
    var rows := r.table.rows;
    assert RowsOK(rows) by {
      assert rows[0].count.Some?;
    }
    NoFailingRows(rows, w.maximum);
  }

  lemma {:induction false} NoFailingRows(rows: seq<TableRow>, maximum: real)
    requires forall k :: 0 <= k < |rows| ==> rows[k].count.Some? && rows[k].count.value > 0
    requires forall k :: 0 <= k < |rows| ==> rows[k].value != 0 && rows[k].value as real <= maximum
    ensures BadRows(rows) == 0 && OverRows(rows, maximum) == 0 && ZeroRows(rows) == 0
  {
    if rows != [] {
      NoFailingRows(rows[1..], maximum);
    }
  }

  // ----------------------------------------------------------- the result

  /** The returned dictionary; `overKey` is the key of the over-maximum list. */
  function AsDict(rep: Report, overKey: string): map<string, seq<string>>
  {
    map["WrongProjection" := rep.wrongProjection, "WrongNoDataValue" := rep.wrongNoData,
        "WrongPixelType" := rep.wrongPixelType, "WrongFormat" := rep.wrongFormat,
        "WrongMinimum" := rep.wrongMinimum, "WrongMaximum" := rep.wrongMaximum,
        "BadCount" := rep.badCount, "CursorProblem" := rep.cursorProblem, overKey := rep.overMax,
        "NoRows" := rep.noRows, "Zeros" := rep.zeros]
  }

  const DocumentedKeys := {"WrongProjection", "WrongNoDataValue", "WrongPixelType", "WrongFormat",
    "WrongMinimum", "WrongMaximum", "BadCount", "CursorProblem", "overMax", "NoRows", "Zeros"}

  /** With CheckHabitatMaps' key `overMax` the dictionary has exactly the documented keys, each holding its list. */
  lemma DictKeys(rep: Report)
    ensures AsDict(rep, "overMax").Keys == DocumentedKeys
    ensures AsDict(rep, "overMax")["overMax"] == rep.overMax && AsDict(rep, "overMax")["BadCount"] == rep.badCount
    ensures AsDict(rep, "overMax")["NoRows"] == rep.noRows && AsDict(rep, "overMax")["CursorProblem"] == rep.cursorProblem
  {
  }

  /** There are eleven of them. */
  lemma ElevenKeys()
    ensures |DocumentedKeys| == 11
  {
  }

  // ------------------------------------------------------------ the loops

  method CheckRowsLoop(w: Wanted, rep0: Report, name: string, rows: seq<TableRow>) returns (rep: Report, rowsOK: bool)
    ensures rep == CheckRows(w, rep0, name, rows)
    ensures rowsOK == RowsOK(rows)
  {
    rep := rep0;
    rowsOK := false;
    for j := 0 to |rows|
      invariant rep == CheckRows(w, rep0, name, rows[..j])
      invariant rowsOK == RowsOK(rows[..j])
    {
      CheckRowsAt(w, rep0, name, rows, j);
      RowsOKAt(rows, j);
      var c := rows[j];
      if c.count.Some? && c.count.value <= 0 {
        rep := rep.(badCount := rep.badCount + [name]);
        rowsOK := true;
      } else if c.count.Some? && c.count.value > 0 {
        rowsOK := true;
      }
      if c.value as real > w.maximum {
        rep := rep.(overMax := rep.overMax + [name]);
      }
      if c.value == 0 {
        rep := rep.(zeros := rep.zeros + [name]);
      }
    }
    assert rows[..|rows|] == rows;
  }

  /** The rows up to j + 1 are those up to j and then row j. */
  lemma CheckRowsAt(w: Wanted, rep0: Report, name: string, rows: seq<TableRow>, j: nat)
    requires j < |rows|
    ensures CheckRows(w, rep0, name, rows[..j + 1]) == CheckRow(w, CheckRows(w, rep0, name, rows[..j]), name, rows[j])
  {
    assert rows[..j + 1][..j] == rows[..j];
  }

  lemma RowsOKAt(rows: seq<TableRow>, j: nat)
    requires j < |rows|
    ensures RowsOK(rows[..j + 1]) <==> RowsOK(rows[..j]) || rows[j].count.Some?
  {
    if RowsOK(rows[..j]) {
      var k :| 0 <= k < j && rows[..j][k].count.Some?;
      assert rows[..j + 1][k] == rows[..j][k];
    }
    if RowsOK(rows[..j + 1]) && !rows[j].count.Some? {
      var k :| 0 <= k < j + 1 && rows[..j + 1][k].count.Some?;
      assert rows[..j][k] == rows[..j + 1][k];
    }
    if rows[j].count.Some? {
      assert rows[..j + 1][j] == rows[j];
    }
  }

  /** The loop over the rasters, with the eleven lists as one report. */
  method CheckEach(w: Wanted, rasters: seq<Option<RasterInfo>>) returns (result: Option<Report>)
    ensures result == CheckAll(w, rasters)
  {
    var rep := Empty;
    for i := 0 to |rasters|
      invariant CheckAll(w, rasters[..i]) == Some(rep)
    {
      assert rasters[..i + 1][..i] == rasters[..i];
      if rasters[i].None? {
        assert CheckAll(w, rasters[..i + 1]) == None;
        NoneStaysNone(w, rasters, i + 1);
        return None;
      }
      var r := rasters[i].value;
      rep := CheckProperties(w, rep, r);
      var rowsOK;
      rep, rowsOK := CheckRowsLoop(w, rep, r.name, r.table.rows);
      if r.table.failed {
        rep := rep.(cursorProblem := rep.cursorProblem + [r.name]);
      } else if !rowsOK {
        rep := rep.(noRows := rep.noRows + [r.name]);
      }
    }
    assert rasters[..|rasters|] == rasters;
    result := Some(rep);
  }

  lemma {:induction false} NoneStaysNone(w: Wanted, rasters: seq<Option<RasterInfo>>, i: nat)
    requires i <= |rasters| && CheckAll(w, rasters[..i]) == None
    ensures CheckAll(w, rasters) == None
    decreases |rasters| - i
  {
    if i < |rasters| {
      assert rasters[..i + 1][..i] == rasters[..i];
      NoneStaysNone(w, rasters, i + 1);
    } else {
      assert rasters[..i] == rasters;
    }
  }

  /** CheckHabitatMaps: the dictionary of the eleven lists, or None when a raster cannot be opened. */
  method CheckHabitatMaps(rasters: seq<Option<RasterInfo>>, w: Wanted) returns (result: Option<map<string, seq<string>>>)
    ensures result.Some? <==> Readable(rasters)
    ensures result.Some? ==> result.value == AsDict(AllFindings(w, Values(rasters)), "overMax")
  {
    var rep := CheckEach(w, rasters);
    CheckAllFindings(w, rasters);
    result := if rep.None? then None else Some(AsDict(rep.value, "overMax"));
  }
}
