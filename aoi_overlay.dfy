/**
 * The AOI overlay script (gapbap/overlay.py): each species map (class 0..3)
 * is summed with an area-of-interest layer coded 10 inside the AOI and
 * NoData outside, so the summed value is the class plus 10 inside the AOI;
 * the eight possible values are tabulated per species into df1, and the
 * percentage of the summer and winter habitat inside the AOI is added before
 * the run's table is merged into the existing master table.
 */
module AoiOverlay {
  import opened Wrappers
  import opened PyText
  import opened ZoneCodes
  import opened CodeCounts
  import opened Cursors
  import opened ZoneFill
  import opened DerivedColumns
  import opened Rounding
  import opened Frames
  import opened SpeciesIndex

  /** A count column of df1: inside or outside the AOI, and the habitat class. */
  datatype Category = Category(inAoi: bool, season: Season)

  /** The summed value of a category: the AOI is zone 1 (10), outside is zone 0. */
  function CodeOf(c: Category): int
  {
    Encode(SeasonCode(c.season), if c.inAoi then 1 else 0)
  }

  /** The index of df2. */
  const AoiCodes: seq<int> := [0, 1, 2, 3, 10, 11, 12, 13]

  /** The eight codes are the expected codes of the two zones 0 and 1. */
  lemma AoiCodesExpected()
    ensures AoiCodes == ExpectedCodes([0, 1])
  {
    var e := ExpectedCodes([0, 1]);
    assert e[0] == 0 && e[1] == 1 && e[2] == 2 && e[3] == 3;
    assert e[4] == 10 && e[5] == 11 && e[6] == 12 && e[7] == 13;
  }

  /** ValueMap: the category of a summed value, None for the KeyError on any other value. */
  function CategoryOf(code: int): (r: Option<Category>)
    ensures r.Some? <==> code in AoiCodes
    ensures r.Some? ==> CodeOf(r.value) == code
  {
    if 0 <= code <= 3 then Some(Category(false, SeasonOf(code).value))
    else if 10 <= code <= 13 then Some(Category(true, SeasonOf(code - 10).value))
    else None
  }

  lemma CategoryRoundTrip(c: Category)
    ensures CodeOf(c) in AoiCodes
    ensures CategoryOf(CodeOf(c)) == Some(c)
  {
    var k := SeasonCode(c.season);
    assert SeasonOf(k) == Some(c.season) by {
      match c.season
      case NonHabitat =>
      case Summer =>
      case Winter =>
      case AllYear =>
    }
  }

  function SeasonSuffix(s: Season): (r: string)
    ensures |r| > 0
  {
    match s
    case NonHabitat => "NonHab"
    case Summer => "Summer"
    case Winter => "Winter"
    case AllYear => "Year"
  }

  /** The column name ValueMap gives a category. */
  function CategoryName(c: Category): string
  {
    (if c.inAoi then "AOI" else "NonAOI") + SeasonSuffix(c.season)
  }

  /** The eight names are distinct, so df2 re-indexed by name has one row per name. */
  lemma CategoryNamesDistinct(a: Category, b: Category)
    requires a != b
    ensures CategoryName(a) != CategoryName(b)
  {
    if a.inAoi != b.inAoi {
      assert CategoryName(a)[0] != CategoryName(b)[0];
    } else {
      var p := if a.inAoi then "AOI" else "NonAOI";
      assert CategoryName(a)[|p|] == SeasonSuffix(a.season)[0];
      assert CategoryName(b)[|p|] == SeasonSuffix(b.season)[0];
      assert SeasonSuffix(a.season)[0] != SeasonSuffix(b.season)[0] by {
        match a.season
        case NonHabitat =>
        case Summer =>
        case Winter =>
        case AllYear =>
      }
    }
  }

  /** A row of df1: a raster's counts outside and inside the AOI (None is NaN). */
  datatype AoiRow = AoiRow(name: string, outside: Counts, inside: Counts)

  function GetCat(r: AoiRow, c: Category): Option<int>
  {
    Get(if c.inAoi then r.inside else r.outside, c.season)
  }

  function PutCat(r: AoiRow, c: Category, v: int): (r': AoiRow)
    ensures r'.name == r.name && GetCat(r', c) == Some(v)
    ensures forall c' :: c' != c ==> GetCat(r', c') == GetCat(r, c')
  {
    if c.inAoi then r.(inside := Put(r.inside, c.season, Some(v))) else r.(outside := Put(r.outside, c.season, Some(v)))
  }

  predicate Named(rows: seq<AoiRow>, d: string)
  {
    exists i :: 0 <= i < |rows| && rows[i].name == d
  }

  /** `df1.loc[d, name] = v`: every row named d takes v; a missing name is appended with NaN elsewhere. */
  function SetCat(rows: seq<AoiRow>, d: string, c: Category, v: int): (r: seq<AoiRow>)
    ensures Named(rows, d) ==> |r| == |rows|
    ensures !Named(rows, d) ==> r == rows + [PutCat(AoiRow(d, NoCounts, NoCounts), c, v)]
    ensures forall i :: 0 <= i < |rows| ==> r[i] == if rows[i].name == d then PutCat(rows[i], c, v) else rows[i]
  {
    if Named(rows, d) then seq(|rows|, i requires 0 <= i < |rows| => if rows[i].name == d then PutCat(rows[i], c, v) else rows[i])
    else rows + [PutCat(AoiRow(d, NoCounts, NoCounts), c, v)]
  }

  /** The loop over df2's index: each category's count written to d's row, in order. */
  function WriteAll(rows: seq<AoiRow>, d: string, cells: seq<(Category, int)>): seq<AoiRow>
    decreases |cells|
  {
    if cells == [] then rows else WriteAll(SetCat(rows, d, cells[0].0, cells[0].1), d, cells[1..])
  }

  lemma {:induction false} WriteAllSnoc(rows: seq<AoiRow>, d: string, cells: seq<(Category, int)>, c: (Category, int))
    ensures WriteAll(rows, d, cells + [c]) == SetCat(WriteAll(rows, d, cells), d, c.0, c.1)
    decreases |cells|
  {
    if cells != [] {
      assert (cells + [c])[1..] == cells[1..] + [c];
      WriteAllSnoc(SetCat(rows, d, cells[0].0, cells[0].1), d, cells[1..], c);
    } else {
      assert [c][1..] == [];
    }
  }

  /**
   * `df2["Categ"] = [ValueMap[x] for x in df2.index]`: every value of df2
   * named by its category, None when a reported value is not one of the
   * eight (KeyError).
   */
  function Categorised(t: CountTable): (r: Option<seq<(Category, int)>>)
    ensures r.Some? <==> forall i :: 0 <= i < |t| ==> t[i].0 in AoiCodes
    ensures r.Some? ==> |r.value| == |t| && forall i :: 0 <= i < |t| ==> r.value[i] == (CategoryOf(t[i].0).value, t[i].1)
  {
    if forall i :: 0 <= i < |t| ==> CategoryOf(t[i].0).Some? then
      Some(seq(|t|, i requires 0 <= i < |t| => (CategoryOf(t[i].0).value, t[i].1)))
    else None
  }

  /** One raster's pass; None when an exception ends the script. */
  function RasterStep(rows: seq<AoiRow>, d: string, reported: seq<(int, int)>): Option<seq<AoiRow>>
  {
    match Categorised(Filled(Zeros(AoiCodes), reported))
    case None => None
    case Some(cells) => Some(WriteAll(rows, d, cells))
  }

  /** The loop over the listed rasters; None in an outcome is CellStatistics or the cursor raising. */
  function AoiFold(rows: seq<AoiRow>, names: seq<string>, outcomes: seq<Option<seq<(int, int)>>>): Option<seq<AoiRow>>
    requires |names| == |outcomes|
    decreases |names|
  {
    if names == [] then Some(rows)
    else if outcomes[0].None? then None
    else
      match RasterStep(rows, names[0], outcomes[0].value)
      case None => None
      case Some(next) => AoiFold(next, names[1..], outcomes[1..])
  }

  const ZeroRow := AoiRow("", ZeroCounts, ZeroCounts)

  function InitialAoiRows(names: seq<string>): (rows: seq<AoiRow>)
    ensures |rows| == |names| && forall i :: 0 <= i < |names| ==> rows[i] == ZeroRow.(name := names[i])
  {
    seq(|names|, i requires 0 <= i < |names| => ZeroRow.(name := names[i]))
  }

  /** `dists`: the listed rasters' names normalised; an empty name raises (None). */
  function Normalised(listed: seq<string>): (r: Option<seq<string>>)
    ensures r.Some? <==> forall i :: 0 <= i < |listed| ==> |listed[i]| >= 1
    ensures r.Some? ==> |r.value| == |listed| && forall i :: 0 <= i < |listed| ==> NormaliseName(listed[i]) == Some(r.value[i])
  {
    if forall i :: 0 <= i < |listed| ==> |listed[i]| >= 1 then
      Some(seq(|listed|, i requires 0 <= i < |listed| => NormaliseName(listed[i]).value))
    else None
  }

  /** A finished row of df1. */
  datatype AoiDerived = AoiDerived(name: string, strUC: string, percSummerAoi: int, percWinterAoi: int,
                                   outside: seq<int>, inside: seq<int>,
                                   summerHabTotal: int, winterHabTotal: int, aoiTotal: int)

  function Cat(r: AoiRow, inAoi: bool, s: Season): Option<int>
  {
    GetCat(r, Category(inAoi, s))
  }

  function SummerHab(r: AoiRow): Option<int>
  {
    Add(Add(Add(Cat(r, false, Summer), Cat(r, true, Summer)), Cat(r, false, AllYear)), Cat(r, true, AllYear))
  }

  function WinterHab(r: AoiRow): Option<int>
  {
    Add(Add(Add(Cat(r, false, Winter), Cat(r, true, Winter)), Cat(r, false, AllYear)), Cat(r, true, AllYear))
  }

  function AoiPixels(r: AoiRow): Option<int>
  {
    Add(Add(Add(Cat(r, true, NonHabitat), Cat(r, true, Summer)), Cat(r, true, Winter)), Cat(r, true, AllYear))
  }

  /** The columns, in df2 order of class, after fillna. */
  function Filled4(c: Counts): seq<int>
  {
    [FillNa(c.nonHabitat), FillNa(c.summer), FillNa(c.winter), FillNa(c.allYear)]
  }

  /** The AOI's share of the summer (winter) habitat, `100 * ((AOISeason + AOIYear) / SeasonHabTotal)` after fillna. */
  function SummerShare(r: AoiRow): Quotient
  {
    Perc(Add(Cat(r, true, Summer), Cat(r, true, AllYear)), SummerHab(r))
  }

  function WinterShare(r: AoiRow): Quotient
  {
    Perc(Add(Cat(r, true, Winter), Cat(r, true, AllYear)), WinterHab(r))
  }

  /** `int(round(p))`: an infinite percentage raises OverflowError (None). */
  function RoundedPerc(q: Quotient): Option<int>
  {
    match q
    case Finite(v) => Some(RoundHalfAway(v))
    case Infinite(_) => None
  }

  /** A row whose summer or winter percentage is infinite: rounding it raises. */
  predicate Overflows(r: AoiRow)
  {
    SummerShare(r).Infinite? || WinterShare(r).Infinite?
  }

  function DeriveAoiRow(r: AoiRow, uc: string): Option<AoiDerived>
  {
    var ps, pw := RoundedPerc(SummerShare(r)), RoundedPerc(WinterShare(r));
    if ps.None? || pw.None? then None
    else Some(AoiDerived(r.name, uc, ps.value, pw.value, Filled4(r.outside), Filled4(r.inside),
                         FillNa(SummerHab(r)), FillNa(WinterHab(r)), FillNa(AoiPixels(r))))
  }

  /**
   * The derived columns. The rounding comprehensions raise OverflowError on
   * an infinite percentage, and the strUC comprehension raises on a name
   * shorter than six characters.
   */
  function AoiDerive(rows: seq<AoiRow>): (r: Option<seq<AoiDerived>>)
    ensures r.Some? <==> forall i :: 0 <= i < |rows| ==> !Overflows(rows[i]) && |rows[i].name| >= 6
    ensures r.Some? ==> |r.value| == |rows| && forall i :: 0 <= i < |rows| ==>
              r.value[i].name == rows[i].name && StrUC(rows[i].name) == Some(r.value[i].strUC) &&
              DeriveAoiRow(rows[i], r.value[i].strUC) == Some(r.value[i])
  {
    if forall i :: 0 <= i < |rows| ==> !Overflows(rows[i]) && |rows[i].name| >= 6 then
      Some(seq(|rows|, i requires 0 <= i < |rows| => DeriveAoiRow(rows[i], StrUC(rows[i].name).value).value))
    else None
  }

  /**
   * A percentage overflows exactly when its habitat total is 0 (not NaN)
   * while the AOI pixels it counts are not 0, which takes a negative count.
   */
  lemma OverflowExactly(r: AoiRow)
    ensures SummerShare(r).Infinite? <==>
              SummerHab(r) == Some(0) && Add(Cat(r, true, Summer), Cat(r, true, AllYear)).Some? &&
              Add(Cat(r, true, Summer), Cat(r, true, AllYear)) != Some(0)
    ensures WinterShare(r).Infinite? <==>
              WinterHab(r) == Some(0) && Add(Cat(r, true, Winter), Cat(r, true, AllYear)).Some? &&
              Add(Cat(r, true, Winter), Cat(r, true, AllYear)) != Some(0)
  {
  }

  /**
   * Five summer pixels outside the AOI and a count of -5 inside it: the
   * summer habitat total is 0, the percentage is -inf, and rounding it ends
   * the script.
   */
  lemma NegativeCountOverflows()
    ensures var r := AoiRow("abcdefg.tif", Counts(Some(0), Some(5), Some(0), Some(0)),
                                           Counts(Some(0), Some(-5), Some(0), Some(0)));
      && SummerShare(r) == Infinite(false) && Overflows(r)
      && DeriveAoiRow(r, "aBCDEf").None? && AoiDerive([r]).None?
  {
    var r := AoiRow("abcdefg.tif", Counts(Some(0), Some(5), Some(0), Some(0)), Counts(Some(0), Some(-5), Some(0), Some(0)));
    assert SummerHab(r) == Some(0);
    assert Add(Cat(r, true, Summer), Cat(r, true, AllYear)) == Some(-5);
    assert [r][0] == r && Overflows(r);
  }

  /** A rounded share of a total that contains it, without negative counts. */
  lemma RoundedShare(x: Option<int>, t: Option<int>)
    requires x.Some? && t.Some? ==> 0 <= x.value <= t.value
    ensures RoundedPerc(Perc(x, t)).Some?
    ensures 0 <= RoundedPerc(Perc(x, t)).value <= 100
    ensures x == Some(0) ==> RoundedPerc(Perc(x, t)) == Some(0)
    ensures x.Some? && x == t && t.value > 0 ==> RoundedPerc(Perc(x, t)) == Some(100)
  {
    if x.Some? && t.Some? && t.value > 0 {
      ShareBounded(x.value as real, t.value as real);
      if x == t {
        ShareWhole(t.value as real);
      }
    }
    RoundPercent(Perc(x, t).v);
  }

  /**
   * Without negative counts the row's percentages are rounded without
   * error, both lie in 0..100; each is 0 when no summer (winter) habitat
   * pixel lies in the AOI, and 100 when there is such habitat and all of it
   * lies in the AOI.
   */
  lemma AoiPercentages(r: AoiRow, uc: string)
    requires NonNegative(r.outside) && NonNegative(r.inside)
    ensures DeriveAoiRow(r, uc).Some?
    ensures var d := DeriveAoiRow(r, uc).value;
      && 0 <= d.percSummerAoi <= 100 && 0 <= d.percWinterAoi <= 100
      && (Cat(r, true, Summer) == Some(0) && Cat(r, true, AllYear) == Some(0) ==> d.percSummerAoi == 0)
      && (Cat(r, true, Winter) == Some(0) && Cat(r, true, AllYear) == Some(0) ==> d.percWinterAoi == 0)
      && (Cat(r, false, Summer) == Some(0) && Cat(r, false, AllYear) == Some(0) && d.summerHabTotal > 0 ==>
            d.percSummerAoi == 100)
      && (Cat(r, false, Winter) == Some(0) && Cat(r, false, AllYear) == Some(0) && d.winterHabTotal > 0 ==>
            d.percWinterAoi == 100)
  {
    ShareWithinHabitat(r, Summer);
    ShareWithinHabitat(r, Winter);
    var xs, ts := Add(Cat(r, true, Summer), Cat(r, true, AllYear)), SummerHab(r);
    var xw, tw := Add(Cat(r, true, Winter), Cat(r, true, AllYear)), WinterHab(r);
    RoundedShare(xs, ts);
    RoundedShare(xw, tw);
    var d := DeriveAoiRow(r, uc);
    assert d == Some(AoiDerived(r.name, uc, RoundedPerc(Perc(xs, ts)).value, RoundedPerc(Perc(xw, tw)).value,
                                Filled4(r.outside), Filled4(r.inside), FillNa(ts), FillNa(tw), FillNa(AoiPixels(r))));
  }

  /**
   * Without negative counts the AOI's pixels of a season are part of that
   * season's habitat total: none when both AOI classes are 0, and all of it
   * when both outside classes are 0.
   */
  lemma ShareWithinHabitat(r: AoiRow, s: Season)
    requires NonNegative(r.outside) && NonNegative(r.inside) && (s == Summer || s == Winter)
    ensures var x, t := Add(Cat(r, true, s), Cat(r, true, AllYear)), if s == Summer then SummerHab(r) else WinterHab(r);
      && (x.Some? && t.Some? ==> 0 <= x.value <= t.value)
      && (Cat(r, true, s) == Some(0) && Cat(r, true, AllYear) == Some(0) ==> x == Some(0))
      && (Cat(r, false, s) == Some(0) && Cat(r, false, AllYear) == Some(0) ==> x == t)
  {
  }

  const AoiColumns: set<string> :=
    {"strUC", "PercSummerAOI", "PercWinterAOI", "NonAOINonHab", "NonAOISummer", "NonAOIWinter", "NonAOIYear",
     "AOINonHab", "AOISummer", "AOIWinter", "AOIYear", "SummerHabTotal", "WinterHabTotal", "AOITotal"}

  function AoiCells(d: AoiDerived): Row
    requires |d.outside| == 4 && |d.inside| == 4
  {
    map["strUC" := TextCell(d.strUC), "PercSummerAOI" := IntCell(d.percSummerAoi), "PercWinterAOI" := IntCell(d.percWinterAoi),
        "NonAOINonHab" := IntCell(d.outside[0]), "NonAOISummer" := IntCell(d.outside[1]),
        "NonAOIWinter" := IntCell(d.outside[2]), "NonAOIYear" := IntCell(d.outside[3]),
        "AOINonHab" := IntCell(d.inside[0]), "AOISummer" := IntCell(d.inside[1]),
        "AOIWinter" := IntCell(d.inside[2]), "AOIYear" := IntCell(d.inside[3]),
        "SummerHabTotal" := IntCell(d.summerHabTotal), "WinterHabTotal" := IntCell(d.winterHabTotal),
        "AOITotal" := IntCell(d.aoiTotal)]
  }

  /** df1 indexed by "tif", as saved under the archive directory and merged into the master. */
  function AoiTable(ds: seq<AoiDerived>): (t: Table<string>)
    requires forall i :: 0 <= i < |ds| ==> |ds[i].outside| == 4 && |ds[i].inside| == 4
    ensures Valid(t) && t.columns == AoiColumns && |t.rows| == |ds|
    ensures forall i :: 0 <= i < |ds| ==> t.rows[i] == (ds[i].name, AoiCells(ds[i]))
  {
    Table(AoiColumns, seq(|ds|, i requires 0 <= i < |ds| => (ds[i].name, AoiCells(ds[i]))))
  }

  function Min(a: int, b: int): int
  {
    if a < b then a else b
  }

  /**
   * The whole script, given the listed rasters, their summed rasters'
   * tables and the master table (which must exist: read_csv raises
   * otherwise, so it is not optional here). Only `dists[:3]` are
   * processed; with none, `timestamp` is unbound when the log is written.
   */
  function AoiRun(listed: seq<string>, outcomes: seq<Option<seq<(int, int)>>>, master: Table<string>): Option<Merged<string>>
    requires |outcomes| == |listed|
  {
    match Normalised(listed)
    case None => None
    case Some(dists) =>
      var n := Min(3, |dists|);
      AoiFinish(AoiFold(InitialAoiRows(dists), dists[..n], outcomes[..n]), n, master)
  }

  /** After the raster loop over n rasters: the derived columns and the merge into the master. */
  function AoiFinish(folded: Option<seq<AoiRow>>, n: int, master: Table<string>): Option<Merged<string>>
  {
    match folded
    case None => None
    case Some(rows) =>
      if n == 0 then None
      else
        match AoiDerive(rows)
        case None => None
        case Some(ds) => Merge(Some(master), AoiTable(ds))
  }

  /** df1 of the script, filled in place raster by raster. */
  class AoiFrame {
    var rows: seq<AoiRow>

    constructor (names: seq<string>)
      ensures rows == InitialAoiRows(names)
    {
      rows := InitialAoiRows(names);
    }

    /** `for x in indx: df1.loc[d, x] = int(df2.ix[x])`. */
    method WriteRaster(d: string, cells: seq<(Category, int)>)
      modifies this
      ensures rows == WriteAll(old(rows), d, cells)
    {
      var i := 0;
      while i < |cells|
        invariant 0 <= i <= |cells|
        invariant rows == WriteAll(old(rows), d, cells[..i])
      {
        assert cells[..i + 1] == cells[..i] + [cells[i]];
        WriteAllSnoc(old(rows), d, cells[..i], cells[i]);
        rows := SetCat(rows, d, cells[i].0, cells[i].1);
        i := i + 1;
      }
      assert cells[..i] == cells;
    }
  }

  /** One raster: df2 from its summed raster's table, named by category, written into df1. */
  method ProcessRaster(frame: AoiFrame, d: string, reported: seq<(int, int)>) returns (ok: bool)
    modifies frame
    ensures ok == RasterStep(old(frame.rows), d, reported).Some?
    ensures ok ==> frame.rows == RasterStep(old(frame.rows), d, reported).value
  {
    var df2, _ := FillFromCursor(Zeros(AoiCodes), Cursor(reported, false));
    var cells := Categorised(df2);
    if cells.None? {
      return false;
    }
    frame.WriteRaster(d, cells.value);
    ok := true;
  }

  /** The loop over the processed rasters, in place; false when an exception ends the script. */
  method ProcessRasters(frame: AoiFrame, names: seq<string>, outcomes: seq<Option<seq<(int, int)>>>) returns (ok: bool)
    requires |names| == |outcomes|
    modifies frame
    ensures ok == AoiFold(old(frame.rows), names, outcomes).Some?
    ensures ok ==> frame.rows == AoiFold(old(frame.rows), names, outcomes).value
  {
    var i := 0;
    while i < |names|
      invariant 0 <= i <= |names|
      invariant AoiFold(old(frame.rows), names, outcomes) == AoiFold(frame.rows, names[i..], outcomes[i..])
    {
      AoiFoldAt(frame.rows, names, outcomes, i);
      if outcomes[i].None? {
        return false;
      }
      ok := ProcessRaster(frame, names[i], outcomes[i].value);
      if !ok {
        return false;
      }
      i := i + 1;
    }
    assert names[i..] == [];
    ok := true;
  }

  /** The loop from raster i on: raster i's pass, then the loop from i + 1. */
  lemma AoiFoldAt(rows: seq<AoiRow>, names: seq<string>, outcomes: seq<Option<seq<(int, int)>>>, i: nat)
    requires |names| == |outcomes| && i < |names|
    ensures AoiFold(rows, names[i..], outcomes[i..]) ==
      if outcomes[i].None? then None
      else match RasterStep(rows, names[i], outcomes[i].value)
        case None => None
        case Some(next) => AoiFold(next, names[i + 1..], outcomes[i + 1..])
  {
    assert names[i..][1..] == names[i + 1..] && outcomes[i..][1..] == outcomes[i + 1..];
  }

  /** The derived columns of the filled df1, saved and merged into the master. */
  method FinishScript(rows: seq<AoiRow>, n: int, master: Table<string>) returns (r: Option<Merged<string>>)
    ensures r == AoiFinish(Some(rows), n, master)
  {
    if n == 0 {
      return None;
    }
    var ds := AoiDerive(rows);
    if ds.None? {
      return None;
    }
    r := SaveMaster(Some(master), AoiTable(ds.value));
  }

  /** The script from the raster list to the merged master. */
  method AoiOverlayScript(listed: seq<string>, outcomes: seq<Option<seq<(int, int)>>>, master: Table<string>)
    returns (r: Option<Merged<string>>)
    requires |outcomes| == |listed|
    ensures r == AoiRun(listed, outcomes, master)
  {
    var dists := Normalised(listed);
    if dists.None? {
      return None;
    }
    var names := dists.value;
    var n := Min(3, |names|);
    var frame := new AoiFrame(names);
    var ok := ProcessRasters(frame, names[..n], outcomes[..n]);
    if !ok {
      return None;
    }
    r := FinishScript(frame.rows, n, master);
  }

  /**
   * When the summed raster reports only the eight codes, the raster's pass
   * succeeds: every row named d gets, per category, the count reported for
   * its code (0 when not reported), and other rows do not change. A value
   * outside the eight ends the script.
   */
  lemma RasterStepReports(rows: seq<AoiRow>, d: string, reported: seq<(int, int)>)
    requires Named(rows, d)
    ensures RasterStep(rows, d, reported).Some? <==> forall j :: 0 <= j < |reported| ==> reported[j].0 in AoiCodes
    ensures RasterStep(rows, d, reported).Some? ==>
      var r := RasterStep(rows, d, reported).value;
      |r| == |rows| && forall i :: 0 <= i < |rows| ==>
        r[i].name == rows[i].name &&
        (rows[i].name == d ==> forall c :: GetCat(r[i], c) == Some(Reported(reported, CodeOf(c)))) &&
        (rows[i].name != d ==> r[i] == rows[i])
  {
    RasterStepSucceeds(rows, d, reported);
    RasterStepShape(rows, d, reported);
    RasterStepCounts(rows, d, reported);
  }

  /** A raster's pass succeeds exactly when its summed raster reports only the eight codes. */
  lemma RasterStepSucceeds(rows: seq<AoiRow>, d: string, reported: seq<(int, int)>)
    ensures RasterStep(rows, d, reported).Some? <==> forall j :: 0 <= j < |reported| ==> reported[j].0 in AoiCodes
  {
    if forall j :: 0 <= j < |reported| ==> reported[j].0 in AoiCodes {
      AoiTableFilled(reported);
    } else {
      var j :| 0 <= j < |reported| && reported[j].0 !in AoiCodes;
      FilledStoresReported(Zeros(AoiCodes), reported, j);
    }
  }

  /** A successful pass over an existing name keeps the rows and their names and changes only rows named d. */
  lemma RasterStepShape(rows: seq<AoiRow>, d: string, reported: seq<(int, int)>)
    requires Named(rows, d)
    ensures RasterStep(rows, d, reported).Some? ==>
      |RasterStep(rows, d, reported).value| == |rows| &&
      (forall i :: 0 <= i < |rows| ==> RasterStep(rows, d, reported).value[i].name == rows[i].name) &&
      (forall i :: 0 <= i < |rows| && rows[i].name != d ==> RasterStep(rows, d, reported).value[i] == rows[i])
  {
    var t := Filled(Zeros(AoiCodes), reported);
    if Categorised(t).Some? {
      WriteAllEffect(rows, d, Categorised(t).value);
    }
  }

  /** After a successful pass every row named d holds, per category, the count reported for its code. */
  lemma RasterStepCounts(rows: seq<AoiRow>, d: string, reported: seq<(int, int)>)
    requires Named(rows, d)
    ensures RasterStep(rows, d, reported).Some? ==>
      |RasterStep(rows, d, reported).value| == |rows| &&
      forall i, c :: 0 <= i < |rows| && rows[i].name == d ==>
        GetCat(RasterStep(rows, d, reported).value[i], c) == Some(Reported(reported, CodeOf(c)))
  {
    var t := Filled(Zeros(AoiCodes), reported);
    if Categorised(t).Some? {
      RasterStepSucceeds(rows, d, reported);
      AoiTableFilled(reported);
      var cells := Categorised(t).value;
      WriteAllEffect(rows, d, cells);
      forall i, c | 0 <= i < |rows| && rows[i].name == d
        ensures GetCat(WriteAll(rows, d, cells)[i], c) == Some(Reported(reported, CodeOf(c)))
      {
        CellCount(reported, cells, c);
      }
    }
  }

  /** In the categorised df2 of the eight codes, the last (only) cell of category c holds c's reported count. */
  lemma CellCount(reported: seq<(int, int)>, cells: seq<(Category, int)>, c: Category)
    requires forall j :: 0 <= j < |reported| ==> reported[j].0 in AoiCodes
    requires Categorised(Filled(Zeros(AoiCodes), reported)) == Some(cells)
    ensures LastOf(cells, c) == Some(Reported(reported, CodeOf(c)))
  {
    AoiTableFilled(reported);
    CategoryRoundTrip(c);
    var k :| 0 <= k < 8 && AoiCodes[k] == CodeOf(c);
    assert cells[k] == (c, Reported(reported, CodeOf(c)));
    CellsOnce(cells, k);
    LastOfUnique(cells, k);
  }

  /** With only the eight codes reported, df2 keeps its index and holds each code's reported count. */
  lemma AoiTableFilled(reported: seq<(int, int)>)
    requires forall j :: 0 <= j < |reported| ==> reported[j].0 in AoiCodes
    ensures var t := Filled(Zeros(AoiCodes), reported);
      |t| == 8 && forall i :: 0 <= i < 8 ==> t[i] == (AoiCodes[i], Reported(reported, AoiCodes[i]))
  {
    var t0 := Zeros(AoiCodes);
    var t := Filled(t0, reported);
    FilledLayout(t0, reported);
    forall j | 0 <= j < |reported| ensures HasCode(t0, reported[j].0) {
      var k :| 0 <= k < |AoiCodes| && AoiCodes[k] == reported[j].0;
      assert t0[k].0 == AoiCodes[k];
    }
    FilledKeepsIndex(t0, reported);
    forall i | 0 <= i < 8 ensures t[i] == (AoiCodes[i], Reported(reported, AoiCodes[i])) {
      FilledCounts(t0, reported, i);
    }
  }

  /** In the categorised df2 each category occurs at one position only. */
  lemma CellsOnce(cells: seq<(Category, int)>, k: nat)
    requires |cells| == 8 && k < 8
    requires forall i :: 0 <= i < 8 ==> cells[i].0 == CategoryOf(AoiCodes[i]).value
    ensures forall i :: 0 <= i < 8 && i != k ==> cells[i].0 != cells[k].0
  {
    forall i | 0 <= i < 8 && i != k ensures cells[i].0 != cells[k].0 {
      assert CodeOf(cells[i].0) == AoiCodes[i] && CodeOf(cells[k].0) == AoiCodes[k];
    }
  }

  /** The value of the last cell of category c, if any. */
  function LastOf(cells: seq<(Category, int)>, c: Category): Option<int>
  {
    if cells == [] then None
    else if LastOf(cells[1..], c).Some? then LastOf(cells[1..], c)
    else if cells[0].0 == c then Some(cells[0].1) else None
  }

  lemma {:induction false} LastOfUnique(cells: seq<(Category, int)>, k: nat)
    requires k < |cells| && forall i :: 0 <= i < |cells| && i != k ==> cells[i].0 != cells[k].0
    ensures LastOf(cells, cells[k].0) == Some(cells[k].1)
  {
    if k == 0 {
      LastOfAbsent(cells[1..], cells[0].0);
    } else {
      forall i | 0 <= i < |cells[1..]| && i != k - 1 ensures cells[1..][i].0 != cells[1..][k - 1].0 {
        assert cells[1..][i] == cells[i + 1];
      }
      LastOfUnique(cells[1..], k - 1);
    }
  }

  lemma {:induction false} LastOfAbsent(cells: seq<(Category, int)>, c: Category)
    requires forall i :: 0 <= i < |cells| ==> cells[i].0 != c
    ensures LastOf(cells, c) == None
  {
    if cells != [] {
      assert forall i :: 0 <= i < |cells[1..]| ==> cells[1..][i] == cells[i + 1];
      LastOfAbsent(cells[1..], c);
    }
  }

  /**
   * Writing cells to an existing name keeps the rows; each row with that
   * name ends with the last value written per category.
   */
  lemma WriteAllEffect(rows: seq<AoiRow>, d: string, cells: seq<(Category, int)>)
    requires Named(rows, d)
    ensures |WriteAll(rows, d, cells)| == |rows|
    ensures forall i :: 0 <= i < |rows| ==> WriteAll(rows, d, cells)[i].name == rows[i].name
    ensures forall i :: 0 <= i < |rows| && rows[i].name != d ==> WriteAll(rows, d, cells)[i] == rows[i]
    ensures forall i, c :: 0 <= i < |rows| && rows[i].name == d ==>
              GetCat(WriteAll(rows, d, cells)[i], c) == if LastOf(cells, c).Some? then LastOf(cells, c) else GetCat(rows[i], c)
  {
    WriteAllRows(rows, d, cells);
    forall i | 0 <= i < |rows| && rows[i].name == d
      ensures WriteRow(rows[i], cells).name == rows[i].name
      ensures forall c :: GetCat(WriteRow(rows[i], cells), c) == if LastOf(cells, c).Some? then LastOf(cells, c) else GetCat(rows[i], c)
    {
      WriteRowCats(rows[i], cells);
    }
  }

  /** The cells written to one row, in order. */
  function WriteRow(r: AoiRow, cells: seq<(Category, int)>): AoiRow
    decreases |cells|
  {
    if cells == [] then r else WriteRow(PutCat(r, cells[0].0, cells[0].1), cells[1..])
  }

  /** Writing cells to an existing name writes them to every row of that name and leaves the others alone. */
  lemma {:induction false} WriteAllRows(rows: seq<AoiRow>, d: string, cells: seq<(Category, int)>)
    requires Named(rows, d)
    ensures |WriteAll(rows, d, cells)| == |rows|
    ensures forall i :: 0 <= i < |rows| ==>
              WriteAll(rows, d, cells)[i] == if rows[i].name == d then WriteRow(rows[i], cells) else rows[i]
    decreases |cells|
  {
    if cells != [] {
      var next := SetCat(rows, d, cells[0].0, cells[0].1);
      var j :| 0 <= j < |rows| && rows[j].name == d;
      assert next[j].name == d;
      WriteAllRows(next, d, cells[1..]);
    }
  }

  /** A row written with cells keeps its name, and each category ends with its last written value. */
  lemma {:induction false} WriteRowCats(r: AoiRow, cells: seq<(Category, int)>)
    ensures WriteRow(r, cells).name == r.name
    ensures forall c :: GetCat(WriteRow(r, cells), c) == if LastOf(cells, c).Some? then LastOf(cells, c) else GetCat(r, c)
    decreases |cells|
  {
    if cells != [] {
      WriteRowCats(PutCat(r, cells[0].0, cells[0].1), cells[1..]);
    }
  }

  /** Every outcome is a table and reports only the eight codes. */
  predicate AllCategorised(outcomes: seq<Option<seq<(int, int)>>>)
  {
    forall k :: 0 <= k < |outcomes| ==> outcomes[k].Some? && forall j :: 0 <= j < |outcomes[k].value| ==> outcomes[k].value[j].0 in AoiCodes
  }

  /**
   * The raster loop succeeds exactly when every summed raster gives a table
   * of the eight codes; it then keeps the rows and their names, leaves the
   * rows of rasters it does not process unchanged, and (the names being
   * distinct) gives each processed raster's row the counts its table reports.
   */
  lemma AoiFoldEffect(rows: seq<AoiRow>, names: seq<string>, outcomes: seq<Option<seq<(int, int)>>>)
    requires |names| == |outcomes| && forall k :: 0 <= k < |names| ==> Named(rows, names[k])
    ensures AoiFold(rows, names, outcomes).Some? <==> AllCategorised(outcomes)
    ensures AoiFold(rows, names, outcomes).Some? ==>
      var r := AoiFold(rows, names, outcomes).value;
      && |r| == |rows|
      && (forall i :: 0 <= i < |rows| ==> r[i].name == rows[i].name)
      && (forall i :: 0 <= i < |rows| && rows[i].name !in names ==> r[i] == rows[i])
      && (Distinct(names) ==> forall i, k, c :: 0 <= i < |rows| && 0 <= k < |names| && rows[i].name == names[k] ==>
            GetCat(r[i], c) == Some(Reported(outcomes[k].value, CodeOf(c))))
  {
    AoiFoldSucceeds(rows, names, outcomes);
    AoiFoldShape(rows, names, outcomes);
    if Distinct(names) && AllCategorised(outcomes) {
      AoiFoldCounts(rows, names, outcomes);
    }
  }

  lemma AllCategorisedCons(outcomes: seq<Option<seq<(int, int)>>>)
    requires |outcomes| > 0
    ensures AllCategorised(outcomes) <==>
      outcomes[0].Some? && (forall j :: 0 <= j < |outcomes[0].value| ==> outcomes[0].value[j].0 in AoiCodes) &&
      AllCategorised(outcomes[1..])
  {
    if outcomes[0].Some? && (forall j :: 0 <= j < |outcomes[0].value| ==> outcomes[0].value[j].0 in AoiCodes) &&
       AllCategorised(outcomes[1..]) {
      forall k | 0 <= k < |outcomes|
        ensures outcomes[k].Some? && forall j :: 0 <= j < |outcomes[k].value| ==> outcomes[k].value[j].0 in AoiCodes
      {
        if k > 0 {
          assert outcomes[k] == outcomes[1..][k - 1];
        }
      }
    }
  }

  /** A step that keeps every row's name keeps every later raster's row. */
  lemma NamedAfterStep(rows: seq<AoiRow>, next: seq<AoiRow>, names: seq<string>)
    requires |names| > 0 && |next| == |rows| && forall i :: 0 <= i < |rows| ==> next[i].name == rows[i].name
    requires forall k :: 0 <= k < |names| ==> Named(rows, names[k])
    ensures forall k :: 0 <= k < |names[1..]| ==> Named(next, names[1..][k])
  {
    forall k | 0 <= k < |names[1..]| ensures Named(next, names[1..][k]) {
      var i :| 0 <= i < |rows| && rows[i].name == names[k + 1];
      assert next[i].name == names[1..][k];
    }
  }

  lemma {:induction false} AoiFoldSucceeds(rows: seq<AoiRow>, names: seq<string>, outcomes: seq<Option<seq<(int, int)>>>)
    requires |names| == |outcomes| && forall k :: 0 <= k < |names| ==> Named(rows, names[k])
    ensures AoiFold(rows, names, outcomes).Some? <==> AllCategorised(outcomes)
    decreases |names|
  {
    if names != [] {
      AllCategorisedCons(outcomes);
      if outcomes[0].Some? {
        var d, rep := names[0], outcomes[0].value;
        RasterStepSucceeds(rows, d, rep);
        if RasterStep(rows, d, rep).Some? {
          var next := RasterStep(rows, d, rep).value;
          RasterStepShape(rows, d, rep);
          NamedAfterStep(rows, next, names);
          AoiFoldSucceeds(next, names[1..], outcomes[1..]);
        }
      }
    }
  }

  lemma {:induction false} AoiFoldShape(rows: seq<AoiRow>, names: seq<string>, outcomes: seq<Option<seq<(int, int)>>>)
    requires |names| == |outcomes| && forall k :: 0 <= k < |names| ==> Named(rows, names[k])
    ensures AoiFold(rows, names, outcomes).Some? ==>
      |AoiFold(rows, names, outcomes).value| == |rows| &&
      (forall i :: 0 <= i < |rows| ==> AoiFold(rows, names, outcomes).value[i].name == rows[i].name) &&
      (forall i :: 0 <= i < |rows| && rows[i].name !in names ==> AoiFold(rows, names, outcomes).value[i] == rows[i])
    decreases |names|
  {
    if names != [] && outcomes[0].Some? && RasterStep(rows, names[0], outcomes[0].value).Some? {
      var d, rep := names[0], outcomes[0].value;
      var next := RasterStep(rows, d, rep).value;
      RasterStepShape(rows, d, rep);
      NamedAfterStep(rows, next, names);
      AoiFoldShape(next, names[1..], outcomes[1..]);
      if AoiFold(rows, names, outcomes).Some? {
        var r := AoiFold(rows, names, outcomes).value;
        assert r == AoiFold(next, names[1..], outcomes[1..]).value;
        forall i | 0 <= i < |rows| && rows[i].name !in names ensures r[i] == rows[i] {
          assert rows[i].name !in names[1..];
        }
      }
    }
  }

  lemma {:induction false} AoiFoldCounts(rows: seq<AoiRow>, names: seq<string>, outcomes: seq<Option<seq<(int, int)>>>)
    requires |names| == |outcomes| && forall k :: 0 <= k < |names| ==> Named(rows, names[k])
    requires Distinct(names) && AllCategorised(outcomes)
    ensures AoiFold(rows, names, outcomes).Some? && |AoiFold(rows, names, outcomes).value| == |rows|
    ensures forall i, k, c :: 0 <= i < |rows| && 0 <= k < |names| && rows[i].name == names[k] ==>
              GetCat(AoiFold(rows, names, outcomes).value[i], c) == Some(Reported(outcomes[k].value, CodeOf(c)))
    decreases |names|
  {
    AoiFoldSucceeds(rows, names, outcomes);
    AoiFoldShape(rows, names, outcomes);
    if names != [] {
      var d, rep := names[0], outcomes[0].value;
      AllCategorisedCons(outcomes);
      RasterStepSucceeds(rows, d, rep);
      var next := RasterStep(rows, d, rep).value;
      RasterStepShape(rows, d, rep);
      RasterStepCounts(rows, d, rep);
      NamedAfterStep(rows, next, names);
      var tail := names[1..];
      assert Distinct(tail) by {
        forall i, j | 0 <= i < j < |tail| ensures tail[i] != tail[j] {
          assert tail[i] == names[i + 1] && tail[j] == names[j + 1];
        }
      }
      AoiFoldShape(next, tail, outcomes[1..]);
      AoiFoldCounts(next, tail, outcomes[1..]);
      var r := AoiFold(rows, names, outcomes).value;
      assert r == AoiFold(next, tail, outcomes[1..]).value;
      forall i, k, c | 0 <= i < |rows| && 0 <= k < |names| && rows[i].name == names[k]
        ensures GetCat(r[i], c) == Some(Reported(outcomes[k].value, CodeOf(c)))
      {
        if k == 0 {
          assert next[i].name !in tail by {
            forall j | 0 <= j < |tail| ensures tail[j] != names[0] {
              assert tail[j] == names[j + 1];
            }
          }
        } else {
          assert tail[k - 1] == names[k] && outcomes[1..][k - 1] == outcomes[k];
          assert next[i].name == tail[k - 1];
        }
      }
    }
  }
}
