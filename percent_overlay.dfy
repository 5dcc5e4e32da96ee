/**
 * The zonal overlay of habitat.py (`PercentOverlay`) and representation.py
 * (`Calculate`): the result table df1 starts with every (species, zone)
 * pair at 0; each species' summed raster (habitat map + 10 * zone raster)
 * is tabulated into df2, decoded and written into df1; the derived columns
 * are computed and the run's table is merged into the master.
 *
 * The raster steps are not modelled: what a species contributes is the
 * attribute table its summed raster yields (None when CellStatistics or a
 * step before the cursor raised).
 */
module PercentOverlay {
  import opened Wrappers
  import opened Cursors
  import opened ZoneCodes
  import opened CodeCounts
  import opened SpeciesIndex
  import opened ZoneFill
  import opened DerivedColumns
  import opened Frames

  type SumCursor = Cursor<(int, int)>

  /** The result index: (GeoTiff, Zone). */
  type Key = (string, int)

  /** df2 of one species before decoding: every expected code at 0, then the cursor's rows stored in order. */
  function SpeciesCounts(zones: seq<int>, cursor: SumCursor): CountTable
  {
    Filled(Zeros(ExpectedCodes(zones)), cursor.rows)
  }

  /**
   * One species' pass over df1. In habitat.py the decoding and the fill sit
   * in a try block: a code that does not decode leaves df1 as it was, and a
   * lookup that raises keeps the cells already written. In
   * representation.py either exception ends the run (None).
   */
  function SpeciesStep(script: Script, zones: seq<int>, rows: seq<ZoneRow>, sp: string, cursor: SumCursor): Option<seq<ZoneRow>>
  {
    match DecodeAll(script, SpeciesCounts(zones, cursor))
    case None => if script == HabitatScript then Some(rows) else None
    case Some(entries) =>
      var plan := FillPlan(entries);
      if plan.complete || script == HabitatScript then Some(ApplyCells(rows, sp, plan.cells)) else None
  }

  /**
   * The species loop. When CellStatistics raises in habitat.py the name
   * `Sum` still holds the previous species' raster (or nothing before the
   * first success, and the cursor's NameError is caught with df2 left at 0);
   * representation.py has no try there and fails.
   */
  function Fold(script: Script, zones: seq<int>, rows: seq<ZoneRow>, last: Option<SumCursor>,
                spp: seq<string>, outcomes: seq<Option<SumCursor>>): Option<seq<ZoneRow>>
    requires |spp| == |outcomes|
    decreases |spp|
  {
    if spp == [] then Some(rows)
    else if outcomes[0].None? && script == RepresentationScript then None
    else
      var current := if outcomes[0].Some? then outcomes[0] else last;
      var cursor := if current.Some? then current.value else Cursor([], true);
      match SpeciesStep(script, zones, rows, spp[0], cursor)
      case None => None
      case Some(next) => Fold(script, zones, next, current, spp[1..], outcomes[1..])
  }

  const RunColumns: set<string> :=
    {"strUC", "PercSummer", "PercWinter", "PercYearRound", "NonHabitatPixels", "SummerPixels", "WinterPixels",
     "AllYearPixels", "ZoneTotal", "SummerPixelTotal", "WinterPixelTotal", "AllYearPixelTotal"}

  /** A percentage as a float cell: finite, or an infinity of a sign. */
  function PercCell(q: Quotient): Cell
  {
    match q
    case Finite(v) => RealCell(v)
    case Infinite(positive) => InfCell(positive)
  }

  function RowCells(d: Derived): Row
  {
    map["strUC" := TextCell(d.strUC), "PercSummer" := PercCell(d.percSummer), "PercWinter" := PercCell(d.percWinter),
        "PercYearRound" := PercCell(d.percYearRound), "NonHabitatPixels" := IntCell(d.nonHabitat),
        "SummerPixels" := IntCell(d.summer), "WinterPixels" := IntCell(d.winter), "AllYearPixels" := IntCell(d.allYear),
        "ZoneTotal" := IntCell(d.zoneTotal), "SummerPixelTotal" := IntCell(d.summerTotal),
        "WinterPixelTotal" := IntCell(d.winterTotal), "AllYearPixelTotal" := IntCell(d.allYearTotal)]
  }

  /** df3 re-indexed by (GeoTiff, Zone), as saved under the archive directory and merged into the master. */
  function RunTable(ds: seq<Derived>): (t: Table<Key>)
    ensures Valid(t) && t.columns == RunColumns
    ensures |t.rows| == |ds| && forall i :: 0 <= i < |ds| ==> t.rows[i] == ((ds[i].species, ds[i].zone), RowCells(ds[i]))
  {
    Table(RunColumns, seq(|ds|, i requires 0 <= i < |ds| => ((ds[i].species, ds[i].zone), RowCells(ds[i]))))
  }

  /**
   * A whole run, given the zone values, the habitat maps and each map's
   * summed-raster table. With no species, the name `starttime` used to
   * build the archive file name is unbound and the run fails.
   */
  function Run(script: Script, zones: seq<int>, spp: seq<string>, outcomes: seq<Option<SumCursor>>,
               master: Option<Table<Key>>): Option<Merged<Key>>
    requires |spp| == |outcomes|
  {
    match Fold(script, zones, InitialRows(spp, zones), None, spp, outcomes)
    case None => None
    case Some(rows) =>
      if spp == [] then None
      else
        match Derive(rows)
        case None => None
        case Some(ds) => Merge(master, RunTable(ds))
  }

  /**
   * One iteration of the species loop on its own: None when the exception
   * ends the run, otherwise df1 afterwards and the `Sum` kept for the next
   * species.
   */
  function FoldStep(script: Script, zones: seq<int>, rows: seq<ZoneRow>, last: Option<SumCursor>,
                    sp: string, outcome: Option<SumCursor>): Option<(seq<ZoneRow>, Option<SumCursor>)>
  {
    if outcome.None? && script == RepresentationScript then None
    else
      var current := if outcome.Some? then outcome else last;
      var cursor := if current.Some? then current.value else Cursor([], true);
      match SpeciesStep(script, zones, rows, sp, cursor)
      case None => None
      case Some(next) => Some((next, current))
  }

  /** Fold over a non-empty list is one FoldStep and then Fold over the rest. */
  lemma FoldCons(script: Script, zones: seq<int>, rows: seq<ZoneRow>, last: Option<SumCursor>,
                 spp: seq<string>, outcomes: seq<Option<SumCursor>>)
    requires |spp| == |outcomes| && spp != []
    ensures Fold(script, zones, rows, last, spp, outcomes) ==
      match FoldStep(script, zones, rows, last, spp[0], outcomes[0])
      case None => None
      case Some(step) => Fold(script, zones, step.0, step.1, spp[1..], outcomes[1..])
  {
  }

  /** One iteration of the species loop, changing df1 in place. */
  method SpeciesPass(frame: ZoneFrame, script: Script, zones: seq<int>, last: Option<SumCursor>,
                     sp: string, outcome: Option<SumCursor>) returns (ok: bool, current: Option<SumCursor>)
    modifies frame
    ensures ok == FoldStep(script, zones, old(frame.rows), last, sp, outcome).Some?
    ensures ok ==> (frame.rows, current) == FoldStep(script, zones, old(frame.rows), last, sp, outcome).value
  {
    current := last;
    if outcome.None? && script == RepresentationScript {
      return false, current;
    }
    if outcome.Some? {
      current := outcome;
    }
    var cursor := if current.Some? then current.value else Cursor([], true);
    var flagged;
    ok, flagged := OverlaySpecies(frame, script, zones, sp, cursor);
  }

  /**
   * One species: build the expected codes, fill df2 from the cursor (also
   * returning the values logged as unexpected), decode, and fill df1 in
   * place. ok is false when the exception would end the run.
   */
  method OverlaySpecies(frame: ZoneFrame, script: Script, zones: seq<int>, sp: string, cursor: SumCursor)
    returns (ok: bool, flagged: seq<int>)
    modifies frame
    ensures flagged == Flagged(Zeros(ExpectedCodes(zones)), cursor.rows)
    ensures ok == SpeciesStep(script, zones, old(frame.rows), sp, cursor).Some?
    ensures ok ==> frame.rows == SpeciesStep(script, zones, old(frame.rows), sp, cursor).value
  {
    var codes := BuildExpectedCodes(zones);
    var df2;
    df2, flagged := FillFromCursor(Zeros(codes), cursor);
    var entries := DecodeAll(script, df2);
    if entries.None? {
      ok := script == HabitatScript;
      return;
    }
    var complete := frame.FillSpecies(sp, entries.value);
    ok := complete || script == HabitatScript;
  }

  /** The species loop over a fresh df1; None when an exception ends the run. */
  method FillAll(script: Script, zones: seq<int>, spp: seq<string>, outcomes: seq<Option<SumCursor>>)
    returns (rows: Option<seq<ZoneRow>>)
    requires |spp| == |outcomes|
    ensures rows == Fold(script, zones, InitialRows(spp, zones), None, spp, outcomes)
  {
    var frame := new ZoneFrame(spp, zones);
    var last: Option<SumCursor> := None;
    var rest, restOutcomes := spp, outcomes;
    while rest != []
      invariant |rest| == |restOutcomes|
      invariant Fold(script, zones, InitialRows(spp, zones), None, spp, outcomes) ==
                Fold(script, zones, frame.rows, last, rest, restOutcomes)
      decreases |rest|
    {
      FoldCons(script, zones, frame.rows, last, rest, restOutcomes);
      var ok;
      ok, last := SpeciesPass(frame, script, zones, last, rest[0], restOutcomes[0]);
      if !ok {
        return None;
      }
      rest, restOutcomes := rest[1..], restOutcomes[1..];
    }
    rows := Some(frame.rows);
  }

  /** The whole run: df1 filled species by species, then the derived table merged into the master. */
  method PercentOverlay(script: Script, zones: seq<int>, spp: seq<string>, outcomes: seq<Option<SumCursor>>,
                        master: Option<Table<Key>>) returns (r: Option<Merged<Key>>)
    requires |spp| == |outcomes|
    ensures r == Run(script, zones, spp, outcomes, master)
  {
    var rows := FillAll(script, zones, spp, outcomes);
    if rows.None? || |spp| == 0 {
      return None;
    }
    var ds := Derive(rows.value);
    if ds.None? {
      return None;
    }
    r := SaveMaster(master, RunTable(ds.value));
  }

  /** The four columns of a zone's row when df2 held every expected code. */
  function ReportedCounts(rows: seq<(int, int)>, z: int): (c: Counts)
    ensures forall s :: Get(c, s) == Some(Reported(rows, Encode(SeasonCode(s), z)))
  {
    Counts(Some(Reported(rows, Encode(0, z))), Some(Reported(rows, Encode(1, z))),
           Some(Reported(rows, Encode(2, z))), Some(Reported(rows, Encode(3, z))))
  }

  /** Only codes of the listed zones are reported. */
  predicate OnlyExpected(zones: seq<int>, cursor: SumCursor)
  {
    forall j :: 0 <= j < |cursor.rows| ==> cursor.rows[j].0 in ExpectedCodes(zones)
  }

  /**
   * When the cursor only reports expected codes, df2 keeps the expected index
   * and holds, for each code, the count the cursor reported last, or 0 for a
   * code it did not report.
   */
  lemma ExpectedCounts(zones: seq<int>, cursor: SumCursor)
    requires OnlyExpected(zones, cursor)
    ensures var t, e := SpeciesCounts(zones, cursor), ExpectedCodes(zones);
      |t| == |e| && forall j :: 0 <= j < |t| ==> t[j] == (e[j], Reported(cursor.rows, e[j]))
  {
    var e := ExpectedCodes(zones);
    var t0 := Zeros(e);
    forall j | 0 <= j < |cursor.rows| ensures HasCode(t0, cursor.rows[j].0) {
      assert cursor.rows[j].0 in e;
      var k :| 0 <= k < |e| && e[k] == cursor.rows[j].0;
      assert t0[k].0 == e[k];
    }
    FilledKeepsIndex(t0, cursor.rows);
    FilledLayout(t0, cursor.rows);
    var t := SpeciesCounts(zones, cursor);
    forall j | 0 <= j < |t| ensures t[j] == (e[j], Reported(cursor.rows, e[j])) {
      FilledCounts(t0, cursor.rows, j);
    }
  }

  /** The columns of a row of zone zones[k] after the complete fill: every class written from df2. */
  lemma WrittenExpected(zones: seq<int>, t: CountTable, c: Counts, k: nat)
    requires Distinct(zones) && |t| == 4 * |zones| && k < |zones|
    ensures forall s :: Get(Written(c, FillPlan(ExpectedEntries(zones, t)).cells, zones[k]), s) ==
                        Some(t[4 * k + SeasonCode(s)].1)
  {
    forall s ensures Get(Written(c, FillPlan(ExpectedEntries(zones, t)).cells, zones[k]), s) == Some(t[4 * k + SeasonCode(s)].1) {
      WrittenExpectedAt(zones, t, c, k, s);
    }
  }

  lemma WrittenExpectedAt(zones: seq<int>, t: CountTable, c: Counts, k: nat, s: Season)
    requires Distinct(zones) && |t| == 4 * |zones| && k < |zones|
    ensures 4 * k + SeasonCode(s) < |t|
    ensures Get(Written(c, FillPlan(ExpectedEntries(zones, t)).cells, zones[k]), s) == Some(t[4 * k + SeasonCode(s)].1)
  {
    var cells := FillPlan(ExpectedEntries(zones, t)).cells;
    var v := t[4 * k + SeasonCode(s)].1;
    FillExpectedLabels(zones, t);
    assert (zones[k], s) in CellLabels(cells);
    forall j | 0 <= j < |cells| && cells[j].0 == zones[k] && cells[j].1 == s ensures cells[j].2 == v {
      CellExpected(zones, t, k, j, s);
    }
    LastCellUniform(cells, zones[k], s, v);
  }

  /** With df2 as the expected counts, a listed zone's row ends with the reported counts. */
  lemma WrittenReported(zones: seq<int>, rs: seq<(int, int)>, t: CountTable, c: Counts, k: nat)
    requires Distinct(zones) && k < |zones|
    requires |t| == |ExpectedCodes(zones)| && forall j :: 0 <= j < |t| ==> t[j] == (ExpectedCodes(zones)[j], Reported(rs, ExpectedCodes(zones)[j]))
    ensures Written(c, FillPlan(ExpectedEntries(zones, t)).cells, zones[k]) == ReportedCounts(rs, zones[k])
  {
    var w := Written(c, FillPlan(ExpectedEntries(zones, t)).cells, zones[k]);
    WrittenExpected(zones, t, c, k);
    forall s ensures Get(w, s) == Get(ReportedCounts(rs, zones[k]), s) {
      BlockOffset(k, SeasonCode(s));
      assert t[4 * k + SeasonCode(s)].0 == Encode(SeasonCode(s), zones[k]);
    }
    CountsEqual(w, ReportedCounts(rs, zones[k]));
  }

  /** The columns of a row whose zone is not listed: no cell is written to it. */
  lemma WrittenUnlisted(zones: seq<int>, t: CountTable, c: Counts, z: int)
    requires Distinct(zones) && |t| == 4 * |zones| && z !in zones
    ensures Written(c, FillPlan(ExpectedEntries(zones, t)).cells, z) == c
  {
    FillExpected(zones, t);
    CountsEqual(Written(c, FillPlan(ExpectedEntries(zones, t)).cells, z), c);
  }

  /**
   * A species' pass with distinct, decodable zones, a cursor that reports
   * only expected codes, and a row for the species in every zone: nothing
   * is appended, every row of the species and a listed zone gets, for each
   * class k, the count reported for code k + 10 * zone (0 when it was not
   * reported), and every other row is left alone.
   */
  lemma SpeciesStepExpected(script: Script, zones: seq<int>, rows: seq<ZoneRow>, sp: string, cursor: SumCursor)
    requires Distinct(zones) && ZonesAllowed(script, zones) && OnlyExpected(zones, cursor)
    requires forall z :: z in zones ==> HasRow(rows, sp, z)
    ensures SpeciesStep(script, zones, rows, sp, cursor).Some?
    ensures var r := SpeciesStep(script, zones, rows, sp, cursor).value;
      |r| == |rows| && forall i :: 0 <= i < |rows| ==>
        r[i] == if rows[i].species == sp && rows[i].zone in zones
                then rows[i].(counts := ReportedCounts(cursor.rows, rows[i].zone)) else rows[i]
  {
    var t := SpeciesCounts(zones, cursor);
    var e := ExpectedCodes(zones);
    ExpectedCounts(zones, cursor);
    DecodeExpected(script, zones, t);
    FillExpected(zones, t);
    var cells := FillPlan(ExpectedEntries(zones, t)).cells;
    forall k | 0 <= k < |cells| ensures HasRow(rows, sp, cells[k].0) {
      assert (cells[k].0, cells[k].1) in CellLabels(cells);
    }
    ApplyCellsEffect(rows, sp, cells);
    var r := ApplyCells(rows, sp, cells);
    forall i | 0 <= i < |rows| && rows[i].species == sp
      ensures Written(rows[i].counts, cells, rows[i].zone) ==
              if rows[i].zone in zones then ReportedCounts(cursor.rows, rows[i].zone) else rows[i].counts
    {
      var z := rows[i].zone;
      if z in zones {
        var k :| 0 <= k < |zones| && zones[k] == z;
        WrittenReported(zones, cursor.rows, t, rows[i].counts, k);
      } else {
        WrittenUnlisted(zones, t, rows[i].counts, z);
      }
    }
  }

  /** Every species' summed raster was built and reports only expected codes. */
  predicate AllExpected(zones: seq<int>, outcomes: seq<Option<SumCursor>>)
  {
    forall j :: 0 <= j < |outcomes| ==> outcomes[j].Some? && OnlyExpected(zones, outcomes[j].value)
  }

  /**
   * The species loop over distinct species: each species' rows in a listed
   * zone end with that species' reported counts, every other row is left
   * alone, and no row is appended.
   */
  lemma {:induction false} FoldExpected(script: Script, zones: seq<int>, rows: seq<ZoneRow>, last: Option<SumCursor>,
                                        spp: seq<string>, outcomes: seq<Option<SumCursor>>)
    requires |spp| == |outcomes| && Distinct(spp) && Distinct(zones) && ZonesAllowed(script, zones)
    requires AllExpected(zones, outcomes)
    requires forall j, z :: 0 <= j < |spp| && z in zones ==> HasRow(rows, spp[j], z)
    ensures Fold(script, zones, rows, last, spp, outcomes).Some?
    ensures var r := Fold(script, zones, rows, last, spp, outcomes).value;
      && |r| == |rows|
      && (forall i, j :: 0 <= i < |rows| && 0 <= j < |spp| && rows[i].species == spp[j] && rows[i].zone in zones ==>
            r[i] == rows[i].(counts := ReportedCounts(outcomes[j].value.rows, rows[i].zone)))
      && (forall i :: 0 <= i < |rows| && (rows[i].species !in spp || rows[i].zone !in zones) ==> r[i] == rows[i])
    decreases |spp|
  {
    if spp != [] {
      var cursor := outcomes[0].value;
      SpeciesStepExpected(script, zones, rows, spp[0], cursor);
      var next := SpeciesStep(script, zones, rows, spp[0], cursor).value;
      forall i | 0 <= i < |rows| ensures next[i].species == rows[i].species && next[i].zone == rows[i].zone {
      }
      HasRowsKept(rows, next, spp, zones);
      AllExpectedTail(zones, outcomes);
      FoldExpected(script, zones, next, outcomes[0], spp[1..], outcomes[1..]);
      FoldExpectedStep(zones, rows, next, Fold(script, zones, rows, last, spp, outcomes).value, spp, outcomes);
    }
  }

  /** The rows a species step leaves labelled as before still hold a row for every remaining species and zone. */
  lemma HasRowsKept(rows: seq<ZoneRow>, next: seq<ZoneRow>, spp: seq<string>, zones: seq<int>)
    requires spp != [] && |next| == |rows|
    requires forall i :: 0 <= i < |rows| ==> next[i].species == rows[i].species && next[i].zone == rows[i].zone
    requires forall j, z :: 0 <= j < |spp| && z in zones ==> HasRow(rows, spp[j], z)
    ensures forall j, z :: 0 <= j < |spp[1..]| && z in zones ==> HasRow(next, spp[1..][j], z)
  {
    forall j, z | 0 <= j < |spp[1..]| && z in zones ensures HasRow(next, spp[1..][j], z) {
      assert spp[1..][j] == spp[j + 1];
      var i :| 0 <= i < |rows| && rows[i].species == spp[j + 1] && rows[i].zone == z;
      assert next[i].species == rows[i].species && next[i].zone == z;
    }
  }

  lemma AllExpectedTail(zones: seq<int>, outcomes: seq<Option<SumCursor>>)
    requires outcomes != [] && AllExpected(zones, outcomes)
    ensures AllExpected(zones, outcomes[1..])
  {
    assert forall j :: 0 <= j < |outcomes[1..]| ==> outcomes[1..][j] == outcomes[j + 1];
  }

  /**
   * The inductive step of FoldExpected on plain sequences: the first
   * species' step followed by the rest of the loop writes every species'
   * counts.
   */
  lemma FoldExpectedStep(zones: seq<int>, rows: seq<ZoneRow>, next: seq<ZoneRow>, r: seq<ZoneRow>,
                         spp: seq<string>, outcomes: seq<Option<SumCursor>>)
    requires |spp| == |outcomes| && spp != [] && Distinct(spp) && AllExpected(zones, outcomes)
    requires |next| == |rows| && forall i :: 0 <= i < |rows| ==>
      next[i] == if rows[i].species == spp[0] && rows[i].zone in zones
                 then rows[i].(counts := ReportedCounts(outcomes[0].value.rows, rows[i].zone)) else rows[i]
    requires |r| == |next|
    requires forall i, j :: 0 <= i < |next| && 0 <= j < |spp[1..]| && next[i].species == spp[1..][j] && next[i].zone in zones ==>
      outcomes[1..][j].Some? && r[i] == next[i].(counts := ReportedCounts(outcomes[1..][j].value.rows, next[i].zone))
    requires forall i :: 0 <= i < |next| && (next[i].species !in spp[1..] || next[i].zone !in zones) ==> r[i] == next[i]
    ensures forall i, j :: 0 <= i < |rows| && 0 <= j < |spp| && rows[i].species == spp[j] && rows[i].zone in zones ==>
      r[i] == rows[i].(counts := ReportedCounts(outcomes[j].value.rows, rows[i].zone))
    ensures forall i :: 0 <= i < |rows| && (rows[i].species !in spp || rows[i].zone !in zones) ==> r[i] == rows[i]
  {
    var spp', outcomes' := spp[1..], outcomes[1..];
    forall k | 0 <= k < |spp'| ensures spp'[k] != spp[0] {
      assert spp'[k] == spp[k + 1];
    }
    forall i, j | 0 <= i < |rows| && 0 <= j < |spp| && rows[i].species == spp[j] && rows[i].zone in zones
      ensures r[i] == rows[i].(counts := ReportedCounts(outcomes[j].value.rows, rows[i].zone))
    {
      if j > 0 {
        assert spp'[j - 1] == spp[j] && outcomes'[j - 1] == outcomes[j];
        assert next[i] == rows[i];
      } else {
        assert next[i].species == spp[0] && spp[0] !in spp';
      }
    }
    forall i | 0 <= i < |rows| && (rows[i].species !in spp || rows[i].zone !in zones) ensures r[i] == rows[i] {
      if rows[i].species !in spp {
        assert rows[i].species !in spp' && rows[i].species != spp[0];
      }
    }
  }

  /**
   * A whole species loop under the intended use (distinct species and
   * zones, decodable zones, only expected codes reported): df1 is its
   * initial index, every (species, zone) row holding, for class k, the
   * count that species' table reports for code k + 10 * zone, or 0.
   */
  lemma LoopFillsEveryPair(script: Script, zones: seq<int>, spp: seq<string>, outcomes: seq<Option<SumCursor>>)
    requires |spp| == |outcomes| && Distinct(spp) && Distinct(zones) && ZonesAllowed(script, zones)
    requires AllExpected(zones, outcomes)
    ensures Fold(script, zones, InitialRows(spp, zones), None, spp, outcomes).Some?
    ensures var r, pairs := Fold(script, zones, InitialRows(spp, zones), None, spp, outcomes).value, IndexPairs(spp, zones);
      && |r| == |pairs|
      && (forall i :: 0 <= i < |r| ==> r[i].species == pairs[i].0 && r[i].zone == pairs[i].1)
      && (forall i, j :: 0 <= i < |r| && 0 <= j < |spp| && r[i].species == spp[j] ==>
            r[i].counts == ReportedCounts(outcomes[j].value.rows, r[i].zone))
  {
    var rows, pairs := InitialRows(spp, zones), IndexPairs(spp, zones);
    InitialRowsCover(spp, zones);
    InitialRowsListed(spp, zones);
    FoldExpected(script, zones, rows, None, spp, outcomes);
    var r := Fold(script, zones, rows, None, spp, outcomes).value;
    forall i | 0 <= i < |r| ensures r[i].species == rows[i].species && r[i].zone == rows[i].zone {
      assert rows[i].species in spp;
      var j :| 0 <= j < |spp| && spp[j] == rows[i].species;
      assert r[i] == rows[i].(counts := ReportedCounts(outcomes[j].value.rows, rows[i].zone));
    }
    forall i, j | 0 <= i < |r| && 0 <= j < |spp| && r[i].species == spp[j]
      ensures r[i].counts == ReportedCounts(outcomes[j].value.rows, r[i].zone)
    {
      assert rows[i].species == spp[j] && rows[i].zone in zones;
    }
  }

  /** The initial df1 has a row for every listed species in every listed zone. */
  lemma InitialRowsCover(spp: seq<string>, zones: seq<int>)
    ensures forall j, z :: 0 <= j < |spp| && z in zones ==> HasRow(InitialRows(spp, zones), spp[j], z)
  {
    var rows, pairs := InitialRows(spp, zones), IndexPairs(spp, zones);
    forall j, z | 0 <= j < |spp| && z in zones ensures HasRow(rows, spp[j], z) {
      IndexCovers(spp, zones, spp[j], z);
      var i :| 0 <= i < |pairs| && pairs[i] == (spp[j], z);
      assert rows[i].species == spp[j] && rows[i].zone == z;
    }
  }

  /** Every row of the initial df1 is a listed species in a listed zone. */
  lemma InitialRowsListed(spp: seq<string>, zones: seq<int>)
    ensures forall i :: 0 <= i < |InitialRows(spp, zones)| ==>
              InitialRows(spp, zones)[i].species in spp && InitialRows(spp, zones)[i].zone in zones
  {
    var rows, pairs := InitialRows(spp, zones), IndexPairs(spp, zones);
    forall i | 0 <= i < |rows| ensures rows[i].species in spp && rows[i].zone in zones {
      assert pairs[i] in pairs;
      IndexOnlyListed(spp, zones, pairs[i].0, pairs[i].1);
    }
  }
}
